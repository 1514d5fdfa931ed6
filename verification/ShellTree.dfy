/** The commands of sh.c, and the command that a derivation dictates. */
module ShellTree {
  import opened ShellGrammar

  /** Words and files are pieces of the line, from argv[i] or file to eargv[i] or efile. */
  datatype Cmd =
    | ExecCmd(argv: seq<Span>)
    | RedirCmd(cmd: Cmd, file: Span, mode: nat, fd: nat)
    | PipeCmd(left: Cmd, right: Cmd)
    | ListCmd(left: Cmd, right: Cmd)
    | BackCmd(cmd: Cmd)

  // The command that a derivation dictates

  function Mode(op: Token): (m: nat) {
    if op == Sym('<') then O_RDONLY else O_WRONLY + O_CREATE
  }

  function Fd(op: Token): (fd: nat) {
    if op == Sym('<') then 0 else 1
  }

  /** Each redirection is wrapped around those before it. */
  function Redirected(c: Cmd, rs: seq<Redirect>): (r: Cmd)
    decreases |rs|
  {
    if rs == [] then c else Redirected(RedirCmd(c, rs[0].file, Mode(rs[0].op), Fd(rs[0].op)), rs[1..])
  }

  function Words(args: seq<Arg>): (w: seq<Span>)
    ensures |w| == |args|
  {
    seq(|args|, i requires 0 <= i < |args| => args[i].word)
  }

  function AllRedirects(args: seq<Arg>): (rs: seq<Redirect>) {
    if args == [] then [] else args[0].redirects + AllRedirects(args[1..])
  }

  function ExecTree(e: Exec): (c: Cmd) {
    match e
    case Block(line, after) => Redirected(LineTree(line), after)
    case Simple(before, args) => Redirected(ExecCmd(Words(args)), before + AllRedirects(args))
  }

  function PipelineTree(p: Pipeline): (c: Cmd) {
    match p
    case Single(e) => ExecTree(e)
    case Piped(e, rest) => PipeCmd(ExecTree(e), PipelineTree(rest))
  }

  function Backgrounds(c: Cmd, n: nat): (r: Cmd) {
    if n == 0 then c else BackCmd(Backgrounds(c, n - 1))
  }

  function LineTree(l: Line): (c: Cmd) {
    match l
    case Last(p, amps) => Backgrounds(PipelineTree(p), amps)
    case Then(p, amps, next) => ListCmd(Backgrounds(PipelineTree(p), amps), LineTree(next))
  }

  /** Storing a word in the exec command under the redirections. */
  function WithArg(c: Cmd, w: Span): (r: Cmd) {
    match c
    case ExecCmd(argv) => ExecCmd(argv + [w])
    case RedirCmd(inner, file, mode, fd) => RedirCmd(WithArg(inner, w), file, mode, fd)
    case _ => c
  }

  lemma {:induction false} WithArgUnder(c: Cmd, rs: seq<Redirect>, w: Span)
    ensures WithArg(Redirected(c, rs), w) == Redirected(WithArg(c, w), rs)
    decreases |rs|
  {
    if rs != [] {
      WithArgUnder(RedirCmd(c, rs[0].file, Mode(rs[0].op), Fd(rs[0].op)), rs[1..], w);
    }
  }

  lemma {:induction false} RedirectedTwice(c: Cmd, rs: seq<Redirect>, more: seq<Redirect>)
    ensures Redirected(Redirected(c, rs), more) == Redirected(c, rs + more)
    decreases |rs|
  {
    if rs == [] {
      assert rs + more == more;
    } else {
      assert (rs + more)[1..] == rs[1..] + more;
      RedirectedTwice(RedirCmd(c, rs[0].file, Mode(rs[0].op), Fd(rs[0].op)), rs[1..], more);
    }
  }

  lemma RedirectedOnce(c: Cmd, r: Redirect)
    ensures Redirected(c, [r]) == RedirCmd(c, r.file, Mode(r.op), Fd(r.op))
  {
    assert [r][1..] == [];
  }

  lemma {:induction false} AllRedirectsMore(args: seq<Arg>, a: Arg)
    ensures AllRedirects(args + [a]) == AllRedirects(args) + a.redirects
    decreases |args|
  {
    if args == [] {
      assert [a][1..] == [];
      assert a.redirects + [] == a.redirects;
    } else {
      assert (args + [a])[1..] == args[1..] + [a];
      AllRedirectsMore(args[1..], a);
    }
  }

  /** A word and the redirections after it, on top of what came before. */
  lemma ArgAdded(before: seq<Redirect>, args: seq<Arg>, w: Span, rs: seq<Redirect>)
    ensures Redirected(WithArg(ExecTree(Simple(before, args)), w), rs) == ExecTree(Simple(before, args + [Arg(w, rs)]))
  {
    var all := before + AllRedirects(args);
    var next := args + [Arg(w, rs)];
    WithArgUnder(ExecCmd(Words(args)), all, w);
    assert Words(args) + [w] == Words(next);
    RedirectedTwice(ExecCmd(Words(next)), all, rs);
    AllRedirectsMore(args, Arg(w, rs));
    assert all + rs == before + (AllRedirects(args) + rs);
  }

  // The pieces of the line in a command

  /** A maximal run of word characters. */
  predicate WordAt(s: string, w: Span) {
    && w.b < w.e <= |s| && (forall i :: w.b <= i < w.e ==> IsWordChar(s[i]))
    && (w.e < |s| ==> !IsWordChar(s[w.e]))
  }

  /** w is an argument or a file name of c. */
  predicate Uses(c: Cmd, w: Span) {
    match c
    case ExecCmd(argv) => w in argv
    case RedirCmd(inner, file, _, _) => Uses(inner, w) || w == file
    case PipeCmd(l, r) => Uses(l, w) || Uses(r, w)
    case ListCmd(l, r) => Uses(l, w) || Uses(r, w)
    case BackCmd(inner) => Uses(inner, w)
  }

  lemma TokenWord(s: string, i: nat)
    requires i < |s| && !IsSpace(s[i]) && TokenAt(s, i).Word?
    ensures WordAt(s, TokenAt(s, i).at)
  {
  }

  lemma LexFirst(s: string, i: nat)
    requires i <= |s|
    ensures var j := SkipSpace(s, i);
            if j == |s| then Lex(s, i) == [] == Lex(s, j)
            else
              && !IsSpace(s[j]) && Lex(s, i) != [] && Lex(s, i)[0] == TokenAt(s, j)
              && Lex(s, i)[1..] == Lex(s, TokenEnd(s, j))
  {
    SkipTwice(s, i);
  }
}
