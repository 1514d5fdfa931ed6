/** The parser of sh.c as it works on the input line: a cursor moves over the buffer, commands point into it, and
    nulterminate cuts it up in place. */
module Shell {
  import opened ShellGrammar
  import opened ShellOrder
  import opened ShellTree

  // The pieces of the line in a command

  predicate SpansOk(c: Cmd, s: string) {
    match c
    case ExecCmd(argv) => forall i :: 0 <= i < |argv| ==> WordAt(s, argv[i])
    case RedirCmd(inner, file, _, _) => SpansOk(inner, s) && WordAt(s, file)
    case PipeCmd(l, r) => SpansOk(l, s) && SpansOk(r, s)
    case ListCmd(l, r) => SpansOk(l, s) && SpansOk(r, s)
    case BackCmd(inner) => SpansOk(inner, s)
  }

  /** Some piece of c ends at i. */
  ghost predicate EndsAt(c: Cmd, i: nat) {
    exists w :: Uses(c, w) && w.e == i
  }

  lemma LexEmpty(s: string, i: nat)
    requires i <= |s|
    ensures Lex(s, i) == [] <==> SkipSpace(s, i) == |s|
  {
  }

  datatype Got = End | Tok(t: Token)
  datatype Result = Done(cmd: Cmd) | Panic

  class Parser {
    const buf: array<char>
    const es: nat
    var ps: nat

    ghost predicate Valid()
      reads this, buf
    {
      es < buf.Length && ps <= es && buf[es] == '\0' && forall i :: 0 <= i < es ==> buf[i] != '\0'
    }

    ghost function Text(): (s: string)
      reads this, buf
      requires Valid()
      ensures |s| == es
    {
      buf[..es]
    }

    /** The tokens still to be read. */
    ghost function Rest(): (ts: seq<Token>)
      reads this, buf
      requires Valid()
    {
      Lex(Text(), ps)
    }

    /** es is the end of the string: the first NUL. */
    constructor (line: array<char>)
      requires '\0' in line[..]
      ensures Valid() && buf == line && ps == 0
    {
      var n := 0;
      while line[n] != '\0'
        invariant 0 <= n < line.Length && '\0' in line[n..] && forall i :: 0 <= i < n ==> line[i] != '\0'
        decreases line.Length - n
      {
        assert line[n..] == [line[n]] + line[n + 1..];
        n := n + 1;
      }
      buf, es, ps := line, n, 0;
    }

    method SkipSpaces()
      requires Valid()
      modifies this`ps
      ensures Valid() && ps == SkipSpace(Text(), old(ps)) && Rest() == old(Rest())
    {
      SkipTwice(Text(), ps);
      while ps < es && IsSpace(buf[ps])
        invariant Valid() && SkipSpace(Text(), ps) == SkipSpace(Text(), old(ps))
        decreases es - ps
      {
        ps := ps + 1;
      }
    }

    /** The token that starts at the cursor. */
    method TakeToken() returns (t: Token)
      requires Valid() && ps < es && !IsSpace(buf[ps])
      modifies this`ps
      ensures Valid() && ps == TokenEnd(Text(), old(ps)) && t == TokenAt(Text(), old(ps))
    {
      ghost var s := Text();
      var q, c := ps, buf[ps];
      assert s[q] == c;
      if c in "|();&<" {
        ps := ps + 1;
        t := Sym(c);
      } else if c == '>' {
        ps := ps + 1;
        if buf[ps] == '>' {
          ps := ps + 1;
          t := Append;
        } else {
          t := Sym('>');
        }
      } else {
        while ps < es && !IsSpace(buf[ps]) && !IsSymbol(buf[ps])
          invariant Valid() && q <= ps && WordEnd(s, ps) == WordEnd(s, q)
          decreases es - ps
        {
          assert s[ps] == buf[ps];
          ps := ps + 1;
        }
        assert ps < es ==> s[ps] == buf[ps];
        t := Word(Span(q, ps));
      }
    }

    /** gettoken: the next token, if any, and the cursor past it. */
    method GetToken() returns (r: Got)
      requires Valid()
      modifies this`ps
      ensures Valid()
      ensures old(Rest()) == [] ==> r == End && Rest() == []
      ensures old(Rest()) != [] ==> r == Tok(old(Rest())[0]) && Rest() == old(Rest())[1..]
      ensures r.Tok? && r.t.Word? ==> WordAt(Text(), r.t.at)
    {
      hide TokenAt, TokenEnd, SkipSpace, WordAt;
      SkipSpaces();
      ghost var s, q := Text(), ps;
      LexFirst(s, old(ps));
      if buf[ps] == '\0' {
        return End;
      }
      assert s[ps] == buf[ps];
      var t := TakeToken();
      if t.Word? {
        TokenWord(s, q);
      }
      SkipSpaces();
      return Tok(t);
    }

    /** peek: does the next token start with one of these symbols? */
    method Peek(toks: string) returns (b: bool)
      requires Valid() && forall i :: 0 <= i < |toks| ==> IsSymbol(toks[i])
      modifies this`ps
      ensures Valid() && Rest() == old(Rest()) && ps == SkipSpace(Text(), old(ps))
      ensures b <==> Rest() != [] && ((Rest()[0].Sym? && Rest()[0].c in toks) || (Rest()[0] == Append && '>' in toks))
    {
      SkipSpaces();
      ghost var s := Text();
      SkipTwice(s, ps);
      LexEmpty(s, ps);
      b := buf[ps] != '\0' && buf[ps] in toks;
      if buf[ps] != '\0' {
        assert ps < es && s[ps] == buf[ps];
        assert Lex(s, ps)[0] == TokenAt(s, ps);
      }
    }

    /** parseredirs */
    method ParseRedirs(cmd: Cmd) returns (r: Result)
      requires Valid() && SpansOk(cmd, Text())
      modifies this`ps
      ensures Valid()
      ensures var p := ParseRedirects(old(Rest()));
              if p.Ok? then r == Done(Redirected(cmd, p.tree)) && Rest() == p.rest && SpansOk(r.cmd, Text())
              else r == Panic
    {
      hide ParseRedirects, WordAt, Lex, SkipSpace, RedirectsAhead, SpansOk, Redirected;
      ghost var ts, rs := Rest(), [];
      r := Done(cmd);
      RedirectsStart(ts, cmd);
      var more := Peek("<>");
      while more
        invariant Valid() && RedirectsAhead(ts, rs, Rest()) && r == Done(Redirected(cmd, rs)) && SpansOk(r.cmd, Text())
        invariant more <==> StartsRedirect(Rest())
        decreases |Rest()|
      {
        RedirectsMore(ts, rs, Rest());
        ghost var rest := Rest();
        r := ParseRedir(r.cmd);
        if r.Panic? {
          return;
        }
        RedirectedTwice(cmd, rs, [Redirect(rest[0], rest[1].at)]);
        rs := rs + [Redirect(rest[0], rest[1].at)];
        more := Peek("<>");
      }
      RedirectsEnd(ts, rs, Rest());
    }

    /** One redirection. */
    method ParseRedir(cmd: Cmd) returns (r: Result)
      requires Valid() && SpansOk(cmd, Text()) && StartsRedirect(Rest())
      modifies this`ps
      ensures Valid() && (r.Panic? <==> |old(Rest())| < 2 || !old(Rest())[1].Word?)
      ensures r.Done? ==>
                && r.cmd == Redirected(cmd, [Redirect(old(Rest())[0], old(Rest())[1].at)]) && SpansOk(r.cmd, Text())
                && Rest() == old(Rest())[2..]
    {
      hide Lex, SkipSpace, WordAt;
      var op := GetToken();
      var file := GetToken();
      if file.End? || !file.t.Word? {
        return Panic;
      }
      RedirectedOnce(cmd, Redirect(op.t, file.t.at));
      if op.t == Sym('<') {
        r := Done(RedirCmd(cmd, file.t.at, O_RDONLY, 0));
      } else if op.t == Sym('>') {
        r := Done(RedirCmd(cmd, file.t.at, O_WRONLY + O_CREATE, 1));
      } else {
        r := Done(RedirCmd(cmd, file.t.at, O_WRONLY + O_CREATE, 1));
      }
    }

    /** parseblock */
    method ParseBlock() returns (r: Result)
      requires Valid() && Starts(Rest(), '(')
      modifies this`ps
      ensures Valid()
      ensures var p := ShellGrammar.ParseBlock(old(Rest()));
              if p.Ok? then r == Done(ExecTree(p.tree)) && Rest() == p.rest && SpansOk(r.cmd, Text()) else r == Panic
      decreases |Rest()|, 0
    {
      hide Lex, SkipSpace, WordAt, ParseRedirects;
      var _ := GetToken();
      r := ParseLine();
      if r.Panic? {
        return;
      }
      var close := Peek(")");
      if !close {
        return Panic;
      }
      var _ := GetToken();
      r := ParseRedirs(r.cmd);
    }

    /** parseexec: words go into the exec command while redirections are put around it. */
    method ParseExec() returns (r: Result)
      requires Valid()
      modifies this`ps
      ensures Valid()
      ensures var p := ShellGrammar.ParseExec(old(Rest()));
              if p.Ok? then r == Done(ExecTree(p.tree)) && Rest() == p.rest && SpansOk(r.cmd, Text()) else r == Panic
      decreases |Rest()|, 1
    {
      hide Lex, SkipSpace, WordAt, ParseRedirects;
      var block := Peek("(");
      if block {
        r := ParseBlock();
        return;
      }
      r := ParseSimple();
    }

    method ParseSimple() returns (r: Result)
      requires Valid()
      modifies this`ps
      ensures Valid()
      ensures var p := ShellGrammar.ParseSimple(old(Rest()));
              if p.Ok? then r == Done(ExecTree(p.tree)) && Rest() == p.rest && SpansOk(r.cmd, Text()) else r == Panic
    {
      hide ParseRedirects, ParseArgs, WordAt, Lex, SkipSpace, ArgsAhead, SpansOk, ExecTree;
      var argc := 0;
      NoSpans(Text());
      r := ParseRedirs(ExecCmd([]));
      if r.Panic? {
        return;
      }
      ghost var before, ts, args := ParseRedirects(old(Rest())).tree, Rest(), [];
      ArgsStart(ts, before, r.cmd);
      while true
        invariant Valid() && r.Done? && SpansOk(r.cmd, Text()) && argc == |args| < MAXARGS
        invariant ArgsAhead(ts, args, Rest()) && r.cmd == ExecTree(Simple(before, args))
        decreases |Rest()|
      {
        var stop := Peek("|)&;");
        ArgsMore(ts, args, Rest());
        if stop {
          break;
        }
        label L: var tok := GetToken();
        if tok.End? {
          break;
        }
        if !tok.t.Word? {
          return Panic;
        }
        r := Done(WithArg(r.cmd, tok.t.at));
        WithArgOk(before, args, tok.t.at, Text());
        argc := argc + 1;
        if argc >= MAXARGS {
          return Panic;
        }
        ghost var next := Rest();
        r := ParseRedirs(r.cmd);
        if r.Panic? {
          return;
        }
        ghost var rs := ParseRedirects(next).tree;
        ArgAdded(before, args, tok.t.at, rs);
        args := args + [Arg(tok.t.at, rs)];
      }
    }

    /** parsepipe */
    method ParsePipe() returns (r: Result)
      requires Valid()
      modifies this`ps
      ensures Valid()
      ensures var p := ParsePipeline(old(Rest()));
              if p.Ok? then r == Done(PipelineTree(p.tree)) && Rest() == p.rest && SpansOk(r.cmd, Text())
              else r == Panic
      decreases |Rest()|, 2
    {
      hide Lex, SkipSpace, WordAt, ShellGrammar.ParseExec;
      r := ParseExec();
      if r.Panic? {
        return;
      }
      var more := Peek("|");
      if more {
        var _ := GetToken();
        var right := ParsePipe();
        r := if right.Panic? then Panic else Done(PipeCmd(r.cmd, right.cmd));
      }
    }

    /** parseline */
    method ParseLine() returns (r: Result)
      requires Valid()
      modifies this`ps
      ensures Valid()
      ensures var p := ShellGrammar.ParseLine(old(Rest()));
              if p.Ok? then r == Done(LineTree(p.tree)) && Rest() == p.rest && SpansOk(r.cmd, Text()) else r == Panic
      decreases |Rest()|, 3
    {
      hide Lex, SkipSpace, WordAt, ParsePipeline, TakeAmps;
      r := ParsePipe();
      if r.Panic? {
        return;
      }
      r := ParseAmps(r.cmd);
      var more := Peek(";");
      if more {
        var _ := GetToken();
        var next := ParseLine();
        r := if next.Panic? then Panic else Done(ListCmd(r.cmd, next.cmd));
      }
    }

    /** parseline's loop over ampersands */
    method ParseAmps(cmd: Cmd) returns (r: Result)
      requires Valid() && SpansOk(cmd, Text())
      modifies this`ps
      ensures Valid() && r.Done? && SpansOk(r.cmd, Text())
      ensures r.cmd == Backgrounds(cmd, TakeAmps(old(Rest())).0) && Rest() == TakeAmps(old(Rest())).1
    {
      hide Lex, SkipSpace, WordAt, TakeAmps;
      ghost var ts, n := Rest(), 0;
      r := Done(cmd);
      var more := Peek("&");
      while more
        invariant Valid() && r.Done? && r.cmd == Backgrounds(cmd, n) && SpansOk(r.cmd, Text())
        invariant more <==> Starts(Rest(), '&')
        invariant AmpsAhead(ts, n, Rest())
        decreases |Rest()|
      {
        AmpsMore(ts, n, Rest());
        var _ := GetToken();
        r, n := Done(BackCmd(r.cmd)), n + 1;
        more := Peek("&");
      }
      AmpsEnd(ts, n, Rest());
    }

    /** nulterminate: a NUL goes after every word and file name of the command, and nowhere else. */
    method NulTerminate(cmd: Cmd, ghost s: string)
      requires SpansOk(cmd, s) && |s| < buf.Length
      modifies buf
      ensures forall i :: 0 <= i < buf.Length ==> buf[i] == if EndsAt(cmd, i) then '\0' else old(buf[i])
      decreases cmd
    {
      match cmd
      case ExecCmd(argv) =>
        var i := 0;
        while i < |argv|
          invariant 0 <= i <= |argv|
          invariant forall j :: 0 <= j < buf.Length ==>
                      buf[j] == if EndsAt(ExecCmd(argv[..i]), j) then '\0' else old(buf[j])
        {
          assert WordAt(s, argv[i]);
          EndsMore(argv, i);
          buf[argv[i].e] := '\0';
          i := i + 1;
        }
        assert argv[..i] == argv;
      case RedirCmd(inner, file, mode, fd) =>
        NulTerminate(inner, s);
        buf[file.e] := '\0';
        EndsRedir(inner, file, mode, fd);
      case PipeCmd(l, r) =>
        NulTerminate(l, s);
        NulTerminate(r, s);
        EndsBoth(cmd, l, r);
      case ListCmd(l, r) =>
        NulTerminate(l, s);
        NulTerminate(r, s);
        EndsBoth(cmd, l, r);
      case BackCmd(inner) =>
        NulTerminate(inner, s);
        EndsBack(inner);
    }
  }

  // Redirections and words read so far

  ghost predicate RedirectsAhead(ts: seq<Token>, rs: seq<Redirect>, rest: seq<Token>) {
    ParseRedirects(ts) == match ParseRedirects(rest) case Ok(r, k) => Ok(rs + r, k) case SyntaxError => SyntaxError
  }

  lemma RedirectsStart(ts: seq<Token>, c: Cmd)
    ensures RedirectsAhead(ts, [], ts) && Redirected(c, []) == c
  {
    var p := ParseRedirects(ts);
    if p.Ok? {
      assert [] + p.tree == p.tree;
    }
  }

  lemma RedirectsMore(ts: seq<Token>, rs: seq<Redirect>, rest: seq<Token>)
    requires RedirectsAhead(ts, rs, rest) && StartsRedirect(rest)
    ensures |rest| < 2 || !rest[1].Word? ==> ParseRedirects(ts) == SyntaxError
    ensures |rest| >= 2 && rest[1].Word? ==> RedirectsAhead(ts, rs + [Redirect(rest[0], rest[1].at)], rest[2..])
  {
    if |rest| >= 2 && rest[1].Word? {
      var p := ParseRedirects(rest[2..]);
      if p.Ok? {
        assert rs + ([Redirect(rest[0], rest[1].at)] + p.tree) == rs + [Redirect(rest[0], rest[1].at)] + p.tree;
      }
    }
  }

  lemma RedirectsEnd(ts: seq<Token>, rs: seq<Redirect>, rest: seq<Token>)
    requires RedirectsAhead(ts, rs, rest) && !StartsRedirect(rest)
    ensures ParseRedirects(ts) == Ok(rs, rest)
  {
    assert rs + [] == rs;
  }

  ghost predicate ArgsAhead(ts: seq<Token>, args: seq<Arg>, rest: seq<Token>) {
    ParseArgs(ts, 0) == match ParseArgs(rest, |args|) case Ok(a, k) => Ok(args + a, k) case SyntaxError => SyntaxError
  }

  lemma ArgsStart(ts: seq<Token>, before: seq<Redirect>, c: Cmd)
    requires c == Redirected(ExecCmd([]), before)
    ensures ArgsAhead(ts, [], ts) && c == ExecTree(Simple(before, []))
  {
    var p := ParseArgs(ts, 0);
    if p.Ok? {
      assert [] + p.tree == p.tree;
    }
    assert before + [] == before;
    assert Words([]) == [];
  }

  lemma ArgsMore(ts: seq<Token>, args: seq<Arg>, rest: seq<Token>)
    requires ArgsAhead(ts, args, rest)
    ensures EndsExec(rest) ==> ParseArgs(ts, 0) == Ok(args, rest)
    ensures !EndsExec(rest) && (!rest[0].Word? || |args| + 1 >= MAXARGS) ==> ParseArgs(ts, 0) == SyntaxError
    ensures !EndsExec(rest) && rest[0].Word? && |args| + 1 < MAXARGS ==>
              var p := ParseRedirects(rest[1..]);
              if p.SyntaxError? then ParseArgs(ts, 0) == SyntaxError
              else ArgsAhead(ts, args + [Arg(rest[0].at, p.tree)], p.rest)
  {
    hide ParseRedirects, RedirectTokens, ArgTokens;
    if EndsExec(rest) {
      assert args + [] == args;
    } else if rest[0].Word? && |args| + 1 < MAXARGS {
      var p := ParseRedirects(rest[1..]);
      if p.Ok? {
        var q := ParseArgs(p.rest, |args| + 1);
        if q.Ok? {
          assert args + ([Arg(rest[0].at, p.tree)] + q.tree) == args + [Arg(rest[0].at, p.tree)] + q.tree;
        }
      }
    }
  }

  lemma {:induction false} WithArgSpans(c: Cmd, w: Span, s: string)
    requires SpansOk(c, s) && WordAt(s, w)
    ensures SpansOk(WithArg(c, w), s)
  {
    match c
    case RedirCmd(inner, _, _, _) => WithArgSpans(inner, w, s);
    case _ =>
  }

  lemma WithArgOk(before: seq<Redirect>, args: seq<Arg>, w: Span, s: string)
    requires SpansOk(ExecTree(Simple(before, args)), s) && WordAt(s, w)
    ensures SpansOk(WithArg(ExecTree(Simple(before, args)), w), s)
  {
    WithArgSpans(ExecTree(Simple(before, args)), w, s);
  }

  ghost predicate AmpsAhead(ts: seq<Token>, n: nat, rest: seq<Token>) {
    TakeAmps(ts) == (n + TakeAmps(rest).0, TakeAmps(rest).1)
  }

  lemma AmpsMore(ts: seq<Token>, n: nat, rest: seq<Token>)
    requires AmpsAhead(ts, n, rest) && Starts(rest, '&')
    ensures AmpsAhead(ts, n + 1, rest[1..])
  {
  }

  lemma AmpsEnd(ts: seq<Token>, n: nat, rest: seq<Token>)
    requires AmpsAhead(ts, n, rest) && !Starts(rest, '&')
    ensures TakeAmps(ts) == (n, rest)
  {
  }

  // Where nulterminate writes

  lemma EndsMore(argv: seq<Span>, i: nat)
    requires i < |argv|
    ensures forall j: nat :: EndsAt(ExecCmd(argv[..i + 1]), j) <==> EndsAt(ExecCmd(argv[..i]), j) || j == argv[i].e
  {
    assert argv[..i + 1] == argv[..i] + [argv[i]];
    forall j: nat ensures EndsAt(ExecCmd(argv[..i + 1]), j) <==> EndsAt(ExecCmd(argv[..i]), j) || j == argv[i].e {
      if w :| Uses(ExecCmd(argv[..i]), w) && w.e == j {
        assert Uses(ExecCmd(argv[..i + 1]), w);
      }
      if w :| Uses(ExecCmd(argv[..i + 1]), w) && w.e == j {
        assert w == argv[i] || Uses(ExecCmd(argv[..i]), w);
      }
      assert Uses(ExecCmd(argv[..i + 1]), argv[i]);
    }
  }

  lemma EndsRedir(inner: Cmd, file: Span, mode: nat, fd: nat)
    ensures forall j: nat :: EndsAt(RedirCmd(inner, file, mode, fd), j) <==> EndsAt(inner, j) || j == file.e
  {
    var c := RedirCmd(inner, file, mode, fd);
    assert Uses(c, file);
    forall j: nat ensures EndsAt(c, j) <==> EndsAt(inner, j) || j == file.e {
      if w :| Uses(inner, w) && w.e == j {
        assert Uses(c, w);
      }
    }
  }

  lemma EndsBoth(c: Cmd, l: Cmd, r: Cmd)
    requires c == PipeCmd(l, r) || c == ListCmd(l, r)
    ensures forall j: nat :: EndsAt(c, j) <==> EndsAt(l, j) || EndsAt(r, j)
  {
    forall j: nat ensures EndsAt(c, j) <==> EndsAt(l, j) || EndsAt(r, j) {
      if w :| Uses(l, w) && w.e == j {
        assert Uses(c, w);
      }
      if w :| Uses(r, w) && w.e == j {
        assert Uses(c, w);
      }
    }
  }

  lemma EndsBack(inner: Cmd)
    ensures forall j: nat :: EndsAt(BackCmd(inner), j) <==> EndsAt(inner, j)
  {
    forall j: nat ensures EndsAt(BackCmd(inner), j) <==> EndsAt(inner, j) {
      if w :| Uses(inner, w) && w.e == j {
        assert Uses(BackCmd(inner), w);
      }
    }
  }

  lemma NoSpans(s: string)
    ensures SpansOk(ExecCmd([]), s)
  {
  }

  // The whole of parsecmd

  /** The C string that starts at i: up to the first NUL. */
  function CString(a: seq<char>, i: nat): (s: string)
    requires i <= |a|
    decreases |a| - i
  {
    if i < |a| && a[i] != '\0' then [a[i]] + CString(a, i + 1) else []
  }

  lemma {:induction false} CStringIs(a: seq<char>, i: nat, j: nat)
    requires i <= j < |a| && a[j] == '\0' && forall k :: i <= k < j ==> a[k] != '\0'
    ensures CString(a, i) == a[i..j]
    decreases j - i
  {
    if i < j {
      CStringIs(a, i + 1, j);
      assert a[i..j] == [a[i]] + a[i + 1..j];
    }
  }

  lemma {:induction false} UsesWord(c: Cmd, w: Span, s: string)
    requires SpansOk(c, s) && Uses(c, w)
    ensures WordAt(s, w)
  {
    match c
    case ExecCmd(argv) =>
    case RedirCmd(inner, file, _, _) =>
      if w != file {
        UsesWord(inner, w, s);
      }
    case PipeCmd(l, r) =>
      if Uses(l, w) {
        UsesWord(l, w, s);
      } else {
        UsesWord(r, w, s);
      }
    case ListCmd(l, r) =>
      if Uses(l, w) {
        UsesWord(l, w, s);
      } else {
        UsesWord(r, w, s);
      }
    case BackCmd(inner) => UsesWord(inner, w, s);
  }

  /** After nulterminate every argument and file name of the command reads as exactly its token: no token ends
      inside another. */
  lemma ReadBack(before: seq<char>, after: seq<char>, n: nat, c: Cmd, w: Span)
    requires n < |before| == |after| && before[n] == '\0' && forall i :: 0 <= i < n ==> before[i] != '\0'
    requires forall i :: 0 <= i < |after| ==> after[i] == if EndsAt(c, i) then '\0' else before[i]
    requires SpansOk(c, before[..n]) && Uses(c, w)
    ensures w.b < w.e <= n && CString(after, w.b) == before[w.b..w.e]
  {
    var s := before[..n];
    UsesWord(c, w, s);
    forall k | w.b <= k < w.e ensures after[k] == before[k] != '\0' {
      assert IsWordChar(s[k]);
      if x :| Uses(c, x) && x.e == k {
        UsesWord(c, x, s);
      }
    }
    assert EndsAt(c, w.e);
    CStringIs(after, w.b, w.e);
    assert after[w.b..w.e] == before[w.b..w.e];
  }

  /** parsecmd: it accepts exactly the lines whose tokens have a derivation in the grammar, and returns the command
      that the derivation dictates, which says what the line says, in order and in full; every argument and file
      name then reads back, in the buffer, as the word that stood on the line. */
  method ParseCmd(line: array<char>) returns (r: Result)
    requires '\0' in line[..]
    modifies line
    ensures var ts := Lex(CString(old(line[..]), 0), 0);
            && (r.Done? <==> exists l :: LineOk(l) && LineTokens(l, []) == ts)
            && (forall l :: LineOk(l) && LineTokens(l, []) == ts ==> r == Done(LineTree(l)))
    ensures r.Done? ==> Says(CString(old(line[..]), 0), r.cmd)
    ensures r.Panic? ==> line[..] == old(line[..])
    ensures r.Done? ==>
              forall w :: Uses(r.cmd, w) ==>
                  w.b < w.e <= line.Length && CString(line[..], w.b) == old(line[..])[w.b..w.e]
  {
    hide Lex, SkipSpace, LineTokens, LineOk, ParseLine, SpansOk, WordAt, Says;
    var p := new Parser(line);
    ghost var before, ts := line[..], p.Rest();
    CStringIs(before, 0, p.es);
    assert p.Text() == before[0..p.es];
    r := p.ParseLine();
    LexFirst(p.Text(), p.ps);
    var _ := p.Peek("");
    AcceptsExactly(ts);
    if r.Panic? {
      return;
    }
    if p.ps != p.es {
      r := Panic;
      return;
    }
    assert ParseLine(ts).rest == [];
    LineSays(p.Text(), ParseLine(ts).tree);
    p.NulTerminate(r.cmd, p.Text());
    forall w | Uses(r.cmd, w) ensures w.b < w.e <= p.es && CString(line[..], w.b) == before[w.b..w.e] {
      ReadBack(before, line[..], p.es, r.cmd, w);
    }
  }

  lemma AcceptsExactly(ts: seq<Token>)
    ensures var p := ParseLine(ts);
            && ((exists l :: LineOk(l) && LineTokens(l, []) == ts) <==> p.Ok? && p.rest == [])
            && (forall l :: LineOk(l) && LineTokens(l, []) == ts ==> p == Ok(l, []))
  {
    forall l | LineOk(l) && LineTokens(l, []) == ts ensures ParseLine(ts) == Ok(l, []) {
      ParserExact(ts, l);
    }
    var p := ParseLine(ts);
    if p.Ok? && p.rest == [] {
      ParserExact(ts, p.tree);
      assert LineOk(p.tree) && LineTokens(p.tree, []) == ts;
    }
  }

  // >> and >

  function PlainOp(t: Token): (r: Token) {
    if t == Append then Sym('>') else t
  }

  /** The tokens with > for every >>. */
  function Plain(ts: seq<Token>): (r: seq<Token>)
    ensures |r| == |ts|
  {
    if ts == [] then [] else [PlainOp(ts[0])] + Plain(ts[1..])
  }

  function PlainRedirects(rs: seq<Redirect>): (r: seq<Redirect>)
    ensures |r| == |rs|
  {
    if rs == [] then [] else [Redirect(PlainOp(rs[0].op), rs[0].file)] + PlainRedirects(rs[1..])
  }

  function PlainArgs(a: seq<Arg>): (r: seq<Arg>)
    ensures |r| == |a|
  {
    if a == [] then [] else [Arg(a[0].word, PlainRedirects(a[0].redirects))] + PlainArgs(a[1..])
  }

  function PlainExec(e: Exec): (r: Exec) {
    match e
    case Block(line, after) => Block(PlainLine(line), PlainRedirects(after))
    case Simple(before, args) => Simple(PlainRedirects(before), PlainArgs(args))
  }

  function PlainPipeline(p: Pipeline): (r: Pipeline) {
    match p
    case Single(e) => Single(PlainExec(e))
    case Piped(e, rest) => Piped(PlainExec(e), PlainPipeline(rest))
  }

  /** The derivation with > for every >>. */
  function PlainLine(l: Line): (r: Line) {
    match l
    case Last(p, amps) => Last(PlainPipeline(p), amps)
    case Then(p, amps, next) => Then(PlainPipeline(p), amps, PlainLine(next))
  }

  // The command is the same

  lemma {:induction false} PlainRedirectsSame(c: Cmd, rs: seq<Redirect>)
    ensures Redirected(c, PlainRedirects(rs)) == Redirected(c, rs)
    decreases |rs|
  {
    if rs != [] {
      assert PlainRedirects(rs)[1..] == PlainRedirects(rs[1..]);
      PlainRedirectsSame(RedirCmd(c, rs[0].file, Mode(rs[0].op), Fd(rs[0].op)), rs[1..]);
    }
  }

  lemma {:induction false} PlainRedirectsConcat(x: seq<Redirect>, y: seq<Redirect>)
    ensures PlainRedirects(x + y) == PlainRedirects(x) + PlainRedirects(y)
    decreases |x|
  {
    if x == [] {
      assert x + y == y;
    } else {
      assert (x + y)[1..] == x[1..] + y;
      PlainRedirectsConcat(x[1..], y);
    }
  }

  lemma {:induction false} PlainWords(a: seq<Arg>)
    ensures Words(PlainArgs(a)) == Words(a)
    decreases |a|
  {
    hide PlainRedirects;
    if a != [] {
      var b := PlainArgs(a);
      assert b[1..] == PlainArgs(a[1..]);
      PlainWords(a[1..]);
      assert Words(a)[1..] == Words(a[1..]) && Words(b)[1..] == Words(b[1..]);
      assert Words(a) == [a[0].word] + Words(a)[1..] && Words(b) == [a[0].word] + Words(b)[1..];
    }
  }

  lemma {:induction false} PlainArgsSame(a: seq<Arg>)
    ensures AllRedirects(PlainArgs(a)) == PlainRedirects(AllRedirects(a))
    decreases |a|
  {
    hide PlainRedirects;
    if a != [] {
      assert PlainArgs(a)[1..] == PlainArgs(a[1..]);
      PlainArgsSame(a[1..]);
      PlainRedirectsConcat(a[0].redirects, AllRedirects(a[1..]));
    } else {
      PlainRedirectsConcat([], []);
    }
  }

  lemma {:induction false} PlainExecSame(e: Exec)
    ensures ExecTree(PlainExec(e)) == ExecTree(e)
    decreases e
  {
    match e
    case Block(line, after) =>
      PlainRedirectsSame(LineTree(line), after);
      PlainLineSame(line);
    case Simple(before, args) =>
      PlainWords(args);
      PlainArgsSame(args);
      PlainRedirectsConcat(before, AllRedirects(args));
      PlainRedirectsSame(ExecCmd(Words(args)), before + AllRedirects(args));
  }

  lemma {:induction false} PlainPipelineSame(p: Pipeline)
    ensures PipelineTree(PlainPipeline(p)) == PipelineTree(p)
    decreases p
  {
    match p
    case Single(e) => PlainExecSame(e);
    case Piped(e, rest) =>
      PlainExecSame(e);
      PlainPipelineSame(rest);
  }

  lemma {:induction false} PlainLineSame(l: Line)
    ensures LineTree(PlainLine(l)) == LineTree(l)
    decreases l
  {
    match l
    case Last(p, _) => PlainPipelineSame(p);
    case Then(p, _, next) =>
      PlainPipelineSame(p);
      PlainLineSame(next);
  }

  // The parser goes the same way

  lemma {:induction false} PlainFirst(ts: seq<Token>)
    ensures ts != [] ==> Plain(ts)[0] == PlainOp(ts[0]) && Plain(ts)[1..] == Plain(ts[1..])
    ensures StartsRedirect(Plain(ts)) == StartsRedirect(ts) && EndsExec(Plain(ts)) == EndsExec(ts)
    ensures forall c :: c != '>' ==> Starts(Plain(ts), c) == Starts(ts, c)
  {
  }

  lemma {:induction false} PlainParseRedirects(ts: seq<Token>)
    ensures var p, r := ParseRedirects(ts), ParseRedirects(Plain(ts));
            r == if p.Ok? then Ok(PlainRedirects(p.tree), Plain(p.rest)) else SyntaxError
    decreases |ts|
  {
    hide RedirectTokens, RedirectsOk, IsRedirect;
    PlainFirst(ts);
    if StartsRedirect(ts) && |ts| >= 2 && ts[1].Word? {
      PlainFirst(ts[1..]);
      assert ts[1..][1..] == ts[2..] && Plain(ts)[2..] == Plain(ts)[1..][1..];
      PlainParseRedirects(ts[2..]);
      var p := ParseRedirects(ts[2..]);
      if p.Ok? {
        var tree := [Redirect(ts[0], ts[1].at)] + p.tree;
        assert tree[1..] == p.tree;
      }
    }
  }

  lemma {:induction false} PlainParseArgs(ts: seq<Token>, n: nat)
    ensures var p, r := ParseArgs(ts, n), ParseArgs(Plain(ts), n);
            r == if p.Ok? then Ok(PlainArgs(p.tree), Plain(p.rest)) else SyntaxError
    decreases |ts|
  {
    hide ArgTokens, RedirectTokens, RedirectsOk, ParseRedirects, ArgsOk;
    PlainFirst(ts);
    if !EndsExec(ts) && ts[0].Word? && n + 1 < MAXARGS {
      PlainParseRedirects(ts[1..]);
      var rs := ParseRedirects(ts[1..]);
      if rs.Ok? {
        PlainParseArgs(rs.rest, n + 1);
        var p := ParseArgs(rs.rest, n + 1);
        if p.Ok? {
          var tree := [Arg(ts[0].at, rs.tree)] + p.tree;
          assert tree[1..] == p.tree;
        }
      }
    }
  }

  lemma {:induction false} PlainParseSimple(ts: seq<Token>)
    ensures var p, r := ParseSimple(ts), ParseSimple(Plain(ts));
            r == if p.Ok? then Ok(PlainExec(p.tree), Plain(p.rest)) else SyntaxError
  {
    hide ExecTokens, ExecOk, ParseRedirects, ParseArgs;
    PlainParseRedirects(ts);
    var rs := ParseRedirects(ts);
    if rs.Ok? {
      PlainParseArgs(rs.rest, 0);
    }
  }

  lemma {:induction false} PlainParseBlock(ts: seq<Token>)
    requires Starts(ts, '(')
    ensures Starts(Plain(ts), '(') && var p, r := ParseBlock(ts), ParseBlock(Plain(ts));
            r == if p.Ok? then Ok(PlainExec(p.tree), Plain(p.rest)) else SyntaxError
    decreases |ts|, 0
  {
    hide ExecTokens, ExecOk, ParseRedirects, ParseLine, LineTokens, LineOk, RedirectTokens, RedirectsOk;
    PlainFirst(ts);
    PlainParseLine(ts[1..]);
    var l := ParseLine(ts[1..]);
    if l.Ok? {
      PlainFirst(l.rest);
      if Starts(l.rest, ')') {
        PlainParseRedirects(l.rest[1..]);
      }
    }
  }

  lemma {:induction false} PlainParseExec(ts: seq<Token>)
    ensures var p, r := ParseExec(ts), ParseExec(Plain(ts));
            r == if p.Ok? then Ok(PlainExec(p.tree), Plain(p.rest)) else SyntaxError
    decreases |ts|, 1
  {
    hide ParseBlock, ParseSimple, ExecTokens, ExecOk;
    PlainFirst(ts);
    if Starts(ts, '(') {
      PlainParseBlock(ts);
    } else {
      PlainParseSimple(ts);
    }
  }

  lemma {:induction false} PlainParsePipeline(ts: seq<Token>)
    ensures var p, r := ParsePipeline(ts), ParsePipeline(Plain(ts));
            r == if p.Ok? then Ok(PlainPipeline(p.tree), Plain(p.rest)) else SyntaxError
    decreases |ts|, 2
  {
    hide PipelineTokens, PipelineOk, ParseExec, ExecTokens, ExecOk;
    PlainParseExec(ts);
    var e := ParseExec(ts);
    if e.Ok? {
      PlainFirst(e.rest);
      if Starts(e.rest, '|') {
        PlainParsePipeline(e.rest[1..]);
      }
    }
  }

  lemma {:induction false} PlainTakeAmps(ts: seq<Token>)
    ensures TakeAmps(Plain(ts)) == (TakeAmps(ts).0, Plain(TakeAmps(ts).1))
    decreases |ts|
  {
    hide Amps;
    PlainFirst(ts);
    if Starts(ts, '&') {
      PlainTakeAmps(ts[1..]);
    }
  }

  lemma {:induction false} PlainParseLine(ts: seq<Token>)
    ensures var p, r := ParseLine(ts), ParseLine(Plain(ts));
            r == if p.Ok? then Ok(PlainLine(p.tree), Plain(p.rest)) else SyntaxError
    decreases |ts|, 3
  {
    hide LineTokens, LineOk, ParsePipeline, PipelineTokens, PipelineOk, TakeAmps, Amps;
    PlainParsePipeline(ts);
    var p := ParsePipeline(ts);
    if p.Ok? {
      PlainTakeAmps(p.rest);
      var rest := TakeAmps(p.rest).1;
      PlainFirst(rest);
      if Starts(rest, ';') {
        PlainParseLine(rest[1..]);
      }
    }
  }

  /** A line with >> in it is accepted if and only if it is with > there, and gives the same command. */
  lemma AppendIsWrite(ts: seq<Token>)
    ensures var p, r := ParseLine(ts), ParseLine(Plain(ts));
            && (p.Ok? && p.rest == [] <==> r.Ok? && r.rest == [])
            && (p.Ok? && p.rest == [] ==> LineTree(r.tree) == LineTree(p.tree))
  {
    PlainParseLine(ts);
    var p := ParseLine(ts);
    if p.Ok? {
      PlainFirst(p.rest);
      PlainLineSame(p.tree);
    }
  }
}
