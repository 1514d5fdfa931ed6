/** The tokens and the grammar of sh.c, and its parser as a function from tokens to derivations. */
module ShellGrammar {

  const MAXARGS: nat := 10
  const O_RDONLY: nat := 0x000
  const O_WRONLY: nat := 0x001
  const O_CREATE: nat := 0x200

  // Tokens

  predicate IsSpace(c: char) {
    c in " \t\r\n\U{000B}"
  }

  predicate IsSymbol(c: char) {
    c in "<|>&;()"
  }

  predicate IsWordChar(c: char) {
    !IsSpace(c) && !IsSymbol(c)
  }

  /** A piece of the input line. */
  datatype Span = Span(b: nat, e: nat)

  /** A symbol, the symbol >>, or a word. */
  datatype Token = Sym(c: char) | Append | Word(at: Span)

  function SkipSpace(s: string, i: nat): (j: nat)
    requires i <= |s|
    ensures i <= j <= |s| && (j < |s| ==> !IsSpace(s[j])) && forall k :: i <= k < j ==> IsSpace(s[k])
    decreases |s| - i
  {
    if i < |s| && IsSpace(s[i]) then SkipSpace(s, i + 1) else i
  }

  function WordEnd(s: string, i: nat): (j: nat)
    requires i <= |s|
    ensures i <= j <= |s| && (j < |s| ==> !IsWordChar(s[j])) && forall k :: i <= k < j ==> IsWordChar(s[k])
    decreases |s| - i
  {
    if i < |s| && IsWordChar(s[i]) then WordEnd(s, i + 1) else i
  }

  /** The end of the token that starts at i. */
  function TokenEnd(s: string, i: nat): (j: nat)
    requires i < |s| && !IsSpace(s[i])
    ensures i < j <= |s|
  {
    if s[i] == '>' && i + 1 < |s| && s[i + 1] == '>' then i + 2
    else if IsSymbol(s[i]) then i + 1
    else WordEnd(s, i + 1)
  }

  function TokenAt(s: string, i: nat): (t: Token)
    requires i < |s| && !IsSpace(s[i])
  {
    if s[i] == '>' && i + 1 < |s| && s[i + 1] == '>' then Append
    else if IsSymbol(s[i]) then Sym(s[i])
    else Word(Span(i, TokenEnd(s, i)))
  }

  /** The tokens from position i on. */
  function Lex(s: string, i: nat): (ts: seq<Token>)
    requires i <= |s|
    decreases |s| - i
  {
    var j := SkipSpace(s, i);
    if j == |s| then [] else [TokenAt(s, j)] + Lex(s, TokenEnd(s, j))
  }

  lemma SkipTwice(s: string, i: nat)
    requires i <= |s|
    ensures SkipSpace(s, SkipSpace(s, i)) == SkipSpace(s, i) && Lex(s, SkipSpace(s, i)) == Lex(s, i)
  {
  }

  // Derivations

  datatype Redirect = Redirect(op: Token, file: Span)

  datatype Arg = Arg(word: Span, redirects: seq<Redirect>)

  datatype Exec = Block(line: Line, after: seq<Redirect>) | Simple(before: seq<Redirect>, args: seq<Arg>)

  datatype Pipeline = Single(e: Exec) | Piped(e: Exec, rest: Pipeline)

  /** A pipeline, any number of ampersands, and perhaps a semicolon and a further line. */
  datatype Line = Last(p: Pipeline, amps: nat) | Then(p: Pipeline, amps: nat, next: Line)

  predicate IsRedirect(t: Token) {
    t == Sym('<') || t == Sym('>') || t == Append
  }

  // The tokens of each part of a derivation, followed by those in k

  function RedirectTokens(rs: seq<Redirect>, k: seq<Token>): (ts: seq<Token>) {
    if rs == [] then k else [rs[0].op] + ([Word(rs[0].file)] + RedirectTokens(rs[1..], k))
  }

  function ArgTokens(a: seq<Arg>, k: seq<Token>): (ts: seq<Token>) {
    if a == [] then k else [Word(a[0].word)] + RedirectTokens(a[0].redirects, ArgTokens(a[1..], k))
  }

  function ExecTokens(e: Exec, k: seq<Token>): (ts: seq<Token>)
    decreases e
  {
    match e
    case Block(line, after) => [Sym('(')] + LineTokens(line, [Sym(')')] + RedirectTokens(after, k))
    case Simple(before, args) => RedirectTokens(before, ArgTokens(args, k))
  }

  function PipelineTokens(p: Pipeline, k: seq<Token>): (ts: seq<Token>)
    decreases p
  {
    match p
    case Single(e) => ExecTokens(e, k)
    case Piped(e, rest) => ExecTokens(e, [Sym('|')] + PipelineTokens(rest, k))
  }

  function Amps(n: nat, k: seq<Token>): (ts: seq<Token>) {
    if n == 0 then k else [Sym('&')] + Amps(n - 1, k)
  }

  function LineTokens(l: Line, k: seq<Token>): (ts: seq<Token>)
    decreases l
  {
    match l
    case Last(p, amps) => PipelineTokens(p, Amps(amps, k))
    case Then(p, amps, next) => PipelineTokens(p, Amps(amps, [Sym(';')] + LineTokens(next, k)))
  }

  predicate RedirectsOk(rs: seq<Redirect>) {
    forall i :: 0 <= i < |rs| ==> IsRedirect(rs[i].op)
  }

  predicate ArgsOk(args: seq<Arg>) {
    forall i :: 0 <= i < |args| ==> RedirectsOk(args[i].redirects)
  }

  predicate ExecOk(e: Exec) {
    match e
    case Block(line, after) => LineOk(line) && RedirectsOk(after)
    case Simple(before, args) => RedirectsOk(before) && ArgsOk(args) && |args| < MAXARGS
  }

  predicate PipelineOk(p: Pipeline) {
    match p
    case Single(e) => ExecOk(e)
    case Piped(e, rest) => ExecOk(e) && PipelineOk(rest)
  }

  /** Redirections are made with < > or >>, and no command has more than nine words. */
  predicate LineOk(l: Line) {
    match l
    case Last(p, _) => PipelineOk(p)
    case Then(p, _, next) => PipelineOk(p) && LineOk(next)
  }

  // The parser on tokens

  datatype Parsed<T> = Ok(tree: T, rest: seq<Token>) | SyntaxError

  predicate Starts(ts: seq<Token>, c: char) {
    ts != [] && ts[0] == Sym(c)
  }

  predicate StartsRedirect(ts: seq<Token>) {
    ts != [] && IsRedirect(ts[0])
  }

  /** Where the words of a command stop. */
  predicate EndsExec(ts: seq<Token>) {
    ts == [] || ts[0] == Sym('|') || ts[0] == Sym(')') || ts[0] == Sym('&') || ts[0] == Sym(';')
  }

  lemma Uncons(ts: seq<Token>)
    requires ts != []
    ensures ts == [ts[0]] + ts[1..]
  {
  }

  /** parseredirs */
  function ParseRedirects(ts: seq<Token>): (r: Parsed<seq<Redirect>>)
    ensures r.Ok? ==>
              RedirectTokens(r.tree, r.rest) == ts && RedirectsOk(r.tree) && !StartsRedirect(r.rest) && |r.rest| <= |ts|
  {
    if !StartsRedirect(ts) then Ok([], ts)
    else if |ts| < 2 || !ts[1].Word? then SyntaxError
    else
      var r := ParseRedirects(ts[2..]);
      if r.SyntaxError? then SyntaxError
      else
        Uncons(ts);
        Uncons(ts[1..]);
        assert ts[1..][1..] == ts[2..];
        var tree := [Redirect(ts[0], ts[1].at)] + r.tree;
        assert tree[1..] == r.tree;
        Ok(tree, r.rest)
  }

  /** The words of a command, n of them already read. */
  function ParseArgs(ts: seq<Token>, n: nat): (r: Parsed<seq<Arg>>)
    ensures r.Ok? ==> ArgTokens(r.tree, r.rest) == ts && ArgsOk(r.tree) && EndsExec(r.rest) && |r.rest| <= |ts|
    ensures r.Ok? && n < MAXARGS ==> n + |r.tree| < MAXARGS
    decreases |ts|
  {
    if EndsExec(ts) then Ok([], ts)
    else if !ts[0].Word? || n + 1 >= MAXARGS then SyntaxError
    else
      var rs := ParseRedirects(ts[1..]);
      if rs.SyntaxError? then SyntaxError
      else
        var r := ParseArgs(rs.rest, n + 1);
        if r.SyntaxError? then SyntaxError
        else
          Uncons(ts);
          var tree := [Arg(ts[0].at, rs.tree)] + r.tree;
          assert tree[1..] == r.tree;
          Ok(tree, r.rest)
  }

  function ParseSimple(ts: seq<Token>): (r: Parsed<Exec>)
    ensures r.Ok? ==> ExecTokens(r.tree, r.rest) == ts && ExecOk(r.tree) && |r.rest| <= |ts|
  {
    var rs := ParseRedirects(ts);
    if rs.SyntaxError? then SyntaxError
    else
      var r := ParseArgs(rs.rest, 0);
      if r.SyntaxError? then SyntaxError else Ok(Simple(rs.tree, r.tree), r.rest)
  }

  /** parseblock, the opening parenthesis having been seen */
  function ParseBlock(ts: seq<Token>): (r: Parsed<Exec>)
    requires Starts(ts, '(')
    ensures r.Ok? ==> ExecTokens(r.tree, r.rest) == ts && ExecOk(r.tree) && |r.rest| <= |ts|
    decreases |ts|, 0
  {
    var l := ParseLine(ts[1..]);
    if l.SyntaxError? || !Starts(l.rest, ')') then SyntaxError
    else
      var rs := ParseRedirects(l.rest[1..]);
      if rs.SyntaxError? then SyntaxError
      else
        Uncons(ts);
        Uncons(l.rest);
        Ok(Block(l.tree, rs.tree), rs.rest)
  }

  /** parseexec */
  function ParseExec(ts: seq<Token>): (r: Parsed<Exec>)
    ensures r.Ok? ==> ExecTokens(r.tree, r.rest) == ts && ExecOk(r.tree) && |r.rest| <= |ts|
    decreases |ts|, 1
  {
    if Starts(ts, '(') then ParseBlock(ts) else ParseSimple(ts)
  }

  /** parsepipe */
  function ParsePipeline(ts: seq<Token>): (r: Parsed<Pipeline>)
    ensures r.Ok? ==> PipelineTokens(r.tree, r.rest) == ts && PipelineOk(r.tree) && |r.rest| <= |ts|
    decreases |ts|, 2
  {
    var e := ParseExec(ts);
    if e.SyntaxError? then SyntaxError
    else if !Starts(e.rest, '|') then Ok(Single(e.tree), e.rest)
    else
      Uncons(e.rest);
      var p := ParsePipeline(e.rest[1..]);
      if p.SyntaxError? then SyntaxError else Ok(Piped(e.tree, p.tree), p.rest)
  }

  /** How many ampersands come next, and what follows them. */
  function TakeAmps(ts: seq<Token>): (r: (nat, seq<Token>))
    ensures Amps(r.0, r.1) == ts && !Starts(r.1, '&') && |r.1| <= |ts|
  {
    if Starts(ts, '&') then
      var r := TakeAmps(ts[1..]);
      Uncons(ts);
      (r.0 + 1, r.1)
    else (0, ts)
  }

  /** parseline */
  function ParseLine(ts: seq<Token>): (r: Parsed<Line>)
    ensures r.Ok? ==> LineTokens(r.tree, r.rest) == ts && LineOk(r.tree) && |r.rest| <= |ts|
    decreases |ts|, 3
  {
    var p := ParsePipeline(ts);
    if p.SyntaxError? then SyntaxError
    else
      var (n, rest) := TakeAmps(p.rest);
      if !Starts(rest, ';') then Ok(Last(p.tree, n), rest)
      else
        Uncons(rest);
        var l := ParseLine(rest[1..]);
        if l.SyntaxError? then SyntaxError else Ok(Then(p.tree, n, l.tree), l.rest)
  }

  // Every derivation is found

  lemma {:induction false} RedirectsFound(rs: seq<Redirect>, k: seq<Token>)
    requires RedirectsOk(rs) && !StartsRedirect(k)
    ensures ParseRedirects(RedirectTokens(rs, k)) == Ok(rs, k)
    decreases |rs|
  {
    if rs != [] {
      var ts, tail := RedirectTokens(rs, k), RedirectTokens(rs[1..], k);
      assert ts[0] == rs[0].op && ts[1] == Word(rs[0].file) && ts[2..] == tail;
      RedirectsFound(rs[1..], k);
      assert rs == [rs[0]] + rs[1..];
    }
  }

  lemma ArgsNoRedirect(a: seq<Arg>, k: seq<Token>)
    requires EndsExec(k)
    ensures !StartsRedirect(ArgTokens(a, k))
  {
  }

  lemma ArgFound(w: Span, after: seq<Token>, n: nat, rs: seq<Redirect>, tail: seq<Token>, a: seq<Arg>, k: seq<Token>)
    requires ParseRedirects(after) == Ok(rs, tail) && ParseArgs(tail, n + 1) == Ok(a, k) && n + 1 < MAXARGS
    ensures ParseArgs([Word(w)] + after, n) == Ok([Arg(w, rs)] + a, k)
  {
    hide ParseRedirects, RedirectTokens, ArgTokens;
    var ts := [Word(w)] + after;
    assert ts[1..] == after;
  }

  lemma {:induction false} ArgsFound(a: seq<Arg>, k: seq<Token>, n: nat)
    requires ArgsOk(a) && EndsExec(k) && n + |a| < MAXARGS
    ensures ParseArgs(ArgTokens(a, k), n) == Ok(a, k)
    decreases |a|
  {
    hide RedirectTokens, ParseRedirects;
    if a != [] {
      var tail := ArgTokens(a[1..], k);
      ArgsNoRedirect(a[1..], k);
      ArgsFound(a[1..], k, n + 1);
      RedirectsFound(a[0].redirects, tail);
      ArgFound(a[0].word, RedirectTokens(a[0].redirects, tail), n, a[0].redirects, tail, a[1..], k);
      assert a == [a[0]] + a[1..];
    }
  }

  lemma {:induction false} ExecFound(e: Exec, k: seq<Token>)
    requires ExecOk(e) && EndsExec(k)
    ensures ParseExec(ExecTokens(e, k)) == Ok(e, k)
    decreases e
  {
    match e
    case Block(line, after) =>
      var inner := [Sym(')')] + RedirectTokens(after, k);
      LineFound(line, inner);
      RedirectsFound(after, k);
      var ts := ExecTokens(e, k);
      assert ts[0] == Sym('(') && ts[1..] == LineTokens(line, inner) && inner[0] == Sym(')') &&
             inner[1..] == RedirectTokens(after, k);
    case Simple(before, args) =>
      ArgsFound(args, k, 0);
      ArgsNoRedirect(args, k);
      RedirectsFound(before, ArgTokens(args, k));
      assert !Starts(ExecTokens(e, k), '(');
  }

  lemma {:induction false} PipelineFound(p: Pipeline, k: seq<Token>)
    requires PipelineOk(p) && EndsExec(k) && !Starts(k, '|')
    ensures ParsePipeline(PipelineTokens(p, k)) == Ok(p, k)
    decreases p
  {
    match p
    case Single(e) => ExecFound(e, k);
    case Piped(e, rest) =>
      var tail := [Sym('|')] + PipelineTokens(rest, k);
      assert tail[1..] == PipelineTokens(rest, k);
      ExecFound(e, tail);
      PipelineFound(rest, k);
  }

  lemma {:induction false} AmpsFound(n: nat, k: seq<Token>)
    requires !Starts(k, '&')
    ensures TakeAmps(Amps(n, k)) == (n, k) && (n > 0 ==> Starts(Amps(n, k), '&'))
    decreases n
  {
    if n > 0 {
      AmpsFound(n - 1, k);
      assert Amps(n, k)[1..] == Amps(n - 1, k);
    }
  }

  /** Every derivation is found, whatever follows that cannot continue it. */
  lemma {:induction false} LineFound(l: Line, k: seq<Token>)
    requires LineOk(l) && (k == [] || k[0] == Sym(')'))
    ensures ParseLine(LineTokens(l, k)) == Ok(l, k)
    decreases l
  {
    match l
    case Last(p, amps) =>
      AmpsFound(amps, k);
      PipelineFound(p, Amps(amps, k));
    case Then(p, amps, next) =>
      var tail := [Sym(';')] + LineTokens(next, k);
      assert tail[1..] == LineTokens(next, k);
      AmpsFound(amps, tail);
      PipelineFound(p, Amps(amps, tail));
      LineFound(next, k);
  }

  /** The parser accepts exactly the token sequences that have a derivation, and finds it; there is only one. */
  lemma ParserExact(ts: seq<Token>, l: Line)
    ensures ParseLine(ts) == Ok(l, []) <==> LineOk(l) && LineTokens(l, []) == ts
  {
    if LineOk(l) {
      LineFound(l, []);
    }
  }

  lemma Unambiguous(l: Line, m: Line)
    requires LineOk(l) && LineOk(m) && LineTokens(l, []) == LineTokens(m, [])
    ensures l == m
  {
    LineFound(l, []);
    LineFound(m, []);
  }
}
