/** What a command means in terms of the characters of the line: where its pieces lie, and that none is missing. */
module ShellOrder {
  import opened ShellGrammar
  import opened ShellTree

  // Where a command lies on the line

  /** The first thing from position i on is an opening parenthesis. */
  predicate Grouped(s: string, i: nat)
    requires i <= |s|
  {
    SkipSpace(s, i) < |s| && s[SkipSpace(s, i)] == '('
  }

  predicate Compound(c: Cmd) {
    c.PipeCmd? || c.ListCmd? || c.BackCmd?
  }

  /** The file name comes after the symbol at o, with only spaces between, and the symbol goes with the mode and the
      descriptor. */
  predicate RedirectAt(s: string, o: nat, file: Span, mode: nat, fd: nat) {
    && o < file.b && WordAt(s, file) && (forall i :: o < i < file.b ==> IsSpace(s[i]))
    && ((s[o] == '<' && mode == O_RDONLY && fd == 0) || (s[o] == '>' && mode == O_WRONLY + O_CREATE && fd == 1))
  }

  /** Command c is what the line says from lo to hi. The left side of a pipe or a list lies before the symbol, the
      right side after it; the words of a command come in order, and so do its redirections. Only parentheses
      put a list inside a pipe, a pipe on the left of another, and so on. */
  ghost predicate Lies(c: Cmd, s: string, lo: nat, hi: nat)
    requires lo <= hi <= |s|
    decreases c, 1
  {
    match c
    case ExecCmd(argv) =>
      && (forall i :: 0 <= i < |argv| ==> lo <= argv[i].b && argv[i].e <= hi && WordAt(s, argv[i]))
      && (forall i, j :: 0 <= i < j < |argv| ==> argv[i].e <= argv[j].b)
    case RedirCmd(inner, file, mode, fd) =>
      && Lies(inner, s, lo, hi) && file.e <= hi && (Compound(inner) ==> Grouped(s, lo))
      && exists o: nat :: lo <= o && RedirectAt(s, o, file, mode, fd) && (inner.RedirCmd? ==> inner.file.e <= o)
    case PipeCmd(l, _) => (Compound(l) ==> Grouped(s, lo)) && exists m: nat :: Parted(c, s, lo, m, hi)
    case ListCmd(l, _) => (l.ListCmd? ==> Grouped(s, lo)) && exists m: nat :: Parted(c, s, lo, m, hi)
    case BackCmd(inner) => (inner.ListCmd? ==> Grouped(s, lo)) && exists m: nat :: Parted(c, s, lo, m, hi)
  }

  /** The symbol of c stands at m. */
  ghost predicate Parted(c: Cmd, s: string, lo: nat, m: nat, hi: nat)
    requires lo <= hi <= |s|
    decreases c, 0
  {
    && lo <= m < hi
    && match c
       case PipeCmd(l, r) =>
         && s[m] == '|' && Lies(l, s, lo, m) && Lies(r, s, m + 1, hi)
         && (r.ListCmd? || r.BackCmd? ==> Grouped(s, m + 1))
       case ListCmd(l, r) => s[m] == ';' && Lies(l, s, lo, m) && Lies(r, s, m + 1, hi)
       case BackCmd(inner) => s[m] == '&' && Lies(inner, s, lo, m)
       case _ => false
  }

  /** Every piece of a command that lies from lo to hi does so too. */
  lemma {:induction false} LiesWithin(c: Cmd, s: string, lo: nat, hi: nat, w: Span)
    requires lo <= hi <= |s| && Lies(c, s, lo, hi) && Uses(c, w)
    ensures lo <= w.b < w.e <= hi && WordAt(s, w)
    decreases c
  {
    hide Grouped;
    if c.RedirCmd? {
      if w != c.file {
        LiesWithin(c.cmd, s, lo, hi, w);
      }
    } else if c.BackCmd? {
      var m: nat :| Parted(c, s, lo, m, hi);
      LiesWithin(c.cmd, s, lo, m, w);
    } else if !c.ExecCmd? {
      var m: nat :| Parted(c, s, lo, m, hi);
      if Uses(c.left, w) {
        LiesWithin(c.left, s, lo, m, w);
      } else {
        LiesWithin(c.right, s, m + 1, hi, w);
      }
    }
  }

  /** So the pieces on the left of a pipe or a list end before those on the right begin, with the symbol between. */
  lemma LeftBeforeRight(c: Cmd, s: string, lo: nat, hi: nat, x: Span, y: Span) returns (m: nat)
    requires lo <= hi <= |s| && Lies(c, s, lo, hi) && (c.PipeCmd? || c.ListCmd?) && Uses(c.left, x) && Uses(c.right, y)
    ensures x.e <= m < y.b < |s| && s[m] == if c.PipeCmd? then '|' else ';'
  {
    m :| Parted(c, s, lo, m, hi);
    LiesWithin(c.left, s, lo, m, x);
    LiesWithin(c.right, s, m + 1, hi, y);
  }

  lemma {:induction false} LiesWider(c: Cmd, s: string, lo: nat, hi: nat, wider: nat)
    requires lo <= hi <= wider <= |s| && Lies(c, s, lo, hi)
    ensures Lies(c, s, lo, wider)
    decreases c
  {
    hide Grouped;
    if c.RedirCmd? {
      LiesWider(c.cmd, s, lo, hi, wider);
    } else if Compound(c) {
      var m: nat :| Parted(c, s, lo, m, hi);
      if !c.BackCmd? {
        LiesWider(c.right, s, m + 1, hi, wider);
      }
      assert Parted(c, s, lo, m, wider);
    }
  }

  /** Inside parentheses everything is grouped. */
  lemma {:induction false} LiesInside(c: Cmd, s: string, lo: nat, hi: nat, open: nat)
    requires open <= lo <= hi <= |s| && Lies(c, s, lo, hi) && Grouped(s, open)
    ensures Lies(c, s, open, hi)
    decreases c
  {
    hide Grouped;
    if c.RedirCmd? {
      LiesInside(c.cmd, s, lo, hi, open);
    } else if Compound(c) {
      var m: nat :| Parted(c, s, lo, m, hi);
      LiesInside(if c.BackCmd? then c.cmd else c.left, s, lo, m, open);
      assert Parted(c, s, open, m, hi);
    }
  }

  // From derivations to positions

  /** Where the first token is, and where the rest starts. */
  lemma TokenPlace(s: string, i: nat, t: Token, k: seq<Token>) returns (m: nat, n: nat)
    requires i <= |s| && Lex(s, i) == [t] + k
    ensures m == SkipSpace(s, i) && i <= m < n <= |s| && Lex(s, n) == k
    ensures t.Sym? ==> s[m] == t.c && n == m + 1
    ensures t == Append ==> n == m + 2 && s[m] == s[m + 1] == '>'
    ensures t.Word? ==> t.at == Span(m, n) && WordAt(s, t.at)
  {
    LexFirst(s, i);
    m := SkipSpace(s, i);
    n := TokenEnd(s, m);
    assert ([t] + k)[1..] == k;
    if t.Word? {
      TokenWord(s, m);
    }
  }

  /** One more redirection, its symbol at o. */
  lemma RedirLies(c: Cmd, op: Token, s: string, lo: nat, i: nat, o: nat, file: Span)
    requires lo <= i <= o < file.b < file.e <= |s| && Lies(c, s, lo, i) && (Compound(c) ==> Grouped(s, lo))
    requires RedirectAt(s, o, file, Mode(op), Fd(op))
    ensures Lies(RedirCmd(c, file, Mode(op), Fd(op)), s, lo, file.e)
  {
    hide RedirectAt, Grouped, WordAt;
    LiesWider(c, s, lo, i, file.e);
    if c.RedirCmd? {
      assert c.file.e <= i;
    }
  }

  lemma {:induction false} RedirectsLie(c: Cmd, rs: seq<Redirect>, k: seq<Token>, s: string, lo: nat, i: nat)
    returns (j: nat)
    requires lo <= i <= |s| && RedirectsOk(rs) && Lex(s, i) == RedirectTokens(rs, k)
    requires Lies(c, s, lo, i) && (Compound(c) ==> Grouped(s, lo))
    ensures i <= j <= |s| && Lex(s, j) == k && Lies(Redirected(c, rs), s, lo, j)
    ensures Compound(Redirected(c, rs)) ==> Grouped(s, lo)
    decreases |rs|
  {
    hide Lex, Lies, Grouped;
    if rs == [] {
      j := i;
    } else {
      var tail := RedirectTokens(rs[1..], k);
      var m, n := TokenPlace(s, i, rs[0].op, [Word(rs[0].file)] + tail);
      var m', n' := TokenPlace(s, n, Word(rs[0].file), tail);
      RedirLies(c, rs[0].op, s, lo, i, n - 1, rs[0].file);
      j := RedirectsLie(RedirCmd(c, rs[0].file, Mode(rs[0].op), Fd(rs[0].op)), rs[1..], k, s, lo, n');
    }
  }

  /** An exec command under redirections. */
  predicate Bare(c: Cmd) {
    c.ExecCmd? || (c.RedirCmd? && Bare(c.cmd))
  }

  lemma {:induction false} BareRedirected(c: Cmd, rs: seq<Redirect>)
    requires Bare(c)
    ensures Bare(Redirected(c, rs))
    decreases |rs|
  {
    if rs != [] {
      BareRedirected(RedirCmd(c, rs[0].file, Mode(rs[0].op), Fd(rs[0].op)), rs[1..]);
    }
  }

  lemma {:induction false} WithArgLies(c: Cmd, w: Span, s: string, lo: nat, i: nat)
    requires lo <= i <= w.b < w.e <= |s| && Lies(c, s, lo, i) && Bare(c) && WordAt(s, w)
    ensures Lies(WithArg(c, w), s, lo, w.e) && !Compound(WithArg(c, w))
    decreases c
  {
    if c.RedirCmd? {
      WithArgLies(c.cmd, w, s, lo, i);
    }
  }

  lemma {:induction false} ArgsLie(before: seq<Redirect>, done: seq<Arg>, todo: seq<Arg>, k: seq<Token>, s: string,
                                   lo: nat, i: nat)
    returns (j: nat)
    requires lo <= i <= |s| && ArgsOk(todo) && Lex(s, i) == ArgTokens(todo, k)
    requires Lies(ExecTree(Simple(before, done)), s, lo, i)
    ensures i <= j <= |s| && Lex(s, j) == k && Lies(ExecTree(Simple(before, done + todo)), s, lo, j)
    decreases |todo|
  {
    hide Lex, Lies, RedirectTokens, Redirected, WordAt;
    if todo == [] {
      assert done + todo == done;
      j := i;
    } else {
      var a, tail := todo[0], ArgTokens(todo[1..], k);
      var m, n := TokenPlace(s, i, Word(a.word), RedirectTokens(a.redirects, tail));
      var c := ExecTree(Simple(before, done));
      BareRedirected(ExecCmd(Words(done)), before + AllRedirects(done));
      WithArgLies(c, a.word, s, lo, i);
      var n' := RedirectsLie(WithArg(c, a.word), a.redirects, tail, s, lo, n);
      ArgAdded(before, done, a.word, a.redirects);
      assert done + [Arg(a.word, a.redirects)] == done + [a];
      j := ArgsLie(before, done + [a], todo[1..], k, s, lo, n');
      assert done + [a] + todo[1..] == done + todo;
    }
  }

  lemma {:induction false} SimpleLies(before: seq<Redirect>, args: seq<Arg>, k: seq<Token>, s: string, i: nat)
    returns (j: nat)
    requires i <= |s| && ExecOk(Simple(before, args)) && Lex(s, i) == ExecTokens(Simple(before, args), k)
    ensures i <= j <= |s| && Lex(s, j) == k && Lies(ExecTree(Simple(before, args)), s, i, j)
    ensures !Compound(ExecTree(Simple(before, args)))
  {
    hide Lex, RedirectTokens, ArgTokens, Redirected;
    var n := RedirectsLie(ExecCmd([]), before, ArgTokens(args, k), s, i, i);
    assert before + [] == before && Words([]) == [];
    assert ExecTree(Simple(before, [])) == Redirected(ExecCmd([]), before);
    j := ArgsLie(before, [], args, k, s, i, n);
    assert [] + args == args;
    BareRedirected(ExecCmd(Words(args)), before + AllRedirects(args));
  }

  lemma {:induction false} ExecLies(e: Exec, k: seq<Token>, s: string, i: nat) returns (j: nat)
    requires i <= |s| && ExecOk(e) && Lex(s, i) == ExecTokens(e, k)
    ensures i <= j <= |s| && Lex(s, j) == k && Lies(ExecTree(e), s, i, j)
    ensures Compound(ExecTree(e)) ==> Grouped(s, i)
    decreases e
  {
    hide Lex, Lies, Redirected, RedirectTokens;
    match e
    case Block(line, after) =>
      var close := [Sym(')')] + RedirectTokens(after, k);
      var m, n := TokenPlace(s, i, Sym('('), LineTokens(line, close));
      var n' := LineLies(line, close, s, n);
      LiesInside(LineTree(line), s, n, n', i);
      var m'', n'' := TokenPlace(s, n', Sym(')'), RedirectTokens(after, k));
      LiesWider(LineTree(line), s, i, n', n'');
      j := RedirectsLie(LineTree(line), after, k, s, i, n'');
    case Simple(before, args) => j := SimpleLies(before, args, k, s, i);
  }

  lemma {:induction false} PipelineLies(p: Pipeline, k: seq<Token>, s: string, i: nat) returns (j: nat)
    requires i <= |s| && PipelineOk(p) && Lex(s, i) == PipelineTokens(p, k)
    ensures i <= j <= |s| && Lex(s, j) == k && Lies(PipelineTree(p), s, i, j)
    ensures PipelineTree(p).ListCmd? || PipelineTree(p).BackCmd? ==> Grouped(s, i)
    decreases p
  {
    hide Lex, ExecTree, ExecTokens, ExecOk;
    match p
    case Single(e) => j := ExecLies(e, k, s, i);
    case Piped(e, rest) =>
      var tail := PipelineTokens(rest, k);
      var n := ExecLies(e, [Sym('|')] + tail, s, i);
      var m, n' := TokenPlace(s, n, Sym('|'), tail);
      LiesWider(ExecTree(e), s, i, n, m);
      j := PipelineLies(rest, k, s, n');
      assert Parted(PipelineTree(p), s, i, m, j);
  }

  lemma {:induction false} BackgroundsInside(c: Cmd, n: nat)
    requires n > 0
    ensures Backgrounds(c, n) == Backgrounds(BackCmd(c), n - 1)
    decreases n
  {
    if n > 1 {
      BackgroundsInside(c, n - 1);
    }
  }

  lemma {:induction false} AmpsLie(c: Cmd, n: nat, k: seq<Token>, s: string, lo: nat, i: nat) returns (j: nat)
    requires lo <= i <= |s| && Lex(s, i) == Amps(n, k) && Lies(c, s, lo, i) && (c.ListCmd? ==> Grouped(s, lo))
    ensures i <= j <= |s| && Lex(s, j) == k && Lies(Backgrounds(c, n), s, lo, j)
    ensures Backgrounds(c, n).ListCmd? ==> Grouped(s, lo)
    decreases n
  {
    hide Lex;
    if n == 0 {
      j := i;
    } else {
      var m, next := TokenPlace(s, i, Sym('&'), Amps(n - 1, k));
      LiesWider(c, s, lo, i, m);
      assert Parted(BackCmd(c), s, lo, m, next);
      BackgroundsInside(c, n);
      j := AmpsLie(BackCmd(c), n - 1, k, s, lo, next);
    }
  }

  /** The command that a derivation dictates is what the line says. */
  lemma {:induction false} LineLies(l: Line, k: seq<Token>, s: string, i: nat) returns (j: nat)
    requires i <= |s| && LineOk(l) && Lex(s, i) == LineTokens(l, k)
    ensures i <= j <= |s| && Lex(s, j) == k && Lies(LineTree(l), s, i, j)
    decreases l
  {
    hide Lex, PipelineTree, PipelineTokens, PipelineOk, Amps, Backgrounds;
    match l
    case Last(p, amps) =>
      var n := PipelineLies(p, Amps(amps, k), s, i);
      j := AmpsLie(PipelineTree(p), amps, k, s, i, n);
    case Then(p, amps, next) =>
      var tail := LineTokens(next, k);
      var n := PipelineLies(p, Amps(amps, [Sym(';')] + tail), s, i);
      var n' := AmpsLie(PipelineTree(p), amps, [Sym(';')] + tail, s, i, n);
      var m, n'' := TokenPlace(s, n', Sym(';'), tail);
      LiesWider(Backgrounds(PipelineTree(p), amps), s, i, n', m);
      j := LineLies(next, k, s, n'');
      assert Parted(LineTree(l), s, i, m, j);
  }

  // Nothing on the line is lost

  /** What a token stands for in a command: parentheses for nothing, >> for the same as >. */
  function Counted(t: Token): (m: multiset<Token>) {
    if t == Sym('(') || t == Sym(')') then multiset{} else if t == Append then multiset{Sym('>')} else multiset{t}
  }

  function Tally(ts: seq<Token>): (m: multiset<Token>) {
    if ts == [] then multiset{} else Counted(ts[0]) + Tally(ts[1..])
  }

  lemma TallyFirst(t: Token, k: seq<Token>)
    ensures Tally([t] + k) == Counted(t) + Tally(k)
  {
    assert ([t] + k)[1..] == k;
  }

  function WordTokens(argv: seq<Span>): (m: multiset<Token>) {
    if argv == [] then multiset{} else WordTokens(argv[..|argv| - 1]) + multiset{Word(argv[|argv| - 1])}
  }

  /** The words and the symbols of a command. */
  function Pieces(c: Cmd): (m: multiset<Token>) {
    match c
    case ExecCmd(argv) => WordTokens(argv)
    case RedirCmd(inner, file, _, fd) => Pieces(inner) + multiset{Word(file), Sym(if fd == 0 then '<' else '>')}
    case PipeCmd(l, r) => Pieces(l) + Pieces(r) + multiset{Sym('|')}
    case ListCmd(l, r) => Pieces(l) + Pieces(r) + multiset{Sym(';')}
    case BackCmd(inner) => Pieces(inner) + multiset{Sym('&')}
  }

  lemma {:induction false} RedirectsTally(c: Cmd, rs: seq<Redirect>, k: seq<Token>)
    requires RedirectsOk(rs)
    ensures Pieces(c) + Tally(RedirectTokens(rs, k)) == Pieces(Redirected(c, rs)) + Tally(k)
    decreases |rs|
  {
    hide Pieces, Tally, Counted;
    if rs != [] {
      var op, file, tail := rs[0].op, rs[0].file, RedirectTokens(rs[1..], k);
      TallyFirst(op, [Word(file)] + tail);
      TallyFirst(Word(file), tail);
      RedirPieces(c, op, file);
      RedirectsTally(RedirCmd(c, file, Mode(op), Fd(op)), rs[1..], k);
      assert Pieces(c) + Tally(RedirectTokens(rs, k)) == Pieces(c) + Counted(op) + Counted(Word(file)) + Tally(tail);
    }
  }

  lemma RedirPieces(c: Cmd, op: Token, file: Span)
    requires IsRedirect(op)
    ensures Pieces(RedirCmd(c, file, Mode(op), Fd(op))) == Pieces(c) + Counted(op) + Counted(Word(file))
  {
    assert multiset{Word(file), Sym(if Fd(op) == 0 then '<' else '>')} == Counted(op) + Counted(Word(file));
  }

  lemma {:induction false} WithArgPieces(c: Cmd, w: Span)
    requires Bare(c)
    ensures Pieces(WithArg(c, w)) == Pieces(c) + multiset{Word(w)}
    decreases c
  {
    if c.RedirCmd? {
      WithArgPieces(c.cmd, w);
    } else {
      assert (c.argv + [w])[..|c.argv|] == c.argv;
    }
  }

  lemma {:induction false} ArgsTally(before: seq<Redirect>, done: seq<Arg>, todo: seq<Arg>, k: seq<Token>)
    requires ArgsOk(todo)
    ensures Pieces(ExecTree(Simple(before, done))) + Tally(ArgTokens(todo, k)) ==
            Pieces(ExecTree(Simple(before, done + todo))) + Tally(k)
    decreases |todo|
  {
    hide Redirected, RedirectTokens, Pieces, Tally, AllRedirects, Words;
    if todo == [] {
      assert done + todo == done;
    } else {
      var a, tail, c := todo[0], ArgTokens(todo[1..], k), ExecTree(Simple(before, done));
      TallyFirst(Word(a.word), RedirectTokens(a.redirects, tail));
      BareRedirected(ExecCmd(Words(done)), before + AllRedirects(done));
      WithArgPieces(c, a.word);
      RedirectsTally(WithArg(c, a.word), a.redirects, tail);
      ArgAdded(before, done, a.word, a.redirects);
      assert done + [Arg(a.word, a.redirects)] == done + [a];
      ArgsTally(before, done + [a], todo[1..], k);
      assert done + [a] + todo[1..] == done + todo;
    }
  }

  lemma {:induction false} ExecTally(e: Exec, k: seq<Token>)
    requires ExecOk(e)
    ensures Tally(ExecTokens(e, k)) == Pieces(ExecTree(e)) + Tally(k)
    decreases e
  {
    hide Redirected, RedirectTokens, ArgTokens;
    match e
    case Block(line, after) =>
      var close := RedirectTokens(after, k);
      TallyFirst(Sym('('), LineTokens(line, [Sym(')')] + close));
      LineTally(line, [Sym(')')] + close);
      TallyFirst(Sym(')'), close);
      RedirectsTally(LineTree(line), after, k);
    case Simple(before, args) =>
      RedirectsTally(ExecCmd([]), before, ArgTokens(args, k));
      assert before + [] == before && Words([]) == [];
      assert ExecTree(Simple(before, [])) == Redirected(ExecCmd([]), before);
      ArgsTally(before, [], args, k);
      assert [] + args == args;
  }

  lemma {:induction false} PipelineTally(p: Pipeline, k: seq<Token>)
    requires PipelineOk(p)
    ensures Tally(PipelineTokens(p, k)) == Pieces(PipelineTree(p)) + Tally(k)
    decreases p
  {
    hide ExecTokens, ExecTree, ExecOk;
    match p
    case Single(e) => ExecTally(e, k);
    case Piped(e, rest) =>
      var tail := PipelineTokens(rest, k);
      ExecTally(e, [Sym('|')] + tail);
      TallyFirst(Sym('|'), tail);
      PipelineTally(rest, k);
  }

  lemma BackPieces(c: Cmd)
    ensures Pieces(BackCmd(c)) == Pieces(c) + multiset{Sym('&')}
  {
  }

  lemma {:induction false} AmpsTally(c: Cmd, n: nat, k: seq<Token>)
    ensures Pieces(c) + Tally(Amps(n, k)) == Pieces(Backgrounds(c, n)) + Tally(k)
    decreases n
  {
    hide Pieces, Tally;
    if n > 0 {
      TallyFirst(Sym('&'), Amps(n - 1, k));
      AmpsTally(c, n - 1, k);
      BackPieces(Backgrounds(c, n - 1));
      var one, rest := multiset{Sym('&')}, Tally(Amps(n - 1, k));
      assert Pieces(c) + (one + rest) == Pieces(c) + rest + one;
    }
  }

  /** The command has a word for every word of the line, and a pipe, a list, a background command or a redirection
      for every such symbol, and nothing else. */
  lemma {:induction false} LineTally(l: Line, k: seq<Token>)
    requires LineOk(l)
    ensures Tally(LineTokens(l, k)) == Pieces(LineTree(l)) + Tally(k)
    decreases l
  {
    hide PipelineTokens, PipelineTree, PipelineOk, Amps, Backgrounds;
    match l
    case Last(p, amps) =>
      PipelineTally(p, Amps(amps, k));
      AmpsTally(PipelineTree(p), amps, k);
    case Then(p, amps, next) =>
      var tail := LineTokens(next, k);
      PipelineTally(p, Amps(amps, [Sym(';')] + tail));
      AmpsTally(PipelineTree(p), amps, [Sym(';')] + tail);
      TallyFirst(Sym(';'), tail);
      LineTally(next, k);
  }

  /** How often c stands on the line from position i on. */
  function Occurs(s: string, c: char, i: nat): (n: nat)
    requires i <= |s|
    decreases |s| - i
  {
    if i == |s| then 0 else (if s[i] == c then 1 else 0) + Occurs(s, c, i + 1)
  }

  lemma {:induction false} OccursAfter(s: string, c: char, i: nat, j: nat)
    requires i <= j <= |s| && forall k :: i <= k < j ==> s[k] != c
    ensures Occurs(s, c, i) == Occurs(s, c, j)
    decreases j - i
  {
    if i < j {
      OccursAfter(s, c, i + 1, j);
    }
  }

  /** What the token at m contributes. */
  lemma TokenChars(s: string, m: nat)
    requires m < |s| && !IsSpace(s[m])
    ensures forall c :: c in "<|&;" ==> Counted(TokenAt(s, m))[Sym(c)] == if s[m] == c then 1 else 0
    ensures forall c, k :: c in "<|&;" && m < k < TokenEnd(s, m) ==> s[k] != c
    ensures forall p :: m <= p < TokenEnd(s, m) && IsWordChar(s[p]) ==> TokenAt(s, m) == Word(Span(m, TokenEnd(s, m)))
  {
  }

  lemma LexSplit(s: string, i: nat)
    requires i <= |s|
    ensures var m := SkipSpace(s, i);
            if m == |s| then Tally(Lex(s, i)) == multiset{}
            else Tally(Lex(s, i)) == Counted(TokenAt(s, m)) + Tally(Lex(s, TokenEnd(s, m)))
  {
    LexFirst(s, i);
  }

  lemma {:induction false} OccursTally(s: string, c: char, i: nat)
    requires i <= |s| && c in "<|&;"
    ensures Tally(Lex(s, i))[Sym(c)] == Occurs(s, c, i)
    decreases |s| - i
  {
    hide Lex, Tally, TokenAt, Counted;
    LexSplit(s, i);
    var m := SkipSpace(s, i);
    OccursAfter(s, c, i, m);
    if m < |s| {
      var n := TokenEnd(s, m);
      TokenChars(s, m);
      OccursTally(s, c, n);
      OccursAfter(s, c, m + 1, n);
    }
  }

  /** Position p of the line is inside a piece of c. */
  ghost predicate Covered(c: Cmd, p: nat) {
    exists w :: Uses(c, w) && w.b <= p < w.e
  }

  lemma {:induction false} WordFound(s: string, i: nat, p: nat) returns (w: Span)
    requires i <= p < |s| && IsWordChar(s[p])
    ensures Word(w) in Tally(Lex(s, i)) && w.b <= p < w.e
    decreases |s| - i
  {
    hide Lex, Tally, TokenAt;
    LexSplit(s, i);
    var m := SkipSpace(s, i);
    var n := TokenEnd(s, m);
    TokenChars(s, m);
    if p < n {
      w := Span(m, n);
    } else {
      w := WordFound(s, n, p);
    }
  }

  lemma {:induction false} WordTokensUsed(argv: seq<Span>, w: Span)
    requires Word(w) in WordTokens(argv)
    ensures w in argv
    decreases |argv|
  {
    if argv != [] && w != argv[|argv| - 1] {
      WordTokensUsed(argv[..|argv| - 1], w);
    }
  }

  lemma {:induction false} PiecesUsed(c: Cmd, w: Span)
    requires Word(w) in Pieces(c)
    ensures Uses(c, w)
    decreases c
  {
    match c
    case ExecCmd(argv) => WordTokensUsed(argv, w);
    case RedirCmd(inner, file, _, _) =>
      if w != file {
        PiecesUsed(inner, w);
      }
    case PipeCmd(l, r) =>
      if Word(w) in Pieces(l) {
        PiecesUsed(l, w);
      } else {
        PiecesUsed(r, w);
      }
    case ListCmd(l, r) =>
      if Word(w) in Pieces(l) {
        PiecesUsed(l, w);
      } else {
        PiecesUsed(r, w);
      }
    case BackCmd(inner) => PiecesUsed(inner, w);
  }

  /** What the line says, the command says: in order, and all of it. */
  ghost predicate Says(s: string, c: Cmd) {
    && Lies(c, s, 0, |s|)
    && (forall p :: 0 <= p < |s| && IsWordChar(s[p]) ==> Covered(c, p))
    && (forall x :: x in "<|&;" ==> Pieces(c)[Sym(x)] == Occurs(s, x, 0))
  }

  lemma LineSays(s: string, l: Line)
    requires LineOk(l) && Lex(s, 0) == LineTokens(l, [])
    ensures Says(s, LineTree(l)) && Pieces(LineTree(l)) == Tally(Lex(s, 0))
  {
    hide Lies, Lex, LineTokens, LineOk, Pieces, Occurs, LineTree;
    var c := LineTree(l);
    var j := LineLies(l, [], s, 0);
    LiesWider(c, s, 0, j, |s|);
    LineTally(l, []);
    forall p | 0 <= p < |s| && IsWordChar(s[p]) ensures Covered(c, p) {
      var w := WordFound(s, 0, p);
      PiecesUsed(c, w);
    }
    forall x | x in "<|&;" ensures Pieces(c)[Sym(x)] == Occurs(s, x, 0) {
      OccursTally(s, x, 0);
    }
  }
}
