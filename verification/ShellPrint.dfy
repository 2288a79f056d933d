/** Commands printed with every subcommand in parentheses, and the proof that the parser of the shell reads
    each of them back. */
module ShellPrint {
  import opened Shell

  function ShowArgs(argv: seq<string>): string {
    if argv == [] then "" else if |argv| == 1 then argv[0] else argv[0] + (" " + ShowArgs(argv[1..]))
  }

  function Paren(s: string): string {
    "(" + (s + ")")
  }

  function Show(c: Cmd<string>): string {
    match c
    case Exec(argv) => ShowArgs(argv)
    case Redir(d, f, write) => Paren(Show(d)) + ((if write then ">" else "<") + f)
    case Pipe(l, r) => Paren(Show(l)) + ("|" + Paren(Show(r)))
    case List(l, r) => Paren(Show(l)) + (";" + Paren(Show(r)))
    case Back(d) => Paren(Show(d)) + "&"
  }

  predicate IsWord(w: string) {
    w != "" && forall i :: 0 <= i < |w| ==> InWord(w[i])
  }

  // The commands that can be written down: nine arguments at most, and words that are words.
  ghost predicate Printable(c: Cmd<string>) {
    match c
    case Exec(argv) => |argv| < MAXARGS && forall i :: 0 <= i < |argv| ==> IsWord(argv[i])
    case Redir(d, f, _) => Printable(d) && IsWord(f)
    case Pipe(l, r) => Printable(l) && Printable(r)
    case List(l, r) => Printable(l) && Printable(r)
    case Back(d) => Printable(d)
  }

  function Slice(t: string, s: Span): string {
    if s.q <= s.eq <= |t| then t[s.q..s.eq] else ""
  }

  // The command with each span replaced by the string it bounds.
  function Text(t: string, c: Cmd<Span>): Cmd<string> {
    match c
    case Exec(argv) => Exec(seq(|argv|, i requires 0 <= i < |argv| => Slice(t, argv[i])))
    case Redir(d, f, write) => Redir(Text(t, d), Slice(t, f), write)
    case Pipe(l, r) => Pipe(Text(t, l), Text(t, r))
    case List(l, r) => List(Text(t, l), Text(t, r))
    case Back(d) => Back(Text(t, d))
  }

  // ---------------------------------------------------------------- places in a line

  ghost predicate Occurs(t: string, p: nat, w: string) {
    p + |w| <= |t| && t[p..p + |w|] == w
  }

  lemma OccursSplit(t: string, p: nat, a: string, b: string)
    requires Occurs(t, p, a + b)
    ensures Occurs(t, p, a) && Occurs(t, p + |a|, b)
  {
    var w := t[p..p + |a + b|];
    assert t[p..p + |a|] == w[..|a|];
    assert t[p + |a|..p + |a| + |b|] == w[|a|..];
  }

  lemma OccursAt(t: string, p: nat, w: string, i: nat)
    requires Occurs(t, p, w) && i < |w|
    ensures At(t, p + i) == w[i]
  {
    assert t[p..p + |w|][i] == w[i];
  }

  // A command, and a line, end at a closing parenthesis or at the end.
  predicate Closes(c: char) {
    c == ')' || c == NUL
  }

  lemma SkipNone(t: string, p: nat)
    requires p <= |t| && !White(At(t, p))
    ensures Skip(t, p) == p
  {
  }

  lemma {:induction false} WordEndIs(t: string, p: nat, e: nat)
    requires p <= e <= |t| && (forall i :: p <= i < e ==> InWord(t[i])) && !InWord(At(t, e)) && Line(t)
    ensures WordEnd(t, p) == e
    decreases e - p
  {
    if p < e { WordEndIs(t, p + 1, e); }
  }

  lemma WordParses(t: string, p: nat, w: string)
    requires Line(t) && Occurs(t, p, w) && IsWord(w) && !InWord(At(t, p + |w|))
    ensures Gettoken(t, p) == Token('a', p, p + |w|, Skip(t, p + |w|)) && Slice(t, Span(p, p + |w|)) == w
    ensures InWord(At(t, p))
  {
    forall i | p <= i < p + |w| ensures InWord(t[i]) { OccursAt(t, p, w, i - p); }
    SkipNone(t, p);
    WordEndIs(t, p, p + |w|);
  }

  lemma SymbolParses(t: string, p: nat)
    requires Line(t) && p < |t| && t[p] in "|();&<>" && (t[p] == '>' ==> At(t, p + 1) != '>')
    ensures Gettoken(t, p) == Token(t[p], p, p + 1, Skip(t, p + 1))
  {
    SkipNone(t, p);
  }

  // ---------------------------------------------------------------- arguments

  // The strings at the spans from the k-th on.
  ghost predicate SpansShow(t: string, spans: seq<Span>, k: nat, argv: seq<string>) {
    |spans| == k + |argv| && forall i :: 0 <= i < |argv| ==> Slice(t, spans[k + i]) == argv[i]
  }

  lemma NoRedirs(t: string, p: nat, rs: seq<Redirection>)
    requires p <= |t| && Line(t) && !White(At(t, p)) && At(t, p) != '<' && At(t, p) != '>'
    ensures ParseRedirs(t, p, rs) == Redirs(rs, p)
  {
    SkipNone(t, p);
  }

  lemma ArgsEnd(t: string, p: nat, found: seq<Span>)
    requires p <= |t| && Line(t) && Closes(At(t, p))
    ensures ParseArgs(t, p, found, []) == Done(Exec(found), p)
  {
    SkipNone(t, p);
  }

  lemma {:induction false} ArgsParse(t: string, p: nat, argv: seq<string>, found: seq<Span>)
    requires Line(t) && Occurs(t, p, ShowArgs(argv)) && Closes(At(t, p + |ShowArgs(argv)|))
    requires |found| + |argv| < MAXARGS && forall i :: 0 <= i < |argv| ==> IsWord(argv[i])
    ensures var r := ParseArgs(t, p, found, []);
      && r.Done? && r.pos == p + |ShowArgs(argv)| && r.cmd.Exec?
      && found <= r.cmd.argv && SpansShow(t, r.cmd.argv, |found|, argv)
    decreases argv
  {
    hide ParseArgs, ShowArgs, At, Skip, IsWord, InWord, White, Line, Slice;
    if argv == [] {
      NoArgs();
      ArgsEnd(t, p, found);
    } else {
      var w, e := argv[0], p + |argv[0]|;
      FirstWord(t, p, argv);
      var next := if |argv| == 1 then e else e + 1;
      ArgsStep(t, p, w, found, next);
      ArgsParse(t, next, argv[1..], found + [Span(p, e)]);
      SpansMore(t, ParseArgs(t, p, found, []).cmd.argv, found, Span(p, e), argv);
    }
  }

  lemma NoArgs()
    ensures ShowArgs([]) == ""
  {
  }

  lemma SpansMore(t: string, spans: seq<Span>, found: seq<Span>, s: Span, argv: seq<string>)
    requires argv != [] && Slice(t, s) == argv[0]
    requires found + [s] <= spans && SpansShow(t, spans, |found| + 1, argv[1..])
    ensures found <= spans && SpansShow(t, spans, |found|, argv)
  {
    hide Slice;
    assert spans[|found|] == (found + [s])[|found|];
    forall i | 0 <= i < |argv| ensures Slice(t, spans[|found| + i]) == argv[i] {
      if i > 0 { assert Slice(t, spans[|found| + 1 + (i - 1)]) == argv[1..][i - 1]; }
    }
  }

  // The first argument, what follows it, and where the rest begins.
  lemma FirstWord(t: string, p: nat, argv: seq<string>)
    requires Line(t) && argv != [] && Occurs(t, p, ShowArgs(argv)) && Closes(At(t, p + |ShowArgs(argv)|))
    requires forall i :: 0 <= i < |argv| ==> IsWord(argv[i])
    ensures var w, e := argv[0], p + |argv[0]|;
      var next := if |argv| == 1 then e else e + 1;
      && IsWord(w) && Occurs(t, p, w) && !InWord(At(t, e)) && next <= |t| && Skip(t, e) == next && !White(At(t, next))
      && At(t, next) != '<' && At(t, next) != '>'
      && Occurs(t, next, ShowArgs(argv[1..])) && next + |ShowArgs(argv[1..])| == p + |ShowArgs(argv)|
  {
    hide IsWord, Line, ShowArgs, Skip, Occurs;
    var w, e := argv[0], p + |argv[0]|;
    ShowArgsParts(argv);
    if |argv| == 1 {
      OccursNothing(t, p, w);
      SkipNone(t, e);
    } else {
      var rest := ShowArgs(argv[1..]);
      OccursSplit(t, p, w, " " + rest);
      OccursSplit(t, e, " ", rest);
      OccursAt(t, e, " ", 0);
      ShowArgsStart(argv[1..]);
      OccursAt(t, e + 1, rest, 0);
      SkipBlank(t, e);
    }
  }

  lemma ShowArgsParts(argv: seq<string>)
    requires argv != []
    ensures |argv| == 1 ==> ShowArgs(argv) == argv[0] && ShowArgs(argv[1..]) == ""
    ensures |argv| > 1 ==> ShowArgs(argv) == argv[0] + (" " + ShowArgs(argv[1..])) && argv[1..] != []
  {
  }

  lemma OccursNothing(t: string, p: nat, w: string)
    requires Occurs(t, p, w)
    ensures p + |w| <= |t| && Occurs(t, p + |w|, "")
  {
  }

  lemma SkipBlank(t: string, e: nat)
    requires At(t, e) == ' ' && !White(At(t, e + 1))
    ensures e + 1 <= |t| && Skip(t, e) == e + 1
  {
    SkipNone(t, e + 1);
  }

  lemma ShowArgsStart(argv: seq<string>)
    requires argv != [] && IsWord(argv[0])
    ensures ShowArgs(argv) != "" && InWord(ShowArgs(argv)[0])
  {
  }

  lemma ArgsStep(t: string, p: nat, w: string, found: seq<Span>, next: nat)
    requires Line(t) && Occurs(t, p, w) && IsWord(w) && !InWord(At(t, p + |w|)) && |found| + 1 < MAXARGS
    requires next <= |t| && Skip(t, p + |w|) == next && !White(At(t, next)) && At(t, next) != '<' && At(t, next) != '>'
    ensures ParseArgs(t, p, found, []) == ParseArgs(t, next, found + [Span(p, p + |w|)], [])
    ensures Slice(t, Span(p, p + |w|)) == w
  {
    hide IsWord, Line, Slice, ParseRedirs, Gettoken, Wrap;
    WordParses(t, p, w);
    SkipNone(t, p);
    NoRedirs(t, next, []);
  }

  // ---------------------------------------------------------------- one rule at a time

  lemma BlockRule(t: string, p: nat, c: Cmd<Span>, a: nat, rs: seq<Redirection>, e: nat)
    requires Line(t) && p < a < |t|
    requires At(t, p) == '(' && Skip(t, p + 1) == p + 1 && ParseLine(t, p + 1) == Done(c, a) && At(t, a) == ')'
    requires Skip(t, a + 1) == a + 1 && ParseRedirs(t, a + 1, []) == Redirs(rs, e)
    ensures ParseExec(t, p) == Done(Wrap(c, rs), e)
  {
    hide ParseLine, ParseRedirs, Wrap, Line;
    SkipNone(t, p);
    SkipNone(t, a);
    SymbolParses(t, p);
    SymbolParses(t, a);
  }

  lemma PipeNone(t: string, p: nat, c: Cmd<Span>, a: nat)
    requires Line(t) && p <= a <= |t| && ParseExec(t, p) == Done(c, a) && !White(At(t, a)) && At(t, a) != '|'
    ensures ParsePipe(t, p) == Done(c, a)
  {
    hide ParseExec, Line;
    SkipNone(t, a);
  }

  lemma PipeMore(t: string, p: nat, c: Cmd<Span>, a: nat, d: Cmd<Span>, e: nat)
    requires Line(t) && p <= a < |t| && ParseExec(t, p) == Done(c, a) && At(t, a) == '|'
    requires Skip(t, a + 1) == a + 1 && ParsePipe(t, a + 1) == Done(d, e)
    ensures ParsePipe(t, p) == Done(Pipe(c, d), e)
  {
    hide ParseExec, Line, Skip;
    SkipNone(t, a);
    SymbolParses(t, a);
  }

  lemma LineNone(t: string, p: nat, c: Cmd<Span>, a: nat)
    requires Line(t) && p <= a <= |t| && ParsePipe(t, p) == Done(c, a) && !White(At(t, a)) && At(t, a) != '&'
    requires At(t, a) != ';'
    ensures ParseLine(t, p) == Done(c, a)
  {
    hide ParsePipe, Line;
    SkipNone(t, a);
  }

  lemma LineMore(t: string, p: nat, c: Cmd<Span>, a: nat, d: Cmd<Span>, e: nat)
    requires Line(t) && p <= a < |t| && ParsePipe(t, p) == Done(c, a) && At(t, a) == ';'
    requires Skip(t, a + 1) == a + 1 && ParseLine(t, a + 1) == Done(d, e)
    ensures ParseLine(t, p) == Done(List(c, d), e)
  {
    hide ParsePipe, Line, Skip;
    SkipNone(t, a);
    SymbolParses(t, a);
  }

  lemma LineBack(t: string, p: nat, c: Cmd<Span>, a: nat)
    requires Line(t) && p <= a < |t| && ParsePipe(t, p) == Done(c, a) && At(t, a) == '&' && Closes(At(t, a + 1))
    ensures ParseLine(t, p) == Done(Back(c), a + 1)
  {
    hide ParsePipe, Line, Skip, Gettoken;
    SkipNone(t, a);
    SkipNone(t, a + 1);
    SymbolParses(t, a);
    assert ParseBacks(t, a + 1, Back(c)) == Done(Back(c), a + 1);
    assert ParseBacks(t, a, c) == Done(Back(c), a + 1);
  }

  lemma RedirOne(t: string, a: nat, f: string)
    requires Line(t) && Occurs(t, a + 1, f) && IsWord(f) && Closes(At(t, a + 1 + |f|))
    requires (At(t, a) == '<' || At(t, a) == '>')
    ensures a < |t| && ParseRedirs(t, a, []) == Redirs([Redirection(Span(a + 1, a + 1 + |f|), At(t, a) == '>')],
      a + 1 + |f|)
    ensures Slice(t, Span(a + 1, a + 1 + |f|)) == f
  {
    var e := a + 1 + |f|;
    WordParses(t, a + 1, f);
    SymbolParses(t, a);
    SkipNone(t, a);
    SkipNone(t, a + 1);
    SkipNone(t, e);
    hide Gettoken, Skip, IsWord, Slice, InWord;
    NoRedirs(t, e, [Redirection(Span(a + 1, e), At(t, a) == '>')]);
  }

  lemma WrapOne(c: Cmd<Span>, r: Redirection)
    ensures Wrap(c, [r]) == Redir(c, r.file, r.write) && Wrap(c, []) == c
  {
    assert [r][..0] == [];
  }

  // What parseexec read up to e is all of the line.
  lemma ExecIsLine(t: string, p: nat, c: Cmd<Span>, e: nat)
    requires p <= e <= |t| && Line(t) && ParseExec(t, p) == Done(c, e) && Closes(At(t, e))
    ensures ParsePipe(t, p) == Done(c, e) && ParseLine(t, p) == Done(c, e)
  {
    hide ParseExec, ParsePipe, ParseLine, Line;
    PipeNone(t, p, c, e);
    LineNone(t, p, c, e);
  }

  // ---------------------------------------------------------------- commands

  ghost predicate Reads(t: string, r: Parsed, e: nat, c: Cmd<string>) {
    r.Done? && r.pos == e && Text(t, r.cmd) == c
  }

  // A command in parentheses: where its parts are, and what parseline makes of the inside.
  lemma {:induction false} ParenParses(t: string, p: nat, c: Cmd<string>)
    requires Line(t) && Printable(c) && Occurs(t, p, Paren(Show(c)))
    ensures var a := p + 1 + |Show(c)|;
      && |Paren(Show(c))| == |Show(c)| + 2 && p < a < |t| && At(t, p) == '(' && At(t, a) == ')'
      && Skip(t, p + 1) == p + 1 && Reads(t, ParseLine(t, p + 1), a, c)
    decreases c, 3
  {
    hide ParseLine, Show, Line, Printable, Reads;
    var s := Show(c);
    OccursSplit(t, p, "(", s + ")");
    OccursSplit(t, p + 1, s, ")");
    OccursAt(t, p, "(", 0);
    OccursAt(t, p + 1 + |s|, ")", 0);
    LineParses(t, p + 1, c);
    if s != "" { OccursAt(t, p + 1, s, 0); ShowStart(c); }
    SkipNone(t, p + 1);
  }

  lemma ShowStart(c: Cmd<string>)
    requires Printable(c) && Show(c) != ""
    ensures !White(Show(c)[0])
  {
    if c.Exec? && c.argv != [] { assert IsWord(c.argv[0]); ShowArgsStart(c.argv); }
  }

  // The same, when what follows is no redirection either.
  lemma {:induction false} ParenIsExec(t: string, p: nat, c: Cmd<string>)
    requires Line(t) && Printable(c) && Occurs(t, p, Paren(Show(c)))
    requires var d := At(t, p + |Paren(Show(c))|); !White(d) && d != '<' && d != '>'
    ensures p + |Paren(Show(c))| <= |t| && Reads(t, ParseExec(t, p), p + |Paren(Show(c))|, c)
    decreases c, 4
  {
    hide ParseLine, ParseExec, ParseRedirs, Show, Line, Printable, Skip, At, White, Wrap, Paren, Text;
    var e := p + |Paren(Show(c))|;
    ParenParses(t, p, c);
    SkipNone(t, e);
    NoRedirs(t, e, []);
    var inner := ParseLine(t, p + 1).cmd;
    BlockRule(t, p, inner, e - 1, [], e);
    WrapOne(inner, Redirection(Span(0, 0), true));
  }

  // A printed command is parsed as itself, wherever in a line it stands.
  lemma {:induction false} LineParses(t: string, p: nat, c: Cmd<string>)
    requires Line(t) && Printable(c) && Occurs(t, p, Show(c)) && Closes(At(t, p + |Show(c)|))
    ensures Reads(t, ParseLine(t, p), p + |Show(c)|, c)
    decreases c, 2
  {
    hide ParseLine, Show, Line, Occurs, Closes, At, Reads;
    match c
    case Exec(argv) => ExecParses(t, p, c);
    case Redir(_, _, _) => RedirParses(t, p, c);
    case Pipe(_, _) => PipeParses(t, p, c);
    case List(_, _) => ListParses(t, p, c);
    case Back(_) => BackParses(t, p, c);
  }

  lemma ExecParses(t: string, p: nat, c: Cmd<string>)
    requires c.Exec? && Line(t) && Printable(c) && Occurs(t, p, Show(c)) && Closes(At(t, p + |Show(c)|))
    ensures Reads(t, ParseLine(t, p), p + |Show(c)|, c)
  {
    hide ParseLine, ParseArgs, ParseRedirs, Line, Closes, At, Slice, ShowArgs, IsWord, White;
    var argv := c.argv;
    var e := p + |ShowArgs(argv)|;
    FirstChar(t, p, argv);
    NoRedirs(t, p, []);
    ArgsParse(t, p, argv, []);
    var r := ParseArgs(t, p, [], []);
    assert ParseExec(t, p) == r by { SkipNone(t, p); }
    ExecIsLine(t, p, r.cmd, e);
    assert Text(t, r.cmd).argv == argv;
  }

  lemma FirstChar(t: string, p: nat, argv: seq<string>)
    requires Occurs(t, p, ShowArgs(argv)) && Closes(At(t, p + |ShowArgs(argv)|))
    requires forall i :: 0 <= i < |argv| ==> IsWord(argv[i])
    ensures p <= |t| && !White(At(t, p)) && At(t, p) != '<' && At(t, p) != '>' && At(t, p) != '('
  {
    if argv != [] {
      assert IsWord(argv[0]);
      ShowArgsStart(argv);
      OccursAt(t, p, ShowArgs(argv), 0);
    }
  }

  lemma ShowParts(c: Cmd<string>)
    ensures c.Redir? ==> Show(c) == Paren(Show(c.cmd)) + ((if c.write then ">" else "<") + c.file)
    ensures c.Pipe? ==> Show(c) == Paren(Show(c.left)) + (['|'] + Paren(Show(c.right)))
    ensures c.List? ==> Show(c) == Paren(Show(c.left)) + ([';'] + Paren(Show(c.right)))
    ensures c.Back? ==> Show(c) == Paren(Show(c.cmd)) + "&"
  {
  }

  lemma ParenStart(s: string)
    ensures |Paren(s)| == |s| + 2 && Paren(s)[0] == '('
  {
  }

  lemma {:induction false} RedirParses(t: string, p: nat, c: Cmd<string>)
    requires c.Redir? && Line(t) && Printable(c) && Occurs(t, p, Show(c)) && Closes(At(t, p + |Show(c)|))
    ensures Reads(t, ParseLine(t, p), p + |Show(c)|, c)
    decreases c, 1
  {
    hide ParseLine, ParseExec, ParseRedirs, Show, Line, At, Skip, Wrap, Paren, IsWord, Slice;
    var sign := if c.write then ">" else "<";
    var a := p + |Paren(Show(c.cmd))|;
    ShowParts(c);
    OccursSplit(t, p, Paren(Show(c.cmd)), sign + c.file);
    OccursSplit(t, a, sign, c.file);
    OccursAt(t, a, sign, 0);
    ParenParses(t, p, c.cmd);
    RedirOne(t, a, c.file);
    SkipNone(t, a);
    var inner, r := ParseLine(t, p + 1).cmd, Redirection(Span(a + 1, a + 1 + |c.file|), c.write);
    BlockRule(t, p, inner, a - 1, [r], a + 1 + |c.file|);
    WrapOne(inner, r);
    ExecIsLine(t, p, Redir(inner, r.file, r.write), a + 1 + |c.file|);
  }

  // Two commands in parentheses with one symbol between them.
  lemma {:induction false} PairParses(t: string, p: nat, c: Cmd<string>, op: char)
    requires Line(t) && Printable(c) && ((c.Pipe? && op == '|') || (c.List? && op == ';'))
    requires Occurs(t, p, Show(c)) && Closes(At(t, p + |Show(c)|))
    ensures var a, e := p + |Paren(Show(c.left))|, p + |Show(c)|;
      && p <= a < e <= |t| && At(t, a) == op && Skip(t, a + 1) == a + 1
      && Reads(t, ParseExec(t, p), a, c.left) && Reads(t, ParseExec(t, a + 1), e, c.right)
    decreases c, 0
  {
    hide ParseExec, Show, Line, Skip, Paren, Reads;
    var l, r := Paren(Show(c.left)), Paren(Show(c.right));
    var a := p + |l|;
    ShowParts(c);
    ParenStart(Show(c.right));
    OccursSplit(t, p, l, [op] + r);
    OccursSplit(t, a, [op], r);
    OccursAt(t, a, [op], 0);
    OccursAt(t, a + 1, r, 0);
    ParenIsExec(t, p, c.left);
    ParenIsExec(t, a + 1, c.right);
    SkipNone(t, a + 1);
  }

  lemma {:induction false} PipeParses(t: string, p: nat, c: Cmd<string>)
    requires c.Pipe? && Line(t) && Printable(c) && Occurs(t, p, Show(c)) && Closes(At(t, p + |Show(c)|))
    ensures Reads(t, ParseLine(t, p), p + |Show(c)|, c)
    decreases c, 1
  {
    hide ParseLine, ParsePipe, ParseExec, Show, Line, At, Skip, Paren, Printable, Occurs;
    var a, e := p + |Paren(Show(c.left))|, p + |Show(c)|;
    PairParses(t, p, c, '|');
    var l, r := ParseExec(t, p).cmd, ParseExec(t, a + 1).cmd;
    ExecIsLine(t, a + 1, r, e);
    PipeMore(t, p, l, a, r, e);
    LineNone(t, p, Pipe(l, r), e);
  }

  lemma {:induction false} ListParses(t: string, p: nat, c: Cmd<string>)
    requires c.List? && Line(t) && Printable(c) && Occurs(t, p, Show(c)) && Closes(At(t, p + |Show(c)|))
    ensures Reads(t, ParseLine(t, p), p + |Show(c)|, c)
    decreases c, 1
  {
    hide ParseLine, ParsePipe, ParseExec, Show, Line, At, Skip, Paren, Printable, Occurs;
    var a, e := p + |Paren(Show(c.left))|, p + |Show(c)|;
    PairParses(t, p, c, ';');
    var l, r := ParseExec(t, p).cmd, ParseExec(t, a + 1).cmd;
    ExecIsLine(t, a + 1, r, e);
    PipeNone(t, p, l, a);
    LineMore(t, p, l, a, r, e);
  }

  lemma {:induction false} BackParses(t: string, p: nat, c: Cmd<string>)
    requires c.Back? && Line(t) && Printable(c) && Occurs(t, p, Show(c)) && Closes(At(t, p + |Show(c)|))
    ensures Reads(t, ParseLine(t, p), p + |Show(c)|, c)
    decreases c, 1
  {
    hide ParseLine, ParsePipe, ParseExec, Show, Line, Skip, Paren;
    var a := p + |Paren(Show(c.cmd))|;
    ShowParts(c);
    OccursSplit(t, p, Paren(Show(c.cmd)), "&");
    OccursAt(t, a, "&", 0);
    ParenIsExec(t, p, c.cmd);
    var inner := ParseExec(t, p).cmd;
    PipeNone(t, p, inner, a);
    LineBack(t, p, inner, a);
  }

  // Parsing the printing of a command gives the command back, and consumes all of it.
  lemma RoundTrip(c: Cmd<string>)
    requires Printable(c)
    ensures Line(Show(c)) && Reads(Show(c), ParseCmd(Show(c)), |Show(c)|, c)
  {
    hide ParseLine, Show, Printable, Line;
    var t := Show(c);
    ShowIsLine(c);
    assert t[0..|t|] == t;
    LineParses(t, 0, c);
    SkipNone(t, |t|);
  }

  lemma ShowIsLine(c: Cmd<string>)
    requires Printable(c)
    ensures Line(Show(c))
  {
    match c
    case Exec(argv) => ArgsAreLine(argv);
    case Redir(d, f, _) => ShowIsLine(d);
    case Pipe(l, r) => ShowIsLine(l); ShowIsLine(r);
    case List(l, r) => ShowIsLine(l); ShowIsLine(r);
    case Back(d) => ShowIsLine(d);
  }

  lemma {:induction false} ArgsAreLine(argv: seq<string>)
    requires forall i :: 0 <= i < |argv| ==> IsWord(argv[i])
    ensures Line(ShowArgs(argv))
  {
    if argv != [] {
      assert IsWord(argv[0]);
      ArgsAreLine(argv[1..]);
    }
  }

  // The bound on arguments is exact: a tenth one is a panic.
  lemma {:induction false} TooManyArgs(t: string, p: nat, argv: seq<string>, found: seq<Span>)
    requires Line(t) && Occurs(t, p, ShowArgs(argv)) && Closes(At(t, p + |ShowArgs(argv)|))
    requires |found| < MAXARGS <= |found| + |argv| && forall i :: 0 <= i < |argv| ==> IsWord(argv[i])
    ensures ParseArgs(t, p, found, []) == Panic
    decreases argv
  {
    hide ShowArgs, At, Skip, IsWord, InWord, White, Line, Slice, ParseArgs, Occurs;
    var w, e := argv[0], p + |argv[0]|;
    FirstWord(t, p, argv);
    var next := if |argv| == 1 then e else e + 1;
    if |found| + 1 < MAXARGS {
      ArgsStep(t, p, w, found, next);
      TooManyArgs(t, next, argv[1..], found + [Span(p, e)]);
    } else {
      TenthArg(t, p, w, found);
    }
  }

  lemma TenthArg(t: string, p: nat, w: string, found: seq<Span>)
    requires Line(t) && Occurs(t, p, w) && IsWord(w) && !InWord(At(t, p + |w|)) && MAXARGS <= |found| + 1
    ensures ParseArgs(t, p, found, []) == Panic
  {
    hide At, Skip, IsWord, InWord, White, Line, Slice, ParseRedirs;
    WordParses(t, p, w);
    WordStarts(t, p);
    SkipNone(t, p);
  }

  lemma WordStarts(t: string, p: nat)
    requires InWord(At(t, p))
    ensures p < |t| && !White(At(t, p)) && !Peeks(t, p, "|)&;")
  {
  }

  lemma TenArgumentsPanic(argv: seq<string>)
    requires MAXARGS <= |argv| && forall i :: 0 <= i < |argv| ==> IsWord(argv[i])
    ensures Line(ShowArgs(argv)) && ParseCmd(ShowArgs(argv)) == Panic
  {
    hide ParseArgs, ShowArgs, ParseRedirs, At, White, Closes, IsWord;
    var t := ShowArgs(argv);
    ArgsAreLine(argv);
    assert t[0..|t|] == t;
    AtEnd(t);
    FirstChar(t, 0, argv);
    NoRedirs(t, 0, []);
    TooManyArgs(t, 0, argv, []);
    assert ParseExec(t, 0) == Panic by { SkipNone(t, 0); }
    assert ParsePipe(t, 0) == Panic;
    assert ParseLine(t, 0) == Panic;
  }

  lemma AtEnd(t: string)
    ensures At(t, |t|) == NUL && Closes(At(t, |t|))
  {
  }
}
