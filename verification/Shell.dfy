/** The command grammar of the shell as its recursive-descent parser reads it (sh.c). A position is an
    index into the line; `panic` is a result. */
module Shell {
  const MAXARGS: nat := 10
  const NUL := '\0'

  // A string in the line: s[q] up to s[eq], not included.
  datatype Span = Span(q: nat, eq: nat)

  // struct cmd, over spans while it is parsed and over strings when it is read. `write` stands for the
  // mode O_WRONLY|O_CREATE on file descriptor 1, and its absence for O_RDONLY on 0.
  datatype Cmd<T> =
    | Exec(argv: seq<T>)
    | Redir(cmd: Cmd<T>, file: T, write: bool)
    | Pipe(left: Cmd<T>, right: Cmd<T>)
    | List(left: Cmd<T>, right: Cmd<T>)
    | Back(cmd: Cmd<T>)

  datatype Redirection = Redirection(file: Span, write: bool)

  datatype Parsed = Done(cmd: Cmd<Span>, pos: nat) | Panic

  datatype Redirs = Redirs(rs: seq<Redirection>, pos: nat) | NoFile

  // gettoken: its result, the bounds of the token, and the cursor it leaves.
  datatype Token = Token(ret: char, q: nat, eq: nat, next: nat)

  predicate White(c: char) {
    c in " \t\r\n\U{000B}"
  }

  predicate Symbol(c: char) {
    c in "<|>&;()"
  }

  predicate InWord(c: char) {
    c != NUL && !White(c) && !Symbol(c)
  }

  // The character at a position; NUL at the end of the line.
  function At(t: string, p: nat): char {
    if p < |t| then t[p] else NUL
  }

  predicate Line(t: string) {
    forall i :: 0 <= i < |t| ==> t[i] != NUL
  }

  // ---------------------------------------------------------------- tokens

  function Skip(t: string, p: nat): (r: nat)
    requires p <= |t|
    ensures p <= r <= |t| && !White(At(t, r)) && (forall i :: p <= i < r ==> White(t[i]))
    decreases |t| - p
  {
    if p < |t| && White(t[p]) then Skip(t, p + 1) else p
  }

  function WordEnd(t: string, p: nat): (r: nat)
    requires p <= |t|
    ensures p <= r <= |t| && (forall i :: p <= i < r ==> !White(t[i]) && !Symbol(t[i]))
    ensures r < |t| ==> White(t[r]) || Symbol(t[r])
    decreases |t| - p
  {
    if p < |t| && !White(t[p]) && !Symbol(t[p]) then WordEnd(t, p + 1) else p
  }

  function Gettoken(t: string, p: nat): (k: Token)
    requires p <= |t| && Line(t)
    ensures p <= k.q <= k.eq <= k.next <= |t| && (k.ret != NUL ==> k.q < k.eq)
    ensures k.ret == NUL ==> k.q == k.next == |t|
  {
    var q := Skip(t, p);
    var c := At(t, q);
    if c == NUL then Token(NUL, q, q, Skip(t, q))
    else if c in "|();&<" then Token(c, q, q + 1, Skip(t, q + 1))
    else if c == '>' then
      if At(t, q + 1) == '>' then Token('+', q, q + 2, Skip(t, q + 2)) else Token('>', q, q + 1, Skip(t, q + 1))
    else Token('a', q, WordEnd(t, q), Skip(t, WordEnd(t, q)))
  }

  predicate Peeks(t: string, p: nat, toks: string) {
    At(t, p) != NUL && At(t, p) in toks
  }

  // ---------------------------------------------------------------- commands

  function Wrap(c: Cmd<Span>, rs: seq<Redirection>): Cmd<Span> {
    if rs == [] then c
    else
      var r := rs[|rs| - 1];
      Redir(Wrap(c, rs[..|rs| - 1]), r.file, r.write)
  }

  // parseredirs, as the list of redirections it wraps around its command; rs were found before.
  function ParseRedirs(t: string, p: nat, rs: seq<Redirection>): (r: Redirs)
    requires p <= |t| && Line(t)
    ensures r.Redirs? ==> p <= r.pos <= |t| && !White(At(t, r.pos)) && !Peeks(t, r.pos, "<>")
    decreases |t| - p
  {
    var s := Skip(t, p);
    if !Peeks(t, s, "<>") then Redirs(rs, s)
    else
      var tok := Gettoken(t, s);
      var file := Gettoken(t, tok.next);
      if file.ret != 'a' then NoFile
      else ParseRedirs(t, file.next, rs + [Redirection(Span(file.q, file.eq), tok.ret != '<')])
  }

  // The loop of parseexec: argv and rs were found before.
  function ParseArgs(t: string, p: nat, argv: seq<Span>, rs: seq<Redirection>): (r: Parsed)
    requires p <= |t| && Line(t)
    ensures r.Done? ==> p <= r.pos <= |t|
    decreases |t| - p
  {
    var s := Skip(t, p);
    if Peeks(t, s, "|)&;") then Done(Wrap(Exec(argv), rs), s)
    else
      var tok := Gettoken(t, s);
      if tok.ret == NUL then Done(Wrap(Exec(argv), rs), tok.next)
      else if tok.ret != 'a' then Panic
      else if |argv| + 1 >= MAXARGS then Panic
      else
        match ParseRedirs(t, tok.next, rs)
        case NoFile => Panic
        case Redirs(rs', p') => ParseArgs(t, p', argv + [Span(tok.q, tok.eq)], rs')
  }

  function ParseExec(t: string, p: nat): (r: Parsed)
    requires p <= |t| && Line(t)
    ensures r.Done? ==> p <= r.pos <= |t|
    decreases |t| - p, 1
  {
    var s := Skip(t, p);
    if Peeks(t, s, "(") then ParseBlock(t, s)
    else
      match ParseRedirs(t, s, [])
      case NoFile => Panic
      case Redirs(rs, p') => ParseArgs(t, p', [], rs)
  }

  function ParseBlock(t: string, p: nat): (r: Parsed)
    requires p <= |t| && Line(t)
    ensures r.Done? ==> p <= r.pos <= |t|
    decreases |t| - p, 0
  {
    var s := Skip(t, p);
    if !Peeks(t, s, "(") then Panic
    else
      match ParseLine(t, Gettoken(t, s).next)
      case Panic => Panic
      case Done(c, p') =>
        var s' := Skip(t, p');
        if !Peeks(t, s', ")") then Panic
        else
          match ParseRedirs(t, Gettoken(t, s').next, [])
          case NoFile => Panic
          case Redirs(rs, e) => Done(Wrap(c, rs), e)
  }

  function ParsePipe(t: string, p: nat): (r: Parsed)
    requires p <= |t| && Line(t)
    ensures r.Done? ==> p <= r.pos <= |t|
    decreases |t| - p, 2
  {
    match ParseExec(t, p)
    case Panic => Panic
    case Done(c, p') =>
      var s := Skip(t, p');
      if !Peeks(t, s, "|") then Done(c, s)
      else
        match ParsePipe(t, Gettoken(t, s).next)
        case Panic => Panic
        case Done(d, e) => Done(Pipe(c, d), e)
  }

  // The first loop of parseline.
  function ParseBacks(t: string, p: nat, c: Cmd<Span>): (r: Parsed)
    requires p <= |t| && Line(t)
    ensures r.Done? && p <= r.pos <= |t|
    decreases |t| - p
  {
    var s := Skip(t, p);
    if Peeks(t, s, "&") then ParseBacks(t, Gettoken(t, s).next, Back(c)) else Done(c, s)
  }

  function ParseLine(t: string, p: nat): (r: Parsed)
    requires p <= |t| && Line(t)
    ensures r.Done? ==> p <= r.pos <= |t|
    decreases |t| - p, 3
  {
    match ParsePipe(t, p)
    case Panic => Panic
    case Done(c, p') =>
      var b := ParseBacks(t, p', c);
      var s := Skip(t, b.pos);
      if !Peeks(t, s, ";") then Done(b.cmd, s)
      else
        match ParseLine(t, Gettoken(t, s).next)
        case Panic => Panic
        case Done(d, e) => Done(List(b.cmd, d), e)
  }

  function ParseCmd(t: string): Parsed
    requires Line(t)
  {
    match ParseLine(t, 0)
    case Panic => Panic
    case Done(c, p) => if Skip(t, p) == |t| then Done(c, |t|) else Panic
  }

  // ---------------------------------------------------------------- strings

  // A span is one whole word: it is not empty, and what follows it is not part of it.
  predicate WordAt(t: string, s: Span) {
    s.q < s.eq <= |t| && (forall i :: s.q <= i < s.eq ==> InWord(t[i])) && !InWord(At(t, s.eq))
  }

  ghost predicate AllWords(t: string, c: Cmd<Span>) {
    match c
    case Exec(argv) => forall i :: 0 <= i < |argv| ==> WordAt(t, argv[i])
    case Redir(d, f, _) => AllWords(t, d) && WordAt(t, f)
    case Pipe(l, r) => AllWords(t, l) && AllWords(t, r)
    case List(l, r) => AllWords(t, l) && AllWords(t, r)
    case Back(d) => AllWords(t, d)
  }

  ghost predicate RedirWords(t: string, rs: seq<Redirection>) {
    forall i :: 0 <= i < |rs| ==> WordAt(t, rs[i].file)
  }

  lemma TokenIsWord(t: string, p: nat)
    requires p <= |t| && Line(t)
    ensures var k := Gettoken(t, p); k.ret == 'a' ==> WordAt(t, Span(k.q, k.eq))
  {
  }

  lemma {:induction false} WrapWords(t: string, c: Cmd<Span>, rs: seq<Redirection>)
    requires AllWords(t, c) && RedirWords(t, rs)
    ensures AllWords(t, Wrap(c, rs))
  {
    if rs != [] { WrapWords(t, c, rs[..|rs| - 1]); }
  }

  lemma {:induction false} RedirsAreWords(t: string, p: nat, rs: seq<Redirection>)
    requires p <= |t| && Line(t) && RedirWords(t, rs)
    ensures var r := ParseRedirs(t, p, rs); r.Redirs? ==> RedirWords(t, r.rs)
    decreases |t| - p
  {
    hide Skip, Gettoken, WordAt;
    var s := Skip(t, p);
    if Peeks(t, s, "<>") {
      var tok := Gettoken(t, s);
      var file := Gettoken(t, tok.next);
      if file.ret == 'a' {
        TokenIsWord(t, tok.next);
        PeekedIsToken(t, s, "<>");
        RedirsAreWords(t, file.next, rs + [Redirection(Span(file.q, file.eq), tok.ret != '<')]);
      }
    }
  }

  // A character that peek found is a token of its own.
  lemma PeekedIsToken(t: string, s: nat, toks: string)
    requires s <= |t| && Line(t) && Peeks(t, s, toks) && !White(At(t, s))
    ensures s < |t| && Gettoken(t, s).q == s < Gettoken(t, s).next
  {
  }

  lemma {:induction false} ArgsAreWords(t: string, p: nat, argv: seq<Span>, rs: seq<Redirection>)
    requires p <= |t| && Line(t) && AllWords(t, Exec(argv)) && RedirWords(t, rs)
    ensures var r := ParseArgs(t, p, argv, rs); r.Done? ==> AllWords(t, r.cmd)
    decreases |t| - p
  {
    hide Skip, Gettoken, WordAt, ParseRedirs, RedirWords, Peeks;
    WrapWords(t, Exec(argv), rs);
    var s := Skip(t, p);
    var tok := Gettoken(t, s);
    if !Peeks(t, s, "|)&;") && tok.ret == 'a' && |argv| + 1 < MAXARGS {
      TokenIsWord(t, s);
      RedirsAreWords(t, tok.next, rs);
      var r := ParseRedirs(t, tok.next, rs);
      if r.Redirs? { ArgsAreWords(t, r.pos, argv + [Span(tok.q, tok.eq)], r.rs); }
    }
  }

  lemma {:induction false} ExecIsWords(t: string, p: nat)
    requires p <= |t| && Line(t)
    ensures var r := ParseExec(t, p); r.Done? ==> AllWords(t, r.cmd)
    decreases |t| - p, 1
  {
    hide Skip, Gettoken, ParseRedirs, ParseArgs;
    var s := Skip(t, p);
    if Peeks(t, s, "(") { BlockIsWords(t, s); } else {
      RedirsAreWords(t, s, []);
      var r := ParseRedirs(t, s, []);
      if r.Redirs? { ArgsAreWords(t, r.pos, [], r.rs); }
    }
  }

  lemma {:induction false} BlockIsWords(t: string, p: nat)
    requires p <= |t| && Line(t)
    ensures var r := ParseBlock(t, p); r.Done? ==> AllWords(t, r.cmd)
    decreases |t| - p, 0
  {
    hide Skip, Gettoken, ParseRedirs, ParseLine;
    var s := Skip(t, p);
    if Peeks(t, s, "(") {
      PeekedIsToken(t, s, "(");
      LineIsWords(t, Gettoken(t, s).next);
      var r := ParseLine(t, Gettoken(t, s).next);
      if r.Done? {
        var s' := Skip(t, r.pos);
        if Peeks(t, s', ")") {
          RedirsAreWords(t, Gettoken(t, s').next, []);
          var q := ParseRedirs(t, Gettoken(t, s').next, []);
          if q.Redirs? { WrapWords(t, r.cmd, q.rs); }
        }
      }
    }
  }

  lemma {:induction false} PipeIsWords(t: string, p: nat)
    requires p <= |t| && Line(t)
    ensures var r := ParsePipe(t, p); r.Done? ==> AllWords(t, r.cmd)
    decreases |t| - p, 2
  {
    hide Skip, Gettoken, ParseExec;
    ExecIsWords(t, p);
    var r := ParseExec(t, p);
    if r.Done? && Peeks(t, Skip(t, r.pos), "|") {
      PeekedIsToken(t, Skip(t, r.pos), "|");
      PipeIsWords(t, Gettoken(t, Skip(t, r.pos)).next);
    }
  }

  lemma {:induction false} BacksAreWords(t: string, p: nat, c: Cmd<Span>)
    requires p <= |t| && Line(t) && AllWords(t, c)
    ensures AllWords(t, ParseBacks(t, p, c).cmd)
    decreases |t| - p
  {
    hide Skip, Gettoken;
    if Peeks(t, Skip(t, p), "&") {
      PeekedIsToken(t, Skip(t, p), "&");
      BacksAreWords(t, Gettoken(t, Skip(t, p)).next, Back(c));
    }
  }

  // Whatever line is parsed, every string of the command is one whole word of it.
  lemma {:induction false} LineIsWords(t: string, p: nat)
    requires p <= |t| && Line(t)
    ensures var r := ParseLine(t, p); r.Done? ==> AllWords(t, r.cmd)
    decreases |t| - p, 3
  {
    hide Skip, Gettoken, ParsePipe, ParseBacks;
    PipeIsWords(t, p);
    var r := ParsePipe(t, p);
    if r.Done? {
      BacksAreWords(t, r.pos, r.cmd);
      var b := ParseBacks(t, r.pos, r.cmd);
      if Peeks(t, Skip(t, b.pos), ";") {
        PeekedIsToken(t, Skip(t, b.pos), ";");
        LineIsWords(t, Gettoken(t, Skip(t, b.pos)).next);
      }
    }
  }

  // ---------------------------------------------------------------- nulterminate

  // Where nulterminate writes its NULs.
  function Ends(c: Cmd<Span>): set<nat> {
    match c
    case Exec(argv) => set s | s in argv :: s.eq
    case Redir(d, f, _) => Ends(d) + {f.eq}
    case Pipe(l, r) => Ends(l) + Ends(r)
    case List(l, r) => Ends(l) + Ends(r)
    case Back(d) => Ends(d)
  }

  function Spans(c: Cmd<Span>): set<Span> {
    match c
    case Exec(argv) => set s | s in argv
    case Redir(d, f, _) => Spans(d) + {f}
    case Pipe(l, r) => Spans(l) + Spans(r)
    case List(l, r) => Spans(l) + Spans(r)
    case Back(d) => Spans(d)
  }

  lemma {:induction false} EndsEndWords(t: string, c: Cmd<Span>, e: nat)
    requires AllWords(t, c) && e in Ends(c)
    ensures e <= |t| && !InWord(At(t, e))
  {
    match c
    case Exec(argv) =>
    case Redir(d, f, _) => if e in Ends(d) { EndsEndWords(t, d, e); }
    case Pipe(l, r) => if e in Ends(l) { EndsEndWords(t, l, e); } else { EndsEndWords(t, r, e); }
    case List(l, r) => if e in Ends(l) { EndsEndWords(t, l, e); } else { EndsEndWords(t, r, e); }
    case Back(d) => EndsEndWords(t, d, e);
  }

  lemma {:induction false} SpansAreWords(t: string, c: Cmd<Span>, s: Span)
    requires AllWords(t, c) && s in Spans(c)
    ensures WordAt(t, s) && s.eq in Ends(c)
  {
    match c
    case Exec(argv) =>
    case Redir(d, f, _) => if s in Spans(d) { SpansAreWords(t, d, s); }
    case Pipe(l, r) => if s in Spans(l) { SpansAreWords(t, l, s); } else { SpansAreWords(t, r, s); }
    case List(l, r) => if s in Spans(l) { SpansAreWords(t, l, s); } else { SpansAreWords(t, r, s); }
    case Back(d) => SpansAreWords(t, d, s);
  }

  // The buffer after NULs were written at these places.
  function Nulled(b: string, ends: set<nat>): (r: string)
    ensures |r| == |b|
  {
    seq(|b|, i requires 0 <= i < |b| => if i in ends then NUL else b[i])
  }

  // The C string at q: up to the next NUL.
  function CString(b: string, q: nat): string
    requires q <= |b|
    decreases |b| - q
  {
    if q == |b| || b[q] == NUL then "" else [b[q]] + CString(b, q + 1)
  }

  lemma {:induction false} CStringIs(b: string, q: nat, eq: nat)
    requires q <= eq < |b| && b[eq] == NUL && forall i :: q <= i < eq ==> b[i] != NUL
    ensures CString(b, q) == b[q..eq]
    decreases eq - q
  {
    if q < eq {
      CStringIs(b, q + 1, eq);
      assert b[q..eq] == [b[q]] + b[q + 1..eq];
    }
  }

  // After any parse that succeeds, nulterminate makes every argument and every file name, read as a C
  // string, the word that was parsed: no NUL lands inside another word.
  lemma NulterminateIsExact(t: string, s: Span)
    requires Line(t) && ParseCmd(t).Done? && s in Spans(ParseCmd(t).cmd)
    ensures s.q < s.eq <= |t| && WordAt(t, s)
    ensures CString(Nulled(t + [NUL], Ends(ParseCmd(t).cmd)), s.q) == t[s.q..s.eq]
  {
    hide ParseLine, Ends, Spans, AllWords;
    var c, b := ParseCmd(t).cmd, Nulled(t + [NUL], Ends(ParseCmd(t).cmd));
    LineIsWords(t, 0);
    SpansAreWords(t, c, s);
    forall i | s.q <= i < s.eq ensures b[i] == t[i] && b[i] != NUL {
      if i in Ends(c) { EndsEndWords(t, c, i); }
    }
    CStringIs(b, s.q, s.eq);
    assert b[s.q..s.eq] == t[s.q..s.eq];
  }
}
