/** The commands of the shell as a user writes them, what they mean, and the proof that the parser gives each
    its meaning: redirections before, between and after the arguments and behind a block, pipes and lists
    that group to the right, and any number of `&`. */
module ShellSyntax {
  import opened Shell
  import opened ShellPrint

  // A word of a simple command, or a redirection: `<file`, `>file`, `>>file`.
  datatype Part = Word(w: string) | From(file: string) | To(file: string) | Append(file: string)

  datatype Stage = Plain(parts: seq<Part>) | Block(job: Job, parts: seq<Part>)

  datatype Pipeline = Last(stage: Stage) | Into(stage: Stage, rest: Pipeline)

  // A pipeline with `backs` signs `&` behind it, and what follows behind `;`.
  datatype Job = Only(line: Pipeline, backs: nat) | Then(line: Pipeline, backs: nat, rest: Job)

  // ---------------------------------------------------------------- writing

  // How a part is written before its word.
  function Sign(x: Part): string {
    match x
    case Word(_) => ""
    case From(_) => "<"
    case To(_) => ">"
    case Append(_) => ">>"
  }

  function Name(x: Part): string {
    if x.Word? then x.w else x.file
  }

  function WritePart(x: Part): string {
    Sign(x) + (Name(x) + " ")
  }

  function WriteParts(xs: seq<Part>): string {
    if xs == [] then "" else WritePart(xs[0]) + WriteParts(xs[1..])
  }

  function Bracket(w: string, v: string): string {
    "(" + (w + (")" + v))
  }

  function WriteStage(s: Stage): string {
    match s
    case Plain(xs) => WriteParts(xs)
    case Block(j, xs) => Bracket(WriteJob(j), WriteParts(xs))
  }

  function WritePipe(p: Pipeline): string {
    match p
    case Last(s) => WriteStage(s)
    case Into(s, r) => WriteStage(s) + ("|" + WritePipe(r))
  }

  function Ampersands(k: nat): string {
    if k == 0 then "" else "&" + Ampersands(k - 1)
  }

  function WriteJob(j: Job): string {
    match j
    case Only(p, k) => WritePipe(p) + Ampersands(k)
    case Then(p, k, r) => WritePipe(p) + (Ampersands(k) + (";" + WriteJob(r)))
  }

  // ---------------------------------------------------------------- meaning

  // The redirection nearest to the command is the first one written.
  function Redirected(c: Cmd<string>, xs: seq<Part>): Cmd<string>
    decreases |xs|
  {
    if xs == [] then c
    else
      match xs[0]
      case Word(_) => Redirected(c, xs[1..])
      case From(f) => Redirected(Redir(c, f, false), xs[1..])
      case To(f) => Redirected(Redir(c, f, true), xs[1..])
      case Append(f) => Redirected(Redir(c, f, true), xs[1..])
  }

  function Words(xs: seq<Part>): seq<string> {
    if xs == [] then [] else (if xs[0].Word? then [xs[0].w] else []) + Words(xs[1..])
  }

  function StageMeans(s: Stage): Cmd<string> {
    match s
    case Plain(xs) => Redirected(Exec(Words(xs)), xs)
    case Block(j, xs) => Redirected(JobMeans(j), xs)
  }

  function PipeMeans(p: Pipeline): Cmd<string> {
    match p
    case Last(s) => StageMeans(s)
    case Into(s, r) => Pipe(StageMeans(s), PipeMeans(r))
  }

  function Backs(c: Cmd<string>, k: nat): Cmd<string>
    decreases k
  {
    if k == 0 then c else Backs(Back(c), k - 1)
  }

  function JobMeans(j: Job): Cmd<string> {
    match j
    case Only(p, k) => Backs(PipeMeans(p), k)
    case Then(p, k, r) => List(Backs(PipeMeans(p), k), JobMeans(r))
  }

  // What can be written: words that are words, nine arguments at most, and no word behind a block.
  ghost predicate PartsOk(xs: seq<Part>) {
    forall i :: 0 <= i < |xs| ==> IsWord(Name(xs[i]))
  }

  ghost predicate StageOk(s: Stage) {
    match s
    case Plain(xs) => PartsOk(xs) && |Words(xs)| < MAXARGS
    case Block(j, xs) => JobOk(j) && PartsOk(xs) && Words(xs) == []
  }

  ghost predicate PipeOk(p: Pipeline) {
    match p
    case Last(s) => StageOk(s)
    case Into(s, r) => StageOk(s) && PipeOk(r)
  }

  ghost predicate JobOk(j: Job) {
    match j
    case Only(p, _) => PipeOk(p)
    case Then(p, _, r) => PipeOk(p) && JobOk(r)
  }

  // ---------------------------------------------------------------- parts

  // What can follow a stage, a pipeline with its `&` signs, and a job.
  predicate AfterStage(c: char) { c in "|&;)" || c == NUL }

  predicate AfterPipe(c: char) { c in "&;)" || c == NUL }

  predicate AfterBacks(c: char) { c in ";)" || c == NUL }

  // The first character of some text, or what follows it.
  predicate Tight(t: string, p: nat) {
    p <= |t| && !White(At(t, p))
  }

  // ParseExec on a simple command: redirections, then arguments with redirections behind each.
  function ParseParts(t: string, p: nat, argv: seq<Span>, rs: seq<Redirection>): Parsed
    requires p <= |t| && Line(t)
  {
    match ParseRedirs(t, p, rs)
    case NoFile => Panic
    case Redirs(rs', p') => ParseArgs(t, p', argv, rs')
  }

  lemma WritePartsStart(xs: seq<Part>)
    requires PartsOk(xs)
    ensures xs == [] ==> WriteParts(xs) == ""
    ensures xs != [] ==>
      && WriteParts(xs) == WritePart(xs[0]) + WriteParts(xs[1..]) && WriteParts(xs) != ""
      && IsWord(Name(xs[0])) && PartsOk(xs[1..])
      && WriteParts(xs)[0] == (if xs[0].Word? then xs[0].w[0] else Sign(xs[0])[0])
  {
    if xs != [] { assert IsWord(Name(xs[0])); }
  }

  // Parts begin with no white space and no parenthesis, and so does what follows a stage.
  lemma PartsTight(t: string, p: nat, xs: seq<Part>)
    requires PartsOk(xs) && Occurs(t, p, WriteParts(xs)) && AfterStage(At(t, p + |WriteParts(xs)|))
    ensures Tight(t, p) && At(t, p) != '('
  {
    WritePartsStart(xs);
    hide WriteParts;
    if xs != [] {
      OccursAt(t, p, WriteParts(xs), 0);
      if xs[0].Word? { assert InWord(xs[0].w[0]); }
    }
  }

  // One part: where its word is, and where the rest begins.
  lemma PartOccurs(t: string, p: nat, xs: seq<Part>)
    requires xs != [] && Occurs(t, p, WriteParts(xs))
    ensures var a := p + |Sign(xs[0])|;
      var e := a + |Name(xs[0])|;
      && Occurs(t, p, Sign(xs[0])) && Occurs(t, a, Name(xs[0])) && e < |t| && At(t, e) == ' '
      && Occurs(t, e + 1, WriteParts(xs[1..])) && e + 1 + |WriteParts(xs[1..])| == p + |WriteParts(xs)|
  {
    hide WriteParts, WritePart, Occurs, Sign, Name, At, Spaced;
    WritePartsIs(xs);
    BlankOccurs(t, p, Sign(xs[0]), Name(xs[0]), WriteParts(xs[1..]));
  }

  function Spaced(a: string, b: string, c: string): string {
    a + (b + " ") + c
  }

  lemma WritePartsIs(xs: seq<Part>)
    requires xs != []
    ensures WriteParts(xs) == Spaced(Sign(xs[0]), Name(xs[0]), WriteParts(xs[1..]))
  {
  }

  lemma BlankOccurs(t: string, p: nat, a: string, b: string, c: string)
    requires Occurs(t, p, Spaced(a, b, c))
    ensures var e := p + |a| + |b|;
      && Occurs(t, p, a) && Occurs(t, p + |a|, b) && e < |t| && At(t, e) == ' ' && Occurs(t, e + 1, c)
      && e + 1 + |c| == p + |Spaced(a, b, c)|
  {
    hide Occurs;
    OccursSplit(t, p, a + (b + " "), c);
    OccursSplit(t, p, a, b + " ");
    OccursSplit(t, p + |a|, b, " ");
    OccursAt(t, p + |a| + |b|, " ", 0);
  }

  // The same with what the reader needs: the word ends there, and the next token begins behind the blank.
  lemma PartAt(t: string, p: nat, xs: seq<Part>)
    requires Line(t) && xs != [] && PartsOk(xs)
    requires Occurs(t, p, WriteParts(xs)) && AfterStage(At(t, p + |WriteParts(xs)|))
    ensures var a := p + |Sign(xs[0])|;
      var e := a + |Name(xs[0])|;
      && Occurs(t, p, Sign(xs[0])) && Occurs(t, a, Name(xs[0])) && IsWord(Name(xs[0])) && !InWord(At(t, e)) && e < |t|
      && Skip(t, e) == e + 1 && Occurs(t, e + 1, WriteParts(xs[1..])) && Tight(t, e + 1) && At(t, e + 1) != '('
      && e + 1 + |WriteParts(xs[1..])| == p + |WriteParts(xs)| && PartsOk(xs[1..])
  {
    hide WriteParts, WritePart, IsWord, InWord, Occurs, Skip, Line, PartsOk, Sign, Name, At, White, Tight,
      AfterStage;
    var e := p + |Sign(xs[0])| + |Name(xs[0])|;
    PartOccurs(t, p, xs);
    WritePartsStart(xs);
    PartsTight(t, e + 1, xs[1..]);
    TightIs(t, e + 1);
    SkipBlank(t, e);
    BlankEnds(t, e);
  }

  lemma TightIs(t: string, p: nat)
    requires Tight(t, p)
    ensures p <= |t| && !White(At(t, p))
  {
  }

  lemma BlankEnds(t: string, e: nat)
    requires At(t, e) == ' '
    ensures !InWord(At(t, e))
  {
  }

  lemma RedirStep(t: string, p: nat, rs: seq<Redirection>)
    requires p <= |t| && Line(t) && Tight(t, p) && Peeks(t, p, "<>") && Gettoken(t, Gettoken(t, p).next).ret == 'a'
    ensures var k := Gettoken(t, p);
      var f := Gettoken(t, k.next);
      p < f.next && ParseRedirs(t, p, rs) == ParseRedirs(t, f.next, rs + [Redirection(Span(f.q, f.eq), k.ret != '<')])
  {
    SkipNone(t, p);
    PeekedIsToken(t, p, "<>");
    hide Gettoken, Skip, White, Line;
  }

  // A redirection read by parseredirs.
  lemma RedirPart(t: string, p: nat, xs: seq<Part>, rs: seq<Redirection>)
    requires Line(t) && xs != [] && PartsOk(xs) && !xs[0].Word?
    requires Occurs(t, p, WriteParts(xs)) && AfterStage(At(t, p + |WriteParts(xs)|))
    ensures var a := p + |Sign(xs[0])|;
      var e := a + |Name(xs[0])|;
      && p <= |t| && e + 1 <= |t| && Slice(t, Span(a, e)) == xs[0].file
      && ParseRedirs(t, p, rs) == ParseRedirs(t, e + 1, rs + [Redirection(Span(a, e), !xs[0].From?)])
  {
    hide Gettoken, IsWord, Occurs, Line, WriteParts, InWord, Slice, Skip, ParseRedirs, Sign, At, White,
      AfterStage, PartsOk, Peeks, Tight;
    var x := xs[0];
    PartAt(t, p, xs);
    SignParses(t, p, x);
    WordParses(t, p + |Sign(x)|, x.file);
    RedirStep(t, p, rs);
  }

  lemma SignParses(t: string, p: nat, x: Part)
    requires Line(t) && !x.Word? && Occurs(t, p, Sign(x)) && IsWord(x.file) && Occurs(t, p + |Sign(x)|, x.file)
    ensures p < |t| && Peeks(t, p, "<>") && Tight(t, p)
    ensures var k := Gettoken(t, p);
      k.next == p + |Sign(x)| && k.ret == (if x.From? then '<' else if x.To? then '>' else '+')
  {
    var a := p + |Sign(x)|;
    OccursAt(t, p, Sign(x), 0);
    OccursAt(t, a, x.file, 0);
    if x.Append? { OccursAt(t, p, Sign(x), 1); }
    assert InWord(x.file[0]);
    SkipNone(t, p);
    SkipNone(t, a);
  }

  // A word read by the loop of parseexec.
  lemma WordPart(t: string, p: nat, xs: seq<Part>, argv: seq<Span>, rs: seq<Redirection>)
    requires Line(t) && xs != [] && PartsOk(xs) && xs[0].Word? && |argv| + 1 < MAXARGS
    requires Occurs(t, p, WriteParts(xs)) && AfterStage(At(t, p + |WriteParts(xs)|))
    ensures var e := p + |xs[0].w|;
      && p <= |t| && e + 1 <= |t| && Slice(t, Span(p, e)) == xs[0].w
      && ParseParts(t, p, argv, rs) == ParseParts(t, e + 1, argv + [Span(p, e)], rs)
  {
    hide Gettoken, IsWord, Occurs, Line, WriteParts, InWord, Slice, ParseRedirs, ParseArgs, ParseParts, Wrap,
      At, White, AfterStage, PartsOk, Peeks, Skip;
    var w := xs[0].w;
    PartAt(t, p, xs);
    assert Sign(xs[0]) == "";
    WordParses(t, p, w);
    WordStarts(t, p);
    NoSign(t, p);
    WordStep(t, p, argv, rs);
  }

  lemma WordStep(t: string, p: nat, argv: seq<Span>, rs: seq<Redirection>)
    requires p <= |t| && Line(t) && Gettoken(t, p).ret == 'a' && |argv| + 1 < MAXARGS
    requires !White(At(t, p)) && !Peeks(t, p, "|)&;") && At(t, p) != '<' && At(t, p) != '>'
    ensures var k := Gettoken(t, p);
      p < k.next && ParseParts(t, p, argv, rs) == ParseParts(t, k.next, argv + [Span(k.q, k.eq)], rs)
  {
    hide Gettoken, ParseRedirs, Wrap, White, Line, Peeks;
    SkipNone(t, p);
    NoRedirs(t, p, rs);
  }

  lemma NoSign(t: string, p: nat)
    requires InWord(At(t, p))
    ensures At(t, p) != '<' && At(t, p) != '>' && At(t, p) != NUL
  {
  }

  lemma PartsEnd(t: string, p: nat, argv: seq<Span>, rs: seq<Redirection>)
    requires p <= |t| && Line(t) && AfterStage(At(t, p))
    ensures ParseRedirs(t, p, rs) == Redirs(rs, p) && ParseParts(t, p, argv, rs) == Done(Wrap(Exec(argv), rs), p)
  {
    NoRedirs(t, p, rs);
    SkipNone(t, p);
  }

  function Texts(t: string, spans: seq<Span>): seq<string> {
    seq(|spans|, i requires 0 <= i < |spans| => Slice(t, spans[i]))
  }

  // The redirections of a list wrapped around a command, the first one next to it.
  function Around(t: string, c: Cmd<string>, rs: seq<Redirection>): Cmd<string>
    decreases |rs|
  {
    if rs == [] then c else Around(t, Redir(c, Slice(t, rs[0].file), rs[0].write), rs[1..])
  }

  lemma {:induction false} AroundLast(t: string, c: Cmd<string>, rs: seq<Redirection>, r: Redirection)
    ensures Around(t, c, rs + [r]) == Redir(Around(t, c, rs), Slice(t, r.file), r.write)
    decreases |rs|
  {
    if rs == [] {
      assert rs + [r] == [r] && [r][1..] == [];
    } else {
      assert (rs + [r])[0] == rs[0] && (rs + [r])[1..] == rs[1..] + [r];
      AroundLast(t, Redir(c, Slice(t, rs[0].file), rs[0].write), rs[1..], r);
    }
  }

  lemma {:induction false} WrapText(t: string, c: Cmd<Span>, rs: seq<Redirection>)
    ensures Text(t, Wrap(c, rs)) == Around(t, Text(t, c), rs)
  {
    if rs != [] {
      var r := rs[|rs| - 1];
      WrapText(t, c, rs[..|rs| - 1]);
      AroundLast(t, Text(t, c), rs[..|rs| - 1], r);
      assert rs == rs[..|rs| - 1] + [r];
    }
  }

  // The spans found for some parts show these parts.
  ghost predicate Shown(t: string, rs: seq<Redirection>, xs: seq<Part>) {
    forall c: Cmd<string> :: Around(t, c, rs) == Redirected(c, xs)
  }

  lemma ShownNone(t: string)
    ensures Shown(t, [], [])
  {
  }

  lemma ShownWord(t: string, rs: seq<Redirection>, xs: seq<Part>)
    requires xs != [] && xs[0].Word? && Shown(t, rs, xs[1..])
    ensures Shown(t, rs, xs)
  {
  }

  lemma ShownRedir(t: string, r: Redirection, rs: seq<Redirection>, xs: seq<Part>)
    requires xs != [] && !xs[0].Word? && Shown(t, rs, xs[1..])
    requires Slice(t, r.file) == xs[0].file && r.write == !xs[0].From?
    ensures Shown(t, [r] + rs, xs)
  {
    forall c: Cmd<string> ensures Around(t, c, [r] + rs) == Redirected(c, xs) {
      assert ([r] + rs)[1..] == rs;
      assert Around(t, Redir(c, xs[0].file, r.write), rs) == Redirected(Redir(c, xs[0].file, r.write), xs[1..]);
    }
  }

  // What reading some parts found beyond what was found before.
  ghost predicate Found(t: string, xs: seq<Part>, spans: seq<Span>, rs: seq<Redirection>) {
    Texts(t, spans) == Words(xs) && Shown(t, rs, xs)
  }

  lemma {:induction false} PartsParse(t: string, p: nat, xs: seq<Part>, argv: seq<Span>, rs: seq<Redirection>)
      returns (spans: seq<Span>, more: seq<Redirection>)
    requires Line(t) && PartsOk(xs) && |argv| + |Words(xs)| < MAXARGS
    requires Occurs(t, p, WriteParts(xs)) && AfterStage(At(t, p + |WriteParts(xs)|))
    ensures p + |WriteParts(xs)| <= |t| && Found(t, xs, spans, more)
    ensures ParseParts(t, p, argv, rs) == Done(Wrap(Exec(argv + spans), rs + more), p + |WriteParts(xs)|)
    ensures Words(xs) == [] ==> spans == [] && ParseRedirs(t, p, rs) == Redirs(rs + more, p + |WriteParts(xs)|)
    decreases |xs|
  {
    hide Occurs, Line, AfterStage, At, Slice, IsWord, ParseArgs, ParseRedirs, Wrap, WritePart, PartsOk;
    WritePartsStart(xs);
    if xs == [] {
      OccursNothing(t, p, "");
      PartsEnd(t, p, argv, rs);
      ShownNone(t);
      spans, more := [], [];
      assert argv + spans == argv && rs + more == rs;
    } else {
      var x := xs[0];
      var a := p + |Sign(x)|;
      var e := a + |Name(x)|;
      PartAt(t, p, xs);
      if x.Word? {
        WordPart(t, p, xs, argv, rs);
        spans, more := PartsParse(t, e + 1, xs[1..], argv + [Span(a, e)], rs);
        ShownWord(t, more, xs);
        TextsMore(t, Span(a, e), spans);
        assert argv + [Span(a, e)] + spans == argv + ([Span(a, e)] + spans);
        spans := [Span(a, e)] + spans;
      } else {
        var r := Redirection(Span(a, e), !x.From?);
        RedirPart(t, p, xs, rs);
        spans, more := PartsParse(t, e + 1, xs[1..], argv, rs + [r]);
        ShownRedir(t, r, more, xs);
        assert rs + [r] + more == rs + ([r] + more);
        more := [r] + more;
      }
    }
  }

  lemma TextsMore(t: string, s: Span, spans: seq<Span>)
    ensures Texts(t, [s] + spans) == [Slice(t, s)] + Texts(t, spans)
  {
  }

  // ---------------------------------------------------------------- stages, pipelines, jobs

  lemma PlainIsParts(t: string, p: nat)
    requires Line(t) && Tight(t, p) && At(t, p) != '('
    ensures ParseExec(t, p) == ParseParts(t, p, [], [])
  {
    hide ParseRedirs, ParseArgs, ParseBlock, White;
    SkipNone(t, p);
  }

  lemma ExecText(t: string, spans: seq<Span>)
    ensures Text(t, Exec(spans)) == Exec(Texts(t, spans))
  {
  }

  lemma ShownAt(t: string, rs: seq<Redirection>, xs: seq<Part>, c: Cmd<string>)
    requires Shown(t, rs, xs)
    ensures Around(t, c, rs) == Redirected(c, xs)
  {
  }

  lemma PlainParses(t: string, p: nat, s: Stage)
    requires s.Plain? && Line(t) && StageOk(s) && Occurs(t, p, WriteStage(s)) && AfterStage(At(t, p + |WriteStage(s)|))
    ensures Tight(t, p) && Reads(t, ParseExec(t, p), p + |WriteStage(s)|, StageMeans(s))
  {
    hide ParseArgs, ParseRedirs, Occurs, Slice, IsWord, White, AfterStage, ParseExec, ParseParts, Line, At,
      Tight, Texts, Shown, Wrap, Text, Around, Redirected, Words, WriteParts, PartsOk;
    var xs := s.parts;
    PartsTight(t, p, xs);
    var spans, rs := PartsParse(t, p, xs, [], []);
    assert [] + spans == spans && [] + rs == rs;
    PlainIsParts(t, p);
    WrapText(t, Exec(spans), rs);
    ExecText(t, spans);
    ShownAt(t, rs, xs, Exec(Words(xs)));
  }

  lemma BlockAt(t: string, p: nat, w: string, v: string)
    requires Occurs(t, p, Bracket(w, v))
    ensures var a := p + 1 + |w|;
      && p < a < |t| && At(t, p) == '(' && At(t, a) == ')' && Occurs(t, p + 1, w) && Occurs(t, a + 1, v)
      && a + 1 + |v| == p + |Bracket(w, v)|
  {
    hide Occurs;
    var a := p + 1 + |w|;
    OccursSplit(t, p, "(", w + (")" + v));
    OccursSplit(t, p + 1, w, ")" + v);
    OccursSplit(t, a, ")", v);
    OccursAt(t, p, "(", 0);
    OccursAt(t, a, ")", 0);
  }

  // The redirections behind a block.
  lemma BlockRedirs(t: string, p: nat, xs: seq<Part>) returns (rs: seq<Redirection>)
    requires Line(t) && PartsOk(xs) && Words(xs) == [] && Occurs(t, p, WriteParts(xs))
    requires AfterStage(At(t, p + |WriteParts(xs)|))
    ensures Tight(t, p) && p + |WriteParts(xs)| <= |t|
    ensures ParseRedirs(t, p, []) == Redirs(rs, p + |WriteParts(xs)|) && Shown(t, rs, xs)
  {
    hide ParseRedirs, ParseParts, Occurs, WriteParts, Line, Wrap, At, AfterStage, PartsOk, White, Shown, Tight;
    PartsTight(t, p, xs);
    var spans;
    spans, rs := PartsParse(t, p, xs, [], []);
    assert [] + rs == rs;
  }

  // The command in the parentheses of a block.
  lemma {:induction false} BlockOpens(t: string, p: nat, s: Stage)
    requires s.Block? && Line(t) && StageOk(s) && Occurs(t, p, WriteStage(s))
    ensures var a := p + 1 + |WriteJob(s.job)|;
      && p < a < |t| && At(t, p) == '(' && At(t, a) == ')' && Tight(t, p) && Skip(t, p + 1) == p + 1
      && Reads(t, ParseLine(t, p + 1), a, JobMeans(s.job)) && Occurs(t, a + 1, WriteParts(s.parts))
      && a + 1 + |WriteParts(s.parts)| == p + |WriteStage(s)|
    decreases s, 0
  {
    hide ParseLine, Occurs, WriteJob, WriteParts, WriteStage, Line, Skip, At, StageOk, JobOk, JobMeans, White,
      Closes, Bracket, Reads, Tight, StageMeans, PartsOk, Words, Redirected;
    BlockParts(s);
    var a := p + 1 + |WriteJob(s.job)|;
    BlockAt(t, p, WriteJob(s.job), WriteParts(s.parts));
    CloseCloses(t, a);
    JobParses(t, p + 1, s.job);
    TightIs(t, p + 1);
    SkipNone(t, p + 1);
    OpenIsTight(t, p);
  }

  lemma {:induction false} BlockParses(t: string, p: nat, s: Stage)
    requires s.Block? && Line(t) && StageOk(s) && Occurs(t, p, WriteStage(s)) && AfterStage(At(t, p + |WriteStage(s)|))
    ensures Tight(t, p) && Reads(t, ParseExec(t, p), p + |WriteStage(s)|, StageMeans(s))
    decreases s, 1
  {
    hide ParseLine, ParseRedirs, ParseExec, Occurs, WriteJob, WriteParts, WriteStage, Line, Wrap, Skip, At,
      AfterStage, StageOk, PartsOk, StageMeans, JobMeans, Words, White, Shown, Redirected, Around, Text, Tight;
    BlockParts(s);
    BlockOpens(t, p, s);
    var a := p + 1 + |WriteJob(s.job)|;
    var rs := BlockRedirs(t, a + 1, s.parts);
    TightIs(t, a + 1);
    SkipNone(t, a + 1);
    var inner := ParseLine(t, p + 1).cmd;
    BlockRule(t, p, inner, a, rs, p + |WriteStage(s)|);
    ShownAt(t, rs, s.parts, JobMeans(s.job));
    WrapText(t, inner, rs);
  }

  lemma BlockParts(s: Stage)
    requires s.Block? && StageOk(s)
    ensures JobOk(s.job) && PartsOk(s.parts) && Words(s.parts) == [] && |Words(s.parts)| < MAXARGS
    ensures WriteStage(s) == Bracket(WriteJob(s.job), WriteParts(s.parts))
    ensures StageMeans(s) == Redirected(JobMeans(s.job), s.parts)
  {
  }

  lemma CloseCloses(t: string, a: nat)
    requires At(t, a) == ')'
    ensures Closes(At(t, a))
  {
  }

  lemma OpenIsTight(t: string, p: nat)
    requires p < |t| && At(t, p) == '('
    ensures Tight(t, p)
  {
  }

  lemma {:induction false} StageParses(t: string, p: nat, s: Stage)
    requires Line(t) && StageOk(s) && Occurs(t, p, WriteStage(s)) && AfterStage(At(t, p + |WriteStage(s)|))
    ensures Tight(t, p) && Reads(t, ParseExec(t, p), p + |WriteStage(s)|, StageMeans(s))
    decreases s, 2
  {
    if s.Plain? { PlainParses(t, p, s); } else { BlockParses(t, p, s); }
  }

  lemma FollowsPipe(c: char)
    requires AfterPipe(c)
    ensures AfterStage(c) && !White(c) && c != '|'
  {
  }

  lemma {:induction false} PipelineParses(t: string, p: nat, l: Pipeline)
    requires Line(t) && PipeOk(l) && Occurs(t, p, WritePipe(l)) && AfterPipe(At(t, p + |WritePipe(l)|))
    ensures Tight(t, p) && Reads(t, ParsePipe(t, p), p + |WritePipe(l)|, PipeMeans(l))
    decreases l, 3
  {
    hide ParsePipe, ParseExec, Occurs, WriteStage, Line, StageOk, StageMeans, White, Skip, At;
    match l
    case Last(s) =>
      FollowsPipe(At(t, p + |WritePipe(l)|));
      StageParses(t, p, s);
      PipeNone(t, p, ParseExec(t, p).cmd, p + |WritePipe(l)|);
    case Into(s, r) =>
      var w := WriteStage(s);
      var a := p + |w|;
      OccursSplit(t, p, w, "|" + WritePipe(r));
      OccursSplit(t, a, "|", WritePipe(r));
      OccursAt(t, a, "|", 0);
      StageParses(t, p, s);
      PipelineParses(t, a + 1, r);
      SkipNone(t, a + 1);
      PipeMore(t, p, ParseExec(t, p).cmd, a, ParsePipe(t, a + 1).cmd, p + |WritePipe(l)|);
  }

  // The loop over `&`.
  lemma {:induction false} BacksParse(t: string, p: nat, c: Cmd<Span>, k: nat)
    requires Line(t) && Occurs(t, p, Ampersands(k)) && AfterBacks(At(t, p + |Ampersands(k)|))
    ensures |Ampersands(k)| == k && p + k <= |t| && Tight(t, p + k) && AfterPipe(At(t, p))
    ensures var b := ParseBacks(t, p, c); b.pos == p + k && Text(t, b.cmd) == Backs(Text(t, c), k)
    decreases k
  {
    hide Gettoken, Line, Skip, Occurs, At, White, AfterBacks, AfterPipe, Peeks, Tight, ParseBacks;
    if k == 0 {
      OccursNothing(t, p, "");
      FollowsBacks(t, p);
      BacksEnd(t, p, c);
    } else {
      OccursSplit(t, p, "&", Ampersands(k - 1));
      OccursAt(t, p, "&", 0);
      BacksParse(t, p + 1, Back(c), k - 1);
      BacksStep(t, p, c);
    }
  }

  lemma FollowsBacks(t: string, p: nat)
    requires p <= |t| && AfterBacks(At(t, p))
    ensures Tight(t, p) && AfterPipe(At(t, p)) && !Peeks(t, p, "&")
  {
  }

  lemma BacksEnd(t: string, p: nat, c: Cmd<Span>)
    requires p <= |t| && Line(t) && Tight(t, p) && !Peeks(t, p, "&")
    ensures ParseBacks(t, p, c) == Done(c, p)
  {
    SkipNone(t, p);
  }

  lemma BacksStep(t: string, p: nat, c: Cmd<Span>)
    requires p < |t| && Line(t) && At(t, p) == '&' && AfterPipe(At(t, p + 1))
    ensures ParseBacks(t, p, c) == ParseBacks(t, p + 1, Back(c)) && Tight(t, p) && AfterPipe(At(t, p))
  {
    hide Gettoken, Line, Skip;
    SymbolParses(t, p);
    SkipNone(t, p);
    SkipNone(t, p + 1);
  }

  lemma LineEnds(t: string, p: nat, a: nat, c: Cmd<Span>, b: Cmd<Span>, e: nat)
    requires Line(t) && p <= a <= e <= |t| && ParsePipe(t, p) == Done(c, a) && ParseBacks(t, a, c) == Done(b, e)
    requires Tight(t, e) && At(t, e) != ';'
    ensures ParseLine(t, p) == Done(b, e)
  {
    hide ParsePipe, ParseBacks, Line;
    SkipNone(t, e);
  }

  lemma LineGoesOn(t: string, p: nat, a: nat, c: Cmd<Span>, b: Cmd<Span>, e: nat, d: Cmd<Span>, z: nat)
    requires Line(t) && p <= a <= e < |t| && ParsePipe(t, p) == Done(c, a) && ParseBacks(t, a, c) == Done(b, e)
    requires At(t, e) == ';' && Tight(t, e + 1) && ParseLine(t, e + 1) == Done(d, z)
    ensures ParseLine(t, p) == Done(List(b, d), z)
  {
    hide ParsePipe, ParseBacks, Line, Skip;
    SkipNone(t, e);
    SkipNone(t, e + 1);
    SymbolParses(t, e);
  }

  lemma ClosesIs(c: char)
    requires Closes(c)
    ensures AfterBacks(c) && c != ';'
  {
  }

  lemma ListText(t: string, b: Cmd<Span>, d: Cmd<Span>)
    ensures Text(t, List(b, d)) == List(Text(t, b), Text(t, d))
  {
  }

  lemma SemicolonIs()
    ensures AfterBacks(';')
  {
  }

  lemma {:induction false} JobParses(t: string, p: nat, j: Job)
    requires Line(t) && JobOk(j) && Occurs(t, p, WriteJob(j)) && Closes(At(t, p + |WriteJob(j)|))
    ensures Tight(t, p) && Reads(t, ParseLine(t, p), p + |WriteJob(j)|, JobMeans(j))
    decreases j, 4
  {
    hide ParseLine, ParsePipe, ParseBacks, Occurs, WritePipe, Line, Ampersands, Backs, White, Skip, AfterPipe,
      AfterBacks, Tight, PipeOk, Text, At, PipeMeans;
    var w, k := WritePipe(j.line), j.backs;
    var a := p + |w|;
    match j
    case Only(l, _) =>
      ClosesIs(At(t, p + |WriteJob(j)|));
      OccursSplit(t, p, w, Ampersands(k));
      BacksParse(t, a, Exec([]), k);
      PipelineParses(t, p, l);
      var c := ParsePipe(t, p).cmd;
      BacksParse(t, a, c, k);
      LineEnds(t, p, a, c, ParseBacks(t, a, c).cmd, a + k);
    case Then(l, _, r) =>
      OccursSplit(t, p, w, Ampersands(k) + (";" + WriteJob(r)));
      OccursSplit(t, a, Ampersands(k), ";" + WriteJob(r));
      OccursSplit(t, a + |Ampersands(k)|, ";", WriteJob(r));
      OccursAt(t, a + |Ampersands(k)|, ";", 0);
      SemicolonIs();
      BacksParse(t, a, Exec([]), k);
      PipelineParses(t, p, l);
      var c := ParsePipe(t, p).cmd;
      BacksParse(t, a, c, k);
      JobParses(t, a + k + 1, r);
      var rest := ParseLine(t, a + k + 1);
      LineGoesOn(t, p, a, c, ParseBacks(t, a, c).cmd, a + k, rest.cmd, rest.pos);
      ListText(t, ParseBacks(t, a, c).cmd, rest.cmd);
  }

  // Every command as it is written parses to what it means, and all of it is consumed.
  lemma WrittenParses(j: Job)
    requires JobOk(j)
    ensures Line(WriteJob(j)) && Reads(WriteJob(j), ParseCmd(WriteJob(j)), |WriteJob(j)|, JobMeans(j))
  {
    hide ParseLine, WriteJob, JobMeans, Line, At, Skip, White, JobOk, Text, Closes, Tight;
    var t := WriteJob(j);
    JobIsLine(j);
    WholeLine(t);
    JobParses(t, 0, j);
  }

  lemma WholeLine(t: string)
    ensures Occurs(t, 0, t) && Closes(At(t, 0 + |t|)) && Skip(t, |t|) == |t|
  {
    assert t[0..|t|] == t;
    SkipNone(t, |t|);
  }

  lemma {:induction false} PartsAreLine(xs: seq<Part>)
    requires PartsOk(xs)
    ensures Line(WriteParts(xs))
    decreases |xs|
  {
    if xs != [] {
      assert IsWord(Name(xs[0]));
      PartsAreLine(xs[1..]);
    }
  }

  lemma {:induction false} StageIsLine(s: Stage)
    requires StageOk(s)
    ensures Line(WriteStage(s))
    decreases s, 0
  {
    PartsAreLine(s.parts);
    if s.Block? { JobIsLine(s.job); }
  }

  lemma {:induction false} PipeIsLine(l: Pipeline)
    requires PipeOk(l)
    ensures Line(WritePipe(l))
    decreases l, 1
  {
    StageIsLine(l.stage);
    if l.Into? { PipeIsLine(l.rest); }
  }

  lemma {:induction false} AmpersandsAreLine(k: nat)
    ensures Line(Ampersands(k))
  {
    if k > 0 { AmpersandsAreLine(k - 1); }
  }

  lemma {:induction false} JobIsLine(j: Job)
    requires JobOk(j)
    ensures Line(WriteJob(j))
    decreases j, 2
  {
    PipeIsLine(j.line);
    AmpersandsAreLine(j.backs);
    if j.Then? { JobIsLine(j.rest); }
  }
}
