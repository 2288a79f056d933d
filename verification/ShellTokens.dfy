/** What a parsed command has of the tokens of its line (sh.c): its arguments and its redirections are those
    of the line, each once and in the order in which they stand there. */
module ShellTokens {
  import opened Shell

  // The redirections that stand in a line from p on: a sign `<`, `>` or `>>`, then a word.
  function LineRedirs(t: string, p: nat): seq<Redirection>
    requires p <= |t| && Line(t)
    decreases |t| - p
  {
    var k := Gettoken(t, p);
    if k.ret == NUL then []
    else
      var f := Gettoken(t, k.next);
      if (k.ret == '<' || k.ret == '>' || k.ret == '+') && f.ret == 'a' then
        [Redirection(Span(f.q, f.eq), k.ret != '<')] + LineRedirs(t, f.next)
      else LineRedirs(t, k.next)
  }

  // The other words.
  function LineArgs(t: string, p: nat): seq<Span>
    requires p <= |t| && Line(t)
    decreases |t| - p
  {
    var k := Gettoken(t, p);
    if k.ret == NUL then []
    else
      var f := Gettoken(t, k.next);
      if (k.ret == '<' || k.ret == '>' || k.ret == '+') && f.ret == 'a' then LineArgs(t, f.next)
      else (if k.ret == 'a' then [Span(k.q, k.eq)] else []) + LineArgs(t, k.next)
  }

  // The redirections and the arguments of a command, from left to right.
  function Redirections(c: Cmd<Span>): seq<Redirection> {
    match c
    case Exec(_) => []
    case Redir(d, f, write) => Redirections(d) + [Redirection(f, write)]
    case Pipe(l, r) => Redirections(l) + Redirections(r)
    case List(l, r) => Redirections(l) + Redirections(r)
    case Back(d) => Redirections(d)
  }

  function Arguments(c: Cmd<Span>): seq<Span> {
    match c
    case Exec(argv) => argv
    case Redir(d, _, _) => Arguments(d)
    case Pipe(l, r) => Arguments(l) + Arguments(r)
    case List(l, r) => Arguments(l) + Arguments(r)
    case Back(d) => Arguments(d)
  }

  // From p to e the line has these redirections and arguments.
  ghost predicate Between(t: string, p: nat, e: nat, rs: seq<Redirection>, args: seq<Span>)
    requires Line(t)
  {
    && p <= |t| && e <= |t|
    && LineRedirs(t, p) == rs + LineRedirs(t, e)
    && LineArgs(t, p) == args + LineArgs(t, e)
  }

  ghost predicate Tells(t: string, p: nat, r: Parsed)
    requires Line(t)
  {
    r.Done? ==> Between(t, p, r.pos, Redirections(r.cmd), Arguments(r.cmd))
  }

  lemma BetweenTransitive(t: string, p: nat, m: nat, e: nat, rs: seq<Redirection>, as': seq<Span>,
                          rs': seq<Redirection>, bs: seq<Span>)
    requires Line(t) && Between(t, p, m, rs, as') && Between(t, m, e, rs', bs)
    ensures Between(t, p, e, rs + rs', as' + bs)
  {
    hide LineRedirs, LineArgs;
    assert rs + (rs' + LineRedirs(t, e)) == rs + rs' + LineRedirs(t, e);
    assert as' + (bs + LineArgs(t, e)) == as' + bs + LineArgs(t, e);
  }

  lemma SkipTwice(t: string, p: nat)
    requires p <= |t|
    ensures Skip(t, Skip(t, p)) == Skip(t, p)
  {
  }

  // White space has no tokens.
  lemma SkipBetween(t: string, p: nat)
    requires p <= |t| && Line(t)
    ensures Between(t, p, Skip(t, p), [], [])
  {
    SkipTwice(t, p);
    assert Gettoken(t, Skip(t, p)) == Gettoken(t, p);
  }

  // A token that is no redirection sign.
  lemma TokenBetween(t: string, p: nat)
    requires p <= |t| && Line(t)
    ensures var k := Gettoken(t, p);
      k.ret != '<' && k.ret != '>' && k.ret != '+' ==>
        Between(t, p, k.next, [], if k.ret == 'a' then [Span(k.q, k.eq)] else [])
  {
    hide Skip, WordEnd;
    var k := Gettoken(t, p);
    if k.ret == NUL { AtTheEnd(t, k.next); }
  }

  lemma AtTheEnd(t: string, p: nat)
    requires p == |t| && Line(t)
    ensures LineRedirs(t, p) == [] && LineArgs(t, p) == []
  {
  }

  // A sign that peek found.
  lemma SignToken(t: string, s: nat)
    requires s <= |t| && Line(t) && Peeks(t, s, "<>") && !White(At(t, s))
    ensures var k := Gettoken(t, s); k.ret == '<' || k.ret == '>' || k.ret == '+'
  {
  }

  // Any other symbol that peek found.
  lemma SymbolBetween(t: string, s: nat, toks: string)
    requires s <= |t| && Line(t) && Peeks(t, s, toks) && !White(At(t, s))
    requires forall c :: c in toks ==> c in "|();&"
    ensures Between(t, s, Gettoken(t, s).next, [], [])
  {
    TokenBetween(t, s);
    hide LineRedirs, LineArgs, WordEnd;
  }

  lemma {:induction false} RedirsBetween(t: string, p: nat, rs: seq<Redirection>)
    requires p <= |t| && Line(t)
    ensures var r := ParseRedirs(t, p, rs);
      r.Redirs? ==> rs <= r.rs && Between(t, p, r.pos, r.rs[|rs|..], [])
    decreases |t| - p
  {
    hide Skip, Gettoken, LineRedirs, LineArgs;
    SkipBetween(t, p);
    var s := Skip(t, p);
    if Peeks(t, s, "<>") {
      var tok := Gettoken(t, s);
      var file := Gettoken(t, tok.next);
      if file.ret == 'a' {
        PeekedIsToken(t, s, "<>");
        var one := Redirection(Span(file.q, file.eq), tok.ret != '<');
        RedirsBetween(t, file.next, rs + [one]);
        var r := ParseRedirs(t, p, rs);
        if r.Redirs? {
          SignBetween(t, s);
          var more := r.rs[|rs + [one]|..];
          BetweenTransitive(t, s, file.next, r.pos, [one], [], more, []);
          BetweenTransitive(t, p, s, r.pos, [], [], [one] + more, []);
          assert r.rs[|rs|..] == [one] + more;
          Nothing([one] + more, []);
        }
      }
    } else {
      assert rs[|rs|..] == [];
    }
  }

  lemma Nothing(rs: seq<Redirection>, xs: seq<Span>)
    ensures [] + rs == rs && [] + xs == xs && rs + [] == rs && xs + [] == xs
  {
  }

  lemma SignBetween(t: string, s: nat)
    requires s <= |t| && Line(t) && Peeks(t, s, "<>") && !White(At(t, s))
    requires Gettoken(t, Gettoken(t, s).next).ret == 'a'
    ensures var k := Gettoken(t, s);
      var f := Gettoken(t, k.next);
      Between(t, s, f.next, [Redirection(Span(f.q, f.eq), k.ret != '<')], [])
  {
    SignToken(t, s);
    hide Skip, Gettoken;
  }

  lemma {:induction false} WrapTells(c: Cmd<Span>, rs: seq<Redirection>)
    ensures Redirections(Wrap(c, rs)) == Redirections(c) + rs && Arguments(Wrap(c, rs)) == Arguments(c)
  {
    if rs == [] {
      assert Redirections(c) + rs == Redirections(c);
    } else {
      WrapTells(c, rs[..|rs| - 1]);
      assert rs == rs[..|rs| - 1] + [rs[|rs| - 1]];
    }
  }

  // The loop of parseexec, with what it had found before.
  lemma {:induction false} ArgsTell(t: string, p: nat, argv: seq<Span>, rs: seq<Redirection>)
    requires p <= |t| && Line(t)
    ensures var r := ParseArgs(t, p, argv, rs);
      r.Done? ==>
        && rs <= Redirections(r.cmd) && argv <= Arguments(r.cmd)
        && Between(t, p, r.pos, Redirections(r.cmd)[|rs|..], Arguments(r.cmd)[|argv|..])
    decreases |t| - p
  {
    hide Skip, Gettoken, ParseRedirs, LineRedirs, LineArgs, Wrap, Peeks, Between;
    SkipBetween(t, p);
    var s := Skip(t, p);
    var r := ParseArgs(t, p, argv, rs);
    var tok := Gettoken(t, s);
    WrapTells(Exec(argv), rs);
    if r.Done? {
      if Peeks(t, s, "|)&;") || tok.ret == NUL {
        ArgsDone(t, p, s, argv, rs);
      } else {
        ArgsMore(t, p, s, argv, rs);
      }
    }
  }

  lemma ArgsDone(t: string, p: nat, s: nat, argv: seq<Span>, rs: seq<Redirection>)
    requires p <= |t| && Line(t) && s == Skip(t, p) && (Peeks(t, s, "|)&;") || Gettoken(t, s).ret == NUL)
    ensures var r := ParseArgs(t, p, argv, rs);
      && r.Done? && rs <= Redirections(r.cmd) && argv <= Arguments(r.cmd)
      && Between(t, p, r.pos, Redirections(r.cmd)[|rs|..], Arguments(r.cmd)[|argv|..])
  {
    SkipBetween(t, p);
    TokenBetween(t, s);
    WrapTells(Exec(argv), rs);
    hide Skip, Gettoken, LineRedirs, LineArgs, Wrap, Peeks, Between;
    assert rs[|rs|..] == [] && argv[|argv|..] == [];
    if Gettoken(t, s).ret == NUL { BetweenTransitive(t, p, s, Gettoken(t, s).next, [], [], [], []); }
  }

  lemma {:induction false} ArgsMore(t: string, p: nat, s: nat, argv: seq<Span>, rs: seq<Redirection>)
    requires p <= |t| && Line(t) && s == Skip(t, p) && !Peeks(t, s, "|)&;") && Gettoken(t, s).ret != NUL
    requires ParseArgs(t, p, argv, rs).Done?
    ensures var r := ParseArgs(t, p, argv, rs);
      && rs <= Redirections(r.cmd) && argv <= Arguments(r.cmd)
      && Between(t, p, r.pos, Redirections(r.cmd)[|rs|..], Arguments(r.cmd)[|argv|..])
    decreases |t| - p, 0
  {
    hide Skip, Gettoken, ParseRedirs, LineRedirs, LineArgs, Wrap, Peeks, Between, Redirections, Arguments;
    var r, tok := ParseArgs(t, p, argv, rs), Gettoken(t, s);
    var w := Span(tok.q, tok.eq);
    var q := ParseRedirs(t, tok.next, rs);
    SkipBetween(t, p);
    TokenBetween(t, s);
    RedirsBetween(t, tok.next, rs);
    ArgsTell(t, q.pos, argv + [w], q.rs);
    var rs', as' := Redirections(r.cmd), Arguments(r.cmd);
    BetweenTransitive(t, p, s, tok.next, [], [], [], [w]);
    BetweenTransitive(t, p, tok.next, q.pos, [] + [], [] + [w], q.rs[|rs|..], []);
    BetweenTransitive(t, p, q.pos, r.pos, [] + [] + q.rs[|rs|..], [] + [w] + [], rs'[|q.rs|..], as'[|argv + [w]|..]);
    assert [] + [] + q.rs[|rs|..] + rs'[|q.rs|..] == rs'[|rs|..];
    assert [] + [w] + [] + as'[|argv + [w]|..] == as'[|argv|..];
  }

  lemma {:induction false} ExecTells(t: string, p: nat)
    requires p <= |t| && Line(t)
    ensures Tells(t, p, ParseExec(t, p))
    decreases |t| - p, 1
  {
    hide Skip, Gettoken, ParseRedirs, ParseArgs, LineRedirs, LineArgs, Between, Redirections, Arguments;
    SkipBetween(t, p);
    var s := Skip(t, p);
    var r := ParseExec(t, p);
    if r.Done? {
      if Peeks(t, s, "(") {
        BlockTells(t, s);
      } else {
        RedirsBetween(t, s, []);
        var q := ParseRedirs(t, s, []);
        ArgsTell(t, q.pos, [], q.rs);
        var rs, args := Redirections(r.cmd), Arguments(r.cmd);
        assert q.rs[0..] == q.rs && args[0..] == args && rs == q.rs + rs[|q.rs|..];
        BetweenTransitive(t, s, q.pos, r.pos, q.rs, [], rs[|q.rs|..], args);
        Nothing(rs, args);
      }
      BetweenTransitive(t, p, s, r.pos, [], [], Redirections(r.cmd), Arguments(r.cmd));
      Nothing(Redirections(r.cmd), Arguments(r.cmd));
    }
  }

  lemma {:induction false} BlockTells(t: string, p: nat)
    requires p <= |t| && Line(t)
    ensures Tells(t, p, ParseBlock(t, p))
    decreases |t| - p, 0
  {
    hide Skip, Gettoken, ParseRedirs, ParseLine, LineRedirs, LineArgs, Between, Redirections, Arguments, Wrap;
    SkipBetween(t, p);
    var s := Skip(t, p);
    var r := ParseBlock(t, p);
    if r.Done? {
      var a := Gettoken(t, s).next;
      PeekedIsToken(t, s, "(");
      SymbolBetween(t, s, "(");
      LineTells(t, a);
      var c := ParseLine(t, a);
      var s' := Skip(t, c.pos);
      SkipBetween(t, c.pos);
      PeekedIsToken(t, s', ")");
      SymbolBetween(t, s', ")");
      var b := Gettoken(t, s').next;
      RedirsBetween(t, b, []);
      var q := ParseRedirs(t, b, []);
      WrapTells(c.cmd, q.rs);
      var rs, args := Redirections(c.cmd), Arguments(c.cmd);
      BetweenTransitive(t, p, s, a, [], [], [], []);
      Chain(t, p, a, c.pos, s', rs, args);
      BetweenTransitive(t, p, s', b, rs, args, [], []);
      Nothing(rs, args);
      assert q.rs[0..] == q.rs;
      BetweenTransitive(t, p, b, q.pos, rs, args, q.rs, []);
    }
  }

  // Something between two places with nothing before and behind it.
  lemma Chain(t: string, p: nat, a: nat, b: nat, e: nat, rs: seq<Redirection>, args: seq<Span>)
    requires Line(t) && Between(t, p, a, [] + [], [] + []) && Between(t, a, b, rs, args) && Between(t, b, e, [], [])
    ensures Between(t, p, e, rs, args)
  {
    hide LineRedirs, LineArgs;
    Nothing(rs, args);
  }

  lemma {:induction false} PipeTells(t: string, p: nat)
    requires p <= |t| && Line(t)
    ensures Tells(t, p, ParsePipe(t, p))
    decreases |t| - p, 2
  {
    hide Skip, Gettoken, ParseExec, LineRedirs, LineArgs, Between;
    ExecTells(t, p);
    var r := ParsePipe(t, p);
    if r.Done? {
      var c := ParseExec(t, p);
      var s := Skip(t, c.pos);
      SkipBetween(t, c.pos);
      var rs, args := Redirections(c.cmd), Arguments(c.cmd);
      BetweenTransitive(t, p, c.pos, s, rs, args, [], []);
      Nothing(rs, args);
      if Peeks(t, s, "|") {
        PeekedIsToken(t, s, "|");
        SymbolBetween(t, s, "|");
        var a := Gettoken(t, s).next;
        PipeTells(t, a);
        var d := ParsePipe(t, a).cmd;
        BetweenTransitive(t, p, s, a, rs, args, [], []);
        BetweenTransitive(t, p, a, r.pos, rs, args, Redirections(d), Arguments(d));
      }
    }
  }

  lemma {:induction false} BacksTell(t: string, p: nat, c: Cmd<Span>)
    requires p <= |t| && Line(t)
    ensures var r := ParseBacks(t, p, c);
      && Between(t, p, r.pos, [], []) && Redirections(r.cmd) == Redirections(c) && Arguments(r.cmd) == Arguments(c)
    decreases |t| - p
  {
    hide Skip, Gettoken, LineRedirs, LineArgs, Between;
    SkipBetween(t, p);
    var s := Skip(t, p);
    if Peeks(t, s, "&") {
      PeekedIsToken(t, s, "&");
      SymbolBetween(t, s, "&");
      var a := Gettoken(t, s).next;
      BacksTell(t, a, Back(c));
      BetweenTransitive(t, p, s, a, [], [], [], []);
      Nothing([], []);
      BetweenTransitive(t, p, a, ParseBacks(t, p, c).pos, [], [], [], []);
    }
  }

  lemma {:induction false} LineTells(t: string, p: nat)
    requires p <= |t| && Line(t)
    ensures Tells(t, p, ParseLine(t, p))
    decreases |t| - p, 3
  {
    hide Skip, Gettoken, ParsePipe, ParseBacks, LineRedirs, LineArgs, Between;
    PipeTells(t, p);
    var r := ParseLine(t, p);
    if r.Done? {
      var c := ParsePipe(t, p);
      var rs, args := Redirections(c.cmd), Arguments(c.cmd);
      BacksTell(t, c.pos, c.cmd);
      var b := ParseBacks(t, c.pos, c.cmd);
      var s := Skip(t, b.pos);
      SkipBetween(t, b.pos);
      BetweenTransitive(t, p, c.pos, b.pos, rs, args, [], []);
      Nothing(rs, args);
      BetweenTransitive(t, p, b.pos, s, rs, args, [], []);
      if Peeks(t, s, ";") {
        PeekedIsToken(t, s, ";");
        SymbolBetween(t, s, ";");
        var a := Gettoken(t, s).next;
        LineTells(t, a);
        var d := ParseLine(t, a).cmd;
        BetweenTransitive(t, p, s, a, rs, args, [], []);
        BetweenTransitive(t, p, a, r.pos, rs, args, Redirections(d), Arguments(d));
      }
    }
  }

  // Every line that parses: the redirections of the command are those of the line, each with the file and
  // the mode of its sign, and its arguments are the other words, in the order of the line, none lost and
  // none made up.
  lemma CommandHasLine(t: string)
    requires Line(t) && ParseCmd(t).Done?
    ensures Redirections(ParseCmd(t).cmd) == LineRedirs(t, 0) && Arguments(ParseCmd(t).cmd) == LineArgs(t, 0)
  {
    LineTells(t, 0);
    var r := ParseLine(t, 0);
    hide ParseLine, Redirections, Arguments;
    SkipBetween(t, r.pos);
    AtTheEnd(t, |t|);
    Nothing(Redirections(r.cmd), Arguments(r.cmd));
  }
}
