/** The parser of the shell as it runs (sh.c): a cursor moved through the line by loops, and NULs written
    into it at the end. */
module ShellParser {
  import opened Shell

  class Parser {
    const buf: array<char>   // the line, with its NUL
    const es: nat            // the index of the NUL
    var s: nat               // `*ps`

    function Text(): string
      requires es <= buf.Length
      reads buf
    {
      buf[..es]
    }

    ghost predicate Valid()
      reads this, buf
    {
      es + 1 == buf.Length && buf[es] == NUL && Line(Text()) && s <= es
    }

    constructor (line: string)
      requires Line(line)
      ensures Valid() && fresh(buf) && s == 0 && Text() == line && buf[..] == line + [NUL]
    {
      buf := new char[|line| + 1](i => if 0 <= i < |line| then line[i] else NUL);
      es, s := |line|, 0;
      new;
      assert buf[..es] == line;
    }

    // `while(s < es && strchr(whitespace, *s)) s++`.
    method SkipWhite(p: nat) returns (r: nat)
      requires Valid() && p <= es
      ensures r == Skip(Text(), p)
    {
      r := p;
      while r < es && White(buf[r])
        invariant p <= r <= es && Skip(Text(), p) == Skip(Text(), r)
        decreases es - r
      {
        assert Text()[r] == buf[r];
        r := r + 1;
      }
      assert r < es ==> Text()[r] == buf[r];
    }

    // `while(s < es && !strchr(whitespace, *s) && !strchr(symbols, *s)) s++`.
    method SkipWord(p: nat) returns (r: nat)
      requires Valid() && p <= es
      ensures r == WordEnd(Text(), p)
    {
      r := p;
      while r < es && !White(buf[r]) && !Symbol(buf[r])
        invariant p <= r <= es && WordEnd(Text(), p) == WordEnd(Text(), r)
        decreases es - r
      {
        assert Text()[r] == buf[r];
        r := r + 1;
      }
      assert r < es ==> Text()[r] == buf[r];
    }

    method Gettoken() returns (ret: char, q: nat, eq: nat)
      requires Valid()
      modifies this`s
      ensures Valid() && Token(ret, q, eq, s) == Shell.Gettoken(Text(), old(s))
    {
      hide Skip, WordEnd, White, Symbol, Line;
      ghost var t := Text();
      q := SkipWhite(s);
      var p := q;
      AtIs(q);
      ret := buf[p];
      if ret == NUL {
      } else if ret in "|();&<" {
        p := p + 1;
      } else if ret == '>' {
        AtIs(q + 1);
        p := p + 1;
        if buf[p] == '>' {
          ret := '+';
          p := p + 1;
        }
      } else {
        ret := 'a';
        p := SkipWord(p);
      }
      eq := p;
      s := SkipWhite(p);
    }

    lemma AtIs(p: nat)
      requires Valid() && p <= es
      ensures buf[p] == At(Text(), p) && (buf[p] != NUL ==> p < es)
    {
    }

    method Peek(toks: string) returns (found: bool)
      requires Valid()
      modifies this`s
      ensures Valid() && s == Skip(Text(), old(s)) && found == Peeks(Text(), s, toks)
    {
      s := SkipWhite(s);
      assert buf[s] == At(Text(), s);
      found := buf[s] != NUL && buf[s] in toks;
    }

    // parseredirs; the redirections found, or none for its panic.
    method Parseredirs(before: seq<Redirection>) returns (r: Redirs)
      requires Valid()
      modifies this`s
      ensures Valid() && r == ParseRedirs(Text(), old(s), before)
      ensures r.Redirs? ==> s == r.pos
    {
      ghost var t := Text();
      hide Skip, Shell.Gettoken;
      var rs := before;
      var more := Peek("<>");
      ghost var from: nat := old(s);
      while more
        invariant Valid() && from <= es && s == Skip(t, from) && more == Peeks(t, s, "<>")
        invariant ParseRedirs(t, old(s), before) == ParseRedirs(t, from, rs)
        decreases es - s
      {
        PeekedIsToken(t, s, "<>");
        var tok, q, eq := Gettoken();
        ghost var k := s;
        tok, q, eq := FileAfter(tok);
        if tok == NUL {
          return NoFile;
        }
        rs := rs + [Redirection(Span(q, eq), tok != '<')];
        from := s;
        more := Peek("<>");
      }
      r := Redirs(rs, s);
    }

    // The file name after a redirection sign: `if(gettoken(ps, es, &q, &eq) != 'a') panic(...)`. The sign
    // is handed back, or NUL for the panic.
    method FileAfter(sign: char) returns (tok: char, q: nat, eq: nat)
      requires Valid() && sign != NUL
      modifies this`s
      ensures Valid()
      ensures var k := Shell.Gettoken(Text(), old(s));
        && q == k.q && eq == k.eq && s == k.next && tok == if k.ret == 'a' then sign else NUL
    {
      var ret;
      ret, q, eq := Gettoken();
      tok := if ret == 'a' then sign else NUL;
    }

    method Parseexec() returns (r: Parsed)
      requires Valid()
      modifies this`s
      ensures Valid() && r == ParseExec(Text(), old(s)) && (r.Done? ==> s == r.pos)
      decreases es - s, 1
    {
      ghost var t := Text();
      hide Skip, Shell.Gettoken, ParseRedirs, ParseArgs, ParseBlock;
      var block := Peek("(");
      if block {
        r := Parseblock();
        return;
      }
      var rs := Parseredirs([]);
      if rs.NoFile? {
        return Panic;
      }
      r := ParseArguments(rs.rs);
    }

    // The loop of parseexec.
    method ParseArguments(first: seq<Redirection>) returns (r: Parsed)
      requires Valid()
      modifies this`s
      ensures Valid() && r == ParseArgs(Text(), old(s), [], first) && (r.Done? ==> s == r.pos)
      decreases es - s, 0
    {
      ghost var t := Text();
      hide Skip, Shell.Gettoken, ParseRedirs;
      var argv, rs := [], first;
      ghost var from: nat := s;
      var stop := Peek("|)&;");
      while !stop
        invariant Valid() && from <= es && s == Skip(t, from) && stop == Peeks(t, s, "|)&;")
        invariant ParseArgs(t, old(s), [], first) == ParseArgs(t, from, argv, rs)
        decreases es - from
      {
        var tok, q, eq := Gettoken();
        if tok == NUL {
          break;
        }
        if tok != 'a' {
          return Panic;
        }
        argv := argv + [Span(q, eq)];
        if |argv| >= MAXARGS {
          return Panic;
        }
        var more := Parseredirs(rs);
        if more.NoFile? {
          return Panic;
        }
        rs := more.rs;
        from := s;
        stop := Peek("|)&;");
      }
      r := Done(Wrap(Exec(argv), rs), s);
    }

    method Parseblock() returns (r: Parsed)
      requires Valid()
      modifies this`s
      ensures Valid() && r == ParseBlock(Text(), old(s)) && (r.Done? ==> s == r.pos)
      decreases es - s, 0
    {
      ghost var t := Text();
      hide Skip, Shell.Gettoken, ParseRedirs, ParseLine;
      var open := Peek("(");
      if !open {
        return Panic;
      }
      PeekedIsToken(t, s, "(");
      var tok, q, eq := Gettoken();
      r := Parseline();
      if r.Panic? {
        return;
      }
      var close := Peek(")");
      if !close {
        return Panic;
      }
      tok, q, eq := Gettoken();
      var rs := Parseredirs([]);
      if rs.NoFile? {
        return Panic;
      }
      r := Done(Wrap(r.cmd, rs.rs), s);
    }

    method Parsepipe() returns (r: Parsed)
      requires Valid()
      modifies this`s
      ensures Valid() && r == ParsePipe(Text(), old(s)) && (r.Done? ==> s == r.pos)
      decreases es - s, 2
    {
      ghost var t := Text();
      hide Skip, Shell.Gettoken, ParseExec;
      r := Parseexec();
      if r.Panic? {
        return;
      }
      var more := Peek("|");
      if more {
        PeekedIsToken(t, s, "|");
        var tok, q, eq := Gettoken();
        var right := Parsepipe();
        if right.Panic? {
          return Panic;
        }
        r := Done(Pipe(r.cmd, right.cmd), s);
      } else {
        r := Done(r.cmd, s);
      }
    }

    method Parseline() returns (r: Parsed)
      requires Valid()
      modifies this`s
      ensures Valid() && r == ParseLine(Text(), old(s)) && (r.Done? ==> s == r.pos)
      decreases es - s, 3
    {
      ghost var t := Text();
      hide Skip, Shell.Gettoken, ParsePipe, ParseBacks;
      r := Parsepipe();
      if r.Panic? {
        return;
      }
      var cmd := ParseBackground(r.cmd);
      var more := Peek(";");
      if more {
        PeekedIsToken(t, s, ";");
        var tok, q, eq := Gettoken();
        var right := Parseline();
        if right.Panic? {
          return Panic;
        }
        r := Done(List(cmd, right.cmd), s);
      } else {
        r := Done(cmd, s);
      }
    }

    // The loop of parseline.
    method ParseBackground(first: Cmd<Span>) returns (cmd: Cmd<Span>)
      requires Valid()
      modifies this`s
      ensures Valid() && Done(cmd, s) == ParseBacks(Text(), old(s), first)
    {
      ghost var t := Text();
      hide Skip, Shell.Gettoken;
      cmd := first;
      ghost var from: nat := s;
      var more := Peek("&");
      while more
        invariant Valid() && from <= es && s == Skip(t, from) && more == Peeks(t, s, "&")
        invariant ParseBacks(t, old(s), first) == ParseBacks(t, from, cmd)
        decreases es - s
      {
        PeekedIsToken(t, s, "&");
        var tok, q, eq := Gettoken();
        cmd := Back(cmd);
        from := s;
        more := Peek("&");
      }
    }

    // nulterminate.
    method Nulterminate(c: Cmd<Span>)
      requires forall e :: e in Ends(c) ==> e < buf.Length
      modifies buf
      ensures buf[..] == Nulled(old(buf[..]), Ends(c))
      decreases c
    {
      match c
      case Exec(argv) =>
        var i := 0;
        while i < |argv|
          invariant i <= |argv|
          invariant buf[..] == Nulled(old(buf[..]), set k | 0 <= k < i :: argv[k].eq)
        {
          assert argv[i].eq in Ends(c);
          buf[argv[i].eq] := NUL;
          i := i + 1;
        }
        assert (set k | 0 <= k < i :: argv[k].eq) == Ends(c);
      case Redir(d, f, _) =>
        assert Ends(c) == Ends(d) + {f.eq};
        Nulterminate(d);
        buf[f.eq] := NUL;
      case Pipe(l, r) =>
        assert Ends(c) == Ends(l) + Ends(r);
        Nulterminate(l);
        Nulterminate(r);
      case List(l, r) =>
        assert Ends(c) == Ends(l) + Ends(r);
        Nulterminate(l);
        Nulterminate(r);
      case Back(d) =>
        assert Ends(c) == Ends(d);
        Nulterminate(d);
    }

    // parsecmd: the command, whose strings now end in NUL in the line itself.
    method Parsecmd() returns (r: Parsed)
      requires Valid() && s == 0
      modifies this`s, buf
      ensures r == ParseCmd(old(Text()))
      ensures r.Done? ==> buf[..] == Nulled(old(buf[..]), Ends(r.cmd))
      ensures r.Done? ==> forall w :: w in Spans(r.cmd) ==>
        w.q <= buf.Length && w.q <= w.eq <= es && CString(buf[..], w.q) == old(Text())[w.q..w.eq]
    {
      ghost var t := Text();
      hide ParseLine, AllWords, Ends, Spans, CString;
      r := Parseline();
      if r.Panic? {
        return;
      }
      LineIsWords(t, 0);
      var none := Peek("");
      if s != es {
        return Panic;
      }
      r := Done(r.cmd, s);
      forall e | e in Ends(r.cmd) ensures e < buf.Length { EndsEndWords(t, r.cmd, e); }
      assert buf[..] == t + [NUL];
      Nulterminate(r.cmd);
      forall w | w in Spans(r.cmd)
        ensures w.q <= buf.Length && w.q <= w.eq <= es && CString(buf[..], w.q) == t[w.q..w.eq]
      {
        NulterminateIsExact(t, w);
      }
    }
  }
}
