/** The parser of the shell as it runs (sh.c): a position that advances over a character buffer, and zeroes written into
    the buffer at the end of each word.  Each method is proved to do what the grammar of module Syntax says.  An error,
    at which the shell prints a message and exits, is a result of None; allocation never fails. */
module Shell {
  import opened Params
  import opened Syntax

  class Parser {
    var buf: array<char>
    var s: nat
    var es: nat
    /** The line in the buffer, up to its terminating zero. */
    ghost var line: string

    ghost predicate Valid()
      reads this, buf
    {
      && s <= es < buf.Length
      && line == buf[..es] && '\0' !in line && buf[es] == '\0'
    }

    /** The tokens that are still to come. */
    ghost function Toks(): seq<Token>
      reads this
      requires s <= |line|
    {
      Tokens(line, s)
    }

    /** gettoken.  Words are told by 'a' and >> by '+', as the shell tells them. */
    method Gettoken() returns (ret: char, at: Span)
      requires Valid()
      modifies this`s
      ensures Valid()
      ensures if old(Toks()) == [] then Toks() == []
              else Toks() == old(Toks())[1..] && Tells(ret, at, old(Toks())[0])
      ensures ret == 'a' <==> old(Toks()) != [] && old(Toks())[0].Word?
      ensures ret == '\0' <==> old(Toks()) == []
    {
      hide Tokens, TokenAt;
      SkipKeeps(line, s);
      SkipBlanks();
      NextToken(line, s);
      var q := s;
      ret := OneToken();
      at := Span(q, s);
      SkipKeeps(line, s);
      SkipBlanks();
    }

    /** The switch of gettoken. */
    method OneToken() returns (ret: char)
      requires Valid() && SkipSpace(line, s) == s
      modifies this`s
      ensures Valid()
      ensures if old(s) == es then ret == '\0' && s == es
              else
                && s == TokenAt(line, old(s)).1 && Tells(ret, Span(old(s), s), TokenAt(line, old(s)).0)
                && (ret == 'a' <==> TokenAt(line, old(s)).0.Word?) && ret != '\0'
    {
      hide Tokens;
      ret := buf[s];
      assert s < es ==> buf[s] == line[s] && line[s] in line;
      if ret == '\0' {
      } else if ret == '|' || ret == '(' || ret == ')' || ret == ';' || ret == '&' || ret == '<' {
        s := s + 1;
      } else if ret == '>' {
        s := s + 1;
        if buf[s] == '>' {
          ret := '+';
          s := s + 1;
        }
      } else {
        ret := 'a';
        SkipWord();
      }
    }

    method SkipWord()
      requires Valid() && s < es
      modifies this`s
      ensures Valid() && s == WordEnd(line, old(s) + 1)
    {
      s := s + 1;
      while s < es && !Space(buf[s]) && !Symbol(buf[s])
        invariant old(s) < s <= es && WordEnd(line, s) == WordEnd(line, old(s) + 1)
      {
        s := s + 1;
      }
    }

    method SkipBlanks()
      requires Valid()
      modifies this`s
      ensures Valid() && s == SkipSpace(line, old(s))
    {
      while s < es && Space(buf[s])
        invariant s <= es && SkipSpace(line, s) == SkipSpace(line, old(s))
      {
        s := s + 1;
      }
    }

    /** peek for one of some symbols. */
    method Peek(toks: string) returns (found: bool)
      requires Valid() && forall k | 0 <= k < |toks| :: Symbol(toks[k])
      modifies this`s
      ensures Valid() && Toks() == old(Toks()) && SkipSpace(line, s) == s
      ensures found <==> Toks() != [] && FirstIn(Toks()[0], toks)
    {
      hide Tokens;
      SkipKeeps(line, s);
      SkipBlanks();
      NextToken(line, s);
      found := buf[s] != '\0' && buf[s] in toks;
    }

    /** parseline. */
    method Parseline() returns (r: Option<Cmd<Span>>)
      requires Valid()
      modifies this`s
      ensures Valid() && Parsed(ParseLine(old(Toks())), r, Toks())
      decreases |Toks()|, 3
    {
      hide Tokens, ParsePipe, ParseExec, Backs;
      r := Parsepipe();
      if r == None {
        return;
      }
      var cmd := Parsebacks(r.value);
      var more := Peek(";");
      if more {
        var _, _ := Gettoken();
        r := Parseline();
        if r == None {
          return;
        }
        cmd := List(cmd, r.value);
      }
      r := Some(cmd);
    }

    /** The loop of parseline. */
    method Parsebacks(cmd0: Cmd<Span>) returns (cmd: Cmd<Span>)
      requires Valid()
      modifies this`s
      ensures Valid() && Backs(cmd0, old(Toks())) == Ok(cmd, Toks())
    {
      hide Tokens;
      cmd := cmd0;
      var more := Peek("&");
      while more
        invariant Valid() && more == Starts(Toks(), '&')
        invariant Backs(cmd, Toks()) == Backs(cmd0, old(Toks()))
        decreases |Toks()|
      {
        var _, _ := Gettoken();
        cmd := Back(cmd);
        more := Peek("&");
      }
    }

    /** parsepipe. */
    method Parsepipe() returns (r: Option<Cmd<Span>>)
      requires Valid()
      modifies this`s
      ensures Valid() && Parsed(ParsePipe(old(Toks())), r, Toks())
      decreases |Toks()|, 2
    {
      hide Tokens, ParseExec;
      r := Parseexec();
      if r == None {
        return;
      }
      var cmd := r.value;
      var more := Peek("|");
      if more {
        var _, _ := Gettoken();
        r := Parsepipe();
        if r == None {
          return;
        }
        cmd := Pipe(cmd, r.value);
      }
      r := Some(cmd);
    }

    /** parseredirs. */
    method Parseredirs(cmd: Cmd<Span>) returns (r: Option<Cmd<Span>>)
      requires Valid()
      modifies this`s
      ensures Valid() && Parsed(ParseRedirs(cmd, old(Toks())), r, Toks())
    {
      hide Tokens;
      var c := cmd;
      var more := Peek("<>");
      while more
        invariant Valid() && more == StartsRedir(Toks())
        invariant ParseRedirs(c, Toks()) == ParseRedirs(cmd, old(Toks()))
        decreases |Toks()|
      {
        var tok, _ := Gettoken();
        var word, at := Gettoken();
        if word != 'a' {
          return None;
        }
        c := Redir(c, at, tok != '<');
        more := Peek("<>");
      }
      r := Some(c);
    }

    /** parseblock, at an opening parenthesis. */
    method Parseblock() returns (r: Option<Cmd<Span>>)
      requires Valid() && Starts(Toks(), '(')
      modifies this`s
      ensures Valid() && Parsed(ParseExec(old(Toks())), r, Toks())
      decreases |Toks()|, 0
    {
      hide Tokens, ParseRedirs, ParseArgs, ParseLine;
      var _, _ := Gettoken();
      r := Parseline();
      if r == None {
        return;
      }
      var closed := Peek(")");
      if !closed {
        return None;
      }
      var _, _ := Gettoken();
      r := Parseredirs(r.value);
    }

    /** parseexec.  The words go into the execcmd under the redirections parsed so far. */
    method Parseexec() returns (r: Option<Cmd<Span>>)
      requires Valid()
      modifies this`s
      ensures Valid() && Parsed(ParseExec(old(Toks())), r, Toks())
      decreases |Toks()|, 1
    {
      hide Tokens, ParseRedirs, ParseArgs, ParseLine;
      var block := Peek("(");
      if block {
        r := Parseblock();
        return;
      }
      ghost var ts := Toks();
      r := Parseredirs(Exec([]));
      RedirsKeepArgc(Exec([]), ts);
      if r == None {
        return;
      }
      r := Parseargs(r.value);
    }

    /** The loop of parseexec. */
    method Parseargs(cmd: Cmd<Span>) returns (r: Option<Cmd<Span>>)
      requires Valid() && HasExec(cmd) && Argc(cmd) == 0
      modifies this`s
      ensures Valid() && Parsed(ParseArgs(cmd, old(Toks())), r, Toks())
    {
      hide Tokens, ParseRedirs;
      r := Some(cmd);
      var argc := 0;
      var stop := Peek("|)&;");
      while !stop
        invariant Valid() && r.Some? && stop == (Toks() != [] && EndsArgs(Toks()))
        invariant ParseArgs(r.value, Toks()) == ParseArgs(cmd, old(Toks()))
        invariant argc < MAXARGS && HasExec(r.value) && Argc(r.value) == argc
        decreases |Toks()|
      {
        var tok, at := Gettoken();
        if tok == '\0' {
          break;
        }
        if tok != 'a' {
          return None;
        }
        AddArgCounts(r.value, at);
        argc := argc + 1;
        if argc >= MAXARGS {
          return None;
        }
        ghost var c1, ts2 := AddArg(r.value, at), Toks();
        r := Parseredirs(AddArg(r.value, at));
        RedirsKeepArgc(c1, ts2);
        if r == None {
          return;
        }
        stop := Peek("|)&;");
      }
    }

    constructor (buf: array<char>)
      ensures this.buf == buf
    {
      this.buf, s, es, line := buf, 0, 0, "";
    }

    /** strlen: the end of the line in the buffer. */
    method Strlen()
      requires '\0' in buf[..]
      modifies this`s, this`es, this`line
      ensures Valid() && s == 0 && line == CString(buf[..], 0)
    {
      hide CString;
      s, es := 0, 0;
      ghost var j: nat :| j < buf.Length && buf[j] == '\0';
      while buf[es] != '\0'
        invariant es <= j < buf.Length && s == 0
        invariant forall k | 0 <= k < es :: buf[k] != '\0'
        decreases j - es
      {
        es := es + 1;
      }
      line := buf[..es];
      UpToZero(buf[..], 0, es);
    }

    /** parsecmd, on a buffer that holds a zero: the line before it is parsed whole or not at all, and afterwards each
        word of the command reads, as a C string in the buffer, exactly as it stood in the line. */
    method Parsecmd() returns (r: Option<Cmd<Span>>)
      requires '\0' in buf[..]
      modifies this, buf
      ensures buf == old(buf)
      ensures var line0 := CString(old(buf[..]), 0);
              var p := ParseLine(Tokens(line0, 0));
              if p.Ok? && p.rest == [] then
                r == Some(p.cmd) && InLine(p.cmd, |line0|) && ReadBack(p.cmd, buf[..]) == Text(p.cmd, line0)
              else r == None
    {
      hide Tokens, ParsePipe, ParseLine, Ends, WordsOf, Cut;
      Strlen();
      r := Parseline();
      var _ := Peek("");
      NextToken(line, s);
      if r == None || s != es {
        return None;
      }
      TokensAreWords(line, 0);
      LineWords(Tokens(line, 0), line);
      var cmd := r.value;
      forall k | k in Ends(cmd) ensures k <= es && (k < es ==> !Ordinary(line[k])) {
        EndsOutside(cmd, line, k);
      }
      Nulterminate(cmd);
      IsCut(line, buf[..], Ends(cmd));
      CutReads(cmd, line, buf[..], Ends(cmd));
    }

    /** parsecmd on a line printed from a command: the words that will be executed are those of the command. */
    method ParsePrinted(ghost c: Cmd<string>, ghost end: string) returns (r: Option<Cmd<Span>>)
      requires '\0' in buf[..] && CString(buf[..], 0) == Print(c) + end
      requires Good(c) && forall k | 0 <= k < |end| :: Space(end[k])
      modifies this, buf
      ensures r.Some? && ReadBack(r.value, buf[..]) == c
    {
      hide ParseLine, Tokens, Print, Good, ReadBack, Text;
      RoundTrip(c, end);
      r := Parsecmd();
    }

    /** nulterminate. */
    method Nulterminate(cmd: Cmd<Span>)
      requires forall k | k in Ends(cmd) :: k < buf.Length
      modifies buf
      ensures forall k: nat | k < buf.Length :: buf[k] == if k in Ends(cmd) then '\0' else old(buf[k])
      decreases cmd
    {
      match cmd
      case Exec(args) =>
        var i := 0;
        while i < |args|
          invariant 0 <= i <= |args|
          invariant forall k: nat | k < buf.Length ::
                      buf[k] == if k in Ends(Exec(args[..i])) then '\0' else old(buf[k])
        {
          EndsMore(args, i);
          buf[args[i].eq] := '\0';
          i := i + 1;
        }
        assert args[..i] == args;
      case Redir(d, file, _) =>
        assert Ends(cmd) == Ends(d) + {file.eq};
        Nulterminate(d);
        buf[file.eq] := '\0';
      case Pipe(l, r) =>
        assert Ends(cmd) == Ends(l) + Ends(r);
        Nulterminate(l);
        Nulterminate(r);
      case List(l, r) =>
        assert Ends(cmd) == Ends(l) + Ends(r);
        Nulterminate(l);
        Nulterminate(r);
      case Back(d) =>
        assert Ends(cmd) == Ends(d);
        Nulterminate(d);
    }
  }

  lemma EndsMore(args: seq<Span>, i: nat)
    requires i < |args|
    ensures Ends(Exec(args[..i + 1])) == Ends(Exec(args[..i])) + {args[i].eq}
    ensures args[i].eq in Ends(Exec(args))
  {
    var a, b := args[..i], args[..i + 1];
    forall k: nat | k < |b| ensures b[k].eq in Ends(Exec(a)) + {args[i].eq} {
      assert k < i ==> a[k] == b[k] && a[k].eq in Ends(Exec(a));
    }
    forall k: nat | k < |a| ensures a[k].eq in Ends(Exec(b)) {
      assert b[k] == a[k] && b[k].eq in Ends(Exec(b));
    }
    assert b[i].eq in Ends(Exec(b));
  }

  lemma {:induction false} UpToZero(buf: string, q: nat, e: nat)
    requires q <= e < |buf| && buf[e] == '\0' && forall k | q <= k < e :: buf[k] != '\0'
    ensures CString(buf, q) == buf[q..e]
    decreases e - q
  {
    if q < e {
      UpToZero(buf, q + 1, e);
    }
  }

  lemma IsCut(line: string, buf: string, ends: set<nat>)
    requires |line| < |buf| && forall k: nat | k < |line| && k !in ends :: buf[k] == line[k]
    requires forall k | k in ends :: k <= |line| && buf[k] == '\0' && (k < |line| ==> !Ordinary(line[k]))
    ensures Cut(line, buf, ends)
  {
  }

  /** A parse result as the methods return it. */
  ghost predicate Parsed(p: Parse, r: Option<Cmd<Span>>, rest: seq<Token>) {
    match p
    case SyntaxError => r == None
    case Ok(c, more) => r == Some(c) && rest == more
  }

  /** What gettoken returns for a token. */
  predicate Tells(ret: char, at: Span, t: Token) {
    match t
    case Sym(c) => ret == c
    case Append => ret == '+'
    case Word(w) => ret == 'a' && at == w
  }

  predicate FirstIn(t: Token, toks: string) {
    match t
    case Sym(c) => c in toks
    case Append => '>' in toks
    case Word(_) => false
  }

  lemma SkipKeeps(line: string, p: nat)
    requires p <= |line|
    ensures Tokens(line, p) == Tokens(line, SkipSpace(line, p))
  {
    var q := SkipSpace(line, p);
    assert SkipSpace(line, q) == q;
  }

  lemma NextToken(line: string, p: nat)
    requires p <= |line| && SkipSpace(line, p) == p
    ensures if p == |line| then Tokens(line, p) == []
            else
              && TokenAt(line, p).1 <= |line|
              && Tokens(line, p) == [TokenAt(line, p).0] + Tokens(line, TokenAt(line, p).1)
  {
  }

  predicate HasExec(c: Cmd<Span>) {
    match c
    case Exec(_) => true
    case Redir(d, _, _) => HasExec(d)
    case _ => false
  }

  lemma {:induction false} AddArgCounts(c: Cmd<Span>, w: Span)
    requires HasExec(c)
    ensures HasExec(AddArg(c, w)) && Argc(AddArg(c, w)) == Argc(c) + 1
    decreases c
  {
    match c
    case Redir(d, _, _) => AddArgCounts(d, w);
    case _ =>
  }

  lemma {:induction false} RedirsKeepArgc(c: Cmd<Span>, ts: seq<Token>)
    requires HasExec(c)
    ensures var r := ParseRedirs(c, ts);
            r.Ok? ==> HasExec(r.cmd) && Argc(r.cmd) == Argc(c)
    decreases |ts|
  {
    if StartsRedir(ts) && |ts| >= 2 && ts[1].Word? {
      RedirsKeepArgc(Redir(c, ts[1].at, ts[0] != Sym('<')), ts[2..]);
    }
  }
}
