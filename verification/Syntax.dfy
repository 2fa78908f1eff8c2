/** The command language of the shell (sh.c): tokens, the grammar as functions on tokens, a fully parenthesised
    printing, and the proof that parsing takes a printed command back to the command. */
module Syntax {
  const MAXARGS: nat := 10

  /** Where a word stands in a line: from q up to but not including eq. */
  datatype Span = Span(q: nat, eq: nat)

  datatype Token = Sym(c: char) | Append | Word(at: Span)

  /** A parsed command.  Output redirections > and >> both become a redirection of descriptor 1. */
  datatype Cmd<W> =
    | Exec(args: seq<W>)
    | Redir(cmd: Cmd<W>, file: W, out: bool)
    | Pipe(left: Cmd<W>, right: Cmd<W>)
    | List(left: Cmd<W>, right: Cmd<W>)
    | Back(cmd: Cmd<W>)

  // ---------- Tokens

  predicate Space(c: char) {
    c == ' ' || c == '\t' || c == '\r' || c == '\n' || c == '\U{0B}'
  }

  predicate Symbol(c: char) {
    c == '<' || c == '|' || c == '>' || c == '&' || c == ';' || c == '(' || c == ')'
  }

  predicate Ordinary(c: char) {
    !Space(c) && !Symbol(c) && c != '\0'
  }

  function SkipSpace(line: string, p: nat): (r: nat)
    requires p <= |line|
    ensures p <= r <= |line| && (r < |line| ==> !Space(line[r]))
    ensures forall k | p <= k < r :: Space(line[k])
    decreases |line| - p
  {
    if p < |line| && Space(line[p]) then SkipSpace(line, p + 1) else p
  }

  function WordEnd(line: string, p: nat): (r: nat)
    requires p <= |line|
    ensures p <= r <= |line| && (r < |line| ==> Space(line[r]) || Symbol(line[r]))
    ensures forall k | p <= k < r :: !Space(line[k]) && !Symbol(line[k])
    decreases |line| - p
  {
    if p < |line| && !Space(line[p]) && !Symbol(line[p]) then WordEnd(line, p + 1) else p
  }

  /** The token that starts at p, and where it ends. */
  function TokenAt(line: string, p: nat): (r: (Token, nat))
    requires p < |line| && !Space(line[p])
    ensures p < r.1 <= |line|
  {
    if line[p] == '>' then
      if p + 1 < |line| && line[p + 1] == '>' then (Append, p + 2) else (Sym('>'), p + 1)
    else if Symbol(line[p]) then (Sym(line[p]), p + 1)
    else (Word(Span(p, WordEnd(line, p + 1))), WordEnd(line, p + 1))
  }

  function Tokens(line: string, p: nat): seq<Token>
    requires p <= |line|
    decreases |line| - p
  {
    var s := SkipSpace(line, p);
    if s == |line| then [] else [TokenAt(line, s).0] + Tokens(line, TokenAt(line, s).1)
  }

  // ---------- The grammar

  datatype Parse = Ok(cmd: Cmd<Span>, rest: seq<Token>) | SyntaxError

  predicate Starts(ts: seq<Token>, c: char) {
    ts != [] && ts[0] == Sym(c)
  }

  predicate StartsRedir(ts: seq<Token>) {
    Starts(ts, '<') || Starts(ts, '>') || (ts != [] && ts[0] == Append)
  }

  predicate EndsArgs(ts: seq<Token>) {
    ts == [] || Starts(ts, '|') || Starts(ts, ')') || Starts(ts, '&') || Starts(ts, ';')
  }

  /** parseline. */
  function ParseLine(ts: seq<Token>): (r: Parse)
    ensures r.Ok? ==> |r.rest| <= |ts|
    decreases |ts|, 3
  {
    match ParsePipe(ts)
    case SyntaxError => SyntaxError
    case Ok(c, rest) => ParseTail(Backs(c, rest).cmd, Backs(c, rest).rest)
  }

  /** The & that follow a pipeline. */
  function Backs(c: Cmd<Span>, ts: seq<Token>): (r: Parse)
    ensures r.Ok? && |r.rest| <= |ts|
    decreases |ts|
  {
    if Starts(ts, '&') then Backs(Back(c), ts[1..]) else Ok(c, ts)
  }

  /** A ; and the rest of the line. */
  function ParseTail(c: Cmd<Span>, ts: seq<Token>): (r: Parse)
    ensures r.Ok? ==> |r.rest| <= |ts|
    decreases |ts|, 0
  {
    if Starts(ts, ';') then
      match ParseLine(ts[1..])
      case SyntaxError => SyntaxError
      case Ok(d, rest) => Ok(List(c, d), rest)
    else Ok(c, ts)
  }

  /** parsepipe. */
  function ParsePipe(ts: seq<Token>): (r: Parse)
    ensures r.Ok? ==> |r.rest| <= |ts|
    decreases |ts|, 2
  {
    match ParseExec(ts)
    case SyntaxError => SyntaxError
    case Ok(c, rest) =>
      if Starts(rest, '|') then
        match ParsePipe(rest[1..])
        case SyntaxError => SyntaxError
        case Ok(d, rest') => Ok(Pipe(c, d), rest')
      else Ok(c, rest)
  }

  /** parseredirs. */
  function ParseRedirs(c: Cmd<Span>, ts: seq<Token>): (r: Parse)
    ensures r.Ok? ==> |r.rest| <= |ts|
    decreases |ts|
  {
    if !StartsRedir(ts) then Ok(c, ts)
    else if |ts| < 2 || !ts[1].Word? then SyntaxError
    else ParseRedirs(Redir(c, ts[1].at, ts[0] != Sym('<')), ts[2..])
  }

  /** parseexec, with parseblock for a command in parentheses. */
  function ParseExec(ts: seq<Token>): (r: Parse)
    ensures r.Ok? ==> |r.rest| <= |ts|
    decreases |ts|, 1
  {
    if Starts(ts, '(') then
      match ParseLine(ts[1..])
      case SyntaxError => SyntaxError
      case Ok(c, rest) => if Starts(rest, ')') then ParseRedirs(c, rest[1..]) else SyntaxError
    else
      match ParseRedirs(Exec([]), ts)
      case SyntaxError => SyntaxError
      case Ok(c, rest) => ParseArgs(c, rest)
  }

  /** The loop of parseexec: words, each with redirections after it. */
  function ParseArgs(c: Cmd<Span>, ts: seq<Token>): (r: Parse)
    ensures r.Ok? ==> |r.rest| <= |ts|
    decreases |ts|
  {
    if EndsArgs(ts) then Ok(c, ts)
    else if !ts[0].Word? || Argc(c) + 1 >= MAXARGS then SyntaxError
    else
      match ParseRedirs(AddArg(c, ts[0].at), ts[1..])
      case SyntaxError => SyntaxError
      case Ok(d, rest) => ParseArgs(d, rest)
  }

  /** The execcmd under its redirections, to which parseexec keeps a pointer. */
  function Argc(c: Cmd<Span>): nat {
    match c
    case Exec(args) => |args|
    case Redir(d, _, _) => Argc(d)
    case _ => 0
  }

  function AddArg(c: Cmd<Span>, w: Span): Cmd<Span> {
    match c
    case Exec(args) => Exec(args + [w])
    case Redir(d, file, out) => Redir(AddArg(d, w), file, out)
    case _ => c
  }

  // ---------- Printing

  predicate GoodWord(w: string) {
    w != "" && forall k | 0 <= k < |w| :: Ordinary(w[k])
  }

  /** A command that can be written down. */
  predicate Good(c: Cmd<string>) {
    match c
    case Exec(args) => |args| < MAXARGS && forall k | 0 <= k < |args| :: GoodWord(args[k])
    case Redir(d, file, _) => Good(d) && GoodWord(file)
    case Pipe(l, r) => Good(l) && Good(r)
    case List(l, r) => Good(l) && Good(r)
    case Back(d) => Good(d)
  }

  function PrintArgs(args: seq<string>): string {
    if args == [] then "" else " " + args[0] + PrintArgs(args[1..])
  }

  /** The command with every part of it in parentheses. */
  function Print(c: Cmd<string>): string {
    match c
    case Exec(args) => PrintArgs(args)
    case Redir(d, file, out) => "(" + Print(d) + ")" + (if out then ">" else "<") + file
    case Pipe(l, r) => "(" + Print(l) + ")|(" + Print(r) + ")"
    case List(l, r) => "(" + Print(l) + ");(" + Print(r) + ")"
    case Back(d) => "(" + Print(d) + ")&"
  }

  /** The words of a command as they read in a line. */
  function Text(c: Cmd<Span>, line: string): Cmd<string>
    requires InLine(c, |line|)
  {
    match c
    case Exec(args) => Exec(seq(|args|, k requires 0 <= k < |args| => line[args[k].q..args[k].eq]))
    case Redir(d, file, out) => Redir(Text(d, line), line[file.q..file.eq], out)
    case Pipe(l, r) => Pipe(Text(l, line), Text(r, line))
    case List(l, r) => List(Text(l, line), Text(r, line))
    case Back(d) => Back(Text(d, line))
  }

  predicate InLine(c: Cmd<Span>, n: nat) {
    match c
    case Exec(args) => forall k | 0 <= k < |args| :: args[k].q <= args[k].eq <= n
    case Redir(d, file, out) => InLine(d, n) && file.q <= file.eq <= n
    case Pipe(l, r) => InLine(l, n) && InLine(r, n)
    case List(l, r) => InLine(l, n) && InLine(r, n)
    case Back(d) => InLine(d, n)
  }

  // ---------- Where a printed command's words and tokens stand

  function PlaceArgs(args: seq<string>, p: nat): (r: seq<Span>)
    ensures |r| == |args|
  {
    if args == [] then [] else [Span(p + 1, p + 1 + |args[0]|)] + PlaceArgs(args[1..], p + 1 + |args[0]|)
  }

  function Place(c: Cmd<string>, p: nat): Cmd<Span> {
    match c
    case Exec(args) => Exec(PlaceArgs(args, p))
    case Redir(d, file, out) => Redir(Place(d, p + 1), Span(p + |Print(d)| + 3, p + |Print(d)| + 3 + |file|), out)
    case Pipe(l, r) => Pipe(Place(l, p + 1), Place(r, p + |Print(l)| + 4))
    case List(l, r) => List(Place(l, p + 1), Place(r, p + |Print(l)| + 4))
    case Back(d) => Back(Place(d, p + 1))
  }

  function WordTokens(args: seq<Span>): seq<Token> {
    if args == [] then [] else [Word(args[0])] + WordTokens(args[1..])
  }

  function TokensOf(c: Cmd<Span>): seq<Token>
    decreases c, 0
  {
    match c
    case Exec(args) => WordTokens(args)
    case Redir(d, file, out) => Block(d) + [Sym(if out then '>' else '<'), Word(file)]
    case Pipe(l, r) => Block(l) + [Sym('|')] + Block(r)
    case List(l, r) => Block(l) + [Sym(';')] + Block(r)
    case Back(d) => Block(d) + [Sym('&')]
  }

  function Block(c: Cmd<Span>): seq<Token>
    decreases c, 1
  {
    [Sym('(')] + TokensOf(c) + [Sym(')')]
  }

  // ---------- Parsing the tokens of a printed command

  /** What may follow a command in its parentheses, or at the end of the line. */
  predicate Closes(rest: seq<Token>) {
    rest == [] || Starts(rest, ')')
  }

  predicate FewArgs(c: Cmd<Span>) {
    match c
    case Exec(args) => |args| < MAXARGS
    case Redir(d, _, _) => FewArgs(d)
    case Pipe(l, r) => FewArgs(l) && FewArgs(r)
    case List(l, r) => FewArgs(l) && FewArgs(r)
    case Back(d) => FewArgs(d)
  }

  lemma {:induction false} ParsesWords(done: seq<Span>, args: seq<Span>, rest: seq<Token>)
    requires |done| + |args| < MAXARGS && Closes(rest)
    ensures ParseArgs(Exec(done), WordTokens(args) + rest) == Ok(Exec(done + args), rest)
    decreases |args|
  {
    hide ParseRedirs;
    var ts := WordTokens(args) + rest;
    if args == [] {
      assert ts == rest && done + args == done;
    } else {
      assert ts[0] == Word(args[0]) && ts[1..] == WordTokens(args[1..]) + rest;
      assert !StartsRedir(ts[1..]) by { WordsFirst(args[1..], rest); }
      NoRedir(Exec(done + [args[0]]), ts[1..]);
      ParsesWords(done + [args[0]], args[1..], rest);
      assert done + [args[0]] + args[1..] == done + args;
    }
  }

  lemma WordsFirst(args: seq<Span>, rest: seq<Token>)
    ensures args != [] ==> WordTokens(args) + rest != [] && (WordTokens(args) + rest)[0] == Word(args[0])
    ensures args == [] ==> WordTokens(args) + rest == rest
  {
  }

  lemma LineOf(ts: seq<Token>, c: Cmd<Span>, rest: seq<Token>)
    requires ParseExec(ts) == Ok(c, rest) && Closes(rest)
    ensures ParsePipe(ts) == ParseLine(ts) == Ok(c, rest)
  {
  }

  lemma LineOfPipe(ts: seq<Token>, l: Cmd<Span>, more: seq<Token>, r: Cmd<Span>, rest: seq<Token>)
    requires ParseExec(ts) == Ok(l, [Sym('|')] + more) && ParsePipe(more) == Ok(r, rest) && Closes(rest)
    ensures ParseLine(ts) == Ok(Pipe(l, r), rest)
  {
    assert ([Sym('|')] + more)[1..] == more;
    assert ParsePipe(ts) == Ok(Pipe(l, r), rest);
  }

  lemma LineOfList(ts: seq<Token>, l: Cmd<Span>, more: seq<Token>, r: Cmd<Span>, rest: seq<Token>)
    requires ParseExec(ts) == Ok(l, [Sym(';')] + more) && ParseLine(more) == Ok(r, rest) && Closes(rest)
    ensures ParseLine(ts) == Ok(List(l, r), rest)
  {
    assert ([Sym(';')] + more)[1..] == more;
    assert ParsePipe(ts) == Ok(l, [Sym(';')] + more);
    assert Backs(l, [Sym(';')] + more) == Ok(l, [Sym(';')] + more);
  }

  lemma LineOfBack(ts: seq<Token>, c: Cmd<Span>, rest: seq<Token>)
    requires ParseExec(ts) == Ok(c, [Sym('&')] + rest) && Closes(rest)
    ensures ParseLine(ts) == Ok(Back(c), rest)
  {
    assert ([Sym('&')] + rest)[1..] == rest;
    assert ParsePipe(ts) == Ok(c, [Sym('&')] + rest);
    assert Backs(Back(c), rest) == Ok(Back(c), rest);
  }

  lemma OneRedir(c: Cmd<Span>, file: Span, out: bool, rest: seq<Token>)
    requires Closes(rest)
    ensures ParseRedirs(c, [Sym(if out then '>' else '<'), Word(file)] + rest) == Ok(Redir(c, file, out), rest)
  {
    var ts := [Sym(if out then '>' else '<'), Word(file)] + rest;
    assert ts[2..] == rest;
    assert ParseRedirs(Redir(c, file, out), rest) == Ok(Redir(c, file, out), rest);
  }

  lemma NoRedir(c: Cmd<Span>, ts: seq<Token>)
    requires !StartsRedir(ts)
    ensures ParseRedirs(c, ts) == Ok(c, ts)
  {
  }

  lemma ParsesExec(args: seq<Span>, rest: seq<Token>)
    requires |args| < MAXARGS && Closes(rest)
    ensures ParseExec(WordTokens(args) + rest) == Ok(Exec(args), rest)
  {
    hide ParseArgs, ParseRedirs, ParseLine, WordTokens;
    WordsFirst(args, rest);
    ParsesWords([], args, rest);
    assert [] + args == args;
    NoRedir(Exec([]), WordTokens(args) + rest);
  }

  /** A command in parentheses parses as what is in them. */
  lemma {:induction false} ParsesBlock(c: Cmd<Span>, rest: seq<Token>)
    requires FewArgs(c)
    ensures ParseExec(Block(c) + rest) == ParseRedirs(c, rest)
    decreases c, 1
  {
    hide ParseLine, ParseRedirs;
    var ts := Block(c) + rest;
    var inner := [Sym(')')] + rest;
    assert ts[1..] == TokensOf(c) + inner;
    ParsesLine(c, inner);
    assert inner[1..] == rest;
  }

  lemma {:induction false} ParsesBlockLine(c: Cmd<Span>, rest: seq<Token>)
    requires FewArgs(c) && Closes(rest)
    ensures ParsePipe(Block(c) + rest) == ParseLine(Block(c) + rest) == Ok(c, rest)
    decreases c, 2
  {
    hide ParseExec, ParsePipe, ParseLine;
    ParsesBlock(c, rest);
    LineOf(Block(c) + rest, c, rest);
  }

  /** The tokens of a printed command parse as that command, up to what follows it. */
  lemma {:induction false} ParsesLine(c: Cmd<Span>, rest: seq<Token>)
    requires FewArgs(c) && Closes(rest)
    ensures ParseLine(TokensOf(c) + rest) == Ok(c, rest)
    decreases c, 0
  {
    hide ParseExec, ParsePipe, ParseLine;
    var ts := TokensOf(c) + rest;
    match c
    case Exec(args) =>
      ParsesExec(args, rest);
      LineOf(ts, c, rest);
    case Redir(d, file, out) =>
      var after := [Sym(if out then '>' else '<'), Word(file)] + rest;
      assert ts == Block(d) + after;
      ParsesBlock(d, after);
      OneRedir(d, file, out, rest);
      LineOf(ts, c, rest);
    case Pipe(l, r) =>
      var after := [Sym('|')] + (Block(r) + rest);
      assert ts == Block(l) + after;
      ParsesBlock(l, after);
      ParsesBlockLine(r, rest);
      LineOfPipe(ts, l, Block(r) + rest, r, rest);
    case List(l, r) =>
      var after := [Sym(';')] + (Block(r) + rest);
      assert ts == Block(l) + after;
      ParsesBlock(l, after);
      ParsesBlockLine(r, rest);
      LineOfList(ts, l, Block(r) + rest, r, rest);
    case Back(d) =>
      var after := [Sym('&')] + rest;
      assert ts == Block(d) + after;
      ParsesBlock(d, after);
      LineOfBack(ts, d, rest);
  }

  function Size(c: Cmd<string>): nat {
    match c
    case Exec(_) => 1
    case Redir(d, _, _) => 1 + Size(d)
    case Pipe(l, r) => 1 + Size(l) + Size(r)
    case List(l, r) => 1 + Size(l) + Size(r)
    case Back(d) => 1 + Size(d)
  }

  // ---------- The tokens of a printed command

  predicate Stands(s: string, line: string, p: nat) {
    p + |s| <= |line| && line[p..p + |s|] == s
  }

  predicate WordStops(line: string, e: nat) {
    e == |line| || (e < |line| && (Space(line[e]) || Symbol(line[e])))
  }

  lemma StandsBoth(a: string, b: string, line: string, p: nat)
    requires Stands(a + b, line, p)
    ensures Stands(a, line, p) && Stands(b, line, p + |a|)
  {
    assert (a + b)[..|a|] == a && (a + b)[|a|..] == b;
    assert line[p..p + |a|] == line[p..p + |a + b|][..|a|];
    assert line[p + |a|..p + |a| + |b|] == line[p..p + |a + b|][|a|..];
  }

  lemma StandsChar(c: char, line: string, p: nat)
    requires Stands([c], line, p)
    ensures p < |line| && line[p] == c
  {
    assert line[p..p + 1][0] == c;
  }

  lemma StandsFirst(s: string, line: string, p: nat)
    requires Stands(s, line, p) && s != ""
    ensures p < |line| && line[p] == s[0]
  {
    assert line[p..p + |s|][0] == line[p];
  }

  lemma LexSpace(line: string, p: nat)
    requires p < |line| && Space(line[p])
    ensures Tokens(line, p) == Tokens(line, p + 1)
  {
  }

  lemma LexSymbol(line: string, p: nat)
    requires p < |line| && Symbol(line[p]) && !Space(line[p])
    requires line[p] == '>' ==> p + 1 == |line| || line[p + 1] != '>'
    ensures Tokens(line, p) == [Sym(line[p])] + Tokens(line, p + 1)
  {
  }

  lemma LexWord(w: string, line: string, p: nat)
    requires GoodWord(w) && Stands(w, line, p) && WordStops(line, p + |w|)
    ensures Tokens(line, p) == [Word(Span(p, p + |w|))] + Tokens(line, p + |w|)
  {
    forall k | p <= k < p + |w| ensures Ordinary(line[k]) {
      assert line[p..p + |w|][k - p] == w[k - p];
    }
    WordEndIs(line, p + 1, p + |w|);
  }

  lemma {:induction false} WordEndIs(line: string, p: nat, e: nat)
    requires p <= e <= |line| && WordStops(line, e) && forall k | p <= k < e :: Ordinary(line[k])
    ensures WordEnd(line, p) == e
    decreases e - p
  {
    if p < e {
      WordEndIs(line, p + 1, e);
    }
  }

  lemma {:induction false} LexArgs(args: seq<string>, line: string, p: nat)
    requires Stands(PrintArgs(args), line, p) && WordStops(line, p + |PrintArgs(args)|)
    requires forall k | 0 <= k < |args| :: GoodWord(args[k])
    ensures Tokens(line, p) == WordTokens(PlaceArgs(args, p)) + Tokens(line, p + |PrintArgs(args)|)
    decreases |args|
  {
    hide Tokens, Stands;
    if args != [] {
      var w, more := args[0], PrintArgs(args[1..]);
      assert PrintArgs(args) == " " + (w + more);
      StandsBoth(" ", w + more, line, p);
      StandsChar(' ', line, p);
      LexSpace(line, p);
      StandsBoth(w, more, line, p + 1);
      ArgsStop(args[1..], line, p + 1 + |w|);
      LexWord(w, line, p + 1);
      LexArgs(args[1..], line, p + 1 + |w|);
    }
  }

  lemma ArgsStop(args: seq<string>, line: string, p: nat)
    requires Stands(PrintArgs(args), line, p) && WordStops(line, p + |PrintArgs(args)|)
    ensures WordStops(line, p)
  {
    if args != [] {
      assert PrintArgs(args) == " " + (args[0] + PrintArgs(args[1..]));
      StandsBoth(" ", args[0] + PrintArgs(args[1..]), line, p);
      StandsChar(' ', line, p);
    }
  }

  lemma {:induction false} LexBlock(c: Cmd<string>, line: string, p: nat)
    requires Good(c) && Stands("(" + Print(c) + ")", line, p)
    ensures Tokens(line, p) == Block(Place(c, p + 1)) + Tokens(line, p + |Print(c)| + 2)
    decreases Size(c), 1
  {
    hide Print, Good, Tokens, Stands, Place, TokensOf;
    assert "(" + Print(c) + ")" == "(" + (Print(c) + ")");
    StandsBoth("(", Print(c) + ")", line, p);
    StandsChar('(', line, p);
    LexSymbol(line, p);
    StandsBoth(Print(c), ")", line, p + 1);
    var e := p + 1 + |Print(c)|;
    StandsChar(')', line, e);
    LexSymbol(line, e);
    Lex(c, line, p + 1);
  }

  /** Two blocks with a symbol between them. */
  lemma {:induction false} LexPair(l: Cmd<string>, sym: char, r: Cmd<string>, line: string, p: nat)
    requires Good(l) && Good(r) && (sym == '|' || sym == ';')
    requires Stands("(" + Print(l) + ")" + [sym] + "(" + Print(r) + ")", line, p)
    ensures Tokens(line, p) == Block(Place(l, p + 1)) + [Sym(sym)] + Block(Place(r, p + |Print(l)| + 4))
                               + Tokens(line, p + |Print(l)| + |Print(r)| + 5)
    decreases Size(l) + Size(r), 2
  {
    hide Print, Good, Tokens, Stands, Place, TokensOf, Block;
    var a, b := "(" + Print(l) + ")", "(" + Print(r) + ")";
    assert "(" + Print(l) + ")" + [sym] + "(" + Print(r) + ")" == a + ([sym] + b);
    StandsBoth(a, [sym] + b, line, p);
    StandsBoth([sym], b, line, p + |a|);
    StandsChar(sym, line, p + |a|);
    LexSymbol(line, p + |a|);
    LexBlock(l, line, p);
    LexBlock(r, line, p + |a| + 1);
  }

  /** The tokens of a printed command, wherever it stands. */
  lemma {:induction false} Lex(c: Cmd<string>, line: string, p: nat)
    requires Good(c) && Stands(Print(c), line, p) && WordStops(line, p + |Print(c)|)
    ensures Tokens(line, p) == TokensOf(Place(c, p)) + Tokens(line, p + |Print(c)|)
    decreases Size(c), 0
  {
    hide Tokens, Stands;
    match c
    case Exec(args) =>
      LexArgs(args, line, p);
    case Redir(d, file, out) =>
      LexRedir(d, file, out, line, p);
    case Pipe(l, r) =>
      assert Print(c) == "(" + Print(l) + ")" + ['|'] + "(" + Print(r) + ")";
      LexPair(l, '|', r, line, p);
    case List(l, r) =>
      assert Print(c) == "(" + Print(l) + ")" + [';'] + "(" + Print(r) + ")";
      LexPair(l, ';', r, line, p);
    case Back(d) =>
      assert Print(c) == "(" + Print(d) + ")" + "&";
      StandsBoth("(" + Print(d) + ")", "&", line, p);
      StandsChar('&', line, p + |Print(d)| + 2);
      LexSymbol(line, p + |Print(d)| + 2);
      LexBlock(d, line, p);
  }

  lemma {:induction false} LexRedir(d: Cmd<string>, file: string, out: bool, line: string, p: nat)
    requires Good(d) && GoodWord(file)
    requires Stands("(" + Print(d) + ")" + (if out then ">" else "<") + file, line, p)
    requires WordStops(line, p + |Print(d)| + 3 + |file|)
    ensures Tokens(line, p) ==
            Block(Place(d, p + 1))
            + [Sym(if out then '>' else '<'), Word(Span(p + |Print(d)| + 3, p + |Print(d)| + 3 + |file|))]
            + Tokens(line, p + |Print(d)| + 3 + |file|)
    decreases Size(d), 2
  {
    hide Print, Good, Tokens, Place, TokensOf, Block, Stands;
    var a, b := "(" + Print(d) + ")", [if out then '>' else '<'];
    assert "(" + Print(d) + ")" + (if out then ">" else "<") + file == a + (b + file);
    StandsBoth(a, b + file, line, p);
    StandsBoth(b, file, line, p + |a|);
    StandsChar(b[0], line, p + |a|);
    StandsFirst(file, line, p + |a| + 1);
    LexSymbol(line, p + |a|);
    LexWord(file, line, p + |a| + 1);
    LexBlock(d, line, p);
  }

  // ---------- The round trip

  lemma {:induction false} ArgsRead(args: seq<string>, line: string, p: nat, k: nat)
    requires Stands(PrintArgs(args), line, p) && k < |args|
    ensures var at := PlaceArgs(args, p)[k];
            at.q <= at.eq <= |line| && line[at.q..at.eq] == args[k]
    decreases |args|
  {
    var w, more := args[0], PrintArgs(args[1..]);
    assert PrintArgs(args) == " " + (w + more);
    StandsBoth(" ", w + more, line, p);
    StandsBoth(w, more, line, p + 1);
    if k > 0 {
      ArgsRead(args[1..], line, p + 1 + |w|, k - 1);
    }
  }

  lemma ExecReads(args: seq<string>, line: string, p: nat)
    requires Stands(PrintArgs(args), line, p)
    ensures InLine(Exec(PlaceArgs(args, p)), |line|) && Text(Exec(PlaceArgs(args, p)), line) == Exec(args)
  {
    forall k | 0 <= k < |args| ensures var at := PlaceArgs(args, p)[k];
                                       at.q <= at.eq <= |line| && line[at.q..at.eq] == args[k]
    {
      ArgsRead(args, line, p, k);
    }
  }

  /** In the line, the words of a printed command read as they should. */
  lemma {:induction false} Reads(c: Cmd<string>, line: string, p: nat)
    requires Stands(Print(c), line, p)
    ensures InLine(Place(c, p), |line|) && Text(Place(c, p), line) == c
    decreases Size(c), 0
  {
    hide Stands, PlaceArgs, PrintArgs;
    match c
    case Exec(args) =>
      ExecReads(args, line, p);
    case Redir(d, file, out) =>
      assert Print(c) == "(" + (Print(d) + (")" + (if out then ">" else "<") + file));
      RedirReads(d, ")" + (if out then ">" else "<"), file, line, p);
    case Pipe(l, r) =>
      assert Print(c) == "(" + (Print(l) + (")|(" + (Print(r) + ")")));
      PairReads(l, ")|(", r, line, p);
    case List(l, r) =>
      assert Print(c) == "(" + (Print(l) + (");(" + (Print(r) + ")")));
      PairReads(l, ");(", r, line, p);
    case Back(d) =>
      assert Print(c) == "(" + (Print(d) + (")&" + ""));
      RedirReads(d, ")&", "", line, p);
  }

  lemma {:induction false} RedirReads(d: Cmd<string>, op: string, file: string, line: string, p: nat)
    requires |op| == 2 && Stands("(" + (Print(d) + (op + file)), line, p)
    ensures InLine(Place(d, p + 1), |line|) && Text(Place(d, p + 1), line) == d
    ensures p + |Print(d)| + 3 + |file| <= |line| && line[p + |Print(d)| + 3..p + |Print(d)| + 3 + |file|] == file
    decreases Size(d), 2
  {
    hide Print, Place, Text, InLine;
    StandsBoth("(", Print(d) + (op + file), line, p);
    StandsBoth(Print(d), op + file, line, p + 1);
    StandsBoth(op, file, line, p + 1 + |Print(d)|);
    Reads(d, line, p + 1);
  }

  lemma {:induction false} PairReads(l: Cmd<string>, between: string, r: Cmd<string>, line: string, p: nat)
    requires |between| == 3 && Stands("(" + (Print(l) + (between + (Print(r) + ")"))), line, p)
    ensures InLine(Place(l, p + 1), |line|) && Text(Place(l, p + 1), line) == l
    ensures InLine(Place(r, p + |Print(l)| + 4), |line|) && Text(Place(r, p + |Print(l)| + 4), line) == r
    decreases Size(l) + Size(r), 2
  {
    hide Print, Stands, Place, Text, InLine;
    StandsBoth("(", Print(l) + (between + (Print(r) + ")")), line, p);
    StandsBoth(Print(l), between + (Print(r) + ")"), line, p + 1);
    StandsBoth(between, Print(r) + ")", line, p + 1 + |Print(l)|);
    StandsBoth(Print(r), ")", line, p + 4 + |Print(l)|);
    Reads(l, line, p + 1);
    Reads(r, line, p + |Print(l)| + 4);
  }

  lemma {:induction false} PlaceFewArgs(c: Cmd<string>, p: nat)
    requires Good(c)
    ensures FewArgs(Place(c, p))
    decreases c
  {
    match c
    case Exec(_) =>
    case Redir(d, _, _) => PlaceFewArgs(d, p + 1);
    case Pipe(l, r) => PlaceFewArgs(l, p + 1); PlaceFewArgs(r, p + |Print(l)| + 4);
    case List(l, r) => PlaceFewArgs(l, p + 1); PlaceFewArgs(r, p + |Print(l)| + 4);
    case Back(d) => PlaceFewArgs(d, p + 1);
  }

  lemma {:induction false} SpacesEnd(line: string, p: nat)
    requires p <= |line| && forall k | p <= k < |line| :: Space(line[k])
    ensures Tokens(line, p) == []
    decreases |line| - p
  {
    if p < |line| {
      LexSpace(line, p);
      SpacesEnd(line, p + 1);
    }
  }

  /** Parsing what is printed of a command, with the end of line after it, returns the command, whatever it is. */
  lemma RoundTrip(c: Cmd<string>, end: string)
    requires Good(c) && forall k | 0 <= k < |end| :: Space(end[k])
    ensures var line := Print(c) + end;
            var r := ParseLine(Tokens(line, 0));
            r.Ok? && r.rest == [] && InLine(r.cmd, |line|) && Text(r.cmd, line) == c
  {
    hide ParseLine, Print, Good, Tokens;
    var line := Print(c) + end;
    assert line[0..0 + |Print(c)|] == Print(c);
    Lex(c, line, 0);
    SpacesEnd(line, |Print(c)|);
    PlaceFewArgs(c, 0);
    ParsesLine(Place(c, 0), []);
    assert TokensOf(Place(c, 0)) + [] == TokensOf(Place(c, 0));
    Reads(c, line, 0);
  }

  // ---------- Either output redirection

  predicate Output(t: Token) {
    t == Sym('>') || t == Append
  }

  /** The same tokens, but that > may stand for >> and the other way round. */
  predicate Alike(ts: seq<Token>, us: seq<Token>) {
    |ts| == |us| && forall k | 0 <= k < |ts| :: ts[k] == us[k] || (Output(ts[k]) && Output(us[k]))
  }

  predicate SameParse(r: Parse, s: Parse) {
    if r.Ok? then s.Ok? && s.cmd == r.cmd && Alike(r.rest, s.rest) else s == SyntaxError
  }

  lemma LexAppend(line: string, p: nat)
    requires p + 1 < |line| && line[p] == '>' && line[p + 1] == '>'
    ensures Tokens(line, p) == [Append] + Tokens(line, p + 2)
  {
  }

  lemma AlikeRest(ts: seq<Token>, us: seq<Token>, n: nat)
    requires Alike(ts, us) && n <= |ts|
    ensures Alike(ts[n..], us[n..])
  {
  }

  lemma AlikeFirst(ts: seq<Token>, us: seq<Token>)
    requires Alike(ts, us)
    ensures forall c | c != '>' :: Starts(ts, c) <==> Starts(us, c)
    ensures EndsArgs(ts) <==> EndsArgs(us)
    ensures StartsRedir(ts) <==> StartsRedir(us)
    ensures forall k | 0 <= k < |ts| :: ts[k].Word? || us[k].Word? ==> us[k] == ts[k]
  {
  }

  lemma {:induction false} AlikeRedirs(c: Cmd<Span>, ts: seq<Token>, us: seq<Token>)
    requires Alike(ts, us)
    ensures SameParse(ParseRedirs(c, ts), ParseRedirs(c, us))
    decreases |ts|
  {
    hide Starts, EndsArgs, Alike;
    AlikeLength(ts, us);
    AlikeFirst(ts, us);
    if StartsRedir(ts) && |ts| >= 2 && ts[1].Word? {
      AlikeRest(ts, us, 2);
      assert (ts[0] != Sym('<')) == (us[0] != Sym('<')) by { AlikeInput(ts, us); }
      AlikeRedirs(Redir(c, ts[1].at, ts[0] != Sym('<')), ts[2..], us[2..]);
    }
  }

  lemma AlikeLength(ts: seq<Token>, us: seq<Token>)
    requires Alike(ts, us)
    ensures |ts| == |us|
  {
  }

  lemma AlikeInput(ts: seq<Token>, us: seq<Token>)
    requires Alike(ts, us) && ts != []
    ensures us != [] && (ts[0] == Sym('<') <==> us[0] == Sym('<'))
  {
  }

  lemma {:induction false} AlikeArgs(c: Cmd<Span>, ts: seq<Token>, us: seq<Token>)
    requires Alike(ts, us)
    ensures SameParse(ParseArgs(c, ts), ParseArgs(c, us))
    decreases |ts|
  {
    hide EndsArgs, Alike, ParseRedirs;
    AlikeLength(ts, us);
    AlikeFirst(ts, us);
    assert ts == [] ==> EndsArgs(ts) by { EmptyEnds(); }
    if !EndsArgs(ts) && ts[0].Word? && Argc(c) + 1 < MAXARGS {
      AlikeRest(ts, us, 1);
      AlikeRedirs(AddArg(c, ts[0].at), ts[1..], us[1..]);
      match ParseRedirs(AddArg(c, ts[0].at), ts[1..])
      case SyntaxError =>
      case Ok(d, rest) => AlikeArgs(d, rest, ParseRedirs(AddArg(c, ts[0].at), us[1..]).rest);
    }
  }

  lemma EmptyEnds()
    ensures EndsArgs([])
  {
  }

  lemma {:induction false} AlikeExec(ts: seq<Token>, us: seq<Token>)
    requires Alike(ts, us)
    ensures SameParse(ParseExec(ts), ParseExec(us))
    decreases |ts|, 1
  {
    hide Alike, ParseRedirs, ParseArgs, ParseLine;
    AlikeLength(ts, us);
    AlikeFirst(ts, us);
    if Starts(ts, '(') {
      AlikeRest(ts, us, 1);
      AlikeLine(ts[1..], us[1..]);
      match ParseLine(ts[1..])
      case SyntaxError =>
      case Ok(c, rest) =>
        var rest' := ParseLine(us[1..]).rest;
        AlikeFirst(rest, rest');
        if Starts(rest, ')') {
          AlikeRest(rest, rest', 1);
          AlikeRedirs(c, rest[1..], rest'[1..]);
        }
    } else {
      AlikeRedirs(Exec([]), ts, us);
      match ParseRedirs(Exec([]), ts)
      case SyntaxError =>
      case Ok(c, rest) => AlikeArgs(c, rest, ParseRedirs(Exec([]), us).rest);
    }
  }

  lemma {:induction false} AlikePipe(ts: seq<Token>, us: seq<Token>)
    requires Alike(ts, us)
    ensures SameParse(ParsePipe(ts), ParsePipe(us))
    decreases |ts|, 2
  {
    hide Alike, ParseExec;
    AlikeLength(ts, us);
    AlikeExec(ts, us);
    match ParseExec(ts)
    case SyntaxError =>
    case Ok(c, rest) =>
      var rest' := ParseExec(us).rest;
      AlikeFirst(rest, rest');
      if Starts(rest, '|') {
        AlikeRest(rest, rest', 1);
        AlikePipe(rest[1..], rest'[1..]);
      }
  }

  lemma {:induction false} AlikeBacks(c: Cmd<Span>, ts: seq<Token>, us: seq<Token>)
    requires Alike(ts, us)
    ensures SameParse(Backs(c, ts), Backs(c, us))
    decreases |ts|
  {
    hide Alike;
    AlikeLength(ts, us);
    AlikeFirst(ts, us);
    if Starts(ts, '&') {
      AlikeRest(ts, us, 1);
      AlikeBacks(Back(c), ts[1..], us[1..]);
    }
  }

  /** A line parses to the same command, or fails to parse, with any of its > written >> and any >> written >. */
  lemma {:induction false} AlikeLine(ts: seq<Token>, us: seq<Token>)
    requires Alike(ts, us)
    ensures SameParse(ParseLine(ts), ParseLine(us))
    decreases |ts|, 3
  {
    hide Alike, ParsePipe, Backs;
    AlikeLength(ts, us);
    AlikePipe(ts, us);
    match ParsePipe(ts)
    case SyntaxError =>
    case Ok(c, rest) =>
      AlikeBacks(c, rest, ParsePipe(us).rest);
      var b, b' := Backs(c, rest), Backs(c, ParsePipe(us).rest);
      AlikeFirst(b.rest, b'.rest);
      if Starts(b.rest, ';') {
        AlikeRest(b.rest, b'.rest, 1);
        AlikeLine(b.rest[1..], b'.rest[1..]);
      }
  }

  // ---------- What a parse uses up

  /** Parentheses opened less those closed. */
  function Depth(ts: seq<Token>): int {
    if ts == [] then 0 else (if ts[0] == Sym('(') then 1 else if ts[0] == Sym(')') then -1 else 0) + Depth(ts[1..])
  }

  function WordCount(ts: seq<Token>): nat {
    if ts == [] then 0 else (if ts[0].Word? then 1 else 0) + WordCount(ts[1..])
  }

  /** Arguments and files. */
  function WordsIn(c: Cmd<Span>): nat {
    match c
    case Exec(args) => |args|
    case Redir(d, _, _) => WordsIn(d) + 1
    case Pipe(l, r) => WordsIn(l) + WordsIn(r)
    case List(l, r) => WordsIn(l) + WordsIn(r)
    case Back(d) => WordsIn(d)
  }

  /** From a command with k words on, the parse has closed what it opened, and put each word into the command. */
  predicate UsedUp(k: nat, ts: seq<Token>, r: Parse) {
    r.Ok? ==> Depth(ts) == Depth(r.rest) && k + WordCount(ts) == WordsIn(r.cmd) + WordCount(r.rest)
  }

  lemma FirstUsed(ts: seq<Token>)
    requires ts != []
    ensures Depth(ts) == (if ts[0] == Sym('(') then 1 else if ts[0] == Sym(')') then -1 else 0) + Depth(ts[1..])
    ensures WordCount(ts) == (if ts[0].Word? then 1 else 0) + WordCount(ts[1..])
  {
  }

  lemma {:induction false} RedirsUse(c: Cmd<Span>, ts: seq<Token>)
    ensures UsedUp(WordsIn(c), ts, ParseRedirs(c, ts))
    ensures ParseRedirs(c, ts).Ok? ==> UnderRedirs(ParseRedirs(c, ts).cmd) == UnderRedirs(c)
    decreases |ts|
  {
    if StartsRedir(ts) && |ts| >= 2 && ts[1].Word? {
      FirstUsed(ts);
      FirstUsed(ts[1..]);
      assert ts[1..][1..] == ts[2..] && ts[1..][0] == ts[1];
      RedirsUse(Redir(c, ts[1].at, ts[0] != Sym('<')), ts[2..]);
    }
  }

  /** Whether words can be added: parseexec goes on only with its own execcmd. */
  predicate UnderRedirs(c: Cmd<Span>) {
    match c
    case Exec(_) => true
    case Redir(d, _, _) => UnderRedirs(d)
    case _ => false
  }

  lemma {:induction false} AddUses(c: Cmd<Span>, w: Span)
    requires UnderRedirs(c)
    ensures WordsIn(AddArg(c, w)) == WordsIn(c) + 1 && UnderRedirs(AddArg(c, w))
    decreases c
  {
    match c
    case Redir(d, _, _) => AddUses(d, w);
    case _ =>
  }

  lemma {:induction false} ArgsUse(c: Cmd<Span>, ts: seq<Token>)
    requires UnderRedirs(c)
    ensures UsedUp(WordsIn(c), ts, ParseArgs(c, ts))
    decreases |ts|
  {
    if !EndsArgs(ts) && ts[0].Word? && Argc(c) + 1 < MAXARGS {
      FirstUsed(ts);
      AddUses(c, ts[0].at);
      RedirsUse(AddArg(c, ts[0].at), ts[1..]);
      match ParseRedirs(AddArg(c, ts[0].at), ts[1..])
      case SyntaxError =>
      case Ok(d, rest) => ArgsUse(d, rest);
    }
  }

  lemma {:induction false} ExecUses(ts: seq<Token>)
    ensures UsedUp(0, ts, ParseExec(ts))
    decreases |ts|, 1
  {
    hide ParseRedirs, ParseArgs, ParseLine;
    if Starts(ts, '(') {
      FirstUsed(ts);
      LineUses(ts[1..]);
      match ParseLine(ts[1..])
      case SyntaxError =>
      case Ok(c, rest) =>
        if Starts(rest, ')') {
          FirstUsed(rest);
          RedirsUse(c, rest[1..]);
        }
    } else {
      RedirsUse(Exec([]), ts);
      match ParseRedirs(Exec([]), ts)
      case SyntaxError =>
      case Ok(c, rest) => ArgsUse(c, rest);
    }
  }

  lemma {:induction false} PipeUses(ts: seq<Token>)
    ensures UsedUp(0, ts, ParsePipe(ts))
    decreases |ts|, 2
  {
    hide ParseExec;
    ExecUses(ts);
    match ParseExec(ts)
    case SyntaxError =>
    case Ok(c, rest) =>
      if Starts(rest, '|') {
        FirstUsed(rest);
        PipeUses(rest[1..]);
      }
  }

  lemma {:induction false} BacksUse(c: Cmd<Span>, ts: seq<Token>)
    ensures UsedUp(WordsIn(c), ts, Backs(c, ts))
    decreases |ts|
  {
    if Starts(ts, '&') {
      FirstUsed(ts);
      BacksUse(Back(c), ts[1..]);
    }
  }

  /** What is parsed, whatever it is, has balanced parentheses, and each of its words is in the command. */
  lemma {:induction false} LineUses(ts: seq<Token>)
    ensures UsedUp(0, ts, ParseLine(ts))
    decreases |ts|, 3
  {
    hide ParsePipe, Backs;
    PipeUses(ts);
    match ParsePipe(ts)
    case SyntaxError =>
    case Ok(c, rest) =>
      BacksUse(c, rest);
      var b := Backs(c, rest);
      if Starts(b.rest, ';') {
        FirstUsed(b.rest);
        LineUses(b.rest[1..]);
      }
  }

  // ---------- Where a parsed command's words stand

  /** A word of a line: only ordinary characters, as many as there are. */
  predicate WordOf(at: Span, line: string) {
    && at.q < at.eq <= |line|
    && (forall k | at.q <= k < at.eq :: Ordinary(line[k]))
    && (at.eq < |line| ==> !Ordinary(line[at.eq]))
  }

  predicate TokensIn(ts: seq<Token>, line: string) {
    forall k | 0 <= k < |ts| :: ts[k].Word? ==> WordOf(ts[k].at, line)
  }

  predicate WordsOf(c: Cmd<Span>, line: string) {
    match c
    case Exec(args) => forall k | 0 <= k < |args| :: WordOf(args[k], line)
    case Redir(d, file, _) => WordsOf(d, line) && WordOf(file, line)
    case Pipe(l, r) => WordsOf(l, line) && WordsOf(r, line)
    case List(l, r) => WordsOf(l, line) && WordsOf(r, line)
    case Back(d) => WordsOf(d, line)
  }

  predicate ParsedIn(r: Parse, line: string) {
    r.Ok? ==> WordsOf(r.cmd, line) && TokensIn(r.rest, line)
  }

  lemma {:induction false} TokensAreWords(line: string, p: nat)
    requires p <= |line| && '\0' !in line
    ensures TokensIn(Tokens(line, p), line)
    decreases |line| - p
  {
    var s := SkipSpace(line, p);
    if s < |line| {
      TokensAreWords(line, TokenAt(line, s).1);
    }
  }

  lemma {:induction false} LineWords(ts: seq<Token>, line: string)
    requires TokensIn(ts, line)
    ensures ParsedIn(ParseLine(ts), line)
    decreases |ts|, 3
  {
    PipeWords(ts, line);
    match ParsePipe(ts)
    case SyntaxError =>
    case Ok(c, rest) =>
      BackWords(c, rest, line);
      var b := Backs(c, rest);
      if Starts(b.rest, ';') {
        LineWords(b.rest[1..], line);
      }
  }

  lemma {:induction false} BackWords(c: Cmd<Span>, ts: seq<Token>, line: string)
    requires WordsOf(c, line) && TokensIn(ts, line)
    ensures ParsedIn(Backs(c, ts), line)
    decreases |ts|
  {
    if Starts(ts, '&') {
      BackWords(Back(c), ts[1..], line);
    }
  }

  lemma {:induction false} PipeWords(ts: seq<Token>, line: string)
    requires TokensIn(ts, line)
    ensures ParsedIn(ParsePipe(ts), line)
    decreases |ts|, 2
  {
    ExecWords(ts, line);
    match ParseExec(ts)
    case SyntaxError =>
    case Ok(c, rest) =>
      if Starts(rest, '|') {
        PipeWords(rest[1..], line);
      }
  }

  lemma {:induction false} RedirWords(c: Cmd<Span>, ts: seq<Token>, line: string)
    requires WordsOf(c, line) && TokensIn(ts, line)
    ensures ParsedIn(ParseRedirs(c, ts), line)
    decreases |ts|
  {
    if StartsRedir(ts) && |ts| >= 2 && ts[1].Word? {
      RedirWords(Redir(c, ts[1].at, ts[0] != Sym('<')), ts[2..], line);
    }
  }

  lemma {:induction false} ExecWords(ts: seq<Token>, line: string)
    requires TokensIn(ts, line)
    ensures ParsedIn(ParseExec(ts), line)
    decreases |ts|, 1
  {
    if Starts(ts, '(') {
      LineWords(ts[1..], line);
      match ParseLine(ts[1..])
      case SyntaxError =>
      case Ok(c, rest) =>
        if Starts(rest, ')') {
          RedirWords(c, rest[1..], line);
        }
    } else {
      RedirWords(Exec([]), ts, line);
      match ParseRedirs(Exec([]), ts)
      case SyntaxError =>
      case Ok(c, rest) => ArgWords(c, rest, line);
    }
  }

  lemma {:induction false} ArgWords(c: Cmd<Span>, ts: seq<Token>, line: string)
    requires WordsOf(c, line) && TokensIn(ts, line)
    ensures ParsedIn(ParseArgs(c, ts), line)
    decreases |ts|
  {
    if !EndsArgs(ts) && ts[0].Word? && Argc(c) + 1 < MAXARGS {
      AddedWord(c, ts[0].at, line);
      RedirWords(AddArg(c, ts[0].at), ts[1..], line);
      match ParseRedirs(AddArg(c, ts[0].at), ts[1..])
      case SyntaxError =>
      case Ok(d, rest) => ArgWords(d, rest, line);
    }
  }

  lemma {:induction false} AddedWord(c: Cmd<Span>, w: Span, line: string)
    requires WordsOf(c, line) && WordOf(w, line)
    ensures WordsOf(AddArg(c, w), line)
    decreases c
  {
    match c
    case Redir(d, _, _) => AddedWord(d, w, line);
    case _ =>
  }

  // ---------- NUL-terminated words

  /** Where nulterminate puts a zero. */
  function Ends(c: Cmd<Span>): set<nat> {
    match c
    case Exec(args) => set k | 0 <= k < |args| :: args[k].eq
    case Redir(d, file, _) => Ends(d) + {file.eq}
    case Pipe(l, r) => Ends(l) + Ends(r)
    case List(l, r) => Ends(l) + Ends(r)
    case Back(d) => Ends(d)
  }

  /** The C string that starts at q. */
  function CString(buf: string, q: nat): string
    decreases |buf| - q
  {
    if q >= |buf| || buf[q] == '\0' then "" else [buf[q]] + CString(buf, q + 1)
  }

  /** The words of a command as exec and open will read them. */
  function ReadBack(c: Cmd<Span>, buf: string): Cmd<string> {
    match c
    case Exec(args) => Exec(seq(|args|, k requires 0 <= k < |args| => CString(buf, args[k].q)))
    case Redir(d, file, out) => Redir(ReadBack(d, buf), CString(buf, file.q), out)
    case Pipe(l, r) => Pipe(ReadBack(l, buf), ReadBack(r, buf))
    case List(l, r) => List(ReadBack(l, buf), ReadBack(r, buf))
    case Back(d) => Back(ReadBack(d, buf))
  }

  /** A line in its buffer once there are zeroes at some places, none of them inside a word. */
  predicate Cut(line: string, buf: string, ends: set<nat>) {
    && |line| < |buf|
    && (forall k | 0 <= k < |line| && Ordinary(line[k]) :: buf[k] == line[k])
    && (forall k: nat | k in ends :: k <= |line| && buf[k] == '\0')
  }

  lemma {:induction false} CStringIs(line: string, buf: string, q: nat, eq: nat)
    requires q <= eq <= |line| < |buf| && buf[eq] == '\0'
    requires forall k | q <= k < eq :: Ordinary(line[k]) && buf[k] == line[k]
    ensures CString(buf, q) == line[q..eq]
    decreases eq - q
  {
    if q < eq {
      CStringIs(line, buf, q + 1, eq);
      assert line[q..eq] == [line[q]] + line[q + 1..eq];
    }
  }

  lemma {:induction false} CutReads(c: Cmd<Span>, line: string, buf: string, ends: set<nat>)
    requires WordsOf(c, line) && Cut(line, buf, ends) && Ends(c) <= ends
    ensures InLine(c, |line|) && ReadBack(c, buf) == Text(c, line)
    decreases c
  {
    match c
    case Exec(args) =>
      forall k | 0 <= k < |args| ensures CString(buf, args[k].q) == line[args[k].q..args[k].eq] {
        assert args[k].eq in Ends(c);
        CStringIs(line, buf, args[k].q, args[k].eq);
      }
    case Redir(d, file, _) =>
      assert file.eq in Ends(c);
      CStringIs(line, buf, file.q, file.eq);
      CutReads(d, line, buf, ends);
    case Pipe(l, r) => CutReads(l, line, buf, ends); CutReads(r, line, buf, ends);
    case List(l, r) => CutReads(l, line, buf, ends); CutReads(r, line, buf, ends);
    case Back(d) => CutReads(d, line, buf, ends);
  }

  /** No zero is put inside a word. */
  lemma {:induction false} EndsOutside(c: Cmd<Span>, line: string, k: nat)
    requires WordsOf(c, line) && k in Ends(c)
    ensures k <= |line| && (k < |line| ==> !Ordinary(line[k]))
    decreases c
  {
    match c
    case Exec(args) =>
    case Redir(d, file, _) => if k != file.eq { EndsOutside(d, line, k); }
    case Pipe(l, r) => if k in Ends(l) { EndsOutside(l, line, k); } else { EndsOutside(r, line, k); }
    case List(l, r) => if k in Ends(l) { EndsOutside(l, line, k); } else { EndsOutside(r, line, k); }
    case Back(d) => EndsOutside(d, line, k);
  }
}
