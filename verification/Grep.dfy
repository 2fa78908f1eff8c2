/** The pattern matcher of grep (grep.c): ^ . * $ and literal characters.  A pointer into a C string is the rest of the
    string from there, without its terminating zero, so strings contain no zero character. */
module Grep {

  // ---------- What a pattern means

  /** Characters that one pattern character stands for. */
  datatype Class = Any | Lit(c: char)

  /** A pattern is a list of parts: one character, any number of them, or the end of the text. */
  datatype Part = One(cls: Class) | Many(cls: Class) | End

  predicate In(cls: Class, x: char) {
    cls.Any? || cls.c == x
  }

  function ClassOf(c: char): Class {
    if c == '.' then Any else Lit(c)
  }

  /** A $ is the end of the text only where the pattern ends, and a * repeats whatever character stands before it. */
  function Parts(re: string): seq<Part> {
    if re == "" then []
    else if |re| > 1 && re[1] == '*' then [Many(ClassOf(re[0]))] + Parts(re[2..])
    else if re == "$" then [End]
    else [One(ClassOf(re[0]))] + Parts(re[1..])
  }

  /** The strings that a part stands for. */
  predicate Fits(part: Part, s: string) {
    match part
    case One(cls) => |s| == 1 && In(cls, s[0])
    case Many(cls) => forall k | 0 <= k < |s| :: In(cls, s[k])
    case End => s == ""
  }

  function Concat(pieces: seq<string>): string {
    if pieces == [] then "" else pieces[0] + Concat(pieces[1..])
  }

  /** The text begins with one string for each part, up to its end if the last part is $. */
  ghost predicate Splits(parts: seq<Part>, pieces: seq<string>, text: string) {
    && |pieces| == |parts|
    && (forall k | 0 <= k < |parts| :: Fits(parts[k], pieces[k]))
    && Concat(pieces) <= text
    && (End in parts ==> Concat(pieces) == text)
  }

  ghost predicate Begins(parts: seq<Part>, text: string) {
    exists pieces :: Splits(parts, pieces, text)
  }

  /** The text matches: from its beginning if the pattern starts with ^, and otherwise from anywhere. */
  ghost predicate Matches(re: string, text: string) {
    if re != "" && re[0] == '^' then Begins(Parts(re[1..]), text)
    else exists i :: 0 <= i <= |text| && Begins(Parts(re), text[i..])
  }

  // ---------- One part at a time

  lemma BeginsNothing(text: string)
    ensures Begins([], text)
  {
    assert Splits([], [], text);
  }

  lemma BeginsEnd(text: string)
    ensures Begins([End], text) <==> text == ""
  {
    if text == "" {
      assert Splits([End], [""], text);
    }
    if Begins([End], text) {
      var pieces :| Splits([End], pieces, text);
      assert Fits([End][0], pieces[0]);
      assert pieces[1..] == [];
      assert Concat(pieces) == pieces[0] + Concat(pieces[1..]);
      assert [End][0] == End;
    }
  }

  /** A text that begins with a first piece and goes on with the rest begins with them all. */
  lemma Prepend(part: Part, rest: seq<Part>, s: string, text: string)
    requires s <= text && Fits(part, s) && Begins(rest, text[|s|..]) && part != End
    ensures Begins([part] + rest, text)
  {
    var pieces :| Splits(rest, pieces, text[|s|..]);
    var all, parts := [s] + pieces, [part] + rest;
    assert all[1..] == pieces;
    assert text == s + text[|s|..];
    forall k | 0 <= k < |parts| ensures Fits(parts[k], all[k]) {
      if k > 0 { assert parts[k] == rest[k - 1] && all[k] == pieces[k - 1]; }
    }
    assert End in parts ==> End in rest;
    assert Splits(parts, all, text);
  }

  lemma Behead(part: Part, rest: seq<Part>, text: string) returns (s: string)
    requires Begins([part] + rest, text) && part != End
    ensures s <= text && Fits(part, s) && Begins(rest, text[|s|..])
  {
    var parts := [part] + rest;
    var pieces :| Splits(parts, pieces, text);
    s := pieces[0];
    assert Fits(parts[0], pieces[0]);
    forall k | 0 <= k < |rest| ensures Fits(rest[k], pieces[1..][k]) {
      assert Fits(parts[k + 1], pieces[k + 1]);
    }
    if End in rest {
      var k :| 0 <= k < |rest| && rest[k] == End;
      assert parts[k + 1] == End;
    }
    assert Splits(rest, pieces[1..], text[|s|..]);
  }

  lemma BeginsOne(cls: Class, rest: seq<Part>, text: string)
    ensures Begins([One(cls)] + rest, text) <==> text != "" && In(cls, text[0]) && Begins(rest, text[1..])
  {
    if Begins([One(cls)] + rest, text) {
      var s := Behead(One(cls), rest, text);
    }
    if text != "" && In(cls, text[0]) && Begins(rest, text[1..]) {
      Prepend(One(cls), rest, text[..1], text);
    }
  }

  lemma BeginsMany(cls: Class, rest: seq<Part>, text: string)
    ensures Begins([Many(cls)] + rest, text) <==>
            exists k :: 0 <= k <= |text| && Fits(Many(cls), text[..k]) && Begins(rest, text[k..])
  {
    if Begins([Many(cls)] + rest, text) {
      var s := Behead(Many(cls), rest, text);
      assert text[..|s|] == s;
    }
    if k :| 0 <= k <= |text| && Fits(Many(cls), text[..k]) && Begins(rest, text[k..]) {
      Prepend(Many(cls), rest, text[..k], text);
    }
  }

  // ---------- Patterns in plain words

  /** No character of the pattern stands for anything but itself. */
  predicate Plain(re: string) {
    forall k | 0 <= k < |re| :: re[k] != '^' && re[k] != '.' && re[k] != '*' && re[k] != '$'
  }

  /** With or without a $ behind it, a plain pattern stands for itself. */
  lemma {:induction false} PlainBegins(re: string, text: string)
    requires Plain(re)
    ensures Begins(Parts(re), text) <==> re <= text
    ensures Begins(Parts(re + "$"), text) <==> text == re
  {
    if re == "" {
      BeginsNothing(text);
      assert re + "$" == "$";
      BeginsEnd(text);
    } else {
      var rest := re[1..];
      assert (re + "$")[1..] == rest + "$" && (re + "$")[0] == re[0];
      assert re != "$" && re + "$" != "$";
      BeginsOne(ClassOf(re[0]), Parts(rest), text);
      BeginsOne(ClassOf(re[0]), Parts(rest + "$"), text);
      assert re == [re[0]] + rest;
      if text != "" {
        assert text == [text[0]] + text[1..];
        PlainBegins(rest, text[1..]);
      }
    }
  }

  /** A plain pattern is searched for as it is: anywhere, at the beginning, at the end, or as the whole text. */
  lemma PlainSearch(re: string, text: string)
    requires Plain(re)
    ensures Matches(re, text) <==> exists i :: 0 <= i <= |text| && re <= text[i..]
    ensures Matches("^" + re, text) <==> re <= text
    ensures Matches(re + "$", text) <==> exists i :: 0 <= i <= |text| && re == text[i..]
    ensures Matches("^" + re + "$", text) <==> text == re
  {
    hide Begins, Parts;
    assert ("^" + re)[1..] == re && ("^" + re + "$")[1..] == re + "$";
    assert re + "$" != "" && (re + "$")[0] != '^';
    PlainBegins(re, text);
    forall i | 0 <= i <= |text|
      ensures Begins(Parts(re), text[i..]) <==> re <= text[i..]
      ensures Begins(Parts(re + "$"), text[i..]) <==> re == text[i..]
    {
      PlainBegins(re, text[i..]);
    }
  }

  /** A dot passes over any character, and .* over any number of any characters. */
  lemma Wildcards(re: string, text: string)
    requires re == "" || re[0] != '*'
    ensures Begins(Parts("." + re), text) <==> text != "" && Begins(Parts(re), text[1..])
    ensures Begins(Parts(".*" + re), text) <==> exists k :: 0 <= k <= |text| && Begins(Parts(re), text[k..])
  {
    hide Begins;
    assert ("." + re)[1..] == re && (".*" + re)[2..] == re;
    assert ("." + re)[0] == '.' && (".*" + re)[0] == '.' && (".*" + re)[1] == '*';
    BeginsOne(Any, Parts(re), text);
    BeginsMany(Any, Parts(re), text);
  }

  /** A search from anywhere is one from the beginning with .* in front. */
  lemma AnywhereIsDotStar(re: string, text: string)
    requires re == "" || (re[0] != '^' && re[0] != '*')
    ensures Matches(re, text) <==> Matches("^.*" + re, text)
  {
    hide Begins, Parts;
    assert ("^.*" + re)[1..] == ".*" + re;
    Wildcards(re, text);
  }

  /** A character before a * is passed over as often as it comes, or not at all. */
  lemma Repeats(c: char, re: string, text: string)
    requires c != '.'
    ensures Begins(Parts([c] + "*" + re), text) <==>
            Begins(Parts(re), text) || (text != "" && text[0] == c && Begins(Parts([c] + "*" + re), text[1..]))
  {
    hide Begins;
    var many := [Many(Lit(c))] + Parts(re);
    assert ([c] + "*" + re)[2..] == re;
    assert Parts([c] + "*" + re) == many;
    BeginsMany(Lit(c), Parts(re), text);
    assert text[0..] == text && Fits(Many(Lit(c)), text[..0]);
    if text != "" {
      BeginsMany(Lit(c), Parts(re), text[1..]);
      if k :| 0 <= k <= |text| && Fits(Many(Lit(c)), text[..k]) && Begins(Parts(re), text[k..]) {
        if k > 0 {
          assert text[1..][k - 1..] == text[k..] && text[1..][..k - 1] == text[1..k];
          assert text[..k][0] == text[0];
          var tail := text[1..][..k - 1];
          forall m | 0 <= m < |tail| ensures tail[m] == c {
            assert tail[m] == text[..k][m + 1];
          }
        }
      }
      if text[0] == c && Begins(many, text[1..]) {
        var k :| 0 <= k <= |text| - 1 && Fits(Many(Lit(c)), text[1..][..k]) && Begins(Parts(re), text[1..][k..]);
        assert text[1..][k..] == text[k + 1..];
        var head := text[..k + 1];
        forall m | 0 <= m < |head| ensures head[m] == c {
          if m > 0 { assert text[1..][..k][m - 1] == head[m]; }
        }
      }
    }
  }

  // ---------- The matcher

  /** match: a text is accepted exactly when it matches, and the search ends. */
  method Match(re: string, text: string) returns (found: bool)
    ensures found <==> Matches(re, text)
  {
    if re != "" && re[0] == '^' {
      found := MatchHere(re[1..], text);
      return;
    }
    var i := 0;
    while true
      invariant 0 <= i <= |text|
      invariant forall j | 0 <= j < i :: !Begins(Parts(re), text[j..])
      decreases |text| - i
    {
      found := MatchHere(re, text[i..]);
      if found {
        return;
      }
      if i == |text| {
        break;
      }
      i := i + 1;
    }
    found := false;
  }

  /** matchhere: whether the text begins with what the pattern stands for. */
  method MatchHere(re: string, text: string) returns (found: bool)
    ensures found <==> Begins(Parts(re), text)
    decreases |re|, 0
  {
    if re == "" {
      BeginsNothing(text);
      return true;
    }
    if |re| > 1 && re[1] == '*' {
      found := MatchStar(re[0], re[2..], text);
      return;
    }
    if re == "$" {
      BeginsEnd(text);
      return text == "";
    }
    BeginsOne(ClassOf(re[0]), Parts(re[1..]), text);
    if text != "" && (re[0] == '.' || re[0] == text[0]) {
      found := MatchHere(re[1..], text[1..]);
      return;
    }
    found := false;
  }

  /** matchstar: any number of c, as few as will do, and then the pattern. */
  method MatchStar(c: char, re: string, text: string) returns (found: bool)
    ensures found <==> Begins([Many(ClassOf(c))] + Parts(re), text)
    decreases |re|, 1
  {
    BeginsMany(ClassOf(c), Parts(re), text);
    var i := 0;
    while true
      invariant 0 <= i <= |text|
      invariant Fits(Many(ClassOf(c)), text[..i])
      invariant forall j | 0 <= j < i :: !Begins(Parts(re), text[j..])
      decreases |text| - i
    {
      found := MatchHere(re, text[i..]);
      if found {
        return;
      }
      if i == |text| {
        break;
      }
      var x := text[i];
      if x != c && c != '.' {
        break;
      }
      i := i + 1;
    }
    assert i < |text| ==> forall k | i < k <= |text| :: text[..k][i] == text[i];
    found := false;
  }
}
