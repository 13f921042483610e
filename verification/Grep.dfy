/**
 The matcher of grep.c.  A C string is the sequence of its characters before the NUL, so that
 re[0] == '\0' reads |re| == 0.
 */
module Grep {
  // ----- What a pattern means -----

  datatype Item = One(c: char) | Star(c: char) | End

  /** The items of a pattern: '$' is special only at the end, '*' only behind a character. */
  function Items(re: string): seq<Item> {
    if |re| == 0 then []
    else if |re| >= 2 && re[1] == '*' then [Star(re[0])] + Items(re[2..])
    else if re == "$" then [End]
    else [One(re[0])] + Items(re[1..])
  }

  predicate Is(c: char, x: char) {
    c == '.' || c == x
  }

  predicate Run(c: char, w: string) {
    forall i :: 0 <= i < |w| ==> Is(c, w[i])
  }

  predicate Fits(item: Item, w: string) {
    match item
    case One(c) => |w| == 1 && Is(c, w[0])
    case Star(c) => Run(c, w)
    case End => w == ""
  }

  function Concat(parts: seq<string>): string {
    if parts == [] then "" else parts[0] + Concat(parts[1..])
  }

  /** The items match a beginning of the text piece by piece, all of it when the last item is the end mark. */
  ghost predicate Split(items: seq<Item>, parts: seq<string>, text: string) {
    && |parts| == |items| && (forall i :: 0 <= i < |items| ==> Fits(items[i], parts[i]))
    && Concat(parts) <= text && (End in items ==> Concat(parts) == text)
  }

  ghost predicate Here(re: string, text: string) {
    exists parts :: Split(Items(re), parts, text)
  }

  /** A pattern with a leading '^' matches at the beginning, any other at some position. */
  ghost predicate Somewhere(re: string, text: string) {
    if |re| > 0 && re[0] == '^' then Here(re[1..], text)
    else exists k :: 0 <= k <= |text| && Here(re, text[k..])
  }

  // ----- One item at a time -----

  lemma EmptyMatches(text: string)
    ensures Here("", text)
  {
    assert Split(Items(""), [], text);
  }

  lemma EndMatches(text: string)
    ensures Here("$", text) <==> text == ""
  {
    assert Items("$") == [End];
    if Here("$", text) {
      var parts :| Split(Items("$"), parts, text);
      assert parts == [parts[0]] && Fits(End, parts[0]) && Concat(parts) == parts[0] + Concat(parts[1..]);
    }
    if text == "" {
      assert Concat([""]) == "" + Concat([""][1..]);
      assert Split(Items("$"), [""], text);
    }
  }

  /** The first piece, and the pieces of the rest against the rest of the text. */
  lemma SplitFirst(item: Item, items: seq<Item>, parts: seq<string>, text: string, k: nat)
    requires item != End && k <= |text|
    ensures |parts| > 0 && |parts[0]| == k ==>
              (Split([item] + items, parts, text) <==>
               Fits(item, parts[0]) && parts[0] == text[..k] && Split(items, parts[1..], text[k..]))
  {
    if |parts| > 0 && |parts[0]| == k {
      var all, rest := [item] + items, parts[1..];
      assert Concat(parts) == parts[0] + Concat(rest);
      assert End in all <==> End in items;
      if Split(all, parts, text) {
        assert Fits(all[0], parts[0]);
        assert text[..k] == Concat(parts)[..k] == parts[0];
        assert Concat(rest) == Concat(parts)[k..];
        forall i | 0 <= i < |items| ensures Fits(items[i], rest[i]) { assert Fits(all[i + 1], parts[i + 1]); }
      }
      if Fits(item, parts[0]) && parts[0] == text[..k] && Split(items, rest, text[k..]) {
        assert text == text[..k] + text[k..];
        forall i | 0 <= i < |all| ensures Fits(all[i], parts[i]) {
          if i > 0 { assert Fits(items[i - 1], rest[i - 1]); }
        }
      }
    }
  }

  ghost predicate StarHere(c: char, re: string, text: string) {
    exists k :: 0 <= k <= |text| && Run(c, text[..k]) && Here(re, text[k..])
  }

  lemma Cons(item: Item, re: string, rest: string, text: string, k: nat)
    requires item != End && Items(re) == [item] + Items(rest)
    requires k <= |text| && Fits(item, text[..k]) && Here(rest, text[k..])
    ensures Here(re, text)
  {
    var parts :| Split(Items(rest), parts, text[k..]);
    var all := [text[..k]] + parts;
    assert all[1..] == parts;
    SplitFirst(item, Items(rest), all, text, k);
  }

  lemma Uncons(item: Item, re: string, rest: string, text: string) returns (k: nat)
    requires item != End && Items(re) == [item] + Items(rest) && Here(re, text)
    ensures k <= |text| && Fits(item, text[..k]) && Here(rest, text[k..])
  {
    var parts :| Split(Items(re), parts, text);
    k := |parts[0]|;
    assert Concat(parts) == parts[0] + Concat(parts[1..]);
    SplitFirst(item, Items(rest), parts, text, k);
  }

  lemma StarMatches(re: string, text: string)
    requires |re| >= 2 && re[1] == '*'
    ensures Here(re, text) <==> StarHere(re[0], re[2..], text)
  {
    if Here(re, text) {
      var k := Uncons(Star(re[0]), re, re[2..], text);
      assert Run(re[0], text[..k]);
    }
    if StarHere(re[0], re[2..], text) {
      var k :| 0 <= k <= |text| && Run(re[0], text[..k]) && Here(re[2..], text[k..]);
      Cons(Star(re[0]), re, re[2..], text, k);
    }
  }

  lemma OneMatches(re: string, text: string)
    requires |re| > 0 && !(|re| >= 2 && re[1] == '*') && re != "$"
    ensures Here(re, text) <==> |text| > 0 && Is(re[0], text[0]) && Here(re[1..], text[1..])
  {
    if Here(re, text) {
      var k := Uncons(One(re[0]), re, re[1..], text);
    }
    if |text| > 0 && Is(re[0], text[0]) && Here(re[1..], text[1..]) {
      Cons(One(re[0]), re, re[1..], text, 1);
    }
  }

  lemma RunStops(c: char, text: string, i: nat, k: nat)
    requires i < |text| && k <= |text| && !Is(c, text[i])
    ensures Run(c, text[..k]) ==> k <= i
  {
    if k > i { assert text[..k][i] == text[i]; }
  }

  // ----- The matcher -----

  method Match(re: string, text: string) returns (r: bool)
    ensures r <==> Somewhere(re, text)
  {
    if |re| > 0 && re[0] == '^' {
      r := MatchHere(re[1..], text);
      return;
    }
    var i := 0;
    while true
      invariant i <= |text| && forall k :: 0 <= k < i ==> !Here(re, text[k..])
      decreases |text| - i
    {
      var here := MatchHere(re, text[i..]);
      if here {
        return true;
      }
      if i == |text| {
        break;
      }
      i := i + 1;
    }
    return false;
  }

  method MatchHere(re: string, text: string) returns (r: bool)
    ensures r <==> Here(re, text)
    decreases |re|, |text|, 0
  {
    if |re| == 0 {
      EmptyMatches(text);
      return true;
    }
    if |re| > 1 && re[1] == '*' {
      StarMatches(re, text);
      r := MatchStar(re[0], re[2..], text);
      return;
    }
    if re[0] == '$' && |re| == 1 {
      assert re == "$";
      EndMatches(text);
      return |text| == 0;
    }
    OneMatches(re, text);
    if |text| > 0 && (re[0] == '.' || re[0] == text[0]) {
      r := MatchHere(re[1..], text[1..]);
      return;
    }
    return false;
  }

  method MatchStar(c: char, re: string, text: string) returns (r: bool)
    ensures r <==> StarHere(c, re, text)
    decreases |re|, |text|, 1
  {
    var i := 0;
    while true
      invariant i <= |text| && Run(c, text[..i]) && forall k :: 0 <= k < i ==> !Here(re, text[k..])
      decreases |text| - i
    {
      var here := MatchHere(re, text[i..]);
      if here {
        return true;
      }
      if i == |text| || !(text[i] == c || c == '.') {
        forall k | 0 <= k <= |text|
          ensures Run(c, text[..k]) ==> k <= i
        {
          if i < |text| { RunStops(c, text, i, k); }
        }
        return false;
      }
      i := i + 1;
    }
  }
}
