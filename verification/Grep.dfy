/** The regular expression matcher of grep.c. A string here is what stands before the terminating NUL. */
module Grep {
  // ---- what a pattern means ---------------------------------------------------------------------------------

  /** `c`, `c*` and a final `$`; a `c` of '.' stands for any character. */
  datatype Item = One(c: char) | Many(c: char) | Eol

  predicate Accepts(c: char, x: char) {
    c == '.' || c == x
  }

  /** Stretches of text that an item stands for. */
  ghost predicate Denotes(item: Item, s: string) {
    match item
    case One(c) => |s| == 1 && Accepts(c, s[0])
    case Many(c) => forall i :: 0 <= i < |s| ==> Accepts(c, s[i])
    case Eol => s == []
  }

  ghost function Concat(parts: seq<string>): (s: string) {
    if parts == [] then [] else parts[0] + Concat(parts[1..])
  }

  /** `text` starts with one stretch for each item, and ends there if the pattern ends in `$`. */
  ghost predicate Split(items: seq<Item>, text: string, parts: seq<string>, rest: string) {
    && |parts| == |items| && text == Concat(parts) + rest
    && (forall i :: 0 <= i < |items| ==> Denotes(items[i], parts[i]))
    && (Eol in items ==> rest == [])
  }

  ghost predicate Begins(items: seq<Item>, text: string) {
    exists parts, rest :: Split(items, text, parts, rest)
  }

  /** The items of a pattern: a star binds to the character before it, `$` is special only at the end. */
  function Items(re: string): (items: seq<Item>) {
    if re == [] then []
    else if |re| > 1 && re[1] == '*' then [Many(re[0])] + Items(re[2..])
    else if re == "$" then [Eol]
    else [One(re[0])] + Items(re[1..])
  }

  /** A leading `^` ties the pattern to the start of the text. */
  ghost predicate Matches(re: string, text: string) {
    if re != [] && re[0] == '^' then Begins(Items(re[1..]), text)
    else exists k :: 0 <= k <= |text| && Begins(Items(re), text[k..])
  }

  // ---- how matching proceeds --------------------------------------------------------------------------------

  /** Only the last item can be the end of line. */
  lemma {:induction false} EolLast(re: string)
    ensures forall i :: 0 <= i < |Items(re)| - 1 ==> !Items(re)[i].Eol?
    decreases |re|
  {
    if re != [] && re != "$" {
      var tail := if |re| > 1 && re[1] == '*' then re[2..] else re[1..];
      EolLast(tail);
      var items, more := Items(re), Items(tail);
      assert items == [if |re| > 1 && re[1] == '*' then Many(re[0]) else One(re[0])] + more;
      forall i | 0 <= i < |items| - 1 ensures !items[i].Eol? {
        if i > 0 {
          assert items[i] == more[i - 1];
          assert !Items(tail)[i - 1].Eol?;
        }
      }
    }
  }

  lemma SplitHead(item: Item, items: seq<Item>, text: string, parts: seq<string>, rest: string)
    requires |parts| > 0 && item != Eol
    ensures Split([item] + items, text, parts, rest) <==>
              parts[0] <= text && Denotes(item, parts[0]) && Split(items, text[|parts[0]|..], parts[1..], rest)
  {
    var all := [item] + items;
    assert all[0] == item && all[1..] == items;
    assert Eol in all <==> Eol in items;
    if parts[0] <= text {
      assert text == parts[0] + text[|parts[0]|..];
    }
    assert Concat(parts) + rest == parts[0] + (Concat(parts[1..]) + rest);
    if parts[0] <= text && Split(items, text[|parts[0]|..], parts[1..], rest) {
      forall i | 0 <= i < |all| && i > 0 ensures all[i] == items[i - 1] && parts[i] == parts[1..][i - 1] {
      }
    }
    if Split(all, text, parts, rest) {
      forall i | 0 <= i < |items| ensures Denotes(items[i], parts[1..][i]) {
        assert Denotes(all[i + 1], parts[i + 1]);
      }
    }
  }

  /** A pattern begins a text when its first item takes some prefix and the others begin what is left. */
  lemma BeginsHead(item: Item, items: seq<Item>, text: string)
    requires item != Eol
    ensures Begins([item] + items, text) <==>
              exists k :: 0 <= k <= |text| && Denotes(item, text[..k]) && Begins(items, text[k..])
  {
    if Begins([item] + items, text) {
      var parts, rest :| Split([item] + items, text, parts, rest);
      SplitHead(item, items, text, parts, rest);
      var k := |parts[0]|;
      assert text[..k] == parts[0];
    }
    if k :| 0 <= k <= |text| && Denotes(item, text[..k]) && Begins(items, text[k..]) {
      var parts, rest :| Split(items, text[k..], parts, rest);
      var parts' := [text[..k]] + parts;
      assert parts'[0] == text[..k] && parts'[1..] == parts;
      SplitHead(item, items, text, parts', rest);
    }
  }

  lemma BeginsNil(text: string)
    ensures Begins([], text)
  {
    assert Split([], text, [], text);
  }

  lemma BeginsEol(text: string)
    ensures Begins([Eol], text) <==> text == []
  {
    if Begins([Eol], text) {
      var parts, rest :| Split([Eol], text, parts, rest);
      assert Eol in [Eol] && parts == [parts[0]] && [Eol][0] == Eol;
    }
    assert Split([Eol], [], [[]], []);
  }

  lemma BeginsOne(c: char, items: seq<Item>, text: string)
    ensures Begins([One(c)] + items, text) <==> text != [] && Accepts(c, text[0]) && Begins(items, text[1..])
  {
    BeginsHead(One(c), items, text);
    if text != [] && Accepts(c, text[0]) && Begins(items, text[1..]) {
      assert Denotes(One(c), text[..1]);
    }
  }

  lemma StarStops(c: char, text: string, t: nat)
    requires t < |text| ==> !Accepts(c, text[t])
    ensures forall k :: t < k <= |text| ==> !Denotes(Many(c), text[..k])
  {
    forall k | t < k <= |text| ensures !Denotes(Many(c), text[..k]) {
      assert text[..k][t] == text[t];
    }
  }

  // ---- the matcher ------------------------------------------------------------------------------------------

  /** match: 1 exactly when the pattern matches somewhere in the text. */
  method Match(re: string, text: string) returns (b: bool)
    ensures b <==> Matches(re, text)
  {
    if re != [] && re[0] == '^' {
      b := MatchHere(re[1..], text);
      return;
    }
    var t := 0;
    while true
      invariant 0 <= t <= |text| && forall k :: 0 <= k < t ==> !Begins(Items(re), text[k..])
      decreases |text| - t
    {
      b := MatchHere(re, text[t..]);
      if b {
        return;
      }
      if t == |text| {
        return false;
      }
      t := t + 1;
    }
  }

  /** matchhere */
  method MatchHere(re: string, text: string) returns (b: bool)
    ensures b <==> Begins(Items(re), text)
    decreases |re|, 0
  {
    if re == [] {
      BeginsNil(text);
      return true;
    }
    if |re| > 1 && re[1] == '*' {
      b := MatchStar(re[0], re[2..], text);
      return;
    }
    if re == "$" {
      BeginsEol(text);
      return text == [];
    }
    BeginsOne(re[0], Items(re[1..]), text);
    if text != [] && (re[0] == '.' || re[0] == text[0]) {
      b := MatchHere(re[1..], text[1..]);
      return;
    }
    return false;
  }

  /** matchstar: zero or more of `c`, then the rest. */
  method MatchStar(c: char, re: string, text: string) returns (b: bool)
    ensures b <==> Begins([Many(c)] + Items(re), text)
    decreases |re|, 1
  {
    hide Begins, Items;
    BeginsHead(Many(c), Items(re), text);
    var t := 0;
    while true
      invariant 0 <= t <= |text| && Denotes(Many(c), text[..t])
      invariant forall k :: 0 <= k < t ==> !Begins(Items(re), text[k..])
      decreases |text| - t
    {
      b := MatchHere(re, text[t..]);
      if b {
        return;
      }
      if t == |text| || !(text[t] == c || c == '.') {
        StarStops(c, text, t);
        return;
      }
      t := t + 1;
    }
  }
}
