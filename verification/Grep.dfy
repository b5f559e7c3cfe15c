/** The regular-expression matcher of user/grep.c against the declarative meaning of a pattern. A char* is the
    string from there to the NUL. */
module Grep {

  datatype Item = One(c: char) | Star(c: char) | End

  /** A pattern as a sequence of items: c*, a trailing $, or a character, where . is any character. */
  function Items(re: string): seq<Item> {
    if re == "" then []
    else if |re| >= 2 && re[1] == '*' then [Star(re[0])] + Items(re[2..])
    else if re == "$" then [End]
    else [One(re[0])] + Items(re[1..])
  }

  predicate Accepts(c: char, x: char) {
    c == '.' || c == x
  }

  /** The piece w of the text is an instance of the item. */
  predicate Fits(item: Item, w: string) {
    match item
    case One(c) => |w| == 1 && Accepts(c, w[0])
    case Star(c) => forall k: nat :: k < |w| ==> Accepts(c, w[k])
    case End => w == ""
  }

  function Concat(ws: seq<string>): string {
    if ws == [] then "" else ws[0] + Concat(ws[1..])
  }

  /** The text starts with consecutive pieces that fit the items; with End, nothing follows them. */
  ghost predicate Splits(items: seq<Item>, text: string, ws: seq<string>) {
    && |ws| == |items| && (forall k: nat :: k < |ws| ==> Fits(items[k], ws[k]))
    && Concat(ws) <= text && (End in items ==> Concat(ws) == text)
  }

  ghost predicate Denotes(items: seq<Item>, text: string) {
    exists ws: seq<string> :: Splits(items, text, ws)
  }

  /** The meaning of a whole pattern: anchored by a leading ^, else anywhere in the text. */
  ghost predicate Matches(re: string, text: string) {
    if re != "" && re[0] == '^' then Denotes(Items(re[1..]), text)
    else exists k: nat :: k <= |text| && Denotes(Items(re), text[k..])
  }

  // ---------------------------------------------------------------- one item at a time

  lemma {:induction false} EndIsLast(re: string)
    ensures forall k: nat :: k < |Items(re)| && Items(re)[k] == End ==> k == |Items(re)| - 1
  {
    if re == "" {
    } else if |re| >= 2 && re[1] == '*' {
      EndIsLast(re[2..]);
    } else if re != "$" {
      EndIsLast(re[1..]);
    }
  }

  /** The first item takes a piece w off the text, the others the rest. */
  lemma DenotesCons(item: Item, items: seq<Item>, text: string, w: string, rest: string)
    requires Fits(item, w) && item != End && text == w + rest && Denotes(items, rest)
    ensures Denotes([item] + items, text)
  {
    var ws: seq<string> :| Splits(items, rest, ws);
    var vs := [w] + ws;
    assert vs[1..] == ws && Concat(vs) == w + Concat(ws);
    assert End in [item] + items <==> End in items;
    assert Splits([item] + items, text, vs);
  }

  lemma DenotesUncons(item: Item, items: seq<Item>, text: string) returns (w: string, rest: string)
    requires item != End && Denotes([item] + items, text)
    ensures Fits(item, w) && text == w + rest && Denotes(items, rest)
  {
    var vs: seq<string> :| Splits([item] + items, text, vs);
    w := vs[0];
    assert Concat(vs) == w + Concat(vs[1..]);
    rest := text[|w|..];
    assert ([item] + items)[0] == item;
    assert End in [item] + items <==> End in items;
    forall k: nat | k < |vs[1..]| ensures Fits(items[k], vs[1..][k]) {
      assert ([item] + items)[k + 1] == items[k];
    }
    assert text[..|w|] == w;
    assert Splits(items, rest, vs[1..]);
  }

  lemma DenotesNothing(text: string)
    ensures Denotes([], text) && (Denotes([End], text) <==> text == "")
  {
    assert Splits([], text, []);
    if text == "" {
      var ws := [""];
      assert ws[1..] == [] && Concat(ws) == "";
      assert Splits([End], text, ws);
    }
    if Denotes([End], text) {
      var ws: seq<string> :| Splits([End], text, ws);
      assert ws == [ws[0]] && Fits([End][0], ws[0]);
      assert ws[1..] == [] && Concat(ws) == "";
    }
  }

  lemma DenotesOne(c: char, items: seq<Item>, text: string)
    ensures Denotes([One(c)] + items, text) <==> text != "" && Accepts(c, text[0]) && Denotes(items, text[1..])
  {
    if text != "" && Accepts(c, text[0]) && Denotes(items, text[1..]) {
      DenotesCons(One(c), items, text, text[..1], text[1..]);
    }
    if Denotes([One(c)] + items, text) {
      var w, rest := DenotesUncons(One(c), items, text);
      assert text[1..] == rest;
    }
  }

  /** c* takes nothing, or one character and is tried again. */
  lemma DenotesStar(c: char, items: seq<Item>, text: string)
    ensures Denotes([Star(c)] + items, text) <==>
            Denotes(items, text) || (text != "" && Accepts(c, text[0]) && Denotes([Star(c)] + items, text[1..]))
  {
    if Denotes(items, text) {
      assert text == "" + text;
      DenotesCons(Star(c), items, text, "", text);
    }
    if text != "" && Accepts(c, text[0]) && Denotes([Star(c)] + items, text[1..]) {
      var w, rest := DenotesUncons(Star(c), items, text[1..]);
      assert text == [text[0]] + w + rest;
      DenotesCons(Star(c), items, text, [text[0]] + w, rest);
    }
    if Denotes([Star(c)] + items, text) {
      var w, rest := DenotesUncons(Star(c), items, text);
      if w == "" {
        assert text == rest;
      } else {
        assert text[1..] == w[1..] + rest;
        DenotesCons(Star(c), items, text[1..], w[1..], rest);
      }
    }
  }

  // ---------------------------------------------------------------- the code

  method MatchHere(re: string, text: string) returns (found: bool)
    ensures found <==> Denotes(Items(re), text)
    decreases |re|, 0
  {
    if re == "" {
      DenotesNothing(text);
      return true;
    }
    if |re| >= 2 && re[1] == '*' {
      found := MatchStar(re[0], re[2..], text);
      return;
    }
    if re == "$" {
      DenotesNothing(text);
      return text == "";
    }
    DenotesOne(re[0], Items(re[1..]), text);
    if text != "" && (re[0] == '.' || re[0] == text[0]) {
      found := MatchHere(re[1..], text[1..]);
      return;
    }
    return false;
  }

  method MatchStar(c: char, re: string, text: string) returns (found: bool)
    ensures found <==> Denotes([Star(c)] + Items(re), text)
    decreases |re|, 1
  {
    var t := text;
    while true
      invariant Denotes([Star(c)] + Items(re), t) <==> Denotes([Star(c)] + Items(re), text)
      decreases |t|
    {
      DenotesStar(c, Items(re), t);
      found := MatchHere(re, t);
      if found {
        return;
      }
      if t == "" || !(t[0] == c || c == '.') {
        return false;
      }
      t := t[1..];
    }
  }

  /** match. */
  method Match(re: string, text: string) returns (found: bool)
    ensures found <==> Matches(re, text)
  {
    if re != "" && re[0] == '^' {
      found := MatchHere(re[1..], text);
      return;
    }
    var k := 0;
    while k <= |text|
      invariant k <= |text| + 1 && forall j: nat :: j < k && j <= |text| ==> !Denotes(Items(re), text[j..])
    {
      found := MatchHere(re, text[k..]);
      if found {
        return;
      }
      k := k + 1;
    }
    return false;
  }
}
