/**
 Scopes and roles from token claims. A text is split on commas and then each piece on spaces; blanks and duplicates are
 dropped.
 */
module Claims {
  import opened Text

  /** A claim: a text, a list of texts, or a list of anything; a stringer prints itself. */
  datatype Item = TextItem(text: string) | Stringer(text: string) | OtherItem

  datatype Value = TextValue(text: string) | Texts(texts: seq<string>) | Items(items: seq<Item>) | OtherValue

  // ---- Splitting ----

  /** The pieces between separators, empty ones included. */
  function Split(s: string, separators: set<char>): (pieces: seq<string>)
    ensures pieces != []
  {
    if s == "" then [""]
    else
      var rest := Split(s[1..], separators);
      if s[0] in separators then [""] + rest else [[s[0]] + rest[0]] + rest[1..]
  }

  /** Each piece split once more. */
  function SplitEach(pieces: seq<string>, separators: set<char>): seq<string> {
    if pieces == [] then [] else Split(pieces[0], separators) + SplitEach(pieces[1..], separators)
  }

  lemma SplitEachCons(piece: string, rest: seq<string>, separators: set<char>)
    ensures SplitEach([piece] + rest, separators) == Split(piece, separators) + SplitEach(rest, separators)
  {
    assert ([piece] + rest)[1..] == rest;
  }

  lemma SplitCons(c: char, s: string, separators: set<char>)
    ensures
      var rest := Split(s, separators);
      Split([c] + s, separators) == if c in separators then [""] + rest else [[c] + rest[0]] + rest[1..]
  {
    assert ([c] + s)[1..] == s;
  }

  /** Splitting on some separators and then each piece on others is one split on all of them. */
  lemma {:induction false} SplitTwice(s: string, a: set<char>, b: set<char>)
    ensures SplitEach(Split(s, a), b) == Split(s, a + b)
  {
    if s == "" {
      SplitEachCons("", [], b);
    } else {
      SplitTwice(s[1..], a, b);
      FirstCharSplits(s[0], Split(s[1..], a), Split(s[1..], a + b), a, b);
    }
  }

  /** One more character in front, seen by both ways of splitting. */
  lemma FirstCharSplits(c: char, rest: seq<string>, all: seq<string>, a: set<char>, b: set<char>)
    requires rest != [] && all != [] && SplitEach(rest, b) == all
    ensures SplitEach(if c in a then [""] + rest else [[c] + rest[0]] + rest[1..], b)
         == if c in a + b then [""] + all else [[c] + all[0]] + all[1..]
  {
    if c in a {
      SplitEachCons("", rest, b);
    } else {
      CharGoesToFirst(c, rest, all, b);
    }
  }

  lemma CharGoesToFirst(c: char, rest: seq<string>, all: seq<string>, b: set<char>)
    requires rest != [] && all != [] && SplitEach(rest, b) == all
    ensures SplitEach([[c] + rest[0]] + rest[1..], b) == if c in b then [""] + all else [[c] + all[0]] + all[1..]
  {
    SplitEachCons([c] + rest[0], rest[1..], b);
    SplitCons(c, rest[0], b);
    FirstAndRest(rest, b);
    CharMovesIn(c, c in b, Split(rest[0], b), SplitEach(rest[1..], b), all);
  }

  lemma FirstAndRest(pieces: seq<string>, separators: set<char>)
    requires pieces != []
    ensures SplitEach(pieces, separators) == Split(pieces[0], separators) + SplitEach(pieces[1..], separators)
  {
  }

  lemma CharMovesIn(c: char, separates: bool, head: seq<string>, tail: seq<string>, all: seq<string>)
    requires head != [] && all == head + tail
    ensures (if separates then [""] + head else [[c] + head[0]] + head[1..]) + tail
         == if separates then [""] + all else [[c] + all[0]] + all[1..]
  {
    if !separates {
      assert all[0] == head[0] && all[1..] == head[1..] + tail;
    }
  }

  /** So the order of the separators makes no difference. */
  lemma SeparatorsCommute(s: string, a: set<char>, b: set<char>)
    ensures SplitEach(Split(s, a), b) == SplitEach(Split(s, b), a)
  {
    SplitTwice(s, a, b);
    SplitTwice(s, b, a);
    assert a + b == b + a;
  }

  /** No piece of one split on all separators holds a separator, and the pieces make up the text again. */
  lemma {:induction false} PiecesAreClean(s: string, separators: set<char>)
    ensures forall p :: p in Split(s, separators) ==> forall c :: c in p ==> c !in separators
  {
    if s != "" {
      PiecesAreClean(s[1..], separators);
      var rest := Split(s[1..], separators);
      assert rest[0] in rest;
      forall p | p in Split(s, separators) ensures forall c :: c in p ==> c !in separators {
        assert p == "" || p in rest || (s[0] !in separators && p == [s[0]] + rest[0]);
      }
    }
  }

  /** The pieces with the separators between them. */
  function Weave(pieces: seq<string>, between: string): string
    requires |pieces| == |between| + 1
  {
    if between == "" then pieces[0] else pieces[0] + [between[0]] + Weave(pieces[1..], between[1..])
  }

  /** The pieces and the separators between them make up the text: nothing is lost. */
  lemma {:induction false} PiecesMakeUpText(s: string, separators: set<char>) returns (between: string)
    ensures |Split(s, separators)| == |between| + 1 && Weave(Split(s, separators), between) == s
    ensures forall i :: 0 <= i < |between| ==> between[i] in separators
  {
    if s == "" {
      between := "";
    } else {
      var rest := Split(s[1..], separators);
      between := PiecesMakeUpText(s[1..], separators);
      SplitCons(s[0], s[1..], separators);
      assert s == [s[0]] + s[1..];
      if s[0] in separators {
        assert ([""] + rest)[1..] == rest;
        between := [s[0]] + between;
      } else {
        LongerFirst(s[0], rest, between);
      }
    }
  }

  lemma LongerFirst(c: char, pieces: seq<string>, between: string)
    requires |pieces| == |between| + 1
    ensures Weave([[c] + pieces[0]] + pieces[1..], between) == [c] + Weave(pieces, between)
  {
    assert ([[c] + pieces[0]] + pieces[1..])[1..] == pieces[1..];
    if between != "" {
      var tail := Weave(pieces[1..], between[1..]);
      assert ([c] + pieces[0]) + [between[0]] + tail == [c] + (pieces[0] + [between[0]] + tail);
    }
  }

  // ---- Removing blanks and duplicates ----

  /** The texts trimmed, without the blank ones and without those that came before. */
  function Dedupe(values: seq<string>): seq<string> {
    if values == [] then []
    else
      var n := |values| - 1;
      var before, t := Dedupe(values[..n]), TrimSpace(values[n]);
      if t == "" || t in before then before else before + [t]
  }

  method DedupeStrings(values: seq<string>) returns (out: seq<string>)
    ensures out == Dedupe(values)
  {
    out := [];
    var seen: set<string> := {};
    for i := 0 to |values|
      invariant out == Dedupe(values[..i])
      invariant forall t :: t in seen <==> t in out
    {
      assert values[..i + 1][..i] == values[..i];
      var trimmed := TrimSpace(values[i]);
      if trimmed != "" && trimmed !in seen {
        seen := seen + {trimmed};
        out := out + [trimmed];
      }
    }
    assert values[..|values|] == values;
  }

  /** The text is what one of the values is, trimmed, and not blank. */
  predicate IsToken(values: seq<string>, t: string) {
    t != "" && exists i :: 0 <= i < |values| && TokenAt(values, i, t)
  }

  predicate TokenAt(values: seq<string>, i: nat, t: string)
    requires i < |values|
  {
    TrimSpace(values[i]) == t
  }

  /** Where a token comes up first. */
  ghost predicate IsFirstAt(values: seq<string>, t: string, i: nat) {
    i < |values| && TokenAt(values, i, t) && forall j :: 0 <= j < i ==> !TokenAt(values, j, t)
  }

  /** The result holds exactly the tokens. */
  lemma {:induction false} DedupeHolds(values: seq<string>, t: string)
    ensures t in Dedupe(values) <==> IsToken(values, t)
  {
    if values != [] {
      var n := |values| - 1;
      DedupeHolds(values[..n], t);
      assert forall i :: 0 <= i < n ==> TokenAt(values[..n], i, t) == TokenAt(values, i, t);
      assert TokenAt(values, n, TrimSpace(values[n]));
    }
  }

  lemma {:induction false} DedupeIsDistinct(values: seq<string>)
    ensures forall i, j :: 0 <= i < j < |Dedupe(values)| ==> Dedupe(values)[i] != Dedupe(values)[j]
  {
    if values != [] {
      DedupeIsDistinct(values[..|values| - 1]);
    }
  }

  /** Tokens stand in the order in which they come up first. */
  lemma {:induction false} DedupeKeepsOrder(values: seq<string>, i: nat, j: nat, p: nat, q: nat)
    requires i < j < |Dedupe(values)|
    requires IsFirstAt(values, Dedupe(values)[i], p) && IsFirstAt(values, Dedupe(values)[j], q)
    ensures p < q
  {
    var n := |values| - 1;
    var before, out := Dedupe(values[..n]), Dedupe(values);
    assert before[i] == out[i];
    EarlierFirst(values, n, out[i], p);
    if j < |before| {
      assert before[j] == out[j];
      EarlierFirst(values, n, out[j], q);
      DedupeKeepsOrder(values[..n], i, j, p, q);
    } else {
      DedupeHolds(values[..n], out[j]);
      if q < n {
        assert TokenAt(values[..n], q, out[j]) == TokenAt(values, q, out[j]);
        DedupeIsDistinct(values);
        NotYetThere(values, n, out[j], q);
      }
    }
  }

  /** A token of the first values comes up first among them. */
  lemma EarlierFirst(values: seq<string>, n: nat, t: string, p: nat)
    requires n <= |values| && t in Dedupe(values[..n]) && IsFirstAt(values, t, p)
    ensures IsFirstAt(values[..n], t, p)
  {
    DedupeHolds(values[..n], t);
    var i :| 0 <= i < n && TokenAt(values[..n], i, t);
    assert TokenAt(values, i, t);
    assert forall k :: 0 <= k < n ==> TokenAt(values[..n], k, t) == TokenAt(values, k, t);
  }

  lemma NotYetThere(values: seq<string>, n: nat, t: string, q: nat)
    requires q < n <= |values| && t != "" && TokenAt(values, q, t)
    ensures t in Dedupe(values[..n])
  {
    assert TokenAt(values[..n], q, t);
    DedupeHolds(values[..n], t);
  }

  lemma {:induction false} TrimmedDistinctStay(values: seq<string>)
    requires forall i :: 0 <= i < |values| ==> values[i] != "" && TrimSpace(values[i]) == values[i]
    requires forall i, j :: 0 <= i < j < |values| ==> values[i] != values[j]
    ensures Dedupe(values) == values
  {
    if values != [] {
      var n := |values| - 1;
      TrimmedDistinctStay(values[..n]);
      assert values == values[..n] + [values[n]];
    }
  }

  /** Removing blanks and duplicates once more changes nothing. */
  lemma DedupeIsIdempotent(values: seq<string>)
    ensures Dedupe(Dedupe(values)) == Dedupe(values)
  {
    var out := Dedupe(values);
    DedupeIsDistinct(values);
    forall i | 0 <= i < |out| ensures out[i] != "" && TrimSpace(out[i]) == out[i] {
      assert out[i] in out;
      DedupeHolds(values, out[i]);
      TrimmedStays(out[i], GO_SPACE);
    }
    TrimmedDistinctStay(out);
  }

  // ---- A claim as a list ----

  function ItemTexts(items: seq<Item>): seq<string> {
    if items == [] then []
    else
      var n := |items| - 1;
      var t := if items[n].OtherItem? then "" else TrimSpace(items[n].text);
      ItemTexts(items[..n]) + if t != "" then [t] else []
  }

  /** The tokens of a claim: those of the text, with either separator, or of the texts in the list. */
  function Tokens(v: Value): seq<string> {
    match v
    case TextValue(s) => Dedupe(Split(TrimSpace(s), {',', ' '}))
    case Texts(ts) => Dedupe(ts)
    case Items(items) => Dedupe(ItemTexts(items))
    case OtherValue => []
  }

  /** One round of splitting every part. */
  method SplitParts(parts: seq<string>, separator: char) returns (next: seq<string>)
    ensures next == SplitEach(parts, {separator})
  {
    next := [];
    for i := 0 to |parts|
      invariant next + SplitEach(parts[i..], {separator}) == SplitEach(parts, {separator})
    {
      assert parts[i..] == [parts[i]] + parts[i + 1..];
      SplitEachCons(parts[i], parts[i + 1..], {separator});
      next := next + Split(parts[i], {separator});
    }
  }

  method ValueAsStringSlice(v: Value) returns (out: seq<string>)
    ensures out == Tokens(v)
  {
    match v
    case TextValue(s) =>
      var trimmed := TrimSpace(s);
      if trimmed == "" {
        BlankHasNoTokens();
        return [];
      }
      var parts := SplitParts([trimmed], ',');
      assert [trimmed][1..] == [];
      assert parts == Split(trimmed, {','});
      parts := SplitParts(parts, ' ');
      SplitTwice(trimmed, {','}, {' '});
      assert {','} + {' '} == {',', ' '};
      out := DedupeStrings(parts);
    case Texts(ts) =>
      out := DedupeStrings(ts);
    case Items(items) =>
      var texts := [];
      for i := 0 to |items|
        invariant texts == ItemTexts(items[..i])
      {
        assert items[..i + 1][..i] == items[..i];
        var item := items[i];
        if !item.OtherItem? && TrimSpace(item.text) != "" {
          texts := texts + [TrimSpace(item.text)];
        }
      }
      assert items[..|items|] == items;
      out := DedupeStrings(texts);
    case OtherValue =>
      out := [];
  }

  lemma BlankHasNoTokens()
    ensures Dedupe(Split("", {',', ' '})) == []
  {
    assert Split("", {',', ' '}) == [""];
    assert Dedupe([""][..0]) == [];
  }

  /**
   A text claim gives exactly the texts between its commas and spaces, each once, trimmed and not blank, in the order
   in which they come up first.
   */
  lemma TextClaim(s: string, t: string)
    ensures
      var out, pieces := Tokens(TextValue(s)), Split(TrimSpace(s), {',', ' '});
      && (t in out <==> IsToken(pieces, t))
      && (t in out ==> ',' !in t && ' ' !in t && IsTrimmed(t, GO_SPACE))
      && (forall i, j :: 0 <= i < j < |out| ==> out[i] != out[j])
      && (forall i, j, p, q ::
            0 <= i < j < |out| && IsFirstAt(pieces, out[i], p) && IsFirstAt(pieces, out[j], q) ==> p < q)
  {
    var pieces := Split(TrimSpace(s), {',', ' '});
    var out := Dedupe(pieces);
    DedupeHolds(pieces, t);
    DedupeIsDistinct(pieces);
    if t in out {
      PiecesAreClean(TrimSpace(s), {',', ' '});
      var i :| 0 <= i < |pieces| && TokenAt(pieces, i, t);
      assert pieces[i] in pieces;
      TrimKeepsOut(pieces[i], GO_SPACE, ',');
      TrimKeepsOut(pieces[i], GO_SPACE, ' ');
    }
    forall i, j, p, q | 0 <= i < j < |out| && IsFirstAt(pieces, out[i], p) && IsFirstAt(pieces, out[j], q)
      ensures p < q
    {
      DedupeKeepsOrder(pieces, i, j, p, q);
    }
  }

  lemma {:induction false} TrimKeepsOut(s: string, space: set<char>, c: char)
    requires c !in s
    ensures c !in Trim(s, space)
    decreases |s|
  {
    if s == "" {
    } else if s[0] in space {
      TrimKeepsOut(s[1..], space, c);
    } else if s[|s| - 1] in space {
      TrimKeepsOut(s[..|s| - 1], space, c);
    }
  }

  /** A claim that is a list of texts gives them trimmed, each once; items that are no texts are passed over. */
  lemma ListClaim(items: seq<Item>, t: string)
    ensures
      var out := Tokens(Items(items));
      && (t in out <==>
            t != "" && exists i :: 0 <= i < |items| && !items[i].OtherItem? && TrimSpace(items[i].text) == t)
      && (forall i, j :: 0 <= i < j < |out| ==> out[i] != out[j])
  {
    ItemTextsAre(items, t);
    ItemTextsAreTrimmed(items);
    DedupeHolds(ItemTexts(items), t);
    DedupeIsDistinct(ItemTexts(items));
    var texts := ItemTexts(items);
    if t in texts {
      var i :| 0 <= i < |texts| && texts[i] == t;
      TrimmedStays(t, GO_SPACE);
      assert TokenAt(texts, i, t);
    }
    if IsToken(texts, t) {
      var i :| 0 <= i < |texts| && TokenAt(texts, i, t);
      TrimmedStays(texts[i], GO_SPACE);
    }
  }

  lemma {:induction false} ItemTextsAre(items: seq<Item>, t: string)
    ensures t in ItemTexts(items) <==>
      t != "" && exists i :: 0 <= i < |items| && !items[i].OtherItem? && TrimSpace(items[i].text) == t
  {
    if items != [] {
      var n := |items| - 1;
      ItemTextsAre(items[..n], t);
      assert forall i :: 0 <= i < n ==> items[..n][i] == items[i];
    }
  }

  lemma {:induction false} ItemTextsAreTrimmed(items: seq<Item>)
    ensures forall i :: 0 <= i < |ItemTexts(items)| ==> IsTrimmed(ItemTexts(items)[i], GO_SPACE)
  {
    if items != [] {
      ItemTextsAreTrimmed(items[..|items| - 1]);
    }
  }
}
