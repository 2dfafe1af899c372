/**
 Joining sixteen texts with a bar, all of them trimmed but one: when the texts can be told from what they are joined to.
 */
module Joining {
  import opened Text

  function Join(parts: seq<string>): string {
    if parts == [] then ""
    else if |parts| == 1 then parts[0]
    else parts[0] + "|" + Join(parts[1..])
  }

  /** The place of the one text that need not be trimmed. */
  const LOOSE := 6

  /** Every text but the loose one is trimmed. */
  predicate AreTrimmed(parts: seq<string>) {
    forall i :: 0 <= i < |parts| && i != LOOSE ==> IsTrimmed(parts[i], GO_SPACE)
  }

  // ---- Where the parts stand ----

  lemma {:induction false} JoinOfConcat(p: seq<string>, q: seq<string>)
    requires p != [] && q != []
    ensures Join(p + q) == Join(p) + "|" + Join(q)
  {
    if |p| == 1 {
      assert (p + q)[1..] == q;
    } else {
      assert (p + q)[1..] == p[1..] + q && (p + q)[0] == p[0];
      JoinOfConcat(p[1..], q);
      assert p[0] + "|" + (Join(p[1..]) + "|" + Join(q)) == (p[0] + "|" + Join(p[1..])) + "|" + Join(q);
    }
  }

  /** Moving the text behind a bar over to the next part, or before it back to the previous one, changes nothing. */
  lemma MovedBarCollides(a: string, b: string, c: string)
    ensures Join([a + "|" + b, c]) == Join([a, b + "|" + c])
  {
    assert [a + "|" + b, c][1..] == [c] && [a, b + "|" + c][1..] == [b + "|" + c];
    assert a + "|" + b + "|" + c == a + "|" + (b + "|" + c);
  }

  function Before(parts: seq<string>): string {
    if parts == [] then "" else Join(parts) + "|"
  }

  function After(parts: seq<string>): string {
    if parts == [] then "" else "|" + Join(parts)
  }

  lemma JoinAround(before: seq<string>, x: seq<string>, after: seq<string>)
    requires x != []
    ensures Join(before + x + after) == Before(before) + Join(x) + After(after)
  {
    if before == [] {
      assert before + x == x;
    } else {
      JoinOfConcat(before, x);
    }
    if after == [] {
      assert before + x + after == before + x;
    } else {
      JoinOfConcat(before + x, after);
    }
  }

  /** Replacing two neighbours by two others that join to the same text changes nothing. */
  lemma SwapInMiddle(p: seq<string>, i: nat, x: string, y: string)
    requires i + 1 < |p| && Join([p[i], p[i + 1]]) == Join([x, y])
    ensures Join(p[i := x][i + 1 := y]) == Join(p)
  {
    JoinAround(p[..i], [p[i], p[i + 1]], p[i + 2..]);
    JoinAround(p[..i], [x, y], p[i + 2..]);
    assert p == p[..i] + [p[i], p[i + 1]] + p[i + 2..];
    assert p[i := x][i + 1 := y] == p[..i] + [x, y] + p[i + 2..];
  }

  /** Where part `m` begins; one more than the length for the end of the last one. */
  function Start(parts: seq<string>, m: nat): nat
    requires m <= |parts|
  {
    if m == 0 then 0 else Start(parts, m - 1) + |parts[m - 1]| + 1
  }

  lemma {:induction false} BeforeIsStart(parts: seq<string>, m: nat)
    requires m <= |parts|
    ensures |Before(parts[..m])| == Start(parts, m)
  {
    if m > 0 {
      BeforeIsStart(parts, m - 1);
      assert parts[..m] == parts[..m - 1] + [parts[m - 1]];
      if m > 1 {
        JoinOfConcat(parts[..m - 1], [parts[m - 1]]);
      }
    }
  }

  /** What stands in the joined text where part `m` is, and around it. */
  lemma PartStandsAt(parts: seq<string>, m: nat)
    requires m < |parts|
    ensures
      var whole, from := Join(parts), Start(parts, m);
      var to := from + |parts[m]|;
      && to <= |whole| && whole[from..to] == parts[m]
      && (m > 0 ==> from > 0 && whole[from - 1] == '|')
      && (if m + 1 < |parts| then to < |whole| && whole[to] == '|' else to == |whole|)
  {
    BeforeIsStart(parts, m);
    JoinAround(parts[..m], [parts[m]], parts[m + 1..]);
    assert parts == parts[..m] + [parts[m]] + parts[m + 1..];
  }

  lemma {:induction false} StartsGrow(parts: seq<string>, i: nat, j: nat)
    requires i < j <= |parts|
    ensures Start(parts, i) < Start(parts, j)
  {
    if i + 1 < j {
      StartsGrow(parts, i, j - 1);
    }
  }

  lemma EndIsLength(parts: seq<string>)
    requires parts != []
    ensures Start(parts, |parts|) == |Join(parts)| + 1
  {
    PartStandsAt(parts, |parts| - 1);
  }

  // ---- Bars that can move ----

  predicate ClearLeft(s: string, k: nat)
    requires k < |s|
  {
    k == 0 || s[k - 1] !in GO_SPACE
  }

  predicate ClearRight(s: string, k: nat)
    requires k < |s|
  {
    k + 1 == |s| || s[k + 1] !in GO_SPACE
  }

  /**
   A bar inside part `i` that could as well stand between two parts: there is no blank beside it, or only where the text
   next to it would become, or stay, the loose part.
   */
  predicate IsMovable(parts: seq<string>, i: nat, k: nat) {
    && i < |parts| && k < |parts[i]| && parts[i][k] == '|'
    && if i == LOOSE - 1 then ClearLeft(parts[i], k)
       else if i == LOOSE then ClearLeft(parts[i], k) || ClearRight(parts[i], k)
       else if i == LOOSE + 1 then ClearRight(parts[i], k)
       else ClearLeft(parts[i], k) && ClearRight(parts[i], k)
  }

  ghost predicate HasMovable(parts: seq<string>) {
    exists i: nat, k: nat :: IsMovable(parts, i, k)
  }

  // ---- Without such bars the parts can be told ----

  /** Two ways of cutting one text. */
  predicate SameText(p: seq<string>, q: seq<string>) {
    |p| == |q| == 16 && Join(p) == Join(q) && AreTrimmed(q)
  }

  /** A part of `q` that begins inside part `i` of `p` begins behind a bar there. */
  lemma BeginsBehindBar(p: seq<string>, q: seq<string>, i: nat, m: nat)
    requires SameText(p, q) && i < 16 && 0 < m < 16 && Start(p, i) < Start(q, m) < Start(p, i + 1)
    ensures
      var k := Start(q, m) - 1 - Start(p, i);
      k < |p[i]| && p[i][k] == '|'
  {
    PartStandsAt(p, i);
    PartStandsAt(q, m);
    var k := Start(q, m) - 1 - Start(p, i);
    assert Join(p)[Start(p, i)..Start(p, i) + |p[i]|][k] == p[i][k];
  }

  lemma CharStandsAt(parts: seq<string>, m: nat, k: nat)
    requires m < |parts| && k < |parts[m]|
    ensures Start(parts, m) + k < |Join(parts)| && Join(parts)[Start(parts, m) + k] == parts[m][k]
  {
    PartStandsAt(parts, m);
    assert Join(parts)[Start(parts, m)..Start(parts, m) + |parts[m]|][k] == parts[m][k];
  }

  lemma BarIsNoSpace()
    ensures '|' !in GO_SPACE
  {
  }

  /** What stands before the bar in front of a part: the end of a text, or another bar. */
  lemma EndIsClear(q: seq<string>, m: nat, space: set<char>)
    requires 0 < m < |q| && IsTrimmed(q[m - 1], space) && '|' !in space && Start(q, m) >= 2
    ensures Start(q, m) - 2 < |Join(q)| && Join(q)[Start(q, m) - 2] !in space
  {
    PartStandsAt(q, m - 1);
    if q[m - 1] != "" {
      CharStandsAt(q, m - 1, |q[m - 1]| - 1);
    }
  }

  /** What stands where a part begins: its first character, or a bar. */
  lemma BeginIsClear(q: seq<string>, m: nat, space: set<char>)
    requires m < |q| && IsTrimmed(q[m], space) && '|' !in space && Start(q, m) < |Join(q)|
    ensures Join(q)[Start(q, m)] !in space
  {
    PartStandsAt(q, m);
    if q[m] != "" {
      CharStandsAt(q, m, 0);
    }
  }

  lemma TrimmedBeforeIsClear(p: seq<string>, q: seq<string>, i: nat, m: nat, k: nat, space: set<char>)
    requires |p| == |q| == 16 && Join(p) == Join(q) && i < 16 && 0 < m < 16
    requires IsTrimmed(q[m - 1], space) && '|' !in space && Start(q, m) == Start(p, i) + k + 1 && k < |p[i]|
    ensures k > 0 ==> p[i][k - 1] !in space
  {
    if k > 0 {
      CharStandsAt(p, i, k - 1);
      EndIsClear(q, m, space);
    }
  }

  lemma TrimmedBehindIsClear(p: seq<string>, q: seq<string>, i: nat, m: nat, k: nat, space: set<char>)
    requires |p| == |q| == 16 && Join(p) == Join(q) && i < 16 && 0 < m < 16
    requires IsTrimmed(q[m], space) && '|' !in space && Start(q, m) == Start(p, i) + k + 1 && k < |p[i]|
    ensures k + 1 < |p[i]| ==> p[i][k + 1] !in space
  {
    if k + 1 < |p[i]| {
      CharStandsAt(p, i, k + 1);
      BeginIsClear(q, m, space);
    }
  }

  /** Such a bar is movable when part `i` is the part of `q` before it, or the part of `q` behind it. */
  lemma InsideIsMovable(p: seq<string>, q: seq<string>, i: nat, m: nat)
    requires SameText(p, q) && i < 16 && 0 < m < 16 && (i == m - 1 || i == m)
    requires Start(p, i) < Start(q, m) < Start(p, i + 1)
    ensures HasMovable(p)
  {
    var k := Start(q, m) - 1 - Start(p, i);
    BeginsBehindBar(p, q, i, m);
    BarIsNoSpace();
    if m - 1 != LOOSE {
      TrimmedBeforeIsClear(p, q, i, m, k, GO_SPACE);
    }
    if m != LOOSE {
      TrimmedBehindIsClear(p, q, i, m, k, GO_SPACE);
    }
    assert IsMovable(p, i, k);
  }

  /** From the left, no part of `q` begins earlier than that of `p`. */
  lemma {:induction false} BeginsNoEarlier(p: seq<string>, q: seq<string>, m: nat)
    requires SameText(p, q) && !HasMovable(p) && m < 16
    ensures Start(q, m) >= Start(p, m)
  {
    if m > 0 {
      BeginsNoEarlier(p, q, m - 1);
      StartsGrow(q, m - 1, m);
      if Start(q, m) < Start(p, m) {
        InsideIsMovable(p, q, m - 1, m);
      }
    }
  }

  /** From the right, none begins later. */
  lemma {:induction false} BeginsNoLater(p: seq<string>, q: seq<string>, m: nat)
    requires SameText(p, q) && !HasMovable(p) && m <= 16
    ensures Start(q, m) <= Start(p, m)
    decreases 16 - m
  {
    if m == 16 {
      EndIsLength(p);
      EndIsLength(q);
    } else if m > 0 {
      BeginsNoLater(p, q, m + 1);
      StartsGrow(q, m, m + 1);
      if Start(q, m) > Start(p, m) {
        InsideIsMovable(p, q, m, m);
      }
    }
  }

  /** Parts without movable bar are determined by their join, among lists that are trimmed alike. */
  lemma NoMovableDetermines(p: seq<string>, q: seq<string>)
    requires SameText(p, q) && !HasMovable(p)
    ensures p == q
  {
    forall m | 0 <= m < 16 ensures p[m] == q[m] {
      BeginsNoEarlier(p, q, m);
      BeginsNoLater(p, q, m);
      if m < 15 {
        BeginsNoEarlier(p, q, m + 1);
      } else {
        EndIsLength(p);
        EndIsLength(q);
      }
      BeginsNoLater(p, q, m + 1);
      PartStandsAt(p, m);
      PartStandsAt(q, m);
    }
  }

  // ---- A movable bar can be moved ----

  lemma SplitAtBar(s: string, k: nat)
    requires k < |s| && s[k] == '|'
    ensures s == s[..k] + "|" + s[k + 1..]
  {
  }

  lemma PiecesAreTrimmed(s: string, k: nat)
    requires k < |s| && s[k] == '|' && IsTrimmed(s, GO_SPACE)
    ensures ClearLeft(s, k) ==> IsTrimmed(s[..k], GO_SPACE)
    ensures ClearRight(s, k) ==> IsTrimmed(s[k + 1..], GO_SPACE)
  {
  }

  /** The text behind the bar goes over to the next part. */
  lemma MovedRight(p: seq<string>, i: nat, k: nat) returns (q: seq<string>)
    requires |p| == 16 && i < 13 && k < |p[i]| && p[i][k] == '|' && AreTrimmed(p)
    requires i != LOOSE ==> ClearLeft(p[i], k)
    requires i + 1 != LOOSE ==> ClearRight(p[i], k)
    ensures |q| == 16 && Join(q) == Join(p) && q != p && AreTrimmed(q) && q[14..] == p[14..]
  {
    var a, b := p[i][..k], p[i][k + 1..];
    q := p[i := a][i + 1 := b + "|" + p[i + 1]];
    SplitAtBar(p[i], k);
    MovedBarCollides(a, b, p[i + 1]);
    SwapInMiddle(p, i, a, b + "|" + p[i + 1]);
    assert q[i] != p[i];
    if i != LOOSE {
      assert IsTrimmed(p[i], GO_SPACE);
      PiecesAreTrimmed(p[i], k);
    }
    forall j | 0 <= j < 16 && j != LOOSE ensures IsTrimmed(q[j], GO_SPACE) {
      assert IsTrimmed(p[j], GO_SPACE);
    }
  }

  /** The text before the bar goes back to the previous part. */
  lemma MovedLeft(p: seq<string>, i: nat, k: nat) returns (q: seq<string>)
    requires |p| == 16 && 0 < i < 14 && k < |p[i]| && p[i][k] == '|' && AreTrimmed(p)
    requires i != LOOSE ==> ClearRight(p[i], k)
    requires i - 1 != LOOSE ==> ClearLeft(p[i], k)
    ensures |q| == 16 && Join(q) == Join(p) && q != p && AreTrimmed(q) && q[14..] == p[14..]
  {
    var a, b := p[i][..k], p[i][k + 1..];
    q := p[i - 1 := p[i - 1] + "|" + a][i := b];
    SplitAtBar(p[i], k);
    MovedBarCollides(p[i - 1], a, b);
    SwapInMiddle(p, i - 1, p[i - 1] + "|" + a, b);
    assert q[i] != p[i];
    if i != LOOSE {
      assert IsTrimmed(p[i], GO_SPACE);
      PiecesAreTrimmed(p[i], k);
    }
    forall j | 0 <= j < 16 && j != LOOSE ensures IsTrimmed(q[j], GO_SPACE) {
      assert IsTrimmed(p[j], GO_SPACE);
    }
  }

  lemma BarredIsTrimmed(a: string, b: string)
    requires IsTrimmed(a, GO_SPACE) && IsTrimmed(b, GO_SPACE)
    ensures IsTrimmed(a + "|" + b, GO_SPACE)
  {
    BarIsNoSpace();
  }

  lemma MovableCollides(p: seq<string>, i: nat, k: nat) returns (q: seq<string>)
    requires |p| == 16 && i < 14 && IsMovable(p, i, k) && AreTrimmed(p)
    ensures |q| == 16 && Join(q) == Join(p) && q != p && AreTrimmed(q) && q[14..] == p[14..]
  {
    if i == 13 || i == LOOSE + 1 || (i == LOOSE && !ClearRight(p[i], k)) {
      q := MovedLeft(p, i, k);
    } else {
      q := MovedRight(p, i, k);
    }
  }

  /** A bar between two texts can stand in either of the first two parts. */
  lemma FirstTwoCollide(p: seq<string>, a: string, b: string, e: string)
    requires |p| == 16 && AreTrimmed(p)
    requires IsTrimmed(a, GO_SPACE) && IsTrimmed(b, GO_SPACE) && IsTrimmed(e, GO_SPACE)
    ensures
      var q, r := p[0 := a + "|" + b][1 := e], p[0 := a][1 := b + "|" + e];
      AreTrimmed(q) && AreTrimmed(r) && q[14..] == r[14..] == p[14..] && Join(q) == Join(r) && q != r
  {
    var q, r := p[0 := a + "|" + b][1 := e], p[0 := a][1 := b + "|" + e];
    BarredIsTrimmed(a, b);
    BarredIsTrimmed(b, e);
    MovedBarCollides(a, b, e);
    SwapInMiddle(q, 0, a, b + "|" + e);
    assert q[0 := a][1 := b + "|" + e] == r && |q[0]| > |r[0]|;
    forall j | 0 <= j < 16 && j != LOOSE ensures IsTrimmed(q[j], GO_SPACE) && IsTrimmed(r[j], GO_SPACE) {
      assert IsTrimmed(p[j], GO_SPACE);
    }
  }
}
