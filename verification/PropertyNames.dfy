/**
 Removing duplicate properties. A property counts by its name; one without a name gets a name made from its position, so
 that it is never taken for another one.
 */
module PropertyNames {
  import opened Text

  /** How a property is named, and what one without a name is called at a position. */
  datatype Naming<-T> = Naming(name: T -> string, madeUp: nat -> string)

  ghost predicate IsNaming<T>(naming: Naming<T>) {
    && (forall n :: naming.madeUp(n) != "")
    && (forall m, n :: naming.madeUp(m) == naming.madeUp(n) ==> m == n)
  }

  function Unnamed(index: nat): string {
    "__unnamed_" + Decimal(index)
  }

  function KeyOf<T>(p: T, index: nat, naming: Naming<T>): string {
    if naming.name(p) != "" then naming.name(p) else naming.madeUp(index)
  }

  ghost predicate IsDuplicate<T>(ps: seq<T>, n: nat, naming: Naming<T>)
    requires n < |ps|
  {
    exists i :: 0 <= i < n && SameKey(ps, i, n, naming)
  }

  predicate SameKey<T>(ps: seq<T>, i: nat, n: nat, naming: Naming<T>)
    requires i < |ps| && n < |ps|
  {
    KeyOf(ps[i], i, naming) == KeyOf(ps[n], n, naming)
  }

  /** The properties whose key no earlier one has. */
  ghost function Dedupe<T>(ps: seq<T>, naming: Naming<T>): seq<T> {
    if ps == [] then []
    else
      var n := |ps| - 1;
      Dedupe(ps[..n], naming) + if IsDuplicate(ps, n, naming) then [] else [ps[n]]
  }

  method RemoveDuplicates<T>(ps: seq<T>, naming: Naming<T>) returns (r: seq<T>)
    ensures r == Dedupe(ps, naming)
  {
    r := [];
    var seen: set<string> := {};
    for index := 0 to |ps|
      invariant r == Dedupe(ps[..index], naming)
      invariant forall i :: 0 <= i < index ==> KeyOf(ps[i], i, naming) in seen
      invariant forall k :: k in seen ==> HasKeyBefore(ps, index, k, naming)
    {
      var key := KeyOf(ps[index], index, naming);
      SeenIsDuplicate(ps, index, seen, naming);
      assert ps[..index + 1][..index] == ps[..index];
      if key !in seen {
        r := r + [ps[index]];
        seen := seen + {key};
      }
    }
    assert ps[..|ps|] == ps;
  }

  ghost predicate HasKeyBefore<T>(ps: seq<T>, n: nat, key: string, naming: Naming<T>) {
    exists i :: 0 <= i < n && i < |ps| && KeyOf(ps[i], i, naming) == key
  }

  lemma SeenIsDuplicate<T>(ps: seq<T>, n: nat, seen: set<string>, naming: Naming<T>)
    requires n < |ps|
    requires forall i :: 0 <= i < n ==> KeyOf(ps[i], i, naming) in seen
    requires forall k :: k in seen ==> HasKeyBefore(ps, n, k, naming)
    ensures KeyOf(ps[n], n, naming) in seen <==> IsDuplicate(ps[..n + 1], n, naming)
    ensures HasKeyBefore(ps, n + 1, KeyOf(ps[n], n, naming), naming)
    ensures forall k :: HasKeyBefore(ps, n, k, naming) ==> HasKeyBefore(ps, n + 1, k, naming)
  {
    assert forall i :: 0 <= i < n ==> SameKey(ps[..n + 1], i, n, naming) == SameKey(ps, i, n, naming);
    if KeyOf(ps[n], n, naming) in seen {
      var i :| 0 <= i < n && KeyOf(ps[i], i, naming) == KeyOf(ps[n], n, naming);
      assert SameKey(ps, i, n, naming);
    }
  }

  // ---- What it is for ----

  /** A name that an earlier property has. */
  ghost predicate IsRepeat<T>(ps: seq<T>, n: nat, naming: Naming<T>)
    requires n < |ps|
  {
    exists i :: 0 <= i < n && SameName(ps, i, n, naming)
  }

  predicate SameName<T>(ps: seq<T>, i: nat, n: nat, naming: Naming<T>)
    requires i < |ps| && n < |ps|
  {
    naming.name(ps[i]) == naming.name(ps[n]) != ""
  }

  /** The first property of each name, and all without a name. */
  ghost function FirstOfEachName<T>(ps: seq<T>, naming: Naming<T>): seq<T> {
    if ps == [] then []
    else
      var n := |ps| - 1;
      FirstOfEachName(ps[..n], naming) + if IsRepeat(ps, n, naming) then [] else [ps[n]]
  }

  /** Some property has the very name that another one without a name is given for its position. */
  ghost predicate Clashes<T>(ps: seq<T>, naming: Naming<T>) {
    exists i, k :: 0 <= i < |ps| && 0 <= k < |ps| && ClashAt(ps, i, k, naming)
  }

  predicate ClashAt<T>(ps: seq<T>, i: nat, k: nat, naming: Naming<T>)
    requires i < |ps| && k < |ps|
  {
    naming.name(ps[k]) == "" && naming.name(ps[i]) == naming.madeUp(k)
  }

  lemma RepeatIsDuplicate<T>(ps: seq<T>, n: nat, naming: Naming<T>)
    requires n < |ps| && IsRepeat(ps, n, naming)
    ensures IsDuplicate(ps, n, naming)
  {
    var i :| 0 <= i < n && SameName(ps, i, n, naming);
    assert SameKey(ps, i, n, naming);
  }

  lemma UnnamedIsInjective(m: nat, n: nat)
    requires Unnamed(m) == Unnamed(n)
    ensures m == n
  {
    assert Decimal(m) == Unnamed(m)[|"__unnamed_"|..] == Unnamed(n)[|"__unnamed_"|..] == Decimal(n);
    DecimalIsInjective(m, n);
  }

  lemma UnnamedIsNaming<T>(name: T -> string)
    ensures IsNaming(Naming(name, Unnamed))
  {
    forall m: nat, n: nat | Unnamed(m) == Unnamed(n) ensures m == n {
      UnnamedIsInjective(m, n);
    }
  }

  lemma DuplicateIsRepeat<T>(ps: seq<T>, n: nat, naming: Naming<T>)
    requires IsNaming(naming)
    requires n < |ps| && IsDuplicate(ps, n, naming) && !Clashes(ps, naming)
    ensures IsRepeat(ps, n, naming)
  {
    var i :| 0 <= i < n && SameKey(ps, i, n, naming);
    assert !ClashAt(ps, i, n, naming) && !ClashAt(ps, n, i, naming);
    assert SameName(ps, i, n, naming);
  }

  lemma {:induction false} NoClashMeansEqual<T>(ps: seq<T>, naming: Naming<T>)
    requires IsNaming(naming)
    requires !Clashes(ps, naming)
    ensures Dedupe(ps, naming) == FirstOfEachName(ps, naming)
  {
    if ps != [] {
      var n := |ps| - 1;
      assert forall i, k :: 0 <= i < n && 0 <= k < n ==> ClashAt(ps[..n], i, k, naming) == ClashAt(ps, i, k, naming);
      NoClashMeansEqual(ps[..n], naming);
      if IsDuplicate(ps, n, naming) {
        DuplicateIsRepeat(ps, n, naming);
      }
      if IsRepeat(ps, n, naming) {
        RepeatIsDuplicate(ps, n, naming);
      }
    }
  }

  ghost predicate LosesOne<T>(ps: seq<T>, n: nat, naming: Naming<T>) {
    n < |ps| && IsDuplicate(ps, n, naming) && !IsRepeat(ps, n, naming)
  }

  lemma {:induction false} LosingOneIsShorter<T>(ps: seq<T>, naming: Naming<T>)
    ensures |Dedupe(ps, naming)| <= |FirstOfEachName(ps, naming)|
    ensures (exists m: nat :: LosesOne(ps, m, naming)) ==> |Dedupe(ps, naming)| < |FirstOfEachName(ps, naming)|
  {
    if ps != [] {
      var n := |ps| - 1;
      LosingOneIsShorter(ps[..n], naming);
      if IsRepeat(ps, n, naming) {
        RepeatIsDuplicate(ps, n, naming);
      }
      if exists m: nat :: LosesOne(ps, m, naming) {
        var m: nat :| LosesOne(ps, m, naming);
        if m < n {
          LossIsLocal(ps, m, n, naming);
        }
      }
    }
  }

  lemma LossIsLocal<T>(ps: seq<T>, m: nat, n: nat, naming: Naming<T>)
    requires LosesOne(ps, m, naming) && m < n <= |ps|
    ensures LosesOne(ps[..n], m, naming)
  {
    var i :| 0 <= i < m && SameKey(ps, i, m, naming);
    assert SameKey(ps[..n], i, m, naming);
    assert forall j :: 0 <= j < m ==> SameName(ps[..n], j, m, naming) == SameName(ps, j, m, naming);
  }

  lemma {:induction false} FirstWithName<T>(ps: seq<T>, i: nat, naming: Naming<T>) returns (f: nat)
    requires i < |ps|
    ensures f <= i && naming.name(ps[f]) == naming.name(ps[i])
    ensures forall j :: 0 <= j < f ==> naming.name(ps[j]) != naming.name(ps[i])
  {
    f := i;
    if exists j :: 0 <= j < i && naming.name(ps[j]) == naming.name(ps[i]) {
      var j :| 0 <= j < i && naming.name(ps[j]) == naming.name(ps[i]);
      f := FirstWithName(ps, j, naming);
    }
  }

  lemma ClashLosesOne<T>(ps: seq<T>, naming: Naming<T>)
    requires IsNaming(naming)
    requires Clashes(ps, naming)
    ensures exists m: nat :: LosesOne(ps, m, naming)
  {
    var i, k :| 0 <= i < |ps| && 0 <= k < |ps| && ClashAt(ps, i, k, naming);
    var f := FirstWithName(ps, i, naming);
    assert KeyOf(ps[f], f, naming) == KeyOf(ps[k], k, naming);
    assert forall j :: 0 <= j < f ==> !SameName(ps, j, f, naming);
    if k < f {
      assert SameKey(ps, k, f, naming);
      assert LosesOne(ps, f, naming);
    } else {
      assert SameKey(ps, f, k, naming);
      assert LosesOne(ps, k, naming);
    }
  }

  /** Duplicates are removed as intended exactly when no name clashes with a made-up one. */
  lemma KeepsFirstOfEachNameIffNoClash<T>(ps: seq<T>, naming: Naming<T>)
    requires IsNaming(naming)
    ensures Dedupe(ps, naming) == FirstOfEachName(ps, naming) <==> !Clashes(ps, naming)
  {
    if Clashes(ps, naming) {
      ClashLosesOne(ps, naming);
      LosingOneIsShorter(ps, naming);
    } else {
      NoClashMeansEqual(ps, naming);
    }
  }

  /** No two have the same name. */
  ghost predicate NamesAreDistinct<T>(ps: seq<T>, naming: Naming<T>) {
    forall n :: 0 <= n < |ps| ==> !IsRepeat(ps, n, naming)
  }

  lemma {:induction false} DedupeHolds<T>(ps: seq<T>, p: T, naming: Naming<T>)
    requires p in Dedupe(ps, naming)
    ensures p in ps
  {
    var n := |ps| - 1;
    if p in Dedupe(ps[..n], naming) {
      DedupeHolds(ps[..n], p, naming);
    }
  }

  lemma {:induction false} DedupeIsDistinct<T>(ps: seq<T>, naming: Naming<T>)
    ensures NamesAreDistinct(Dedupe(ps, naming), naming)
  {
    if ps != [] {
      var n := |ps| - 1;
      DedupeIsDistinct(ps[..n], naming);
      var before, after := Dedupe(ps[..n], naming), Dedupe(ps, naming);
      forall m | 0 <= m < |after| ensures !IsRepeat(after, m, naming) {
        if IsRepeat(after, m, naming) {
          var i :| 0 <= i < m && SameName(after, i, m, naming);
          assert after[i] == before[i];
          if m < |before| {
            assert SameName(before, i, m, naming) && IsRepeat(before, m, naming);
          } else {
            DedupeHolds(ps[..n], before[i], naming);
            var j :| 0 <= j < n && ps[..n][j] == before[i];
            assert SameName(ps, j, n, naming) && IsRepeat(ps, n, naming);
            RepeatIsDuplicate(ps, n, naming);
          }
        }
      }
    }
  }

  lemma {:induction false} DistinctStay<T>(ps: seq<T>, naming: Naming<T>)
    requires NamesAreDistinct(ps, naming)
    ensures FirstOfEachName(ps, naming) == ps
  {
    if ps != [] {
      var n := |ps| - 1;
      forall m | 0 <= m < n ensures !IsRepeat(ps[..n], m, naming) {
        if IsRepeat(ps[..n], m, naming) {
          var i :| 0 <= i < m && SameName(ps[..n], i, m, naming);
          assert SameName(ps, i, m, naming) && IsRepeat(ps, m, naming);
        }
      }
      DistinctStay(ps[..n], naming);
      assert ps == ps[..n] + [ps[n]];
    }
  }

  /** Removing duplicates once more changes nothing exactly when the positions left do not make a clash. */
  lemma DedupeIsIdempotentIff<T>(ps: seq<T>, naming: Naming<T>)
    requires IsNaming(naming)
    ensures Dedupe(Dedupe(ps, naming), naming) == Dedupe(ps, naming) <==> !Clashes(Dedupe(ps, naming), naming)
  {
    DedupeIsDistinct(ps, naming);
    DistinctStay(Dedupe(ps, naming), naming);
    KeepsFirstOfEachNameIffNoClash(Dedupe(ps, naming), naming);
  }

  /** It is enough that no property has a made-up name. */
  lemma ReservedNamesAvoidClashes<T>(ps: seq<T>, naming: Naming<T>)
    requires forall p, k: nat :: p in ps ==> naming.name(p) != naming.madeUp(k)
    ensures !Clashes(ps, naming) && !Clashes(Dedupe(ps, naming), naming)
  {
    var qs := Dedupe(ps, naming);
    forall i, k | 0 <= i < |qs| && 0 <= k < |qs| ensures !ClashAt(qs, i, k, naming) {
      DedupeHolds(ps, qs[i], naming);
    }
  }

  /**
   The positions move up when a duplicate goes. Behind a repeated name, a property without name and one called
   `__unnamed_1` both stay at first, and the second time the latter is lost.
   */
  lemma SecondPassLosesProperty<T>(a: T, b: T, c: T, d: T, naming: Naming<T>)
    requires IsNaming(naming)
    requires naming.name(a) == naming.name(b) != "" && naming.name(c) == ""
    requires naming.name(d) == naming.madeUp(1) && naming.name(a) != naming.madeUp(1)
    requires naming.name(a) != naming.madeUp(2)
    ensures Dedupe([a, b, c, d], naming) == [a, c, d] && Dedupe([a, c, d], naming) == [a, c]
  {
    var ab, abc, abcd, ac, acd := [a, b], [a, b, c], [a, b, c, d], [a, c], [a, c, d];
    assert abcd[..3] == abc && abc[..2] == ab && ab[..1] == [a] && [a][..0] == [];
    assert acd[..2] == ac && ac[..1] == [a];
    assert SameKey(ab, 0, 1, naming) && !IsDuplicate([a], 0, naming);
    assert !IsDuplicate(abc, 2, naming) && !IsDuplicate(abcd, 3, naming);
    assert SameKey(acd, 1, 2, naming) && !IsDuplicate(ac, 1, naming);
    assert Dedupe([], naming) == [] && Dedupe([a], naming) == [a];
    assert Dedupe(ab, naming) == [a];
    assert Dedupe(abc, naming) == ac;
    assert Dedupe(ac, naming) == ac;
  }

  lemma {:induction false} DedupeKeeps<T>(ps: seq<T>, i: nat, naming: Naming<T>)
    requires i < |ps| && !IsDuplicate(ps, i, naming)
    ensures ps[i] in Dedupe(ps, naming)
  {
    var n := |ps| - 1;
    if i < n {
      assert forall j :: 0 <= j < i ==> SameKey(ps[..n], j, i, naming) == SameKey(ps, j, i, naming);
      DedupeKeeps(ps[..n], i, naming);
    }
  }

  /** A property is kept when no other one has its name, made-up names included. */
  lemma {:induction false} OnlyOneIsKept<T>(ps: seq<T>, p: T, naming: Naming<T>)
    requires p in ps && naming.name(p) != ""
    requires forall q :: q in ps && naming.name(q) == naming.name(p) ==> q == p
    requires forall k :: naming.madeUp(k) != naming.name(p)
    ensures p in Dedupe(ps, naming)
  {
    var i := FirstIndex(ps, p);
    forall j | 0 <= j < i ensures !SameKey(ps, j, i, naming) {
      assert ps[j] in ps && ps[j] != p;
    }
    DedupeKeeps(ps, i, naming);
  }

  lemma {:induction false} FirstIndex<T>(ps: seq<T>, p: T) returns (i: nat)
    requires p in ps
    ensures i < |ps| && ps[i] == p && forall j :: 0 <= j < i ==> ps[j] != p
  {
    if ps[0] == p {
      i := 0;
    } else {
      i := FirstIndex(ps[1..], p);
      i := i + 1;
    }
  }
}
