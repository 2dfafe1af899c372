/**
 The order of the fields of normalised data: what is left of the rewritten fields, then the vendor attributes in the
 order of the table. With it, normalising is shown to be idempotent to the letter.
 */
module NormalizedOrder {
  import opened Options
  import opened JsonValues
  import opened Namespaces
  import opened ExtensionAttributes
  import opened ExtensionElements
  import opened PropertyNames
  import opened NormalizedData

  // ---- The names are distinct ----

  predicate DistinctNames(names: seq<string>) {
    forall i, j :: 0 <= i < j < |names| ==> names[i] != names[j]
  }

  /** Length, first and last character of a text. */
  function Code(s: string): (int, char, char) {
    if s == "" then (0, ' ', ' ') else (|s|, s[0], s[|s| - 1])
  }

  lemma TaskCodes()
    ensures |TASK_NAMES| == 5 && |USER_NAMES| == 5
    ensures Code(TASK_NAMES[0]) == (5, 't', 'c') && Code(TASK_NAMES[1]) == (8, 't', 'e')
    ensures Code(TASK_NAMES[2]) == (12, 's', 't') && Code(TASK_NAMES[3]) == (14, 'r', 'e')
    ensures Code(TASK_NAMES[4]) == (7, 't', 't')
  {
  }

  lemma UserCodes()
    ensures Code(USER_NAMES[0]) == (8, 'a', 'e') && Code(USER_NAMES[1]) == (14, 'c', 's')
    ensures Code(USER_NAMES[2]) == (15, 'c', 's') && Code(USER_NAMES[3]) == (7, 'd', 'e')
    ensures Code(USER_NAMES[4]) == (14, 'c', 'y')
  {
  }

  lemma EventCodes()
    ensures |EVENT_NAMES| == 5 && |FLOW_NAMES| == 5
    ensures Code(EVENT_NAMES[0]) == (11, 'd', 'f') && Code(EVENT_NAMES[1]) == (13, 't', 'n')
    ensures Code(EVENT_NAMES[2]) == (9, 'e', 'e') && Code(EVENT_NAMES[3]) == (12, 'e', 'e')
    ensures Code(EVENT_NAMES[4]) == (9, 'c', 'n')
  {
  }

  lemma FlowCodes()
    ensures Code(FLOW_NAMES[0]) == (12, 's', 'e') && Code(FLOW_NAMES[1]) == (12, 't', 'e')
    ensures Code(FLOW_NAMES[2]) == (10, 'c', 'n') && Code(FLOW_NAMES[3]) == (15, 'e', 'e')
    ensures Code(FLOW_NAMES[4]) == (20, 'c', 'n')
  {
  }

  function CodeAt(i: int): (int, char, char) {
    if i == 0 then (5, 't', 'c') else if i == 1 then (8, 't', 'e') else if i == 2 then (12, 's', 't') else
    if i == 3 then (14, 'r', 'e') else if i == 4 then (7, 't', 't') else if i == 5 then (8, 'a', 'e') else
    if i == 6 then (14, 'c', 's') else if i == 7 then (15, 'c', 's') else if i == 8 then (7, 'd', 'e') else
    if i == 9 then (14, 'c', 'y') else if i == 10 then (11, 'd', 'f') else if i == 11 then (13, 't', 'n') else
    if i == 12 then (9, 'e', 'e') else if i == 13 then (12, 'e', 'e') else if i == 14 then (9, 'c', 'n') else
    if i == 15 then (12, 's', 'e') else if i == 16 then (12, 't', 'e') else if i == 17 then (10, 'c', 'n') else
    if i == 18 then (15, 'e', 'e') else (20, 'c', 'n')
  }

  lemma FirstHalf(i: int)
    requires 0 <= i < 10
    ensures |TASK_NAMES + USER_NAMES| == 10 && Code((TASK_NAMES + USER_NAMES)[i]) == CodeAt(i)
  {
    TaskCodes();
    UserCodes();
  }

  lemma SecondHalf(i: int)
    requires 0 <= i < 10
    ensures |EVENT_NAMES + FLOW_NAMES| == 10 && Code((EVENT_NAMES + FLOW_NAMES)[i]) == CodeAt(i + 10)
  {
    EventCodes();
    FlowCodes();
  }

  lemma NameCode(i: int)
    requires 0 <= i < |NAMES|
    ensures |NAMES| == 20 && Code(NAMES[i]) == CodeAt(i)
  {
    FirstHalf(0);
    SecondHalf(0);
    var a, b := TASK_NAMES + USER_NAMES, EVENT_NAMES + FLOW_NAMES;
    assert NAMES == a + b;
    if i < 10 {
      FirstHalf(i);
    } else {
      SecondHalf(i - 10);
    }
  }

  lemma CodesDiffer(i: int, j: int)
    requires 0 <= i < j < 20
    ensures CodeAt(i) != CodeAt(j)
  {
  }

  lemma NamesAreDistinct()
    ensures DistinctNames(NAMES)
  {
    forall i, j | 0 <= i < j < |NAMES| ensures NAMES[i] != NAMES[j] {
      NameCode(i);
      NameCode(j);
      CodesDiffer(i, j);
    }
  }

  // ---- What moving the attributes leads to ----

  function AllKeys(names: seq<string>, context: seq<string>): seq<string> {
    if names == [] then []
    else AllKeys(names[..|names| - 1], context) + AttributeKeys(names[|names| - 1], context)
  }

  lemma {:induction false} AllKeysAre(names: seq<string>, context: seq<string>, k: string)
    ensures k in AllKeys(names, context) <==> exists n :: n in names && k in AttributeKeys(n, context)
  {
    if names != [] {
      var last := |names| - 1;
      AllKeysAre(names[..last], context, k);
      assert forall n :: n in names <==> n in names[..last] || n == names[last];
    }
  }

  /** The attributes that are there, under their canonical keys, in the order of the names. */
  function Moved(data: seq<Field>, names: seq<string>, context: seq<string>): seq<Field> {
    if names == [] then []
    else
      var n := |names| - 1;
      var value := GetAttribute(data, names[n], context);
      Moved(data, names[..n], context) + if value.Some? then [Field(Attr(VENDOR, names[n]), value.value)] else []
  }

  ghost predicate IsOwnKey(names: seq<string>, key: string) {
    exists n :: n in names && key == Attr(VENDOR, n)
  }

  lemma {:induction false} MovedKeys(data: seq<Field>, names: seq<string>, context: seq<string>)
    ensures forall f :: f in Moved(data, names, context) ==> IsOwnKey(names, f.key)
  {
    if names != [] {
      var n := |names| - 1;
      MovedKeys(data, names[..n], context);
      forall f | f in Moved(data, names, context) ensures IsOwnKey(names, f.key) {
        if f in Moved(data, names[..n], context) {
          var m :| m in names[..n] && f.key == Attr(VENDOR, m);
          assert m in names;
        } else {
          assert f.key == Attr(VENDOR, names[n]);
        }
      }
    }
  }

  lemma {:induction false} MovedSame(
      data: seq<Field>, context: seq<string>, data': seq<Field>, context': seq<string>, names: seq<string>)
    requires forall n :: n in names ==> GetAttribute(data, n, context) == GetAttribute(data', n, context')
    ensures Moved(data, names, context) == Moved(data', names, context')
  {
    if names != [] {
      MovedSame(data, context, data', context', names[..|names| - 1]);
      assert names[|names| - 1] in names;
    }
  }

  lemma {:induction false} DeleteAllTwice(fs: seq<Field>, a: seq<string>, b: seq<string>)
    ensures DeleteAll(DeleteAll(fs, a), b) == DeleteAll(fs, a + b)
    decreases a
  {
    if a == [] {
      assert a + b == b;
    } else {
      assert (a + b)[1..] == a[1..] + b;
      DeleteAllTwice(Delete(fs, a[0]), a[1..], b);
    }
  }

  lemma OwnKeyOfOthers(names: seq<string>, name: string, context: seq<string>, key: string)
    requires IsContext(context) && AreLocalNames(names) && IsLocalName(name) && name !in names && IsOwnKey(names, key)
    ensures key !in AttributeKeys(name, context)
  {
    var m :| m in names && key == Attr(VENDOR, m);
    CanonicalKeyIsOwn(m, context);
    KeysAreDisjoint(m, name, context, context, key);
  }

  lemma {:induction false} MoveAppends(out: seq<Field>, data: seq<Field>, names: seq<string>, context: seq<string>)
    requires IsContext(context) && AreLocalNames(names) && DistinctNames(names)
    ensures MoveAttributes(out, data, names, context)
         == DeleteAll(out, AllKeys(names, context)) + Moved(data, names, context)
  {
    if names != [] {
      var n := |names| - 1;
      var front, tail := DeleteAll(out, AllKeys(names[..n], context)), Moved(data, names[..n], context);
      MoveAppends(out, data, names[..n], context);
      MovedKeys(data, names[..n], context);
      DeleteAllTwice(out, AllKeys(names[..n], context), AttributeKeys(names[n], context));
      MoveOne(front, tail, data, names[..n], names[n], context);
    }
  }

  lemma MoveOne(front: seq<Field>, tail: seq<Field>, data: seq<Field>, names: seq<string>, name: string,
                context: seq<string>)
    requires IsContext(context) && AreLocalNames(names) && IsLocalName(name) && name !in names
    requires forall f :: f in tail ==> IsOwnKey(names, f.key)
    ensures MoveAttribute(front + tail, data, name, context)
         == DeleteAll(front, AttributeKeys(name, context))
            + (tail + match GetAttribute(data, name, context)
                      case Some(v) => [Field(Attr(VENDOR, name), v)]
                      case None => [])
  {
    var keys := AttributeKeys(name, context);
    forall f | f in tail ensures f.key !in keys {
      OwnKeyOfOthers(names, name, context, f.key);
    }
    DeleteAllOfConcat(front, tail, keys);
    DeleteAllAbsent(tail, keys);
    CanonicalKeyIsOwn(name, context);
    LookupDeleteAll(front + tail, keys, Attr(VENDOR, name));
    var value := GetAttribute(data, name, context);
    if value.Some? {
      SetNewAppends(DeleteAll(front, keys) + tail, Attr(VENDOR, name), value.value);
    }
  }

  lemma AllNamesAppend(out: seq<Field>, data: seq<Field>, context: seq<string>)
    requires IsContext(context)
    ensures MoveAttributes(out, data, NAMES, context) ==
      DeleteAll(out, AllKeys(NAMES, context)) + Moved(data, NAMES, context)
  {
    AllNamesAreLocal();
    NamesAreDistinct();
    MoveAppends(out, data, NAMES, context);
  }

  // ---- Where the extension elements stand ----

  /** Rewriting takes the key of the extension elements for one of the vendor's. */
  predicate BindsBpmn(context: seq<string>) {
    CanonicalKey(EXTENSIONS, Prefixes(context)).Some?
  }

  /** The extension elements lose their place: rewriting renames their key, and they are added again at the end. */
  ghost predicate Displaced(data: seq<Field>, context: seq<string>) {
    BindsBpmn(context) && NormalizedExtensions(data, context).Some?
  }

  ghost predicate SameKeys(fs: seq<Field>, gs: seq<Field>) {
    |fs| == |gs| && forall i :: 0 <= i < |fs| ==> fs[i].key == gs[i].key
  }

  lemma {:induction false} SetKeepsKeys(fs: seq<Field>, key: string, value: Json)
    requires Has(fs, key)
    ensures SameKeys(Set(fs, key, value), fs)
  {
    if fs[0].key != key {
      SetKeepsKeys(fs[1..], key, value);
      assert forall i :: 0 < i < |fs| ==> fs[i] == fs[1..][i - 1];
    }
  }

  lemma {:induction false} SetInFront(fs: seq<Field>, gs: seq<Field>, key: string, value: Json)
    requires Has(fs, key)
    ensures Set(fs + gs, key, value) == Set(fs, key, value) + gs
  {
    assert (fs + gs)[0] == fs[0] && (fs + gs)[1..] == fs[1..] + gs;
    if fs[0].key == key {
      assert Set(fs + gs, key, value) == [Field(key, value)] + (fs[1..] + gs);
    } else {
      SetInFront(fs[1..], gs, key, value);
    }
  }

  lemma {:induction false} PlainStays(fs: seq<Field>, prefixes: seq<string>, key: string, i: nat)
    requires i < |fs| && fs[i].key == key && CanonicalKey(key, prefixes).None?
    ensures LastOf(PlainFields(fs, prefixes), key).Some?
  {
    var n := |fs| - 1;
    var before := PlainFields(fs[..n], prefixes);
    assert before + [] == before;
    LastOneMore(before, Field(fs[n].key, Canon(fs[n].value, prefixes)), key);
    if i < n {
      PlainStays(fs[..n], prefixes, key, i);
    }
  }

  lemma {:induction false} VendorStays(fs: seq<Field>, prefixes: seq<string>, i: nat)
    requires i < |fs| && CanonicalKey(fs[i].key, prefixes).Some?
    ensures LastOf(VendorFields(fs, prefixes), CanonicalKey(fs[i].key, prefixes).value).Some?
  {
    var n := |fs| - 1;
    var before, key := VendorFields(fs[..n], prefixes), CanonicalKey(fs[n].key, prefixes);
    assert before + [] == before;
    if key.Some? {
      LastOneMore(before, Field(key.value, Canon(fs[n].value, prefixes)), CanonicalKey(fs[i].key, prefixes).value);
    }
    if i < n {
      VendorStays(fs[..n], prefixes, i);
    }
  }

  lemma PlainIsFound(fs: seq<Field>, prefixes: seq<string>, key: string)
    requires Has(fs, key) && CanonicalKey(key, prefixes).None?
    ensures Has(CanonFields(fs, prefixes), key)
  {
    var i := LookupFinds(fs, key);
    PlainStays(fs, prefixes, key, i);
    LookupSetAll([], PlainFields(fs, prefixes), key);
    LookupSetAll(SetAll([], PlainFields(fs, prefixes)), VendorFields(fs, prefixes), key);
  }

  lemma VendorIsFound(fs: seq<Field>, prefixes: seq<string>, key: string)
    requires Has(fs, key) && CanonicalKey(key, prefixes).Some?
    ensures Has(CanonFields(fs, prefixes), CanonicalKey(key, prefixes).value)
  {
    var i := LookupFinds(fs, key);
    VendorStays(fs, prefixes, i);
    LookupSetAll(SetAll([], PlainFields(fs, prefixes)), VendorFields(fs, prefixes), CanonicalKey(key, prefixes).value);
  }

  // ---- The two parts of normalised data ----

  /** `front` is followed by the attributes, and holds no key of an attribute. */
  ghost predicate InParts(fs: seq<Field>, front: seq<Field>, data: seq<Field>, context: seq<string>) {
    && fs == front + Moved(data, NAMES, context)
    && PlainFirst(front) && forall f :: f in front ==> f.key !in AllKeys(NAMES, context)
  }

  lemma ExtensionsAreNoKey(context: seq<string>)
    ensures EXTENSIONS !in AllKeys(NAMES, context) && !IsVendor(EXTENSIONS)
  {
    ExtensionsAreNoAttribute(context);
    AllKeysAre(NAMES, context, EXTENSIONS);
  }

  lemma MovedInParts(data: seq<Field>, context: seq<string>) returns (front: seq<Field>)
    requires IsContext(context)
    ensures front == DeleteAll(CanonFields(data, Prefixes(context)), AllKeys(NAMES, context))
    ensures InParts(MoveAttributes(CanonFields(data, Prefixes(context)), data, NAMES, context), front, data, context)
  {
    var canon, keys := CanonFields(data, Prefixes(context)), AllKeys(NAMES, context);
    front := DeleteAll(canon, keys);
    AllNamesAppend(canon, data, context);
    PrefixesAreContext(context);
    CanonFieldsAreCanonical(data, Prefixes(context));
    DeleteAllKeepsOrder(canon, keys);
    forall f | f in front ensures f.key !in keys {
      DeleteAllHolds(canon, keys, f);
    }
  }

  lemma SetInParts(fs: seq<Field>, front: seq<Field>, data: seq<Field>, context: seq<string>, value: Json)
    requires InParts(fs, front, data, context) && Has(front, EXTENSIONS)
    ensures InParts(Set(fs, EXTENSIONS, value), Set(front, EXTENSIONS, value), data, context)
  {
    var out := Set(front, EXTENSIONS, value);
    SetInFront(front, Moved(data, NAMES, context), EXTENSIONS, value);
    SetKeepsKeys(front, EXTENSIONS, value);
    forall f | f in out ensures f.key !in AllKeys(NAMES, context) {
      var i :| 0 <= i < |out| && out[i] == f;
      assert front[i] in front;
    }
  }

  lemma DeleteInParts(fs: seq<Field>, front: seq<Field>, data: seq<Field>, context: seq<string>)
    requires InParts(fs, front, data, context)
    ensures InParts(Delete(fs, EXTENSIONS), Delete(front, EXTENSIONS), data, context)
  {
    var tail := Moved(data, NAMES, context);
    DeleteOfConcat(front, tail, EXTENSIONS);
    ExtensionsAreNoKey(context);
    MovedKeys(data, NAMES, context);
    forall f | f in tail ensures f.key != EXTENSIONS {
      OwnKeyIsVendor(NAMES, f.key);
    }
    DeleteAbsent(tail, EXTENSIONS);
    DeleteKeepsOrder(front, EXTENSIONS);
    forall f | f in Delete(front, EXTENSIONS) ensures f.key !in AllKeys(NAMES, context) {
      DeleteHolds(front, EXTENSIONS, f);
    }
  }

  lemma OwnKeyIsVendor(names: seq<string>, key: string)
    requires IsOwnKey(names, key)
    ensures IsVendor(key)
  {
    var n :| n in names && key == Attr(VENDOR, n);
    PrefixedIsVendor(n);
  }

  lemma NormalizedInParts(data: seq<Field>, context: seq<string>) returns (front: seq<Field>)
    requires IsContext(context) && !Displaced(data, context)
    ensures InParts(NormalizeData(data, context), front, data, context)
  {
    var canon := CanonFields(data, Prefixes(context));
    var moved := MoveAttributes(canon, data, NAMES, context);
    front := MovedInParts(data, context);
    if Has(data, EXTENSIONS) {
      var e := NormalizedExtensions(data, context);
      if e.Some? {
        PlainIsFound(data, Prefixes(context), EXTENSIONS);
        ExtensionsAreNoKey(context);
        LookupDeleteAll(canon, AllKeys(NAMES, context), EXTENSIONS);
        SetInParts(moved, front, data, context, Object(e.value));
        front := Set(front, EXTENSIONS, Object(e.value));
      } else {
        DeleteInParts(moved, front, data, context);
        front := Delete(front, EXTENSIONS);
      }
    }
  }

  /** Fields without canonical prefix come first, as the attributes come last. */
  lemma PartsAreInOrder(fs: seq<Field>, front: seq<Field>, data: seq<Field>, context: seq<string>)
    requires InParts(fs, front, data, context)
    ensures PlainFirst(fs)
  {
    var tail := Moved(data, NAMES, context);
    MovedKeys(data, NAMES, context);
    forall i, j | 0 <= i < j < |fs| && IsVendor(fs[i].key) ensures IsVendor(fs[j].key) {
      if j >= |front| {
        assert fs[j] == tail[j - |front|] && fs[j] in tail;
        OwnKeyIsVendor(NAMES, fs[j].key);
      }
    }
  }

  lemma DefaultKeysAreAll(context: seq<string>, k: string)
    requires IsContext(context) && k in AllKeys(NAMES, DEFAULT_CONTEXT)
    ensures k in AllKeys(NAMES, context)
  {
    AllKeysAre(NAMES, DEFAULT_CONTEXT, k);
    AllKeysAre(NAMES, context, k);
    var n :| n in NAMES && k in AttributeKeys(n, DEFAULT_CONTEXT);
    DefaultKeysAreKeys(n, context, k);
  }

  lemma OwnKeysAreKeys(key: string)
    requires IsOwnKey(NAMES, key)
    ensures key in AllKeys(NAMES, DEFAULT_CONTEXT)
  {
    var n :| n in NAMES && key == Attr(VENDOR, n);
    CanonicalKeyIsOwn(n, DEFAULT_CONTEXT);
    AllKeysAre(NAMES, DEFAULT_CONTEXT, key);
  }

  /** Rewriting and clearing the two parts once more takes away the attributes. */
  lemma ClearingParts(fs: seq<Field>, front: seq<Field>, data: seq<Field>, context: seq<string>)
    requires IsContext(context) && InParts(fs, front, data, context) && Distinct(fs)
    ensures DeleteAll(CanonFields(fs, Prefixes(DEFAULT_CONTEXT)), AllKeys(NAMES, DEFAULT_CONTEXT)) == Mapped(front)
  {
    var tail, keys := Moved(data, NAMES, context), AllKeys(NAMES, DEFAULT_CONTEXT);
    DefaultPrefixes();
    PartsAreInOrder(fs, front, data, context);
    OrderedFieldsStay(fs);
    MappedOfConcat(front, tail);
    MappedKeys(front);
    MappedKeys(tail);
    MovedKeys(data, NAMES, context);
    forall f | f in Mapped(front) ensures f.key !in keys {
      var i :| 0 <= i < |front| && Mapped(front)[i] == f;
      assert front[i] in front;
      if f.key in keys {
        DefaultKeysAreAll(context, f.key);
      }
    }
    forall i | 0 <= i < |tail| ensures Mapped(tail)[i].key in keys {
      assert tail[i] in tail;
      OwnKeysAreKeys(tail[i].key);
    }
    DeleteAllOfConcat(Mapped(front), Mapped(tail), keys);
    DeleteAllAbsent(Mapped(front), keys);
    DeleteAllGone(Mapped(tail), keys);
  }

  lemma MovedAgain(data: seq<Field>, context: seq<string>)
    requires IsContext(context)
    ensures Moved(NormalizeData(data, context), NAMES, DEFAULT_CONTEXT) == Moved(data, NAMES, context)
  {
    var once := NormalizeData(data, context);
    forall n | n in NAMES ensures GetAttribute(once, n, DEFAULT_CONTEXT) == GetAttribute(data, n, context) {
      NormalizeKeepsAttributes(data, context, n);
    }
    MovedSame(once, DEFAULT_CONTEXT, data, context, NAMES);
  }

  lemma SecondMove(fs: seq<Field>, front: seq<Field>, data: seq<Field>, context: seq<string>)
    requires IsContext(context) && InParts(fs, front, data, context) && Distinct(fs)
    requires Moved(fs, NAMES, DEFAULT_CONTEXT) == Moved(data, NAMES, context)
    ensures SameKeys(MoveAttributes(CanonFields(fs, Prefixes(DEFAULT_CONTEXT)), fs, NAMES, DEFAULT_CONTEXT), fs)
  {
    ClearingParts(fs, front, data, context);
    AllNamesAppend(CanonFields(fs, Prefixes(DEFAULT_CONTEXT)), fs, DEFAULT_CONTEXT);
    MappedFrontKeys(front, Moved(data, NAMES, context));
  }

  lemma MappedFrontKeys(front: seq<Field>, tail: seq<Field>)
    ensures SameKeys(Mapped(front) + tail, front + tail)
  {
    MappedKeys(front);
  }

  lemma SameKeysFound(fs: seq<Field>, gs: seq<Field>, key: string)
    requires SameKeys(fs, gs) && Has(gs, key)
    ensures Has(fs, key)
  {
    var i := LookupFinds(gs, key);
    var _ := LookupFinds(fs, key);
    assert fs[i].key == key;
  }

  /** In a second pass every field keeps its place. */
  lemma SecondPassKeepsPlaces(data: seq<Field>, context: seq<string>)
    requires IsContext(context) && !Displaced(data, context)
    ensures
      var once := NormalizeData(data, context);
      var twice := NormalizeData(once, DEFAULT_CONTEXT);
      SameFields(twice, once) ==> SameKeys(twice, once)
  {
    var once := NormalizeData(data, context);
    var front := NormalizedInParts(data, context);
    NormalizedIsDistinct(data, context);
    MovedAgain(data, context);
    SecondMove(once, front, data, context);
    LastStepKeepsPlaces(once);
  }

  lemma LastStepKeepsPlaces(once: seq<Field>)
    requires
      SameKeys(MoveAttributes(CanonFields(once, Prefixes(DEFAULT_CONTEXT)), once, NAMES, DEFAULT_CONTEXT), once)
    ensures SameFields(NormalizeData(once, DEFAULT_CONTEXT), once) ==>
      SameKeys(NormalizeData(once, DEFAULT_CONTEXT), once)
  {
    var moved := MoveAttributes(CanonFields(once, Prefixes(DEFAULT_CONTEXT)), once, NAMES, DEFAULT_CONTEXT);
    if SameFields(NormalizeData(once, DEFAULT_CONTEXT), once) && Has(once, EXTENSIONS) {
      NormalizedAtExtensions(once, DEFAULT_CONTEXT);
      SameKeysFound(moved, once, EXTENSIONS);
      SetKeepsKeys(moved, EXTENSIONS, Object(NormalizedExtensions(once, DEFAULT_CONTEXT).value));
    }
  }

  lemma SameKeysSameFields(fs: seq<Field>, gs: seq<Field>)
    requires Distinct(fs) && Distinct(gs) && SameKeys(fs, gs) && SameFields(fs, gs)
    ensures fs == gs
  {
    forall i | 0 <= i < |fs| ensures fs[i] == gs[i] {
      LookupIndex(fs, i);
      LookupIndex(gs, i);
      assert Lookup(fs, fs[i].key) == Lookup(gs, fs[i].key);
    }
  }

  // ---- Displaced extension elements ----

  predicate IsVendorElement(key: string) {
    IsVendor(key) && key != "" && key[0] == 'a'
  }

  lemma VendorElement(local: string)
    ensures IsVendorElement(Elem(VENDOR, local))
  {
    PrefixedIsVendor(local);
  }

  lemma {:induction false} RenamedElement(prefixes: seq<string>)
    ensures
      var key := CanonicalKey(EXTENSIONS, prefixes);
      key.Some? ==> IsVendorElement(key.value)
  {
    if prefixes != [] {
      var e := Elem(prefixes[0], "");
      assert EXTENSIONS[0] == 'b' && Attr(prefixes[0], "")[0] == '@';
      if e <= EXTENSIONS {
        VendorElement(EXTENSIONS[|e|..]);
      } else {
        RenamedElement(prefixes[1..]);
      }
    }
  }

  lemma ElementIsNoAttribute(key: string, context: seq<string>)
    requires IsVendorElement(key)
    ensures forall n :: n in NAMES ==> key !in AttributeKeys(n, context)
  {
    forall n | n in NAMES ensures key !in AttributeKeys(n, context) {
      NamesAreLocal(n);
      if key in AttributeKeys(n, context) {
        KeyTellsName(n, context, key);
        assert false;
      }
    }
  }

  lemma {:induction false} RenamedIsNotPlain(fs: seq<Field>, prefixes: seq<string>, key: string)
    requires CanonicalKey(key, prefixes).Some?
    ensures forall f :: f in PlainFields(fs, prefixes) ==> f.key != key
  {
    if fs != [] {
      RenamedIsNotPlain(fs[..|fs| - 1], prefixes, key);
    }
  }

  lemma RenamedIsGone(fs: seq<Field>, prefixes: seq<string>, key: string)
    requires IsContext(prefixes) && CanonicalKey(key, prefixes).Some? && !IsVendor(key)
    ensures !Has(CanonFields(fs, prefixes), key)
  {
    var plain, vendor := PlainFields(fs, prefixes), VendorFields(fs, prefixes);
    RenamedIsNotPlain(fs, prefixes, key);
    PartsAreCanonical(fs, prefixes);
    NotLast(plain, key);
    NotLast(vendor, key);
    LookupSetAll([], plain, key);
    LookupSetAll(SetAll([], plain), vendor, key);
  }

  lemma VendorThenPlain(fs: seq<Field>, vendor: string, key: string, value: Json)
    requires Has(fs, vendor) && IsVendor(vendor) && !Has(fs, key) && !IsVendor(key)
    ensures !PlainFirst(Set(fs, key, value))
  {
    SetNewAppends(fs, key, value);
    var i := LookupFinds(fs, vendor);
    var out := Set(fs, key, value);
    assert out[i].key == vendor && out[|fs|].key == key;
  }

  lemma DisplacedIsOutOfOrder(data: seq<Field>, context: seq<string>)
    requires IsContext(context) && Displaced(data, context)
    ensures !PlainFirst(NormalizeData(data, context))
  {
    var prefixes := Prefixes(context);
    var canon, key := CanonFields(data, prefixes), CanonicalKey(EXTENSIONS, prefixes).value;
    PrefixesAreContext(context);
    ExtensionsAreNoAttribute(context);
    RenamedElement(prefixes);
    VendorIsFound(data, prefixes, EXTENSIONS);
    RenamedIsGone(data, prefixes, EXTENSIONS);
    ElementIsNoAttribute(key, context);
    MoveAttributesAtOther(canon, data, NAMES, context, key);
    MoveAttributesAtOther(canon, data, NAMES, context, EXTENSIONS);
    VendorThenPlain(MoveAttributes(canon, data, NAMES, context), key, EXTENSIONS,
                    Object(NormalizedExtensions(data, context).value));
  }

  lemma DefaultBindsOwn()
    ensures !BindsBpmn(DEFAULT_CONTEXT)
  {
    DefaultPrefixes();
    DefaultKeys(EXTENSIONS);
    ExtensionsAreNoKey(DEFAULT_CONTEXT);
  }

  lemma DisplacedMoves(data: seq<Field>, context: seq<string>)
    requires IsContext(context) && Displaced(data, context)
    ensures NormalizeData(NormalizeData(data, context), DEFAULT_CONTEXT) != NormalizeData(data, context)
  {
    var once := NormalizeData(data, context);
    DisplacedIsOutOfOrder(data, context);
    DefaultBindsOwn();
    var front := NormalizedInParts(once, DEFAULT_CONTEXT);
    PartsAreInOrder(NormalizeData(once, DEFAULT_CONTEXT), front, once, DEFAULT_CONTEXT);
  }

  lemma OthersStay(data: seq<Field>, context: seq<string>)
    requires IsContext(context) && !Displaced(data, context)
    requires SameFields(NormalizeData(NormalizeData(data, context), DEFAULT_CONTEXT), NormalizeData(data, context))
    ensures NormalizeData(NormalizeData(data, context), DEFAULT_CONTEXT) == NormalizeData(data, context)
  {
    var once := NormalizeData(data, context);
    SecondPassKeepsPlaces(data, context);
    NormalizedIsDistinct(data, context);
    NormalizedIsDistinct(once, DEFAULT_CONTEXT);
    SameKeysSameFields(NormalizeData(once, DEFAULT_CONTEXT), once);
  }

  // ---- Which contexts bind `bpmn` ----

  /** The only colon of the key stands behind `bpmn`. */
  lemma OnlyColon(prefix: string)
    ensures prefix + ":" <= EXTENSIONS <==> prefix == "bpmn"
  {
    assert EXTENSIONS == "bpmn" + ":" + "extensionElements";
    if prefix + ":" <= EXTENSIONS {
      assert (prefix + ":")[|prefix|] == ':';
      assert EXTENSIONS[|prefix|] == ':';
      assert |prefix| == 4;
      assert prefix == EXTENSIONS[..4];
    }
  }

  lemma {:induction false} RenamedIff(prefixes: seq<string>)
    ensures CanonicalKey(EXTENSIONS, prefixes).Some? <==> "bpmn" in prefixes
  {
    if prefixes != [] {
      RenamedIff(prefixes[1..]);
      OnlyColon(prefixes[0]);
      assert EXTENSIONS[0] == 'b' && Attr(prefixes[0], "")[0] == '@';
      assert Elem(prefixes[0], "") == prefixes[0] + ":";
      assert "bpmn" in prefixes <==> "bpmn" == prefixes[0] || "bpmn" in prefixes[1..];
    }
  }

  lemma BindsBpmnIff(context: seq<string>)
    ensures BindsBpmn(context) <==> "bpmn" in context
  {
    RenamedIff(Prefixes(context));
    UniqueHolds([VENDOR] + context, "bpmn");
    assert |VENDOR| != |"bpmn"|;
  }

  // ---- Main results ----

  /**
   Normalising data once more changes nothing, the order of fields included, if and only if no merged property has the
   made-up name of another one and the extension elements have kept their place.
   */
  lemma NormalizeIsIdempotentIff(data: seq<Field>, context: seq<string>)
    requires IsContext(context)
    ensures NormalizeData(NormalizeData(data, context), DEFAULT_CONTEXT) == NormalizeData(data, context)
            <==> !Clashes(MergedIn(data, context), NAMING) && !Displaced(data, context)
  {
    NormalizeKeepsFieldsIff(data, context);
    if Displaced(data, context) {
      DisplacedMoves(data, context);
    } else if !Clashes(MergedIn(data, context), NAMING) {
      OthersStay(data, context);
    }
  }

  /** So a file that binds no prefix `bpmn` to the vendor namespace only has to avoid the made-up names. */
  lemma NormalizeIsIdempotent(data: seq<Field>, context: seq<string>)
    requires IsContext(context) && "bpmn" !in context
    requires ExtensionFields(data).Some? ==>
               forall p, n: nat :: p in AllProperties(ExtensionFields(data).value, context) ==> NameOf(p) != Unnamed(n)
    ensures NormalizeData(NormalizeData(data, context), DEFAULT_CONTEXT) == NormalizeData(data, context)
  {
    NormalizeKeepsFields(data, context);
    BindsBpmnIff(context);
    OthersStay(data, context);
  }

  /** An empty connector is enough to have extension elements moved when `bpmn` is bound to the vendor namespace. */
  lemma ConnectorIsDisplaced()
    ensures
      var data := [Field(EXTENSIONS, Object([Field(CONNECTOR, Object([]))]))];
      NormalizeData(NormalizeData(data, [VENDOR, "bpmn"]), DEFAULT_CONTEXT) != NormalizeData(data, [VENDOR, "bpmn"])
  {
    var fs, context := [Field(CONNECTOR, Object([]))], [VENDOR, "bpmn"];
    var data := [Field(EXTENSIONS, Object(fs))];
    BindsBpmnIff(context);
    ConnectorIsFirst(fs, context);
    AssembleAt(fs, MergedProperties(fs, context), FirstConnector(fs, context), context, CONNECTOR);
    assert NormalizeFields(fs, context) != [];
    DisplacedMoves(data, context);
  }

  lemma ConnectorIsFirst(fs: seq<Field>, context: seq<string>)
    requires IsContext(context) && Lookup(fs, CONNECTOR) == Some(Object([]))
    ensures FirstConnector(fs, context).Some?
  {
    var keys := ExtensionKeys("connector", context);
    assert keys[0] == CONNECTOR;
    var values := ValuesForKeys(fs, keys);
    assert values[0] == Object([]);
    assert FlatRecords(values) != [];
  }
}
