/**
 Vendor names in a parsed diagram. A file may bind any number of prefixes to the vendor namespace; keys are rewritten to
 the one canonical prefix, at every depth.
 */
module Namespaces {
  import opened Options
  import opened JsonValues

  const VENDOR := "artificialflow"
  const NAMESPACE := "http://artificialflow.io/schema/1.0/bpmn"

  /** The key of an element, and of an attribute, with a prefix. */
  function Elem(prefix: string, local: string): string {
    prefix + ":" + local
  }

  function Attr(prefix: string, local: string): string {
    "@_" + (prefix + ":" + local)
  }

  /** The values that are not empty, each at its first place. */
  function Unique(values: seq<string>): seq<string> {
    if values == [] then []
    else
      var n := |values| - 1;
      var before := Unique(values[..n]);
      if values[n] == "" || values[n] in before then before else before + [values[n]]
  }

  function PrefixesFor(definitions: seq<Field>): seq<string> {
    if definitions == [] then []
    else
      var n := |definitions| - 1;
      var f := definitions[n];
      PrefixesFor(definitions[..n])
      + if "@_xmlns:" <= f.key && f.value == Text(NAMESPACE) then [f.key[|"@_xmlns:"|..]] else []
  }

  function BpmnNamespaceContext(definitions: seq<Field>): seq<string> {
    Unique([VENDOR] + PrefixesFor(definitions))
  }

  /** A context: the canonical prefix comes first. */
  predicate IsContext(context: seq<string>) {
    context != [] && context[0] == VENDOR
  }

  const DEFAULT_CONTEXT: seq<string> := [VENDOR]

  lemma {:induction false} UniqueKeepsFirst(values: seq<string>)
    requires values != [] && values[0] != ""
    ensures Unique(values) != [] && Unique(values)[0] == values[0]
  {
    if |values| == 1 {
      assert Unique(values[..0]) == [];
    } else {
      UniqueKeepsFirst(values[..|values| - 1]);
    }
  }

  /** Whatever a file binds, its context begins with the canonical prefix. */
  lemma ContextsAreContexts(definitions: seq<Field>)
    ensures IsContext(BpmnNamespaceContext(definitions))
  {
    UniqueKeepsFirst([VENDOR] + PrefixesFor(definitions));
  }

  /** The file binds this prefix to the vendor namespace. */
  ghost predicate IsBound(definitions: seq<Field>, prefix: string) {
    exists f :: f in definitions && f.key == "@_xmlns:" + prefix && f.value == Text(NAMESPACE)
  }

  lemma {:induction false} BoundPrefixes(definitions: seq<Field>, prefix: string)
    ensures prefix in PrefixesFor(definitions) <==> IsBound(definitions, prefix)
  {
    if definitions != [] {
      var n := |definitions| - 1;
      var f := definitions[n];
      BoundPrefixes(definitions[..n], prefix);
      assert f.key == "@_xmlns:" + prefix <==> "@_xmlns:" <= f.key && f.key[|"@_xmlns:"|..] == prefix;
      assert forall g :: g in definitions <==> g in definitions[..n] || g == f;
    }
  }

  lemma {:induction false} UniqueHolds(values: seq<string>, v: string)
    ensures v in Unique(values) <==> v in values && v != ""
  {
    if values != [] {
      var n := |values| - 1;
      UniqueHolds(values[..n], v);
      assert v in values <==> v in values[..n] || v == values[n];
    }
  }

  lemma {:induction false} UniqueIsDistinct(values: seq<string>)
    ensures forall i, j :: 0 <= i < j < |Unique(values)| ==> Unique(values)[i] != Unique(values)[j]
  {
    if values != [] {
      UniqueIsDistinct(values[..|values| - 1]);
    }
  }

  /** The context of a file holds the canonical prefix first, every prefix it binds to the namespace, and no other. */
  lemma ContextHolds(definitions: seq<Field>, prefix: string)
    ensures IsContext(BpmnNamespaceContext(definitions))
    ensures prefix in BpmnNamespaceContext(definitions) <==>
      prefix == VENDOR || (prefix != "" && IsBound(definitions, prefix))
  {
    ContextsAreContexts(definitions);
    UniqueHolds([VENDOR] + PrefixesFor(definitions), prefix);
    BoundPrefixes(definitions, prefix);
  }

  // ---- Rewriting of keys ----

  function Prefixes(context: seq<string>): seq<string> {
    Unique([VENDOR] + context)
  }

  function CanonicalKey(key: string, prefixes: seq<string>): Option<string> {
    if prefixes == [] then None
    else if Attr(prefixes[0], "") <= key then Some(Attr(VENDOR, key[|Attr(prefixes[0], "")|..]))
    else if Elem(prefixes[0], "") <= key then Some(Elem(VENDOR, key[|Elem(prefixes[0], "")|..]))
    else CanonicalKey(key, prefixes[1..])
  }

  /** The key has the canonical prefix. */
  predicate IsVendor(key: string) {
    Attr(VENDOR, "") <= key || Elem(VENDOR, "") <= key
  }

  lemma PrefixedIsVendor(local: string)
    ensures IsVendor(Attr(VENDOR, local)) && IsVendor(Elem(VENDOR, local))
  {
    assert Attr(VENDOR, local) == Attr(VENDOR, "") + local;
    assert Elem(VENDOR, local) == Elem(VENDOR, "") + local;
  }

  lemma {:induction false} CanonicalKeyIsVendor(key: string, prefixes: seq<string>)
    ensures CanonicalKey(key, prefixes).Some? ==> IsVendor(CanonicalKey(key, prefixes).value)
  {
    if prefixes == [] {
    } else if Attr(prefixes[0], "") <= key {
      PrefixedIsVendor(key[|Attr(prefixes[0], "")|..]);
    } else if Elem(prefixes[0], "") <= key {
      PrefixedIsVendor(key[|Elem(prefixes[0], "")|..]);
    } else {
      CanonicalKeyIsVendor(key, prefixes[1..]);
    }
  }

  /** A key that is canonical stays as it is, whatever else is bound. */
  lemma VendorKeyStays(key: string, prefixes: seq<string>)
    requires IsContext(prefixes)
    ensures IsVendor(key) ==> CanonicalKey(key, prefixes) == Some(key)
  {
    var a, e := Attr(VENDOR, ""), Elem(VENDOR, "");
    if a <= key {
      assert Attr(VENDOR, key[|a|..]) == a + key[|a|..] == key;
    } else if e <= key {
      assert Elem(VENDOR, key[|e|..]) == e + key[|e|..] == key;
    }
  }

  lemma DefaultKeys(key: string)
    ensures CanonicalKey(key, DEFAULT_CONTEXT) == if IsVendor(key) then Some(key) else None
  {
    VendorKeyStays(key, DEFAULT_CONTEXT);
    assert DEFAULT_CONTEXT[1..] == [];
  }

  lemma DefaultPrefixes()
    ensures Prefixes(DEFAULT_CONTEXT) == DEFAULT_CONTEXT
  {
    var values := [VENDOR] + DEFAULT_CONTEXT;
    assert values[..1] == [VENDOR] && [VENDOR][..0] == [];
    assert Unique([VENDOR]) == [VENDOR];
  }

  lemma PrefixesAreContext(context: seq<string>)
    ensures IsContext(Prefixes(context))
  {
    UniqueKeepsFirst([VENDOR] + context);
  }

  // ---- Rewriting of values ----

  function Canon(v: Json, prefixes: seq<string>): Json
    decreases v
  {
    match v
    case Array(items) => Array(CanonItems(items, prefixes))
    case Object(fs) => Object(CanonFields(fs, prefixes))
    case _ => v
  }

  function CanonItems(items: seq<Json>, prefixes: seq<string>): seq<Json>
    decreases items
  {
    if items == [] then []
    else CanonItems(items[..|items| - 1], prefixes) + [Canon(items[|items| - 1], prefixes)]
  }

  /** First the fields without vendor key, then those with one, under their new keys. */
  function CanonFields(fs: seq<Field>, prefixes: seq<string>): seq<Field>
    decreases fs, 1
  {
    SetAll(SetAll([], PlainFields(fs, prefixes)), VendorFields(fs, prefixes))
  }

  function PlainFields(fs: seq<Field>, prefixes: seq<string>): seq<Field>
    decreases fs, 0
  {
    if fs == [] then []
    else
      var n := |fs| - 1;
      PlainFields(fs[..n], prefixes)
      + if CanonicalKey(fs[n].key, prefixes).None? then [Field(fs[n].key, Canon(fs[n].value, prefixes))] else []
  }

  function VendorFields(fs: seq<Field>, prefixes: seq<string>): seq<Field>
    decreases fs, 0
  {
    if fs == [] then []
    else
      var n := |fs| - 1;
      var key := CanonicalKey(fs[n].key, prefixes);
      VendorFields(fs[..n], prefixes)
      + if key.Some? then [Field(key.value, Canon(fs[n].value, prefixes))] else []
  }

  /** The rewriting as it is done: an object is filled in two passes over the fields. */
  method CanonicalizeVendorKeys(v: Json, context: seq<string>) returns (r: Json)
    ensures r == Canon(v, Prefixes(context))
    decreases v
  {
    ghost var prefixes := Prefixes(context);
    if v.Array? {
      var items := [];
      for i := 0 to |v.items|
        invariant items == CanonItems(v.items[..i], prefixes)
      {
        var item := CanonicalizeVendorKeys(v.items[i], context);
        items := items + [item];
        assert v.items[..i + 1][..i] == v.items[..i];
      }
      assert v.items[..|v.items|] == v.items;
      return Array(items);
    }
    if !v.Object? {
      return v;
    }
    var normalized := [];
    var canonicalPrefixes := Prefixes(context);
    for i := 0 to |v.fields|
      invariant normalized == SetAll([], PlainFields(v.fields[..i], prefixes))
    {
      var f := v.fields[i];
      PlainOneMore([], v.fields, i, prefixes);
      if CanonicalKey(f.key, canonicalPrefixes).None? {
        var value := CanonicalizeVendorKeys(f.value, context);
        normalized := Set(normalized, f.key, value);
      }
    }
    assert v.fields[..|v.fields|] == v.fields;
    ghost var plain := normalized;
    for i := 0 to |v.fields|
      invariant normalized == SetAll(plain, VendorFields(v.fields[..i], prefixes))
    {
      var f := v.fields[i];
      var key := CanonicalKey(f.key, canonicalPrefixes);
      VendorOneMore(plain, v.fields, i, prefixes);
      if key.Some? {
        var value := CanonicalizeVendorKeys(f.value, context);
        normalized := Set(normalized, key.value, value);
      }
    }
    assert v.fields[..|v.fields|] == v.fields;
    return Object(normalized);
  }

  lemma PlainOneMore(out: seq<Field>, fs: seq<Field>, i: nat, prefixes: seq<string>)
    requires i < |fs|
    ensures
      var before := SetAll(out, PlainFields(fs[..i], prefixes));
      SetAll(out, PlainFields(fs[..i + 1], prefixes))
      == if CanonicalKey(fs[i].key, prefixes).None?
         then Set(before, fs[i].key, Canon(fs[i].value, prefixes)) else before
  {
    assert fs[..i + 1][..i] == fs[..i];
    var plain := PlainFields(fs[..i], prefixes);
    assert plain + [] == plain;
    SetOneMore(out, plain, Field(fs[i].key, Canon(fs[i].value, prefixes)));
  }

  lemma VendorOneMore(out: seq<Field>, fs: seq<Field>, i: nat, prefixes: seq<string>)
    requires i < |fs|
    ensures
      var before := SetAll(out, VendorFields(fs[..i], prefixes));
      var key := CanonicalKey(fs[i].key, prefixes);
      SetAll(out, VendorFields(fs[..i + 1], prefixes))
      == if key.Some? then Set(before, key.value, Canon(fs[i].value, prefixes)) else before
  {
    assert fs[..i + 1][..i] == fs[..i];
    var vendor, key := VendorFields(fs[..i], prefixes), CanonicalKey(fs[i].key, prefixes);
    assert vendor + [] == vendor;
    if key.Some? {
      SetOneMore(out, vendor, Field(key.value, Canon(fs[i].value, prefixes)));
    }
  }

  lemma SetOneMore(fs: seq<Field>, gs: seq<Field>, g: Field)
    ensures SetAll(fs, gs + [g]) == Set(SetAll(fs, gs), g.key, g.value)
  {
    assert (gs + [g])[..|gs|] == gs;
  }

  // ---- The canonical form ----

  /** Fields without canonical prefix come first. */
  predicate PlainFirst(fs: seq<Field>) {
    forall i, j :: 0 <= i < j < |fs| && IsVendor(fs[i].key) ==> IsVendor(fs[j].key)
  }

  /** What rewriting leads to: at every depth distinct keys, those with canonical prefix last. */
  predicate IsCanonical(v: Json) {
    match v
    case Array(items) => forall i :: 0 <= i < |items| ==> IsCanonical(items[i])
    case Object(fs) => Distinct(fs) && PlainFirst(fs) && forall i :: 0 <= i < |fs| ==> IsCanonical(fs[i].value)
    case _ => true
  }

  ghost predicate AreCanonical(fs: seq<Field>) {
    forall f :: f in fs ==> IsCanonical(f.value)
  }

  lemma {:induction false} CanonIsCanonical(v: Json, prefixes: seq<string>)
    requires IsContext(prefixes)
    ensures IsCanonical(Canon(v, prefixes))
    decreases v
  {
    match v
    case Array(items) => CanonItemsAreCanonical(items, prefixes);
    case Object(fs) =>
      CanonFieldsAreCanonical(fs, prefixes);
      var out := CanonFields(fs, prefixes);
      forall i | 0 <= i < |out| ensures IsCanonical(out[i].value) {
        assert out[i] in out;
      }
    case _ =>
  }

  lemma {:induction false} CanonItemsAreCanonical(items: seq<Json>, prefixes: seq<string>)
    requires IsContext(prefixes)
    ensures forall i :: 0 <= i < |CanonItems(items, prefixes)| ==> IsCanonical(CanonItems(items, prefixes)[i])
    decreases items
  {
    if items != [] {
      CanonItemsAreCanonical(items[..|items| - 1], prefixes);
      CanonIsCanonical(items[|items| - 1], prefixes);
    }
  }

  lemma {:induction false} PartsAreCanonical(fs: seq<Field>, prefixes: seq<string>)
    requires IsContext(prefixes)
    ensures AreCanonical(PlainFields(fs, prefixes)) && AreCanonical(VendorFields(fs, prefixes))
    ensures forall f :: f in PlainFields(fs, prefixes) ==> !IsVendor(f.key)
    ensures forall f :: f in VendorFields(fs, prefixes) ==> IsVendor(f.key)
    decreases fs, 0
  {
    if fs != [] {
      var n := |fs| - 1;
      PartsAreCanonical(fs[..n], prefixes);
      CanonIsCanonical(fs[n].value, prefixes);
      CanonicalKeyIsVendor(fs[n].key, prefixes);
      VendorKeyStays(fs[n].key, prefixes);
    }
  }

  /** What is filled first stays in front of what is filled after it. */
  lemma FillSplits(plain: seq<Field>, vendor: seq<Field>)
    requires (forall f :: f in plain ==> !IsVendor(f.key)) && forall f :: f in vendor ==> IsVendor(f.key)
    ensures SetAll(SetAll([], plain), vendor) == SetAll([], plain) + SetAll([], vendor)
  {
    forall g | g in vendor ensures Lookup(SetAll([], plain), g.key).None? {
      var i := LookupFinds(SetAll([], plain), g.key);
      if Lookup(SetAll([], plain), g.key).Some? {
        SetAllHolds([], plain, SetAll([], plain)[i]);
      }
    }
    SetAllBehind(SetAll([], plain), vendor);
  }

  lemma {:induction false} CanonFieldsAreCanonical(fs: seq<Field>, prefixes: seq<string>)
    requires IsContext(prefixes)
    ensures Distinct(CanonFields(fs, prefixes)) && PlainFirst(CanonFields(fs, prefixes))
    ensures AreCanonical(CanonFields(fs, prefixes))
    decreases fs, 1
  {
    var plain, vendor := PlainFields(fs, prefixes), VendorFields(fs, prefixes);
    var out := CanonFields(fs, prefixes);
    PartsAreCanonical(fs, prefixes);
    FillSplits(plain, vendor);
    SetAllKeepsDistinct([], plain);
    SetAllKeepsDistinct(SetAll([], plain), vendor);
    var n := |SetAll([], plain)|;
    forall i | 0 <= i < |out| ensures IsCanonical(out[i].value) && (IsVendor(out[i].key) <==> i >= n) {
      if i < n {
        assert out[i] == SetAll([], plain)[i];
        SetAllHolds([], plain, out[i]);
      } else {
        assert out[i] == SetAll([], vendor)[i - n];
        SetAllHolds([], vendor, out[i]);
      }
    }
  }

  lemma {:induction false} CanonicalStays(v: Json)
    requires IsCanonical(v)
    ensures Canon(v, DEFAULT_CONTEXT) == v
    decreases v
  {
    match v
    case Array(items) => CanonicalItemsStay(items);
    case Object(fs) => CanonicalFieldsStay(fs);
    case _ =>
  }

  lemma {:induction false} CanonicalItemsStay(items: seq<Json>)
    requires forall i :: 0 <= i < |items| ==> IsCanonical(items[i])
    ensures CanonItems(items, DEFAULT_CONTEXT) == items
    decreases items
  {
    if items != [] {
      var n := |items| - 1;
      CanonicalItemsStay(items[..n]);
      CanonicalStays(items[n]);
      assert items == items[..n] + [items[n]];
    }
  }

  lemma {:induction false} CanonicalFieldsStay(fs: seq<Field>)
    requires Distinct(fs) && PlainFirst(fs) && forall i :: 0 <= i < |fs| ==> IsCanonical(fs[i].value)
    ensures CanonFields(fs, DEFAULT_CONTEXT) == fs
    decreases fs, 1
  {
    OrderedFieldsStay(fs);
    CanonicalValuesStay(fs);
  }

  lemma {:induction false} CanonicalValuesStay(fs: seq<Field>)
    requires forall i :: 0 <= i < |fs| ==> IsCanonical(fs[i].value)
    ensures Mapped(fs) == fs
    decreases fs, 0
  {
    if fs != [] {
      var n := |fs| - 1;
      CanonicalValuesStay(fs[..n]);
      CanonicalStays(fs[n].value);
      assert fs == fs[..n] + [fs[n]];
    }
  }

  /** The same keys, each value rewritten. */
  function Mapped(fs: seq<Field>): seq<Field> {
    if fs == [] then []
    else
      var n := |fs| - 1;
      Mapped(fs[..n]) + [Field(fs[n].key, Canon(fs[n].value, DEFAULT_CONTEXT))]
  }

  lemma {:induction false} MappedKeys(fs: seq<Field>)
    ensures |Mapped(fs)| == |fs| && forall i :: 0 <= i < |fs| ==> Mapped(fs)[i].key == fs[i].key
  {
    if fs != [] {
      MappedKeys(fs[..|fs| - 1]);
    }
  }

  lemma SameKeysDistinct(fs: seq<Field>, gs: seq<Field>)
    requires Distinct(fs) && |gs| == |fs| && forall i :: 0 <= i < |fs| ==> gs[i].key == fs[i].key
    ensures Distinct(gs)
  {
  }

  lemma FrontIsDistinct(fs: seq<Field>, gs: seq<Field>)
    requires Distinct(fs + gs)
    ensures Distinct(fs)
  {
    assert forall i :: 0 <= i < |fs| ==> fs[i] == (fs + gs)[i];
  }

  /** Fields in order keep their places. */
  lemma OrderedFieldsStay(fs: seq<Field>)
    requires Distinct(fs) && PlainFirst(fs)
    ensures CanonFields(fs, DEFAULT_CONTEXT) == Mapped(fs)
  {
    PartsInOrder(fs);
    MappedKeys(fs);
    var plain, vendor := PlainFields(fs, DEFAULT_CONTEXT), VendorFields(fs, DEFAULT_CONTEXT);
    SameKeysDistinct(fs, plain + vendor);
    FrontIsDistinct(plain, vendor);
    assert [] + plain == plain;
    SetAllAppends([], plain);
    SetAllAppends(plain, vendor);
  }

  lemma {:induction false} PartsInOrder(fs: seq<Field>)
    requires PlainFirst(fs)
    ensures PlainFields(fs, DEFAULT_CONTEXT) + VendorFields(fs, DEFAULT_CONTEXT) == Mapped(fs)
    ensures (forall i :: 0 <= i < |fs| ==> !IsVendor(fs[i].key)) ==> VendorFields(fs, DEFAULT_CONTEXT) == []
  {
    if fs != [] {
      var n := |fs| - 1;
      PartsInOrder(fs[..n]);
      DefaultKeys(fs[n].key);
      if !IsVendor(fs[n].key) {
        assert forall i :: 0 <= i < n ==> !IsVendor(fs[i].key) && fs[..n][i] == fs[i];
      }
    }
  }

  // ---- Which key becomes which ----

  /** A prefix as a file can bind it: no colon, and not like the mark of an attribute. */
  predicate IsPrefix(p: string) {
    p != "" && p[0] != '@' && ':' !in p
  }

  /** The key of an attribute or element with a prefix of the context, and the same with the canonical one. */
  ghost predicate Renames(prefixes: seq<string>, key: string, canonical: string) {
    exists p, local :: p in prefixes && IsRenamed(p, local, key, canonical)
  }

  predicate IsRenamed(p: string, local: string, key: string, canonical: string) {
    || (key == Attr(p, local) && canonical == Attr(VENDOR, local))
    || (key == Elem(p, local) && canonical == Elem(VENDOR, local))
  }

  /** A text that begins with a prefix and a colon begins with no other prefix. */
  lemma OnePrefix(p: string, local: string, q: string)
    requires ':' !in p && ':' !in q
    ensures q + ":" <= p + ":" + local <==> q == p
  {
    var text := p + ":" + local;
    assert text[|p|] == ':' && forall i :: 0 <= i < |p| ==> text[i] == p[i] != ':';
    if q + ":" <= text {
      assert (q + ":")[|q|] == text[|q|];
      assert |p| <= |q|;
      assert q == text[..|q|];
      assert forall i :: 0 <= i < |q| ==> text[i] == q[i] != ':';
      assert q == text[..|q|] == p;
    }
  }

  lemma AttributeOrElement(p: string, local: string, q: string)
    requires IsPrefix(p) && IsPrefix(q)
    ensures Attr(q, "") <= Attr(p, local) <==> q == p
    ensures Elem(q, "") <= Elem(p, local) <==> q == p
    ensures !(Attr(q, "") <= Elem(p, local)) && !(Elem(q, "") <= Attr(p, local))
  {
    OnePrefix(p, local, q);
    assert Elem(q, "") == q + ":" && Elem(p, local) == p + ":" + local;
    assert Attr(q, "") == "@_" + (q + ":") && Attr(p, local) == "@_" + (p + ":" + local);
    assert Attr(q, "")[2..] == q + ":" && Attr(p, local)[2..] == p + ":" + local;
    assert Elem(p, local)[0] == p[0] && Elem(q, "")[0] == q[0] && Attr(p, local)[0] == '@' && Attr(q, "")[0] == '@';
  }

  /** A key with a prefix of the context becomes the one with the canonical prefix and the same rest. */
  lemma {:induction false} PrefixedIsRenamed(prefixes: seq<string>, p: string, local: string)
    requires p in prefixes && forall q :: q in prefixes ==> IsPrefix(q)
    ensures CanonicalKey(Attr(p, local), prefixes) == Some(Attr(VENDOR, local))
    ensures CanonicalKey(Elem(p, local), prefixes) == Some(Elem(VENDOR, local))
  {
    AttributeOrElement(p, local, prefixes[0]);
    if p == prefixes[0] {
      assert Attr(p, local) == Attr(p, "") + local && Elem(p, local) == Elem(p, "") + local;
    } else {
      PrefixedIsRenamed(prefixes[1..], p, local);
    }
  }

  /** And only such a key becomes another. */
  lemma {:induction false} RenamedIsPrefixed(prefixes: seq<string>, key: string)
    requires CanonicalKey(key, prefixes).Some?
    ensures Renames(prefixes, key, CanonicalKey(key, prefixes).value)
  {
    var p := prefixes[0];
    var a, e := Attr(p, ""), Elem(p, "");
    if a <= key {
      assert key == Attr(p, key[|a|..]);
      assert IsRenamed(p, key[|a|..], key, CanonicalKey(key, prefixes).value);
    } else if e <= key {
      assert key == Elem(p, key[|e|..]);
      assert IsRenamed(p, key[|e|..], key, CanonicalKey(key, prefixes).value);
    } else {
      RenamedIsPrefixed(prefixes[1..], key);
      var q, local :| q in prefixes[1..] && IsRenamed(q, local, key, CanonicalKey(key, prefixes).value);
      assert q in prefixes;
    }
  }

  /** The key under which a field stands after rewriting. */
  lemma RewrittenKey(prefixes: seq<string>, key: string, canonical: string)
    requires forall q :: q in prefixes ==> IsPrefix(q)
    ensures CanonicalKey(key, prefixes) == Some(canonical) <==> Renames(prefixes, key, canonical)
  {
    if CanonicalKey(key, prefixes).Some? {
      RenamedIsPrefixed(prefixes, key);
    }
    if p, local :| p in prefixes && IsRenamed(p, local, key, canonical) {
      PrefixedIsRenamed(prefixes, p, local);
    }
  }

  function KeyAfter(key: string, prefixes: seq<string>): string {
    if CanonicalKey(key, prefixes).Some? then CanonicalKey(key, prefixes).value else key
  }

  /** No later field comes to stand under the same key. */
  ghost predicate IsLastOfItsKey(fs: seq<Field>, i: nat, prefixes: seq<string>)
    requires i < |fs|
  {
    forall j :: i < j < |fs| ==> KeyAfter(fs[j].key, prefixes) != KeyAfter(fs[i].key, prefixes)
  }

  lemma {:induction false} LastOfPlain(fs: seq<Field>, i: nat, prefixes: seq<string>)
    requires i < |fs| && IsLastOfItsKey(fs, i, prefixes) && CanonicalKey(fs[i].key, prefixes).None?
    ensures LastOf(PlainFields(fs, prefixes), fs[i].key) == Some(Canon(fs[i].value, prefixes))
  {
    var n := |fs| - 1;
    var before := PlainFields(fs[..n], prefixes);
    assert before + [] == before;
    LastOneMore(before, Field(fs[n].key, Canon(fs[n].value, prefixes)), fs[i].key);
    if i < n {
      assert KeyAfter(fs[n].key, prefixes) != KeyAfter(fs[i].key, prefixes);
      forall j | i < j < n ensures KeyAfter(fs[..n][j].key, prefixes) != KeyAfter(fs[i].key, prefixes) {
        assert fs[..n][j] == fs[j];
      }
      LastOfPlain(fs[..n], i, prefixes);
    }
  }

  lemma {:induction false} LastOfVendor(fs: seq<Field>, i: nat, prefixes: seq<string>)
    requires i < |fs| && IsLastRenamed(fs, i, prefixes)
    ensures LastOf(VendorFields(fs, prefixes), CanonicalKey(fs[i].key, prefixes).value) ==
      Some(Canon(fs[i].value, prefixes))
  {
    var n := |fs| - 1;
    var before, key := VendorFields(fs[..n], prefixes), CanonicalKey(fs[n].key, prefixes);
    assert before + [] == before;
    if key.Some? {
      LastOneMore(before, Field(key.value, Canon(fs[n].value, prefixes)), CanonicalKey(fs[i].key, prefixes).value);
    }
    if i < n {
      assert CanonicalKey(fs[n].key, prefixes) != CanonicalKey(fs[i].key, prefixes);
      forall j | i < j < n ensures CanonicalKey(fs[..n][j].key, prefixes) != CanonicalKey(fs[i].key, prefixes) {
        assert fs[..n][j] == fs[j];
      }
      LastOfVendor(fs[..n], i, prefixes);
    }
  }

  /** The key is renamed, and no later one to the same. */
  ghost predicate IsLastRenamed(fs: seq<Field>, i: nat, prefixes: seq<string>)
    requires i < |fs|
  {
    && CanonicalKey(fs[i].key, prefixes).Some?
    && forall j :: i < j < |fs| ==> CanonicalKey(fs[j].key, prefixes) != CanonicalKey(fs[i].key, prefixes)
  }

  /**
   Rewriting keeps every field: the value that stands under a prefixed key, the last one of those that become the same,
   is found rewritten under the canonical key.
   */
  lemma RenamedFieldIsKept(fs: seq<Field>, i: nat, prefixes: seq<string>)
    requires i < |fs| && IsLastRenamed(fs, i, prefixes)
    ensures Lookup(CanonFields(fs, prefixes), CanonicalKey(fs[i].key, prefixes).value) ==
      Some(Canon(fs[i].value, prefixes))
  {
    var plain, vendor := PlainFields(fs, prefixes), VendorFields(fs, prefixes);
    LastOfVendor(fs, i, prefixes);
    LookupSetAll(SetAll([], plain), vendor, CanonicalKey(fs[i].key, prefixes).value);
  }

  /** And the value under a key without such a prefix is found rewritten under the same key. */
  lemma PlainFieldIsKept(fs: seq<Field>, i: nat, prefixes: seq<string>)
    requires IsContext(prefixes) && i < |fs| && CanonicalKey(fs[i].key, prefixes).None?
    requires IsLastOfItsKey(fs, i, prefixes)
    ensures Lookup(CanonFields(fs, prefixes), fs[i].key) == Some(Canon(fs[i].value, prefixes))
  {
    var plain, vendor := PlainFields(fs, prefixes), VendorFields(fs, prefixes);
    LastOfPlain(fs, i, prefixes);
    PartsAreCanonical(fs, prefixes);
    VendorKeyStays(fs[i].key, prefixes);
    NotLast(vendor, fs[i].key);
    LookupSetAll([], plain, fs[i].key);
    LookupSetAll(SetAll([], plain), vendor, fs[i].key);
  }

  /** The items of a list are rewritten in their places; texts, numbers and the like stay as they are. */
  lemma {:induction false} ItemsAreKept(items: seq<Json>, prefixes: seq<string>, i: nat)
    ensures |CanonItems(items, prefixes)| == |items|
    ensures i < |items| ==> CanonItems(items, prefixes)[i] == Canon(items[i], prefixes)
  {
    if items != [] {
      ItemsAreKept(items[..|items| - 1], prefixes, i);
    }
  }

  // ---- Main results about rewriting ----

  /**
   Rewriting leads to the canonical form, and a value is in canonical form if and only if rewriting under the default
   context changes nothing.
   */
  lemma CanonicalIffUnchanged(v: Json)
    ensures IsCanonical(v) <==> Canon(v, Prefixes(DEFAULT_CONTEXT)) == v
  {
    DefaultPrefixes();
    CanonIsCanonical(v, DEFAULT_CONTEXT);
    if IsCanonical(v) {
      CanonicalStays(v);
    }
  }

  /** Rewriting is idempotent at every depth: what any context led to, the default context leaves alone. */
  lemma CanonIsIdempotent(v: Json, context: seq<string>)
    ensures Canon(Canon(v, Prefixes(context)), Prefixes(DEFAULT_CONTEXT)) == Canon(v, Prefixes(context))
  {
    PrefixesAreContext(context);
    CanonIsCanonical(v, Prefixes(context));
    DefaultPrefixes();
    CanonicalStays(Canon(v, Prefixes(context)));
  }

  /** What rewriting makes of one field. */
  function CanonOf(value: Option<Json>, prefixes: seq<string>): Option<Json> {
    if value.None? then None else Some(Canon(value.value, prefixes))
  }

  lemma LastOneMore(fs: seq<Field>, f: Field, k: string)
    ensures LastOf(fs + [f], k) == if f.key == k then Some(f.value) else LastOf(fs, k)
  {
    assert (fs + [f])[..|fs|] == fs;
  }

  lemma {:induction false} PartsLookup(fs: seq<Field>, k: string)
    ensures LastOf(PlainFields(fs, DEFAULT_CONTEXT), k)
         == if IsVendor(k) then None else CanonOf(LastOf(fs, k), DEFAULT_CONTEXT)
    ensures LastOf(VendorFields(fs, DEFAULT_CONTEXT), k)
         == if IsVendor(k) then CanonOf(LastOf(fs, k), DEFAULT_CONTEXT) else None
    decreases fs
  {
    if fs != [] {
      var n := |fs| - 1;
      PartsLookup(fs[..n], k);
      DefaultKeys(fs[n].key);
      var plain, vendor := PlainFields(fs[..n], DEFAULT_CONTEXT), VendorFields(fs[..n], DEFAULT_CONTEXT);
      assert plain + [] == plain && vendor + [] == vendor;
      var f := Field(fs[n].key, Canon(fs[n].value, DEFAULT_CONTEXT));
      LastOneMore(plain, f, k);
      LastOneMore(vendor, f, k);
    }
  }

  /** Under the default context every field stays under its key. */
  lemma CanonLookup(fs: seq<Field>, k: string)
    requires Distinct(fs)
    ensures Lookup(CanonFields(fs, DEFAULT_CONTEXT), k) == CanonOf(Lookup(fs, k), DEFAULT_CONTEXT)
  {
    var plain, vendor := PlainFields(fs, DEFAULT_CONTEXT), VendorFields(fs, DEFAULT_CONTEXT);
    PartsLookup(fs, k);
    LookupSetAll([], plain, k);
    LookupSetAll(SetAll([], plain), vendor, k);
    LastIsLookup(fs, k);
  }

  /** Rewriting makes no field without canonical prefix. */
  lemma PlainLookup(fs: seq<Field>, prefixes: seq<string>, k: string)
    requires IsContext(prefixes) && !IsVendor(k) && !Has(fs, k)
    ensures !Has(CanonFields(fs, prefixes), k)
  {
    var plain, vendor := PlainFields(fs, prefixes), VendorFields(fs, prefixes);
    PartsAreCanonical(fs, prefixes);
    NoPlainField(fs, prefixes, k);
    NotLast(plain, k);
    NotLast(vendor, k);
    LookupSetAll([], plain, k);
    LookupSetAll(SetAll([], plain), vendor, k);
  }

  lemma {:induction false} NotLast(fs: seq<Field>, k: string)
    requires forall f :: f in fs ==> f.key != k
    ensures LastOf(fs, k).None?
  {
    if fs != [] {
      NotLast(fs[..|fs| - 1], k);
      assert fs[|fs| - 1] in fs;
    }
  }

  lemma NoPlainField(fs: seq<Field>, prefixes: seq<string>, k: string)
    requires !Has(fs, k)
    ensures forall f :: f in PlainFields(fs, prefixes) ==> f.key != k
  {
    var _ := LookupFinds(fs, k);
    PlainKeysAreOld(fs, prefixes, k);
  }

  lemma {:induction false} PlainKeysAreOld(fs: seq<Field>, prefixes: seq<string>, k: string)
    requires forall j :: 0 <= j < |fs| ==> fs[j].key != k
    ensures forall f :: f in PlainFields(fs, prefixes) ==> f.key != k
  {
    if fs != [] {
      PlainKeysAreOld(fs[..|fs| - 1], prefixes, k);
    }
  }
}
