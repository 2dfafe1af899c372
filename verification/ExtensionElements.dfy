/**
 The extension elements of a diagram element: its properties and its connector. Normalising gathers the properties of
 all prefixes, removes duplicates, keeps the first connector, and leaves one canonical key for each.
 */
module ExtensionElements {
  import opened Options
  import opened JsonValues
  import opened Namespaces
  import opened PropertyNames
  import opened Text

  const PROPERTIES := Elem(VENDOR, "properties")
  const PROPERTY := Elem(VENDOR, "property")
  const CONNECTOR := Elem(VENDOR, "connector")

  /** The keys under which an extension element may be found. */
  function ExtensionKeys(local: string, context: seq<string>): seq<string> {
    PrefixedElems(local, context) + [local]
  }

  function PrefixedElems(local: string, context: seq<string>): seq<string> {
    if context == [] then [] else [Elem(context[0], local)] + PrefixedElems(local, context[1..])
  }

  function SpecialKeys(context: seq<string>): seq<string> {
    ExtensionKeys("properties", context) + ExtensionKeys("connector", context)
  }

  /** The values under these keys, those that are there. */
  function ValuesForKeys(fs: seq<Field>, keys: seq<string>): seq<Json> {
    if keys == [] then []
    else (if Has(fs, keys[0]) then [Lookup(fs, keys[0]).value] else []) + ValuesForKeys(fs, keys[1..])
  }

  /** All records in these values. */
  function FlatRecords(values: seq<Json>): seq<Json> {
    if values == [] then [] else AsRecords(values[0]) + FlatRecords(values[1..])
  }

  /** The property records in these groups. */
  function PropertiesIn(groups: seq<Json>, context: seq<string>): seq<Json> {
    if groups == [] then [] else GroupProperties(groups[0], context) + PropertiesIn(groups[1..], context)
  }

  function GroupProperties(group: Json, context: seq<string>): seq<Json> {
    if group.Object? then FlatRecords(ValuesForKeys(group.fields, ExtensionKeys("property", context))) else []
  }

  function AllProperties(fs: seq<Field>, context: seq<string>): seq<Json> {
    PropertiesIn(FlatRecords(ValuesForKeys(fs, ExtensionKeys("properties", context))), context)
  }

  function FirstConnector(fs: seq<Field>, context: seq<string>): Option<Json> {
    var found := FlatRecords(ValuesForKeys(fs, ExtensionKeys("connector", context)));
    if found == [] then None else Some(found[0])
  }

  /** The name that counts. */
  function NameOf(p: Json): string {
    if p.Object? then Lower(Trim(TextAt(p.fields, "@_name"), JS_SPACE)) else ""
  }

  const NAMING: Naming<Json> := Naming(NameOf, Unnamed)

  /** The properties of all prefixes, without duplicates. */
  ghost function MergedProperties(fs: seq<Field>, context: seq<string>): seq<Json> {
    Dedupe(AllProperties(fs, context), NAMING)
  }

  /** The first of several extension elements, if it is a record. */
  function ExtensionRecord(v: Json): Option<seq<Field>> {
    if v.Array? then (if v.items == [] then None else AsRecord(v.items[0])) else AsRecord(v)
  }

  function PropertyGroup(ps: seq<Json>): Json {
    Object([Field(PROPERTY, Array(ps))])
  }

  /** The rewritten fields with nothing but the merged properties and the connector under special keys. */
  function Assemble(
      fs: seq<Field>, properties: seq<Json>, connector: Option<Json>, context: seq<string>): seq<Field>
  {
    var cleared := DeleteAll(CanonFields(fs, Prefixes(context)), SpecialKeys(context));
    var filled := if properties == [] then cleared else Set(cleared, PROPERTIES, PropertyGroup(properties));
    if connector.None? then filled else Set(filled, CONNECTOR, Canon(connector.value, Prefixes(context)))
  }

  ghost function NormalizeFields(fs: seq<Field>, context: seq<string>): seq<Field> {
    Assemble(fs, MergedProperties(fs, context), FirstConnector(fs, context), context)
  }

  method NormalizeExtensionElements(v: Json, context: seq<string>) returns (r: Option<seq<Field>>)
    ensures r.None? <==> ExtensionRecord(v).None?
    ensures r.Some? ==> r.value == NormalizeFields(ExtensionRecord(v).value, context)
  {
    var extensionElements := ExtensionRecord(v);
    if extensionElements.None? {
      return None;
    }
    var fs := extensionElements.value;
    var rewritten := CanonicalizeVendorKeys(Object(fs), context);
    var normalized := rewritten.fields;
    var properties := RemoveDuplicates(AllProperties(fs, context), NAMING);
    var connector := FirstConnector(fs, context);
    normalized := DeleteAll(normalized, SpecialKeys(context));
    if |properties| > 0 {
      normalized := Set(normalized, PROPERTIES, PropertyGroup(properties));
    }
    if connector.Some? {
      var canonical := CanonicalizeVendorKeys(connector.value, context);
      normalized := Set(normalized, CONNECTOR, canonical);
    }
    return Some(normalized);
  }

  // ---- Which records count ----

  /** The key of an extension element with some prefix of the context, or without one. */
  ghost predicate IsKeyOf(key: string, local: string, context: seq<string>) {
    key == local || exists p :: p in context && key == p + ":" + local
  }

  lemma {:induction false} PrefixedElemsAre(key: string, local: string, context: seq<string>)
    ensures key in PrefixedElems(local, context) <==> exists p :: p in context && key == p + ":" + local
  {
    if context != [] {
      PrefixedElemsAre(key, local, context[1..]);
      assert forall p :: p in context <==> p == context[0] || p in context[1..];
    }
  }

  lemma ExtensionKeysAre(key: string, local: string, context: seq<string>)
    ensures key in ExtensionKeys(local, context) <==> IsKeyOf(key, local, context)
  {
    PrefixedElemsAre(key, local, context);
  }

  /** A record under one of these keys, alone or in a list. */
  ghost predicate StandsUnder(fs: seq<Field>, keys: seq<string>, r: Json) {
    exists key :: key in keys && Has(fs, key) && r in AsRecords(Lookup(fs, key).value)
  }

  /** The records under the first key come first. */
  lemma RecordsOfFirst(fs: seq<Field>, keys: seq<string>)
    requires keys != []
    ensures FlatRecords(ValuesForKeys(fs, keys)) ==
      (if Has(fs, keys[0]) then AsRecords(Lookup(fs, keys[0]).value) else [])
      + FlatRecords(ValuesForKeys(fs, keys[1..]))
  {
    var rest := ValuesForKeys(fs, keys[1..]);
    if Has(fs, keys[0]) {
      var v := Lookup(fs, keys[0]).value;
      assert ([v] + rest)[0] == v && ([v] + rest)[1..] == rest;
    } else {
      assert [] + rest == rest;
    }
  }

  lemma {:induction false} RecordsUnder(fs: seq<Field>, keys: seq<string>, r: Json)
    ensures r in FlatRecords(ValuesForKeys(fs, keys)) <==> StandsUnder(fs, keys, r)
  {
    if keys != [] {
      RecordsUnder(fs, keys[1..], r);
      RecordsOfFirst(fs, keys);
      assert forall key :: key in keys <==> key == keys[0] || key in keys[1..];
    }
  }

  lemma {:induction false} PropertiesInAre(groups: seq<Json>, context: seq<string>, r: Json)
    ensures r in PropertiesIn(groups, context) <==>
      exists g :: g in groups && r in GroupProperties(g, context)
  {
    if groups != [] {
      PropertiesInAre(groups[1..], context, r);
      assert forall g :: g in groups <==> g == groups[0] || g in groups[1..];
    }
  }

  /** Of all extension elements, exactly the records in some group of properties, whatever prefix either has, count. */
  lemma AllPropertiesAre(fs: seq<Field>, context: seq<string>, r: Json)
    ensures r in AllProperties(fs, context) <==>
      exists g: Json :: g.Object? && StandsUnder(fs, ExtensionKeys("properties", context), g)
                        && StandsUnder(g.fields, ExtensionKeys("property", context), r)
  {
    var groups := FlatRecords(ValuesForKeys(fs, ExtensionKeys("properties", context)));
    PropertiesInAre(groups, context, r);
    forall g ensures g in groups <==> StandsUnder(fs, ExtensionKeys("properties", context), g) {
      RecordsUnder(fs, ExtensionKeys("properties", context), g);
    }
    forall g: Json | g.Object?
      ensures r in GroupProperties(g, context) <==> StandsUnder(g.fields, ExtensionKeys("property", context), r)
    {
      RecordsUnder(g.fields, ExtensionKeys("property", context), r);
    }
  }

  lemma {:induction false} FirstRecordUnder(fs: seq<Field>, keys: seq<string>, i: nat)
    requires i < |keys| && Has(fs, keys[i]) && AsRecords(Lookup(fs, keys[i]).value) != []
    requires forall j :: 0 <= j < i ==> Has(fs, keys[j]) ==> AsRecords(Lookup(fs, keys[j]).value) == []
    ensures
      var found := FlatRecords(ValuesForKeys(fs, keys));
      found != [] && found[0] == AsRecords(Lookup(fs, keys[i]).value)[0]
  {
    RecordsOfFirst(fs, keys);
    if i > 0 {
      FirstRecordUnder(fs, keys[1..], i - 1);
    }
  }

  lemma {:induction false} PrefixedElemAt(local: string, context: seq<string>, i: nat)
    ensures |PrefixedElems(local, context)| == |context|
    ensures i < |context| ==> PrefixedElems(local, context)[i] == context[i] + ":" + local
  {
    if context != [] {
      PrefixedElemAt(local, context[1..], if i > 0 then i - 1 else 0);
    }
  }

  /** The connector is the first record under the first prefix of the context that has one, or without prefix. */
  lemma FirstConnectorIs(fs: seq<Field>, context: seq<string>, i: nat)
    requires i <= |context|
    requires forall j :: 0 <= j < i ==> !HasRecord(fs, context[j] + ":" + "connector")
    ensures
      var key := if i < |context| then context[i] + ":" + "connector" else "connector";
      HasRecord(fs, key) ==> FirstConnector(fs, context) == Some(AsRecords(Lookup(fs, key).value)[0])
  {
    var keys := ExtensionKeys("connector", context);
    PrefixedElemAt("connector", context, 0);
    forall j: nat | j < |context| ensures keys[j] == context[j] + ":" + "connector" {
      PrefixedElemAt("connector", context, j);
    }
    assert keys[|context|] == "connector";
    if HasRecord(fs, keys[i]) {
      FirstRecordUnder(fs, keys, i);
    }
  }

  predicate HasRecord(fs: seq<Field>, key: string) {
    Has(fs, key) && AsRecords(Lookup(fs, key).value) != []
  }

  // ---- The special keys ----

  lemma SpecialKeysAre(context: seq<string>)
    requires IsContext(context)
    ensures PROPERTIES in SpecialKeys(context) && CONNECTOR in SpecialKeys(context)
    ensures "properties" in SpecialKeys(context) && "connector" in SpecialKeys(context)
  {
    var p, c := ExtensionKeys("properties", context), ExtensionKeys("connector", context);
    assert p[0] == PROPERTIES && c[0] == CONNECTOR;
    assert p[|p| - 1] == "properties" && c[|c| - 1] == "connector";
  }

  lemma KeysDiffer()
    ensures PROPERTIES != CONNECTOR && IsVendor(PROPERTIES) && IsVendor(CONNECTOR)
    ensures "properties" != PROPERTIES && "properties" != CONNECTOR
    ensures "connector" != PROPERTIES && "connector" != CONNECTOR
  {
    PrefixedIsVendor("properties");
    PrefixedIsVendor("connector");
    assert PROPERTIES[0] == 'a' && CONNECTOR[0] == 'a';
    assert |PROPERTIES| == |VENDOR| + 11 && |CONNECTOR| == |VENDOR| + 10;
  }

  // ---- What normalising does to every key ----

  lemma AssembleAt(
      fs: seq<Field>, properties: seq<Json>, connector: Option<Json>, context: seq<string>, k: string)
    requires IsContext(context)
    ensures Lookup(Assemble(fs, properties, connector, context), k)
         == if k == CONNECTOR then CanonOf(connector, Prefixes(context))
            else if k == PROPERTIES then (if properties == [] then None else Some(PropertyGroup(properties)))
            else if k in SpecialKeys(context) then None
            else Lookup(CanonFields(fs, Prefixes(context)), k)
  {
    var canon := CanonFields(fs, Prefixes(context));
    var cleared := DeleteAll(canon, SpecialKeys(context));
    var filled := if properties == [] then cleared else Set(cleared, PROPERTIES, PropertyGroup(properties));
    KeysDiffer();
    SpecialKeysAre(context);
    LookupDeleteAll(canon, SpecialKeys(context), k);
    if properties != [] {
      LookupSet(cleared, PROPERTIES, PropertyGroup(properties), k);
    }
    if connector.Some? {
      LookupSet(filled, CONNECTOR, Canon(connector.value, Prefixes(context)), k);
    }
  }

  /** The new keys are added at the end. */
  lemma AssembleAppends(fs: seq<Field>, properties: seq<Json>, connector: Option<Json>, context: seq<string>)
    requires IsContext(context)
    ensures Assemble(fs, properties, connector, context)
         == DeleteAll(CanonFields(fs, Prefixes(context)), SpecialKeys(context))
            + Tail(properties, CanonOf(connector, Prefixes(context)))
  {
    var canon := CanonFields(fs, Prefixes(context));
    SpecialKeysAre(context);
    LookupDeleteAll(canon, SpecialKeys(context), PROPERTIES);
    LookupDeleteAll(canon, SpecialKeys(context), CONNECTOR);
    TailIsAppended(DeleteAll(canon, SpecialKeys(context)), properties, CanonOf(connector, Prefixes(context)));
  }

  lemma TailIsAppended(cleared: seq<Field>, properties: seq<Json>, connector: Option<Json>)
    requires !Has(cleared, PROPERTIES) && !Has(cleared, CONNECTOR)
    ensures
      var filled := if properties == [] then cleared else Set(cleared, PROPERTIES, PropertyGroup(properties));
      (if connector.None? then filled else Set(filled, CONNECTOR, connector.value)) ==
        cleared + Tail(properties, connector)
  {
    var filled := if properties == [] then cleared else Set(cleared, PROPERTIES, PropertyGroup(properties));
    if properties != [] {
      KeysDiffer();
      LookupSet(cleared, PROPERTIES, PropertyGroup(properties), CONNECTOR);
      SetNewAppends(cleared, PROPERTIES, PropertyGroup(properties));
    }
    if connector.Some? {
      SetNewAppends(filled, CONNECTOR, connector.value);
    }
  }

  function Tail(properties: seq<Json>, connector: Option<Json>): seq<Field> {
    (if properties == [] then [] else [Field(PROPERTIES, PropertyGroup(properties))])
    + if connector.None? then [] else [Field(CONNECTOR, connector.value)]
  }

  // ---- Normalising once more ----

  lemma {:induction false} DeleteOfConcat(fs: seq<Field>, gs: seq<Field>, key: string)
    ensures Delete(fs + gs, key) == Delete(fs, key) + Delete(gs, key)
  {
    if fs == [] {
      assert fs + gs == gs;
    } else {
      assert (fs + gs)[1..] == fs[1..] + gs;
      DeleteOfConcat(fs[1..], gs, key);
    }
  }

  lemma {:induction false} DeleteAllOfConcat(fs: seq<Field>, gs: seq<Field>, keys: seq<string>)
    ensures DeleteAll(fs + gs, keys) == DeleteAll(fs, keys) + DeleteAll(gs, keys)
    decreases keys
  {
    if keys != [] {
      DeleteOfConcat(fs, gs, keys[0]);
      DeleteAllOfConcat(Delete(fs, keys[0]), Delete(gs, keys[0]), keys[1..]);
    }
  }

  lemma {:induction false} DeleteAbsent(fs: seq<Field>, key: string)
    requires forall f :: f in fs ==> f.key != key
    ensures Delete(fs, key) == fs
  {
    if fs != [] {
      assert fs[0] in fs;
      DeleteAbsent(fs[1..], key);
    }
  }

  lemma {:induction false} DeleteAllAbsent(fs: seq<Field>, keys: seq<string>)
    requires forall f :: f in fs ==> f.key !in keys
    ensures DeleteAll(fs, keys) == fs
    decreases keys
  {
    if keys != [] {
      assert keys[0] in keys;
      DeleteAbsent(fs, keys[0]);
      DeleteAllAbsent(fs, keys[1..]);
    }
  }

  lemma {:induction false} DeleteAllHolds(fs: seq<Field>, keys: seq<string>, f: Field)
    requires f in DeleteAll(fs, keys)
    ensures f in fs && f.key !in keys
    decreases keys
  {
    if keys != [] {
      DeleteAllHolds(Delete(fs, keys[0]), keys[1..], f);
      DeleteHolds(fs, keys[0], f);
    }
  }

  /** Deleting keeps what is in order in order. */
  lemma {:induction false} DeleteKeepsOrder(fs: seq<Field>, key: string)
    requires PlainFirst(fs)
    ensures PlainFirst(Delete(fs, key))
  {
    if fs != [] {
      DeleteKeepsOrder(fs[1..], key);
      var rest := Delete(fs[1..], key);
      if IsVendor(fs[0].key) {
        forall j | 0 <= j < |rest| ensures IsVendor(rest[j].key) {
          DeleteHolds(fs[1..], key, rest[j]);
          var i :| 0 <= i < |fs| - 1 && fs[1..][i] == rest[j];
          assert fs[i + 1] == rest[j];
        }
      }
    }
  }

  lemma {:induction false} DeleteAllKeepsOrder(fs: seq<Field>, keys: seq<string>)
    requires PlainFirst(fs)
    ensures PlainFirst(DeleteAll(fs, keys))
    decreases keys
  {
    if keys != [] {
      DeleteKeepsOrder(fs, keys[0]);
      DeleteAllKeepsOrder(Delete(fs, keys[0]), keys[1..]);
    }
  }

  /** What is left of the rewritten fields: canonical, in order, and without special keys. */
  lemma ClearedIsCanonical(fs: seq<Field>, context: seq<string>)
    requires IsContext(context)
    ensures
      var cleared := DeleteAll(CanonFields(fs, Prefixes(context)), SpecialKeys(context));
      && Distinct(cleared) && PlainFirst(cleared)
      && (forall f :: f in cleared ==> f.key !in SpecialKeys(context) && IsCanonical(f.value))
  {
    var canon := CanonFields(fs, Prefixes(context));
    var cleared := DeleteAll(canon, SpecialKeys(context));
    PrefixesAreContext(context);
    CanonFieldsAreCanonical(fs, Prefixes(context));
    DeleteAllKeepsDistinct(canon, SpecialKeys(context));
    DeleteAllKeepsOrder(canon, SpecialKeys(context));
    forall f | f in cleared ensures f.key !in SpecialKeys(context) && IsCanonical(f.value) {
      DeleteAllHolds(canon, SpecialKeys(context), f);
    }
  }

  lemma DefaultSpecialKeys(context: seq<string>, k: string)
    requires IsContext(context) && k in SpecialKeys(DEFAULT_CONTEXT)
    ensures k == PROPERTIES || k == CONNECTOR || k == "properties" || k == "connector"
    ensures k in SpecialKeys(context)
  {
    SpecialKeysAre(context);
    DefaultExtensionKeys("properties");
    DefaultExtensionKeys("connector");
  }

  lemma DefaultExtensionKeys(local: string)
    ensures ExtensionKeys(local, DEFAULT_CONTEXT) == [Elem(VENDOR, local), local]
  {
    assert DEFAULT_CONTEXT[0] == VENDOR && DEFAULT_CONTEXT[1..] == [];
    assert PrefixedElems(local, DEFAULT_CONTEXT) == [Elem(VENDOR, local)] + PrefixedElems(local, []);
  }

  /** Canonical fields with the two canonical keys behind them are left as they are by rewriting and clearing. */
  lemma ClearingAgain(cleared: seq<Field>, properties: seq<Json>, connector: Option<Json>)
    requires Distinct(cleared) && PlainFirst(cleared)
    requires forall f :: f in cleared ==> f.key !in SpecialKeys(DEFAULT_CONTEXT) && IsCanonical(f.value)
    ensures DeleteAll(CanonFields(cleared + Tail(properties, connector), DEFAULT_CONTEXT), SpecialKeys(DEFAULT_CONTEXT))
         == cleared
  {
    var tail, keys := Tail(properties, connector), SpecialKeys(DEFAULT_CONTEXT);
    TailKeys(properties, connector);
    TailIsInOrder(cleared, tail);
    OrderedFieldsStay(cleared + tail);
    MappedOfConcat(cleared, tail);
    MembersAreCanonical(cleared);
    CanonicalValuesStay(cleared);
    ClearingTail(cleared, tail, keys);
  }

  lemma ClearingTail(cleared: seq<Field>, tail: seq<Field>, keys: seq<string>)
    requires (forall f :: f in cleared ==> f.key !in keys) && forall i :: 0 <= i < |tail| ==> tail[i].key in keys
    ensures DeleteAll(cleared + Mapped(tail), keys) == cleared
  {
    DeleteAllOfConcat(cleared, Mapped(tail), keys);
    DeleteAllAbsent(cleared, keys);
    MappedKeys(tail);
    DeleteAllGone(Mapped(tail), keys);
  }

  lemma MembersAreCanonical(fs: seq<Field>)
    requires forall f :: f in fs ==> IsCanonical(f.value)
    ensures forall i :: 0 <= i < |fs| ==> IsCanonical(fs[i].value)
  {
    forall i | 0 <= i < |fs| ensures IsCanonical(fs[i].value) {
      assert fs[i] in fs;
    }
  }

  lemma TailKeys(properties: seq<Json>, connector: Option<Json>)
    ensures
      var tail := Tail(properties, connector);
      && Distinct(tail)
      && (forall i :: 0 <= i < |tail| ==> tail[i].key in SpecialKeys(DEFAULT_CONTEXT) && IsVendor(tail[i].key))
  {
    KeysDiffer();
    SpecialKeysAre(DEFAULT_CONTEXT);
  }

  lemma TailIsInOrder(cleared: seq<Field>, tail: seq<Field>)
    requires Distinct(cleared) && PlainFirst(cleared) && Distinct(tail)
    requires forall f :: f in cleared ==> f.key !in SpecialKeys(DEFAULT_CONTEXT)
    requires forall i :: 0 <= i < |tail| ==> tail[i].key in SpecialKeys(DEFAULT_CONTEXT) && IsVendor(tail[i].key)
    ensures Distinct(cleared + tail) && PlainFirst(cleared + tail)
  {
    var all := cleared + tail;
    forall i, j | 0 <= i < j < |all|
      ensures all[i].key != all[j].key && (IsVendor(all[i].key) ==> IsVendor(all[j].key))
    {
      if i < |cleared| {
        assert all[i] == cleared[i] && cleared[i] in cleared;
      }
    }
  }

  lemma {:induction false} MappedOfConcat(fs: seq<Field>, gs: seq<Field>)
    ensures Mapped(fs + gs) == Mapped(fs) + Mapped(gs)
  {
    if gs == [] {
      assert fs + gs == fs;
    } else {
      var n := |gs| - 1;
      assert (fs + gs)[..|fs| + n] == fs + gs[..n];
      MappedOfConcat(fs, gs[..n]);
    }
  }

  lemma {:induction false} DeleteAllGone(fs: seq<Field>, keys: seq<string>)
    requires forall i :: 0 <= i < |fs| ==> fs[i].key in keys
    ensures DeleteAll(fs, keys) == []
  {
    var out := DeleteAll(fs, keys);
    if out != [] {
      DeleteAllHolds(fs, keys, out[0]);
    }
  }

  /** What the second pass finds under the special keys. */
  lemma FoundAgain(fs: seq<Field>, properties: seq<Json>, connector: Option<Json>, context: seq<string>)
    requires IsContext(context)
    requires (forall p :: p in properties ==> p.Object?) && (connector.Some? ==> connector.value.Object?)
    ensures
      var out := Assemble(fs, properties, connector, context);
      && AllProperties(out, DEFAULT_CONTEXT) == properties
      && FirstConnector(out, DEFAULT_CONTEXT) == CanonOf(connector, Prefixes(context))
  {
    FoundPropertiesAgain(fs, properties, connector, context);
    FoundConnectorAgain(fs, properties, connector, context);
  }

  lemma FoundPropertiesAgain(fs: seq<Field>, properties: seq<Json>, connector: Option<Json>, context: seq<string>)
    requires IsContext(context) && forall p :: p in properties ==> p.Object?
    ensures AllProperties(Assemble(fs, properties, connector, context), DEFAULT_CONTEXT) == properties
  {
    var out := Assemble(fs, properties, connector, context);
    KeysDiffer();
    SpecialKeysAre(context);
    AssembleAt(fs, properties, connector, context, PROPERTIES);
    AssembleAt(fs, properties, connector, context, "properties");
    ValuesUnderDefault(out, "properties");
    if properties != [] {
      GroupHoldsProperties(properties);
    }
  }

  lemma FoundConnectorAgain(fs: seq<Field>, properties: seq<Json>, connector: Option<Json>, context: seq<string>)
    requires IsContext(context) && (connector.Some? ==> connector.value.Object?)
    ensures FirstConnector(Assemble(fs, properties, connector, context), DEFAULT_CONTEXT)
         == CanonOf(connector, Prefixes(context))
  {
    var out := Assemble(fs, properties, connector, context);
    KeysDiffer();
    SpecialKeysAre(context);
    AssembleAt(fs, properties, connector, context, CONNECTOR);
    AssembleAt(fs, properties, connector, context, "connector");
    ValuesUnderDefault(out, "connector");
  }

  lemma ValuesUnderDefault(fs: seq<Field>, local: string)
    requires !Has(fs, local)
    ensures
      var v := Lookup(fs, Elem(VENDOR, local));
      && ValuesForKeys(fs, ExtensionKeys(local, DEFAULT_CONTEXT)) == (if v.Some? then [v.value] else [])
      && FlatRecords(if v.Some? then [v.value] else []) == (if v.Some? then AsRecords(v.value) else [])
  {
    DefaultExtensionKeys(local);
    TwoKeys(fs, Elem(VENDOR, local), local);
    var v := Lookup(fs, Elem(VENDOR, local));
    if v.Some? {
      assert [v.value][1..] == [];
    }
  }

  lemma TwoKeys(fs: seq<Field>, first: string, second: string)
    requires !Has(fs, second)
    ensures ValuesForKeys(fs, [first, second]) == if Has(fs, first) then [Lookup(fs, first).value] else []
  {
    assert [first, second][1..] == [second] && [second][1..] == [];
    assert ValuesForKeys(fs, [second]) == [] + ValuesForKeys(fs, []);
  }

  lemma GroupHoldsProperties(properties: seq<Json>)
    requires forall p :: p in properties ==> p.Object?
    ensures PropertiesIn([PropertyGroup(properties)], DEFAULT_CONTEXT) == properties
  {
    var fs, groups := PropertyGroup(properties).fields, [PropertyGroup(properties)];
    PropertyFields(properties);
    ValuesUnderDefault(fs, "property");
    RecordsOfRecords(properties);
    assert groups[1..] == [];
    assert PropertiesIn(groups, DEFAULT_CONTEXT) == AsRecords(Array(properties)) + PropertiesIn([], DEFAULT_CONTEXT);
  }

  lemma PropertyFields(properties: seq<Json>)
    ensures Lookup(PropertyGroup(properties).fields, PROPERTY) == Some(Array(properties))
    ensures !Has(PropertyGroup(properties).fields, "property")
  {
    var fs := PropertyGroup(properties).fields;
    assert fs[0] == Field(PROPERTY, Array(properties)) && fs[1..] == [];
    assert PROPERTY[0] == 'a' && "property"[0] == 'p';
    assert Lookup(fs[1..], "property").None?;
  }

  lemma {:induction false} FlatRecordsAreRecords(values: seq<Json>)
    ensures forall r :: r in FlatRecords(values) ==> r.Object?
  {
    if values != [] {
      FlatRecordsAreRecords(values[1..]);
    }
  }

  lemma {:induction false} PropertiesInAreRecords(groups: seq<Json>, context: seq<string>)
    ensures forall r :: r in PropertiesIn(groups, context) ==> r.Object?
  {
    if groups != [] {
      PropertiesInAreRecords(groups[1..], context);
      if groups[0].Object? {
        FlatRecordsAreRecords(ValuesForKeys(groups[0].fields, ExtensionKeys("property", context)));
      }
    }
  }

  lemma FoundAreRecords(fs: seq<Field>, context: seq<string>)
    ensures forall p :: p in MergedProperties(fs, context) ==> p.Object?
    ensures FirstConnector(fs, context).Some? ==> FirstConnector(fs, context).value.Object?
  {
    PropertiesInAreRecords(FlatRecords(ValuesForKeys(fs, ExtensionKeys("properties", context))), context);
    forall p | p in MergedProperties(fs, context) ensures p.Object? {
      DedupeHolds(AllProperties(fs, context), p, NAMING);
    }
    FlatRecordsAreRecords(ValuesForKeys(fs, ExtensionKeys("connector", context)));
  }

  /** The second pass removes duplicates among the properties once more, and does nothing else. */
  lemma NormalizingAgain(fs: seq<Field>, context: seq<string>)
    requires IsContext(context)
    ensures
      var ps := MergedProperties(fs, context);
      NormalizeFields(NormalizeFields(fs, context), DEFAULT_CONTEXT)
      == DeleteAll(CanonFields(fs, Prefixes(context)), SpecialKeys(context))
         + Tail(Dedupe(ps, NAMING), CanonOf(FirstConnector(fs, context), Prefixes(context)))
  {
    var ps, connector := MergedProperties(fs, context), FirstConnector(fs, context);
    var cleared := DeleteAll(CanonFields(fs, Prefixes(context)), SpecialKeys(context));
    var canonical := CanonOf(connector, Prefixes(context));
    var out := NormalizeFields(fs, context);
    FoundAreRecords(fs, context);
    FoundAgain(fs, ps, connector, context);
    AssembleAppends(fs, ps, connector, context);
    AssembleAppends(out, Dedupe(ps, NAMING), canonical, DEFAULT_CONTEXT);
    ClearedIsCanonical(fs, context);
    forall f | f in cleared ensures f.key !in SpecialKeys(DEFAULT_CONTEXT) {
      if f.key in SpecialKeys(DEFAULT_CONTEXT) {
        DefaultSpecialKeys(context, f.key);
      }
    }
    DefaultPrefixes();
    ClearingAgain(cleared, ps, canonical);
    if connector.Some? {
      PrefixesAreContext(context);
      CanonIsCanonical(connector.value, Prefixes(context));
      CanonicalStays(canonical.value);
    }
  }

  /** Normalising extension elements is idempotent, exactly when the merged properties hold no clash of names. */
  lemma NormalizeFieldsIsIdempotentIff(fs: seq<Field>, context: seq<string>)
    requires IsContext(context)
    ensures NormalizeFields(NormalizeFields(fs, context), DEFAULT_CONTEXT) == NormalizeFields(fs, context)
            <==> !Clashes(MergedProperties(fs, context), NAMING)
  {
    var ps := MergedProperties(fs, context);
    var canonical := CanonOf(FirstConnector(fs, context), Prefixes(context));
    var cleared := DeleteAll(CanonFields(fs, Prefixes(context)), SpecialKeys(context));
    NormalizingAgain(fs, context);
    AssembleAppends(fs, ps, FirstConnector(fs, context), context);
    UnnamedIsNaming(NameOf);
    DedupeIsIdempotentIff(AllProperties(fs, context), NAMING);
    TailTells(ps, Dedupe(ps, NAMING), canonical);
    var t, t' := Tail(ps, canonical), Tail(Dedupe(ps, NAMING), canonical);
    assert t == (cleared + t)[|cleared|..] && t' == (cleared + t')[|cleared|..];
  }

  lemma TailTells(ps: seq<Json>, qs: seq<Json>, connector: Option<Json>)
    ensures Tail(ps, connector) == Tail(qs, connector) <==> ps == qs
  {
    KeysDiffer();
    var t, t' := Tail(ps, connector), Tail(qs, connector);
    if t == t' && ps != [] {
      assert t[0] == Field(PROPERTIES, PropertyGroup(ps));
      assert qs != [];
      assert t'[0] == Field(PROPERTIES, PropertyGroup(qs));
      assert PropertyGroup(ps).fields[0] == PropertyGroup(qs).fields[0];
    }
  }
}
