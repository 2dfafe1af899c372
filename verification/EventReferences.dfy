/**
 The references that the generator writes into event elements, and when each of them has its root element.
 */
module EventReferences {
  import opened Options
  import opened JsonValues
  import opened Namespaces
  import opened ExtensionAttributes
  import opened NormalizedData
  import opened EventDefinitions
  import opened Text

  // ---- Writing an event element ----

  /** The kind that the generator goes by: the marker as it is written, or else the kind that is inferred. */
  function EmittedKind(data: seq<Field>): Option<Kind> {
    if MarkedType(data) != "" then KindNamed(MarkedType(data), KINDS) else InferKind(data)
  }

  function TruthyText(v: Option<Json>, otherwise: string): string {
    match v
    case Some(w) => if Truthy(w) then ToText(w) else otherwise
    case None => otherwise
  }

  /** The id that a definition gets when the node has none. */
  function MadeUpId(data: seq<Field>, k: Kind): string
    requires Refers(k)
  {
    var id := Lookup(data, IdKey(k));
    match k
    case Message => TruthyText(id, "Message_Message1")
    case Signal => TruthyText(id, "Signal_Signal1")
    case _ => TruthyText(id, IdPrefix(k) + ReplaceRuns(TruthyText(Lookup(data, NameKey(k)), DefaultName(k))))
  }

  /** The value under the definition key of the written element. */
  function Placed(data: seq<Field>, normalized: seq<Field>, k: Kind): Option<Json>
    requires Refers(k)
  {
    if Has(normalized, DefinitionKey(k)) then Lookup(normalized, DefinitionKey(k))
    else if
      EmittedKind(data) == Some(k) && !IsPresent(normalized, DefinitionKey(k)) && !IsPresent(normalized, PlainKey(k))
    then Some(Object([Field(RefKey(k), Text(MadeUpId(data, k)))]))
    else None
  }

  /** Escalation and error events always get a reference. */
  function WithRef(v: Option<Json>, k: Kind, id: string): Json {
    var fs := if v.Some? && v.value.Object? then v.value.fields else [];
    var ref := Lookup(fs, RefKey(k));
    if ref.Some? && Truthy(ref.value) then Object(fs) else Object(Set(fs, RefKey(k), Text(id)))
  }

  function Written(data: seq<Field>, normalized: seq<Field>, k: Kind): Option<Json>
    requires Refers(k)
  {
    var placed := Placed(data, normalized, k);
    if EmittedKind(data) == Some(k) && (k.Escalation? || k.Error?) then Some(WithRef(placed, k, MadeUpId(data, k)))
    else placed
  }

  /** Writing the definition of an event: made up when there is none, replaced by the node's own, then completed. */
  method WriteDefinition(data: seq<Field>, normalized: seq<Field>, k: Kind) returns (definition: Option<Json>)
    requires Refers(k)
    ensures definition == Written(data, normalized, k)
  {
    definition := None;
    var kind := EmittedKind(data);
    if kind == Some(k) && !IsPresent(normalized, DefinitionKey(k)) && !IsPresent(normalized, PlainKey(k)) {
      definition := Some(Object([Field(RefKey(k), Text(MadeUpId(data, k)))]));
    }
    if Has(normalized, DefinitionKey(k)) {
      definition := Lookup(normalized, DefinitionKey(k));
    }
    if kind == Some(k) && (k.Escalation? || k.Error?) {
      var fs := if definition.Some? && definition.value.Object? then definition.value.fields else [];
      var ref := Lookup(fs, RefKey(k));
      if ref.None? || !Truthy(ref.value) {
        fs := Set(fs, RefKey(k), Text(MadeUpId(data, k)));
      }
      definition := Some(Object(fs));
    }
  }

  /** The text an attribute is written with; objects and nulls are not written as attributes. */
  function AttributeText(v: Option<Json>): Option<string> {
    match v
    case Some(Text(t)) => Some(t)
    case Some(Number(d)) => Some(d)
    case Some(Boolean(b)) => Some(ToText(Boolean(b)))
    case _ => None
  }

  /** The references in a definition, or in each of several. */
  function RefsIn(v: Json, k: Kind): set<string>
    decreases v
  {
    match v
    case Object(fs) => TextSet(AttributeText(Lookup(fs, RefKey(k))))
    case Array(items) => RefsInItems(items, k)
    case _ => {}
  }

  function RefsInItems(items: seq<Json>, k: Kind): set<string>
    decreases items
  {
    if items == [] then {} else RefsIn(items[0], k) + RefsInItems(items[1..], k)
  }

  /** All references of this kind that the element is written with. */
  ghost predicate IsWritten(data: seq<Field>, k: Kind, ref: string)
    requires Refers(k)
  {
    IsWrittenFrom(data, NormalizeData(data, DEFAULT_CONTEXT), k, ref)
  }

  predicate IsWrittenFrom(data: seq<Field>, normalized: seq<Field>, k: Kind, ref: string)
    requires Refers(k)
  {
    var written, plain := Written(data, normalized, k), Lookup(normalized, PlainKey(k));
    || (written.Some? && ref in RefsIn(written.value, k))
    || (plain.Some? && ref in RefsIn(plain.value, k))
    || (k.Message? && AttributeText(Lookup(normalized, RECEIVE_REF)) == Some(ref))
    || (k.Message? && AttributeText(Lookup(normalized, "messageRef")) == Some(ref))
  }

  /**
   A definition that the node has is written as it is, whatever else is in it, but that an escalation or error event
   without reference gets the made-up one.
   */
  lemma GivenDefinitionIsKept(data: seq<Field>, normalized: seq<Field>, k: Kind)
    requires Refers(k) && Has(normalized, DefinitionKey(k))
    ensures
      var given, written := Lookup(normalized, DefinitionKey(k)), Written(data, normalized, k);
      && written.Some?
      && (k.Message? || k.Signal? || EmittedKind(data) != Some(k) || HasRef(given, k) ==> written == given)
      && (given.value.Object? ==> written.value.Object? && forall key :: key != RefKey(k) ==>
            Lookup(written.value.fields, key) == Lookup(given.value.fields, key))
  {
    var given := Lookup(normalized, DefinitionKey(k)).value;
    if given.Object? {
      forall key | key != RefKey(k)
        ensures Lookup(Set(given.fields, RefKey(k), Text(MadeUpId(data, k))), key) == Lookup(given.fields, key)
      {
        LookupSet(given.fields, RefKey(k), Text(MadeUpId(data, k)), key);
      }
    }
  }

  // ---- Keys ----

  lemma StemsDiffer(k: Kind, l: Kind)
    requires Refers(k) && Refers(l) && k != l
    ensures |Stem(k)| != |Stem(l)|
  {
  }

  /** How the keys of an event end. */
  lemma KeyEnds(k: Kind)
    ensures Last(PlainKey(k)) == 'n' && Last(DefinitionKey(k)) == 'n' && Last(RefKey(k)) == 'f'
    ensures Last(IdKey(k)) == 'd' && Last(NameKey(k)) == 'e' && Last(CodeAttribute(k)) == 'e' && Last(TYPE) == 'e'
    ensures Last(RECEIVE_REF) == 'f' && Last("messageRef") == 'f'
  {
  }

  function Last(s: string): char {
    if s == "" then ' ' else s[|s| - 1]
  }

  lemma DefinitionKeysDiffer(k: Kind, l: Kind)
    requires Refers(k) && Refers(l)
    ensures DefinitionKey(k) != PlainKey(l)
    ensures k != l ==> DefinitionKey(k) != DefinitionKey(l) && PlainKey(k) != PlainKey(l)
  {
    assert DefinitionKey(k)[0] == 'b' && PlainKey(l)[0] == Stem(l)[0] != 'b';
    if k != l {
      StemsDiffer(k, l);
    }
  }

  /** Normalising leaves the keys of an event where they are. */
  lemma NormalizedKeeps(data: seq<Field>, key: string)
    requires Distinct(data) && key != EXTENSIONS && forall n :: n in NAMES ==> key !in AttributeKeys(n, DEFAULT_CONTEXT)
    ensures Lookup(NormalizeData(data, DEFAULT_CONTEXT), key) == CanonOf(Lookup(data, key), DEFAULT_CONTEXT)
  {
    NormalizedAtOther(data, DEFAULT_CONTEXT, key);
    DefaultPrefixes();
    CanonLookup(data, key);
  }

  lemma NoAttribute(key: string)
    requires key == "" || key[0] != '@'
    ensures forall n :: n in NAMES ==> key !in AttributeKeys(n, DEFAULT_CONTEXT)
  {
    forall n | n in NAMES ensures key !in AttributeKeys(n, DEFAULT_CONTEXT) {
      NamesAreLocal(n);
      if key in AttributeKeys(n, DEFAULT_CONTEXT) {
        KeyTellsName(n, DEFAULT_CONTEXT, key);
        assert false;
      }
    }
  }

  lemma ReceiveIsNoAttribute()
    ensures forall n :: n in NAMES ==> RECEIVE_REF !in AttributeKeys(n, DEFAULT_CONTEXT)
  {
    var local := "messageRef";
    assert RECEIVE_REF == "@_" + local && ':' !in local;
    forall n | n in NAMES ensures RECEIVE_REF !in AttributeKeys(n, DEFAULT_CONTEXT) {
      NamesAreLocal(n);
      NameIsNotMessageRef(n);
      NotThisName(n, local);
    }
  }

  lemma NotThisName(n: string, local: string)
    requires IsLocalName(n) && IsLocalName(local) && n != local
    ensures "@_" + local !in AttributeKeys(n, DEFAULT_CONTEXT)
  {
    var key := "@_" + local;
    assert key[2..] == local;
    if key in AttributeKeys(n, DEFAULT_CONTEXT) {
      KeyTellsName(n, DEFAULT_CONTEXT, key);
      assert false;
    }
  }

  /** No vendor attribute is called like the reference of a receive task. */
  lemma NameIsNotMessageRef(n: string)
    requires n in NAMES
    ensures n != "messageRef"
  {
    TaskNamesDiffer(n);
    EventNamesDiffer(n);
  }

  lemma TaskNamesDiffer(n: string)
    ensures n in TASK_NAMES + USER_NAMES ==> |n| != 10 || n[0] != 'm'
  {
  }

  lemma EventNamesDiffer(n: string)
    ensures n in EVENT_NAMES + FLOW_NAMES ==> |n| != 10 || n[0] != 'm'
  {
  }

  lemma EventKeysAreKept(data: seq<Field>, k: Kind)
    requires Refers(k) && Distinct(data)
    ensures
      var normalized := NormalizeData(data, DEFAULT_CONTEXT);
      && Lookup(normalized, DefinitionKey(k)) == CanonOf(Lookup(data, DefinitionKey(k)), DEFAULT_CONTEXT)
      && Lookup(normalized, PlainKey(k)) == CanonOf(Lookup(data, PlainKey(k)), DEFAULT_CONTEXT)
      && Lookup(normalized, RECEIVE_REF) == CanonOf(Lookup(data, RECEIVE_REF), DEFAULT_CONTEXT)
      && Lookup(normalized, "messageRef") == CanonOf(Lookup(data, "messageRef"), DEFAULT_CONTEXT)
  {
    KeyEnds(k);
    assert Last(EXTENSIONS) == 's';
    NoAttribute(DefinitionKey(k));
    NoAttribute(PlainKey(k));
    NoAttribute("messageRef");
    ReceiveIsNoAttribute();
    NormalizedKeeps(data, DefinitionKey(k));
    NormalizedKeeps(data, PlainKey(k));
    NormalizedKeeps(data, RECEIVE_REF);
    NormalizedKeeps(data, "messageRef");
  }

  // ---- Marked and inferred kinds ----

  predicate IsSmall(s: string) {
    forall i :: 0 <= i < |s| ==> 'a' <= s[i] <= 'z'
  }

  lemma StemIsSmall(k: Kind)
    ensures IsSmall(Stem(k)) && Stem(k) != ""
  {
  }

  lemma {:induction false} LowerOfSmall(s: string)
    requires IsSmall(s)
    ensures Lower(s) == s
  {
    if s != "" {
      LowerOfSmall(s[1..]);
      assert s == [s[0]] + s[1..];
    }
  }

  lemma SmallIsTrimmed(s: string)
    requires IsSmall(s)
    ensures Trim(s, JS_SPACE) == s
  {
    if s != "" {
      SmallIsNoSpace(s[0]);
      SmallIsNoSpace(s[|s| - 1]);
    }
    TrimmedStays(s, JS_SPACE);
  }

  lemma SmallIsNoSpace(c: char)
    requires '!' <= c <= '~'
    ensures c !in JS_SPACE
  {
  }

  lemma {:induction false} KindNamedIs(name: string, kinds: seq<Kind>)
    ensures KindNamed(name, kinds).Some? ==> Stem(KindNamed(name, kinds).value) == name
  {
    if kinds != [] {
      KindNamedIs(name, kinds[1..]);
    }
  }

  /** The kind the generator goes by is the kind that is inferred. */
  lemma EmittedIsInferred(data: seq<Field>)
    requires EmittedKind(data).Some?
    ensures InferKind(data) == EmittedKind(data)
  {
    var marked := MarkedType(data);
    if marked != "" {
      KindNamedIs(marked, KINDS);
      StemIsSmall(EmittedKind(data).value);
      SmallIsTrimmed(marked);
      LowerOfSmall(marked);
    }
  }

  // ---- Exactly what is written ----

  /** The references of this kind that the node is written with all have their root element. */
  ghost predicate Closes(data: seq<Field>, k: Kind)
    requires Refers(k)
  {
    forall ref :: IsWritten(data, k, ref) ==> IsRoot(CatalogOf([data]), k, ref)
  }

  /** As parsed data always is: the records in a definition hold each key once. */
  ghost predicate RecordsAreDistinct(v: Json)
    decreases v
  {
    match v
    case Object(fs) => Distinct(fs)
    case Array(items) => forall i :: 0 <= i < |items| ==> RecordsAreDistinct(items[i])
    case _ => true
  }

  /** As in any object, no key occurs twice in a definition. */
  ghost predicate DefinitionKeysAreDistinct(data: seq<Field>, k: Kind) {
    IsProper(data, DefinitionKey(k)) && IsProper(data, PlainKey(k))
  }

  ghost predicate IsProper(data: seq<Field>, key: string) {
    Has(data, key) ==> RecordsAreDistinct(Lookup(data, key).value)
  }

  lemma CanonKeepsRef(fs: seq<Field>, k: Kind)
    requires Distinct(fs)
    ensures TextOf(Lookup(CanonFields(fs, DEFAULT_CONTEXT), RefKey(k))) == TextOf(Lookup(fs, RefKey(k)))
    ensures AttributeText(Lookup(CanonFields(fs, DEFAULT_CONTEXT), RefKey(k))) == AttributeText(Lookup(fs, RefKey(k)))
  {
    CanonLookup(fs, RefKey(k));
  }

  lemma OneField(key: string, value: Json)
    ensures Lookup([Field(key, value)], key) == Some(value)
  {
  }

  lemma RefInOne(k: Kind, id: string)
    ensures RefsIn(Object([Field(RefKey(k), Text(id))]), k) == {id}
  {
    OneField(RefKey(k), Text(id));
  }

  lemma {:induction false} RefsOfOneMore(items: seq<Json>, v: Json, k: Kind)
    ensures RefsInItems(items + [v], k) == RefsInItems(items, k) + RefsIn(v, k)
  {
    if items == [] {
      assert [] + [v] == [v] && [v][1..] == [];
    } else {
      assert (items + [v])[1..] == items[1..] + [v];
      RefsOfOneMore(items[1..], v, k);
    }
  }

  /** Normalising keeps the references of a definition. */
  lemma {:induction false} RefsOfCanon(v: Json, k: Kind)
    requires RecordsAreDistinct(v)
    ensures RefsIn(Canon(v, DEFAULT_CONTEXT), k) == RefsIn(v, k)
    decreases v
  {
    match v
    case Object(fs) => CanonKeepsRef(fs, k);
    case Array(items) => RefsOfCanonItems(items, k);
    case _ =>
  }

  lemma {:induction false} RefsOfCanonItems(items: seq<Json>, k: Kind)
    requires forall i :: 0 <= i < |items| ==> RecordsAreDistinct(items[i])
    ensures RefsInItems(CanonItems(items, DEFAULT_CONTEXT), k) == RefsInItems(items, k)
    decreases items
  {
    if items != [] {
      var n := |items| - 1;
      RefsOfCanonItems(items[..n], k);
      RefsOfCanon(items[n], k);
      RefsOfOneMore(CanonItems(items[..n], DEFAULT_CONTEXT), Canon(items[n], DEFAULT_CONTEXT), k);
      RefsOfOneMore(items[..n], items[n], k);
      assert items == items[..n] + [items[n]];
    }
  }

  function Refs(v: Option<Json>, k: Kind): set<string> {
    if v.Some? then RefsIn(v.value, k) else {}
  }

  /** The generator makes up a definition. */
  predicate MakesUp(data: seq<Field>, k: Kind) {
    EmittedKind(data) == Some(k) && !Has(data, DefinitionKey(k)) && !IsPresent(data, PlainKey(k))
  }

  predicate HasRef(v: Option<Json>, k: Kind) {
    && v.Some? && v.value.Object?
    && Lookup(v.value.fields, RefKey(k)).Some? && Truthy(Lookup(v.value.fields, RefKey(k)).value)
  }

  /** The generator completes the definition of an escalation or error event. */
  predicate Completes(data: seq<Field>, k: Kind) {
    EmittedKind(data) == Some(k) && (k.Escalation? || k.Error?) && !HasRef(Lookup(data, DefinitionKey(k)), k)
  }

  function TextSet(v: Option<string>): set<string> {
    if v.Some? then {v.value} else {}
  }

  /** The references of a receive task. */
  function Received(data: seq<Field>): set<string> {
    TextSet(AttributeText(Lookup(data, RECEIVE_REF))) + TextSet(AttributeText(Lookup(data, "messageRef")))
  }

  /**
   The references of this kind that the data holds: those under both keys, or the made-up id where the generator makes
   up or completes the definition.
   */
  function Held(data: seq<Field>, k: Kind): set<string>
    requires Refers(k)
  {
    (if MakesUp(data, k) || Completes(data, k) then {MadeUpId(data, k)} else Refs(Lookup(data, DefinitionKey(k)), k))
    + Refs(Lookup(data, PlainKey(k)), k)
    + if k.Message? then Received(data) else {}
  }

  /** The roots of this kind that the node adds. */
  function Added(data: seq<Field>, k: Kind): (ids: set<string>)
    requires Refers(k)
    ensures forall id :: id in ids <==> Adds(data, k, id)
  {
    var received := Trimmed(Lookup(data, RECEIVE_REF));
    (if InferKind(data) == Some(k) then {RootId(data, k)} else {})
    + if k.Message? && received != "" then {received} else {}
  }

  lemma CanonKeepsTruth(v: Json)
    ensures Truthy(Canon(v, DEFAULT_CONTEXT)) == Truthy(v)
  {
  }

  lemma RefsOfCanonOf(v: Option<Json>, k: Kind)
    requires v.Some? ==> RecordsAreDistinct(v.value)
    ensures Refs(CanonOf(v, DEFAULT_CONTEXT), k) == Refs(v, k)
    ensures HasRef(CanonOf(v, DEFAULT_CONTEXT), k) == HasRef(v, k)
  {
    if v.Some? {
      RefsOfCanon(v.value, k);
      if v.value.Object? {
        CanonLookup(v.value.fields, RefKey(k));
        if Lookup(v.value.fields, RefKey(k)).Some? {
          CanonKeepsTruth(Lookup(v.value.fields, RefKey(k)).value);
        }
      }
    }
  }

  lemma RefsOfCompleted(v: Option<Json>, k: Kind, id: string)
    ensures RefsIn(WithRef(v, k, id), k) == if HasRef(v, k) then Refs(v, k) else {id}
  {
    var fs := if v.Some? && v.value.Object? then v.value.fields else [];
    LookupSet(fs, RefKey(k), Text(id), RefKey(k));
  }

  lemma MadeUpHasRef(k: Kind, id: string)
    ensures
      var made := Some(Object([Field(RefKey(k), Text(id))]));
      Refs(made, k) == {id} && RefsIn(WithRef(made, k, id), k) == {id}
  {
    RefInOne(k, id);
    RefsOfCompleted(Some(Object([Field(RefKey(k), Text(id))])), k, id);
  }

  /** Under this key the two records hold the same references. */
  predicate HoldAlike(fs: seq<Field>, gs: seq<Field>, key: string, k: Kind) {
    var v, w := Lookup(fs, key), Lookup(gs, key);
    && v.Some? == w.Some? && (v == Some(Null) <==> w == Some(Null))
    && Refs(v, k) == Refs(w, k) && HasRef(v, k) == HasRef(w, k)
  }

  /** The references in the definition that is written, by what stands under the definition key. */
  lemma WrittenRefs(data: seq<Field>, normalized: seq<Field>, k: Kind)
    requires Refers(k)
    requires HoldAlike(normalized, data, DefinitionKey(k), k) && HoldAlike(normalized, data, PlainKey(k), k)
    ensures Refs(Written(data, normalized, k), k) ==
      if MakesUp(data, k) || Completes(data, k) then {MadeUpId(data, k)} else Refs(Lookup(data, DefinitionKey(k)), k)
  {
    MadeUpHasRef(k, MadeUpId(data, k));
    RefsOfCompleted(Placed(data, normalized, k), k, MadeUpId(data, k));
  }

  lemma HeldIsWrittenFrom(data: seq<Field>, normalized: seq<Field>, k: Kind, ref: string)
    requires Refers(k)
    requires HoldAlike(normalized, data, DefinitionKey(k), k) && HoldAlike(normalized, data, PlainKey(k), k)
    requires Received(normalized) == Received(data)
    ensures IsWrittenFrom(data, normalized, k, ref) <==> ref in Held(data, k)
  {
    WrittenRefs(data, normalized, k);
    assert IsWrittenFrom(data, normalized, k, ref) <==>
      || ref in Refs(Written(data, normalized, k), k) || ref in Refs(Lookup(normalized, PlainKey(k)), k)
      || (k.Message? && ref in Received(normalized));
  }

  lemma CanonHoldsAlike(data: seq<Field>, normalized: seq<Field>, key: string, k: Kind)
    requires IsProper(data, key)
    requires Lookup(normalized, key) == CanonOf(Lookup(data, key), DEFAULT_CONTEXT)
    ensures HoldAlike(normalized, data, key, k)
  {
    RefsOfCanonOf(Lookup(data, key), k);
  }

  lemma CanonKeepsText(v: Option<Json>)
    ensures AttributeText(CanonOf(v, DEFAULT_CONTEXT)) == AttributeText(v)
  {
  }

  /** What the element is written with is exactly what the data holds. */
  lemma HeldIsWritten(data: seq<Field>, k: Kind, ref: string)
    requires Refers(k) && Distinct(data) && DefinitionKeysAreDistinct(data, k)
    ensures IsWritten(data, k, ref) <==> ref in Held(data, k)
  {
    var normalized := NormalizeData(data, DEFAULT_CONTEXT);
    EventKeysAreKept(data, k);
    CanonHoldsAlike(data, normalized, DefinitionKey(k), k);
    CanonHoldsAlike(data, normalized, PlainKey(k), k);
    CanonKeepsText(Lookup(data, RECEIVE_REF));
    CanonKeepsText(Lookup(data, "messageRef"));
    HeldIsWrittenFrom(data, normalized, k, ref);
  }

  // ---- Main results ----

  /** Some node adds this root. */
  ghost predicate IsAdded(nodes: seq<seq<Field>>, k: Kind, ref: string)
    requires Refers(k)
  {
    exists data :: data in nodes && ref in Added(data, k)
  }

  /** All references of this kind in a diagram have their root elements. */
  ghost predicate AllClose(nodes: seq<seq<Field>>, k: Kind)
    requires Refers(k)
  {
    forall data, ref :: data in nodes && IsWritten(data, k, ref) ==> IsRoot(CatalogOf(nodes), k, ref)
  }

  /** They have if and only if every reference that a node holds is added by some node. */
  lemma AllCloseIff(nodes: seq<seq<Field>>, k: Kind)
    requires Refers(k) && forall data :: data in nodes ==> Distinct(data) && DefinitionKeysAreDistinct(data, k)
    ensures AllClose(nodes, k) <==> forall data, ref :: data in nodes && ref in Held(data, k) ==> IsAdded(nodes, k, ref)
  {
    forall data, ref | data in nodes ensures IsWritten(data, k, ref) <==> ref in Held(data, k) {
      HeldIsWritten(data, k, ref);
    }
    forall ref ensures IsRoot(CatalogOf(nodes), k, ref) <==> IsAdded(nodes, k, ref) {
      CatalogHolds(nodes, k, ref);
    }
  }

  /** The references of one node alone close if and only if it adds every reference that it holds. */
  lemma ClosesIff(data: seq<Field>, k: Kind)
    requires Refers(k) && Distinct(data) && DefinitionKeysAreDistinct(data, k)
    ensures Closes(data, k) <==> Held(data, k) <= Added(data, k)
  {
    forall ref ensures IsWritten(data, k, ref) <==> ref in Held(data, k) {
      HeldIsWritten(data, k, ref);
    }
    forall ref ensures IsRoot(CatalogOf([data]), k, ref) <==> ref in Added(data, k) {
      CatalogHolds([data], k, ref);
      assert data in [data];
    }
  }

  /** Without receive reference: if and only if it holds none but the root id of its own kind. */
  lemma EventClosesIff(data: seq<Field>, k: Kind)
    requires Refers(k) && Distinct(data) && DefinitionKeysAreDistinct(data, k) && !Has(data, RECEIVE_REF)
    ensures Closes(data, k) <==> Held(data, k) <= if InferKind(data) == Some(k) then {RootId(data, k)} else {}
  {
    ClosesIff(data, k);
    assert Added(data, k) == if InferKind(data) == Some(k) then {RootId(data, k)} else {};
  }

  // ---- Consistent data ----

  predicate IsRef(ref: string) {
    ref != "" && IsTrimmed(ref, JS_SPACE)
  }

  /** The definition of this kind is there if the event is of this kind, and refers to what the node remembers. */
  predicate DefinitionFits(data: seq<Field>, k: Kind) {
    && !Has(data, PlainKey(k))
    && if InferKind(data) != Some(k) then !Has(data, DefinitionKey(k))
       else
         var id := TextOf(Lookup(data, IdKey(k)));
         match Lookup(data, DefinitionKey(k))
         case None => id != ""
         case Some(Object(fs)) =>
           var ref := TextOf(Lookup(fs, RefKey(k)));
           Distinct(fs) && IsRef(ref) && (id != "" ==> id == ref)
         case _ => false
  }

  /** A receive task refers to a message by a trimmed text. */
  predicate ReceiveFits(data: seq<Field>) {
    && !Has(data, "messageRef")
    && (Has(data, RECEIVE_REF) ==> IsRef(TextOf(Lookup(data, RECEIVE_REF))))
  }

  ghost predicate IsConsistent(data: seq<Field>) {
    ReceiveFits(data) && forall k :: Refers(k) ==> DefinitionFits(data, k)
  }

  lemma ConsistentIsDistinct(data: seq<Field>, k: Kind)
    requires Refers(k) && DefinitionFits(data, k)
    ensures DefinitionKeysAreDistinct(data, k)
  {
    if Has(data, DefinitionKey(k)) {
      assert Lookup(data, DefinitionKey(k)).value.Object?;
    }
  }

  /** The id that the catalogue takes from a definition, when the node remembers none. */
  lemma RootIdIsTrimmed(data: seq<Field>, k: Kind, fs: seq<Field>, ref: string)
    requires Refers(k) && Trim(ref, JS_SPACE) != "" && TextOf(Lookup(data, IdKey(k))) == ""
    requires Lookup(data, DefinitionKey(k)) == Some(Object(fs)) && Lookup(fs, RefKey(k)) == Some(Text(ref))
    ensures RootId(data, k) == Trim(ref, JS_SPACE)
  {
  }

  lemma TextIsRef(fs: seq<Field>, k: Kind, ref: string)
    requires Lookup(fs, RefKey(k)) == Some(Text(ref)) && ref != ""
    ensures Refs(Some(Object(fs)), k) == {ref} && HasRef(Some(Object(fs)), k)
  {
  }

  lemma RootIdIsRef(data: seq<Field>, k: Kind, fs: seq<Field>, ref: string)
    requires Refers(k) && Lookup(data, DefinitionKey(k)) == Some(Object(fs))
    requires Lookup(fs, RefKey(k)) == Some(Text(ref)) && IsRef(ref)
    requires TextOf(Lookup(data, IdKey(k))) == "" || TextOf(Lookup(data, IdKey(k))) == ref
    ensures RootId(data, k) == ref
  {
    if TextOf(Lookup(data, IdKey(k))) == "" {
      TrimmedStays(ref, JS_SPACE);
      RootIdIsTrimmed(data, k, fs, ref);
    }
  }

  /** What the references under the definition key come to. */
  lemma OwnGivenHolds(data: seq<Field>, k: Kind)
    requires Refers(k) && DefinitionFits(data, k) && InferKind(data) == Some(k) && Has(data, DefinitionKey(k))
    ensures !MakesUp(data, k) && !Completes(data, k) && Refs(Lookup(data, DefinitionKey(k)), k) == {RootId(data, k)}
  {
    var fs := Lookup(data, DefinitionKey(k)).value.fields;
    var ref := TextOf(Lookup(fs, RefKey(k)));
    RootIdIsRef(data, k, fs, ref);
    TextIsRef(fs, k, ref);
  }

  lemma OwnAbsentHolds(data: seq<Field>, k: Kind)
    requires Refers(k) && DefinitionFits(data, k) && InferKind(data) == Some(k) && !Has(data, DefinitionKey(k))
    ensures MadeUpId(data, k) == RootId(data, k) && Refs(Lookup(data, DefinitionKey(k)), k) == {}
  {
  }

  lemma ForeignHolds(data: seq<Field>, k: Kind)
    requires Refers(k) && DefinitionFits(data, k) && InferKind(data) != Some(k)
    ensures !MakesUp(data, k) && !Completes(data, k) && Refs(Lookup(data, DefinitionKey(k)), k) == {}
  {
    if EmittedKind(data) == Some(k) {
      EmittedIsInferred(data);
      assert false;
    }
  }

  /** The definition of the event's own kind holds its root id. */
  lemma FittingHolds(data: seq<Field>, k: Kind)
    requires Refers(k) && DefinitionFits(data, k)
    ensures Held(data, k) <=
      (if InferKind(data) == Some(k) then {RootId(data, k)} else {}) + if k.Message? then Received(data) else {}
  {
    assert Refs(Lookup(data, PlainKey(k)), k) == {};
    if InferKind(data) != Some(k) {
      ForeignHolds(data, k);
    } else if Has(data, DefinitionKey(k)) {
      OwnGivenHolds(data, k);
    } else {
      OwnAbsentHolds(data, k);
    }
  }

  lemma ConsistentAdds(data: seq<Field>, k: Kind)
    requires Refers(k) && IsConsistent(data)
    ensures Held(data, k) <= Added(data, k)
  {
    assert DefinitionFits(data, k);
    FittingHolds(data, k);
    TrimmedStays(TextOf(Lookup(data, RECEIVE_REF)), JS_SPACE);
  }

  /**
   So when the data of every node is consistent, each message, signal, escalation and error that is referred to has its
   root element.
   */
  lemma EventReferencesClose(nodes: seq<seq<Field>>, k: Kind)
    requires Refers(k) && forall data :: data in nodes ==> Distinct(data) && IsConsistent(data)
    ensures AllClose(nodes, k)
  {
    forall data | data in nodes ensures DefinitionKeysAreDistinct(data, k) && Held(data, k) <= Added(data, k) {
      assert DefinitionFits(data, k);
      ConsistentIsDistinct(data, k);
      ConsistentAdds(data, k);
    }
    AllCloseIff(nodes, k);
  }

  // ---- Where references do not close ----

  /** A blank around a reference is written, and the root element goes without it. */
  lemma BlankAroundReferenceDangles(data: seq<Field>, k: Kind, fs: seq<Field>, ref: string)
    requires Refers(k) && Distinct(data) && DefinitionKeysAreDistinct(data, k) && !Has(data, RECEIVE_REF)
    requires Lookup(data, DefinitionKey(k)) == Some(Object(fs)) && Lookup(fs, RefKey(k)) == Some(Text(ref))
    requires Trim(ref, JS_SPACE) != ref && Trim(ref, JS_SPACE) != "" && TextOf(Lookup(data, IdKey(k))) == ""
    ensures !Closes(data, k)
  {
    EventClosesIff(data, k);
    GivenIsHeld(data, k, fs, ref);
    RootIdIsTrimmed(data, k, fs, ref);
    assert ref in Held(data, k);
  }

  lemma GivenIsHeld(data: seq<Field>, k: Kind, fs: seq<Field>, ref: string)
    requires Refers(k) && ref != ""
    requires Lookup(data, DefinitionKey(k)) == Some(Object(fs)) && Lookup(fs, RefKey(k)) == Some(Text(ref))
    ensures ref in Held(data, k)
  {
    TextIsRef(fs, k, ref);
  }

  /** An event from nowhere but its marker: no definition, no remembered id, no receive reference. */
  predicate IsBare(data: seq<Field>, k: Kind) {
    && EmittedKind(data) == Some(k)
    && !Has(data, DefinitionKey(k)) && !Has(data, PlainKey(k)) && !Has(data, IdKey(k))
    && !Has(data, RECEIVE_REF) && !Has(data, "messageRef")
  }

  lemma BareClosesIff(data: seq<Field>, k: Kind)
    requires Refers(k) && Distinct(data) && IsBare(data, k)
    ensures Closes(data, k) <==> MadeUpId(data, k) == RootId(data, k)
  {
    EmittedIsInferred(data);
    EventClosesIff(data, k);
    assert Held(data, k) == {MadeUpId(data, k)};
  }

  /** The part of the id that the generator makes up for a bare message or signal event. */
  function MadeUpPart(k: Kind): string {
    if k.Message? then "Message1" else "Signal1"
  }

  lemma MadeUpIds()
    ensures "Message_Message1" == IdPrefix(Message) + "Message1" && "Signal_Signal1" == IdPrefix(Signal) + "Signal1"
  {
  }

  lemma SamePrefix(prefix: string, s: string, t: string)
    ensures prefix + s == prefix + t <==> s == t
  {
    assert (prefix + s)[|prefix|..] == s && (prefix + t)[|prefix|..] == t;
  }

  /**
   For a bare message or signal event the generator makes up one fixed id, and the catalogue another from the name.
   The reference closes exactly when the name comes out as the fixed part.
   */
  lemma BareMessageClosesIff(data: seq<Field>, k: Kind)
    requires (k.Message? || k.Signal?) && Distinct(data) && IsBare(data, k)
    ensures Closes(data, k)
            <==> SanitizeIdPart(OrElse(Trimmed(Lookup(data, NameKey(k))), DefaultName(k))) == MadeUpPart(k)
  {
    BareClosesIff(data, k);
    MadeUpIds();
    BareHasNoRef(data, k);
    SamePrefix(IdPrefix(k), MadeUpPart(k), SanitizeIdPart(NameOrCode(data, k)));
  }

  lemma BareHasNoRef(data: seq<Field>, k: Kind)
    requires Refers(k) && IsBare(data, k)
    ensures GetRef(data, k) == ""
    ensures RootId(data, k) == IdPrefix(k) + SanitizeIdPart(NameOrCode(data, k))
    ensures k.Message? || k.Signal? ==> NameOrCode(data, k) == OrElse(Trimmed(Lookup(data, NameKey(k))), DefaultName(k))
  {
  }

  /**
   For a bare escalation or error event both make up the id, the generator from the code as it stands and the catalogue
   from the code as it is cleaned; when there is one that is not blank, the reference closes exactly when cleaning
   comes to nothing, and for a trimmed code that is when it begins like an id.
   */
  lemma BareCodeClosesIff(data: seq<Field>, k: Kind)
    requires (k.Escalation? || k.Error?) && Distinct(data) && IsBare(data, k)
    ensures
      var code := TruthyText(Lookup(data, NameKey(k)), DefaultName(k));
      && (Closes(data, k) <==> ReplaceRuns(code) == SanitizeIdPart(NameOrCode(data, k)))
      && (Trimmed(Lookup(data, NameKey(k))) != "" ==> (Closes(data, k) <==> ReplaceRuns(code) == SanitizeIdPart(code)))
      && (IsRef(TextOf(Lookup(data, NameKey(k)))) ==> (Closes(data, k) <==> BeginsLikeId(ReplaceRuns(code))))
  {
    var code := TruthyText(Lookup(data, NameKey(k)), DefaultName(k));
    BareClosesIff(data, k);
    BareHasNoRef(data, k);
    SamePrefix(IdPrefix(k), ReplaceRuns(code), SanitizeIdPart(NameOrCode(data, k)));
    if Trimmed(Lookup(data, NameKey(k))) != "" {
      SanitizedTrims(code);
      if IsRef(TextOf(Lookup(data, NameKey(k)))) {
        TrimmedStays(code, JS_SPACE);
        ReplacedIsSomething(code);
      }
    } else if IsRef(TextOf(Lookup(data, NameKey(k)))) {
      TrimmedStays(TextOf(Lookup(data, NameKey(k))), JS_SPACE);
      assert false;
    }
  }

  lemma SanitizedTrims(code: string)
    ensures SanitizeIdPart(Trim(code, JS_SPACE)) == SanitizeIdPart(code)
  {
    TrimmedStays(Trim(code, JS_SPACE), JS_SPACE);
  }

  /** A blank behind the code is enough: the reference is `Error_A_`, and the root `Error_A`. */
  lemma BlankBehindCodeDangles(data: seq<Field>)
    requires Distinct(data) && IsBare(data, Error) && Lookup(data, NameKey(Error)) == Some(Text("A "))
    ensures !Closes(data, Error)
  {
    BareCodeClosesIff(data, Error);
    TrimA();
    assert "A "[1..] == " " && ReplaceRuns(" ") == "_";
    assert |ReplaceRuns("A ")| == 2;
  }

  lemma TrimA()
    ensures Trim("A ", JS_SPACE) == "A" && SanitizeIdPart("A ") == "A"
  {
    SmallIsNoSpace('A');
    assert ' ' in JS_SPACE;
    assert "A "[..1] == "A";
    TrimmedStays("A", JS_SPACE);
    assert ReplaceRuns("A") == "A" + ReplaceRuns("");
  }

  lemma {:induction false} ReplacedIsSomething(s: string)
    requires s != ""
    ensures ReplaceRuns(s) != ""
  {
    if !IsIdChar(s[0]) && |s| > 1 && !IsIdChar(s[1]) {
      ReplacedIsSomething(s[1..]);
    }
  }
}
