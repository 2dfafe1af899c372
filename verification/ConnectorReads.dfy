/**
 What connector inputs read as: right after they were applied, and after the file was saved and read again, when only
 the normalised extension elements are left.
 */
module ConnectorReads {
  import opened Options
  import opened JsonValues
  import opened Namespaces
  import opened ExtensionElements
  import opened NormalizedData
  import opened PropertyNames
  import opened Connectors
  import opened Text

  // ---- The official connectors ----

  /** A key that can be told from every other one, however it is written. */
  predicate IsGoodKey(k: string) {
    k != "" && k[0] != '_' && IsTrimmed(k, JS_SPACE)
  }

  predicate GoodFields(fields: seq<ConnectorField>) {
    && (forall f :: f in fields ==> IsGoodKey(f.key))
    && (forall i, j :: 0 <= i < j < |fields| ==> Lower(fields[i].key) != Lower(fields[j].key))
  }

  predicate IsVisible(c: char) {
    '!' <= c <= '~'
  }

  lemma VisibleIsNoSpace(c: char)
    requires IsVisible(c)
    ensures c !in JS_SPACE
  {
  }

  lemma KeyIsGood(k: string)
    requires k != "" && k[0] != '_' && IsVisible(k[0]) && IsVisible(k[|k| - 1])
    ensures IsGoodKey(k)
  {
    VisibleIsNoSpace(k[0]);
    VisibleIsNoSpace(k[|k| - 1]);
  }

  lemma DifferInLength(k: string, l: string)
    requires |k| != |l|
    ensures Lower(k) != Lower(l)
  {
    LowerAt(k, 0);
    LowerAt(l, 0);
  }

  /** Keys that begin and end with visible characters and differ in length are good. */
  lemma LengthsDiffer(fields: seq<ConnectorField>)
    requires forall i :: 0 <= i < |fields| ==> IsPlainKey(fields[i].key)
    requires forall i, j :: 0 <= i < j < |fields| ==> |fields[i].key| != |fields[j].key|
    ensures GoodFields(fields)
  {
    forall f | f in fields ensures IsGoodKey(f.key) {
      var i :| 0 <= i < |fields| && fields[i] == f;
      assert IsPlainKey(fields[i].key);
      KeyIsGood(f.key);
    }
    forall i, j | 0 <= i < j < |fields| ensures Lower(fields[i].key) != Lower(fields[j].key) {
      DifferInLength(fields[i].key, fields[j].key);
    }
  }

  predicate IsPlainKey(k: string) {
    k != "" && k[0] != '_' && IsVisible(k[0]) && IsVisible(k[|k| - 1])
  }

  lemma HttpFieldsAreGood()
    ensures GoodFields(HTTP_FIELDS)
  {
    LengthsDiffer(HTTP_FIELDS);
  }

  lemma WebhookFieldsAreGood()
    ensures GoodFields(WEBHOOK_FIELDS)
  {
    LengthsDiffer(WEBHOOK_FIELDS);
  }

  lemma KafkaFieldsAreGood()
    ensures GoodFields(KAFKA_FIELDS)
  {
    ThirdDiffersByLetter(KAFKA_FIELDS, 5);
  }

  /** Of three fields, two of the same length that differ in a capital letter. */
  lemma ThirdDiffersByLetter(fields: seq<ConnectorField>, k: nat)
    requires |fields| == 3 && forall i :: 0 <= i < 3 ==> IsPlainKey(fields[i].key)
    requires |fields[0].key| != |fields[1].key| && |fields[1].key| != |fields[2].key|
    requires k < |fields[0].key| && k < |fields[2].key| && fields[0].key[k] == 'T' && fields[2].key[k] == 'V'
    ensures GoodFields(fields)
  {
    forall f | f in fields ensures IsGoodKey(f.key) {
      var i :| 0 <= i < 3 && fields[i] == f;
      assert IsPlainKey(fields[i].key);
      KeyIsGood(f.key);
    }
    LowerAt(fields[0].key, k);
    LowerAt(fields[2].key, k);
    assert LowerChar('T') != LowerChar('V');
    DifferInLength(fields[0].key, fields[1].key);
    DifferInLength(fields[1].key, fields[2].key);
  }

  lemma EmailFieldsAreGood()
    ensures GoodFields(EMAIL_FIELDS)
  {
    LengthsDiffer(EMAIL_FIELDS);
  }

  lemma S3FieldsAreGood()
    ensures GoodFields(S3_FIELDS)
  {
    LengthsDiffer(S3_FIELDS);
  }

  lemma OfficialFieldsAreGood(d: Descriptor)
    requires d in DESCRIPTORS
    ensures GoodFields(d.fields)
  {
    HttpFieldsAreGood();
    WebhookFieldsAreGood();
    KafkaFieldsAreGood();
    EmailFieldsAreGood();
    S3FieldsAreGood();
  }

  lemma GoodKeysDiffer(fields: seq<ConnectorField>, k: string, l: string)
    requires GoodFields(fields) && k in KeysOf(fields) && l in KeysOf(fields) && Lower(k) == Lower(l)
    ensures k == l
  {
    var i :| 0 <= i < |fields| && fields[i].key == k;
    var j :| 0 <= j < |fields| && fields[j].key == l;
  }

  // ---- Inputs and the properties made from them ----

  function InputFor(inputs: seq<Input>, k: string): Option<string> {
    if inputs == [] then None
    else if inputs[|inputs| - 1].key == k then Some(inputs[|inputs| - 1].value)
    else InputFor(inputs[..|inputs| - 1], k)
  }

  lemma {:induction false} CleanedInput(inputs: seq<Input>, keys: set<string>, k: string)
    requires k in keys
    ensures InputFor(Cleaned(inputs, keys), k) == InputFor(inputs, k)
  {
    if inputs != [] {
      var n := |inputs| - 1;
      var before := Cleaned(inputs[..n], keys);
      CleanedInput(inputs[..n], keys, k);
      assert (before + [inputs[n]])[..|before|] == before && before + [] == before;
    }
  }

  lemma {:induction false} InputFieldLookup(inputs: seq<Input>, k: string)
    requires AreInputs(inputs)
    ensures Lookup(InputFields(inputs), k)
         == if InputFor(inputs, k).Some? then Some(Text(InputFor(inputs, k).value)) else None
  {
    InputFieldsAreDistinct(inputs);
    LastIsLookup(InputFields(inputs), k);
    InputFieldLast(inputs, k);
  }

  lemma {:induction false} InputFieldLast(inputs: seq<Input>, k: string)
    ensures LastOf(InputFields(inputs), k)
         == if InputFor(inputs, k).Some? then Some(Text(InputFor(inputs, k).value)) else None
  {
    if inputs != [] {
      var n := |inputs| - 1;
      InputFieldLast(inputs[..n], k);
      LastOneMore(InputFields(inputs[..n]), Field(inputs[n].key, Text(inputs[n].value)), k);
    }
  }

  lemma {:induction false} InputFieldsAre(inputs: seq<Input>)
    ensures |InputFields(inputs)| == |inputs|
    ensures forall i :: 0 <= i < |inputs| ==> InputFields(inputs)[i].key == inputs[i].key
  {
    if inputs != [] {
      InputFieldsAre(inputs[..|inputs| - 1]);
    }
  }

  lemma InputFieldsAreDistinct(inputs: seq<Input>)
    requires AreInputs(inputs)
    ensures Distinct(InputFields(inputs))
  {
    InputFieldsAre(inputs);
  }

  lemma {:induction false} CleanedHolds(inputs: seq<Input>, keys: set<string>, x: Input)
    requires x in Cleaned(inputs, keys)
    ensures x in inputs && x.key in keys
  {
    var n := |inputs| - 1;
    if x in Cleaned(inputs[..n], keys) {
      CleanedHolds(inputs[..n], keys, x);
    }
  }

  lemma {:induction false} CleanedAreInputs(inputs: seq<Input>, keys: set<string>)
    requires AreInputs(inputs)
    ensures AreInputs(Cleaned(inputs, keys))
  {
    if inputs != [] {
      var n := |inputs| - 1;
      var before := Cleaned(inputs[..n], keys);
      CleanedAreInputs(inputs[..n], keys);
      forall i | 0 <= i < |before| ensures before[i].key != inputs[n].key {
        CleanedHolds(inputs[..n], keys, before[i]);
      }
    }
  }

  /** Each pushed property comes from an input. */
  lemma {:induction false} PushedComesFrom(inputs: seq<Input>, p: Json) returns (x: Input)
    requires p in Pushed(inputs)
    ensures x in inputs && !IsBlank(x.value) && p == PropertyRecord(Property(x.key, x.value))
  {
    var n := |inputs| - 1;
    if p in Pushed(inputs[..n]) {
      x := PushedComesFrom(inputs[..n], p);
    } else {
      x := inputs[n];
    }
  }

  lemma {:induction false} InputIsPushed(inputs: seq<Input>, x: Input)
    requires x in inputs && !IsBlank(x.value)
    ensures PropertyRecord(Property(x.key, x.value)) in Pushed(inputs)
  {
    var n := |inputs| - 1;
    if x != inputs[n] {
      assert x in inputs[..n];
      InputIsPushed(inputs[..n], x);
    }
  }

  lemma {:induction false} InputForIs(inputs: seq<Input>, x: Input)
    requires AreInputs(inputs) && x in inputs
    ensures InputFor(inputs, x.key) == Some(x.value)
  {
    var n := |inputs| - 1;
    if x != inputs[n] {
      var i :| 0 <= i < |inputs| && inputs[i] == x;
      assert inputs[..n][i] == x;
      InputForIs(inputs[..n], x);
    }
  }

  lemma {:induction false} InputForGives(inputs: seq<Input>, k: string)
    requires InputFor(inputs, k).Some?
    ensures Input(k, InputFor(inputs, k).value) in inputs
  {
    var n := |inputs| - 1;
    if inputs[n].key != k {
      InputForGives(inputs[..n], k);
    }
  }

  // ---- Looking a property up by its name ----

  lemma {:induction false} ValueOfNone(list: seq<Json>, k: string)
    requires forall p :: p in list ==> !IsNamed(p, k)
    ensures PropertyValue(list, k).None?
  {
    if list != [] {
      assert list[|list| - 1] in list;
      ValueOfNone(list[..|list| - 1], k);
    }
  }

  lemma {:induction false} ValueOfOnly(list: seq<Json>, k: string, only: Json)
    requires only in list && IsNamed(only, k)
    requires forall p :: p in list && IsNamed(p, k) ==> p == only
    ensures PropertyValue(list, k) == Some(TextAt(only.fields, "@_value"))
  {
    var n := |list| - 1;
    if IsNamed(list[n], k) {
      assert list[n] in list;
    } else {
      assert only in list[..n];
      ValueOfOnly(list[..n], k, only);
    }
  }

  /** The record of an input goes by the key of the input. */
  lemma RecordIsNamed(x: Input, k: string)
    requires IsGoodKey(x.key)
    ensures IsNamed(PropertyRecord(Property(x.key, x.value)), k) <==> x.key == k
    ensures NameOf(PropertyRecord(Property(x.key, x.value))) == Lower(x.key)
    ensures TextAt(PropertyRecord(Property(x.key, x.value)).fields, "@_value") == x.value
  {
    RecordName(Property(x.key, x.value));
    TrimmedStays(x.key, JS_SPACE);
  }

  lemma NamedHasName(p: Json, k: string)
    requires IsNamed(p, k)
    ensures NameOf(p) == Lower(k)
  {
  }

  // ---- Reading right after applying ----

  /** No other property is read under one of the keys. */
  ghost predicate NoOtherIsRead(list: seq<Json>, keys: set<string>) {
    forall p, k :: p in Kept(list, keys) && k in keys ==> !IsNamed(p, k)
  }

  /** What a field should read as, where blank inputs are kept. */
  function GivenOrDefault(inputs: seq<Input>, field: ConnectorField): string {
    if InputFor(inputs, field.key).Some? then InputFor(inputs, field.key).value else Default(field)
  }

  /** After applying, each field reads as its input, or as its default when none was given. */
  lemma ReadAfterApply(data: seq<Field>, fields: seq<ConnectorField>, inputs: seq<Input>, field: ConnectorField)
    requires GoodFields(fields) && field in fields && AreInputs(inputs)
    requires NoOtherIsRead(PropertyList(Spread(Lookup(data, EXTENSIONS))), KeysOf(fields))
    ensures ReadInput(ApplyInputs(data, KeysOf(fields), inputs), field) == GivenOrDefault(inputs, field)
  {
    var keys := KeysOf(fields);
    var cleaned := Cleaned(inputs, keys);
    CleanedInput(inputs, keys, field.key);
    CleanedAreInputs(inputs, keys);
    InputFieldLookup(cleaned, field.key);
    InputsKeyDiffers();
    AppliedAt(data, keys, inputs, INPUTS);
    if InputFor(inputs, field.key).None? {
      AppliedList(data, keys, inputs);
      forall p | p in NewList(data, keys, inputs) ensures !IsNamed(p, field.key) {
        if p in Pushed(cleaned) {
          var x := PushedComesFrom(cleaned, p);
          CleanedHolds(inputs, keys, x);
          InputForIs(inputs, x);
          RecordIsNamed(x, field.key);
        }
      }
      ValueOfNone(NewList(data, keys, inputs), field.key);
    }
  }

  // ---- Reading after saving and loading ----

  /** The properties that are found without the canonical prefix. */
  function PlainProperties(ext: seq<Field>): seq<Json> {
    match Lookup(ext, "properties")
    case Some(v) => PropertiesIn(AsRecords(v), DEFAULT_CONTEXT)
    case None => []
  }

  lemma {:induction false} PropertiesInConcat(gs: seq<Json>, hs: seq<Json>, context: seq<string>)
    ensures PropertiesIn(gs + hs, context) == PropertiesIn(gs, context) + PropertiesIn(hs, context)
  {
    if gs == [] {
      assert gs + hs == hs;
    } else {
      assert (gs + hs)[1..] == gs[1..] + hs;
      PropertiesInConcat(gs[1..], hs, context);
    }
  }

  lemma PropertiesInGroup(list: seq<Json>)
    ensures PropertiesIn([PropertyGroup(list)], DEFAULT_CONTEXT) == Records(list)
  {
    var fs, groups := PropertyGroup(list).fields, [PropertyGroup(list)];
    PropertyFields(list);
    ValuesUnderDefault(fs, "property");
    assert groups[1..] == [];
    assert PropertiesIn(groups, DEFAULT_CONTEXT) == AsRecords(Array(list)) + PropertiesIn([], DEFAULT_CONTEXT);
  }

  lemma FlatOfTwo(v: Json, w: Json)
    ensures FlatRecords([v, w]) == AsRecords(v) + AsRecords(w) && FlatRecords([v]) == AsRecords(v)
  {
    assert [v, w][1..] == [w] && [w][1..] == [] && [v][1..] == [];
    assert FlatRecords([w]) == AsRecords(w) + FlatRecords([]);
    assert FlatRecords([v]) == AsRecords(v) + FlatRecords([]);
  }

  lemma TwoValues(fs: seq<Field>, first: string, second: string)
    ensures ValuesForKeys(fs, [first, second])
         == (if Has(fs, first) then [Lookup(fs, first).value] else [])
            + (if Has(fs, second) then [Lookup(fs, second).value] else [])
  {
    assert [first, second][1..] == [second] && [second][1..] == [];
    assert ValuesForKeys(fs, [second])
        == (if Has(fs, second) then [Lookup(fs, second).value] else []) + ValuesForKeys(fs, []);
  }

  /** What normalising finds: the canonical list, then the properties without prefix. */
  lemma AllPropertiesAre(ext: seq<Field>, list: seq<Json>)
    requires Lookup(ext, PROPERTIES) == if list == [] then None else Some(PropertyGroup(list))
    ensures AllProperties(ext, DEFAULT_CONTEXT) == Records(list) + PlainProperties(ext)
  {
    var plain := Lookup(ext, "properties");
    DefaultExtensionKeys("properties");
    TwoValues(ext, PROPERTIES, "properties");
    if list == [] {
      if plain.Some? {
        assert [] + [plain.value] == [plain.value];
        FlatOfTwo(plain.value, plain.value);
      }
    } else {
      var group := PropertyGroup(list);
      PropertiesInGroup(list);
      if plain.Some? {
        assert [group] + [plain.value] == [group, plain.value];
        FlatOfTwo(group, plain.value);
        PropertiesInConcat([group], AsRecords(plain.value), DEFAULT_CONTEXT);
      } else {
        FlatOfTwo(group, group);
        assert [group] + [] == [group];
      }
    }
  }

  lemma {:induction false} RecordsHold(list: seq<Json>, p: Json)
    ensures p in Records(list) <==> p in list && p.Object?
  {
    if list != [] {
      RecordsHold(list[1..], p);
      assert p in list <==> p == list[0] || p in list[1..];
    }
  }

  /** The data as it is read back: without the node's own copy of the inputs, and normalised. */
  ghost function Reloaded(data: seq<Field>): seq<Field> {
    NormalizeData(Delete(data, INPUTS), DEFAULT_CONTEXT)
  }

  /** All properties of the saved file. */
  function SavedProperties(data: seq<Field>, keys: set<string>, inputs: seq<Input>): seq<Json> {
    Records(NewList(data, keys, inputs)) + PlainProperties(Spread(Lookup(data, EXTENSIONS)))
  }

  lemma NoInputsAfterReload(data: seq<Field>)
    ensures Lookup(Reloaded(data), INPUTS).None?
  {
    var saved := Delete(data, INPUTS);
    InputsKeyDiffers();
    LookupDelete(data, INPUTS, INPUTS);
    PrefixesAreContext(DEFAULT_CONTEXT);
    PlainLookup(saved, Prefixes(DEFAULT_CONTEXT), INPUTS);
    NormalizedAtOther(saved, DEFAULT_CONTEXT, INPUTS);
  }

  lemma SavedExtensions(data: seq<Field>, keys: set<string>, inputs: seq<Input>)
    ensures
      var ext := NewExtensions(Spread(Lookup(data, EXTENSIONS)), NewList(data, keys, inputs));
      && ExtensionFields(Delete(ApplyInputs(data, keys, inputs), INPUTS)) == (if ext == [] then None else Some(ext))
      && AllProperties(ext, DEFAULT_CONTEXT) == SavedProperties(data, keys, inputs)
  {
    var before, list := Spread(Lookup(data, EXTENSIONS)), NewList(data, keys, inputs);
    InputsKeyDiffers();
    KeysDiffer();
    LookupDelete(ApplyInputs(data, keys, inputs), INPUTS, EXTENSIONS);
    AppliedAt(data, keys, inputs, EXTENSIONS);
    NewExtensionsAt(before, list, PROPERTIES);
    NewExtensionsAt(before, list, "properties");
    AllPropertiesAre(NewExtensions(before, list), list);
  }

  lemma NoExtensionsNoProperties()
    ensures AllProperties([], DEFAULT_CONTEXT) == []
  {
    AllPropertiesAre([], []);
  }

  /** The list that is read after reloading: the saved properties without duplicates. */
  lemma ReloadedList(data: seq<Field>, keys: set<string>, inputs: seq<Input>)
    ensures PropertyList(Spread(Lookup(Reloaded(ApplyInputs(data, keys, inputs)), EXTENSIONS)))
         == Dedupe(SavedProperties(data, keys, inputs), NAMING)
  {
    var saved := Delete(ApplyInputs(data, keys, inputs), INPUTS);
    var ext := NewExtensions(Spread(Lookup(data, EXTENSIONS)), NewList(data, keys, inputs));
    SavedExtensions(data, keys, inputs);
    NormalizedAtExtensions(saved, DEFAULT_CONTEXT);
    if ext == [] {
      NoExtensionsNoProperties();
    } else {
      NormalizedList(saved, ext);
    }
  }

  lemma NormalizedList(saved: seq<Field>, ext: seq<Field>)
    requires ExtensionFields(saved) == Some(ext)
    ensures PropertyList(Spread(Lookup(NormalizeData(saved, DEFAULT_CONTEXT), EXTENSIONS)))
         == MergedProperties(ext, DEFAULT_CONTEXT)
  {
    NormalizedAtExtensions(saved, DEFAULT_CONTEXT);
    NormalizedGroup(ext);
    GroupIsListed(Lookup(NormalizeData(saved, DEFAULT_CONTEXT), EXTENSIONS), NormalizeFields(ext, DEFAULT_CONTEXT),
                  MergedProperties(ext, DEFAULT_CONTEXT));
  }

  lemma NormalizedGroup(ext: seq<Field>)
    ensures
      var merged := MergedProperties(ext, DEFAULT_CONTEXT);
      Lookup(NormalizeFields(ext, DEFAULT_CONTEXT), PROPERTIES) ==
        if merged == [] then None else Some(PropertyGroup(merged))
  {
    KeysDiffer();
    AssembleAt(ext, MergedProperties(ext, DEFAULT_CONTEXT), FirstConnector(ext, DEFAULT_CONTEXT), DEFAULT_CONTEXT,
               PROPERTIES);
  }

  lemma GroupIsListed(extensions: Option<Json>, fs: seq<Field>, list: seq<Json>)
    requires extensions == if fs == [] then None else Some(Object(fs))
    requires Lookup(fs, PROPERTIES) == if list == [] then None else Some(PropertyGroup(list))
    ensures PropertyList(Spread(extensions)) == list
  {
    if list != [] {
      PropertyFields(list);
    }
  }

  /** No other property shares the name of a field, case and blanks ignored. */
  ghost predicate NoOtherShares(data: seq<Field>, keys: set<string>) {
    var ext := Spread(Lookup(data, EXTENSIONS));
    forall p, k ::
      (p in Kept(PropertyList(ext), keys) || p in PlainProperties(ext)) && k in keys ==> NameOf(p) != Lower(k)
  }

  /** Where a saved property with the name of a field comes from. */
  lemma SavedWithName(
      data: seq<Field>, fields: seq<ConnectorField>, inputs: seq<Input>, k: string, p: Json) returns (x: Input)
    requires GoodFields(fields) && k in KeysOf(fields) && NoOtherShares(data, KeysOf(fields))
    requires p in SavedProperties(data, KeysOf(fields), inputs) && NameOf(p) == Lower(k)
    ensures x in inputs && x.key == k && !IsBlank(x.value) && p == PropertyRecord(Property(x.key, x.value))
  {
    var keys := KeysOf(fields);
    var list := NewList(data, keys, inputs);
    RecordsHold(list, p);
    assert p in Pushed(Cleaned(inputs, keys));
    x := PushedComesFrom(Cleaned(inputs, keys), p);
    CleanedHolds(inputs, keys, x);
    RecordIsNamed(x, k);
    GoodKeysDiffer(fields, x.key, k);
  }

  /** What a field should read as after reloading, where a blank input counts as none. */
  function SavedOrDefault(inputs: seq<Input>, field: ConnectorField): string {
    match InputFor(inputs, field.key)
    case Some(v) => if IsBlank(v) then Default(field) else v
    case None => Default(field)
  }

  lemma MadeUpNamesDiffer(k: string, n: nat)
    requires IsGoodKey(k)
    ensures Lower(k) != Unnamed(n) && Lower(k) != ""
  {
    LowerAt(k, 0);
    assert Unnamed(n)[0] == '_';
  }

  /** An input that is not blank is the one property of its name in the file, and survives. */
  lemma InputIsSaved(
      data: seq<Field>, fields: seq<ConnectorField>, inputs: seq<Input>, x: Input)
    requires GoodFields(fields) && x.key in KeysOf(fields) && AreInputs(inputs) && NoOtherShares(data, KeysOf(fields))
    requires x in inputs && !IsBlank(x.value)
    ensures
      var p := PropertyRecord(Property(x.key, x.value));
      var saved := SavedProperties(data, KeysOf(fields), inputs);
      && p in Dedupe(saved, NAMING)
      && (forall q :: q in saved && NameOf(q) == Lower(x.key) ==> q == p)
  {
    var keys, p := KeysOf(fields), PropertyRecord(Property(x.key, x.value));
    var saved := SavedProperties(data, keys, inputs);
    InputForIs(inputs, x);
    CleanedInput(inputs, keys, x.key);
    InputForGives(Cleaned(inputs, keys), x.key);
    InputIsPushed(Cleaned(inputs, keys), x);
    RecordsHold(NewList(data, keys, inputs), p);
    RecordIsNamed(x, x.key);
    forall q | q in saved && NameOf(q) == Lower(x.key) ensures q == p {
      var y := SavedWithName(data, fields, inputs, x.key, q);
      InputForIs(inputs, y);
    }
    forall n ensures NAMING.madeUp(n) != NAMING.name(p) {
      MadeUpNamesDiffer(x.key, n);
    }
    MadeUpNamesDiffer(x.key, 0);
    OnlyOneIsKept(saved, p, NAMING);
  }

  /**
   After the inputs were applied and the file saved and read again, each field reads as its input when that is not
   blank, and as its default otherwise.
   */
  lemma ReadAfterReload(data: seq<Field>, fields: seq<ConnectorField>, inputs: seq<Input>, field: ConnectorField)
    requires GoodFields(fields) && field in fields && AreInputs(inputs) && NoOtherShares(data, KeysOf(fields))
    ensures ReadInput(Reloaded(ApplyInputs(data, KeysOf(fields), inputs)), field) == SavedOrDefault(inputs, field)
  {
    var keys, k := KeysOf(fields), field.key;
    var found := Dedupe(SavedProperties(data, keys, inputs), NAMING);
    NoInputsAfterReload(ApplyInputs(data, keys, inputs));
    ReloadedList(data, keys, inputs);
    var input := InputFor(inputs, k);
    if input.Some? && !IsBlank(input.value) {
      InputForGives(inputs, k);
      SavedInputIsFound(data, fields, inputs, Input(k, input.value));
    } else {
      NothingIsFound(data, fields, inputs, k);
    }
  }

  lemma SavedInputIsFound(data: seq<Field>, fields: seq<ConnectorField>, inputs: seq<Input>, x: Input)
    requires GoodFields(fields) && x.key in KeysOf(fields) && AreInputs(inputs) && NoOtherShares(data, KeysOf(fields))
    requires x in inputs && !IsBlank(x.value)
    ensures PropertyValue(Dedupe(SavedProperties(data, KeysOf(fields), inputs), NAMING), x.key) == Some(x.value)
  {
    var saved, p := SavedProperties(data, KeysOf(fields), inputs), PropertyRecord(Property(x.key, x.value));
    InputIsSaved(data, fields, inputs, x);
    RecordIsNamed(x, x.key);
    forall q | q in Dedupe(saved, NAMING) && IsNamed(q, x.key) ensures q == p {
      DedupeHolds(saved, q, NAMING);
      NamedHasName(q, x.key);
    }
    ValueOfOnly(Dedupe(saved, NAMING), x.key, p);
  }

  lemma NothingIsFound(data: seq<Field>, fields: seq<ConnectorField>, inputs: seq<Input>, k: string)
    requires GoodFields(fields) && k in KeysOf(fields) && AreInputs(inputs) && NoOtherShares(data, KeysOf(fields))
    requires InputFor(inputs, k).Some? ==> IsBlank(InputFor(inputs, k).value)
    ensures PropertyValue(Dedupe(SavedProperties(data, KeysOf(fields), inputs), NAMING), k).None?
  {
    var saved := SavedProperties(data, KeysOf(fields), inputs);
    forall q | q in Dedupe(saved, NAMING) ensures !IsNamed(q, k) {
      DedupeHolds(saved, q, NAMING);
      if IsNamed(q, k) {
        NamedHasName(q, k);
        var y := SavedWithName(data, fields, inputs, k, q);
        InputForIs(inputs, y);
      }
    }
    ValueOfNone(Dedupe(saved, NAMING), k);
  }
}
