/**
 Connector inputs of a service task. They are kept twice: in the node data of the editor, and as properties among the
 extension elements, which are all that a saved file holds.
 */
module Connectors {
  import opened Options
  import opened JsonValues
  import opened Namespaces
  import opened ExtensionAttributes
  import opened ExtensionElements
  import opened NormalizedData
  import opened PropertyNames
  import opened Text

  const INPUTS := "connectorInputs"

  datatype ConnectorField = ConnectorField(key: string, standard: Option<string>)

  datatype Descriptor = Descriptor(jobType: string, fields: seq<ConnectorField>)

  const HTTP_FIELDS: seq<ConnectorField> := [
    ConnectorField("url", None), ConnectorField("method", Some("POST")), ConnectorField("headers", None),
    ConnectorField("body", None), ConnectorField("timeoutMs", Some("10000")),
    ConnectorField("failOnNon2xx", Some("true"))]
  const WEBHOOK_FIELDS: seq<ConnectorField> := [
    ConnectorField("webhookUrl", None), ConnectorField("payload", None), ConnectorField("webhookToken", None)]
  const KAFKA_FIELDS: seq<ConnectorField> := [
    ConnectorField("kafkaTopic", None), ConnectorField("kafkaKey", None), ConnectorField("kafkaValue", None)]
  const EMAIL_FIELDS: seq<ConnectorField> := [
    ConnectorField("emailTo", None), ConnectorField("emailSubject", None), ConnectorField("emailBody", None)]
  const S3_FIELDS: seq<ConnectorField> := [
    ConnectorField("s3Bucket", None), ConnectorField("s3Key", None), ConnectorField("s3Body", None),
    ConnectorField("contentType", None)]

  const DESCRIPTORS: seq<Descriptor> := [
    Descriptor("io.artificialflow.connector.http", HTTP_FIELDS),
    Descriptor("io.artificialflow.connector.webhook", WEBHOOK_FIELDS),
    Descriptor("io.artificialflow.connector.kafka", KAFKA_FIELDS),
    Descriptor("io.artificialflow.connector.email", EMAIL_FIELDS),
    Descriptor("io.artificialflow.connector.s3", S3_FIELDS)]

  function KeysOf(fields: seq<ConnectorField>): set<string> {
    set f | f in fields :: f.key
  }

  function DescriptorIn(list: seq<Descriptor>, jobType: string): Option<Descriptor> {
    if list == [] then None
    else if list[0].jobType == jobType then Some(list[0])
    else DescriptorIn(list[1..], jobType)
  }

  /** The keys that belong to a job type; for one that is not known, all that are given. */
  function KeysFor(jobType: string, inputs: seq<Input>): set<string> {
    var d := DescriptorIn(DESCRIPTORS, jobType);
    if d.Some? then KeysOf(d.value.fields) else set x | x in inputs :: x.key
  }

  /** A text that is given for a key. */
  datatype Input = Input(key: string, value: string)

  /** As an object has them: each key once. */
  predicate AreInputs(inputs: seq<Input>) {
    forall i, j :: 0 <= i < j < |inputs| ==> inputs[i].key != inputs[j].key
  }

  // ---- Values as records ----

  /** The fields of a value that is spread into an object: an array and a text have numbered ones. */
  function Spread(v: Option<Json>): seq<Field> {
    match v
    case Some(Object(fs)) => fs
    case Some(Array(items)) => Numbered(items)
    case Some(Text(t)) => NumberedChars(t)
    case _ => []
  }

  function Numbered(items: seq<Json>): seq<Field> {
    if items == [] then [] else Numbered(items[..|items| - 1]) + [Field(Decimal(|items| - 1), items[|items| - 1])]
  }

  function NumberedChars(t: string): seq<Field> {
    if t == "" then [] else NumberedChars(t[..|t| - 1]) + [Field(Decimal(|t| - 1), Text([t[|t| - 1]]))]
  }

  /** The property list in extension elements; a single property need not be in an array. */
  function PropertyList(ext: seq<Field>): seq<Json> {
    match Lookup(Spread(Lookup(ext, PROPERTIES)), PROPERTY)
    case Some(Array(items)) => items
    case Some(v) => if Truthy(v) then [v] else []
    case None => []
  }

  // ---- Reading ----

  /** The value of the last property with this name, blanks around it ignored. */
  function PropertyValue(list: seq<Json>, name: string): Option<string> {
    if list == [] then None
    else
      var item := list[|list| - 1];
      if IsNamed(item, name) then Some(TextAt(item.fields, "@_value"))
      else PropertyValue(list[..|list| - 1], name)
  }

  predicate IsNamed(item: Json, name: string) {
    item.Object? && name != "" && Trim(TextAt(item.fields, "@_name"), JS_SPACE) == name
  }

  function ReadInput(data: seq<Field>, field: ConnectorField): string {
    var given := Lookup(Spread(Lookup(data, INPUTS)), field.key);
    if given.Some? && given != Some(Null) then ToText(given.value)
    else
      var property := PropertyValue(PropertyList(Spread(Lookup(data, EXTENSIONS))), field.key);
      if property.Some? then property.value else Default(field)
  }

  function Default(field: ConnectorField): string {
    if field.standard.Some? then field.standard.value else ""
  }

  method PropertyMap(data: seq<Field>) returns (properties: map<string, string>)
    ensures forall k ::
              var v := PropertyValue(PropertyList(Spread(Lookup(data, EXTENSIONS))), k);
              if v.Some? then k in properties && properties[k] == v.value else k !in properties
  {
    properties := map[];
    var list := PropertyList(Spread(Lookup(data, EXTENSIONS)));
    for i := 0 to |list|
      invariant forall k ::
                  var v := PropertyValue(list[..i], k);
                  if v.Some? then k in properties && properties[k] == v.value else k !in properties
    {
      var item := list[i];
      assert list[..i + 1][..i] == list[..i];
      if item.Object? {
        var name := Trim(TextAt(item.fields, "@_name"), JS_SPACE);
        if name != "" {
          properties := properties[name := TextAt(item.fields, "@_value")];
        }
      }
    }
    assert list[..|list|] == list;
  }

  method ReadConnectorInputs(data: seq<Field>, fields: seq<ConnectorField>) returns (out: map<string, string>)
    requires forall i, j :: 0 <= i < j < |fields| ==> fields[i].key != fields[j].key
    ensures forall f :: f in fields ==> f.key in out && out[f.key] == ReadInput(data, f)
    ensures out.Keys == KeysOf(fields)
  {
    var fromNode := Spread(Lookup(data, INPUTS));
    var properties := PropertyMap(data);
    out := map[];
    for i := 0 to |fields|
      invariant forall j :: 0 <= j < i ==> fields[j].key in out && out[fields[j].key] == ReadInput(data, fields[j])
      invariant forall k :: k in out ==> exists j :: 0 <= j < i && fields[j].key == k
    {
      var field := fields[i];
      var given := Lookup(fromNode, field.key);
      var raw := Default(field);
      if given.Some? && given != Some(Null) {
        raw := ToText(given.value);
      } else if field.key in properties {
        raw := properties[field.key];
      }
      out := out[field.key := raw];
    }
  }

  /** A property goes by its name less the blanks around it. */
  lemma BlanksAroundNameAreIgnored(item: Json, before: string, name: string, after: string, key: string)
    requires item.Object? && TextAt(item.fields, "@_name") == before + name + after && IsTrimmed(name, JS_SPACE)
    requires AllBlank(before, JS_SPACE) && AllBlank(after, JS_SPACE) && key != ""
    ensures IsNamed(item, key) <==> name == key
  {
    TrimIgnoresBlanks(before, name, after, JS_SPACE);
    TrimmedStays(name, JS_SPACE);
  }

  /** The last item of the list with this name. */
  predicate IsLastNamed(list: seq<Json>, name: string, i: nat) {
    i < |list| && IsNamed(list[i], name) && forall j :: i < j < |list| ==> !IsNamed(list[j], name)
  }

  lemma {:induction false} LastNamedCounts(list: seq<Json>, name: string, i: nat)
    ensures IsLastNamed(list, name, i) ==> PropertyValue(list, name) == Some(TextAt(list[i].fields, "@_value"))
    ensures (forall j :: 0 <= j < |list| ==> !IsNamed(list[j], name)) ==> PropertyValue(list, name) == None
  {
    if list != [] {
      var n := |list| - 1;
      LastNamedCounts(list[..n], name, i);
    }
  }

  /** A field reads from the node, or else from the last property of its name, or else as its default. */
  lemma InputIsRead(data: seq<Field>, field: ConnectorField, i: nat)
    ensures
      var given := Lookup(Spread(Lookup(data, INPUTS)), field.key);
      var list := PropertyList(Spread(Lookup(data, EXTENSIONS)));
      && (given.Some? && given != Some(Null) ==> ReadInput(data, field) == ToText(given.value))
      && ((given.None? || given == Some(Null)) && IsLastNamed(list, field.key, i) ==>
            ReadInput(data, field) == TextAt(list[i].fields, "@_value"))
      && ((given.None? || given == Some(Null)) && (forall j :: 0 <= j < |list| ==> !IsNamed(list[j], field.key)) ==>
            ReadInput(data, field) == if field.standard.Some? then field.standard.value else "")
  {
    LastNamedCounts(PropertyList(Spread(Lookup(data, EXTENSIONS))), field.key, i);
  }

  // ---- Writing ----

  /** The inputs with a known key. */
  function Cleaned(inputs: seq<Input>, keys: set<string>): seq<Input> {
    if inputs == [] then []
    else
      var n := |inputs| - 1;
      Cleaned(inputs[..n], keys) + if inputs[n].key in keys then [inputs[n]] else []
  }

  function InputFields(inputs: seq<Input>): seq<Field> {
    if inputs == [] then []
    else InputFields(inputs[..|inputs| - 1]) + [Field(inputs[|inputs| - 1].key, Text(inputs[|inputs| - 1].value))]
  }

  /** The items that are no property with one of the keys. */
  function Kept(list: seq<Json>, keys: set<string>): seq<Json> {
    if list == [] then []
    else
      var n := |list| - 1;
      Kept(list[..n], keys) + if IsOwn(list[n], keys) then [] else [list[n]]
  }

  predicate IsOwn(item: Json, keys: set<string>) {
    item.Object? && TextAt(item.fields, "@_name") in keys
  }

  predicate IsBlank(s: string) {
    Trim(s, JS_SPACE) == ""
  }

  /** A property for each input that is not blank. */
  function Pushed(inputs: seq<Input>): seq<Json> {
    if inputs == [] then []
    else
      var n := |inputs| - 1;
      Pushed(inputs[..n])
      + if IsBlank(inputs[n].value) then [] else [PropertyRecord(Property(inputs[n].key, inputs[n].value))]
  }

  function NewList(data: seq<Field>, keys: set<string>, inputs: seq<Input>): seq<Json> {
    Kept(PropertyList(Spread(Lookup(data, EXTENSIONS))), keys) + Pushed(Cleaned(inputs, keys))
  }

  function NewExtensions(ext: seq<Field>, list: seq<Json>): seq<Field> {
    if list != [] then Set(ext, PROPERTIES, PropertyGroup(list)) else Delete(ext, PROPERTIES)
  }

  function ApplyInputs(data: seq<Field>, keys: set<string>, inputs: seq<Input>): seq<Field> {
    var next := Set(data, INPUTS, Object(InputFields(Cleaned(inputs, keys))));
    var ext := NewExtensions(Spread(Lookup(data, EXTENSIONS)), NewList(data, keys, inputs));
    if ext != [] then Set(next, EXTENSIONS, Object(ext)) else Delete(next, EXTENSIONS)
  }

  method ApplyConnectorInputs(data: seq<Field>, keys: set<string>, inputs: seq<Input>) returns (next: seq<Field>)
    ensures next == ApplyInputs(data, keys, inputs)
  {
    var cleaned := CleanInputs(inputs, keys);
    next := Set(data, INPUTS, Object(InputFields(cleaned)));
    var ext := Spread(Lookup(data, EXTENSIONS));
    var kept := KeepForeign(PropertyList(ext), keys);
    kept := PushInputs(kept, cleaned);
    if |kept| > 0 {
      SetIsSomething(ext, PROPERTIES, PropertyGroup(kept));
      next := Set(next, EXTENSIONS, Object(Set(ext, PROPERTIES, PropertyGroup(kept))));
    } else {
      var nextExt := Delete(ext, PROPERTIES);
      if |nextExt| > 0 {
        next := Set(next, EXTENSIONS, Object(nextExt));
      } else {
        next := Delete(next, EXTENSIONS);
      }
    }
  }

  method CleanInputs(inputs: seq<Input>, keys: set<string>) returns (cleaned: seq<Input>)
    ensures cleaned == Cleaned(inputs, keys)
  {
    cleaned := [];
    for i := 0 to |inputs|
      invariant cleaned == Cleaned(inputs[..i], keys)
    {
      assert inputs[..i + 1][..i] == inputs[..i];
      if inputs[i].key in keys {
        cleaned := cleaned + [inputs[i]];
      }
    }
    assert inputs[..|inputs|] == inputs;
  }

  method PushInputs(list: seq<Json>, cleaned: seq<Input>) returns (kept: seq<Json>)
    ensures kept == list + Pushed(cleaned)
  {
    kept := list;
    for i := 0 to |cleaned|
      invariant kept == list + Pushed(cleaned[..i])
    {
      assert cleaned[..i + 1][..i] == cleaned[..i];
      if !IsBlank(cleaned[i].value) {
        kept := kept + [PropertyRecord(Property(cleaned[i].key, cleaned[i].value))];
      }
    }
    assert cleaned[..|cleaned|] == cleaned;
  }

  method KeepForeign(list: seq<Json>, keys: set<string>) returns (kept: seq<Json>)
    ensures kept == Kept(list, keys)
  {
    kept := [];
    for i := 0 to |list|
      invariant kept == Kept(list[..i], keys)
    {
      assert list[..i + 1][..i] == list[..i];
      if !IsOwn(list[i], keys) {
        kept := kept + [list[i]];
      }
    }
    assert list[..|list|] == list;
  }

  lemma SetIsSomething(fs: seq<Field>, key: string, value: Json)
    ensures Set(fs, key, value) != []
  {
  }

  lemma BlankIffAllBlank(s: string)
    ensures IsBlank(s) <==> AllBlank(s, JS_SPACE)
  {
    var before, after := TrimmedAway(s, JS_SPACE);
    if AllBlank(s, JS_SPACE) {
      assert s + "" + "" == s;
      TrimIgnoresBlanks(s, "", "", JS_SPACE);
    }
  }

  // ---- What writing leaves behind ----

  lemma InputsKeyDiffers()
    ensures INPUTS != EXTENSIONS && !IsVendor(INPUTS)
    ensures forall n :: n in NAMES ==> INPUTS !in AttributeKeys(n, DEFAULT_CONTEXT)
  {
    assert INPUTS[0] == 'c' && EXTENSIONS[0] == 'b';
    assert Attr(VENDOR, "")[0] == '@' && Elem(VENDOR, "")[0] == 'a';
    forall n | n in NAMES ensures INPUTS !in AttributeKeys(n, DEFAULT_CONTEXT) {
      NamesAreLocal(n);
      if INPUTS in AttributeKeys(n, DEFAULT_CONTEXT) {
        KeyTellsName(n, DEFAULT_CONTEXT, INPUTS);
        assert false;
      }
    }
  }

  lemma AppliedAt(data: seq<Field>, keys: set<string>, inputs: seq<Input>, k: string)
    ensures
      var ext := NewExtensions(Spread(Lookup(data, EXTENSIONS)), NewList(data, keys, inputs));
      Lookup(ApplyInputs(data, keys, inputs), k)
      == if k == EXTENSIONS then (if ext != [] then Some(Object(ext)) else None)
         else if k == INPUTS then Some(Object(InputFields(Cleaned(inputs, keys))))
         else Lookup(data, k)
  {
    var given := Object(InputFields(Cleaned(inputs, keys)));
    var next := Set(data, INPUTS, given);
    var ext := NewExtensions(Spread(Lookup(data, EXTENSIONS)), NewList(data, keys, inputs));
    InputsKeyDiffers();
    LookupSet(data, INPUTS, given, k);
    LookupSet(next, EXTENSIONS, Object(ext), k);
    LookupDelete(next, EXTENSIONS, k);
  }

  lemma NewExtensionsAt(ext: seq<Field>, list: seq<Json>, k: string)
    ensures Lookup(NewExtensions(ext, list), k)
         == if k == PROPERTIES then (if list == [] then None else Some(PropertyGroup(list))) else Lookup(ext, k)
  {
    LookupSet(ext, PROPERTIES, PropertyGroup(list), k);
    LookupDelete(ext, PROPERTIES, k);
  }

  /** The list that was written is the list that is found. */
  lemma WrittenListIsFound(ext: seq<Field>, list: seq<Json>)
    ensures PropertyList(NewExtensions(ext, list)) == list
  {
    NewExtensionsAt(ext, list, PROPERTIES);
    if list != [] {
      PropertyFields(list);
    }
  }

  lemma AppliedList(data: seq<Field>, keys: set<string>, inputs: seq<Input>)
    ensures PropertyList(Spread(Lookup(ApplyInputs(data, keys, inputs), EXTENSIONS))) == NewList(data, keys, inputs)
  {
    var ext, list := Spread(Lookup(data, EXTENSIONS)), NewList(data, keys, inputs);
    AppliedAt(data, keys, inputs, EXTENSIONS);
    WrittenListIsFound(ext, list);
  }

  lemma {:induction false} KeptHolds(list: seq<Json>, keys: set<string>, item: Json)
    ensures multiset(Kept(list, keys))[item] == if IsOwn(item, keys) then 0 else multiset(list)[item]
  {
    if list != [] {
      var n := |list| - 1;
      KeptHolds(list[..n], keys, item);
      assert list == list[..n] + [list[n]];
    }
  }

  /** One item stands before another in the list. */
  ghost predicate StandBefore(list: seq<Json>, a: Json, b: Json) {
    exists i, j :: 0 <= i < j < |list| && list[i] == a && list[j] == b
  }

  lemma {:induction false} KeptInOrder(list: seq<Json>, keys: set<string>, i: nat, j: nat)
    requires i < j < |list| && !IsOwn(list[i], keys) && !IsOwn(list[j], keys)
    ensures StandBefore(Kept(list, keys), list[i], list[j])
  {
    var n := |list| - 1;
    var before := Kept(list[..n], keys);
    if j == n {
      KeptHolds(list[..n], keys, list[i]);
      assert list[i] == list[..n][i] && list[i] in list[..n];
      assert multiset(before)[list[i]] > 0;
      var p :| 0 <= p < |before| && before[p] == list[i];
      assert (before + [list[n]])[p] == list[i] && (before + [list[n]])[|before|] == list[n];
    } else {
      KeptInOrder(list[..n], keys, i, j);
      var p, q :| 0 <= p < q < |before| && before[p] == list[i] && before[q] == list[j];
      var all := Kept(list, keys);
      assert all[p] == list[i] && all[q] == list[j];
    }
  }

  /**
   Applying inputs leaves all else as it is: the other keys of the data, the other extension elements, and all
   properties with other names, as often as they were there, in their order and before the ones that are written.
   */
  lemma ApplyingKeepsTheRest(data: seq<Field>, keys: set<string>, inputs: seq<Input>)
    ensures
      var after := ApplyInputs(data, keys, inputs);
      var ext, ext' := Spread(Lookup(data, EXTENSIONS)), Spread(Lookup(after, EXTENSIONS));
      var list, list' := PropertyList(ext), PropertyList(ext');
      && (forall k :: k != INPUTS && k != EXTENSIONS ==> Lookup(after, k) == Lookup(data, k))
      && (forall k :: k != PROPERTIES ==> Lookup(ext', k) == Lookup(ext, k))
      && IsKeptFrom(list, list', keys)
  {
    var after := ApplyInputs(data, keys, inputs);
    var ext := Spread(Lookup(data, EXTENSIONS));
    forall k | k != INPUTS && k != EXTENSIONS ensures Lookup(after, k) == Lookup(data, k) {
      AppliedAt(data, keys, inputs, k);
    }
    AppliedAt(data, keys, inputs, EXTENSIONS);
    forall k | k != PROPERTIES ensures Lookup(Spread(Lookup(after, EXTENSIONS)), k) == Lookup(ext, k) {
      NewExtensionsAt(ext, NewList(data, keys, inputs), k);
    }
    AppliedList(data, keys, inputs);
    KeptIsKept(PropertyList(ext), Pushed(Cleaned(inputs, keys)), keys);
  }

  /** The new list begins with the items of the old one that are no property with one of the keys. */
  ghost predicate IsKeptFrom(list: seq<Json>, list': seq<Json>, keys: set<string>) {
    exists kept :: kept <= list' && AreTheOthers(list, kept, keys)
  }

  ghost predicate AreTheOthers(list: seq<Json>, kept: seq<Json>, keys: set<string>) {
    && (forall item :: multiset(kept)[item] == if IsOwn(item, keys) then 0 else multiset(list)[item])
    && (forall i, j :: 0 <= i < j < |list| && !IsOwn(list[i], keys) && !IsOwn(list[j], keys) ==>
          StandBefore(kept, list[i], list[j]))
  }

  lemma KeptIsKept(list: seq<Json>, pushed: seq<Json>, keys: set<string>)
    ensures IsKeptFrom(list, Kept(list, keys) + pushed, keys)
  {
    var kept := Kept(list, keys);
    forall item ensures multiset(kept)[item] == if IsOwn(item, keys) then 0 else multiset(list)[item] {
      KeptHolds(list, keys, item);
    }
    forall i, j | 0 <= i < j < |list| && !IsOwn(list[i], keys) && !IsOwn(list[j], keys)
      ensures StandBefore(kept, list[i], list[j])
    {
      KeptInOrder(list, keys, i, j);
    }
    assert AreTheOthers(list, kept, keys) && kept <= kept + pushed;
  }

  lemma RecordsDiffer(p: Property, q: Property)
    ensures PropertyRecord(p) == PropertyRecord(q) ==> p == q
  {
    RecordName(p);
    RecordName(q);
  }

  lemma {:induction false} PushedIff(inputs: seq<Input>, key: string, value: string)
    ensures PropertyRecord(Property(key, value)) in Pushed(inputs) <==>
      Input(key, value) in inputs && !AllBlank(value, JS_SPACE)
  {
    if inputs != [] {
      var n := |inputs| - 1;
      PushedIff(inputs[..n], key, value);
      BlankIffAllBlank(inputs[n].value);
      RecordsDiffer(Property(key, value), Property(inputs[n].key, inputs[n].value));
      assert inputs == inputs[..n] + [inputs[n]];
    }
  }

  lemma {:induction false} CleanedIff(inputs: seq<Input>, keys: set<string>, x: Input)
    ensures x in Cleaned(inputs, keys) <==> x in inputs && x.key in keys
  {
    if inputs != [] {
      var n := |inputs| - 1;
      CleanedIff(inputs[..n], keys, x);
      assert inputs == inputs[..n] + [inputs[n]];
    }
  }

  /** Of the properties under the keys, exactly those of the inputs that are not all blanks are there after applying. */
  lemma PropertyIsWrittenIff(data: seq<Field>, keys: set<string>, inputs: seq<Input>, key: string, value: string)
    requires key in keys
    ensures
      var list := PropertyList(Spread(Lookup(ApplyInputs(data, keys, inputs), EXTENSIONS)));
      PropertyRecord(Property(key, value)) in list <==> Input(key, value) in inputs && !AllBlank(value, JS_SPACE)
  {
    var item := PropertyRecord(Property(key, value));
    AppliedList(data, keys, inputs);
    RecordName(Property(key, value));
    KeptHolds(PropertyList(Spread(Lookup(data, EXTENSIONS))), keys, item);
    PushedIff(Cleaned(inputs, keys), key, value);
    CleanedIff(inputs, keys, Input(key, value));
  }

  // ---- The last write wins ----

  lemma {:induction false} KeptOfConcat(l: seq<Json>, m: seq<Json>, keys: set<string>)
    ensures Kept(l + m, keys) == Kept(l, keys) + Kept(m, keys)
  {
    if m == [] {
      assert l + m == l;
    } else {
      assert (l + m)[..|l| + |m| - 1] == l + m[..|m| - 1];
      KeptOfConcat(l, m[..|m| - 1], keys);
    }
  }

  lemma KeptOneMore(l: seq<Json>, item: Json, keys: set<string>)
    ensures Kept(l + [item], keys) == Kept(l, keys) + if IsOwn(item, keys) then [] else [item]
  {
    assert (l + [item])[..|l|] == l;
  }

  lemma {:induction false} KeptAgain(list: seq<Json>, keys: set<string>)
    ensures Kept(Kept(list, keys), keys) == Kept(list, keys)
  {
    if list != [] {
      var n := |list| - 1;
      KeptAgain(list[..n], keys);
      KeptOneMore(Kept(list[..n], keys), list[n], keys);
      assert Kept(list[..n], keys) + [] == Kept(list[..n], keys);
    }
  }

  lemma RecordName(p: Property)
    ensures TextAt(PropertyRecord(p).fields, "@_name") == p.name
    ensures TextAt(PropertyRecord(p).fields, "@_value") == p.value
  {
    RecordKeepsProperty(p);
  }

  lemma {:induction false} PushedAreOwn(inputs: seq<Input>, keys: set<string>)
    requires forall i :: 0 <= i < |inputs| ==> inputs[i].key in keys
    ensures Kept(Pushed(inputs), keys) == []
  {
    if inputs != [] {
      var n := |inputs| - 1;
      var before := Pushed(inputs[..n]);
      PushedAreOwn(inputs[..n], keys);
      assert before + [] == before && inputs[n].key in keys;
      if !IsBlank(inputs[n].value) {
        var p := Property(inputs[n].key, inputs[n].value);
        RecordName(p);
        KeptOneMore(before, PropertyRecord(p), keys);
      }
    }
  }

  lemma {:induction false} CleanedAreKnown(inputs: seq<Input>, keys: set<string>)
    ensures forall i :: 0 <= i < |Cleaned(inputs, keys)| ==> Cleaned(inputs, keys)[i].key in keys
  {
    if inputs != [] {
      CleanedAreKnown(inputs[..|inputs| - 1], keys);
    }
  }

  /** Equal up to the order of the fields. */
  ghost predicate SameData(d: seq<Field>, e: seq<Field>) {
    && (forall k :: k != EXTENSIONS ==> Lookup(d, k) == Lookup(e, k))
    && (Has(d, EXTENSIONS) <==> Has(e, EXTENSIONS))
    && SameFields(Spread(Lookup(d, EXTENSIONS)), Spread(Lookup(e, EXTENSIONS)))
  }

  lemma EmptyIffNoField(fs: seq<Field>)
    ensures fs == [] <==> forall k :: Lookup(fs, k).None?
  {
    if fs != [] {
      assert Lookup(fs, fs[0].key).Some?;
    }
  }

  /** Applying one set of inputs after another leaves the same data as applying the second alone. */
  lemma LastWriteWins(data: seq<Field>, keys: set<string>, first: seq<Input>, second: seq<Input>)
    ensures SameData(ApplyInputs(ApplyInputs(data, keys, first), keys, second), ApplyInputs(data, keys, second))
  {
    var once := ApplyInputs(data, keys, first);
    SecondListIsSame(data, keys, first, second);
    forall k | k != EXTENSIONS
      ensures Lookup(ApplyInputs(once, keys, second), k) == Lookup(ApplyInputs(data, keys, second), k)
    {
      AppliedAt(data, keys, first, k);
      AppliedAt(once, keys, second, k);
      AppliedAt(data, keys, second, k);
    }
    AppliedAt(data, keys, first, EXTENSIONS);
    AppliedAt(once, keys, second, EXTENSIONS);
    AppliedAt(data, keys, second, EXTENSIONS);
    var ext, ext1 := Spread(Lookup(data, EXTENSIONS)), Spread(Lookup(once, EXTENSIONS));
    var list := NewList(data, keys, second);
    var a, b := NewExtensions(ext1, list), NewExtensions(ext, list);
    forall k ensures Lookup(a, k) == Lookup(b, k) {
      NewExtensionsAt(ext, NewList(data, keys, first), k);
      NewExtensionsAt(ext1, list, k);
      NewExtensionsAt(ext, list, k);
    }
    EmptyIffNoField(a);
    EmptyIffNoField(b);
  }

  lemma SecondListIsSame(data: seq<Field>, keys: set<string>, first: seq<Input>, second: seq<Input>)
    ensures NewList(ApplyInputs(data, keys, first), keys, second) == NewList(data, keys, second)
  {
    AppliedList(data, keys, first);
    CleanedAreKnown(first, keys);
    PushedAreDropped(PropertyList(Spread(Lookup(data, EXTENSIONS))), Cleaned(first, keys), keys);
  }

  lemma PushedAreDropped(list: seq<Json>, inputs: seq<Input>, keys: set<string>)
    requires forall i :: 0 <= i < |inputs| ==> inputs[i].key in keys
    ensures Kept(Kept(list, keys) + Pushed(inputs), keys) == Kept(list, keys)
  {
    KeptOfConcat(Kept(list, keys), Pushed(inputs), keys);
    KeptAgain(list, keys);
    PushedAreOwn(inputs, keys);
  }

  /** For a known job type the keys do not depend on the inputs, so the last write wins. */
  lemma LastWriteWinsForKnownType(data: seq<Field>, jobType: string, first: seq<Input>, second: seq<Input>)
    requires DescriptorIn(DESCRIPTORS, jobType).Some?
    ensures
      var once := ApplyInputs(data, KeysFor(jobType, first), first);
      SameData(ApplyInputs(once, KeysFor(jobType, second), second), ApplyInputs(data, KeysFor(jobType, second), second))
  {
    LastWriteWins(data, KeysFor(jobType, second), first, second);
  }

  /** For an unknown one the keys are those given, and an input that is no longer given is left among the properties. */
  lemma UnknownTypeKeepsOldInput(data: seq<Field>, jobType: string, x: Input)
    requires DescriptorIn(DESCRIPTORS, jobType).None? && !IsBlank(x.value)
    requires PropertyList(Spread(Lookup(data, EXTENSIONS))) == []
    ensures
      var once := ApplyInputs(data, KeysFor(jobType, [x]), [x]);
      var twice := ApplyInputs(once, KeysFor(jobType, []), []);
      && PropertyList(Spread(Lookup(twice, EXTENSIONS))) == [PropertyRecord(Property(x.key, x.value))]
      && PropertyList(Spread(Lookup(ApplyInputs(data, KeysFor(jobType, []), []), EXTENSIONS))) == []
  {
    var keys, none := KeysFor(jobType, [x]), KeysFor(jobType, []);
    var record := PropertyRecord(Property(x.key, x.value));
    assert x in [x] && none == {};
    AppliedList(data, keys, [x]);
    AppliedList(data, none, []);
    AppliedList(ApplyInputs(data, keys, [x]), none, []);
    assert [x][..0] == [];
    assert Cleaned([x], keys) == Cleaned([], keys) + [x] == [x];
    assert Pushed([x]) == Pushed([]) + [record] == [record];
    KeptOneMore([], record, none);
    assert [] + [record] == [record];
  }

  /** Applying inputs twice leaves the same data as the second time alone. */
  ghost predicate LastWins(jobType: string, data: seq<Field>, first: seq<Input>, second: seq<Input>) {
    var once := ApplyInputs(data, KeysFor(jobType, first), first);
    SameData(ApplyInputs(once, KeysFor(jobType, second), second), ApplyInputs(data, KeysFor(jobType, second), second))
  }

  lemma SameDataSameProperties(a: seq<Field>, b: seq<Field>)
    requires SameData(a, b)
    ensures PropertyList(Spread(Lookup(a, EXTENSIONS))) == PropertyList(Spread(Lookup(b, EXTENSIONS)))
  {
  }

  /** So the last write always wins exactly for the known job types. */
  lemma LastWriteWinsIffKnownType(jobType: string)
    ensures (forall data, first, second :: LastWins(jobType, data, first, second)) <==>
      DescriptorIn(DESCRIPTORS, jobType).Some?
  {
    if DescriptorIn(DESCRIPTORS, jobType).Some? {
      forall data, first, second ensures LastWins(jobType, data, first, second) {
        LastWriteWinsForKnownType(data, jobType, first, second);
      }
    } else {
      SomeWriteStays(jobType);
    }
  }

  lemma SomeWriteStays(jobType: string)
    requires DescriptorIn(DESCRIPTORS, jobType).None?
    ensures exists data, first, second :: !LastWins(jobType, data, first, second)
  {
    NoProperties();
    var x := SomeInput();
    OldInputStays(jobType, [], x);
  }

  lemma SomeInput() returns (x: Input)
    ensures !IsBlank(x.value)
  {
    x := Input("url", "v");
  }

  lemma NoProperties()
    ensures PropertyList(Spread(Lookup([], EXTENSIONS))) == []
  {
  }

  lemma OldInputStays(jobType: string, data: seq<Field>, x: Input)
    requires DescriptorIn(DESCRIPTORS, jobType).None? && !IsBlank(x.value)
    requires PropertyList(Spread(Lookup(data, EXTENSIONS))) == []
    ensures !LastWins(jobType, data, [x], [])
  {
    UnknownTypeKeepsOldInput(data, jobType, x);
    if LastWins(jobType, data, [x], []) {
      var once := ApplyInputs(data, KeysFor(jobType, [x]), [x]);
      SameDataSameProperties(ApplyInputs(once, KeysFor(jobType, []), []), ApplyInputs(data, KeysFor(jobType, []), []));
    }
  }
}
