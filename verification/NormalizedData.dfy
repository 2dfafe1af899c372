/**
 Normalising the data of a diagram element when a file is read, and reading and writing its properties in the editor.
 */
module NormalizedData {
  import opened Options
  import opened JsonValues
  import opened Namespaces
  import opened ExtensionAttributes
  import opened ExtensionElements
  import opened PropertyNames
  import opened Text

  const EXTENSIONS := "bpmn:extensionElements"

  ghost function NormalizeData(data: seq<Field>, context: seq<string>): seq<Field> {
    var moved := MoveAttributes(CanonFields(data, Prefixes(context)), data, NAMES, context);
    if !Has(data, EXTENSIONS) then moved
    else
      var normalized := NormalizedExtensions(data, context);
      if normalized.Some? then Set(moved, EXTENSIONS, Object(normalized.value)) else Delete(moved, EXTENSIONS)
  }

  /** The normalised extension elements, if there is anything in them. */
  ghost function NormalizedExtensions(data: seq<Field>, context: seq<string>): Option<seq<Field>> {
    var fs := ExtensionFields(data);
    if fs.None? || NormalizeFields(fs.value, context) == [] then None else Some(NormalizeFields(fs.value, context))
  }

  function ExtensionFields(data: seq<Field>): Option<seq<Field>> {
    if Has(data, EXTENSIONS) then ExtensionRecord(Lookup(data, EXTENSIONS).value) else None
  }

  /** A list of extension elements counts as its first entry, and only records count. */
  lemma FirstExtensionElementsCount(data: seq<Field>, context: seq<string>, first: Json, rest: seq<Json>)
    requires Lookup(data, EXTENSIONS) == Some(Array([first] + rest)) && !first.Array?
    ensures NormalizedExtensions(data, context) == NormalizedExtensions(Set(data, EXTENSIONS, first), context)
    ensures NormalizedExtensions(data, context) ==
      if first.Object? && NormalizeFields(first.fields, context) != []
      then Some(NormalizeFields(first.fields, context)) else None
  {
    LookupSet(data, EXTENSIONS, first, EXTENSIONS);
  }

  method NormalizeBpmnData(data: seq<Field>, context: seq<string>) returns (normalized: seq<Field>)
    ensures normalized == NormalizeData(data, context)
  {
    var rewritten := CanonicalizeVendorKeys(Object(data), context);
    normalized := rewritten.fields;
    var names := NAMES;
    for i := 0 to |names|
      invariant normalized == MoveAttributes(CanonFields(data, Prefixes(context)), data, names[..i], context)
    {
      var name := names[i];
      MovesOneMore(CanonFields(data, Prefixes(context)), data, names, i, context);
      var value := GetAttribute(data, name, context);
      normalized := DeleteAll(normalized, AttributeKeys(name, context));
      if value.Some? {
        normalized := Set(normalized, Attr(VENDOR, name), value.value);
      }
    }
    assert names[..|names|] == names;
    if Has(data, EXTENSIONS) {
      var extensions := NormalizeExtensionElements(Lookup(data, EXTENSIONS).value, context);
      if extensions.Some? && extensions.value != [] {
        normalized := Set(normalized, EXTENSIONS, Object(extensions.value));
      } else {
        normalized := Delete(normalized, EXTENSIONS);
      }
    }
  }

  lemma MovesOneMore(out: seq<Field>, data: seq<Field>, names: seq<string>, i: nat, context: seq<string>)
    requires i < |names|
    ensures MoveAttributes(out, data, names[..i + 1], context) ==
      MoveAttribute(MoveAttributes(out, data, names[..i], context), data, names[i], context)
  {
    assert names[..i + 1][..i] == names[..i];
  }

  // ---- What normalising does to every key ----

  lemma ExtensionsAreNoAttribute(context: seq<string>)
    ensures forall n :: n in NAMES ==> EXTENSIONS !in AttributeKeys(n, context)
    ensures !IsVendor(EXTENSIONS)
  {
    assert EXTENSIONS[0] == 'b';
    forall n | n in NAMES ensures EXTENSIONS !in AttributeKeys(n, context) {
      NamesAreLocal(n);
      if EXTENSIONS in AttributeKeys(n, context) {
        KeyTellsName(n, context, EXTENSIONS);
        assert false;
      }
    }
    assert Attr(VENDOR, "")[0] == '@' && Elem(VENDOR, "")[0] == 'a';
  }

  lemma AllNamesAreLocal()
    ensures AreLocalNames(NAMES)
  {
    forall n | n in NAMES ensures IsLocalName(n) {
      NamesAreLocal(n);
    }
  }

  lemma NormalizedAtExtensions(data: seq<Field>, context: seq<string>)
    requires IsContext(context)
    ensures Lookup(NormalizeData(data, context), EXTENSIONS)
         == var e := NormalizedExtensions(data, context); if e.Some? then Some(Object(e.value)) else None
  {
    var canon := CanonFields(data, Prefixes(context));
    var moved := MoveAttributes(canon, data, NAMES, context);
    ExtensionsAreNoAttribute(context);
    PrefixesAreContext(context);
    if !Has(data, EXTENSIONS) {
      MoveAttributesAtOther(canon, data, NAMES, context, EXTENSIONS);
      PlainLookup(data, Prefixes(context), EXTENSIONS);
    } else if NormalizedExtensions(data, context).Some? {
      LookupSet(moved, EXTENSIONS, Object(NormalizedExtensions(data, context).value), EXTENSIONS);
    } else {
      LookupDelete(moved, EXTENSIONS, EXTENSIONS);
    }
  }

  lemma NormalizedElsewhere(data: seq<Field>, context: seq<string>, k: string)
    requires k != EXTENSIONS
    ensures Lookup(NormalizeData(data, context), k)
         == Lookup(MoveAttributes(CanonFields(data, Prefixes(context)), data, NAMES, context), k)
  {
    var moved := MoveAttributes(CanonFields(data, Prefixes(context)), data, NAMES, context);
    if Has(data, EXTENSIONS) {
      var e := NormalizedExtensions(data, context);
      if e.Some? {
        LookupSet(moved, EXTENSIONS, Object(e.value), k);
      } else {
        LookupDelete(moved, EXTENSIONS, k);
      }
    }
  }

  lemma NormalizedAtAttribute(data: seq<Field>, context: seq<string>, name: string, k: string)
    requires IsContext(context) && name in NAMES && k in AttributeKeys(name, context)
    ensures Lookup(NormalizeData(data, context), k)
         == if k == Attr(VENDOR, name) then GetAttribute(data, name, context) else None
  {
    ExtensionsAreNoAttribute(context);
    NormalizedElsewhere(data, context, k);
    AllNamesAreLocal();
    MoveAttributesAtOwn(CanonFields(data, Prefixes(context)), data, NAMES, context, name, k);
  }

  lemma NormalizedAtOther(data: seq<Field>, context: seq<string>, k: string)
    requires IsContext(context) && k != EXTENSIONS && forall n :: n in NAMES ==> k !in AttributeKeys(n, context)
    ensures Lookup(NormalizeData(data, context), k) == Lookup(CanonFields(data, Prefixes(context)), k)
  {
    NormalizedElsewhere(data, context, k);
    MoveAttributesAtOther(CanonFields(data, Prefixes(context)), data, NAMES, context, k);
  }

  lemma NormalizedIsDistinct(data: seq<Field>, context: seq<string>)
    requires IsContext(context)
    ensures Distinct(NormalizeData(data, context))
  {
    var canon := CanonFields(data, Prefixes(context));
    var moved := MoveAttributes(canon, data, NAMES, context);
    PrefixesAreContext(context);
    CanonFieldsAreCanonical(data, Prefixes(context));
    MoveAttributesKeepsDistinct(canon, data, NAMES, context);
    if Has(data, EXTENSIONS) {
      var e := NormalizedExtensions(data, context);
      if e.Some? {
        SetKeepsDistinct(moved, EXTENSIONS, Object(e.value));
      } else {
        DeleteKeepsDistinct(moved, EXTENSIONS);
      }
    }
  }

  // ---- Meaning is kept ----

  /**
   Whatever prefixes a file has bound, every vendor attribute reads from the normalised data, with the canonical prefix
   alone, as it read from the data in the file's own context.
   */
  lemma NormalizeKeepsAttributes(data: seq<Field>, context: seq<string>, name: string)
    requires IsContext(context) && name in NAMES
    ensures GetAttribute(NormalizeData(data, context), name, DEFAULT_CONTEXT) == GetAttribute(data, name, context)
  {
    var normalized, own := NormalizeData(data, context), Attr(VENDOR, name);
    forall k | k in AttributeKeys(name, DEFAULT_CONTEXT)
      ensures Lookup(normalized, k) == if k == own then GetAttribute(data, name, context) else None
    {
      DefaultKeysAreKeys(name, context, k);
      NormalizedAtAttribute(data, context, name, k);
    }
    CanonicalKeyIsOwn(name, DEFAULT_CONTEXT);
    FirstOfOnly(normalized, AttributeKeys(name, DEFAULT_CONTEXT), own);
  }

  // ---- Idempotence ----

  ghost function MergedIn(data: seq<Field>, context: seq<string>): seq<Json> {
    var fs := ExtensionFields(data);
    if fs.None? then [] else MergedProperties(fs.value, context)
  }

  lemma SecondPassAtAttribute(data: seq<Field>, context: seq<string>, name: string, k: string)
    requires IsContext(context) && name in NAMES && k in AttributeKeys(name, DEFAULT_CONTEXT)
    ensures
      var once := NormalizeData(data, context);
      Lookup(NormalizeData(once, DEFAULT_CONTEXT), k) == Lookup(once, k)
  {
    var once := NormalizeData(data, context);
    NormalizedAtAttribute(once, DEFAULT_CONTEXT, name, k);
    NormalizeKeepsAttributes(data, context, name);
    DefaultKeysAreKeys(name, context, k);
    NormalizedAtAttribute(data, context, name, k);
  }

  lemma SecondPassAtOther(data: seq<Field>, context: seq<string>, k: string)
    requires IsContext(context) && k != EXTENSIONS
    requires forall n :: n in NAMES ==> k !in AttributeKeys(n, DEFAULT_CONTEXT)
    ensures
      var once := NormalizeData(data, context);
      Lookup(NormalizeData(once, DEFAULT_CONTEXT), k) == Lookup(once, k)
  {
    var once := NormalizeData(data, context);
    NormalizedAtOther(once, DEFAULT_CONTEXT, k);
    NormalizedIsDistinct(data, context);
    DefaultPrefixes();
    CanonLookup(once, k);
    if exists n :: n in NAMES && k in AttributeKeys(n, context) {
      var n :| n in NAMES && k in AttributeKeys(n, context);
      CanonicalKeyIsOwn(n, DEFAULT_CONTEXT);
      NormalizedAtAttribute(data, context, n, k);
    } else {
      NormalizedAtOther(data, context, k);
      CanonFieldIsCanonical(data, context, k);
    }
  }

  lemma CanonFieldIsCanonical(data: seq<Field>, context: seq<string>, k: string)
    ensures
      var v := Lookup(CanonFields(data, Prefixes(context)), k);
      CanonOf(v, DEFAULT_CONTEXT) == v
  {
    var canon := CanonFields(data, Prefixes(context));
    PrefixesAreContext(context);
    CanonFieldsAreCanonical(data, Prefixes(context));
    var i := LookupFinds(canon, k);
    if Lookup(canon, k).Some? {
      assert canon[i] in canon;
      CanonicalStays(canon[i].value);
    }
  }

  lemma SecondPassAtExtensions(data: seq<Field>, context: seq<string>)
    requires IsContext(context)
    ensures
      var once := NormalizeData(data, context);
      Lookup(NormalizeData(once, DEFAULT_CONTEXT), EXTENSIONS) == Lookup(once, EXTENSIONS)
      <==> !Clashes(MergedIn(data, context), NAMING)
  {
    var once, e := NormalizeData(data, context), NormalizedExtensions(data, context);
    NormalizedAtExtensions(data, context);
    NormalizedAtExtensions(once, DEFAULT_CONTEXT);
    if e.Some? {
      assert ExtensionFields(once) == e;
      NormalizeFieldsIsIdempotentIff(ExtensionFields(data).value, context);
    } else if ExtensionFields(data).Some? {
      NothingMerged(ExtensionFields(data).value, context);
    }
  }

  lemma NothingMerged(fs: seq<Field>, context: seq<string>)
    requires IsContext(context) && NormalizeFields(fs, context) == []
    ensures MergedProperties(fs, context) == []
  {
    AssembleAppends(fs, MergedProperties(fs, context), FirstConnector(fs, context), context);
  }

  /**
   Normalising again leaves the value of every field as it is, nested data included, exactly when no merged property has
   the very name `__unnamed_<n>` that another one without name gets for its position.
   */
  lemma NormalizeKeepsFieldsIff(data: seq<Field>, context: seq<string>)
    requires IsContext(context)
    ensures SameFields(NormalizeData(NormalizeData(data, context), DEFAULT_CONTEXT), NormalizeData(data, context))
            <==> !Clashes(MergedIn(data, context), NAMING)
  {
    var once := NormalizeData(data, context);
    var twice := NormalizeData(once, DEFAULT_CONTEXT);
    forall k | k != EXTENSIONS ensures Lookup(twice, k) == Lookup(once, k) {
      if exists n :: n in NAMES && k in AttributeKeys(n, DEFAULT_CONTEXT) {
        var n :| n in NAMES && k in AttributeKeys(n, DEFAULT_CONTEXT);
        SecondPassAtAttribute(data, context, n, k);
      } else {
        SecondPassAtOther(data, context, k);
      }
    }
    SecondPassAtExtensions(data, context);
  }

  /** So it does whenever no property of the file is named like that at all. */
  lemma NormalizeKeepsFields(data: seq<Field>, context: seq<string>)
    requires IsContext(context)
    requires ExtensionFields(data).Some? ==>
               forall p, n: nat :: p in AllProperties(ExtensionFields(data).value, context) ==> NameOf(p) != Unnamed(n)
    ensures SameFields(NormalizeData(NormalizeData(data, context), DEFAULT_CONTEXT), NormalizeData(data, context))
  {
    NormalizeKeepsFieldsIff(data, context);
    if ExtensionFields(data).Some? {
      ReservedNamesAvoidClashes(AllProperties(ExtensionFields(data).value, context), NAMING);
    }
  }

  // ---- Reading and writing properties ----

  datatype Property = Property(name: string, value: string)

  function PropertyRecord(p: Property): Json {
    Object([Field("@_name", Text(p.name)), Field("@_value", Text(p.value))])
  }

  function PropertyOf(record: Json): Property {
    if record.Object? then Property(TextAt(record.fields, "@_name"), TextAt(record.fields, "@_value"))
    else Property("", "")
  }

  function Map<S, T>(f: S -> T, s: seq<S>): seq<T> {
    if s == [] then [] else Map(f, s[..|s| - 1]) + [f(s[|s| - 1])]
  }

  ghost function CurrentExtensions(data: seq<Field>): seq<Field> {
    var fs := ExtensionFields(data);
    if fs.None? then [] else NormalizeFields(fs.value, DEFAULT_CONTEXT)
  }

  ghost function GetProperties(data: seq<Field>): seq<Property> {
    PropertiesFrom(CurrentExtensions(data))
  }

  function PropertiesFrom(current: seq<Field>): seq<Property> {
    var group := Lookup(current, PROPERTIES);
    if group.None? || !group.value.Object? then []
    else
      var properties := Lookup(group.value.fields, PROPERTY);
      if properties.None? then [] else Map(PropertyOf, AsRecords(properties.value))
  }

  /** The extension elements after writing. */
  ghost function WrittenExtensions(data: seq<Field>, ps: seq<Property>): seq<Field> {
    var rest := Delete(CurrentExtensions(data), PROPERTIES);
    if ps == [] then rest else Set(rest, PROPERTIES, PropertyGroup(Map(PropertyRecord, ps)))
  }

  ghost function SetProperties(data: seq<Field>, ps: seq<Property>): seq<Field> {
    var current := WrittenExtensions(data, ps);
    if current == [] then Delete(data, EXTENSIONS) else Set(data, EXTENSIONS, Object(current))
  }

  lemma WrittenAt(data: seq<Field>, ps: seq<Property>, k: string)
    ensures Lookup(WrittenExtensions(data, ps), k)
         == if k == PROPERTIES then (if ps == [] then None else Some(PropertyGroup(Map(PropertyRecord, ps))))
            else Lookup(CurrentExtensions(data), k)
  {
    var rest := Delete(CurrentExtensions(data), PROPERTIES);
    LookupDelete(CurrentExtensions(data), PROPERTIES, k);
    if ps != [] {
      LookupSet(rest, PROPERTIES, PropertyGroup(Map(PropertyRecord, ps)), k);
    }
  }

  lemma ExtensionsAfterWrite(data: seq<Field>, ps: seq<Property>)
    ensures
      var written := WrittenExtensions(data, ps);
      CurrentExtensions(SetProperties(data, ps))
      == if written == [] then [] else NormalizeFields(written, DEFAULT_CONTEXT)
  {
    var written := WrittenExtensions(data, ps);
    if written == [] {
      LookupDelete(data, EXTENSIONS, EXTENSIONS);
    } else {
      LookupSet(data, EXTENSIONS, Object(written), EXTENSIONS);
    }
  }

  /** What is current is normalised: no plain special keys, and canonical values but for the property records. */
  lemma CurrentIsNormal(data: seq<Field>, k: string)
    requires k != PROPERTIES
    ensures
      var v := Lookup(CurrentExtensions(data), k);
      && (k == "properties" || k == "connector" ==> v.None?)
      && (k == CONNECTOR && v.Some? ==> v.value.Object?)
      && CanonOf(v, DEFAULT_CONTEXT) == v
  {
    var fs := ExtensionFields(data);
    if fs.Some? {
      var connector := FirstConnector(fs.value, DEFAULT_CONTEXT);
      DefaultPrefixes();
      KeysDiffer();
      SpecialKeysAre(DEFAULT_CONTEXT);
      FoundAreRecords(fs.value, DEFAULT_CONTEXT);
      AssembleAt(fs.value, MergedProperties(fs.value, DEFAULT_CONTEXT), connector, DEFAULT_CONTEXT, k);
      if k == CONNECTOR {
        if connector.Some? {
          CanonIsCanonical(connector.value, DEFAULT_CONTEXT);
          CanonicalStays(Canon(connector.value, DEFAULT_CONTEXT));
        }
      } else {
        CanonFieldIsCanonical(fs.value, DEFAULT_CONTEXT, k);
      }
    }
  }

  lemma CurrentIsDistinct(data: seq<Field>)
    ensures Distinct(CurrentExtensions(data))
  {
    var fs := ExtensionFields(data);
    if fs.Some? {
      var ps, connector := MergedProperties(fs.value, DEFAULT_CONTEXT), FirstConnector(fs.value, DEFAULT_CONTEXT);
      var prefixes := Prefixes(DEFAULT_CONTEXT);
      var canon := CanonFields(fs.value, prefixes);
      var cleared := DeleteAll(canon, SpecialKeys(DEFAULT_CONTEXT));
      PrefixesAreContext(DEFAULT_CONTEXT);
      CanonFieldsAreCanonical(fs.value, prefixes);
      DeleteAllKeepsDistinct(canon, SpecialKeys(DEFAULT_CONTEXT));
      SetKeepsDistinct(cleared, PROPERTIES, PropertyGroup(ps));
      var filled := if ps == [] then cleared else Set(cleared, PROPERTIES, PropertyGroup(ps));
      if connector.Some? {
        SetKeepsDistinct(filled, CONNECTOR, Canon(connector.value, prefixes));
      }
    }
  }

  lemma WrittenIsDistinct(data: seq<Field>, ps: seq<Property>)
    ensures Distinct(WrittenExtensions(data, ps))
  {
    CurrentIsDistinct(data);
    DeleteKeepsDistinct(CurrentExtensions(data), PROPERTIES);
    SetKeepsDistinct(Delete(CurrentExtensions(data), PROPERTIES), PROPERTIES, PropertyGroup(Map(PropertyRecord, ps)));
  }

  lemma {:induction false} RecordsAreObjects(ps: seq<Property>)
    ensures |Map(PropertyRecord, ps)| == |ps|
    ensures forall r :: r in Map(PropertyRecord, ps) ==> r.Object?
  {
    if ps != [] {
      RecordsAreObjects(ps[..|ps| - 1]);
    }
  }

  /** What the normaliser finds in what was written. */
  lemma FoundInWritten(data: seq<Field>, ps: seq<Property>)
    ensures
      var written := WrittenExtensions(data, ps);
      && AllProperties(written, DEFAULT_CONTEXT) == Map(PropertyRecord, ps)
      && FirstConnector(written, DEFAULT_CONTEXT) == Lookup(CurrentExtensions(data), CONNECTOR)
  {
    FoundPropertiesInWritten(data, ps);
    FoundConnectorInWritten(data, ps);
  }

  lemma FoundPropertiesInWritten(data: seq<Field>, ps: seq<Property>)
    ensures AllProperties(WrittenExtensions(data, ps), DEFAULT_CONTEXT) == Map(PropertyRecord, ps)
  {
    KeysDiffer();
    WrittenAt(data, ps, "properties");
    WrittenAt(data, ps, PROPERTIES);
    CurrentIsNormal(data, "properties");
    ValuesUnderDefault(WrittenExtensions(data, ps), "properties");
    RecordsAreObjects(ps);
    if ps != [] {
      GroupHoldsProperties(Map(PropertyRecord, ps));
    }
  }

  lemma FoundConnectorInWritten(data: seq<Field>, ps: seq<Property>)
    ensures FirstConnector(WrittenExtensions(data, ps), DEFAULT_CONTEXT) == Lookup(CurrentExtensions(data), CONNECTOR)
  {
    KeysDiffer();
    WrittenAt(data, ps, "connector");
    WrittenAt(data, ps, CONNECTOR);
    CurrentIsNormal(data, "connector");
    CurrentIsNormal(data, CONNECTOR);
    ValuesUnderDefault(WrittenExtensions(data, ps), "connector");
  }

  // ---- Records and properties ----

  const WRITTEN_NAMING: Naming<Property> := Naming((p: Property) => Lower(Trim(p.name, JS_SPACE)), Unnamed)

  lemma RecordKeepsProperty(p: Property)
    ensures PropertyOf(PropertyRecord(p)) == p
    ensures NAMING.name(PropertyRecord(p)) == WRITTEN_NAMING.name(p)
  {
    var fs := PropertyRecord(p).fields;
    assert |"@_name"| != |"@_value"|;
    assert Lookup(fs, "@_name") == Some(Text(p.name));
    assert fs[1..][0] == Field("@_value", Text(p.value));
    assert Lookup(fs, "@_value") == Lookup(fs[1..], "@_value") == Some(Text(p.value));
  }

  lemma {:induction false} MapIndex<S, T>(f: S -> T, s: seq<S>, i: nat)
    requires i < |s|
    ensures |Map(f, s)| == |s| && Map(f, s)[i] == f(s[i])
  {
    if i < |s| - 1 {
      MapIndex(f, s[..|s| - 1], i);
    } else {
      MapLength(f, s[..|s| - 1]);
    }
  }

  lemma {:induction false} MapLength<S, T>(f: S -> T, s: seq<S>)
    ensures |Map(f, s)| == |s|
  {
    if s != [] {
      MapLength(f, s[..|s| - 1]);
    }
  }

  /** Removing duplicates does not depend on how properties are represented. */
  lemma {:induction false} DedupeOfMap<S, T>(f: S -> T, s: seq<S>, naming: Naming<S>, naming': Naming<T>)
    requires naming'.madeUp == naming.madeUp && forall x :: naming'.name(f(x)) == naming.name(x)
    ensures Dedupe(Map(f, s), naming') == Map(f, Dedupe(s, naming))
  {
    if s != [] {
      var n := |s| - 1;
      var t := Map(f, s);
      DedupeOfMap(f, s[..n], naming, naming');
      MapLength(f, s);
      MapLength(f, s[..n]);
      assert t[..n] == Map(f, s[..n]);
      DuplicateOfMap(f, s, n, naming, naming');
      MapOneMore(f, Dedupe(s[..n], naming), s[n]);
    }
  }

  lemma MapOneMore<S, T>(f: S -> T, s: seq<S>, x: S)
    ensures Map(f, s + [x]) == Map(f, s) + [f(x)] && Map(f, s + []) == Map(f, s)
  {
    assert (s + [x])[..|s|] == s && s + [] == s;
  }

  lemma DuplicateOfMap<S, T>(f: S -> T, s: seq<S>, n: nat, naming: Naming<S>, naming': Naming<T>)
    requires naming'.madeUp == naming.madeUp && forall x :: naming'.name(f(x)) == naming.name(x)
    requires n < |s| && |Map(f, s)| == |s|
    ensures IsDuplicate(Map(f, s), n, naming') == IsDuplicate(s, n, naming)
  {
    var t := Map(f, s);
    forall i | 0 <= i < n ensures SameKey(t, i, n, naming') == SameKey(s, i, n, naming) {
      MapIndex(f, s, i);
      MapIndex(f, s, n);
    }
  }

  lemma MapBack(ps: seq<Property>)
    ensures Map(PropertyOf, Map(PropertyRecord, ps)) == ps
  {
    var rs := Map(PropertyRecord, ps);
    var back := Map(PropertyOf, rs);
    MapLength(PropertyRecord, ps);
    MapLength(PropertyOf, rs);
    forall i | 0 <= i < |ps| ensures back[i] == ps[i] {
      MapIndex(PropertyRecord, ps, i);
      MapIndex(PropertyOf, rs, i);
      RecordKeepsProperty(ps[i]);
    }
  }

  // ---- Main results about properties ----

  lemma ReadGroup(current: seq<Field>, properties: seq<Json>)
    requires forall p :: p in properties ==> p.Object?
    requires Lookup(current, PROPERTIES) == if properties == [] then None else Some(PropertyGroup(properties))
    ensures PropertiesFrom(current) == Map(PropertyOf, properties)
  {
    if properties != [] {
      PropertyFields(properties);
      RecordsOfRecords(properties);
    }
  }

  /** Reading gives what was written, but for the duplicates. */
  lemma ReadAfterWrite(data: seq<Field>, ps: seq<Property>)
    ensures GetProperties(SetProperties(data, ps)) == Dedupe(ps, WRITTEN_NAMING)
  {
    var written, after := WrittenExtensions(data, ps), SetProperties(data, ps);
    var merged := Dedupe(Map(PropertyRecord, ps), NAMING);
    ExtensionsAfterWrite(data, ps);
    FoundInWritten(data, ps);
    forall p ensures NAMING.name(PropertyRecord(p)) == WRITTEN_NAMING.name(p) {
      RecordKeepsProperty(p);
    }
    DedupeOfMap(PropertyRecord, ps, WRITTEN_NAMING, NAMING);
    MapBack(Dedupe(ps, WRITTEN_NAMING));
    RecordsAreObjects(Dedupe(ps, WRITTEN_NAMING));
    if written == [] {
      WrittenAt(data, ps, PROPERTIES);
      assert ps == [];
    } else {
      KeysDiffer();
      AssembleAt(written, merged, FirstConnector(written, DEFAULT_CONTEXT), DEFAULT_CONTEXT, PROPERTIES);
    }
    ReadGroup(CurrentExtensions(after), merged);
  }

  /**
   Reading gives the list that was written with later properties of the same name left out, order kept, exactly when no
   property has the made-up name of one without a name.
   */
  lemma ReadAfterWriteKeepsFirstsIff(data: seq<Field>, ps: seq<Property>)
    ensures GetProperties(SetProperties(data, ps)) == FirstOfEachName(ps, WRITTEN_NAMING)
            <==> !Clashes(ps, WRITTEN_NAMING)
  {
    ReadAfterWrite(data, ps);
    UnnamedIsNaming(WRITTEN_NAMING.name);
    KeepsFirstOfEachNameIffNoClash(ps, WRITTEN_NAMING);
  }

  /** Writing properties touches nothing else: not the connector, no other extension entry, no other key of the data. */
  lemma WriteKeepsTheRest(data: seq<Field>, ps: seq<Property>, k: string)
    ensures k != EXTENSIONS ==> Lookup(SetProperties(data, ps), k) == Lookup(data, k)
    ensures k != PROPERTIES ==>
              Lookup(CurrentExtensions(SetProperties(data, ps)), k) == Lookup(CurrentExtensions(data), k)
  {
    var written := WrittenExtensions(data, ps);
    LookupDelete(data, EXTENSIONS, k);
    LookupSet(data, EXTENSIONS, Object(written), k);
    if k != PROPERTIES {
      ExtensionsAfterWrite(data, ps);
      WrittenAt(data, ps, k);
      if written != [] {
        FoundInWritten(data, ps);
        DefaultPrefixes();
        CurrentIsNormal(data, k);
        AssembleAt(written, MergedProperties(written, DEFAULT_CONTEXT), FirstConnector(written, DEFAULT_CONTEXT),
                   DEFAULT_CONTEXT, k);
        if k != CONNECTOR && k in SpecialKeys(DEFAULT_CONTEXT) {
          DefaultSpecialKeys(DEFAULT_CONTEXT, k);
        } else {
          WrittenIsDistinct(data, ps);
          CanonLookup(written, k);
        }
      }
    }
  }

  // ---- Properties and connector are kept ----

  /** The extension elements of normalised data. */
  lemma NormalizedFields(data: seq<Field>, context: seq<string>)
    requires IsContext(context)
    ensures ExtensionFields(NormalizeData(data, context)) == NormalizedExtensions(data, context)
  {
    NormalizedAtExtensions(data, context);
  }

  lemma MergedAgain(fs: seq<Field>, context: seq<string>)
    requires IsContext(context)
    ensures
      var ps := MergedProperties(fs, context);
      PropertiesFrom(NormalizeFields(NormalizeFields(fs, context), DEFAULT_CONTEXT)) ==
        Map(PropertyOf, Dedupe(ps, NAMING))
  {
    var once, ps := NormalizeFields(fs, context), MergedProperties(fs, context);
    FoundAreRecords(fs, context);
    FoundAgain(fs, ps, FirstConnector(fs, context), context);
    FoundAreRecords(once, DEFAULT_CONTEXT);
    KeysDiffer();
    AssembleAt(once, Dedupe(ps, NAMING), FirstConnector(once, DEFAULT_CONTEXT), DEFAULT_CONTEXT, PROPERTIES);
    ReadGroup(NormalizeFields(once, DEFAULT_CONTEXT), Dedupe(ps, NAMING));
  }

  /**
   The properties that are read from normalised data are those that stood under any prefix of the file, merged without
   duplicates; once more without duplicates, which changes nothing but for a clash.
   */
  lemma NormalizeKeepsProperties(data: seq<Field>, context: seq<string>)
    requires IsContext(context)
    ensures GetProperties(NormalizeData(data, context)) == Map(PropertyOf, Dedupe(MergedIn(data, context), NAMING))
    ensures !Clashes(MergedIn(data, context), NAMING) ==>
      GetProperties(NormalizeData(data, context)) == Map(PropertyOf, MergedIn(data, context))
  {
    var fs := ExtensionFields(data);
    NormalizedFields(data, context);
    if fs.Some? {
      MergedAgain(fs.value, context);
      if NormalizeFields(fs.value, context) == [] {
        NothingMerged(fs.value, context);
      }
      UnnamedIsNaming(NameOf);
      DedupeIsIdempotentIff(AllProperties(fs.value, context), NAMING);
    }
  }

  /** The first connector that stands under any prefix of the file. */
  ghost function ConnectorIn(data: seq<Field>, context: seq<string>): Option<Json> {
    var fs := ExtensionFields(data);
    if fs.None? then None else FirstConnector(fs.value, context)
  }

  /** It is kept, rewritten, and is found again under the canonical prefix alone. */
  lemma NormalizeKeepsConnector(data: seq<Field>, context: seq<string>)
    requires IsContext(context)
    ensures ConnectorIn(NormalizeData(data, context), DEFAULT_CONTEXT) ==
      CanonOf(ConnectorIn(data, context), Prefixes(context))
  {
    var fs := ExtensionFields(data);
    NormalizedFields(data, context);
    if fs.Some? {
      var ps, connector := MergedProperties(fs.value, context), FirstConnector(fs.value, context);
      FoundAreRecords(fs.value, context);
      FoundAgain(fs.value, ps, connector, context);
      AssembleAt(fs.value, ps, connector, context, CONNECTOR);
    }
  }

  /** Whatever prefixes a file binds, its attributes, properties and connector read as they stand in it. */
  lemma FilesKeepTheirMeaning(definitions: seq<Field>, data: seq<Field>)
    ensures
      var context := BpmnNamespaceContext(definitions);
      var once := NormalizeData(data, context);
      && (forall n :: n in NAMES ==> GetAttribute(once, n, DEFAULT_CONTEXT) == GetAttribute(data, n, context))
      && GetProperties(once) == Map(PropertyOf, Dedupe(MergedIn(data, context), NAMING))
      && ConnectorIn(once, DEFAULT_CONTEXT) == CanonOf(ConnectorIn(data, context), Prefixes(context))
  {
    var context := BpmnNamespaceContext(definitions);
    ContextsAreContexts(definitions);
    NormalizeKeepsProperties(data, context);
    NormalizeKeepsConnector(data, context);
    forall n | n in NAMES
      ensures GetAttribute(NormalizeData(data, context), n, DEFAULT_CONTEXT) == GetAttribute(data, n, context)
    {
      NormalizeKeepsAttributes(data, context, n);
    }
  }

  /** Writing as it is done: the properties read back as written, less duplicates, and the rest stays. */
  method SetArtificialFlowProperties(data: seq<Field>, ps: seq<Property>) returns (normalizedData: seq<Field>)
    ensures GetProperties(normalizedData) == Dedupe(ps, WRITTEN_NAMING)
    ensures forall k :: k != EXTENSIONS ==> Lookup(normalizedData, k) == Lookup(data, k)
    ensures forall k :: k != PROPERTIES ==>
      Lookup(CurrentExtensions(normalizedData), k) == Lookup(CurrentExtensions(data), k)
    ensures normalizedData == SetProperties(data, ps)
  {
    normalizedData := data;
    var current := [];
    if Has(data, EXTENSIONS) {
      var normalized := NormalizeExtensionElements(Lookup(data, EXTENSIONS).value, DEFAULT_CONTEXT);
      current := if normalized.Some? then normalized.value else [];
    }
    current := Delete(current, PROPERTIES);
    if |ps| > 0 {
      current := Set(current, PROPERTIES, PropertyGroup(Map(PropertyRecord, ps)));
    }
    if |current| > 0 {
      normalizedData := Set(normalizedData, EXTENSIONS, Object(current));
    } else {
      normalizedData := Delete(normalizedData, EXTENSIONS);
    }
    ReadAfterWrite(data, ps);
    forall k ensures k != EXTENSIONS ==> Lookup(normalizedData, k) == Lookup(data, k) {
      WriteKeepsTheRest(data, ps, k);
    }
    forall k ensures k != PROPERTIES ==>
                       Lookup(CurrentExtensions(normalizedData), k) == Lookup(CurrentExtensions(data), k) {
      WriteKeepsTheRest(data, ps, k);
    }
  }
}
