/**
 Event definitions on diagram elements and the root elements they refer to. A message, signal, escalation or error event
 names a root element by its id; the generator writes the references from the node data, and the root elements from a
 catalogue that is collected from the same data.
 */
module EventDefinitions {
  import opened Options
  import opened JsonValues
  import opened Text

  datatype Kind = Timer | Message | Signal | Escalation | Link | Conditional | Terminate | Error | Compensate | Cancel

  /** The kinds in the order in which their definitions are looked for. */
  const KINDS: seq<Kind> := [
    Timer, Message, Signal, Escalation, Link, Conditional, Terminate, Error, Compensate, Cancel]

  /** The kinds whose definitions refer to a root element. */
  predicate Refers(k: Kind) {
    k.Message? || k.Signal? || k.Escalation? || k.Error?
  }

  function Stem(k: Kind): string {
    match k
    case Timer => "timer"
    case Message => "message"
    case Signal => "signal"
    case Escalation => "escalation"
    case Link => "link"
    case Conditional => "conditional"
    case Terminate => "terminate"
    case Error => "error"
    case Compensate => "compensate"
    case Cancel => "cancel"
  }

  const TYPE := "eventDefinitionType"
  const RECEIVE_REF := "@_messageRef"

  function PlainKey(k: Kind): string {
    Stem(k) + "EventDefinition"
  }

  function DefinitionKey(k: Kind): string {
    "bpmn:" + PlainKey(k)
  }

  function RefKey(k: Kind): string {
    "@_" + Stem(k) + "Ref"
  }

  function IdKey(k: Kind): string {
    Stem(k) + "_id"
  }

  function NameKey(k: Kind): string {
    Stem(k) + if k.Message? || k.Signal? then "_name" else "_code"
  }

  function CodeAttribute(k: Kind): string {
    "@_artificialflow:" + Stem(k) + "Code"
  }

  function IdPrefix(k: Kind): string
    requires Refers(k)
  {
    match k
    case Message => "Message_"
    case Signal => "Signal_"
    case Escalation => "Escalation_"
    case _ => "Error_"
  }

  function DefaultName(k: Kind): string
    requires Refers(k)
  {
    match k
    case Message => "Message"
    case Signal => "Signal"
    case Escalation => "ESC_1"
    case _ => "ERROR_1"
  }

  // ---- Text ----

  predicate IsLetter(c: char) {
    'a' <= c <= 'z' || 'A' <= c <= 'Z'
  }

  predicate IsIdChar(c: char) {
    IsLetter(c) || '0' <= c <= '9' || c == '_' || c == '.' || c == '-'
  }

  /** Each run of characters that an id cannot hold becomes one underscore. */
  function ReplaceRuns(s: string): string {
    if s == "" then ""
    else if IsIdChar(s[0]) then [s[0]] + ReplaceRuns(s[1..])
    else if |s| > 1 && !IsIdChar(s[1]) then ReplaceRuns(s[1..])
    else "_" + ReplaceRuns(s[1..])
  }

  predicate BeginsLikeId(s: string) {
    s != "" && (IsLetter(s[0]) || s[0] == '_')
  }

  function SanitizeIdPart(value: string): string {
    var cleaned := ReplaceRuns(Trim(value, JS_SPACE));
    if cleaned == "" then "Item" else if BeginsLikeId(cleaned) then cleaned else "_" + cleaned
  }

  function OrElse(s: string, t: string): string {
    if s != "" then s else t
  }

  /** The text of a value that is a string, trimmed; anything else counts as blank. */
  function Trimmed(v: Option<Json>): string {
    match v
    case Some(Text(t)) => Trim(t, JS_SPACE)
    case _ => ""
  }

  /** The text of a value that is a string. */
  function TextOf(v: Option<Json>): string {
    match v
    case Some(Text(t)) => t
    case _ => ""
  }

  // ---- Reading ----

  predicate IsPresent(fs: seq<Field>, key: string) {
    Has(fs, key) && Lookup(fs, key) != Some(Null)
  }

  /** The definition of this kind, under either key. */
  function Definition(data: seq<Field>, k: Kind): Option<Json> {
    if IsPresent(data, DefinitionKey(k)) then Lookup(data, DefinitionKey(k))
    else if IsPresent(data, PlainKey(k)) then Lookup(data, PlainKey(k))
    else None
  }

  predicate HasDefinition(data: seq<Field>, k: Kind) {
    Definition(data, k).Some? && Truthy(Definition(data, k).value)
  }

  function KindNamed(name: string, kinds: seq<Kind>): Option<Kind> {
    if kinds == [] then None
    else if Stem(kinds[0]) == name then Some(kinds[0])
    else KindNamed(name, kinds[1..])
  }

  function FirstDefined(data: seq<Field>, kinds: seq<Kind>): Option<Kind> {
    if kinds == [] then None
    else if HasDefinition(data, kinds[0]) then Some(kinds[0])
    else FirstDefined(data, kinds[1..])
  }

  /** The marker on the node, if there is one. */
  function MarkedType(data: seq<Field>): string {
    match Lookup(data, TYPE)
    case Some(v) => if Truthy(v) then ToText(v) else ""
    case None => ""
  }

  /** The kind of an event: what its marker says, or else its first definition. */
  function InferKind(data: seq<Field>): Option<Kind> {
    var marked := KindNamed(Lower(Trim(MarkedType(data), JS_SPACE)), KINDS);
    if marked.Some? then marked else FirstDefined(data, KINDS)
  }

  /** The fields of a definition; an array has none of the ones that are asked for. */
  function DefinitionFields(data: seq<Field>, k: Kind): seq<Field> {
    match Definition(data, k)
    case Some(Object(fs)) => fs
    case _ => []
  }

  /** The reference in the definition. */
  function GetRef(data: seq<Field>, k: Kind): string {
    var fs := DefinitionFields(data, k);
    OrElse(Trimmed(Lookup(fs, RefKey(k))),
           OrElse(Trimmed(Lookup(fs, Stem(k) + "Ref")),
                  if k.Message? || k.Signal? then Trimmed(Lookup(fs, "@_name")) else ""))
  }

  function Spaced(s: string): string {
    if s == "" then "" else [if s[0] == '_' then ' ' else s[0]] + Spaced(s[1..])
  }

  function WithoutPrefix(s: string, prefix: string): string {
    if prefix <= s then s[|prefix|..] else s
  }

  function DisplayName(data: seq<Field>, k: Kind): string
    requires Refers(k)
  {
    var ref := GetRef(data, k);
    OrElse(Trimmed(Lookup(data, NameKey(k))), OrElse(Spaced(WithoutPrefix(ref, IdPrefix(k))), ref))
  }

  function FirstNotNull(fs: seq<Field>, keys: seq<string>): Option<Json> {
    if keys == [] then None
    else if IsPresent(fs, keys[0]) then Lookup(fs, keys[0])
    else FirstNotNull(fs, keys[1..])
  }

  function GetCode(data: seq<Field>, k: Kind): string {
    var keys := [CodeAttribute(k), "@_" + Stem(k) + "Code"] + if k.Escalation? then ["escalationCode"] else [];
    OrElse(Trimmed(Lookup(data, NameKey(k))), OrElse(Trimmed(FirstNotNull(data, keys)), GetRef(data, k)))
  }

  /** The name or code that the root element gets. */
  function NameOrCode(data: seq<Field>, k: Kind): string
    requires Refers(k)
  {
    OrElse(if k.Message? || k.Signal? then DisplayName(data, k) else GetCode(data, k), DefaultName(k))
  }

  // ---- Writing ----

  /** The data of an event whose definition is set to refer to a root element named by this text. */
  function WithReference(data: seq<Field>, k: Kind, text: string): seq<Field>
    requires Refers(k)
  {
    var name := OrElse(Trim(text, JS_SPACE), DefaultName(k));
    var id := IdPrefix(k) + SanitizeIdPart(name);
    var marked := Delete(Set(data, TYPE, Text(Stem(k))), PlainKey(k));
    var defined := Set(marked, DefinitionKey(k), Object([Field(RefKey(k), Text(id))]));
    var named := Set(Set(defined, NameKey(k), Text(name)), IdKey(k), Text(id));
    if k.Message? || k.Signal? then named else Set(named, CodeAttribute(k), Text(name))
  }

  // ---- The catalogue ----

  /** The root elements, by kind, as id and name in the order in which the ids came up. */
  datatype Catalog = Catalog(messages: seq<Field>, signals: seq<Field>, escalations: seq<Field>, errors: seq<Field>)

  function Roots(c: Catalog, k: Kind): seq<Field>
    requires Refers(k)
  {
    match k
    case Message => c.messages
    case Signal => c.signals
    case Escalation => c.escalations
    case _ => c.errors
  }

  function WithRoot(c: Catalog, k: Kind, id: string, name: string): Catalog
    requires Refers(k)
  {
    match k
    case Message => c.(messages := Set(c.messages, id, Text(name)))
    case Signal => c.(signals := Set(c.signals, id, Text(name)))
    case Escalation => c.(escalations := Set(c.escalations, id, Text(name)))
    case _ => c.(errors := Set(c.errors, id, Text(name)))
  }

  function RootId(data: seq<Field>, k: Kind): string
    requires Refers(k)
  {
    OrElse(TextOf(Lookup(data, IdKey(k))),
           OrElse(GetRef(data, k), IdPrefix(k) + SanitizeIdPart(NameOrCode(data, k))))
  }

  function RootName(data: seq<Field>, k: Kind): string
    requires Refers(k)
  {
    if k.Message? || k.Signal? then OrElse(DisplayName(data, k), RootId(data, k)) else NameOrCode(data, k)
  }

  function AddNode(c: Catalog, data: seq<Field>): Catalog {
    var kind := InferKind(data);
    var own := if kind.Some? && Refers(kind.value)
               then WithRoot(c, kind.value, RootId(data, kind.value), RootName(data, kind.value)) else c;
    var received := Trimmed(Lookup(data, RECEIVE_REF));
    if received != "" then WithRoot(own, Message, received, WithoutPrefix(received, "Message_")) else own
  }

  function CatalogOf(nodes: seq<seq<Field>>): Catalog {
    if nodes == [] then Catalog([], [], [], [])
    else AddNode(CatalogOf(nodes[..|nodes| - 1]), nodes[|nodes| - 1])
  }

  method CollectRootEventCatalog(nodes: seq<seq<Field>>) returns (c: Catalog)
    ensures c == CatalogOf(nodes)
  {
    c := Catalog([], [], [], []);
    for i := 0 to |nodes|
      invariant c == CatalogOf(nodes[..i])
    {
      var data := nodes[i];
      assert nodes[..i + 1][..i] == nodes[..i];
      var kind := InferKind(data);
      if kind.Some? && Refers(kind.value) {
        c := WithRoot(c, kind.value, RootId(data, kind.value), RootName(data, kind.value));
      }
      var received := Trimmed(Lookup(data, RECEIVE_REF));
      if received != "" {
        c := WithRoot(c, Message, received, WithoutPrefix(received, "Message_"));
      }
    }
    assert nodes[..|nodes|] == nodes;
  }

  // ---- What the catalogue holds ----

  predicate IsRoot(c: Catalog, k: Kind, id: string)
    requires Refers(k)
  {
    Has(Roots(c, k), id)
  }

  lemma RootIsAdded(c: Catalog, k: Kind, id: string, name: string, l: Kind, other: string)
    requires Refers(k) && Refers(l)
    ensures IsRoot(WithRoot(c, k, id, name), l, other) <==> (l == k && other == id) || IsRoot(c, l, other)
  {
    LookupSet(Roots(c, k), id, Text(name), other);
  }

  /** The ids a node adds. */
  predicate Adds(data: seq<Field>, k: Kind, id: string)
    requires Refers(k)
  {
    || (InferKind(data) == Some(k) && id == RootId(data, k))
    || (k.Message? && id != "" && id == Trimmed(Lookup(data, RECEIVE_REF)))
  }

  lemma NodeIsAdded(c: Catalog, data: seq<Field>, k: Kind, id: string)
    requires Refers(k)
    ensures IsRoot(AddNode(c, data), k, id) <==> Adds(data, k, id) || IsRoot(c, k, id)
  {
    var kind := InferKind(data);
    var own := if kind.Some? && Refers(kind.value)
               then WithRoot(c, kind.value, RootId(data, kind.value), RootName(data, kind.value)) else c;
    if kind.Some? && Refers(kind.value) {
      RootIsAdded(c, kind.value, RootId(data, kind.value), RootName(data, kind.value), k, id);
    }
    var received := Trimmed(Lookup(data, RECEIVE_REF));
    if received != "" {
      RootIsAdded(own, Message, received, WithoutPrefix(received, "Message_"), k, id);
    }
  }

  /** The catalogue holds exactly the ids that some node adds. */
  lemma {:induction false} CatalogHolds(nodes: seq<seq<Field>>, k: Kind, id: string)
    requires Refers(k)
    ensures IsRoot(CatalogOf(nodes), k, id) <==> exists data :: data in nodes && Adds(data, k, id)
  {
    if nodes != [] {
      var n := |nodes| - 1;
      CatalogHolds(nodes[..n], k, id);
      NodeIsAdded(CatalogOf(nodes[..n]), nodes[n], k, id);
      assert forall data :: data in nodes <==> data in nodes[..n] || data == nodes[n];
    }
  }

  /** Root ids are distinct within each kind. */
  lemma {:induction false} RootIdsAreDistinct(nodes: seq<seq<Field>>, k: Kind)
    requires Refers(k)
    ensures Distinct(Roots(CatalogOf(nodes), k))
  {
    if nodes != [] {
      var n := |nodes| - 1;
      var c, data := CatalogOf(nodes[..n]), nodes[n];
      RootIdsAreDistinct(nodes[..n], k);
      var kind := InferKind(data);
      var own := if kind.Some? && Refers(kind.value)
                 then WithRoot(c, kind.value, RootId(data, kind.value), RootName(data, kind.value)) else c;
      if kind.Some? && Refers(kind.value) {
        AddingKeepsDistinct(c, kind.value, RootId(data, kind.value), RootName(data, kind.value), k);
      }
      var received := Trimmed(Lookup(data, RECEIVE_REF));
      AddingKeepsDistinct(own, Message, received, WithoutPrefix(received, "Message_"), k);
    }
  }

  lemma AddingKeepsDistinct(c: Catalog, k: Kind, id: string, name: string, l: Kind)
    requires Refers(k) && Refers(l) && Distinct(Roots(c, l))
    ensures Distinct(Roots(WithRoot(c, k, id, name), l))
  {
    SetKeepsDistinct(Roots(c, l), id, Text(name));
  }

  // ---- What ids are made of ----

  predicate AllIdChars(s: string) {
    forall i :: 0 <= i < |s| ==> IsIdChar(s[i])
  }

  predicate NoIdChars(s: string) {
    forall i :: 0 <= i < |s| ==> !IsIdChar(s[i])
  }

  /** What an id can hold stays. */
  lemma {:induction false} IdCharsStay(s: string, rest: string)
    requires AllIdChars(s)
    ensures ReplaceRuns(s + rest) == s + ReplaceRuns(rest)
  {
    if s == "" {
      assert s + rest == rest;
    } else {
      assert (s + rest)[0] == s[0] && (s + rest)[1..] == s[1..] + rest;
      IdCharsStay(s[1..], rest);
      assert s == [s[0]] + s[1..];
    }
  }

  /** A run of anything else becomes one underscore. */
  lemma {:induction false} RunBecomesOne(run: string, rest: string)
    requires run != "" && NoIdChars(run) && (rest != "" ==> IsIdChar(rest[0]))
    ensures ReplaceRuns(run + rest) == "_" + ReplaceRuns(rest)
  {
    var all := run + rest;
    assert all[0] == run[0] && all[1..] == run[1..] + rest;
    if |run| > 1 {
      assert all[1] == run[1];
      RunBecomesOne(run[1..], rest);
    } else {
      assert all[1..] == rest;
      assert |all| > 1 ==> all[1] == rest[0];
    }
  }

  /** So a text that is an id already is not changed. */
  lemma IdsAreKept(s: string)
    requires AllIdChars(s) && BeginsLikeId(s) && Trim(s, JS_SPACE) == s
    ensures SanitizeIdPart(s) == s
  {
    IdCharsStay(s, "");
    assert s + "" == s;
  }

  // ---- Which kind an event is of ----

  lemma {:induction false} FirstDefinedIs(data: seq<Field>, kinds: seq<Kind>, i: nat)
    requires i < |kinds| && HasDefinition(data, kinds[i]) && forall j :: 0 <= j < i ==> !HasDefinition(data, kinds[j])
    ensures FirstDefined(data, kinds) == Some(kinds[i])
  {
    if i > 0 {
      FirstDefinedIs(data, kinds[1..], i - 1);
    }
  }

  lemma StemsDiffer(k: Kind, l: Kind)
    ensures Stem(k) == Stem(l) ==> k == l
  {
    assert "timer"[0] == 't' && "terminate"[0] == 't' && "timer"[1] == 'i' && "terminate"[1] == 'e';
    assert "message"[0] == 'm' && "signal"[0] == 's' && "link"[0] == 'l';
    assert "escalation"[0] == 'e' && "error"[0] == 'e' && "escalation"[1] == 's' && "error"[1] == 'r';
    assert "conditional"[0] == 'c' && "compensate"[0] == 'c' && "cancel"[0] == 'c';
    assert "conditional"[2] == 'n' && "compensate"[2] == 'm' && "cancel"[2] == 'n';
    assert "conditional"[1] == 'o' && "cancel"[1] == 'a';
  }

  lemma {:induction false} KindIsFound(k: Kind, kinds: seq<Kind>)
    requires k in kinds
    ensures KindNamed(Stem(k), kinds) == Some(k)
  {
    StemsDiffer(k, kinds[0]);
    if kinds[0] != k {
      KindIsFound(k, kinds[1..]);
    }
  }

  lemma EveryKindIsLookedFor(k: Kind)
    ensures k in KINDS
  {
    var i := match k
      case Timer => 0 case Message => 1 case Signal => 2 case Escalation => 3 case Link => 4
      case Conditional => 5 case Terminate => 6 case Error => 7 case Compensate => 8 case Cancel => 9;
    assert KINDS[i] == k;
  }

  /** A marker counts before all definitions, whatever blanks are around it and in small or capital letters. */
  lemma MarkerCounts(data: seq<Field>, k: Kind, before: string, marker: string, after: string)
    requires MarkedType(data) == before + marker + after && AllBlank(before, JS_SPACE) && AllBlank(after, JS_SPACE)
    requires IsTrimmed(marker, JS_SPACE) && |marker| == |Stem(k)|
    requires forall i :: 0 <= i < |marker| ==> LowerChar(marker[i]) == Stem(k)[i]
    ensures InferKind(data) == Some(k)
  {
    TrimIgnoresBlanks(before, marker, after, JS_SPACE);
    TrimmedStays(marker, JS_SPACE);
    forall i | 0 <= i < |marker| ensures |Lower(marker)| == |marker| && Lower(marker)[i] == Stem(k)[i] {
      LowerAt(marker, i);
    }
    LowerAt(marker, 0);
    assert Lower(marker) == Stem(k);
    EveryKindIsLookedFor(k);
    KindIsFound(k, KINDS);
  }

  /** The first of attribute, element and, for a message or signal, name that is not blank is the reference. */
  lemma FirstReferenceCounts(data: seq<Field>, k: Kind, i: nat)
    requires i < |ReferenceKeys(k)|
    requires forall j :: 0 <= j < i ==> Trimmed(Lookup(DefinitionFields(data, k), ReferenceKeys(k)[j])) == ""
    ensures
      var ref := Trimmed(Lookup(DefinitionFields(data, k), ReferenceKeys(k)[i]));
      ref != "" || i + 1 == |ReferenceKeys(k)| ==> GetRef(data, k) == ref
  {
    var keys := ReferenceKeys(k);
    assert keys[0] == RefKey(k) && keys[1] == Stem(k) + "Ref";
    assert k.Message? || k.Signal? ==> keys[2] == "@_name";
  }

  /** Where a definition may hold its reference. */
  function ReferenceKeys(k: Kind): seq<string> {
    ["@_" + Stem(k) + "Ref", Stem(k) + "Ref"] + if k.Message? || k.Signal? then ["@_name"] else []
  }

  /** An event without a marker that names a kind is of the first kind, in the order above, that it defines. */
  lemma KindIsFirstDefinition(data: seq<Field>, i: nat)
    requires i < |KINDS| && HasDefinition(data, KINDS[i]) && forall j :: 0 <= j < i ==> !HasDefinition(data, KINDS[j])
    requires KindNamed(Lower(Trim(MarkedType(data), JS_SPACE)), KINDS).None?
    ensures InferKind(data) == Some(KINDS[i])
  {
    FirstDefinedIs(data, KINDS, i);
  }

  // ---- Names in the catalogue ----

  /** The name of a root of this kind. */
  function NameIn(c: Catalog, k: Kind, id: string): Option<Json>
    requires Refers(k)
  {
    Lookup(Roots(c, k), id)
  }

  lemma NameIsAdded(c: Catalog, k: Kind, id: string, name: string, l: Kind, other: string)
    requires Refers(k) && Refers(l)
    ensures NameIn(WithRoot(c, k, id, name), l, other) ==
      if l == k && other == id then Some(Text(name)) else NameIn(c, l, other)
  {
    LookupSet(Roots(c, k), id, Text(name), other);
  }

  /** The name that a node gives a root it adds: the rest of an id it receives, or else its own. */
  function GivenName(data: seq<Field>, k: Kind, id: string): string
    requires Refers(k)
  {
    if k.Message? && id != "" && id == Trimmed(Lookup(data, RECEIVE_REF)) then WithoutPrefix(id, "Message_")
    else RootName(data, k)
  }

  /** What one node does to the name of a root. */
  lemma NameAfterNode(c: Catalog, data: seq<Field>, k: Kind, id: string, name: string)
    requires Refers(k) && name == GivenName(data, k, id)
    ensures NameIn(AddNode(c, data), k, id) == if Adds(data, k, id) then Some(Text(name)) else NameIn(c, k, id)
  {
    var kind := InferKind(data);
    var own := if kind.Some? && Refers(kind.value)
               then WithRoot(c, kind.value, RootId(data, kind.value), RootName(data, kind.value)) else c;
    if kind.Some? && Refers(kind.value) {
      NameIsAdded(c, kind.value, RootId(data, kind.value), RootName(data, kind.value), k, id);
    }
    var received := Trimmed(Lookup(data, RECEIVE_REF));
    if received != "" {
      NameIsAdded(own, Message, received, WithoutPrefix(received, "Message_"), k, id);
    }
  }

  ghost predicate NoneAdds(nodes: seq<seq<Field>>, k: Kind, id: string)
    requires Refers(k)
  {
    forall data :: data in nodes ==> !Adds(data, k, id)
  }

  lemma NamedByLast(nodes: seq<seq<Field>>, data: seq<Field>, k: Kind, id: string, name: string)
    requires Refers(k) && Adds(data, k, id) && name == GivenName(data, k, id)
    ensures NameIn(CatalogOf(nodes + [data]), k, id) == Some(Text(name))
  {
    assert (nodes + [data])[..|nodes|] == nodes;
    NameAfterNode(CatalogOf(nodes), data, k, id, name);
  }

  lemma NotNamedByLast(nodes: seq<seq<Field>>, data: seq<Field>, k: Kind, id: string)
    requires Refers(k) && !Adds(data, k, id)
    ensures NameIn(CatalogOf(nodes + [data]), k, id) == NameIn(CatalogOf(nodes), k, id)
  {
    assert (nodes + [data])[..|nodes|] == nodes;
    NameAfterNode(CatalogOf(nodes), data, k, id, GivenName(data, k, id));
  }

  /** Nodes that do not add the root leave its name. */
  lemma {:induction false} NameStays(nodes: seq<seq<Field>>, late: seq<seq<Field>>, k: Kind, id: string)
    requires Refers(k) && NoneAdds(late, k, id)
    ensures NameIn(CatalogOf(nodes + late), k, id) == NameIn(CatalogOf(nodes), k, id)
    decreases |late|
  {
    if late == [] {
      assert nodes + late == nodes;
    } else {
      var front, last := SplitLast(nodes, late);
      NameStays(nodes, front, k, id);
      NotNamedByLast(nodes + front, last, k, id);
    }
  }

  lemma SplitLast(nodes: seq<seq<Field>>, late: seq<seq<Field>>) returns (front: seq<seq<Field>>, last: seq<Field>)
    requires late != []
    ensures late == front + [last] && nodes + late == (nodes + front) + [last] && last in late
    ensures forall data :: data in front ==> data in late
  {
    front, last := late[..|late| - 1], late[|late| - 1];
  }

  /** A root has the name that the last node that adds it gives it. */
  lemma LastNodeNames(early: seq<seq<Field>>, data: seq<Field>, late: seq<seq<Field>>,
                      k: Kind, id: string, name: string)
    requires Refers(k) && Adds(data, k, id) && name == GivenName(data, k, id) && NoneAdds(late, k, id)
    ensures NameIn(CatalogOf(early + [data] + late), k, id) == Some(Text(name))
  {
    NamedByLast(early, data, k, id, name);
    NameStays(early + [data], late, k, id);
  }

  lemma RestIsLeft(prefix: string, rest: string)
    ensures WithoutPrefix(prefix + rest, prefix) == rest
  {
  }

  /** A message that a task receives is named as its id, less the prefix of made ids. */
  lemma ReceivedName(data: seq<Field>, id: string, rest: string)
    requires id != "" && id == Trimmed(Lookup(data, RECEIVE_REF))
    ensures id == "Message_" + rest ==> GivenName(data, Message, id) == rest
    ensures !("Message_" <= id) ==> GivenName(data, Message, id) == id
  {
    RestIsLeft("Message_", rest);
  }

  lemma {:induction false} SpacedAt(s: string, i: nat)
    ensures |Spaced(s)| == |s|
    ensures i < |s| ==> Spaced(s)[i] == if s[i] == '_' then ' ' else s[i]
  {
    if s != "" {
      SpacedAt(s[1..], if i > 0 then i - 1 else 0);
    }
  }

  /** Without a name, a message or signal is named as its reference: less the prefix, with blanks for underscores. */
  lemma NameFromReference(data: seq<Field>, k: Kind, rest: string, i: nat)
    requires (k.Message? || k.Signal?) && Trimmed(Lookup(data, NameKey(k))) == "" && rest != ""
    requires GetRef(data, k) == (if k.Message? then "Message_" else "Signal_") + rest
    ensures |RootName(data, k)| == |rest|
    ensures i < |rest| ==> RootName(data, k)[i] == if rest[i] == '_' then ' ' else rest[i]
  {
    RestIsLeft(IdPrefix(k), rest);
    SpacedAt(rest, i);
  }

  /** A root whose node has a name, or a code, is named so, less the blanks around it. */
  lemma GivenNameCounts(data: seq<Field>, k: Kind)
    requires Refers(k) && Trimmed(Lookup(data, NameKey(k))) != ""
    ensures RootName(data, k) == Trimmed(Lookup(data, NameKey(k)))
  {
  }
}
