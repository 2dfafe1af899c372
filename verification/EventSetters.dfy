/**
 The four setters by which the editor makes an event refer to a root element, and when the references of the event close
 after one of them.
 */
module EventSetters {
  import opened Options
  import opened JsonValues
  import opened NormalizedData
  import opened EventDefinitions
  import opened EventReferences
  import opened Text

  // ---- What a setter does ----

  lemma {:induction false} ReplacedAreIdChars(s: string, i: nat)
    requires i < |ReplaceRuns(s)|
    ensures IsIdChar(ReplaceRuns(s)[i])
    decreases |s|
  {
    if IsIdChar(s[0]) || |s| == 1 || IsIdChar(s[1]) {
      if i > 0 {
        ReplacedAreIdChars(s[1..], i - 1);
      }
    } else {
      ReplacedAreIdChars(s[1..], i);
    }
  }

  lemma SanitizedIsVisible(value: string)
    ensures SanitizeIdPart(value) != "" && IsIdChar(Last(SanitizeIdPart(value)))
  {
    var cleaned := ReplaceRuns(Trim(value, JS_SPACE));
    if cleaned != "" {
      ReplacedAreIdChars(Trim(value, JS_SPACE), |cleaned| - 1);
      assert Last("_" + cleaned) == Last(cleaned);
    }
  }

  lemma VisibleIsRef(id: string, n: nat)
    requires |id| == n + 1 && '!' <= id[0] <= '~' && '!' <= id[n] <= '~'
    ensures IsRef(id)
  {
    SmallIsNoSpace(id[0]);
    SmallIsNoSpace(id[n]);
  }

  lemma PrefixIsVisible(k: Kind)
    requires Refers(k)
    ensures |IdPrefix(k)| > 0 && '!' <= IdPrefix(k)[0] <= '~'
  {
  }

  lemma MadeIdIsRef(k: Kind, name: string)
    requires Refers(k)
    ensures IsRef(IdPrefix(k) + SanitizeIdPart(name))
  {
    SanitizedIsVisible(name);
    PrefixIsVisible(k);
    JoinedIsRef(IdPrefix(k), SanitizeIdPart(name));
  }

  lemma JoinedIsRef(prefix: string, part: string)
    requires prefix != "" && '!' <= prefix[0] <= '~' && part != "" && IsIdChar(Last(part))
    ensures IsRef(prefix + part)
  {
    var id := prefix + part;
    assert id[0] == prefix[0] && id[|id| - 1] == Last(part);
    VisibleIsRef(id, |id| - 1);
  }

  function MadeId(k: Kind, text: string): string
    requires Refers(k)
  {
    IdPrefix(k) + SanitizeIdPart(OrElse(Trim(text, JS_SPACE), DefaultName(k)))
  }

  /** What a setter does to the keys of a definition. */
  lemma SetterAt(data: seq<Field>, k: Kind, text: string, key: string)
    requires Refers(k) && (Last(key) == 'n' || Last(key) == 'f')
    ensures Lookup(WithReference(data, k, text), key)
         == if key == DefinitionKey(k) then Some(Object([Field(RefKey(k), Text(MadeId(k, text)))]))
            else if key == PlainKey(k) then None
            else Lookup(data, key)
  {
    var name, id := OrElse(Trim(text, JS_SPACE), DefaultName(k)), MadeId(k, text);
    var typed := Set(data, TYPE, Text(Stem(k)));
    var marked := Delete(typed, PlainKey(k));
    var defined := Set(marked, DefinitionKey(k), Object([Field(RefKey(k), Text(id))]));
    var named := Set(defined, NameKey(k), Text(name));
    KeyEnds(k);
    LookupSet(data, TYPE, Text(Stem(k)), key);
    LookupDelete(typed, PlainKey(k), key);
    LookupSet(marked, DefinitionKey(k), Object([Field(RefKey(k), Text(id))]), key);
    LookupSet(defined, NameKey(k), Text(name), key);
    LookupSet(named, IdKey(k), Text(id), key);
    LookupSet(Set(named, IdKey(k), Text(id)), CodeAttribute(k), Text(name), key);
  }

  /** The marker and the remembered id after a setter. */
  lemma SetterMarks(data: seq<Field>, k: Kind, text: string)
    requires Refers(k)
    ensures Lookup(WithReference(data, k, text), TYPE) == Some(Text(Stem(k)))
    ensures Lookup(WithReference(data, k, text), IdKey(k)) == Some(Text(MadeId(k, text)))
  {
    var name, id := OrElse(Trim(text, JS_SPACE), DefaultName(k)), MadeId(k, text);
    var typed := Set(data, TYPE, Text(Stem(k)));
    var marked := Delete(typed, PlainKey(k));
    var defined := Set(marked, DefinitionKey(k), Object([Field(RefKey(k), Text(id))]));
    var named := Set(defined, NameKey(k), Text(name));
    var remembered := Set(named, IdKey(k), Text(id));
    KeyEnds(k);
    NoNameIsType(k);
    LookupSet(data, TYPE, Text(Stem(k)), TYPE);
    LookupDelete(typed, PlainKey(k), TYPE);
    LookupSet(marked, DefinitionKey(k), Object([Field(RefKey(k), Text(id))]), TYPE);
    LookupSet(defined, NameKey(k), Text(name), TYPE);
    LookupSet(named, IdKey(k), Text(id), TYPE);
    LookupSet(remembered, CodeAttribute(k), Text(name), TYPE);
    LookupSet(named, IdKey(k), Text(id), IdKey(k));
    LookupSet(remembered, CodeAttribute(k), Text(name), IdKey(k));
  }

  lemma NoNameIsType(k: Kind)
    requires Refers(k)
    ensures NameKey(k) != TYPE && CodeAttribute(k) != TYPE
  {
    assert CodeAttribute(k)[0] == '@' && TYPE[0] == 'e';
    assert |NameKey(k)| == |Stem(k)| + 5 && |TYPE| == 19;
  }

  lemma {:induction false} KindNamedFinds(name: string, kinds: seq<Kind>, i: nat)
    requires i < |kinds| && Stem(kinds[i]) == name && forall j :: 0 <= j < i ==> Stem(kinds[j]) != name
    ensures KindNamed(name, kinds) == Some(kinds[i])
  {
    if i > 0 {
      KindNamedFinds(name, kinds[1..], i - 1);
    }
  }

  lemma StemFindsKind(k: Kind)
    requires Refers(k)
    ensures KindNamed(Stem(k), KINDS) == Some(k)
  {
    assert Stem(Timer)[0] != Stem(Error)[0];
    KindNamedFinds(Stem(k), KINDS,
                   if k == Message then 1 else if k == Signal then 2 else if k == Escalation then 3 else 7);
  }

  lemma MarkedIsInferred(data: seq<Field>, k: Kind)
    requires Refers(k) && Lookup(data, TYPE) == Some(Text(Stem(k)))
    ensures InferKind(data) == Some(k)
  {
    StemIsSmall(k);
    SmallIsTrimmed(Stem(k));
    LowerOfSmall(Stem(k));
    StemFindsKind(k);
  }

  /** What the event reads as after a setter. */
  lemma SetterReads(data: seq<Field>, k: Kind, text: string)
    requires Refers(k)
    ensures
      var after := WithReference(data, k, text);
      && InferKind(after) == EmittedKind(after) == Some(k)
      && GetRef(after, k) == MadeId(k, text) && RootId(after, k) == MadeId(k, text)
  {
    var after, id := WithReference(data, k, text), MadeId(k, text);
    SetterMarks(data, k, text);
    MarkedIsInferred(after, k);
    MarkedIsEmitted(after, k);
    KeyEnds(k);
    SetterAt(data, k, text, DefinitionKey(k));
    MadeIdIsRef(k, OrElse(Trim(text, JS_SPACE), DefaultName(k)));
    DefinedReads(after, k, id);
  }

  lemma DefinedReads(data: seq<Field>, k: Kind, id: string)
    requires Refers(k) && IsRef(id) && Lookup(data, IdKey(k)) == Some(Text(id))
    requires Lookup(data, DefinitionKey(k)) == Some(Object([Field(RefKey(k), Text(id))]))
    ensures GetRef(data, k) == id && RootId(data, k) == id
  {
    OneField(RefKey(k), Text(id));
    TrimmedStays(id, JS_SPACE);
  }

  /** The keys that a setter touches. */
  predicate IsEventKey(k: Kind, key: string) {
    key == TYPE || key == DefinitionKey(k) || key == PlainKey(k) || key == NameKey(k) || key == IdKey(k)
    || key == CodeAttribute(k)
  }

  lemma SetterKeeps(data: seq<Field>, k: Kind, text: string, key: string)
    requires Refers(k) && !IsEventKey(k, key)
    ensures Lookup(WithReference(data, k, text), key) == Lookup(data, key)
  {
    var name, id := OrElse(Trim(text, JS_SPACE), DefaultName(k)), MadeId(k, text);
    var typed := Set(data, TYPE, Text(Stem(k)));
    var marked := Delete(typed, PlainKey(k));
    var defined := Set(marked, DefinitionKey(k), Object([Field(RefKey(k), Text(id))]));
    var named := Set(defined, NameKey(k), Text(name));
    LookupSet(data, TYPE, Text(Stem(k)), key);
    LookupDelete(typed, PlainKey(k), key);
    LookupSet(marked, DefinitionKey(k), Object([Field(RefKey(k), Text(id))]), key);
    LookupSet(defined, NameKey(k), Text(name), key);
    LookupSet(named, IdKey(k), Text(id), key);
    LookupSet(Set(named, IdKey(k), Text(id)), CodeAttribute(k), Text(name), key);
  }

  /** The event is of the kind set, refers to and remembers the id made from the text, and keeps its other keys. */
  method SetReference(data: seq<Field>, k: Kind, text: string) returns (next: seq<Field>)
    requires Refers(k)
    ensures InferKind(next) == Some(k) && GetRef(next, k) == RootId(next, k) == MadeId(k, text)
    ensures Lookup(next, IdKey(k)) == Some(Text(MadeId(k, text)))
    ensures forall key :: !IsEventKey(k, key) ==> Lookup(next, key) == Lookup(data, key)
    ensures next == WithReference(data, k, text)
  {
    next := Set(data, TYPE, Text(Stem(k)));
    var name := OrElse(Trim(text, JS_SPACE), DefaultName(k));
    var id := IdPrefix(k) + SanitizeIdPart(name);
    next := Delete(next, PlainKey(k));
    next := Set(next, DefinitionKey(k), Object([Field(RefKey(k), Text(id))]));
    next := Set(next, NameKey(k), Text(name));
    next := Set(next, IdKey(k), Text(id));
    if k.Escalation? || k.Error? {
      next := Set(next, CodeAttribute(k), Text(name));
    }
    SetterReads(data, k, text);
    SetterMarks(data, k, text);
    forall key | !IsEventKey(k, key) ensures Lookup(next, key) == Lookup(data, key) {
      SetterKeeps(data, k, text, key);
    }
  }

  lemma ReceiveStays(data: seq<Field>, k: Kind, text: string)
    requires Refers(k)
    ensures Lookup(WithReference(data, k, text), RECEIVE_REF) == Lookup(data, RECEIVE_REF)
    ensures Lookup(WithReference(data, k, text), "messageRef") == Lookup(data, "messageRef")
  {
    KeyEnds(k);
    SetterAt(data, k, text, RECEIVE_REF);
    SetterAt(data, k, text, "messageRef");
    SetterKeepsReceive(k);
  }

  lemma OtherDefinitionsStay(data: seq<Field>, k: Kind, text: string, l: Kind)
    requires Refers(k) && Refers(l) && l != k
    ensures Lookup(WithReference(data, k, text), DefinitionKey(l)) == Lookup(data, DefinitionKey(l))
    ensures Lookup(WithReference(data, k, text), PlainKey(l)) == Lookup(data, PlainKey(l))
  {
    KeyEnds(l);
    DefinitionKeysDiffer(k, l);
    DefinitionKeysDiffer(l, k);
    SetterAt(data, k, text, DefinitionKey(l));
    SetterAt(data, k, text, PlainKey(l));
  }

  lemma SetterKeepsReceive(k: Kind)
    ensures RECEIVE_REF != DefinitionKey(k) && RECEIVE_REF != PlainKey(k)
    ensures "messageRef" != DefinitionKey(k) && "messageRef" != PlainKey(k)
  {
    KeyEnds(k);
  }

  lemma OwnDefinitionFits(data: seq<Field>, k: Kind, text: string)
    requires Refers(k)
    ensures DefinitionFits(WithReference(data, k, text), k)
  {
    KeyEnds(k);
    DefinitionKeysDiffer(k, k);
    SetterMarks(data, k, text);
    MarkedIsInferred(WithReference(data, k, text), k);
    SetterAt(data, k, text, DefinitionKey(k));
    SetterAt(data, k, text, PlainKey(k));
    OneField(RefKey(k), Text(MadeId(k, text)));
    MadeIdIsRef(k, OrElse(Trim(text, JS_SPACE), DefaultName(k)));
  }

  lemma MarkedIsEmitted(data: seq<Field>, k: Kind)
    requires Refers(k) && Lookup(data, TYPE) == Some(Text(Stem(k)))
    ensures EmittedKind(data) == Some(k)
  {
    StemIsSmall(k);
    StemFindsKind(k);
  }

  lemma SetterKeepsDistinct(data: seq<Field>, k: Kind, text: string)
    requires Refers(k) && Distinct(data)
    ensures Distinct(WithReference(data, k, text))
  {
    var name, id := OrElse(Trim(text, JS_SPACE), DefaultName(k)), MadeId(k, text);
    var typed := Set(data, TYPE, Text(Stem(k)));
    var marked := Delete(typed, PlainKey(k));
    var defined := Set(marked, DefinitionKey(k), Object([Field(RefKey(k), Text(id))]));
    var named := Set(defined, NameKey(k), Text(name));
    SetKeepsDistinct(data, TYPE, Text(Stem(k)));
    DeleteKeepsDistinct(typed, PlainKey(k));
    SetKeepsDistinct(marked, DefinitionKey(k), Object([Field(RefKey(k), Text(id))]));
    SetKeepsDistinct(defined, NameKey(k), Text(name));
    SetKeepsDistinct(named, IdKey(k), Text(id));
    SetKeepsDistinct(Set(named, IdKey(k), Text(id)), CodeAttribute(k), Text(name));
  }

  // ---- The root element after a setter ----

  /** The event keeps the name it was given. */
  lemma SetterNames(data: seq<Field>, k: Kind, text: string)
    requires Refers(k)
    ensures Lookup(WithReference(data, k, text), NameKey(k)) == Some(Text(OrElse(Trim(text, JS_SPACE), DefaultName(k))))
  {
    var name, id := OrElse(Trim(text, JS_SPACE), DefaultName(k)), MadeId(k, text);
    var marked := Delete(Set(data, TYPE, Text(Stem(k))), PlainKey(k));
    var defined := Set(marked, DefinitionKey(k), Object([Field(RefKey(k), Text(id))]));
    var named := Set(defined, NameKey(k), Text(name));
    KeyEnds(k);
    NameIsNoOther(k);
    LookupSet(defined, NameKey(k), Text(name), NameKey(k));
    LookupSet(named, IdKey(k), Text(id), NameKey(k));
    LookupSet(Set(named, IdKey(k), Text(id)), CodeAttribute(k), Text(name), NameKey(k));
  }

  lemma NameIsNoOther(k: Kind)
    requires Refers(k)
    ensures NameKey(k) != CodeAttribute(k) && NameKey(k) != IdKey(k)
  {
    assert CodeAttribute(k)[0] == '@' && NameKey(k)[0] == Stem(k)[0] != '@';
    KeyEnds(k);
  }

  lemma DefaultNameIsTrimmed(k: Kind)
    requires Refers(k)
    ensures DefaultName(k) != "" && Trim(DefaultName(k), JS_SPACE) == DefaultName(k)
  {
    var name := DefaultName(k);
    VisibleIsRef(name, |name| - 1);
    TrimmedStays(name, JS_SPACE);
  }

  /** The name a setter gives: the text, or else the default. */
  function NameFrom(k: Kind, text: string): string
    requires Refers(k)
  {
    if Trim(text, JS_SPACE) != "" then Trim(text, JS_SPACE) else DefaultName(k)
  }

  lemma SetterRootName(data: seq<Field>, k: Kind, text: string)
    requires Refers(k)
    ensures RootName(WithReference(data, k, text), k) == NameFrom(k, text)
  {
    SetterNames(data, k, text);
    DefaultNameIsTrimmed(k);
    TrimmedStays(Trim(text, JS_SPACE), JS_SPACE);
    GivenNameCounts(WithReference(data, k, text), k);
  }

  lemma SetterAdds(data: seq<Field>, k: Kind, text: string, id: string)
    requires Refers(k) && !Has(data, RECEIVE_REF)
    ensures Adds(WithReference(data, k, text), k, id) <==> id == MadeId(k, text)
  {
    SetterReads(data, k, text);
    ReceiveStays(data, k, text);
  }

  lemma OneNodeNames(data: seq<Field>, k: Kind, id: string, name: string)
    requires Refers(k) && !Has(data, RECEIVE_REF) && Adds(data, k, id) && RootName(data, k) == name
    ensures NameIn(CatalogOf([data]), k, id) == Some(Text(name))
  {
    LastNodeNames([], data, [], k, id, name);
    assert [] + [data] + [] == [data];
  }

  /** The catalogue of an event that has just been set holds one root: the id made from the text, and the text. */
  lemma SetterGivesRoot(data: seq<Field>, k: Kind, text: string, id: string)
    requires Refers(k) && !Has(data, RECEIVE_REF)
    ensures
      var c := CatalogOf([WithReference(data, k, text)]);
      && NameIn(c, k, MadeId(k, text)) == Some(Text(NameFrom(k, text)))
      && (IsRoot(c, k, id) <==> id == MadeId(k, text))
  {
    var after := WithReference(data, k, text);
    SetterRootName(data, k, text);
    SetterAdds(data, k, text, MadeId(k, text));
    SetterAdds(data, k, text, id);
    ReceiveStays(data, k, text);
    OneNodeNames(after, k, MadeId(k, text), NameFrom(k, text));
    CatalogHolds([after], k, id);
    assert after in [after];
  }

  // ---- When references close after a setter ----

  /** Under neither key is there a definition of this kind with a reference that would be written. */
  predicate HoldsNoReference(data: seq<Field>, k: Kind) {
    && (Has(data, DefinitionKey(k)) ==> RefsIn(Lookup(data, DefinitionKey(k)).value, k) == {})
    && (Has(data, PlainKey(k)) ==> RefsIn(Lookup(data, PlainKey(k)).value, k) == {})
  }

  /** After a setter, the references of another kind close exactly when there are none: they have lost their roots. */
  lemma OtherKindClosesIff(data: seq<Field>, k: Kind, text: string, l: Kind)
    requires Refers(k) && Refers(l) && l != k && Distinct(data) && DefinitionKeysAreDistinct(data, l)
    requires !Has(data, RECEIVE_REF) && !Has(data, "messageRef")
    ensures Closes(WithReference(data, k, text), l) <==> HoldsNoReference(data, l)
  {
    var after := WithReference(data, k, text);
    SetterKeepsDistinct(data, k, text);
    OtherDefinitionsStay(data, k, text, l);
    ReceiveStays(data, k, text);
    SetterReads(data, k, text);
    ForeignClosesIff(after, data, l);
  }

  /** Two records hold the same under the keys that count for the references of a kind. */
  predicate DefineAlike(data: seq<Field>, other: seq<Field>, l: Kind) {
    && Lookup(data, DefinitionKey(l)) == Lookup(other, DefinitionKey(l))
    && Lookup(data, PlainKey(l)) == Lookup(other, PlainKey(l))
    && Lookup(data, RECEIVE_REF) == Lookup(other, RECEIVE_REF)
    && Lookup(data, "messageRef") == Lookup(other, "messageRef")
  }

  lemma ForeignClosesIff(data: seq<Field>, before: seq<Field>, l: Kind)
    requires Refers(l) && EmittedKind(data) != Some(l) && InferKind(data) != Some(l) && Distinct(data)
    requires DefinitionKeysAreDistinct(before, l) && !Has(before, RECEIVE_REF) && !Has(before, "messageRef")
    requires DefineAlike(data, before, l)
    ensures Closes(data, l) <==> HoldsNoReference(before, l)
  {
    ForeignIsHeld(data, l);
    EventClosesIff(data, l);
  }

  /** Of a kind that the event is not of, the data holds what stands under the two keys. */
  lemma ForeignIsHeld(data: seq<Field>, l: Kind)
    requires Refers(l) && EmittedKind(data) != Some(l) && !Has(data, RECEIVE_REF) && !Has(data, "messageRef")
    ensures Held(data, l) == Refs(Lookup(data, DefinitionKey(l)), l) + Refs(Lookup(data, PlainKey(l)), l)
    ensures Held(data, l) == {} <==> HoldsNoReference(data, l)
  {
  }

  /** The reference that a setter writes always has its root. */
  lemma OwnKindCloses(data: seq<Field>, k: Kind, text: string)
    requires Refers(k) && Distinct(data) && !Has(data, RECEIVE_REF) && !Has(data, "messageRef")
    ensures Closes(WithReference(data, k, text), k)
  {
    var after := WithReference(data, k, text);
    SetterKeepsDistinct(data, k, text);
    ReceiveStays(data, k, text);
    OwnDefinitionFits(data, k, text);
    ConsistentIsDistinct(after, k);
    FittingHolds(after, k);
    EventClosesIff(after, k);
  }

  /**
   After a setter, every reference that the node is written with has its root element, if and only if no definition of
   another kind holds a reference.
   */
  lemma SetterClosesIff(data: seq<Field>, k: Kind, text: string)
    requires Refers(k) && Distinct(data) && (forall l :: Refers(l) ==> DefinitionKeysAreDistinct(data, l))
    requires !Has(data, RECEIVE_REF) && !Has(data, "messageRef")
    ensures (forall l :: Refers(l) ==> Closes(WithReference(data, k, text), l))
            <==> (forall l :: Refers(l) && l != k ==> HoldsNoReference(data, l))
  {
    OwnKindCloses(data, k, text);
    forall l | Refers(l) && l != k {
      OtherKindClosesIff(data, k, text, l);
    }
  }

  /**
   When an event that refers to one kind of root element is made to refer to another kind, its old reference is still
   written, and loses its root element.
   */
  lemma SwitchingKindsLeavesReference(data: seq<Field>, k: Kind, l: Kind, text: string, fs: seq<Field>)
    requires Refers(k) && Refers(l) && k != l && Distinct(data) && Distinct(fs)
    requires !Has(data, RECEIVE_REF) && !Has(data, "messageRef") && DefinitionKeysAreDistinct(data, l)
    requires Lookup(data, DefinitionKey(l)) == Some(Object(fs)) && AttributeText(Lookup(fs, RefKey(l))).Some?
    ensures !Closes(WithReference(data, k, text), l)
  {
    OtherKindClosesIff(data, k, text, l);
    assert AttributeText(Lookup(fs, RefKey(l))).value in RefsIn(Object(fs), l);
  }
}
