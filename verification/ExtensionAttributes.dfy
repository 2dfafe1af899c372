/**
 The vendor attributes of a diagram element. Reading takes the first key that is there: under each prefix bound to the
 vendor namespace, then without prefix. Writing leaves only the canonical key.
 */
module ExtensionAttributes {
  import opened Options
  import opened JsonValues
  import opened Namespaces

  const TASK_NAMES: seq<string> := ["topic", "taskType", "scriptFormat", "resultVariable", "timeout"]
  const USER_NAMES: seq<string> := ["assignee", "candidateUsers", "candidateGroups", "dueDate", "correlationKey"]
  const EVENT_NAMES: seq<string> := ["decisionRef", "timerDuration", "errorCode", "errorMessage", "condition"]
  const FLOW_NAMES: seq<string> := [
    "sourceHandle", "targetHandle", "collection", "elementVariable", "calledElementVersion"]
  const NAMES: seq<string> := TASK_NAMES + USER_NAMES + EVENT_NAMES + FLOW_NAMES

  predicate IsLocalName(name: string) {
    ':' !in name
  }

  lemma NamesAreLocal(name: string)
    requires name in NAMES
    ensures IsLocalName(name)
  {
    TaskNamesAreLocal(name);
    UserNamesAreLocal(name);
    EventNamesAreLocal(name);
    FlowNamesAreLocal(name);
  }

  lemma TaskNamesAreLocal(name: string)
    ensures name in TASK_NAMES ==> IsLocalName(name)
  {
  }

  lemma UserNamesAreLocal(name: string)
    ensures name in USER_NAMES ==> IsLocalName(name)
  {
  }

  lemma EventNamesAreLocal(name: string)
    ensures name in EVENT_NAMES ==> IsLocalName(name)
  {
  }

  lemma FlowNamesAreLocal(name: string)
    ensures name in FLOW_NAMES ==> IsLocalName(name)
  {
  }

  function AttributeKeys(name: string, context: seq<string>): seq<string> {
    PrefixedKeys(name, context) + ["@_" + name]
  }

  function PrefixedKeys(name: string, context: seq<string>): seq<string> {
    if context == [] then [] else [Attr(context[0], name)] + PrefixedKeys(name, context[1..])
  }

  /** The value under the first of the keys that is there. */
  function FirstOf(fs: seq<Field>, keys: seq<string>): Option<Json> {
    if keys == [] then None
    else if Has(fs, keys[0]) then Lookup(fs, keys[0])
    else FirstOf(fs, keys[1..])
  }

  function GetAttribute(data: seq<Field>, name: string, context: seq<string>): Option<Json> {
    FirstOf(data, AttributeKeys(name, context))
  }

  function SetAttribute(data: seq<Field>, name: string, value: Json, context: seq<string>): seq<Field> {
    Set(DeleteAll(data, AttributeKeys(name, context)), Attr(VENDOR, name), value)
  }

  method SetArtificialFlowAttribute(data: seq<Field>, name: string, value: Json, context: seq<string>)
    returns (normalized: seq<Field>)
    ensures normalized == SetAttribute(data, name, value, context)
  {
    normalized := data;
    var keys := AttributeKeys(name, context);
    for i := 0 to |keys|
      invariant DeleteAll(normalized, keys[i..]) == DeleteAll(data, keys)
    {
      normalized := Delete(normalized, keys[i]);
      assert keys[i..][1..] == keys[i + 1..];
    }
    normalized := Set(normalized, Attr(VENDOR, name), value);
  }

  // ---- Which keys are whose ----

  lemma {:induction false} PrefixedKeysAre(name: string, context: seq<string>, key: string)
    ensures key in PrefixedKeys(name, context) <==> exists p :: p in context && key == Attr(p, name)
  {
    if context != [] {
      PrefixedKeysAre(name, context[1..], key);
      if exists p :: p in context && key == Attr(p, name) {
        var p :| p in context && key == Attr(p, name);
        assert p == context[0] || p in context[1..];
      }
    }
  }

  /** What follows the last colon. */
  function AfterColon(s: string): string {
    if ':' !in s then s else AfterColon(s[1..])
  }

  lemma {:induction false} AfterColonIsLocal(p: string, name: string)
    requires IsLocalName(name)
    ensures AfterColon(p + ":" + name) == name
  {
    if p == "" {
      assert (":" + name)[0] == ':' && (":" + name)[1..] == name;
      assert "" + ":" + name == ":" + name;
    } else {
      assert (p + ":" + name)[|p|] == ':';
      assert (p + ":" + name)[1..] == p[1..] + ":" + name;
      AfterColonIsLocal(p[1..], name);
    }
  }

  /** A key tells the name it belongs to, as names hold no colon. */
  lemma KeyTellsName(name: string, context: seq<string>, key: string)
    requires IsLocalName(name) && key in AttributeKeys(name, context)
    ensures "@_" <= key && AfterColon(key[2..]) == name
  {
    PrefixedKeysAre(name, context, key);
    if key in PrefixedKeys(name, context) {
      var p :| p in context && key == Attr(p, name);
      assert key[2..] == p + ":" + name;
      AfterColonIsLocal(p, name);
    } else {
      assert key == "@_" + name;
      assert key[2..] == name;
    }
  }

  /** So a key belongs to one name only. */
  lemma KeysAreDisjoint(m: string, n: string, context: seq<string>, context': seq<string>, key: string)
    requires IsLocalName(m) && IsLocalName(n) && m != n && key in AttributeKeys(m, context)
    ensures key !in AttributeKeys(n, context')
  {
    KeyTellsName(m, context, key);
    if key in AttributeKeys(n, context') {
      KeyTellsName(n, context', key);
      assert false;
    }
  }

  lemma CanonicalKeyIsOwn(name: string, context: seq<string>)
    requires IsContext(context)
    ensures Attr(VENDOR, name) in AttributeKeys(name, context)
  {
    PrefixedKeysAre(name, context, Attr(VENDOR, name));
  }

  lemma {:induction false} FirstOfSame(fs: seq<Field>, gs: seq<Field>, keys: seq<string>)
    requires forall k :: k in keys ==> Lookup(fs, k) == Lookup(gs, k)
    ensures FirstOf(fs, keys) == FirstOf(gs, keys)
  {
    if keys != [] {
      assert keys[0] in keys;
      FirstOfSame(fs, gs, keys[1..]);
    }
  }

  /** Reading finds the only one of the keys that is there. */
  lemma {:induction false} FirstOfOnly(fs: seq<Field>, keys: seq<string>, only: string)
    requires only in keys && forall k :: k in keys && k != only ==> Lookup(fs, k).None?
    ensures FirstOf(fs, keys) == Lookup(fs, only)
  {
    assert keys[0] in keys;
    if keys[0] != only {
      FirstOfOnly(fs, keys[1..], only);
    } else if Lookup(fs, only).None? {
      FirstOfNone(fs, keys);
    }
  }

  lemma {:induction false} FirstOfNone(fs: seq<Field>, keys: seq<string>)
    requires forall k :: k in keys ==> Lookup(fs, k).None?
    ensures FirstOf(fs, keys).None?
  {
    if keys != [] {
      assert keys[0] in keys;
      FirstOfNone(fs, keys[1..]);
    }
  }

  lemma {:induction false} PrefixedKeyAt(name: string, context: seq<string>, i: nat)
    ensures |PrefixedKeys(name, context)| == |context|
    ensures i < |context| ==> PrefixedKeys(name, context)[i] == "@_" + (context[i] + ":" + name)
  {
    if context != [] {
      PrefixedKeyAt(name, context[1..], if i > 0 then i - 1 else 0);
    }
  }

  lemma {:induction false} FirstOfAt(fs: seq<Field>, keys: seq<string>, i: nat)
    requires i < |keys| && Has(fs, keys[i]) && forall j :: 0 <= j < i ==> !Has(fs, keys[j])
    ensures FirstOf(fs, keys) == Lookup(fs, keys[i])
  {
    if i > 0 {
      FirstOfAt(fs, keys[1..], i - 1);
    }
  }

  /** The key of an attribute with the `i`-th prefix of the context; behind the last one, the key without prefix. */
  function KeyAt(name: string, context: seq<string>, i: nat): string {
    if i < |context| then "@_" + (context[i] + ":" + name) else "@_" + name
  }

  /** An attribute reads as the value under the first prefix of the context with which it is there, or without one. */
  lemma FirstPrefixCounts(data: seq<Field>, name: string, context: seq<string>, i: nat)
    requires i <= |context|
    requires forall j :: 0 <= j < i ==> !Has(data, KeyAt(name, context, j))
    ensures Has(data, KeyAt(name, context, i)) || i == |context| ==>
      GetAttribute(data, name, context) == Lookup(data, KeyAt(name, context, i))
  {
    var keys := AttributeKeys(name, context);
    PrefixedKeyAt(name, context, 0);
    forall j: nat | j <= |context| ensures keys[j] == KeyAt(name, context, j) {
      PrefixedKeyAt(name, context, j);
    }
    if Has(data, KeyAt(name, context, i)) {
      FirstOfAt(data, keys, i);
    } else if i == |context| {
      forall k | k in keys ensures Lookup(data, k).None? {
        var j :| 0 <= j < |keys| && keys[j] == k;
        assert k == KeyAt(name, context, j);
      }
      FirstOfNone(data, keys);
    }
  }

  // ---- Main results about one attribute ----

  /** What a set does to every key. */
  lemma SetAttributeAt(data: seq<Field>, name: string, value: Json, context: seq<string>, k: string)
    requires IsContext(context)
    ensures Lookup(SetAttribute(data, name, value, context), k)
         == if k == Attr(VENDOR, name) then Some(value)
            else if k in AttributeKeys(name, context) then None
            else Lookup(data, k)
  {
    LookupSet(DeleteAll(data, AttributeKeys(name, context)), Attr(VENDOR, name), value, k);
    LookupDeleteAll(data, AttributeKeys(name, context), k);
  }

  /**
   An attribute that has been set reads as what was set, and every other attribute reads as before, in whatever context
   either is read.
   */
  lemma SetThenGet(
      data: seq<Field>, name: string, value: Json, context: seq<string>, other: string, context': seq<string>)
    requires IsContext(context) && IsLocalName(name) && IsLocalName(other)
    ensures
      var written := SetAttribute(data, name, value, context);
      && GetAttribute(written, name, context) == Some(value)
      && GetAttribute(written, name, DEFAULT_CONTEXT) == Some(value)
      && (other != name ==> GetAttribute(written, other, context') == GetAttribute(data, other, context'))
  {
    var written := SetAttribute(data, name, value, context);
    var own := Attr(VENDOR, name);
    forall c | c == context || c == DEFAULT_CONTEXT ensures GetAttribute(written, name, c) == Some(value) {
      CanonicalKeyIsOwn(name, c);
      forall k | k in AttributeKeys(name, c) && k != own ensures Lookup(written, k).None? {
        SetAttributeAt(data, name, value, context, k);
        if c == DEFAULT_CONTEXT {
          DefaultKeysAreKeys(name, context, k);
        }
      }
      FirstOfOnly(written, AttributeKeys(name, c), own);
      SetAttributeAt(data, name, value, context, own);
    }
    if other != name {
      forall k | k in AttributeKeys(other, context') ensures Lookup(written, k) == Lookup(data, k) {
        KeysAreDisjoint(other, name, context', context, k);
        CanonicalKeyIsOwn(name, context);
        SetAttributeAt(data, name, value, context, k);
      }
      FirstOfSame(written, data, AttributeKeys(other, context'));
    }
  }

  lemma DefaultKeysAreKeys(name: string, context: seq<string>, k: string)
    requires IsContext(context) && k in AttributeKeys(name, DEFAULT_CONTEXT)
    ensures k in AttributeKeys(name, context)
  {
    PrefixedKeysAre(name, DEFAULT_CONTEXT, k);
    PrefixedKeysAre(name, context, k);
  }

  // ---- All attributes of an element ----

  /** Each attribute moved to its canonical key, the values taken from the data as it came. */
  function MoveAttributes(
      out: seq<Field>, data: seq<Field>, names: seq<string>, context: seq<string>): seq<Field>
  {
    if names == [] then out
    else
      var n := |names| - 1;
      MoveAttribute(MoveAttributes(out, data, names[..n], context), data, names[n], context)
  }

  function MoveAttribute(out: seq<Field>, data: seq<Field>, name: string, context: seq<string>): seq<Field> {
    var value := GetAttribute(data, name, context);
    var cleared := DeleteAll(out, AttributeKeys(name, context));
    if value.None? then cleared else Set(cleared, Attr(VENDOR, name), value.value)
  }

  lemma MoveAttributeAt(out: seq<Field>, data: seq<Field>, name: string, context: seq<string>, k: string)
    requires IsContext(context)
    ensures Lookup(MoveAttribute(out, data, name, context), k)
         == if k == Attr(VENDOR, name) then GetAttribute(data, name, context)
            else if k in AttributeKeys(name, context) then None
            else Lookup(out, k)
  {
    var cleared := DeleteAll(out, AttributeKeys(name, context));
    LookupDeleteAll(out, AttributeKeys(name, context), k);
    CanonicalKeyIsOwn(name, context);
    var value := GetAttribute(data, name, context);
    if value.Some? {
      LookupSet(cleared, Attr(VENDOR, name), value.value, k);
    }
  }

  ghost predicate AreLocalNames(names: seq<string>) {
    forall n :: n in names ==> IsLocalName(n)
  }

  /** What moving the attributes does to a key of one of them. */
  lemma {:induction false} MoveAttributesAtOwn(
      out: seq<Field>, data: seq<Field>, names: seq<string>, context: seq<string>, name: string, k: string)
    requires IsContext(context) && AreLocalNames(names) && name in names && k in AttributeKeys(name, context)
    ensures Lookup(MoveAttributes(out, data, names, context), k)
         == if k == Attr(VENDOR, name) then GetAttribute(data, name, context) else None
  {
    var n := |names| - 1;
    var before := MoveAttributes(out, data, names[..n], context);
    assert names == names[..n] + [names[n]];
    MoveAttributeAt(before, data, names[n], context, k);
    if name != names[n] {
      KeysAreDisjoint(name, names[n], context, context, k);
      CanonicalKeyIsOwn(names[n], context);
      MoveAttributesAtOwn(out, data, names[..n], context, name, k);
    }
  }

  /** What it does to any other key. */
  lemma {:induction false} MoveAttributesAtOther(
      out: seq<Field>, data: seq<Field>, names: seq<string>, context: seq<string>, k: string)
    requires IsContext(context) && forall n :: n in names ==> k !in AttributeKeys(n, context)
    ensures Lookup(MoveAttributes(out, data, names, context), k) == Lookup(out, k)
  {
    if names != [] {
      var n := |names| - 1;
      MoveAttributesAtOther(out, data, names[..n], context, k);
      assert names[n] in names;
      CanonicalKeyIsOwn(names[n], context);
      MoveAttributeAt(MoveAttributes(out, data, names[..n], context), data, names[n], context, k);
    }
  }

  lemma {:induction false} MoveAttributesKeepsDistinct(
      out: seq<Field>, data: seq<Field>, names: seq<string>, context: seq<string>)
    requires Distinct(out)
    ensures Distinct(MoveAttributes(out, data, names, context))
  {
    if names != [] {
      var n := |names| - 1;
      MoveAttributesKeepsDistinct(out, data, names[..n], context);
      var before := MoveAttributes(out, data, names[..n], context);
      var cleared := DeleteAll(before, AttributeKeys(names[n], context));
      DeleteAllKeepsDistinct(before, AttributeKeys(names[n], context));
      var value := GetAttribute(data, names[n], context);
      if value.Some? {
        SetKeepsDistinct(cleared, Attr(VENDOR, names[n]), value.value);
      }
    }
  }
}
