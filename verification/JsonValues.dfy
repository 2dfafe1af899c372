/**
 Parsed records: values as JSON has them, an object being its fields in the order in which they were added. Setting a
 field that is there keeps its place; a new one goes to the end.
 */
module JsonValues {
  import opened Options

  /** A number is known by the text it prints as. */
  datatype Json =
    | Null
    | Boolean(value: bool)
    | Number(digits: string)
    | Text(text: string)
    | Array(items: seq<Json>)
    | Object(fields: seq<Field>)

  datatype Field = Field(key: string, value: Json)

  function Lookup(fs: seq<Field>, key: string): Option<Json> {
    if fs == [] then None
    else if fs[0].key == key then Some(fs[0].value)
    else Lookup(fs[1..], key)
  }

  predicate Has(fs: seq<Field>, key: string) {
    Lookup(fs, key).Some?
  }

  function Set(fs: seq<Field>, key: string, value: Json): seq<Field> {
    if fs == [] then [Field(key, value)]
    else if fs[0].key == key then [Field(key, value)] + fs[1..]
    else [fs[0]] + Set(fs[1..], key, value)
  }

  function Delete(fs: seq<Field>, key: string): seq<Field> {
    if fs == [] then []
    else if fs[0].key == key then Delete(fs[1..], key)
    else [fs[0]] + Delete(fs[1..], key)
  }

  function DeleteAll(fs: seq<Field>, keys: seq<string>): seq<Field>
    decreases keys
  {
    if keys == [] then fs else DeleteAll(Delete(fs, keys[0]), keys[1..])
  }

  /** Assigning these fields one after the other. */
  function SetAll(fs: seq<Field>, gs: seq<Field>): seq<Field> {
    if gs == [] then fs
    else
      var n := |gs| - 1;
      Set(SetAll(fs, gs[..n]), gs[n].key, gs[n].value)
  }

  predicate Distinct(fs: seq<Field>) {
    forall i, j :: 0 <= i < j < |fs| ==> fs[i].key != fs[j].key
  }

  /** The two objects have the same fields, in whatever order. */
  ghost predicate SameFields(fs: seq<Field>, gs: seq<Field>) {
    forall key :: Lookup(fs, key) == Lookup(gs, key)
  }

  // ---- What reading sees of a change ----

  lemma {:induction false} LookupSet(fs: seq<Field>, key: string, value: Json, k: string)
    ensures Lookup(Set(fs, key, value), k) == if k == key then Some(value) else Lookup(fs, k)
  {
    if fs == [] {
    } else if fs[0].key == key {
      assert ([Field(key, value)] + fs[1..])[1..] == fs[1..];
    } else {
      LookupSet(fs[1..], key, value, k);
      assert ([fs[0]] + Set(fs[1..], key, value))[1..] == Set(fs[1..], key, value);
    }
  }

  lemma {:induction false} LookupDelete(fs: seq<Field>, key: string, k: string)
    ensures Lookup(Delete(fs, key), k) == if k == key then None else Lookup(fs, k)
  {
    if fs == [] {
    } else {
      LookupDelete(fs[1..], key, k);
      if fs[0].key != key {
        assert ([fs[0]] + Delete(fs[1..], key))[1..] == Delete(fs[1..], key);
      }
    }
  }

  lemma {:induction false} LookupDeleteAll(fs: seq<Field>, keys: seq<string>, k: string)
    ensures Lookup(DeleteAll(fs, keys), k) == if k in keys then None else Lookup(fs, k)
    decreases keys
  {
    if keys == [] {
    } else {
      LookupDeleteAll(Delete(fs, keys[0]), keys[1..], k);
      LookupDelete(fs, keys[0], k);
      assert k in keys <==> k == keys[0] || k in keys[1..];
    }
  }

  lemma {:induction false} LookupIndex(fs: seq<Field>, i: nat)
    requires i < |fs| && Distinct(fs)
    ensures Lookup(fs, fs[i].key) == Some(fs[i].value)
  {
    if i > 0 {
      LookupIndex(fs[1..], i - 1);
    }
  }

  lemma {:induction false} LookupFinds(fs: seq<Field>, k: string) returns (i: int)
    ensures Lookup(fs, k).Some? ==> 0 <= i < |fs| && fs[i] == Field(k, Lookup(fs, k).value)
    ensures Lookup(fs, k).None? ==> forall j :: 0 <= j < |fs| ==> fs[j].key != k
  {
    if fs == [] || fs[0].key == k {
      i := 0;
    } else {
      i := LookupFinds(fs[1..], k);
      if Lookup(fs, k).None? {
        forall j | 0 <= j < |fs| ensures fs[j].key != k {
          if j > 0 {
            assert fs[1..][j - 1].key != k;
          }
        }
      }
      i := i + 1;
    }
  }

  lemma {:induction false} AbsentLookup(fs: seq<Field>, k: string)
    requires forall i :: 0 <= i < |fs| ==> fs[i].key != k
    ensures Lookup(fs, k).None?
  {
    if fs != [] {
      AbsentLookup(fs[1..], k);
    }
  }

  // ---- Order and distinctness ----

  lemma {:induction false} SetNewAppends(fs: seq<Field>, key: string, value: Json)
    requires Lookup(fs, key).None?
    ensures Set(fs, key, value) == fs + [Field(key, value)]
  {
    if fs != [] {
      SetNewAppends(fs[1..], key, value);
    }
  }

  lemma {:induction false} SetKeepsDistinct(fs: seq<Field>, key: string, value: Json)
    requires Distinct(fs)
    ensures Distinct(Set(fs, key, value))
  {
    if fs == [] || fs[0].key == key {
    } else {
      SetKeepsDistinct(fs[1..], key, value);
      var rest := Set(fs[1..], key, value);
      assert forall j :: 0 <= j < |fs| - 1 ==> fs[1..][j] == fs[j + 1];
      AbsentLookup(fs[1..], fs[0].key);
      LookupSet(fs[1..], key, value, fs[0].key);
      var _ := LookupFinds(rest, fs[0].key);
    }
  }

  lemma {:induction false} DeleteHolds(fs: seq<Field>, key: string, f: Field)
    requires f in Delete(fs, key)
    ensures f in fs && f.key != key
  {
    if f in Delete(fs[1..], key) {
      DeleteHolds(fs[1..], key, f);
    }
  }

  lemma {:induction false} DeleteKeepsDistinct(fs: seq<Field>, key: string)
    requires Distinct(fs)
    ensures Distinct(Delete(fs, key))
  {
    if fs != [] {
      DeleteKeepsDistinct(fs[1..], key);
      var rest := Delete(fs[1..], key);
      forall j | 0 <= j < |rest| ensures rest[j].key != fs[0].key {
        DeleteHolds(fs[1..], key, rest[j]);
      }
    }
  }

  lemma {:induction false} DeleteAllKeepsDistinct(fs: seq<Field>, keys: seq<string>)
    requires Distinct(fs)
    ensures Distinct(DeleteAll(fs, keys))
    decreases keys
  {
    if keys != [] {
      DeleteKeepsDistinct(fs, keys[0]);
      DeleteAllKeepsDistinct(Delete(fs, keys[0]), keys[1..]);
    }
  }

  lemma {:induction false} SetAllKeepsDistinct(fs: seq<Field>, gs: seq<Field>)
    requires Distinct(fs)
    ensures Distinct(SetAll(fs, gs))
  {
    if gs != [] {
      var n := |gs| - 1;
      SetAllKeepsDistinct(fs, gs[..n]);
      SetKeepsDistinct(SetAll(fs, gs[..n]), gs[n].key, gs[n].value);
    }
  }

  /** Fields that are all new are appended as they are. */
  lemma {:induction false} SetAllAppends(fs: seq<Field>, gs: seq<Field>)
    requires Distinct(fs + gs)
    ensures SetAll(fs, gs) == fs + gs
  {
    if gs == [] {
      assert fs + gs == fs;
    } else {
      var n := |gs| - 1;
      var all := fs + gs;
      assert fs + gs[..n] == all[..|fs| + n];
      SetAllAppends(fs, gs[..n]);
      assert all[|fs| + n] == gs[n];
      AbsentLookup(all[..|fs| + n], gs[n].key);
      SetNewAppends(fs + gs[..n], gs[n].key, gs[n].value);
      assert fs + gs[..n] + [gs[n]] == fs + gs;
    }
  }

  lemma {:induction false} SetBehind(fs: seq<Field>, gs: seq<Field>, key: string, value: Json)
    requires Lookup(fs, key).None?
    ensures Set(fs + gs, key, value) == fs + Set(gs, key, value)
  {
    if fs == [] {
      assert fs + gs == gs;
    } else {
      assert (fs + gs)[1..] == fs[1..] + gs;
      SetBehind(fs[1..], gs, key, value);
    }
  }

  /** Assigning fields whose keys are new leaves what was there in front. */
  lemma {:induction false} SetAllBehind(fs: seq<Field>, gs: seq<Field>)
    requires forall g :: g in gs ==> Lookup(fs, g.key).None?
    ensures SetAll(fs, gs) == fs + SetAll([], gs)
  {
    if gs != [] {
      var n := |gs| - 1;
      SetAllBehind(fs, gs[..n]);
      SetBehind(fs, SetAll([], gs[..n]), gs[n].key, gs[n].value);
    }
  }

  lemma {:induction false} SetHolds(fs: seq<Field>, key: string, value: Json, f: Field)
    requires f in Set(fs, key, value)
    ensures f in fs || f == Field(key, value)
  {
    if fs == [] || fs[0].key == key {
    } else if f != fs[0] {
      SetHolds(fs[1..], key, value, f);
    }
  }

  /** Every field of the outcome was there or was assigned. */
  lemma {:induction false} SetAllHolds(fs: seq<Field>, gs: seq<Field>, f: Field)
    requires f in SetAll(fs, gs)
    ensures f in fs || f in gs
  {
    if gs != [] {
      var n := |gs| - 1;
      SetHolds(SetAll(fs, gs[..n]), gs[n].key, gs[n].value, f);
      if f in SetAll(fs, gs[..n]) {
        SetAllHolds(fs, gs[..n], f);
      }
    }
  }

  /** What is read after assigning these fields: the last of them that has the key. */
  function LastOf(gs: seq<Field>, key: string): Option<Json> {
    if gs == [] then None
    else if gs[|gs| - 1].key == key then Some(gs[|gs| - 1].value)
    else LastOf(gs[..|gs| - 1], key)
  }

  lemma {:induction false} LookupSetAll(fs: seq<Field>, gs: seq<Field>, k: string)
    ensures Lookup(SetAll(fs, gs), k) == if LastOf(gs, k).Some? then LastOf(gs, k) else Lookup(fs, k)
  {
    if gs != [] {
      var n := |gs| - 1;
      LookupSetAll(fs, gs[..n], k);
      LookupSet(SetAll(fs, gs[..n]), gs[n].key, gs[n].value, k);
    }
  }

  /** Where a key cannot occur twice, the last is the only one. */
  lemma {:induction false} LastIsLookup(fs: seq<Field>, k: string)
    requires Distinct(fs)
    ensures LastOf(fs, k) == Lookup(fs, k)
  {
    if fs != [] {
      var n := |fs| - 1;
      LastIsLookup(fs[..n], k);
      var i := LookupFinds(fs, k);
      var _ := LookupFinds(fs[..n], k);
      if fs[n].key == k {
        LookupIndex(fs, n);
      } else if Lookup(fs, k).Some? {
        assert fs[i] == fs[..n][i];
        LookupIndex(fs[..n], i);
      }
    }
  }

  // ---- Records and text ----

  /** Whether a value counts as true. */
  predicate Truthy(v: Json) {
    match v
    case Null => false
    case Boolean(b) => b
    case Number(d) => d != "0"
    case Text(t) => t != ""
    case _ => true
  }

  function AsRecord(v: Json): Option<seq<Field>> {
    if v.Object? then Some(v.fields) else None
  }

  /** The records of an array, or the one record. */
  function AsRecords(v: Json): (rs: seq<Json>)
    ensures forall r :: r in rs ==> r.Object?
  {
    match v
    case Array(items) => Records(items)
    case Object(_) => [v]
    case _ => []
  }

  function Records(items: seq<Json>): (rs: seq<Json>)
    ensures forall r :: r in rs ==> r.Object?
  {
    if items == [] then [] else (if items[0].Object? then [items[0]] else []) + Records(items[1..])
  }

  lemma {:induction false} RecordsOfRecords(items: seq<Json>)
    requires forall r :: r in items ==> r.Object?
    ensures Records(items) == items
  {
    if items != [] {
      RecordsOfRecords(items[1..]);
    }
  }

  /** `String(value)`. */
  function ToText(v: Json): string
    decreases v
  {
    match v
    case Null => "null"
    case Boolean(b) => if b then "true" else "false"
    case Number(d) => d
    case Text(t) => t
    case Array(items) => ItemTexts(items)
    case Object(_) => "[object Object]"
  }

  /** An array prints its items between commas, and nothing for a null. */
  function ItemTexts(items: seq<Json>): string
    decreases items
  {
    if items == [] then ""
    else
      var first := if items[0].Null? then "" else ToText(items[0]);
      if |items| == 1 then first else first + "," + ItemTexts(items[1..])
  }

  /** `String(record[key] ?? "")`. */
  function TextAt(fs: seq<Field>, key: string): string {
    match Lookup(fs, key)
    case None => ""
    case Some(Null) => ""
    case Some(v) => ToText(v)
  }
}
