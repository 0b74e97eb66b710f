/**
 The form-field snapshot taken on submit and the two-column table built
 from it.

 The snapshot is the plain object `formDataObj`: an ordered list of
 distinct keys with their values. Assigning a key already present keeps
 its position and replaces its value; a new key goes at the end.
 */
module FormFields {
  import opened Wrappers

  datatype Entry = Entry(key: string, value: string)

  /** One table row, under the head ["Property Field", "Value"]: the display
      label and the value. */
  datatype Row = Row(field: string, value: string)

  /** Names of the two file inputs, which stay out of the snapshot. */
  predicate IsFileInput(key: string)
  {
    key == "photos" || key == "video"
  }

  /** Display names of the known form fields. */
  const FieldNames: map<string, string> := map[
    "landSize" := "Land Size (sq. ft.)",
    "price" := "Price (₹)",
    "propertyType" := "Property Type",
    "state" := "State",
    "district" := "District/Tehsil",
    "village" := "Village",
    "khasraNo" := "Khasra no./Khata no."
  ]

  /** The key that a JavaScript object treats as its prototype link. */
  const ProtoKey: string := "__proto__"

  /** Names every plain JavaScript object inherits from Object.prototype. */
  const PrototypeMembers: set<string> := {
    "constructor", "hasOwnProperty", "isPrototypeOf", "propertyIsEnumerable",
    "toLocaleString", "toString", "valueOf", "__proto__",
    "__defineGetter__", "__defineSetter__", "__lookupGetter__", "__lookupSetter__"
  }

  function Keys(obj: seq<Entry>): (ks: seq<string>)
    ensures |ks| == |obj|
    ensures forall i :: 0 <= i < |obj| ==> ks[i] == obj[i].key
    decreases |obj|
  {
    if |obj| == 0 then [] else [obj[0].key] + Keys(obj[1..])
  }

  /** No key occurs twice. */
  predicate DistinctKeys(obj: seq<Entry>)
    decreases |obj|
  {
    |obj| == 0 || (obj[0].key !in Keys(obj[1..]) && DistinctKeys(obj[1..]))
  }

  /** The value stored under `key`, if any. */
  function Lookup(obj: seq<Entry>, key: string): (r: Option<string>)
    ensures r.None? <==> key !in Keys(obj)
    ensures r.Some? ==> Entry(key, r.value) in obj
    decreases |obj|
  {
    if |obj| == 0 then None
    else if obj[0].key == key then Some(obj[0].value)
    else Lookup(obj[1..], key)
  }

  /** `obj[key] = value` on a plain object. */
  function Put(obj: seq<Entry>, key: string, value: string): (r: seq<Entry>)
    requires DistinctKeys(obj)
    ensures DistinctKeys(r)
    ensures Keys(r) == Keys(obj) + (if key in Keys(obj) then [] else [key])
    decreases |obj|
  {
    if |obj| == 0 then [Entry(key, value)]
    else if obj[0].key == key then
      var r := [Entry(key, value)] + obj[1..];
      assert r[1..] == obj[1..];
      r
    else
      var rest := Put(obj[1..], key, value);
      var r := [obj[0]] + rest;
      assert r[1..] == rest;
      assert Keys(obj) == [obj[0].key] + Keys(obj[1..]);
      r
  }

  /** After `obj[key] = value`, `key` holds `value` and every other key
      holds what it held before. */
  lemma {:induction false} PutLookup(obj: seq<Entry>, key: string, value: string, k: string)
    requires DistinctKeys(obj)
    ensures Lookup(Put(obj, key, value), k) == if k == key then Some(value) else Lookup(obj, k)
    decreases |obj|
  {
    if |obj| > 0 && obj[0].key != key {
      PutLookup(obj[1..], key, value, k);
      var r := Put(obj, key, value);
      assert r[1..] == Put(obj[1..], key, value);
    } else if |obj| > 0 {
      var r := Put(obj, key, value);
      assert r[1..] == obj[1..];
    }
  }

  /** The loop `for (const [key, value] of formData.entries())` that copies
      every entry `admits` lets through into a fresh object. */
  function Collect(entries: seq<Entry>, admits: string -> bool): (obj: seq<Entry>)
    ensures DistinctKeys(obj)
    decreases |entries|
  {
    if |entries| == 0 then []
    else
      var obj := Collect(entries[..|entries| - 1], admits);
      var e := entries[|entries| - 1];
      if admits(e.key) then Put(obj, e.key, e.value) else obj
  }

  /** Whether the submit handler copies a key: all but the file inputs. */
  predicate KeepsField(key: string)
  {
    !IsFileInput(key)
  }

  /** Whether a key survives the copy as the script does it: assigning a
      string to `formDataObj['__proto__']` is ignored by JavaScript, so that
      key is lost as well. */
  predicate KeepsFieldAsWritten(key: string)
  {
    !IsFileInput(key) && key != ProtoKey
  }

  /** The snapshot as intended: every entry but the two file inputs. */
  function Snapshot(entries: seq<Entry>): seq<Entry>
  {
    Collect(entries, KeepsField)
  }

  /** The snapshot as the script computes it. */
  function SnapshotAsWritten(entries: seq<Entry>): seq<Entry>
  {
    Collect(entries, KeepsFieldAsWritten)
  }

  /** The entries `admits` lets through, in form order, repeats included. */
  function Admitted(entries: seq<Entry>, admits: string -> bool): (r: seq<Entry>)
    ensures |r| <= |entries|
    ensures forall e :: e in r <==> e in entries && admits(e.key)
    decreases |entries|
  {
    if |entries| == 0 then []
    else
      var e := entries[|entries| - 1];
      assert entries == entries[..|entries| - 1] + [e];
      Admitted(entries[..|entries| - 1], admits) + (if admits(e.key) then [e] else [])
  }

  /** The keys of `ks` without repeats, each at its first occurrence. */
  function FirstOccurrences(ks: seq<string>): (r: seq<string>)
    ensures forall k :: k in r <==> k in ks
    decreases |ks|
  {
    if |ks| == 0 then []
    else
      var pre := FirstOccurrences(ks[..|ks| - 1]);
      var k := ks[|ks| - 1];
      assert ks == ks[..|ks| - 1] + [k];
      pre + (if k in ks[..|ks| - 1] then [] else [k])
  }

  /** The value of the last entry keyed `key`, if any. */
  function LastValue(entries: seq<Entry>, key: string): Option<string>
    decreases |entries|
  {
    if |entries| == 0 then None
    else if entries[|entries| - 1].key == key then Some(entries[|entries| - 1].value)
    else LastValue(entries[..|entries| - 1], key)
  }

  /** The display label of a key: its display name when it is one of the
      known fields, and the key itself otherwise. */
  function Label(key: string): string
  {
    if key in FieldNames then FieldNames[key] else key
  }

  /** What `fieldNames[key] || key` yields: a display name, the key, or a
      member inherited from Object.prototype, which is truthy and so wins
      over the key. */
  datatype LabelValue = Text(text: string) | Inherited(member: string)

  function LabelAsWritten(key: string): LabelValue
  {
    if key in FieldNames then Text(FieldNames[key])
    else if key in PrototypeMembers then Inherited(key)
    else Text(key)
  }

  /** The rows `[fieldNames[key] || key, value]`, one per snapshot entry,
      in snapshot order. */
  function TableRows(obj: seq<Entry>): (rows: seq<Row>)
    ensures |rows| == |obj|
    ensures forall i :: 0 <= i < |obj| ==>
              rows[i] == Row(if obj[i].key in FieldNames then FieldNames[obj[i].key] else obj[i].key,
                             obj[i].value)
    decreases |obj|
  {
    if |obj| == 0 then []
    else TableRows(obj[..|obj| - 1]) + [Row(Label(obj[|obj| - 1].key), obj[|obj| - 1].value)]
  }

}
