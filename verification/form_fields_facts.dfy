/**
 What the snapshot and the table promise: which entries reach the
 snapshot, in which order and with which value, and how the table rows
 and labels follow from it.
 */
module FormFieldsFacts {
  import opened Wrappers
  import opened FormFields

  lemma KeysAppend(obj: seq<Entry>, e: Entry)
    ensures Keys(obj + [e]) == Keys(obj) + [e.key]
  {
  }

  /** Snapshot keys come in the order of their first admitted occurrence
      in the form. */
  lemma {:induction false} CollectKeyOrder(entries: seq<Entry>, admits: string -> bool)
    ensures Keys(Collect(entries, admits)) == FirstOccurrences(Keys(Admitted(entries, admits)))
    decreases |entries|
  {
    if |entries| > 0 {
      var pre := entries[..|entries| - 1];
      var e := entries[|entries| - 1];
      CollectKeyOrder(pre, admits);
      var a0 := Admitted(pre, admits);
      var ks := Keys(Admitted(entries, admits));
      if admits(e.key) {
        assert Admitted(entries, admits) == a0 + [e];
        KeysAppend(a0, e);
        assert ks[..|ks| - 1] == Keys(a0) && ks[|ks| - 1] == e.key;
        var obj := Collect(pre, admits);
        assert Collect(entries, admits) == Put(obj, e.key, e.value);
        assert (e.key in Keys(obj)) == (e.key in Keys(a0));
      } else {
        assert Admitted(entries, admits) == a0;
      }
    }
  }

  /** Every admitted key holds the value of its last occurrence in the
      form; no other key is present. */
  lemma {:induction false} CollectValues(entries: seq<Entry>, admits: string -> bool, key: string)
    ensures Lookup(Collect(entries, admits), key) == if admits(key) then LastValue(entries, key) else None
    decreases |entries|
  {
    if |entries| > 0 {
      var pre := entries[..|entries| - 1];
      var e := entries[|entries| - 1];
      CollectValues(pre, admits, key);
      if admits(e.key) {
        PutLookup(Collect(pre, admits), e.key, e.value, key);
      }
    }
  }

  /** When no key repeats, the snapshot is exactly the admitted entries in
      form order. */
  lemma {:induction false} CollectDistinct(entries: seq<Entry>, admits: string -> bool)
    requires DistinctKeys(Admitted(entries, admits))
    ensures Collect(entries, admits) == Admitted(entries, admits)
    decreases |entries|
  {
    if |entries| > 0 {
      var pre := entries[..|entries| - 1];
      var e := entries[|entries| - 1];
      var a, a0 := Admitted(entries, admits), Admitted(pre, admits);
      if admits(e.key) {
        assert a == a0 + [e];
        assert a[..|a| - 1] == a0;
        DistinctPrefix(a);
        DistinctLast(a);
        CollectDistinct(pre, admits);
        PutFresh(a0, e.key, e.value);
      } else {
        assert a == a0;
        CollectDistinct(pre, admits);
      }
    }
  }

  lemma {:induction false} DistinctPrefix(obj: seq<Entry>)
    requires DistinctKeys(obj) && |obj| > 0
    ensures DistinctKeys(obj[..|obj| - 1])
    decreases |obj|
  {
    if |obj| > 1 {
      DistinctPrefix(obj[1..]);
      assert obj[1..][..|obj| - 2] == obj[..|obj| - 1][1..];
      assert obj[0].key !in Keys(obj[..|obj| - 1][1..]);
    }
  }

  /** Distinct keys, stated by position. */
  lemma {:induction false} DistinctAt(obj: seq<Entry>, i: nat, j: nat)
    requires DistinctKeys(obj) && i < j < |obj|
    ensures obj[i].key != obj[j].key
    decreases |obj|
  {
    if i == 0 {
      assert Keys(obj[1..])[j - 1] == obj[j].key;
    } else {
      DistinctAt(obj[1..], i - 1, j - 1);
    }
  }

  lemma DistinctLast(obj: seq<Entry>)
    requires DistinctKeys(obj) && |obj| > 0
    ensures obj[|obj| - 1].key !in Keys(obj[..|obj| - 1])
  {
    var init := obj[..|obj| - 1];
    forall i | 0 <= i < |init|
      ensures Keys(init)[i] != obj[|obj| - 1].key
    {
      DistinctAt(obj, i, |obj| - 1);
    }
  }

  /** Assigning a key the object does not have appends it. */
  lemma {:induction false} PutFresh(obj: seq<Entry>, key: string, value: string)
    requires DistinctKeys(obj) && key !in Keys(obj)
    ensures Put(obj, key, value) == obj + [Entry(key, value)]
    decreases |obj|
  {
    if |obj| > 0 {
      PutFresh(obj[1..], key, value);
    }
  }

  /** The snapshot holds a key exactly when some form entry has it and it
      is not a file input, with the value of that key's last entry, and
      keys appear in the order they first occur in the form. */
  lemma SnapshotContents(entries: seq<Entry>, key: string)
    ensures key in Keys(Snapshot(entries)) <==>
              !IsFileInput(key) && exists i :: 0 <= i < |entries| && entries[i].key == key
    ensures !IsFileInput(key) ==> Lookup(Snapshot(entries), key) == LastValue(entries, key)
    ensures Keys(Snapshot(entries)) == FirstOccurrences(Keys(Admitted(entries, KeepsField)))
  {
    CollectValues(entries, KeepsField, key);
    CollectKeyOrder(entries, KeepsField);
    if !IsFileInput(key) && exists i :: 0 <= i < |entries| && entries[i].key == key {
      var i :| 0 <= i < |entries| && entries[i].key == key;
      LastValueFound(entries, key, i);
    }
  }

  lemma {:induction false} LastValueFound(entries: seq<Entry>, key: string, i: nat)
    requires i < |entries| && entries[i].key == key
    ensures LastValue(entries, key).Some?
    decreases |entries|
  {
    if i < |entries| - 1 {
      LastValueFound(entries[..|entries| - 1], key, i);
    }
  }

  /** A form whose field names do not repeat yields a snapshot that is the
      form's entries, file inputs dropped, in form order. */
  lemma SnapshotOfDistinctFields(entries: seq<Entry>)
    requires DistinctKeys(Admitted(entries, KeepsField))
    ensures Snapshot(entries) == Admitted(entries, KeepsField)
  {
    CollectDistinct(entries, KeepsField);
  }

  /** The script drops a field named `__proto__`, which the intended
      snapshot keeps. */
  lemma ProtoFieldLost()
    ensures SnapshotAsWritten([Entry(ProtoKey, "x")]) == []
    ensures Snapshot([Entry(ProtoKey, "x")]) == [Entry(ProtoKey, "x")]
  {
    var e := [Entry(ProtoKey, "x")];
    assert e[..0] == [];
    assert !KeepsFieldAsWritten(ProtoKey) && KeepsField(ProtoKey);
    assert Collect(e, KeepsField) == Put([], ProtoKey, "x");
    assert Collect(e, KeepsFieldAsWritten) == Collect(e[..0], KeepsFieldAsWritten);
  }

  /** The script's snapshot and the intended one agree on every form
      without a `__proto__` field. */
  lemma {:induction false} SnapshotsAgreeWithoutProto(entries: seq<Entry>)
    requires forall i :: 0 <= i < |entries| ==> entries[i].key != ProtoKey
    ensures SnapshotAsWritten(entries) == Snapshot(entries)
    decreases |entries|
  {
    if |entries| > 0 {
      SnapshotsAgreeWithoutProto(entries[..|entries| - 1]);
    }
  }

  /** The script's label and the intended one agree except on names every
      JavaScript object inherits, where the script's is not the key. */
  lemma LabelsAgreeOffPrototype(key: string)
    ensures key !in PrototypeMembers ==> LabelAsWritten(key) == Text(Label(key))
    ensures key in PrototypeMembers ==> LabelAsWritten(key) == Inherited(key)
  {
    assert forall k :: k in FieldNames ==> k !in PrototypeMembers;
  }

}
