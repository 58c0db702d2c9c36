/**
 * The quarantine of internal/datamigrate: an in-memory list with a key index, kept in
 * step with the `_migration_quarantine` table on the destination.
 */
module Quarantine {
  import opened Common
  import opened Utf8

  /** What identifies a quarantined row: its table and the recorded texts of its cells. */
  datatype QKey = QKey(table: string, row: seq<string>)

  datatype Entry = Entry(key: QKey, reason: string)

  // ---------- the recorded text of a cell ----------

  const MAX_CELL := 300
  const ELLIPSIS := "\U{E2}\U{80}\U{A6}" // the three bytes of the ellipsis character

  /** Cells are byte strings; long ones are cut after 300 bytes, wherever that falls. */
  function Trunc(s: string): string {
    if |s| > MAX_CELL then s[..MAX_CELL] + ELLIPSIS else s
  }

  function Recorded(s: string): string { Blank(Trunc(s)) }

  function QuarRow(cells: seq<string>): (row: seq<string>)
    ensures |row| == |cells| && forall i | 0 <= i < |cells| :: row[i] == Recorded(cells[i])
  {
    seq(|cells|, i requires 0 <= i < |cells| => Recorded(cells[i]))
  }

  lemma RecordedLong(s: string)
    requires |s| > 300
    ensures Recorded(s) == Blank(s[..300]) + ['\U{E2}', '\U{80}', '\U{A6}']
  {
    BlankAppend(s[..300], ELLIPSIS);
    assert Blank(ELLIPSIS) == ELLIPSIS by {
      assert CharLen(ELLIPSIS) == 3 && ELLIPSIS[..3] == ELLIPSIS && ELLIPSIS[3..] == "";
    }
  }

  /** Two cells are confused exactly when both are short, or both long and cut, and agree on all whole characters kept. */
  lemma RecordConfusesExactly(a: string, b: string)
    ensures Recorded(a) == Recorded(b) <==>
            if |a| > 300 && |b| > 300 then Blank(a[..300]) == Blank(b[..300])
            else |a| <= 300 && |b| <= 300 && Blank(a) == Blank(b)
  {
    if |a| > 300 { RecordedLong(a); }
    if |b| > 300 { RecordedLong(b); }
    if |a| > 300 && |b| > 300 {
      var p, q := Blank(a[..300]), Blank(b[..300]);
      assert (p + ELLIPSIS)[..300] == p && (q + ELLIPSIS)[..300] == q;
    }
  }

  /** The same in terms of characters: what is kept has the same characters, stray bytes being all alike. */
  lemma SameCharactersExactly(a: string, b: string)
    requires Bytes(a) && Bytes(b)
    ensures Recorded(a) == Recorded(b) <==>
            (|a| > 300 <==> |b| > 300)
            && if |a| > 300 then |b| > 300 && Chars(a[..300]) == Chars(b[..300]) else Chars(a) == Chars(b)
  {
    RecordConfusesExactly(a, b);
    if |a| > 300 && |b| > 300 { BlankExactly(a[..300], b[..300]); } else { BlankExactly(a, b); }
  }

  /** The destination's quarantine table; identical entries are stored once. */
  class QuarantineTable {
    var entries: set<Entry>

    constructor ()
      ensures entries == {}
    {
      entries := {};
    }

    /** Insert unless the identical entry is there; None is a statement failure. */
    method Record(e: Entry, fails: bool) returns (inserted: Option<bool>)
      modifies this
      ensures inserted == if fails then None else Some(e !in old(entries))
      ensures entries == if fails then old(entries) else old(entries) + {e}
    {
      if fails {
        return None;
      }
      inserted := Some(e !in entries);
      entries := entries + {e};
    }

    method Delete(key: QKey, fails: bool) returns (ok: bool)
      modifies this
      ensures ok == !fails
      ensures entries == if fails then old(entries) else WithoutKey(old(entries), key)
    {
      ok := !fails;
      if ok {
        entries := set e | e in entries && e.key != key;
      }
    }
  }

  function WithoutKey(entries: set<Entry>, key: QKey): set<Entry> {
    set e | e in entries && e.key != key
  }

  // ---------- one run over any starting table ----------

  /** Keys listed in memory and entries in the table. */
  datatype Records = Records(listed: set<QKey>, entries: set<Entry>)

  /** An entry that is in the table already is not listed. */
  function Noted(q: Records, e: Entry): Records {
    if e.key in q.listed || e in q.entries then q else Records(q.listed + {e.key}, q.entries + {e})
  }

  /** Only listed keys are cleared. */
  function Cleared(q: Records, key: QKey): Records {
    if key in q.listed then Records(q.listed - {key}, WithoutKey(q.entries, key)) else q
  }

  class Summary {
    var RowsCopied: nat
    var Quarantined: seq<Entry>
    var qkeys: map<QKey, nat>

    /** The index and the list are exact inverses. */
    ghost predicate Valid()
      reads this
    {
      Inverse(Quarantined, qkeys)
    }

    /** The list as a map from key to entry. */
    ghost function Listed(): map<QKey, Entry>
      requires Valid()
      reads this
    {
      ListedOf(Quarantined, qkeys)
    }

    /** List and table together. */
    ghost function Both(db: QuarantineTable): Records
      requires Valid()
      reads this, db
    {
      Records(Listed().Keys, db.entries)
    }

    constructor ()
      ensures Valid() && Listed() == map[] && Quarantined == [] && RowsCopied == 0
    {
      RowsCopied := 0;
      Quarantined := [];
      qkeys := map[];
    }

    method NoteQuarantined(e: Entry)
      requires Valid()
      modifies this`Quarantined, this`qkeys
      ensures Valid()
      ensures Listed() == if e.key in old(Listed()) then old(Listed()) else old(Listed())[e.key := e]
      ensures Quarantined == if e.key in old(qkeys) then old(Quarantined) else old(Quarantined) + [e]
    {
      if e.key in qkeys {
        return;
      }
      qkeys := qkeys[e.key := |Quarantined|];
      Quarantined := Quarantined + [e];
    }

    /** Records a row that could not be copied. */
    method Quar(db: QuarantineTable, e: Entry, fails: bool)
      requires Valid()
      modifies this`Quarantined, this`qkeys, db
      ensures Valid()
      ensures if e.key in old(Listed()) then
                Listed() == old(Listed()) && db.entries == old(db.entries)
              else
                && db.entries == (if fails then old(db.entries) else old(db.entries) + {e})
                && Listed() == if fails || e !in old(db.entries) then old(Listed())[e.key := e] else old(Listed())
      ensures !fails ==> Both(db) == Noted(old(Both(db)), e)
    {
      if e.key in qkeys {
        return;
      }
      var inserted := db.Record(e, fails);
      if inserted == None || inserted == Some(true) {
        NoteQuarantined(e);
      }
    }

    /** Removes the entry of a row that was copied after all: the last entry takes its place. */
    method Unquar(db: QuarantineTable, key: QKey, fails: bool)
      requires Valid()
      modifies this`Quarantined, this`qkeys, db
      ensures Valid()
      ensures if key in old(Listed()) && !fails then
                Listed() == old(Listed()) - {key} && db.entries == WithoutKey(old(db.entries), key)
              else
                Listed() == old(Listed()) && db.entries == old(db.entries)
      ensures !fails ==> Both(db) == Cleared(old(Both(db)), key)
    {
      if key !in qkeys {
        return;
      }
      var idx := qkeys[key];
      var ok := db.Delete(Quarantined[idx].key, fails);
      if !ok {
        return;
      }
      SwapRemoveInverse(Quarantined, qkeys, idx);
      ghost var list, index := Quarantined, qkeys;
      var last := |Quarantined| - 1;
      Quarantined := Quarantined[idx := Quarantined[last]];
      Quarantined := Quarantined[..last];
      qkeys := qkeys - {key};
      if idx < |Quarantined| {
        var moved := Quarantined[idx].key;
        qkeys := qkeys[moved := idx];
      }
      assert Quarantined == SwapRemove(list, idx) && qkeys == Reindexed(list, index, idx);
    }
  }

  ghost predicate Inverse(list: seq<Entry>, index: map<QKey, nat>) {
    && (forall k | k in index :: index[k] < |list| && list[index[k]].key == k)
    && (forall i | 0 <= i < |list| :: list[i].key in index && index[list[i].key] == i)
  }

  ghost function ListedOf(list: seq<Entry>, index: map<QKey, nat>): map<QKey, Entry>
    requires Inverse(list, index)
  {
    map k | k in index :: list[index[k]]
  }

  function SwapRemove(list: seq<Entry>, idx: nat): seq<Entry>
    requires idx < |list|
  {
    list[idx := list[|list| - 1]][..|list| - 1]
  }

  function Reindexed(list: seq<Entry>, index: map<QKey, nat>, idx: nat): map<QKey, nat>
    requires idx < |list|
  {
    var rest := index - {list[idx].key};
    if idx < |list| - 1 then rest[list[|list| - 1].key := idx] else rest
  }

  lemma SwapRemoveInverse(list: seq<Entry>, index: map<QKey, nat>, idx: nat)
    requires Inverse(list, index) && idx < |list|
    ensures Inverse(SwapRemove(list, idx), Reindexed(list, index, idx))
    ensures ListedOf(SwapRemove(list, idx), Reindexed(list, index, idx)) == ListedOf(list, index) - {list[idx].key}
    ensures Reindexed(list, index, idx).Keys == index.Keys - {list[idx].key}
  {
    var list', index' := SwapRemove(list, idx), Reindexed(list, index, idx);
    forall k | k in index'
      ensures k in index && index'[k] < |list'| && list'[index'[k]] == list[index[k]]
    {
    }
    forall i | 0 <= i < |list'|
      ensures list'[i].key in index' && index'[list'[i].key] == i
    {
      assert list'[i] == if i == idx then list[|list| - 1] else list[i];
    }
  }

  /** The index has one entry per list entry, and no key is listed twice. */
  lemma {:induction false} InverseSameSize(list: seq<Entry>, index: map<QKey, nat>)
    requires Inverse(list, index)
    ensures |index| == |list|
    ensures forall i, j | 0 <= i < j < |list| :: list[i].key != list[j].key
    decreases |list|
  {
    if list == [] {
      if k :| k in index { assert false; }
    } else {
      var last := |list| - 1;
      SwapRemoveInverse(list, index, last);
      assert SwapRemove(list, last) == list[..last];
      InverseSameSize(list[..last], Reindexed(list, index, last));
      assert index.Keys == Reindexed(list, index, last).Keys + {list[last].key};
      assert |index| == |index.Keys| && |Reindexed(list, index, last)| == |Reindexed(list, index, last).Keys|;
    }
  }

  // ---------- list and table in step ----------

  /** The table holds the listed entries and, besides them, only what it held at the start. */
  ghost predicate InStep(start: set<Entry>, listed: map<QKey, Entry>, entries: set<Entry>) {
    && (forall k | k in listed :: listed[k].key == k && listed[k] in entries)
    && (forall e | e in entries :: e in start || (e.key in listed && listed[e.key] == e))
  }

  lemma QuarKeepsStep(start: set<Entry>, listed: map<QKey, Entry>, entries: set<Entry>, e: Entry)
    requires InStep(start, listed, entries) && e.key !in listed && e !in entries
    ensures InStep(start, listed[e.key := e], entries + {e})
  {
  }

  lemma UnquarKeepsStep(start: set<Entry>, listed: map<QKey, Entry>, entries: set<Entry>, key: QKey)
    requires InStep(start, listed, entries)
    ensures InStep(start, listed - {key}, WithoutKey(entries, key))
  {
  }
}
