/**
 * Seed-managed tables of internal/datamigrate/merge.go: rows are merged by natural key,
 * ids are remapped, and references are resolved through the recorded translation.
 */
module MergeMap {
  import opened Common

  /** One row of a merge table: its id as text and its natural key. */
  datatype SrcRow = SrcRow(id: string, key: string)

  /** natural key -> destination id, and source id -> destination id where they differ. */
  datatype Ids = Ids(byKey: map<string, string>, remap: map<string, string>)

  // ---------- which texts are plain integers ----------

  const MAX_INT64 := 0x7fff_ffff_ffff_ffff

  /** Base-10 signed 64-bit parse succeeds. */
  predicate ParsesInt64(s: string) {
    var neg := s != "" && s[0] == '-';
    var digits := if s != "" && (s[0] == '-' || s[0] == '+') then s[1..] else s;
    digits != ""
    && (forall i | 0 <= i < |digits| :: IsDigit(digits[i]))
    && Value(digits) <= MAX_INT64 + if neg then 1 else 0
  }

  /** A signed or unsigned run of digits, leading zeros included. */
  ghost predicate Numeral(s: string, sign: string, digits: string) {
    s == sign + digits && sign in {"", "+", "-"} && digits != "" && AllDigits(digits)
  }

  /** A numeral parses exactly when its number fits into 64 bits with its sign. */
  lemma NumeralParsesExactly(s: string, sign: string, digits: string)
    requires Numeral(s, sign, digits)
    ensures ParsesInt64(s) <==>
            if sign == "-" then Value(digits) <= 9_223_372_036_854_775_808 else Value(digits) <= 9_223_372_036_854_775_807
  {
    assert s[0] == if sign == "" then digits[0] else sign[0];
    assert sign != "" ==> s[1..] == digits;
    assert sign == "" ==> s == digits;
  }

  /** Nothing but numerals parses. */
  lemma OnlyNumeralsParse(s: string)
    requires ParsesInt64(s)
    ensures exists sign, digits :: Numeral(s, sign, digits)
  {
    if s[0] == '-' || s[0] == '+' {
      assert s[..1] == [s[0]] && Numeral(s, s[..1], s[1..]);
    } else {
      assert "" + s == s && Numeral(s, "", s);
    }
  }

  /** Ids written in decimal parse exactly when they fit. */
  lemma DecimalParsesExactly(n: nat)
    ensures ParsesInt64(Decimal(n)) <==> n <= 9_223_372_036_854_775_807
    ensures ParsesInt64("-" + Decimal(n)) <==> n <= 9_223_372_036_854_775_808
  {
    ValueOfDecimal(n);
    assert "" + Decimal(n) == Decimal(n);
    NumeralParsesExactly(Decimal(n), "", Decimal(n));
    NumeralParsesExactly("-" + Decimal(n), "-", Decimal(n));
  }

  // ---------- specification ----------

  /** Merging one row; the flag says whether it is to be inserted. */
  function MergeOne(m: Ids, r: SrcRow): (Ids, bool) {
    if r.key in m.byKey then
      (if m.byKey[r.key] != r.id then m.(remap := m.remap[r.id := m.byKey[r.key]]) else m, false)
    else (m.(byKey := m.byKey[r.key := r.id]), true)
  }

  /** Insert with ON CONFLICT DO NOTHING: a taken id or key absorbs the row silently. */
  function InsertOrIgnore(dst: map<string, string>, r: SrcRow): map<string, string> {
    if r.key in dst || r.id in dst.Values then dst else dst[r.key := r.id]
  }

  function MergeAll(m: Ids, dst: map<string, string>, rows: seq<SrcRow>): (Ids, map<string, string>) {
    if rows == [] then (m, dst)
    else
      var (m1, dst1) := MergeAll(m, dst, rows[..|rows| - 1]);
      var r := rows[|rows| - 1];
      var (m2, insert) := MergeOne(m1, r);
      (m2, if insert then InsertOrIgnore(dst1, r) else dst1)
  }

  /** Keys of the destination that the map does not know yet are added; the rest stays. */
  function Refreshed(m: Ids, dst: map<string, string>): (u: Ids)
    ensures u.remap == m.remap && u.byKey.Keys == m.byKey.Keys + dst.Keys
    ensures forall k | k in u.byKey :: u.byKey[k] == if k in m.byKey then m.byKey[k] else dst[k]
  {
    m.(byKey := dst + m.byKey)
  }

  function Resolve(m: Ids, raw: string): Option<string> {
    if raw in m.remap then Some(m.remap[raw])
    else if ParsesInt64(raw) then Some(raw)
    else if raw in m.byKey then Some(m.byKey[raw])
    else None
  }

  // ---------- the code ----------

  class IDMap {
    var ByKey: map<string, string>
    var IDRemap: map<string, string>

    function View(): Ids
      reads this
    {
      Ids(ByKey, IDRemap)
    }

    /** The map as scanned from the destination table. */
    constructor (dst: map<string, string>)
      ensures View() == Ids(dst, map[])
    {
      ByKey := dst;
      IDRemap := map[];
    }

    method MergeRow(sqliteID: string, key: string) returns (insert: bool)
      modifies this
      ensures (View(), insert) == MergeOne(old(View()), SrcRow(sqliteID, key))
    {
      if key in ByKey {
        var pgID := ByKey[key];
        if pgID != sqliteID {
          IDRemap := IDRemap[sqliteID := pgID];
        }
        return false;
      }
      ByKey := ByKey[key := sqliteID];
      return true;
    }

    method ResolveRef(raw: string) returns (r: Option<string>)
      ensures r == Resolve(View(), raw)
    {
      if raw in IDRemap {
        return Some(IDRemap[raw]);
      }
      if ParsesInt64(raw) {
        return Some(raw);
      }
      if raw in ByKey {
        return Some(ByKey[raw]);
      }
      return None;
    }

    method Refresh(current: map<string, string>)
      modifies this
      ensures View() == Refreshed(old(View()), current)
    {
      var todo := current.Keys;
      ghost var start := ByKey;
      while todo != {}
        invariant todo <= current.Keys && IDRemap == old(IDRemap)
        invariant ByKey == (map k | k in current.Keys - todo :: current[k]) + start
        decreases todo
      {
        var k :| k in todo;
        if k !in ByKey {
          ByKey := ByKey[k := current[k]];
        }
        todo := todo - {k};
      }
      assert (map k | k in current.Keys - todo :: current[k]) == current;
    }
  }

  /** One merge table, row by row; returns the destination table and how many rows were new. */
  method CopyMergeTable(rows: seq<SrcRow>, im: IDMap, dst: map<string, string>)
    returns (dst': map<string, string>, copied: nat)
    modifies im
    ensures (im.View(), dst') == MergeAll(old(im.View()), dst, rows)
    ensures |dst'| == |dst| + copied
  {
    dst', copied := dst, 0;
    for i := 0 to |rows|
      invariant (im.View(), dst') == MergeAll(old(im.View()), dst, rows[..i])
      invariant |dst'| == |dst| + copied
    {
      assert rows[..i + 1][..i] == rows[..i];
      var insert := im.MergeRow(rows[i].id, rows[i].key);
      if insert && rows[i].key !in dst' && rows[i].id !in dst'.Values {
        dst' := dst'[rows[i].key := rows[i].id];
        copied := copied + 1;
      }
    }
    assert rows[..|rows|] == rows;
  }

  // ---------- what a reference means after the merge ----------

  /** The source table: numeric ids, non-numeric keys, both unique. */
  ghost predicate Clean(rows: seq<SrcRow>) {
    && (forall j | 0 <= j < |rows| :: ParsesInt64(rows[j].id) && !ParsesInt64(rows[j].key))
    && (forall i, j | 0 <= i < j < |rows| :: rows[i].id != rows[j].id && rows[i].key != rows[j].key)
  }

  /** A row is free of clashes when its key is already there or its id is not. */
  predicate NoClash(dst0: map<string, string>, r: SrcRow) {
    r.key in dst0 || r.id !in dst0.Values
  }

  /** What the merge has recorded after `rows`, read off row by row. */
  ghost predicate KeysRecorded(dst0: map<string, string>, rows: seq<SrcRow>, byKey: map<string, string>) {
    && (forall k | k in dst0 :: k in byKey && byKey[k] == dst0[k])
    && (forall r | r in rows && r.key !in dst0 :: r.key in byKey && byKey[r.key] == r.id)
    && (forall k | k in byKey :: k in dst0 || exists r :: r in rows && r.key == k)
  }

  ghost predicate RemapRecorded(dst0: map<string, string>, rows: seq<SrcRow>, remap: map<string, string>) {
    && (forall r | r in rows && Moves(dst0, r) :: r.id in remap && remap[r.id] == dst0[r.key])
    && (forall x | x in remap :: exists r :: r in rows && r.id == x && Moves(dst0, r))
  }

  ghost predicate RowsThere(dst0: map<string, string>, rows: seq<SrcRow>, dst: map<string, string>) {
    && (forall k | k in dst0 :: k in dst && dst[k] == dst0[k])
    && (forall r | r in rows && r.key !in dst0 && NoClash(dst0, r) :: r.key in dst && dst[r.key] == r.id)
    && (forall r | r in rows && !NoClash(dst0, r) :: r.key !in dst)
  }

  ghost predicate RowsFrom(dst0: map<string, string>, rows: seq<SrcRow>, dst: map<string, string>) {
    forall k | k in dst :: k in dst0 || exists r :: r in rows && r.key == k && r.id == dst[k]
  }

  ghost predicate RowsRecorded(dst0: map<string, string>, rows: seq<SrcRow>, dst: map<string, string>) {
    RowsThere(dst0, rows, dst) && RowsFrom(dst0, rows, dst)
  }

  /** The destination knows the row under another id. */
  predicate Moves(dst0: map<string, string>, r: SrcRow) {
    r.key in dst0 && dst0[r.key] != r.id
  }

  ghost predicate Recorded(dst0: map<string, string>, rows: seq<SrcRow>, m: Ids, dst: map<string, string>) {
    KeysRecorded(dst0, rows, m.byKey) && RemapRecorded(dst0, rows, m.remap) && RowsRecorded(dst0, rows, dst)
  }

  /** r shares neither id nor key with an earlier row. */
  ghost predicate New(rows: seq<SrcRow>, r: SrcRow) {
    forall q | q in rows :: q.id != r.id && q.key != r.key
  }

  lemma KnownKeys(dst0: map<string, string>, rows: seq<SrcRow>, r: SrcRow, m: Ids, dst: map<string, string>)
    requires Recorded(dst0, rows, m, dst) && New(rows, r)
    ensures r.key in m.byKey <==> r.key in dst0
    ensures r.key in m.byKey ==> m.byKey[r.key] == dst0[r.key]
    ensures r.key in dst <==> r.key in dst0
    ensures r.id in dst.Values <==> r.id in dst0.Values
  {
    if r.id in dst0.Values {
      var k :| k in dst0 && dst0[k] == r.id;
      assert dst[k] == r.id;
    }
  }

  lemma RemapStep(dst0: map<string, string>, rows: seq<SrcRow>, r: SrcRow, m: Ids, dst: map<string, string>)
    requires Recorded(dst0, rows, m, dst) && New(rows, r)
    ensures RemapRecorded(dst0, rows + [r], MergeOne(m, r).0.remap)
  {
    KnownKeys(dst0, rows, r, m, dst);
    var all, remap := rows + [r], MergeOne(m, r).0.remap;
    forall x | x in remap
      ensures exists q :: q in all && q.id == x && Moves(dst0, q)
    {
      if x in m.remap {
        var q :| q in rows && q.id == x && Moves(dst0, q);
        assert q in all;
      } else {
        assert r in all && r.id == x && Moves(dst0, r);
      }
    }
  }

  /** Every destination row after one more source row is an old one or comes from the source. */
  lemma RowsFromStep(dst0: map<string, string>, rows: seq<SrcRow>, r: SrcRow, dst: map<string, string>, dst': map<string, string>)
    requires RowsFrom(dst0, rows, dst) && (dst' == dst || dst' == dst[r.key := r.id])
    ensures RowsFrom(dst0, rows + [r], dst')
  {
    forall k | k in dst' && k !in dst0
      ensures exists q :: q in rows + [r] && q.key == k && q.id == dst'[k]
    {
      if k in dst && dst'[k] == dst[k] {
        var q :| q in rows && q.key == k && q.id == dst[k];
        assert q in rows + [r];
      } else {
        assert r in rows + [r];
      }
    }
  }

  lemma RowsStep(dst0: map<string, string>, rows: seq<SrcRow>, r: SrcRow, m: Ids, dst: map<string, string>)
    requires Recorded(dst0, rows, m, dst) && New(rows, r)
    ensures RowsRecorded(dst0, rows + [r], if MergeOne(m, r).1 then InsertOrIgnore(dst, r) else dst)
  {
    KnownKeys(dst0, rows, r, m, dst);
    var dst' := if MergeOne(m, r).1 then InsertOrIgnore(dst, r) else dst;
    RowsFromStep(dst0, rows, r, dst, dst');
    assert RowsThere(dst0, rows + [r], dst');
  }

  lemma KeysStep(dst0: map<string, string>, rows: seq<SrcRow>, r: SrcRow, m: Ids, dst: map<string, string>)
    requires Recorded(dst0, rows, m, dst) && New(rows, r)
    ensures KeysRecorded(dst0, rows + [r], MergeOne(m, r).0.byKey)
  {
    KnownKeys(dst0, rows, r, m, dst);
    assert forall q :: q in rows + [r] <==> q in rows || q == r;
  }

  lemma RecordedStep(dst0: map<string, string>, rows: seq<SrcRow>, r: SrcRow, m: Ids, dst: map<string, string>)
    requires Recorded(dst0, rows, m, dst) && New(rows, r)
    ensures var (m', insert) := MergeOne(m, r);
            Recorded(dst0, rows + [r], m', if insert then InsertOrIgnore(dst, r) else dst)
  {
    KeysStep(dst0, rows, r, m, dst);
    RemapStep(dst0, rows, r, m, dst);
    RowsStep(dst0, rows, r, m, dst);
  }

  lemma MergeAllSnoc(m: Ids, dst: map<string, string>, rows: seq<SrcRow>, r: SrcRow)
    ensures var (m1, dst1) := MergeAll(m, dst, rows);
            var (m2, insert) := MergeOne(m1, r);
            MergeAll(m, dst, rows + [r]) == (m2, if insert then InsertOrIgnore(dst1, r) else dst1)
  {
    assert (rows + [r])[..|rows|] == rows;
  }

  lemma {:induction false} RecordedAll(dst0: map<string, string>, rows: seq<SrcRow>)
    requires Clean(rows)
    ensures Recorded(dst0, rows, MergeAll(Ids(dst0, map[]), dst0, rows).0, MergeAll(Ids(dst0, map[]), dst0, rows).1)
  {
    if rows != [] {
      var n := |rows| - 1;
      var before, r := rows[..n], rows[n];
      RecordedAll(dst0, before);
      assert New(before, r);
      var (m, dst) := MergeAll(Ids(dst0, map[]), dst0, before);
      RecordedStep(dst0, before, r, m, dst);
      MergeAllSnoc(Ids(dst0, map[]), dst0, before, r);
      assert rows == before + [r];
    }
  }

  /**
   * After merge and refresh, a reference written as the source id, or as the natural key in
   * text, resolves to the destination row of the same natural key, exactly when the row was
   * free of clashes.  Ids may be permuted between source and destination in any way.
   */
  lemma ResolveNamesSameRow(dst0: map<string, string>, rows: seq<SrcRow>, r: SrcRow)
    requires Clean(rows) && r in rows
    ensures var (m0, dst) := MergeAll(Ids(dst0, map[]), dst0, rows);
            var m := Refreshed(m0, dst);
            && ((r.key in dst && Resolve(m, r.id) == Some(dst[r.key])) <==> NoClash(dst0, r))
            && ((r.key in dst && Resolve(m, r.key) == Some(dst[r.key])) <==> NoClash(dst0, r))
  {
    RecordedAll(dst0, rows);
    var (m0, dst) := MergeAll(Ids(dst0, map[]), dst0, rows);
    var m := Refreshed(m0, dst);
    if x :| x in m0.remap && (x == r.id || x == r.key) {
      var q :| q in rows && q.id == x && Moves(dst0, q);
      SameId(rows, q, r);
    }
  }

  lemma SameId(rows: seq<SrcRow>, q: SrcRow, r: SrcRow)
    requires Clean(rows) && q in rows && r in rows
    ensures q.id == r.id ==> q == r
    ensures q.id != r.key
  {
    var i :| 0 <= i < |rows| && rows[i] == q;
    var j :| 0 <= j < |rows| && rows[j] == r;
  }

  /** What any text resolves to, read off the source rows and the original destination. */
  ghost predicate Means(dst0: map<string, string>, rows: seq<SrcRow>, raw: string, id: Option<string>) {
    if exists r :: r in rows && r.id == raw && Moves(dst0, r) then
      exists r :: r in rows && r.id == raw && Moves(dst0, r) && id == Some(dst0[r.key])
    else if ParsesInt64(raw) then id == Some(raw)
    else if raw in dst0 then id == Some(dst0[raw])
    else if exists r :: r in rows && r.key == raw then exists r :: r in rows && r.key == raw && id == Some(r.id)
    else id == None
  }

  /**
   * Every text, a reference of some row or not: a source id that moved, then a plain id, then a
   * key of the destination, then a key of the source, and nothing else.
   */
  lemma {:induction false} ResolveExactly(dst0: map<string, string>, rows: seq<SrcRow>, raw: string)
    requires Clean(rows)
    ensures var (m0, dst) := MergeAll(Ids(dst0, map[]), dst0, rows);
            Means(dst0, rows, raw, Resolve(Refreshed(m0, dst), raw))
  {
    RecordedAll(dst0, rows);
    var (m0, dst) := MergeAll(Ids(dst0, map[]), dst0, rows);
    if raw in m0.remap {
      var q :| q in rows && q.id == raw && Moves(dst0, q);
    } else if !ParsesInt64(raw) && raw !in dst0 && raw in m0.byKey {
      var q :| q in rows && q.key == raw;
      assert m0.byKey[raw] == q.id;
    }
  }

  /** The ids of the source table, in decimal; the keys are no numerals. */
  ghost predicate Numbered(rows: seq<SrcRow>, ids: seq<nat>) {
    && |ids| == |rows|
    && (forall j | 0 <= j < |rows| :: rows[j].id == Decimal(ids[j]) && ids[j] <= 9_223_372_036_854_775_807)
    && (forall j, sign, digits | 0 <= j < |rows| :: !Numeral(rows[j].key, sign, digits))
    && (forall i, j | 0 <= i < j < |rows| :: ids[i] != ids[j] && rows[i].key != rows[j].key)
  }

  lemma NumberedIsClean(rows: seq<SrcRow>, ids: seq<nat>)
    requires Numbered(rows, ids)
    ensures Clean(rows)
  {
    forall j | 0 <= j < |rows|
      ensures ParsesInt64(rows[j].id) && !ParsesInt64(rows[j].key)
    {
      DecimalParsesExactly(ids[j]);
      if ParsesInt64(rows[j].key) { OnlyNumeralsParse(rows[j].key); }
    }
    forall i, j | 0 <= i < j < |rows|
      ensures rows[i].id != rows[j].id
    {
      ValueOfDecimal(ids[i]);
      ValueOfDecimal(ids[j]);
    }
  }

  /** The same for every table of 64-bit ids: a reference to row j, by number or by key, reaches the row it named. */
  lemma NumberedReferencesKept(dst0: map<string, string>, rows: seq<SrcRow>, ids: seq<nat>, j: nat)
    requires Numbered(rows, ids) && j < |rows|
    ensures var (m0, dst) := MergeAll(Ids(dst0, map[]), dst0, rows);
            var m, key := Refreshed(m0, dst), rows[j].key;
            && ((key in dst && Resolve(m, Decimal(ids[j])) == Some(dst[key])) <==> NoClash(dst0, rows[j]))
            && ((key in dst && Resolve(m, key) == Some(dst[key])) <==> NoClash(dst0, rows[j]))
  {
    NumberedIsClean(rows, ids);
    ResolveNamesSameRow(dst0, rows, rows[j]);
  }

  /** Destination rows keep their id, and a key that does not read as an id resolves to it. */
  lemma {:induction false} SeedsSurvive(dst0: map<string, string>, rows: seq<SrcRow>, k: string)
    requires Clean(rows) && k in dst0
    ensures var (m0, dst) := MergeAll(Ids(dst0, map[]), dst0, rows);
            && k in dst && dst[k] == dst0[k]
            && (!ParsesInt64(k) ==> Resolve(Refreshed(m0, dst), k) == Some(dst0[k]))
  {
    RecordedAll(dst0, rows);
    var (m0, dst) := MergeAll(Ids(dst0, map[]), dst0, rows);
    assert forall q | q in rows :: ParsesInt64(q.id);
  }

  /**
   * The clash that breaks it: source row 7 has a new key, but id 7 belongs to another
   * destination row.  The insert is absorbed and a reference to 7 names that other row.
   */
  lemma ClashNamesAnotherRow()
    ensures var dst0 := map["admin" := "7"];
            var rows := [SrcRow("7", "auditor")];
            var (m, dst) := MergeAll(Ids(dst0, map[]), dst0, rows);
            dst == dst0 && Resolve(Refreshed(m, dst), "7") == Some(dst["admin"]) && "auditor" !in dst
  {
    var dst0 := map["admin" := "7"];
    var rows := [SrcRow("7", "auditor")];
    assert rows[..0] == [] && MergeAll(Ids(dst0, map[]), dst0, rows[..0]) == (Ids(dst0, map[]), dst0);
    assert dst0["admin"] == "7" && "7" in dst0.Values;
    assert "7"[..0] == "" && Value("") == 0 && Value("7") == 7 && ParsesInt64("7");
  }
}
