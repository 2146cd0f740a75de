/** Use cases as the database tool writes them, and that the two-level search sees exactly these. */
module GkvFile {
  import opened Bytes
  import opened CalKeys
  import opened GkvIndex

  /** One use case under a key list: its values, and where its graph is. */
  datatype Case = Case(values: seq<u32>, info: GraphInfo)

  /** One key list with the table of its use cases. */
  datatype KeyRow = KeyRow(keys: seq<u32>, lutOff: u32, cases: seq<Case>)

  /** The key lists of one length. */
  datatype KeyTable = KeyTable(numKeys: u32, rows: seq<KeyRow>)

  function CaseWords(c: Case): seq<u32> {
    c.values + [c.info.sgList, c.info.sgData]
  }

  function ValueTableHead(r: KeyRow): seq<u32> {
    [Low32(|r.keys|), Low32(|r.cases|)]
  }

  function ValueTableWords(r: KeyRow): seq<u32> {
    ValueTableHead(r) + Flat(CaseWords, r.cases)
  }

  function KeyRowWords(r: KeyRow): seq<u32> {
    r.keys + [r.lutOff]
  }

  function KeyTableHead(t: KeyTable): seq<u32> {
    [t.numKeys, Low32(|t.rows|)]
  }

  function KeyTableWords(t: KeyTable): seq<u32> {
    KeyTableHead(t) + Flat(KeyRowWords, t.rows)
  }

  /** The value table of a key list is where the list points to. */
  predicate RowStored(db: GkvDb, numKeys: u32, r: KeyRow) {
    && |r.keys| == numKeys && |r.cases| < WORD_LIMIT
    && (forall k | 0 <= k < |r.cases| :: |r.cases[k].values| == numKeys)
    && WordsAt(db.file, db.lut + r.lutOff, ValueTableWords(r))
  }

  predicate TableStored(db: GkvDb, t: KeyTable) {
    |t.rows| < WORD_LIMIT && forall j | 0 <= j < |t.rows| :: RowStored(db, t.numKeys, t.rows[j])
  }

  predicate Stored(db: GkvDb, ts: seq<KeyTable>) {
    && NumTables(db) == |ts| && WordsAt(db.file, db.keyTbl + 4, Flat(KeyTableWords, ts))
    && forall i | 0 <= i < |ts| :: TableStored(db, ts[i])
  }

  // ---------------------------------------------------------------- rows of one width

  lemma RowAt<T>(f: T -> seq<u32>, xs: seq<T>, width: nat, file: seq<byte>, off: nat, k: nat)
    requires WordsAt(file, off, Flat(f, xs)) && k < |xs| && forall i | 0 <= i < |xs| :: |f(xs[i])| == width
    ensures RowsAt(file, off, |xs|, width)[k] == f(xs[k])
  {
    hide Word, Flat, WordList;
    WordsAtFlat(f, xs, k, file, off);
    assert forall i | 0 <= i < k :: xs[..k][i] == xs[i];
    FlatLength(f, xs[..k], width);
    assert 4 * (k * width) == k * (4 * width);
  }

  lemma CaseWidths(r: KeyRow, n: nat)
    requires forall k | 0 <= k < |r.cases| :: |r.cases[k].values| == n
    ensures forall k | 0 <= k < |r.cases| :: |CaseWords(r.cases[k])| == n + 2
  {
  }

  /** A value table reads back row by row. */
  lemma ValueTableRead(db: GkvDb, numKeys: u32, r: KeyRow)
    requires RowStored(db, numKeys, r)
    ensures Word(db.file, db.lut + r.lutOff) == numKeys && |ValueRows(db, r.lutOff)| == |r.cases|
    ensures forall k | 0 <= k < |r.cases| :: ValueRows(db, r.lutOff)[k] == CaseWords(r.cases[k])
  {
    hide Word, Flat, WordList, WordsAt, RowsAt, CaseWords;
    var off := db.lut + r.lutOff;
    WordsAtIndex(db.file, off, ValueTableWords(r), 0);
    WordsAtIndex(db.file, off, ValueTableWords(r), 1);
    WordsAtConcat(db.file, off, ValueTableHead(r), Flat(CaseWords, r.cases));
    CaseWidths(r, numKeys);
    forall k | 0 <= k < |r.cases|
      ensures ValueRows(db, r.lutOff)[k] == CaseWords(r.cases[k])
    {
      RowAt(CaseWords, r.cases, numKeys + 2, db.file, off + 8, k);
    }
  }

  lemma KeyRowWidths(db: GkvDb, t: KeyTable)
    requires TableStored(db, t)
    ensures forall j | 0 <= j < |t.rows| :: |t.rows[j].keys| == t.numKeys && |KeyRowWords(t.rows[j])| == t.numKeys + 1
    ensures |KeyTableWords(t)| == 2 + |t.rows| * (t.numKeys + 1)
  {
    hide Flat, WordsAt;
    assert forall j | 0 <= j < |t.rows| :: RowStored(db, t.numKeys, t.rows[j]);
    FlatLength(KeyRowWords, t.rows, t.numKeys + 1);
  }

  /** Where the key tables are: each behind the rows of the one before. */
  lemma {:induction false} TableOffRead(db: GkvDb, ts: seq<KeyTable>, i: nat)
    requires Stored(db, ts) && i <= |ts|
    ensures TableOff(db, i) == db.keyTbl + 4 + 4 * |Flat(KeyTableWords, ts[..i])|
    ensures i < |ts| ==> NumKeys(db, i) == ts[i].numKeys && Word(db.file, TableOff(db, i) + 4) == |ts[i].rows|
  {
    hide Word, Flat, WordsAt, TableStored, KeyTableWords;
    if i > 0 {
      TableOffRead(db, ts, i - 1);
      WordsAtFlat(KeyTableWords, ts, i - 1, db.file, db.keyTbl + 4);
      KeyRowWidths(db, ts[i - 1]);
      var rows, width := |ts[i - 1].rows|, ts[i - 1].numKeys + 1;
      assert 4 * (rows * width) == RowsSize(rows, width);
    } else {
      NoTables(ts);
    }
    if i < |ts| {
      WordsAtFlat(KeyTableWords, ts, i, db.file, db.keyTbl + 4);
      KeyTableStart(db, ts[i], TableOff(db, i));
    }
  }

  lemma KeyTableStart(db: GkvDb, t: KeyTable, off: nat)
    requires TableStored(db, t) && WordsAt(db.file, off, KeyTableWords(t))
    ensures Word(db.file, off) == t.numKeys && Word(db.file, off + 4) == |t.rows|
    ensures WordsAt(db.file, off + 8, Flat(KeyRowWords, t.rows))
  {
    hide Word, Flat, WordsAt, RowStored;
    WordsAtIndex(db.file, off, KeyTableWords(t), 0);
    WordsAtIndex(db.file, off, KeyTableWords(t), 1);
    WordsAtConcat(db.file, off, KeyTableHead(t), Flat(KeyRowWords, t.rows));
  }

  lemma NoTables(ts: seq<KeyTable>)
    ensures Flat(KeyTableWords, ts[..0]) == []
  {
  }

  /** A key table reads back row by row. */
  lemma KeyTableRead(db: GkvDb, ts: seq<KeyTable>, i: nat)
    requires Stored(db, ts) && i < |ts|
    ensures NumKeys(db, i) == ts[i].numKeys && |KeyRows(db, i)| == |ts[i].rows|
    ensures forall j | 0 <= j < |ts[i].rows| :: KeyRows(db, i)[j] == KeyRowWords(ts[i].rows[j])
  {
    hide Word, Flat, WordsAt, TableStored, KeyTableWords, KeyRowWords, RowsAt, TableOff;
    TableOffRead(db, ts, i);
    WordsAtFlat(KeyTableWords, ts, i, db.file, db.keyTbl + 4);
    KeyTableStart(db, ts[i], TableOff(db, i));
    KeyRowWidths(db, ts[i]);
    forall j | 0 <= j < |ts[i].rows|
      ensures KeyRows(db, i)[j] == KeyRowWords(ts[i].rows[j])
    {
      RowAt(KeyRowWords, ts[i].rows, ts[i].numKeys + 1, db.file, TableOff(db, i) + 8, j);
    }
  }

  // ---------------------------------------------------------------- the use cases

  function CasesOfRow(r: KeyRow): (us: seq<UseCase>)
    ensures |us| == |r.cases|
  {
    seq(|r.cases|, k requires 0 <= k < |r.cases| => UseCase(r.keys, r.cases[k].values, r.cases[k].info))
  }

  function CasesOfTable(t: KeyTable): seq<UseCase> {
    Flat(CasesOfRow, t.rows)
  }

  function AllCases(ts: seq<KeyTable>): seq<UseCase> {
    Flat(CasesOfTable, ts)
  }

  lemma RowCases(db: GkvDb, numKeys: u32, r: KeyRow)
    requires RowStored(db, numKeys, r)
    ensures |ValueRows(db, r.lutOff)| == |r.cases|
    ensures UseCasesUnder(db, r.keys, r.lutOff, |r.cases|) == CasesOfRow(r)
  {
    hide Word, Flat, WordList, WordsAt, RowsAt, ValueRows;
    ValueTableRead(db, numKeys, r);
  }

  lemma KeyRowParts(r: KeyRow, n: nat)
    requires |r.keys| == n
    ensures |KeyRowWords(r)| == n + 1 && KeyRowWords(r)[..n] == r.keys && KeyRowWords(r)[n] == r.lutOff
  {
  }

  lemma {:induction false} TableCases(db: GkvDb, ts: seq<KeyTable>, i: nat, j: nat)
    requires Stored(db, ts) && i < |ts| && j <= |ts[i].rows| == |KeyRows(db, i)|
    ensures UseCasesOfRows(db, i, j) == Flat(CasesOfRow, ts[i].rows[..j])
  {
    hide Stored, KeyRows, NumKeys, UseCasesUnder, CasesOfRow, ValueRows, RowStored, KeyRowWords;
    if j > 0 {
      var rows, n := ts[i].rows, ts[i].numKeys;
      TableCases(db, ts, i, j - 1);
      KeyTableRead(db, ts, i);
      StoredRow(db, ts, i, j - 1);
      RowCases(db, n, rows[j - 1]);
      KeyRowParts(rows[j - 1], n);
      assert rows[..j][..j - 1] == rows[..j - 1];
    }
  }

  lemma StoredRow(db: GkvDb, ts: seq<KeyTable>, i: nat, j: nat)
    requires Stored(db, ts) && i < |ts| && j < |ts[i].rows|
    ensures RowStored(db, ts[i].numKeys, ts[i].rows[j]) && |ts[i].rows[j].keys| == ts[i].numKeys
  {
    assert TableStored(db, ts[i]);
  }

  lemma {:induction false} CasesUpTo(db: GkvDb, ts: seq<KeyTable>, i: nat)
    requires Stored(db, ts) && i <= |ts|
    ensures UseCases(db, i) == Flat(CasesOfTable, ts[..i])
  {
    hide Stored, KeyRows, NumKeys, UseCasesOfRows;
    if i > 0 {
      CasesUpTo(db, ts, i - 1);
      KeyTableRead(db, ts, i - 1);
      TableCases(db, ts, i - 1, |ts[i - 1].rows|);
      assert ts[i - 1].rows[..|ts[i - 1].rows|] == ts[i - 1].rows;
      assert ts[..i][..i - 1] == ts[..i - 1];
    }
  }

  /** The flat table of the database is the list of the use cases stored, in their order. */
  lemma UseCasesRead(db: GkvDb, ts: seq<KeyTable>)
    requires Stored(db, ts)
    ensures UseCases(db, NumTables(db)) == AllCases(ts)
  {
    hide UseCases, Flat, TableStored;
    CasesUpTo(db, ts, |ts|);
    assert ts[..|ts|] == ts;
  }

  /** The use case is stored under this key vector. */
  predicate IsUnder(u: UseCase, kvs: seq<KeyValue>) {
    && |u.keys| == |u.values| == |kvs|
    && forall i | 0 <= i < |kvs| :: u.keys[i] == kvs[i].key && u.values[i] == kvs[i].value
  }

  lemma UnderVector(u: UseCase, kvs: seq<KeyValue>)
    ensures IsUnder(u, kvs) <==> u.keys == KeysOf(kvs) && u.values == ValuesOf(kvs)
  {
    if u.keys == KeysOf(kvs) && u.values == ValuesOf(kvs) {
      assert forall i | 0 <= i < |kvs| :: u.keys[i] == KeysOf(kvs)[i] && u.values[i] == ValuesOf(kvs)[i];
    }
  }

  /** The two-level search finds the first stored use case with the key vector, and where its graph is. */
  lemma StoredCaseFound(db: GkvDb, ts: seq<KeyTable>, kvs: seq<KeyValue>, k: nat)
    requires Stored(db, ts) && WellFormed(db) && k <= |AllCases(ts)|
    requires forall j | 0 <= j < k :: !IsUnder(AllCases(ts)[j], kvs)
    ensures k == |AllCases(ts)| ==> TwoLevel(db, KeysOf(kvs), ValuesOf(kvs)) == None
    ensures k < |AllCases(ts)| && IsUnder(AllCases(ts)[k], kvs) ==>
      TwoLevel(db, KeysOf(kvs), ValuesOf(kvs)) == Some(AllCases(ts)[k].info)
  {
    hide UseCases, AllCases, Stored, WellFormed, TwoLevel, LinearScan, IsUnder;
    UseCasesRead(db, ts);
    TwoLevelIsFlat(db, KeysOf(kvs), ValuesOf(kvs));
    var us := AllCases(ts);
    forall j | 0 <= j < |us|
      ensures IsUnder(us[j], kvs) <==> us[j].keys == KeysOf(kvs) && us[j].values == ValuesOf(kvs)
    {
      UnderVector(us[j], kvs);
    }
    if k < |us| && IsUnder(us[k], kvs) {
      ScanFirst(us, KeysOf(kvs), ValuesOf(kvs), k);
    }
  }
}
