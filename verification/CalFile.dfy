/** Audio calibration tables as the database tool writes them, and that the query reads them back. */
module CalFile {
  import opened Bytes
  import opened Search
  import opened CalKeys
  import opened CalFind
  import opened CalRefs
  import opened CalWalk

  // ---------------------------------------------------------------- a key table and its value table

  /** One row of a value table: the values, and where the DEF, DOT and DOT2 tables are. */
  datatype ValueRow = ValueRow(values: seq<u32>, defOff: u32, dotOff: u32, dot2Off: u32)

  function RowWords(r: ValueRow): seq<u32> {
    r.values + [r.defOff, r.dotOff, r.dot2Off]
  }

  function TableHead(keys: seq<u32>, rows: seq<ValueRow>): seq<u32> {
    [Low32(|keys|), Low32(|rows|)]
  }

  /** The file has these keys and rows where the table reference points to. */
  predicate TableIn(db: CalDb, t: TableRef, keys: seq<u32>, rows: seq<ValueRow>) {
    && |keys| < WORD_LIMIT && |rows| < WORD_LIMIT && (forall i | 0 <= i < |rows| :: |rows[i].values| == |keys|)
    && At(db.file, db.keyTbl + t.keyOff, Words([Low32(|keys|)] + keys))
    && At(db.file, db.lut + t.lutOff, Words(TableHead(keys, rows) + Flat(RowWords, rows)))
  }

  lemma KeysRead(db: CalDb, t: TableRef, keys: seq<u32>, rows: seq<ValueRow>)
    requires TableIn(db, t, keys, rows)
    ensures KeyIds(db, t) == keys && RowCount(db, t) == |rows| && Word(db.file, db.lut + t.lutOff) == |keys|
  {
    hide At, Words, Word, Flat;
    var ks, vs := [Low32(|keys|)] + keys, TableHead(keys, rows) + Flat(RowWords, rows);
    WordRead(db.file, db.keyTbl + t.keyOff, ks, 0);
    WordsRead(db.file, db.keyTbl + t.keyOff, ks, 1, |keys|);
    assert ks[1..1 + |keys|] == keys;
    WordRead(db.file, db.lut + t.lutOff, vs, 0);
    WordRead(db.file, db.lut + t.lutOff, vs, 1);
  }

  lemma RowsIn(db: CalDb, t: TableRef, keys: seq<u32>, rows: seq<ValueRow>)
    requires TableIn(db, t, keys, rows)
    ensures WordsAt(db.file, db.lut + t.lutOff + 8, Flat(RowWords, rows))
  {
    hide At, Words, Word, Flat, WordList;
    var head, words := TableHead(keys, rows), Flat(RowWords, rows);
    WordListAt(db.file, db.lut + t.lutOff, head + words);
    WordsAtConcat(db.file, db.lut + t.lutOff, head, words);
  }

  lemma RowStart(rows: seq<ValueRow>, n: nat, i: nat)
    requires i < |rows| && forall j | 0 <= j < |rows| :: |rows[j].values| == n
    ensures |RowWords(rows[i])| == n + 3 && 4 * |Flat(RowWords, rows[..i])| == i * (4 * (n + 3))
  {
    assert forall j | 0 <= j < i :: rows[..i][j] == rows[j];
    FlatLength(RowWords, rows[..i], n + 3);
    assert 4 * (i * (n + 3)) == i * (4 * (n + 3));
  }

  /** Row i of the table. */
  lemma RowRead(db: CalDb, t: TableRef, keys: seq<u32>, rows: seq<ValueRow>, i: nat)
    requires TableIn(db, t, keys, rows) && i < |rows|
    ensures WordList(db.file, RowOffset(db, t, |keys|, i), |keys| + 3) == RowWords(rows[i])
  {
    hide At, Words, Word, Flat, WordList, RowWords;
    RowsIn(db, t, keys, rows);
    WordsAtFlat(RowWords, rows, i, db.file, db.lut + t.lutOff + 8);
    RowStart(rows, |keys|, i);
  }

  /** The row has the value of every key of the table in the vector. */
  predicate RowFits(r: ValueRow, keys: seq<u32>, ckv: seq<KeyValue>) {
    |r.values| == |keys| && forall k | 0 <= k < |keys| :: Lookup(ckv, keys[k]) == Some(r.values[k])
  }

  lemma FittingValues(r: ValueRow, keys: seq<u32>, ckv: seq<KeyValue>)
    requires Covers(ckv, keys)
    ensures RowFits(r, keys, ckv) <==> r.values == Values(keys, ckv)
  {
    if r.values == Values(keys, ckv) {
      assert forall k | 0 <= k < |keys| :: r.values[k] == Values(keys, ckv)[k];
    }
  }

  /** Each key with the value of the row. */
  function RowPairs(r: ValueRow, keys: seq<u32>): seq<KeyValue>
    requires |r.values| == |keys|
  {
    seq(|keys|, k requires 0 <= k < |keys| => KeyValue(keys[k], r.values[k]))
  }

  /**
    What a key vector with all keys of the table selects: the first row with its values, by the DEF and the DOT
    offset of that row, or nothing if there is no such row.
   */
  lemma SelectedMeans(db: CalDb, t: TableRef, keys: seq<u32>, rows: seq<ValueRow>, ckv: seq<KeyValue>, i: nat)
    requires TableIn(db, t, keys, rows) && Covers(ckv, keys) && i <= |rows|
    requires forall j | 0 <= j < i :: !RowFits(rows[j], keys, ckv)
    ensures i == |rows| ==> Selected(db, t, ckv) == Missing
    ensures i < |rows| && RowFits(rows[i], keys, ckv) ==>
      Selected(db, t, ckv) == Match(RowPairs(rows[i], keys), rows[i].defOff, rows[i].dotOff)
  {
    hide At, Words, Word, Flat, WordList, RowOffset, TableIn, Covers, RowFits;
    KeysRead(db, t, keys, rows);
    var n, words := |keys|, Rows(db, t, |keys|);
    forall j | 0 <= j < |rows|
      ensures words[j] == RowWords(rows[j]) && words[j][..n] == rows[j].values
      ensures RowFits(rows[j], keys, ckv) <==> rows[j].values == Values(keys, ckv)
    {
      RowRead(db, t, keys, rows, j);
      RowOfTable(db, t, keys, rows, j);
      FittingValues(rows[j], keys, ckv);
    }
    var values := Values(keys, ckv);
    assert values[..n] == values;
    if i < |rows| && rows[i].values == values {
      assert FirstMatch(words, values, n) == Some(i);
      assert Pairs(keys, ckv) == RowPairs(rows[i], keys);
    }
  }

  lemma RowOfTable(db: CalDb, t: TableRef, keys: seq<u32>, rows: seq<ValueRow>, i: nat)
    requires TableIn(db, t, keys, rows) && i < |rows|
    ensures |rows[i].values| == |keys| && RowWords(rows[i])[..|keys|] == rows[i].values
    ensures RowWords(rows[i])[|keys|] == rows[i].defOff && RowWords(rows[i])[|keys| + 1] == rows[i].dotOff
  {
  }

  // ---------------------------------------------------------------- a DEF table with its DOT table and its data

  /** One parameter: its ids in the DEF table, the place of its data in the DOT table, and the data. */
  datatype Stored = Stored(iid: u32, pid: u32, poolOff: u32, payload: seq<byte>)

  function IdWords(p: Stored): seq<u32> {
    [p.iid, p.pid]
  }

  function PlaceWords(p: Stored): seq<u32> {
    [p.poolOff]
  }

  function DefWords(ps: seq<Stored>): seq<u32> {
    [Low32(|ps|)] + Flat(IdWords, ps)
  }

  function DotWords(ps: seq<Stored>): seq<u32> {
    [Low32(|ps|)] + Flat(PlaceWords, ps)
  }

  function EntryOf(p: Stored): Entry {
    Entry(p.iid, p.pid, p.payload)
  }

  /** The file has these parameters at the DEF and DOT offsets of a row. */
  predicate DefIn(db: CalDb, defOff: nat, dotOff: nat, ps: seq<Stored>) {
    && |ps| < WORD_LIMIT
    && At(db.file, db.def + defOff, Words(DefWords(ps)))
    && At(db.file, db.dot + dotOff, Words(DotWords(ps)))
    && forall i | 0 <= i < |ps| :: DataIn(db, ps[i])
  }

  predicate DataIn(db: CalDb, p: Stored) {
    |p.payload| < WORD_LIMIT && At(db.file, db.pool + p.poolOff, Le32(|p.payload|) + p.payload)
  }

  lemma IdPair(ps: seq<Stored>, i: nat)
    requires i < |ps|
    ensures var ids := Flat(IdWords, ps); |ids| == 2 * |ps| && ids[2 * i] == ps[i].iid && ids[2 * i + 1] == ps[i].pid
  {
    hide Flat;
    FlatUniform(IdWords, ps, 2, i);
    var pair := Flat(IdWords, ps)[i * 2..i * 2 + 2];
    assert pair[0] == ps[i].iid && pair[1] == ps[i].pid;
  }

  lemma IdsRead(db: CalDb, defOff: nat, ps: seq<Stored>, i: nat)
    requires i < |ps| && At(db.file, db.def + defOff, Words(DefWords(ps)))
    ensures Word(db.file, db.def + defOff + 4 + 4 * (2 * i)) == ps[i].iid
    ensures Word(db.file, db.def + defOff + 4 + 4 * (2 * i + 1)) == ps[i].pid
  {
    hide At, Words, Word, Flat, IdWords;
    IdPair(ps, i);
    CountedRead(db.file, db.def + defOff, DefWords(ps), Low32(|ps|), Flat(IdWords, ps), 2 * i);
    CountedRead(db.file, db.def + defOff, DefWords(ps), Low32(|ps|), Flat(IdWords, ps), 2 * i + 1);
  }

  lemma PlaceWord(ps: seq<Stored>, i: nat)
    requires i < |ps|
    ensures |Flat(PlaceWords, ps)| == |ps| && Flat(PlaceWords, ps)[i] == ps[i].poolOff
  {
    hide Flat;
    FlatUniform(PlaceWords, ps, 1, i);
    assert Flat(PlaceWords, ps)[i * 1..i * 1 + 1][0] == ps[i].poolOff;
  }

  lemma PlaceRead(db: CalDb, dotOff: nat, ps: seq<Stored>, i: nat)
    requires i < |ps| && At(db.file, db.dot + dotOff, Words(DotWords(ps)))
    ensures Word(db.file, db.dot + dotOff + 4 + 4 * i) == ps[i].poolOff
  {
    hide At, Words, Word, Flat, PlaceWords;
    PlaceWord(ps, i);
    CountedRead(db.file, db.dot + dotOff, DotWords(ps), Low32(|ps|), Flat(PlaceWords, ps), i);
  }

  lemma DataRead(db: CalDb, p: Stored)
    requires DataIn(db, p)
    ensures var q := db.pool + p.poolOff; Slice(db.file, q + 4, Word(db.file, q)) == p.payload
  {
    hide At, Word, Slice, Le32;
    AtConcat(db.file, db.pool + p.poolOff, Le32(|p.payload|), p.payload);
    WordAt(db.file, db.pool + p.poolOff, |p.payload|);
    AtSlice(db.file, db.pool + p.poolOff + 4, p.payload);
  }

  lemma {:induction false} EntriesRead(db: CalDb, defOff: nat, dotOff: nat, ps: seq<Stored>, n: nat)
    requires DefIn(db, defOff, dotOff, ps) && n <= |ps|
    ensures forall i | 0 <= i < n :: Entries(db, defOff, dotOff, n)[i] == EntryOf(ps[i])
  {
    hide At, Words, Word, Flat, Slice, DataIn, DefWords, DotWords;
    if n > 0 {
      EntriesRead(db, defOff, dotOff, ps, n - 1);
      IdsRead(db, defOff, ps, n - 1);
      PlaceRead(db, dotOff, ps, n - 1);
      assert DataIn(db, ps[n - 1]);
      DataRead(db, ps[n - 1]);
      assert 4 * (2 * (n - 1)) == 8 * (n - 1) && 4 + 4 * (2 * (n - 1) + 1) == 4 + 8 * (n - 1) + 4;
      assert EntryAt(db, defOff, dotOff, n - 1) == EntryOf(ps[n - 1]);
    }
  }

  /** The table reads back: as many entries, each with its ids and its data. */
  lemma DefRead(db: CalDb, defOff: nat, dotOff: nat, ps: seq<Stored>)
    requires DefIn(db, defOff, dotOff, ps)
    ensures var es := DefTable(db, defOff, dotOff);
      |es| == |ps| && forall i | 0 <= i < |ps| :: es[i] == Entry(ps[i].iid, ps[i].pid, ps[i].payload)
  {
    hide At, Words, Word, Flat, DataIn, Entries, DotWords;
    WordRead(db.file, db.def + defOff, DefWords(ps), 0);
    EntriesRead(db, defOff, dotOff, ps, |ps|);
  }
}
