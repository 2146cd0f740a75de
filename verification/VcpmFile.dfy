/** Voice calibration tables as the database tool writes them, and that they read back as what was stored. */
module VcpmFile {
  import opened Bytes
  import opened CalFile
  import opened VcpmFormat
  import opened VcpmDecode

  /** A counted list of words. */
  function CountedWords(ws: seq<u32>): seq<u32> {
    [Low32(|ws|)] + ws
  }

  // ---------------------------------------------------------------- an object

  /** The values of an object and its parameters, with the places of the value list and the DEF table. */
  datatype StoredObj = StoredObj(lutOff: u32, defOff: u32, values: seq<u32>, params: seq<Stored>)

  function ObjHead(o: StoredObj): seq<u32> {
    [o.lutOff, o.defOff, Low32(|o.params|)]
  }

  function ObjWords(o: StoredObj): seq<u32> {
    ObjHead(o) + Flat(PlaceWords, o.params)
  }

  /** The value list counts its values and its entries, which is one. */
  function ValueWords(values: seq<u32>): seq<u32> {
    [Low32(|values|), 1] + values
  }

  predicate PayloadIn(db: Db, p: Stored) {
    |p.payload| < WORD_LIMIT && At(db.file, db.dataPool + p.poolOff, Le32(|p.payload|) + p.payload)
  }

  predicate ObjIn(db: Db, o: StoredObj) {
    && |o.params| < WORD_LIMIT && |o.values| < WORD_LIMIT
    && WordsAt(db.file, db.calLut + o.lutOff, ValueWords(o.values))
    && WordsAt(db.file, db.calDef + o.defOff, DefWords(o.params))
    && forall i | 0 <= i < |o.params| :: PayloadIn(db, o.params[i])
  }

  function ParamOf(db: Db, p: Stored): Param {
    Param(p.iid, p.pid, p.payload, p.pid in db.persistentPids)
  }

  function ObjOf(db: Db, o: StoredObj): CalObj {
    CalObj(o.values, seq(|o.params|, i requires 0 <= i < |o.params| => ParamOf(db, o.params[i])))
  }

  lemma PayloadRead(db: Db, p: Stored)
    requires PayloadIn(db, p)
    ensures var q := db.dataPool + p.poolOff; Slice(db.file, q + 4, Word(db.file, q)) == p.payload
  {
    hide At, Word, Slice, Le32;
    AtConcat(db.file, db.dataPool + p.poolOff, Le32(|p.payload|), p.payload);
    WordAt(db.file, db.dataPool + p.poolOff, |p.payload|);
    AtSlice(db.file, db.dataPool + p.poolOff + 4, p.payload);
  }

  lemma DefWordsAt(ps: seq<Stored>, i: nat)
    requires i < |ps|
    ensures var ws := DefWords(ps); |ws| == 1 + 2 * |ps| && ws[1 + 2 * i] == ps[i].iid && ws[2 + 2 * i] == ps[i].pid
  {
    hide Flat, IdWords;
    IdPair(ps, i);
  }

  lemma DefPairRead(db: Db, o: StoredObj, i: nat)
    requires ObjIn(db, o) && i < |o.params|
    ensures var d := db.calDef + o.defOff + 8 * i + 4;
      Word(db.file, d) == o.params[i].iid && Word(db.file, d + 4) == o.params[i].pid
  {
    hide Word, WordsAt, DefWords;
    DefWordsAt(o.params, i);
    WordsAtIndex(db.file, db.calDef + o.defOff, DefWords(o.params), 1 + 2 * i);
    WordsAtIndex(db.file, db.calDef + o.defOff, DefWords(o.params), 2 + 2 * i);
    assert 4 * (1 + 2 * i) == 8 * i + 4 && 4 * (2 + 2 * i) == 8 * i + 8;
  }

  lemma ParamRead(db: Db, off: nat, o: StoredObj, i: nat)
    requires ObjIn(db, o) && WordsAt(db.file, off, ObjWords(o)) && i < |o.params|
    ensures ParamAt(db, o.defOff + 8 * i, Word(db.file, off + 12 + 4 * i)) == ParamOf(db, o.params[i])
  {
    hide Word, WordsAt, Slice, DefWords, PayloadIn, Flat, PlaceWords;
    PlaceWord(o.params, i);
    WordsAtIndex(db.file, off, ObjWords(o), 3 + i);
    assert ObjWords(o)[3 + i] == o.params[i].poolOff && off + 4 * (3 + i) == off + 12 + 4 * i;
    DefPairRead(db, o, i);
    assert PayloadIn(db, o.params[i]);
    PayloadRead(db, o.params[i]);
  }

  lemma HeadRead(db: Db, off: nat, o: StoredObj)
    requires WordsAt(db.file, off, ObjWords(o)) && |o.params| < WORD_LIMIT
    ensures Word(db.file, off) == o.lutOff && Word(db.file, off + 4) == o.defOff && Word(db.file, off + 8) == |o.params|
  {
    hide Word, WordsAt, Flat;
    WordsAtIndex(db.file, off, ObjWords(o), 0);
    WordsAtIndex(db.file, off, ObjWords(o), 1);
    WordsAtIndex(db.file, off, ObjWords(o), 2);
  }

  lemma ValuesRead(db: Db, o: StoredObj)
    requires ObjIn(db, o)
    ensures ValueList(db, o.lutOff) == o.values
  {
    hide Word, DefWords, PayloadIn, WordList;
    var off, ws := db.calLut + o.lutOff, ValueWords(o.values);
    WordsAtIndex(db.file, off, ws, 0);
    WordsAtPart(db.file, off, ws, 2, |ws|);
    assert ws[2..|ws|] == o.values;
  }

  lemma PlacesSize(ps: seq<Stored>)
    ensures |Flat(PlaceWords, ps)| == |ps|
  {
    FlatLength(PlaceWords, ps, 1);
  }

  /** An object reads back with all its parameters, and the next one starts behind it. */
  lemma ObjRead(db: Db, off: nat, o: StoredObj)
    requires ObjIn(db, o) && WordsAt(db.file, off, ObjWords(o))
    ensures ObjAt(db, off) == ObjOf(db, o) && ObjEnd(db, off) == off + 4 * |ObjWords(o)|
  {
    hide Word, WordsAt, WordList, ObjIn, ParamAt, Flat, ValueList, ParamOf;
    assert |o.params| < WORD_LIMIT by { ObjFits(db, o); }
    HeadRead(db, off, o);
    ValuesRead(db, o);
    PlacesSize(o.params);
    forall i | 0 <= i < |o.params|
      ensures ObjAt(db, off).params[i] == ParamOf(db, o.params[i])
    {
      ParamRead(db, off, o, i);
    }
  }

  lemma ObjFits(db: Db, o: StoredObj)
    requires ObjIn(db, o)
    ensures |o.params| < WORD_LIMIT
  {
  }

  lemma {:induction false} ObjsRead(db: Db, off: nat, os: seq<StoredObj>, n: nat)
    requires WordsAt(db.file, off, Flat(ObjWords, os)) && n <= |os|
    requires forall i | 0 <= i < |os| :: ObjIn(db, os[i])
    ensures ObjsEnd(db, off, n) == off + 4 * |Flat(ObjWords, os[..n])|
    ensures forall i | 0 <= i < n :: ObjsAt(db, off, n)[i] == ObjOf(db, os[i])
  {
    hide WordsAt, Flat, ObjIn, ObjAt, ObjOf, ObjEnd, ObjWords;
    if n > 0 {
      ObjsRead(db, off, os, n - 1);
      WordsAtFlat(ObjWords, os, n - 1, db.file, off);
      ObjRead(db, off + 4 * |Flat(ObjWords, os[..n - 1])|, os[n - 1]);
    } else {
      NoWords(ObjWords, os);
    }
  }

  lemma NoWords<T>(f: T -> seq<u32>, xs: seq<T>)
    ensures Flat(f, xs[..0]) == []
  {
  }

  // ---------------------------------------------------------------- a table

  /** The two sizes are the table's own; only that of the first table is ever followed. */
  datatype StoredTable = StoredTable(size: u32, keyOff: u32, dotSize: u32, keys: seq<u32>, objs: seq<StoredObj>)

  function TableHead(t: StoredTable): seq<u32> {
    [t.size, t.keyOff, t.dotSize, Low32(|t.objs|)]
  }

  function TableWords(t: StoredTable): seq<u32> {
    TableHead(t) + Flat(ObjWords, t.objs)
  }

  predicate TableStored(db: Db, t: StoredTable) {
    && |t.objs| < WORD_LIMIT && |t.keys| < WORD_LIMIT
    && WordsAt(db.file, db.calKey + t.keyOff, CountedWords(t.keys))
    && forall i | 0 <= i < |t.objs| :: ObjIn(db, t.objs[i])
  }

  function TableOf(db: Db, t: StoredTable): CkvTable {
    CkvTable(t.keys, seq(|t.objs|, i requires 0 <= i < |t.objs| => ObjOf(db, t.objs[i])))
  }

  lemma KeysRead(db: Db, t: StoredTable)
    requires TableStored(db, t)
    ensures KeyList(db, db.calKey + t.keyOff) == t.keys
  {
    hide Word, ObjIn, WordList;
    var off, ws := db.calKey + t.keyOff, CountedWords(t.keys);
    WordsAtIndex(db.file, off, ws, 0);
    WordsAtPart(db.file, off, ws, 1, |ws|);
    assert ws[1..|ws|] == t.keys;
  }

  lemma TableHeadRead(db: Db, off: nat, t: StoredTable)
    requires WordsAt(db.file, off, TableWords(t)) && |t.objs| < WORD_LIMIT
    ensures Word(db.file, off) == t.size && Word(db.file, off + 4) == t.keyOff && Word(db.file, off + 12) == |t.objs|
    ensures WordsAt(db.file, off + 16, Flat(ObjWords, t.objs))
  {
    hide Word, WordsAt, Flat;
    WordsAtIndex(db.file, off, TableWords(t), 0);
    WordsAtIndex(db.file, off, TableWords(t), 1);
    WordsAtIndex(db.file, off, TableWords(t), 3);
    WordsAtConcat(db.file, off, TableHead(t), Flat(ObjWords, t.objs));
  }

  /** A table reads back with its keys and objects, and walking it ends behind it. */
  lemma StoredTableRead(db: Db, off: nat, t: StoredTable)
    requires TableStored(db, t) && WordsAt(db.file, off, TableWords(t))
    ensures TableAt(db, off) == TableOf(db, t) && TableEnd(db, off) == off + 4 * |TableWords(t)|
    ensures Word(db.file, off) == t.size
  {
    hide Word, WordsAt, ObjIn, ObjOf, Flat, ObjsEnd, KeyList;
    TableHeadRead(db, off, t);
    KeysRead(db, t);
    ObjsRead(db, off + 16, t.objs, |t.objs|);
    assert t.objs[..|t.objs|] == t.objs;
  }

  predicate TablesStored(db: Db, off: nat, ts: seq<StoredTable>) {
    && WordsAt(db.file, off, Flat(TableWords, ts))
    && (forall i | 0 <= i < |ts| :: TableStored(db, ts[i]))
    && (ts != [] ==> ts[0].size == 4 * |TableWords(ts[0])| - 4)
  }

  /** The tables of a subgraph read back one by one. */
  lemma {:induction false} TablesReadBack(db: Db, off: nat, ts: seq<StoredTable>, i: nat)
    requires TablesStored(db, off, ts) && i < |ts|
    ensures TableOffset(db, off, i) == off + 4 * |Flat(TableWords, ts[..i])|
    ensures TableAt(db, TableOffset(db, off, i)) == TableOf(db, ts[i])
  {
    hide Word, WordsAt, Flat, TableStored, TableAt, TableOf, TableEnd, TableWords;
    if i > 0 {
      TablesReadBack(db, off, ts, i - 1);
      WordsAtFlat(TableWords, ts, i - 1, db.file, off);
      StoredTableRead(db, TableOffset(db, off, i - 1), ts[i - 1]);
    } else {
      NoWords(TableWords, ts);
    }
    WordsAtFlat(TableWords, ts, i, db.file, off);
    StoredTableRead(db, off + 4 * |Flat(TableWords, ts[..i])|, ts[i]);
  }

  /** A non-default table references the modules of its first object, as stored. */
  lemma StoredReferences(db: Db, off: nat, ts: seq<StoredTable>, i: nat, iid: u32)
    requires TablesStored(db, off, ts) && i < |ts|
    ensures References(db, off, i, iid) <==>
      ts[i].objs != [] && exists k | 0 <= k < |ts[i].objs[0].params| :: ts[i].objs[0].params[k].iid == iid
  {
    hide References, TableOffset, TableAt, TablesStored;
    TablesReadBack(db, off, ts, i);
    FirstIidsRead(db, off, i, iid);
    if ts[i].objs != [] {
      var stored, read := ts[i].objs[0].params, ObjOf(db, ts[i].objs[0]).params;
      assert |stored| == |read| && forall k | 0 <= k < |stored| :: read[k].iid == stored[k].iid;
      assert TableOf(db, ts[i]).objs[0].params == read;
    }
  }

  // ---------------------------------------------------------------- a subgraph

  datatype StoredSubgraph = StoredSubgraph(id: u32, size: u32, major: u32, minor: u32, keyOff: u32,
                                           masterKeys: seq<MasterKey>, tables: seq<StoredTable>)

  function RecordHead(g: StoredSubgraph): seq<u32> {
    [g.id, g.size, g.major, g.minor, g.keyOff, Low32(|g.tables|)]
  }

  function RecordWords(g: StoredSubgraph): seq<u32> {
    RecordHead(g) + Flat(TableWords, g.tables)
  }

  function MasterWords(m: MasterKey): seq<u32> {
    [m.keyId, m.isDynamic]
  }

  function MasterTable(ms: seq<MasterKey>): seq<u32> {
    [Low32(|ms|)] + Flat(MasterWords, ms)
  }

  lemma MasterTableAt(ms: seq<MasterKey>, i: nat)
    requires i < |ms|
    ensures var ws := MasterTable(ms);
      |ws| == 1 + 2 * |ms| && ws[1 + 2 * i] == ms[i].keyId && ws[2 + 2 * i] == ms[i].isDynamic
  {
    hide Flat;
    FlatUniform(MasterWords, ms, 2, i);
    var pair := Flat(MasterWords, ms)[i * 2..i * 2 + 2];
    assert pair[0] == ms[i].keyId && pair[1] == ms[i].isDynamic;
  }

  lemma MasterKeyRead(db: Db, keyOff: nat, ms: seq<MasterKey>, i: nat)
    requires WordsAt(db.file, db.masterKey + keyOff, MasterTable(ms)) && i < |ms|
    ensures MasterKeyAt(db, keyOff, i) == ms[i]
  {
    hide Word, WordsAt, MasterTable;
    MasterTableAt(ms, i);
    WordsAtIndex(db.file, db.masterKey + keyOff, MasterTable(ms), 1 + 2 * i);
    WordsAtIndex(db.file, db.masterKey + keyOff, MasterTable(ms), 2 + 2 * i);
    assert 4 * (1 + 2 * i) == 4 + 8 * i && 4 * (2 + 2 * i) == 8 + 8 * i;
  }

  lemma MasterKeysReadBack(db: Db, keyOff: nat, ms: seq<MasterKey>)
    requires WordsAt(db.file, db.masterKey + keyOff, MasterTable(ms)) && |ms| < WORD_LIMIT
    ensures MasterKeysAt(db, keyOff) == ms
  {
    hide Word, WordsAt, MasterKeyAt, Flat;
    WordsAtIndex(db.file, db.masterKey + keyOff, MasterTable(ms), 0);
    forall i | 0 <= i < |ms|
      ensures MasterKeysAt(db, keyOff)[i] == ms[i]
    {
      MasterKeyRead(db, keyOff, ms, i);
    }
  }

  predicate SubgraphStored(db: Db, r: nat, g: StoredSubgraph) {
    && |g.tables| < WORD_LIMIT && |g.masterKeys| < WORD_LIMIT
    && WordsAt(db.file, r, RecordHead(g)) && TablesStored(db, r + 24, g.tables)
    && WordsAt(db.file, db.masterKey + g.keyOff, MasterTable(g.masterKeys))
  }

  /** The record of a subgraph reads back: its id and version, its master keys and its tables. */
  lemma RecordReadBack(db: Db, r: nat, g: StoredSubgraph)
    requires SubgraphStored(db, r, g)
    ensures RecordInfo(db, r) == SgInfo(g.id, g.major, g.minor)
    ensures Word(db.file, r + 20) == |g.tables| && MasterKeysAt(db, Word(db.file, r + 16)) == g.masterKeys
    ensures forall i | 0 <= i < |g.tables| :: TableAt(db, TableOffset(db, r + 24, i)) == TableOf(db, g.tables[i])
  {
    hide Word, WordsAt, Flat, TableAt, TableOf, TableOffset, TablesStored, MasterKeysAt, MasterTable;
    WordsAtIndex(db.file, r, RecordHead(g), 0);
    WordsAtIndex(db.file, r, RecordHead(g), 2);
    WordsAtIndex(db.file, r, RecordHead(g), 3);
    WordsAtIndex(db.file, r, RecordHead(g), 4);
    WordsAtIndex(db.file, r, RecordHead(g), 5);
    MasterKeysReadBack(db, g.keyOff, g.masterKeys);
    forall i | 0 <= i < |g.tables|
      ensures TableAt(db, TableOffset(db, r + 24, i)) == TableOf(db, g.tables[i])
    {
      TablesReadBack(db, r + 24, g.tables, i);
    }
  }

  /** The subgraphs of the database, each as long as its size says. */
  predicate SubgraphsIn(db: Db, gs: seq<StoredSubgraph>) {
    && Word(db.file, db.calData + 8) == |gs| && WordsAt(db.file, db.calData + 12, Flat(RecordWords, gs))
    && forall i | 0 <= i < |gs| :: gs[i].size == 4 * |RecordWords(gs[i])| - 8
  }

  lemma RecordStart(db: Db, off: nat, g: StoredSubgraph)
    requires WordsAt(db.file, off, RecordWords(g)) && g.size == 4 * |RecordWords(g)| - 8
    ensures Word(db.file, off) == g.id && off + 8 + Word(db.file, off + 4) == off + 4 * |RecordWords(g)|
  {
    hide Word, WordsAt, Flat;
    WordsAtIndex(db.file, off, RecordWords(g), 0);
    WordsAtIndex(db.file, off, RecordWords(g), 1);
  }

  lemma {:induction false} FindFrom(db: Db, gs: seq<StoredSubgraph>, id: u32, j: nat, k: nat)
    requires SubgraphsIn(db, gs) && j <= k <= |gs| && forall i | j <= i < k :: gs[i].id != id
    ensures var r := FindSubgraph(db, db.calData + 12 + 4 * |Flat(RecordWords, gs[..j])|, |gs| - j, id);
      && (k == |gs| ==> r == None)
      && (k < |gs| && gs[k].id == id ==> r == Some(db.calData + 12 + 4 * |Flat(RecordWords, gs[..k])|))
    decreases |gs| - j
  {
    hide Word, WordsAt, Flat, RecordWords;
    if j < |gs| {
      WordsAtFlat(RecordWords, gs, j, db.file, db.calData + 12);
      RecordStart(db, db.calData + 12 + 4 * |Flat(RecordWords, gs[..j])|, gs[j]);
      if j < k {
        FindFrom(db, gs, id, j + 1, k);
      }
    }
  }

  /** The scan finds the first subgraph with the id, behind the words of all before it, or none if there is none. */
  lemma FirstSubgraph(db: Db, gs: seq<StoredSubgraph>, id: u32, k: nat)
    requires SubgraphsIn(db, gs) && k <= |gs| && forall i | 0 <= i < k :: gs[i].id != id
    ensures k == |gs| ==> SubgraphRecord(db, id) == None
    ensures k < |gs| && gs[k].id == id ==>
      SubgraphRecord(db, id) == Some(db.calData + 12 + 4 * |Flat(RecordWords, gs[..k])|)
  {
    hide FindSubgraph, Flat, SubgraphsIn, RecordWords;
    NoWords(RecordWords, gs);
    FindFrom(db, gs, id, 0, k);
    assert Word(db.file, db.calData + 8) == |gs| by { CountOf(db, gs); }
  }

  lemma CountOf(db: Db, gs: seq<StoredSubgraph>)
    requires SubgraphsIn(db, gs)
    ensures Word(db.file, db.calData + 8) == |gs|
  {
  }
}
