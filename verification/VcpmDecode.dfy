/** Reading a VCPM blob the way its consumer does: by chunk sizes and relative offsets only. */
module VcpmDecode {
  import opened Bytes
  import opened VcpmFormat

  function ReadList(b: seq<byte>, o: nat): seq<u32> {
    WordList(b, o + 4, Word(b, o))
  }

  /** An info entry <offset, is persistent>, followed to its <IID, PID, size, 0, payload> record. */
  function ReadParam(b: seq<byte>, o: nat, pool: nat): Param {
    var r := pool + Word(b, o);
    Param(Word(b, r), Word(b, r + 4), Slice(b, r + 16, Word(b, r + 8)), Word(b, o + 4) == 1)
  }

  function ReadParams(b: seq<byte>, o: nat, n: nat, pool: nat): (r: seq<Param>)
    ensures |r| == n
  {
    seq(n, i requires 0 <= i < n => ReadParam(b, o + 8 * i, pool))
  }

  function ReadObj(b: seq<byte>, o: nat, lut: nat, pool: nat): CalObj {
    CalObj(ReadList(b, lut + Word(b, o)), ReadParams(b, o + 8, Word(b, o + 4), pool))
  }

  /** The first n objects from o on, and where the next one starts. */
  function ReadObjs(b: seq<byte>, o: nat, n: nat, lut: nat, pool: nat): (seq<CalObj>, nat) {
    if n == 0 then ([], o)
    else
      var (objs, e) := ReadObjs(b, o, n - 1, lut, pool);
      (objs + [ReadObj(b, e, lut, pool)], e + 8 + 8 * Word(b, e + 4))
  }

  function ReadTable(b: seq<byte>, o: nat, kid: nat, lut: nat, pool: nat): CkvTable {
    CkvTable(ReadList(b, kid + Word(b, o + 4)), ReadObjs(b, o + 16, Word(b, o + 12), lut, pool).0)
  }

  /** The first n tables from o on; the size field of a table leads to the next one. */
  function ReadTables(b: seq<byte>, o: nat, n: nat, kid: nat, lut: nat, pool: nat): (seq<CkvTable>, nat) {
    if n == 0 then ([], o)
    else
      var (ts, e) := ReadTables(b, o, n - 1, kid, lut, pool);
      (ts + [ReadTable(b, e, kid, lut, pool)], e + 4 + Word(b, e))
  }

  function ReadMasterKeys(b: seq<byte>, o: nat, n: nat): (r: seq<MasterKey>)
    ensures |r| == n
  {
    seq(n, i requires 0 <= i < n => MasterKey(Word(b, o + 8 * i), Word(b, o + 8 * i + 4)))
  }

  datatype Bases = Bases(mk: nat, kid: nat, lut: nat, pool: nat)

  /** Where the chunks of the blob whose info chunk is at `at` start. */
  function FindBases(b: seq<byte>, at: nat): Bases {
    var mk := at + 12 + Word(b, at + 8) + 4;
    var kid := mk + Word(b, mk - 4) + 4;
    var lut := kid + Word(b, kid - 4) + 4;
    var pool := lut + Word(b, lut - 4) + 4;
    Bases(mk, kid, lut, pool)
  }

  function Decode(b: seq<byte>, at: nat): (seq<CkvTable>, seq<MasterKey>) {
    var c := FindBases(b, at);
    (ReadTables(b, at + 28, Word(b, at + 24), c.kid, c.lut, c.pool).0, ReadMasterKeys(b, c.mk + 4, Word(b, c.mk)))
  }

  // ---------------------------------------------------------------- what is read is what was written

  lemma ListRead(b: seq<byte>, o: nat, ws: seq<u32>)
    requires At(b, o, ListBytes(ws)) && |ws| < WORD_LIMIT
    ensures ReadList(b, o) == ws
  {
    hide At, Le32, Words, Word, WordList;
    AtConcat(b, o, Le32(|ws|), Words(ws));
    WordAt(b, o, |ws|);
    WordListAt(b, o + 4, ws);
  }

  lemma TwoWords(b: seq<byte>, o: nat, x: nat, y: nat)
    requires At(b, o, Le32(x) + Le32(y)) && x < WORD_LIMIT && y < WORD_LIMIT
    ensures Word(b, o) == x && Word(b, o + 4) == y
  {
    hide At, Le32, Word;
    AtConcat(b, o, Le32(x), Le32(y));
    WordAt(b, o, x);
    WordAt(b, o + 4, y);
  }

  lemma RecordRead(b: seq<byte>, r: nat, p: Param)
    requires At(b, r, IdBytes(p) + PayloadBytes(p)) && |p.payload| < WORD_LIMIT
    ensures Word(b, r) == p.iid && Word(b, r + 4) == p.pid && Slice(b, r + 16, Word(b, r + 8)) == p.payload
  {
    hide At, Le32, Word, Slice, Zeros;
    var n := |p.payload|;
    AtConcat(b, r, IdBytes(p), PayloadBytes(p));
    TwoWords(b, r, p.iid, p.pid);
    AtConcat(b, r + 8, Le32(n) + Le32(0) + p.payload, Zeros(Padding8(n)));
    AtConcat(b, r + 8, Le32(n) + Le32(0), p.payload);
    TwoWords(b, r + 8, n, 0);
    AtSlice(b, r + 16, p.payload);
  }

  lemma ParamRead(b: seq<byte>, o: nat, pool: nat, rel: nat, p: Param)
    requires At(b, o, InfoBytes(p.persistent, rel)) && At(b, pool + rel, IdBytes(p) + PayloadBytes(p))
    requires rel < WORD_LIMIT && |p.payload| < WORD_LIMIT
    ensures ReadParam(b, o, pool) == p
  {
    hide At, Le32, Word, IdBytes, PayloadBytes, Slice;
    TwoWords(b, o, rel, if p.persistent then 1 else 0);
    RecordRead(b, pool + rel, p);
  }

  lemma {:induction false} ParamsRead(b: seq<byte>, o: nat, pool: nat, rel: nat, ps: seq<Param>)
    requires At(b, o, ParamInfos(ps, rel)) && At(b, pool + rel, PoolBytes(ps))
    requires rel + |PoolBytes(ps)| < WORD_LIMIT
    ensures ReadParams(b, o, |ps|, pool) == ps
  {
    hide At, Le32, Word, PoolBytes, ParamInfos, InfoBytes, IdBytes, PayloadBytes, Slice;
    if ps != [] {
      var n := |ps| - 1;
      var init, p := ps[..n], ps[n];
      assert ps == init + [p];
      var at := rel + |PoolBytes(init)|;
      ParamsSnoc(init, p, rel);
      AtConcat(b, o, ParamInfos(init, rel), InfoBytes(p.persistent, at));
      AtConcat(b, pool + rel, PoolBytes(init), IdBytes(p) + PayloadBytes(p));
      ParamsRead(b, o, pool, rel, init);
      ParamRead(b, o + 8 * n, pool, at, p);
      assert ReadParams(b, o, |ps|, pool) == ReadParams(b, o, n, pool) + [ReadParam(b, o + 8 * n, pool)];
    }
  }

  lemma ObjRead(b: seq<byte>, o: nat, lut: nat, pool: nat, lutRel: nat, poolRel: nat, k: CalObj)
    requires At(b, o, ObjSg(k, lutRel, poolRel)) && At(b, lut + lutRel, ObjLut(k)) && At(b, pool + poolRel, ObjPool(k))
    requires lutRel + |ObjLut(k)| < WORD_LIMIT && poolRel + |ObjPool(k)| < WORD_LIMIT && |k.params| < WORD_LIMIT
    ensures ReadObj(b, o, lut, pool) == k && Word(b, o + 4) == |k.params|
  {
    hide At, Le32, Word, PoolBytes, ParamInfos, ListBytes, ReadList, ReadParams;
    AtConcat(b, o, Le32(lutRel) + Le32(|k.params|), ParamInfos(k.params, poolRel));
    TwoWords(b, o, lutRel, |k.params|);
    ListRead(b, lut + lutRel, k.values);
    ParamsRead(b, o + 8, pool, poolRel, k.params);
  }

  lemma {:induction false} ObjsRead(b: seq<byte>, o: nat, lut: nat, pool: nat, lutRel: nat, poolRel: nat,
                                    ks: seq<CalObj>)
    requires At(b, o, ObjsSg(ks, lutRel, poolRel))
    requires At(b, lut + lutRel, ObjsLut(ks)) && At(b, pool + poolRel, ObjsPool(ks))
    requires lutRel + |ObjsLut(ks)| < WORD_LIMIT && poolRel + |ObjsPool(ks)| < WORD_LIMIT && DotSize(ks) < WORD_LIMIT
    ensures ReadObjs(b, o, |ks|, lut, pool) == (ks, o + DotSize(ks))
  {
    hide At, Word, ObjsLut, ObjsPool, ObjsSg, ObjSg, ObjLut, ObjPool, ReadObj, DotSize;
    if ks == [] {
      NoObjs(false, {}, lutRel, poolRel);
    } else {
      var n := |ks| - 1;
      var init, k := ks[..n], ks[n];
      assert ks == init + [k];
      ObjsSnoc(init, k, lutRel, poolRel);
      AtConcat(b, o, ObjsSg(init, lutRel, poolRel), ObjSg(k, lutRel + |ObjsLut(init)|, poolRel + |ObjsPool(init)|));
      AtConcat(b, lut + lutRel, ObjsLut(init), ObjLut(k));
      AtConcat(b, pool + poolRel, ObjsPool(init), ObjPool(k));
      ObjsRead(b, o, lut, pool, lutRel, poolRel, init);
      ObjRead(b, o + DotSize(init), lut, pool, lutRel + |ObjsLut(init)|, poolRel + |ObjsPool(init)|, k);
    }
  }

  lemma TableRead(b: seq<byte>, o: nat, kid: nat, lut: nat, pool: nat, kidRel: nat, lutRel: nat, poolRel: nat,
                  t: CkvTable)
    requires At(b, o, TableSg(t, kidRel, lutRel, poolRel)) && At(b, kid + kidRel, TableKid(t))
    requires At(b, lut + lutRel, TableLut(t)) && At(b, pool + poolRel, TablePool(t))
    requires kidRel + |TableKid(t)| < WORD_LIMIT && lutRel + |TableLut(t)| < WORD_LIMIT
    requires poolRel + |TablePool(t)| < WORD_LIMIT && TableSize(t) < WORD_LIMIT
    ensures ReadTable(b, o, kid, lut, pool) == t && o + 4 + Word(b, o) == o + TableSize(t)
  {
    hide At, Le32, Word, ObjsLut, ObjsPool, ObjsSg, ReadList, ReadObjs, DotSize, ListBytes;
    var dot := DotSize(t.objs);
    FewObjs(t.objs);
    AtConcat(b, o, TableHeader(t, kidRel), ObjsSg(t.objs, lutRel, poolRel));
    assert TableHeader(t, kidRel) == (Le32(12 + dot) + Le32(kidRel)) + (Le32(dot) + Le32(|t.objs|));
    AtConcat(b, o, Le32(12 + dot) + Le32(kidRel), Le32(dot) + Le32(|t.objs|));
    TwoWords(b, o, 12 + dot, kidRel);
    TwoWords(b, o + 8, dot, |t.objs|);
    ListRead(b, kid + kidRel, t.keys);
    ObjsRead(b, o + 16, lut, pool, lutRel, poolRel, t.objs);
  }

  lemma {:induction false} FewObjs(ks: seq<CalObj>)
    ensures |ks| <= DotSize(ks)
  {
    if ks != [] {
      FewObjs(ks[..|ks| - 1]);
    }
  }

  lemma {:induction false} TablesRead(b: seq<byte>, o: nat, kid: nat, lut: nat, pool: nat, ts: seq<CkvTable>)
    requires At(b, o, TablesSg(ts)) && At(b, kid, TablesKid(ts))
    requires At(b, lut, TablesLut(ts)) && At(b, pool, TablesPool(ts))
    requires |TablesKid(ts)| < WORD_LIMIT && |TablesLut(ts)| < WORD_LIMIT
    requires |TablesPool(ts)| < WORD_LIMIT && TablesSize(ts) < WORD_LIMIT
    ensures ReadTables(b, o, |ts|, kid, lut, pool) == (ts, o + TablesSize(ts))
  {
    hide At, Word, TablesKid, TablesLut, TablesPool, TablesSg, TableSg, TableKid, TableLut, TablePool, ReadTable;
    hide TablesSize, TableSize;
    if ts == [] {
      NoTables();
    } else {
      var n := |ts| - 1;
      var init, t := ts[..n], ts[n];
      assert ts == init + [t];
      TablesSnoc(init, t);
      AtConcat(b, o, TablesSg(init), TableSg(t, |TablesKid(init)|, |TablesLut(init)|, |TablesPool(init)|));
      AtConcat(b, kid, TablesKid(init), TableKid(t));
      AtConcat(b, lut, TablesLut(init), TableLut(t));
      AtConcat(b, pool, TablesPool(init), TablePool(t));
      TablesRead(b, o, kid, lut, pool, init);
      TableRead(b, o + TablesSize(init), kid, lut, pool, |TablesKid(init)|, |TablesLut(init)|, |TablesPool(init)|, t);
    }
  }

  lemma {:induction false} MasterKeysRead(b: seq<byte>, o: nat, ms: seq<MasterKey>)
    requires At(b, o, Flat(MasterKeyBytes, ms))
    ensures ReadMasterKeys(b, o, |ms|) == ms && |Flat(MasterKeyBytes, ms)| == 8 * |ms|
  {
    hide At, Word, Le32;
    if ms != [] {
      var n := |ms| - 1;
      var init, m := ms[..n], ms[n];
      assert ms == init + [m];
      FlatSnoc(MasterKeyBytes, init, m);
      AtConcat(b, o, Flat(MasterKeyBytes, init), MasterKeyBytes(m));
      MasterKeysRead(b, o, init);
      TwoWords(b, o + 8 * n, m.keyId, m.isDynamic);
      assert ReadMasterKeys(b, o, |ms|) == ReadMasterKeys(b, o, n) + [m];
    }
  }

  /** The bytes of a chunk and of the size in front of it. */
  lemma SizedRead(b: seq<byte>, o: nat, s: seq<byte>)
    requires At(b, o, Sized(s)) && |s| < WORD_LIMIT
    ensures Word(b, o) == |s| && At(b, o + 4, s)
  {
    hide At, Le32, Word;
    AtConcat(b, o, Le32(|s|), s);
    WordAt(b, o, |s|);
  }

  lemma HeaderRead(b: seq<byte>, at: nat, g: SgInfo, ts: seq<CkvTable>)
    requires At(b, at, SgHeader(g, ts)) && 16 + TablesSize(ts) < WORD_LIMIT
    ensures Word(b, at) == 1 && Word(b, at + 4) == g.subgraphId && Word(b, at + 8) == 16 + TablesSize(ts)
    ensures Word(b, at + 12) == g.major && Word(b, at + 16) == g.minor && |ts| < WORD_LIMIT && Word(b, at + 24) == |ts|
  {
    hide At, Le32, Word, TablesSize;
    FewTables(ts);
    var x, y := Le32(1) + Le32(g.subgraphId), Le32(16 + TablesSize(ts)) + Le32(g.major);
    var z := Le32(g.minor) + Le32(0);
    assert SgHeader(g, ts) == ((x + y) + z) + Le32(|ts|);
    AtConcat(b, at, (x + y) + z, Le32(|ts|));
    AtConcat(b, at, x + y, z);
    AtConcat(b, at, x, y);
    TwoWords(b, at, 1, g.subgraphId);
    TwoWords(b, at + 8, 16 + TablesSize(ts), g.major);
    TwoWords(b, at + 16, g.minor, 0);
    WordAt(b, at + 24, |ts|);
  }

  lemma {:induction false} FewTables(ts: seq<CkvTable>)
    ensures |ts| <= TablesSize(ts)
  {
    if ts != [] {
      FewTables(ts[..|ts| - 1]);
    }
  }

  /** Walking the chunk sizes finds five chunks that tile the parameter without gap or overlap. */
  lemma ChunksFound(b: seq<byte>, at: nat, g: SgInfo, ts: seq<CkvTable>, ms: seq<MasterKey>)
    requires At(b, at, BlobBody(g, ts, ms)) && |BlobBody(g, ts, ms)| < WORD_LIMIT
    ensures At(b, at, SgHeader(g, ts)) && At(b, at + 28, TablesSg(ts)) && 16 + TablesSize(ts) < WORD_LIMIT
    ensures var c := FindBases(b, at);
      && c.mk == at + 28 + TablesSize(ts) + 4 && At(b, c.mk, MasterBytes(ms))
      && c.kid == c.mk + |MasterBytes(ms)| + 4 && At(b, c.kid, TablesKid(ts))
      && c.lut == c.kid + |TablesKid(ts)| + 4 && At(b, c.lut, TablesLut(ts))
      && c.pool == c.lut + |TablesLut(ts)| + 4 && At(b, c.pool, TablesPool(ts))
      && c.pool + |TablesPool(ts)| == at + |BlobBody(g, ts, ms)|
  {
    hide At, Le32, Word, SgHeader, TablesSg, MasterBytes, TablesKid, TablesLut, TablesPool, TablesSize, Sized;
    BodySize(g, ts, ms);
    SizedSize(MasterBytes(ms));
    SizedSize(TablesKid(ts));
    SizedSize(TablesLut(ts));
    var h, m, k := SgHeader(g, ts) + TablesSg(ts), Sized(MasterBytes(ms)), Sized(TablesKid(ts));
    var l, p := Sized(TablesLut(ts)), Sized(TablesPool(ts));
    AtConcat(b, at, h + m + k + l, p);
    AtConcat(b, at, h + m + k, l);
    AtConcat(b, at, h + m, k);
    AtConcat(b, at, h, m);
    AtConcat(b, at, SgHeader(g, ts), TablesSg(ts));
    HeaderRead(b, at, g, ts);
    SizedRead(b, at + |h|, MasterBytes(ms));
    SizedRead(b, at + |h + m|, TablesKid(ts));
    SizedRead(b, at + |h + m + k|, TablesLut(ts));
    SizedRead(b, at + |h + m + k + l|, TablesPool(ts));
  }

  lemma SizedSize(s: seq<byte>)
    ensures |Sized(s)| == 4 + |s|
  {
  }

  /** Following every offset of a blob gives back the tables and master keys it was built from. */
  lemma DecodeBody(b: seq<byte>, at: nat, g: SgInfo, ts: seq<CkvTable>, ms: seq<MasterKey>)
    requires At(b, at, BlobBody(g, ts, ms)) && |BlobBody(g, ts, ms)| < WORD_LIMIT
    ensures Decode(b, at) == (ts, ms)
  {
    hide At, Le32, Word, SgHeader, TablesSg, TablesKid, TablesLut, TablesPool, TablesSize, BlobBody, Flat;
    hide ReadTables, ReadMasterKeys;
    BodySize(g, ts, ms);
    ChunksFound(b, at, g, ts, ms);
    HeaderRead(b, at, g, ts);
    var c := FindBases(b, at);
    TablesRead(b, at + 28, c.kid, c.lut, c.pool, ts);
    AtConcat(b, c.mk, Le32(|ms|), Flat(MasterKeyBytes, ms));
    MasterKeysRead(b, c.mk + 4, ms);
    WordAt(b, c.mk, |ms|);
  }

  /** A query's blob decodes to the delivery: the meaning of the tables survives the relinking. */
  lemma DecodeBlob(db: Db, r: nat, b: seq<byte>, blobOffset: nat)
    requires At(b, blobOffset, RecordBlob(db, r)) && |RecordBlob(db, r)| < WORD_LIMIT
    ensures Decode(b, blobOffset + 16) == (RecordDelivery(db, r), RecordKeys(db, r))
    ensures Word(b, blobOffset) == Word(db.file, db.calData) && Word(b, blobOffset + 4) == Word(db.file, db.calData + 4)
    ensures Word(b, blobOffset + 8) == |RecordBody(db, r)|
  {
    hide At, Le32, Word, RecordBody, RecordDelivery, RecordKeys, RecordInfo, BlobBody, Zeros, Decode;
    var iid, pid, body := Word(db.file, db.calData), Word(db.file, db.calData + 4), RecordBody(db, r);
    AtConcat(b, blobOffset, ModuleHeader(iid, pid, |body|) + body, Zeros(Padding8(|body|)));
    AtConcat(b, blobOffset, ModuleHeader(iid, pid, |body|), body);
    assert ModuleHeader(iid, pid, |body|) == (Le32(iid) + Le32(pid)) + (Le32(|body|) + Le32(0));
    AtConcat(b, blobOffset, Le32(iid) + Le32(pid), Le32(|body|) + Le32(0));
    TwoWords(b, blobOffset, iid, pid);
    TwoWords(b, blobOffset + 8, |body|, 0);
    assert body == BlobBody(RecordInfo(db, r), RecordDelivery(db, r), RecordKeys(db, r)) by { BodyOf(db, r); }
    DecodeBody(b, blobOffset + 16, RecordInfo(db, r), RecordDelivery(db, r), RecordKeys(db, r));
  }

  lemma BodyOf(db: Db, r: nat)
    ensures RecordBody(db, r) == BlobBody(RecordInfo(db, r), RecordDelivery(db, r), RecordKeys(db, r))
  {
  }

  // ---------------------------------------------------------------- what the delivery means

  /** Table i references the module: it has an object, and one of the first object's parameters is in that module. */
  predicate References(db: Db, off: nat, i: nat, iid: u32) {
    var o := TableOffset(db, off, i);
    Word(db.file, o + 12) > 0 && NamedFrom(db, o + 16, iid)
  }

  predicate NamedFrom(db: Db, obj: nat, iid: u32) {
    exists k: nat | k < Word(db.file, obj + 8) :: NamesAt(db, obj, k, iid)
  }

  /**
    An object starts with where its value list is, where its DEF table is, and its number of parameters. The k-th
    <IID, PID> pair behind the count of the DEF table is of this module.
   */
  predicate NamesAt(db: Db, obj: nat, k: nat, iid: u32) {
    Word(db.file, db.calDef + Word(db.file, obj + 4) + 4 + 8 * k) == iid
  }

  lemma IidsOfObject(db: Db, obj: nat, iid: u32)
    ensures iid in IidsOf(ObjAt(db, obj).params) <==> NamedFrom(db, obj, iid)
  {
    hide Word, Slice;
    var ps := ObjAt(db, obj).params;
    forall k: nat | k < |ps|
      ensures ps[k].iid == iid <==> NamesAt(db, obj, k, iid)
    {
    }
    if k: nat :| k < |ps| && NamesAt(db, obj, k, iid) {
      assert ps[k] in ps;
    }
  }

  lemma FirstIidsRead(db: Db, off: nat, i: nat, iid: u32)
    ensures iid in FirstIids(TableAt(db, TableOffset(db, off, i))) <==> References(db, off, i, iid)
  {
    hide Word, TableOffset, ObjAt, NamedFrom, IidsOf, KeyList;
    var o := TableOffset(db, off, i);
    var n := Word(db.file, o + 12);
    if n > 0 {
      ObjsAtIndex(db, o + 16, 0, n);
      IidsOfObject(db, o + 16, iid);
    }
  }

  lemma ReferencedStep(db: Db, off: nat, n: nat, iid: u32)
    ensures iid in Referenced(db, off, n) <==>
      n > 1 && (iid in Referenced(db, off, n - 1) || References(db, off, n - 1, iid))
  {
    hide FirstIids, TableAt, TableOffset, References;
    if n > 1 {
      FirstIidsRead(db, off, n - 1, iid);
    }
  }

  lemma {:induction false} ReferencedByOthers(db: Db, off: nat, n: nat, iid: u32)
    ensures iid in Referenced(db, off, n) <==> exists i: nat | 1 <= i < n :: References(db, off, i, iid)
  {
    hide References, Referenced;
    ReferencedStep(db, off, n, iid);
    if n > 1 {
      ReferencedByOthers(db, off, n - 1, iid);
      if i: nat :| 1 <= i < n && References(db, off, i, iid) {
        assert i < n - 1 || i == n - 1;
      }
    }
  }

  /** Some object with these key values holds the parameter. */
  predicate Holds(objs: seq<CalObj>, values: seq<u32>, p: Param) {
    exists k | 0 <= k < |objs| :: objs[k].values == values && p in objs[k].params
  }

  lemma HoldsSnoc(objs: seq<CalObj>, o: CalObj, values: seq<u32>, p: Param)
    ensures Holds(objs + [o], values, p) <==> Holds(objs, values, p) || (o.values == values && p in o.params)
  {
    var all := objs + [o];
    if Holds(objs, values, p) {
      var k :| 0 <= k < |objs| && objs[k].values == values && p in objs[k].params;
      assert all[k] == objs[k];
    }
    if o.values == values && p in o.params {
      assert all[|objs|] == o;
    }
  }

  lemma {:induction false} KeptMembers(ps: seq<Param>, isDefault: bool, refs: set<u32>, p: Param)
    ensures p in Kept(ps, isDefault, refs) <==> p in ps && !(isDefault && p.iid in refs)
  {
    if ps != [] {
      KeptMembers(ps[..|ps| - 1], isDefault, refs, p);
    }
  }

  lemma {:induction false} KeptObjsHold(objs: seq<CalObj>, isDefault: bool, refs: set<u32>, values: seq<u32>, p: Param)
    ensures Holds(KeptObjs(objs, isDefault, refs), values, p) <==>
      Holds(objs, values, p) && !(isDefault && p.iid in refs)
  {
    hide Kept, Holds;
    if objs == [] {
      assert !Holds([], values, p) by { NothingHolds(values, p); }
    } else {
      var init, o := objs[..|objs| - 1], objs[|objs| - 1];
      assert objs == init + [o];
      var k := CalObj(o.values, Kept(o.params, isDefault, refs));
      KeptObjsHold(init, isDefault, refs, values, p);
      KeptMembers(o.params, isDefault, refs, p);
      HoldsSnoc(init, o, values, p);
      HoldsSnoc(KeptObjs(init, isDefault, refs), k, values, p);
    }
  }

  lemma NothingHolds(values: seq<u32>, p: Param)
    ensures !Holds([], values, p)
  {
  }

  /** Some table with these keys holds the parameter under these values. */
  predicate Carries(ts: seq<CkvTable>, keys: seq<u32>, values: seq<u32>, p: Param) {
    exists i | 0 <= i < |ts| :: ts[i].keys == keys && Holds(ts[i].objs, values, p)
  }

  /** Non-default table i lies at o and has something to deliver. */
  predicate Listed(db: Db, off: nat, i: nat, o: nat) {
    o == TableOffset(db, off, i) && OutTable(db, o, {}).objs != []
  }

  lemma NonDefaultStep(db: Db, off: nat, m: nat, o: nat)
    ensures o in NonDefaultTables(db, off, m) <==>
      m > 1 && (o in NonDefaultTables(db, off, m - 1) || Listed(db, off, m - 1, o))
  {
    hide OutTable, TableOffset;
  }

  lemma {:induction false} NonDefaultListed(db: Db, off: nat, m: nat, o: nat)
    ensures o in NonDefaultTables(db, off, m) <==> exists i: nat | 1 <= i < m :: Listed(db, off, i, o)
  {
    hide Listed, NonDefaultTables;
    NonDefaultStep(db, off, m, o);
    if m > 1 {
      NonDefaultListed(db, off, m - 1, o);
      if i: nat :| 1 <= i < m && Listed(db, off, i, o) {
        assert i < m - 1 || i == m - 1;
      }
    }
  }

  /** Table i of the file holds the parameter under these keys and values. */
  predicate TableHolds(db: Db, off: nat, i: nat, keys: seq<u32>, values: seq<u32>, p: Param) {
    var t := TableAt(db, TableOffset(db, off, i));
    t.keys == keys && Holds(t.objs, values, p)
  }

  /** Table i holds the parameter, and no other table overrides it there. */
  predicate HoldsEffectively(db: Db, off: nat, n: nat, i: nat, keys: seq<u32>, values: seq<u32>, p: Param) {
    && TableHolds(db, off, i, keys, values, p)
    && (i == 0 ==> forall j: nat | 1 <= j < n :: !References(db, off, j, p.iid))
  }

  /** What is delivered of the table at o: all it holds, or what is not referenced if it is the default. */
  lemma OutTableHolds(db: Db, o: nat, refs: set<u32>, values: seq<u32>, p: Param)
    ensures Holds(OutTable(db, o, refs).objs, values, p) <==>
      Holds(TableAt(db, o).objs, values, p) && !(TableAt(db, o).keys == [] && p.iid in refs)
    ensures OutTable(db, o, refs).keys == TableAt(db, o).keys
  {
    KeptObjsHold(TableAt(db, o).objs, TableAt(db, o).keys == [], refs, values, p);
  }

  lemma CarriedIsHeld(db: Db, off: nat, n: nat, keys: seq<u32>, values: seq<u32>, p: Param)
    requires WellFormed(db, off, n) && Carries(Delivery(db, off, n), keys, values, p)
    ensures exists i: nat | i < n :: HoldsEffectively(db, off, n, i, keys, values, p)
  {
    hide Holds, TableAt, OutTable, References, Listed, NonDefaultTables, Referenced, TableOffset, FirstIids;
    var refs, offs, ts := Referenced(db, off, n), DataTables(db, off, n), Delivery(db, off, n);
    var k :| 0 <= k < |ts| && ts[k].keys == keys && Holds(ts[k].objs, values, p);
    var o := offs[k];
    OutTableHolds(db, o, refs, values, p);
    if o in NonDefaultTables(db, off, n) {
      NonDefaultListed(db, off, n, o);
      var i: nat :| 1 <= i < n && Listed(db, off, i, o);
      assert o == TableOffset(db, off, i) by { ListedOffset(db, off, i, o); }
      assert HoldsEffectively(db, off, n, i, keys, values, p);
    } else {
      FirstOffset(db, off);
      ReferencedByOthers(db, off, n, p.iid);
      assert HoldsEffectively(db, off, n, 0, keys, values, p);
    }
  }

  lemma ListedOffset(db: Db, off: nat, i: nat, o: nat)
    requires Listed(db, off, i, o)
    ensures o == TableOffset(db, off, i)
  {
  }

  lemma FirstOffset(db: Db, off: nat)
    ensures TableOffset(db, off, 0) == off
  {
  }

  lemma HeldIsCarried(db: Db, off: nat, n: nat, i: nat, keys: seq<u32>, values: seq<u32>, p: Param)
    requires WellFormed(db, off, n) && i < n && HoldsEffectively(db, off, n, i, keys, values, p)
    ensures Carries(Delivery(db, off, n), keys, values, p)
  {
    hide Holds, TableAt, OutTable, References, NonDefaultTables, Referenced, TableOffset, FirstIids;
    var refs, offs, ts := Referenced(db, off, n), DataTables(db, off, n), Delivery(db, off, n);
    var o := TableOffset(db, off, i);
    OutTableHolds(db, o, refs, values, p);
    OutTableHolds(db, o, {}, values, p);
    ReferencedByOthers(db, off, n, p.iid);
    FirstOffset(db, off);
    NothingHolds(values, p);
    if i > 0 {
      assert Listed(db, off, i, o);
      NonDefaultListed(db, off, n, o);
    }
    assert o in offs;
    var k :| 0 <= k < |offs| && offs[k] == o;
    assert ts[k] == OutTable(db, o, refs);
  }

  /**
    The override law. A parameter reaches the client under some keys and values exactly when a table of
    the file with those keys holds it under those values, and, if that is the default table, no other
    table references the parameter's module in its first object.
   */
  lemma DeliveryMeans(db: Db, off: nat, n: nat, keys: seq<u32>, values: seq<u32>, p: Param)
    requires WellFormed(db, off, n)
    ensures Carries(Delivery(db, off, n), keys, values, p) <==>
      exists i: nat | i < n :: HoldsEffectively(db, off, n, i, keys, values, p)
  {
    hide HoldsEffectively, Carries, Delivery;
    if Carries(Delivery(db, off, n), keys, values, p) {
      CarriedIsHeld(db, off, n, keys, values, p);
    }
    if i: nat :| i < n && HoldsEffectively(db, off, n, i, keys, values, p) {
      HeldIsCarried(db, off, n, i, keys, values, p);
    }
  }

  // ---------------------------------------------------------------- ... and in what order

  lemma {:induction false} KeptConcat(a: seq<Param>, b: seq<Param>, isDefault: bool, refs: set<u32>)
    ensures Kept(a + b, isDefault, refs) == Kept(a, isDefault, refs) + Kept(b, isDefault, refs)
  {
    if b == [] {
      assert a + b == a;
    } else {
      var n := |b| - 1;
      assert (a + b)[..|a + b| - 1] == a + b[..n];
      KeptConcat(a, b[..n], isDefault, refs);
    }
  }

  /** Parameters are left out one by one, and those that stay keep their order. */
  lemma KeptMeans(p: Param, a: seq<Param>, b: seq<Param>, isDefault: bool, refs: set<u32>)
    ensures Kept(a + [p] + b, isDefault, refs) ==
      Kept(a, isDefault, refs) + (if isDefault && p.iid in refs then [] else [p]) + Kept(b, isDefault, refs)
  {
    KeptConcat(a + [p], b, isDefault, refs);
    assert (a + [p])[..|a|] == a;
  }

  lemma {:induction false} KeptObjsConcat(a: seq<CalObj>, b: seq<CalObj>, isDefault: bool, refs: set<u32>)
    ensures KeptObjs(a + b, isDefault, refs) == KeptObjs(a, isDefault, refs) + KeptObjs(b, isDefault, refs)
  {
    hide Kept;
    if b == [] {
      assert a + b == a;
    } else {
      var n := |b| - 1;
      assert (a + b)[..|a + b| - 1] == a + b[..n];
      KeptObjsConcat(a, b[..n], isDefault, refs);
    }
  }

  /** An object keeps its values; one that is left without parameters goes, the others keep their order. */
  lemma KeptObjsMeans(o: CalObj, a: seq<CalObj>, b: seq<CalObj>, isDefault: bool, refs: set<u32>)
    ensures var ps := Kept(o.params, isDefault, refs);
      KeptObjs(a + [o] + b, isDefault, refs) ==
      KeptObjs(a, isDefault, refs) + (if ps == [] then [] else [CalObj(o.values, ps)]) + KeptObjs(b, isDefault, refs)
  {
    hide Kept;
    KeptObjsConcat(a + [o], b, isDefault, refs);
    assert (a + [o])[..|a|] == a;
  }

  /** The table itself, unless it has nothing to deliver. */
  function NonEmpty(t: CkvTable): seq<CkvTable> {
    if t.objs == [] then [] else [t]
  }

  /** Non-default tables 1 to n - 1 of the file, without their empty objects. */
  function OthersInFile(db: Db, off: nat, n: nat): seq<CkvTable> {
    if n == 0 then []
    else seq(n - 1, i requires 0 <= i < n - 1 => OutTable(db, TableOffset(db, off, i + 1), {}))
  }

  lemma OthersStep(db: Db, off: nat, n: nat)
    requires n > 1
    ensures Flat(NonEmpty, OthersInFile(db, off, n)) ==
      Flat(NonEmpty, OthersInFile(db, off, n - 1)) + NonEmpty(OutTable(db, TableOffset(db, off, n - 1), {}))
  {
    hide OutTable, TableOffset, Flat, NonEmpty;
    var t := OutTable(db, TableOffset(db, off, n - 1), {});
    assert OthersInFile(db, off, n) == OthersInFile(db, off, n - 1) + [t];
    FlatSnoc(NonEmpty, OthersInFile(db, off, n - 1), t);
  }

  lemma {:induction false} OthersInOrder(db: Db, off: nat, n: nat, m: nat, refs: set<u32>)
    requires WellFormed(db, off, n) && m <= n
    ensures OutTables(db, NonDefaultTables(db, off, m), refs) == Flat(NonEmpty, OthersInFile(db, off, m))
  {
    hide OutTable, TableAt, Flat, TableOffset;
    if m > 1 {
      var o := TableOffset(db, off, m - 1);
      OthersInOrder(db, off, n, m - 1, refs);
      OthersStep(db, off, m);
      KeyedTable(db, o, refs, {});
      OutTablesSnoc(db, NonDefaultTables(db, off, m - 1), o, refs);
    } else {
      assert OthersInFile(db, off, m) == [];
      NothingFlat();
    }
  }

  lemma NothingFlat()
    ensures Flat(NonEmpty, []) == []
  {
  }

  /**
    What is delivered: the non-default tables in the order of the file, but for those that have nothing, and behind
    them the default table without what they reference, if anything of it is left.
   */
  lemma DeliveryInOrder(db: Db, off: nat, n: nat)
    requires WellFormed(db, off, n)
    ensures Delivery(db, off, n) ==
      Flat(NonEmpty, OthersInFile(db, off, n)) + NonEmpty(OutTable(db, off, Referenced(db, off, n)))
  {
    hide OutTable, TableAt, Flat, WellFormed, NonDefaultTables, OthersInFile, Referenced;
    var refs := Referenced(db, off, n);
    OthersInOrder(db, off, n, n, refs);
    OutTablesSnoc(db, NonDefaultTables(db, off, n), off, refs);
  }

  lemma {:induction false} UsedKeysConcat(a: seq<MasterKey>, b: seq<MasterKey>, lists: seq<seq<u32>>)
    ensures UsedKeys(a + b, lists) == UsedKeys(a, lists) + UsedKeys(b, lists)
  {
    hide KeyUsed;
    if b == [] {
      assert a + b == a;
    } else {
      var n := |b| - 1;
      assert (a + b)[..|a + b| - 1] == a + b[..n];
      UsedKeysConcat(a, b[..n], lists);
    }
  }

  /** A master key is delivered exactly if a delivered table has it among its keys; order is kept. */
  lemma UsedKeysMean(m: MasterKey, a: seq<MasterKey>, b: seq<MasterKey>, ts: seq<CkvTable>)
    ensures var used := exists j | 0 <= j < |ts| :: m.keyId in ts[j].keys;
      UsedKeys(a + [m] + b, KeysOf(ts)) ==
      UsedKeys(a, KeysOf(ts)) + (if used then [m] else []) + UsedKeys(b, KeysOf(ts))
  {
    UsedKeysConcat(a + [m], b, KeysOf(ts));
    assert (a + [m])[..|a|] == a;
    if j :| 0 <= j < |ts| && m.keyId in ts[j].keys {
      assert m.keyId in KeysOf(ts)[j];
    }
  }
}
