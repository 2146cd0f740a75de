/**
  The voice calibration tables as they lie in the database file, the tables a query should
  deliver, and the five chunks of the VCPM blob that carries them.
 */
module VcpmFormat {
  import opened Bytes

  /** The file and the offsets of the chunks the VCPM query reads. */
  datatype Db = Db(file: seq<byte>, calData: nat, masterKey: nat, calKey: nat, calLut: nat, calDef: nat,
                   dataPool: nat, persistentPids: set<u32>)

  datatype Param = Param(iid: u32, pid: u32, payload: seq<byte>, persistent: bool)
  datatype CalObj = CalObj(values: seq<u32>, params: seq<Param>)
  datatype CkvTable = CkvTable(keys: seq<u32>, objs: seq<CalObj>)
  datatype MasterKey = MasterKey(keyId: u32, isDynamic: u32)

  // ---------------------------------------------------------------- the file

  /** A counted list of words at an absolute offset. */
  function KeyList(db: Db, off: nat): seq<u32> {
    WordList(db.file, off + 4, Word(db.file, off))
  }

  /** A value list: count, entry count (always one), values. */
  function ValueList(db: Db, off: nat): seq<u32> {
    WordList(db.file, db.calLut + off + 8, Word(db.file, db.calLut + off))
  }

  function ParamAt(db: Db, defOff: nat, poolOff: nat): (p: Param)
    ensures |p.payload| < WORD_LIMIT
  {
    var d, q := db.calDef + defOff + 4, db.dataPool + poolOff;
    Param(Word(db.file, d), Word(db.file, d + 4), Slice(db.file, q + 4, Word(db.file, q)),
          Word(db.file, d + 4) in db.persistentPids)
  }

  /** The first n parameters of the calibration data object at off. */
  function ObjParams(db: Db, off: nat, n: nat): (r: seq<Param>)
    ensures |r| == n
  {
    seq(n, i requires 0 <= i < n =>
      ParamAt(db, Word(db.file, off + 4) + 8 * i, Word(db.file, off + 12 + 4 * i)))
  }

  function ObjAt(db: Db, off: nat): CalObj {
    CalObj(ValueList(db, Word(db.file, off)), ObjParams(db, off, Word(db.file, off + 8)))
  }

  function ObjEnd(db: Db, off: nat): nat {
    off + 12 + 4 * Word(db.file, off + 8)
  }

  function ObjsEnd(db: Db, off: nat, n: nat): nat {
    if n == 0 then off else ObjEnd(db, ObjsEnd(db, off, n - 1))
  }

  function ObjsAt(db: Db, off: nat, n: nat): (r: seq<CalObj>)
    ensures |r| == n
  {
    if n == 0 then [] else ObjsAt(db, off, n - 1) + [ObjAt(db, ObjsEnd(db, off, n - 1))]
  }

  function TableKeyOffset(db: Db, off: nat): nat {
    db.calKey + Word(db.file, off + 4)
  }

  function TableAt(db: Db, off: nat): CkvTable {
    CkvTable(KeyList(db, TableKeyOffset(db, off)), ObjsAt(db, off + 16, Word(db.file, off + 12)))
  }

  function TableEnd(db: Db, off: nat): nat {
    ObjsEnd(db, off + 16, Word(db.file, off + 12))
  }

  // ---------------------------------------------------------------- what is delivered

  function IidsOf(ps: seq<Param>): set<u32> {
    set p | p in ps :: p.iid
  }

  /** The IIDs a table puts on the reference list: those of its first object. */
  function FirstIids(t: CkvTable): set<u32> {
    if t.objs == [] then {} else IidsOf(t.objs[0].params)
  }

  /** The reference list cannot hold IID 0, which marks its unused first entry. */
  predicate NonzeroIids(t: CkvTable) {
    t.objs != [] ==> forall p | p in t.objs[0].params :: p.iid != 0
  }

  /** A default table gives up every parameter whose module is referenced by a non-default table. */
  function Kept(ps: seq<Param>, isDefault: bool, refs: set<u32>): seq<Param> {
    if ps == [] then []
    else
      var init, p := Kept(ps[..|ps| - 1], isDefault, refs), ps[|ps| - 1];
      if isDefault && p.iid in refs then init else init + [p]
  }

  function KeptObjs(objs: seq<CalObj>, isDefault: bool, refs: set<u32>): seq<CalObj> {
    if objs == [] then []
    else
      var init, o := KeptObjs(objs[..|objs| - 1], isDefault, refs), objs[|objs| - 1];
      var ps := Kept(o.params, isDefault, refs);
      if ps == [] then init else init + [CalObj(o.values, ps)]
  }

  function OutTable(db: Db, off: nat, refs: set<u32>): CkvTable {
    var t := TableAt(db, off);
    CkvTable(t.keys, KeptObjs(t.objs, t.keys == [], refs))
  }

  // ---------------------------------------------------------------- the chunks

  function IdBytes(p: Param): (r: seq<byte>)
    ensures |r| == 8
  {
    Le32(p.iid) + Le32(p.pid)
  }

  function PayloadBytes(p: Param): (r: seq<byte>)
    ensures |r| == 8 + Align8(|p.payload|)
  {
    Le32(|p.payload|) + Le32(0) + p.payload + Zeros(Padding8(|p.payload|))
  }

  function RecordBytes(p: Param): (r: seq<byte>)
    ensures |r| == 16 + Align8(|p.payload|)
  {
    IdBytes(p) + PayloadBytes(p)
  }

  function PoolBytes(ps: seq<Param>): seq<byte> {
    Flat(RecordBytes, ps)
  }

  function InfoBytes(persistent: bool, rel: nat): (r: seq<byte>)
    ensures |r| == 8
  {
    Le32(rel) + Le32(if persistent then 1 else 0)
  }

  /** <data pool offset, is persistent> of each parameter; the records start at rel. */
  function ParamInfos(ps: seq<Param>, rel: nat): (r: seq<byte>)
    ensures |r| == 8 * |ps|
  {
    if ps == [] then []
    else ParamInfos(ps[..|ps| - 1], rel) + InfoBytes(ps[|ps| - 1].persistent, rel + |PoolBytes(ps[..|ps| - 1])|)
  }

  function ListBytes(ws: seq<u32>): (r: seq<byte>)
    ensures |r| == 4 + 4 * |ws|
  {
    Le32(|ws|) + Words(ws)
  }

  function ObjSg(o: CalObj, lutRel: nat, poolRel: nat): (r: seq<byte>)
    ensures |r| == 8 + 8 * |o.params|
  {
    Le32(lutRel) + Le32(|o.params|) + ParamInfos(o.params, poolRel)
  }

  function ObjLut(o: CalObj): seq<byte> {
    ListBytes(o.values)
  }

  function ObjPool(o: CalObj): seq<byte> {
    PoolBytes(o.params)
  }

  function ObjSize(o: CalObj): nat {
    8 + 8 * |o.params|
  }

  function ObjsLut(objs: seq<CalObj>): seq<byte> {
    Flat(ObjLut, objs)
  }

  function ObjsPool(objs: seq<CalObj>): seq<byte> {
    Flat(ObjPool, objs)
  }

  function DotSize(objs: seq<CalObj>): nat {
    Sum(ObjSize, objs)
  }

  function ObjsSg(objs: seq<CalObj>, lutRel: nat, poolRel: nat): (r: seq<byte>)
    ensures |r| == DotSize(objs)
  {
    if objs == [] then []
    else
      var init := objs[..|objs| - 1];
      ObjsSg(init, lutRel, poolRel) + ObjSg(objs[|objs| - 1], lutRel + |ObjsLut(init)|, poolRel + |ObjsPool(init)|)
  }

  function TableHeader(t: CkvTable, kidRel: nat): (r: seq<byte>)
    ensures |r| == 16
  {
    Le32(12 + DotSize(t.objs)) + Le32(kidRel) + Le32(DotSize(t.objs)) + Le32(|t.objs|)
  }

  function TableSg(t: CkvTable, kidRel: nat, lutRel: nat, poolRel: nat): (r: seq<byte>)
    ensures |r| == 16 + DotSize(t.objs)
  {
    TableHeader(t, kidRel) + ObjsSg(t.objs, lutRel, poolRel)
  }

  function TableKid(t: CkvTable): seq<byte> {
    ListBytes(t.keys)
  }

  function TableLut(t: CkvTable): seq<byte> {
    ObjsLut(t.objs)
  }

  function TablePool(t: CkvTable): seq<byte> {
    ObjsPool(t.objs)
  }

  function TableSize(t: CkvTable): nat {
    16 + DotSize(t.objs)
  }

  function TablesKid(ts: seq<CkvTable>): seq<byte> {
    Flat(TableKid, ts)
  }

  function TablesLut(ts: seq<CkvTable>): seq<byte> {
    Flat(TableLut, ts)
  }

  function TablesPool(ts: seq<CkvTable>): seq<byte> {
    Flat(TablePool, ts)
  }

  function TablesSize(ts: seq<CkvTable>): nat {
    Sum(TableSize, ts)
  }

  function TablesSg(ts: seq<CkvTable>): (r: seq<byte>)
    ensures |r| == TablesSize(ts)
  {
    if ts == [] then []
    else
      var init := ts[..|ts| - 1];
      TablesSg(init) + TableSg(ts[|ts| - 1], |TablesKid(init)|, |TablesLut(init)|, |TablesPool(init)|)
  }

  // ---------------------------------------------------------------- a subgraph and its blob

  /** Table 0 is the default table; it is skipped by its size field, the others by walking them. */
  function TableOffset(db: Db, off: nat, i: nat): nat {
    if i == 0 then off
    else if i == 1 then off + Word(db.file, off) + 4
    else TableEnd(db, TableOffset(db, off, i - 1))
  }

  /** The modules that non-default tables 1 to n - 1 reference. */
  function Referenced(db: Db, off: nat, n: nat): set<u32> {
    if n <= 1 then {} else Referenced(db, off, n - 1) + FirstIids(TableAt(db, TableOffset(db, off, n - 1)))
  }

  function OutTables(db: Db, offs: seq<nat>, refs: set<u32>): (r: seq<CkvTable>)
    ensures |r| == |offs|
  {
    seq(|offs|, i requires 0 <= i < |offs| => OutTable(db, offs[i], refs))
  }

  /** The tables 1 to n - 1 that have something to deliver, in file order. */
  function NonDefaultTables(db: Db, off: nat, n: nat): (r: seq<nat>)
    ensures |r| <= if n == 0 then 0 else n - 1
  {
    if n <= 1 then []
    else
      var o := TableOffset(db, off, n - 1);
      var init := NonDefaultTables(db, off, n - 1);
      if OutTable(db, o, {}).objs == [] then init else init + [o]
  }

  /** ... followed by the default table, if any of its parameters is left. */
  function DataTables(db: Db, off: nat, n: nat): (r: seq<nat>)
    ensures |r| <= if n == 0 then 1 else n
  {
    var others := NonDefaultTables(db, off, n);
    if OutTable(db, off, Referenced(db, off, n)).objs == [] then others else others + [off]
  }

  /** What a query for the n tables at off delivers. */
  function Delivery(db: Db, off: nat, n: nat): seq<CkvTable> {
    OutTables(db, DataTables(db, off, n), Referenced(db, off, n))
  }

  predicate SortedKeys(ks: seq<u32>) {
    forall i, j | 0 <= i < j < |ks| :: ks[i] <= ks[j]
  }

  /** Table 0, and only it, is keyless; key lists are sorted; fewer than 249 tables. */
  ghost predicate WellFormed(db: Db, off: nat, n: nat) {
    && 1 <= n < 249
    && TableAt(db, off).keys == []
    && forall i | 1 <= i < n :: WellFormedTable(TableAt(db, TableOffset(db, off, i)))
  }

  predicate WellFormedTable(t: CkvTable) {
    t.keys != [] && SortedKeys(t.keys) && NonzeroIids(t)
  }

  function MasterKeyAt(db: Db, off: nat, i: nat): MasterKey {
    MasterKey(Word(db.file, db.masterKey + off + 4 + 8 * i), Word(db.file, db.masterKey + off + 8 + 8 * i))
  }

  function MasterKeysAt(db: Db, off: nat): seq<MasterKey> {
    seq(Word(db.file, db.masterKey + off), i requires 0 <= i => MasterKeyAt(db, off, i))
  }

  predicate KeyUsed(keyId: u32, lists: seq<seq<u32>>) {
    exists j | 0 <= j < |lists| :: keyId in lists[j]
  }

  /** The master keys that some delivered table uses. */
  function UsedKeys(ms: seq<MasterKey>, lists: seq<seq<u32>>): seq<MasterKey> {
    if ms == [] then []
    else
      var init, m := UsedKeys(ms[..|ms| - 1], lists), ms[|ms| - 1];
      if KeyUsed(m.keyId, lists) then init + [m] else init
  }

  function MasterKeyBytes(m: MasterKey): (r: seq<byte>)
    ensures |r| == 8
  {
    Le32(m.keyId) + Le32(m.isDynamic)
  }

  lemma {:induction false} MasterKeysSize(ms: seq<MasterKey>)
    ensures |Flat(MasterKeyBytes, ms)| == 8 * |ms|
  {
    if ms != [] {
      MasterKeysSize(ms[..|ms| - 1]);
    }
  }

  function MasterBytes(ms: seq<MasterKey>): seq<byte> {
    Le32(|ms|) + Flat(MasterKeyBytes, ms)
  }

  function KeysOf(ts: seq<CkvTable>): (r: seq<seq<u32>>)
    ensures |r| == |ts|
  {
    seq(|ts|, i requires 0 <= i < |ts| => ts[i].keys)
  }

  function KeyListsAt(db: Db, offs: seq<nat>): (r: seq<seq<u32>>)
    ensures |r| == |offs|
  {
    seq(|offs|, i requires 0 <= i < |offs| => KeyList(db, offs[i]))
  }

  function KeyOffsets(db: Db, offs: seq<nat>): (r: seq<nat>)
    ensures |r| == |offs|
  {
    seq(|offs|, i requires 0 <= i < |offs| => TableKeyOffset(db, offs[i]))
  }

  datatype SgInfo = SgInfo(subgraphId: u32, major: u32, minor: u32)

  function SgHeader(g: SgInfo, ts: seq<CkvTable>): (r: seq<byte>)
    ensures |r| == 28
  {
    Le32(1) + Le32(g.subgraphId) + Le32(16 + TablesSize(ts)) + Le32(g.major) + Le32(g.minor) + Le32(0) + Le32(|ts|)
  }

  /** A chunk behind its size. */
  function Sized(s: seq<byte>): seq<byte> {
    Le32(|s|) + s
  }

  /** The parameter of the VCPM framework module: five chunks, all but the first behind their size. */
  function BlobBody(g: SgInfo, ts: seq<CkvTable>, ms: seq<MasterKey>): seq<byte> {
    SgHeader(g, ts) + TablesSg(ts) +
    Sized(MasterBytes(ms)) + Sized(TablesKid(ts)) + Sized(TablesLut(ts)) + Sized(TablesPool(ts))
  }

  function ModuleHeader(iid: u32, pid: u32, size: nat): (r: seq<byte>)
    ensures |r| == 16
  {
    Le32(iid) + Le32(pid) + Le32(size) + Le32(0)
  }

  function VcpmBlob(iid: u32, pid: u32, body: seq<byte>): (r: seq<byte>)
    ensures |r| == 16 + Align8(|body|)
  {
    ModuleHeader(iid, pid, |body|) + body + Zeros(Padding8(|body|))
  }

  /** The first of the n subgraph records from off on that carries the id, as a scan finds it. */
  function FindSubgraph(db: Db, off: nat, n: nat, subgraphId: u32): Option<nat>
    decreases n
  {
    if n == 0 then None
    else if Word(db.file, off) == subgraphId then Some(off)
    else FindSubgraph(db, off + 8 + Word(db.file, off + 4), n - 1, subgraphId)
  }

  function SubgraphRecord(db: Db, subgraphId: u32): Option<nat> {
    FindSubgraph(db, db.calData + 12, Word(db.file, db.calData + 8), subgraphId)
  }

  // The record: subgraph id, size, major, minor, master key offset, number of tables; then the tables.

  function RecordInfo(db: Db, r: nat): SgInfo {
    SgInfo(Word(db.file, r), Word(db.file, r + 8), Word(db.file, r + 12))
  }

  function RecordDelivery(db: Db, r: nat): seq<CkvTable> {
    Delivery(db, r + 24, Word(db.file, r + 20))
  }

  function RecordKeys(db: Db, r: nat): seq<MasterKey> {
    UsedKeys(MasterKeysAt(db, Word(db.file, r + 16)), KeysOf(RecordDelivery(db, r)))
  }

  ghost predicate WellFormedRecord(db: Db, r: nat) {
    WellFormed(db, r + 24, Word(db.file, r + 20))
  }

  function RecordBody(db: Db, r: nat): seq<byte> {
    BlobBody(RecordInfo(db, r), RecordDelivery(db, r), RecordKeys(db, r))
  }

  /** The blob that answers a query for the subgraph whose record is at r. */
  function RecordBlob(db: Db, r: nat): seq<byte> {
    VcpmBlob(Word(db.file, db.calData), Word(db.file, db.calData + 4), RecordBody(db, r))
  }

  // ---------------------------------------------------------------- prefixes

  lemma ParamsSnoc(ks: seq<Param>, p: Param, rel: nat)
    ensures PoolBytes(ks + [p]) == PoolBytes(ks) + (IdBytes(p) + PayloadBytes(p))
    ensures |PoolBytes(ks + [p])| == |PoolBytes(ks)| + |RecordBytes(p)|
    ensures ParamInfos(ks + [p], rel) == ParamInfos(ks, rel) + InfoBytes(p.persistent, rel + |PoolBytes(ks)|)
  {
    FlatSnoc(RecordBytes, ks, p);
    assert (ks + [p])[..|ks|] == ks;
  }

  lemma ObjsSnoc(ks: seq<CalObj>, k: CalObj, lutRel: nat, poolRel: nat)
    ensures ObjsLut(ks + [k]) == ObjsLut(ks) + ObjLut(k)
    ensures ObjsPool(ks + [k]) == ObjsPool(ks) + ObjPool(k)
    ensures |ObjsLut(ks + [k])| == |ObjsLut(ks)| + |ObjLut(k)| && |ObjsPool(ks + [k])| == |ObjsPool(ks)| + |ObjPool(k)|
    ensures DotSize(ks + [k]) == DotSize(ks) + ObjSize(k)
    ensures ObjsSg(ks + [k], lutRel, poolRel) ==
      ObjsSg(ks, lutRel, poolRel) + ObjSg(k, lutRel + |ObjsLut(ks)|, poolRel + |ObjsPool(ks)|)
  {
    hide ObjLut, ObjPool, ObjSg;
    FlatSnoc(ObjLut, ks, k);
    FlatSnoc(ObjPool, ks, k);
    assert (ks + [k])[..|ks|] == ks;
  }

  lemma TablesSnoc(ts: seq<CkvTable>, t: CkvTable)
    ensures TablesKid(ts + [t]) == TablesKid(ts) + TableKid(t)
    ensures TablesLut(ts + [t]) == TablesLut(ts) + TableLut(t)
    ensures TablesPool(ts + [t]) == TablesPool(ts) + TablePool(t)
    ensures TablesSize(ts + [t]) == TablesSize(ts) + TableSize(t)
    ensures TablesSg(ts + [t]) == TablesSg(ts) + TableSg(t, |TablesKid(ts)|, |TablesLut(ts)|, |TablesPool(ts)|)
  {
    hide TableKid, TableLut, TablePool, TableSg;
    FlatSnoc(TableKid, ts, t);
    FlatSnoc(TableLut, ts, t);
    FlatSnoc(TablePool, ts, t);
    assert (ts + [t])[..|ts|] == ts;
  }

  lemma BodySize(g: SgInfo, ts: seq<CkvTable>, ms: seq<MasterKey>)
    ensures |BlobBody(g, ts, ms)| ==
      28 + TablesSize(ts) + 4 + |MasterBytes(ms)| + 4 + |TablesKid(ts)| + 4 + |TablesLut(ts)| + 4 + |TablesPool(ts)|
  {
    hide SgHeader, TablesSg, MasterBytes, TablesKid, TablesLut, TablesPool, TablesSize;
  }

  lemma TablesSizeSnoc(ts: seq<CkvTable>, t: CkvTable)
    ensures TablesSize(ts + [t]) == TablesSize(ts) + TableSize(t)
  {
    TablesSnoc(ts, t);
  }

  lemma TablesSizes(a: seq<CkvTable>, b: seq<CkvTable>)
    requires a <= b
    ensures |TablesKid(a)| <= |TablesKid(b)| && |TablesLut(a)| <= |TablesLut(b)|
    ensures |TablesPool(a)| <= |TablesPool(b)| && TablesSize(a) <= TablesSize(b)
  {
    FlatPrefix(TableKid, a, b);
    FlatPrefix(TableLut, a, b);
    FlatPrefix(TablePool, a, b);
    SumPrefix(TableSize, a, b);
  }

  lemma NoTables()
    ensures TablesKid([]) == TablesLut([]) == TablesPool([]) == TablesSg([]) == [] && TablesSize([]) == 0
  {
  }

  /** Only the default table depends on the reference list. */
  lemma {:induction false} KeptObjsOfOthers(objs: seq<CalObj>, a: set<u32>, b: set<u32>)
    ensures KeptObjs(objs, false, a) == KeptObjs(objs, false, b)
  {
    if objs != [] {
      KeptObjsOfOthers(objs[..|objs| - 1], a, b);
      KeptAll(objs[|objs| - 1].params, a);
      KeptAll(objs[|objs| - 1].params, b);
    }
  }

  lemma OutTableOfOthers(db: Db, off: nat, a: set<u32>, b: set<u32>)
    requires TableAt(db, off).keys != []
    ensures OutTable(db, off, a) == OutTable(db, off, b)
  {
    KeptObjsOfOthers(TableAt(db, off).objs, a, b);
  }

  lemma KeyedTable(db: Db, off: nat, a: set<u32>, b: set<u32>)
    requires WellFormedTable(TableAt(db, off))
    ensures TableAt(db, off).keys != [] && NonzeroIids(TableAt(db, off))
    ensures OutTable(db, off, a) == OutTable(db, off, b) == OutTable(db, off, {})
  {
    OutTableOfOthers(db, off, a, b);
    OutTableOfOthers(db, off, a, {});
  }

  lemma OutTablesSnoc(db: Db, offs: seq<nat>, o: nat, refs: set<u32>)
    ensures OutTables(db, offs + [o], refs) == OutTables(db, offs, refs) + [OutTable(db, o, refs)]
    ensures KeyOffsets(db, offs + [o]) == KeyOffsets(db, offs) + [TableKeyOffset(db, o)]
  {
  }

  lemma {:induction false} NonDefaultFacts(db: Db, off: nat, n: nat, m: nat, o: nat)
    requires WellFormed(db, off, n) && m <= n && o in NonDefaultTables(db, off, m)
    ensures WellFormedTable(TableAt(db, o)) && OutTable(db, o, {}).objs != []
    ensures FirstIids(TableAt(db, o)) <= Referenced(db, off, m)
  {
    hide TableAt, OutTable, WellFormedTable;
    if m > 1 && o in NonDefaultTables(db, off, m - 1) {
      NonDefaultFacts(db, off, n, m - 1, o);
    }
  }

  /** What the data pass may rely on for every table the sizing pass listed. */
  lemma DataTableFacts(db: Db, off: nat, n: nat, o: nat)
    requires WellFormed(db, off, n) && o in DataTables(db, off, n)
    ensures OutTable(db, o, Referenced(db, off, n)).objs != []
    ensures SortedKeys(TableAt(db, o).keys)
    ensures TableAt(db, o).keys != [] ==>
      NonzeroIids(TableAt(db, o)) && FirstIids(TableAt(db, o)) <= Referenced(db, off, n)
    ensures o in NonDefaultTables(db, off, n) ==> TableAt(db, o).keys != []
  {
    hide OutTable, TableAt;
    if o in NonDefaultTables(db, off, n) {
      NonDefaultFacts(db, off, n, n, o);
      OutTableOfOthers(db, o, {}, Referenced(db, off, n));
    }
  }

  lemma KeyListsOf(db: Db, off: nat, n: nat)
    requires WellFormed(db, off, n)
    ensures var offs := DataTables(db, off, n); var lists := KeyListsAt(db, KeyOffsets(db, offs));
      lists == KeysOf(Delivery(db, off, n)) && forall l | l in lists :: SortedKeys(l)
  {
    hide ObjsAt, KeptObjs, KeyList, SortedKeys;
    var offs := DataTables(db, off, n);
    var lists := KeyListsAt(db, KeyOffsets(db, offs));
    forall l | l in lists
      ensures SortedKeys(l)
    {
      var i :| 0 <= i < |lists| && l == lists[i];
      DataTableFacts(db, off, n, offs[i]);
    }
  }

  lemma {:induction false} MasterSlice(db: Db, off: nat, n: nat)
    requires n <= |MasterKeysAt(db, off)|
    ensures Flat(MasterKeyBytes, MasterKeysAt(db, off)[..n]) == Slice(db.file, db.masterKey + off + 4, 8 * n)
  {
    hide Word, Slice, Le32;
    var ms, o := MasterKeysAt(db, off), db.masterKey + off + 4;
    if n == 0 {
      assert Slice(db.file, o, 0) == [];
    } else {
      MasterSlice(db, off, n - 1);
      assert ms[..n][..n - 1] == ms[..n - 1];
      Le32OfWord(db.file, o + 8 * (n - 1));
      Le32OfWord(db.file, o + 8 * (n - 1) + 4);
      SliceSplit(db.file, o + 8 * (n - 1), 4, 4);
      SliceSplit(db.file, o, 8 * (n - 1), 8);
    }
  }

  lemma UsedKeysStep(ms: seq<MasterKey>, i: nat, lists: seq<seq<u32>>)
    requires i < |ms|
    ensures UsedKeys(ms[..i + 1], lists) ==
            if KeyUsed(ms[i].keyId, lists) then UsedKeys(ms[..i], lists) + [ms[i]] else UsedKeys(ms[..i], lists)
    ensures |UsedKeys(ms[..i], lists)| <= i
  {
    assert ms[..i + 1][..i] == ms[..i];
    UsedKeysFew(ms[..i], lists);
  }

  lemma {:induction false} UsedKeysFew(ms: seq<MasterKey>, lists: seq<seq<u32>>)
    ensures |UsedKeys(ms, lists)| <= |ms|
    ensures |UsedKeys(ms, lists)| == |ms| ==> UsedKeys(ms, lists) == ms
  {
    if ms != [] {
      UsedKeysFew(ms[..|ms| - 1], lists);
    }
  }

  lemma {:induction false} KeptAll(ps: seq<Param>, refs: set<u32>)
    ensures Kept(ps, false, refs) == ps
  {
    if ps != [] {
      KeptAll(ps[..|ps| - 1], refs);
    }
  }

  lemma {:induction false} KeptPrefix(ps: seq<Param>, i: nat, isDefault: bool, refs: set<u32>)
    requires i <= |ps|
    ensures Kept(ps[..i], isDefault, refs) <= Kept(ps, isDefault, refs)
  {
    if i < |ps| {
      var init := ps[..|ps| - 1];
      KeptPrefix(init, i, isDefault, refs);
      assert init[..i] == ps[..i];
    } else {
      assert ps[..i] == ps;
    }
  }

  lemma {:induction false} KeptObjsPrefix(objs: seq<CalObj>, i: nat, isDefault: bool, refs: set<u32>)
    requires i <= |objs|
    ensures KeptObjs(objs[..i], isDefault, refs) <= KeptObjs(objs, isDefault, refs)
  {
    if i < |objs| {
      var init := objs[..|objs| - 1];
      KeptObjsPrefix(init, i, isDefault, refs);
      assert init[..i] == objs[..i];
    } else {
      assert objs[..i] == objs;
    }
  }

  lemma KeptStep(ps: seq<Param>, i: nat, isDefault: bool, refs: set<u32>)
    requires i < |ps|
    ensures Kept(ps[..i + 1], isDefault, refs) ==
      Kept(ps[..i], isDefault, refs) + if isDefault && ps[i].iid in refs then [] else [ps[i]]
    ensures Kept(ps[..i + 1], isDefault, refs) <= Kept(ps, isDefault, refs)
    ensures IidsOf(ps[..i + 1]) == IidsOf(ps[..i]) + {ps[i].iid}
  {
    assert ps[..i + 1][..i] == ps[..i];
    assert ps[..i + 1] == ps[..i] + [ps[i]];
    KeptPrefix(ps, i + 1, isDefault, refs);
  }

  lemma KeptObjsStep(objs: seq<CalObj>, i: nat, isDefault: bool, refs: set<u32>)
    requires i < |objs|
    ensures var k := CalObj(objs[i].values, Kept(objs[i].params, isDefault, refs));
      && KeptObjs(objs[..i + 1], isDefault, refs) ==
        KeptObjs(objs[..i], isDefault, refs) + (if k.params == [] then [] else [k])
      && KeptObjs(objs[..i + 1], isDefault, refs) <= KeptObjs(objs, isDefault, refs)
  {
    assert objs[..i + 1][..i] == objs[..i];
    KeptObjsPrefix(objs, i + 1, isDefault, refs);
  }

  lemma ParamsSizes(a: seq<Param>, b: seq<Param>)
    requires a <= b
    ensures |PoolBytes(a)| <= |PoolBytes(b)|
  {
    FlatPrefix(RecordBytes, a, b);
  }

  lemma NoParams(isDefault: bool, refs: set<u32>, rel: nat)
    ensures IidsOf([]) == {} && Kept([], isDefault, refs) == [] && PoolBytes([]) == [] && ParamInfos([], rel) == []
  {
  }

  lemma NoObjs(isDefault: bool, refs: set<u32>, lutRel: nat, poolRel: nat)
    ensures KeptObjs([], isDefault, refs) == [] && ObjsSg([], lutRel, poolRel) == [] && DotSize([]) == 0
    ensures ObjsLut([]) == [] && ObjsPool([]) == []
  {
  }

  lemma ObjsSizes(a: seq<CalObj>, b: seq<CalObj>)
    requires a <= b
    ensures |ObjsLut(a)| <= |ObjsLut(b)| && |ObjsPool(a)| <= |ObjsPool(b)| && DotSize(a) <= DotSize(b)
  {
    FlatPrefix(ObjLut, a, b);
    FlatPrefix(ObjPool, a, b);
    SumPrefix(ObjSize, a, b);
  }

  lemma {:induction false} ObjsAtIndex(db: Db, off: nat, i: nat, n: nat)
    requires i < n
    ensures ObjsAt(db, off, n)[i] == ObjAt(db, ObjsEnd(db, off, i))
  {
    hide ObjAt, ObjEnd;
    if i < n - 1 {
      ObjsAtIndex(db, off, i, n - 1);
    }
  }
}
