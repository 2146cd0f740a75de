/**
  The VCPM blob builder: one walk over the calibration tables that either adds up chunk sizes
  (op is GetSize) or writes the chunks through their interleaved cursors (op is GetData).
 */
module VcpmBuilder {
  import opened Bytes
  import opened VcpmFormat
  import CalRefs
  import Search

  // The offset lists share a 500-word buffer, half each.
  const LIST_CAPACITY := 250

  datatype Op = GetSize | GetData

  datatype Chunk = Chunk(base: nat, offset: nat, size: nat)

  /** What emitting n bytes does to a chunk in either pass. */
  function Advance(op: Op, c: Chunk, n: nat): Chunk {
    if op.GetSize? then c.(size := c.size + n) else c.(offset := c.offset + n)
  }

  // ---------------------------------------------------------------- the walk, observed from outside

  /** The part of the builder's state that a delivery changes. */
  datatype View = View(op: Op, sg: Chunk, kid: Chunk, lut: Chunk, pool: Chunk, b: seq<byte>)

  /** Bytes for each chunk. */
  datatype Out = Out(sg: seq<byte>, kid: seq<byte>, lut: seq<byte>, pool: seq<byte>)

  const NOTHING := Out([], [], [], [])

  function Cat(x: Out, y: Out): Out {
    Out(x.sg + y.sg, x.kid + y.kid, x.lut + y.lut, x.pool + y.pool)
  }

  /** Distance from the chunk's base: what is stored as an offset, and the size counted so far. */
  function Rel(op: Op, c: Chunk): nat {
    if op.GetSize? then c.size else if c.base <= c.offset then c.offset - c.base else 0
  }

  /**
    In the data pass o fits: every chunk ends before the next cursor, the data pool inside the buffer.
   */
  ghost predicate Room(v: View, o: Out) {
    v.op.GetData? ==>
      && Based(v)
      && v.sg.offset + |o.sg| <= v.kid.offset
      && v.kid.offset + |o.kid| <= v.lut.offset
      && v.lut.offset + |o.lut| <= v.pool.offset
      && v.pool.offset + |o.pool| <= |v.b|
  }

  predicate In(before: Chunk, after: Chunk, i: int) {
    before.offset <= i < after.offset
  }

  /** Between v0 and v exactly o was accounted for, or written at the cursors, and nothing else. */
  ghost predicate Delivered(v0: View, v: View, o: Out) {
    && v.op == v0.op && |v.b| == |v0.b|
    && v.sg == (if v0.op.GetSize? then v0.sg else Advance(v0.op, v0.sg, |o.sg|))
    && v.kid == Advance(v0.op, v0.kid, |o.kid|)
    && v.lut == Advance(v0.op, v0.lut, |o.lut|)
    && v.pool == Advance(v0.op, v0.pool, |o.pool|)
    && (v0.op.GetSize? ==> v.b == v0.b)
    && (v0.op.GetData? ==>
      && At(v.b, v0.sg.offset, o.sg) && At(v.b, v0.kid.offset, o.kid)
      && At(v.b, v0.lut.offset, o.lut) && At(v.b, v0.pool.offset, o.pool))
    && forall i | 0 <= i < |v.b| && !In(v0.sg, v.sg, i) && !In(v0.kid, v.kid, i) && !In(v0.lut, v.lut, i)
         && !In(v0.pool, v.pool, i) :: v.b[i] == v0.b[i]
  }

  lemma DeliveredNothing(v: View)
    requires Room(v, NOTHING)
    ensures Delivered(v, v, NOTHING)
  {
  }

  /** Deliveries add up: no later write disturbs an earlier one. */
  lemma DeliveredBoth(v0: View, v1: View, v2: View, x: Out, y: Out)
    requires Room(v0, Cat(x, y)) && Delivered(v0, v1, x) && Delivered(v1, v2, y)
    ensures Delivered(v0, v2, Cat(x, y))
  {
    hide At;
    if v0.op.GetData? {
      WrittenBoth(v1, v2, v0.sg.offset, x.sg, y.sg);
      WrittenBoth(v1, v2, v0.kid.offset, x.kid, y.kid);
      WrittenBoth(v1, v2, v0.lut.offset, x.lut, y.lut);
      WrittenBoth(v1, v2, v0.pool.offset, x.pool, y.pool);
    }
  }

  lemma WrittenBoth(v1: View, v2: View, off: nat, a: seq<byte>, b: seq<byte>)
    requires |v1.b| == |v2.b| && At(v1.b, off, a) && At(v2.b, off + |a|, b)
    requires forall i | off <= i < off + |a| && i < |v2.b| :: v2.b[i] == v1.b[i]
    ensures At(v2.b, off, a + b)
  {
    hide At;
    AtExtend(v1.b, v2.b, off, a, b);
  }

  /** o, and behind it in the info chunk the header that an object reserves before it is known to be empty. */
  function Padded(o: Out): Out {
    o.(sg := o.sg + Zeros(8))
  }

  lemma PaddedRoomAfter(v0: View, v1: View, x: Out, y: Out)
    requires Room(v0, Padded(Cat(x, y))) && Delivered(v0, v1, x)
    ensures Room(v1, Padded(y))
  {
    assert Padded(Cat(x, y)) == Cat(x, Padded(y));
    RoomAfter(v0, v1, x, Padded(y));
  }

  lemma NothingDelivered(v0: View, v: View)
    requires Delivered(v0, v, NOTHING)
    ensures v == v0
  {
    assert v.b == v0.b;
  }

  /** A smaller delivery fits where a larger one does. */
  lemma RoomForLess(v: View, x: Out, y: Out)
    requires Room(v, y) && |x.sg| <= |y.sg| && |x.kid| <= |y.kid| && |x.lut| <= |y.lut| && |x.pool| <= |y.pool|
    ensures Room(v, x)
  {
  }

  lemma RoomForFirst(v: View, x: Out, y: Out)
    requires Room(v, Cat(x, y))
    ensures Room(v, x) && Room(v, NOTHING)
  {
  }

  lemma RoomAfter(v0: View, v1: View, x: Out, y: Out)
    requires Room(v0, Cat(x, y)) && Delivered(v0, v1, x)
    ensures Room(v1, y)
  {
    hide At;
  }

  // ---------------------------------------------------------------- the pieces

  function ParamOut(p: Param, rel: nat): Out {
    Out(InfoBytes(p.persistent, rel), [], [], RecordBytes(p))
  }

  function ParamsOut(ks: seq<Param>, rel: nat): Out {
    Out(ParamInfos(ks, rel), [], [], PoolBytes(ks))
  }

  function ObjOut(k: CalObj, lutRel: nat, poolRel: nat): Out {
    Out(ObjSg(k, lutRel, poolRel), [], ObjLut(k), ObjPool(k))
  }

  function ObjsOut(ks: seq<CalObj>, lutRel: nat, poolRel: nat): Out {
    Out(ObjsSg(ks, lutRel, poolRel), [], ObjsLut(ks), ObjsPool(ks))
  }

  function TableOut(t: CkvTable, kidRel: nat, lutRel: nat, poolRel: nat): Out {
    Out(TableSg(t, kidRel, lutRel, poolRel), TableKid(t), TableLut(t), TablePool(t))
  }

  lemma ParamsOutSnoc(ks: seq<Param>, p: Param, rel: nat)
    ensures ParamsOut(ks + [p], rel) == Cat(ParamsOut(ks, rel), ParamOut(p, rel + |PoolBytes(ks)|))
  {
    hide PoolBytes, ParamInfos, InfoBytes, IdBytes, PayloadBytes;
    ParamsSnoc(ks, p, rel);
  }

  lemma ObjsOutSnoc(ks: seq<CalObj>, k: CalObj, lutRel: nat, poolRel: nat)
    ensures ObjsOut(ks + [k], lutRel, poolRel) ==
      Cat(ObjsOut(ks, lutRel, poolRel), ObjOut(k, lutRel + |ObjsLut(ks)|, poolRel + |ObjsPool(ks)|))
  {
    hide ObjsLut, ObjsPool, ObjsSg, ObjSg, ObjLut, ObjPool;
    ObjsSnoc(ks, k, lutRel, poolRel);
  }

  /** One turn of a loop that delivers ks parameter by parameter, with done behind it. */
  lemma ParamsTurn(v0: View, v1: View, done: seq<Param>, p: Param, ks: seq<Param>, rel: nat)
    requires rel == Rel(v0.op, v0.pool) && Room(v0, ParamsOut(ks, rel)) && done + [p] <= ks
    requires Delivered(v0, v1, ParamsOut(done, rel))
    ensures Room(v1, ParamOut(p, Rel(v1.op, v1.pool)))
    ensures forall v2 | Delivered(v1, v2, ParamOut(p, Rel(v1.op, v1.pool))) ::
      Delivered(v0, v2, ParamsOut(done + [p], rel))
  {
    hide At, Delivered, Room, PoolBytes, ParamInfos;
    var x, y := ParamsOut(done, rel), ParamOut(p, rel + |PoolBytes(done)|);
    BasesOf(v0, ParamsOut(ks, rel));
    RelAfter(v0, v1, x);
    ParamsOutSnoc(done, p, rel);
    ParamsSizes(done + [p], ks);
    RoomForLess(v0, Cat(x, y), ParamsOut(ks, rel));
    RoomAfter(v0, v1, x, y);
    forall v2 | Delivered(v1, v2, y)
      ensures Delivered(v0, v2, ParamsOut(done + [p], rel))
    {
      DeliveredBoth(v0, v1, v2, x, y);
    }
  }

  /** One turn of a loop that delivers ks object by object, with done behind it. */
  lemma ObjsTurn(v0: View, v1: View, done: seq<CalObj>, k: CalObj, ks: seq<CalObj>, lutRel: nat, poolRel: nat)
    requires lutRel == Rel(v0.op, v0.lut) && poolRel == Rel(v0.op, v0.pool)
    requires Room(v0, Padded(ObjsOut(ks, lutRel, poolRel))) && done + [k] <= ks
    requires Delivered(v0, v1, ObjsOut(done, lutRel, poolRel))
    ensures Room(v1, Padded(ObjOut(k, Rel(v1.op, v1.lut), Rel(v1.op, v1.pool))))
    ensures forall v2 | Delivered(v1, v2, ObjOut(k, Rel(v1.op, v1.lut), Rel(v1.op, v1.pool))) ::
              Delivered(v0, v2, ObjsOut(done + [k], lutRel, poolRel))
  {
    hide At, Delivered, Room, ObjsLut, ObjsPool, ObjsSg, ObjSg, ObjLut, ObjPool, DotSize;
    var x, y := ObjsOut(done, lutRel, poolRel), ObjOut(k, lutRel + |ObjsLut(done)|, poolRel + |ObjsPool(done)|);
    BasesOf(v0, Padded(ObjsOut(ks, lutRel, poolRel)));
    RelAfter(v0, v1, x);
    ObjsOutSnoc(done, k, lutRel, poolRel);
    ObjsSizes(done + [k], ks);
    RoomForLess(v0, Padded(Cat(x, y)), Padded(ObjsOut(ks, lutRel, poolRel)));
    RoomForLess(v0, Cat(x, y), Padded(ObjsOut(ks, lutRel, poolRel)));
    PaddedRoomAfter(v0, v1, x, y);
    forall v2 | Delivered(v1, v2, y)
      ensures Delivered(v0, v2, ObjsOut(done + [k], lutRel, poolRel))
    {
      DeliveredBoth(v0, v1, v2, x, y);
    }
  }

  function TablesOut(ts: seq<CkvTable>): Out {
    Out(TablesSg(ts), TablesKid(ts), TablesLut(ts), TablesPool(ts))
  }

  /** One turn of a loop that delivers ts table by table, all cursors having started at their bases. */
  lemma TablesTurn(v0: View, v1: View, done: seq<CkvTable>, t: CkvTable, ts: seq<CkvTable>)
    requires Rel(v0.op, v0.kid) == Rel(v0.op, v0.lut) == Rel(v0.op, v0.pool) == 0
    requires Room(v0, Padded(TablesOut(ts))) && done + [t] <= ts
    requires Delivered(v0, v1, TablesOut(done))
    ensures Room(v1, Padded(TableOut(t, Rel(v1.op, v1.kid), Rel(v1.op, v1.lut), Rel(v1.op, v1.pool))))
    ensures forall v2 | Delivered(v1, v2, TableOut(t, Rel(v1.op, v1.kid), Rel(v1.op, v1.lut), Rel(v1.op, v1.pool))) ::
              Delivered(v0, v2, TablesOut(done + [t]))
  {
    hide At, Delivered, Room, TablesKid, TablesLut, TablesPool, TablesSg;
    hide TableSg, TableKid, TableLut, TablePool, TablesSize;
    var x, y := TablesOut(done), TableOut(t, |TablesKid(done)|, |TablesLut(done)|, |TablesPool(done)|);
    BasesOf(v0, Padded(TablesOut(ts)));
    RelAfter(v0, v1, x);
    TablesSnoc(done, t);
    assert TablesOut(done + [t]) == Cat(x, y);
    TablesSizes(done + [t], ts);
    RoomForLess(v0, Padded(Cat(x, y)), Padded(TablesOut(ts)));
    RoomForLess(v0, Cat(x, y), Padded(TablesOut(ts)));
    PaddedRoomAfter(v0, v1, x, y);
    forall v2 | Delivered(v1, v2, y)
      ensures Delivered(v0, v2, TablesOut(done + [t]))
    {
      DeliveredBoth(v0, v1, v2, x, y);
    }
  }

  lemma SizingTurn(v0: View, v1: View, done: seq<CkvTable>, t: CkvTable)
    requires v0.op.GetSize? && v0.kid.size == v0.lut.size == v0.pool.size == 0
    requires Delivered(v0, v1, TablesOut(done))
    ensures Room(v1, Padded(TableOut(t, Rel(v1.op, v1.kid), Rel(v1.op, v1.lut), Rel(v1.op, v1.pool))))
    ensures forall v2 | Delivered(v1, v2, TableOut(t, Rel(v1.op, v1.kid), Rel(v1.op, v1.lut), Rel(v1.op, v1.pool))) ::
              Delivered(v0, v2, TablesOut(done + [t]))
  {
    TablesTurn(v0, v1, done, t, done + [t]);
  }

  lemma FewTables(db: Db, off: nat, n: nat)
    requires WellFormed(db, off, n)
    ensures |DataTables(db, off, n)| + 1 < LIST_CAPACITY
  {
  }

  lemma WriteStart(v: View, ts: seq<CkvTable>)
    requires v.op.GetData? && Room(v, Padded(TablesOut(ts)))
    requires v.kid.offset == v.kid.base && v.lut.offset == v.lut.base && v.pool.offset == v.pool.base
    ensures Delivered(v, v, TablesOut(ts[..0]))
    ensures Rel(v.op, v.kid) == Rel(v.op, v.lut) == Rel(v.op, v.pool) == 0
  {
    NoTables();
    assert ts[..0] == [];
    DeliveredNothing(v);
  }

  lemma NoTablesOut(v: View)
    requires v.op.GetSize?
    ensures Delivered(v, v, TablesOut([])) && TablesSize([]) == 0
  {
    NoTables();
    DeliveredNothing(v);
  }

  lemma EmptyObjTurn(v0: View, v1: View, done: seq<CalObj>, ks: seq<CalObj>, lutRel: nat, poolRel: nat)
    requires Room(v0, Padded(ObjsOut(ks, lutRel, poolRel))) && done <= ks
    requires Delivered(v0, v1, ObjsOut(done, lutRel, poolRel))
    ensures Room(v1, Padded(NOTHING))
  {
    hide At, Delivered, Room, ObjsLut, ObjsPool, ObjsSg, DotSize;
    var x := ObjsOut(done, lutRel, poolRel);
    ObjsSizes(done, ks);
    assert Cat(x, NOTHING) == x;
    RoomForLess(v0, Padded(x), Padded(ObjsOut(ks, lutRel, poolRel)));
    PaddedRoomAfter(v0, v1, x, NOTHING);
  }

  lemma RoomLeft(v0: View, v1: View, x: Out, y: Out)
    requires Room(v0, y) && |x.sg| <= |y.sg| && |x.kid| <= |y.kid| && |x.lut| <= |y.lut| && |x.pool| <= |y.pool|
    requires Delivered(v0, v1, x)
    ensures Room(v1, NOTHING)
  {
    hide At;
  }

  ghost predicate Based(v: View) {
    v.op.GetData? ==> v.kid.base <= v.kid.offset && v.lut.base <= v.lut.offset && v.pool.base <= v.pool.offset
  }

  lemma BasesOf(v: View, o: Out)
    requires Room(v, o)
    ensures Based(v) && Room(v, NOTHING)
  {
  }

  lemma RelAfter(v0: View, v1: View, o: Out)
    requires Delivered(v0, v1, o) && Based(v0)
    ensures Rel(v1.op, v1.kid) == Rel(v0.op, v0.kid) + |o.kid|
    ensures Rel(v1.op, v1.lut) == Rel(v0.op, v0.lut) + |o.lut|
    ensures Rel(v1.op, v1.pool) == Rel(v0.op, v0.pool) + |o.pool|
  {
    hide At;
  }

  /** A view whose info cursor has left room for a header of n bytes, to be patched in later. */
  function Reserved(v: View, n: nat): View {
    if v.op.GetSize? then v else v.(sg := v.sg.(offset := v.sg.offset + n))
  }

  /** Patching the header h into the hole in front of the bytes o completes the delivery of h + o. */
  lemma HeaderPatched(v0: View, v1: View, v2: View, h: seq<byte>, o: Out)
    requires Delivered(Reserved(v0, |h|), v1, o) && Room(v0, o.(sg := h + o.sg))
    requires v2 == v1.(b := v2.b) && |v2.b| == |v1.b|
    requires v0.op.GetSize? ==> v2.b == v1.b
    requires v0.op.GetData? ==> At(v2.b, v0.sg.offset, h)
    requires forall i | 0 <= i < |v2.b| && !(v0.op.GetData? && v0.sg.offset <= i < v0.sg.offset + |h|) ::
      v2.b[i] == v1.b[i]
    ensures Delivered(v0, v2, o.(sg := h + o.sg))
  {
    hide At;
    if v0.op.GetData? {
      AtFrame(v1.b, v2.b, v0.sg.offset + |h|, o.sg);
      AtConcat(v2.b, v0.sg.offset, h, o.sg);
      AtFrame(v1.b, v2.b, v0.kid.offset, o.kid);
      AtFrame(v1.b, v2.b, v0.lut.offset, o.lut);
      AtFrame(v1.b, v2.b, v0.pool.offset, o.pool);
    }
  }

  function ObjHeader(k: CalObj, lutRel: nat): (r: seq<byte>)
    ensures |r| == 8
  {
    Le32(lutRel) + Le32(|k.params|)
  }

  /** The room an object needs also serves its parameters behind the reserved header. */
  lemma ObjRoom(v0: View, k: CalObj, lutRel: nat, poolRel: nat)
    requires Room(v0, Padded(if k.params == [] then NOTHING else ObjOut(k, lutRel, poolRel)))
    ensures Room(Reserved(v0, 8), ParamsOut(k.params, poolRel))
    ensures k.params == [] ==> ParamsOut(k.params, poolRel) == NOTHING
    ensures ObjOut(k, lutRel, poolRel) ==
      Cat(Out(ObjHeader(k, lutRel) + ParamInfos(k.params, poolRel), [], [], PoolBytes(k.params)),
                                              Out([], [], ObjLut(k), []))
    ensures k.params != [] ==> Room(v0, ObjOut(k, lutRel, poolRel))
  {
    hide Le32, ParamInfos, PoolBytes, ListBytes;
    NoParams(false, {}, poolRel);
  }

  /** The room a table needs also serves its objects and key list behind the reserved header. */
  lemma TableRoom(v0: View, t: CkvTable, kidRel: nat, lutRel: nat, poolRel: nat)
    requires Room(v0, Padded(TableOut(t, kidRel, lutRel, poolRel)))
    ensures var objs, list, h := ObjsOut(t.objs, lutRel, poolRel), Out([], TableKid(t), [], []), TableHeader(t, kidRel);
      && Room(Reserved(v0, 16), Padded(objs)) && Room(Reserved(v0, 16), Cat(objs, list))
      && Cat(objs, list).(sg := h + Cat(objs, list).sg) == TableOut(t, kidRel, lutRel, poolRel)
      && Room(v0, TableOut(t, kidRel, lutRel, poolRel))
      && (v0.op.GetData? ==> v0.sg.offset + 16 <= |v0.b|)
      && (t.objs == [] ==> objs == NOTHING)
  {
    hide TableHeader, ObjsSg, ObjsLut, ObjsPool, ListBytes, DotSize;
    NoObjs(false, {}, lutRel, poolRel);
  }

  /** The pieces of the parameter, each in its place, make up the whole. */
  lemma AssembleBody(b: seq<byte>, at: nat, g: SgInfo, ts: seq<CkvTable>, used: seq<MasterKey>)
    requires At(b, at, SgHeader(g, ts)) && At(b, at + 28, TablesSg(ts))
    requires var m := at + 28 + TablesSize(ts) + 4; var k := m + |MasterBytes(used)| + 4;
      var l := k + |TablesKid(ts)| + 4; var p := l + |TablesLut(ts)| + 4;
      && At(b, m - 4, Le32(|MasterBytes(used)|)) && At(b, m, MasterBytes(used))
      && At(b, k - 4, Le32(|TablesKid(ts)|)) && At(b, k, TablesKid(ts))
      && At(b, l - 4, Le32(|TablesLut(ts)|)) && At(b, l, TablesLut(ts))
      && At(b, p - 4, Le32(|TablesPool(ts)|)) && At(b, p, TablesPool(ts))
    ensures At(b, at, BlobBody(g, ts, used))
  {
    hide At, Le32, SgHeader, TablesSg, MasterBytes, TablesKid, TablesLut, TablesPool, TablesSize;
    var h := SgHeader(g, ts) + TablesSg(ts);
    AtConcat(b, at, SgHeader(g, ts), TablesSg(ts));
    SizedAt(b, at + |h|, MasterBytes(used));
    AtConcat(b, at, h, Sized(MasterBytes(used)));
    h := h + Sized(MasterBytes(used));
    SizedAt(b, at + |h|, TablesKid(ts));
    AtConcat(b, at, h, Sized(TablesKid(ts)));
    h := h + Sized(TablesKid(ts));
    SizedAt(b, at + |h|, TablesLut(ts));
    AtConcat(b, at, h, Sized(TablesLut(ts)));
    h := h + Sized(TablesLut(ts));
    SizedAt(b, at + |h|, TablesPool(ts));
    AtConcat(b, at, h, Sized(TablesPool(ts)));
  }

  /** The whole data pass as seen in the buffer: header, master keys, tables, chunk sizes. */
  lemma BodyWritten(b0: seq<byte>, b1: seq<byte>, v2: View, v3: View, b4: seq<byte>, at: nat, mkAt: nat,
                    g: SgInfo, ts: seq<CkvTable>, used: seq<MasterKey>)
    requires |b0| == |b1| == |v2.b| == |b4| && v2.op.GetData?
    requires v2.sg.offset == at + 28 && mkAt == at + 28 + TablesSize(ts) + 4
    requires v2.kid.offset == mkAt + |MasterBytes(used)| + 4 && v2.lut.offset == v2.kid.offset + |TablesKid(ts)| + 4
    requires v2.pool.offset == v2.lut.offset + |TablesLut(ts)| + 4
    requires At(b1, at, SgHeader(g, ts)) && At(v2.b, mkAt, MasterBytes(used)) && Delivered(v2, v3, TablesOut(ts))
    requires At(b4, mkAt - 4, Le32(|MasterBytes(used)|)) && At(b4, v2.kid.offset - 4, Le32(|TablesKid(ts)|))
    requires At(b4, v2.lut.offset - 4, Le32(|TablesLut(ts)|)) && At(b4, v2.pool.offset - 4, Le32(|TablesPool(ts)|))
    requires forall i | 0 <= i < |b0| && !(at <= i < at + 28) :: b1[i] == b0[i]
    requires forall i | 0 <= i < |b0| && !(mkAt <= i < mkAt + |MasterBytes(used)|) :: v2.b[i] == b1[i]
    requires forall i | 0 <= i < |b0| && !(mkAt - 4 <= i < mkAt) && !(v2.kid.offset - 4 <= i < v2.kid.offset)
               && !(v2.lut.offset - 4 <= i < v2.lut.offset) && !(v2.pool.offset - 4 <= i < v2.pool.offset) ::
                 b4[i] == v3.b[i]
    ensures At(b4, at, BlobBody(g, ts, used))
    ensures forall i | 0 <= i < |b0| && !(at <= i < v2.pool.offset + |TablesPool(ts)|) :: b4[i] == b0[i]
  {
    hide At, Le32, SgHeader, TablesSg, MasterBytes, TablesKid, TablesLut, TablesPool, TablesSize, BlobBody;
    assert At(b4, at, SgHeader(g, ts)) by { AtFrame(b1, b4, at, SgHeader(g, ts)); }
    assert At(b4, mkAt, MasterBytes(used)) by { AtFrame(v2.b, b4, mkAt, MasterBytes(used)); }
    assert At(b4, at + 28, TablesSg(ts)) by { AtFrame(v3.b, b4, at + 28, TablesSg(ts)); }
    assert At(b4, v2.kid.offset, TablesKid(ts)) by { AtFrame(v3.b, b4, v2.kid.offset, TablesKid(ts)); }
    assert At(b4, v2.lut.offset, TablesLut(ts)) by { AtFrame(v3.b, b4, v2.lut.offset, TablesLut(ts)); }
    assert At(b4, v2.pool.offset, TablesPool(ts)) by { AtFrame(v3.b, b4, v2.pool.offset, TablesPool(ts)); }
    AssembleBody(b4, at, g, ts, used);
  }

  lemma SizedAt(b: seq<byte>, off: nat, s: seq<byte>)
    requires At(b, off, Le32(|s|)) && At(b, off + 4, s)
    ensures At(b, off, Sized(s))
  {
    hide At, Le32;
    AtConcat(b, off, Le32(|s|), s);
  }

  // ---------------------------------------------------------------- the reference list

  function Iids(refs: seq<CalRefs.IidRef>): set<u32> {
    set r | r in refs :: r.iid
  }

  lemma SameIids(a: seq<CalRefs.IidRef>, b: seq<CalRefs.IidRef>)
    requires |a| == |b| && forall k :: 0 <= k < |a| ==> a[k].iid == b[k].iid
    ensures Iids(a) == Iids(b)
  {
    forall x | x in Iids(a)
      ensures x in Iids(b)
    {
      var k :| 0 <= k < |a| && a[k].iid == x;
      assert b[k] in b;
    }
    forall x | x in Iids(b)
      ensures x in Iids(a)
    {
      var k :| 0 <= k < |b| && b[k].iid == x;
      assert a[k] in a;
    }
  }

  /** The modules an object with these parameters adds to the reference list. */
  function NewIids(record: bool, ps: seq<Param>): set<u32> {
    if record then IidsOf(ps) else {}
  }

  class VcpmBlobInfo {
    const db: Db
    // The response buffer; a null pointer is an array of length zero.
    const buf: array<byte>
    var op: Op
    var refs: seq<CalRefs.IidRef>
    var keyTables: seq<nat>
    var dataTables: seq<nat>
    var isDefault: bool
    var ignoreDefault: bool
    var ignoreIidUpdate: bool
    var sg: Chunk
    var mk: Chunk
    var kid: Chunk
    var lut: Chunk
    var pool: Chunk

    constructor (db: Db, buf: array<byte>)
      ensures this.db == db && this.buf == buf
      ensures refs == [] && keyTables == [] && dataTables == []
      ensures !isDefault && !ignoreDefault && !ignoreIidUpdate
      ensures sg == mk == kid == lut == pool == Chunk(0, 0, 0)
    {
      this.db, this.buf := db, buf;
      op, refs, keyTables, dataTables := GetSize, [], [], [];
      isDefault, ignoreDefault, ignoreIidUpdate := false, false, false;
      sg, mk, kid := Chunk(0, 0, 0), Chunk(0, 0, 0), Chunk(0, 0, 0);
      lut, pool := Chunk(0, 0, 0), Chunk(0, 0, 0);
    }

    ghost function Now(): View
      reads this`op, this`sg, this`kid, this`lut, this`pool, buf
    {
      View(op, sg, kid, lut, pool, buf[..])
    }

    // The switch on op that ends every Get function: account for src, or write it at the cursor.

    method EmitKid(src: seq<byte>)
      requires Room(Now(), Out([], src, [], []))
      modifies this`kid, buf
      ensures Delivered(old(Now()), Now(), Out([], src, [], []))
    {
      hide At;
      ghost var b0 := buf[..];
      if op.GetData? {
        Put(buf, kid.offset, src);
        NoBytesAt(buf[..], sg.offset, lut.offset, pool.offset);
      }
      kid := Advance(op, kid, |src|);
    }

    method EmitLut(src: seq<byte>)
      requires Room(Now(), Out([], [], src, []))
      modifies this`lut, buf
      ensures Delivered(old(Now()), Now(), Out([], [], src, []))
    {
      hide At;
      if op.GetData? {
        Put(buf, lut.offset, src);
        NoBytesAt(buf[..], sg.offset, kid.offset, pool.offset);
      }
      lut := Advance(op, lut, |src|);
    }

    method EmitPool(src: seq<byte>)
      requires Room(Now(), Out([], [], [], src))
      modifies this`pool, buf
      ensures Delivered(old(Now()), Now(), Out([], [], [], src))
    {
      hide At;
      if op.GetData? {
        Put(buf, pool.offset, src);
        NoBytesAt(buf[..], sg.offset, kid.offset, lut.offset);
      }
      pool := Advance(op, pool, |src|);
    }

    /** While sizing, the info chunk is measured by the callers' table and object sizes. */
    method EmitInfo(src: seq<byte>)
      requires Room(Now(), Out(src, [], [], []))
      modifies this`sg, buf
      ensures Delivered(old(Now()), Now(), Out(src, [], [], []))
    {
      hide At;
      if op.GetData? {
        Put(buf, sg.offset, src);
        NoBytesAt(buf[..], kid.offset, lut.offset, pool.offset);
        sg := Advance(op, sg, |src|);
      }
    }

    /** The reference-list update of GetVcpmModuleParamPair for a non-default table. */
    method ReferenceIid(iid: u32)
      requires iid != 0
      modifies `refs
      ensures Iids(refs) == Iids(old(refs)) + {iid}
    {
      var at := 0;
      if |refs| > 0 && refs[0].iid != iid {
        at := |refs| - 1;
      }
      if |refs| == 0 || refs[at].iid != iid {
        refs := refs + [CalRefs.IidRef(iid, 1)];
      } else {
        var r := refs[at];
        ghost var before := refs;
        refs := refs[at := r.(count := r.count + 1)];
        SameIids(before, refs);
        assert before[at].iid == iid;
      }
    }

    /** The reference-list lookup of GetVcpmModuleParamPair for the default table. */
    method DefaultIsReferenced(iid: u32) returns (found: bool)
      modifies `refs
      ensures found == (iid in Iids(refs))
      ensures Iids(refs) == Iids(old(refs))
    {
      found := false;
      for j := 0 to |refs|
        invariant !found && refs == old(refs)
        invariant forall k :: 0 <= k < j ==> refs[k].iid != iid
      {
        var r := refs[j];
        if iid == r.iid && r.count > 0 {
          ghost var before := refs;
          refs := refs[j := r.(count := r.count - 1)];
          found := true;
          SameIids(before, refs);
          assert before[j].iid == iid;
          return;
        } else if iid == r.iid {
          return true;
        }
      }
    }

    method GetVcpmModuleParamPair(defOffset: nat, ghost p: Param) returns (skip: bool, rel: nat, persistent: bool)
      requires p.iid == Word(db.file, db.calDef + defOffset + 4) && p.pid == Word(db.file, db.calDef + defOffset + 8)
      requires !isDefault && !ignoreIidUpdate ==> p.iid != 0
      requires (isDefault && p.iid in Iids(refs)) || Room(Now(), Out([], [], [], IdBytes(p)))
      requires Room(Now(), NOTHING)
      modifies this`refs, this`pool, buf
      ensures skip == (isDefault && p.iid in Iids(old(refs)))
      ensures Iids(refs) == Iids(old(refs)) + (if !isDefault && !ignoreIidUpdate then {p.iid} else {})
      ensures persistent == (p.pid in db.persistentPids) && (!skip ==> rel == old(Rel(op, pool)))
      ensures Delivered(old(Now()), Now(), if skip then NOTHING else Out([], [], [], IdBytes(p)))
    {
      hide Iids, Delivered, Room, Word;
      DeliveredNothing(Now());
      var iid, pid := Word(db.file, db.calDef + defOffset + 4), Word(db.file, db.calDef + defOffset + 8);
      skip, rel, persistent := false, Rel(op, pool), pid in db.persistentPids;
      if !isDefault && !ignoreIidUpdate {
        ReferenceIid(iid);
      } else if isDefault {
        skip := DefaultIsReferenced(iid);
        if skip {
          return;
        }
      }
      EmitPool(Le32(iid) + Le32(pid));
    }

    method GetVcpmParamPayload(poolOffset: nat, ghost p: Param)
      requires p.payload == Slice(db.file, db.dataPool + poolOffset + 4, Word(db.file, db.dataPool + poolOffset))
      requires Room(Now(), Out([], [], [], PayloadBytes(p)))
      modifies this`pool, buf
      ensures Delivered(old(Now()), Now(), Out([], [], [], PayloadBytes(p)))
    {
      var n := Word(db.file, db.dataPool + poolOffset);
      var payload := Slice(db.file, db.dataPool + poolOffset + 4, n);
      EmitPool(Le32(n) + Le32(0) + payload + Zeros(Padding8(n)));
    }

    /** One turn of the parameter loop of GetVcpmCalDataObject. */
    method GetVcpmParam(defOffset: nat, poolOffset: nat, ghost p: Param) returns (skip: bool)
      requires p == ParamAt(db, defOffset, poolOffset)
      requires isDefault ==> !ignoreDefault
      requires !isDefault && !ignoreIidUpdate ==> p.iid != 0
      requires (isDefault && p.iid in Iids(refs)) || Room(Now(), ParamOut(p, Rel(op, pool)))
      requires Room(Now(), NOTHING)
      modifies this`refs, this`sg, this`pool, buf
      ensures skip == (isDefault && p.iid in Iids(old(refs)))
      ensures Iids(refs) == Iids(old(refs)) + (if !isDefault && !ignoreIidUpdate then {p.iid} else {})
      ensures Delivered(old(Now()), Now(), if skip then NOTHING else old(ParamOut(p, Rel(op, pool))))
    {
      hide Iids, Delivered, Room, Word, Rel;
      ghost var v0, rel0 := Now(), Rel(op, pool);
      ghost var ids, payload := Out([], [], [], IdBytes(p)), Out([], [], [], PayloadBytes(p));
      ghost var info := Out(InfoBytes(p.persistent, rel0), [], [], []);
      var rel, persistent;
      if !(isDefault && p.iid in Iids(refs)) {
        assert Cat(Cat(ids, payload), info) == ParamOut(p, rel0);
        RoomForFirst(v0, Cat(ids, payload), info);
        RoomForFirst(v0, ids, payload);
      }
      skip, rel, persistent := GetVcpmModuleParamPair(defOffset, p);
      if !ignoreDefault && skip {
        return;
      }
      ghost var v1 := Now();
      RoomAfter(v0, v1, ids, payload);
      GetVcpmParamPayload(poolOffset, p);
      ghost var v2 := Now();
      DeliveredBoth(v0, v1, v2, ids, payload);
      RoomAfter(v0, v2, Cat(ids, payload), info);
      EmitInfo(InfoBytes(persistent, rel));
      DeliveredBoth(v0, v2, Now(), Cat(ids, payload), info);
    }

    /** The parameter loop of GetVcpmCalDataObject. */
    method GetVcpmParams(offset: nat, ghost ps: seq<Param>, ghost ks: seq<Param>) returns (found: nat, end: nat)
      requires ps == ObjAt(db, offset).params && ks == Kept(ps, isDefault, Iids(refs))
      requires isDefault ==> !ignoreDefault
      requires !isDefault && !ignoreIidUpdate ==> forall p | p in ps :: p.iid != 0
      requires Room(Now(), ParamsOut(ks, Rel(op, pool)))
      modifies this`refs, this`sg, this`pool, buf
      ensures found == |ks| && end == ObjEnd(db, offset)
      ensures Iids(refs) == Iids(old(refs)) + NewIids(!isDefault && !ignoreIidUpdate, ps)
      ensures Delivered(old(Now()), Now(), old(ParamsOut(ks, Rel(op, pool))))
    {
      hide Word, ParamAt, Kept, Iids, IidsOf, Delivered, Room, PoolBytes, ParamInfos, ParamOut, Rel;
      var n := Word(db.file, offset + 8);
      var defOffset: nat := Word(db.file, offset + 4);
      end, found := offset + 12, 0;
      ghost var v0, refs0, rel0, done := Now(), Iids(refs), Rel(op, pool), [];
      NoParams(isDefault, refs0, rel0);
      BasesOf(v0, ParamsOut(ks, rel0));
      DeliveredNothing(v0);
      assert ParamsOut([], rel0) == NOTHING && ps[..0] == [];
      for i := 0 to n
        invariant end == offset + 12 + 4 * i && defOffset == Word(db.file, offset + 4) + 8 * i
        invariant Iids(refs) == refs0 + NewIids(!isDefault && !ignoreIidUpdate, ps[..i])
        invariant done == Kept(ps[..i], isDefault, refs0) && found == |done|
        invariant Delivered(v0, Now(), ParamsOut(done, rel0))
      {
        KeptStep(ps, i, isDefault, refs0);
        ghost var v1, p := Now(), ps[i];
        if !(isDefault && p.iid in refs0) {
          ParamsTurn(v0, v1, done, p, ks, rel0);
        }
        KeptPrefix(ps, i, isDefault, refs0);
        ParamsSizes(done, ks);
        RoomLeft(v0, v1, ParamsOut(done, rel0), ParamsOut(ks, rel0));
        var skip := GetVcpmParam(defOffset, Word(db.file, end), p);
        if skip {
          NothingDelivered(v1, Now());
        }
        if !skip {
          found, done := found + 1, done + [p];
        }
        defOffset, end := defOffset + 8, end + 4;
      }
      assert ps[..n] == ps;
    }

    method GetVcpmCalibrationKeyValueTable(lutOffset: nat)
      requires Room(Now(), Out([], [], ListBytes(ValueList(db, lutOffset)), []))
      modifies this`lut, buf
      ensures Delivered(old(Now()), Now(), Out([], [], ListBytes(ValueList(db, lutOffset)), []))
    {
      hide Room, Delivered, Word, Slice, Le32;
      var n: nat := Word(db.file, db.calLut + lutOffset);
      WordsOfWordList(db.file, db.calLut + lutOffset + 8, n);
      EmitLut(Le32(n) + Slice(db.file, db.calLut + lutOffset + 8, 4 * n));
    }

    method GetVcpmCalDataObject(offset: nat, ghost o: CalObj, ghost k: CalObj) returns (calObjSize: nat, end: nat)
      requires o == ObjAt(db, offset) && k == CalObj(o.values, Kept(o.params, isDefault, Iids(refs)))
      requires isDefault ==> !ignoreDefault
      requires !isDefault && !ignoreIidUpdate ==> forall p | p in o.params :: p.iid != 0
      requires Room(Now(), Padded(if k.params == [] then NOTHING else ObjOut(k, Rel(op, lut), Rel(op, pool))))
      modifies this`refs, this`sg, this`lut, this`pool, buf
      ensures end == ObjEnd(db, offset)
      ensures calObjSize == if k.params == [] then 0 else ObjSize(k)
      ensures Iids(refs) == Iids(old(refs)) + NewIids(!isDefault && !ignoreIidUpdate, o.params)
      ensures Delivered(old(Now()), Now(),
                        if k.params == [] then NOTHING else old(ObjOut(k, Rel(op, lut), Rel(op, pool))))
    {
      hide Room, Delivered, Word, Kept, ListBytes, ParamInfos, PoolBytes, Iids, IidsOf, ParamAt, Le32, ObjSg;
      hide ObjPool, ValueList;
      var lutOffset := Word(db.file, offset);
      ghost var v0, poolRel := Now(), Rel(op, pool);
      var lutRel, tmpOffset := Rel(op, lut), sg.offset;
      ObjRoom(v0, k, lutRel, poolRel);
      calObjSize := 8;
      if op.GetData? {
        sg := sg.(offset := sg.offset + 8);
      }
      ghost var params, list := ParamsOut(k.params, poolRel), Out([], [], ObjLut(k), []);
      var found;
      found, end := GetVcpmParams(offset, o.params, k.params);
      calObjSize := calObjSize + 8 * found;
      ghost var v1 := Now();
      if found == 0 {
        NothingDelivered(Reserved(v0, 8), v1);
        calObjSize := 0;
        if op.GetData? {
          sg := sg.(offset := sg.offset - 8);
        }
        RoomForLess(v0, NOTHING, Padded(NOTHING));
        DeliveredNothing(v0);
        return;
      }
      RoomForFirst(v0, params.(sg := ObjHeader(k, lutRel) + params.sg), list);
      if op.GetData? {
        Put(buf, tmpOffset, Le32(lutRel) + Le32(found));
      }
      ghost var v2 := Now();
      HeaderPatched(v0, v1, v2, ObjHeader(k, lutRel), params);
      RoomAfter(v0, v2, params.(sg := ObjHeader(k, lutRel) + params.sg), list);
      GetVcpmCalibrationKeyValueTable(lutOffset);
      DeliveredBoth(v0, v2, Now(), params.(sg := ObjHeader(k, lutRel) + params.sg), list);
    }

    /** The object loop of GetVcpmCalibrationDataTable; only the first object feeds the reference list. */
    method GetVcpmCalDataObjects(offset: nat, n: nat, ghost raw: CkvTable, ghost ks: seq<CalObj>)
      returns (found: nat, dotSize: nat, end: nat)
      requires raw.objs == ObjsAt(db, offset, n) && ks == KeptObjs(raw.objs, isDefault, Iids(refs))
      requires !ignoreIidUpdate && (isDefault ==> !ignoreDefault)
      requires !isDefault ==> NonzeroIids(raw)
      requires Room(Now(), Padded(ObjsOut(ks, Rel(op, lut), Rel(op, pool))))
      modifies this`refs, this`ignoreIidUpdate, this`sg, this`lut, this`pool, buf
      ensures found == |ks| && dotSize == DotSize(ks) && (dotSize == 0 <==> ks == [])
      ensures end == ObjsEnd(db, offset, n) && !ignoreIidUpdate
      ensures Iids(refs) == Iids(old(refs)) + (if isDefault then {} else FirstIids(raw))
      ensures Delivered(old(Now()), Now(), old(ObjsOut(ks, Rel(op, lut), Rel(op, pool))))
    {
      hide Room, Delivered, Word, Kept, KeptObjs, ObjAt, ObjEnd, ObjsSg, ObjsLut, ObjsPool, ObjSg, ObjLut, ObjPool;
      hide DotSize, Iids, Rel;
      found, dotSize, end := 0, 0, offset;
      ghost var v0, refs0, lutRel, poolRel, done := Now(), Iids(refs), Rel(op, lut), Rel(op, pool), [];
      NoObjs(isDefault, refs0, lutRel, poolRel);
      BasesOf(v0, Padded(ObjsOut(ks, lutRel, poolRel)));
      DeliveredNothing(v0);
      assert ObjsOut([], lutRel, poolRel) == NOTHING && raw.objs[..0] == [];
      for i := 0 to n
        invariant end == ObjsEnd(db, offset, i) && ignoreIidUpdate == (i > 0)
        invariant Iids(refs) == refs0 + (if isDefault || i == 0 then {} else FirstIids(raw))
        invariant done == KeptObjs(raw.objs[..i], isDefault, refs0) && found == |done| && dotSize == DotSize(done)
        invariant dotSize == 0 <==> found == 0
        invariant Delivered(v0, Now(), ObjsOut(done, lutRel, poolRel))
      {
        ghost var v1, o := Now(), raw.objs[i];
        ghost var k := CalObj(o.values, Kept(o.params, isDefault, refs0));
        ObjsAtIndex(db, offset, i, n);
        KeptAll(o.params, Iids(refs));
        KeptAll(o.params, refs0);
        KeptObjsStep(raw.objs, i, isDefault, refs0);
        ObjsSnoc(done, k, 0, 0);
        if k.params != [] {
          ObjsTurn(v0, v1, done, k, ks, lutRel, poolRel);
        } else {
          KeptObjsPrefix(raw.objs, i, isDefault, refs0);
          EmptyObjTurn(v0, v1, done, ks, lutRel, poolRel);
        }
        var size;
        size, end := GetVcpmCalDataObject(end, o, k);
        if size > 0 {
          found, dotSize, done := found + 1, dotSize + size, done + [k];
        } else {
          NothingDelivered(v1, Now());
        }
        if !ignoreIidUpdate {
          ignoreIidUpdate := true;
        }
      }
      assert raw.objs[..n] == raw.objs;
      ignoreIidUpdate := false;
    }

    method IsDefaultVcpmCalibrationKeyIDTable(keyOffset: nat)
      modifies this`isDefault
      ensures isDefault == (KeyList(db, db.calKey + keyOffset) == [])
    {
      isDefault := Word(db.file, db.calKey + keyOffset) == 0;
    }

    method GetVcpmCalibrationKeyIDTable(keyOffset: nat)
      requires |keyTables| + 1 < LIST_CAPACITY
      requires Room(Now(), Out([], ListBytes(KeyList(db, db.calKey + keyOffset)), [], []))
      modifies this`kid, this`keyTables, buf
      ensures Delivered(old(Now()), Now(), Out([], ListBytes(KeyList(db, db.calKey + keyOffset)), [], []))
      ensures keyTables == old(keyTables) + if op.GetSize? then [db.calKey + keyOffset] else []
    {
      hide Room, Delivered, Word, Slice, Le32;
      var offset := db.calKey + keyOffset;
      if op.GetSize? && |keyTables| + 1 < LIST_CAPACITY {
        keyTables := keyTables + [offset];
      }
      var n: nat := Word(db.file, offset);
      WordsOfWordList(db.file, offset + 4, n);
      EmitKid(Le32(n) + Slice(db.file, offset + 4, 4 * n));
    }

    /**
      One CKV data table. The sizing pass skips the default table while ignoreDefault is set; the data
      pass only ever sees tables that have something to deliver.
     */
    method GetVcpmCalibrationDataTable(tableOffset: nat, hadData: bool, ghost raw: CkvTable, ghost t: CkvTable)
      returns (added: nat, end: nat, hasData: bool)
      requires raw == TableAt(db, tableOffset) && t == OutTable(db, tableOffset, Iids(refs))
      requires !ignoreIidUpdate && |keyTables| + 1 < LIST_CAPACITY
      requires raw.keys != [] ==> NonzeroIids(raw)
      requires op.GetData? ==> t.objs != [] && !(ignoreDefault && raw.keys == [])
      requires Room(Now(), Padded(TableOut(t, Rel(op, kid), Rel(op, lut), Rel(op, pool))))
      modifies this`refs, this`isDefault, this`ignoreDefault, this`ignoreIidUpdate, this`keyTables
      modifies this`sg, this`kid, this`lut, this`pool, buf
      ensures isDefault == (raw.keys == []) && !ignoreIidUpdate
      ensures old(ignoreDefault) && isDefault ==>
        && added == 0 && end == tableOffset + Word(db.file, tableOffset) + 4 && hasData == hadData
        && refs == old(refs) && ignoreDefault && keyTables == old(keyTables) && Now() == old(Now())
      ensures !(old(ignoreDefault) && isDefault) ==>
        && added == (if hasData then TableSize(t) else 0)
        && end == TableEnd(db, tableOffset) && hasData == (t.objs != [])
        && Iids(refs) == Iids(old(refs)) + (if isDefault then {} else FirstIids(raw))
        && ignoreDefault == (old(ignoreDefault) || (isDefault && !hasData))
        && keyTables == old(keyTables) + (if hasData && op.GetSize? then [TableKeyOffset(db, tableOffset)] else [])
        && Delivered(old(Now()), Now(),
                     if hasData then old(TableOut(t, Rel(op, kid), Rel(op, lut), Rel(op, pool))) else NOTHING)
    {
      hide Word, KeyList, ObjsAt, KeptObjs, Iids, TableOut, Room;
      hide Delivered, Rel, NonzeroIids, FirstIids, Padded, DotSize;
      var keyOffset := Word(db.file, tableOffset + 4);
      IsDefaultVcpmCalibrationKeyIDTable(keyOffset);
      if ignoreDefault && isDefault {
        added, hasData := 0, hadData;
        end := tableOffset + 16 + Word(db.file, tableOffset) + 4 - 16;
        return;
      }
      added, end := GetVcpmTableContents(tableOffset, raw, t);
      hasData := added > 0;
    }

    /** The part of GetVcpmCalibrationDataTable that a skipped default table does not reach. */
    method GetVcpmTableContents(tableOffset: nat, ghost raw: CkvTable, ghost t: CkvTable) returns (added: nat, end: nat)
      requires raw == TableAt(db, tableOffset) && t == OutTable(db, tableOffset, Iids(refs))
      requires isDefault == (raw.keys == []) && (isDefault ==> !ignoreDefault)
      requires !ignoreIidUpdate && |keyTables| + 1 < LIST_CAPACITY
      requires raw.keys != [] ==> NonzeroIids(raw)
      requires op.GetData? ==> t.objs != []
      requires Room(Now(), Padded(TableOut(t, Rel(op, kid), Rel(op, lut), Rel(op, pool))))
      modifies this`refs, this`ignoreDefault, this`ignoreIidUpdate, this`keyTables
      modifies this`sg, this`kid, this`lut, this`pool, buf
      ensures !ignoreIidUpdate && end == TableEnd(db, tableOffset)
      ensures added == if t.objs == [] then 0 else TableSize(t)
      ensures Iids(refs) == Iids(old(refs)) + (if isDefault then {} else FirstIids(raw))
      ensures ignoreDefault == (old(ignoreDefault) || (isDefault && t.objs == []))
      ensures keyTables ==
              old(keyTables) + (if t.objs != [] && op.GetSize? then [TableKeyOffset(db, tableOffset)] else [])
      ensures Delivered(old(Now()), Now(),
                        if t.objs != [] then old(TableOut(t, Rel(op, kid), Rel(op, lut), Rel(op, pool))) else NOTHING)
    {
      hide Word, ListBytes, KeyList, ObjsAt, ObjsSg, ObjsLut, ObjsPool;
      hide KeptObjs, DotSize, Iids, Le32, ObjsOut, TableOut;
      hide Room, Delivered, Rel, NonzeroIids, FirstIids, TableSg, TableLut, TablePool, Padded;
      var keyOffset, n := Word(db.file, tableOffset + 4), Word(db.file, tableOffset + 12);
      ghost var v0, lutRel, poolRel := Now(), Rel(op, lut), Rel(op, pool);
      var kidRel, headerAt := Rel(op, kid), sg.offset;
      TableRoom(v0, t, kidRel, lutRel, poolRel);
      if op.GetData? {
        sg := sg.(offset := sg.offset + 16);
      }
      ghost var objs, list := ObjsOut(t.objs, lutRel, poolRel), Out([], TableKid(t), [], []);
      var found, dotSize;
      found, dotSize, end := GetVcpmCalDataObjects(tableOffset + 16, n, raw, t.objs);
      ghost var v1 := Now();
      if dotSize == 0 {
        NothingDelivered(Reserved(v0, 16), v1);
        DeliveredNothing(v0);
        if isDefault {
          ignoreDefault := true;
        }
        added := 0;
        return;
      }
      RoomAfter(Reserved(v0, 16), v1, objs, list);
      GetVcpmCalibrationKeyIDTable(keyOffset);
      ghost var v2 := Now();
      DeliveredBoth(Reserved(v0, 16), v1, v2, objs, list);
      var tableSize := 12 + dotSize;
      added := 4 + tableSize;
      if op.GetData? {
        Put(buf, headerAt, Le32(tableSize) + Le32(kidRel) + Le32(dotSize) + Le32(found));
      }
      HeaderPatched(v0, v2, Now(), TableHeader(t, kidRel), Cat(objs, list));
    }

    /** Is a master key used by one of the key tables found so far? */
    method IsKeyUsed(keyId: u32) returns (used: bool)
      requires forall l | l in KeyListsAt(db, keyTables) :: SortedKeys(l)
      ensures used == KeyUsed(keyId, KeyListsAt(db, keyTables))
    {
      hide KeyList;
      ghost var lists := KeyListsAt(db, keyTables);
      used := false;
      for j := 0 to |keyTables|
        invariant !used && forall k | 0 <= k < j :: keyId !in lists[k]
      {
        assert lists[j] in lists;
        used := Search.ListContains(KeyList(db, keyTables[j]), keyId);
        if used {
          assert keyId in lists[j];
          return;
        }
      }
    }

    /** The key loop of GetVcpmMasterKeyTable: how many keys are used and, in the data pass, which. */
    method CheckMasterKeys(ms: seq<MasterKey>) returns (found: nat, isUsed: array<bool>)
      requires forall l | l in KeyListsAt(db, keyTables) :: SortedKeys(l)
      ensures fresh(isUsed) && found == |UsedKeys(ms, KeyListsAt(db, keyTables))|
      ensures op.GetData? ==>
        && isUsed.Length == |ms|
        && forall i | 0 <= i < |ms| :: isUsed[i] == KeyUsed(ms[i].keyId, KeyListsAt(db, keyTables))
    {
      hide SortedKeys, KeyUsed, KeyList;
      ghost var lists := KeyListsAt(db, keyTables);
      found, isUsed := 0, new bool[if op.GetData? then |ms| else 0](_ => false);
      for i := 0 to |ms|
        invariant found == |UsedKeys(ms[..i], lists)|
        invariant op.GetData? ==> forall j | 0 <= j < |ms| :: isUsed[j] == (j < i && KeyUsed(ms[j].keyId, lists))
      {
        UsedKeysStep(ms, i, lists);
        var b := IsKeyUsed(ms[i].keyId);
        if b {
          if op.GetData? {
            isUsed[i] := true;
          }
          found := found + 1;
        }
      }
      assert ms[..|ms|] == ms;
    }

    /** The copy loop of GetVcpmMasterKeyTable, which skips the keys that are not used. */
    method CopyUsedKeys(ms: seq<MasterKey>, isUsed: array<bool>) returns (table: seq<byte>)
      requires isUsed.Length == |ms|
      requires forall i | 0 <= i < |ms| :: isUsed[i] == KeyUsed(ms[i].keyId, KeyListsAt(db, keyTables))
      ensures var used := UsedKeys(ms, KeyListsAt(db, keyTables));
        table == Flat(MasterKeyBytes, used) && |table| == 8 * |used|
    {
      hide KeyUsed, KeyList, Le32;
      ghost var lists := KeyListsAt(db, keyTables);
      table := [];
      for i := 0 to |ms|
        invariant table == Flat(MasterKeyBytes, UsedKeys(ms[..i], lists))
        invariant |table| == 8 * |UsedKeys(ms[..i], lists)|
      {
        UsedKeysStep(ms, i, lists);
        FlatSnoc(MasterKeyBytes, UsedKeys(ms[..i], lists), ms[i]);
        if !isUsed[i] {
          continue;
        }
        table := table + MasterKeyBytes(ms[i]);
      }
      assert ms[..|ms|] == ms;
    }

    /** The keys that are used, one by one, or the whole table at once if all of them are. */
    method UsedMasterKeys(fileOffset: nat, found: nat, isUsed: array<bool>) returns (table: seq<byte>)
      requires var ms, lists := MasterKeysAt(db, fileOffset), KeyListsAt(db, keyTables);
        && found == |UsedKeys(ms, lists)| && isUsed.Length == |ms|
        && forall i | 0 <= i < |ms| :: isUsed[i] == KeyUsed(ms[i].keyId, lists)
      ensures table == Flat(MasterKeyBytes, UsedKeys(MasterKeysAt(db, fileOffset), KeyListsAt(db, keyTables)))
      ensures |table| == 8 * found
    {
      hide Word, Slice, KeyUsed, Le32, KeyList, MasterKeyAt;
      var ms := MasterKeysAt(db, fileOffset);
      if found == |ms| {
        UsedKeysFew(ms, KeyListsAt(db, keyTables));
        assert ms[..found] == ms;
        MasterSlice(db, fileOffset, found);
        table := Slice(db.file, db.masterKey + fileOffset + 4, 8 * found);
      } else {
        table := CopyUsedKeys(ms, isUsed);
      }
    }

    method GetVcpmMasterKeyTable(fileOffset: nat, ghost used: seq<MasterKey>)
      requires used == UsedKeys(MasterKeysAt(db, fileOffset), KeyListsAt(db, keyTables))
      requires forall l | l in KeyListsAt(db, keyTables) :: SortedKeys(l)
      requires op.GetData? ==> mk.offset + |MasterBytes(used)| <= buf.Length
      modifies this`mk, buf
      ensures mk == Advance(op, old(mk), |MasterBytes(used)|)
      ensures op.GetSize? ==> buf[..] == old(buf[..])
      ensures op.GetData? ==> At(buf[..], old(mk.offset), MasterBytes(used))
      ensures forall i | 0 <= i < buf.Length && !In(old(mk), mk, i) :: buf[i] == old(buf[i])
    {
      hide At, UsedKeys, MasterKeysAt, KeyListsAt, KeyUsed, SortedKeys, Le32, Flat;
      var found, isUsed := CheckMasterKeys(MasterKeysAt(db, fileOffset));
      MasterKeysSize(used);
      if op.GetData? {
        var table := UsedMasterKeys(fileOffset, found, isUsed);
        Put(buf, mk.offset, Le32(found) + table);
      }
      mk := Advance(op, mk, 4 + 8 * found);
    }

    /** One turn of the table loop of GetVcpmSubgraphChunkInfo, for a table that is not skipped. */
    method SizeTable(offset: nat, hadData: bool, size: nat, ghost raw: CkvTable, ghost t: CkvTable,
                     ghost done: seq<CkvTable>, ghost v0: View)
      returns (hasData: bool, tableSize: nat, end: nat)
      requires raw == TableAt(db, offset) && t == OutTable(db, offset, Iids(refs))
      requires op.GetSize? && !ignoreIidUpdate && !ignoreDefault && |keyTables| + 1 < LIST_CAPACITY
      requires |dataTables| + 1 < LIST_CAPACITY
      requires raw.keys != [] ==> NonzeroIids(raw)
      requires v0.kid.size == v0.lut.size == v0.pool.size == 0 && v0.op.GetSize?
      requires Delivered(v0, Now(), TablesOut(done)) && size == TablesSize(done)
      modifies this`refs, this`isDefault, this`ignoreDefault, this`ignoreIidUpdate, this`keyTables, this`dataTables
      modifies this`sg, this`kid, this`lut, this`pool, buf
      ensures hasData == (t.objs != []) && end == TableEnd(db, offset) && !ignoreIidUpdate
      ensures ignoreDefault == (raw.keys == [] && !hasData)
      ensures Iids(refs) == Iids(old(refs)) + (if raw.keys == [] then {} else FirstIids(raw))
      ensures dataTables == if hasData then old(dataTables) + [offset] else old(dataTables)
      ensures keyTables == if hasData then old(keyTables) + [TableKeyOffset(db, offset)] else old(keyTables)
      ensures var now := if hasData then done + [t] else done;
        Delivered(v0, Now(), TablesOut(now)) && tableSize == TablesSize(now)
    {
      hide Delivered, Room, Padded, Word, TableAt, TableEnd, OutTable, TablesSize, TableSize, TablesOut, TableOut;
      hide Iids, TableKeyOffset, OutTables, KeyOffsets, WellFormedTable, FirstIids, NonzeroIids, Rel;
      ghost var v1 := Now();
      SizingTurn(v0, v1, done, t);
      TablesSizeSnoc(done, t);
      var added;
      added, end, hasData := GetVcpmCalibrationDataTable(offset, hadData, raw, t);
      tableSize := size + added;
      if hasData && |dataTables| + 1 < LIST_CAPACITY {
        dataTables := dataTables + [offset];
      }
      if !hasData {
        NothingDelivered(v1, Now());
      }
    }

    /** What the table loop of the sizing pass knows when m tables, or all and the default table, are done. */
    ghost predicate SizedSoFar(found: seq<nat>, refd: set<u32>, all: set<u32>, size: nat, v0: View)
      reads this`op, this`refs, this`ignoreIidUpdate, this`keyTables, this`dataTables, this`sg, this`kid, this`lut
      reads this`pool, buf
    {
      && op.GetSize? && v0.op.GetSize? && v0.kid.size == v0.lut.size == v0.pool.size == 0
      && !ignoreIidUpdate && Iids(refs) == refd
      && dataTables == found && keyTables == KeyOffsets(db, found)
      && Delivered(v0, Now(), TablesOut(OutTables(db, found, all)))
      && size == TablesSize(OutTables(db, found, all))
    }

    method SizeNext(offset: nat, hadData: bool, size: nat, ghost found: seq<nat>, ghost refd: set<u32>,
                    ghost all: set<u32>, ghost v0: View)
      returns (hasData: bool, tableSize: nat, end: nat)
      requires SizedSoFar(found, refd, all, size, v0) && !ignoreDefault && |found| + 1 < LIST_CAPACITY
      requires refd == all || TableAt(db, offset).keys != []
      requires TableAt(db, offset).keys != [] ==> NonzeroIids(TableAt(db, offset))
      modifies this`refs, this`isDefault, this`ignoreDefault, this`ignoreIidUpdate, this`keyTables, this`dataTables
      modifies this`sg, this`kid, this`lut, this`pool, buf
      ensures hasData == (OutTable(db, offset, all).objs != []) && end == TableEnd(db, offset)
      ensures ignoreDefault == (TableAt(db, offset).keys == [] && !hasData)
      ensures SizedSoFar(if hasData then found + [offset] else found,
                    if TableAt(db, offset).keys == [] then refd else refd + FirstIids(TableAt(db, offset)),
                    all, tableSize, v0)
    {
      hide Delivered, Room, Padded, Word, TableAt, TableEnd, OutTable, TablesSize, TableSize, TablesOut, TableOut;
      hide Iids, TableKeyOffset, OutTables, KeyOffsets, WellFormedTable, FirstIids, NonzeroIids, Rel;
      if TableAt(db, offset).keys != [] {
        OutTableOfOthers(db, offset, refd, all);
      }
      OutTablesSnoc(db, found, offset, all);
      hasData, tableSize, end := SizeTable(offset, hadData, size, TableAt(db, offset), OutTable(db, offset, all),
                                           OutTables(db, found, all), v0);
    }

    /** The first turn of the table loop: the default table is not looked into yet. */
    method SkipDefault(offset: nat, ghost all: set<u32>) returns (hasData: bool, end: nat)
      requires op.GetSize? && refs == [] && keyTables == [] && dataTables == [] && !ignoreIidUpdate && ignoreDefault
      requires kid.size == lut.size == pool.size == 0 && TableAt(db, offset).keys == []
      modifies this`refs, this`isDefault, this`ignoreDefault, this`ignoreIidUpdate, this`keyTables
      modifies this`sg, this`kid, this`lut, this`pool, buf
      ensures !hasData && end == TableOffset(db, offset, 1) && ignoreDefault
      ensures SizedSoFar([], {}, all, 0, old(Now()))
    {
      hide Delivered, Word, TableAt, OutTable, Padded, TableOut, TablesOut, Rel;
      assert Iids(refs) == {};
      NoTablesOut(Now());
      assert OutTables(db, [], all) == [] && KeyOffsets(db, []) == [];
      var added;
      added, end, hasData := GetVcpmCalibrationDataTable(offset, false, TableAt(db, offset), OutTable(db, offset, {}));
    }

    /** The table loop of GetVcpmSubgraphChunkInfo: tables 0 to n - 1, the first skipped, then table 0 again. */
    method SizeTables(tableOffset: nat, n: nat) returns (tableSize: nat)
      requires WellFormed(db, tableOffset, n)
      requires op.GetSize? && refs == [] && keyTables == [] && dataTables == [] && !ignoreIidUpdate && ignoreDefault
      requires kid.size == lut.size == pool.size == 0
      modifies this`refs, this`isDefault, this`ignoreDefault, this`ignoreIidUpdate, this`keyTables, this`dataTables
      modifies this`sg, this`kid, this`lut, this`pool, buf
      ensures var all := Referenced(db, tableOffset, n);
        SizedSoFar(DataTables(db, tableOffset, n), all, all, tableSize, old(Now()))
      ensures ignoreDefault ==> DataTables(db, tableOffset, n) == NonDefaultTables(db, tableOffset, n)
    {
      hide Delivered, Room, Padded, TableAt, TableEnd, OutTable, Iids, FirstIids, WellFormedTable, SizedSoFar;
      var cur, hasData := tableOffset, false;
      ghost var v0, all := Now(), Referenced(db, tableOffset, n);
      hasData, cur := SkipDefault(cur, all);
      tableSize := 0;
      for i := 1 to n
        invariant ignoreDefault == (i == 1) && cur == TableOffset(db, tableOffset, i)
        invariant SizedSoFar(NonDefaultTables(db, tableOffset, i), Referenced(db, tableOffset, i), all, tableSize, v0)
      {
        ignoreDefault := false;
        KeyedTable(db, cur, {}, all);
        hasData, tableSize, cur := SizeNext(cur, hasData, tableSize, NonDefaultTables(db, tableOffset, i),
                                            Referenced(db, tableOffset, i), all, v0);
      }
      // the last turn of the source's loop goes back to the default table
      ignoreDefault, cur := false, tableOffset;
      hasData, tableSize, cur := SizeNext(cur, hasData, tableSize, NonDefaultTables(db, tableOffset, n), all, all, v0);
    }

    /** The chunks, laid out one behind the other from blobOffset on, every cursor at its base. */
    ghost predicate LaidOut(blobOffset: nat, ts: seq<CkvTable>, used: seq<MasterKey>)
      reads this`sg, this`mk, this`kid, this`lut, this`pool
    {
      && sg == Chunk(blobOffset + 16, blobOffset + 16, 28 + TablesSize(ts))
      && mk == Chunk(sg.base + sg.size + 4, sg.base + sg.size + 4, |MasterBytes(used)|)
      && kid == Chunk(mk.base + mk.size + 4, mk.base + mk.size + 4, |TablesKid(ts)|)
      && lut == Chunk(kid.base + kid.size + 4, kid.base + kid.size + 4, |TablesLut(ts)|)
      && pool == Chunk(lut.base + lut.size + 4, lut.base + lut.size + 4, |TablesPool(ts)|)
    }

    /** What the data pass finds when the sizing pass is done. */
    ghost predicate Ready(off: nat, n: nat)
      reads this`refs, this`ignoreIidUpdate, this`ignoreDefault, this`keyTables, this`dataTables
    {
      && !ignoreIidUpdate && Iids(refs) == Referenced(db, off, n)
      && dataTables == DataTables(db, off, n) && keyTables == KeyOffsets(db, dataTables)
      && (ignoreDefault ==> dataTables == NonDefaultTables(db, off, n))
    }

    method GetVcpmSubgraphChunkInfo(off: nat, n: nat, masterOffset: nat, blobOffset: nat,
                                    ghost ts: seq<CkvTable>, ghost used: seq<MasterKey>)
      returns (tableSize: nat)
      requires WellFormed(db, off, n) && ts == Delivery(db, off, n)
      requires used == UsedKeys(MasterKeysAt(db, masterOffset), KeysOf(ts))
      requires refs == [] && keyTables == [] && dataTables == [] && !ignoreIidUpdate
      requires sg == mk == kid == lut == pool == Chunk(0, 0, 0)
      modifies this, buf
      ensures buf[..] == old(buf[..]) && Ready(off, n)
      ensures tableSize == 16 + TablesSize(ts) && LaidOut(blobOffset, ts, used)
    {
      hide At, Iids, OutTables, UsedKeys, MasterKeysAt, KeyListsAt, KeysOf, MasterBytes, DataTables;
      hide NonDefaultTables, Referenced;
      hide TablesSg, TablesKid, TablesLut, TablesPool, TablesSize, WellFormed;
      op, ignoreDefault := GetSize, true;
      KeyListsOf(db, off, n);
      tableSize := SizeTables(off, n);
      isDefault := false;
      GetVcpmMasterKeyTable(masterOffset, used);
      tableSize := tableSize + 16;
      LayOutChunks(blobOffset, tableSize);
    }

    /** Bases and cursors of the five chunks, given their sizes. */
    method LayOutChunks(blobOffset: nat, tableSize: nat)
      modifies this`sg, this`mk, this`kid, this`lut, this`pool
      ensures sg == Chunk(blobOffset + 16, blobOffset + 16, 12 + tableSize)
      ensures mk == Chunk(sg.base + sg.size + 4, sg.base + sg.size + 4, old(mk.size))
      ensures kid == Chunk(mk.base + mk.size + 4, mk.base + mk.size + 4, old(kid.size))
      ensures lut == Chunk(kid.base + kid.size + 4, kid.base + kid.size + 4, old(lut.size))
      ensures pool == Chunk(lut.base + lut.size + 4, lut.base + lut.size + 4, old(pool.size))
    {
      sg := sg.(size := 4 + 4 + 4 + tableSize);
      var at := blobOffset + 16;
      sg, at := sg.(base := at, offset := at), at + sg.size;
      mk, at := mk.(base := at, offset := at), at + 4 + mk.size;
      kid, at := kid.(base := at, offset := at), at + 4 + kid.size;
      lut, at := lut.(base := at, offset := at), at + 4 + lut.size;
      pool := pool.(base := at, offset := at);
      // room for the size in front of every chunk but the first
      mk := mk.(base := mk.base + 4, offset := mk.offset + 4);
      kid := kid.(base := kid.base + 4, offset := kid.offset + 4);
      lut := lut.(base := lut.base + 4, offset := lut.offset + 4);
      pool := pool.(base := pool.base + 4, offset := pool.offset + 4);
    }

    /** The table loop of GetVcpmSubgraphChunkData. */
    method WriteTables(off: nat, n: nat, ghost ts: seq<CkvTable>)
      requires WellFormed(db, off, n) && ts == Delivery(db, off, n)
      requires op.GetData? && Ready(off, n)
      requires Room(Now(), Padded(TablesOut(ts)))
      requires kid.offset == kid.base && lut.offset == lut.base && pool.offset == pool.base
      modifies this`refs, this`isDefault, this`ignoreDefault, this`ignoreIidUpdate, this`keyTables
      modifies this`sg, this`kid, this`lut, this`pool, buf
      ensures Delivered(old(Now()), Now(), TablesOut(ts)) && !ignoreIidUpdate && keyTables == old(keyTables)
    {
      hide At, Iids, TableAt, OutTable, Room, Delivered, Padded, TablesOut, TableOut, FirstIids, NonzeroIids;
      hide SortedKeys, KeyOffsets, TableEnd, Word;
      hide DataTables, NonDefaultTables, Referenced, WellFormed, TableSize, TableKeyOffset, Rel;
      ghost var v0, all := Now(), Referenced(db, off, n);
      WriteStart(v0, ts);
      FewTables(db, off, n);
      for i := 0 to |dataTables|
        invariant op.GetData? && !ignoreIidUpdate && Iids(refs) == all && ignoreDefault == old(ignoreDefault)
        invariant keyTables == old(keyTables)
        invariant Delivered(v0, Now(), TablesOut(ts[..i]))
      {
        ghost var v1, o := Now(), dataTables[i];
        DataTableFacts(db, off, n, o);
        assert ts[i] == OutTable(db, o, all) && ts[..i + 1] == ts[..i] + [ts[i]];
        TablesTurn(v0, v1, ts[..i], ts[i], ts);
        var added, end, hasData := GetVcpmCalibrationDataTable(dataTables[i], false, TableAt(db, o), ts[i]);
      }
      assert ts[..|ts|] == ts;
    }

    /** The sizes of the four chunks behind the info chunk, each written in front of its chunk. */
    method WriteChunkSizes()
      requires 4 <= mk.base && mk.base + 4 <= kid.base
      requires kid.base + 4 <= lut.base && lut.base + 4 <= pool.base <= buf.Length
      modifies buf
      ensures At(buf[..], mk.base - 4, Le32(mk.size)) && At(buf[..], kid.base - 4, Le32(kid.size))
      ensures At(buf[..], lut.base - 4, Le32(lut.size)) && At(buf[..], pool.base - 4, Le32(pool.size))
      ensures forall i | 0 <= i < buf.Length && !(mk.base - 4 <= i < mk.base) && !(kid.base - 4 <= i < kid.base)
                && !(lut.base - 4 <= i < lut.base) && !(pool.base - 4 <= i < pool.base) :: buf[i] == old(buf[i])
    {
      hide At, Le32;
      PutTwo(mk.base - 4, Le32(mk.size), kid.base - 4, Le32(kid.size));
      ghost var b := buf[..];
      PutTwo(lut.base - 4, Le32(lut.size), pool.base - 4, Le32(pool.size));
      AtFrame(b, buf[..], mk.base - 4, Le32(mk.size));
      AtFrame(b, buf[..], kid.base - 4, Le32(kid.size));
    }

    method PutTwo(i: nat, x: seq<byte>, j: nat, y: seq<byte>)
      requires i + |x| <= j && j + |y| <= buf.Length
      modifies buf
      ensures At(buf[..], i, x) && At(buf[..], j, y)
      ensures forall k | 0 <= k < buf.Length && !(i <= k < i + |x|) && !(j <= k < j + |y|) :: buf[k] == old(buf[k])
    {
      hide At;
      Put(buf, i, x);
      ghost var b := buf[..];
      Put(buf, j, y);
      AtFrame(b, buf[..], i, x);
    }

    /** Number of subgraphs, always one, and the subgraph's table header. */
    method WriteSubgraphHeader(g: SgInfo, tableSize: nat, ghost ts: seq<CkvTable>)
      requires |ts| == |dataTables| && tableSize == 16 + TablesSize(ts) && sg.offset + 28 <= buf.Length
      modifies this`sg, buf
      ensures sg == old(sg).(offset := old(sg).offset + 28) && At(buf[..], old(sg).offset, SgHeader(g, ts))
      ensures forall i | 0 <= i < buf.Length && !(old(sg).offset <= i < old(sg).offset + 28) :: buf[i] == old(buf[i])
    {
      hide At, Le32, TablesSize;
      Put(buf, sg.offset,
          Le32(1) + Le32(g.subgraphId) + Le32(tableSize) + Le32(g.major) + Le32(g.minor) +
          Le32(0) + Le32(|dataTables|));
      sg := sg.(offset := sg.offset + 28);
    }

    method GetVcpmSubgraphChunkData(off: nat, n: nat, g: SgInfo, tableSize: nat, masterOffset: nat, blobOffset: nat,
                                    ghost ts: seq<CkvTable>, ghost used: seq<MasterKey>)
      requires WellFormed(db, off, n) && ts == Delivery(db, off, n)
      requires used == UsedKeys(MasterKeysAt(db, masterOffset), KeysOf(ts))
      requires Ready(off, n) && LaidOut(blobOffset, ts, used) && tableSize == 16 + TablesSize(ts)
      requires pool.base + pool.size <= buf.Length
      modifies this, buf
      // every write cursor ends exactly where its chunk does
      ensures sg == old(sg.(offset := sg.base + sg.size)) && mk == old(mk.(offset := mk.base + mk.size))
      ensures kid == old(kid.(offset := kid.base + kid.size)) && lut == old(lut.(offset := lut.base + lut.size))
      ensures pool == old(pool.(offset := pool.base + pool.size))
      ensures At(buf[..], blobOffset + 16, BlobBody(g, ts, used))
      ensures forall i | 0 <= i < buf.Length && !(blobOffset + 16 <= i < pool.base + pool.size) :: buf[i] == old(buf[i])
    {
      hide At, Iids, OutTables, UsedKeys, MasterKeysAt, KeyListsAt, KeysOf, MasterBytes, DataTables;
      hide NonDefaultTables, Referenced;
      hide TablesSg, TablesKid, TablesLut, TablesPool, TablesSize, WellFormed, BlobBody, SgHeader, Le32;
      op := GetData;
      KeyListsOf(db, off, n);
      ghost var b0 := buf[..];
      WriteSubgraphHeader(g, tableSize, ts);
      ghost var b1 := buf[..];
      GetVcpmMasterKeyTable(masterOffset, used);
      ghost var v2 := Now();
      WriteTables(off, n, ts);
      isDefault := false;
      ghost var v3 := Now();
      WriteChunkSizes();
      BodyWritten(b0, b1, v2, v3, buf[..], blobOffset + 16, mk.base, g, ts, used);
    }

    /** Search for the subgraph's record. */
    method GetVcpmSubgraphCalTable(numSubgraphs: nat, subgraphId: u32, fileOffset: nat) returns (record: Option<nat>)
      ensures record == FindSubgraph(db, fileOffset, numSubgraphs, subgraphId)
    {
      hide Word;
      var offset: nat := fileOffset;
      for i := 0 to numSubgraphs
        invariant FindSubgraph(db, fileOffset, numSubgraphs, subgraphId) ==
          FindSubgraph(db, offset, numSubgraphs - i, subgraphId)
      {
        if subgraphId == Word(db.file, offset) {
          return Some(offset);
        }
        // past the six header words, less the four of them that the size counts
        offset := offset + 24 + Word(db.file, offset + 4) - 16;
      }
      record := None;
    }

    /** Module header in front of the parameter, zeros behind it. */
    method WriteModuleHeader(iid: u32, pid: u32, blobOffset: nat, ghost body: seq<byte>, paramSize: nat)
      requires At(buf[..], blobOffset + 16, body) && paramSize == |body|
      requires blobOffset + |VcpmBlob(iid, pid, body)| <= buf.Length
      modifies buf
      ensures At(buf[..], blobOffset, VcpmBlob(iid, pid, body))
      ensures forall i | 0 <= i < buf.Length && !(blobOffset <= i < blobOffset + |VcpmBlob(iid, pid, body)|) ::
        buf[i] == old(buf[i])
    {
      hide At, Le32;
      ghost var b0 := buf[..];
      Put(buf, blobOffset, Le32(iid) + Le32(pid) + Le32(paramSize) + Le32(0));
      ghost var b1 := buf[..];
      Put(buf, blobOffset + 16 + paramSize, Zeros(Padding8(paramSize)));
      AtFrame(b0, b1, blobOffset + 16, body);
      AtConcat(b1, blobOffset, ModuleHeader(iid, pid, paramSize), body);
      AtExtend(b1, buf[..], blobOffset, ModuleHeader(iid, pid, paramSize) + body, Zeros(Padding8(paramSize)));
    }

    /**
      The query. Without a buffer it only reports the size; with one of that size it also writes the
      blob, and no write, checked against the capacity by the source or not, leaves it.
     */
    method BuildVcpmBlob(subgraphId: u32, blobOffset: nat) returns (status: Status, bufSize: nat)
      requires refs == [] && keyTables == [] && dataTables == [] && !ignoreIidUpdate
      requires sg == mk == kid == lut == pool == Chunk(0, 0, 0)
      requires forall r | SubgraphRecord(db, subgraphId) == Some(r) :: WellFormedRecord(db, r)
      requires forall r | SubgraphRecord(db, subgraphId) == Some(r) ::
                 buf.Length == 0 || blobOffset + |RecordBlob(db, r)| <= buf.Length
      modifies this, buf
      ensures SubgraphRecord(db, subgraphId).None? ==> status == ENOTEXIST && bufSize == 0 && buf[..] == old(buf[..])
      ensures forall r | SubgraphRecord(db, subgraphId) == Some(r) ::
        && status == EOK && bufSize == |RecordBlob(db, r)|
        && (buf.Length != 0 ==>
          && At(buf[..], blobOffset, RecordBlob(db, r))
          && sg.offset == sg.base + sg.size && mk.offset == mk.base + mk.size && kid.offset == kid.base + kid.size
          && lut.offset == lut.base + lut.size && pool.offset == pool.base + pool.size
          && forall i | 0 <= i < buf.Length && !(blobOffset <= i < blobOffset + bufSize) :: buf[i] == old(buf[i]))
    {
      hide At, Word, WellFormed, BlobBody, ModuleHeader, VcpmBlob, Delivery, UsedKeys, MasterKeysAt, KeysOf;
      hide TablesSize, TablesKid, TablesLut, TablesPool, MasterBytes, FindSubgraph, Ready;
      var record := GetVcpmSubgraphCalTable(Word(db.file, db.calData + 8), subgraphId, db.calData + 12);
      if record.None? {
        return ENOTEXIST, 0;
      }
      var r := record.value;
      ghost var g, ts, used := RecordInfo(db, r), RecordDelivery(db, r), RecordKeys(db, r);
      var off, n, masterOffset := r + 24, Word(db.file, r + 20), Word(db.file, r + 16);
      var tableSize := GetVcpmSubgraphChunkInfo(off, n, masterOffset, blobOffset, ts, used);
      var paramSize := sg.size + 4 + mk.size + 4 + kid.size + 4 + lut.size + 4 + pool.size;
      BodySize(g, ts, used);
      status, bufSize := EOK, Align8(paramSize) + 16;
      if buf.Length == 0 {
        return;
      }
      GetVcpmSubgraphChunkData(off, n, RecordInfo(db, r), tableSize, masterOffset, blobOffset, ts, used);
      WriteModuleHeader(Word(db.file, db.calData), Word(db.file, db.calData + 4), blobOffset, RecordBody(db, r),
                        paramSize);
    }
  }
}
