/** A set request, sorted into one list of records per subgraph. */
module SetMap {
  import opened Bytes
  import opened CalBlob
  import opened SubgraphMap

  /** AcdbDeltaSubgraphData; only the non-global list is ever filled. */
  datatype SubgraphData = SubgraphData(sgId: u32, records: seq<Record>, dataSize: nat)

  /** The records whose module belongs to the subgraph, in request order. */
  function Owned(maps: seq<SubgraphProcs>, sgId: u32, rs: seq<Record>): seq<Record> {
    if rs == [] then []
    else
      var before, last := Owned(maps, sgId, rs[..|rs| - 1]), rs[|rs| - 1];
      if Contains(maps, sgId, last.iid) then before + [last] else before
  }

  function RecordSize(r: Record): nat {
    12 + |r.payload|
  }

  /** What the heap is to hold for a subgraph: its records and their plain sizes. */
  function Share(maps: seq<SubgraphProcs>, sgId: u32, rs: seq<Record>): SubgraphData {
    var mine := Owned(maps, sgId, rs);
    SubgraphData(sgId, mine, Sum(RecordSize, mine))
  }

  function Shares(maps: seq<SubgraphProcs>, sgIds: seq<u32>, rs: seq<Record>): (r: seq<SubgraphData>)
    ensures |r| == |sgIds|
  {
    seq(|sgIds|, i requires 0 <= i < |sgIds| => Share(maps, sgIds[i], rs))
  }

  function DataSize(d: SubgraphData): nat {
    d.dataSize
  }

  predicate Known(maps: seq<SubgraphProcs>, sgId: u32) {
    ProcsOf(maps, sgId).Some?
  }

  /** The inner loop of ConvertSetCalDataReqToMap. A malformed blob is reported as a lack of memory. */
  method MapSubgraph(file: seq<byte>, chunk: nat, ignoreErrorCode: bool, blob: seq<byte>, sgId: u32,
                     ghost maps: seq<SubgraphProcs>)
    returns (status: Status, data: SubgraphData)
    requires At(file, chunk, ChunkBytes(maps)) && Fits(maps)
    ensures match ParseAll(ignoreErrorCode, blob, 0)
      case None => status == ENOMEMORY
      case Some(rs) =>
        && status == (if rs == [] || Known(maps, sgId) then EOK else ENOTEXIST)
        && data == Share(maps, sgId, rs)
  {
    hide At, Parse, Contains, ProcsOf, Share;
    status, data := EOK, SubgraphData(sgId, [], 0);
    var off := 0;
    ghost var done := [];
    ghost var all := ParseAll(ignoreErrorCode, blob, 0);
    NothingYet(maps, sgId, all);
    while off < |blob|
      invariant data == Share(maps, sgId, done)
      invariant status == if done == [] || Known(maps, sgId) then EOK else ENOTEXIST
      invariant match ParseAll(ignoreErrorCode, blob, off)
        case None => all == None
        case Some(rest) => all == Some(done + rest)
      decreases |blob| - off
    {
      var record, contains;
      ghost var start := off;
      status, record, off := BlobToCalData(ignoreErrorCode, blob, off);
      if status != EOK {
        return ENOMEMORY, data;
      }
      contains, status := DoesSubgraphContainModule(file, chunk, sgId, record.iid, maps);
      if contains && status == EOK {
        data := data.(dataSize := data.dataSize + 3 * 4 + |record.payload|, records := data.records + [record]);
      }
      ShareSnoc(maps, sgId, done, record);
      StillAll(ignoreErrorCode, blob, start, done, all);
      done := done + [record];
    }
    assert done + [] == done;
  }

  lemma NothingYet(maps: seq<SubgraphProcs>, sgId: u32, all: Option<seq<Record>>)
    ensures Share(maps, sgId, []) == SubgraphData(sgId, [], 0)
    ensures all.Some? ==> all.value == [] + all.value
  {
  }

  lemma ShareSnoc(maps: seq<SubgraphProcs>, sgId: u32, rs: seq<Record>, r: Record)
    ensures var before := Share(maps, sgId, rs);
      (Contains(maps, sgId, r.iid) ==> Known(maps, sgId)) &&
      Share(maps, sgId, rs + [r]) ==
      if Contains(maps, sgId, r.iid) then
        before.(records := before.records + [r], dataSize := before.dataSize + RecordSize(r))
      else before
  {
    assert (rs + [r])[..|rs|] == rs;
    var mine := Owned(maps, sgId, rs);
    assert (mine + [r])[..|mine|] == mine;
  }

  /** What is still to be parsed, behind what has been. */
  lemma StillAll(ignoreErrorCode: bool, blob: seq<byte>, off: nat, done: seq<Record>, all: Option<seq<Record>>)
    requires off < |blob| && Parse(ignoreErrorCode, blob, off).Some?
    requires match ParseAll(ignoreErrorCode, blob, off)
      case None => all == None
      case Some(rest) => all == Some(done + rest)
    ensures var p := Parse(ignoreErrorCode, blob, off).value;
      match ParseAll(ignoreErrorCode, blob, p.end)
      case None => all == None
      case Some(rest) => all == Some(done + [p.record] + rest)
  {
    hide Parse;
    var p := Parse(ignoreErrorCode, blob, off).value;
    var later := ParseAll(ignoreErrorCode, blob, p.end);
    if later.Some? {
      assert done + ([p.record] + later.value) == done + [p.record] + later.value;
    }
  }

  /** ConvertSetCalDataReqToMap, without the key vector that it copies along. */
  method ConvertSetRequest(file: seq<byte>, chunk: nat, ignoreErrorCode: bool, blob: seq<byte>, sgIds: seq<u32>,
                           ghost maps: seq<SubgraphProcs>)
    returns (status: Status, list: seq<SubgraphData>, mapSize: nat)
    requires At(file, chunk, ChunkBytes(maps)) && Fits(maps)
    ensures sgIds == [] ==> status == EOK && list == [] && mapSize == 0
    ensures sgIds != [] ==>
      match ParseAll(ignoreErrorCode, blob, 0)
      case None => status == ENOMEMORY
      case Some(rs) =>
        && status == (if rs == [] || (forall i | 0 <= i < |sgIds| :: Known(maps, sgIds[i])) then EOK else ENOTEXIST)
        && (status == EOK ==> list == Shares(maps, sgIds, rs) && mapSize == Sum(DataSize, list) + 4 * |sgIds|)
  {
    hide At, ParseAll, Share, Known, Fits, ChunkBytes;
    list, mapSize, status := [], 0, EOK;
    for i := 0 to |sgIds|
      invariant status == EOK
      invariant i > 0 ==> ParseAll(ignoreErrorCode, blob, 0).Some?
      invariant |list| == i && mapSize == Sum(DataSize, list)
      invariant forall j | 0 <= j < i :: list[j] == Share(maps, sgIds[j], ParseAll(ignoreErrorCode, blob, 0).value)
      invariant i > 0 && ParseAll(ignoreErrorCode, blob, 0).value != [] ==>
        forall j | 0 <= j < i :: Known(maps, sgIds[j])
    {
      var data;
      status, data := MapSubgraph(file, chunk, ignoreErrorCode, blob, sgIds[i], maps);
      if status != EOK {
        return;
      }
      SumSnoc(DataSize, list, data);
      list := list + [data];
      mapSize := mapSize + data.dataSize;
    }
    mapSize := mapSize + 4 * |sgIds|;
  }

  // ---------------------------------------------------------------- what the shares are

  /** A subgraph's share holds the records of its own modules as often as the request does, and no others. */
  lemma {:induction false} ShareHolds(maps: seq<SubgraphProcs>, sgId: u32, rs: seq<Record>, r: Record)
    ensures multiset(Share(maps, sgId, rs).records)[r] == if Contains(maps, sgId, r.iid) then multiset(rs)[r] else 0
  {
    hide Contains;
    if rs != [] {
      var n := |rs| - 1;
      ShareHolds(maps, sgId, rs[..n], r);
      assert rs == rs[..n] + [rs[n]];
    }
  }

  /** Shares keep the request's order: a request in two parts gives every share in two parts. */
  lemma {:induction false} ShareInOrder(maps: seq<SubgraphProcs>, sgId: u32, a: seq<Record>, b: seq<Record>)
    ensures Share(maps, sgId, a + b).records == Share(maps, sgId, a).records + Share(maps, sgId, b).records
  {
    hide Contains;
    if b == [] {
      assert a + b == a;
    } else {
      var n := |b| - 1;
      ShareInOrder(maps, sgId, a, b[..n]);
      assert (a + b)[..|a + b| - 1] == a + b[..n];
    }
  }

  /** The size recorded for a share is the length of the plain blob its records print to. */
  lemma ShareSize(maps: seq<SubgraphProcs>, sgId: u32, rs: seq<Record>)
    ensures var share := Share(maps, sgId, rs); share.dataSize == |PrintedAll(true, share.records)|
  {
    PlainSize(Owned(maps, sgId, rs));
  }

  lemma {:induction false} PlainSize(rs: seq<Record>)
    ensures Sum(RecordSize, rs) == |PrintedAll(true, rs)|
  {
    if rs != [] {
      PlainSize(rs[..|rs| - 1]);
    }
  }

  /** The i-th share is that of the i-th subgraph asked for, with its id, its own records and their printed length. */
  lemma SharesMean(maps: seq<SubgraphProcs>, sgIds: seq<u32>, rs: seq<Record>, i: nat, r: Record)
    requires i < |sgIds|
    ensures var share := Shares(maps, sgIds, rs)[i];
      && share.sgId == sgIds[i] && share.dataSize == |PrintedAll(true, share.records)|
      && multiset(share.records)[r] == (if Contains(maps, sgIds[i], r.iid) then multiset(rs)[r] else 0)
  {
    hide Contains, PrintedAll, Owned, ParseAll;
    ShareHolds(maps, sgIds[i], rs, r);
    ShareSize(maps, sgIds[i], rs);
  }

  function ShareBytes(d: SubgraphData): seq<byte> {
    PrintedAll(true, d.records)
  }

  /** The map is as long as the printed records of all shares. */
  lemma {:induction false} MapBytes(list: seq<SubgraphData>)
    requires forall i | 0 <= i < |list| :: list[i].dataSize == |PrintedAll(true, list[i].records)|
    ensures Sum(DataSize, list) == |Flat(ShareBytes, list)|
  {
    hide PrintedAll;
    if list != [] {
      var n := |list| - 1;
      assert forall i | 0 <= i < n :: list[..n][i] == list[i];
      MapBytes(list[..n]);
    }
  }
}
