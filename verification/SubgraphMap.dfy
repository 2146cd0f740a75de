/** The chunk that says, for every subgraph, which module instances run on which processor. */
module SubgraphMap {
  import opened Bytes

  datatype ModuleInstance = ModuleInstance(mid: u32, iid: u32)

  datatype ProcModules = ProcModules(proc: u32, modules: seq<ModuleInstance>)

  datatype SubgraphProcs = SubgraphProcs(sgId: u32, procs: seq<ProcModules>)

  function ModuleBytes(m: ModuleInstance): (r: seq<byte>)
    ensures |r| == 8
  {
    Le32(m.mid) + Le32(m.iid)
  }

  function ProcBytes(p: ProcModules): seq<byte> {
    Le32(p.proc) + Le32(|p.modules|) + Flat(ModuleBytes, p.modules)
  }

  function ProcListBytes(procs: seq<ProcModules>): seq<byte> {
    Flat(ProcBytes, procs)
  }

  function SubgraphBytes(s: SubgraphProcs): seq<byte> {
    Le32(s.sgId) + Le32(|s.procs|) + Le32(|ProcListBytes(s.procs)|) + ProcListBytes(s.procs)
  }

  function ChunkBytes(maps: seq<SubgraphProcs>): seq<byte> {
    Le32(|maps|) + Flat(SubgraphBytes, maps)
  }

  predicate Fits(maps: seq<SubgraphProcs>) {
    && |maps| < WORD_LIMIT
    && forall i | 0 <= i < |maps| :: |ProcListBytes(maps[i].procs)| < WORD_LIMIT
  }

  // ---------------------------------------------------------------- what the chunk means

  /** The processors of the first entry of a subgraph; an empty chunk answers every question with "none". */
  function ProcsOf(maps: seq<SubgraphProcs>, sgId: u32): (r: Option<seq<ProcModules>>)
    ensures r.None? <==> maps != [] && forall i | 0 <= i < |maps| :: maps[i].sgId != sgId
  {
    if maps == [] then Some([]) else FirstEntry(maps, sgId)
  }

  function FirstEntry(maps: seq<SubgraphProcs>, sgId: u32): (r: Option<seq<ProcModules>>)
    ensures r.None? <==> forall i | 0 <= i < |maps| :: maps[i].sgId != sgId
  {
    if maps == [] then None
    else if maps[0].sgId == sgId then Some(maps[0].procs)
    else FirstEntry(maps[1..], sgId)
  }

  predicate HasModule(modules: seq<ModuleInstance>, iid: u32) {
    exists i | 0 <= i < |modules| :: modules[i].iid == iid
  }

  /** The processor of the first list that names the module instance. */
  function ProcOf(procs: seq<ProcModules>, iid: u32): (r: Option<u32>)
    ensures r.Some? <==> exists i | 0 <= i < |procs| :: HasModule(procs[i].modules, iid)
  {
    if procs == [] then None
    else if HasModule(procs[0].modules, iid) then Some(procs[0].proc)
    else ProcOf(procs[1..], iid)
  }

  /** The entry that answers for a subgraph is its first one. */
  lemma {:induction false} FirstEntryMeans(maps: seq<SubgraphProcs>, sgId: u32)
    ensures FirstEntry(maps, sgId).Some? ==>
      exists i | 0 <= i < |maps| ::
        && maps[i].sgId == sgId && FirstEntry(maps, sgId) == Some(maps[i].procs)
        && forall j | 0 <= j < i :: maps[j].sgId != sgId
  {
    if maps != [] && maps[0].sgId != sgId && FirstEntry(maps[1..], sgId).Some? {
      FirstEntryMeans(maps[1..], sgId);
      var rest := maps[1..];
      var i :| 0 <= i < |rest| && rest[i].sgId == sgId && FirstEntry(rest, sgId) == Some(rest[i].procs)
        && forall j | 0 <= j < i :: rest[j].sgId != sgId;
      assert maps[i + 1] == maps[1..][i];
      assert forall j | 1 <= j < i + 1 :: maps[j] == maps[1..][j - 1];
    }
  }

  /** A module runs on the processor of the first list that names it. */
  lemma {:induction false} ProcOfMeans(procs: seq<ProcModules>, iid: u32)
    ensures ProcOf(procs, iid).Some? ==>
      exists i | 0 <= i < |procs| ::
        && HasModule(procs[i].modules, iid) && ProcOf(procs, iid) == Some(procs[i].proc)
        && forall j | 0 <= j < i :: !HasModule(procs[j].modules, iid)
  {
    hide HasModule;
    if procs != [] && !HasModule(procs[0].modules, iid) && ProcOf(procs[1..], iid).Some? {
      ProcOfMeans(procs[1..], iid);
      var rest := procs[1..];
      var i :| 0 <= i < |rest| && HasModule(rest[i].modules, iid) && ProcOf(rest, iid) == Some(rest[i].proc)
        && forall j | 0 <= j < i :: !HasModule(rest[j].modules, iid);
      assert procs[i + 1] == procs[1..][i];
      assert forall j | 1 <= j < i + 1 :: procs[j] == procs[1..][j - 1];
    }
  }

  // ---------------------------------------------------------------- the scans

  lemma SubgraphAt(file: seq<byte>, off: nat, s: SubgraphProcs)
    requires At(file, off, SubgraphBytes(s)) && |ProcListBytes(s.procs)| < WORD_LIMIT
    ensures Word(file, off) == s.sgId && Word(file, off + 8) == |ProcListBytes(s.procs)|
    ensures At(file, off + 12, ProcListBytes(s.procs))
  {
    hide At, Le32, Word, ProcListBytes;
    var n := |ProcListBytes(s.procs)|;
    AtConcat(file, off, Le32(s.sgId) + Le32(|s.procs|) + Le32(n), ProcListBytes(s.procs));
    AtConcat(file, off, Le32(s.sgId) + Le32(|s.procs|), Le32(n));
    AtConcat(file, off, Le32(s.sgId), Le32(|s.procs|));
    WordAt(file, off, s.sgId);
    WordAt(file, off + 8, n);
  }

  lemma ProcAt(file: seq<byte>, off: nat, p: ProcModules)
    requires At(file, off, ProcBytes(p)) && |ProcBytes(p)| < WORD_LIMIT
    ensures Word(file, off) == p.proc && Word(file, off + 4) == |p.modules|
    ensures At(file, off + 8, Flat(ModuleBytes, p.modules))
    ensures |ProcBytes(p)| == 8 + 8 * |p.modules|
  {
    hide At, Le32, Word, Flat;
    ModulesSize(p.modules);
    AtConcat(file, off, Le32(p.proc) + Le32(|p.modules|), Flat(ModuleBytes, p.modules));
    AtConcat(file, off, Le32(p.proc), Le32(|p.modules|));
    WordAt(file, off, p.proc);
    WordAt(file, off + 4, |p.modules|);
  }

  lemma {:induction false} ModulesSize(ms: seq<ModuleInstance>)
    ensures |Flat(ModuleBytes, ms)| == 8 * |ms|
  {
    if ms != [] {
      ModulesSize(ms[..|ms| - 1]);
    }
  }

  lemma ModuleAt(file: seq<byte>, off: nat, ms: seq<ModuleInstance>, k: nat)
    requires At(file, off, Flat(ModuleBytes, ms)) && k < |ms|
    ensures Word(file, off + 8 * k + 4) == ms[k].iid
  {
    hide At, Le32, Word, Flat;
    FlatAt(ModuleBytes, ms, k, file, off);
    ModulesSize(ms[..k]);
    AtConcat(file, off + 8 * k, Le32(ms[k].mid), Le32(ms[k].iid));
    WordAt(file, off + 8 * k + 4, ms[k].iid);
  }

  lemma FlatNone<T>(f: T -> seq<byte>, xs: seq<T>)
    ensures Flat(f, xs[..0]) == [] && xs[0..] == xs[..|xs|] == xs
  {
  }

  /** DataProcGetSubgraphProcIidMap: on EOK, where the processor lists start and how long they are. */
  method GetSubgraphProcIidMap(file: seq<byte>, chunk: nat, sgId: u32, ghost maps: seq<SubgraphProcs>)
    returns (status: Status, size: nat, procInfo: nat)
    requires At(file, chunk, ChunkBytes(maps)) && Fits(maps)
    ensures match ProcsOf(maps, sgId)
      case None => status == ENOTEXIST && size == 0
      case Some(p) => status == EOK && size == |ProcListBytes(p)| < WORD_LIMIT && At(file, procInfo, ProcListBytes(p))
  {
    hide At, Le32, Word, ProcListBytes, Flat;
    AtConcat(file, chunk, Le32(|maps|), Flat(SubgraphBytes, maps));
    WordAt(file, chunk, |maps|);
    FlatNone(SubgraphBytes, maps);
    var count, offset := Word(file, chunk), chunk + 4;
    ghost var base := offset;
    status, size, procInfo := EOK, 0, 0;
    for i := 0 to count
      invariant offset == base + |Flat(SubgraphBytes, maps[..i])|
      invariant FirstEntry(maps, sgId) == FirstEntry(maps[i..], sgId)
      invariant size == 0 && status == if i == 0 then EOK else ENOTEXIST
    {
      FlatAt(SubgraphBytes, maps, i, file, base);
      SubgraphAt(file, offset, maps[i]);
      assert maps[i..][0] == maps[i] && maps[i..][1..] == maps[i + 1..];
      var id := Word(file, offset);
      size := Word(file, offset + 8);
      offset := offset + 12;
      if sgId == id {
        procInfo, status := offset, EOK;
        return;
      }
      offset := offset + size;
      status, size := ENOTEXIST, 0;
    }
    NoProcs(file);
  }

  lemma NoProcs(file: seq<byte>)
    ensures ProcListBytes([]) == [] && At(file, 0, ProcListBytes([]))
  {
  }

  /** The loop shared by the two questions below: the index of the first list that names the module. */
  method FindModule(file: seq<byte>, procInfo: nat, size: nat, iid: u32, ghost procs: seq<ProcModules>)
    returns (found: bool, proc: u32)
    requires At(file, procInfo, ProcListBytes(procs)) && size == |ProcListBytes(procs)| < WORD_LIMIT
    ensures ProcOf(procs, iid) == if found then Some(proc) else None
  {
    hide At, Le32, Word, ProcBytes, Flat, HasModule;
    FlatNone(ProcBytes, procs);
    var offset := 0;
    ghost var k := 0;
    while offset < size
      invariant k <= |procs| && offset == |Flat(ProcBytes, procs[..k])|
      invariant ProcOf(procs, iid) == ProcOf(procs[k..], iid)
    {
      FlatNone(ProcBytes, procs);
      assert k < |procs|;
      FlatAt(ProcBytes, procs, k, file, procInfo);
      ProcAt(file, procInfo + offset, procs[k]);
      assert procs[k..][0] == procs[k] && procs[k..][1..] == procs[k + 1..];
      var list := procInfo + offset;
      var count := Word(file, list + 4);
      offset := offset + 8 + 8 * count;
      var has := ListNames(file, list + 8, count, iid, procs[k].modules);
      if has {
        return true, Word(file, list);
      }
      k := k + 1;
    }
    LastList(procs, k, offset);
    return false, 0;
  }

  lemma LastList(procs: seq<ProcModules>, k: nat, offset: nat)
    requires k <= |procs| && offset == |Flat(ProcBytes, procs[..k])| >= |ProcListBytes(procs)|
    ensures k == |procs| && procs[k..] == []
  {
    hide ProcBytes;
    if k < |procs| {
      FlatConcat(ProcBytes, procs[..k], procs[k..]);
      assert procs == procs[..k] + procs[k..];
      ListNotEmpty(procs[k..]);
      assert false;
    }
  }

  lemma ListNotEmpty(procs: seq<ProcModules>)
    requires procs != []
    ensures |Flat(ProcBytes, procs)| >= 8
  {
  }

  method ListNames(file: seq<byte>, off: nat, count: nat, iid: u32, ghost modules: seq<ModuleInstance>)
    returns (has: bool)
    requires At(file, off, Flat(ModuleBytes, modules)) && count == |modules|
    ensures has == HasModule(modules, iid)
  {
    hide At, Word, Flat;
    for i := 0 to count
      invariant forall j | 0 <= j < i :: modules[j].iid != iid
    {
      ModuleAt(file, off, modules, i);
      if iid == Word(file, off + 8 * i + 4) {
        return true;
      }
    }
    has := false;
  }

  /** DoesSubgraphContainModule. */
  method DoesSubgraphContainModule(file: seq<byte>, chunk: nat, sgId: u32, iid: u32, ghost maps: seq<SubgraphProcs>)
    returns (contains: bool, status: Status)
    requires At(file, chunk, ChunkBytes(maps)) && Fits(maps)
    ensures contains == Contains(maps, sgId, iid)
    ensures status == if ProcsOf(maps, sgId).Some? then EOK else ENOTEXIST
  {
    hide At, ProcListBytes, Word, Flat, ProcOf;
    var size, procInfo;
    status, size, procInfo := GetSubgraphProcIidMap(file, chunk, sgId, maps);
    if status != EOK {
      return false, status;
    }
    var proc;
    contains, proc := FindModule(file, procInfo, size, iid, ProcsOf(maps, sgId).value);
  }

  /** Some processor list of the subgraph's first entry names the module instance. */
  predicate Contains(maps: seq<SubgraphProcs>, sgId: u32, iid: u32) {
    var procs := ProcsOf(maps, sgId);
    procs.Some? && ProcOf(procs.value, iid).Some?
  }

  /** DataProcGetProcDomainForModule, over the lists that GetSubgraphProcIidMap located. */
  method GetProcDomainForModule(file: seq<byte>, procInfo: nat, size: nat, iid: u32, ghost procs: seq<ProcModules>)
    returns (status: Status, proc: u32)
    requires At(file, procInfo, ProcListBytes(procs)) && size == |ProcListBytes(procs)| < WORD_LIMIT
    ensures match ProcOf(procs, iid)
      case Some(p) => status == EOK && proc == p
      case None => status == ENOTEXIST
  {
    var found;
    found, proc := FindModule(file, procInfo, size, iid, procs);
    status := if found then EOK else ENOTEXIST;
  }
}
