/**
  What an audio calibration query delivers: the records of one pass over a DEF table, of the passes over
  one subgraph's key tables, and of all requested subgraphs.
 */
module CalWalk {
  import opened Bytes
  import opened Search
  import opened CalBlob
  import opened CalKeys
  import opened CalFind
  import opened CalRefs

  datatype ParamType = NonPersistent | Persistent | DontCare

  datatype HeapKey = HeapKey(mckv: seq<KeyValue>, sgId: u32, iid: u32, pid: u32)

  /** Calibration the client has set, by key vector, subgraph, module instance and parameter. */
  type Heap = map<HeapKey, seq<byte>>

  /** What a query works from: the database, the heap, and the key vectors of AcdbAudioCalContextInfo. */
  datatype Config = Config(db: CalDb, heap: Heap, paramType: ParamType, ckv: seq<KeyValue>, delta: seq<KeyValue>,
                           isFirstTime: bool)

  // ---------------------------------------------------------------- one DEF table

  function EntryAt(db: CalDb, defOff: nat, dotOff: nat, i: nat): Entry {
    var d, q := db.def + defOff + 4 + 8 * i, db.pool + Word(db.file, db.dot + dotOff + 4 + 4 * i);
    Entry(Word(db.file, d), Word(db.file, d + 4), Slice(db.file, q + 4, Word(db.file, q)))
  }

  /** The first n entries of a DEF table, with the payloads the DOT table points to. */
  function Entries(db: CalDb, defOff: nat, dotOff: nat, n: nat): (r: seq<Entry>)
    ensures |r| == n
  {
    if n == 0 then [] else Entries(db, defOff, dotOff, n - 1) + [EntryAt(db, defOff, dotOff, n - 1)]
  }

  function DefTable(db: CalDb, defOff: nat, dotOff: nat): seq<Entry> {
    Entries(db, defOff, dotOff, Word(db.file, db.def + defOff))
  }

  predicate Wanted(cfg: Config, pid: u32) {
    match cfg.paramType
    case NonPersistent => pid !in cfg.db.persistentPids
    case Persistent => pid in cfg.db.persistentPids
    case DontCare => true
  }

  /** The record of one entry; what the client has set comes before what the file holds. */
  function RecordOf(cfg: Config, sgId: u32, mckv: seq<KeyValue>, e: Entry): Record {
    var key := HeapKey(mckv, sgId, e.iid, e.pid);
    Record(e.iid, e.pid, if key in cfg.heap then cfg.heap[key] else e.payload)
  }

  /** The records of the entries that have the wanted persistence. */
  function Records(cfg: Config, sgId: u32, mckv: seq<KeyValue>, es: seq<Entry>): seq<Record> {
    if es == [] then []
    else
      var before, e := Records(cfg, sgId, mckv, es[..|es| - 1]), es[|es| - 1];
      if Wanted(cfg, e.pid) then before + [RecordOf(cfg, sgId, mckv, e)] else before
  }

  /** Calibration that the client has set is delivered in place of the file's, and only then. */
  lemma HeapFirst(cfg: Config, sgId: u32, mckv: seq<KeyValue>, e: Entry)
    ensures var key, r := HeapKey(mckv, sgId, e.iid, e.pid), RecordOf(cfg, sgId, mckv, e);
      && r.iid == e.iid && r.pid == e.pid
      && (key in cfg.heap ==> r.payload == cfg.heap[key]) && (key !in cfg.heap ==> r.payload == e.payload)
  {
  }

  /** Persistent and other parameters are told apart by their ids, and the order of a table is kept. */
  lemma RecordsMean(cfg: Config, sgId: u32, mckv: seq<KeyValue>, es: seq<Entry>, e: Entry)
    ensures Records(cfg, sgId, mckv, []) == []
    ensures Records(cfg, sgId, mckv, es + [e]) ==
            if (cfg.paramType == NonPersistent && e.pid in cfg.db.persistentPids) ||
               (cfg.paramType == Persistent && e.pid !in cfg.db.persistentPids)
            then Records(cfg, sgId, mckv, es)
            else Records(cfg, sgId, mckv, es) + [RecordOf(cfg, sgId, mckv, e)]
  {
    assert (es + [e])[..|es|] == es;
  }

  const GLB_BUF_1_LENGTH := 2500

  datatype Outcome = Outcome(status: Status, recs: seq<Record>, refs: Option<seq<IidRef>>)

  /** AcdbGetSubgraphCalibration, given room for the records. */
  function PassOutcome(cfg: Config, sgId: u32, mckv: seq<KeyValue>, ignoreDefault: bool, refs: Option<seq<IidRef>>,
                       es: seq<Entry>): Outcome {
    var isDefault := mckv == [];
    if isDefault && ignoreDefault then
      (if GLB_BUF_1_LENGTH < 2 * |es| then Outcome(ENEEDMORE, [], refs) else Outcome(EOK, [], Some(Runs(es))))
    else
      var pass := Admit(isDefault, refs, es);
      var recs := Records(cfg, sgId, mckv, pass.admitted);
      Outcome(if recs == [] then ENOTEXIST else EOK, recs, if isDefault then None else pass.refs)
  }

  // ---------------------------------------------------------------- one subgraph

  /** A record of the subgraph LUT. */
  datatype SgTables = SgTables(sgId: u32, tables: seq<TableRef>)

  /** What AcdbFindModuleCKV finds when the scratch buffer has no say. */
  function FindIn(cfg: Config, t: TableRef): Found {
    FindByKeys(cfg.db, t, cfg.ckv, cfg.delta, cfg.isFirstTime)
  }

  /** What it finds with these words in the buffer; a buffer too short for the row counts as having no say. */
  function FindWith(cfg: Config, t: TableRef, scratch: seq<u32>): Found {
    if 3 * |KeyIds(cfg.db, t)| + 3 <= |scratch| then Find(cfg.db, t, cfg.ckv, cfg.delta, cfg.isFirstTime, scratch)
    else FindIn(cfg, t)
  }

  /** And what it leaves there. */
  function LeftBy(cfg: Config, t: TableRef, scratch: seq<u32>): (r: seq<u32>)
    ensures |r| == |scratch|
  {
    if 3 * |KeyIds(cfg.db, t)| + 3 <= |scratch| then
      ScratchAfter(cfg.db, t, cfg.ckv, cfg.delta, cfg.isFirstTime, scratch)
    else scratch
  }

  predicate IsFree(cfg: Config, t: TableRef) {
    ScratchFree(cfg.db, t, cfg.ckv, cfg.isFirstTime)
  }

  predicate SgFree(cfg: Config, sg: SgTables) {
    forall i | 0 <= i < |sg.tables| :: IsFree(cfg, sg.tables[i])
  }

  lemma FindWithoutScratch(cfg: Config, t: TableRef, scratch: seq<u32>)
    requires IsFree(cfg, t)
    ensures FindWith(cfg, t, scratch) == FindIn(cfg, t)
  {
    hide FindByKeys, Find, KeyIds, ScratchFree;
    if 3 * |KeyIds(cfg.db, t)| + 3 <= |scratch| {
      FindScratchFree(cfg.db, t, cfg.ckv, cfg.delta, cfg.isFirstTime, scratch);
    }
  }

  lemma MatchKeeps(cfg: Config, t: TableRef, scratch: seq<u32>)
    ensures RowCount(cfg.db, t) > 0 ==> FindIn(cfg, t) != Broken && FindWith(cfg, t, scratch) != Broken
    ensures FindWith(cfg, t, scratch).Match? ==> (FindWith(cfg, t, scratch).mckv == [] <==> KeyIds(cfg.db, t) == [])
    ensures !cfg.isFirstTime && KeyIds(cfg.db, t) == [] ==> FindWith(cfg, t, scratch) == Missing
  {
    hide RowFor, KeyIds;
    var keys := KeyIds(cfg.db, t);
    if Covers(cfg.ckv, keys) {
      RowForAny(cfg.db, t, Pairs(keys, cfg.ckv), Values(keys, cfg.ckv));
    }
    if 3 * |keys| + 3 <= |scratch| {
      RowForAny(cfg.db, t, ModuleCkv(keys, cfg.ckv, scratch), SearchKey(keys, cfg.ckv, scratch));
    }
  }

  /** The state of the loop over a subgraph's key tables. */
  datatype SgState = SgState(recs: seq<Record>, refs: Option<seq<IidRef>>, ignoreDefault: bool, last: Status,
                             hasData: bool, stopped: bool, scratch: seq<u32>)

  /** One key table; the extra pass at the end stops ignoring the default table. */
  function Step(cfg: Config, sgId: u32, s: SgState, t: TableRef, isExtra: bool): SgState {
    var ignoring, left := s.ignoreDefault && !isExtra, LeftBy(cfg, t, s.scratch);
    match FindWith(cfg, t, s.scratch)
    case Missing => s.(ignoreDefault := ignoring, last := ENOTEXIST, scratch := left)
    case Broken => s.(ignoreDefault := ignoring, last := EFAILED, stopped := true, scratch := left)
    case Match(mckv, defOff, dotOff) =>
      var ignore := ignoring || mckv != [];
      var out := PassOutcome(cfg, sgId, mckv, ignore, s.refs, DefTable(cfg.db, defOff, dotOff));
      AfterPass(s.(scratch := left), out, mckv == [], ignore)
  }

  function AfterPass(s: SgState, out: Outcome, isDefault: bool, ignore: bool): SgState {
    SgState(s.recs + out.recs, out.refs, ignore, out.status,
            s.hasData || (out.status == EOK && !(isDefault && ignore)), out.status == ENEEDMORE, s.scratch)
  }

  lemma OutcomeStatus(cfg: Config, sgId: u32, mckv: seq<KeyValue>, ignoreDefault: bool, refs: Option<seq<IidRef>>,
                      es: seq<Entry>)
    ensures PassOutcome(cfg, sgId, mckv, ignoreDefault, refs, es).status in [EOK, ENOTEXIST, ENEEDMORE]
  {
  }

  /** The tables visited: all in order and then, on a first query, the default table in front once more. */
  function Visited(cfg: Config, tables: seq<TableRef>): seq<TableRef> {
    if |tables| > 1 && cfg.isFirstTime then tables + [tables[0]] else tables
  }

  /** The loop over the first k visited tables. */
  function SgLoop(cfg: Config, sg: SgTables, scratch: seq<u32>, k: nat): SgState
    requires k <= |Visited(cfg, sg.tables)|
  {
    if k == 0 then SgState([], None, |sg.tables| != 1, EOK, false, false, scratch)
    else
      var s := SgLoop(cfg, sg, scratch, k - 1);
      if s.stopped then s
      else Step(cfg, sg.sgId, s, Visited(cfg, sg.tables)[k - 1], k - 1 == |sg.tables|)
  }

  function SgWalk(cfg: Config, sg: SgTables, scratch: seq<u32>): SgState {
    SgLoop(cfg, sg, scratch, |Visited(cfg, sg.tables)|)
  }

  // ---------------------------------------------------------------- the cursor over the subgraph LUT

  datatype Sought = Sought(found: bool, cursor: nat, prev: nat)

  /** One search: from the cursor to the subgraph, or back to the last one found once its place is passed. */
  function Seek(lut: seq<SgTables>, cursor: nat, prev: nat, sgId: u32): (r: Sought)
    requires cursor <= |lut| && prev <= |lut|
    ensures r.cursor <= |lut| && r.prev <= |lut|
    ensures r.found ==> r.prev < |lut| && lut[r.prev].sgId == sgId && r.cursor == r.prev + 1
    decreases |lut| - cursor
  {
    if cursor == |lut| then Sought(false, cursor, prev)
    else if lut[cursor].sgId == sgId then Sought(true, cursor + 1, cursor)
    else if sgId < lut[cursor].sgId then Sought(false, prev, prev)
    else Seek(lut, cursor + 1, prev, sgId)
  }

  /** The cursor after the first k requested subgraphs; a subgraph that was found is behind it. */
  function Cursor(lut: seq<SgTables>, ids: seq<u32>, k: nat): (r: Sought)
    requires k <= |ids|
    ensures r.cursor <= |lut| && r.prev <= |lut|
  {
    if k == 0 then Sought(false, 0, 0)
    else
      var s := Cursor(lut, ids, k - 1);
      Seek(lut, s.cursor, s.prev, ids[k - 1])
  }

  /** The record the walk finds for the k-th requested subgraph. */
  function WalkFinds(lut: seq<SgTables>, ids: seq<u32>, k: nat): (r: Option<nat>)
    requires k < |ids|
    ensures r.Some? ==> r.value < |lut|
  {
    var s := Cursor(lut, ids, k + 1);
    if s.found then Some(s.prev) else None
  }

  /** The record a scan from the start of the table finds. */
  function ScanFinds(lut: seq<SgTables>, sgId: u32, from: nat): (r: Option<nat>)
    requires from <= |lut|
    ensures r.Some? ==> from <= r.value < |lut| && lut[r.value].sgId == sgId
    ensures r.None? ==> forall i | from <= i < |lut| :: lut[i].sgId != sgId
    decreases |lut| - from
  {
    if from == |lut| then None
    else if lut[from].sgId == sgId then Some(from)
    else ScanFinds(lut, sgId, from + 1)
  }

  predicate Ascending(lut: seq<SgTables>) {
    forall i, j | 0 <= i < j < |lut| :: lut[i].sgId < lut[j].sgId
  }

  predicate Listed(lut: seq<SgTables>, sgId: u32) {
    exists i | 0 <= i < |lut| :: lut[i].sgId == sgId
  }

  /** All records before index n are of smaller subgraphs. */
  predicate Passed(lut: seq<SgTables>, n: nat, sgId: u32)
    requires n <= |lut|
  {
    forall i | 0 <= i < n :: lut[i].sgId < sgId
  }

  lemma {:induction false} ScanSkips(lut: seq<SgTables>, sgId: u32, from: nat, n: nat)
    requires from <= n <= |lut| && Passed(lut, n, sgId)
    ensures ScanFinds(lut, sgId, from) == ScanFinds(lut, sgId, n)
    decreases n - from
  {
    if from < n {
      ScanSkips(lut, sgId, from + 1, n);
    }
  }

  /** A search that starts behind smaller subgraphs only finds what a scan of the whole table finds. */
  lemma {:induction false} SeekFinds(lut: seq<SgTables>, cursor: nat, prev: nat, sgId: u32)
    requires Ascending(lut) && cursor <= |lut| && prev <= |lut| && Passed(lut, cursor, sgId) && Passed(lut, prev, sgId)
    ensures var s := Seek(lut, cursor, prev, sgId);
      && ScanFinds(lut, sgId, 0) == (if s.found then Some(s.prev) else None)
      && Passed(lut, s.prev, sgId) && (!s.found ==> Passed(lut, s.cursor, sgId))
    decreases |lut| - cursor
  {
    ScanSkips(lut, sgId, 0, cursor);
    if cursor < |lut| && lut[cursor].sgId < sgId {
      SeekFinds(lut, cursor + 1, prev, sgId);
    }
  }

  predicate Sorted(ids: seq<u32>) {
    forall i, j | 0 <= i < j < |ids| :: ids[i] <= ids[j]
  }

  /** No subgraph of the table is asked for twice in a row among the first k. */
  predicate NoneTwice(lut: seq<SgTables>, ids: seq<u32>, k: nat)
    requires k <= |ids|
  {
    forall j | 0 <= j < k - 1 && ids[j] == ids[j + 1] :: !Listed(lut, ids[j])
  }

  predicate Agrees(lut: seq<SgTables>, ids: seq<u32>, k: nat)
    requires k <= |ids|
  {
    forall j | 0 <= j < k :: WalkFinds(lut, ids, j) == ScanFinds(lut, ids[j], 0)
  }

  lemma {:induction false} CursorFollows(lut: seq<SgTables>, ids: seq<u32>, k: nat)
    requires Ascending(lut) && Sorted(ids) && k <= |ids| && NoneTwice(lut, ids, k)
    ensures Agrees(lut, ids, k)
    ensures k > 0 ==>
      var s := Cursor(lut, ids, k);
      Passed(lut, s.prev, ids[k - 1]) && (!s.found ==> Passed(lut, s.cursor, ids[k - 1]))
  {
    hide Seek, ScanFinds;
    if k > 0 {
      CursorFollows(lut, ids, k - 1);
      var s := Cursor(lut, ids, k - 1);
      if k > 1 {
        assert ids[k - 2] <= ids[k - 1];
        CursorStarts(lut, ids, k);
      }
      SeekFinds(lut, s.cursor, s.prev, ids[k - 1]);
    }
  }

  lemma CursorStarts(lut: seq<SgTables>, ids: seq<u32>, k: nat)
    requires Ascending(lut) && 1 < k <= |ids| && ids[k - 2] <= ids[k - 1]
    requires ids[k - 2] == ids[k - 1] ==> !Listed(lut, ids[k - 2])
    requires var s := Cursor(lut, ids, k - 1);
      Passed(lut, s.prev, ids[k - 2]) && (!s.found ==> Passed(lut, s.cursor, ids[k - 2]))
    ensures var s := Cursor(lut, ids, k - 1); Passed(lut, s.cursor, ids[k - 1]) && Passed(lut, s.prev, ids[k - 1])
  {
    var s := Cursor(lut, ids, k - 1);
    if s.found {
      assert lut[s.prev].sgId == ids[k - 2];
    }
  }

  /**
    Over a LUT in strictly ascending order and a sorted request, the single forward cursor finds what
    a scan from the start of the table would find for each subgraph, exactly if no subgraph of the
    table is requested twice: the second request of a pair starts behind the record and rewinds.
   */
  lemma CursorAgrees(lut: seq<SgTables>, ids: seq<u32>)
    requires Ascending(lut) && Sorted(ids)
    ensures Agrees(lut, ids, |ids|) <==> NoneTwice(lut, ids, |ids|)
  {
    hide Cursor, Seek, ScanFinds, WalkFinds;
    if NoneTwice(lut, ids, |ids|) {
      CursorFollows(lut, ids, |ids|);
    }
    if Agrees(lut, ids, |ids|) {
      forall j | 0 <= j < |ids| - 1 && ids[j] == ids[j + 1]
        ensures !Listed(lut, ids[j])
      {
        assert WalkFinds(lut, ids, j) == ScanFinds(lut, ids[j], 0);
        assert WalkFinds(lut, ids, j + 1) == ScanFinds(lut, ids[j + 1], 0);
        MissedTwice(lut, ids, j);
      }
    }
  }

  lemma MissedTwice(lut: seq<SgTables>, ids: seq<u32>, j: nat)
    requires Ascending(lut) && j + 1 < |ids| && ids[j] == ids[j + 1]
    ensures WalkFinds(lut, ids, j).Some? ==> WalkFinds(lut, ids, j + 1).None?
  {
    var s := Cursor(lut, ids, j + 1);
    if s.found && s.cursor < |lut| {
      assert lut[s.prev].sgId < lut[s.cursor].sgId;
    }
  }

  // ---------------------------------------------------------------- what a subgraph delivers

  /** The scratch buffer when the loop comes to the k-th table. */
  function ScratchAt(cfg: Config, tables: seq<TableRef>, scratch: seq<u32>, k: nat): seq<u32>
    requires k <= |tables|
  {
    if k == 0 then scratch else LeftBy(cfg, tables[k - 1], ScratchAt(cfg, tables, scratch, k - 1))
  }

  /** And what it finds there. */
  function FindAt(cfg: Config, tables: seq<TableRef>, scratch: seq<u32>, k: nat): Found
    requires k < |tables|
  {
    FindWith(cfg, tables[k], ScratchAt(cfg, tables, scratch, k))
  }

  /** The rows found in the tables from j to k, as DEF tables; and their records. */
  function FoundTables(cfg: Config, tables: seq<TableRef>, scratch: seq<u32>, j: nat, k: nat): seq<seq<Entry>>
    requires k <= |tables|
  {
    if k <= j then []
    else
      var before := FoundTables(cfg, tables, scratch, j, k - 1);
      match FindAt(cfg, tables, scratch, k - 1)
      case Match(_, defOff, dotOff) => before + [DefTable(cfg.db, defOff, dotOff)]
      case _ => before
  }

  function FoundRecords(cfg: Config, sgId: u32, found: Found): seq<Record> {
    match found
    case Match(mckv, defOff, dotOff) => Records(cfg, sgId, mckv, DefTable(cfg.db, defOff, dotOff))
    case _ => []
  }

  function RecordsBetween(cfg: Config, sgId: u32, tables: seq<TableRef>, scratch: seq<u32>, j: nat, k: nat): seq<Record>
    requires k <= |tables|
  {
    if k <= j then []
    else
      RecordsBetween(cfg, sgId, tables, scratch, j, k - 1) +
      FoundRecords(cfg, sgId, FindAt(cfg, tables, scratch, k - 1))
  }

  /** No table is without rows, which would end the query. */
  predicate AllHaveRows(cfg: Config, tables: seq<TableRef>) {
    forall i | 0 <= i < |tables| :: RowCount(cfg.db, tables[i]) > 0
  }

  predicate IsSpecific(cfg: Config, t: TableRef) {
    KeyIds(cfg.db, t) != []
  }

  lemma StepSpecific(cfg: Config, sgId: u32, s: SgState, t: TableRef)
    requires IsSpecific(cfg, t) && RowCount(cfg.db, t) > 0 && s.ignoreDefault && !s.stopped
    ensures var after, found := Step(cfg, sgId, s, t, false), FindWith(cfg, t, s.scratch);
      && after.recs == s.recs + FoundRecords(cfg, sgId, found) && after.ignoreDefault && !after.stopped
      && after.scratch == LeftBy(cfg, t, s.scratch)
      && after.refs == if s.refs.None? then None
                       else match found
                            case Match(_, d, o) => Admit(false, s.refs, DefTable(cfg.db, d, o)).refs
                            case _ => s.refs
  {
    hide Records, Admit, FindWith, LeftBy, DefTable, KeyIds;
    MatchKeeps(cfg, t, s.scratch);
    match FindWith(cfg, t, s.scratch)
    case Match(mckv, d, o) =>
      var es := DefTable(cfg.db, d, o);
      if s.refs.None? {
        AdmitUncounted(false, es);
      } else {
        AdmitSpecific(s.refs.value, es, 0);
      }
    case _ =>
  }

  /** A LUT record as the database tool writes it: the default table first, then only specific ones. */
  predicate DefaultFirst(cfg: Config, sg: SgTables) {
    && |sg.tables| > 1 && KeyIds(cfg.db, sg.tables[0]) == []
    && forall i | 1 <= i < |sg.tables| :: IsSpecific(cfg, sg.tables[i])
  }

  /** The default table's entries, once the default key vector has been found. */
  function DefaultEntries(cfg: Config, sg: SgTables): seq<Entry>
    requires sg.tables != []
  {
    match FindIn(cfg, sg.tables[0])
    case Match(_, defOff, dotOff) => DefTable(cfg.db, defOff, dotOff)
    case _ => []
  }

  lemma FoundNext(cfg: Config, ts: seq<TableRef>, scratch: seq<u32>, k: nat, refs: seq<IidRef>)
    requires 1 < k <= |ts|
    ensures var before := TakenDown(refs, FoundTables(cfg, ts, scratch, 1, k - 1));
      TakenDown(refs, FoundTables(cfg, ts, scratch, 1, k)) ==
      match FindAt(cfg, ts, scratch, k - 1)
      case Match(_, d, o) => Admit(false, Some(before), DefTable(cfg.db, d, o)).refs.value
      case _ => before
  {
    hide FindAt, DefTable, Admit;
    var before := FoundTables(cfg, ts, scratch, 1, k - 1);
    match FindAt(cfg, ts, scratch, k - 1)
    case Match(_, d, o) => assert (before + [DefTable(cfg.db, d, o)])[..|before|] == before;
    case _ =>
  }

  lemma {:induction false} FirstPasses(cfg: Config, sg: SgTables, scratch: seq<u32>, k: nat)
    requires cfg.isFirstTime && DefaultFirst(cfg, sg) && AllHaveRows(cfg, sg.tables)
    requires FindIn(cfg, sg.tables[0]).Match? && 2 * |DefaultEntries(cfg, sg)| <= GLB_BUF_1_LENGTH
    requires 1 <= k <= |sg.tables|
    ensures var s := SgLoop(cfg, sg, scratch, k);
      && s.recs == RecordsBetween(cfg, sg.sgId, sg.tables, scratch, 1, k) && s.ignoreDefault && !s.stopped
      && s.refs == Some(TakenDown(Runs(DefaultEntries(cfg, sg)), FoundTables(cfg, sg.tables, scratch, 1, k)))
      && s.scratch == ScratchAt(cfg, sg.tables, scratch, k)
  {
    hide FindIn, FindWith, LeftBy, Runs, DefTable, FoundRecords, KeyIds, Admit, FoundTables, TakenDown;
    var ts := sg.tables;
    if k == 1 {
      DefaultFound(cfg, ts[0], scratch);
      assert SgLoop(cfg, sg, scratch, 0) == SgState([], None, true, EOK, false, false, scratch);
      assert ScratchAt(cfg, ts, scratch, 0) == scratch;
      NothingTaken(cfg, ts, scratch, Runs(DefaultEntries(cfg, sg)));
    } else {
      hide Step;
      FirstPasses(cfg, sg, scratch, k - 1);
      StepSpecific(cfg, sg.sgId, SgLoop(cfg, sg, scratch, k - 1), ts[k - 1]);
      FoundNext(cfg, ts, scratch, k, Runs(DefaultEntries(cfg, sg)));
    }
  }

  lemma NothingTaken(cfg: Config, ts: seq<TableRef>, scratch: seq<u32>, refs: seq<IidRef>)
    requires 1 <= |ts|
    ensures TakenDown(refs, FoundTables(cfg, ts, scratch, 1, 1)) == refs
  {
  }

  /**
    A first query delivers, for one subgraph, the records of all specific tables that were found, then
    the default entries that CalRefs.OverrideLaw leaves over.
   */
  lemma FirstQueryDelivers(cfg: Config, sg: SgTables, scratch: seq<u32>)
    requires cfg.isFirstTime && DefaultFirst(cfg, sg) && AllHaveRows(cfg, sg.tables)
    requires FindIn(cfg, sg.tables[0]).Match? && 2 * |DefaultEntries(cfg, sg)| <= GLB_BUF_1_LENGTH
    ensures var n, def := |sg.tables|, DefaultEntries(cfg, sg);
      SgWalk(cfg, sg, scratch).recs ==
      RecordsBetween(cfg, sg.sgId, sg.tables, scratch, 1, n) +
      Records(cfg, sg.sgId, [],
              Admit(true, Some(TakenDown(Runs(def), FoundTables(cfg, sg.tables, scratch, 1, n))), def).admitted)
    ensures SgWalk(cfg, sg, scratch).refs.None? && !SgWalk(cfg, sg, scratch).stopped
  {
    hide FindIn, FindWith, LeftBy, Runs, DefTable, KeyIds, Records, Admit, RecordsBetween, FoundTables, TakenDown;
    var n := |sg.tables|;
    FirstPasses(cfg, sg, scratch, n);
    DefaultFound(cfg, sg.tables[0], SgLoop(cfg, sg, scratch, n).scratch);
    assert Visited(cfg, sg.tables)[n] == sg.tables[0];
  }

  lemma StepIncremental(cfg: Config, sgId: u32, s: SgState, t: TableRef)
    requires !cfg.isFirstTime && RowCount(cfg.db, t) > 0 && s.refs.None? && !s.stopped
    ensures var after := Step(cfg, sgId, s, t, false);
      && after.recs == s.recs + FoundRecords(cfg, sgId, FindWith(cfg, t, s.scratch))
      && after.refs.None? && !after.stopped && after.scratch == LeftBy(cfg, t, s.scratch)
  {
    hide Records, Admit, FindIn, FindWith, LeftBy, DefTable, KeyIds;
    MatchKeeps(cfg, t, s.scratch);
    match FindWith(cfg, t, s.scratch)
    case Match(mckv, d, o) => AdmitUncounted(false, DefTable(cfg.db, d, o));
    case _ =>
  }

  lemma {:induction false} IncrementalPasses(cfg: Config, sg: SgTables, scratch: seq<u32>, k: nat)
    requires !cfg.isFirstTime && AllHaveRows(cfg, sg.tables) && k <= |sg.tables|
    ensures var s := SgLoop(cfg, sg, scratch, k);
      && s.recs == RecordsBetween(cfg, sg.sgId, sg.tables, scratch, 0, k) && s.refs.None? && !s.stopped
      && s.scratch == ScratchAt(cfg, sg.tables, scratch, k)
  {
    hide FindWith, LeftBy, FoundRecords, Step, KeyIds;
    if k > 0 {
      IncrementalPasses(cfg, sg, scratch, k - 1);
      StepIncremental(cfg, sg.sgId, SgLoop(cfg, sg, scratch, k - 1), sg.tables[k - 1]);
    }
  }

  /**
    Without other tables there is nothing to displace: all of the row found is delivered, default or not,
    whatever the scratch buffer holds.
   */
  lemma SingleTableDelivers(cfg: Config, sg: SgTables, scratch: seq<u32>)
    requires |sg.tables| == 1
    ensures var w, found := SgWalk(cfg, sg, scratch), FindWith(cfg, sg.tables[0], scratch);
      && w.recs == FoundRecords(cfg, sg.sgId, found)
      && w.refs.None? && (w.stopped <==> found == Broken) && w.scratch == LeftBy(cfg, sg.tables[0], scratch)
      && (w.recs != [] ==> w.last == EOK)
  {
    hide FindWith, LeftBy, Records, DefTable, Admit;
    assert SgLoop(cfg, sg, scratch, 0) == SgState([], None, false, EOK, false, false, scratch);
    match FindWith(cfg, sg.tables[0], scratch)
    case Match(mckv, d, o) => AdmitUncounted(mckv == [], DefTable(cfg.db, d, o));
    case _ =>
  }

  /** An incremental query delivers, for one subgraph, the records of all tables that were found. */
  lemma IncrementalQueryDelivers(cfg: Config, sg: SgTables, scratch: seq<u32>)
    requires !cfg.isFirstTime && AllHaveRows(cfg, sg.tables)
    ensures SgWalk(cfg, sg, scratch).recs == RecordsBetween(cfg, sg.sgId, sg.tables, scratch, 0, |sg.tables|)
    ensures !SgWalk(cfg, sg, scratch).stopped
  {
    IncrementalPasses(cfg, sg, scratch, |sg.tables|);
  }

  /** inner occurs in whole without a gap. */
  ghost predicate Within(inner: seq<Record>, whole: seq<Record>) {
    exists before, after :: whole == before + inner + after
  }

  /**
    No calibration that changed is left out: the row that CKV[new] selects in any specific table is
    delivered, with what the heap has set for its parameters, or is the row CKV[prior] had selected.
   */
  lemma NothingMissed(cfg: Config, prior: seq<KeyValue>, sg: SgTables, scratch: seq<u32>, i: nat)
    requires !cfg.isFirstTime && AllHaveRows(cfg, sg.tables) && i < |sg.tables| && IsSpecific(cfg, sg.tables[i])
    requires SameKeys(prior, cfg.ckv) && DistinctKeys(cfg.ckv) && cfg.delta == Delta(prior, cfg.ckv, |cfg.ckv|)
    ensures match Selected(cfg.db, sg.tables[i], cfg.ckv)
      case Match(mckv, defOff, dotOff) =>
        || Selected(cfg.db, sg.tables[i], prior) == Selected(cfg.db, sg.tables[i], cfg.ckv)
        || Within(Records(cfg, sg.sgId, mckv, DefTable(cfg.db, defOff, dotOff)), SgWalk(cfg, sg, scratch).recs)
      case _ => true
  {
    hide Delta, Records, DefTable, Selected, KeyIds, SgWalk;
    var t := sg.tables[i];
    IncrementalQueryDelivers(cfg, sg, scratch);
    IncrementalFindsIn(cfg, prior, t);
    FindWithoutScratch(cfg, t, ScratchAt(cfg, sg.tables, scratch, i));
    FoundWithin(cfg, sg.sgId, sg.tables, scratch, i, |sg.tables|);
  }

  lemma IncrementalFindsIn(cfg: Config, prior: seq<KeyValue>, t: TableRef)
    requires !cfg.isFirstTime && RowCount(cfg.db, t) > 0
    requires SameKeys(prior, cfg.ckv) && DistinctKeys(cfg.ckv) && cfg.delta == Delta(prior, cfg.ckv, |cfg.ckv|)
    ensures var row := Selected(cfg.db, t, cfg.ckv); row == FindIn(cfg, t) || row == Selected(cfg.db, t, prior)
  {
    hide Selected, RowFor, Delta;
    var scratch := seq<u32>(3 * |KeyIds(cfg.db, t)|, i => 0);
    FindScratchFree(cfg.db, t, cfg.ckv, cfg.delta, cfg.isFirstTime, scratch);
    IncrementalComplete(cfg.db, t, prior, cfg.ckv, scratch);
  }

  lemma {:induction false} FoundWithin(cfg: Config, sgId: u32, tables: seq<TableRef>, scratch: seq<u32>, i: nat, k: nat)
    requires i < k <= |tables|
    ensures Within(FoundRecords(cfg, sgId, FindAt(cfg, tables, scratch, i)),
                   RecordsBetween(cfg, sgId, tables, scratch, 0, k))
  {
    hide FoundRecords, FindAt;
    var inner, last := FoundRecords(cfg, sgId, FindAt(cfg, tables, scratch, i)), FindAt(cfg, tables, scratch, k - 1);
    var init := RecordsBetween(cfg, sgId, tables, scratch, 0, k - 1);
    var whole := RecordsBetween(cfg, sgId, tables, scratch, 0, k);
    if i < k - 1 {
      FoundWithin(cfg, sgId, tables, scratch, i, k - 1);
      var before, after :| init == before + inner + after;
      assert whole == before + inner + (after + FoundRecords(cfg, sgId, last));
    } else {
      assert whole == init + inner + [];
    }
  }

  lemma DefaultFound(cfg: Config, t: TableRef, scratch: seq<u32>)
    requires cfg.isFirstTime && KeyIds(cfg.db, t) == []
    ensures FindWith(cfg, t, scratch) == FindIn(cfg, t)
    ensures FindIn(cfg, t) == Broken || (FindIn(cfg, t).Match? && FindIn(cfg, t).mckv == [])
  {
    FindWithoutScratch(cfg, t, scratch);
    var n, rows := 0, Rows(cfg.db, t, 0);
    if RowCount(cfg.db, t) > 0 {
      assert rows[0][..0] == [];
    }
  }

  /** The source's assumption about a LUT record on a first query. */
  predicate WellFormed(cfg: Config, sg: SgTables) {
    cfg.isFirstTime && |sg.tables| > 1 ==> DefaultFirst(cfg, sg)
  }

  lemma {:induction false} NoReferences(cfg: Config, sg: SgTables, scratch: seq<u32>, k: nat)
    requires k <= |Visited(cfg, sg.tables)| && !(cfg.isFirstTime && |sg.tables| > 1)
    ensures SgLoop(cfg, sg, scratch, k).refs.None?
  {
    hide Records, DefTable, Runs, FindWith, LeftBy, FindIn, KeyIds;
    if k > 0 {
      NoReferences(cfg, sg, scratch, k - 1);
      MatchKeeps(cfg, sg.tables[k - 1], SgLoop(cfg, sg, scratch, k - 1).scratch);
    }
  }

  lemma {:induction false} StoppedStays(cfg: Config, sg: SgTables, scratch: seq<u32>, j: nat, k: nat)
    requires j <= k <= |Visited(cfg, sg.tables)| && SgLoop(cfg, sg, scratch, j).stopped
    ensures SgLoop(cfg, sg, scratch, k) == SgLoop(cfg, sg, scratch, j)
  {
    hide Step;
    if j < k {
      StoppedStays(cfg, sg, scratch, j, k - 1);
    }
  }

  /** The reference list does not outlive the subgraph, unless the whole query fails. */
  lemma ReferencesFreed(cfg: Config, sg: SgTables, scratch: seq<u32>)
    requires WellFormed(cfg, sg)
    ensures SgWalk(cfg, sg, scratch).refs.None? || SgWalk(cfg, sg, scratch).stopped
  {
    hide Records, DefTable, Runs, KeyIds, FindIn, FindWith, LeftBy, Admit;
    var n := |sg.tables|;
    if cfg.isFirstTime && n > 1 {
      DefaultFound(cfg, sg.tables[0], scratch);
      DefaultFound(cfg, sg.tables[0], SgLoop(cfg, sg, scratch, n).scratch);
      if FindIn(cfg, sg.tables[0]) == Broken {
        assert !SgLoop(cfg, sg, scratch, 0).stopped;
        assert SgLoop(cfg, sg, scratch, 1).stopped;
        StoppedStays(cfg, sg, scratch, 1, n + 1);
      } else {
        assert Visited(cfg, sg.tables)[n] == sg.tables[0];
      }
    } else {
      NoReferences(cfg, sg, scratch, |Visited(cfg, sg.tables)|);
    }
  }

  lemma StepGrows(cfg: Config, sgId: u32, s: SgState, t: TableRef, isExtra: bool)
    ensures s.recs <= Step(cfg, sgId, s, t, isExtra).recs
  {
    hide FindWith, LeftBy, PassOutcome, DefTable;
  }

  lemma {:induction false} SgLoopGrows(cfg: Config, sg: SgTables, scratch: seq<u32>, j: nat, k: nat)
    requires j <= k <= |Visited(cfg, sg.tables)|
    ensures SgLoop(cfg, sg, scratch, j).recs <= SgLoop(cfg, sg, scratch, k).recs
  {
    hide Step;
    if j < k {
      SgLoopGrows(cfg, sg, scratch, j, k - 1);
      var t := Visited(cfg, sg.tables)[k - 1];
      StepGrows(cfg, sg.sgId, SgLoop(cfg, sg, scratch, k - 1), t, k - 1 == |sg.tables|);
    }
  }

  // ---------------------------------------------------------------- what the status says

  /** The status of a subgraph's last pass and whether there was data, as the query puts them together. */
  predicate Counts(w: SgState) {
    w.last == EOK || w.hasData
  }

  /** A pass that is not stopped has data exactly if it delivers a record; collecting references is no data. */
  lemma StepData(cfg: Config, sgId: u32, s: SgState, t: TableRef, isExtra: bool)
    requires s.hasData <==> s.recs != []
    ensures var after := Step(cfg, sgId, s, t, isExtra);
      && (!after.stopped ==> (after.hasData <==> after.recs != []))
      && (after.last == EOK && !after.stopped && !(s.ignoreDefault && !isExtra && KeyIds(cfg.db, t) == []) ==>
            after.hasData)
  {
    hide FindWith, LeftBy, Records, Admit, DefTable, KeyIds;
    MatchKeeps(cfg, t, s.scratch);
  }

  lemma {:induction false} LoopData(cfg: Config, sg: SgTables, scratch: seq<u32>, k: nat)
    requires k <= |Visited(cfg, sg.tables)|
    ensures var s := SgLoop(cfg, sg, scratch, k); !s.stopped ==> (s.hasData <==> s.recs != [])
  {
    hide Step;
    if k > 0 {
      LoopData(cfg, sg, scratch, k - 1);
      var s := SgLoop(cfg, sg, scratch, k - 1);
      if !s.stopped {
        StepData(cfg, sg.sgId, s, Visited(cfg, sg.tables)[k - 1], k - 1 == |sg.tables|);
      }
    }
  }

  /** A subgraph that does not stop the query is counted exactly if it delivers a record. */
  lemma CountedMeans(cfg: Config, sg: SgTables, scratch: seq<u32>)
    requires WellFormed(cfg, sg) && sg.tables != [] && !SgWalk(cfg, sg, scratch).stopped
    ensures Counts(SgWalk(cfg, sg, scratch)) <==> SgWalk(cfg, sg, scratch).recs != []
  {
    hide Step, KeyIds;
    var visited := Visited(cfg, sg.tables);
    var n := |visited|;
    LoopData(cfg, sg, scratch, n);
    LoopData(cfg, sg, scratch, n - 1);
    var s := SgLoop(cfg, sg, scratch, n - 1);
    assert !s.stopped;
    StepData(cfg, sg.sgId, s, visited[n - 1], n - 1 == |sg.tables|);
    if !cfg.isFirstTime {
      if KeyIds(cfg.db, visited[n - 1]) == [] {
        NoDefaultData(cfg, sg.sgId, s, visited[n - 1]);
      }
    } else if n == 1 {
      assert !SgLoop(cfg, sg, scratch, 0).ignoreDefault;
    }
  }

  /** An incremental query never looks at a default table. */
  lemma NoDefaultData(cfg: Config, sgId: u32, s: SgState, t: TableRef)
    requires !cfg.isFirstTime && KeyIds(cfg.db, t) == []
    ensures Step(cfg, sgId, s, t, false).last == ENOTEXIST
  {
    MatchKeeps(cfg, t, s.scratch);
  }

  /** A default table with more entries than the scratch buffer can count. */
  predicate LongDefault(cfg: Config, t: TableRef) {
    && KeyIds(cfg.db, t) == [] && FindIn(cfg, t).Match?
    && 2 * Word(cfg.db.file, cfg.db.def + FindIn(cfg, t).defOff) > GLB_BUF_1_LENGTH
  }

  /** Why a query stops at a table. */
  predicate Stops(cfg: Config, t: TableRef, status: Status) {
    (status == EFAILED && RowCount(cfg.db, t) == 0) || (status == ENEEDMORE && LongDefault(cfg, t))
  }

  lemma StepStops(cfg: Config, sgId: u32, s: SgState, t: TableRef, isExtra: bool)
    requires !s.stopped && Step(cfg, sgId, s, t, isExtra).stopped
    ensures Stops(cfg, t, Step(cfg, sgId, s, t, isExtra).last)
  {
    hide Records, Admit, KeyIds, RowCount, EntryAt, FindIn, FindWith, LeftBy;
    MatchKeeps(cfg, t, s.scratch);
    if FindWith(cfg, t, s.scratch).Match? && KeyIds(cfg.db, t) == [] {
      DefaultFree(cfg, t);
      FindWithoutScratch(cfg, t, s.scratch);
    }
  }

  lemma DefaultFree(cfg: Config, t: TableRef)
    requires KeyIds(cfg.db, t) == []
    ensures IsFree(cfg, t)
  {
    hide KeyIds;
  }

  /** A query stops in a subgraph only at one of its tables that is without rows or too long. */
  lemma {:induction false} LoopStops(cfg: Config, sg: SgTables, scratch: seq<u32>, k: nat)
    requires k <= |Visited(cfg, sg.tables)| && SgLoop(cfg, sg, scratch, k).stopped
    ensures exists t | t in sg.tables :: Stops(cfg, t, SgLoop(cfg, sg, scratch, k).last)
  {
    hide Step, Stops;
    if SgLoop(cfg, sg, scratch, k - 1).stopped {
      LoopStops(cfg, sg, scratch, k - 1);
    } else {
      var t := Visited(cfg, sg.tables)[k - 1];
      StepStops(cfg, sg.sgId, SgLoop(cfg, sg, scratch, k - 1), t, k - 1 == |sg.tables|);
      assert t in sg.tables;
    }
  }

  // ---------------------------------------------------------------- the subgraph LUT in the file

  function TableRefBytes(t: TableRef): (r: seq<byte>)
    ensures |r| == 8
  {
    Le32(t.keyOff) + Le32(t.lutOff)
  }

  function SgBytes(sg: SgTables): seq<byte> {
    Le32(sg.sgId) + Le32(|sg.tables|) + Flat(TableRefBytes, sg.tables)
  }

  /** The LUT chunk: a count that the walk skips, then the records up to the end of the chunk. */
  predicate LutAt(db: CalDb, lut: seq<SgTables>) {
    && At(db.file, db.sgLut + 4, Flat(SgBytes, lut))
    && db.sgLutSize == 4 + |Flat(SgBytes, lut)|
    && forall i | 0 <= i < |lut| :: |lut[i].tables| < WORD_LIMIT
  }

  lemma {:induction false} RefsSize(ts: seq<TableRef>)
    ensures |Flat(TableRefBytes, ts)| == 8 * |ts|
  {
    if ts != [] {
      RefsSize(ts[..|ts| - 1]);
    }
  }

  lemma SgAt(file: seq<byte>, off: nat, sg: SgTables)
    requires At(file, off, SgBytes(sg)) && |sg.tables| < WORD_LIMIT
    ensures Word(file, off) == sg.sgId && Word(file, off + 4) == |sg.tables|
    ensures |SgBytes(sg)| == 8 + 8 * |sg.tables| && At(file, off + 8, Flat(TableRefBytes, sg.tables))
  {
    hide At, Le32, Word, Flat;
    RefsSize(sg.tables);
    AtConcat(file, off, Le32(sg.sgId) + Le32(|sg.tables|), Flat(TableRefBytes, sg.tables));
    AtConcat(file, off, Le32(sg.sgId), Le32(|sg.tables|));
    WordAt(file, off, sg.sgId);
    WordAt(file, off + 4, |sg.tables|);
  }

  lemma RefAt(file: seq<byte>, off: nat, ts: seq<TableRef>, k: nat)
    requires At(file, off, Flat(TableRefBytes, ts)) && k < |ts|
    ensures ts[k] == TableRef(Word(file, off + 8 * k), Word(file, off + 8 * k + 4))
  {
    hide At, Le32, Word, Flat;
    FlatAt(TableRefBytes, ts, k, file, off);
    RefsSize(ts[..k]);
    AtConcat(file, off + 8 * k, Le32(ts[k].keyOff), Le32(ts[k].lutOff));
    WordAt(file, off + 8 * k, ts[k].keyOff);
    WordAt(file, off + 8 * k + 4, ts[k].lutOff);
  }

  // ---------------------------------------------------------------- the whole query

  datatype QueryState = QueryState(recs: seq<Record>, numFound: nat, error: Status, scratch: seq<u32>)

  /** The query after k requested subgraphs; one counts unless its last pass found nothing and no other did. */
  function QueryRun(cfg: Config, lut: seq<SgTables>, ids: seq<u32>, scratch: seq<u32>, k: nat): QueryState
    requires k <= |ids|
  {
    if k == 0 then QueryState([], 0, EOK, scratch)
    else
      var q, at := QueryRun(cfg, lut, ids, scratch, k - 1), WalkFinds(lut, ids, k - 1);
      if q.error != EOK || at.None? || lut[at.value].tables == [] then q
      else AfterSubgraph(q, SgWalk(cfg, lut[at.value], q.scratch))
  }

  function AfterSubgraph(q: QueryState, w: SgState): QueryState {
    QueryState(q.recs + w.recs,
               if w.stopped || (w.last != EOK && !w.hasData) then q.numFound else q.numFound + 1,
               if w.stopped then w.last else EOK,
               w.scratch)
  }

  function QueryStatus(q: QueryState): Status {
    if q.error != EOK then q.error
    else if q.numFound == 0 then ENOTEXIST
    else EOK
  }

  datatype Delivery = Delivery(recs: seq<Record>, scratch: seq<u32>)

  /** The records of the requested subgraphs, each found by a scan of the whole LUT, and what is left in the buffer. */
  function Requested(cfg: Config, lut: seq<SgTables>, ids: seq<u32>, scratch: seq<u32>): Delivery {
    if ids == [] then Delivery([], scratch)
    else
      var before, at := Requested(cfg, lut, ids[..|ids| - 1], scratch), ScanFinds(lut, ids[|ids| - 1], 0);
      if at.None? || lut[at.value].tables == [] then before
      else
        var w := SgWalk(cfg, lut[at.value], before.scratch);
        Delivery(before.recs + w.recs, w.scratch)
  }

  /** What a query delivers that does not fail: for every subgraph requested what its own tables give, in order. */
  lemma QueryDelivers(cfg: Config, lut: seq<SgTables>, ids: seq<u32>, scratch: seq<u32>)
    requires Ascending(lut) && Sorted(ids) && NoneTwice(lut, ids, |ids|)
    ensures var q := QueryRun(cfg, lut, ids, scratch, |ids|);
      q.error == EOK ==> Delivery(q.recs, q.scratch) == Requested(cfg, lut, ids, scratch)
  {
    CursorAgrees(lut, ids);
    RunDelivers(cfg, lut, ids, scratch, |ids|);
    assert ids[..|ids|] == ids;
  }

  lemma {:induction false} RunDelivers(cfg: Config, lut: seq<SgTables>, ids: seq<u32>, scratch: seq<u32>, k: nat)
    requires k <= |ids| && Agrees(lut, ids, |ids|)
    ensures var q := QueryRun(cfg, lut, ids, scratch, k);
      q.error == EOK ==> Delivery(q.recs, q.scratch) == Requested(cfg, lut, ids[..k], scratch)
  {
    hide SgWalk, WalkFinds, ScanFinds;
    if k > 0 {
      RunDelivers(cfg, lut, ids, scratch, k - 1);
      assert WalkFinds(lut, ids, k - 1) == ScanFinds(lut, ids[k - 1], 0);
      assert ids[..k][..k - 1] == ids[..k - 1];
    }
  }

  // ---------------------------------------------------------------- completeness of a whole query

  lemma WithinWithin(a: seq<Record>, b: seq<Record>, c: seq<Record>)
    requires Within(a, b) && Within(b, c)
    ensures Within(a, c)
  {
    var x, y :| b == x + a + y;
    var u, v :| c == u + b + v;
    assert c == (u + x) + a + (y + v);
  }

  lemma ScanOfAscending(lut: seq<SgTables>, r: nat)
    requires Ascending(lut) && r < |lut|
    ensures ScanFinds(lut, lut[r].sgId, 0) == Some(r)
  {
    ScanSkips(lut, lut[r].sgId, 0, r);
  }

  /** What a requested subgraph of the table gives is in the request's answer as a whole. */
  lemma {:induction false} RequestedWithin(cfg: Config, lut: seq<SgTables>, ids: seq<u32>, scratch: seq<u32>, r: nat)
    returns (left: seq<u32>)
    requires Ascending(lut) && r < |lut| && lut[r].tables != [] && lut[r].sgId in ids
    ensures Within(SgWalk(cfg, lut[r], left).recs, Requested(cfg, lut, ids, scratch).recs)
  {
    hide SgWalk, ScanFinds;
    var n := |ids| - 1;
    var whole, before := Requested(cfg, lut, ids, scratch).recs, Requested(cfg, lut, ids[..n], scratch);
    if ids[n] == lut[r].sgId {
      left := before.scratch;
      ScanOfAscending(lut, r);
      assert whole == before.recs + SgWalk(cfg, lut[r], left).recs + [];
    } else {
      assert lut[r].sgId in ids[..n];
      left := RequestedWithin(cfg, lut, ids[..n], scratch, r);
      assert whole == [] + before.recs + whole[|before.recs|..];
      WithinWithin(SgWalk(cfg, lut[r], left).recs, before.recs, whole);
    }
  }

  /**
    No calibration that changed is left out of an incremental query: the row CKV[new] selects in any specific
    table of any requested subgraph is in what the query delivers, or is the row CKV[prior] had selected.
   */
  lemma QueryMissesNothing(cfg: Config, prior: seq<KeyValue>, lut: seq<SgTables>, ids: seq<u32>, scratch: seq<u32>,
                           r: nat, i: nat)
    requires Ascending(lut) && Sorted(ids) && NoneTwice(lut, ids, |ids|) && r < |lut| && lut[r].sgId in ids
    requires !cfg.isFirstTime && AllHaveRows(cfg, lut[r].tables)
    requires i < |lut[r].tables| && IsSpecific(cfg, lut[r].tables[i])
    requires SameKeys(prior, cfg.ckv) && DistinctKeys(cfg.ckv) && cfg.delta == Delta(prior, cfg.ckv, |cfg.ckv|)
    requires QueryRun(cfg, lut, ids, scratch, |ids|).error == EOK
    ensures match Selected(cfg.db, lut[r].tables[i], cfg.ckv)
      case Match(mckv, defOff, dotOff) =>
        || Selected(cfg.db, lut[r].tables[i], prior) == Selected(cfg.db, lut[r].tables[i], cfg.ckv)
        || Within(Records(cfg, lut[r].sgId, mckv, DefTable(cfg.db, defOff, dotOff)),
                  QueryRun(cfg, lut, ids, scratch, |ids|).recs)
      case _ => true
  {
    hide Delta, Records, DefTable, Selected, KeyIds, SgWalk, QueryRun, Requested, Within;
    QueryDelivers(cfg, lut, ids, scratch);
    var left := RequestedWithin(cfg, lut, ids, scratch, r);
    NothingMissed(cfg, prior, lut[r], left, i);
    match Selected(cfg.db, lut[r].tables[i], cfg.ckv)
    case Match(mckv, d, o) =>
      var recs := Records(cfg, lut[r].sgId, mckv, DefTable(cfg.db, d, o));
      if Within(recs, SgWalk(cfg, lut[r], left).recs) {
        WithinWithin(recs, SgWalk(cfg, lut[r], left).recs, QueryRun(cfg, lut, ids, scratch, |ids|).recs);
      }
    case _ =>
  }

  // ---------------------------------------------------------------- the status of a query

  lemma WalkFindsRequested(lut: seq<SgTables>, ids: seq<u32>, k: nat)
    requires k < |ids| && WalkFinds(lut, ids, k).Some?
    ensures lut[WalkFinds(lut, ids, k).value].sgId in ids
  {
    hide Seek;
    assert Cursor(lut, ids, k + 1) == Seek(lut, Cursor(lut, ids, k).cursor, Cursor(lut, ids, k).prev, ids[k]);
  }

  predicate RequestedFit(cfg: Config, lut: seq<SgTables>, ids: seq<u32>) {
    forall i | 0 <= i < |lut| && lut[i].sgId in ids :: WellFormed(cfg, lut[i])
  }

  lemma {:induction false} FoundMeans(cfg: Config, lut: seq<SgTables>, ids: seq<u32>, scratch: seq<u32>, k: nat)
    requires RequestedFit(cfg, lut, ids) && k <= |ids|
    ensures var q := QueryRun(cfg, lut, ids, scratch, k); q.error == EOK ==> (q.numFound > 0 <==> q.recs != [])
  {
    hide SgWalk, WalkFinds, WellFormed;
    if k > 0 {
      FoundMeans(cfg, lut, ids, scratch, k - 1);
      var q, at := QueryRun(cfg, lut, ids, scratch, k - 1), WalkFinds(lut, ids, k - 1);
      if q.error == EOK && at.Some? && lut[at.value].tables != [] {
        WalkFindsRequested(lut, ids, k - 1);
        var w := SgWalk(cfg, lut[at.value], q.scratch);
        if w.stopped {
          StoppedFails(cfg, lut[at.value], q.scratch);
        } else {
          CountedMeans(cfg, lut[at.value], q.scratch);
        }
      }
    }
  }

  lemma StoppedFails(cfg: Config, sg: SgTables, scratch: seq<u32>)
    requires SgWalk(cfg, sg, scratch).stopped
    ensures SgWalk(cfg, sg, scratch).last != EOK
  {
    hide LongDefault;
    LoopStops(cfg, sg, scratch, |Visited(cfg, sg.tables)|);
  }

  /**
    A query that a table stops ends with that table's status. Another one succeeds exactly if it has something to
    deliver; otherwise it says that there is nothing.
   */
  lemma StatusMeans(cfg: Config, lut: seq<SgTables>, ids: seq<u32>, scratch: seq<u32>)
    requires RequestedFit(cfg, lut, ids)
    ensures var q := QueryRun(cfg, lut, ids, scratch, |ids|);
      QueryStatus(q) == if q.error != EOK then q.error else if q.recs != [] then EOK else ENOTEXIST
  {
    hide QueryRun, RequestedFit;
    FoundMeans(cfg, lut, ids, scratch, |ids|);
  }

  predicate SomeStops(cfg: Config, lut: seq<SgTables>, ids: seq<u32>, status: Status) {
    exists i | 0 <= i < |lut| && lut[i].sgId in ids :: exists t | t in lut[i].tables :: Stops(cfg, t, status)
  }

  /** And why one is stopped. */
  lemma {:induction false} ErrorMeans(cfg: Config, lut: seq<SgTables>, ids: seq<u32>, scratch: seq<u32>, k: nat)
    requires k <= |ids| && QueryRun(cfg, lut, ids, scratch, k).error != EOK
    ensures SomeStops(cfg, lut, ids, QueryRun(cfg, lut, ids, scratch, k).error)
  {
    hide SgWalk, WalkFinds, Stops;
    var q := QueryRun(cfg, lut, ids, scratch, k - 1);
    if q.error != EOK {
      ErrorMeans(cfg, lut, ids, scratch, k - 1);
    } else {
      var at := WalkFinds(lut, ids, k - 1);
      WalkFindsRequested(lut, ids, k - 1);
      WalkStops(cfg, lut[at.value], q.scratch);
    }
  }

  lemma WalkStops(cfg: Config, sg: SgTables, scratch: seq<u32>)
    ensures var w := SgWalk(cfg, sg, scratch); w.stopped ==> exists t | t in sg.tables :: Stops(cfg, t, w.last)
  {
    hide Stops;
    if SgWalk(cfg, sg, scratch).stopped {
      LoopStops(cfg, sg, scratch, |Visited(cfg, sg.tables)|);
    }
  }
}
