/** The calibration query: size pass and data pass of AcdbCmdGetSubgraphCalDataNonPersist, against CalWalk. */
module CalQuery {
  import opened Bytes
  import opened Search
  import opened CalBlob
  import opened CalKeys
  import opened CalFind
  import opened CalRefs
  import opened CalWalk
  import opened CalPasses
  import opened CalResponse

  // ---------------------------------------------------------------- prefixes of a pass

  lemma {:induction false} RecordsConcat(cfg: Config, sgId: u32, mckv: seq<KeyValue>, a: seq<Entry>, b: seq<Entry>)
    ensures Records(cfg, sgId, mckv, a + b) == Records(cfg, sgId, mckv, a) + Records(cfg, sgId, mckv, b)
  {
    hide RecordOf;
    if b == [] {
      assert a + b == a;
    } else {
      RecordsConcat(cfg, sgId, mckv, a, b[..|b| - 1]);
      assert (a + b)[..|a + b| - 1] == a + b[..|b| - 1];
    }
  }

  /** The entries admitted and the counts left after the first k entries of a DEF table. */
  function AdmitFirst(cfg: Config, isDefault: bool, refs: Option<seq<IidRef>>, defOff: nat, dotOff: nat,
                      k: nat): (r: Pass)
    ensures r.refs.Some? <==> refs.Some?
  {
    Admit(isDefault, refs, Entries(cfg.db, defOff, dotOff, k))
  }

  lemma AdmitNext(cfg: Config, isDefault: bool, refs: Option<seq<IidRef>>, defOff: nat, dotOff: nat, k: nat)
    ensures
      var before, e := AdmitFirst(cfg, isDefault, refs, defOff, dotOff, k), EntryAt(cfg.db, defOff, dotOff, k);
      var a := AdmitOne(isDefault, before.refs, e.iid);
      AdmitFirst(cfg, isDefault, refs, defOff, dotOff, k + 1) ==
      Pass(if a.admitted then before.admitted + [e] else before.admitted, a.refs)
  {
    hide EntryAt, AdmitOne;
    var es := Entries(cfg.db, defOff, dotOff, k + 1);
    assert es[..k] == Entries(cfg.db, defOff, dotOff, k);
  }

  lemma {:induction false} AdmitGrows(cfg: Config, isDefault: bool, refs: Option<seq<IidRef>>, defOff: nat,
                                      dotOff: nat, k: nat, n: nat)
    requires k <= n
    ensures AdmitFirst(cfg, isDefault, refs, defOff, dotOff, k).admitted <=
            AdmitFirst(cfg, isDefault, refs, defOff, dotOff, n).admitted
    decreases n - k
  {
    hide AdmitFirst, EntryAt, AdmitOne;
    if k < n {
      AdmitNext(cfg, isDefault, refs, defOff, dotOff, k);
      AdmitGrows(cfg, isDefault, refs, defOff, dotOff, k + 1, n);
    }
  }

  lemma RecordsGrow(cfg: Config, sgId: u32, mckv: seq<KeyValue>, a: seq<Entry>, b: seq<Entry>)
    requires a <= b
    ensures Records(cfg, sgId, mckv, a) <= Records(cfg, sgId, mckv, b)
  {
    assert b == a + b[|a|..];
    RecordsConcat(cfg, sgId, mckv, a, b[|a|..]);
  }

  lemma RecordsSnoc(cfg: Config, sgId: u32, mckv: seq<KeyValue>, es: seq<Entry>, e: Entry)
    ensures Records(cfg, sgId, mckv, es + [e]) ==
      if Wanted(cfg, e.pid) then Records(cfg, sgId, mckv, es) + [RecordOf(cfg, sgId, mckv, e)]
      else Records(cfg, sgId, mckv, es)
  {
    assert (es + [e])[..|es|] == es;
  }

  lemma {:induction false} TakeAt(refs: seq<IidRef>, iid: u32, j: nat)
    requires j < |refs| && refs[j].iid == iid && forall i | 0 <= i < j :: refs[i].iid != iid
    ensures var n := refs[j].count;
      Take(refs, iid) == if n > 0 then Taken(refs[j := IidRef(iid, n - 1)], true) else Taken(refs, false)
  {
    var rest, n := refs[1..], refs[j].count;
    if j > 0 {
      TakeAt(rest, iid, j - 1);
      assert [refs[0]] + rest == refs;
      if n > 0 {
        assert [refs[0]] + rest[j - 1 := IidRef(iid, n - 1)] == refs[j := IidRef(iid, n - 1)];
      }
    } else if n > 0 {
      assert [IidRef(iid, n - 1)] + rest == refs[0 := IidRef(iid, n - 1)];
    }
  }

  lemma {:induction false} TakeNone(refs: seq<IidRef>, iid: u32)
    requires forall i | 0 <= i < |refs| :: refs[i].iid != iid
    ensures Take(refs, iid) == Taken(refs, false)
  {
    if refs != [] {
      TakeNone(refs[1..], iid);
      assert [refs[0]] + refs[1..] == refs;
    }
  }

  // ---------------------------------------------------------------- what the query needs of the database

  /** A well-formed table, and room for its rows in a scratch buffer of n words. */
  ghost predicate TableReady(db: CalDb, n: nat, t: TableRef) {
    TableFits(db, t) && 3 * |KeyIds(db, t)| + 3 <= n
  }

  /** A LUT record the loop over the tables can work on. */
  ghost predicate SgReady(cfg: Config, n: nat, sg: SgTables) {
    && WellFormed(cfg, sg) && |sg.tables| < WORD_LIMIT
    && forall i | 0 <= i < |sg.tables| :: TableReady(cfg.db, n, sg.tables[i])
  }

  /** Demands are made on the requested subgraphs only. */
  ghost predicate LutReady(cfg: Config, n: nat, lut: seq<SgTables>, ids: seq<u32>) {
    LutAt(cfg.db, lut) && forall i | 0 <= i < |lut| && lut[i].sgId in ids :: SgReady(cfg, n, lut[i])
  }

  /** The key vectors do not matter. */
  lemma StillReady(cfg: Config, cfg': Config, n: nat, lut: seq<SgTables>, ids: seq<u32>, ids': seq<u32>)
    requires LutReady(cfg, n, lut, ids) && cfg'.db == cfg.db && cfg'.isFirstTime == cfg.isFirstTime
    requires Permuted(ids', ids)
    ensures LutReady(cfg', n, lut, ids')
  {
    hide LutAt, TableFits, KeyIds;
    PermutedMembers(ids', ids);
    forall i | 0 <= i < |lut| && lut[i].sgId in ids'
      ensures SgReady(cfg', n, lut[i])
    {
      assert SgReady(cfg, n, lut[i]);
    }
  }

  // ---------------------------------------------------------------- what went into the buffer in whole

  /** Unless a record was spilled, the offset is exactly behind the records and still in the buffer. */
  ghost predicate Whole(heap: Heap, v: RspView, w: RspView, recs: seq<Record>) {
    && v.spilled <= w.spilled && (heap == map[] ==> w.spilled == v.spilled)
    && (|v.bytes| > 0 && w.spilled == v.spilled ==>
          w.off == v.off + |Blob(recs)| && (v.off <= |v.bytes| ==> w.off <= |v.bytes|))
  }

  lemma WholeNone(heap: Heap, v: RspView)
    ensures Whole(heap, v, v, [])
  {
  }

  lemma WholeOne(heap: Heap, v: RspView, w: RspView, r: Record)
    requires v.spilled <= w.spilled && (heap == map[] ==> w.spilled == v.spilled)
    requires |v.bytes| > 0 && w.spilled == v.spilled ==> w.off == v.off + 16 + Align8(|r.payload|) <= |v.bytes|
    ensures Whole(heap, v, w, [r])
  {
    BlobOne(r);
  }

  lemma NoRoomForOne(v: RspView, r: Record)
    requires 0 < |v.bytes| < v.off + 16 + Align8(|r.payload|)
    ensures !Ready(v, [r])
  {
    BlobOne(r);
  }

  lemma GrewLength(v: RspView, w: RspView, recs: seq<Record>)
    requires Grew(v, w, recs)
    ensures |w.bytes| == |v.bytes|
  {
  }

  lemma WholeConcat(heap: Heap, u: RspView, v: RspView, w: RspView, a: seq<Record>, b: seq<Record>)
    requires Whole(heap, u, v, a) && Whole(heap, v, w, b) && |u.bytes| == |v.bytes|
    ensures Whole(heap, u, w, a + b)
  {
    hide DspBytes;
    FlatConcat(DspBytes, a, b);
  }

  // ---------------------------------------------------------------- AcdbAudioCalContextInfo

  class CalContext {
    const db: CalDb
    const heap: Heap
    const paramType: ParamType
    const scratch: array<u32>
    var ckv: seq<KeyValue>
    var deltaCkv: seq<KeyValue>
    var isFirstTime: bool
    var sgId: u32
    var moduleCkv: seq<KeyValue>
    var defOff: u32
    var dotOff: u32
    var isDefaultModuleCkv: bool
    var ignoreGetDefaultData: bool
    var defaultDataIids: Option<seq<IidRef>>

    constructor (db: CalDb, heap: Heap, paramType: ParamType, scratch: array<u32>)
      ensures this.db == db && this.heap == heap && this.paramType == paramType && this.scratch == scratch
      ensures defaultDataIids == None
    {
      this.db, this.heap, this.paramType, this.scratch := db, heap, paramType, scratch;
      ckv, deltaCkv, isFirstTime, sgId, moduleCkv, defOff, dotOff := [], [], false, 0, [], 0, 0;
      isDefaultModuleCkv, ignoreGetDefaultData, defaultDataIids := false, false, None;
    }

    function Cfg(): Config
      reads this`ckv, this`deltaCkv, this`isFirstTime
    {
      Config(db, heap, paramType, ckv, deltaCkv, isFirstTime)
    }

    /** The inner loop over the reference list: one count less for the module, and whether there was one. */
    method TakeReference(iid: u32) returns (foundIid: bool)
      requires defaultDataIids.Some?
      modifies this`defaultDataIids
      ensures var t := Take(old(defaultDataIids).value, iid); defaultDataIids == Some(t.refs) && foundIid == t.found
    {
      hide Take;
      var list := defaultDataIids.value;
      foundIid := false;
      for j := 0 to |list|
        invariant forall i | 0 <= i < j :: list[i].iid != iid
        invariant defaultDataIids == Some(list)
      {
        var ref := list[j];
        if ref.iid == iid && ref.count > 0 {
          TakeAt(list, iid, j);
          defaultDataIids := Some(list[j := IidRef(iid, ref.count - 1)]);
          return true;
        } else if ref.iid == iid {
          TakeAt(list, iid, j);
          return false;
        }
      }
      TakeNone(list, iid);
    }

    /** The first pass over the default table only counts its IIDs. */
    method BuildReferenceList(n: nat) returns (status: Status)
      requires n == Word(db.file, db.def + defOff)
      modifies this`defaultDataIids
      ensures if GLB_BUF_1_LENGTH < 2 * n
              then status == ENEEDMORE && defaultDataIids == old(defaultDataIids)
              else status == EOK && defaultDataIids == Some(Runs(DefTable(db, defOff, dotOff)))
    {
      hide Word, AddRun, Counted, Runs, EntryAt;
      if GLB_BUF_1_LENGTH < 2 * n {
        return ENEEDMORE;
      }
      var glbBuf1 := new IidRef[GLB_BUF_1_LENGTH / 2](i => IidRef(0, 0));
      var numIidFound := 0;
      var curDef := db.def + defOff + 4;
      NoneCounted(glbBuf1[..]);
      for i := 0 to n
        invariant curDef == db.def + defOff + 4 + 8 * i
        invariant numIidFound <= i && Counted(glbBuf1[..], numIidFound, Runs(Entries(db, defOff, dotOff, i)))
      {
        var iid := Word(db.file, curDef);
        curDef := curDef + 8;
        RunsNext(db, defOff, dotOff, i);
        numIidFound := CountIid(glbBuf1, numIidFound, iid, Runs(Entries(db, defOff, dotOff, i)));
      }
      CountedList(glbBuf1[..], numIidFound, Runs(DefTable(db, defOff, dotOff)));
      defaultDataIids := Some(glbBuf1[..numIidFound]);
      status := EOK;
    }

    /** One parameter: what the client has set if the heap has it and it can be written, or else the file's data. */
    method WriteParameter(rsp: Response, iid: u32, pid: u32, curDot: nat) returns (status: Status)
      requires Separate(rsp)
      modifies rsp, rsp.buf
      ensures var e := Entry(iid, pid, FilePayload(db, curDot));
        var r := RecordOf(Cfg(), sgId, moduleCkv, e);
        && Grew(old(rsp.View()), rsp.View(), [r])
        && ((status == EOK && Whole(heap, old(rsp.View()), rsp.View(), [r])) ||
            (status == ENEEDMORE && !Ready(old(rsp.View()), [r])))
      ensures var key, cap := HeapKey(moduleCkv, sgId, iid, pid), rsp.buf.Length;
        var isWhole := key !in heap || old(rsp.off) + 16 + Align8(|heap[key]|) <= cap || cap == 0;
        rsp.spilled == if isWhole then old(rsp.spilled) else old(rsp.spilled) + 1
      ensures rsp.buf.Length > 0 ==>
        var key := HeapKey(moduleCkv, sgId, iid, pid);
        var heapSize := if key in heap then Some(|heap[key]|) else None;
        var a := ParamAdvance(rsp.buf.Length, old(rsp.off), heapSize, |FilePayload(db, curDot)|);
        rsp.off == a.off && status == if a.ok then EOK else ENEEDMORE
    {
      hide Wrote, Clear, Fits, Whole, Blob, Word, Slice;
      var key := HeapKey(moduleCkv, sgId, iid, pid);
      ghost var v0 := rsp.View();
      if key in heap {
        status := rsp.WriteHeapData(Record(iid, pid, heap[key]));
        if 0 < rsp.buf.Length < v0.off + 16 + Align8(|heap[key]|) {
          NoRoomForOne(v0, Record(iid, pid, heap[key]));
          rsp.spilled := rsp.spilled + 1;
        }
        if status == EOK {
          WholeOne(heap, v0, rsp.View(), Record(iid, pid, heap[key]));
          return;
        }
      }
      ghost var v := rsp.View();
      var payload := FilePayload(db, curDot);
      status := rsp.WriteFileData(Record(iid, pid, payload));
      if status == EOK {
        WholeOne(heap, v0, rsp.View(), RecordOf(Cfg(), sgId, moduleCkv, Entry(iid, pid, payload)));
      }
    }

    /** One entry of a pass that delivers: counted if it is admitted and has the wanted persistence. */
    method DeliverEntry(rsp: Response, iid: u32, pid: u32, curDot: nat) returns (status: Status, counted: bool)
      requires Separate(rsp)
      modifies this`defaultDataIids, rsp, rsp.buf
      ensures var a := AdmitOne(isDefaultModuleCkv, old(defaultDataIids), iid);
        defaultDataIids == a.refs && counted == (a.admitted && Wanted(Cfg(), pid))
      ensures !counted ==> status == EOK && rsp.View() == old(rsp.View())
      ensures counted ==>
        var r := RecordOf(Cfg(), sgId, moduleCkv, Entry(iid, pid, FilePayload(db, curDot)));
        && Grew(old(rsp.View()), rsp.View(), [r])
        && ((status == EOK && Whole(heap, old(rsp.View()), rsp.View(), [r])) ||
            (status == ENEEDMORE && !Ready(old(rsp.View()), [r])))
    {
      hide Grew, Ready, Whole, Word, Slice, RecordOf, Take, FilePayload, ParamAdvance;
      if defaultDataIids.Some? {
        var foundIid := TakeReference(iid);
        if isDefaultModuleCkv && !foundIid {
          return EOK, false;
        }
      }
      if !Wanted(Cfg(), pid) {
        return EOK, false;
      }
      status := WriteParameter(rsp, iid, pid, curDot);
      counted := true;
    }

    /** The passes that do deliver, moving through the DEF and the DOT table side by side. */
    method DeliverEntries(rsp: Response, n: nat) returns (status: Status)
      requires Separate(rsp) && n == Word(db.file, db.def + defOff)
      modifies this`defaultDataIids, rsp, rsp.buf
      ensures var pass := Admit(isDefaultModuleCkv, old(defaultDataIids), DefTable(db, defOff, dotOff));
        var recs := Records(Cfg(), sgId, moduleCkv, pass.admitted);
        && Grew(old(rsp.View()), rsp.View(), recs)
        && ((status == (if recs == [] then ENOTEXIST else EOK) && defaultDataIids == pass.refs &&
             Whole(heap, old(rsp.View()), rsp.View(), recs)) ||
            (status == ENEEDMORE && !Ready(old(rsp.View()), recs)))
    {
      hide Grew, Ready, Whole, Word, Slice, AdmitFirst, AdmitOne, Records, RecordOf, Admit, Wanted, Entries;
      ghost var v0, refs0 := rsp.View(), defaultDataIids;
      var curDef, curDot, numFound := db.def + defOff + 4, db.dot + dotOff + 4, 0;
      WholePass(Cfg(), isDefaultModuleCkv, refs0, defOff, dotOff, sgId, moduleCkv);
      GrewNone(v0);
      WholeNone(heap, v0);
      for i := 0 to n
        invariant curDef == db.def + defOff + 4 + 8 * i && curDot == db.dot + dotOff + 4 + 4 * i
        invariant defaultDataIids == AdmitFirst(Cfg(), isDefaultModuleCkv, refs0, defOff, dotOff, i).refs
        invariant Grew(v0, rsp.View(), RecordsFirst(refs0, i)) && numFound == |RecordsFirst(refs0, i)|
        invariant Whole(heap, v0, rsp.View(), RecordsFirst(refs0, i))
      {
        ghost var v, e := rsp.View(), EntryAt(db, defOff, dotOff, i);
        AdmitNext(Cfg(), isDefaultModuleCkv, refs0, defOff, dotOff, i);
        ghost var admitted := AdmitFirst(Cfg(), isDefaultModuleCkv, refs0, defOff, dotOff, i).admitted;
        RecordsSnoc(Cfg(), sgId, moduleCkv, admitted, e);
        var counted;
        status, counted := DeliverEntry(rsp, Word(db.file, curDef), Word(db.file, curDef + 4), curDot);
        if counted {
          numFound := numFound + 1;
          GrewConcat(v0, v, rsp.View(), RecordsFirst(refs0, i), [RecordOf(Cfg(), sgId, moduleCkv, e)]);
        }
        if status != EOK {
          NoRoomForAll(refs0, v0, rsp.View(), i, n);
          return;
        }
        if counted {
          WholeConcat(heap, v0, v, rsp.View(), RecordsFirst(refs0, i), [RecordOf(Cfg(), sgId, moduleCkv, e)]);
        }
        curDef, curDot := curDef + 8, curDot + 4;
      }
      status := if numFound == 0 then ENOTEXIST else EOK;
    }

    /** AcdbGetSubgraphCalibration. */
    method GetSubgraphCalibration(rsp: Response) returns (status: Status)
      requires Separate(rsp) && isDefaultModuleCkv == (moduleCkv == [])
      modifies this`defaultDataIids, rsp, rsp.buf
      ensures var out := PassOutcome(Cfg(), sgId, moduleCkv, ignoreGetDefaultData, old(defaultDataIids),
                                     DefTable(db, defOff, dotOff));
        && Grew(old(rsp.View()), rsp.View(), out.recs)
        && ((status == out.status && defaultDataIids == out.refs &&
             Whole(heap, old(rsp.View()), rsp.View(), out.recs)) ||
            (status == ENEEDMORE && !Ready(old(rsp.View()), out.recs)))
    {
      hide Grew, Ready, Whole, Word, Records, Admit, Runs, Separate;
      GrewNone(rsp.View());
      WholeNone(heap, rsp.View());
      var n: nat := Word(db.file, db.def + defOff);
      EntryCount(db, defOff, dotOff);
      if isDefaultModuleCkv && ignoreGetDefaultData {
        status := BuildReferenceList(n);
        return;
      }
      status := DeliverEntries(rsp, n);
      if status != ENEEDMORE && isDefaultModuleCkv {
        defaultDataIids := None;
      }
    }

    /** AcdbFindModuleCKV, with what it stores in the context. */
    method FindTable(t: TableRef) returns (status: Status)
      requires TableFits(db, t) && 3 * |KeyIds(db, t)| + 3 <= scratch.Length
      modifies this`moduleCkv, this`defOff, this`dotOff, this`isDefaultModuleCkv, this`ignoreGetDefaultData, scratch
      ensures scratch[..] == LeftBy(Cfg(), t, old(scratch[..]))
      ensures match FindWith(Cfg(), t, old(scratch[..]))
        case Missing => status == ENOTEXIST && ignoreGetDefaultData == old(ignoreGetDefaultData)
        case Broken => status == EFAILED && ignoreGetDefaultData == old(ignoreGetDefaultData)
        case Match(mckv, d, o) =>
          && status == EOK && moduleCkv == mckv && defOff == d && dotOff == o
          && isDefaultModuleCkv == (mckv == []) && ignoreGetDefaultData == (old(ignoreGetDefaultData) || mckv != [])
    {
      hide TableFits, KeyIds, Find, FindIn, ScratchAfter;
      MatchKeeps(Cfg(), t, scratch[..]);
      var mckv, d, o;
      status, mckv, d, o := FindModuleCkv(db, t, ckv, deltaCkv, isFirstTime, scratch);
      if status != EOK {
        return;
      }
      defOff, dotOff, moduleCkv := d, o, mckv;
      isDefaultModuleCkv := mckv == [];
      if mckv != [] {
        ignoreGetDefaultData := true;
      }
    }

    /** The context is where the walk says it is. */
    ghost predicate Tracks(s: SgState)
      reads this`defaultDataIids, this`ignoreGetDefaultData, scratch
    {
      && !s.stopped && defaultDataIids == s.refs && ignoreGetDefaultData == s.ignoreDefault
      && scratch[..] == s.scratch
    }

    /** A round ended as the walk says, which may be by stopping it. */
    ghost predicate Stepped(s: SgState, s': SgState, status: Status, delivered: bool)
      reads this`defaultDataIids, this`ignoreGetDefaultData, scratch
    {
      && (s'.stopped <==> status != EOK && status != ENOTEXIST)
      && status == s'.last && s'.hasData == (s.hasData || delivered)
      && (s'.stopped || Tracks(s'))
    }

    /** One round of the loop over a subgraph's key tables. */
    method VisitTable(rsp: Response, t: TableRef, isExtra: bool, ghost s: SgState, ghost v0: RspView)
      returns (status: Status, delivered: bool, wasDefault: bool)
      requires Separate(rsp) && TableReady(db, scratch.Length, t) && Tracks(s)
      requires Grew(v0, rsp.View(), s.recs) && Whole(heap, v0, rsp.View(), s.recs)
      modifies this`moduleCkv, this`defOff, this`dotOff, this`isDefaultModuleCkv, this`ignoreGetDefaultData, scratch
      modifies this`defaultDataIids, rsp, rsp.buf
      ensures var s' := Step(Cfg(), sgId, s, t, isExtra);
        && Grew(v0, rsp.View(), s'.recs)
        && ((Stepped(s, s', status, delivered) && Whole(heap, v0, rsp.View(), s'.recs)) ||
            (status == ENEEDMORE && !Ready(v0, s'.recs)))
      ensures var found := FindWith(Cfg(), t, s.scratch);
        wasDefault == (found.Match? && found.mckv == []) && (found == Broken ==> status == EFAILED)
      ensures ignoreGetDefaultData || !old(ignoreGetDefaultData) || isExtra
    {
      hide Ready, Grew, Whole, Word, FindWith, LeftBy, PassOutcome, TableFits, KeyIds, DefTable;
      ghost var v := rsp.View();
      delivered, wasDefault := false, false;
      if isExtra {
        ignoreGetDefaultData := false;
      }
      status := FindTable(t);
      if status != EOK {
        return;
      }
      wasDefault := isDefaultModuleCkv;
      ghost var before := defaultDataIids;
      ghost var out := PassOutcome(Cfg(), sgId, moduleCkv, ignoreGetDefaultData, before, DefTable(db, defOff, dotOff));
      status := GetSubgraphCalibration(rsp);
      OutcomeStatus(Cfg(), sgId, moduleCkv, ignoreGetDefaultData, before, DefTable(db, defOff, dotOff));
      GrewConcat(v0, v, rsp.View(), s.recs, out.recs);
      GrewLength(v0, v, s.recs);
      if Whole(heap, v, rsp.View(), out.recs) {
        WholeConcat(heap, v0, v, rsp.View(), s.recs, out.recs);
      }
      delivered := status == EOK && !(isDefaultModuleCkv && ignoreGetDefaultData);
    }

    /** The state of the loop over the tables after k rounds. */
    ghost predicate Reached(rsp: Response, v0: RspView, sg: SgTables, was: seq<u32>, k: nat, status: Status,
                            hasData: bool)
      reads this`ckv, this`deltaCkv, this`isFirstTime, this`defaultDataIids, this`ignoreGetDefaultData, scratch
      reads rsp, rsp.buf
      requires k <= |Visited(Cfg(), sg.tables)|
    {
      var s := SgLoop(Cfg(), sg, was, k);
      && Grew(v0, rsp.View(), s.recs) && Whole(heap, v0, rsp.View(), s.recs)
      && Tracks(s) && status == s.last && hasData == s.hasData
    }

    /** The subgraph is done, or the query has failed in it. */
    ghost predicate Finished(rsp: Response, v0: RspView, w: SgState, status: Status, hasData: bool)
      reads this`defaultDataIids, scratch, rsp, rsp.buf
    {
      && Grew(v0, rsp.View(), w.recs)
      && (|| (status == ENEEDMORE && !Ready(v0, w.recs))
          || (status == w.last && (w.stopped <==> status != EOK && status != ENOTEXIST) &&
              Whole(heap, v0, rsp.View(), w.recs) &&
              (w.stopped || (hasData == w.hasData && defaultDataIids == None && scratch[..] == w.scratch))))
    }

    lemma ReachedNext(rsp: Response, v0: RspView, sg: SgTables, was: seq<u32>, k: nat, status: Status, hasData: bool,
                      delivered: bool)
      requires k < |Visited(Cfg(), sg.tables)|
      requires
        var s, s' := SgLoop(Cfg(), sg, was, k), SgLoop(Cfg(), sg, was, k + 1);
        && Grew(v0, rsp.View(), s'.recs) && hasData == s.hasData
        && ((Stepped(s, s', status, delivered) && Whole(heap, v0, rsp.View(), s'.recs)) ||
            (status == ENEEDMORE && !Ready(v0, s'.recs)))
      ensures status == EOK || status == ENOTEXIST ==> Reached(rsp, v0, sg, was, k + 1, status, hasData || delivered)
      ensures status != EOK && status != ENOTEXIST ==> Finished(rsp, v0, SgWalk(Cfg(), sg, was), status, hasData)
    {
      hide Grew, Ready, Whole, SgLoop;
      var s', n := SgLoop(Cfg(), sg, was, k + 1), |Visited(Cfg(), sg.tables)|;
      SgLoopGrows(Cfg(), sg, was, k + 1, n);
      if s'.stopped {
        StoppedStays(Cfg(), sg, was, k + 1, n);
      }
      if !Ready(v0, s'.recs) {
        GrewUnready(v0, rsp.View(), s'.recs, SgWalk(Cfg(), sg, was).recs);
      }
    }

    /**
      The loop over one subgraph's key tables. The default entry's offset outlives the subgraph, so the
      last round reads whatever default entry was found last.
     */
    method QueryTables(rsp: Response, base: nat, count: nat, id: u32, defaultOff0: nat, ghost sg: SgTables)
      returns (status: Status, hasData: bool, defaultOff: nat, end: nat)
      requires Separate(rsp) && SgReady(Cfg(), scratch.Length, sg) && sg.sgId == id && count == |sg.tables| > 0
      requires defaultDataIids == None && At(db.file, base, Flat(TableRefBytes, sg.tables))
      modifies this`sgId, this`moduleCkv, this`defOff, this`dotOff
      modifies this`isDefaultModuleCkv, this`ignoreGetDefaultData, scratch
      modifies this`defaultDataIids, rsp, rsp.buf
      ensures Finished(rsp, old(rsp.View()), SgWalk(Cfg(), sg, old(scratch[..])), status, hasData)
      ensures status == EOK || status == ENOTEXIST ==> end == base + 8 * count
    {
      hide At, Grew, Ready, Whole, Word, Stepped, SgLoop, KeyIds, TableReady, FindWith, Reached, Finished;
      hide SgWalk, WellFormed, DefaultFirst, Flat, Separate, Step;
      ghost var v0, was := rsp.View(), scratch[..];
      var n := if count > 1 && isFirstTime then count + 1 else count;
      status, hasData, defaultOff, end := EOK, false, defaultOff0, base;
      ignoreGetDefaultData := count != 1;
      NothingReached(rsp, v0, sg, was);
      for k := 0 to n
        invariant end == base + 8 * (if k <= count then k else count)
        invariant Reached(rsp, v0, sg, was, k, status, hasData)
        invariant status == EOK || status == ENOTEXIST
        invariant k == 0 ==> ignoreGetDefaultData == (count != 1)
        invariant 0 < k <= count && count > 1 ==> ignoreGetDefaultData
        invariant k > 0 && n > count ==> defaultOff == base
      {
        var isExtra := k == n - 1 && ignoreGetDefaultData && isFirstTime;
        var sgCalLutOffset := if isExtra then defaultOff else end;
        RefAt(db.file, base, sg.tables, if isExtra then 0 else k);
        TableOfRound(Cfg(), sg, was, k, isExtra);
        var t := TableRef(Word(db.file, sgCalLutOffset), Word(db.file, sgCalLutOffset + 4));
        if !isExtra {
          end := end + 8;
        }
        sgId := id;
        var delivered, wasDefault;
        ReachedTracks(rsp, v0, sg, was, k, status, hasData);
        status, delivered, wasDefault := VisitTable(rsp, t, isExtra, SgLoop(Cfg(), sg, was, k), v0);
        ReachedNext(rsp, v0, sg, was, k, status, hasData, delivered);
        if status != EOK && status != ENOTEXIST {
          return;
        }
        if wasDefault {
          defaultOff := sgCalLutOffset;
        }
        hasData := hasData || delivered;
      }
      ReachedEnd(rsp, v0, sg, was, status, hasData);
    }

    lemma ReachedTracks(rsp: Response, v0: RspView, sg: SgTables, was: seq<u32>, k: nat, status: Status, hasData: bool)
      requires k < |Visited(Cfg(), sg.tables)| && Reached(rsp, v0, sg, was, k, status, hasData)
      ensures var s := SgLoop(Cfg(), sg, was, k);
        Tracks(s) && Grew(v0, rsp.View(), s.recs) && Whole(heap, v0, rsp.View(), s.recs) && hasData == s.hasData
    {
    }

    lemma ReachedEnd(rsp: Response, v0: RspView, sg: SgTables, was: seq<u32>, status: Status, hasData: bool)
      requires Reached(rsp, v0, sg, was, |Visited(Cfg(), sg.tables)|, status, hasData) && WellFormed(Cfg(), sg)
      requires status == EOK || status == ENOTEXIST
      ensures Finished(rsp, v0, SgWalk(Cfg(), sg, was), status, hasData)
    {
      ReferencesFreed(Cfg(), sg, was);
    }

    lemma NothingReached(rsp: Response, v0: RspView, sg: SgTables, was: seq<u32>)
      requires v0 == rsp.View() && was == scratch[..]
      requires defaultDataIids == None && ignoreGetDefaultData == (|sg.tables| != 1)
      ensures Reached(rsp, v0, sg, was, 0, EOK, false)
    {
      GrewNone(v0);
      WholeNone(heap, v0);
    }

    /** AcdbComputeDeltaCKV: both vectors are sorted where they are, unless there is no CKV[prior]. */
    method ComputeDeltaCkv(ckvNew: array<KeyValue>, ckvPrior: array<KeyValue>) returns (status: Status)
      requires ckvNew != ckvPrior
      modifies this`ckv, this`deltaCkv, this`isFirstTime, ckvNew, ckvPrior
      ensures Permuted(ckvNew[..], old(ckvNew[..])) && Permuted(ckvPrior[..], old(ckvPrior[..]))
      ensures if ckvPrior.Length == 0 then ckvNew[..] == old(ckvNew[..])
              else SortedBy(KeyOf, ckvNew[..]) && SortedBy(KeyOf, ckvPrior[..])
      ensures SortedBy(KeyOf, old(ckvNew[..])) ==> ckvNew[..] == old(ckvNew[..])
      ensures SortedBy(KeyOf, old(ckvPrior[..])) ==> ckvPrior[..] == old(ckvPrior[..])
      ensures status == if ckvPrior.Length == 0 then EOK else DeltaStatus(ckvPrior[..], ckvNew[..])
      ensures status == EOK ==> isFirstTime == (ckvPrior.Length == 0) && ckv == ckvNew[..]
      ensures status == EOK ==> deltaCkv == if isFirstTime then [] else Delta(ckvPrior[..], ckvNew[..], ckvNew.Length)
      ensures status != EOK ==> ckv == old(ckv) && deltaCkv == old(deltaCkv) && isFirstTime == old(isFirstTime)
    {
      hide SortedBy, Permuted;
      if ckvPrior.Length == 0 {
        NothingSorted(ckvPrior[..]);
        ckv, deltaCkv, isFirstTime := ckvNew[..], [], true;
        SamePermuted(ckvNew[..]);
        return EOK;
      }
      ghost var before := ckvNew[..];
      status := Sort2(KeyOf, ckvPrior);
      assert ckvNew[..] == before;
      ghost var prior := ckvPrior[..];
      status := Sort2(KeyOf, ckvNew);
      assert ckvPrior[..] == prior;
      if status != EOK {
        return;
      }
      if ckvPrior.Length != ckvNew.Length {
        return EFAILED;
      }
      var keyCount;
      status, keyCount := CountChanges(ckvPrior, ckvNew);
      if status != EOK {
        return;
      }
      if keyCount == 0 {
        return ENOTEXIST;
      }
      var delta := CollectChanges(ckvPrior, ckvNew, keyCount);
      ckv, deltaCkv, isFirstTime := ckvNew[..], delta, false;
    }

    /**
      The search loop of the query. The source's second test for a rewind repeats part of the first and
      is left out.
     */
    method SeekSubgraph(cursor: nat, prev: nat, id: u32, ghost lut: seq<SgTables>, ghost c: nat, ghost p: nat)
      returns (found: bool, offset: nat, prevOffset: nat, count: nat)
      requires LutAt(db, lut) && c <= |lut| && p <= |lut|
      requires cursor == RecordOffset(db, lut, c) && prev == RecordOffset(db, lut, p)
      ensures var s := Seek(lut, c, p, id);
        && found == s.found && prevOffset == RecordOffset(db, lut, s.prev)
        && if found then offset == prevOffset + 8 && count == |lut[s.prev].tables|
           else offset == RecordOffset(db, lut, s.cursor)
    {
      hide At, Word, Flat, LutAt, RecordOffset;
      offset, prevOffset, found, count := cursor, prev, false, 0;
      ghost var k := c;
      while offset < db.sgLut + db.sgLutSize
        invariant c <= k <= |lut| && offset == RecordOffset(db, lut, k)
        invariant Seek(lut, c, p, id) == Seek(lut, k, p, id)
        decreases |lut| - k
      {
        RecordAt(db, lut, k);
        var sgId := Word(db.file, offset);
        count := Word(db.file, offset + 4);
        offset := offset + 8;
        if id == sgId {
          return true, offset, offset - 8, count;
        } else if id < sgId {
          return false, prevOffset, prevOffset, count;
        } else {
          offset := offset + count * 8;
        }
        k := k + 1;
      }
      EndOfLut(db, lut, k);
    }

    /** The query is where the walk says it is after k requested subgraphs. */
    ghost predicate Asked(rsp: Response, v0: RspView, lut: seq<SgTables>, ids: seq<u32>, was: seq<u32>, k: nat,
                          numFound: nat)
      reads this`ckv, this`deltaCkv, this`isFirstTime, this`defaultDataIids, scratch, rsp, rsp.buf
      requires k <= |ids|
    {
      var q := QueryRun(Cfg(), lut, ids, was, k);
      && Grew(v0, rsp.View(), q.recs) && Whole(heap, v0, rsp.View(), q.recs)
      && q.error == EOK && numFound == q.numFound && defaultDataIids == None && scratch[..] == q.scratch
    }

    /** The whole query has come to its end, or has run out of room. */
    ghost predicate Answered(rsp: Response, v0: RspView, lut: seq<SgTables>, ids: seq<u32>, was: seq<u32>,
                             status: Status)
      reads this`ckv, this`deltaCkv, this`isFirstTime, scratch, rsp, rsp.buf
    {
      var q := QueryRun(Cfg(), lut, ids, was, |ids|);
      && Grew(v0, rsp.View(), q.recs)
      && ((status == QueryStatus(q) && Whole(heap, v0, rsp.View(), q.recs) &&
           (q.error == EOK ==> scratch[..] == q.scratch)) ||
          (status == ENEEDMORE && !Ready(v0, q.recs)))
    }

    lemma AskedSkip(rsp: Response, v0: RspView, lut: seq<SgTables>, ids: seq<u32>, was: seq<u32>, k: nat, numFound: nat)
      requires k < |ids| && Asked(rsp, v0, lut, ids, was, k, numFound)
      requires var at := WalkFinds(lut, ids, k); at.None? || lut[at.value].tables == []
      ensures Asked(rsp, v0, lut, ids, was, k + 1, numFound)
    {
    }

    lemma AskedNext(rsp: Response, v0: RspView, v: RspView, lut: seq<SgTables>, ids: seq<u32>, was: seq<u32>,
                    k: nat, numFound: nat, status: Status, hasData: bool)
      requires k < |ids|
      requires var q := QueryRun(Cfg(), lut, ids, was, k);
        Grew(v0, v, q.recs) && Whole(heap, v0, v, q.recs) && q.error == EOK && numFound == q.numFound
      requires var at, q := WalkFinds(lut, ids, k), QueryRun(Cfg(), lut, ids, was, k);
        && at.Some? && lut[at.value].tables != []
        && Finished(rsp, v, SgWalk(Cfg(), lut[at.value], q.scratch), status, hasData)
      ensures status == EOK || status == ENOTEXIST ==>
        && Asked(rsp, v0, lut, ids, was, k + 1, if status != EOK && !hasData then numFound else numFound + 1)
        && defaultDataIids == None
      ensures status != EOK && status != ENOTEXIST ==> Answered(rsp, v0, lut, ids, was, status)
    {
      hide Grew, Ready, Whole, SgWalk, WalkFinds, QueryRun;
      RunNext(Cfg(), lut, ids, was, k);
      var q, q' := QueryRun(Cfg(), lut, ids, was, k), QueryRun(Cfg(), lut, ids, was, k + 1);
      var w := SgWalk(Cfg(), lut[WalkFinds(lut, ids, k).value], q.scratch);
      GrewConcat(v0, v, rsp.View(), q.recs, w.recs);
      GrewLength(v0, v, q.recs);
      if Whole(heap, v, rsp.View(), w.recs) {
        WholeConcat(heap, v0, v, rsp.View(), q.recs, w.recs);
      }
      RunGrows(Cfg(), lut, ids, was, k + 1, |ids|);
      if !Ready(v0, q'.recs) {
        GrewUnready(v0, rsp.View(), q'.recs, QueryRun(Cfg(), lut, ids, was, |ids|).recs);
      }
    }

    /** The loop over the requested subgraphs, sorted by now. */
    method QueryAll(rsp: Response, ids: seq<u32>, ghost lut: seq<SgTables>) returns (status: Status)
      requires Separate(rsp) && LutReady(Cfg(), scratch.Length, lut, ids) && defaultDataIids == None
      modifies this`sgId, this`moduleCkv, this`defOff, this`dotOff
      modifies this`isDefaultModuleCkv, this`ignoreGetDefaultData, scratch
      modifies this`defaultDataIids, rsp, rsp.buf
      ensures Answered(rsp, old(rsp.View()), lut, ids, old(scratch[..]), status)
    {
      hide At, Grew, Ready, Whole, SgReady, LutAt, SgWalk, Seek, RecordOffset, Finished, Asked, Answered, WalkFinds;
      hide Separate, QueryRun;
      ghost var v0, was := rsp.View(), scratch[..];
      var offset, numFound, defaultOff := db.sgLut + 4, 0, 0;
      var prevOffset := offset;
      NothingAsked(rsp, v0, lut, ids, was);
      for i := 0 to |ids|
        invariant Asked(rsp, v0, lut, ids, was, i, numFound) && defaultDataIids == None
        invariant offset == RecordOffset(db, lut, Cursor(lut, ids, i).cursor)
        invariant prevOffset == RecordOffset(db, lut, Cursor(lut, ids, i).prev)
      {
        ghost var c := Cursor(lut, ids, i);
        var found, count;
        found, offset, prevOffset, count := SeekSubgraph(offset, prevOffset, ids[i], lut, c.cursor, c.prev);
        FoundAt(db, lut, ids, i);
        if !found {
          AskedSkip(rsp, v0, lut, ids, was, i, numFound);
          continue;
        }
        if count == 0 {
          AskedSkip(rsp, v0, lut, ids, was, i, numFound);
          continue;
        }
        ghost var v, at := rsp.View(), WalkFinds(lut, ids, i).value;
        assert SgReady(Cfg(), scratch.Length, lut[at]);
        AskedNow(rsp, v0, lut, ids, was, i, numFound);
        var hasData;
        status, hasData, defaultOff, offset := QueryTables(rsp, offset, count, ids[i], defaultOff, lut[at]);
        AskedNext(rsp, v0, v, lut, ids, was, i, numFound, status, hasData);
        if status != EOK && status != ENOTEXIST {
          return;
        }
        if !(status != EOK && !hasData) {
          numFound := numFound + 1;
        }
      }
      status := if numFound == 0 then ENOTEXIST else EOK;
      AskedAll(rsp, v0, lut, ids, was, numFound);
    }

    lemma NothingAsked(rsp: Response, v0: RspView, lut: seq<SgTables>, ids: seq<u32>, was: seq<u32>)
      requires v0 == rsp.View() && was == scratch[..] && defaultDataIids == None
      ensures Asked(rsp, v0, lut, ids, was, 0, 0)
      ensures RecordOffset(db, lut, 0) == db.sgLut + 4 && Cursor(lut, ids, 0) == Sought(false, 0, 0)
    {
      GrewNone(v0);
      WholeNone(heap, v0);
    }

    lemma AskedNow(rsp: Response, v0: RspView, lut: seq<SgTables>, ids: seq<u32>, was: seq<u32>, k: nat, numFound: nat)
      requires k <= |ids| && Asked(rsp, v0, lut, ids, was, k, numFound)
      ensures var q := QueryRun(Cfg(), lut, ids, was, k);
        Grew(v0, rsp.View(), q.recs) && Whole(heap, v0, rsp.View(), q.recs) && q.error == EOK && numFound == q.numFound
      ensures scratch[..] == QueryRun(Cfg(), lut, ids, was, k).scratch
    {
    }

    lemma AskedAll(rsp: Response, v0: RspView, lut: seq<SgTables>, ids: seq<u32>, was: seq<u32>, numFound: nat)
      requires Asked(rsp, v0, lut, ids, was, |ids|, numFound)
      ensures Answered(rsp, v0, lut, ids, was, if numFound == 0 then ENOTEXIST else EOK)
    {
    }

    /**
      AcdbCmdGetSubgraphCalDataNonPersist, from the clearing of the buffer on. The arrays are the client's:
      the key vectors and the subgraph list stay sorted.
     */
    method Query(rsp: Response, ckvNew: array<KeyValue>, ckvPrior: array<KeyValue>, sgIds: array<u32>,
                 ghost lut: seq<SgTables>)
      returns (status: Status)
      requires Separate(rsp) && ckvNew != ckvPrior && sgIds != scratch && rsp.buf as object != sgIds as object
      requires rsp.off == 0 && defaultDataIids == None
      requires LutReady(Config(db, heap, paramType, ckvNew[..], [], ckvPrior.Length == 0), scratch.Length, lut,
                        sgIds[..])
      modifies this, scratch, rsp, rsp.buf, ckvNew, ckvPrior, sgIds
      ensures Permuted(ckvNew[..], old(ckvNew[..]))
      ensures Permuted(ckvPrior[..], old(ckvPrior[..])) && Permuted(sgIds[..], old(sgIds[..]))
      ensures if ckvPrior.Length == 0 then ckvNew[..] == old(ckvNew[..])
              else SortedBy(KeyOf, ckvNew[..]) && SortedBy(KeyOf, ckvPrior[..])
      ensures SortedBy(KeyOf, old(ckvNew[..])) ==> ckvNew[..] == old(ckvNew[..])
      ensures SortedBy(KeyOf, old(ckvPrior[..])) ==> ckvPrior[..] == old(ckvPrior[..])
      ensures SortedBy(IdOf, old(sgIds[..])) ==> sgIds[..] == old(sgIds[..])
      ensures ckvPrior.Length > 0 && DeltaStatus(ckvPrior[..], ckvNew[..]) != EOK ==>
        status == DeltaStatus(ckvPrior[..], ckvNew[..])
      ensures ckvPrior.Length == 0 || DeltaStatus(ckvPrior[..], ckvNew[..]) == EOK ==>
        if sgIds.Length == 0 then status == EBADPARAM
        else
          && SortedBy(IdOf, sgIds[..])
          && Responded(rsp, old(rsp.View()), QueryCfg(db, heap, paramType, ckvPrior[..], ckvNew[..]), lut, sgIds[..],
                       old(scratch[..]), scratch[..], status)
          && StatusExact(QueryRun(QueryCfg(db, heap, paramType, ckvPrior[..], ckvNew[..]), lut, sgIds[..],
                                  old(scratch[..]), sgIds.Length))
    {
      hide Permuted, SortedBy, LutReady, Answered, Responded, QueryRun, DeltaStatus, Delta, StatusExact;
      ghost var u := rsp.View();
      ClearBuffer(rsp);
      ghost var v0, cfg0 := rsp.View(), Config(db, heap, paramType, ckvNew[..], [], ckvPrior.Length == 0);
      ghost var ids0, was := sgIds[..], scratch[..];
      SamePermuted(sgIds[..]);
      status := ComputeDeltaCkv(ckvNew, ckvPrior);
      if status != EOK {
        return;
      }
      status := Sort2(IdOf, sgIds);
      if status != EOK {
        return;
      }
      assert scratch[..] == was;
      StillReady(cfg0, Cfg(), scratch.Length, lut, ids0, sgIds[..]);
      SameLength(ckvPrior[..], ckvNew[..]);
      StatusOfReady(Cfg(), scratch.Length, lut, sgIds[..], was);
      status := QueryAll(rsp, sgIds[..], lut);
      AnsweredMeans(rsp, u, v0, lut, sgIds[..], was, status);
    }

    lemma AnsweredMeans(rsp: Response, u: RspView, v0: RspView, lut: seq<SgTables>, ids: seq<u32>, was: seq<u32>,
                        status: Status)
      requires Answered(rsp, v0, lut, ids, was, status) && v0.off == 0 && v0.bytes == Zeros(rsp.buf.Length)
      requires u.size == v0.size && u.spilled == v0.spilled
      ensures Responded(rsp, u, Cfg(), lut, ids, was, scratch[..], status)
    {
      hide QueryRun, QueryStatus, Flat, At;
      var q := QueryRun(Cfg(), lut, ids, was, |ids|);
      if 0 < rsp.buf.Length && |Blob(q.recs)| <= rsp.buf.Length {
        assert Ready(v0, q.recs);
        WroteAll(v0, rsp.View(), q.recs);
      }
    }

    ghost function RecordsFirst(refs: Option<seq<IidRef>>, k: nat): seq<Record>
      reads this
    {
      Records(Cfg(), sgId, moduleCkv, AdmitFirst(Cfg(), isDefaultModuleCkv, refs, defOff, dotOff, k).admitted)
    }

    /** A record that cannot be written is one for which the whole pass has no room. */
    lemma NoRoomForAll(refs: Option<seq<IidRef>>, v: RspView, w: RspView, i: nat, n: nat)
      requires i < n && !Ready(v, RecordsFirst(refs, i + 1)) && Grew(v, w, RecordsFirst(refs, i + 1))
      ensures !Ready(v, RecordsFirst(refs, n)) && Grew(v, w, RecordsFirst(refs, n))
    {
      hide AdmitFirst, Records, Wrote, Clear, Fits;
      AdmitGrows(Cfg(), isDefaultModuleCkv, refs, defOff, dotOff, i + 1, n);
      RecordsGrow(Cfg(), sgId, moduleCkv,
                  AdmitFirst(Cfg(), isDefaultModuleCkv, refs, defOff, dotOff, i + 1).admitted,
                  AdmitFirst(Cfg(), isDefaultModuleCkv, refs, defOff, dotOff, n).admitted);
      if Ready(v, RecordsFirst(refs, n)) {
        ReadyPrefix(v, RecordsFirst(refs, i + 1), RecordsFirst(refs, n));
      }
    }

    ghost predicate Separate(rsp: Response)
    {
      rsp.buf as object != scratch as object
    }
  }

  lemma WroteAll(v: RspView, w: RspView, recs: seq<Record>)
    requires Wrote(v, w, recs) && v.off == 0
    ensures w.bytes == Blob(recs) + Zeros(|w.bytes| - |Blob(recs)|)
  {
    var n := |Blob(recs)|;
    assert w.bytes == w.bytes[0..n] + w.bytes[n..];
    assert w.bytes[n..] == Zeros(|w.bytes| - n);
  }

  lemma SameLength(prior: seq<KeyValue>, new_: seq<KeyValue>)
    ensures prior != [] && DeltaStatus(prior, new_) == EOK ==> |prior| == |new_|
  {
  }

  function IdOf(id: u32): nat {
    id
  }

  method ClearBuffer(rsp: Response)
    modifies rsp.buf
    ensures rsp.buf[..] == Zeros(rsp.buf.Length)
  {
    for i := 0 to rsp.buf.Length
      invariant forall j | 0 <= j < i :: rsp.buf[j] == 0
    {
      rsp.buf[i] := 0;
    }
  }

  /** The configuration of a query for two key vectors, sorted unless it is a first query. */
  function QueryCfg(db: CalDb, heap: Heap, paramType: ParamType, prior: seq<KeyValue>, new_: seq<KeyValue>): Config {
    if prior == [] then Config(db, heap, paramType, new_, [], true)
    else Config(db, heap, paramType, new_, if |prior| == |new_| then Delta(prior, new_, |new_|) else [], false)
  }

  /** What a size query and the data query after it come to, of which q and q' are the walks. */
  ghost predicate TwoPasses(heap: Heap, q: QueryState, q': QueryState, status: Status, blob: seq<byte>) {
    if QueryStatus(q) != EOK then status == QueryStatus(q)
    else
      && |blob| == |Blob(q.recs)|
      && (|Blob(q'.recs)| <= |blob| ==>
            status == QueryStatus(q') && blob == Blob(q'.recs) + Zeros(|blob| - |Blob(q'.recs)|))
      && (|Blob(q'.recs)| > |blob| > 0 ==> status == ENEEDMORE || (status == QueryStatus(q') && heap != map[]))
      && (|blob| == 0 ==> status == QueryStatus(q'))
  }

  /**
    The protocol the query is made for: a size query, then a data query into a buffer of that size, with database
    and heap unchanged. If the scratch buffer is not disturbed the second never asks for more, and it fills the
    buffer exactly; in any case it starts with the words the first one has left there.
   */
  method SizeThenData(db: CalDb, heap: Heap, paramType: ParamType, scratch: array<u32>, ckvNew: array<KeyValue>,
                      ckvPrior: array<KeyValue>, sgIds: array<u32>, ghost lut: seq<SgTables>)
    returns (status: Status, blob: array<byte>)
    requires ckvNew != ckvPrior && sgIds != scratch
    requires LutReady(Config(db, heap, paramType, ckvNew[..], [], ckvPrior.Length == 0), scratch.Length, lut, sgIds[..])
    modifies scratch, ckvNew, ckvPrior, sgIds
    ensures ckvPrior.Length > 0 && DeltaStatus(ckvPrior[..], ckvNew[..]) != EOK ==>
      status == DeltaStatus(ckvPrior[..], ckvNew[..])
    ensures sgIds.Length == 0 && (ckvPrior.Length == 0 || DeltaStatus(ckvPrior[..], ckvNew[..]) == EOK) ==>
      status == EBADPARAM
    ensures sgIds.Length > 0 && (ckvPrior.Length == 0 || DeltaStatus(ckvPrior[..], ckvNew[..]) == EOK) ==>
      var cfg, n := QueryCfg(db, heap, paramType, ckvPrior[..], ckvNew[..]), sgIds.Length;
      var q := QueryRun(cfg, lut, sgIds[..], old(scratch[..]), n);
      && TwoPasses(heap, q, QueryRun(cfg, lut, sgIds[..], q.scratch, n), status, blob[..])
      && (Undisturbed(cfg, scratch.Length, lut, sgIds[..]) ==>
            status == QueryStatus(q) && (status == EOK ==> blob[..] == Blob(q.recs)))
      && StatusExact(q)
  {
    hide Permuted, SortedBy, QueryRun, DeltaStatus, Delta, LutReady, Undisturbed, Blob, Responded, TwoPasses;
    ghost var cfg0, ids0 := Config(db, heap, paramType, ckvNew[..], [], ckvPrior.Length == 0), sgIds[..];
    ghost var was := scratch[..];
    blob := new byte[0];
    var sizeRsp := new Response(blob, 0);
    ghost var view0 := sizeRsp.View();
    var ctx := new CalContext(db, heap, paramType, scratch);
    status := ctx.Query(sizeRsp, ckvNew, ckvPrior, sgIds, lut);
    ghost var prior, new_, ids, left := ckvPrior[..], ckvNew[..], sgIds[..], scratch[..];
    ghost var cfg := QueryCfg(db, heap, paramType, prior, new_);
    StillReady(cfg0, cfg, scratch.Length, lut, ids0, ids);
    StatusOfReady(cfg, scratch.Length, lut, ids, was);
    if status != EOK {
      if sgIds.Length > 0 && (ckvPrior.Length == 0 || DeltaStatus(prior, new_) == EOK) {
        SizeAnswered(sizeRsp, view0, cfg, lut, ids, was, left, status);
      }
      return;
    }
    SizeAnswered(sizeRsp, view0, cfg, lut, ids, was, left, status);
    blob := new byte[sizeRsp.size];
    var dataRsp := new Response(blob, sizeRsp.size);
    ghost var view := dataRsp.View();
    ctx := new CalContext(db, heap, paramType, scratch);
    StillReady(cfg0, Config(db, heap, paramType, ckvNew[..], [], ckvPrior.Length == 0), scratch.Length, lut, ids0, ids);
    status := ctx.Query(dataRsp, ckvNew, ckvPrior, sgIds, lut);
    assert ckvPrior[..] == prior && ckvNew[..] == new_ && sgIds[..] == ids;
    DataAnswered(dataRsp, view, cfg, lut, ids, was, scratch[..], status);
  }

  /** A run ends with what stopped it, and one that no table stops in success exactly if it has records. */
  predicate StatusExact(q: QueryState) {
    QueryStatus(q) == if q.error != EOK then q.error else if q.recs != [] then EOK else ENOTEXIST
  }

  lemma StatusOfReady(cfg: Config, n: nat, lut: seq<SgTables>, ids: seq<u32>, was: seq<u32>)
    requires LutReady(cfg, n, lut, ids)
    ensures StatusExact(QueryRun(cfg, lut, ids, was, |ids|))
  {
    hide QueryRun, LutAt, TableReady;
    assert forall i | 0 <= i < |lut| && lut[i].sgId in ids :: SgReady(cfg, n, lut[i]);
    StatusMeans(cfg, lut, ids, was);
  }

  /** What the size query tells; if it fails that is all. */
  lemma SizeAnswered(rsp: Response, v0: RspView, cfg: Config, lut: seq<SgTables>, ids: seq<u32>, was: seq<u32>,
                     left: seq<u32>, status: Status)
    requires rsp.buf.Length == 0 && v0.size == 0 && Responded(rsp, v0, cfg, lut, ids, was, left, status)
    ensures var q := QueryRun(cfg, lut, ids, was, |ids|);
      && status == QueryStatus(q) && rsp.size == |Blob(q.recs)| && (q.error == EOK ==> left == q.scratch)
      && (status != EOK ==> forall q', blob :: TwoPasses(cfg.heap, q, q', status, blob))
  {
    hide QueryRun;
  }

  lemma DataAnswered(rsp: Response, v0: RspView, cfg: Config, lut: seq<SgTables>, ids: seq<u32>, was: seq<u32>,
                     now: seq<u32>, status: Status)
    requires var q := QueryRun(cfg, lut, ids, was, |ids|);
      && QueryStatus(q) == EOK && rsp.buf.Length == |Blob(q.recs)|
      && Responded(rsp, v0, cfg, lut, ids, q.scratch, now, status)
    ensures var q := QueryRun(cfg, lut, ids, was, |ids|);
      && TwoPasses(cfg.heap, q, QueryRun(cfg, lut, ids, q.scratch, |ids|), status, rsp.buf[..])
      && (Undisturbed(cfg, |was|, lut, ids) ==> status == QueryStatus(q) && rsp.buf[..] == Blob(q.recs))
  {
    hide QueryRun, Undisturbed, Blob;
    if Undisturbed(cfg, |was|, lut, ids) {
      PassesAgree(cfg, lut, ids, was);
    }
  }

  lemma StaleReady(scratch: seq<u32>)
    requires |scratch| >= 9
    ensures LutReady(StaleCfg(), |scratch|, StaleLut(), [1, 2])
  {
    hide KeyIds, TableFits, LutAt, StaleDb;
    StaleLutAt();
    StaleTables();
  }

  /** With the database of CalPasses.SizeTooSmall the protocol ends in a refusal. */
  lemma SizeThenRefused(scratch: seq<u32>)
    requires |scratch| >= 9 && scratch[5] != 9
    ensures LutReady(StaleCfg(), |scratch|, StaleLut(), [1, 2])
    ensures var q := QueryRun(StaleCfg(), StaleLut(), [1, 2], scratch, 2);
      var q' := QueryRun(StaleCfg(), StaleLut(), [1, 2], q.scratch, 2);
      forall status, blob | TwoPasses(StaleCfg().heap, q, q', status, blob) :: status == ENEEDMORE
  {
    hide QueryRun, Blob, LutAt, StaleDb, LutReady;
    SizeTooSmall(scratch);
    StaleReady(scratch);
  }

  /**
    The answer to a size query, to a data query with enough room, and to one without: that is always told,
    unless data from the heap did not go in whole and what followed hid it. The scratch buffer goes from was
    to left.
   */
  ghost predicate Responded(rsp: Response, v0: RspView, cfg: Config, lut: seq<SgTables>, ids: seq<u32>,
                            was: seq<u32>, left: seq<u32>, status: Status)
    reads rsp, rsp.buf
  {
    var q := QueryRun(cfg, lut, ids, was, |ids|);
    && (rsp.buf.Length == 0 ==>
          status == QueryStatus(q) && rsp.size == v0.size + |Blob(q.recs)| && (q.error == EOK ==> left == q.scratch))
    && (0 < rsp.buf.Length && |Blob(q.recs)| <= rsp.buf.Length ==>
          && status == QueryStatus(q) && rsp.off == |Blob(q.recs)| && (q.error == EOK ==> left == q.scratch)
          && rsp.buf[..] == Blob(q.recs) + Zeros(rsp.buf.Length - |Blob(q.recs)|))
    && (0 < rsp.buf.Length < |Blob(q.recs)| ==>
          status == ENEEDMORE || (status == QueryStatus(q) && cfg.heap != map[] && rsp.spilled > v0.spilled))
  }

  lemma SamePermuted<T>(a: seq<T>)
    ensures Permuted(a, a)
  {
  }

  lemma NothingSorted(a: seq<KeyValue>)
    requires a == []
    ensures Permuted(a, a) && SortedBy(KeyOf, a)
  {
  }

  /** How many values differ, as long as the keys agree. */
  method CountChanges(ckvPrior: array<KeyValue>, ckvNew: array<KeyValue>) returns (status: Status, keyCount: nat)
    requires ckvPrior.Length == ckvNew.Length
    ensures status == if SameKeys(ckvPrior[..], ckvNew[..]) then EOK else ENOTEXIST
    ensures status == EOK ==> keyCount == |Delta(ckvPrior[..], ckvNew[..], ckvNew.Length)|
  {
    hide Delta;
    ghost var prior, new_ := ckvPrior[..], ckvNew[..];
    keyCount := 0;
    DeltaNone(prior, new_);
    for i := 0 to ckvPrior.Length
      invariant forall j | 0 <= j < i :: prior[j].key == new_[j].key
      invariant keyCount == |Delta(prior, new_, i)|
    {
      DeltaNext(prior, new_, i);
      if ckvPrior[i].key != ckvNew[i].key {
        assert prior[i].key != new_[i].key;
        return ENOTEXIST, keyCount;
      }
      if ckvPrior[i].value != ckvNew[i].value {
        keyCount := keyCount + 1;
      }
    }
    status := EOK;
  }

  method CollectChanges(ckvPrior: array<KeyValue>, ckvNew: array<KeyValue>, keyCount: nat)
    returns (delta: seq<KeyValue>)
    requires ckvPrior.Length == ckvNew.Length && keyCount == |Delta(ckvPrior[..], ckvNew[..], ckvNew.Length)|
    ensures delta == Delta(ckvPrior[..], ckvNew[..], ckvNew.Length)
  {
    hide Delta;
    ghost var prior, new_ := ckvPrior[..], ckvNew[..];
    var kvs := new KeyValue[keyCount](_ => KeyValue(0, 0));
    var count := 0;
    DeltaNone(prior, new_);
    for i := 0 to ckvPrior.Length
      invariant count == |Delta(prior, new_, i)| <= keyCount
      invariant kvs[..count] == Delta(prior, new_, i)
    {
      DeltaNext(prior, new_, i);
      DeltaGrows(prior, new_, i + 1, ckvNew.Length);
      if ckvPrior[i].value != ckvNew[i].value {
        kvs[count] := KeyValue(ckvNew[i].key, ckvNew[i].value);
        count := count + 1;
      }
    }
    delta := kvs[..count];
  }

  lemma {:induction false} DeltaGrows(prior: seq<KeyValue>, new_: seq<KeyValue>, i: nat, n: nat)
    requires i <= n <= |prior| && n <= |new_|
    ensures |Delta(prior, new_, i)| <= |Delta(prior, new_, n)|
  {
    if i < n {
      DeltaGrows(prior, new_, i, n - 1);
    }
  }

  /** The file's data for the entry whose DOT offset is at curDot. */
  function FilePayload(db: CalDb, curDot: nat): seq<byte> {
    var q := db.pool + Word(db.file, curDot);
    Slice(db.file, q + 4, Word(db.file, q))
  }

  /** Where the k-th record of the LUT starts. */
  function RecordOffset(db: CalDb, lut: seq<SgTables>, k: nat): nat
    requires k <= |lut|
  {
    db.sgLut + 4 + |Flat(SgBytes, lut[..k])|
  }

  lemma RecordAt(db: CalDb, lut: seq<SgTables>, k: nat)
    requires LutAt(db, lut) && k <= |lut| && RecordOffset(db, lut, k) < db.sgLut + db.sgLutSize
    ensures k < |lut| && var off := RecordOffset(db, lut, k);
      && Word(db.file, off) == lut[k].sgId && Word(db.file, off + 4) == |lut[k].tables|
      && At(db.file, off + 8, Flat(TableRefBytes, lut[k].tables))
      && RecordOffset(db, lut, k + 1) == off + 8 + 8 * |lut[k].tables|
  {
    hide At, Word, Flat, SgBytes;
    assert k == |lut| ==> lut[..k] == lut;
    FlatAt(SgBytes, lut, k, db.file, db.sgLut + 4);
    SgAt(db.file, RecordOffset(db, lut, k), lut[k]);
  }

  lemma EndOfLut(db: CalDb, lut: seq<SgTables>, k: nat)
    requires LutAt(db, lut) && k <= |lut| && RecordOffset(db, lut, k) >= db.sgLut + db.sgLutSize
    ensures k == |lut|
  {
    hide At, Word, Flat, SgBytes;
    if k < |lut| {
      FlatAt(SgBytes, lut, k, db.file, db.sgLut + 4);
      SgAt(db.file, RecordOffset(db, lut, k), lut[k]);
      assert false;
    }
  }

  lemma RunNext(cfg: Config, lut: seq<SgTables>, ids: seq<u32>, was: seq<u32>, k: nat)
    requires k < |ids| && QueryRun(cfg, lut, ids, was, k).error == EOK
    requires var at := WalkFinds(lut, ids, k); at.Some? && lut[at.value].tables != []
    ensures var q := QueryRun(cfg, lut, ids, was, k);
      QueryRun(cfg, lut, ids, was, k + 1) ==
      AfterSubgraph(q, SgWalk(cfg, lut[WalkFinds(lut, ids, k).value], q.scratch))
  {
    hide SgWalk, WalkFinds;
  }

  lemma {:induction false} RunGrows(cfg: Config, lut: seq<SgTables>, ids: seq<u32>, was: seq<u32>, j: nat, k: nat)
    requires j <= k <= |ids|
    ensures QueryRun(cfg, lut, ids, was, j).recs <= QueryRun(cfg, lut, ids, was, k).recs
    ensures QueryRun(cfg, lut, ids, was, j).error != EOK ==>
            QueryRun(cfg, lut, ids, was, k) == QueryRun(cfg, lut, ids, was, j)
  {
    hide SgWalk, WalkFinds;
    if j < k {
      RunGrows(cfg, lut, ids, was, j, k - 1);
    }
  }

  /** What the search has established when it finds a subgraph. */
  lemma FoundAt(db: CalDb, lut: seq<SgTables>, ids: seq<u32>, k: nat)
    requires k < |ids| && LutAt(db, lut)
    ensures var s := Cursor(lut, ids, k + 1);
      && s == Seek(lut, Cursor(lut, ids, k).cursor, Cursor(lut, ids, k).prev, ids[k])
      && WalkFinds(lut, ids, k) == (if s.found then Some(s.prev) else None)
      && (s.found ==>
            && lut[s.prev].sgId == ids[k] && |lut[s.prev].tables| < WORD_LIMIT
            && At(db.file, RecordOffset(db, lut, s.prev) + 8, Flat(TableRefBytes, lut[s.prev].tables))
            && RecordOffset(db, lut, s.cursor) == RecordOffset(db, lut, s.prev) + 8 + 8 * |lut[s.prev].tables|)
  {
    hide At, Seek, Flat, SgBytes;
    var s := Cursor(lut, ids, k + 1);
    if s.found {
      FlatAt(SgBytes, lut, s.prev, db.file, db.sgLut + 4);
      SgAt(db.file, RecordOffset(db, lut, s.prev), lut[s.prev]);
    }
  }

  /** The table that round k looks at, and whether that is the extra round. */
  lemma TableOfRound(cfg: Config, sg: SgTables, was: seq<u32>, k: nat, isExtra: bool)
    requires k < |Visited(cfg, sg.tables)| && isExtra == (k == |sg.tables|) && WellFormed(cfg, sg)
    ensures Visited(cfg, sg.tables)[k] == sg.tables[if isExtra then 0 else k]
    ensures !SgLoop(cfg, sg, was, k).stopped ==>
      SgLoop(cfg, sg, was, k + 1) ==
      Step(cfg, sg.sgId, SgLoop(cfg, sg, was, k), sg.tables[if isExtra then 0 else k], isExtra)
    ensures var found := FindWith(cfg, sg.tables[if isExtra then 0 else k], SgLoop(cfg, sg, was, k).scratch);
      cfg.isFirstTime && |sg.tables| > 1 && found != Broken ==>
      ((isExtra || k == 0) <==> found.Match? && found.mckv == [])
  {
    hide FindIn, FindWith, LeftBy, Step, KeyIds;
    if cfg.isFirstTime && |sg.tables| > 1 {
      DefaultFound(cfg, sg.tables[0], SgLoop(cfg, sg, was, k).scratch);
      MatchKeeps(cfg, sg.tables[if isExtra then 0 else k], SgLoop(cfg, sg, was, k).scratch);
    }
  }

  lemma EntryCount(db: CalDb, defOff: nat, dotOff: nat)
    ensures |DefTable(db, defOff, dotOff)| == Word(db.file, db.def + defOff)
  {
  }

  lemma WholePass(cfg: Config, isDefault: bool, refs: Option<seq<IidRef>>, defOff: nat, dotOff: nat, sgId: u32,
                  mckv: seq<KeyValue>)
    ensures AdmitFirst(cfg, isDefault, refs, defOff, dotOff, 0) == Pass([], refs)
    ensures AdmitFirst(cfg, isDefault, refs, defOff, dotOff, Word(cfg.db.file, cfg.db.def + defOff)) ==
            Admit(isDefault, refs, DefTable(cfg.db, defOff, dotOff))
    ensures Records(cfg, sgId, mckv, []) == []
  {
  }

  /** The first n slots of the buffer hold the list; the first slot still has IID zero while there is none. */
  ghost predicate Counted(buf: seq<IidRef>, n: nat, refs: seq<IidRef>) {
    n <= |buf| && buf[..n] == refs && (n == 0 && |buf| > 0 ==> buf[0].iid == 0)
  }

  lemma RunsNext(db: CalDb, defOff: nat, dotOff: nat, i: nat)
    ensures Runs(Entries(db, defOff, dotOff, i + 1)) ==
            AddRun(Runs(Entries(db, defOff, dotOff, i)), Word(db.file, db.def + defOff + 4 + 8 * i))
  {
    hide Word, Slice, AddRun;
    var es := Entries(db, defOff, dotOff, i + 1);
    assert es[..i] == Entries(db, defOff, dotOff, i);
  }

  lemma NoneCounted(buf: seq<IidRef>)
    requires |buf| > 0 && buf[0].iid == 0
    ensures Counted(buf, 0, Runs([]))
  {
  }

  lemma CountedList(buf: seq<IidRef>, n: nat, refs: seq<IidRef>)
    requires Counted(buf, n, refs)
    ensures n <= |buf| && buf[..n] == refs
  {
  }

  /** The three branches of the list builder; iid_ref is the last slot in use, or the first. */
  method CountIid(buf: array<IidRef>, n: nat, iid: u32, ghost refs: seq<IidRef>) returns (n': nat)
    requires Counted(buf[..], n, refs) && n < buf.Length
    modifies buf
    ensures n <= n' <= n + 1 && Counted(buf[..], n', AddRun(refs, iid))
  {
    var ref := if n == 0 then 0 else n - 1;
    n' := n;
    assert forall i | 0 <= i < n :: refs[i] == buf[..][..n][i] == buf[i];
    if buf[ref].iid != iid && n == 0 {
      buf[ref] := IidRef(iid, 1);
      n' := n + 1;
    } else if buf[ref].iid != iid {
      ref := ref + 1;
      buf[ref] := IidRef(iid, 1);
      n' := n + 1;
    } else {
      buf[ref] := IidRef(iid, buf[ref].count + 1);
    }
    assert buf[..n'] == AddRun(refs, iid);
  }
}
