/**
  A size pass and the data pass after it: the second starts with the words that the first has left in the
  scratch buffer, and delivers the same as long as none of them matters.
 */
module CalPasses {
  import opened Bytes
  import opened Search
  import opened CalBlob
  import opened CalKeys
  import opened CalFind
  import opened CalRefs
  import opened CalWalk

  // ---------------------------------------------------------------- one table

  ghost predicate AgreeOn(words: set<nat>, a: seq<u32>, b: seq<u32>) {
    |a| == |b| && forall i | i in words && i < |a| :: a[i] == b[i]
  }

  /** No search of the table reads any other word than these. */
  ghost predicate Sees(cfg: Config, t: TableRef, words: set<nat>) {
    IsFree(cfg, t) || forall i: nat | ReadsWord(cfg.db, t, cfg.ckv, i) :: i in words
  }

  /** Nor writes any of these: they are words it reads, which a search leaves alone, or behind its row. */
  ghost predicate Spares(cfg: Config, t: TableRef, words: set<nat>) {
    forall i | i in words :: ReadsWord(cfg.db, t, cfg.ckv, i) || 3 * |KeyIds(cfg.db, t)| + 3 <= i
  }

  lemma VisitSame(cfg: Config, t: TableRef, words: set<nat>, more: set<nat>, a: seq<u32>, b: seq<u32>)
    requires Sees(cfg, t, words) && (IsFree(cfg, t) || AgreeOn(words, a, b)) && AgreeOn(more, a, b)
    ensures FindWith(cfg, t, a) == FindWith(cfg, t, b)
    ensures AgreeOn(more, LeftBy(cfg, t, a), LeftBy(cfg, t, b))
  {
    hide KeyIds, Find, ScratchAfter, ScratchFree, ReadsWord;
    if 3 * |KeyIds(cfg.db, t)| + 3 <= |a| {
      SameWords(cfg.db, t, cfg.ckv, cfg.delta, cfg.isFirstTime, a, b);
    }
  }

  lemma VisitSpares(cfg: Config, t: TableRef, words: set<nat>, a: seq<u32>)
    requires Spares(cfg, t, words)
    ensures AgreeOn(words, a, LeftBy(cfg, t, a))
  {
    hide KeyIds, ScratchAfter, ReadsWord;
    if 3 * |KeyIds(cfg.db, t)| + 3 <= |a| {
      KeepsWords(cfg.db, t, cfg.ckv, cfg.delta, cfg.isFirstTime, a);
    }
  }

  lemma DefaultLeft(cfg: Config, t: TableRef, a: seq<u32>, b: seq<u32>)
    requires cfg.isFirstTime && KeyIds(cfg.db, t) == [] && RowCount(cfg.db, t) > 0 && 3 <= |a| == |b|
    ensures IsFree(cfg, t) && LeftBy(cfg, t, a)[..3] == LeftBy(cfg, t, b)[..3]
  {
    hide KeyIds, RowCount, Find, ScratchAfter;
    DefaultWords(cfg.db, t, cfg.ckv, cfg.delta, a, b);
  }

  /** The row of a default table is put over the first three words. */
  lemma DefaultSame(cfg: Config, t: TableRef, kept: set<nat>, words: set<nat>, a: seq<u32>, b: seq<u32>)
    requires cfg.isFirstTime && KeyIds(cfg.db, t) == [] && RowCount(cfg.db, t) > 0 && 3 <= |a|
    requires AgreeOn(kept, a, b) && forall i | i in words - kept :: i < 3
    ensures FindWith(cfg, t, a) == FindWith(cfg, t, b) && AgreeOn(words, LeftBy(cfg, t, a), LeftBy(cfg, t, b))
  {
    hide KeyIds, RowCount, FindWith, LeftBy, IsFree;
    var x, y := LeftBy(cfg, t, a), LeftBy(cfg, t, b);
    DefaultLeft(cfg, t, a, b);
    VisitSame(cfg, t, {}, kept, a, b);
    forall i | i in words && i < |x|
      ensures x[i] == y[i]
    {
      if i < 3 {
        assert x[i] == x[..3][i] && y[i] == y[..3][i];
      } else {
        assert i !in words - kept;
      }
    }
  }

  // ---------------------------------------------------------------- one subgraph

  ghost predicate SameBut(s: SgState, s': SgState) {
    s' == s.(scratch := s'.scratch)
  }

  lemma StepSame(cfg: Config, sgId: u32, s: SgState, s': SgState, t: TableRef, isExtra: bool)
    requires SameBut(s, s') && FindWith(cfg, t, s.scratch) == FindWith(cfg, t, s'.scratch)
    ensures SameBut(Step(cfg, sgId, s, t, isExtra), Step(cfg, sgId, s', t, isExtra))
    ensures Step(cfg, sgId, s, t, isExtra).scratch == LeftBy(cfg, t, s.scratch)
    ensures Step(cfg, sgId, s', t, isExtra).scratch == LeftBy(cfg, t, s'.scratch)
  {
    hide FindWith, LeftBy, PassOutcome, DefTable;
  }

  /** The subgraph starts with a default table, whose row a buffer of n words can hold. */
  predicate DefaultInFront(cfg: Config, n: nat, sg: SgTables) {
    && cfg.isFirstTime && 3 <= n && sg.tables != []
    && KeyIds(cfg.db, sg.tables[0]) == [] && RowCount(cfg.db, sg.tables[0]) > 0
  }

  /**
    The tables of a subgraph read no other words than these, and leave those kept alone. A word that is not
    kept is rewritten by the default table in front before it is read.
   */
  ghost predicate SgUndisturbed(cfg: Config, n: nat, sg: SgTables, words: set<nat>, kept: set<nat>) {
    && kept <= words
    && (forall i | 0 <= i < |sg.tables| :: Sees(cfg, sg.tables[i], words) && Spares(cfg, sg.tables[i], kept))
    && (words == kept || (DefaultInFront(cfg, n, sg) && forall i | i in words - kept :: i < 3))
  }

  lemma VisitedAt(cfg: Config, sg: SgTables, n: nat, words: set<nat>, kept: set<nat>, k: nat)
    requires SgUndisturbed(cfg, n, sg, words, kept) && k < |Visited(cfg, sg.tables)|
    ensures var t := Visited(cfg, sg.tables)[k]; Sees(cfg, t, words) && Spares(cfg, t, kept)
    ensures k == 0 ==> Visited(cfg, sg.tables)[k] == sg.tables[0]
  {
    hide Sees, Spares;
  }

  lemma {:induction false} SgLoopSame(cfg: Config, sg: SgTables, words: set<nat>, kept: set<nat>, a: seq<u32>,
                                      b: seq<u32>, k: nat)
    requires SgUndisturbed(cfg, |a|, sg, words, kept) && k <= |Visited(cfg, sg.tables)| && AgreeOn(kept, a, b)
    ensures var s, s' := SgLoop(cfg, sg, a, k), SgLoop(cfg, sg, b, k);
      && SameBut(s, s') && AgreeOn(kept, s.scratch, s'.scratch) && |s.scratch| == |a|
      && (k > 0 || words == kept ==> AgreeOn(words, s.scratch, s'.scratch))
  {
    hide KeyIds, RowCount, FindWith, LeftBy, Step, Sees, Spares, AgreeOn;
    if k > 0 {
      SgLoopSame(cfg, sg, words, kept, a, b, k - 1);
      var s, s' := SgLoop(cfg, sg, a, k - 1), SgLoop(cfg, sg, b, k - 1);
      if !s.stopped {
        var t := Visited(cfg, sg.tables)[k - 1];
        VisitedAt(cfg, sg, |a|, words, kept, k - 1);
        if k > 1 || words == kept {
          VisitSame(cfg, t, words, words, s.scratch, s'.scratch);
        } else {
          DefaultSame(cfg, t, kept, words, s.scratch, s'.scratch);
        }
        StepSame(cfg, sg.sgId, s, s', t, k - 1 == |sg.tables|);
        AgreeOnLess(kept, words, LeftBy(cfg, t, s.scratch), LeftBy(cfg, t, s'.scratch));
      } else if k == 1 {
        assert false;
      }
    }
  }

  lemma AgreeOnLess(kept: set<nat>, words: set<nat>, a: seq<u32>, b: seq<u32>)
    requires kept <= words && AgreeOn(words, a, b)
    ensures AgreeOn(kept, a, b)
  {
  }

  lemma {:induction false} SgLoopKeeps(cfg: Config, sg: SgTables, words: set<nat>, kept: set<nat>, a: seq<u32>, k: nat)
    requires SgUndisturbed(cfg, |a|, sg, words, kept) && k <= |Visited(cfg, sg.tables)|
    ensures AgreeOn(kept, a, SgLoop(cfg, sg, a, k).scratch)
  {
    hide KeyIds, FindWith, LeftBy, Sees, Spares, PassOutcome;
    if k > 0 {
      SgLoopKeeps(cfg, sg, words, kept, a, k - 1);
      VisitedAt(cfg, sg, |a|, words, kept, k - 1);
      VisitSpares(cfg, Visited(cfg, sg.tables)[k - 1], kept, SgLoop(cfg, sg, a, k - 1).scratch);
    }
  }

  // ---------------------------------------------------------------- the whole query

  ghost predicate QueryUndisturbed(cfg: Config, n: nat, lut: seq<SgTables>, ids: seq<u32>, words: set<nat>,
                                   kept: set<nat>) {
    forall i | 0 <= i < |lut| && lut[i].sgId in ids && lut[i].tables != [] :: SgUndisturbed(cfg, n, lut[i], words, kept)
  }

  /**
    No requested subgraph reads a word of the scratch buffer that one of them may have changed since it was last
    read, unless its own default table has just rewritten it.
   */
  ghost predicate Undisturbed(cfg: Config, n: nat, lut: seq<SgTables>, ids: seq<u32>) {
    exists words, kept :: QueryUndisturbed(cfg, n, lut, ids, words, kept)
  }

  lemma {:induction false} RunSame(cfg: Config, lut: seq<SgTables>, ids: seq<u32>, words: set<nat>, kept: set<nat>,
                                   a: seq<u32>, b: seq<u32>, k: nat)
    requires k <= |ids| && QueryUndisturbed(cfg, |a|, lut, ids, words, kept) && AgreeOn(kept, a, b)
    ensures var q, q' := QueryRun(cfg, lut, ids, a, k), QueryRun(cfg, lut, ids, b, k);
      q' == q.(scratch := q'.scratch) && AgreeOn(kept, q.scratch, q'.scratch) && |q.scratch| == |a|
  {
    hide SgWalk, SgUndisturbed, WalkFinds, AgreeOn;
    if k > 0 {
      RunSame(cfg, lut, ids, words, kept, a, b, k - 1);
      var q, q', at := QueryRun(cfg, lut, ids, a, k - 1), QueryRun(cfg, lut, ids, b, k - 1), WalkFinds(lut, ids, k - 1);
      if at.Some? && lut[at.value].tables != [] {
        WalkFindsRequested(lut, ids, k - 1);
        WalkSame(cfg, lut[at.value], words, kept, q.scratch, q'.scratch);
      }
    }
  }

  lemma WalkSame(cfg: Config, sg: SgTables, words: set<nat>, kept: set<nat>, a: seq<u32>, b: seq<u32>)
    requires SgUndisturbed(cfg, |a|, sg, words, kept) && AgreeOn(kept, a, b)
    ensures var w, w' := SgWalk(cfg, sg, a), SgWalk(cfg, sg, b);
      && SameBut(w, w') && AgreeOn(kept, w.scratch, w'.scratch)
      && AgreeOn(kept, a, w.scratch) && |w.scratch| == |a|
  {
    hide SgUndisturbed, AgreeOn;
    SgLoopSame(cfg, sg, words, kept, a, b, |Visited(cfg, sg.tables)|);
    SgLoopKeeps(cfg, sg, words, kept, a, |Visited(cfg, sg.tables)|);
  }

  lemma {:induction false} RunKeeps(cfg: Config, lut: seq<SgTables>, ids: seq<u32>, words: set<nat>, kept: set<nat>,
                                    a: seq<u32>, k: nat)
    requires k <= |ids| && QueryUndisturbed(cfg, |a|, lut, ids, words, kept)
    ensures AgreeOn(kept, a, QueryRun(cfg, lut, ids, a, k).scratch)
  {
    hide SgWalk, SgUndisturbed, WalkFinds;
    if k > 0 {
      RunKeeps(cfg, lut, ids, words, kept, a, k - 1);
      var q, at := QueryRun(cfg, lut, ids, a, k - 1), WalkFinds(lut, ids, k - 1);
      if at.Some? && lut[at.value].tables != [] {
        WalkFindsRequested(lut, ids, k - 1);
        WalkSame(cfg, lut[at.value], words, kept, q.scratch, q.scratch);
      }
    }
  }

  /** Then a second pass, from what the first has left in the buffer, delivers the same. */
  lemma PassesAgree(cfg: Config, lut: seq<SgTables>, ids: seq<u32>, scratch: seq<u32>)
    requires Undisturbed(cfg, |scratch|, lut, ids)
    ensures var q := QueryRun(cfg, lut, ids, scratch, |ids|);
      var q' := QueryRun(cfg, lut, ids, q.scratch, |ids|);
      q' == q.(scratch := q'.scratch)
  {
    hide QueryUndisturbed, QueryRun;
    var words, kept :| QueryUndisturbed(cfg, |scratch|, lut, ids, words, kept);
    RunKeeps(cfg, lut, ids, words, kept, scratch, |ids|);
    RunSame(cfg, lut, ids, words, kept, scratch, QueryRun(cfg, lut, ids, scratch, |ids|).scratch, |ids|);
  }

  // ---------------------------------------------------------------- requests of which that is true

  /** The words that a search of the table reads. */
  function WordsRead(cfg: Config, t: TableRef): set<nat> {
    set i: nat | i < 3 * |KeyIds(cfg.db, t)| && ReadsWord(cfg.db, t, cfg.ckv, i)
  }

  lemma SeesOwn(cfg: Config, t: TableRef)
    ensures Sees(cfg, t, WordsRead(cfg, t)) && Spares(cfg, t, WordsRead(cfg, t))
  {
  }

  /** Requests whose tables the scratch buffer cannot decide; all incremental ones are. */
  lemma FreeUndisturbed(cfg: Config, n: nat, lut: seq<SgTables>, ids: seq<u32>)
    requires forall i | 0 <= i < |lut| && lut[i].sgId in ids :: SgFree(cfg, lut[i])
    ensures Undisturbed(cfg, n, lut, ids)
  {
    assert QueryUndisturbed(cfg, n, lut, ids, {}, {});
  }

  /** Requests for one key table, in as many subgraphs as it may be. */
  lemma SameTableUndisturbed(cfg: Config, n: nat, lut: seq<SgTables>, ids: seq<u32>, t: TableRef)
    requires forall i, j | 0 <= i < |lut| && lut[i].sgId in ids && 0 <= j < |lut[i].tables| :: lut[i].tables[j] == t
    ensures Undisturbed(cfg, n, lut, ids)
  {
    SeesOwn(cfg, t);
    assert QueryUndisturbed(cfg, n, lut, ids, WordsRead(cfg, t), WordsRead(cfg, t));
  }

  /** Requests for one specific table in subgraphs that have a default table in front of it. */
  lemma DefaultAndOneUndisturbed(cfg: Config, n: nat, lut: seq<SgTables>, ids: seq<u32>, t: TableRef)
    requires forall i | 0 <= i < |lut| && lut[i].sgId in ids && lut[i].tables != [] :: DefaultInFront(cfg, n, lut[i])
    requires forall i, j | 0 <= i < |lut| && lut[i].sgId in ids && 1 <= j < |lut[i].tables| :: lut[i].tables[j] == t
    ensures Undisturbed(cfg, n, lut, ids)
  {
    var words := WordsRead(cfg, t);
    var kept := set i | i in words && 3 <= i;
    SeesOwn(cfg, t);
    forall i | 0 <= i < |lut| && lut[i].sgId in ids && lut[i].tables != []
      ensures SgUndisturbed(cfg, n, lut[i], words, kept)
    {
      hide ReadsWord, WordsRead, KeyIds, RowCount;
      assert DefaultInFront(cfg, n, lut[i]);
    }
    assert QueryUndisturbed(cfg, n, lut, ids, words, kept);
  }

  // ---------------------------------------------------------------- a request of which it is not

  /** The subgraph LUT of CalFind.StaleDb. */
  function StaleLut(): (lut: seq<SgTables>)
    ensures |lut| == 2
  {
    [SgTables(1, [TableRef(0, 0)]), SgTables(2, [TableRef(12, 28)])]
  }

  function StaleCfg(): Config {
    Config(StaleDb(), map[], NonPersistent, [KeyValue(1, 7)], [], true)
  }

  function StaleRecord(): Record {
    Record(0x1001, 0x2001, Slice(StaleDb().file, 132, 4))
  }

  lemma {:induction false} WordsConcat(a: seq<u32>, b: seq<u32>)
    ensures Words(a + b) == Words(a) + Words(b)
  {
    if b == [] {
      assert a + b == a;
    } else {
      assert (a + b)[..|a + b| - 1] == a + b[..|b| - 1];
      WordsConcat(a, b[..|b| - 1]);
    }
  }

  lemma FourWords(a: u32, b: u32, c: u32, d: u32)
    ensures Words([a, b, c, d]) == Le32(a) + Le32(b) + (Le32(c) + Le32(d))
  {
    hide Le32;
    assert [a][..0] == [] && [a, b][..1] == [a] && [a, b, c][..2] == [a, b] && [a, b, c, d][..3] == [a, b, c];
    assert Words([a]) == [] + Le32(a);
    assert Words([a, b]) == Words([a]) + Le32(b);
    assert Words([a, b, c]) == Words([a, b]) + Le32(c);
  }

  lemma OneTableBytes(sgId: u32, t: TableRef)
    ensures SgBytes(SgTables(sgId, [t])) == Words([sgId, 1, t.keyOff, t.lutOff])
  {
    hide Le32, Words;
    FlatSnoc(TableRefBytes, [], t);
    assert Flat(TableRefBytes, []) == [] && [] + [t] == [t];
    FourWords(sgId, 1, t.keyOff, t.lutOff);
  }

  function LutWords(): (ws: seq<u32>)
    ensures |ws| == 8
  {
    [1, 1, 0, 0] + [2, 1, 12, 28]
  }

  lemma FlatTwo<T, U>(f: T -> seq<U>, x: T, y: T)
    ensures Flat(f, [x, y]) == f(x) + f(y)
  {
    assert [x, y][..1] == [x] && [x][..0] == [];
    assert Flat(f, [x]) == [] + f(x);
  }

  lemma LutBytes()
    ensures Flat(SgBytes, StaleLut()) == Words(LutWords())
  {
    hide Le32, Words, SgBytes, Flat;
    OneTableBytes(1, TableRef(0, 0));
    OneTableBytes(2, TableRef(12, 28));
    WordsConcat([1, 1, 0, 0], [2, 1, 12, 28]);
    FlatTwo(SgBytes, SgTables(1, [TableRef(0, 0)]), SgTables(2, [TableRef(12, 28)]));
  }

  lemma MiddleAt(a: seq<u32>, m: seq<u32>, b: seq<u32>)
    ensures At(Words(a + m + b), 4 * |a|, Words(m))
  {
    WordsConcat(a + m, b);
    WordsConcat(a, m);
  }

  lemma StaleFileParts()
    ensures StaleFile() == [2] + LutWords() + StaleFile()[9..]
  {
  }

  lemma StaleLutAt()
    ensures LutAt(StaleDb(), StaleLut()) && Ascending(StaleLut())
  {
    hide Words, SgBytes, LutWords, StaleFile, Flat, At;
    LutBytes();
    StaleFileParts();
    MiddleAt([2], LutWords(), StaleFile()[9..]);
  }

  lemma StaleEntry()
    ensures DefTable(StaleDb(), 0, 0) == [Entry(0x1001, 0x2001, Slice(StaleDb().file, 132, 4))]
  {
    hide Word, Words, Slice;
    StaleWord(27);
    StaleWord(28);
    StaleWord(29);
    StaleWord(31);
    StaleWord(32);
    var ws, file := StaleFile(), StaleDb().file;
    assert ws[27] == 1 && ws[28] == 0x1001 && ws[29] == 0x2001 && ws[31] == 0 && ws[32] == 4;
    assert Word(file, 108) == 1 && Word(file, 112) == 0x1001 && Word(file, 116) == 0x2001;
    assert Word(file, 124) == 0 && Word(file, 128) == 4;
    assert EntryAt(StaleDb(), 0, 0, 0) == Entry(0x1001, 0x2001, Slice(file, 132, 4));
    assert Entries(StaleDb(), 0, 0, 1) == [] + [EntryAt(StaleDb(), 0, 0, 0)];
  }

  lemma StaleRecords(sgId: u32, mckv: seq<KeyValue>)
    ensures Records(StaleCfg(), sgId, mckv, DefTable(StaleDb(), 0, 0)) == [StaleRecord()]
  {
    hide StaleDb, Slice, DefTable;
    StaleEntry();
    var e := Entry(0x1001, 0x2001, Slice(StaleDb().file, 132, 4));
    NothingPersistent();
    assert [e][..0] == [];
    assert Records(StaleCfg(), sgId, mckv, [e]) == [] + [RecordOf(StaleCfg(), sgId, mckv, e)];
  }

  lemma NothingPersistent()
    ensures StaleDb().persistentPids == {}
  {
  }

  lemma StaleWalk(k: nat)
    requires k < 2
    ensures WalkFinds(StaleLut(), [1, 2], k) == Some(k)
  {
    hide WalkFinds, ScanFinds;
    StaleLutAt();
    CursorAgrees(StaleLut(), [1, 2]);
    ScanOfAscending(StaleLut(), k);
  }

  lemma TwoSubgraphs(scratch: seq<u32>)
    ensures var cfg, lut := StaleCfg(), StaleLut();
      var w := SgWalk(cfg, lut[0], scratch);
      !w.stopped ==>
      QueryRun(cfg, lut, [1, 2], scratch, 2) ==
      AfterSubgraph(AfterSubgraph(QueryState([], 0, EOK, scratch), w), SgWalk(cfg, lut[1], w.scratch))
  {
    hide SgWalk, WalkFinds;
    StaleWalk(0);
    StaleWalk(1);
    var q := QueryRun(StaleCfg(), StaleLut(), [1, 2], scratch, 0);
    assert QueryRun(StaleCfg(), StaleLut(), [1, 2], scratch, 1) ==
           AfterSubgraph(q, SgWalk(StaleCfg(), StaleLut()[0], scratch));
  }

  /**
    A request that can receive a size at once followed by too many data: in the database of CalFind.StaleDb both
    subgraphs are asked for, with a key vector that lacks a key of the first. The size pass finds the one record of
    the second subgraph; the data pass finds that of the first as well.
   */
  lemma SizeTooSmall(scratch: seq<u32>)
    requires |scratch| >= 9 && scratch[5] != 9
    ensures StaleCfg().isFirstTime && LutAt(StaleCfg().db, StaleLut()) && Ascending(StaleLut())
    ensures var q := QueryRun(StaleCfg(), StaleLut(), [1, 2], scratch, 2);
      var q' := QueryRun(StaleCfg(), StaleLut(), [1, 2], q.scratch, 2);
      && QueryStatus(q) == EOK && q.recs == [StaleRecord()]
      && QueryStatus(q') == EOK && q'.recs == [StaleRecord(), StaleRecord()]
      && |Blob(q'.recs)| > |Blob(q.recs)| > 0
    ensures !Undisturbed(StaleCfg(), |scratch|, StaleLut(), [1, 2])
  {
    hide Find, ScratchAfter, KeyIds, Records, DefTable, Words, Word, DspBytes;
    hide StaleRecord, SgWalk, QueryRun, Undisturbed;
    StaleLutAt();
    StaleWordsDecide(scratch);
    var cfg, db, lut, ckv := StaleCfg(), StaleDb(), StaleLut(), [KeyValue(1, 7)];
    var s1 := ScratchAfter(db, TableRef(0, 0), ckv, [], true, scratch);
    var s2 := ScratchAfter(db, TableRef(12, 28), ckv, [], true, s1);
    var s3 := ScratchAfter(db, TableRef(0, 0), ckv, [], true, s2);
    SingleTableDelivers(cfg, lut[0], scratch);
    SingleTableDelivers(cfg, lut[1], s1);
    SingleTableDelivers(cfg, lut[0], s2);
    SingleTableDelivers(cfg, lut[1], s3);
    StaleRecords(2, ckv);
    StaleRecords(1, [KeyValue(1, 7), KeyValue(2, s2[3])]);
    TwoSubgraphs(scratch);
    TwoSubgraphs(s2);
    FlatSnoc(DspBytes, [StaleRecord()], StaleRecord());
    BlobOne(StaleRecord());
    assert [StaleRecord()] + [StaleRecord()] == [StaleRecord(), StaleRecord()];
    RecordHasBytes(StaleRecord());
    if Undisturbed(cfg, |scratch|, lut, [1, 2]) {
      PassesAgree(cfg, lut, [1, 2], scratch);
    }
  }

  lemma RecordHasBytes(r: Record)
    ensures |DspBytes(r)| > 0
  {
  }
}
