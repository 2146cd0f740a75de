/**
  The list of calibration key vectors of a use case, each written once: a lookup of file offsets
  remembers which vectors have been seen.
 */
module CkvList {
  import opened Bytes
  import opened Search
  import opened CalFind
  import opened CalWalk

  datatype Ckv = Ckv(keys: seq<u32>, values: seq<u32>)

  // ---------------------------------------------------------------- AcdbZip1

  function Zip(a: seq<u32>, b: seq<u32>): (r: seq<u32>)
    requires |a| == |b|
    ensures |r| == 2 * |a|
  {
    seq(2 * |a|, i requires 0 <= i < 2 * |a| => if i % 2 == 0 then a[i / 2] else b[i / 2])
  }

  function Evens(s: seq<u32>): (r: seq<u32>)
    ensures |r| == |s| / 2
  {
    seq(|s| / 2, i requires 0 <= i < |s| / 2 => s[2 * i])
  }

  function Odds(s: seq<u32>): (r: seq<u32>)
    ensures |r| == |s| / 2
  {
    seq(|s| / 2, i requires 0 <= i < |s| / 2 => s[2 * i + 1])
  }

  lemma ZipAt(a: seq<u32>, b: seq<u32>, i: nat)
    requires |a| == |b| && i < |a|
    ensures Zip(a, b)[2 * i] == a[i] && Zip(a, b)[2 * i + 1] == b[i]
  {
    var k := 2 * i;
    assert k % 2 == 0 && k / 2 == i && (k + 1) % 2 == 1 && (k + 1) / 2 == i;
  }

  /** Unzipping a zipped vector gives its two lists back. */
  lemma Unzip(a: seq<u32>, b: seq<u32>)
    requires |a| == |b|
    ensures Evens(Zip(a, b)) == a && Odds(Zip(a, b)) == b
  {
    hide Zip;
    forall i | 0 <= i < |a|
      ensures Evens(Zip(a, b))[i] == a[i] && Odds(Zip(a, b))[i] == b[i]
    {
      ZipAt(a, b, i);
    }
  }

  method Zip1(list1: seq<u32>, list2: seq<u32>, out: array<u32>) returns (status: Status)
    modifies out
    ensures status == if |list1| == |list2| && out.Length == |list1| + |list2| then EOK else EBADPARAM
    ensures status == EOK ==> out[..] == Zip(list1, list2)
  {
    if |list1| != |list2| {
      return EBADPARAM;
    }
    if out.Length != |list1| + |list2| {
      return EBADPARAM;
    }
    var index1, index2 := 0, 0;
    for i := 0 to out.Length
      invariant index1 == (i + 1) / 2 && index2 == i / 2
      invariant forall j | 0 <= j < i :: out[j] == Zip(list1, list2)[j]
    {
      if i % 2 == 0 {
        out[i] := list1[index1];
        index1 := index1 + 1;
      } else {
        out[i] := list2[index2];
        index2 := index2 + 1;
      }
    }
    status := EOK;
  }

  // ---------------------------------------------------------------- the written list

  /** A key vector as it is written: number of keys, then <key, value> pairs. */
  function CkvWords(c: Ckv): (r: seq<u32>)
    ensures |r| >= 1
  {
    if |c.keys| == |c.values| then [Low32(|c.keys|)] + Zip(c.keys, c.values) else [0]
  }

  function ListWords(cs: seq<Ckv>): seq<u32> {
    Flat(CkvWords, cs)
  }

  predicate Even(c: Ckv) {
    |c.keys| == |c.values| < WORD_LIMIT
  }

  /** How a client reads the list. */
  function ReadList(ws: seq<u32>, at: nat): Option<seq<Ckv>>
    decreases if at < |ws| then |ws| - at else 0
  {
    if at >= |ws| then Some([])
    else
      var n: nat := ws[at];
      if at + 1 + 2 * n > |ws| then None
      else
        match ReadList(ws, at + 1 + 2 * n)
        case None => None
        case Some(rest) =>
          var pairs := ws[at + 1..at + 1 + 2 * n];
          Some([Ckv(Evens(pairs), Odds(pairs))] + rest)
  }

  /** Reading the list gives every vector back, keys and values. */
  lemma ListRoundTrip(cs: seq<Ckv>)
    requires forall c | c in cs :: Even(c)
    ensures ReadList(ListWords(cs), 0) == Some(cs)
  {
    ReadRest(cs, 0);
    assert cs[..0] == [] && cs[0..] == cs;
  }

  lemma {:induction false} ReadRest(cs: seq<Ckv>, k: nat)
    requires k <= |cs| && forall c | c in cs :: Even(c)
    ensures ReadList(ListWords(cs), |ListWords(cs[..k])|) == Some(cs[k..])
    decreases |cs| - k
  {
    hide CkvWords, Flat, Evens, Odds;
    var ws, at := ListWords(cs), |ListWords(cs[..k])|;
    if k < |cs| {
      var c := cs[k];
      ReadRest(cs, k + 1);
      SplitWords(cs, k);
      assert ws[at..] == CkvWords(c) + ListWords(cs[k + 1..]);
      OneVector(c);
      var n := |c.keys|;
      assert ws[at] == CkvWords(c)[0] && ws[at + 1..at + 1 + 2 * n] == CkvWords(c)[1..];
      assert cs[k..] == [c] + cs[k + 1..];
    } else {
      assert cs[..k] == cs && cs[k..] == [];
    }
  }

  lemma OneVector(c: Ckv)
    requires Even(c)
    ensures var ws := CkvWords(c);
      |ws| == 1 + 2 * |c.keys| && ws[0] == |c.keys| && Evens(ws[1..]) == c.keys && Odds(ws[1..]) == c.values
  {
    Unzip(c.keys, c.values);
    assert CkvWords(c)[1..] == Zip(c.keys, c.values);
  }

  lemma SplitWords(cs: seq<Ckv>, k: nat)
    requires k < |cs|
    ensures ListWords(cs) == ListWords(cs[..k]) + CkvWords(cs[k]) + ListWords(cs[k + 1..])
    ensures ListWords(cs[..k + 1]) == ListWords(cs[..k]) + CkvWords(cs[k])
  {
    hide CkvWords;
    assert cs[..k + 1] == cs[..k] + [cs[k]] && cs == cs[..k + 1] + cs[k + 1..];
    FlatSnoc(CkvWords, cs[..k], cs[k]);
    FlatConcat(CkvWords, cs[..k + 1], cs[k + 1..]);
  }

  // ---------------------------------------------------------------- what is to be listed

  function RowCkv(db: CalDb, t: TableRef, i: nat): Ckv
    requires i < RowCount(db, t)
  {
    var n := |KeyIds(db, t)|;
    Ckv(KeyIds(db, t), Rows(db, t, n)[i][..n])
  }

  function TableCkvs(db: CalDb, t: TableRef, k: nat): (r: seq<Ckv>)
    requires k <= RowCount(db, t)
    ensures |r| == k
  {
    seq(k, i requires 0 <= i < k => RowCkv(db, t, i))
  }

  /** A value table repeats the key count of its key table. */
  predicate Matches(db: CalDb, t: TableRef) {
    Word(db.file, db.lut + t.lutOff) == |KeyIds(db, t)|
  }

  /** The key vectors of the tables up to the first one that does not match. */
  function CkvsOf(db: CalDb, ts: seq<TableRef>): seq<Ckv> {
    if ts == [] then []
    else
      var before, t := CkvsOf(db, ts[..|ts| - 1]), ts[|ts| - 1];
      if AllMatch(db, ts) then before + TableCkvs(db, t, RowCount(db, t)) else before
  }

  predicate AllMatch(db: CalDb, ts: seq<TableRef>) {
    forall i | 0 <= i < |ts| :: Matches(db, ts[i])
  }

  /** The key tables of the subgraphs that the LUT has. */
  function TablesOf(lut: seq<SgTables>, sgIds: seq<u32>): seq<TableRef> {
    if sgIds == [] then []
    else
      var before, at := TablesOf(lut, sgIds[..|sgIds| - 1]), ScanFinds(lut, sgIds[|sgIds| - 1], 0);
      if at.Some? then before + lut[at.value].tables else before
  }

  /** Each vector once, where it comes first. */
  function Dedup(cs: seq<Ckv>): seq<Ckv> {
    if cs == [] then []
    else
      var before, c := Dedup(cs[..|cs| - 1]), cs[|cs| - 1];
      if c in before then before else before + [c]
  }

  /** Nothing is listed twice, nothing is left out, and the order is that of first occurrence. */
  lemma {:induction false} DedupMeans(cs: seq<Ckv>)
    ensures Distinct(Dedup(cs)) && forall c :: c in Dedup(cs) <==> c in cs
    ensures forall i, j | 0 <= i < j < |Dedup(cs)| :: FirstIndex(cs, Dedup(cs)[i]) < FirstIndex(cs, Dedup(cs)[j])
  {
    if cs != [] {
      var n := |cs| - 1;
      var before, after := Dedup(cs[..n]), Dedup(cs);
      DedupMeans(cs[..n]);
      assert cs == cs[..n] + [cs[n]];
      forall c | c in before
        ensures FirstIndex(cs, c) == FirstIndex(cs[..n], c) < n
      {
        FirstIndexPrefix(cs, c);
      }
      forall i, j | 0 <= i < j < |after|
        ensures FirstIndex(cs, after[i]) < FirstIndex(cs, after[j])
      {
        assert after[i] in before;
        if j < |before| {
          assert after[j] in before;
        } else {
          FirstIndexLast(cs);
        }
      }
    }
  }

  function FirstIndex(cs: seq<Ckv>, c: Ckv): (k: nat)
    ensures k <= |cs| && (k < |cs| ==> cs[k] == c)
    ensures c in cs ==> k < |cs|
  {
    if cs == [] then 0 else if cs[0] == c then 0 else FirstIndex(cs[1..], c) + 1
  }

  lemma {:induction false} FirstIndexPrefix(cs: seq<Ckv>, c: Ckv)
    requires cs != [] && c in cs[..|cs| - 1]
    ensures FirstIndex(cs, c) == FirstIndex(cs[..|cs| - 1], c) < |cs| - 1
  {
    var n := |cs| - 1;
    if cs[0] != c {
      assert cs[1..][..n - 1] == cs[..n][1..];
      assert c in cs[..n][1..];
      FirstIndexPrefix(cs[1..], c);
    }
  }

  lemma {:induction false} FirstIndexLast(cs: seq<Ckv>)
    requires cs != [] && cs[|cs| - 1] !in cs[..|cs| - 1]
    ensures FirstIndex(cs, cs[|cs| - 1]) == |cs| - 1
  {
    if |cs| > 1 {
      assert cs[0] in cs[..|cs| - 1];
      assert cs[1..][..|cs| - 2] == cs[1..|cs| - 1];
      assert cs[..|cs| - 1] == [cs[0]] + cs[1..|cs| - 1];
      FirstIndexLast(cs[1..]);
    }
  }

  // ---------------------------------------------------------------- what a full lookup does to it

  /** The lookup lives in GLB_BUF_1, two words an entry. */
  const MAX_ENTRIES := 1250

  /** The vectors that the lookup still knows. */
  function Known(cs: seq<Ckv>): (r: seq<Ckv>)
    ensures |r| <= MAX_ENTRIES && r <= cs
  {
    if |cs| <= MAX_ENTRIES then cs else cs[..MAX_ENTRIES]
  }

  lemma KnownSnoc(cs: seq<Ckv>, c: Ckv)
    ensures |Known(cs)| < MAX_ENTRIES <==> |cs| < MAX_ENTRIES
    ensures Known(cs + [c]) == if |cs| < MAX_ENTRIES then Known(cs) + [c] else Known(cs)
  {
  }

  /** Each vector unless the lookup knows it. */
  function Entered(cs: seq<Ckv>): seq<Ckv> {
    if cs == [] then []
    else
      var before, c := Entered(cs[..|cs| - 1]), cs[|cs| - 1];
      if c in Known(before) then before else before + [c]
  }

  /** What is known are the first vectors of the right list. */
  lemma {:induction false} EnteredKnown(cs: seq<Ckv>)
    ensures Known(Entered(cs)) == Known(Dedup(cs)) && |Entered(cs)| >= |Dedup(cs)|
  {
    if cs != [] {
      var n := |cs| - 1;
      EnteredKnown(cs[..n]);
      if |Dedup(cs[..n])| < MAX_ENTRIES {
        assert Entered(cs[..n]) == Dedup(cs[..n]);
      }
    }
  }

  lemma CountSnoc(cs: seq<Ckv>, c: Ckv)
    requires cs != []
    ensures multiset(cs)[c] == multiset(cs[..|cs| - 1])[c] + if cs[|cs| - 1] == c then 1 else 0
  {
    assert cs == cs[..|cs| - 1] + [cs[|cs| - 1]];
  }

  /** A vector that is not known is listed as often as it occurs. */
  lemma {:induction false} EnteredCount(cs: seq<Ckv>, c: Ckv)
    requires c !in Known(Dedup(cs))
    ensures multiset(Entered(cs))[c] == multiset(cs)[c]
  {
    if cs != [] {
      var n := |cs| - 1;
      assert Known(Dedup(cs[..n])) <= Known(Dedup(cs));
      EnteredCount(cs[..n], c);
      EnteredKnown(cs[..n]);
      CountSnoc(cs, c);
    }
  }

  lemma DistinctCount(cs: seq<Ckv>, c: Ckv)
    requires Distinct(cs)
    ensures multiset(cs)[c] <= 1
  {
    if c in cs {
      var k :| 0 <= k < |cs| && cs[k] == c;
      assert cs == cs[..k] + [c] + cs[k + 1..];
    }
  }

  lemma TwiceCount(cs: seq<Ckv>, i: nat, j: nat)
    requires i < j < |cs| && cs[i] == cs[j]
    ensures multiset(cs)[cs[i]] >= 2
  {
    assert cs == cs[..j] + cs[j..];
    assert cs[..j][i] in cs[..j] && cs[j..][0] in cs[j..];
  }

  predicate RepeatsKnown(cs: seq<Ckv>) {
    forall i, j | 0 <= i < j < |cs| && cs[i] == cs[j] :: cs[i] in Known(Dedup(cs))
  }

  /** The list repeats nothing exactly if only vectors occur twice that are among the first the lookup has room for. */
  lemma {:induction false} EnteredIsDedup(cs: seq<Ckv>)
    ensures Entered(cs) == Dedup(cs) <==> RepeatsKnown(cs)
    ensures |Dedup(cs)| <= MAX_ENTRIES ==> Entered(cs) == Dedup(cs)
  {
    DedupMeans(cs);
    EnteredKnown(cs);
    if Entered(cs) == Dedup(cs) {
      forall i, j | 0 <= i < j < |cs| && cs[i] == cs[j]
        ensures cs[i] in Known(Dedup(cs))
      {
        if cs[i] !in Known(Dedup(cs)) {
          EnteredCount(cs, cs[i]);
          DistinctCount(Dedup(cs), cs[i]);
          TwiceCount(cs, i, j);
        }
      }
    }
    if RepeatsKnown(cs) {
      RepeatsEntered(cs, |cs|);
      assert cs[..|cs|] == cs;
    }
    if |Dedup(cs)| <= MAX_ENTRIES {
      assert forall i | 0 <= i < |cs| :: cs[i] in Dedup(cs);
    }
  }

  /** A vector that the list has already is still known. */
  lemma StillKnown(cs: seq<Ckv>, k: nat)
    requires RepeatsKnown(cs) && k < |cs| && cs[k] in Dedup(cs[..k])
    ensures cs[k] in Known(Dedup(cs[..k]))
  {
    hide Known, Dedup;
    DedupMeans(cs[..k]);
    DedupMeans(cs);
    var i :| 0 <= i < k && cs[..k][i] == cs[k];
    assert cs[i] == cs[k];
    assert cs == cs[..k] + cs[k..];
    DedupGrows(cs[..k], cs[k..]);
    KnownSooner(Dedup(cs[..k]), Dedup(cs), cs[k]);
  }

  lemma {:induction false} RepeatsEntered(cs: seq<Ckv>, k: nat)
    requires RepeatsKnown(cs) && k <= |cs|
    ensures Entered(cs[..k]) == Dedup(cs[..k])
  {
    hide Known, RepeatsKnown;
    if k > 0 {
      RepeatsEntered(cs, k - 1);
      assert cs[..k][..k - 1] == cs[..k - 1];
      if cs[k - 1] in Dedup(cs[..k - 1]) {
        StillKnown(cs, k - 1);
      } else {
        KnownLess(Dedup(cs[..k - 1]));
      }
    }
  }

  lemma KnownLess(cs: seq<Ckv>)
    ensures forall c | c in Known(cs) :: c in cs
  {
  }

  lemma KnownSooner(a: seq<Ckv>, b: seq<Ckv>, c: Ckv)
    requires a <= b && Distinct(b) && c in a && c in Known(b)
    ensures c in Known(a)
  {
    var i :| 0 <= i < |a| && a[i] == c;
    var k :| 0 <= k < |Known(b)| && Known(b)[k] == c;
    assert b[i] == b[k];
  }

  // ---------------------------------------------------------------- growing lists

  lemma {:induction false} DedupGrows(a: seq<Ckv>, b: seq<Ckv>)
    ensures Dedup(a) <= Dedup(a + b)
  {
    if b == [] {
      assert a + b == a;
    } else {
      var n := |b| - 1;
      DedupGrows(a, b[..n]);
      assert (a + b)[..|a + b| - 1] == a + b[..n];
    }
  }

  lemma {:induction false} EnteredGrows(a: seq<Ckv>, b: seq<Ckv>)
    ensures Entered(a) <= Entered(a + b)
  {
    if b == [] {
      assert a + b == a;
    } else {
      var n := |b| - 1;
      EnteredGrows(a, b[..n]);
      assert (a + b)[..|a + b| - 1] == a + b[..n];
    }
  }

  lemma EnteredSnoc(cs: seq<Ckv>, c: Ckv)
    ensures Entered(cs + [c]) == if c in Known(Entered(cs)) then Entered(cs) else Entered(cs) + [c]
  {
    assert (cs + [c])[..|cs|] == cs;
  }

  lemma CkvsSnoc(db: CalDb, ts: seq<TableRef>, t: TableRef)
    requires AllMatch(db, ts)
    ensures AllMatch(db, ts + [t]) <==> Matches(db, t)
    ensures CkvsOf(db, ts + [t]) ==
            if Matches(db, t) then CkvsOf(db, ts) + TableCkvs(db, t, RowCount(db, t)) else CkvsOf(db, ts)
  {
    hide Matches, RowCount, RowCkv;
    assert (ts + [t])[..|ts|] == ts;
    assert (ts + [t])[|ts|] == t;
    if Matches(db, t) {
      assert forall i | 0 <= i < |ts| :: Matches(db, ts[i]);
      assert AllMatch(db, ts + [t]);
    }
  }

  lemma {:induction false} CkvsGrow(db: CalDb, a: seq<TableRef>, b: seq<TableRef>)
    ensures CkvsOf(db, a) <= CkvsOf(db, a + b)
    ensures !AllMatch(db, a) ==> CkvsOf(db, a + b) == CkvsOf(db, a) && !AllMatch(db, a + b)
  {
    hide Matches, TableCkvs;
    if b == [] {
      assert a + b == a;
    } else {
      var n := |b| - 1;
      CkvsGrow(db, a, b[..n]);
      assert (a + b)[..|a + b| - 1] == a + b[..n];
      if !AllMatch(db, a) {
        var i :| 0 <= i < |a| && !Matches(db, a[i]);
        assert (a + b)[i] == a[i];
      }
    }
  }

  /** What the buffer must hold only grows as more vectors turn up. */
  lemma SizeGrows(a: seq<Ckv>, b: seq<Ckv>)
    requires a <= b
    ensures |ListWords(Entered(a))| <= |ListWords(Entered(b))|
  {
    assert b == a + b[|a|..];
    EnteredGrows(a, b[|a|..]);
    FlatPrefix(CkvWords, Entered(a), Entered(b));
  }

  // ---------------------------------------------------------------- what a size query says to a full lookup

  /** The last vector of a table is new, and there is no room for it in the lookup. */
  predicate LastRefused(seen: seq<Ckv>, cs: seq<Ckv>) {
    cs != [] && var before := Entered(seen + cs[..|cs| - 1]);
    |before| >= MAX_ENTRIES && cs[|cs| - 1] !in Known(before)
  }

  /**
    The status of a size query over some tables. A vector that finds no room is counted all the same, but if it
    is the last one of its table the query fails; a data query does not notice.
   */
  function SizeStatus(db: CalDb, ts: seq<TableRef>): Status {
    if ts == [] then EOK
    else
      var before, t := ts[..|ts| - 1], ts[|ts| - 1];
      if SizeStatus(db, before) != EOK then SizeStatus(db, before)
      else if !Matches(db, t) then EFAILED
      else if LastRefused(CkvsOf(db, before), TableCkvs(db, t, RowCount(db, t))) then EBADPARAM
      else EOK
  }

  /** As long as the lookup has room both queries tell the same. */
  lemma {:induction false} SizeStatusWithRoom(db: CalDb, ts: seq<TableRef>)
    requires |Dedup(CkvsOf(db, ts))| <= MAX_ENTRIES
    ensures SizeStatus(db, ts) == if AllMatch(db, ts) then EOK else EFAILED
  {
    hide TableCkvs, Matches;
    if ts != [] {
      var n := |ts| - 1;
      var before, t := ts[..n], ts[n];
      assert ts == before + [t];
      CkvsGrow(db, before, [t]);
      DedupPrefix(CkvsOf(db, before), CkvsOf(db, ts));
      SizeStatusWithRoom(db, before);
      if AllMatch(db, before) {
        CkvsSnoc(db, before, t);
        if Matches(db, t) {
          RoomForLast(CkvsOf(db, before), TableCkvs(db, t, RowCount(db, t)));
        }
      } else {
        var i :| 0 <= i < n && !Matches(db, before[i]);
        assert !Matches(db, ts[i]);
      }
    }
  }

  lemma DedupPrefix(a: seq<Ckv>, b: seq<Ckv>)
    requires a <= b
    ensures |Dedup(a)| <= |Dedup(b)|
  {
    assert b == a + b[|a|..];
    DedupGrows(a, b[|a|..]);
  }

  lemma RoomForLast(seen: seq<Ckv>, cs: seq<Ckv>)
    requires |Dedup(seen + cs)| <= MAX_ENTRIES
    ensures !LastRefused(seen, cs)
  {
    if cs != [] {
      var init, c := seen + cs[..|cs| - 1], cs[|cs| - 1];
      assert (seen + cs)[..|seen + cs| - 1] == init;
      DedupPrefix(init, seen + cs);
      EnteredIsDedup(init);
    }
  }

  // ---------------------------------------------------------------- the response and its lookup

  /** AcdbKeyVectorLutEntry: where a key list and one of its value lists are in the file. */
  datatype LutEntry = LutEntry(keyOff: nat, valueOff: nat)

  function EntryCkv(db: CalDb, e: LutEntry): Ckv {
    var n := Word(db.file, e.keyOff);
    Ckv(WordList(db.file, e.keyOff + 4, n), WordList(db.file, e.valueOff, n))
  }

  lemma EntryOfRow(db: CalDb, t: TableRef, i: nat)
    requires i < RowCount(db, t)
    ensures EntryCkv(db, LutEntry(db.keyTbl + t.keyOff, RowOffset(db, t, |KeyIds(db, t)|, i))) == RowCkv(db, t, i)
    ensures Even(RowCkv(db, t, i))
  {
    hide Word;
    var n := |KeyIds(db, t)|;
    assert WordList(db.file, RowOffset(db, t, n, i), n + 3)[..n] == WordList(db.file, RowOffset(db, t, n, i), n);
  }

  class KeyVectorList {
    const db: CalDb
    /** The client's buffer; no elements stand for a null pointer. */
    const list: array<u32>
    /** The size the client says it has, in bytes. */
    const expectedSize: nat
    const baseNum: nat
    const baseSize: nat
    var numKeyVectors: nat
    var listSize: nat
    var lookup: seq<LutEntry>
    var off: nat

    /** The counters start at zero for a data query, and at what the client left in them otherwise. */
    constructor (db: CalDb, list: array<u32>, numKeyVectors: nat, listSize: nat)
      requires list.Length > 0 ==> listSize <= 4 * list.Length
      ensures this.db == db && this.list == list && expectedSize == (if list.Length > 0 then listSize else 0)
      ensures baseNum == if list.Length > 0 then 0 else numKeyVectors
      ensures baseSize == if list.Length > 0 then 0 else listSize
      ensures Holds([])
    {
      this.db, this.list := db, list;
      expectedSize := if list.Length > 0 then listSize else 0;
      baseNum := if list.Length > 0 then 0 else numKeyVectors;
      baseSize := if list.Length > 0 then 0 else listSize;
      this.numKeyVectors := if list.Length > 0 then 0 else numKeyVectors;
      this.listSize := if list.Length > 0 then 0 else listSize;
      lookup, off := [], 0;
      new;
      assert list[..0] == [];
    }

    /** The list and the lookup hold these vectors. */
    ghost predicate Holds(cs: seq<Ckv>)
      reads this, list
    {
      && |lookup| == |Known(cs)| && (forall i | 0 <= i < |lookup| :: EntryCkv(db, lookup[i]) == cs[i])
      && numKeyVectors == baseNum + |cs| && listSize == baseSize + 4 * |ListWords(cs)|
      && (list.Length > 0 ==>
            && off == |ListWords(cs)| <= list.Length && 4 * off <= expectedSize <= 4 * list.Length
            && list[..off] == ListWords(cs))
    }

    predicate Fit(cs: seq<Ckv>) {
      list.Length > 0 ==> 4 * |ListWords(cs)| <= expectedSize
    }

    lemma LookupHolds(cs: seq<Ckv>)
      requires Holds(cs)
      ensures |lookup| == |Known(cs)| && forall i | 0 <= i < |lookup| :: EntryCkv(db, lookup[i]) == Known(cs)[i]
    {
      hide ListWords, EntryCkv;
    }

    /** LookupContainsCKV. */
    method LookupContains(c: Ckv, ghost cs: seq<Ckv>) returns (contains: bool)
      requires Holds(cs) && |c.keys| == |c.values|
      ensures contains == (c in Known(cs))
    {
      hide Known, Holds, WordList;
      LookupHolds(cs);
      ghost var known := Known(cs);
      for i := 0 to |lookup|
        invariant c !in known[..i]
      {
        var e := lookup[i];
        assert EntryCkv(db, e) == known[i];
        assert known[..i + 1] == known[..i] + [known[i]];
        var numKeys: nat := Word(db.file, e.keyOff);
        if numKeys != |c.keys| {
          continue;
        }
        if numKeys == 0 {
          return true;
        }
        if c.keys != WordList(db.file, e.keyOff + 4, numKeys) {
          continue;
        }
        if c.values == WordList(db.file, e.valueOff, numKeys) {
          return true;
        }
      }
      assert known[..|lookup|] == known;
      contains := false;
    }

    /** The number of keys, then the zipped vector, each checked against the size the client gave. */
    method WriteVector(c: Ckv) returns (status: Status)
      requires Even(c) && off <= list.Length && 4 * off <= expectedSize <= 4 * list.Length
      modifies this`off, list
      ensures status == if 4 * (old(off) + 1 + 2 * |c.keys|) <= expectedSize then EOK else ENEEDMORE
      ensures status == EOK ==>
        && off == old(off) + 1 + 2 * |c.keys| <= list.Length
        && list[..off] == old(list[..off]) + [|c.keys|] + Zip(c.keys, c.values)
    {
      hide Zip;
      var n := |c.keys|;
      var ckv := new u32[2 * n];
      status := Zip1(c.keys, c.values, ckv);
      if 4 * off + 4 > expectedSize {
        return ENEEDMORE;
      }
      ghost var words := list[..off];
      list[off] := n;
      off := off + 1;
      if n == 0 {
        assert list[..off] == words + [n] + ckv[..];
        return EOK;
      }
      if 4 * off + n * 8 > expectedSize {
        return ENEEDMORE;
      }
      CopyWords(list, off, ckv[..]);
      off := off + 2 * n;
      assert list[..off] == words + [n] + ckv[..];
      status := EOK;
    }

    /** A vector not seen before: into the lookup while there is room, and into the list if there is one. */
    method AddVector(c: Ckv, e: LutEntry, ghost cs: seq<Ckv>) returns (status: Status)
      requires Holds(cs) && Even(c) && EntryCkv(db, e) == c
      modifies this`numKeyVectors, this`listSize, this`lookup, this`off, list
      ensures status == if !Fit(cs + [c]) then ENEEDMORE
                        else if list.Length == 0 && |cs| >= MAX_ENTRIES then EBADPARAM else EOK
      ensures status != ENEEDMORE ==> Holds(cs + [c])
    {
      hide ListWords, EntryCkv, Known, Zip, Even;
      ListSnoc(cs, c);
      KnownSnoc(cs, c);
      status := EBADPARAM;
      if |lookup| < MAX_ENTRIES {
        lookup := lookup + [e];
        status := EOK;
      }
      numKeyVectors := numKeyVectors + 1;
      listSize := listSize + 4 + |c.keys| * 8;
      if list.Length == 0 {
        return;
      }
      status := WriteVector(c);
    }

    /** GetAllAudioCKVVariations: the vectors of one key table that the lookup does not know. */
    method AddTable(t: TableRef, ghost seen: seq<Ckv>) returns (status: Status)
      requires Holds(Entered(seen))
      modifies this`numKeyVectors, this`listSize, this`lookup, this`off, list
      ensures var cs := TableCkvs(db, t, RowCount(db, t));
        && status == (if !Matches(db, t) then EFAILED
                      else if !Fit(Entered(seen + cs)) then ENEEDMORE
                      else if list.Length == 0 && LastRefused(seen, cs) then EBADPARAM
                      else EOK)
        && (status == EOK || status == EBADPARAM ==> Holds(Entered(seen + cs)))
    {
      hide Entered, Known, RowCkv, Holds, Even, EntryCkv, RowOffset, ListWords, Word;
      var keys := KeyIds(db, t);
      var numKeys := |keys|;
      if numKeys != Word(db.file, db.lut + t.lutOff) {
        return EFAILED;
      }
      var n: nat := Word(db.file, db.lut + t.lutOff + 4);
      var offset := db.lut + t.lutOff + 8;
      ghost var all := seen + TableCkvs(db, t, n);
      FirstValue(db, t);
      assert seen + [] == seen;
      status := EOK;
      for i := 0 to n
        invariant offset == RowOffset(db, t, numKeys, i)
        invariant Holds(Entered(seen + TableCkvs(db, t, i)))
        invariant status == if list.Length == 0 && LastRefused(seen, TableCkvs(db, t, i)) then EBADPARAM else EOK
      {
        ghost var done := seen + TableCkvs(db, t, i);
        RowValues(db, t, i);
        EntryOfRow(db, t, i);
        assert seen + TableCkvs(db, t, i + 1) == done + [RowCkv(db, t, i)];
        assert TableCkvs(db, t, i + 1)[..i] == TableCkvs(db, t, i);
        EnteredSnoc(done, RowCkv(db, t, i));
        assert seen + TableCkvs(db, t, i + 1) <= all;
        SizeGrows(seen + TableCkvs(db, t, i + 1), all);
        var c := Ckv(keys, WordList(db.file, offset, numKeys));
        var e := LutEntry(db.keyTbl + t.keyOff, offset);
        offset := offset + 4 * numKeys + 12;
        var contains := LookupContains(c, Entered(done));
        status := EOK;
        if contains {
          continue;
        }
        status := AddVector(c, e, Entered(done));
        if status == ENEEDMORE {
          return;
        }
      }
      FitsHeld(Entered(all));
    }

    /** The tables of one subgraph, from the first entry on. */
    method AddTables(base: nat, count: nat, ghost ts: seq<TableRef>, ghost before: seq<TableRef>)
      returns (status: Status)
      requires At(db.file, base, Flat(TableRefBytes, ts)) && count == |ts|
      requires AllMatch(db, before) && Holds(Entered(CkvsOf(db, before)))
      requires list.Length == 0 ==> SizeStatus(db, before) == EOK
      modifies this`numKeyVectors, this`listSize, this`lookup, this`off, list
      ensures status == TablesStatus(before + ts)
      ensures status == EOK ==> AllMatch(db, before + ts) && Holds(Entered(CkvsOf(db, before + ts)))
    {
      hide At, Entered, Holds, Word, Matches, CkvsOf, AllMatch, ListWords, Flat, TableCkvs, SizeStatus, LastRefused;
      assert before + ts[..0] == before;
      for j := 0 to count
        invariant AllMatch(db, before + ts[..j]) && Holds(Entered(CkvsOf(db, before + ts[..j])))
        invariant list.Length == 0 ==> SizeStatus(db, before + ts[..j]) == EOK
      {
        RefAt(db.file, base, ts, j);
        var t := TableRef(Word(db.file, base + 8 * j), Word(db.file, base + 8 * j + 4));
        ghost var done := before + ts[..j];
        assert before + ts[..j + 1] == done + [t];
        assert before + ts == (done + [t]) + ts[j + 1..];
        CkvsSnoc(db, done, t);
        CkvsGrow(db, done + [t], ts[j + 1..]);
        SizeGrows(CkvsOf(db, done + [t]), CkvsOf(db, before + ts));
        SizeStatusNext(db, done, t, ts[j + 1..]);
        FitsHeld(Entered(CkvsOf(db, done)));
        status := AddTable(t, CkvsOf(db, done));
        if status != EOK {
          return;
        }
      }
      assert before + ts[..count] == before + ts;
      FitsHeld(Entered(CkvsOf(db, before + ts)));
      status := EOK;
    }

    /** The status after some tables: only a data query notices what does not fit, only a size query a full lookup. */
    function TablesStatus(ts: seq<TableRef>): Status {
      if list.Length == 0 then SizeStatus(db, ts)
      else if !Fit(Entered(CkvsOf(db, ts))) then ENEEDMORE
      else if AllMatch(db, ts) then EOK
      else EFAILED
    }

    lemma FitsHeld(cs: seq<Ckv>)
      requires Holds(cs)
      ensures Fit(cs)
    {
    }

    /** SearchSubgraphCalLut2: a scan from the start of the LUT; a subgraph without entries counts as missing. */
    method SearchSubgraph(id: u32, ghost lut: seq<SgTables>) returns (status: Status, count: nat, offset: nat)
      requires LutAt(db, lut) && Word(db.file, db.sgLut) == |lut|
      ensures var at := ScanFinds(lut, id, 0);
        if at.Some? && lut[at.value].tables != [] then
          && status == EOK && count == |lut[at.value].tables|
          && At(db.file, offset, Flat(TableRefBytes, lut[at.value].tables))
        else status == ENOTEXIST
    {
      hide At, Word, Flat, SgBytes;
      var numSubgraphs := Word(db.file, db.sgLut);
      offset, count := db.sgLut + 4, 0;
      FlatStart(lut);
      for i := 0 to numSubgraphs
        invariant offset == db.sgLut + 4 + |Flat(SgBytes, lut[..i])|
        invariant ScanFinds(lut, id, 0) == ScanFinds(lut, id, i)
      {
        FlatAt(SgBytes, lut, i, db.file, db.sgLut + 4);
        SgAt(db.file, offset, lut[i]);
        var sgId := Word(db.file, offset);
        count := Word(db.file, offset + 4);
        offset := offset + 8;
        if sgId == id {
          status := if count == 0 then ENOTEXIST else EOK;
          return;
        }
        offset := offset + 8 * count;
      }
      status := ENOTEXIST;
    }

    /** BuildCalKeyVectorList for a database without voice calibration. The status is that of the last subgraph. */
    method Build(sgListOff: nat, ghost lut: seq<SgTables>) returns (status: Status)
      requires LutAt(db, lut) && Word(db.file, db.sgLut) == |lut| && Holds([])
      modifies this`numKeyVectors, this`listSize, this`lookup, this`off, list
      ensures var sgIds := SgIds(db, sgListOff);
        var ts := TablesOf(lut, sgIds);
        && status == (if TablesStatus(ts) != EOK then TablesStatus(ts)
                      else if LastMissing(lut, sgIds) then ENOTEXIST
                      else EOK)
        && (TablesStatus(ts) == EOK ==> Holds(Entered(CkvsOf(db, ts))))
    {
      hide At, Flat, Entered, Holds, Word, CkvsOf, AllMatch, ListWords, LutAt, ScanFinds, TablesOf, LastMissing, SgIds;
      hide SizeStatus;
      var offset := db.pool + sgListOff;
      var numSubgraphs := Word(db.file, offset + 4);
      ghost var sgIds, start := SgIds(db, sgListOff), offset + 8;
      offset := offset + 8;
      status := EOK;
      NothingListed(db, lut, sgIds);
      for i := 0 to numSubgraphs
        invariant offset == SgListEnd(db.file, start, i)
        invariant status == if LastMissing(lut, sgIds[..i]) then ENOTEXIST else EOK
        invariant var ts := TablesOf(lut, sgIds[..i]); AllMatch(db, ts) && Holds(Entered(CkvsOf(db, ts)))
        invariant list.Length == 0 ==> SizeStatus(db, TablesOf(lut, sgIds[..i])) == EOK
      {
        var id := Word(db.file, offset);
        offset := offset + 8 + 4 * Word(db.file, offset + 4);
        SgIdAt(db, sgListOff, i);
        TablesNext(db, lut, sgIds, i);
        var count, base;
        status, count, base := SearchSubgraph(id, lut);
        if status == ENOTEXIST {
          continue;
        }
        status := AddTables(base, count, lut[ScanFinds(lut, id, 0).value].tables, TablesOf(lut, sgIds[..i]));
        if status != EOK {
          return;
        }
      }
      assert sgIds[..numSubgraphs] == sgIds;
      FitsHeld(Entered(CkvsOf(db, TablesOf(lut, sgIds))));
    }
  }

  lemma {:induction false} SizeStatusGrows(db: CalDb, a: seq<TableRef>, b: seq<TableRef>)
    requires SizeStatus(db, a) != EOK
    ensures SizeStatus(db, a + b) == SizeStatus(db, a)
  {
    hide Matches, LastRefused, CkvsOf, TableCkvs;
    if b == [] {
      assert a + b == a;
    } else {
      SizeStatusGrows(db, a, b[..|b| - 1]);
      assert (a + b)[..|a + b| - 1] == a + b[..|b| - 1];
    }
  }

  lemma SizeStatusNext(db: CalDb, done: seq<TableRef>, t: TableRef, rest: seq<TableRef>)
    ensures SizeStatus(db, done) == EOK ==>
      SizeStatus(db, done + [t]) ==
      if !Matches(db, t) then EFAILED
      else if LastRefused(CkvsOf(db, done), TableCkvs(db, t, RowCount(db, t))) then EBADPARAM
      else EOK
    ensures SizeStatus(db, done + [t]) != EOK ==> SizeStatus(db, done + [t] + rest) == SizeStatus(db, done + [t])
  {
    hide Matches, LastRefused, CkvsOf, TableCkvs;
    assert (done + [t])[..|done|] == done;
    if SizeStatus(db, done + [t]) != EOK {
      SizeStatusGrows(db, done + [t], rest);
    }
  }

  lemma FlatStart(lut: seq<SgTables>)
    ensures |Flat(SgBytes, lut[..0])| == 0
  {
  }

  // ---------------------------------------------------------------- the subgraph list of a use case

  /** Behind the first n objects of a subgraph list, each with its destinations. */
  function SgListEnd(file: seq<byte>, off: nat, n: nat): nat {
    if n == 0 then off
    else
      var o := SgListEnd(file, off, n - 1);
      o + 8 + 4 * Word(file, o + 4)
  }

  function SgIds(db: CalDb, sgListOff: nat): (r: seq<u32>)
    ensures |r| == Word(db.file, db.pool + sgListOff + 4)
  {
    seq(Word(db.file, db.pool + sgListOff + 4), i requires 0 <= i < Word(db.file, db.pool + sgListOff + 4) =>
      Word(db.file, SgListEnd(db.file, db.pool + sgListOff + 8, i)))
  }

  lemma SgIdAt(db: CalDb, sgListOff: nat, i: nat)
    requires i < |SgIds(db, sgListOff)|
    ensures SgIds(db, sgListOff)[i] == Word(db.file, SgListEnd(db.file, db.pool + sgListOff + 8, i))
  {
  }

  predicate LastMissing(lut: seq<SgTables>, sgIds: seq<u32>) {
    sgIds != [] && var at := ScanFinds(lut, sgIds[|sgIds| - 1], 0); at.None? || lut[at.value].tables == []
  }

  lemma NothingListed(db: CalDb, lut: seq<SgTables>, sgIds: seq<u32>)
    ensures TablesOf(lut, sgIds[..0]) == [] && AllMatch(db, [])
    ensures Entered(CkvsOf(db, [])) == [] && SizeStatus(db, []) == EOK
    ensures !LastMissing(lut, sgIds[..0])
  {
  }

  /** The tables up to a subgraph, and what they list, are part of the whole. */
  lemma TablesNext(db: CalDb, lut: seq<SgTables>, sgIds: seq<u32>, i: nat)
    requires i < |sgIds|
    ensures var at, before := ScanFinds(lut, sgIds[i], 0), TablesOf(lut, sgIds[..i]);
      TablesOf(lut, sgIds[..i + 1]) ==
      if at.Some? && lut[at.value].tables != [] then before + lut[at.value].tables else before
    ensures var after, all := TablesOf(lut, sgIds[..i + 1]), TablesOf(lut, sgIds);
      && |ListWords(Entered(CkvsOf(db, after)))| <= |ListWords(Entered(CkvsOf(db, all)))|
      && (SizeStatus(db, after) != EOK ==> SizeStatus(db, all) == SizeStatus(db, after))
      && (!AllMatch(db, after) ==> CkvsOf(db, all) == CkvsOf(db, after) && !AllMatch(db, all))
    ensures LastMissing(lut, sgIds[..i + 1]) <==>
            ScanFinds(lut, sgIds[i], 0).None? || lut[ScanFinds(lut, sgIds[i], 0).value].tables == []
  {
    hide CkvsOf, AllMatch, Entered, ListWords, SizeStatus;
    assert sgIds[..i + 1][..i] == sgIds[..i] && TablesOf(lut, sgIds[..i]) + [] == TablesOf(lut, sgIds[..i]);
    var after, all := TablesOf(lut, sgIds[..i + 1]), TablesOf(lut, sgIds);
    var rest := TablesRest(lut, sgIds, i + 1);
    CkvsGrow(db, after, rest);
    if SizeStatus(db, after) != EOK {
      SizeStatusGrows(db, after, rest);
    }
    SizeGrows(CkvsOf(db, after), CkvsOf(db, all));
  }

  lemma {:induction false} TablesRest(lut: seq<SgTables>, sgIds: seq<u32>, i: nat) returns (rest: seq<TableRef>)
    requires i <= |sgIds|
    ensures TablesOf(lut, sgIds) == TablesOf(lut, sgIds[..i]) + rest
    decreases |sgIds|
  {
    if i == |sgIds| {
      assert sgIds[..i] == sgIds;
      rest := [];
    } else {
      var n := |sgIds| - 1;
      var before := TablesRest(lut, sgIds[..n], i);
      var at := ScanFinds(lut, sgIds[n], 0);
      assert sgIds[..n][..i] == sgIds[..i];
      rest := if at.Some? then before + lut[at.value].tables else before;
    }
  }

  lemma FirstValue(db: CalDb, t: TableRef)
    ensures RowOffset(db, t, |KeyIds(db, t)|, 0) == db.lut + t.lutOff + 8 && TableCkvs(db, t, 0) == []
  {
  }

  /** The values of row i, and where those of the next row are. */
  lemma RowValues(db: CalDb, t: TableRef, i: nat)
    requires i < RowCount(db, t)
    ensures var n := |KeyIds(db, t)|;
      && RowCkv(db, t, i) == Ckv(KeyIds(db, t), WordList(db.file, RowOffset(db, t, n, i), n))
      && RowOffset(db, t, n, i + 1) == RowOffset(db, t, n, i) + 4 * n + 12
  {
    hide Word;
    var n := |KeyIds(db, t)|;
    assert WordList(db.file, RowOffset(db, t, n, i), n + 3)[..n] == WordList(db.file, RowOffset(db, t, n, i), n);
  }

  lemma ListSnoc(cs: seq<Ckv>, c: Ckv)
    requires Even(c)
    ensures ListWords(cs + [c]) == ListWords(cs) + [|c.keys|] + Zip(c.keys, c.values)
  {
    FlatSnoc(CkvWords, cs, c);
  }

  // ---------------------------------------------------------------- the list in terms of the request

  /** Some row of the table's values makes this vector with its keys. */
  predicate TableHas(db: CalDb, t: TableRef, c: Ckv) {
    var n := |KeyIds(db, t)|;
    && c.keys == KeyIds(db, t)
    && exists r: nat | r < RowCount(db, t) :: c.values == WordList(db.file, RowOffset(db, t, n, r), n)
  }

  /** Some table of a subgraph that the LUT has makes the vector. */
  predicate SubgraphHas(db: CalDb, lut: seq<SgTables>, sgId: u32, c: Ckv) {
    var at := ScanFinds(lut, sgId, 0);
    at.Some? && exists t | t in lut[at.value].tables :: TableHas(db, t, c)
  }

  lemma TableHasRows(db: CalDb, t: TableRef, c: Ckv)
    ensures c in TableCkvs(db, t, RowCount(db, t)) <==> TableHas(db, t, c)
  {
    hide Word, RowOffset;
    var n, cs := |KeyIds(db, t)|, TableCkvs(db, t, RowCount(db, t));
    forall r: nat | r < RowCount(db, t)
      ensures cs[r] == Ckv(KeyIds(db, t), WordList(db.file, RowOffset(db, t, n, r), n))
    {
      RowValues(db, t, r);
    }
    if TableHas(db, t, c) {
      var r: nat :| r < RowCount(db, t) && c.values == WordList(db.file, RowOffset(db, t, n, r), n);
      assert cs[r] == c;
    }
  }

  lemma {:induction false} CkvsHave(db: CalDb, ts: seq<TableRef>, c: Ckv)
    requires AllMatch(db, ts)
    ensures c in CkvsOf(db, ts) <==> exists t | t in ts :: TableHas(db, t, c)
  {
    hide TableHas, TableCkvs, Matches, RowCount;
    if ts != [] {
      var init, last := ts[..|ts| - 1], ts[|ts| - 1];
      assert ts == init + [last];
      assert forall i | 0 <= i < |init| :: init[i] == ts[i];
      CkvsHave(db, init, c);
      TableHasRows(db, last, c);
    }
  }

  lemma {:induction false} TablesHave(db: CalDb, lut: seq<SgTables>, sgIds: seq<u32>, c: Ckv)
    ensures (exists t | t in TablesOf(lut, sgIds) :: TableHas(db, t, c)) <==>
            exists id | id in sgIds :: SubgraphHas(db, lut, id, c)
  {
    hide TableHas, ScanFinds;
    if sgIds != [] {
      var init, last := sgIds[..|sgIds| - 1], sgIds[|sgIds| - 1];
      assert sgIds == init + [last];
      TablesHave(db, lut, init, c);
      var at := ScanFinds(lut, last, 0);
      var tables := if at.Some? then lut[at.value].tables else [];
      assert TablesOf(lut, sgIds) == TablesOf(lut, init) + tables;
      assert SubgraphHas(db, lut, last, c) <==> exists t | t in tables :: TableHas(db, t, c);
      if t :| t in TablesOf(lut, sgIds) && TableHas(db, t, c) {
        assert t in TablesOf(lut, init) || t in tables;
      }
      if t :| t in tables && TableHas(db, t, c) {
        assert t in TablesOf(lut, sgIds);
      }
      if t :| t in TablesOf(lut, init) && TableHas(db, t, c) {
        assert t in TablesOf(lut, sgIds);
      }
    }
  }

  /**
    With room in the lookup the list is that of the request: a vector is in it exactly if a row of a table of a
    requested subgraph makes it, and then once.
   */
  lemma ListOfRequest(db: CalDb, lut: seq<SgTables>, sgIds: seq<u32>, c: Ckv)
    requires AllMatch(db, TablesOf(lut, sgIds))
    requires |Dedup(CkvsOf(db, TablesOf(lut, sgIds)))| <= MAX_ENTRIES
    ensures var list := Entered(CkvsOf(db, TablesOf(lut, sgIds)));
      Distinct(list) && (c in list <==> exists id | id in sgIds :: SubgraphHas(db, lut, id, c))
  {
    hide CkvsOf, TablesOf, Dedup, Entered, SubgraphHas, TableHas, AllMatch;
    var cs := CkvsOf(db, TablesOf(lut, sgIds));
    EnteredIsDedup(cs);
    DedupMeans(cs);
    CkvsHave(db, TablesOf(lut, sgIds), c);
    TablesHave(db, lut, sgIds, c);
  }

  /** A subgraph of a use case with its destinations, as the subgraph list has them. */
  datatype SgObj = SgObj(id: u32, destinations: seq<u32>)

  function SgObjWords(o: SgObj): seq<u32> {
    [o.id, Low32(|o.destinations|)] + o.destinations
  }

  /** Behind the first k objects, by their words. */
  lemma {:induction false} SgListEndAt(file: seq<byte>, off: nat, ws: seq<u32>, objs: seq<SgObj>, k: nat)
    requires k <= |objs| && ws == Flat(SgObjWords, objs) && At(file, off, Words(ws))
    requires forall i | 0 <= i < |objs| :: |objs[i].destinations| < WORD_LIMIT
    ensures SgListEnd(file, off, k) == off + 4 * |Flat(SgObjWords, objs[..k])|
    ensures k < |objs| ==> Word(file, SgListEnd(file, off, k)) == objs[k].id
  {
    hide At, Words, Word, Flat;
    if k > 0 {
      SgListEndAt(file, off, ws, objs, k - 1);
      SgObjAt(file, off, ws, objs, k - 1);
    } else {
      assert Flat(SgObjWords, objs[..0]) == [] by { NoObjs(objs); }
    }
    if k < |objs| {
      SgObjAt(file, off, ws, objs, k);
    }
  }

  lemma NoObjs(objs: seq<SgObj>)
    ensures Flat(SgObjWords, objs[..0]) == []
  {
  }

  lemma SgObjAt(file: seq<byte>, off: nat, ws: seq<u32>, objs: seq<SgObj>, k: nat)
    requires k < |objs| && ws == Flat(SgObjWords, objs) && At(file, off, Words(ws))
    requires |objs[k].destinations| < WORD_LIMIT
    ensures var at := |Flat(SgObjWords, objs[..k])|;
      && Word(file, off + 4 * at) == objs[k].id && Word(file, off + 4 * at + 4) == |objs[k].destinations|
      && |Flat(SgObjWords, objs[..k + 1])| == at + 2 + |objs[k].destinations|
  {
    hide At, Words, Word, Flat;
    var at, o := |Flat(SgObjWords, objs[..k])|, objs[k];
    assert objs == objs[..k + 1] + objs[k + 1..] && objs[..k + 1] == objs[..k] + [o];
    FlatSnoc(SgObjWords, objs[..k], o);
    FlatConcat(SgObjWords, objs[..k + 1], objs[k + 1..]);
    assert ws[at] == o.id && ws[at + 1] == |o.destinations|;
    WordRead(file, off, ws, at);
    WordRead(file, off, ws, at + 1);
    assert off + 4 * (at + 1) == off + 4 * at + 4;
  }

  /** A subgraph list in the file reads back: the ids of its objects, whatever destinations lie between them. */
  lemma SgIdsRead(db: CalDb, sgListOff: nat, objs: seq<SgObj>)
    requires forall i | 0 <= i < |objs| :: |objs[i].destinations| < WORD_LIMIT
    requires Word(db.file, db.pool + sgListOff + 4) == |objs|
    requires At(db.file, db.pool + sgListOff + 8, Words(Flat(SgObjWords, objs)))
    ensures |SgIds(db, sgListOff)| == |objs| && forall i | 0 <= i < |objs| :: SgIds(db, sgListOff)[i] == objs[i].id
  {
    hide At, Words, Word, Flat, SgListEnd;
    forall i | 0 <= i < |objs|
      ensures SgIds(db, sgListOff)[i] == objs[i].id
    {
      SgListEndAt(db.file, db.pool + sgListOff + 8, Flat(SgObjWords, objs), objs, i);
    }
  }
}
