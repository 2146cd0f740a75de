/** Which row of a key table a calibration key vector selects, and which rows an incremental query may skip. */
module CalFind {
  import opened Bytes
  import opened Search
  import opened CalKeys

  /** The file and the offsets of the chunks an audio calibration query reads. */
  datatype CalDb = CalDb(file: seq<byte>, sgLut: nat, sgLutSize: nat, keyTbl: nat, lut: nat, def: nat, dot: nat,
                         pool: nat, persistentPids: set<u32>)

  /** AcdbCalKeyTblEntry: where the key ids and the value rows of one key table are. */
  datatype TableRef = TableRef(keyOff: u32, lutOff: u32)

  function KeyIds(db: CalDb, t: TableRef): seq<u32> {
    WordList(db.file, db.keyTbl + t.keyOff + 4, Word(db.file, db.keyTbl + t.keyOff))
  }

  function RowCount(db: CalDb, t: TableRef): nat {
    Word(db.file, db.lut + t.lutOff + 4)
  }

  /** Where row i of n values starts. */
  function RowOffset(db: CalDb, t: TableRef, n: nat, i: nat): nat {
    db.lut + t.lutOff + 8 + i * (4 * (n + 3))
  }

  /** The value rows: one value per key, then the offsets into DEF, DOT and DOT2. */
  function Rows(db: CalDb, t: TableRef, n: nat): (r: seq<seq<u32>>)
    ensures |r| == RowCount(db, t) && forall i | 0 <= i < |r| :: |r[i]| == n + 3
  {
    seq(RowCount(db, t), i requires 0 <= i < RowCount(db, t) =>
      WordList(db.file, RowOffset(db, t, n, i), n + 3))
  }

  /** Rows are sorted by value, and the row header repeats the key count of the key table. */
  ghost predicate TableFits(db: CalDb, t: TableRef) {
    var n := |KeyIds(db, t)|;
    SortedRows(Rows(db, t, n), n) && Word(db.file, db.lut + t.lutOff) == n
  }

  // ---------------------------------------------------------------- selecting a row

  /** A row, and the module's own key vector that selected it. */
  datatype Found = Missing | Broken | Match(mckv: seq<KeyValue>, defOff: u32, dotOff: u32)

  /** The values of those keys that the vector has, in key order. */
  function FoundValues(keys: seq<u32>, kvs: seq<KeyValue>): (r: seq<u32>)
    ensures |r| <= |keys|
  {
    if keys == [] then []
    else
      var before, v := FoundValues(keys[..|keys| - 1], kvs), Lookup(kvs, keys[|keys| - 1]);
      if v.Some? then before + [v.value] else before
  }

  predicate Covers(kvs: seq<KeyValue>, keys: seq<u32>) {
    forall i | 0 <= i < |keys| :: Lookup(kvs, keys[i]).Some?
  }

  predicate Touches(delta: seq<KeyValue>, keys: seq<u32>) {
    exists i | 0 <= i < |keys| :: Lookup(delta, keys[i]).Some?
  }

  /** Each key with its value; a key without one is left with what the scratch buffer held. */
  function ModuleCkv(keys: seq<u32>, kvs: seq<KeyValue>, scratch: seq<u32>): (r: seq<KeyValue>)
    requires 2 * |keys| <= |scratch|
    ensures |r| == |keys|
  {
    seq(|keys|, k requires 0 <= k < |keys| =>
      KeyValue(keys[k], if Lookup(kvs, keys[k]).Some? then Lookup(kvs, keys[k]).value else scratch[2 * k + 1]))
  }

  /** The values searched for; behind those that were found, the scratch buffer shows through. */
  function SearchKey(keys: seq<u32>, kvs: seq<KeyValue>, scratch: seq<u32>): (r: seq<u32>)
    requires 3 * |keys| <= |scratch|
    ensures |r| == |keys|
  {
    var values := FoundValues(keys, kvs);
    values + scratch[2 * |keys| + |values|..3 * |keys|]
  }

  function RowFor(db: CalDb, t: TableRef, mckv: seq<KeyValue>, key: seq<u32>): Found
    requires |key| == |KeyIds(db, t)|
  {
    var n := |KeyIds(db, t)|;
    var rows := Rows(db, t, n);
    match FirstMatch(rows, key, n)
    case None => Missing
    case Some(r) => Match(mckv, rows[r][n], rows[r][n + 1])
  }

  /** What AcdbFindModuleCKV finds. */
  function Find(db: CalDb, t: TableRef, ckv: seq<KeyValue>, delta: seq<KeyValue>, isFirstTime: bool,
                scratch: seq<u32>): Found
    requires 3 * |KeyIds(db, t)| <= |scratch|
  {
    var keys := KeyIds(db, t);
    if isFirstTime && ckv == [] && keys != [] then Missing
    else if !isFirstTime && (keys == [] || !Covers(ckv, keys) || !Touches(delta, keys)) then Missing
    else if RowCount(db, t) == 0 then Broken
    else RowFor(db, t, ModuleCkv(keys, ckv, scratch), SearchKey(keys, ckv, scratch))
  }

  function PairWords(kvs: seq<KeyValue>): (r: seq<u32>)
    ensures |r| == 2 * |kvs|
  {
    seq<u32>(2 * |kvs|, i requires 0 <= i < 2 * |kvs| => if i % 2 == 0 then kvs[i / 2].key else kvs[i / 2].value)
  }

  /** The row the search puts into the buffer, if any. */
  function RowLeft(db: CalDb, t: TableRef, ckv: seq<KeyValue>, delta: seq<KeyValue>, isFirstTime: bool,
                   scratch: seq<u32>): (r: Option<seq<u32>>)
    requires 3 * |KeyIds(db, t)| <= |scratch|
    ensures r.Some? ==> |r.value| == |KeyIds(db, t)| + 3
  {
    if !Find(db, t, ckv, delta, isFirstTime, scratch).Match? then None
    else
      var n := |KeyIds(db, t)|;
      match FirstMatch(Rows(db, t, n), SearchKey(KeyIds(db, t), ckv, scratch), n)
      case Some(r) => Some(Rows(db, t, n)[r])
      case None => None
  }

  /** What AcdbFindModuleCKV leaves in the scratch buffer: the pairs, then the row found or the words searched for. */
  function ScratchAfter(db: CalDb, t: TableRef, ckv: seq<KeyValue>, delta: seq<KeyValue>, isFirstTime: bool,
                        scratch: seq<u32>): (r: seq<u32>)
    requires 3 * |KeyIds(db, t)| + 3 <= |scratch|
    ensures |r| == |scratch|
  {
    var keys, n := KeyIds(db, t), |KeyIds(db, t)|;
    PairWords(ModuleCkv(keys, ckv, scratch)) +
    match RowLeft(db, t, ckv, delta, isFirstTime, scratch)
    case Some(row) => row + scratch[3 * n + 3..]
    case None => SearchKey(keys, ckv, scratch) + scratch[3 * n..]
  }

  /** The row a key vector selects in its own right: all keys present, values as listed. */
  function Selected(db: CalDb, t: TableRef, kvs: seq<KeyValue>): Found {
    var keys := KeyIds(db, t);
    if !Covers(kvs, keys) then Missing
    else RowFor(db, t, Pairs(keys, kvs), Values(keys, kvs))
  }

  function Pairs(keys: seq<u32>, kvs: seq<KeyValue>): (r: seq<KeyValue>)
    requires Covers(kvs, keys)
    ensures |r| == |keys|
  {
    seq(|keys|, k requires 0 <= k < |keys| => KeyValue(keys[k], Lookup(kvs, keys[k]).value))
  }

  function Values(keys: seq<u32>, kvs: seq<KeyValue>): (r: seq<u32>)
    requires Covers(kvs, keys)
    ensures |r| == |keys|
  {
    seq(|keys|, k requires 0 <= k < |keys| => Lookup(kvs, keys[k]).value)
  }

  lemma {:induction false} AllFound(keys: seq<u32>, kvs: seq<KeyValue>)
    ensures |FoundValues(keys, kvs)| == |keys| <==> Covers(kvs, keys)
    ensures Covers(kvs, keys) ==> FoundValues(keys, kvs) == Values(keys, kvs)
  {
    hide Lookup;
    if keys != [] {
      var n := |keys| - 1;
      AllFound(keys[..n], kvs);
      assert Covers(kvs, keys) <==> Covers(kvs, keys[..n]) && Lookup(kvs, keys[n]).Some?;
      if Covers(kvs, keys) {
        assert Values(keys, kvs) == Values(keys[..n], kvs) + [Lookup(kvs, keys[n]).value];
      }
    }
  }

  /** With every key present the scratch buffer does not matter: the search finds the row selected. */
  lemma FindCovered(db: CalDb, t: TableRef, ckv: seq<KeyValue>, delta: seq<KeyValue>, isFirstTime: bool,
                    scratch: seq<u32>)
    requires 3 * |KeyIds(db, t)| <= |scratch| && Covers(ckv, KeyIds(db, t))
    requires isFirstTime || (KeyIds(db, t) != [] && Touches(delta, KeyIds(db, t)))
    ensures Find(db, t, ckv, delta, isFirstTime, scratch) ==
            if RowCount(db, t) == 0 then Broken else Selected(db, t, ckv)
  {
    hide Rows, FirstMatch, WordList, Lookup;
    var keys := KeyIds(db, t);
    AllFound(keys, ckv);
    if keys != [] {
      assert Lookup(ckv, keys[0]).Some?;
    }
    assert SearchKey(keys, ckv, scratch) == Values(keys, ckv);
    assert ModuleCkv(keys, ckv, scratch) == Pairs(keys, ckv);
  }

  /** Row r is the first one with the values searched for, and these are the words behind its values. */
  ghost predicate RowIs(db: CalDb, t: TableRef, key: seq<u32>, r: nat, defOff: u32, dotOff: u32) {
    var n := |key|;
    && r < RowCount(db, t)
    && WordList(db.file, RowOffset(db, t, n, r), n) == key
    && (forall i: nat | i < r :: WordList(db.file, RowOffset(db, t, n, i), n) != key)
    && defOff == Word(db.file, RowOffset(db, t, n, r) + 4 * n)
    && dotOff == Word(db.file, RowOffset(db, t, n, r) + 4 * n + 4)
  }

  /** A row found is one of the file, with its DEF offset in front of its DOT offset. */
  lemma RowForMeans(db: CalDb, t: TableRef, mckv: seq<KeyValue>, key: seq<u32>) returns (r: nat)
    requires |key| == |KeyIds(db, t)| && RowFor(db, t, mckv, key).Match?
    ensures var found := RowFor(db, t, mckv, key);
      found.mckv == mckv && RowIs(db, t, key, r, found.defOff, found.dotOff)
  {
    hide KeyIds, Word, RowOffset;
    var n := |key|;
    var rows := Rows(db, t, n);
    r := FirstMatch(rows, key, n).value;
    assert key[..n] == key;
    forall i: nat | i <= r
      ensures rows[i][..n] == WordList(db.file, RowOffset(db, t, n, i), n)
    {
      WordListPrefix(db.file, RowOffset(db, t, n, i), n, n + 3);
    }
    WordListIndex(db.file, RowOffset(db, t, n, r), n + 3, n);
    WordListIndex(db.file, RowOffset(db, t, n, r), n + 3, n + 1);
  }

  lemma WordListPrefix(file: seq<byte>, off: nat, n: nat, m: nat)
    requires n <= m
    ensures WordList(file, off, m)[..n] == WordList(file, off, n)
  {
    hide Word;
  }

  lemma WordListIndex(file: seq<byte>, off: nat, n: nat, i: nat)
    requires i < n
    ensures WordList(file, off, n)[i] == Word(file, off + 4 * i)
  {
  }

  // ---------------------------------------------------------------- when the scratch buffer matters

  /** Some row begins with the values that the vector has for the table's keys. */
  predicate SomeRowStartsWith(db: CalDb, t: TableRef, values: seq<u32>) {
    var rows := Rows(db, t, |KeyIds(db, t)|);
    exists i | 0 <= i < |rows| :: values <= rows[i]
  }

  /**
    A first query does not ask for all keys. It still cannot tell left-over words apart if the vector has
    all keys of the table, or if no row has the values it does have.
   */
  predicate ScratchFree(db: CalDb, t: TableRef, ckv: seq<KeyValue>, isFirstTime: bool) {
    var keys := KeyIds(db, t);
    isFirstTime && ckv != [] && RowCount(db, t) > 0 ==>
      Covers(ckv, keys) || !SomeRowStartsWith(db, t, FoundValues(keys, ckv))
  }

  ghost predicate ScratchIgnored(db: CalDb, t: TableRef, ckv: seq<KeyValue>, delta: seq<KeyValue>, isFirstTime: bool) {
    var n := 3 * |KeyIds(db, t)|;
    forall a: seq<u32>, b: seq<u32> | |a| >= n && |b| >= n ::
      Find(db, t, ckv, delta, isFirstTime, a) == Find(db, t, ckv, delta, isFirstTime, b)
  }

  /** Exactly when the result does not depend on what an earlier search left in the scratch buffer. */
  lemma ScratchDecides(db: CalDb, t: TableRef, ckv: seq<KeyValue>, delta: seq<KeyValue>, isFirstTime: bool)
    ensures ScratchIgnored(db, t, ckv, delta, isFirstTime) <==> ScratchFree(db, t, ckv, isFirstTime)
  {
    hide Find, ScratchFree, KeyIds;
    var n := 3 * |KeyIds(db, t)|;
    if ScratchFree(db, t, ckv, isFirstTime) {
      forall a: seq<u32>, b: seq<u32> | |a| >= n && |b| >= n
        ensures Find(db, t, ckv, delta, isFirstTime, a) == Find(db, t, ckv, delta, isFirstTime, b)
      {
        FindScratchFree(db, t, ckv, delta, isFirstTime, a);
        FindScratchFree(db, t, ckv, delta, isFirstTime, b);
      }
    } else {
      var a, b := ScratchSeen(db, t, ckv, delta, isFirstTime);
    }
  }

  /** What AcdbFindModuleCKV finds when the scratch buffer has no say. */
  function FindByKeys(db: CalDb, t: TableRef, ckv: seq<KeyValue>, delta: seq<KeyValue>, isFirstTime: bool): Found {
    var keys := KeyIds(db, t);
    if isFirstTime && ckv == [] && keys != [] then Missing
    else if !isFirstTime && (keys == [] || !Covers(ckv, keys) || !Touches(delta, keys)) then Missing
    else if RowCount(db, t) == 0 then Broken
    else Selected(db, t, ckv)
  }

  /** Without all keys a scratch-free search finds nothing. */
  lemma FindUncovered(db: CalDb, t: TableRef, ckv: seq<KeyValue>, delta: seq<KeyValue>, isFirstTime: bool,
                      scratch: seq<u32>)
    requires 3 * |KeyIds(db, t)| <= |scratch| && !Covers(ckv, KeyIds(db, t)) && RowCount(db, t) > 0
    requires ScratchFree(db, t, ckv, isFirstTime)
    ensures Find(db, t, ckv, delta, isFirstTime, scratch) == Missing
  {
    hide Lookup, WordList, FoundValues, RowCount;
    var keys := KeyIds(db, t);
    var n := |keys|;
    var rows, values, key := Rows(db, t, n), FoundValues(keys, ckv), SearchKey(keys, ckv, scratch);
    if isFirstTime && ckv != [] {
      assert forall r | 0 <= r < |rows| :: rows[r][..n] == key[..n] ==> values <= rows[r];
    }
  }

  lemma FindScratchFree(db: CalDb, t: TableRef, ckv: seq<KeyValue>, delta: seq<KeyValue>, isFirstTime: bool,
                        scratch: seq<u32>)
    requires 3 * |KeyIds(db, t)| <= |scratch| && ScratchFree(db, t, ckv, isFirstTime)
    ensures Find(db, t, ckv, delta, isFirstTime, scratch) == FindByKeys(db, t, ckv, delta, isFirstTime)
  {
    hide RowFor, Rows, Lookup, WordList, ScratchFree;
    var keys := KeyIds(db, t);
    if RowCount(db, t) > 0 && !Covers(ckv, keys) {
      FindUncovered(db, t, ckv, delta, isFirstTime, scratch);
    } else if Covers(ckv, keys) && (isFirstTime || (keys != [] && Touches(delta, keys))) {
      FindCovered(db, t, ckv, delta, isFirstTime, scratch);
    }
  }

  /**
    The other way round: put a row with the values found behind the pairs, and the search finds it; then
    the word beside a missing key shows in the module's key vector.
   */
  lemma ScratchSeen(db: CalDb, t: TableRef, ckv: seq<KeyValue>, delta: seq<KeyValue>, isFirstTime: bool)
    returns (a: seq<u32>, b: seq<u32>)
    requires !ScratchFree(db, t, ckv, isFirstTime)
    ensures |a| == |b| == 3 * |KeyIds(db, t)|
    ensures Find(db, t, ckv, delta, isFirstTime, a) != Find(db, t, ckv, delta, isFirstTime, b)
  {
    hide Lookup, KeyIds, Rows, Find, FoundValues;
    var n, rows := |KeyIds(db, t)|, Rows(db, t, |KeyIds(db, t)|);
    var i :| 0 <= i < |rows| && FoundValues(KeyIds(db, t), ckv) <= rows[i];
    var k :| 0 <= k < n && Lookup(ckv, KeyIds(db, t)[k]).None?;
    var low := seq<u32>(2 * n, _ => 0);
    var high := low[2 * k + 1 := 1];
    FindsRow(db, t, ckv, delta, low, i, k);
    FindsRow(db, t, ckv, delta, high, i, k);
    a, b := low + rows[i][..n], high + rows[i][..n];
  }

  lemma FindsRow(db: CalDb, t: TableRef, ckv: seq<KeyValue>, delta: seq<KeyValue>, pairs: seq<u32>, i: nat, k: nat)
    requires ckv != [] && i < RowCount(db, t) && k < |KeyIds(db, t)| && |pairs| == 2 * |KeyIds(db, t)|
    requires Lookup(ckv, KeyIds(db, t)[k]).None?
    requires FoundValues(KeyIds(db, t), ckv) <= Rows(db, t, |KeyIds(db, t)|)[i]
    ensures var found := Find(db, t, ckv, delta, true, pairs + Rows(db, t, |KeyIds(db, t)|)[i][..|KeyIds(db, t)|]);
      found.Match? && |found.mckv| == |KeyIds(db, t)| && found.mckv[k].value == pairs[2 * k + 1]
  {
    hide Lookup, KeyIds, Rows, FoundValues;
    var keys := KeyIds(db, t);
    var key := Rows(db, t, |keys|)[i][..|keys|];
    assert SearchKey(keys, ckv, pairs + key) == key;
    assert key[..|key|] == key;
  }

  // ---------------------------------------------------------------- the scratch buffer, word by word

  /** The words that a search takes from the buffer: beside the keys that are missing, and behind the values found. */
  predicate ReadsWord(db: CalDb, t: TableRef, ckv: seq<KeyValue>, i: nat) {
    var keys := KeyIds(db, t);
    || (i < 2 * |keys| && i % 2 == 1 && Lookup(ckv, keys[i / 2]).None?)
    || 2 * |keys| + |FoundValues(keys, ckv)| <= i < 3 * |keys|
  }

  ghost predicate AgreeWhereRead(db: CalDb, t: TableRef, ckv: seq<KeyValue>, a: seq<u32>, b: seq<u32>)
    requires |a| == |b|
  {
    forall i | 0 <= i < |a| && ReadsWord(db, t, ckv, i) :: a[i] == b[i]
  }

  lemma SameKeyWords(db: CalDb, t: TableRef, ckv: seq<KeyValue>, a: seq<u32>, b: seq<u32>)
    requires 3 * |KeyIds(db, t)| + 3 <= |a| == |b|
    requires Covers(ckv, KeyIds(db, t)) || AgreeWhereRead(db, t, ckv, a, b)
    ensures SearchKey(KeyIds(db, t), ckv, a) == SearchKey(KeyIds(db, t), ckv, b)
    ensures ModuleCkv(KeyIds(db, t), ckv, a) == ModuleCkv(KeyIds(db, t), ckv, b)
  {
    hide KeyIds, Lookup, FoundValues;
    var keys := KeyIds(db, t);
    AllFound(keys, ckv);
    forall k | 0 <= k < |keys| && Lookup(ckv, keys[k]).None?
      ensures a[2 * k + 1] == b[2 * k + 1]
    {
      assert (2 * k + 1) / 2 == k && ReadsWord(db, t, ckv, 2 * k + 1);
    }
    var f := 2 * |keys| + |FoundValues(keys, ckv)|;
    assert forall i | f <= i < 3 * |keys| :: ReadsWord(db, t, ckv, i);
    assert a[f..3 * |keys|] == b[f..3 * |keys|];
  }

  /** Word by word, the part in front of what the search itself puts into the buffer. */
  lemma FilledWords(keys: seq<u32>, kvs: seq<KeyValue>, a: seq<u32>, b: seq<u32>, i: nat)
    requires 3 * |keys| <= |a| == |b| && i < 3 * |keys| && a[i] == b[i]
    ensures (PairWords(ModuleCkv(keys, kvs, a)) + SearchKey(keys, kvs, a))[i] ==
            (PairWords(ModuleCkv(keys, kvs, b)) + SearchKey(keys, kvs, b))[i]
  {
    hide Lookup, FoundValues;
    if i < 2 * |keys| {
      assert i == if i % 2 == 0 then 2 * (i / 2) else 2 * (i / 2) + 1;
    }
  }

  lemma MatchCovered(db: CalDb, t: TableRef, ckv: seq<KeyValue>, delta: seq<KeyValue>, isFirstTime: bool, a: seq<u32>)
    requires 3 * |KeyIds(db, t)| <= |a| && ScratchFree(db, t, ckv, isFirstTime)
    ensures Find(db, t, ckv, delta, isFirstTime, a) == FindByKeys(db, t, ckv, delta, isFirstTime)
    ensures Find(db, t, ckv, delta, isFirstTime, a).Match? ==> Covers(ckv, KeyIds(db, t))
  {
    hide KeyIds, Find, RowFor, ScratchFree;
    FindScratchFree(db, t, ckv, delta, isFirstTime, a);
  }

  lemma SameFound(db: CalDb, t: TableRef, ckv: seq<KeyValue>, delta: seq<KeyValue>, isFirstTime: bool,
                  a: seq<u32>, b: seq<u32>)
    requires 3 * |KeyIds(db, t)| + 3 <= |a| == |b|
    requires ScratchFree(db, t, ckv, isFirstTime) || AgreeWhereRead(db, t, ckv, a, b)
    ensures Find(db, t, ckv, delta, isFirstTime, a) == Find(db, t, ckv, delta, isFirstTime, b)
    ensures RowLeft(db, t, ckv, delta, isFirstTime, a) == RowLeft(db, t, ckv, delta, isFirstTime, b)
  {
    hide KeyIds, Rows, FirstMatch, SearchKey, ModuleCkv, Covers, ScratchFree, AgreeWhereRead;
    if AgreeWhereRead(db, t, ckv, a, b) || Covers(ckv, KeyIds(db, t)) {
      SameKeyWords(db, t, ckv, a, b);
    } else {
      hide Find;
      MatchCovered(db, t, ckv, delta, isFirstTime, a);
      MatchCovered(db, t, ckv, delta, isFirstTime, b);
    }
  }

  /** Buffers that agree where the search reads them, if it does, give the same result and agree as well as before. */
  lemma SameWords(db: CalDb, t: TableRef, ckv: seq<KeyValue>, delta: seq<KeyValue>, isFirstTime: bool,
                  a: seq<u32>, b: seq<u32>)
    requires 3 * |KeyIds(db, t)| + 3 <= |a| == |b|
    requires ScratchFree(db, t, ckv, isFirstTime) || AgreeWhereRead(db, t, ckv, a, b)
    ensures Find(db, t, ckv, delta, isFirstTime, a) == Find(db, t, ckv, delta, isFirstTime, b)
    ensures forall i | 0 <= i < |a| && a[i] == b[i] ::
              ScratchAfter(db, t, ckv, delta, isFirstTime, a)[i] == ScratchAfter(db, t, ckv, delta, isFirstTime, b)[i]
  {
    hide KeyIds, Find, Rows, FirstMatch, SearchKey, ModuleCkv, PairWords, ScratchFree, AgreeWhereRead;
    SameFound(db, t, ckv, delta, isFirstTime, a, b);
    forall i | 0 <= i < |a| && a[i] == b[i]
      ensures ScratchAfter(db, t, ckv, delta, isFirstTime, a)[i] == ScratchAfter(db, t, ckv, delta, isFirstTime, b)[i]
    {
      if i < 3 * |KeyIds(db, t)| {
        FilledWords(KeyIds(db, t), ckv, a, b, i);
      }
    }
  }

  /** The search for a default row always puts it at the front of the buffer. */
  lemma DefaultWords(db: CalDb, t: TableRef, ckv: seq<KeyValue>, delta: seq<KeyValue>, a: seq<u32>, b: seq<u32>)
    requires 3 <= |a| == |b| && KeyIds(db, t) == [] && RowCount(db, t) > 0
    ensures ScratchAfter(db, t, ckv, delta, true, a)[..3] == ScratchAfter(db, t, ckv, delta, true, b)[..3]
  {
    hide KeyIds, WordList;
    assert Rows(db, t, 0)[0][..0] == [];
  }

  lemma FilledKeeps(db: CalDb, t: TableRef, ckv: seq<KeyValue>, a: seq<u32>, i: nat)
    requires 3 * |KeyIds(db, t)| <= |a| && i < 3 * |KeyIds(db, t)| && ReadsWord(db, t, ckv, i)
    ensures (PairWords(ModuleCkv(KeyIds(db, t), ckv, a)) + SearchKey(KeyIds(db, t), ckv, a))[i] == a[i]
  {
    hide KeyIds, Lookup, FoundValues;
    if i < 2 * |KeyIds(db, t)| {
      assert i == 2 * (i / 2) + 1;
    }
  }

  lemma RowKeeps(db: CalDb, t: TableRef, ckv: seq<KeyValue>, delta: seq<KeyValue>, isFirstTime: bool, a: seq<u32>)
    requires 3 * |KeyIds(db, t)| <= |a| && RowLeft(db, t, ckv, delta, isFirstTime, a).Some?
    ensures var n := |KeyIds(db, t)|;
      RowLeft(db, t, ckv, delta, isFirstTime, a).value[..n] == SearchKey(KeyIds(db, t), ckv, a)
  {
    hide KeyIds, WordList, Find, SearchKey;
    var n, key := |KeyIds(db, t)|, SearchKey(KeyIds(db, t), ckv, a);
    assert key[..n] == key;
  }

  /** A search leaves the words it reads, and those behind its row, as they are. */
  lemma KeepsWords(db: CalDb, t: TableRef, ckv: seq<KeyValue>, delta: seq<KeyValue>, isFirstTime: bool, a: seq<u32>)
    requires 3 * |KeyIds(db, t)| + 3 <= |a|
    ensures var a' := ScratchAfter(db, t, ckv, delta, isFirstTime, a);
      forall i | 0 <= i < |a| && (ReadsWord(db, t, ckv, i) || i >= 3 * |KeyIds(db, t)| + 3) :: a'[i] == a[i]
  {
    hide KeyIds, RowLeft, PairWords, ModuleCkv, SearchKey, ReadsWord;
    var n, a' := |KeyIds(db, t)|, ScratchAfter(db, t, ckv, delta, isFirstTime, a);
    var row, key := RowLeft(db, t, ckv, delta, isFirstTime, a), SearchKey(KeyIds(db, t), ckv, a);
    if row.Some? {
      RowKeeps(db, t, ckv, delta, isFirstTime, a);
      assert forall j | 0 <= j < n :: row.value[j] == row.value[..n][j] == key[j];
    }
    forall i | 0 <= i < |a| && (ReadsWord(db, t, ckv, i) || i >= 3 * n + 3)
      ensures a'[i] == a[i]
    {
      if i < 3 * n {
        FilledKeeps(db, t, ckv, a, i);
      } else if i < 3 * n + 3 {
        ReadsInside(db, t, ckv, i);
      }
    }
  }

  lemma ReadsInside(db: CalDb, t: TableRef, ckv: seq<KeyValue>, i: nat)
    requires ReadsWord(db, t, ckv, i)
    ensures i < 3 * |KeyIds(db, t)|
  {
  }

  /**
    A whole database of two subgraphs with one key table each: the subgraph LUT, the key tables, their value
    tables, then a DEF table with one entry, its DOT table and its data.
   */
  function StaleFile(): (ws: seq<u32>)
    ensures |ws| == 34
  {
    [2, 1, 1, 0, 0, 2, 1, 12, 28] + [2, 1, 2, 1, 1] + [2, 1, 7, 9, 0, 0, 0, 1, 1, 7, 0, 0, 9] +
    [1, 0x1001, 0x2001] + [1, 0] + [4, 5]
  }

  function StaleDb(): CalDb {
    CalDb(Words(StaleFile()), 0, 36, 36, 56, 108, 120, 128, {})
  }

  /**
    So two passes over unchanged tables need not agree. The first table has the keys 1 and 2, the second
    only key 1; the vector gives key 1 the value 7, which both have a row for. A first pass over both misses
    the first table and leaves in the buffer the last word of the second one's row, which is just the value
    the first table has for key 2. A second pass finds it.
   */
  lemma StaleWordsDecide(scratch: seq<u32>)
    requires |scratch| >= 9 && scratch[5] != 9
    ensures var db, t1, t2, ckv := StaleDb(), TableRef(0, 0), TableRef(12, 28), [KeyValue(1, 7)];
      && TableFits(db, t1) && TableFits(db, t2) && |KeyIds(db, t1)| == 2 && |KeyIds(db, t2)| == 1
      && var s1 := ScratchAfter(db, t1, ckv, [], true, scratch);
         var s2 := ScratchAfter(db, t2, ckv, [], true, s1);
         && Find(db, t1, ckv, [], true, scratch) == Missing
         && Find(db, t2, ckv, [], true, s1) == Match([KeyValue(1, 7)], 0, 0)
         && Find(db, t1, ckv, [], true, s2) == Match([KeyValue(1, 7), KeyValue(2, s2[3])], 0, 0)
         && Find(db, t2, ckv, [], true, ScratchAfter(db, t1, ckv, [], true, s2)) == Match([KeyValue(1, 7)], 0, 0)
  {
    hide Word, Words, Find, ScratchAfter, KeyIds, Rows, RowCount, TableFits;
    var db, t1, t2, ckv := StaleDb(), TableRef(0, 0), TableRef(12, 28), [KeyValue(1, 7)];
    StaleTables();
    var s1 := ScratchAfter(db, t1, ckv, [], true, scratch);
    var s2 := ScratchAfter(db, t2, ckv, [], true, s1);
    HalfKnown(db, t1, scratch);
    FullyKnown(db, t2, s1);
    HalfKnown(db, t1, s2);
    FullyKnown(db, t2, ScratchAfter(db, t1, ckv, [], true, s2));
  }

  /** The words of the file, by their place. */
  lemma StaleWord(i: nat)
    requires i < 34
    ensures Word(StaleDb().file, 4 * i) == StaleFile()[i]
  {
    hide Word, Words, StaleFile;
    var file := StaleDb().file;
    assert At(file, 0, Words(StaleFile()));
    WordListAt(file, 0, StaleFile());
    assert WordList(file, 0, 34)[i] == Word(file, 4 * i);
  }

  lemma StaleTables()
    ensures var db, t := StaleDb(), TableRef(0, 0);
      KeyIds(db, t) == [1, 2] && RowCount(db, t) == 1 && Rows(db, t, 2) == [[7, 9, 0, 0, 0]] && TableFits(db, t)
    ensures var db, t := StaleDb(), TableRef(12, 28);
      KeyIds(db, t) == [1] && RowCount(db, t) == 1 && Rows(db, t, 1) == [[7, 0, 0, 9]] && TableFits(db, t)
  {
    hide Word, Words;
    var db := StaleDb();
    forall i: nat | i < 34
      ensures Word(db.file, 4 * i) == StaleFile()[i]
    {
      StaleWord(i);
    }
    assert Word(db.file, 4 * 9) == 2 && Word(db.file, 4 * 14) == 2 && Word(db.file, 4 * 15) == 1;
    assert Word(db.file, 4 * 12) == 1 && Word(db.file, 4 * 21) == 1 && Word(db.file, 4 * 22) == 1;
    assert WordList(db.file, 40, 2) == [1, 2] by {
      assert Word(db.file, 4 * 10) == 1 && Word(db.file, 4 * 11) == 2;
    }
    assert WordList(db.file, 52, 1) == [1] by {
      assert Word(db.file, 4 * 13) == 1;
    }
    assert WordList(db.file, 64, 5) == [7, 9, 0, 0, 0] by {
      assert Word(db.file, 4 * 16) == 7 && Word(db.file, 4 * 17) == 9 && Word(db.file, 4 * 18) == 0;
      assert Word(db.file, 4 * 19) == 0 && Word(db.file, 4 * 20) == 0;
    }
    assert WordList(db.file, 92, 4) == [7, 0, 0, 9] by {
      assert Word(db.file, 4 * 23) == 7 && Word(db.file, 4 * 24) == 0;
      assert Word(db.file, 4 * 25) == 0 && Word(db.file, 4 * 26) == 9;
    }
  }

  lemma HalfKnown(db: CalDb, t: TableRef, s: seq<u32>)
    requires KeyIds(db, t) == [1, 2] && RowCount(db, t) == 1 && Rows(db, t, 2) == [[7, 9, 0, 0, 0]] && |s| >= 9
    ensures Find(db, t, [KeyValue(1, 7)], [], true, s) ==
            if s[5] == 9 then Match([KeyValue(1, 7), KeyValue(2, s[3])], 0, 0) else Missing
    ensures s[5] != 9 ==>
      ScratchAfter(db, t, [KeyValue(1, 7)], [], true, s) == [1, 7, 2, s[3], 7, s[5]] + s[6..]
  {
    hide KeyIds, Rows, RowCount;
    var keys, ckv := KeyIds(db, t), [KeyValue(1, 7)];
    assert keys[..1] == [1] && FoundValues([1], ckv) == [7] by {
      assert [1][..0] == [];
    }
    assert SearchKey(keys, ckv, s) == [7, s[5]];
    assert [7, 9, 0, 0, 0][..2] == [7, 9] && [7, s[5]][..2] == [7, s[5]];
    assert ModuleCkv(keys, ckv, s) == [KeyValue(1, 7), KeyValue(2, s[3])];
    assert PairWords(ModuleCkv(keys, ckv, s)) == [1, 7, 2, s[3]];
  }

  lemma FullyKnown(db: CalDb, t: TableRef, s: seq<u32>)
    requires KeyIds(db, t) == [1] && RowCount(db, t) == 1 && Rows(db, t, 1) == [[7, 0, 0, 9]] && |s| >= 9
    ensures Find(db, t, [KeyValue(1, 7)], [], true, s) == Match([KeyValue(1, 7)], 0, 0)
    ensures ScratchAfter(db, t, [KeyValue(1, 7)], [], true, s) == [1, 7, 7, 0, 0, 9] + s[6..]
  {
    hide KeyIds, Rows, RowCount;
    var keys, ckv := KeyIds(db, t), [KeyValue(1, 7)];
    assert FoundValues([1], ckv) == [7] by {
      assert [1][..0] == [];
    }
    assert SearchKey(keys, ckv, s) == [7];
    assert [7, 0, 0, 9][..1] == [7] && [7][..1] == [7];
    assert ModuleCkv(keys, ckv, s) == [KeyValue(1, 7)];
    assert PairWords(ModuleCkv(keys, ckv, s)) == [1, 7];
  }

  // ---------------------------------------------------------------- the incremental query

  predicate Changed(prior: seq<KeyValue>, new_: seq<KeyValue>, keys: seq<u32>) {
    exists i | 0 <= i < |keys| :: Lookup(prior, keys[i]) != Lookup(new_, keys[i])
  }

  /** An incremental query finds a row exactly if CKV[new] selects one and one of the table's keys changed its value. */
  lemma IncrementalFinds(db: CalDb, t: TableRef, prior: seq<KeyValue>, new_: seq<KeyValue>, scratch: seq<u32>)
    requires 3 * |KeyIds(db, t)| <= |scratch|
    requires SameKeys(prior, new_) && DistinctKeys(new_) && RowCount(db, t) > 0
    ensures var found := Find(db, t, new_, Delta(prior, new_, |new_|), false, scratch);
      found == if Changed(prior, new_, KeyIds(db, t)) then Selected(db, t, new_) else Missing
  {
    hide RowFor, Rows, Delta, SearchKey, ModuleCkv, Pairs, Values;
    var keys, delta := KeyIds(db, t), Delta(prior, new_, |new_|);
    forall k
      ensures Lookup(delta, k).Some? <==> Lookup(prior, k) != Lookup(new_, k)
    {
      DeltaMeans(prior, new_, k);
    }
    assert Touches(delta, keys) <==> Changed(prior, new_, keys);
    if Covers(new_, keys) && Touches(delta, keys) {
      FindCovered(db, t, new_, delta, false, scratch);
    }
  }

  /** And it misses nothing: the row CKV[new] selects is found, or is the one CKV[prior] selected before. */
  lemma IncrementalComplete(db: CalDb, t: TableRef, prior: seq<KeyValue>, new_: seq<KeyValue>, scratch: seq<u32>)
    requires 3 * |KeyIds(db, t)| <= |scratch|
    requires SameKeys(prior, new_) && DistinctKeys(new_) && RowCount(db, t) > 0
    ensures var row := Selected(db, t, new_);
      row == Find(db, t, new_, Delta(prior, new_, |new_|), false, scratch) || row == Selected(db, t, prior)
  {
    hide RowFor, Rows, Find, Delta, Lookup;
    IncrementalFinds(db, t, prior, new_, scratch);
    var keys := KeyIds(db, t);
    if !Changed(prior, new_, keys) {
      assert forall i | 0 <= i < |keys| :: Lookup(prior, keys[i]) == Lookup(new_, keys[i]);
      if Covers(new_, keys) {
        assert Pairs(keys, prior) == Pairs(keys, new_) && Values(keys, prior) == Values(keys, new_);
      }
    }
  }

  // ---------------------------------------------------------------- AcdbFindModuleCKV

  /** The layout of the scratch buffer: n <key, value> pairs, then the row searched for. */
  ghost predicate Filled(scratch: seq<u32>, before: seq<u32>, keys: seq<u32>, kvs: seq<KeyValue>, n: nat, m: nat)
    requires m <= n <= |keys| && 3 * |keys| + 3 <= |scratch| == |before|
  {
    var values := FoundValues(keys[..m], kvs);
    && |values| <= m
    && (forall k | 0 <= k < n :: scratch[2 * k] == keys[k])
    && (forall k | 0 <= k < m ::
          scratch[2 * k + 1] == if Lookup(kvs, keys[k]).Some? then Lookup(kvs, keys[k]).value else before[2 * k + 1])
    && (forall k | m <= k < |keys| :: scratch[2 * k + 1] == before[2 * k + 1])
    && (forall j | 0 <= j < |values| :: scratch[2 * |keys| + j] == values[j])
    && (forall j | 2 * |keys| + |values| <= j < |scratch| :: scratch[j] == before[j])
  }

  /** Key ids into the pairs. */
  method PutKeys(scratch: array<u32>, keys: seq<u32>, ghost kvs: seq<KeyValue>)
    requires 3 * |keys| + 3 <= scratch.Length
    modifies scratch
    ensures Filled(scratch[..], old(scratch[..]), keys, kvs, |keys|, 0)
  {
    for i := 0 to |keys|
      invariant forall k | 0 <= k < i :: scratch[2 * k] == keys[k]
      invariant forall k | 0 <= k < |keys| :: scratch[2 * k + 1] == old(scratch[2 * k + 1])
      invariant forall j | 2 * |keys| <= j < scratch.Length :: scratch[j] == old(scratch[j])
    {
      scratch[2 * i] := keys[i];
    }
  }

  /** The first pair with the key, by a scan of the vector. */
  method ScanFor(kvs: seq<KeyValue>, key: u32) returns (r: Option<u32>)
    ensures r == Lookup(kvs, key)
  {
    for l := 0 to |kvs|
      invariant Lookup(kvs, key) == Lookup(kvs[l..], key)
    {
      assert kvs[l..][0] == kvs[l] && kvs[l..][1..] == kvs[l + 1..];
      if key == kvs[l].key {
        return Some(kvs[l].value);
      }
    }
    r := None;
  }

  lemma FilledStep(scratch: seq<u32>, after: seq<u32>, before: seq<u32>, keys: seq<u32>, kvs: seq<KeyValue>, m: nat,
                   found: nat)
    requires m < |keys| && 3 * |keys| + 3 <= |scratch| == |before| && Filled(scratch, before, keys, kvs, |keys|, m)
    requires found == |FoundValues(keys[..m], kvs)| <= m
    requires var v := Lookup(kvs, keys[m]);
      after == if v.Some? then scratch[2 * |keys| + found := v.value][2 * m + 1 := v.value] else scratch
    ensures Filled(after, before, keys, kvs, |keys|, m + 1)
    ensures |FoundValues(keys[..m + 1], kvs)| == if Lookup(kvs, keys[m]).Some? then found + 1 else found
  {
    hide Lookup;
    assert keys[..m + 1][..m] == keys[..m] && keys[..m + 1][m] == keys[m];
  }

  /** The values of those keys the vector has: beside their keys, and one after the other behind the pairs. */
  method PutValues(scratch: array<u32>, keys: seq<u32>, kvs: seq<KeyValue>, ghost before: seq<u32>) returns (found: nat)
    requires 3 * |keys| + 3 <= scratch.Length == |before| && Filled(scratch[..], before, keys, kvs, |keys|, 0)
    modifies scratch
    ensures Filled(scratch[..], before, keys, kvs, |keys|, |keys|) && found == |FoundValues(keys, kvs)|
  {
    hide Filled, Lookup, FoundValues;
    found := 0;
    NothingFound(keys, kvs);
    for k := 0 to |keys|
      invariant found == |FoundValues(keys[..k], kvs)| <= k
      invariant Filled(scratch[..], before, keys, kvs, |keys|, k)
    {
      ghost var s := scratch[..];
      var v := ScanFor(kvs, keys[k]);
      if v.Some? {
        scratch[2 * |keys| + found] := v.value;
        scratch[2 * k + 1] := v.value;
        found := found + 1;
      }
      FilledStep(s, scratch[..], before, keys, kvs, k, |FoundValues(keys[..k], kvs)|);
    }
    assert keys[..|keys|] == keys;
  }

  lemma NothingFound(keys: seq<u32>, kvs: seq<KeyValue>)
    ensures FoundValues(keys[..0], kvs) == []
  {
  }

  lemma FilledMeans(scratch: seq<u32>, before: seq<u32>, keys: seq<u32>, kvs: seq<KeyValue>)
    requires 3 * |keys| + 3 <= |scratch| == |before| && Filled(scratch, before, keys, kvs, |keys|, |keys|)
    ensures scratch[2 * |keys|..3 * |keys|] == SearchKey(keys, kvs, before)
    ensures PairsIn(scratch, |keys|) == ModuleCkv(keys, kvs, before)
    ensures scratch == PairWords(ModuleCkv(keys, kvs, before)) + SearchKey(keys, kvs, before) + before[3 * |keys|..]
  {
    hide Lookup, FoundValues, PairWords;
    assert keys[..|keys|] == keys;
    var n := |keys|;
    assert PairsIn(scratch, n) == ModuleCkv(keys, kvs, before);
    PairsAsWords(scratch, n);
    assert scratch[2 * n..3 * n] == SearchKey(keys, kvs, before);
    assert scratch[3 * n..] == before[3 * n..];
    assert scratch == scratch[..2 * n] + scratch[2 * n..3 * n] + scratch[3 * n..];
  }

  lemma PairsAsWords(scratch: seq<u32>, n: nat)
    requires 2 * n <= |scratch|
    ensures scratch[..2 * n] == PairWords(PairsIn(scratch, n))
  {
    var kvs := PairsIn(scratch, n);
    forall i | 0 <= i < 2 * n
      ensures scratch[i] == PairWords(kvs)[i]
    {
      assert i == if i % 2 == 0 then 2 * (i / 2) else 2 * (i / 2) + 1;
      assert kvs[i / 2] == KeyValue(scratch[2 * (i / 2)], scratch[2 * (i / 2) + 1]);
    }
  }

  /** Between the filling of the buffer and the end of the search. */
  lemma AfterFilled(db: CalDb, t: TableRef, ckv: seq<KeyValue>, delta: seq<KeyValue>, isFirstTime: bool,
                    before: seq<u32>, filled: seq<u32>)
    requires var n := |KeyIds(db, t)|;
      && 3 * n + 3 <= |before|
      && filled == PairWords(ModuleCkv(KeyIds(db, t), ckv, before)) +
                   SearchKey(KeyIds(db, t), ckv, before) + before[3 * n..]
    ensures var n, found := |KeyIds(db, t)|, Find(db, t, ckv, delta, isFirstTime, before);
      && filled[2 * n..3 * n] == SearchKey(KeyIds(db, t), ckv, before)
      && ScratchAfter(db, t, ckv, delta, isFirstTime, before) ==
         match if found.Match? then FirstMatch(Rows(db, t, n), filled[2 * n..3 * n], n) else None
         case Some(r) => filled[..2 * n] + Rows(db, t, n)[r] + filled[3 * n + 3..]
         case None => filled
  {
    hide KeyIds, Find, FirstMatch, Rows, PairWords, ModuleCkv, SearchKey;
    var n := |KeyIds(db, t)|;
    assert filled[2 * n..3 * n] == SearchKey(KeyIds(db, t), ckv, before);
    assert filled[..2 * n] == PairWords(ModuleCkv(KeyIds(db, t), ckv, before));
    assert filled[3 * n + 3..] == before[3 * n + 3..];
  }

  function PairsIn(scratch: seq<u32>, n: nat): (r: seq<KeyValue>)
    requires 2 * n <= |scratch|
    ensures |r| == n
  {
    seq(n, k requires 0 <= k < n => KeyValue(scratch[2 * k], scratch[2 * k + 1]))
  }

  /** Whether a key of the table changed its value. */
  method HasDeltaKey(keys: seq<u32>, delta: seq<KeyValue>) returns (deltaKey: bool)
    ensures deltaKey == Touches(delta, keys)
  {
    hide Lookup;
    deltaKey := false;
    for k := 0 to |keys|
      invariant !deltaKey && forall j | 0 <= j < k :: Lookup(delta, keys[j]).None?
    {
      var v := ScanFor(delta, keys[k]);
      if v.Some? {
        return true;
      }
    }
  }

  /** The module's key vector is only carried along. */
  lemma RowForAny(db: CalDb, t: TableRef, mckv: seq<KeyValue>, key: seq<u32>)
    requires |key| == |KeyIds(db, t)|
    ensures RowFor(db, t, mckv, key) ==
            match RowFor(db, t, [], key)
            case Match(_, d, o) => Match(mckv, d, o)
            case other => other
    ensures RowFor(db, t, mckv, key) != Broken
  {
  }

  lemma RowFits(db: CalDb, t: TableRef, mckv: seq<KeyValue>, key: seq<u32>)
    requires |key| == |KeyIds(db, t)|
    ensures RowFor(db, t, mckv, key).Match? <==> FirstMatch(Rows(db, t, |key|), key, |key|).Some?
  {
  }

  /** AcdbFindModuleCKV; what it stores in the context is returned. */
  method FindModuleCkv(db: CalDb, t: TableRef, ckv: seq<KeyValue>, delta: seq<KeyValue>, isFirstTime: bool,
                       scratch: array<u32>)
    returns (status: Status, mckv: seq<KeyValue>, defOff: u32, dotOff: u32)
    requires TableFits(db, t) && 3 * |KeyIds(db, t)| + 3 <= scratch.Length
    modifies scratch
    ensures match Find(db, t, ckv, delta, isFirstTime, old(scratch[..]))
      case Missing => status == ENOTEXIST
      case Broken => status == EFAILED
      case Match(kv, d, o) => status == EOK && mckv == kv && defOff == d && dotOff == o
    ensures status == EOK ==>
      exists r :: RowIs(db, t, SearchKey(KeyIds(db, t), ckv, old(scratch[..])), r, defOff, dotOff)
    ensures scratch[..] == ScratchAfter(db, t, ckv, delta, isFirstTime, old(scratch[..]))
  {
    hide Lookup, KeyIds, Word, Filled, TableFits, RowFor, Rows;
    hide FirstMatch, SearchKey, ModuleCkv, PairWords, FoundValues;
    hide ScratchAfter, RowIs;
    mckv, defOff, dotOff := [], 0, 0;
    ghost var before := scratch[..];
    var keys := KeyIds(db, t);
    var n := |keys|;
    PutKeys(scratch, keys, ckv);
    var numKeysFound := PutValues(scratch, keys, ckv, before);
    AllFound(keys, ckv);
    FilledMeans(scratch[..], before, keys, ckv);
    AfterFilled(db, t, ckv, delta, isFirstTime, before, scratch[..]);
    RowFits(db, t, ModuleCkv(keys, ckv, before), SearchKey(keys, ckv, before));
    RowForAny(db, t, ModuleCkv(keys, ckv, before), SearchKey(keys, ckv, before));
    if ckv == [] && n != 0 && isFirstTime {
      return ENOTEXIST, mckv, defOff, dotOff;
    }
    if n == 0 && !isFirstTime {
      return ENOTEXIST, mckv, defOff, dotOff;
    }
    if numKeysFound != n && !isFirstTime {
      return ENOTEXIST, mckv, defOff, dotOff;
    }
    if !isFirstTime {
      var deltaKey := HasDeltaKey(keys, delta);
      if !deltaKey {
        return ENOTEXIST, mckv, defOff, dotOff;
      }
    }
    if RowCount(db, t) == 0 {
      return EFAILED, mckv, defOff, dotOff;
    }
    status, defOff, dotOff := SearchRow(db, t, scratch);
    if status == EOK {
      mckv := PairsIn(scratch[..], n);
      ghost var r := RowForMeans(db, t, ModuleCkv(keys, ckv, before), SearchKey(keys, ckv, before));
    }
  }

  /** The search for the row behind the pairs, which takes the place of the words searched for. */
  method SearchRow(db: CalDb, t: TableRef, scratch: array<u32>) returns (status: Status, defOff: u32, dotOff: u32)
    requires TableFits(db, t) && 3 * |KeyIds(db, t)| + 3 <= scratch.Length
    modifies scratch
    ensures var n := |KeyIds(db, t)|;
      match RowFor(db, t, [], old(scratch[2 * n..3 * n]))
      case Match(_, d, o) => status == EOK && defOff == d && dotOff == o
      case _ => status == ENOTEXIST
    ensures var n := |KeyIds(db, t)|;
      match FirstMatch(Rows(db, t, n), old(scratch[2 * n..3 * n]), n)
      case Some(r) => scratch[..] == old(scratch[..2 * n]) + Rows(db, t, n)[r] + old(scratch[3 * n + 3..])
      case None => scratch[..] == old(scratch[..])
  {
    hide KeyIds, WordList, SortedRows, FirstMatch;
    var n := |KeyIds(db, t)|;
    ghost var before := scratch[..];
    var rows := Rows(db, t, n);
    var r := BinarySearch(rows, scratch[2 * n..3 * n], n);
    if r.None? {
      return ENOTEXIST, 0, 0;
    }
    var row := rows[r.value];
    CopyWords(scratch, 2 * n, row);
    assert scratch[..] == scratch[..2 * n] + scratch[2 * n..3 * n + 3] + scratch[3 * n + 3..];
    ghost var copied := scratch[2 * n..2 * n + |row|];
    assert copied == row && scratch[2 * n + n] == copied[n] && scratch[2 * n + n + 1] == copied[n + 1];
    defOff, dotOff := scratch[2 * n + n], scratch[2 * n + n + 1];
    status := EOK;
  }
}
