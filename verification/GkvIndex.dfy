/**
  Finding a use case by its graph key vector: a search among the key lists of the right length, then
  among the value lists under the key list found.
 */
module GkvIndex {
  import opened Bytes
  import opened Search
  import opened CalKeys

  /** The file, the chunk of key tables with its size, and the chunk of value tables. */
  datatype GkvDb = GkvDb(file: seq<byte>, keyTbl: nat, keyTblSize: nat, lut: nat)

  /** acdb_graph_info_t: where the subgraph list and the subgraph properties are. */
  datatype GraphInfo = GraphInfo(sgList: u32, sgData: u32)

  // ---------------------------------------------------------------- the tables in the file

  function NumTables(db: GkvDb): nat {
    Word(db.file, db.keyTbl)
  }

  /** The size of count rows of width words. */
  function RowsSize(count: nat, width: nat): nat {
    count * (4 * width)
  }

  /** Where the i-th key table starts: <number of keys, number of rows>, then rows of keys and a LUT offset. */
  function TableOff(db: GkvDb, i: nat): nat {
    if i == 0 then db.keyTbl + 4
    else
      var off := TableOff(db, i - 1);
      off + 8 + RowsSize(Word(db.file, off + 4), Word(db.file, off) + 1)
  }

  function NumKeys(db: GkvDb, i: nat): nat {
    Word(db.file, TableOff(db, i))
  }

  /** Rows of width words at off. */
  function RowsAt(file: seq<byte>, off: nat, count: nat, width: nat): (r: seq<seq<u32>>)
    ensures |r| == count && forall k | 0 <= k < count :: |r[k]| == width
  {
    seq(count, k requires 0 <= k < count => WordList(file, off + k * (4 * width), width))
  }

  function KeyRows(db: GkvDb, i: nat): (r: seq<seq<u32>>)
    ensures forall k | 0 <= k < |r| :: |r[k]| == NumKeys(db, i) + 1
  {
    var off := TableOff(db, i);
    RowsAt(db.file, off + 8, Word(db.file, off + 4), Word(db.file, off) + 1)
  }

  /** The value table at an offset of the LUT chunk, as wide as its header says. */
  function ValueRows(db: GkvDb, lutOff: nat): (r: seq<seq<u32>>)
    ensures forall k | 0 <= k < |r| :: |r[k]| == Word(db.file, db.lut + lutOff) + 2
  {
    var off := db.lut + lutOff;
    RowsAt(db.file, off + 8, Word(db.file, off + 4), Word(db.file, off) + 2)
  }

  function KeysOf(kvs: seq<KeyValue>): (r: seq<u32>)
    ensures |r| == |kvs|
  {
    seq(|kvs|, i requires 0 <= i < |kvs| => kvs[i].key)
  }

  function ValuesOf(kvs: seq<KeyValue>): (r: seq<u32>)
    ensures |r| == |kvs|
  {
    seq(|kvs|, i requires 0 <= i < |kvs| => kvs[i].value)
  }

  // ---------------------------------------------------------------- the two searches

  /** The first key table for n keys. */
  function TableFor(db: GkvDb, n: nat, from: nat): (r: Option<nat>)
    requires from <= NumTables(db)
    ensures r.Some? ==> from <= r.value < NumTables(db) && NumKeys(db, r.value) == n
    ensures r.Some? ==> forall i | from <= i < r.value :: NumKeys(db, i) != n
    ensures r.None? ==> forall i | from <= i < NumTables(db) :: NumKeys(db, i) != n
    decreases NumTables(db) - from
  {
    if from == NumTables(db) then None
    else if NumKeys(db, from) == n then Some(from)
    else TableFor(db, n, from + 1)
  }

  /** The LUT offset the key search gives. */
  function FindKeys(db: GkvDb, keys: seq<u32>): Option<u32> {
    match TableFor(db, |keys|, 0)
    case None => None
    case Some(i) =>
      match FirstMatch(KeyRows(db, i), keys, |keys|)
      case None => None
      case Some(r) => Some(KeyRows(db, i)[r][|keys|])
  }

  /** The use case the value search gives. */
  function FindValues(db: GkvDb, values: seq<u32>, lutOff: nat): Option<GraphInfo> {
    var n, rows := |values|, ValueRows(db, lutOff);
    if Word(db.file, db.lut + lutOff) != n then None
    else
      match FirstMatch(rows, values, n)
      case None => None
      case Some(r) => Some(GraphInfo(rows[r][n], rows[r][n + 1]))
  }

  /** Tables are sorted for the binary search. */
  ghost predicate TablesSorted(db: GkvDb) {
    forall i | 0 <= i < NumTables(db) :: SortedRows(KeyRows(db, i), NumKeys(db, i))
  }

  ghost predicate ValuesSorted(db: GkvDb, lutOff: nat) {
    SortedRows(ValueRows(db, lutOff), Word(db.file, db.lut + lutOff))
  }

  const GLB_BUF_2_LENGTH := 1000

  /** DataProcSearchGkvKeyTable. */
  method SearchGkvKeyTable(db: GkvDb, kvs: seq<KeyValue>) returns (status: Status, lutOff: u32)
    requires TablesSorted(db)
    ensures status ==
            if |kvs| >= GLB_BUF_2_LENGTH / 2 then EBADPARAM
            else if NumTables(db) > db.keyTblSize then EFAILED
            else if FindKeys(db, KeysOf(kvs)).None? then ENOTEXIST
            else EOK
    ensures status == EOK ==> FindKeys(db, KeysOf(kvs)) == Some(lutOff)
  {
    hide Word, WordList, SortedRows, FirstMatch;
    lutOff := 0;
    if |kvs| >= GLB_BUF_2_LENGTH / 2 {
      return EBADPARAM, lutOff;
    }
    var offset := db.keyTbl;
    var numKeyTables := Word(db.file, offset);
    offset := offset + 4;
    if numKeyTables > db.keyTblSize {
      return EFAILED, lutOff;
    }
    var keys := KeysOf(kvs);
    for i := 0 to numKeyTables
      invariant offset == TableOff(db, i)
      invariant TableFor(db, |keys|, 0) == TableFor(db, |keys|, i)
    {
      var numKeys: nat := Word(db.file, offset);
      var numEntries: nat := Word(db.file, offset + 4);
      if numKeys != |kvs| {
        offset := offset + 8 + RowsSize(numEntries, numKeys + 1);
      } else {
        var rows := KeyRows(db, i);
        assert SortedRows(rows, NumKeys(db, i));
        var r := BinarySearch(rows, keys, numKeys);
        if r.None? {
          return ENOTEXIST, lutOff;
        }
        return EOK, rows[r.value][numKeys];
      }
    }
    status := ENOTEXIST;
  }

  /** DataProcSearchGkvLut. */
  method SearchGkvLut(db: GkvDb, kvs: seq<KeyValue>, lutOff: nat) returns (status: Status, info: GraphInfo)
    requires ValuesSorted(db, lutOff)
    ensures status ==
            if |kvs| + 1 >= GLB_BUF_2_LENGTH / 2 then EBADPARAM
            else if FindValues(db, ValuesOf(kvs), lutOff).None? then ENOTEXIST
            else EOK
    ensures status == EOK ==> FindValues(db, ValuesOf(kvs), lutOff) == Some(info)
  {
    hide WordList, FirstMatch;
    info := GraphInfo(0, 0);
    if |kvs| + 1 >= GLB_BUF_2_LENGTH / 2 {
      return EBADPARAM, info;
    }
    var numKeys := Word(db.file, db.lut + lutOff);
    if numKeys != |kvs| {
      return ENOTEXIST, info;
    }
    var rows := ValueRows(db, lutOff);
    var r := BinarySearch(rows, ValuesOf(kvs), numKeys);
    if r.None? {
      return ENOTEXIST, info;
    }
    info := GraphInfo(rows[r.value][numKeys], rows[r.value][numKeys + 1]);
    status := EOK;
  }

  // ---------------------------------------------------------------- the flat table

  /** One use case: its graph key vector and where its graph is. */
  datatype UseCase = UseCase(keys: seq<u32>, values: seq<u32>, info: GraphInfo)

  /** The use cases under a key list: the first k rows of its value table. */
  function UseCasesUnder(db: GkvDb, keys: seq<u32>, lutOff: nat, k: nat): (r: seq<UseCase>)
    requires k <= |ValueRows(db, lutOff)|
    ensures |r| == k
  {
    var n := Word(db.file, db.lut + lutOff);
    var rows := ValueRows(db, lutOff);
    seq(k, i requires 0 <= i < k => UseCase(keys, rows[i][..n], GraphInfo(rows[i][n], rows[i][n + 1])))
  }

  /** The use cases of the first j rows of a key table. */
  function UseCasesOfRows(db: GkvDb, i: nat, j: nat): seq<UseCase>
    requires j <= |KeyRows(db, i)|
  {
    if j == 0 then []
    else
      var row, n := KeyRows(db, i)[j - 1], NumKeys(db, i);
      UseCasesOfRows(db, i, j - 1) + UseCasesUnder(db, row[..n], row[n], |ValueRows(db, row[n])|)
  }

  /** All use cases of the first i key tables. */
  function UseCases(db: GkvDb, i: nat): seq<UseCase> {
    if i == 0 then [] else UseCases(db, i - 1) + UseCasesOfRows(db, i - 1, |KeyRows(db, i - 1)|)
  }

  /** The first use case with the key vector, by a scan of the flat table. */
  function LinearScan(us: seq<UseCase>, keys: seq<u32>, values: seq<u32>): (r: Option<GraphInfo>)
    ensures r.None? <==> forall i | 0 <= i < |us| :: !(us[i].keys == keys && us[i].values == values)
  {
    if us == [] then None
    else if us[0].keys == keys && us[0].values == values then Some(us[0].info)
    else LinearScan(us[1..], keys, values)
  }

  lemma {:induction false} ScanConcat(a: seq<UseCase>, b: seq<UseCase>, keys: seq<u32>, values: seq<u32>)
    ensures LinearScan(a + b, keys, values) ==
            if LinearScan(a, keys, values).Some? then LinearScan(a, keys, values) else LinearScan(b, keys, values)
  {
    if a == [] {
      assert a + b == b;
    } else {
      assert (a + b)[1..] == a[1..] + b;
      ScanConcat(a[1..], b, keys, values);
    }
  }

  /** At most one key table for each number of keys, no key list twice, and value tables as wide as their key lists. */
  predicate WellFormed(db: GkvDb) {
    && (forall i, j | 0 <= i < j < NumTables(db) :: NumKeys(db, i) != NumKeys(db, j))
    && forall i | 0 <= i < NumTables(db) :: TableFits(db, i)
  }

  predicate TableFits(db: GkvDb, i: nat) {
    var n, rows := NumKeys(db, i), KeyRows(db, i);
    && (forall j, k | 0 <= j < k < |rows| :: rows[j][..n] != rows[k][..n])
    && forall j | 0 <= j < |rows| :: Word(db.file, db.lut + rows[j][n]) == n
  }

  lemma {:induction false} ScanFirst(us: seq<UseCase>, keys: seq<u32>, values: seq<u32>, k: nat)
    requires k < |us| && us[k].keys == keys && us[k].values == values
    requires forall j | 0 <= j < k :: !(us[j].keys == keys && us[j].values == values)
    ensures LinearScan(us, keys, values) == Some(us[k].info)
  {
    if k > 0 {
      assert forall j | 0 <= j < k - 1 :: us[1..][j] == us[j + 1];
      ScanFirst(us[1..], keys, values, k - 1);
    }
  }

  /** Under the key list itself the scan is the value search; under any other it finds nothing. */
  lemma ScanUnder(db: GkvDb, rowKeys: seq<u32>, lutOff: nat, keys: seq<u32>, values: seq<u32>)
    requires Word(db.file, db.lut + lutOff) == |values|
    ensures var us := UseCasesUnder(db, rowKeys, lutOff, |ValueRows(db, lutOff)|);
      LinearScan(us, keys, values) == if rowKeys == keys then FindValues(db, values, lutOff) else None
  {
    hide Word, LinearScan;
    var n, rows := |values|, ValueRows(db, lutOff);
    var us := UseCasesUnder(db, rowKeys, lutOff, |rows|);
    assert values[..n] == values;
    if rowKeys == keys && FirstMatch(rows, values, n).Some? {
      ScanFirst(us, keys, values, FirstMatch(rows, values, n).value);
    }
  }

  lemma NothingUnder(db: GkvDb, rowKeys: seq<u32>, lutOff: nat, keys: seq<u32>, values: seq<u32>)
    requires rowKeys != keys
    ensures LinearScan(UseCasesUnder(db, rowKeys, lutOff, |ValueRows(db, lutOff)|), keys, values) == None
  {
    hide Word;
  }

  /** In a key table for another number of keys the scan finds nothing. */
  lemma {:induction false} ScanOtherTable(db: GkvDb, i: nat, j: nat, keys: seq<u32>, values: seq<u32>)
    requires j <= |KeyRows(db, i)| && NumKeys(db, i) != |keys|
    ensures LinearScan(UseCasesOfRows(db, i, j), keys, values) == None
  {
    hide LinearScan, KeyRows, ValueRows, UseCasesUnder, NumKeys;
    if j > 0 {
      var row, n := KeyRows(db, i)[j - 1], NumKeys(db, i);
      ScanOtherTable(db, i, j - 1, keys, values);
      NothingUnder(db, row[..n], row[n], keys, values);
      ScanConcat(UseCasesOfRows(db, i, j - 1), UseCasesUnder(db, row[..n], row[n], |ValueRows(db, row[n])|), keys,
                 values);
    } else {
      NothingToScan(keys, values);
    }
  }

  lemma NothingToScan(keys: seq<u32>, values: seq<u32>)
    ensures LinearScan([], keys, values) == None
  {
  }

  /** In the right one it finds what the value search finds, once it is past the row of the key list. */
  lemma {:induction false} ScanTable(db: GkvDb, i: nat, j: nat, keys: seq<u32>, values: seq<u32>)
    requires j <= |KeyRows(db, i)| && TableFits(db, i) && NumKeys(db, i) == |keys| == |values|
    ensures LinearScan(UseCasesOfRows(db, i, j), keys, values) ==
            match FirstMatch(KeyRows(db, i), keys, |keys|)
            case Some(r) => if r < j then FindValues(db, values, KeyRows(db, i)[r][|keys|]) else None
            case None => None
  {
    hide LinearScan, KeyRows, ValueRows, UseCasesUnder, NumKeys, FindValues, Word, FirstMatch;
    if j > 0 {
      var rows, n := KeyRows(db, i), |keys|;
      var row := rows[j - 1];
      ScanTable(db, i, j - 1, keys, values);
      ScanUnder(db, row[..n], row[n], keys, values);
      ScanConcat(UseCasesOfRows(db, i, j - 1), UseCasesUnder(db, row[..n], row[n], |ValueRows(db, row[n])|), keys,
                 values);
      assert keys[..n] == keys;
    } else {
      NothingToScan(keys, values);
    }
  }

  /** The two searches, one after the other. */
  function TwoLevel(db: GkvDb, keys: seq<u32>, values: seq<u32>): Option<GraphInfo> {
    match FindKeys(db, keys)
    case None => None
    case Some(lutOff) => FindValues(db, values, lutOff)
  }

  lemma {:induction false} ScanTables(db: GkvDb, i: nat, keys: seq<u32>, values: seq<u32>)
    requires i <= NumTables(db) && WellFormed(db) && |keys| == |values|
    ensures LinearScan(UseCases(db, i), keys, values) ==
            match TableFor(db, |keys|, 0)
            case Some(t) => if t < i then TwoLevel(db, keys, values) else None
            case None => None
  {
    hide LinearScan, KeyRows, NumKeys, UseCasesOfRows, FindValues, FirstMatch, TableFits;
    if i > 0 {
      ScanTables(db, i - 1, keys, values);
      var rows := |KeyRows(db, i - 1)|;
      ScanConcat(UseCases(db, i - 1), UseCasesOfRows(db, i - 1, rows), keys, values);
      if NumKeys(db, i - 1) == |keys| {
        assert TableFits(db, i - 1);
        ScanTable(db, i - 1, rows, keys, values);
        FirstInside(db, i - 1, keys);
      } else {
        ScanOtherTable(db, i - 1, rows, keys, values);
      }
    } else {
      NothingToScan(keys, values);
    }
  }

  lemma FirstInside(db: GkvDb, i: nat, keys: seq<u32>)
    requires NumKeys(db, i) == |keys|
    ensures var r := FirstMatch(KeyRows(db, i), keys, |keys|); r.Some? ==> r.value < |KeyRows(db, i)|
  {
  }

  /** The two-level search finds exactly what a scan of the flat table would. */
  lemma TwoLevelIsFlat(db: GkvDb, keys: seq<u32>, values: seq<u32>)
    requires WellFormed(db) && |keys| == |values|
    ensures TwoLevel(db, keys, values) == LinearScan(UseCases(db, NumTables(db)), keys, values)
  {
    hide LinearScan, KeyRows, NumKeys, UseCases, FindValues, FirstMatch, WellFormed;
    ScanTables(db, NumTables(db), keys, values);
  }

  // ---------------------------------------------------------------- the client's key vector

  lemma SortedUnique(a: seq<KeyValue>, b: seq<KeyValue>)
    requires Permuted(a, b) && SortedBy(KeyOf, a) && SortedBy(KeyOf, b) && DistinctKeys(a)
    ensures a == b
  {
    SortedSame(a, b);
    PermutedMembers(a, b);
    SameKeySets(a, b);
    forall i | 0 <= i < |a|
      ensures a[i] == b[i]
    {
      LookupOfPair(a, i);
      LookupOfPair(b, i);
    }
  }

  /** However the client lists its keys, as long as no key comes twice, the same vector is searched for. */
  lemma OrderForgotten(gkv: seq<KeyValue>, gkv': seq<KeyValue>, sorted: seq<KeyValue>, sorted': seq<KeyValue>)
    requires Permuted(gkv, gkv') && DistinctKeys(gkv)
    requires Permuted(sorted, gkv) && SortedBy(KeyOf, sorted) && Permuted(sorted', gkv') && SortedBy(KeyOf, sorted')
    ensures sorted == sorted'
  {
    PermutedDistinct(gkv, sorted);
    SortedUnique(sorted, sorted');
  }

  /** The value tables that the key tables point to are sorted. */
  ghost predicate AllValuesSorted(db: GkvDb) {
    forall i, j | 0 <= i < NumTables(db) && 0 <= j < |KeyRows(db, i)| ::
      ValuesSorted(db, KeyRows(db, i)[j][NumKeys(db, i)])
  }

  lemma FoundSorted(db: GkvDb, keys: seq<u32>)
    requires AllValuesSorted(db)
    ensures FindKeys(db, keys).Some? ==> ValuesSorted(db, FindKeys(db, keys).value)
  {
    hide ValuesSorted, KeyRows, NumKeys;
  }

  /**
    AcdbGetUsecaseSubgraphList, as far as the graph is found: the client's vector is copied to a scratch
    buffer and sorted there. An empty vector is answered before any search.
   */
  method FindUseCase(db: GkvDb, gkv: seq<KeyValue>, scratch: array<KeyValue>) returns (status: Status, info: GraphInfo)
    requires TablesSorted(db) && AllValuesSorted(db) && scratch.Length == |gkv|
    modifies scratch
    ensures Permuted(scratch[..], gkv) && SortedBy(KeyOf, scratch[..])
    ensures gkv == [] ==> status == EOK
    ensures gkv != [] ==> var keys, values := KeysOf(scratch[..]), ValuesOf(scratch[..]);
      status ==
      if |gkv| >= GLB_BUF_2_LENGTH / 2 then EBADPARAM
      else if NumTables(db) > db.keyTblSize then EFAILED
      else if FindKeys(db, keys).Some? && |gkv| + 1 >= GLB_BUF_2_LENGTH / 2 then EBADPARAM
      else if TwoLevel(db, keys, values).None? then ENOTEXIST
      else EOK
    ensures gkv != [] && status == EOK ==> TwoLevel(db, KeysOf(scratch[..]), ValuesOf(scratch[..])) == Some(info)
  {
    hide FindKeys, FindValues, TablesSorted, ValuesSorted, AllValuesSorted, Permuted, SortedBy;
    info := GraphInfo(0, 0);
    for i := 0 to |gkv|
      invariant scratch[..i] == gkv[..i]
    {
      scratch[i] := gkv[i];
    }
    assert scratch[..] == scratch[..|gkv|] == gkv[..|gkv|] == gkv;
    status := Sort2(KeyOf, scratch);
    if gkv == [] {
      return EOK, info;
    }
    var lutOff;
    status, lutOff := SearchGkvKeyTable(db, scratch[..]);
    if status != EOK {
      return;
    }
    FoundSorted(db, KeysOf(scratch[..]));
    status, info := SearchGkvLut(db, scratch[..], lutOff);
  }
}
