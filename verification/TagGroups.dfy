/**
  The tagged modules of a use case, grouped by tag: a first walk collects <tag, definition> pairs and
  their size, a second sorts the pairs, merges neighbours, and patches their module counts.
 */
module TagGroups {
  import opened Bytes
  import opened Search
  import opened SubgraphMap
  import opened ModuleGroups

  /** The tagged module LUT as rows of <subgraph, tag, definition offset>, and the definition chunk. */
  datatype TagDb = TagDb(file: seq<byte>, lut: nat, numEntries: nat, def: nat)

  /** AcdbTagDefOffsetPair. */
  datatype TagDef = TagDef(tag: u32, defOff: nat)

  function LutRow(db: TagDb, k: nat): (r: seq<u32>)
    ensures |r| == 3
  {
    WordList(db.file, db.lut + 4 + 12 * k, 3)
  }

  function LutRows(db: TagDb): (r: seq<seq<u32>>)
    ensures |r| == db.numEntries && forall k | 0 <= k < |r| :: r[k] == LutRow(db, k)
  {
    seq(db.numEntries, k requires 0 <= k < db.numEntries => LutRow(db, k))
  }

  /**
    The LUT is sorted by subgraph and every definition for these subgraphs has modules; an unused tag of one of
    them would be read forever.
   */
  ghost predicate LutFits(db: TagDb, sgIds: seq<u32>) {
    && SortedRows(LutRows(db), 1)
    && forall k | 0 <= k < db.numEntries && LutRow(db, k)[0] in sgIds :: Word(db.file, db.def + LutRow(db, k)[2]) > 0
  }

  // ---------------------------------------------------------------- what is collected

  /** The definitions of one subgraph among the first k rows. */
  function DefsOf(db: TagDb, sgId: u32, k: nat): seq<TagDef> {
    if k == 0 then []
    else
      var before, row := DefsOf(db, sgId, k - 1), LutRow(db, k - 1);
      if row[0] == sgId then before + [TagDef(row[1], db.def + row[2])] else before
  }

  function AllDefs(db: TagDb, sgIds: seq<u32>): seq<TagDef> {
    if sgIds == [] then [] else AllDefs(db, sgIds[..|sgIds| - 1]) + DefsOf(db, sgIds[|sgIds| - 1], db.numEntries)
  }

  /** Every requested subgraph gives its own definitions, in request order. */
  lemma {:induction false} AllDefsMean(db: TagDb, a: seq<u32>, b: seq<u32>)
    ensures AllDefs(db, a + b) == AllDefs(db, a) + AllDefs(db, b)
    ensures AllDefs(db, []) == [] && forall s :: AllDefs(db, [s]) == DefsOf(db, s, db.numEntries)
  {
    hide DefsOf;
    forall s
      ensures AllDefs(db, [s]) == DefsOf(db, s, db.numEntries)
    {
      assert [s][..0] == [] && AllDefs(db, []) + DefsOf(db, s, db.numEntries) == DefsOf(db, s, db.numEntries);
    }
    if b == [] {
      assert a + b == a;
    } else {
      AllDefsMean(db, a, b[..|b| - 1]);
      assert (a + b)[..|a + b| - 1] == a + b[..|b| - 1];
    }
  }

  /** The tags in the order they turn up. */
  function Tags(ds: seq<TagDef>): seq<u32> {
    if ds == [] then []
    else
      var before, tag := Tags(ds[..|ds| - 1]), ds[|ds| - 1].tag;
      if tag in before then before else before + [tag]
  }

  function DefSize(file: seq<byte>): TagDef -> nat {
    (d: TagDef) => Word(file, d.defOff)
  }

  /** The size the first walk computes, in bytes. */
  function ListSize(file: seq<byte>, ds: seq<TagDef>): nat {
    8 * |Tags(ds)| + 8 * Sum(DefSize(file), ds)
  }

  // ---------------------------------------------------------------- what is written

  /** One more definition: its modules join the last group if that has the same tag. */
  function AddDef(file: seq<byte>, gs: seq<Group>, d: TagDef): seq<Group> {
    var n, ms := |gs|, ModulesAt(file, d.defOff);
    if n > 0 && gs[n - 1].id == d.tag then gs[n - 1 := Group(d.tag, gs[n - 1].modules + ms)]
    else gs + [Group(d.tag, ms)]
  }

  function Merged(file: seq<byte>, ds: seq<TagDef>): seq<Group> {
    if ds == [] then [] else AddDef(file, Merged(file, ds[..|ds| - 1]), ds[|ds| - 1])
  }

  /** All modules that the definitions list under a tag. */
  function Under(file: seq<byte>, tag: u32): TagDef -> seq<ModuleInstance> {
    (d: TagDef) => if d.tag == tag then ModulesAt(file, d.defOff) else []
  }

  /** The modules that the first k rows of the LUT give a tag of a subgraph. */
  function RowModules(db: TagDb, sgId: u32, tag: u32, k: nat): multiset<ModuleInstance> {
    if k == 0 then multiset{}
    else if LutRow(db, k - 1)[0] == sgId && LutRow(db, k - 1)[1] == tag then
      RowModules(db, sgId, tag, k - 1) + multiset(ModulesAt(db.file, db.def + LutRow(db, k - 1)[2]))
    else RowModules(db, sgId, tag, k - 1)
  }

  /** And the rows of all requested subgraphs. */
  function RequestModules(db: TagDb, sgIds: seq<u32>, tag: u32, n: nat): multiset<ModuleInstance>
    requires n <= |sgIds|
  {
    if n == 0 then multiset{}
    else RequestModules(db, sgIds, tag, n - 1) + RowModules(db, sgIds[n - 1], tag, db.numEntries)
  }

  lemma UnderSnoc(file: seq<byte>, tag: u32, ds: seq<TagDef>, d: TagDef)
    ensures var before, after := multiset(Flat(Under(file, tag), ds)), multiset(Flat(Under(file, tag), ds + [d]));
      after == if d.tag == tag then before + multiset(ModulesAt(file, d.defOff)) else before
  {
    hide Flat, ModulesAt;
    FlatSnoc(Under(file, tag), ds, d);
    var ms := Under(file, tag)(d);
    assert ms == if d.tag == tag then ModulesAt(file, d.defOff) else [];
    assert multiset(Flat(Under(file, tag), ds) + ms) == multiset(Flat(Under(file, tag), ds)) + multiset(ms);
  }

  lemma {:induction false} UnderRows(db: TagDb, sgId: u32, tag: u32, k: nat)
    ensures multiset(Flat(Under(db.file, tag), DefsOf(db, sgId, k))) == RowModules(db, sgId, tag, k)
  {
    hide LutRow, ModulesAt, Under, Flat;
    if k > 0 {
      UnderRows(db, sgId, tag, k - 1);
      var row := LutRow(db, k - 1);
      if row[0] == sgId {
        UnderSnoc(db.file, tag, DefsOf(db, sgId, k - 1), TagDef(row[1], db.def + row[2]));
      }
    } else {
      NothingUnder(db.file, tag);
    }
  }

  lemma NothingUnder(file: seq<byte>, tag: u32)
    ensures Flat(Under(file, tag), []) == []
  {
  }

  /** What is collected under a tag is what the rows of the requested subgraphs give it, subgraph by subgraph. */
  lemma {:induction false} UnderRequest(db: TagDb, sgIds: seq<u32>, tag: u32, n: nat)
    requires n <= |sgIds|
    ensures multiset(Flat(Under(db.file, tag), AllDefs(db, sgIds[..n]))) == RequestModules(db, sgIds, tag, n)
  {
    hide DefsOf, RowModules, Under;
    if n > 0 {
      UnderRequest(db, sgIds, tag, n - 1);
      assert sgIds[..n][..n - 1] == sgIds[..n - 1];
      UnderRows(db, sgIds[n - 1], tag, db.numEntries);
      FlatConcat(Under(db.file, tag), AllDefs(db, sgIds[..n - 1]), DefsOf(db, sgIds[n - 1], db.numEntries));
    }
  }

  /** A tag is collected exactly if a row of a requested subgraph has it. */
  predicate TagRequested(db: TagDb, sgIds: seq<u32>, tag: u32) {
    exists i, k | 0 <= i < |sgIds| && 0 <= k < db.numEntries :: LutRow(db, k)[0] == sgIds[i] && LutRow(db, k)[1] == tag
  }

  lemma {:induction false} TagOfRows(db: TagDb, sgId: u32, tag: u32, n: nat)
    ensures HasTag(DefsOf(db, sgId, n), tag) <==>
            exists k | 0 <= k < n :: LutRow(db, k)[0] == sgId && LutRow(db, k)[1] == tag
  {
    hide LutRow;
    if n > 0 {
      TagOfRows(db, sgId, tag, n - 1);
      var row := LutRow(db, n - 1);
      if row[0] == sgId {
        HasTagConcat(DefsOf(db, sgId, n - 1), [TagDef(row[1], db.def + row[2])], tag);
        HasTagOne(TagDef(row[1], db.def + row[2]), tag);
      }
      if k :| 0 <= k < n && LutRow(db, k)[0] == sgId && LutRow(db, k)[1] == tag {
        assert k < n - 1 || k == n - 1;
      }
    }
  }

  lemma HasTagConcat(a: seq<TagDef>, b: seq<TagDef>, tag: u32)
    ensures HasTag(a + b, tag) <==> HasTag(a, tag) || HasTag(b, tag)
  {
    if HasTag(a, tag) {
      var i :| 0 <= i < |a| && a[i].tag == tag;
      assert (a + b)[i] == a[i];
    }
    if HasTag(b, tag) {
      var i :| 0 <= i < |b| && b[i].tag == tag;
      assert (a + b)[|a| + i] == b[i];
    }
  }

  lemma HasTagOne(d: TagDef, tag: u32)
    ensures HasTag([d], tag) <==> d.tag == tag
  {
    assert [d][0] == d;
  }

  lemma {:induction false} TagOfRequest(db: TagDb, sgIds: seq<u32>, tag: u32)
    ensures HasTag(AllDefs(db, sgIds), tag) <==> TagRequested(db, sgIds, tag)
  {
    hide DefsOf, HasTag, LutRow;
    if sgIds == [] {
      NoTag(tag);
    } else {
      var n := |sgIds| - 1;
      TagOfRequest(db, sgIds[..n], tag);
      TagOfRows(db, sgIds[n], tag, db.numEntries);
      HasTagConcat(AllDefs(db, sgIds[..n]), DefsOf(db, sgIds[n], db.numEntries), tag);
      if i, k :| 0 <= i < |sgIds| && 0 <= k < db.numEntries && LutRow(db, k)[0] == sgIds[i] && LutRow(db, k)[1] == tag {
        assert i < n ==> sgIds[..n][i] == sgIds[i];
      }
      if i, k :| 0 <= i < n && 0 <= k < db.numEntries && LutRow(db, k)[0] == sgIds[..n][i] && LutRow(db, k)[1] == tag {
        assert sgIds[..n][i] == sgIds[i];
      }
    }
  }

  lemma NoTag(tag: u32)
    ensures !HasTag([], tag)
  {
  }

  function TagKey(d: TagDef): nat {
    d.tag
  }

  predicate AscendingIds(gs: seq<Group>) {
    forall i, j | 0 <= i < j < |gs| :: gs[i].id < gs[j].id
  }

  predicate HasTag(ds: seq<TagDef>, tag: u32) {
    exists i | 0 <= i < |ds| :: ds[i].tag == tag
  }

  predicate HasGroup(gs: seq<Group>, tag: u32) {
    exists j | 0 <= j < |gs| :: gs[j].id == tag
  }

  /** The group holds all modules listed under its tag, in list order. */
  ghost predicate Complete(file: seq<byte>, ds: seq<TagDef>, g: Group) {
    HasTag(ds, g.id) && g.modules == Flat(Under(file, g.id), ds)
  }

  /** One complete group for each tag, in ascending order, the last one that of the last definition. */
  ghost predicate Groups(file: seq<byte>, ds: seq<TagDef>, gs: seq<Group>) {
    && AscendingIds(gs)
    && (forall i | 0 <= i < |gs| :: Complete(file, ds, gs[i]))
    && (forall i | 0 <= i < |ds| :: HasGroup(gs, ds[i].tag))
    && (|gs| == 0 <==> |ds| == 0) && (ds != [] ==> gs[|gs| - 1].id == ds[|ds| - 1].tag)
  }

  /** Merging sorted definitions gives exactly that. */
  lemma {:induction false} MergedMeans(file: seq<byte>, ds: seq<TagDef>)
    requires SortedBy(TagKey, ds)
    ensures Groups(file, ds, Merged(file, ds))
  {
    hide Groups, AddDef;
    if ds != [] {
      var n := |ds| - 1;
      MergedMeans(file, ds[..n]);
      assert ds == ds[..n] + [ds[n]];
      AddDefGroups(file, ds[..n], Merged(file, ds[..n]), ds[n]);
    } else {
      NoGroups(file);
    }
  }

  lemma NoGroups(file: seq<byte>)
    ensures Groups(file, [], [])
  {
  }

  lemma {:induction false} NotUnder(file: seq<byte>, ds: seq<TagDef>, tag: u32)
    requires !HasTag(ds, tag)
    ensures Flat(Under(file, tag), ds) == []
  {
    hide ModulesAt;
    if ds != [] {
      var n := |ds| - 1;
      assert ds[n].tag != tag;
      assert forall i | 0 <= i < n :: ds[..n][i].tag == ds[i].tag;
      NotUnder(file, ds[..n], tag);
    }
  }

  /** Tags stay as they are in a longer list; what is under one grows by the last definition's modules. */
  lemma CompleteSnoc(file: seq<byte>, ds: seq<TagDef>, g: Group, d: TagDef)
    requires Complete(file, ds, g)
    ensures Complete(file, ds + [d], if g.id == d.tag then Group(g.id, g.modules + ModulesAt(file, d.defOff)) else g)
  {
    hide ModulesAt, Flat;
    FlatSnoc(Under(file, g.id), ds, d);
    var i :| 0 <= i < |ds| && ds[i].tag == g.id;
    assert (ds + [d])[i].tag == g.id;
  }

  lemma CompleteNew(file: seq<byte>, ds: seq<TagDef>, d: TagDef)
    requires !HasTag(ds, d.tag)
    ensures Complete(file, ds + [d], Group(d.tag, ModulesAt(file, d.defOff)))
  {
    hide ModulesAt, Flat;
    NotUnder(file, ds, d.tag);
    FlatSnoc(Under(file, d.tag), ds, d);
    assert (ds + [d])[|ds|].tag == d.tag;
  }

  lemma AddDefGroups(file: seq<byte>, ds: seq<TagDef>, gs: seq<Group>, d: TagDef)
    requires Groups(file, ds, gs) && SortedBy(TagKey, ds + [d])
    ensures Groups(file, ds + [d], AddDef(file, gs, d))
  {
    hide ModulesAt, Complete;
    var all, after, n := ds + [d], AddDef(file, gs, d), |gs|;
    TagsBelow(file, ds, gs, d);
    forall i | 0 <= i < n
      ensures Complete(file, all, after[i])
    {
      CompleteSnoc(file, ds, gs[i], d);
    }
    if n == 0 || gs[n - 1].id != d.tag {
      CompleteNew(file, ds, d);
    }
    forall i | 0 <= i < |all|
      ensures HasGroup(after, all[i].tag)
    {
      if i < |ds| {
        assert HasGroup(gs, ds[i].tag);
        var j :| 0 <= j < n && gs[j].id == ds[i].tag;
        assert after[j].id == all[i].tag;
      } else {
        assert after[|after| - 1].id == d.tag;
      }
    }
  }

  /** Only the last group can have the tag of a definition that sorts behind all others. */
  lemma TagsBelow(file: seq<byte>, ds: seq<TagDef>, gs: seq<Group>, d: TagDef)
    requires Groups(file, ds, gs) && SortedBy(TagKey, ds + [d])
    ensures forall i | 0 <= i < |gs| :: gs[i].id <= d.tag && (gs[i].id == d.tag ==> i == |gs| - 1)
    ensures |gs| == 0 || gs[|gs| - 1].id != d.tag ==> !HasTag(ds, d.tag)
  {
    hide ModulesAt;
    var all := ds + [d];
    forall i | 0 <= i < |ds|
      ensures ds[i].tag <= d.tag && ds[i].tag <= ds[|ds| - 1].tag
    {
      assert TagKey(all[i]) <= TagKey(all[|ds|]) && (i < |ds| - 1 ==> TagKey(all[i]) <= TagKey(all[|ds| - 1]));
    }
    forall i | 0 <= i < |gs|
      ensures gs[i].id <= d.tag && (gs[i].id == d.tag ==> i == |gs| - 1)
    {
      assert Complete(file, ds, gs[i]);
      var k :| 0 <= k < |ds| && ds[k].tag == gs[i].id;
    }
  }

  // ---------------------------------------------------------------- the size of what is written

  lemma {:induction false} TagsHold(ds: seq<TagDef>)
    ensures Distinct(Tags(ds)) && forall tag :: tag in Tags(ds) <==> HasTag(ds, tag)
  {
    if ds != [] {
      var n := |ds| - 1;
      TagsHold(ds[..n]);
      forall tag
        ensures tag in Tags(ds) <==> HasTag(ds, tag)
      {
        if HasTag(ds, tag) && tag != ds[n].tag {
          var i :| 0 <= i < |ds| && ds[i].tag == tag;
          assert ds[..n][i].tag == tag;
        }
        if tag in Tags(ds[..n]) {
          var i :| 0 <= i < n && ds[..n][i].tag == tag;
          assert ds[i].tag == tag;
        }
        assert ds[n].tag == tag ==> HasTag(ds, tag);
      }
    }
  }

  lemma GroupsCount(file: seq<byte>, ds: seq<TagDef>, gs: seq<Group>)
    requires Groups(file, ds, gs)
    ensures |gs| == |Tags(ds)|
  {
    TagsHold(ds);
    forall tag
      ensures tag in Ids(gs) <==> tag in Tags(ds)
    {
      if tag in Ids(gs) {
        var i :| 0 <= i < |gs| && Ids(gs)[i] == tag;
        assert Complete(file, ds, gs[i]);
      }
      if HasTag(ds, tag) {
        var i :| 0 <= i < |ds| && ds[i].tag == tag;
        assert HasGroup(gs, ds[i].tag);
        var j :| 0 <= j < |gs| && gs[j].id == tag;
        assert Ids(gs)[j] == tag;
      }
    }
    SameSize(Ids(gs), Tags(ds));
  }

  lemma {:induction false} MergedSize(file: seq<byte>, ds: seq<TagDef>)
    ensures Sum(GroupSize, Merged(file, ds)) == Sum(DefSize(file), ds)
  {
    hide ModulesAt;
    if ds != [] {
      var n := |ds| - 1;
      MergedSize(file, ds[..n]);
      AddDefSize(file, Merged(file, ds[..n]), ds[n]);
    }
  }

  lemma AddDefSize(file: seq<byte>, gs: seq<Group>, d: TagDef)
    ensures Sum(GroupSize, AddDef(file, gs, d)) == Sum(GroupSize, gs) + Word(file, d.defOff)
  {
    hide Word;
    var n, ms := |gs|, ModulesAt(file, d.defOff);
    if n > 0 && gs[n - 1].id == d.tag {
      var g := Group(d.tag, gs[n - 1].modules + ms);
      assert gs == gs[..n - 1] + [gs[n - 1]] && AddDef(file, gs, d) == gs[..n - 1] + [g];
      SumSnoc(GroupSize, gs[..n - 1], gs[n - 1]);
      SumSnoc(GroupSize, gs[..n - 1], g);
    } else {
      SumSnoc(GroupSize, gs, Group(d.tag, ms));
    }
  }

  /**
    However the pairs come to be sorted: the groups have exactly the size the first walk computed, one
    group for each tag, and hold of each tag the modules of all its definitions, none lost or added.
   */
  lemma SortedGroups(file: seq<byte>, ds: seq<TagDef>, sorted: seq<TagDef>)
    requires Permuted(sorted, ds) && SortedBy(TagKey, sorted)
    ensures var gs := Merged(file, sorted);
      && 4 * |Serialized(gs)| == ListSize(file, ds) && |gs| == |Tags(ds)| && AscendingIds(gs)
      && (forall i | 0 <= i < |gs| :: multiset(gs[i].modules) == multiset(Flat(Under(file, gs[i].id), ds)))
  {
    hide SortedBy, Tags;
    var gs := Merged(file, sorted);
    MergedMeans(file, sorted);
    GroupsCount(file, sorted, gs);
    SameTags(sorted, ds);
    MergedSize(file, sorted);
    SerializedSize(gs);
    SumPermuted(DefSize(file), sorted, ds);
    forall i | 0 <= i < |gs|
      ensures multiset(gs[i].modules) == multiset(Flat(Under(file, gs[i].id), ds))
    {
      assert Complete(file, sorted, gs[i]);
      FlatPermuted(Under(file, gs[i].id), sorted, ds);
    }
  }

  /**
    What a data query writes, in terms of the request: a client reading it finds one group for each tag that a row
    of a requested subgraph has, with the modules that all such rows list, each as often as they do.
   */
  lemma GroupsOfRequest(db: TagDb, sgIds: seq<u32>, sorted: seq<TagDef>, tag: u32)
    requires Permuted(sorted, AllDefs(db, sgIds)) && SortedBy(TagKey, sorted)
    ensures var gs := Merged(db.file, sorted);
      && AscendingIds(gs) && (HasGroup(gs, tag) <==> TagRequested(db, sgIds, tag))
      && (forall i | 0 <= i < |gs| && gs[i].id == tag ::
            multiset(gs[i].modules) == RequestModules(db, sgIds, tag, |sgIds|))
      && ((forall i | 0 <= i < |gs| :: |gs[i].modules| < WORD_LIMIT) ==> ReadGroups(Serialized(gs)) == gs)
  {
    hide Merged, AllDefs, Under, Flat, TagRequested, RequestModules, Serialized;
    var ds, gs := AllDefs(db, sgIds), Merged(db.file, sorted);
    SortedGroups(db.file, ds, sorted);
    MergedMeans(db.file, sorted);
    UnderRequest(db, sgIds, tag, |sgIds|);
    assert sgIds[..|sgIds|] == sgIds;
    TagOfRequest(db, sgIds, tag);
    PermutedMembers(sorted, ds);
    GroupOfTag(db.file, ds, sorted, gs, tag);
    if forall i | 0 <= i < |gs| :: |gs[i].modules| < WORD_LIMIT {
      GroupsReadBack(gs);
    }
  }

  lemma GroupOfTag(file: seq<byte>, ds: seq<TagDef>, sorted: seq<TagDef>, gs: seq<Group>, tag: u32)
    requires Groups(file, sorted, gs) && forall d :: d in sorted <==> d in ds
    ensures HasGroup(gs, tag) <==> HasTag(ds, tag)
  {
    hide Flat;
    if HasGroup(gs, tag) {
      var j :| 0 <= j < |gs| && gs[j].id == tag;
      assert Complete(file, sorted, gs[j]);
      var k :| 0 <= k < |sorted| && sorted[k].tag == tag;
      assert sorted[k] in ds;
    }
    if HasTag(ds, tag) {
      var k :| 0 <= k < |ds| && ds[k].tag == tag;
      assert ds[k] in sorted;
      var i :| 0 <= i < |sorted| && sorted[i] == ds[k];
      assert HasGroup(gs, sorted[i].tag);
    }
  }

  /** A LUT in the file: a count, then <subgraph, tag, definition> rows. */
  lemma LutRead(db: TagDb, rows: seq<seq<u32>>, k: nat)
    requires k < |rows| && forall i | 0 <= i < |rows| :: |rows[i]| == 3
    requires At(db.file, db.lut, Words([Low32(|rows|)] + Flat((row: seq<u32>) => row, rows)))
    ensures LutRow(db, k) == rows[k]
  {
    hide At, Words, Word, Flat;
    var f := (row: seq<u32>) => row;
    FlatUniform(f, rows, 3, k);
    var ws := [Low32(|rows|)] + Flat(f, rows);
    WordsRead(db.file, db.lut, ws, 1 + k * 3, 3);
    assert ws[1 + k * 3..1 + k * 3 + 3] == Flat(f, rows)[k * 3..k * 3 + 3];
    assert db.lut + 4 * (1 + k * 3) == db.lut + 4 + 12 * k;
  }

  lemma SameTags(a: seq<TagDef>, b: seq<TagDef>)
    requires Permuted(a, b)
    ensures |Tags(a)| == |Tags(b)|
  {
    PermutedMembers(a, b);
    TagsHold(a);
    TagsHold(b);
    forall tag
      ensures HasTag(a, tag) <==> HasTag(b, tag)
    {
      if HasTag(a, tag) {
        var i :| 0 <= i < |a| && a[i].tag == tag;
        assert a[i] in b;
      }
      if HasTag(b, tag) {
        var i :| 0 <= i < |b| && b[i].tag == tag;
        assert b[i] in a;
      }
    }
    SameSize(Tags(a), Tags(b));
  }

  // ---------------------------------------------------------------- one subgraph's rows

  lemma RowsAscend(rows: seq<seq<u32>>, i: nat, j: nat)
    requires SortedRows(rows, 1) && i <= j < |rows|
    ensures rows[i][0] <= rows[j][0]
  {
    if i < j {
      assert Compare(rows[i], rows[j], 1) <= 0;
    }
  }

  lemma {:induction false} DefsNone(db: TagDb, sgId: u32, j: nat, k: nat)
    requires j <= k && forall i | j <= i < k :: LutRow(db, i)[0] != sgId
    ensures DefsOf(db, sgId, k) == DefsOf(db, sgId, j)
  {
    hide LutRow;
    if j < k {
      DefsNone(db, sgId, j, k - 1);
    }
  }

  lemma NoDefs(db: TagDb, sgId: u32)
    ensures DefsOf(db, sgId, 0) == []
  {
  }

  lemma DefsNext(db: TagDb, sgId: u32, k: nat, before: seq<TagDef>)
    requires LutRow(db, k)[0] == sgId
    ensures before + DefsOf(db, sgId, k + 1) ==
            before + DefsOf(db, sgId, k) + [TagDef(LutRow(db, k)[1], db.def + LutRow(db, k)[2])]
  {
    hide LutRow;
  }

  /** The rows of a subgraph end where the first row of another one follows. */
  lemma DefsEnd(db: TagDb, sgId: u32, j: nat)
    requires SortedRows(LutRows(db), 1) && 0 < j < db.numEntries
    requires LutRow(db, j - 1)[0] == sgId != LutRow(db, j)[0]
    ensures DefsOf(db, sgId, db.numEntries) == DefsOf(db, sgId, j)
  {
    hide LutRow;
    var rows := LutRows(db);
    RowsAscend(rows, j - 1, j);
    forall i | j <= i < db.numEntries
      ensures LutRow(db, i)[0] != sgId
    {
      RowsAscend(rows, j, i);
    }
    DefsNone(db, sgId, j, db.numEntries);
  }

  // ---------------------------------------------------------------- the groups as they are written

  lemma NewTagSerializes(gs: seq<Group>, tag: u32, ms: seq<ModuleInstance>)
    ensures Serialized(gs + [Group(tag, ms)]) == Serialized(gs) + [tag, Low32(|ms|)] + Flat(ModuleWords, ms)
  {
    hide Flat;
    FlatSnoc(GroupWords, gs, Group(tag, ms));
  }

  /** words' are words with the one at a position replaced, and more behind them. */
  ghost predicate Patched(words: seq<u32>, words': seq<u32>, at: nat, c: u32, more: seq<u32>) {
    at < |words| && words' == words[..at] + [c] + words[at + 1..] + more
  }

  lemma SameTagSerializes(gs: seq<Group>, ms: seq<ModuleInstance>)
    requires gs != []
    ensures var n := |gs| - 1;
      var g := gs[n];
      Patched(Serialized(gs), Serialized(gs[n := Group(g.id, g.modules + ms)]), |Serialized(gs[..n])| + 1,
              Low32(|g.modules + ms|), Flat(ModuleWords, ms))
  {
    hide Flat, ModuleWords, Serialized, Low32, Patched;
    var n := |gs| - 1;
    var g := gs[n];
    var g' := Group(g.id, g.modules + ms);
    var a, b, more := Serialized(gs[..n]), Flat(ModuleWords, g.modules), Flat(ModuleWords, ms);
    assert gs == gs[..n] + [g] && gs[n := g'] == gs[..n] + [g'];
    NewTagSerializes(gs[..n], g.id, g.modules);
    NewTagSerializes(gs[..n], g.id, g'.modules);
    FlatConcat(ModuleWords, g.modules, ms);
    PatchCount(Serialized(gs), Serialized(gs[n := g']), a, g.id, Low32(|g.modules|), Low32(|g'.modules|), b, more);
  }

  lemma PatchCount(s: seq<u32>, s': seq<u32>, a: seq<u32>, id: u32, c: u32, c': u32, b: seq<u32>, more: seq<u32>)
    requires s == a + [id, c] + b && s' == a + [id, c'] + (b + more)
    ensures Patched(s, s', |a| + 1, c', more)
  {
    assert s[..|a| + 1] == a + [id] && s[|a| + 2..] == b;
  }

  /** The words written so far are these groups; the last group's count can be patched. */
  ghost predicate Writing(words: seq<u32>, countAt: nat, total: nat, prev: u32, gs: seq<Group>) {
    && words == Serialized(gs)
    && (gs != [] ==>
          var n := |gs| - 1;
          countAt == |Serialized(gs[..n])| + 1 && total == |gs[n].modules| && prev == gs[n].id)
  }

  lemma WritingNew(words: seq<u32>, countAt: nat, total: nat, prev: u32, gs: seq<Group>, file: seq<byte>, d: TagDef)
    requires Writing(words, countAt, total, prev, gs) && !(gs != [] && gs[|gs| - 1].id == d.tag)
    ensures var ms, after := ModulesAt(file, d.defOff), AddDef(file, gs, d);
      && Writing(words + [d.tag, |ms|] + Flat(ModuleWords, ms), |words| + 1, |ms|, d.tag, after)
      && |Serialized(after)| == |words| + 2 + 2 * |ms|
  {
    hide Word, Serialized, Flat, ModuleWords;
    var ms := ModulesAt(file, d.defOff);
    ModuleWordsSize(ms);
    NewTagSerializes(gs, d.tag, ms);
    assert AddDef(file, gs, d)[..|gs|] == gs;
  }

  lemma WritingSameSize(words: seq<u32>, countAt: nat, total: nat, prev: u32, gs: seq<Group>, file: seq<byte>,
                        d: TagDef)
    requires Writing(words, countAt, total, prev, gs) && gs != [] && gs[|gs| - 1].id == d.tag
    ensures countAt < |words| && |Serialized(AddDef(file, gs, d))| == |words| + 2 * |ModulesAt(file, d.defOff)|
  {
    hide Word, Serialized, Flat, ModuleWords;
    var ms := ModulesAt(file, d.defOff);
    ModuleWordsSize(ms);
    SameTagSerializes(gs, ms);
    PatchedSize(words, Serialized(AddDef(file, gs, d)), countAt, Low32(total + |ms|), Flat(ModuleWords, ms));
  }

  lemma PatchedInPlace(words: seq<u32>, patched: seq<u32>, words': seq<u32>, at: nat, c: u32, more: seq<u32>)
    requires at < |words| == |patched| && patched[at] == c && words' == patched + more
    requires forall i | 0 <= i < |words| && i != at :: patched[i] == words[i]
    ensures Patched(words, words', at, c, more)
  {
    assert patched == words[..at] + [c] + words[at + 1..];
  }

  lemma PatchedSize(words: seq<u32>, words': seq<u32>, at: nat, c: u32, more: seq<u32>)
    requires Patched(words, words', at, c, more)
    ensures at < |words| && |words'| == |words| + |more|
  {
  }

  lemma WritingSame(words: seq<u32>, words': seq<u32>, countAt: nat, total: nat, prev: u32, gs: seq<Group>,
                    file: seq<byte>, d: TagDef)
    requires Writing(words, countAt, total, prev, gs) && gs != [] && gs[|gs| - 1].id == d.tag
    requires var ms := ModulesAt(file, d.defOff);
      Patched(words, words', countAt, Low32(total + |ms|), Flat(ModuleWords, ms))
    ensures Writing(words', countAt, total + |ModulesAt(file, d.defOff)|, d.tag, AddDef(file, gs, d))
  {
    hide Word, Serialized, Flat, ModuleWords;
    SameTagSerializes(gs, ModulesAt(file, d.defOff));
    var n := |gs| - 1;
    assert AddDef(file, gs, d)[..n] == gs[..n];
  }

  method PutModules(list: array<u32>, off: nat, file: seq<byte>, defOff: nat)
    requires off + 2 * |ModulesAt(file, defOff)| <= list.Length
    modifies list
    ensures var ws := Flat(ModuleWords, ModulesAt(file, defOff));
      off + |ws| <= list.Length && list[..off + |ws|] == old(list[..off]) + ws
  {
    hide Word, Flat, ModuleWords;
    var ms := ModulesAt(file, defOff);
    ModuleWordsSize(ms);
    NoModuleWords(ms);
    for i := 0 to |ms|
      invariant list[..off] == old(list[..off])
      invariant list[off..off + 2 * i] == Flat(ModuleWords, ms[..i])
    {
      assert ms[..i + 1] == ms[..i] + [ms[i]];
      FlatSnoc(ModuleWords, ms[..i], ms[i]);
      ghost var done := list[off..off + 2 * i];
      list[off + 2 * i], list[off + 2 * i + 1] := ms[i].mid, ms[i].iid;
      assert list[off..off + 2 * i] == done;
      TwoWords(ms[i]);
      assert list[off..off + 2 * (i + 1)] == done + [ms[i].mid, ms[i].iid];
    }
    assert ms[..|ms|] == ms;
  }

  lemma NoModuleWords(ms: seq<ModuleInstance>)
    ensures Flat(ModuleWords, ms[..0]) == []
  {
  }

  lemma TwoWords(m: ModuleInstance)
    ensures ModuleWords(m) == [m.mid, m.iid]
  {
  }

  lemma NothingWritten(file: seq<byte>, words: seq<u32>, countAt: nat, total: nat, prev: u32)
    requires words == []
    ensures Merged(file, []) == [] && Writing(words, countAt, total, prev, [])
  {
  }

  lemma WritingMeans(words: seq<u32>, countAt: nat, total: nat, prev: u32, gs: seq<Group>)
    requires Writing(words, countAt, total, prev, gs)
    ensures words == Serialized(gs) && (gs != [] ==> prev == gs[|gs| - 1].id)
  {
  }

  lemma {:induction false} MergedGrows(file: seq<byte>, ds: seq<TagDef>, j: nat, k: nat)
    requires j <= k <= |ds|
    ensures |Serialized(Merged(file, ds[..j]))| <= |Serialized(Merged(file, ds[..k]))|
  {
    hide Serialized, AddDef;
    if j < k {
      MergedGrows(file, ds, j, k - 1);
      assert ds[..k][..k - 1] == ds[..k - 1];
      AddDefGrows(file, Merged(file, ds[..k - 1]), ds[k - 1]);
    }
  }

  lemma AddDefGrows(file: seq<byte>, gs: seq<Group>, d: TagDef)
    ensures |Serialized(gs)| <= |Serialized(AddDef(file, gs, d))|
  {
    hide Serialized, ModulesAt;
    AddDefSize(file, gs, d);
    SerializedSize(gs);
    SerializedSize(AddDef(file, gs, d));
  }

  lemma MergedNext(file: seq<byte>, ds: seq<TagDef>, i: nat)
    requires i < |ds|
    ensures Merged(file, ds[..i + 1]) == AddDef(file, Merged(file, ds[..i]), ds[i])
    ensures Merged(file, ds[..i]) == [] <==> i == 0
    ensures |Serialized(Merged(file, ds[..i + 1]))| <= |Serialized(Merged(file, ds))|
  {
    hide Serialized, ModulesAt;
    MergedGrows(file, ds, i + 1, |ds|);
    assert ds[..|ds|] == ds;
    assert ds[..i + 1][..i] == ds[..i];
  }

  // ---------------------------------------------------------------- BuildGetTagsFromGkvRsp

  class TagsResponse {
    const db: TagDb
    /** The client's buffer; no elements stand for a null pointer. */
    const list: array<u32>
    var numTags: nat
    var listSize: nat
    var foundTags: seq<u32>
    var defs: seq<TagDef>

    constructor (db: TagDb, list: array<u32>)
      ensures this.db == db && this.list == list
    {
      this.db, this.list := db, list;
      numTags, listSize, foundTags, defs := 0, 0, [], [];
    }

    /** The first walk has come to these definitions. */
    ghost predicate Collected(ds: seq<TagDef>)
      reads this`numTags, this`listSize, this`foundTags, this`defs
    {
      defs == ds && foundTags == Tags(ds) && numTags == |foundTags| && listSize == ListSize(db.file, ds)
    }

    /** One row of the LUT. */
    method AddRow(tag: u32, defOff: nat)
      requires Collected(defs)
      modifies this`numTags, this`listSize, this`foundTags, this`defs
      ensures Collected(old(defs) + [TagDef(tag, defOff)])
    {
      var newTagFound := true;
      for j := 0 to |foundTags|
        invariant newTagFound && tag !in foundTags[..j]
      {
        if tag == foundTags[j] {
          newTagFound := false;
          break;
        }
      }
      var d := TagDef(tag, defOff);
      SumSnoc(DefSize(db.file), defs, d);
      assert (defs + [d])[..|defs|] == defs;
      var size := 8 * Word(db.file, defOff);
      if newTagFound {
        foundTags := foundTags + [tag];
        size := 4 + 4 + size;
        numTags := numTags + 1;
      }
      defs := defs + [d];
      listSize := listSize + size;
    }

    /** The rows of one subgraph, from the first one on. */
    method CollectSubgraph(sgId: u32)
      requires LutFits(db, [sgId]) && Collected(defs)
      modifies this`numTags, this`listSize, this`foundTags, this`defs
      ensures Collected(old(defs) + DefsOf(db, sgId, db.numEntries))
    {
      hide LutRow, Collected, SortedRows, Word, DefsOf;
      var rows := LutRows(db);
      var first := BinarySearch(rows, [sgId], 1);
      assert forall i | 0 <= i < |rows| :: rows[i][..1] == [rows[i][0]];
      assert [sgId][..1] == [sgId];
      if first.None? {
        NoDefs(db, sgId);
        DefsNone(db, sgId, 0, db.numEntries);
        assert defs + [] == defs;
        return;
      }
      NoDefs(db, sgId);
      DefsNone(db, sgId, 0, first.value);
      ghost var before := defs;
      var next := first.value;
      assert before + [] == before;
      while next < db.numEntries
        invariant first.value <= next <= db.numEntries && Collected(defs) && defs == before + DefsOf(db, sgId, next)
        invariant next == first.value ==> LutRow(db, next)[0] == sgId
        invariant next > first.value ==> LutRow(db, next - 1)[0] == sgId
      {
        var row := LutRow(db, next);
        if sgId != row[0] {
          DefsEnd(db, sgId, next);
          return;
        }
        DefsNext(db, sgId, next, before);
        AddRow(row[1], db.def + row[2]);
        next := next + 1;
      }
    }

    /** GetTagsFromGkvGetSize. */
    method GetSize(sgIds: seq<u32>)
      requires LutFits(db, sgIds)
      modifies this`numTags, this`listSize, this`foundTags, this`defs
      ensures Collected(AllDefs(db, sgIds))
    {
      hide LutRows, SortedRows, DefsOf;
      numTags, listSize, foundTags, defs := 0, 0, [], [];
      for i := 0 to |sgIds|
        invariant Collected(AllDefs(db, sgIds[..i]))
      {
        assert sgIds[..i + 1][..i] == sgIds[..i];
        CollectSubgraph(sgIds[i]);
      }
      assert sgIds[..|sgIds|] == sgIds;
    }

    /** The first definition of a tag: tag, number of modules, modules. */
    method WriteNewTag(d: TagDef, off: nat, ghost countAt: nat, ghost total: nat, ghost prev: u32, ghost gs: seq<Group>)
      returns (status: Status, off': nat)
      requires off <= list.Length && 4 * list.Length >= listSize && Writing(list[..off], countAt, total, prev, gs)
      requires !(gs != [] && gs[|gs| - 1].id == d.tag)
      modifies list
      ensures status == (if 4 * |Serialized(AddDef(db.file, gs, d))| <= listSize then EOK else ENEEDMORE)
      ensures status == EOK ==>
        && off' <= list.Length
        && Writing(list[..off'], off + 1, |ModulesAt(db.file, d.defOff)|, d.tag, AddDef(db.file, gs, d))
    {
      hide Word, Serialized, Flat, ModuleWords, Writing, AddDef;
      var numModules := |ModulesAt(db.file, d.defOff)|;
      ghost var words := list[..off];
      ModuleWordsSize(ModulesAt(db.file, d.defOff));
      WritingNew(words, countAt, total, prev, gs, db.file, d);
      off' := off;
      if listSize < 4 * (off + 1) || listSize < 4 * (off + 2) || listSize < 4 * (off + 2 + 2 * numModules) {
        return ENEEDMORE, off';
      }
      list[off] := d.tag;
      list[off + 1] := numModules;
      off' := off + 2;
      assert list[..off'] == words + [d.tag, numModules];
      PutModules(list, off', db.file, d.defOff);
      off' := off' + 2 * numModules;
      status := EOK;
    }

    /** A further definition of the last tag: its count patched, more modules behind. */
    method WriteMoreModules(d: TagDef, off: nat, countAt: nat, total: nat, ghost prev: u32, ghost gs: seq<Group>)
      returns (status: Status, off': nat, total': nat)
      requires off <= list.Length && 4 * list.Length >= listSize && Writing(list[..off], countAt, total, prev, gs)
      requires gs != [] && gs[|gs| - 1].id == d.tag
      modifies list
      ensures status == (if 4 * |Serialized(AddDef(db.file, gs, d))| <= listSize then EOK else ENEEDMORE)
      ensures status == EOK ==>
        off' <= list.Length && Writing(list[..off'], countAt, total', d.tag, AddDef(db.file, gs, d))
    {
      hide Word, Serialized, Flat, ModuleWords, Writing, AddDef, Patched;
      var numModules := |ModulesAt(db.file, d.defOff)|;
      ghost var words := list[..off];
      ModuleWordsSize(ModulesAt(db.file, d.defOff));
      WritingSameSize(words, countAt, total, prev, gs, db.file, d);
      total', off' := total + numModules, off;
      if listSize < 4 * (countAt + 1) || listSize < 4 * (off + 2 * numModules) {
        return ENEEDMORE, off', total';
      }
      list[countAt] := Low32(total');
      ghost var patched := list[..off];
      PutModules(list, off, db.file, d.defOff);
      off' := off + 2 * numModules;
      PatchedInPlace(words, patched, list[..off'], countAt, Low32(total'),
                     Flat(ModuleWords, ModulesAt(db.file, d.defOff)));
      WritingSame(words, list[..off'], countAt, total, prev, gs, db.file, d);
      status := EOK;
    }

    /** GetTagsFromGkvGetData, for a client that allocated what it was told to. */
    method GetData(ghost ds: seq<TagDef>) returns (status: Status, written: nat, ghost sorted: seq<TagDef>)
      requires Collected(ds) && 4 * list.Length >= listSize
      modifies list
      ensures status == if ds == [] then EBADPARAM else EOK
      ensures Permuted(sorted, ds) && SortedBy(TagKey, sorted)
      ensures status == EOK ==> 4 * written == listSize && list[..written] == Serialized(Merged(db.file, sorted))
    {
      hide Writing, Serialized, Merged, AddDef, Permuted, SortedBy, ListSize, Tags, Word, Groups;
      var found := defs;
      var pairs := new TagDef[|found|](i requires 0 <= i < |found| => found[i]);
      assert pairs[..] == ds;
      status := Sort2(TagKey, pairs);
      sorted, written := pairs[..], 0;
      if status != EOK {
        return;
      }
      SortedGroups(db.file, ds, sorted);
      var countAt: nat, total: nat, prevTag := 0, 0, 0;
      NothingWritten(db.file, list[..0], countAt, total, prevTag);
      for i := 0 to pairs.Length
        invariant status == EOK && pairs[..] == sorted && written <= list.Length
        invariant Writing(list[..written], countAt, total, prevTag, Merged(db.file, sorted[..i]))
        invariant i > 0 ==> prevTag == sorted[i - 1].tag
      {
        var d := pairs[i];
        ghost var gs := Merged(db.file, sorted[..i]);
        MergedNext(db.file, sorted, i);
        WritingMeans(list[..written], countAt, total, prevTag, gs);
        if prevTag != d.tag || i == 0 {
          var next;
          status, next := WriteNewTag(d, written, countAt, total, prevTag, gs);
          written, countAt, total := next, written + 1, |ModulesAt(db.file, d.defOff)|;
        } else {
          status, written, total := WriteMoreModules(d, written, countAt, total, prevTag, gs);
        }
        prevTag := d.tag;
      }
      assert sorted[..pairs.Length] == sorted;
      WritingMeans(list[..written], countAt, total, prevTag, Merged(db.file, sorted));
    }

    /** BuildGetTagsFromGkvRsp: a second call works everything out again before it writes. */
    method Build(sgIds: seq<u32>) returns (status: Status, written: nat, ghost sorted: seq<TagDef>)
      requires LutFits(db, sgIds) && (list.Length == 0 || 4 * list.Length >= ListSize(db.file, AllDefs(db, sgIds)))
      modifies this`numTags, this`listSize, this`foundTags, this`defs, list
      ensures var ds := AllDefs(db, sgIds);
        && numTags == |Tags(ds)| && listSize == ListSize(db.file, ds)
        && status == (if numTags == 0 then ENOTEXIST else EOK)
        && (list.Length > 0 && status == EOK ==>
              && Permuted(sorted, ds) && SortedBy(TagKey, sorted)
              && 4 * written == listSize && list[..written] == Serialized(Merged(db.file, sorted)))
    {
      hide AllDefs, Tags, ListSize, Permuted, SortedBy, LutFits, Serialized, Merged;
      GetSize(sgIds);
      written, sorted := 0, [];
      SomeTags(AllDefs(db, sgIds));
      if list.Length > 0 {
        status, written, sorted := GetData(AllDefs(db, sgIds));
      }
      status := if numTags == 0 then ENOTEXIST else EOK;
    }
  }

  lemma SomeTags(ds: seq<TagDef>)
    ensures |Tags(ds)| == 0 <==> ds == []
  {
  }
}
