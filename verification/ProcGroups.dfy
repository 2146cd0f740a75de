/**
  Tagged modules grouped by processor inside one response buffer: a module of a known processor is
  put behind the processor's other modules, and everything behind it moves down.
 */
module ProcGroups {
  import opened Bytes
  import opened Search
  import opened SubgraphMap
  import opened ModuleGroups

  /** A module as it is visited: its processor, and how many modules its definition list has. */
  datatype Visit = Visit(proc: u32, m: ModuleInstance, listLength: nat)

  // ---------------------------------------------------------------- stable group-by

  predicate HasProc(gs: seq<Group>, proc: u32) {
    exists i | 0 <= i < |gs| :: gs[i].id == proc
  }

  function IndexOf(gs: seq<Group>, proc: u32): (k: nat)
    requires HasProc(gs, proc)
    ensures k < |gs| && gs[k].id == proc
  {
    if gs[0].id == proc then 0
    else
      assert HasProc(gs[1..], proc) by {
        var i :| 0 <= i < |gs| && gs[i].id == proc;
        assert gs[1..][i - 1].id == proc;
      }
      IndexOf(gs[1..], proc) + 1
  }

  /** One more module: at the end of its processor's group, or in a new group at the end. */
  function AddVisit(gs: seq<Group>, v: Visit): seq<Group> {
    if HasProc(gs, v.proc) then
      var k := IndexOf(gs, v.proc);
      gs[k := Group(v.proc, gs[k].modules + [v.m])]
    else gs + [Group(v.proc, [v.m])]
  }

  function Grouped(vs: seq<Visit>): seq<Group> {
    if vs == [] then [] else AddVisit(Grouped(vs[..|vs| - 1]), vs[|vs| - 1])
  }

  /** The modules of one processor in the order they were visited. */
  function ModulesOn(vs: seq<Visit>, proc: u32): seq<ModuleInstance> {
    if vs == [] then []
    else
      var before, v := ModulesOn(vs[..|vs| - 1], proc), vs[|vs| - 1];
      if v.proc == proc then before + [v.m] else before
  }

  /** The processors in the order they were first visited. */
  function ProcsOfVisits(vs: seq<Visit>): seq<u32> {
    if vs == [] then []
    else
      var before, proc := ProcsOfVisits(vs[..|vs| - 1]), vs[|vs| - 1].proc;
      if proc in before then before else before + [proc]
  }

  lemma {:induction false} GroupedIds(vs: seq<Visit>)
    ensures Ids(Grouped(vs)) == ProcsOfVisits(vs) && Distinct(Ids(Grouped(vs)))
  {
    hide AddVisit, HasProc, Distinct, Ids;
    if vs != [] {
      GroupedIds(vs[..|vs| - 1]);
      AddVisitMeans(Grouped(vs[..|vs| - 1]), vs[|vs| - 1]);
    } else {
      NoGroups();
    }
  }

  lemma NoGroups()
    ensures Ids(Grouped([])) == [] && Distinct(Ids(Grouped([])))
  {
  }

  /** The groups are the stable group-by of what was visited. */
  lemma {:induction false} GroupedMeans(vs: seq<Visit>)
    ensures var gs := Grouped(vs);
      && Ids(gs) == ProcsOfVisits(vs) && Distinct(Ids(gs))
      && forall i | 0 <= i < |gs| :: gs[i].modules == ModulesOn(vs, gs[i].id)
  {
    hide AddVisit, HasProc, Distinct, Grouped, ProcsOfVisits, ModulesOn;
    GroupedIds(vs);
    if vs != [] {
      GroupedMeans(vs[..|vs| - 1]);
      forall i | 0 <= i < |Grouped(vs)|
        ensures Grouped(vs)[i].modules == ModulesOn(vs, Grouped(vs)[i].id)
      {
        OneGroup(vs, i);
      }
    } else {
      NoGroups();
    }
  }

  lemma OneGroup(vs: seq<Visit>, i: nat)
    requires vs != [] && i < |Grouped(vs)|
    requires var gs := Grouped(vs[..|vs| - 1]);
      forall j | 0 <= j < |gs| :: gs[j].modules == ModulesOn(vs[..|vs| - 1], gs[j].id)
    ensures Grouped(vs)[i].modules == ModulesOn(vs, Grouped(vs)[i].id)
  {
    hide AddVisit, HasProc, Distinct;
    var n := |vs| - 1;
    var gs, after, v := Grouped(vs[..n]), Grouped(vs), vs[n];
    GroupedIds(vs[..n]);
    NoModules(vs[..n], v.proc);
    AddVisitMeans(gs, v);
    assert after == AddVisit(gs, v);
    assert after[i].id == Ids(after)[i];
    if i < |gs| {
      assert Ids(after)[i] == Ids(gs)[i] == gs[i].id;
    } else {
      assert Ids(after)[i] == v.proc && i == |gs|;
    }
  }

  lemma {:induction false} NoModules(vs: seq<Visit>, proc: u32)
    ensures proc !in ProcsOfVisits(vs) ==> ModulesOn(vs, proc) == []
  {
    if vs != [] {
      NoModules(vs[..|vs| - 1], proc);
    }
  }

  lemma AddVisitMeans(gs: seq<Group>, v: Visit)
    requires Distinct(Ids(gs))
    ensures var after, procs := AddVisit(gs, v), Ids(gs);
      && (HasProc(gs, v.proc) <==> v.proc in procs)
      && Ids(after) == (if v.proc in procs then procs else procs + [v.proc])
      && Distinct(Ids(after))
      && (forall i | 0 <= i < |gs| ::
            after[i].modules == if gs[i].id == v.proc then gs[i].modules + [v.m] else gs[i].modules)
      && (|after| > |gs| ==> after[|gs|].modules == [v.m])
  {
    var procs := Ids(gs);
    if v.proc in procs {
      var i :| 0 <= i < |procs| && procs[i] == v.proc;
      assert gs[i].id == v.proc;
      var k := IndexOf(gs, v.proc);
      assert procs[k] == v.proc;
    }
  }

  /** Every module visited is in exactly one group, once for each visit. */
  lemma {:induction false} NothingLost(vs: seq<Visit>)
    ensures Sum(GroupSize, Grouped(vs)) == |vs|
  {
    hide AddVisit;
    if vs != [] {
      NothingLost(vs[..|vs| - 1]);
      AddVisitSize(Grouped(vs[..|vs| - 1]), vs[|vs| - 1]);
    }
  }

  lemma AddVisitSize(gs: seq<Group>, v: Visit)
    ensures Sum(GroupSize, AddVisit(gs, v)) == Sum(GroupSize, gs) + 1
  {
    if HasProc(gs, v.proc) {
      var k := IndexOf(gs, v.proc);
      var g := Group(v.proc, gs[k].modules + [v.m]);
      assert gs == gs[..k] + [gs[k]] + gs[k + 1..] && gs[k := g] == gs[..k] + [g] + gs[k + 1..];
      SumConcat(GroupSize, gs[..k] + [gs[k]], gs[k + 1..]);
      SumConcat(GroupSize, gs[..k] + [g], gs[k + 1..]);
      SumSnoc(GroupSize, gs[..k], gs[k]);
      SumSnoc(GroupSize, gs[..k], g);
    } else {
      SumSnoc(GroupSize, gs, Group(v.proc, [v.m]));
    }
  }

  // ---------------------------------------------------------------- the groups in the buffer

  /** Where a group starts, in words. */
  function Offset(gs: seq<Group>, k: nat): nat
    requires k <= |gs|
  {
    |Serialized(gs[..k])|
  }

  lemma OffsetNext(gs: seq<Group>, k: nat)
    requires k < |gs|
    ensures Offset(gs, k + 1) == Offset(gs, k) + 2 + 2 * |gs[k].modules| <= |Serialized(gs)|
    ensures Serialized(gs) == Serialized(gs[..k]) + GroupWords(gs[k]) + Serialized(gs[k + 1..])
  {
    hide GroupWords, ModuleWords;
    ModuleWordsSize(gs[k].modules);
    assert gs[..k + 1] == gs[..k] + [gs[k]] && gs == gs[..k + 1] + gs[k + 1..];
    FlatSnoc(GroupWords, gs[..k], gs[k]);
    FlatConcat(GroupWords, gs[..k + 1], gs[k + 1..]);
  }

  lemma {:induction false} OffsetsAscend(gs: seq<Group>, j: nat, k: nat)
    requires j < k <= |gs|
    ensures Offset(gs, j) + 2 <= Offset(gs, k)
  {
    hide Offset;
    OffsetNext(gs, k - 1);
    if j < k - 1 {
      OffsetsAscend(gs, j, k - 1);
    }
  }

  /** What the buffer looks like when a module joins group k: its count, and two words at the group's end. */
  function Inserted(words: seq<u32>, off: nat, n: nat, m: ModuleInstance): seq<u32>
    requires off + 2 + 2 * n <= |words|
  {
    words[..off + 1] + [Low32(n + 1)] + words[off + 2..off + 2 + 2 * n] + ModuleWords(m) + words[off + 2 + 2 * n..]
  }

  lemma InsertSerializes(gs: seq<Group>, v: Visit)
    requires HasProc(gs, v.proc)
    ensures var k := IndexOf(gs, v.proc);
      var off, n := Offset(gs, k), |gs[k].modules|;
      && off + 2 + 2 * n <= |Serialized(gs)| && Serialized(gs)[off + 1] == Low32(n)
      && Serialized(AddVisit(gs, v)) == Inserted(Serialized(gs), off, n, v.m)
  {
    hide Inserted, GroupWords, ModuleWords, Low32, Flat;
    var k := IndexOf(gs, v.proc);
    var after := AddVisit(gs, v);
    OffsetNext(gs, k);
    OffsetNext(after, k);
    assert after[..k] == gs[..k] && after[k + 1..] == gs[k + 1..];
    InsertInGroup(Serialized(gs[..k]), gs[k], Serialized(gs[k + 1..]), v.m);
  }

  lemma InsertInGroup(a: seq<u32>, g: Group, b: seq<u32>, m: ModuleInstance)
    ensures var n := |g.modules|;
      && |GroupWords(g)| == 2 + 2 * n
      && (a + GroupWords(g) + b)[|a| + 1] == Low32(n)
      && Inserted(a + GroupWords(g) + b, |a|, n, m) == a + GroupWords(Group(g.id, g.modules + [m])) + b
  {
    hide ModuleWords, Low32, Flat;
    ModuleWordsSize(g.modules);
    FlatSnoc(ModuleWords, g.modules, m);
    var n, body := |g.modules|, Flat(ModuleWords, g.modules);
    var words := a + GroupWords(g) + b;
    assert words == a + [g.id, Low32(n)] + body + b;
    assert words[..|a| + 1] == a + [g.id];
    assert words[|a| + 2..|a| + 2 + 2 * n] == body;
    assert words[|a| + 2 + 2 * n..] == b;
    assert a + GroupWords(Group(g.id, g.modules + [m])) + b == a + [g.id] + [Low32(n + 1)] + body + ModuleWords(m) + b;
  }

  // ---------------------------------------------------------------- the index of processors

  /** AcdbProcDomainOffsetPair. */
  datatype ProcOffset = ProcOffset(proc: u32, offset: nat)

  function ProcKey(p: ProcOffset): nat {
    p.proc
  }

  /** The pair of each group; during the size pass all offsets are zero. */
  function Index(gs: seq<Group>, isData: bool): (r: seq<ProcOffset>)
    ensures |r| == |gs|
  {
    seq(|gs|, k requires 0 <= k < |gs| => ProcOffset(gs[k].id, if isData then Offset(gs, k) else 0))
  }

  /** The list is sorted by processor, and in that order holds the offsets of exactly these groups. */
  ghost predicate Indexed(list: seq<ProcOffset>, gs: seq<Group>, isData: bool) {
    && |list| == |gs| && SortedBy(ProcKey, list)
    && forall p :: p in list <==> p in Index(gs, isData)
  }

  /** How the offset of a processor changes when a module of another one is inserted at from. */
  function Moved(p: ProcOffset, proc: u32, from: nat): ProcOffset {
    if p.proc != proc && p.offset > from then ProcOffset(p.proc, p.offset + 2) else p
  }

  function MovedAll(list: seq<ProcOffset>, proc: u32, from: nat): (r: seq<ProcOffset>)
    ensures |r| == |list|
  {
    seq(|list|, i requires 0 <= i < |list| => Moved(list[i], proc, from))
  }

  lemma OffsetsAfter(gs: seq<Group>, v: Visit, h: nat)
    requires Distinct(Ids(gs)) && HasProc(gs, v.proc) && h < |gs|
    ensures var after, k := AddVisit(gs, v), IndexOf(gs, v.proc);
      ProcOffset(after[h].id, Offset(after, h)) == Moved(ProcOffset(gs[h].id, Offset(gs, h)), v.proc, Offset(gs, k))
  {
    hide Offset, IndexOf;
    var k := IndexOf(gs, v.proc);
    var procs := Ids(gs);
    if h <= k {
      OffsetOfEarlier(gs, v, h);
      if h < k {
        OffsetsAscend(gs, h, k);
        assert procs[h] != procs[k];
      }
    } else {
      OffsetsAscend(gs, k, h);
      assert procs[k] != procs[h];
      OffsetOfLater(gs, v, h);
    }
  }

  lemma OffsetOfEarlier(gs: seq<Group>, v: Visit, h: nat)
    requires HasProc(gs, v.proc) && h <= IndexOf(gs, v.proc)
    ensures Offset(AddVisit(gs, v), h) == Offset(gs, h)
  {
    assert AddVisit(gs, v)[..h] == gs[..h];
  }

  lemma OffsetOfLater(gs: seq<Group>, v: Visit, h: nat)
    requires HasProc(gs, v.proc) && IndexOf(gs, v.proc) < h < |gs|
    ensures Offset(AddVisit(gs, v), h) == Offset(gs, h) + 2
  {
    hide AddVisit;
    var k := IndexOf(gs, v.proc);
    IndexOfPrefix(gs, v.proc, h);
    AddVisitPrefix(gs, v, h);
    AddVisitSize(gs[..h], v);
    SerializedSize(gs[..h]);
    SerializedSize(AddVisit(gs, v)[..h]);
  }

  lemma {:induction false} IndexOfPrefix(gs: seq<Group>, proc: u32, h: nat)
    requires HasProc(gs, proc) && IndexOf(gs, proc) < h <= |gs|
    ensures HasProc(gs[..h], proc) && IndexOf(gs[..h], proc) == IndexOf(gs, proc)
  {
    assert gs[..h][IndexOf(gs, proc)].id == proc;
    if gs[0].id != proc {
      assert HasProc(gs[1..], proc) by {
        assert gs[1..][IndexOf(gs, proc) - 1].id == proc;
      }
      IndexOfPrefix(gs[1..], proc, h - 1);
      assert gs[..h][1..] == gs[1..][..h - 1];
    }
  }

  lemma AddVisitPrefix(gs: seq<Group>, v: Visit, h: nat)
    requires HasProc(gs, v.proc) && IndexOf(gs, v.proc) < h <= |gs|
    requires HasProc(gs[..h], v.proc) && IndexOf(gs[..h], v.proc) == IndexOf(gs, v.proc)
    ensures |AddVisit(gs, v)| == |gs| && AddVisit(gs, v)[..h] == AddVisit(gs[..h], v) && |AddVisit(gs[..h], v)| == h
  {
  }

  /** Moving the offsets behind the insertion keeps the index right, in whatever order the list is. */
  lemma MovedIndexes(list: seq<ProcOffset>, gs: seq<Group>, v: Visit)
    requires Indexed(list, gs, true) && Distinct(Ids(gs)) && HasProc(gs, v.proc)
    ensures Indexed(MovedAll(list, v.proc, Offset(gs, IndexOf(gs, v.proc))), AddVisit(gs, v), true)
  {
    hide AddVisit, Offset, IndexOf;
    var after, from := AddVisit(gs, v), Offset(gs, IndexOf(gs, v.proc));
    var list' := MovedAll(list, v.proc, from);
    AddVisitMeans(gs, v);
    assert |after| == |gs| by {
      assert |Ids(after)| == |Ids(gs)|;
    }
    forall h | 0 <= h < |gs|
      ensures Index(after, true)[h] == Moved(Index(gs, true)[h], v.proc, from)
    {
      OffsetsAfter(gs, v, h);
    }
    MembersMoved(list, Index(gs, true), v.proc, from);
    assert Index(after, true) == MovedAll(Index(gs, true), v.proc, from);
  }

  lemma MembersMoved(a: seq<ProcOffset>, b: seq<ProcOffset>, proc: u32, from: nat)
    requires forall p :: p in a <==> p in b
    ensures forall p :: p in MovedAll(a, proc, from) <==> p in MovedAll(b, proc, from)
  {
    forall p
      ensures p in MovedAll(a, proc, from) <==> p in MovedAll(b, proc, from)
    {
      if p in MovedAll(a, proc, from) {
        MemberMoved(a, b, proc, from, p);
      }
      if p in MovedAll(b, proc, from) {
        MemberMoved(b, a, proc, from, p);
      }
    }
  }

  lemma MemberMoved(a: seq<ProcOffset>, b: seq<ProcOffset>, proc: u32, from: nat, p: ProcOffset)
    requires forall q :: q in a ==> q in b
    requires p in MovedAll(a, proc, from)
    ensures p in MovedAll(b, proc, from)
  {
    var i :| 0 <= i < |a| && MovedAll(a, proc, from)[i] == p;
    assert a[i] in b;
    var j :| 0 <= j < |b| && b[j] == a[i];
    assert MovedAll(b, proc, from)[j] == p;
  }

  // ---------------------------------------------------------------- the response buffer

  /** The list of processors lives in GLB_BUF_3, two words each. */
  const MAX_PROCS := 250

  /** The source's two checks; for a new processor it counts all modules of the list, not one. */
  predicate Room(gs: seq<Group>, v: Visit, cap: nat) {
    |Serialized(gs)| + (if HasProc(gs, v.proc) then 2 else 2 + 2 * v.listLength) <= cap
  }

  lemma NewGroupSerializes(gs: seq<Group>, v: Visit)
    requires !HasProc(gs, v.proc)
    ensures Serialized(AddVisit(gs, v)) == Serialized(gs) + [v.proc, 1] + ModuleWords(v.m)
  {
    var g := Group(v.proc, [v.m]);
    FlatSnoc(GroupWords, gs, g);
    FlatSnoc(ModuleWords, [], v.m);
    assert Flat(ModuleWords, [v.m]) == ModuleWords(v.m);
  }

  lemma NewGroupIndexes(list: seq<ProcOffset>, list': seq<ProcOffset>, gs: seq<Group>, v: Visit, isData: bool)
    requires Indexed(list, gs, isData) && !HasProc(gs, v.proc) && SortedBy(ProcKey, list')
    requires Permuted(list', list + [ProcOffset(v.proc, if isData then |Serialized(gs)| else 0)])
    ensures Indexed(list', AddVisit(gs, v), isData)
  {
    var p, after := ProcOffset(v.proc, if isData then |Serialized(gs)| else 0), AddVisit(gs, v);
    PermutedMembers(list', list + [p]);
    assert forall k | 0 <= k < |gs| :: after[..k] == gs[..k];
    assert after[..|gs|] == gs;
    assert Index(after, isData) == Index(gs, isData) + [p];
  }

  /** Moving n words up by two places, the last one first. */
  method MoveUp(buf: array<u32>, from: nat, n: nat)
    requires from + n + 2 <= buf.Length
    modifies buf
    ensures buf[..from] == old(buf[..from]) && buf[from + 2..from + 2 + n] == old(buf[from..from + n])
  {
    var i := n;
    while i > 0
      invariant 0 <= i <= n
      invariant forall j | 0 <= j < from + i :: buf[j] == old(buf[j])
      invariant forall j | from + i <= j < from + n :: buf[j + 2] == old(buf[j])
    {
      i := i - 1;
      buf[from + i + 2] := buf[from + i];
    }
    assert forall x | from + 2 <= x < from + 2 + n :: buf[x] == old(buf[x - 2]);
  }

  lemma InsertedParts(words: seq<u32>, off: nat, n: nat, m: ModuleInstance)
    requires off + 2 + 2 * n <= |words|
    ensures var entry, counted := off + 2 + 2 * n, words[off + 1 := Low32(n + 1)];
      Inserted(words, off, n, m) == counted[..entry] + ModuleWords(m) + counted[entry..]
  {
    var entry, counted := off + 2 + 2 * n, words[off + 1 := Low32(n + 1)];
    assert counted[..entry] == words[..off + 1] + [Low32(n + 1)] + words[off + 2..entry];
    assert counted[entry..] == words[entry..];
  }

  lemma Pieces(whole: seq<u32>, a: seq<u32>, b: seq<u32>, c: seq<u32>)
    requires |whole| == |a| + |b| + |c|
    requires whole[..|a|] == a && whole[|a|..|a| + |b|] == b && whole[|a| + |b|..] == c
    ensures whole == a + b + c
  {
  }

  /** Two words between the first ones and the n that follow. */
  method OpenGap(buf: array<u32>, entry: nat, n: nat, m: ModuleInstance)
    requires entry + n + 2 <= buf.Length
    modifies buf
    ensures var words := old(buf[..entry + n]); buf[..entry + n + 2] == words[..entry] + ModuleWords(m) + words[entry..]
  {
    ghost var words := buf[..entry + n];
    assert buf[..entry] == words[..entry] && buf[entry..entry + n] == words[entry..];
    MoveUp(buf, entry, n);
    buf[entry], buf[entry + 1] := m.mid, m.iid;
    Pieces(buf[..entry + n + 2], words[..entry], ModuleWords(m), words[entry..]);
  }

  function ProcRows(list: seq<ProcOffset>): (r: seq<seq<u32>>)
    ensures |r| == |list| && forall i | 0 <= i < |list| :: r[i] == [list[i].proc]
  {
    seq(|list|, i requires 0 <= i < |list| => [list[i].proc])
  }

  /** The words are these groups, and the list finds them. The size pass writes nothing. */
  ghost predicate Built(words: seq<u32>, list: seq<ProcOffset>, gs: seq<Group>, isData: bool) {
    Distinct(Ids(gs)) && Indexed(list, gs, isData) && words == if isData then Serialized(gs) else []
  }

  lemma BuiltKnown(words: seq<u32>, list: seq<ProcOffset>, gs: seq<Group>, v: Visit)
    requires Built(words, list, gs, true) && HasProc(gs, v.proc)
    ensures var k := IndexOf(gs, v.proc);
      var off, n := Offset(gs, k), |gs[k].modules|;
      && off + 2 + 2 * n <= |words| == |Serialized(gs)| && words[off + 1] == Low32(n)
      && Built(Inserted(words, off, n, v.m), MovedAll(list, v.proc, off), AddVisit(gs, v), true)
  {
    hide Serialized, Indexed, Inserted, AddVisit, Offset, IndexOf;
    AddVisitMeans(gs, v);
    InsertSerializes(gs, v);
    MovedIndexes(list, gs, v);
  }

  lemma BuiltNew(words: seq<u32>, list: seq<ProcOffset>, list': seq<ProcOffset>, gs: seq<Group>, v: Visit, isData: bool)
    requires Built(words, list, gs, isData) && !HasProc(gs, v.proc) && SortedBy(ProcKey, list')
    requires Permuted(list', list + [ProcOffset(v.proc, |words|)])
    ensures |words| == if isData then |Serialized(gs)| else 0
    ensures Built(if isData then words + [v.proc, 1] + ModuleWords(v.m) else words, list', AddVisit(gs, v), isData)
  {
    hide Serialized, Indexed, AddVisit, ModuleWords, SortedBy, Permuted;
    AddVisitMeans(gs, v);
    NewGroupSerializes(gs, v);
    NewGroupIndexes(list, list', gs, v, isData);
  }

  class TaggedModules {
    const buf: array<u32>
    var bufSize: nat
    var procList: seq<ProcOffset>

    constructor (buf: array<u32>)
      ensures this.buf == buf && Holds([])
    {
      this.buf := buf;
      bufSize, procList := 0, [];
      new;
      assert buf[..0] == [] == Serialized([]);
    }

    ghost predicate Holds(gs: seq<Group>)
      reads this, buf
    {
      bufSize <= buf.Length && Built(buf[..bufSize], procList, gs, buf.Length > 0)
    }

    /** AcdbGenericListFind. */
    method FindProc(proc: u32, ghost gs: seq<Group>) returns (found: bool, pair: ProcOffset)
      requires Holds(gs)
      ensures found == HasProc(gs, proc)
      ensures found ==> pair == ProcOffset(proc, if buf.Length > 0 then Offset(gs, IndexOf(gs, proc)) else 0)
    {
      hide Serialized, Offset;
      var rows := ProcRows(procList);
      var r := BinarySearch(rows, [proc], 1);
      found, pair := r.Some?, ProcOffset(proc, 0);
      assert forall i | 0 <= i < |rows| :: rows[i][..1] == [procList[i].proc];
      assert [proc][..1] == [proc];
      if r.Some? {
        pair := procList[r.value];
        FoundInIndex(procList, gs, buf.Length > 0, pair);
      } else {
        NotInIndex(procList, gs, buf.Length > 0, proc);
      }
    }

    /** AcdbGenericListAddRange and AcdbGenericListSort. */
    method AddProc(pair: ProcOffset)
      requires |procList| < MAX_PROCS
      modifies this`procList
      ensures SortedBy(ProcKey, procList) && Permuted(procList, old(procList) + [pair])
    {
      var list := procList + [pair];
      var a := new ProcOffset[|list|](i requires 0 <= i < |list| => list[i]);
      assert a[..] == list;
      var status := Sort2(ProcKey, a);
      procList := a[..];
    }

    /** A new group with one module, behind the others. */
    method AppendGroup(v: Visit)
      requires bufSize + 4 <= buf.Length
      modifies this`bufSize, buf
      ensures bufSize == old(bufSize) + 4
      ensures buf[..bufSize] == old(buf[..bufSize]) + [v.proc, 1] + ModuleWords(v.m)
    {
      buf[bufSize], buf[bufSize + 1], buf[bufSize + 2], buf[bufSize + 3] := v.proc, 1, v.m.mid, v.m.iid;
      bufSize := bufSize + 4;
    }

    /** One more module for the group at off, behind its n others; what lies behind moves up. */
    method InsertModule(off: nat, n: nat, m: ModuleInstance)
      requires off + 2 + 2 * n <= bufSize && bufSize + 2 <= buf.Length && buf[off + 1] == Low32(n)
      modifies this`bufSize, buf
      ensures bufSize == old(bufSize) + 2
      ensures buf[..bufSize] == Inserted(old(buf[..bufSize]), off, n, m)
    {
      hide Inserted, ModuleWords;
      var entry := off + 2 + 2 * n;
      ghost var words := buf[..bufSize];
      InsertedParts(words, off, n, m);
      buf[off + 1] := Low32(n + 1);
      var count: u32 := Low32(n + 1);
      assert buf[..bufSize] == words[off + 1 := count];
      OpenGap(buf, entry, bufSize - entry, m);
      bufSize := bufSize + 2;
    }

    /** The offsets behind the insertion, one pair after the other. */
    method MoveOffsets(pair: ProcOffset)
      modifies this`procList
      ensures procList == MovedAll(old(procList), pair.proc, pair.offset)
    {
      for j := 0 to |procList|
        invariant |procList| == old(|procList|)
        invariant forall i | 0 <= i < j :: procList[i] == Moved(old(procList)[i], pair.proc, pair.offset)
        invariant forall i | j <= i < |procList| :: procList[i] == old(procList)[i]
      {
        var p := procList[j];
        if p.proc != pair.proc {
          if p.offset > pair.offset {
            procList := procList[j := ProcOffset(p.proc, p.offset + 2)];
          }
        }
      }
    }

    /** A module whose processor has not been seen. */
    method AddNewProc(v: Visit, ghost gs: seq<Group>) returns (status: Status)
      requires Holds(gs) && !HasProc(gs, v.proc) && v.listLength > 0 && |gs| < MAX_PROCS
      modifies this, buf
      ensures status == if buf.Length > 0 && !Room(gs, v, buf.Length) then ENEEDMORE else EOK
      ensures status == EOK ==> Holds(AddVisit(gs, v))
    {
      hide Serialized, Built, Indexed, ModuleWords, AddVisit, SortedBy, Permuted;
      ghost var words, list := buf[..bufSize], procList;
      BuiltSizes(words, list, gs, buf.Length > 0);
      AddProc(ProcOffset(v.proc, bufSize));
      BuiltNew(words, list, procList, gs, v, buf.Length > 0);
      if buf.Length > 0 {
        if bufSize + 2 + 2 * v.listLength > buf.Length {
          return ENEEDMORE;
        }
        AppendGroup(v);
      }
      status := EOK;
    }

    /** A module whose processor's group starts at the pair's offset. */
    method AddKnownProc(v: Visit, pair: ProcOffset, ghost gs: seq<Group>) returns (status: Status)
      requires Holds(gs) && HasProc(gs, v.proc) && 0 < buf.Length < WORD_LIMIT
      requires pair == ProcOffset(v.proc, Offset(gs, IndexOf(gs, v.proc)))
      modifies this, buf
      ensures status == if !Room(gs, v, buf.Length) then ENEEDMORE else EOK
      ensures status == EOK ==> Holds(AddVisit(gs, v))
    {
      hide Serialized, Built, Inserted, AddVisit, Offset, MovedAll, IndexOf;
      ghost var words := buf[..bufSize];
      BuiltKnown(words, procList, gs, v);
      var n := buf[pair.offset + 1];
      assert n == words[pair.offset + 1];
      if bufSize + 2 > buf.Length {
        return ENEEDMORE;
      }
      InsertModule(pair.offset, n, v.m);
      MoveOffsets(pair);
      status := EOK;
    }

    /** One module of a definition list; the size pass only collects the processors. */
    method AddModule(v: Visit, ghost gs: seq<Group>) returns (status: Status)
      requires Holds(gs) && v.listLength > 0 && buf.Length < WORD_LIMIT && |AddVisit(gs, v)| <= MAX_PROCS
      modifies this, buf
      ensures status == if buf.Length > 0 && !Room(gs, v, buf.Length) then ENEEDMORE else EOK
      ensures status == EOK ==> Holds(AddVisit(gs, v))
    {
      hide Serialized, Indexed, Inserted, Offset;
      var found, pair := FindProc(v.proc, gs);
      if !found {
        status := AddNewProc(v, gs);
      } else if buf.Length > 0 {
        status := AddKnownProc(v, pair, gs);
      } else {
        SameProcs(procList, gs, v);
        status := EOK;
      }
    }
  }

  lemma BuiltSizes(words: seq<u32>, list: seq<ProcOffset>, gs: seq<Group>, isData: bool)
    requires Built(words, list, gs, isData)
    ensures |list| == |gs| && |words| == if isData then |Serialized(gs)| else 0
  {
  }

  /** In the size pass a known processor changes nothing. */
  lemma SameProcs(list: seq<ProcOffset>, gs: seq<Group>, v: Visit)
    requires Indexed(list, gs, false) && HasProc(gs, v.proc) && Distinct(Ids(gs))
    ensures Indexed(list, AddVisit(gs, v), false) && Distinct(Ids(AddVisit(gs, v)))
  {
    assert Index(AddVisit(gs, v), false) == Index(gs, false);
    assert Ids(AddVisit(gs, v)) == Ids(gs);
  }

  lemma NotInIndex(list: seq<ProcOffset>, gs: seq<Group>, isData: bool, proc: u32)
    requires Indexed(list, gs, isData) && forall i | 0 <= i < |list| :: list[i].proc != proc
    ensures !HasProc(gs, proc)
  {
    forall k | 0 <= k < |gs|
      ensures gs[k].id != proc
    {
      assert Index(gs, isData)[k] in list;
    }
  }

  lemma FoundInIndex(list: seq<ProcOffset>, gs: seq<Group>, isData: bool, pair: ProcOffset)
    requires Indexed(list, gs, isData) && Distinct(Ids(gs)) && pair in list
    ensures HasProc(gs, pair.proc) && pair.offset == if isData then Offset(gs, IndexOf(gs, pair.proc)) else 0
  {
    hide Serialized, Offset;
    var k :| 0 <= k < |gs| && Index(gs, isData)[k] == pair;
    assert gs[k].id == pair.proc;
    assert Ids(gs)[IndexOf(gs, pair.proc)] == Ids(gs)[k];
  }

  // ---------------------------------------------------------------- how much room the data pass asks for

  /** Every module passes its check. */
  predicate RoomForAll(vs: seq<Visit>, cap: nat) {
    forall k | 0 <= k < |vs| :: Room(Grouped(vs[..k]), vs[k], cap)
  }

  /** The size the first pass reports, in words. */
  function ReportedSize(vs: seq<Visit>): nat {
    2 * |ProcsOfVisits(vs)| + 2 * |vs|
  }

  /** It is the size of the groups. */
  lemma SizesAgree(vs: seq<Visit>)
    ensures |Serialized(Grouped(vs))| == ReportedSize(vs) && |Grouped(vs)| == |ProcsOfVisits(vs)|
  {
    GroupedMeans(vs);
    NothingLost(vs);
    SerializedSize(Grouped(vs));
    assert |Ids(Grouped(vs))| == |Grouped(vs)|;
  }

  predicate Discovers(vs: seq<Visit>, k: nat)
    requires k < |vs|
  {
    vs[k].proc !in ProcsOfVisits(vs[..k])
  }

  lemma RefusedAt(vs: seq<Visit>, k: nat)
    requires k < |vs| && Discovers(vs, k)
    ensures Room(Grouped(vs[..k]), vs[k], ReportedSize(vs)) <==>
            vs[k].listLength <= (|vs| - k) + (|ProcsOfVisits(vs)| - |ProcsOfVisits(vs[..k])| - 1)
  {
    SizesAgree(vs[..k]);
    GroupedMeans(vs[..k]);
    ProcsInGroups(Grouped(vs[..k]), vs[k].proc);
  }

  lemma ProcsInGroups(gs: seq<Group>, proc: u32)
    ensures HasProc(gs, proc) <==> proc in Ids(gs)
  {
    if HasProc(gs, proc) {
      assert Ids(gs)[IndexOf(gs, proc)] == proc;
    }
  }

  /**
    Exactly when the reported size is enough: whenever a processor is discovered, the definition list
    in hand is no longer than the modules still to come, this one included, and the processors still
    to be discovered after this one.
   */
  lemma ReportedSizeEnough(vs: seq<Visit>)
    ensures RoomForAll(vs, ReportedSize(vs)) <==>
            forall k | 0 <= k < |vs| && Discovers(vs, k) ::
              vs[k].listLength <= (|vs| - k) + (|ProcsOfVisits(vs)| - |ProcsOfVisits(vs[..k])| - 1)
  {
    hide Room, Grouped, ProcsOfVisits, Discovers;
    forall k | 0 <= k < |vs|
      ensures if Discovers(vs, k)
              then Room(Grouped(vs[..k]), vs[k], ReportedSize(vs)) <==>
                   vs[k].listLength <= (|vs| - k) + (|ProcsOfVisits(vs)| - |ProcsOfVisits(vs[..k])| - 1)
              else Room(Grouped(vs[..k]), vs[k], ReportedSize(vs))
    {
      if Discovers(vs, k) {
        RefusedAt(vs, k);
      } else {
        KnownProcFits(vs, k);
      }
    }
  }

  lemma KnownProcFits(vs: seq<Visit>, k: nat)
    requires k < |vs| && !Discovers(vs, k)
    ensures Room(Grouped(vs[..k]), vs[k], ReportedSize(vs))
  {
    SizesAgree(vs[..k]);
    GroupedMeans(vs[..k]);
    ProcsInGroups(Grouped(vs[..k]), vs[k].proc);
    ProcsGrow(vs, k, |vs|);
    assert vs[..|vs|] == vs;
  }

  lemma {:induction false} ProcsGrow(vs: seq<Visit>, j: nat, k: nat)
    requires j <= k <= |vs|
    ensures ProcsOfVisits(vs[..j]) <= ProcsOfVisits(vs[..k])
  {
    if j < k {
      ProcsGrow(vs, j, k - 1);
      assert vs[..k][..k - 1] == vs[..k - 1];
    }
  }

  // ---------------------------------------------------------------- BuildProcTaggedModulePayload

  /** What has been visited, and whether looking up a subgraph or a processor failed. */
  datatype Visited = Visited(vs: seq<Visit>, status: Status)

  function ListVisits(procs: seq<ProcModules>, ms: seq<ModuleInstance>, k: nat): Visited
    requires k <= |ms|
  {
    if k == 0 then Visited([], EOK)
    else
      var before := ListVisits(procs, ms, k - 1);
      if before.status != EOK then before
      else
        match ProcOf(procs, ms[k - 1].iid)
        case None => before.(status := ENOTEXIST)
        case Some(p) => before.(vs := before.vs + [Visit(p, ms[k - 1], |ms|)])
  }

  function AllVisits(file: seq<byte>, def: nat, maps: seq<SubgraphProcs>, sgIds: seq<u32>, defOffs: seq<u32>,
                     i: nat): Visited
    requires i <= |defOffs| <= |sgIds|
  {
    if i == 0 then Visited([], EOK)
    else
      var before := AllVisits(file, def, maps, sgIds, defOffs, i - 1);
      if before.status != EOK then before
      else
        match ProcsOf(maps, sgIds[i - 1])
        case None => before.(status := ENOTEXIST)
        case Some(procs) =>
          var ms := ModulesAt(file, def + defOffs[i - 1]);
          var list := ListVisits(procs, ms, |ms|);
          Visited(before.vs + list.vs, list.status)
  }

  // ---------------------------------------------------------------- what is visited, in terms of the request

  lemma {:induction false} ListVisitsMean(procs: seq<ProcModules>, ms: seq<ModuleInstance>, k: nat)
    requires k <= |ms|
    ensures var l := ListVisits(procs, ms, k);
      && l.status == (if forall j | 0 <= j < k :: ProcOf(procs, ms[j].iid).Some? then EOK else ENOTEXIST)
      && (l.status == EOK ==> |l.vs| == k)
      && (l.status == EOK ==> forall j | 0 <= j < k :: l.vs[j] == Visit(ProcOf(procs, ms[j].iid).value, ms[j], |ms|))
  {
    hide ProcOf;
    if k > 0 {
      ListVisitsMean(procs, ms, k - 1);
    }
  }

  /** The subgraph is known, and all modules of its definition list are. */
  predicate ListKnown(file: seq<byte>, off: nat, maps: seq<SubgraphProcs>, sgId: u32) {
    var procs, ms := ProcsOf(maps, sgId), ModulesAt(file, off);
    procs.Some? && forall k | 0 <= k < |ms| :: ProcOf(procs.value, ms[k].iid).Some?
  }

  /** The modules of the first i definition lists. */
  function ModulesBefore(file: seq<byte>, def: nat, defOffs: seq<u32>, i: nat): nat
    requires i <= |defOffs|
  {
    if i == 0 then 0 else ModulesBefore(file, def, defOffs, i - 1) + Word(file, def + defOffs[i - 1])
  }

  /** Visit p is that of module k of the definition list at off, on the processor the subgraph's map gives for it. */
  predicate VisitIs(vs: seq<Visit>, p: nat, file: seq<byte>, off: nat, maps: seq<SubgraphProcs>, sgId: u32, k: nat) {
    var procs, ms := ProcsOf(maps, sgId), ModulesAt(file, off);
    && p < |vs| && k < |ms| && procs.Some? && ProcOf(procs.value, ms[k].iid).Some?
    && vs[p] == Visit(ProcOf(procs.value, ms[k].iid).value, ms[k], |ms|)
  }

  /** The walk fails exactly if a subgraph or a module is unknown, and else makes one visit for each module listed. */
  lemma {:induction false} AllVisitsMean(file: seq<byte>, def: nat, maps: seq<SubgraphProcs>, sgIds: seq<u32>,
                                         defOffs: seq<u32>, n: nat)
    requires n <= |defOffs| <= |sgIds|
    ensures var all := AllVisits(file, def, maps, sgIds, defOffs, n);
      && all.status == (if forall i | 0 <= i < n :: ListKnown(file, def + defOffs[i], maps, sgIds[i]) then EOK
                        else ENOTEXIST)
      && (all.status == EOK ==> |all.vs| == ModulesBefore(file, def, defOffs, n))
  {
    hide ProcsOf, ProcOf, ListVisits, Word;
    if n > 0 {
      AllVisitsMean(file, def, maps, sgIds, defOffs, n - 1);
      var procs, ms := ProcsOf(maps, sgIds[n - 1]), ModulesAt(file, def + defOffs[n - 1]);
      if procs.Some? {
        ListVisitsMean(procs.value, ms, |ms|);
      }
    }
  }

  /**
    The visits are in the order of the lists, and each is of its module, on the processor that the map of the
    list's own subgraph gives for it.
   */
  lemma {:induction false} VisitMeans(file: seq<byte>, def: nat, maps: seq<SubgraphProcs>, sgIds: seq<u32>,
                                      defOffs: seq<u32>, n: nat, i: nat, k: nat)
    requires i < n <= |defOffs| <= |sgIds| && AllVisits(file, def, maps, sgIds, defOffs, n).status == EOK
    requires k < Word(file, def + defOffs[i])
    ensures VisitIs(AllVisits(file, def, maps, sgIds, defOffs, n).vs, ModulesBefore(file, def, defOffs, i) + k,
                    file, def + defOffs[i], maps, sgIds[i], k)
  {
    hide ProcsOf, ProcOf, ListVisits, Word;
    AllVisitsMean(file, def, maps, sgIds, defOffs, n - 1);
    if i < n - 1 {
      VisitMeans(file, def, maps, sgIds, defOffs, n - 1, i, k);
    } else {
      var procs, ms := ProcsOf(maps, sgIds[i]), ModulesAt(file, def + defOffs[i]);
      ListVisitsMean(procs.value, ms, |ms|);
    }
  }

  lemma VisitNext(vs: seq<Visit>, v: Visit)
    ensures Grouped(vs + [v]) == AddVisit(Grouped(vs), v)
    ensures forall cap: nat :: RoomForAll(vs + [v], cap) <==> RoomForAll(vs, cap) && Room(Grouped(vs), v, cap)
  {
    hide AddVisit, Room;
    assert (vs + [v])[..|vs|] == vs;
    forall cap: nat
      ensures RoomForAll(vs + [v], cap) <==> RoomForAll(vs, cap) && Room(Grouped(vs), v, cap)
    {
      assert forall k | 0 <= k < |vs| :: (vs + [v])[..k] == vs[..k];
      assert RoomForAll(vs + [v], cap) ==> Room(Grouped((vs + [v])[..|vs|]), (vs + [v])[|vs|], cap);
      if RoomForAll(vs + [v], cap) {
        forall k | 0 <= k < |vs|
          ensures Room(Grouped(vs[..k]), vs[k], cap)
        {
          assert Room(Grouped((vs + [v])[..k]), (vs + [v])[k], cap);
        }
      }
    }
  }

  lemma RoomPrefix(a: seq<Visit>, b: seq<Visit>, cap: nat)
    requires a <= b && RoomForAll(b, cap)
    ensures RoomForAll(a, cap)
  {
    hide Room, Grouped;
    forall k | 0 <= k < |a|
      ensures Room(Grouped(a[..k]), a[k], cap)
    {
      assert b[..k] == a[..k] && Room(Grouped(b[..k]), b[k], cap);
    }
  }

  lemma FewGroups(a: seq<Visit>, b: seq<Visit>)
    requires a <= b
    ensures |Grouped(a)| <= |Grouped(b)|
  {
    SizesAgree(a);
    SizesAgree(b);
    ProcsGrow(b, |a|, |b|);
    assert b[..|a|] == a && b[..|b|] == b;
  }

  lemma {:induction false} ListVisitsGrow(procs: seq<ProcModules>, ms: seq<ModuleInstance>, j: nat, k: nat)
    requires j <= k <= |ms|
    ensures ListVisits(procs, ms, j).vs <= ListVisits(procs, ms, k).vs
    ensures ListVisits(procs, ms, j).status != EOK ==> ListVisits(procs, ms, k) == ListVisits(procs, ms, j)
  {
    hide ProcOf;
    if j < k {
      ListVisitsGrow(procs, ms, j, k - 1);
    }
  }

  lemma {:induction false} AllVisitsGrow(file: seq<byte>, def: nat, maps: seq<SubgraphProcs>, sgIds: seq<u32>,
                                         defOffs: seq<u32>, j: nat, k: nat)
    requires j <= k <= |defOffs| <= |sgIds|
    ensures AllVisits(file, def, maps, sgIds, defOffs, j).vs <= AllVisits(file, def, maps, sgIds, defOffs, k).vs
    ensures AllVisits(file, def, maps, sgIds, defOffs, j).status != EOK ==>
      AllVisits(file, def, maps, sgIds, defOffs, k) == AllVisits(file, def, maps, sgIds, defOffs, j)
  {
    hide ListVisits, ProcsOf, ModulesAt;
    if j < k {
      AllVisitsGrow(file, def, maps, sgIds, defOffs, j, k - 1);
    }
  }

  /** Two modules of one definition list, on a processor each, and the processor map of their subgraph. */
  function TwoOnTwo(): (ms: seq<ModuleInstance>)
    ensures |ms| == 2
  {
    [ModuleInstance(1, 1), ModuleInstance(1, 2)]
  }

  function TwoProcs(): seq<ProcModules> {
    [ProcModules(1, [TwoOnTwo()[0]]), ProcModules(2, [TwoOnTwo()[1]])]
  }

  lemma TwoVisits()
    ensures ListVisits(TwoProcs(), TwoOnTwo(), 2) ==
            Visited([Visit(1, TwoOnTwo()[0], 2), Visit(2, TwoOnTwo()[1], 2)], EOK)
  {
    var procs, ms := TwoProcs(), TwoOnTwo();
    assert procs[0].modules[0].iid == 1 && procs[1].modules[0].iid == 2;
    assert procs[1..] == [procs[1]] && !HasModule(procs[0].modules, 2);
    assert ProcOf(procs, 1) == Some(1) && ProcOf(procs, 2) == Some(2);
    assert ListVisits(procs, ms, 1) == Visited([Visit(1, ms[0], 2)], EOK);
  }

  lemma TwoRefused()
    ensures var vs := [Visit(1, TwoOnTwo()[0], 2), Visit(2, TwoOnTwo()[1], 2)]; !RoomForAll(vs, ReportedSize(vs))
  {
    hide Room, Grouped, ReportedSize;
    var vs := [Visit(1, TwoOnTwo()[0], 2), Visit(2, TwoOnTwo()[1], 2)];
    assert vs[..1] == [vs[0]];
    assert ProcsOfVisits([vs[0]]) == [1];
    assert ProcsOfVisits(vs) == [1, 2];
    RefusedAt(vs, 1);
  }

  /**
    Still, a buffer of the reported size can be refused: in this file the one definition list of a subgraph has
    two modules that run on two processors, and the check for the second processor counts both again.
   */
  lemma ReportedSizeRefused() returns (file: seq<byte>, chunk: nat, maps: seq<SubgraphProcs>)
    ensures At(file, chunk, ChunkBytes(maps)) && Fits(maps)
    ensures var all := AllVisits(file, 0, maps, [1], [0], 1);
      all.status == EOK && |all.vs| == 2 && !RoomForAll(all.vs, ReportedSize(all.vs))
  {
    hide Words, RoomForAll, ReportedSize, ListVisits, ChunkBytes, Fits, Word;
    var ws: seq<u32> := [2, 1, 1, 1, 2];
    maps, chunk := [SubgraphProcs(1, TwoProcs())], |Words(ws)|;
    file := Words(ws) + ChunkBytes(maps);
    assert At(file, 0, Words(ws)) && At(file, chunk, ChunkBytes(maps));
    WordListAt(file, 0, ws);
    forall i: nat | i < 5
      ensures Word(file, 4 * i) == ws[i]
    {
      assert WordList(file, 0, 5)[i] == Word(file, 4 * i);
    }
    assert Word(file, 4 * 0) == 2 && Word(file, 4 * 1) == 1 && Word(file, 4 * 2) == 1;
    assert Word(file, 4 * 3) == 1 && Word(file, 4 * 4) == 2;
    assert ModulesAt(file, 0) == TwoOnTwo();
    assert ProcsOf(maps, 1) == Some(TwoProcs());
    TwoVisits();
    TwoRefused();
    TwoFit();
    OneListOnly(file, maps);
  }

  lemma OneListOnly(file: seq<byte>, maps: seq<SubgraphProcs>)
    requires ModulesAt(file, 0) == TwoOnTwo() && ProcsOf(maps, 1) == Some(TwoProcs())
    ensures AllVisits(file, 0, maps, [1], [0], 1) == ListVisits(TwoProcs(), TwoOnTwo(), 2)
  {
    hide ListVisits, ProcsOf, ModulesAt;
    assert AllVisits(file, 0, maps, [1], [0], 0) == Visited([], EOK);
  }

  lemma OneModuleBytes(p: ProcModules)
    requires |p.modules| == 1
    ensures |ProcBytes(p)| == 16
  {
    hide Le32;
    assert p.modules[..0] == [];
    assert Flat(ModuleBytes, p.modules) == [] + ModuleBytes(p.modules[0]);
  }

  lemma TwoFit()
    ensures Fits([SubgraphProcs(1, TwoProcs())])
  {
    hide ProcBytes;
    var p, q := TwoProcs()[0], TwoProcs()[1];
    OneModuleBytes(p);
    OneModuleBytes(q);
    assert TwoProcs()[..1] == [p] && [p][..0] == [];
    assert Flat(ProcBytes, [p]) == [] + ProcBytes(p);
  }

  lemma NoneVisited(procs: seq<ProcModules>, ms: seq<ModuleInstance>, done: seq<Visit>)
    ensures ListVisits(procs, ms, 0) == Visited([], EOK) && done + [] == done
  {
  }

  lemma NextVisit(procs: seq<ProcModules>, ms: seq<ModuleInstance>, k: nat, done: seq<Visit>)
    requires k < |ms| && ListVisits(procs, ms, k).status == EOK
    ensures var l, l', p := ListVisits(procs, ms, k), ListVisits(procs, ms, k + 1), ProcOf(procs, ms[k].iid);
      && l'.status == (if p.Some? then EOK else ENOTEXIST)
      && l'.vs == (if p.Some? then l.vs + [Visit(p.value, ms[k], |ms|)] else l.vs)
      && (p.Some? ==> done + l'.vs == done + l.vs + [Visit(p.value, ms[k], |ms|)])
  {
    hide ProcOf;
  }

  /** The loop over one definition list. */
  method VisitList(t: TaggedModules, file: seq<byte>, off: nat, procInfo: nat, size: nat,
                   ghost procs: seq<ProcModules>, ghost done: seq<Visit>)
    returns (status: Status)
    requires At(file, procInfo, ProcListBytes(procs)) && size == |ProcListBytes(procs)| < WORD_LIMIT
    requires t.Holds(Grouped(done)) && t.buf.Length < WORD_LIMIT
    requires t.buf.Length > 0 ==> RoomForAll(done, t.buf.Length)
    requires var ms := ModulesAt(file, off); |Grouped(done + ListVisits(procs, ms, |ms|).vs)| <= MAX_PROCS
    modifies t, t.buf
    ensures var ms := ModulesAt(file, off);
      var list := ListVisits(procs, ms, |ms|);
      && status == (if t.buf.Length > 0 && !RoomForAll(done + list.vs, t.buf.Length) then ENEEDMORE else list.status)
      && (status == EOK ==> t.Holds(Grouped(done + list.vs)))
  {
    hide At, ProcListBytes, Word, ProcOf, Grouped, RoomForAll, Room, AddVisit, ListVisits, Built;
    hide Serialized, Indexed, ProcsOfVisits, ModulesOn, ReportedSize, TaggedModules.Holds;
    var n := Word(file, off);
    ghost var ms := ModulesAt(file, off);
    ghost var list := ListVisits(procs, ms, |ms|);
    NoneVisited(procs, ms, done);
    for k := 0 to n
      invariant var l := ListVisits(procs, ms, k);
        l.status == EOK && t.Holds(Grouped(done + l.vs)) && (t.buf.Length > 0 ==> RoomForAll(done + l.vs, t.buf.Length))
    {
      ghost var l := ListVisits(procs, ms, k);
      ListVisitsGrow(procs, ms, k + 1, |ms|);
      NextVisit(procs, ms, k, done);
      var m := ModuleInstance(Word(file, off + 4 + 8 * k), Word(file, off + 8 + 8 * k));
      var proc;
      status, proc := GetProcDomainForModule(file, procInfo, size, m.iid, procs);
      if status != EOK {
        assert list == ListVisits(procs, ms, k + 1) && list.vs == l.vs;
        return;
      }
      ghost var l' := ListVisits(procs, ms, k + 1);
      var v := Visit(proc, m, n);
      VisitNext(done + l.vs, v);
      FewGroups(done + l'.vs, done + list.vs);
      status := t.AddModule(v, Grouped(done + l.vs));
      if status != EOK {
        if RoomForAll(done + list.vs, t.buf.Length) {
          RoomPrefix(done + l'.vs, done + list.vs, t.buf.Length);
        }
        return;
      }
    }
    status := EOK;
  }

  /** Both passes; numProcs is the client's field, which only the size pass fills. */
  method BuildPayload(t: TaggedModules, file: seq<byte>, def: nat, chunk: nat, sgIds: seq<u32>, defOffs: seq<u32>,
                      numProcs0: nat, ghost maps: seq<SubgraphProcs>)
    returns (status: Status, numProcs: nat, listSize: nat)
    requires At(file, chunk, ChunkBytes(maps)) && Fits(maps) && |defOffs| <= |sgIds|
    requires t.Holds([]) && t.buf.Length < WORD_LIMIT
    requires |Grouped(AllVisits(file, def, maps, sgIds, defOffs, |defOffs|).vs)| <= MAX_PROCS
    modifies t, t.buf
    ensures var all := AllVisits(file, def, maps, sgIds, defOffs, |defOffs|);
      if t.buf.Length == 0 then
        status == (if all.status != EOK then all.status else if numProcs == 0 then ENOTEXIST else EOK) &&
        (all.status == EOK ==> numProcs == |Grouped(all.vs)| && listSize == 4 * ReportedSize(all.vs))
      else
        && numProcs == numProcs0
        && status == (if !RoomForAll(all.vs, t.buf.Length) then ENEEDMORE
                      else if all.status != EOK then all.status
                      else if numProcs == 0 then ENOTEXIST
                      else EOK)
        && (status == EOK ==>
              && t.bufSize == ReportedSize(all.vs) <= t.buf.Length
              && t.buf[..t.bufSize] == Serialized(Grouped(all.vs))
              && Indexed(t.procList, Grouped(all.vs), true))
  {
    hide At, ChunkBytes, Fits, Word, ProcListBytes, Grouped, RoomForAll, ProcsOf, ListVisits, Serialized, Indexed;
    hide ReportedSize;
    ghost var all := AllVisits(file, def, maps, sgIds, defOffs, |defOffs|);
    numProcs, listSize := numProcs0, 4 * t.buf.Length;
    var totalNumModuleInst := 0;
    NoVisits(t.buf.Length);
    for i := 0 to |defOffs|
      invariant var a := AllVisits(file, def, maps, sgIds, defOffs, i);
        && a.status == EOK && t.Holds(Grouped(a.vs)) && totalNumModuleInst == |a.vs|
        && (t.buf.Length > 0 ==> RoomForAll(a.vs, t.buf.Length))
    {
      ghost var a := AllVisits(file, def, maps, sgIds, defOffs, i);
      ghost var a' := AllVisits(file, def, maps, sgIds, defOffs, i + 1);
      AllVisitsGrow(file, def, maps, sgIds, defOffs, i + 1, |defOffs|);
      var size, procInfo;
      status, size, procInfo := GetSubgraphProcIidMap(file, chunk, sgIds[i], maps);
      if status != EOK {
        return;
      }
      ghost var procs := ProcsOf(maps, sgIds[i]).value;
      FewGroups(a'.vs, all.vs);
      WholeList(procs, ModulesAt(file, def + defOffs[i]));
      status := VisitList(t, file, def + defOffs[i], procInfo, size, procs, a.vs);
      if status != EOK {
        if t.buf.Length > 0 && RoomForAll(all.vs, t.buf.Length) {
          RoomPrefix(a'.vs, all.vs, t.buf.Length);
        }
        return;
      }
      totalNumModuleInst := totalNumModuleInst + Word(file, def + defOffs[i]);
    }
    if t.buf.Length == 0 {
      numProcs := |t.procList|;
      listSize := numProcs * 8 + totalNumModuleInst * 8;
    }
    FinalSize(t.procList, all.vs, t.buf.Length > 0);
    status := if numProcs == 0 || listSize == 0 then ENOTEXIST else EOK;
  }

  lemma NoVisits(cap: nat)
    ensures Grouped([]) == [] && RoomForAll([], cap)
  {
  }

  lemma {:induction false} ListVisitsCount(procs: seq<ProcModules>, ms: seq<ModuleInstance>, k: nat)
    requires k <= |ms|
    ensures ListVisits(procs, ms, k).status == EOK ==> |ListVisits(procs, ms, k).vs| == k
  {
    hide ProcOf;
    if k > 0 {
      ListVisitsCount(procs, ms, k - 1);
    }
  }

  lemma WholeList(procs: seq<ProcModules>, ms: seq<ModuleInstance>)
    ensures ListVisits(procs, ms, |ms|).status == EOK ==> |ListVisits(procs, ms, |ms|).vs| == |ms|
  {
    ListVisitsCount(procs, ms, |ms|);
  }

  lemma FinalSize(list: seq<ProcOffset>, vs: seq<Visit>, isData: bool)
    requires Indexed(list, Grouped(vs), isData)
    ensures |list| == |Grouped(vs)| && |Serialized(Grouped(vs))| == ReportedSize(vs) == 2 * |Grouped(vs)| + 2 * |vs|
  {
    SizesAgree(vs);
  }
}
