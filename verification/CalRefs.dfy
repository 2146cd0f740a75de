/**
  The reference list by which calibration for a specific key vector displaces default calibration:
  one count per module instance, taken down by every specific entry and then by the default entries.
 */
module CalRefs {
  import opened Bytes

  datatype Entry = Entry(iid: u32, pid: u32, payload: seq<byte>)

  /** AcdbIidRefCount. */
  datatype IidRef = IidRef(iid: u32, count: nat)

  /** One more entry of the default table; the cleared buffer makes a leading IID zero invisible. */
  function AddRun(refs: seq<IidRef>, iid: u32): seq<IidRef> {
    var n := |refs|;
    if n == 0 then (if iid == 0 then [] else [IidRef(iid, 1)])
    else if refs[n - 1].iid != iid then refs + [IidRef(iid, 1)]
    else refs[n - 1 := IidRef(iid, refs[n - 1].count + 1)]
  }

  /** The list the first default pass builds. */
  function Runs(es: seq<Entry>): seq<IidRef> {
    if es == [] then [] else AddRun(Runs(es[..|es| - 1]), es[|es| - 1].iid)
  }

  /** The count under the first mention of the module instance. */
  function RefCount(refs: seq<IidRef>, iid: u32): nat {
    if refs == [] then 0
    else if refs[0].iid == iid then refs[0].count
    else RefCount(refs[1..], iid)
  }

  datatype Taken = Taken(refs: seq<IidRef>, found: bool)

  /** One count less for the first mention of the module instance, if it has one to give. */
  function Take(refs: seq<IidRef>, iid: u32): (r: Taken)
    ensures |r.refs| == |refs|
  {
    if refs == [] then Taken([], false)
    else if refs[0].iid == iid then
      (if refs[0].count > 0 then Taken([IidRef(iid, refs[0].count - 1)] + refs[1..], true) else Taken(refs, false))
    else
      var t := Take(refs[1..], iid);
      Taken([refs[0]] + t.refs, t.found)
  }

  lemma {:induction false} TakeCounts(refs: seq<IidRef>, iid: u32, x: u32)
    ensures var t := Take(refs, iid);
      && t.found == (RefCount(refs, iid) > 0)
      && RefCount(t.refs, x) == if x == iid then Less(RefCount(refs, x), 1) else RefCount(refs, x)
  {
    if refs != [] && refs[0].iid != iid {
      TakeCounts(refs[1..], iid, x);
    }
  }

  datatype Admission = Admission(admitted: bool, refs: Option<seq<IidRef>>)

  /** Without a reference list every entry passes; with one, a default entry needs a count left. */
  function AdmitOne(isDefault: bool, refs: Option<seq<IidRef>>, iid: u32): (r: Admission)
    ensures r.refs.Some? <==> refs.Some?
  {
    if refs.None? then Admission(true, None)
    else
      var t := Take(refs.value, iid);
      Admission(t.found || !isDefault, Some(t.refs))
  }

  datatype Pass = Pass(admitted: seq<Entry>, refs: Option<seq<IidRef>>)

  /** The entries one pass over a DEF table admits, and the counts it leaves. */
  function Admit(isDefault: bool, refs: Option<seq<IidRef>>, es: seq<Entry>): (r: Pass)
    ensures r.refs.Some? <==> refs.Some?
  {
    if es == [] then Pass([], refs)
    else
      var before, e := Admit(isDefault, refs, es[..|es| - 1]), es[|es| - 1];
      var a := AdmitOne(isDefault, before.refs, e.iid);
      Pass(if a.admitted then before.admitted + [e] else before.admitted, a.refs)
  }

  /** A table's entries for one module instance, in table order. */
  function OfModule(es: seq<Entry>, iid: u32): seq<Entry> {
    if es == [] then []
    else
      var before, e := OfModule(es[..|es| - 1], iid), es[|es| - 1];
      if e.iid == iid then before + [e] else before
  }

  function Less(a: nat, b: nat): nat {
    if a > b then a - b else 0
  }

  function Least(a: nat, b: nat): nat {
    if a < b then a else b
  }

  // ---------------------------------------------------------------- the passes

  /** A specific table gives all its entries and takes one count for each. */
  lemma {:induction false} AdmitSpecific(refs: seq<IidRef>, es: seq<Entry>, iid: u32)
    ensures var pass := Admit(false, Some(refs), es);
      && pass.admitted == es
      && RefCount(pass.refs.value, iid) == Less(RefCount(refs, iid), |OfModule(es, iid)|)
  {
    if es != [] {
      AdmitSpecific(refs, es[..|es| - 1], iid);
      TakeCounts(Admit(false, Some(refs), es[..|es| - 1]).refs.value, es[|es| - 1].iid, iid);
    }
  }

  /** The default table gives, of each module instance, as many first entries as there are counts left. */
  lemma {:induction false} AdmitDefault(refs: seq<IidRef>, es: seq<Entry>, iid: u32)
    ensures var pass := Admit(true, Some(refs), es);
      && OfModule(pass.admitted, iid) == OfModule(es, iid)[..Least(RefCount(refs, iid), |OfModule(es, iid)|)]
      && RefCount(pass.refs.value, iid) == Less(RefCount(refs, iid), |OfModule(es, iid)|)
  {
    if es != [] {
      var n := |es| - 1;
      AdmitDefault(refs, es[..n], iid);
      var before := Admit(true, Some(refs), es[..n]);
      TakeCounts(before.refs.value, es[n].iid, iid);
      OfModuleSnoc(before.admitted, es[n], iid);
    }
  }

  lemma OfModuleSnoc(es: seq<Entry>, e: Entry, iid: u32)
    ensures OfModule(es + [e], iid) == if e.iid == iid then OfModule(es, iid) + [e] else OfModule(es, iid)
  {
    assert (es + [e])[..|es|] == es;
  }

  lemma {:induction false} AdmitUncounted(isDefault: bool, es: seq<Entry>)
    ensures Admit(isDefault, None, es) == Pass(es, None)
  {
    if es != [] {
      AdmitUncounted(isDefault, es[..|es| - 1]);
    }
  }

  // ---------------------------------------------------------------- the list is a run-length encoding

  /** DEF tables are sorted by IID, so the entries of one module instance stand together. */
  predicate Grouped(es: seq<Entry>) {
    forall i, j, k | 0 <= i < j < k < |es| && es[i].iid == es[k].iid :: es[j].iid == es[i].iid
  }

  predicate NonzeroIids(es: seq<Entry>) {
    forall i | 0 <= i < |es| :: es[i].iid != 0
  }

  function Repeat(iid: u32, n: nat): (r: seq<u32>)
    ensures |r| == n
  {
    seq<u32>(n, i => iid)
  }

  function Decoded(r: IidRef): seq<u32> {
    Repeat(r.iid, r.count)
  }

  function IidsOf(es: seq<Entry>): (r: seq<u32>)
    ensures |r| == |es|
  {
    seq<u32>(|es|, i requires 0 <= i < |es| => es[i].iid)
  }

  /** No count is zero and no two neighbours could have been one run. */
  predicate Tight(refs: seq<IidRef>) {
    && (forall i | 0 <= i < |refs| :: refs[i].count > 0)
    && forall i | 0 <= i < |refs| - 1 :: refs[i].iid != refs[i + 1].iid
  }

  lemma OneMore(iid: u32, n: nat)
    ensures Decoded(IidRef(iid, n + 1)) == Decoded(IidRef(iid, n)) + [iid]
    ensures n == 0 ==> Decoded(IidRef(iid, n + 1)) == [iid]
  {
    assert Decoded(IidRef(iid, 0)) == [];
  }

  lemma AddRunDecodes(refs: seq<IidRef>, iid: u32)
    requires iid != 0 && Tight(refs)
    ensures var after := AddRun(refs, iid);
      && Flat(Decoded, after) == Flat(Decoded, refs) + [iid] && Tight(after)
      && after != [] && after[|after| - 1].iid == iid
  {
    hide Flat, Decoded;
    if refs != [] && refs[|refs| - 1].iid == iid {
      var n := |refs| - 1;
      var last := IidRef(iid, refs[n].count + 1);
      assert refs == refs[..n] + [refs[n]] && AddRun(refs, iid) == refs[..n] + [last];
      FlatSnoc(Decoded, refs[..n], refs[n]);
      FlatSnoc(Decoded, refs[..n], last);
      OneMore(iid, refs[n].count);
    } else {
      FlatSnoc(Decoded, refs, IidRef(iid, 1));
      OneMore(iid, 0);
      assert AddRun(refs, iid) == refs + [IidRef(iid, 1)];
    }
  }

  /** Decoding the list gives the table's IIDs back, and no run could be longer. */
  lemma {:induction false} RunLengthCode(es: seq<Entry>)
    requires NonzeroIids(es)
    ensures Flat(Decoded, Runs(es)) == IidsOf(es) && Tight(Runs(es))
    ensures es != [] ==> Runs(es) != [] && Runs(es)[|Runs(es)| - 1].iid == es[|es| - 1].iid
  {
    hide AddRun, Tight, Decoded, Flat;
    if es != [] {
      var m := |es| - 1;
      RunLengthCode(es[..m]);
      AddRunDecodes(Runs(es[..m]), es[m].iid);
      assert IidsOf(es) == IidsOf(es[..m]) + [es[m].iid];
    } else {
      NoRuns();
    }
  }

  lemma NoRuns()
    ensures Flat(Decoded, []) == [] && Tight([])
  {
  }

  predicate DistinctRefs(refs: seq<IidRef>) {
    forall i, j | 0 <= i < j < |refs| :: refs[i].iid != refs[j].iid
  }

  lemma {:induction false} RefCountAt(refs: seq<IidRef>, iid: u32)
    requires DistinctRefs(refs)
    ensures forall k | 0 <= k < |refs| && refs[k].iid == iid :: RefCount(refs, iid) == refs[k].count
    ensures (forall k | 0 <= k < |refs| :: refs[k].iid != iid) ==> RefCount(refs, iid) == 0
  {
    if refs != [] {
      RefCountAt(refs[1..], iid);
      assert forall k | 1 <= k < |refs| :: refs[k] == refs[1..][k - 1];
    }
  }

  lemma AddRunCount(refs: seq<IidRef>, iid: u32, x: u32)
    requires DistinctRefs(refs) && iid != 0
    requires forall k | 0 <= k < |refs| - 1 :: refs[k].iid != iid
    ensures DistinctRefs(AddRun(refs, iid))
    ensures RefCount(AddRun(refs, iid), x) == if x == iid then RefCount(refs, x) + 1 else RefCount(refs, x)
  {
    hide RefCount;
    var after := AddRun(refs, iid);
    RefCountAt(refs, x);
    RefCountAt(after, x);
    assert forall k | 0 <= k < |refs| - 1 :: after[k] == refs[k];
    assert after[|after| - 1].iid == iid;
    if k: nat :| k < |refs| && refs[k].iid == x {
      assert RefCount(refs, x) == refs[k].count && after[k].iid == x;
    } else {
      assert RefCount(refs, x) == 0;
    }
  }

  predicate Occurs(es: seq<Entry>, iid: u32) {
    exists p | 0 <= p < |es| :: es[p].iid == iid
  }

  /** In a grouped table no module instance starts a second run, and each count is the number of its entries. */
  lemma {:induction false} RunsCount(es: seq<Entry>, iid: u32)
    requires Grouped(es) && NonzeroIids(es)
    ensures RefCount(Runs(es), iid) == |OfModule(es, iid)|
    ensures DistinctRefs(Runs(es)) && forall i | 0 <= i < |Runs(es)| :: Occurs(es, Runs(es)[i].iid)
  {
    hide AddRun, RefCount;
    if es != [] {
      var m := |es| - 1;
      RunsCount(es[..m], iid);
      RunLengthCode(es[..m]);
      var before := Runs(es[..m]);
      assert forall k | 0 <= k < |before| - 1 :: before[k].iid != es[m].iid;
      AddRunCount(before, es[m].iid, iid);
      AddRunOccurs(es, before);
    } else {
      NoCount(iid);
    }
  }

  lemma NoCount(iid: u32)
    ensures RefCount([], iid) == 0
  {
  }

  lemma AddRunOccurs(es: seq<Entry>, before: seq<IidRef>)
    requires es != []
    requires forall i | 0 <= i < |before| :: Occurs(es[..|es| - 1], before[i].iid)
    ensures var after := AddRun(before, es[|es| - 1].iid); forall i | 0 <= i < |after| :: Occurs(es, after[i].iid)
  {
    var m := |es| - 1;
    var after := AddRun(before, es[m].iid);
    forall i | 0 <= i < |after|
      ensures Occurs(es, after[i].iid)
    {
      if i < |before| {
        var p :| 0 <= p < m && es[..m][p].iid == before[i].iid;
        assert es[p].iid == after[i].iid;
      } else {
        assert es[m].iid == after[i].iid;
      }
    }
  }

  // ---------------------------------------------------------------- the override law

  /** The specific tables of one subgraph, one pass after the other. */
  function TakenDown(refs: seq<IidRef>, tables: seq<seq<Entry>>): seq<IidRef> {
    if tables == [] then refs
    else Admit(false, Some(TakenDown(refs, tables[..|tables| - 1])), tables[|tables| - 1]).refs.value
  }

  function Mentions(tables: seq<seq<Entry>>, iid: u32): nat {
    if tables == [] then 0
    else Mentions(tables[..|tables| - 1], iid) + |OfModule(tables[|tables| - 1], iid)|
  }

  lemma {:induction false} TakenDownCount(refs: seq<IidRef>, tables: seq<seq<Entry>>, iid: u32)
    ensures RefCount(TakenDown(refs, tables), iid) == Less(RefCount(refs, iid), Mentions(tables, iid))
  {
    if tables != [] {
      var n := |tables| - 1;
      TakenDownCount(refs, tables[..n], iid);
      AdmitSpecific(TakenDown(refs, tables[..n]), tables[n], iid);
    }
  }

  /**
    A module instance with D default entries and N entries in the specific tables that were found gets
    the first D - N of its default entries: all if it was never mentioned, none once N reaches D.
   */
  lemma OverrideLaw(def: seq<Entry>, tables: seq<seq<Entry>>, iid: u32)
    requires Grouped(def) && NonzeroIids(def)
    ensures var rest := OfModule(Admit(true, Some(TakenDown(Runs(def), tables)), def).admitted, iid);
      rest == OfModule(def, iid)[..Less(|OfModule(def, iid)|, Mentions(tables, iid))]
  {
    RunsCount(def, iid);
    TakenDownCount(Runs(def), tables, iid);
    AdmitDefault(TakenDown(Runs(def), tables), def, iid);
  }
}
