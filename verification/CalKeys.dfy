/** Key vectors: lookup, sorting, and the difference that an incremental calibration query works from. */
module CalKeys {
  import opened Bytes
  import opened Search

  datatype KeyValue = KeyValue(key: u32, value: u32)

  function KeyOf(kv: KeyValue): nat {
    kv.key
  }

  /** The value of the first pair with the key. */
  function Lookup(kvs: seq<KeyValue>, key: u32): (r: Option<u32>)
    ensures r.None? <==> forall i | 0 <= i < |kvs| :: kvs[i].key != key
    ensures r.Some? ==> KeyValue(key, r.value) in kvs
  {
    if kvs == [] then None
    else if kvs[0].key == key then Some(kvs[0].value)
    else Lookup(kvs[1..], key)
  }

  predicate DistinctKeys(kvs: seq<KeyValue>) {
    forall i, j | 0 <= i < j < |kvs| :: kvs[i].key != kvs[j].key
  }

  function Keys(kvs: seq<KeyValue>): set<u32> {
    set kv | kv in kvs :: kv.key
  }

  lemma LookupOfPair(kvs: seq<KeyValue>, i: nat)
    requires i < |kvs| && DistinctKeys(kvs)
    ensures Lookup(kvs, kvs[i].key) == Some(kvs[i].value)
  {
  }

  lemma LookupOfMember(kvs: seq<KeyValue>, kv: KeyValue)
    requires kv in kvs && DistinctKeys(kvs)
    ensures Lookup(kvs, kv.key) == Some(kv.value)
  {
    var i :| 0 <= i < |kvs| && kvs[i] == kv;
    LookupOfPair(kvs, i);
  }

  /** Sorting a key vector does not change what it says, as long as no key occurs twice. */
  lemma SortedSame(a: seq<KeyValue>, b: seq<KeyValue>)
    requires Permuted(a, b) && DistinctKeys(a)
    ensures DistinctKeys(b) && Keys(a) == Keys(b)
    ensures forall k :: Lookup(a, k) == Lookup(b, k)
  {
    PermutedMembers(a, b);
    PermutedDistinct(a, b);
    forall k
      ensures Lookup(a, k) == Lookup(b, k)
    {
      if Lookup(a, k).Some? {
        LookupOfMember(b, KeyValue(k, Lookup(a, k).value));
      }
      if Lookup(b, k).Some? {
        LookupOfMember(a, KeyValue(k, Lookup(b, k).value));
      }
    }
  }

  lemma PermutedDistinct(a: seq<KeyValue>, b: seq<KeyValue>)
    requires Permuted(a, b) && DistinctKeys(a)
    ensures DistinctKeys(b)
  {
    PermutedMembers(a, b);
    forall i, j | 0 <= i < j < |b|
      ensures b[i].key != b[j].key
    {
      if b[i] == b[j] {
        Twice(b, i, j);
        Once(a, b[i]);
      } else {
        assert b[i] in a && b[j] in a;
      }
    }
  }

  lemma Twice(b: seq<KeyValue>, i: nat, j: nat)
    requires i < j < |b| && b[i] == b[j]
    ensures multiset(b)[b[i]] >= 2
  {
    assert b == b[..j] + b[j..];
    assert b[..j][i] in b[..j] && b[j..][0] in b[j..];
  }

  lemma {:induction false} Once(a: seq<KeyValue>, kv: KeyValue)
    requires DistinctKeys(a)
    ensures multiset(a)[kv] <= 1
  {
    if a != [] {
      Once(a[1..], kv);
      assert a == [a[0]] + a[1..];
      if kv == a[0] {
        assert kv !in a[1..];
      }
    }
  }

  // ---------------------------------------------------------------- the difference of two vectors

  /** The keys agree position by position. */
  predicate SameKeys(a: seq<KeyValue>, b: seq<KeyValue>) {
    |a| == |b| && forall i | 0 <= i < |a| :: a[i].key == b[i].key
  }

  /** The pairs of CKV[new] among the first n whose value is not the one in CKV[prior]. */
  function Delta(prior: seq<KeyValue>, new_: seq<KeyValue>, n: nat): seq<KeyValue>
    requires n <= |prior| && n <= |new_|
  {
    if n == 0 then []
    else
      var before := Delta(prior, new_, n - 1);
      if prior[n - 1].value != new_[n - 1].value then before + [new_[n - 1]] else before
  }

  lemma DeltaNone(prior: seq<KeyValue>, new_: seq<KeyValue>)
    ensures Delta(prior, new_, 0) == []
  {
  }

  lemma DeltaNext(prior: seq<KeyValue>, new_: seq<KeyValue>, i: nat)
    requires i < |prior| && i < |new_|
    ensures Delta(prior, new_, i + 1) ==
            if prior[i].value != new_[i].value then Delta(prior, new_, i) + [new_[i]] else Delta(prior, new_, i)
  {
  }

  lemma {:induction false} DeltaHolds(prior: seq<KeyValue>, new_: seq<KeyValue>, n: nat)
    requires n <= |prior| && n <= |new_|
    ensures forall kv | kv in Delta(prior, new_, n) ::
              exists i | 0 <= i < n :: new_[i] == kv && prior[i].value != kv.value
    ensures forall i | 0 <= i < n && prior[i].value != new_[i].value :: new_[i] in Delta(prior, new_, n)
  {
    hide Delta;
    if n > 0 {
      DeltaHolds(prior, new_, n - 1);
      DeltaNext(prior, new_, n - 1);
    } else {
      DeltaNone(prior, new_);
    }
  }

  /** What AcdbComputeDeltaCKV reports for a non-empty CKV[prior], both vectors being sorted by now. */
  function DeltaStatus(prior: seq<KeyValue>, new_: seq<KeyValue>): Status {
    if new_ == [] then EBADPARAM
    else if |prior| != |new_| then EFAILED
    else if !SameKeys(prior, new_) then ENOTEXIST
    else if Delta(prior, new_, |new_|) == [] then ENOTEXIST
    else EOK
  }

  /** The difference names exactly the keys whose value changed, with their new values. */
  lemma DeltaMeans(prior: seq<KeyValue>, new_: seq<KeyValue>, key: u32)
    requires SameKeys(prior, new_) && DistinctKeys(new_)
    ensures var delta := Delta(prior, new_, |new_|);
      && (Lookup(delta, key).Some? <==> Lookup(prior, key) != Lookup(new_, key))
      && (Lookup(delta, key).Some? ==> Lookup(delta, key) == Lookup(new_, key))
  {
    hide Delta;
    DeltaHolds(prior, new_, |new_|);
    var delta := Delta(prior, new_, |new_|);
    if Lookup(new_, key).Some? {
      var i :| 0 <= i < |new_| && new_[i] == KeyValue(key, Lookup(new_, key).value);
      LookupOfPair(prior, i);
      LookupOfPair(new_, i);
    }
    if Lookup(delta, key).Some? {
      var i :| 0 <= i < |new_| && new_[i] == KeyValue(key, Lookup(delta, key).value) && prior[i].value != new_[i].value;
      LookupOfPair(prior, i);
      LookupOfPair(new_, i);
    }
  }

  /** For sorted vectors without repeated keys, having the same keys means having them at the same positions. */
  lemma {:induction false} SameKeySets(a: seq<KeyValue>, b: seq<KeyValue>)
    requires SortedBy(KeyOf, a) && SortedBy(KeyOf, b) && DistinctKeys(a) && DistinctKeys(b)
    ensures SameKeys(a, b) <==> Keys(a) == Keys(b)
  {
    if SameKeys(a, b) {
      SameKeysSets(a, b);
    }
    if Keys(a) == Keys(b) {
      if a == [] || b == [] {
        NoKeys(a);
        NoKeys(b);
      } else {
        var m, n := |a| - 1, |b| - 1;
        var i := PositionOf(b, a[m].key);
        var j := PositionOf(a, b[n].key);
        assert a[m].key == b[n].key;
        DropLastKey(a);
        DropLastKey(b);
        SameKeySets(a[..m], b[..n]);
        assert forall i | 0 <= i < m :: a[..m][i] == a[i] && b[..n][i] == b[i];
      }
    }
  }

  lemma NoKeys(kvs: seq<KeyValue>)
    ensures Keys(kvs) == {} <==> kvs == []
  {
    if kvs != [] {
      assert kvs[0].key in Keys(kvs);
    }
  }

  lemma SameKeysSets(a: seq<KeyValue>, b: seq<KeyValue>)
    requires SameKeys(a, b)
    ensures Keys(a) == Keys(b)
  {
    forall k
      ensures k in Keys(a) <==> k in Keys(b)
    {
      if k in Keys(a) {
        var i := PositionOf(a, k);
        assert b[i] in b;
      }
      if k in Keys(b) {
        var i := PositionOf(b, k);
        assert a[i] in a;
      }
    }
  }

  lemma PositionOf(kvs: seq<KeyValue>, key: u32) returns (i: nat)
    requires key in Keys(kvs)
    ensures i < |kvs| && kvs[i].key == key
  {
    var kv :| kv in kvs && kv.key == key;
    i :| 0 <= i < |kvs| && kvs[i] == kv;
  }

  lemma DropLastKey(kvs: seq<KeyValue>)
    requires kvs != [] && DistinctKeys(kvs)
    ensures Keys(kvs[..|kvs| - 1]) == Keys(kvs) - {kvs[|kvs| - 1].key}
  {
    var n := |kvs| - 1;
    forall k
      ensures k in Keys(kvs[..n]) <==> k in Keys(kvs) && k != kvs[n].key
    {
      if k in Keys(kvs[..n]) {
        var i := PositionOf(kvs[..n], k);
        assert kvs[i] in kvs;
      }
      if k in Keys(kvs) && k != kvs[n].key {
        var i := PositionOf(kvs, k);
        assert kvs[..n][i] in kvs[..n];
      }
    }
  }

  /**
    When an incremental query is possible at all, said without positions: the two vectors have the
    same keys and not all of the same values. Neither depends on the order the client listed them in.
   */
  lemma DeltaExists(prior: seq<KeyValue>, new_: seq<KeyValue>)
    requires prior != [] && SortedBy(KeyOf, prior) && SortedBy(KeyOf, new_)
    requires DistinctKeys(prior) && DistinctKeys(new_)
    ensures DeltaStatus(prior, new_) == EOK <==>
            Keys(prior) == Keys(new_) && exists k :: Lookup(prior, k) != Lookup(new_, k)
  {
    hide Delta;
    SameKeySets(prior, new_);
    if prior == [] || new_ == [] {
      assert prior[0].key in Keys(prior);
    }
    if SameKeys(prior, new_) {
      var delta := Delta(prior, new_, |new_|);
      if delta != [] {
        DeltaMeans(prior, new_, delta[0].key);
      } else {
        forall k
          ensures Lookup(prior, k) == Lookup(new_, k)
        {
          DeltaMeans(prior, new_, k);
        }
      }
    }
  }
}
