/**
  The SPF properties of a use case's subgraphs: the file keeps each property without an error code, the
  response has one inserted behind every header.
 */
module SpfBlob {
  import opened Bytes
  import opened CalBlob

  /** A property in the file: header without error code, payload padded to 8 bytes. */
  function SrcBytes(r: Record): (s: seq<byte>)
    ensures |s| == 12 + Align8(|r.payload|)
  {
    Le32(r.iid) + Le32(r.pid) + Le32(|r.payload|) + r.payload + Zeros(Padding8(|r.payload|))
  }

  function SrcList(rs: seq<Record>): seq<byte> {
    Flat(SrcBytes, rs)
  }

  /** Four bytes more for each property. */
  lemma {:induction false} BlobSize(rs: seq<Record>)
    ensures |Blob(rs)| == |SrcList(rs)| + 4 * |rs|
  {
    if rs != [] {
      BlobSize(rs[..|rs| - 1]);
    }
  }

  /** What the checks ask for: everything but the last padding, which is cleared without a check. */
  function Needed(rs: seq<Record>): nat {
    if rs == [] then 0 else |Blob(rs[..|rs| - 1])| + 16 + |rs[|rs| - 1].payload|
  }

  lemma SrcAt(src: seq<byte>, off: nat, r: Record)
    requires At(src, off, SrcBytes(r)) && |r.payload| < WORD_LIMIT
    ensures Word(src, off + 8) == |r.payload|
    ensures Slice(src, off, 12) == Le32(r.iid) + Le32(r.pid) + Le32(|r.payload|)
    ensures Slice(src, off + 12, |r.payload|) == r.payload
  {
    hide At, Le32, Zeros, Slice, Word;
    var n := |r.payload|;
    var header := Le32(r.iid) + Le32(r.pid) + Le32(n);
    AtConcat(src, off, header + r.payload, Zeros(Padding8(n)));
    AtConcat(src, off, header, r.payload);
    AtConcat(src, off, Le32(r.iid) + Le32(r.pid), Le32(n));
    WordAt(src, off + 8, n);
    AtSlice(src, off, header);
    AtSlice(src, off + 12, r.payload);
  }

  /** One property of the list after the first k, and the list that ends behind it. */
  lemma ListAt(src: seq<byte>, rs: seq<Record>, k: nat)
    requires src == SrcList(rs) && k < |rs|
    ensures At(src, |SrcList(rs[..k])|, SrcBytes(rs[k]))
    ensures |SrcList(rs[..k + 1])| == |SrcList(rs[..k])| + |SrcBytes(rs[k])| <= |src|
    ensures Blob(rs[..k + 1]) == Blob(rs[..k]) + DspBytes(rs[k])
  {
    hide At, Flat, SrcBytes, DspBytes;
    WholeAt(src);
    FlatAt(SrcBytes, rs, k, src, 0);
    assert rs[..k + 1] == rs[..k] + [rs[k]];
    FlatSnoc(DspBytes, rs[..k], rs[k]);
  }

  lemma AllRead(rs: seq<Record>, k: nat)
    requires k <= |rs| && |SrcList(rs[..k])| >= |SrcList(rs)|
    ensures k == |rs| && rs[..k] == rs
  {
    hide SrcBytes, Flat;
    if k < |rs| {
      ListAt(SrcList(rs), rs, k);
      assert false;
    }
  }

  lemma {:induction false} NeededGrows(rs: seq<Record>, k: nat)
    requires k < |rs|
    ensures Needed(rs[..k + 1]) == |Blob(rs[..k])| + 16 + |rs[k].payload| <= Needed(rs)
    decreases |rs| - k
  {
    hide Flat, DspBytes;
    assert rs[..k + 1][..k] == rs[..k];
    if k + 1 < |rs| {
      NeededGrows(rs, k + 1);
      assert rs[..k + 1] == rs[..k] + [rs[k]];
      FlatSnoc(DspBytes, rs[..k], rs[k]);
    } else {
      assert rs[..k + 1] == rs;
    }
  }

  // ---------------------------------------------------------------- the property objects of a use case

  datatype PropObj = PropObj(sgId: u32, driver: seq<byte>, props: seq<Record>)

  function ObjBody(o: PropObj): (s: seq<byte>)
    ensures |s| == 8 + |o.driver| + |SrcList(o.props)|
  {
    Le32(|o.driver|) + o.driver + Le32(|SrcList(o.props)|) + SrcList(o.props)
  }

  function ObjBytes(o: PropObj): (s: seq<byte>)
    ensures |s| == 8 + |ObjBody(o)|
  {
    Le32(o.sgId) + Le32(|ObjBody(o)|) + ObjBody(o)
  }

  predicate ObjFits(o: PropObj) {
    |ObjBody(o)| < WORD_LIMIT && PayloadsFit(o.props)
  }

  predicate HasObj(objs: seq<PropObj>, id: u32) {
    exists i | 0 <= i < |objs| :: objs[i].sgId == id
  }

  /** The first object of the subgraph. */
  function ObjOf(objs: seq<PropObj>, id: u32): (k: nat)
    requires HasObj(objs, id)
    ensures k < |objs| && objs[k].sgId == id && forall j | 0 <= j < k :: objs[j].sgId != id
  {
    if objs[0].sgId == id then 0
    else
      assert HasObj(objs[1..], id) by {
        var i :| 0 <= i < |objs| && objs[i].sgId == id;
        assert objs[1..][i - 1].sgId == id;
      }
      ObjOf(objs[1..], id) + 1
  }

  /** The properties of the requested subgraphs, in request order. */
  function AllProps(objs: seq<PropObj>, ids: seq<u32>): seq<Record>
    requires forall i | 0 <= i < |ids| :: HasObj(objs, ids[i])
  {
    if ids == [] then []
    else AllProps(objs, ids[..|ids| - 1]) + objs[ObjOf(objs, ids[|ids| - 1])].props
  }

  lemma ObjAt(file: seq<byte>, off: nat, o: PropObj)
    requires At(file, off, ObjBytes(o)) && ObjFits(o)
    ensures Word(file, off) == o.sgId && Word(file, off + 4) == |ObjBody(o)|
    ensures Word(file, off + 8) == |o.driver| && Word(file, off + 12 + |o.driver|) == |SrcList(o.props)|
    ensures Slice(file, off + 16 + |o.driver|, |SrcList(o.props)|) == SrcList(o.props)
  {
    hide At, Le32, Word, Slice, SrcList;
    var d, src := o.driver, SrcList(o.props);
    AtConcat(file, off, Le32(o.sgId) + Le32(|ObjBody(o)|), ObjBody(o));
    AtConcat(file, off, Le32(o.sgId), Le32(|ObjBody(o)|));
    AtConcat(file, off + 8, Le32(|d|) + d + Le32(|src|), src);
    AtConcat(file, off + 8, Le32(|d|) + d, Le32(|src|));
    AtConcat(file, off + 8, Le32(|d|), d);
    WordAt(file, off, o.sgId);
    WordAt(file, off + 4, |ObjBody(o)|);
    WordAt(file, off + 8, |d|);
    WordAt(file, off + 12 + |d|, |src|);
    AtSlice(file, off + 16 + |d|, src);
  }

  /** The search loop: whatever else the data pool holds behind the objects, a listed subgraph is found first. */
  method FindObject(file: seq<byte>, start: nat, end: nat, id: u32, ghost objs: seq<PropObj>) returns (found: bool,
                    offset: nat)
    requires At(file, start, Flat(ObjBytes, objs)) && start + |Flat(ObjBytes, objs)| <= end
    requires HasObj(objs, id) && forall i | 0 <= i < |objs| :: ObjFits(objs[i])
    ensures found && offset >= 8 && At(file, offset - 8, ObjBytes(objs[ObjOf(objs, id)]))
  {
    hide At, Word, ObjBytes, ObjFits, Flat;
    found, offset := false, start;
    ghost var k, target := 0, ObjOf(objs, id);
    NoObjects(objs);
    while true
      invariant !found && k <= target && offset == start + |Flat(ObjBytes, objs[..k])| && offset < end
      decreases target - k
    {
      FlatAt(ObjBytes, objs, k, file, start);
      assert ObjFits(objs[k]);
      ObjAt(file, offset, objs[k]);
      ObjSize(objs[k]);
      var sgId, size := Word(file, offset), Word(file, offset + 4);
      offset := offset + 8;
      if sgId == id {
        return true, offset;
      }
      offset := offset + size;
      k := k + 1;
      FlatAt(ObjBytes, objs, k, file, start);
      if !(offset < end) {
        return;
      }
    }
  }

  lemma NoObjects(objs: seq<PropObj>)
    ensures Flat(ObjBytes, objs[..0]) == [] && (objs != [] ==> |Flat(ObjBytes, objs)| > 0)
  {
  }

  lemma ObjSize(o: PropObj)
    ensures |ObjBytes(o)| == 8 + |ObjBody(o)|
  {
  }

  // ---------------------------------------------------------------- the response

  class SpfResponse {
    /** spf_blob.buf; no elements stand for a null pointer. */
    const buf: array<byte>
    var size: nat

    constructor (buf: array<byte>)
      ensures this.buf == buf && size == 0
    {
      this.buf, size := buf, 0;
    }

    /** The header, and the error code inserted behind it. */
    method PutHeader(at: nat, header: seq<byte>) returns (status: Status)
      requires |header| == 12
      modifies buf
      ensures status == if at + 16 > buf.Length then ENEEDMORE else EOK
      ensures status == EOK ==> At(buf[..], at, header + Le32(0))
      ensures forall i | 0 <= i < buf.Length && i < at :: buf[i] == old(buf[i])
    {
      hide At, Le32;
      if buf.Length < at + 12 {
        return ENEEDMORE;
      }
      Put(buf, at, header);
      ghost var b := buf[..];
      if buf.Length < at + 12 + 4 {
        return ENEEDMORE;
      }
      Put(buf, at + 12, Le32(0));
      AtExtend(b, buf[..], at, header, Le32(0));
      status := EOK;
    }

    /** The payload and its padding; the source clears the padding without a check, here that stops at the end. */
    method PutPayload(at: nat, header: seq<byte>, payload: seq<byte>) returns (status: Status)
      requires |header| == 16 && At(buf[..], at, header)
      modifies buf
      ensures status == if at + 16 + |payload| > buf.Length then ENEEDMORE else EOK
      ensures status == EOK && at + 16 + Align8(|payload|) <= buf.Length ==>
        At(buf[..], at, header + payload + Zeros(Padding8(|payload|)))
      ensures forall i | 0 <= i < buf.Length && i < at :: buf[i] == old(buf[i])
    {
      hide At, Zeros;
      ghost var b := buf[..];
      var n := |payload|;
      if buf.Length < at + 16 + n {
        return ENEEDMORE;
      }
      Put(buf, at + 16, payload);
      AtExtend(b, buf[..], at, header, payload);
      ghost var b' := buf[..];
      var padding, room := Padding8(n), buf.Length - (at + 16 + n);
      Put(buf, at + 16 + n, Zeros(if padding <= room then padding else room));
      if padding <= room {
        AtExtend(b', buf[..], at, header + payload, Zeros(padding));
      }
      status := EOK;
    }

    /** BuildSpfPropertyBlob: the cursor moves over the source, the response is ahead of it by the error codes. */
    method BuildProperty(src: seq<byte>, index: nat, base: nat, cursor0: nat,
                         ghost r: Record) returns (status: Status, cursor: nat)
      requires At(src, cursor0, SrcBytes(r)) && |r.payload| < WORD_LIMIT
      modifies buf
      ensures var at := base + cursor0 + 4 * index;
        && status == (if buf.Length > 0 && at + 16 + |r.payload| > buf.Length then ENEEDMORE else EOK)
        && (status == EOK && at + 16 + Align8(|r.payload|) <= buf.Length ==> At(buf[..], at, DspBytes(r)))
        && (forall i | 0 <= i < buf.Length && i < at :: buf[i] == old(buf[i]))
      ensures status == EOK ==> cursor == cursor0 + |SrcBytes(r)|
    {
      hide At, Le32, Slice, Word, SrcBytes, Zeros;
      SrcAt(src, cursor0, r);
      var n := Word(src, cursor0 + 8);
      cursor := cursor0 + 12 + Align8(n);
      if buf.Length == 0 {
        return EOK, cursor;
      }
      var at, header := base + cursor0 + index * 4, Slice(src, cursor0, 12);
      status := PutHeader(at, header);
      if status != EOK {
        return;
      }
      status := PutPayload(at, header + Le32(0), Slice(src, cursor0 + 12, n));
    }

    /** The loop over one subgraph's properties. */
    method BuildProperties(src: seq<byte>, base: nat, ghost rs: seq<Record>) returns (status: Status, count: nat)
      requires src == SrcList(rs) && PayloadsFit(rs)
      modifies buf
      ensures status == if buf.Length > 0 && rs != [] && base + Needed(rs) > buf.Length then ENEEDMORE else EOK
      ensures status == EOK ==> count == |rs|
      ensures status == EOK && base + |Blob(rs)| <= buf.Length ==> At(buf[..], base, Blob(rs))
      ensures forall i | 0 <= i < buf.Length && i < base :: buf[i] == old(buf[i])
    {
      hide At, SrcBytes, DspBytes, Flat, Needed;
      var cursor := 0;
      count := 0;
      NothingRead(rs, buf[..], base);
      while cursor < |src|
        invariant count <= |rs| && cursor == |SrcList(rs[..count])|
        invariant buf.Length > 0 && count > 0 ==> base + Needed(rs[..count]) <= buf.Length
        invariant base + |Blob(rs[..count])| <= buf.Length ==> At(buf[..], base, Blob(rs[..count]))
        invariant forall i | 0 <= i < buf.Length && i < base :: buf[i] == old(buf[i])
        decreases |rs| - count
      {
        NotAllRead(rs, count);
        ListAt(src, rs, count);
        NeededGrows(rs, count);
        BlobSize(rs[..count]);
        ghost var before := buf[..];
        status, cursor := BuildProperty(src, count, base, cursor, rs[count]);
        if status != EOK {
          return;
        }
        if base + |Blob(rs[..count + 1])| <= buf.Length {
          AtExtend(before, buf[..], base, Blob(rs[..count]), DspBytes(rs[count]));
        }
        count := count + 1;
      }
      AllRead(rs, count);
      status := EOK;
    }

    /**
      The SPF part of BuildSubgraphDataRsp: one subgraph's properties behind the other's, and the size of
      all of them. The driver properties are only skipped here.
     */
    method BuildSubgraphData(file: seq<byte>, start: nat, end: nat, ids: seq<u32>,
                             ghost objs: seq<PropObj>) returns (status: Status)
      requires At(file, start, Flat(ObjBytes, objs)) && start + |Flat(ObjBytes, objs)| <= end
      requires forall i | 0 <= i < |objs| :: ObjFits(objs[i])
      requires forall i | 0 <= i < |ids| :: HasObj(objs, ids[i])
      modifies this`size, buf
      ensures status == EOK || (status == ENEEDMORE && |Blob(AllProps(objs, ids))| > buf.Length > 0)
      ensures status == EOK ==> size == |Blob(AllProps(objs, ids))|
      ensures status == EOK && |Blob(AllProps(objs, ids))| <= buf.Length ==> At(buf[..], 0, Blob(AllProps(objs, ids)))
    {
      hide At, ObjBytes, ObjBody, ObjFits, Flat, Word, Slice, Needed, HasObj, AllProps, DspBytes;
      var szSpfBlob := 0;
      status := EOK;
      NoProps(objs, ids, buf[..]);
      for i := 0 to |ids|
        invariant status == EOK && szSpfBlob == |Blob(AllProps(objs, ids[..i]))|
        invariant szSpfBlob <= buf.Length ==> At(buf[..], 0, Blob(AllProps(objs, ids[..i])))
      {
        ghost var o := objs[ObjOf(objs, ids[i])];
        var found, offset := FindObject(file, start, end, ids[i], objs);
        assert ObjFits(o);
        ObjAt(file, offset - 8, o);
        PropsNext(objs, ids, i);
        offset := offset + 4 + Word(file, offset);
        var szSpf := Word(file, offset);
        offset := offset + 4;
        var count;
        ghost var before := buf[..];
        PropsFit(o);
        NeededLess(o.props);
        BlobSize(o.props);
        status, count := BuildProperties(Slice(file, offset, szSpf), szSpfBlob, o.props);
        if status != EOK {
          return;
        }
        if szSpfBlob + |Blob(o.props)| <= buf.Length {
          AtExtend(before, buf[..], 0, Blob(AllProps(objs, ids[..i])), Blob(o.props));
        }
        szSpfBlob := szSpfBlob + szSpf + count * 4;
      }
      assert ids[..|ids|] == ids;
      size := szSpfBlob;
    }
  }

  lemma NoProps(objs: seq<PropObj>, ids: seq<u32>, b: seq<byte>)
    requires forall i | 0 <= i < |ids| :: HasObj(objs, ids[i])
    ensures Blob(AllProps(objs, ids[..0])) == [] && At(b, 0, [])
  {
  }

  lemma PropsFit(o: PropObj)
    requires ObjFits(o)
    ensures PayloadsFit(o.props) && |SrcList(o.props)| < WORD_LIMIT
  {
  }

  lemma NeededLess(rs: seq<Record>)
    ensures Needed(rs) <= |Blob(rs)|
  {
  }

  /** The properties of one more subgraph, as a part of all of them. */
  lemma PropsNext(objs: seq<PropObj>, ids: seq<u32>, i: nat)
    requires i < |ids| && forall i | 0 <= i < |ids| :: HasObj(objs, ids[i])
    ensures var before, props := AllProps(objs, ids[..i]), objs[ObjOf(objs, ids[i])].props;
      && AllProps(objs, ids[..i + 1]) == before + props
      && Blob(before + props) == Blob(before) + Blob(props)
      && |Blob(before + props)| <= |Blob(AllProps(objs, ids))|
  {
    hide DspBytes, HasObj;
    assert ids[..i + 1][..i] == ids[..i];
    FlatConcat(DspBytes, AllProps(objs, ids[..i]), objs[ObjOf(objs, ids[i])].props);
    PropsGrow(objs, ids, i + 1);
  }

  lemma {:induction false} PropsGrow(objs: seq<PropObj>, ids: seq<u32>, k: nat)
    requires k <= |ids| && forall i | 0 <= i < |ids| :: HasObj(objs, ids[i])
    ensures AllProps(objs, ids[..k]) <= AllProps(objs, ids)
    ensures |Blob(AllProps(objs, ids[..k]))| <= |Blob(AllProps(objs, ids))|
    decreases |ids|
  {
    hide DspBytes, HasObj, ObjOf, Flat;
    if k == |ids| {
      assert ids[..k] == ids;
    } else {
      var n := |ids| - 1;
      PropsGrow(objs, ids[..n], k);
      assert ids[..n][..k] == ids[..k];
      FlatPrefix(DspBytes, AllProps(objs, ids[..k]), AllProps(objs, ids));
    }
  }

  lemma NothingRead(rs: seq<Record>, b: seq<byte>, base: nat)
    ensures SrcList(rs[..0]) == [] && Blob(rs[..0]) == [] && (base <= |b| ==> At(b, base, []))
  {
  }

  lemma NotAllRead(rs: seq<Record>, k: nat)
    requires k <= |rs| && |SrcList(rs[..k])| < |SrcList(rs)|
    ensures k < |rs|
  {
    assert rs[..|rs|] == rs;
  }

  predicate HasAll(objs: seq<PropObj>, ids: seq<u32>) {
    forall i | 0 <= i < |ids| :: HasObj(objs, ids[i])
  }

  lemma PropsSnoc(objs: seq<PropObj>, ids: seq<u32>, id: u32)
    requires HasAll(objs, ids) && HasObj(objs, id)
    ensures HasAll(objs, ids + [id])
    ensures AllProps(objs, ids + [id]) == AllProps(objs, ids) + objs[ObjOf(objs, id)].props
  {
    hide HasObj, ObjOf;
    assert (ids + [id])[..|ids|] == ids;
  }

  lemma HasParts(objs: seq<PropObj>, a: seq<u32>, b: seq<u32>)
    ensures HasAll(objs, a + b) <==> HasAll(objs, a) && HasAll(objs, b)
  {
    hide HasObj;
    if HasAll(objs, a + b) {
      assert forall i | 0 <= i < |a| :: a[i] == (a + b)[i];
      assert forall i | 0 <= i < |b| :: b[i] == (a + b)[|a| + i];
    }
  }

  lemma {:induction false} PropsConcat(objs: seq<PropObj>, a: seq<u32>, b: seq<u32>)
    requires HasAll(objs, a) && HasAll(objs, b)
    ensures HasAll(objs, a + b) && AllProps(objs, a + b) == AllProps(objs, a) + AllProps(objs, b)
    decreases |b|
  {
    HasParts(objs, a, b);
    hide HasObj, ObjOf, AllProps;
    if b == [] {
      NothingAsked(objs);
      assert a + b == a;
    } else {
      var init, id := b[..|b| - 1], b[|b| - 1];
      assert b == init + [id] && a + b == (a + init) + [id];
      HasParts(objs, init, [id]);
      assert HasObj(objs, [id][0]);
      PropsConcat(objs, a, init);
      PropsSnoc(objs, init, id);
      PropsSnoc(objs, a + init, id);
    }
  }

  lemma NothingAsked(objs: seq<PropObj>)
    ensures HasAll(objs, []) && AllProps(objs, []) == []
  {
  }

  /** Each subgraph of the request adds the properties of its first object, behind those of the ones before it. */
  lemma PropsMean(objs: seq<PropObj>, a: seq<u32>, id: u32, b: seq<u32>, k: nat)
    requires HasAll(objs, a) && HasAll(objs, b)
    requires k < |objs| && objs[k].sgId == id && forall j | 0 <= j < k :: objs[j].sgId != id
    ensures HasAll(objs, a + [id] + b)
    ensures AllProps(objs, a + [id] + b) == AllProps(objs, a) + objs[k].props + AllProps(objs, b)
    ensures AllProps(objs, []) == []
  {
    assert HasObj(objs, id) && ObjOf(objs, id) == k;
    NothingAsked(objs);
    hide HasObj, ObjOf, AllProps, HasAll;
    PropsSnoc(objs, a, id);
    PropsConcat(objs, a + [id], b);
  }
}
