/**
  The response of a calibration query: the same walk either adds up a size or, in a second call, writes
  the records one behind the other.
 */
module CalResponse {
  import opened Bytes
  import opened CalBlob

  /**
    A response at one moment; no bytes stand for the null buffer of a size query. A record is spilled when
    the heap's data for it did not go into the buffer in whole, although the query went on.
   */
  datatype RspView = RspView(bytes: seq<byte>, size: nat, off: nat, spilled: nat)

  predicate Fits(v: RspView, recs: seq<Record>) {
    v.off + |Blob(recs)| <= |v.bytes|
  }

  /** The query clears the buffer first, and file data relies on that for its padding. */
  predicate Clear(v: RspView) {
    forall i | v.off <= i < |v.bytes| :: v.bytes[i] == 0
  }

  /** There is room for the records, or only their size is wanted. */
  predicate Ready(v: RspView, recs: seq<Record>) {
    |v.bytes| == 0 || (Fits(v, recs) && Clear(v))
  }

  predicate Wrote(v: RspView, w: RspView, recs: seq<Record>) {
    && w.off == v.off + |Blob(recs)| <= |w.bytes| == |v.bytes|
    && w.bytes[..v.off] == v.bytes[..v.off]
    && At(w.bytes, v.off, Blob(recs))
    && Clear(w)
  }

  /** The response after the records: their size added, or their bytes written if there was room for them. */
  predicate Grew(v: RspView, w: RspView, recs: seq<Record>) {
    && |w.bytes| == |v.bytes|
    && w.size == v.size + (if |v.bytes| == 0 then |Blob(recs)| else 0)
    && (|v.bytes| > 0 && Ready(v, recs) ==> Wrote(v, w, recs))
  }

  lemma GrewNone(v: RspView)
    ensures Grew(v, v, [])
  {
  }

  lemma GrewConcat(u: RspView, v: RspView, w: RspView, a: seq<Record>, b: seq<Record>)
    requires Grew(u, v, a) && Grew(v, w, b)
    ensures Grew(u, w, a + b)
    ensures Ready(u, a + b) ==> Ready(u, a) && Ready(v, b)
  {
    hide DspBytes, At;
    FlatConcat(DspBytes, a, b);
    if |u.bytes| > 0 && Ready(u, a + b) {
      WroteConcat(u, v, w, a, b);
    }
  }

  lemma WroteConcat(u: RspView, v: RspView, w: RspView, a: seq<Record>, b: seq<Record>)
    requires Wrote(u, v, a) && Wrote(v, w, b)
    ensures Wrote(u, w, a + b)
  {
    hide DspBytes, Clear, Flat;
    FlatConcat(DspBytes, a, b);
    assert forall i | 0 <= i < v.off :: w.bytes[i] == w.bytes[..v.off][i] == v.bytes[..v.off][i] == v.bytes[i];
    AtExtend(v.bytes, w.bytes, u.off, Blob(a), Blob(b));
    assert w.bytes[..u.off] == u.bytes[..u.off];
  }

  /** Once there is no room for some records there is none for more, and only the size is promised. */
  lemma GrewUnready(v: RspView, w: RspView, a: seq<Record>, b: seq<Record>)
    requires a <= b && !Ready(v, a) && Grew(v, w, a)
    ensures !Ready(v, b) && Grew(v, w, b)
  {
    if Ready(v, b) {
      ReadyPrefix(v, a, b);
    }
  }

  lemma ReadyPrefix(v: RspView, a: seq<Record>, b: seq<Record>)
    requires a <= b && Ready(v, b)
    ensures Ready(v, a)
  {
    FlatPrefix(DspBytes, a, b);
  }

  // ---------------------------------------------------------------- one record

  datatype Advance = Advance(ok: bool, off: nat)

  /** How far a record from the heap gets: it is checked and written piece by piece. */
  function HeapAdvance(cap: nat, off: nat, n: nat): Advance {
    if cap < off + 8 then Advance(false, off)
    else if cap < off + 12 then Advance(false, off + 8)
    else if cap < off + 16 then Advance(false, off + 12)
    else if cap < off + 16 + n then Advance(false, off + 16)
    else Advance(true, off + 16 + Align8(n))
  }

  /** A record from the file is checked with its padding. */
  function FileAdvance(cap: nat, off: nat, n: nat): Advance {
    if cap < off + 16 then Advance(false, off)
    else if cap < off + 16 + Align8(n) then Advance(false, off + 16)
    else Advance(true, off + 16 + Align8(n))
  }

  /** A failure to write heap data is taken for a parameter the heap does not have: the file's data follows. */
  function ParamAdvance(cap: nat, off: nat, heapSize: Option<nat>, fileSize: nat): Advance {
    match heapSize
    case None => FileAdvance(cap, off, fileSize)
    case Some(n) =>
      var a := HeapAdvance(cap, off, n);
      if a.ok then a else FileAdvance(cap, a.off, fileSize)
  }

  /** With heap data a too small buffer can be reported as success, the file's record behind a stray header. */
  lemma HeapFallsThrough() returns (cap: nat, heapSize: nat, fileSize: nat)
    ensures 16 + Align8(heapSize) > cap
    ensures ParamAdvance(cap, 0, Some(heapSize), fileSize) == Advance(true, 16 + 16 + Align8(fileSize))
  {
    cap, heapSize, fileSize := 40, 100, 8;
  }

  /**
    Exactly when: the payload the client set does not fit behind its header, but what is left after
    the part already written has room for the file's whole record.
   */
  lemma HeapFallsThroughWhen(cap: nat, off: nat, heapSize: nat, fileSize: nat)
    ensures
      var a := ParamAdvance(cap, off, Some(heapSize), fileSize);
      a.ok && !HeapAdvance(cap, off, heapSize).ok <==>
      off + 16 + heapSize > cap && off + 32 + Align8(fileSize) <= cap
  {
  }

  /** s was written at the offset, and nothing else. */
  predicate Appended(v: RspView, w: RspView, s: seq<byte>) {
    && w.off == v.off + |s| <= |w.bytes| == |v.bytes| && w.size == v.size
    && At(w.bytes, v.off, s)
    && forall i | 0 <= i < |w.bytes| && !(v.off <= i < w.off) :: w.bytes[i] == v.bytes[i]
  }

  lemma AppendedConcat(u: RspView, v: RspView, w: RspView, a: seq<byte>, b: seq<byte>)
    requires Appended(u, v, a) && Appended(v, w, b)
    ensures Appended(u, w, a + b)
  {
    AtExtend(v.bytes, w.bytes, u.off, a, b);
  }

  lemma AppendedRecord(v: RspView, w: RspView, r: Record)
    requires Appended(v, w, DspBytes(r)) && Clear(v)
    ensures Wrote(v, w, [r])
  {
    hide DspBytes, At, Flat;
    BlobOne(r);
  }

  /** A record written in five pieces. */
  lemma AppendedPieces(v0: RspView, v1: RspView, v2: RspView, v3: RspView, v4: RspView, v5: RspView, r: Record)
    requires Appended(v0, v1, Le32(r.iid) + Le32(r.pid))
    requires Appended(v1, v2, Le32(|r.payload|)) && Appended(v2, v3, Le32(0))
    requires Appended(v3, v4, r.payload) && Appended(v4, v5, Zeros(Padding8(|r.payload|)))
    ensures Clear(v0) ==> Wrote(v0, v5, [r])
  {
    hide Appended, Wrote, Clear, Le32, Zeros;
    var n := |r.payload|;
    AppendedConcat(v0, v1, v2, Le32(r.iid) + Le32(r.pid), Le32(n));
    AppendedConcat(v0, v2, v3, Le32(r.iid) + Le32(r.pid) + Le32(n), Le32(0));
    AppendedConcat(v0, v3, v4, Le32(r.iid) + Le32(r.pid) + Le32(n) + Le32(0), r.payload);
    AppendedConcat(v0, v4, v5, Le32(r.iid) + Le32(r.pid) + Le32(n) + Le32(0) + r.payload, Zeros(Padding8(n)));
    if Clear(v0) {
      AppendedRecord(v0, v5, r);
    }
  }

  function HeaderBytes(r: Record): (s: seq<byte>)
    ensures |s| == 16
  {
    Le32(r.iid) + Le32(r.pid) + Le32(|r.payload|) + Le32(0)
  }

  /** In a cleared buffer the padding is there without being written. */
  lemma AppendedUnpadded(v: RspView, w: RspView, r: Record)
    requires Appended(v, w, HeaderBytes(r) + r.payload) && Clear(v) && w.off + Padding8(|r.payload|) <= |w.bytes|
    ensures Wrote(v, w.(off := w.off + Padding8(|r.payload|)), [r])
  {
    hide At, Flat, Le32;
    BlobOne(r);
    var p := Padding8(|r.payload|);
    ZerosAt(w.bytes, w.off, p);
    AtConcat(w.bytes, v.off, HeaderBytes(r) + r.payload, Zeros(p));
    assert HeaderBytes(r) + r.payload + Zeros(p) == DspBytes(r);
  }

  lemma ZerosAt(b: seq<byte>, off: nat, n: nat)
    requires off + n <= |b| && forall i | off <= i < off + n :: b[i] == 0
    ensures At(b, off, Zeros(n))
  {
  }

  // ---------------------------------------------------------------- the response

  /** The caller's AcdbBlob and the offset that every writer moves along. */
  class Response {
    const buf: array<byte>
    var size: nat
    var off: nat
    ghost var spilled: nat

    constructor (buf: array<byte>, size: nat)
      ensures this.buf == buf && View() == RspView(buf[..], size, 0, 0)
    {
      this.buf := buf;
      this.size := size;
      off := 0;
      spilled := 0;
    }

    ghost function View(): RspView
      reads this, buf
    {
      RspView(buf[..], size, off, spilled)
    }

    /** AcdbWriteBuffer. */
    method WriteBuffer(src: seq<byte>) returns (status: Status)
      modifies this`off, buf
      ensures status == (if old(off) + |src| <= buf.Length then EOK else ENEEDMORE)
      ensures if status == EOK then Appended(old(View()), View(), src) else View() == old(View())
    {
      if off + |src| > buf.Length {
        return ENEEDMORE;
      }
      Put(buf, off, src);
      off := off + |src|;
      status := EOK;
    }

    /** The source clears the padding without a check; here that stops at the end of the buffer. */
    method WritePadding(padding: nat)
      modifies this`off, buf
      ensures off == old(off) + padding
      ensures off <= buf.Length ==> Appended(old(View()), View(), Zeros(padding))
    {
      if off <= buf.Length {
        Put(buf, off, Zeros(if off + padding <= buf.Length then padding else buf.Length - off));
      }
      off := off + padding;
    }

    /** The part of GetSubgraphCalDataFromHeap behind the lookup. */
    method WriteHeapData(r: Record) returns (status: Status)
      modifies this`size, this`off, buf
      ensures Grew(old(View()), View(), [r]) && (Ready(old(View()), [r]) ==> status == EOK)
      ensures buf.Length > 0 ==>
        var a := HeapAdvance(buf.Length, old(off), |r.payload|);
        off == a.off && status == if a.ok then EOK else ENEEDMORE
    {
      hide At, Le32, Wrote;
      BlobOne(r);
      var n := |r.payload|;
      if buf.Length == 0 {
        size := size + 16 + Align8(n);
        off := off + 16 + Align8(n);
        return EOK;
      }
      ghost var v0 := View();
      status := WriteBuffer(Le32(r.iid) + Le32(r.pid));
      if status != EOK {
        return;
      }
      ghost var v1 := View();
      status := WriteBuffer(Le32(n));
      if status != EOK {
        return;
      }
      ghost var v2 := View();
      status := WriteBuffer(Le32(0));
      if status != EOK {
        return;
      }
      ghost var v3 := View();
      status := WriteBuffer(r.payload);
      if status != EOK {
        return;
      }
      ghost var v4 := View();
      WritePadding(Padding8(n));
      if v4.off + Padding8(n) <= buf.Length {
        AppendedPieces(v0, v1, v2, v3, v4, View(), r);
      }
    }

    /** The part of AcdbGetSubgraphCalibration behind the file read. */
    method WriteFileData(r: Record) returns (status: Status)
      modifies this`size, this`off, buf
      ensures Grew(old(View()), View(), [r]) && (Ready(old(View()), [r]) ==> status == EOK)
      ensures buf.Length > 0 ==>
        var a := FileAdvance(buf.Length, old(off), |r.payload|);
        off == a.off && status == if a.ok then EOK else ENEEDMORE
    {
      hide At, Le32;
      BlobOne(r);
      var n := |r.payload|;
      if buf.Length == 0 {
        size := size + 16 + Align8(n);
        return EOK;
      }
      ghost var v0 := View();
      status := WriteBuffer(HeaderBytes(r));
      if status != EOK {
        return;
      }
      ghost var v1 := View();
      if buf.Length < off + Align8(n) {
        return ENEEDMORE;
      }
      if n > 0 {
        status := WriteBuffer(r.payload);
      }
      ghost var v2 := View();
      NothingAppended(v1);
      AppendedConcat(v0, v1, v2, HeaderBytes(r), r.payload);
      if Clear(v0) {
        AppendedUnpadded(v0, v2, r);
      }
      off := off + Padding8(n);
    }
  }

  lemma NothingAppended(v: RspView)
    requires v.off <= |v.bytes|
    ensures Appended(v, v, [])
  {
  }
}
