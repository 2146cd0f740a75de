/** Calibration records as blobs: printing, parsing, walking, and sorting a set request by subgraph. */
module CalBlob {
  import opened Bytes

  datatype Record = Record(iid: u32, pid: u32, payload: seq<byte>)

  /** The format the DSP reads: error code behind the header, payload padded to 8 bytes. */
  function DspBytes(r: Record): (s: seq<byte>)
    ensures |s| == 16 + Align8(|r.payload|)
  {
    Le32(r.iid) + Le32(r.pid) + Le32(|r.payload|) + Le32(0) + r.payload + Zeros(Padding8(|r.payload|))
  }

  /** The format of the delta file and of QACT: no error code, no padding. */
  function PlainBytes(r: Record): (s: seq<byte>)
    ensures |s| == 12 + |r.payload|
  {
    Le32(r.iid) + Le32(r.pid) + Le32(|r.payload|) + r.payload
  }

  function Printed(ignoreErrorCode: bool, r: Record): (s: seq<byte>)
    ensures |s| >= 12
  {
    if ignoreErrorCode then PlainBytes(r) else DspBytes(r)
  }

  function PrintedAll(ignoreErrorCode: bool, rs: seq<Record>): seq<byte> {
    Flat(r => Printed(ignoreErrorCode, r), rs)
  }

  // ---------------------------------------------------------------- one record

  datatype Parsed = Parsed(record: Record, end: nat)

  function HeaderSize(ignoreErrorCode: bool): nat {
    if ignoreErrorCode then 12 else 16
  }

  /** A header that lies inside the blob yields a record; its payload is not checked against the end. */
  function Parse(ignoreErrorCode: bool, blob: seq<byte>, off: nat): (r: Option<Parsed>)
    ensures r.Some? <==> off + HeaderSize(ignoreErrorCode) <= |blob|
    ensures r.Some? ==> r.value.end >= off + 12
  {
    var n := Word(blob, off + 8);
    var o := off + HeaderSize(ignoreErrorCode);
    if o <= |blob| then
      Some(Parsed(Record(Word(blob, off), Word(blob, off + 4), Slice(blob, o, n)),
                  o + if ignoreErrorCode then n else n + Padding8(n)))
    else None
  }

  /** AcdbBlobToCalData. */
  method BlobToCalData(ignoreErrorCode: bool, blob: seq<byte>, off: nat)
    returns (status: Status, record: Record, end: nat)
    ensures match Parse(ignoreErrorCode, blob, off)
      case Some(p) => status == EOK && record == p.record && end == p.end
      case None => status == if off > |blob| then EBADPARAM else EFAILED
  {
    hide Word, Slice;
    record, end := Record(0, 0, []), off;
    if end > |blob| {
      return EBADPARAM, record, end;
    }
    var iid := Word(blob, end);
    end := end + 4;
    if end > |blob| {
      return EFAILED, record, end;
    }
    var pid := Word(blob, end);
    end := end + 4;
    if end > |blob| {
      return EFAILED, record, end;
    }
    var size := Word(blob, end);
    end := end + 4;
    if end > |blob| {
      return EFAILED, record, end;
    }
    if !ignoreErrorCode {
      end := end + 4;
    }
    if end > |blob| {
      return EFAILED, record, end;
    }
    record := Record(iid, pid, Slice(blob, end, size));
    end := end + size;
    if !ignoreErrorCode {
      end := end + Padding8(size);
    }
    status := EOK;
  }

  /** CalDataToAcdbBlob; like the source it trusts the caller to have sized the blob. */
  method CalDataToBlob(r: Record, blob: array<byte>, off: nat) returns (end: nat)
    requires off < blob.Length ==> off + |PlainBytes(r)| <= blob.Length
    modifies blob
    ensures off < blob.Length ==> end == off + |PlainBytes(r)| && At(blob[..], off, PlainBytes(r))
    ensures off >= blob.Length ==> end == off
    ensures forall i | 0 <= i < blob.Length && !(off <= i < end) :: blob[i] == old(blob[i])
  {
    hide At, Le32;
    end := off;
    if end < blob.Length {
      Put(blob, end, Le32(r.iid) + Le32(r.pid) + Le32(|r.payload|));
      end := end + 12;
      ghost var b := blob[..];
      Put(blob, end, r.payload);
      AtExtend(b, blob[..], off, Le32(r.iid) + Le32(r.pid) + Le32(|r.payload|), r.payload);
      end := end + |r.payload|;
    }
  }

  /** The words of a printed record: module, parameter, size, in the DSP's format an error code; then the payload. */
  lemma RecordLayout(ignoreErrorCode: bool, blob: seq<byte>, off: nat, r: Record)
    requires At(blob, off, Printed(ignoreErrorCode, r)) && |r.payload| < WORD_LIMIT
    ensures Word(blob, off) == r.iid && Word(blob, off + 4) == r.pid && Word(blob, off + 8) == |r.payload|
    ensures !ignoreErrorCode ==> Word(blob, off + 12) == 0
    ensures Slice(blob, off + if ignoreErrorCode then 12 else 16, |r.payload|) == r.payload
  {
    hide At, Le32, Word, Slice, Zeros;
    var n := |r.payload|;
    if !ignoreErrorCode {
      AtConcat(blob, off, Le32(r.iid) + Le32(r.pid) + Le32(n) + Le32(0) + r.payload, Zeros(Padding8(n)));
      AtConcat(blob, off, Le32(r.iid) + Le32(r.pid) + Le32(n) + Le32(0), r.payload);
      AtConcat(blob, off, Le32(r.iid) + Le32(r.pid) + Le32(n), Le32(0));
      WordAt(blob, off + 12, 0);
    } else {
      AtConcat(blob, off, Le32(r.iid) + Le32(r.pid) + Le32(n), r.payload);
    }
    AtConcat(blob, off, Le32(r.iid) + Le32(r.pid), Le32(n));
    AtConcat(blob, off, Le32(r.iid), Le32(r.pid));
    WordAt(blob, off, r.iid);
    WordAt(blob, off + 4, r.pid);
    WordAt(blob, off + 8, n);
    AtSlice(blob, off + HeaderSize(ignoreErrorCode), r.payload);
  }

  /** Wherever a printed record lies in a blob, parsing there gives it back and ends behind it. */
  lemma ParsePrinted(ignoreErrorCode: bool, blob: seq<byte>, off: nat, r: Record)
    requires At(blob, off, Printed(ignoreErrorCode, r)) && |r.payload| < WORD_LIMIT
    ensures Parse(ignoreErrorCode, blob, off) == Some(Parsed(r, off + |Printed(ignoreErrorCode, r)|))
  {
    hide At, Word, Slice;
    RecordLayout(ignoreErrorCode, blob, off, r);
    AtInside(blob, off, Printed(ignoreErrorCode, r));
  }

  lemma AtInside(b: seq<byte>, off: nat, s: seq<byte>)
    requires At(b, off, s)
    ensures off + |s| <= |b|
  {
  }

  // ---------------------------------------------------------------- a whole blob

  /** The records that `while (blob_offset < buf_size)` reads, unless one of them runs out of header. */
  function ParseAll(ignoreErrorCode: bool, blob: seq<byte>, off: nat): Option<seq<Record>>
    decreases if off < |blob| then |blob| - off else 0
  {
    if off >= |blob| then Some([])
    else
      match Parse(ignoreErrorCode, blob, off)
      case None => None
      case Some(p) =>
        match ParseAll(ignoreErrorCode, blob, p.end)
        case None => None
        case Some(rs) => Some([p.record] + rs)
  }

  predicate PayloadsFit(rs: seq<Record>) {
    forall i | 0 <= i < |rs| :: |rs[i].payload| < WORD_LIMIT
  }

  /** Printing and then parsing gives the records back, in either format. */
  lemma RoundTrip(ignoreErrorCode: bool, rs: seq<Record>)
    requires PayloadsFit(rs)
    ensures ParseAll(ignoreErrorCode, PrintedAll(ignoreErrorCode, rs), 0) == Some(rs)
  {
    ParseRest(ignoreErrorCode, rs, 0);
    assert rs[..0] == [] && rs[0..] == rs;
  }

  lemma {:induction false} ParseRest(ignoreErrorCode: bool, rs: seq<Record>, k: nat)
    requires PayloadsFit(rs) && k <= |rs|
    ensures ParseAll(ignoreErrorCode, PrintedAll(ignoreErrorCode, rs), |PrintedAll(ignoreErrorCode, rs[..k])|) ==
      Some(rs[k..])
    decreases |rs| - k
  {
    hide Printed, Parse, Flat, At;
    var f := (r: Record) => Printed(ignoreErrorCode, r);
    var blob, off := PrintedAll(ignoreErrorCode, rs), |PrintedAll(ignoreErrorCode, rs[..k])|;
    if k < |rs| {
      WholeAt(blob);
      FlatAt(f, rs, k, blob, 0);
      ParsePrinted(ignoreErrorCode, blob, off, rs[k]);
      ParseRest(ignoreErrorCode, rs, k + 1);
      assert rs[k..] == [rs[k]] + rs[k + 1..];
    } else {
      assert rs[..k] == rs;
    }
  }

  lemma WholeAt(b: seq<byte>)
    ensures At(b, 0, b)
  {
  }

  /**
    Without error codes the other direction holds as well, and only the end of the last payload can
    spoil it: what the records print to is the blob, continued by zeros as far as that payload claims.
   */
  lemma PrintParsed(blob: seq<byte>)
    requires ParseAll(true, blob, 0).Some?
    ensures var printed := PrintedAll(true, ParseAll(true, blob, 0).value);
      |printed| >= |blob| && printed == blob + Zeros(|printed| - |blob|) && (printed == blob <==> |printed| == |blob|)
  {
    PrintRest(blob, 0);
    var printed := PrintedAll(true, ParseAll(true, blob, 0).value);
    assert Slice(blob, 0, |printed|) == blob + Zeros(|printed| - |blob|);
  }

  lemma {:induction false} PrintRest(blob: seq<byte>, off: nat)
    requires ParseAll(true, blob, off).Some?
    ensures var printed := PrintedAll(true, ParseAll(true, blob, off).value);
      printed == Slice(blob, off, |printed|) && off + |printed| >= |blob|
    decreases if off < |blob| then |blob| - off else 0
  {
    hide PlainBytes, Flat, Word, Slice;
    var f := (r: Record) => Printed(true, r);
    if off < |blob| {
      var p := Parse(true, blob, off).value;
      var rest := ParseAll(true, blob, p.end).value;
      PrintRest(blob, p.end);
      PlainOfParsed(blob, off);
      FlatConcat(f, [p.record], rest);
      FlatOne(f, p.record);
      var m := |PrintedAll(true, rest)|;
      SliceSplit(blob, off, p.end - off, m);
    } else {
      NothingPrinted(blob, off);
    }
  }

  lemma FlatOne<T, U>(f: T -> seq<U>, x: T)
    ensures Flat(f, [x]) == f(x)
  {
    FlatSnoc(f, [], x);
  }

  lemma NothingPrinted(blob: seq<byte>, off: nat)
    ensures PrintedAll(true, []) == [] == Slice(blob, off, 0)
  {
  }

  lemma PlainOfParsed(blob: seq<byte>, off: nat)
    requires off + 12 <= |blob|
    ensures var p := Parse(true, blob, off).value; PlainBytes(p.record) == Slice(blob, off, p.end - off)
  {
    hide Word, Slice, Le32;
    var n: nat := Word(blob, off + 8);
    Le32OfWord(blob, off);
    Le32OfWord(blob, off + 4);
    Le32OfWord(blob, off + 8);
    SliceSplit(blob, off, 4, 4);
    SliceSplit(blob, off, 8, 4);
    SliceSplit(blob, off, 12, n);
  }

  /** Records in the DSP's format, one behind the other, as every query writes them. */
  function Blob(recs: seq<Record>): seq<byte> {
    Flat(DspBytes, recs)
  }

  /** What a query writes is what the parser of calibration blobs reads back. */
  lemma BlobParses(recs: seq<Record>)
    requires PayloadsFit(recs)
    ensures ParseAll(false, Blob(recs), 0) == Some(recs)
  {
    BlobPrinted(recs);
    RoundTrip(false, recs);
  }

  lemma {:induction false} BlobPrinted(recs: seq<Record>)
    ensures Blob(recs) == PrintedAll(false, recs)
  {
    hide DspBytes;
    if recs != [] {
      BlobPrinted(recs[..|recs| - 1]);
    }
  }

  lemma BlobOne(r: Record)
    ensures Blob([r]) == DspBytes(r)
  {
    FlatSnoc(DspBytes, [], r);
  }

  // ---------------------------------------------------------------- the walk of a set request

  /** One step of the set path's own walk over the same blob. */
  function NextBoundary(blob: seq<byte>, off: nat): nat {
    off + 16 + Align8(Word(blob, off + 8))
  }

  /** It steps exactly as the parser does, so both stop at the same records. */
  lemma StepsAgree(blob: seq<byte>, off: nat)
    requires Parse(false, blob, off).Some?
    ensures NextBoundary(blob, off) == Parse(false, blob, off).value.end
  {
  }

  predicate Names(r: Record, iid: u32, pid: u32) {
    r.iid == iid && r.pid == pid
  }

  function FirstNamed(rs: seq<Record>, iid: u32, pid: u32): (k: Option<nat>)
    ensures k.Some? ==> k.value < |rs| && Names(rs[k.value], iid, pid)
    ensures k.Some? ==> forall j | 0 <= j < k.value :: !Names(rs[j], iid, pid)
    ensures k.None? ==> forall j | 0 <= j < |rs| :: !Names(rs[j], iid, pid)
  {
    if rs == [] then None
    else if Names(rs[0], iid, pid) then Some(0)
    else
      match FirstNamed(rs[1..], iid, pid)
      case None => None
      case Some(k) => Some(k + 1)
  }

  /**
    The search loop of AcdbSetSubgraphCalibration: which bytes of the request it hands on for one
    <iid, pid> pair. The source tests the length only after a step, so the request is not empty.
   */
  method FindInRequest(blob: seq<byte>, iid: u32, pid: u32, ghost rs: seq<Record>)
    returns (found: bool, off: nat, size: nat)
    requires blob != [] && ParseAll(false, blob, 0) == Some(rs)
    ensures found == FirstNamed(rs, iid, pid).Some?
    ensures found ==>
      off < |blob| && ParseAll(false, Slice(blob, off, size), 0) == Some([rs[FirstNamed(rs, iid, pid).value]])
  {
    hide Word, Slice, Align8, Parse, ParseAll;
    off, size := 0, 0;
    ghost var k := 0;
    while true
      invariant off < |blob| && k <= |rs| && ParseAll(false, blob, off) == Some(rs[k..])
      invariant forall j | 0 <= j < k :: !Names(rs[j], iid, pid)
      decreases |blob| - off
    {
      var n: nat := Word(blob, off + 8);
      NextRecord(blob, off, rs, k);
      if Word(blob, off) == iid && Word(blob, off + 4) == pid {
        size := 16 + Align8(n);
        SliceOfRecord(blob, off);
        return true, off, size;
      }
      off := off + 16 + Align8(n);
      k := k + 1;
      if !(off < |blob|) {
        return false, off, 0;
      }
    }
  }

  lemma NextRecord(blob: seq<byte>, off: nat, rs: seq<Record>, k: nat)
    requires off < |blob| && k <= |rs| && ParseAll(false, blob, off) == Some(rs[k..])
    ensures k < |rs| && Parse(false, blob, off) == Some(Parsed(rs[k], NextBoundary(blob, off)))
    ensures rs[k].iid == Word(blob, off) && rs[k].pid == Word(blob, off + 4)
    ensures ParseAll(false, blob, NextBoundary(blob, off)) == Some(rs[k + 1..])
    ensures NextBoundary(blob, off) >= |blob| ==> k + 1 == |rs|
  {
    hide Word, Slice, Align8;
    var p := Parse(false, blob, off).value;
    StepsAgree(blob, off);
    var rest := ParseAll(false, blob, p.end).value;
    assert rs[k..] == [p.record] + rest && |rs[k..]| == 1 + |rest|;
    assert rs[k..][0] == rs[k] && rs[k + 1..] == rs[k..][1..] == rest;
  }

  /** The slice of a request that one record spans parses, alone, to that record. */
  lemma SliceOfRecord(blob: seq<byte>, off: nat)
    requires Parse(false, blob, off).Some?
    ensures var p := Parse(false, blob, off).value;
      ParseAll(false, Slice(blob, off, p.end - off), 0) == Some([p.record])
  {
    hide Word, Slice, Align8;
    var p := Parse(false, blob, off).value;
    var n: nat := Word(blob, off + 8);
    var s := Slice(blob, off, p.end - off);
    WordOfSlice(blob, off, p.end - off, 0);
    WordOfSlice(blob, off, p.end - off, 4);
    WordOfSlice(blob, off, p.end - off, 8);
    SliceOfSlice(blob, off, p.end - off, 16, n);
    assert Parse(false, s, 0) == Some(Parsed(p.record, p.end - off));
    assert ParseAll(false, s, p.end - off) == Some([]);
    assert [p.record] + [] == [p.record];
  }

  lemma WordOfSlice(f: seq<byte>, off: nat, n: nat, i: nat)
    requires i + 4 <= n
    ensures Word(Slice(f, off, n), i) == Word(f, off + i)
  {
    hide Compose;
    var s := Slice(f, off, n);
    assert forall j | i <= j < i + 4 :: ByteAt(s, j) == ByteAt(f, off + j);
  }

  lemma SliceOfSlice(f: seq<byte>, off: nat, n: nat, i: nat, m: nat)
    requires i + m <= n
    ensures Slice(Slice(f, off, n), i, m) == Slice(f, off + i, m)
  {
    var a, b := Slice(Slice(f, off, n), i, m), Slice(f, off + i, m);
    forall k | 0 <= k < m
      ensures a[k] == b[k]
    {
      assert a[k] == ByteAt(Slice(f, off, n), i + k) == Slice(f, off, n)[i + k] == ByteAt(f, off + (i + k));
    }
  }
}
