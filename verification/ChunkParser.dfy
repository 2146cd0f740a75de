/** The walk over the tagged chunks of an ACDB file. */
module ChunkParser {
  import opened Bytes

  const FILE_ID: u32 := 0x4244_4341
  const FILE_TYPE: u32 := 0
  const PROPERTIES_SIZE := 12

  datatype Chunk = Chunk(id: u32, payload: seq<byte>)

  function ChunkBytes(c: Chunk): (s: seq<byte>)
    ensures |s| == 8 + |c.payload|
  {
    Le32(c.id) + Le32(|c.payload|) + c.payload
  }

  function FileBytes(properties: seq<byte>, cs: seq<Chunk>): seq<byte> {
    properties + Flat(ChunkBytes, cs)
  }

  /** A chunk must not be empty. */
  predicate Valid(c: Chunk) {
    0 < |c.payload| < WORD_LIMIT
  }

  predicate AllValid(cs: seq<Chunk>) {
    forall i | 0 <= i < |cs| :: Valid(cs[i])
  }

  // ---------------------------------------------------------------- what the bytes are

  /** The header at a position describes a chunk that ends inside the buffer. */
  predicate ChunkAt(buf: seq<byte>, at: nat) {
    && at + 8 <= |buf|
    && var size: nat := Word(buf, at + 4); 0 < size && at + 8 + size <= |buf|
  }

  function NextChunk(buf: seq<byte>, at: nat): nat {
    at + 8 + Word(buf, at + 4)
  }

  /** The chunks from a position on, up to the end or to the first that is not one. */
  function Chunks(buf: seq<byte>, at: nat): seq<Chunk>
    decreases if at < |buf| then |buf| - at else 0
  {
    if at < |buf| && ChunkAt(buf, at) then
      [Chunk(Word(buf, at), Slice(buf, at + 8, Word(buf, at + 4)))] + Chunks(buf, NextChunk(buf, at))
    else []
  }

  /** The walk gets to the end. */
  predicate Intact(buf: seq<byte>, at: nat)
    decreases if at < |buf| then |buf| - at else 0
  {
    at < |buf| ==> ChunkAt(buf, at) && Intact(buf, NextChunk(buf, at))
  }

  function FirstWithId(cs: seq<Chunk>, id: u32): (r: Option<nat>)
    ensures r.Some? ==> r.value < |cs| && cs[r.value].id == id && forall j | 0 <= j < r.value :: cs[j].id != id
    ensures r.None? ==> forall j | 0 <= j < |cs| :: cs[j].id != id
  {
    if cs == [] then None
    else if cs[0].id == id then Some(0)
    else
      match FirstWithId(cs[1..], id)
      case None => None
      case Some(k) => Some(k + 1)
  }

  // ---------------------------------------------------------------- acdb_parser_get_chunk

  /** For any bytes: what is found lies inside the buffer and is the first chunk with the id. */
  method GetChunk(buf: seq<byte>, id: u32) returns (status: Status, offset: nat, size: nat)
    ensures |buf| < PROPERTIES_SIZE ==> status == EBADPARAM
    ensures |buf| >= PROPERTIES_SIZE ==>
      var cs := Chunks(buf, PROPERTIES_SIZE);
      match FirstWithId(cs, id)
      case Some(k) => status == EOK && 0 < size && offset + size <= |buf| && Slice(buf, offset, size) == cs[k].payload
      case None => status == if Intact(buf, PROPERTIES_SIZE) then ENOTEXIST else EFAILED
  {
    hide Word, Slice, Chunks, Intact, FirstWithId;
    offset, size := 0, 0;
    if |buf| == 0 || |buf| < PROPERTIES_SIZE {
      return EBADPARAM, offset, size;
    }
    var start := PROPERTIES_SIZE;
    ghost var done := [];
    assert done + Chunks(buf, start) == Chunks(buf, start);
    while start < |buf|
      invariant Chunks(buf, PROPERTIES_SIZE) == done + Chunks(buf, start)
      invariant forall j | 0 <= j < |done| :: done[j].id != id
      invariant Intact(buf, PROPERTIES_SIZE) == Intact(buf, start)
      decreases |buf| - start
    {
      WalkStep(buf, start, done);
      if start + 8 > |buf| {
        return EFAILED, offset, size;
      }
      var headerId, headerSize := Word(buf, start), Word(buf, start + 4);
      var next := start + 8 + headerSize;
      if next > |buf| || headerSize == 0 {
        return EFAILED, offset, size;
      }
      done := done + [Chunk(headerId, Slice(buf, start + 8, headerSize))];
      if headerId == id {
        FirstIs(done + Chunks(buf, next), id, |done| - 1);
        return EOK, start + 8, headerSize;
      }
      start := next;
    }
    WalkStep(buf, start, done);
    status := ENOTEXIST;
  }

  /** One step of the walk, or its end. */
  lemma WalkStep(buf: seq<byte>, at: nat, done: seq<Chunk>)
    ensures if at < |buf| && ChunkAt(buf, at) then
        && done + Chunks(buf, at) ==
           done + [Chunk(Word(buf, at), Slice(buf, at + 8, Word(buf, at + 4)))] + Chunks(buf, NextChunk(buf, at))
        && Intact(buf, at) == Intact(buf, NextChunk(buf, at))
      else done + Chunks(buf, at) == done && Intact(buf, at) == (at >= |buf|)
  {
    hide Word, Slice;
  }

  lemma FirstIs(cs: seq<Chunk>, id: u32, k: nat)
    requires k < |cs| && cs[k].id == id && forall j | 0 <= j < k :: cs[j].id != id
    ensures FirstWithId(cs, id) == Some(k)
  {
  }

  // ---------------------------------------------------------------- files made of chunks

  lemma {:induction false} ReadBack(properties: seq<byte>, cs: seq<Chunk>, k: nat)
    requires AllValid(cs) && k <= |cs|
    ensures var buf, at := FileBytes(properties, cs), |properties| + |Flat(ChunkBytes, cs[..k])|;
      Chunks(buf, at) == cs[k..] && Intact(buf, at)
    decreases |cs| - k
  {
    hide At, Flat, ChunkBytes, Word, Slice;
    var buf, at := FileBytes(properties, cs), |properties| + |Flat(ChunkBytes, cs[..k])|;
    if k < |cs| {
      TailAt(properties, Flat(ChunkBytes, cs));
      FlatAt(ChunkBytes, cs, k, buf, |properties|);
      ReadBack(properties, cs, k + 1);
      OneChunk(buf, at, cs[k]);
      assert cs[k..] == [cs[k]] + cs[k + 1..];
    } else {
      assert cs[..k] == cs && cs[k..] == [];
    }
  }

  lemma TailAt(a: seq<byte>, b: seq<byte>)
    ensures At(a + b, |a|, b)
  {
  }

  lemma OneChunk(buf: seq<byte>, at: nat, c: Chunk)
    requires At(buf, at, ChunkBytes(c)) && Valid(c)
    ensures ChunkAt(buf, at) && Word(buf, at) == c.id && Slice(buf, at + 8, Word(buf, at + 4)) == c.payload
    ensures NextChunk(buf, at) == at + |ChunkBytes(c)|
  {
    hide Le32, Word, Slice;
    var n := |c.payload|;
    AtConcat(buf, at, Le32(c.id) + Le32(n), c.payload);
    AtConcat(buf, at, Le32(c.id), Le32(n));
    WordAt(buf, at, c.id);
    WordAt(buf, at + 4, n);
    AtSlice(buf, at + 8, c.payload);
  }

  /** In a file made of non-empty chunks a lookup sees exactly these chunks. */
  lemma FileReadsBack(properties: seq<byte>, cs: seq<Chunk>)
    requires |properties| == PROPERTIES_SIZE && AllValid(cs)
    ensures var buf := FileBytes(properties, cs); Chunks(buf, PROPERTIES_SIZE) == cs && Intact(buf, PROPERTIES_SIZE)
  {
    ReadBack(properties, cs, 0);
    assert cs[..0] == [] && cs[0..] == cs;
  }

  /** And no other file passes: a walk that gets to the end has read all bytes, as non-empty chunks. */
  lemma IntactIsFile(buf: seq<byte>)
    requires |buf| >= PROPERTIES_SIZE
    ensures Intact(buf, PROPERTIES_SIZE) <==>
            var cs := Chunks(buf, PROPERTIES_SIZE); AllValid(cs) && buf == FileBytes(buf[..PROPERTIES_SIZE], cs)
  {
    var cs := Chunks(buf, PROPERTIES_SIZE);
    if Intact(buf, PROPERTIES_SIZE) {
      Reassemble(buf, PROPERTIES_SIZE);
      assert buf == buf[..PROPERTIES_SIZE] + buf[PROPERTIES_SIZE..];
    }
    if AllValid(cs) && buf == FileBytes(buf[..PROPERTIES_SIZE], cs) {
      FileReadsBack(buf[..PROPERTIES_SIZE], cs);
    }
  }

  lemma JoinChunk(c: Chunk, rest: seq<Chunk>)
    ensures Flat(ChunkBytes, [c] + rest) == ChunkBytes(c) + Flat(ChunkBytes, rest)
  {
    hide ChunkBytes;
    FlatConcat(ChunkBytes, [c], rest);
    FlatSnoc(ChunkBytes, [], c);
    assert [] + [c] == [c];
  }

  lemma {:induction false} Reassemble(buf: seq<byte>, at: nat)
    requires at <= |buf| && Intact(buf, at)
    ensures AllValid(Chunks(buf, at)) && Flat(ChunkBytes, Chunks(buf, at)) == buf[at..]
    decreases |buf| - at
  {
    hide Flat, Word, Slice, ChunkBytes;
    if at < |buf| {
      var next := NextChunk(buf, at);
      Reassemble(buf, next);
      ChunkBytesAt(buf, at);
      JoinChunk(Chunk(Word(buf, at), Slice(buf, at + 8, Word(buf, at + 4))), Chunks(buf, next));
      assert buf[at..] == buf[at..next] + buf[next..];
    } else {
      NoChunks();
    }
  }

  lemma NoChunks()
    ensures Flat(ChunkBytes, []) == []
  {
  }

  lemma ChunkBytesAt(buf: seq<byte>, at: nat)
    requires ChunkAt(buf, at)
    ensures ChunkBytes(Chunk(Word(buf, at), Slice(buf, at + 8, Word(buf, at + 4)))) == buf[at..NextChunk(buf, at)]
  {
    hide Word, Slice, Le32;
    var n: nat := Word(buf, at + 4);
    Le32OfWord(buf, at);
    Le32OfWord(buf, at + 4);
    SliceInside(buf, at, 4);
    SliceInside(buf, at + 4, 4);
    SliceInside(buf, at + 8, n);
    assert buf[at..at + 8 + n] == buf[at..at + 4] + buf[at + 4..at + 8] + buf[at + 8..at + 8 + n];
  }

  lemma SliceInside(buf: seq<byte>, at: nat, n: nat)
    requires at + n <= |buf|
    ensures Slice(buf, at, n) == buf[at..at + n]
  {
    assert At(buf, at, buf[at..at + n]);
    AtSlice(buf, at, buf[at..at + n]);
  }

  // ---------------------------------------------------------------- acdb_parser_validate_file

  /** The file id and the file type are not both required: either of them is enough. */
  method ValidateFile(buf: seq<byte>) returns (status: Status)
    ensures status == EOK <==>
            && |buf| >= PROPERTIES_SIZE
            && (Word(buf, 0) == FILE_ID || Word(buf, 4) == FILE_TYPE)
            && |buf| == Word(buf, 8) + PROPERTIES_SIZE
    ensures status == EOK || status == EFAILED
  {
    hide Word;
    if |buf| < PROPERTIES_SIZE {
      return EFAILED;
    }
    if Word(buf, 0) != FILE_ID && Word(buf, 4) != FILE_TYPE {
      return EFAILED;
    }
    if |buf| != Word(buf, 8) + PROPERTIES_SIZE {
      return EFAILED;
    }
    status := EOK;
  }
}
