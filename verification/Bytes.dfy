/** Bytes, little-endian 32-bit words and 8-byte alignment, as used by every ACDB table and blob. */
module Bytes {

  type byte = b: int | 0 <= b < 256
  type u32 = w: int | 0 <= w < 0x1_0000_0000

  const WORD_LIMIT: nat := 0x1_0000_0000

  datatype Status = EOK | EFAILED | EBADPARAM | ENEEDMORE | ENOTEXIST | ENOMEMORY

  datatype Option<+T> = None | Some(value: T)

  /** What a uint32_t holds of a number. */
  function Low32(n: nat): (r: u32)
    ensures n < WORD_LIMIT ==> r == n
  {
    n % WORD_LIMIT
  }

  /** One of the four bytes of a word, lowest first. */
  function ByteOf(w: nat, i: nat): byte {
    if i == 0 then w % 256
    else if i == 1 then w / 0x100 % 256
    else if i == 2 then w / 0x1_0000 % 256
    else w / 0x100_0000 % 256
  }

  /** The four bytes a uint32_t store of w leaves in memory (w is truncated to 32 bits). */
  function Le32(w: nat): (r: seq<byte>)
    ensures |r| == 4
  {
    seq<byte>(4, i requires 0 <= i < 4 => ByteOf(w, i))
  }

  function Compose(b0: byte, b1: byte, b2: byte, b3: byte): u32 {
    b0 + 0x100 * b1 + 0x1_0000 * b2 + 0x100_0000 * b3
  }

  /** The file as an infinite tape: bytes past the end read as zero. */
  function ByteAt(f: seq<byte>, i: nat): byte {
    if i < |f| then f[i] else 0
  }

  function Word(f: seq<byte>, o: nat): u32 {
    Compose(ByteAt(f, o), ByteAt(f, o + 1), ByteAt(f, o + 2), ByteAt(f, o + 3))
  }

  function Slice(f: seq<byte>, o: nat, n: nat): (r: seq<byte>)
    ensures |r| == n
  {
    seq<byte>(n, i requires 0 <= i < n => ByteAt(f, o + i))
  }

  function WordList(f: seq<byte>, o: nat, n: nat): (r: seq<u32>)
    ensures |r| == n
  {
    seq<u32>(n, i requires 0 <= i < n => Word(f, o + 4 * i))
  }

  /** Consecutive words as bytes. */
  function Words(ws: seq<u32>): (r: seq<byte>)
    ensures |r| == 4 * |ws|
  {
    if ws == [] then [] else Words(ws[..|ws| - 1]) + Le32(ws[|ws| - 1])
  }

  function Zeros(n: nat): (r: seq<byte>)
    ensures |r| == n
  {
    seq<byte>(n, i => 0)
  }

  function Padding8(n: nat): (p: nat)
    ensures p < 8 && (n + p) % 8 == 0
  {
    if n % 8 != 0 then 8 - n % 8 else 0
  }

  function Align8(n: nat): (r: nat)
    ensures r == n + Padding8(n) && r % 8 == 0
  {
    if n % 8 != 0 then n + (8 - n % 8) else n
  }

  /** buf holds exactly the bytes s at offset off. */
  predicate At(buf: seq<byte>, off: nat, s: seq<byte>) {
    off + |s| <= |buf| && buf[off..off + |s|] == s
  }

  lemma WordOfLe32(w: nat)
    requires w < WORD_LIMIT
    ensures Word(Le32(w), 0) == w
  {
    var s := Le32(w);
    assert s[0] == w % 256;
    assert s[1] == w / 0x100 % 256;
    assert s[2] == w / 0x1_0000 % 256;
    assert s[3] == w / 0x100_0000 % 256;
    assert w / 0x1_0000 == w / 0x100 / 256;
    assert w / 0x100_0000 == w / 0x1_0000 / 256;
  }

  /** Storing a word that was just loaded copies its four bytes. */
  lemma Le32OfWord(f: seq<byte>, o: nat)
    ensures Le32(Word(f, o)) == Slice(f, o, 4)
  {
    hide ByteAt, ByteOf, Compose;
    BytesOfCompose(ByteAt(f, o), ByteAt(f, o + 1), ByteAt(f, o + 2), ByteAt(f, o + 3));
    var l, s := Le32(Word(f, o)), Slice(f, o, 4);
    assert l[0] == s[0] && l[1] == s[1] && l[2] == s[2] && l[3] == s[3];
  }

  lemma BytesOfCompose(a: byte, b: byte, c: byte, d: byte)
    ensures var w := Compose(a, b, c, d);
      ByteOf(w, 0) == a && ByteOf(w, 1) == b && ByteOf(w, 2) == c && ByteOf(w, 3) == d
  {
    var w: int := Compose(a, b, c, d);
    var w1: int := b + 0x100 * (c + 0x100 * (d as int));
    assert w == a + 0x100 * w1 && w / 0x100 == w1;
    assert w1 / 0x100 == c + 0x100 * (d as int) == w / 0x1_0000;
  }

  lemma WordAt(buf: seq<byte>, off: nat, w: nat)
    requires At(buf, off, Le32(w)) && w < WORD_LIMIT
    ensures Word(buf, off) == w
  {
    WordOfLe32(w);
    var s := Le32(w);
    assert forall i :: 0 <= i < 4 ==> buf[off + i] == buf[off..off + |s|][i] == s[i];
    assert ByteAt(buf, off) == s[0] && ByteAt(buf, off + 1) == s[1];
    assert ByteAt(buf, off + 2) == s[2] && ByteAt(buf, off + 3) == s[3];
  }

  lemma AtConcat(buf: seq<byte>, off: nat, a: seq<byte>, b: seq<byte>)
    ensures At(buf, off, a + b) <==> At(buf, off, a) && At(buf, off + |a|, b)
  {
    if off + |a| + |b| <= |buf| {
      var t := buf[off..off + |a| + |b|];
      assert t[..|a|] == buf[off..off + |a|] && t[|a|..] == buf[off + |a|..off + |a| + |b|];
      assert t == t[..|a|] + t[|a|..];
      assert (a + b)[..|a|] == a && (a + b)[|a|..] == b;
    }
  }

  lemma NoBytesAt(buf: seq<byte>, i: nat, j: nat, k: nat)
    requires i <= |buf| && j <= |buf| && k <= |buf|
    ensures At(buf, i, []) && At(buf, j, []) && At(buf, k, [])
  {
  }

  lemma AtSlice(buf: seq<byte>, off: nat, s: seq<byte>)
    requires At(buf, off, s)
    ensures Slice(buf, off, |s|) == s
  {
    forall i | 0 <= i < |s|
      ensures Slice(buf, off, |s|)[i] == s[i]
    {
      assert Slice(buf, off, |s|)[i] == ByteAt(buf, off + i) == buf[off + i] == buf[off..off + |s|][i];
    }
  }

  lemma {:induction false} WordListAt(buf: seq<byte>, off: nat, ws: seq<u32>)
    requires At(buf, off, Words(ws))
    ensures WordList(buf, off, |ws|) == ws
  {
    if ws != [] {
      var n := |ws| - 1;
      AtConcat(buf, off, Words(ws[..n]), Le32(ws[n]));
      WordListAt(buf, off, ws[..n]);
      WordAt(buf, off + 4 * n, ws[n]);
      assert WordList(buf, off, |ws|) == WordList(buf, off, n) + [ws[n]];
    }
  }

  lemma SliceSplit(f: seq<byte>, o: nat, m: nat, n: nat)
    ensures Slice(f, o, m + n) == Slice(f, o, m) + Slice(f, o + m, n)
  {
    hide ByteAt;
  }

  lemma {:induction false} WordsOfWordList(f: seq<byte>, o: nat, n: nat)
    ensures Words(WordList(f, o, n)) == Slice(f, o, 4 * n)
  {
    hide Word, Le32, Slice;
    if n == 0 {
      assert Slice(f, o, 0) == [];
    } else {
      WordsOfWordList(f, o, n - 1);
      var ws := WordList(f, o, n);
      assert ws[..n - 1] == WordList(f, o, n - 1);
      Le32OfWord(f, o + 4 * (n - 1));
      SliceSplit(f, o, 4 * (n - 1), 4);
    }
  }

  /** Bytes written right after a region that was left alone extend it. */
  lemma AtExtend(before: seq<byte>, after: seq<byte>, off: nat, a: seq<byte>, b: seq<byte>)
    requires At(before, off, a) && |before| == |after|
    requires forall i | off <= i < off + |a| && i < |after| :: after[i] == before[i]
    requires At(after, off + |a|, b)
    ensures At(after, off, a + b)
  {
    AtFrame(before, after, off, a);
    AtConcat(after, off, a, b);
  }

  /** A region that no write touched keeps its contents. */
  lemma AtFrame(before: seq<byte>, after: seq<byte>, off: nat, s: seq<byte>)
    requires At(before, off, s) && |before| == |after|
    requires forall i | off <= i < off + |s| && i < |after| :: after[i] == before[i]
    ensures At(after, off, s)
  {
  }

  /** Words lie in memory lowest byte first. */
  lemma LittleEndian()
    ensures Le32(0x0403_0201) == [1, 2, 3, 4] && Word([1, 2, 3, 4], 0) == 0x0403_0201
    ensures Word([], 0) == 0
  {
  }

  /** What is read where these words are. */
  lemma WordRead(file: seq<byte>, off: nat, ws: seq<u32>, i: nat)
    requires At(file, off, Words(ws)) && i < |ws|
    ensures Word(file, off + 4 * i) == ws[i]
  {
    hide Word, At, Words;
    WordListAt(file, off, ws);
    assert WordList(file, off, |ws|)[i] == Word(file, off + 4 * i);
  }

  lemma {:induction false} WordsRead(file: seq<byte>, off: nat, ws: seq<u32>, i: nat, n: nat)
    requires At(file, off, Words(ws)) && i + n <= |ws|
    ensures WordList(file, off + 4 * i, n) == ws[i..i + n]
  {
    hide Word, At, Words;
    if n > 0 {
      WordsRead(file, off, ws, i, n - 1);
      WordRead(file, off, ws, i + n - 1);
      assert WordList(file, off + 4 * i, n) == WordList(file, off + 4 * i, n - 1) + [Word(file, off + 4 * (i + n - 1))];
      assert ws[i..i + n] == ws[i..i + n - 1] + [ws[i + n - 1]];
    }
  }

  /** The same behind one word in front, a count as a rule. */
  lemma CountedRead(file: seq<byte>, off: nat, all: seq<u32>, head: u32, ws: seq<u32>, i: nat)
    requires all == [head] + ws && At(file, off, Words(all)) && i < |ws|
    ensures Word(file, off + 4 + 4 * i) == ws[i]
  {
    hide Word, At, Words;
    WordRead(file, off, all, i + 1);
    assert off + 4 * (i + 1) == off + 4 + 4 * i;
  }

  // ---------------------------------------------------------------- sequences of records

  /** The images of the elements, one after the other. */
  function Flat<T, U>(f: T -> seq<U>, xs: seq<T>): seq<U> {
    if xs == [] then [] else Flat(f, xs[..|xs| - 1]) + f(xs[|xs| - 1])
  }

  function Sum<T>(f: T -> nat, xs: seq<T>): nat {
    if xs == [] then 0 else Sum(f, xs[..|xs| - 1]) + f(xs[|xs| - 1])
  }

  lemma FlatSnoc<T, U>(f: T -> seq<U>, xs: seq<T>, x: T)
    ensures Flat(f, xs + [x]) == Flat(f, xs) + f(x)
  {
    assert (xs + [x])[..|xs|] == xs;
  }

  lemma {:induction false} FlatConcat<T, U>(f: T -> seq<U>, a: seq<T>, b: seq<T>)
    ensures Flat(f, a + b) == Flat(f, a) + Flat(f, b)
  {
    if b == [] {
      assert a + b == a;
    } else {
      var n := |b| - 1;
      assert (a + b)[..|a + b| - 1] == a + b[..n];
      FlatConcat(f, a, b[..n]);
    }
  }

  lemma FlatPrefix<T, U>(f: T -> seq<U>, a: seq<T>, b: seq<T>)
    requires a <= b
    ensures Flat(f, a) <= Flat(f, b)
  {
    FlatConcat(f, a, b[|a|..]);
    assert b == a + b[|a|..];
  }

  /** Where one element's image lies in the image of a list, and how far the next one is. */
  lemma FlatAt<T>(f: T -> seq<byte>, xs: seq<T>, k: nat, buf: seq<byte>, off: nat)
    requires At(buf, off, Flat(f, xs)) && k < |xs|
    ensures At(buf, off + |Flat(f, xs[..k])|, f(xs[k]))
    ensures |Flat(f, xs[..k + 1])| == |Flat(f, xs[..k])| + |f(xs[k])| <= |Flat(f, xs)|
  {
    hide At;
    assert xs[..k + 1] == xs[..k] + [xs[k]] && xs == xs[..k + 1] + xs[k + 1..];
    FlatSnoc(f, xs[..k], xs[k]);
    FlatConcat(f, xs[..k + 1], xs[k + 1..]);
    AtConcat(buf, off, Flat(f, xs[..k + 1]), Flat(f, xs[k + 1..]));
    AtConcat(buf, off, Flat(f, xs[..k]), f(xs[k]));
  }

  lemma {:induction false} FlatLength<T, U>(f: T -> seq<U>, xs: seq<T>, w: nat)
    requires forall i | 0 <= i < |xs| :: |f(xs[i])| == w
    ensures |Flat(f, xs)| == |xs| * w
  {
    if xs != [] {
      var n := |xs| - 1;
      assert forall i | 0 <= i < n :: xs[..n][i] == xs[i];
      FlatLength(f, xs[..n], w);
      assert |xs| * w == n * w + w;
    }
  }

  /** The file reads as these words from off on. */
  predicate WordsAt(file: seq<byte>, off: nat, ws: seq<u32>) {
    WordList(file, off, |ws|) == ws
  }

  lemma WordsAtIndex(file: seq<byte>, off: nat, ws: seq<u32>, i: nat)
    requires WordsAt(file, off, ws) && i < |ws|
    ensures Word(file, off + 4 * i) == ws[i]
  {
    hide Word;
    assert WordList(file, off, |ws|)[i] == Word(file, off + 4 * i);
  }

  lemma WordsAtPart(file: seq<byte>, off: nat, ws: seq<u32>, i: nat, j: nat)
    requires WordsAt(file, off, ws) && i <= j <= |ws|
    ensures WordsAt(file, off + 4 * i, ws[i..j])
  {
    hide Word;
    var part := WordList(file, off + 4 * i, j - i);
    forall k | 0 <= k < j - i
      ensures part[k] == ws[i..j][k]
    {
      WordsAtIndex(file, off, ws, i + k);
      assert off + 4 * (i + k) == off + 4 * i + 4 * k;
    }
  }

  lemma WordsAtConcat(file: seq<byte>, off: nat, a: seq<u32>, b: seq<u32>)
    requires WordsAt(file, off, a + b)
    ensures WordsAt(file, off, a) && WordsAt(file, off + 4 * |a|, b)
  {
    hide WordsAt;
    WordsAtPart(file, off, a + b, 0, |a|);
    WordsAtPart(file, off, a + b, |a|, |a| + |b|);
    assert (a + b)[..|a|] == a && (a + b)[|a|..] == b;
    assert (a + b)[0..|a|] == a && (a + b)[|a|..|a| + |b|] == b;
  }

  /** Where the words of one element are, and how far the next one is. */
  lemma WordsAtFlat<T>(f: T -> seq<u32>, xs: seq<T>, k: nat, file: seq<byte>, off: nat)
    requires WordsAt(file, off, Flat(f, xs)) && k < |xs|
    ensures WordsAt(file, off + 4 * |Flat(f, xs[..k])|, f(xs[k]))
    ensures |Flat(f, xs[..k + 1])| == |Flat(f, xs[..k])| + |f(xs[k])|
  {
    hide WordsAt, Flat;
    assert xs[..k + 1] == xs[..k] + [xs[k]] && xs == xs[..k + 1] + xs[k + 1..];
    FlatSnoc(f, xs[..k], xs[k]);
    FlatConcat(f, xs[..k + 1], xs[k + 1..]);
    WordsAtConcat(file, off, Flat(f, xs[..k + 1]), Flat(f, xs[k + 1..]));
    WordsAtConcat(file, off, Flat(f, xs[..k]), f(xs[k]));
  }

  /** Images of one length: where the k-th one is. */
  lemma FlatUniform<T, U>(f: T -> seq<U>, xs: seq<T>, w: nat, k: nat)
    requires k < |xs| && forall i | 0 <= i < |xs| :: |f(xs[i])| == w
    ensures |Flat(f, xs)| == |xs| * w && k * w + w <= |xs| * w
    ensures Flat(f, xs)[k * w..k * w + w] == f(xs[k])
  {
    hide Flat;
    FlatLength(f, xs, w);
    FlatLength(f, xs[..k], w);
    FlatSnoc(f, xs[..k], xs[k]);
    assert xs == xs[..k] + [xs[k]] + xs[k + 1..];
    FlatConcat(f, xs[..k] + [xs[k]], xs[k + 1..]);
  }

  lemma {:induction false} SumConcat<T>(f: T -> nat, a: seq<T>, b: seq<T>)
    ensures Sum(f, a + b) == Sum(f, a) + Sum(f, b)
  {
    if b == [] {
      assert a + b == a;
    } else {
      var n := |b| - 1;
      assert (a + b)[..|a + b| - 1] == a + b[..n];
      SumConcat(f, a, b[..n]);
    }
  }

  lemma SumSnoc<T>(f: T -> nat, xs: seq<T>, x: T)
    ensures Sum(f, xs + [x]) == Sum(f, xs) + f(x)
  {
    assert (xs + [x])[..|xs|] == xs;
  }

  lemma SumPrefix<T>(f: T -> nat, a: seq<T>, b: seq<T>)
    requires a <= b
    ensures Sum(f, a) <= Sum(f, b)
  {
    SumConcat(f, a, b[|a|..]);
    assert b == a + b[|a|..];
  }

  /** ACDB_MEM_CPY_SAFE into a response buffer. */
  method Put(a: array<byte>, off: nat, src: seq<byte>)
    requires off + |src| <= a.Length
    modifies a
    ensures At(a[..], off, src)
    ensures forall i :: 0 <= i < a.Length && !(off <= i < off + |src|) ==> a[i] == old(a[i])
  {
    for k := 0 to |src|
      invariant forall i :: off <= i < off + k ==> a[i] == src[i - off]
      invariant forall i :: 0 <= i < a.Length && !(off <= i < off + k) ==> a[i] == old(a[i])
    {
      a[off + k] := src[k];
    }
  }

  /** The same for words. */
  method CopyWords(a: array<u32>, at: nat, src: seq<u32>)
    requires at + |src| <= a.Length
    modifies a
    ensures a[..at] == old(a[..at]) && a[at..at + |src|] == src && a[at + |src|..] == old(a[at + |src|..])
  {
    for i := 0 to |src|
      invariant a[..at] == old(a[..at]) && a[at..at + i] == src[..i] && a[at + |src|..] == old(a[at + |src|..])
    {
      ghost var done := a[at..at + i];
      a[at + i] := src[i];
      assert a[at..at + (i + 1)] == done + [src[i]];
    }
  }
}
