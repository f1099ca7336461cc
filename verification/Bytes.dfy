/** Machine integers, little-endian words and fixed-size byte blocks. */
module Bytes {

  const TWO_32: int := 0x1_0000_0000
  const TWO_63: int := 0x8000_0000_0000_0000
  const TWO_64: int := 0x1_0000_0000_0000_0000
  const ISIZE_MAX: int := TWO_63 - 1

  type byte = x: int | 0 <= x < 0x100
  type u32 = x: int | 0 <= x < 0x1_0000_0000
  type u64 = x: int | 0 <= x < 0x1_0000_0000_0000_0000
  type i8 = x: int | -0x80 <= x < 0x80
  type i64 = x: int | -0x8000_0000_0000_0000 <= x < 0x8000_0000_0000_0000

  const I64_MIN: i64 := -TWO_63
  const I64_MAX: i64 := TWO_63 - 1

  /** Rust's `as` casts between signed and unsigned words: two's complement. */
  function I64ToU64(x: i64): (w: u64)
    ensures U64ToI64(w) == x
  {
    if x < 0 then x + TWO_64 else x
  }

  function U64ToI64(w: u64): (x: i64)
  {
    if w < TWO_63 then w else w - TWO_64
  }

  function I8ToU8(x: i8): (b: byte)
    ensures U8ToI8(b) == x
  {
    if x < 0 then x + 0x100 else x
  }

  function U8ToI8(b: byte): (x: i8)
  {
    if b < 0x80 then b else b - 0x100
  }

  /** `word as u32` keeps the low half. */
  function TruncateU32(w: u64): (r: u32)
  {
    w % TWO_32
  }

  // Little-endian numbers

  function Pow256(k: nat): (p: nat)
    ensures p > 0
  {
    if k == 0 then 1 else 256 * Pow256(k - 1)
  }

  function LeBytes(n: nat, k: nat): (bs: seq<byte>)
    ensures |bs| == k
  {
    if k == 0 then [] else [n % 256] + LeBytes(n / 256, k - 1)
  }

  function LeNat(bs: seq<byte>): nat
  {
    if bs == [] then 0 else bs[0] + 256 * LeNat(bs[1..])
  }

  lemma {:induction false} LeRoundTrip(n: nat, k: nat)
    requires n < Pow256(k)
    ensures LeNat(LeBytes(n, k)) == n
  {
    if k > 0 {
      LeRoundTrip(n / 256, k - 1);
      assert LeBytes(n, k)[1..] == LeBytes(n / 256, k - 1);
    }
  }

  lemma {:induction false} LeNatBound(bs: seq<byte>)
    ensures LeNat(bs) < Pow256(|bs|)
  {
    if bs != [] {
      LeNatBound(bs[1..]);
    }
  }

  /** Every byte string is the encoding of the number it denotes. */
  lemma {:induction false} LeBytesOnto(bs: seq<byte>)
    ensures LeBytes(LeNat(bs), |bs|) == bs
  {
    if bs != [] {
      LeBytesOnto(bs[1..]);
      var n := LeNat(bs[1..]);
      assert (bs[0] + 256 * n) / 256 == n && (bs[0] + 256 * n) % 256 == bs[0];
      assert bs == [bs[0]] + bs[1..];
    }
  }

  lemma Pow256Of8()
    ensures Pow256(8) == TWO_64
  {
    assert Pow256(4) == TWO_32;
    assert Pow256(8) == 256 * (256 * (256 * (256 * Pow256(4))));
  }

  function Word(w: u64): (bs: seq<byte>)
    ensures |bs| == 8
  {
    LeBytes(w, 8)
  }

  function ReadWord(bs: seq<byte>): (w: u64)
    requires |bs| == 8
  {
    LeNatBound(bs);
    Pow256Of8();
    LeNat(bs)
  }

  lemma WordRoundTrip(w: u64)
    ensures ReadWord(Word(w)) == w
  {
    Pow256Of8();
    LeRoundTrip(w, 8);
  }

  /** The least significant byte comes first. */
  lemma {:induction false} LeByteAt(n: nat, k: nat, i: nat)
    requires i < k
    ensures LeBytes(n, k)[i] == (n / Pow256(i)) % 256
  {
    if i > 0 {
      LeByteAt(n / 256, k - 1, i - 1);
      DivTwice(n, Pow256(i - 1));
      assert LeBytes(n, k)[i] == LeBytes(n / 256, k - 1)[i - 1];
    }
  }

  lemma DivTwice(n: nat, p: nat)
    requires p > 0
    ensures (n / 256) / p == n / (256 * p)
  {
    var q, r := n / 256, n % 256;
    var a, b := q / p, q % p;
    assert n == 256 * q + r && q == p * a + b;
    assert n == (256 * p) * a + (256 * b + r);
    assert 0 <= 256 * b + r < 256 * p;
    QuotientIs(n, 256 * p, a, 256 * b + r);
  }

  lemma QuotientIs(n: nat, d: nat, q: nat, r: nat)
    requires r < d && n == d * q + r
    ensures n / d == q
  {
    var q', r' := n / d, n % d;
    assert n == d * q' + r';
    if q < q' {
      MulOrder(q + 1, q', d);
    } else if q' < q {
      MulOrder(q' + 1, q, d);
    }
  }

  // Fixed-size blocks

  lemma PlusAssociates<T>(x: seq<T>, y: seq<T>, z: seq<T>)
    ensures x + y + z == x + (y + z)
  {
  }

  function Concat<T>(blocks: seq<seq<T>>): seq<T>
  {
    if blocks == [] then [] else blocks[0] + Concat(blocks[1..])
  }

  ghost predicate AllSized<T>(blocks: seq<seq<T>>, size: nat)
  {
    forall i :: 0 <= i < |blocks| ==> |blocks[i]| == size
  }

  lemma {:induction false} ConcatAppend<T>(a: seq<seq<T>>, b: seq<seq<T>>)
    ensures Concat(a + b) == Concat(a) + Concat(b)
  {
    if a == [] {
      assert a + b == b;
    } else {
      ConcatAppend(a[1..], b);
      assert (a + b)[1..] == a[1..] + b;
      PlusAssociates(a[0], Concat(a[1..]), Concat(b));
    }
  }

  lemma ConcatSnoc<T>(a: seq<seq<T>>, b: seq<T>)
    ensures Concat(a + [b]) == Concat(a) + b
  {
    ConcatAppend(a, [b]);
    assert Concat([b]) == b + Concat<T>([]);
  }

  lemma {:induction false} ConcatSize<T>(blocks: seq<seq<T>>, size: nat)
    requires AllSized(blocks, size)
    ensures |Concat(blocks)| == |blocks| * size
  {
    if blocks != [] {
      ConcatSize(blocks[1..], size);
      assert (|blocks| - 1) * size + size == |blocks| * size;
    }
  }

  lemma MulOrder(a: nat, b: nat, size: nat)
    requires a <= b
    ensures 0 <= a * size <= b * size
    ensures a * size + (b - a) * size == b * size
  {
  }

  lemma SliceMiddle<T>(x: seq<T>, y: seq<T>, z: seq<T>)
    ensures (x + y + z)[|x|..|x| + |y|] == y
  {
  }

  lemma SliceLast<T>(x: seq<T>, y: seq<T>, z: seq<T>)
    ensures (x + y + z)[|x| + |y|..|x| + |y| + |z|] == z
  {
  }

  lemma SliceWithin<T>(x: seq<T>, y: seq<T>, z: seq<T>, i: nat, j: nat)
    requires i <= j <= |y|
    ensures (x + y + z)[|x| + i..|x| + j] == y[i..j]
  {
  }

  lemma {:induction false} ConcatThree<T>(blocks: seq<seq<T>>, i: nat, j: nat)
    requires i <= j <= |blocks|
    ensures Concat(blocks) == Concat(blocks[..i]) + Concat(blocks[i..j]) + Concat(blocks[j..])
  {
    ConcatAppend(blocks[..i], blocks[i..j]);
    ConcatAppend(blocks[..i] + blocks[i..j], blocks[j..]);
    assert blocks == blocks[..i] + blocks[i..j] + blocks[j..];
  }

  /** Reading the bytes of blocks `i..j` gives exactly those blocks. */
  lemma {:induction false} ConcatSlice<T>(blocks: seq<seq<T>>, size: nat, i: nat, j: nat)
    requires AllSized(blocks, size)
    requires i <= j <= |blocks|
    ensures 0 <= i * size <= j * size <= |blocks| * size == |Concat(blocks)|
    ensures Concat(blocks)[i * size..j * size] == Concat(blocks[i..j])
  {
    ConcatThree(blocks, i, j);
    ConcatSize(blocks, size);
    ConcatSize(blocks[..i], size);
    ConcatSize(blocks[i..j], size);
    MulOrder(i, j, size);
    MulOrder(j, |blocks|, size);
    var x, y, z := Concat(blocks[..i]), Concat(blocks[i..j]), Concat(blocks[j..]);
    SliceMiddle(x, y, z);
    assert |x| == i * size && |x| + |y| == j * size;
  }

  /** `chunks_exact(size)`: the full blocks of a byte string, in order. */
  function Split<T>(bytes: seq<T>, size: nat): (blocks: seq<seq<T>>)
    requires size > 0
    decreases |bytes|
    ensures AllSized(blocks, size)
  {
    if |bytes| < size then [] else [bytes[..size]] + Split(bytes[size..], size)
  }

  lemma {:induction false} SplitConcat<T>(blocks: seq<seq<T>>, size: nat)
    requires size > 0
    requires AllSized(blocks, size)
    ensures Split(Concat(blocks), size) == blocks
  {
    if blocks != [] {
      SplitConcat(blocks[1..], size);
      var all := Concat(blocks);
      assert all[..size] == blocks[0];
      assert all[size..] == Concat(blocks[1..]);
      assert blocks == [blocks[0]] + blocks[1..];
    }
  }

  function EncodeWords(ws: seq<u64>): (bs: seq<byte>)
  {
    Concat(seq(|ws|, i requires 0 <= i < |ws| => Word(ws[i])))
  }

  lemma EncodeWordsAt(ws: seq<u64>, i: nat)
    requires i < |ws|
    ensures |EncodeWords(ws)| == 8 * |ws|
    ensures EncodeWords(ws)[8 * i..8 * i + 8] == Word(ws[i])
    ensures ReadWord(EncodeWords(ws)[8 * i..8 * i + 8]) == ws[i]
  {
    var blocks := seq(|ws|, i requires 0 <= i < |ws| => Word(ws[i]));
    ConcatSize(blocks, 8);
    ConcatSlice(blocks, 8, i, i + 1);
    assert blocks[i..i + 1] == [Word(ws[i])];
    assert Concat([Word(ws[i])]) == Word(ws[i]) + Concat<byte>([]);
    WordRoundTrip(ws[i]);
  }

  lemma EncodeWordsSize(ws: seq<u64>)
    ensures |EncodeWords(ws)| == 8 * |ws|
  {
    ConcatSize(seq(|ws|, i requires 0 <= i < |ws| => Word(ws[i])), 8);
  }
}
