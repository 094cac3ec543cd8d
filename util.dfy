/**
 * Byte helpers shared by the wire code (src/util.rs; src/messages.rs keeps a
 * private copy of the same two functions, which this model shares).
 */
module Util {
  import opened RustTypes

  /** `u32::to_be_bytes`. */
  function U32ToBe(n: u32): (r: Bytes)
    ensures |r| == 4
  {
    [n / 0x100_0000, (n / 0x1_0000) % 256, (n / 0x100) % 256, n % 256]
  }

  /** `u32::from_be_bytes`. */
  function U32FromBe(b: Bytes): u32
    requires |b| == 4
  {
    (b[0] as int) * 0x100_0000 + (b[1] as int) * 0x1_0000 + (b[2] as int) * 0x100 + b[3]
  }

  /** `u16::from_be_bytes`. */
  function U16FromBe(hi: byte, lo: byte): u16
  {
    (hi as int) * 0x100 + lo
  }

  lemma U32ToBeFromBe(b: Bytes)
    requires |b| == 4
    ensures U32ToBe(U32FromBe(b)) == b
  {
    var n := U32FromBe(b);
    assert n / 0x100_0000 == b[0];
    assert n % 0x100_0000 == (b[1] as int) * 0x1_0000 + (b[2] as int) * 0x100 + b[3];
    assert (n / 0x1_0000) == (b[0] as int) * 0x100 + b[1];
    assert (n / 0x100) == (b[0] as int) * 0x1_0000 + (b[1] as int) * 0x100 + b[2];
  }

  /** The big-endian encoding of a u32 is faithful: decoding gives the number back. */
  lemma U32FromBeToBe(n: u32)
    ensures U32FromBe(U32ToBe(n)) == n
  {
    var q1 := n / 0x100;
    var q2 := n / 0x1_0000;
    var q3 := n / 0x100_0000;
    assert q1 / 0x100 == q2;
    assert q2 / 0x100 == q3;
  }

  /**
   * `read_be_u32`: the number whose big-endian bytes are the first four of the
   * input, and the input advanced by four. `split_at(4)` panics on a shorter
   * input before the `Result` is built, so the model asks for four bytes and
   * the `Err` arm of the source is unreachable.
   */
  function ReadBeU32(input: Bytes): (r: (u32, Bytes))
    requires |input| >= 4
    ensures U32ToBe(r.0) == input[..4]
    ensures r.1 == input[4..] && |r.1| == |input| - 4
  {
    U32ToBeFromBe(input[..4]);
    (U32FromBe(input[..4]), input[4..])
  }

  /** Reading back what was written: `read_be_u32(to_be_bytes(n) ++ rest) == (n, rest)`. */
  lemma ReadBeU32OfEncoding(n: u32, rest: Bytes)
    ensures ReadBeU32(U32ToBe(n) + rest) == (n, rest)
  {
    var input := U32ToBe(n) + rest;
    assert input[..4] == U32ToBe(n);
    assert input[4..] == rest;
    U32FromBeToBe(n);
  }

  /** Sum of the lengths of the parts. */
  function TotalLength(parts: seq<Bytes>): nat
  {
    if parts == [] then 0 else |parts[0]| + TotalLength(parts[1..])
  }

  /** Where part `k` starts in the concatenation. */
  function Offset(parts: seq<Bytes>, k: nat): nat
    requires k <= |parts|
  {
    TotalLength(parts[..k])
  }

  lemma OffsetStep(parts: seq<Bytes>, k: nat)
    requires 0 < k <= |parts|
    ensures Offset(parts, k) == |parts[0]| + Offset(parts[1..], k - 1)
  {
    assert parts[..k][1..] == parts[1..][..k - 1];
  }

  /**
   * `attach_bytes`: the parts laid end to end, in order; its length is the sum
   * of theirs.
   */
  function AttachBytes(parts: seq<Bytes>): (r: Bytes)
    ensures |r| == TotalLength(parts)
  {
    if parts == [] then [] else parts[0] + AttachBytes(parts[1..])
  }

  /** Part `k` sits in the result at offset `Offset(parts, k)`. */
  lemma {:induction false} AttachBytesPart(parts: seq<Bytes>, k: nat)
    requires k < |parts|
    ensures Offset(parts, k) + |parts[k]| <= |AttachBytes(parts)|
    ensures AttachBytes(parts)[Offset(parts, k)..Offset(parts, k) + |parts[k]|] == parts[k]
    decreases k
  {
    if k > 0 {
      OffsetStep(parts, k);
      AttachBytesPart(parts[1..], k - 1);
      assert parts[1..][k - 1] == parts[k];
    } else {
      assert parts[..0] == [];
    }
  }

  /** Attaching is associative over splitting the list of parts. */
  lemma {:induction false} AttachBytesAppend(a: seq<Bytes>, b: seq<Bytes>)
    ensures AttachBytes(a + b) == AttachBytes(a) + AttachBytes(b)
  {
    if a == [] {
      assert a + b == b;
    } else {
      assert (a + b)[1..] == a[1..] + b;
      AttachBytesAppend(a[1..], b);
    }
  }
}
