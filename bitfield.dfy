/**
 * The peer's piece bitmap (`src/bitfield.rs`): a byte vector read most
 * significant bit first, so bit `k` lives in byte `k / 8` under the mask
 * `1 << (7 - k % 8)`. Range checks are against the byte vector, not against
 * the declared length `len`.
 *
 * The bytes are kept as `bv8` so that the source's `|` and `&` are Dafny's own
 * bitwise operators.
 */
module BitFields {
  import opened RustTypes

  datatype BitFieldError = InvalidBit(bit: nat)

  /** The mask the source builds for bit `bit`: a 1 shifted left by `7 - bit % 8`. */
  function Mask(bit: nat): bv8
  {
    (1 as bv8) << (7 - bit % 8)
  }

  /** The weight of each position of a byte, most significant first. */
  const WEIGHTS: seq<bv8> := [0x80, 0x40, 0x20, 0x10, 0x08, 0x04, 0x02, 0x01]

  /** The eight bits of a byte, most significant first: the reading BEP 3 gives a bitfield. */
  function ByteBits(b: bv8): (r: seq<bool>)
    ensures |r| == 8
  {
    seq(8, j requires 0 <= j < 8 => b & WEIGHTS[j] != 0)
  }

  /** The bits of a byte vector: bit `i` is bit `i % 8` of byte `i / 8`. */
  function Bits(bytes: seq<bv8>): (r: seq<bool>)
    ensures |r| == 8 * |bytes|
  {
    seq(8 * |bytes|, i requires 0 <= i < 8 * |bytes| => ByteBits(bytes[i / 8])[i % 8])
  }

  /** `Vec<u8>` contents as the bitfield keeps them. */
  function Octets(bytes: Bytes): (r: seq<bv8>)
    ensures |r| == |bytes|
  {
    seq(|bytes|, i requires 0 <= i < |bytes| => bytes[i] as bv8)
  }

  lemma MaskWeight(bit: nat)
    ensures Mask(bit) == WEIGHTS[bit % 8]
  {
    var j := bit % 8;
    if j == 0 { assert Mask(bit) == (1 as bv8) << 7; }
    else if j == 1 { assert Mask(bit) == (1 as bv8) << 6; }
    else if j == 2 { assert Mask(bit) == (1 as bv8) << 5; }
    else if j == 3 { assert Mask(bit) == (1 as bv8) << 4; }
    else if j == 4 { assert Mask(bit) == (1 as bv8) << 3; }
    else if j == 5 { assert Mask(bit) == (1 as bv8) << 2; }
    else if j == 6 { assert Mask(bit) == (1 as bv8) << 1; }
    else { assert Mask(bit) == (1 as bv8) << 0; }
  }

  lemma WeightsMeet(i: nat, j: nat)
    requires i < 8 && j < 8
    ensures WEIGHTS[i] & WEIGHTS[j] != 0 <==> i == j
  {
    if i == 0 {} else if i == 1 {} else if i == 2 {} else if i == 3 {}
    else if i == 4 {} else if i == 5 {} else if i == 6 {} else {}
  }

  lemma ByteBitsAt(c: bv8, j: nat)
    requires j < 8
    ensures ByteBits(c)[j] == (c & WEIGHTS[j] != 0)
  {
  }

  lemma OrMasked(x: bv8, y: bv8, w: bv8)
    ensures ((x | y) & w != 0) == (x & w != 0 || y & w != 0)
  {
  }

  /** Replacing one byte replaces exactly that byte's eight bits. */
  lemma BitsUpdate(bytes: seq<bv8>, k: nat, c: bv8, bit: nat)
    requires k < |bytes| && bit < 8 * |bytes|
    ensures Bits(bytes[k := c])[bit] == if bit / 8 == k then ByteBits(c)[bit % 8] else Bits(bytes)[bit]
  {
  }

  // ---------------------------------------------------------------------------
  // One byte
  // ---------------------------------------------------------------------------

  /** The byte after `_set(bit)`: the mask ORed in. */
  function SetByte(b: bv8, bit: nat): bv8
  {
    Mask(bit) | b
  }

  /** The test `is_set(bit)` makes on its byte. */
  function ByteHas(b: bv8, bit: nat): bool
  {
    Mask(bit) & b != 0
  }

  /** The source's mask test reads the bit most significant first. */
  lemma ByteHasBit(b: bv8, bit: nat)
    ensures ByteHas(b, bit) == ByteBits(b)[bit % 8]
  {
    MaskWeight(bit);
  }

  lemma SetByteWeight(b: bv8, bit: nat)
    ensures SetByte(b, bit) == WEIGHTS[bit % 8] | b
  {
    MaskWeight(bit);
  }

  /** ORing the mask turns exactly one bit on. */
  lemma SetByteBit(b: bv8, bit: nat, j: nat)
    requires j < 8
    ensures ByteBits(SetByte(b, bit))[j] == (j == bit % 8 || ByteBits(b)[j])
  {
    var c := SetByte(b, bit);
    var m := WEIGHTS[bit % 8];
    var w := WEIGHTS[j];
    SetByteWeight(b, bit);
    WeightsMeet(bit % 8, j);
    ByteBitsAt(c, j);
    ByteBitsAt(b, j);
    OrMasked(m, b, w);
  }

  // ---------------------------------------------------------------------------
  // The byte vector
  // ---------------------------------------------------------------------------

  /**
   * `is_set(bit)` on the vector `bytes`: an error naming the bit when byte
   * `bit / 8` does not exist, otherwise whether the bit is on.
   */
  function Test(bytes: seq<bv8>, bit: nat): (r: Result<bool, BitFieldError>)
    ensures r.Err? <==> bit >= 8 * |bytes|
    ensures r.Err? ==> r.error == InvalidBit(bit)
  {
    var byte := bit / 8;
    if byte < |bytes| then Ok(ByteHas(bytes[byte], bit)) else Err(InvalidBit(bit))
  }

  /** `is_set` answers with the bit at that position of the MSB-first reading. */
  lemma TestIsBit(bytes: seq<bv8>, bit: nat)
    requires bit < 8 * |bytes|
    ensures Test(bytes, bit) == Ok(Bits(bytes)[bit])
  {
    ByteHasBit(bytes[bit / 8], bit);
  }

  /** The vector after `_set(bit)`; a bit out of range leaves it as it was. */
  function Setting(bytes: seq<bv8>, bit: nat): (r: seq<bv8>)
    ensures |r| == |bytes|
    ensures bit >= 8 * |bytes| ==> r == bytes
  {
    var byte := bit / 8;
    if byte < |bytes| then bytes[byte := SetByte(bytes[byte], bit)] else bytes
  }

  lemma SettingBitAt(bytes: seq<bv8>, bit: nat, i: nat)
    requires bit < 8 * |bytes| && i < 8 * |bytes|
    ensures Bits(Setting(bytes, bit))[i] == (i == bit || Bits(bytes)[i])
  {
    var k := bit / 8;
    BitsUpdate(bytes, k, SetByte(bytes[k], bit), i);
    if i / 8 == k {
      SetByteBit(bytes[k], bit, i % 8);
      assert i == bit <==> i % 8 == bit % 8;
    }
  }

  /** `_set(bit)` turns on bit `bit` of the MSB-first reading and no other. */
  lemma SettingBits(bytes: seq<bv8>, bit: nat)
    requires bit < 8 * |bytes|
    ensures Bits(Setting(bytes, bit)) == Bits(bytes)[bit := true]
  {
    var after := Bits(Setting(bytes, bit));
    var want := Bits(bytes)[bit := true];
    forall i | 0 <= i < |want|
      ensures after[i] == want[i]
    {
      SettingBitAt(bytes, bit, i);
    }
  }

  /** After `_set(bit)` succeeds, `is_set(bit)` is `Ok(true)`. */
  lemma SetThenTest(bytes: seq<bv8>, bit: nat)
    requires bit < 8 * |bytes|
    ensures Test(Setting(bytes, bit), bit) == Ok(true)
  {
    SettingBits(bytes, bit);
    TestIsBit(Setting(bytes, bit), bit);
  }

  /** `_set` leaves every other bit's answer as it was. */
  lemma SetKeepsOthers(bytes: seq<bv8>, bit: nat, other: nat)
    requires other != bit
    ensures Test(Setting(bytes, bit), other) == Test(bytes, other)
  {
    if bit < 8 * |bytes| && other < 8 * |bytes| {
      SettingBits(bytes, bit);
      TestIsBit(bytes, other);
      TestIsBit(Setting(bytes, bit), other);
    }
  }

  /** Setting the same bit twice is setting it once. */
  lemma SettingIdempotent(bytes: seq<bv8>, bit: nat)
    ensures Setting(Setting(bytes, bit), bit) == Setting(bytes, bit)
  {
    var k := bit / 8;
    if k < |bytes| {
      MaskWeight(bit);
      var b := bytes[k];
      var m := WEIGHTS[bit % 8];
      assert m | (m | b) == m | b;
    }
  }

  /**
   * The range check is against the bytes, so with `len = size` not a multiple
   * of eight the padding bit just past `len` is still accepted.
   */
  lemma PaddingBitAccepted(size: nat)
    requires size % 8 != 0
    ensures Test(seq((size + 7) / 8, _ => 0), size).Ok?
  {
  }

  /** The bitfield `[1, 3, 5, 7]` has bits 7, 14, 15, 21, 23, 29, 30 and 31 on. */
  lemma PredefinedBits()
    ensures forall bit :: bit in [7, 14, 15, 21, 23, 29, 30, 31] ==> Test(Octets([1, 3, 5, 7]), bit) == Ok(true)
  {
    var bytes := Octets([1, 3, 5, 7]);
    assert bytes == [1, 3, 5, 7];
  }

  /** `BitField`: the byte vector and the declared number of bits. */
  class BitField {
    var bf: array<bv8>
    var len: nat

    /** `_new(size)`: ceil(size / 8) zero bytes, `len = size`. */
    constructor New(size: nat)
      ensures fresh(bf) && len == size
      ensures bf.Length == (size + 7) / 8 && 8 * bf.Length >= size
      ensures forall i :: 0 <= i < bf.Length ==> bf[i] == 0
    {
      bf := new bv8[(size + 7) / 8](_ => 0);
      len := size;
    }

    /** `From<Vec<u8>>`: the bytes as given, and `len` their number (not the number of bits). */
    constructor FromBytes(bytes: Bytes)
      ensures fresh(bf) && len == |bytes|
      ensures bf[..] == Octets(bytes)
    {
      var octets := Octets(bytes);
      bf := new bv8[|bytes|](i requires 0 <= i < |bytes| => octets[i]);
      len := |bytes|;
    }

    /** `is_set(bit)` on the current contents. */
    function IsSet(bit: nat): (r: Result<bool, BitFieldError>)
      reads this, bf
      ensures r.Err? <==> bit >= 8 * bf.Length
      ensures r.Err? ==> r.error == InvalidBit(bit)
      ensures r.Ok? ==> r.value == Bits(bf[..])[bit]
    {
      if bit < 8 * bf.Length then TestIsBit(bf[..], bit); Test(bf[..], bit) else Test(bf[..], bit)
    }

    /** `_set(bit)`: ORs the mask into byte `bit / 8`, or reports the bit as invalid. */
    method Set(bit: nat) returns (r: Result<(), BitFieldError>)
      modifies bf
      ensures r == if bit < 8 * bf.Length then Ok(()) else Err(InvalidBit(bit))
      ensures bf[..] == Setting(old(bf[..]), bit)
      ensures r.Ok? ==> IsSet(bit) == Ok(true)
    {
      var byte := bit / 8;
      if byte >= bf.Length {
        return Err(InvalidBit(bit));
      }
      ghost var before := bf[..];
      bf[byte] := SetByte(bf[byte], bit);
      assert bf[..] == Setting(before, bit);
      SetThenTest(before, bit);
      return Ok(());
    }
  }
}
