/** Machine words as bounded integers, with the wrap-around the firmware relies on written out,
    and the little-endian byte codec every wire and flash format here shares. */
module Words {

  type Byte = x: int | 0 <= x < 0x100
  type u16 = x: int | 0 <= x < 0x1_0000
  type u32 = x: int | 0 <= x < 0x1_0000_0000
  type u64 = x: int | 0 <= x < 0x1_0000_0000_0000_0000

  datatype Option<+T> = None | Some(value: T)

  const MAX_U32: u32 := 0xffff_ffff

  function Wrap16(x: int): u16 { x % 0x1_0000 }
  function Wrap32(x: int): u32 { x % 0x1_0000_0000 }
  function Wrap64(x: int): u64 { x % 0x1_0000_0000_0000_0000 }

  /** (int16_t)(candidate - reference) > 0; false at exactly half the circle. */
  predicate After16(candidate: u16, reference: u16) {
    0 < Wrap16(candidate - reference) < 0x8000
  }

  /** (int32_t)(candidate - reference) > 0; false at exactly half the circle. */
  predicate After32(candidate: u32, reference: u32) {
    0 < Wrap32(candidate - reference) < 0x8000_0000
  }

  lemma WrapSum16(x: int, y: int)
    ensures Wrap16(Wrap16(x) + y) == Wrap16(x + y)
  {
  }

  lemma HalfOfNext(n: nat)
    ensures (n + 1) / 2 == if n % 2 == 1 then n / 2 + 1 else n / 2
    ensures (n + 1) % 2 == 1 - n % 2
  {
  }

  // ----- little-endian words -----

  function Pow256(n: nat): (p: int)
    ensures p >= 1
  {
    if n == 0 then 1 else 256 * Pow256(n - 1)
  }

  /** The n low bytes of value, least significant first. */
  function ToLE(value: nat, n: nat): (bytes: seq<Byte>)
    ensures |bytes| == n
  {
    if n == 0 then [] else [value % 256] + ToLE(value / 256, n - 1)
  }

  function FromLE(bytes: seq<Byte>): nat {
    if |bytes| == 0 then 0 else bytes[0] + 256 * FromLE(bytes[1..])
  }

  lemma {:induction false} DecodeEncodeLE(value: nat, n: nat)
    requires value < Pow256(n)
    ensures FromLE(ToLE(value, n)) == value
  {
    if n == 0 {
    } else {
      DecodeEncodeLE(value / 256, n - 1);
      assert ToLE(value, n)[1..] == ToLE(value / 256, n - 1);
    }
  }

  lemma {:induction false} EncodeDecodeLE(bytes: seq<Byte>)
    ensures FromLE(bytes) < Pow256(|bytes|)
    ensures ToLE(FromLE(bytes), |bytes|) == bytes
  {
    if |bytes| == 0 {
    } else {
      EncodeDecodeLE(bytes[1..]);
      var v := FromLE(bytes[1..]);
      assert (bytes[0] + 256 * v) / 256 == v && (bytes[0] + 256 * v) % 256 == bytes[0];
      assert bytes == [bytes[0]] + bytes[1..];
    }
  }

  lemma WordRanges()
    ensures Pow256(2) == 0x1_0000
    ensures Pow256(4) == 0x1_0000_0000
    ensures Pow256(8) == 0x1_0000_0000_0000_0000
  {
    assert Pow256(4) == 256 * (256 * Pow256(2));
    assert Pow256(6) == 256 * (256 * Pow256(4));
    assert Pow256(8) == 256 * (256 * Pow256(6));
  }

  lemma ShortWord(value: u16)
    ensures FromLE(ToLE(value, 2)) == value
  {
    WordRanges();
    DecodeEncodeLE(value, 2);
  }

  lemma LongWord(value: u32)
    ensures FromLE(ToLE(value, 4)) == value
  {
    WordRanges();
    DecodeEncodeLE(value, 4);
  }

  function Word16(bytes: seq<Byte>): u16
    requires |bytes| == 2
  {
    EncodeDecodeLE(bytes); WordRanges();
    FromLE(bytes)
  }

  function Word32(bytes: seq<Byte>): u32
    requires |bytes| == 4
  {
    EncodeDecodeLE(bytes); WordRanges();
    FromLE(bytes)
  }

  function Word64(bytes: seq<Byte>): u64
    requires |bytes| == 8
  {
    EncodeDecodeLE(bytes); WordRanges();
    FromLE(bytes)
  }

  /** Stores the n low bytes of value at offset. */
  method WriteLE(buffer: array<Byte>, offset: nat, value: nat, n: nat)
    requires offset + n <= buffer.Length
    modifies buffer
    ensures buffer[offset..offset + n] == ToLE(value, n)
    ensures buffer[..offset] == old(buffer[..offset])
    ensures buffer[offset + n..] == old(buffer[offset + n..])
  {
    var i, rest: nat := 0, value;
    while i < n
      invariant 0 <= i <= n
      invariant buffer[offset..offset + i] + ToLE(rest, n - i) == ToLE(value, n)
      invariant buffer[..offset] == old(buffer[..offset])
      invariant buffer[offset + n..] == old(buffer[offset + n..])
    {
      ghost var done := buffer[offset..offset + i];
      buffer[offset + i] := rest % 256;
      assert buffer[offset..offset + i + 1] == done + [rest % 256];
      assert done + ToLE(rest, n - i) == done + [rest % 256] + ToLE(rest / 256, n - i - 1);
      rest := rest / 256;
      i := i + 1;
    }
    assert buffer[offset..offset + n] == buffer[offset..offset + i] + ToLE(rest, 0);
  }

  /** Reads the n-byte word at offset. */
  method ReadLE(buffer: array<Byte>, offset: nat, n: nat) returns (value: nat)
    requires offset + n <= buffer.Length
    ensures value == FromLE(buffer[offset..offset + n])
  {
    value := 0;
    var i := n;
    while i > 0
      invariant 0 <= i <= n
      invariant value == FromLE(buffer[offset + i..offset + n])
    {
      i := i - 1;
      value := buffer[offset + i] + 256 * value;
      assert buffer[offset + i..offset + n][1..] == buffer[offset + i + 1..offset + n];
    }
  }
}
