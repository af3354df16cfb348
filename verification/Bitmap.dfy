/** The fixed 512-bit chunk-verification bitmap: counting set bits decides completeness. */
module Bitmap {
  import opened ByteStrings
  import opened MerkleTree

  const BITMAP_BYTES: nat := 64
  const BITMAP_BITS: nat := 512

  /** Bit `i % 8` of byte `i / 8`. */
  predicate Bit(bitmap: Bytes, i: nat)
    requires i < 8 * |bitmap|
  {
    Shr(bitmap[i / 8], i % 8) % 2 == 1
  }

  ghost function SetBits(bitmap: Bytes): set<nat> {
    set i: nat | i < 8 * |bitmap| && Bit(bitmap, i)
  }

  ghost function Below(n: nat): (s: set<nat>)
    ensures |s| == n
    ensures forall i: nat :: i in s <==> i < n
  {
    if n == 0 then {} else Below(n - 1) + {n - 1}
  }

  /** What the validator promises: the stored count is the number of set bits, and all of them lie
      below the bit count. */
  ghost predicate ValidBitmap(bitmap: Bytes, bitCount: int, storedCount: int) {
    && |bitmap| == BITMAP_BYTES && 0 <= bitCount <= BITMAP_BITS && 0 <= storedCount <= BITMAP_BITS
    && |SetBits(bitmap)| == storedCount
    && SetBits(bitmap) <= Below(bitCount)
  }

  // ---------- counting ----------

  /** `count += value & 1; value >>>= 1` until the byte is used up. */
  function PopCount(value: nat): nat {
    if value == 0 then 0 else value % 2 + PopCount(value / 2)
  }

  ghost function SetBelow(bitmap: Bytes, n: nat): set<nat>
    requires n <= 8 * |bitmap|
  {
    set i: nat | i < n && Bit(bitmap, i)
  }

  lemma StepCount(bitmap: Bytes, n: nat)
    requires n < 8 * |bitmap|
    ensures |SetBelow(bitmap, n + 1)| == |SetBelow(bitmap, n)| + (if Bit(bitmap, n) then 1 else 0)
  {
    hide Bit;
    if Bit(bitmap, n) {
      assert SetBelow(bitmap, n + 1) == SetBelow(bitmap, n) + {n};
    } else {
      assert SetBelow(bitmap, n + 1) == SetBelow(bitmap, n);
    }
  }

  /** The bits of one byte, counted from position k on. */
  lemma {:induction false} ByteCount(bitmap: Bytes, j: nat, k: nat)
    requires j < |bitmap| && k <= 8
    ensures Shr(bitmap[j], k) < Pow2(8 - k)
    ensures |SetBelow(bitmap, 8 * j + 8)| == |SetBelow(bitmap, 8 * j + k)| + PopCount(Shr(bitmap[j], k))
    decreases 8 - k
  {
    ShrBound(bitmap[j], k);
    if k < 8 {
      ByteCount(bitmap, j, k + 1);
      StepCount(bitmap, 8 * j + k);
      assert (8 * j + k) / 8 == j && (8 * j + k) % 8 == k;
    } else {
      assert Pow2(0) == 1;
    }
  }

  lemma {:induction false} ShrBound(b: Byte, k: nat)
    requires k <= 8
    ensures Shr(b, k) < Pow2(8 - k)
  {
    if k == 0 {
      assert Pow2(3) == 8 && Pow2(6) == 64 && Pow2(8) == 256;
    } else {
      ShrBound(b, k - 1);
    }
  }

  /** The byte-wise population count and the scan of the unused bits. */
  method ValidateVerificationBitmap(bitmap: Bytes, bitCount: int, storedCount: int) returns (ok: bool)
    ensures ok <==> ValidBitmap(bitmap, bitCount, storedCount)
  {
    hide Bit;
    if |bitmap| != BITMAP_BYTES { return false; }
    if bitCount < 0 || bitCount > BITMAP_BITS || storedCount < 0 || storedCount > BITMAP_BITS { return false; }
    var actual := 0;
    for j := 0 to |bitmap|
      invariant actual == |SetBelow(bitmap, 8 * j)|
    {
      var value := bitmap[j];
      while value != 0
        invariant 0 <= value
        invariant actual + PopCount(value) == |SetBelow(bitmap, 8 * j)| + PopCount(bitmap[j])
        decreases value
      {
        actual := actual + value % 2;
        value := value / 2;
      }
      ByteCount(bitmap, j, 0);
      ShrZero(bitmap[j]);
    }
    assert SetBelow(bitmap, BITMAP_BITS) == SetBits(bitmap);
    if actual != storedCount { return false; }
    for index := bitCount to BITMAP_BITS
      invariant forall i: nat :: bitCount <= i < index ==> !Bit(bitmap, i)
    {
      if Bit(bitmap, index) {
        assert index as nat in SetBits(bitmap);
        return false;
      }
    }
    ok := true;
  }

  lemma ShrZero(n: nat)
    ensures Shr(n, 0) == n
  {
  }

  // ---------- the complete bitmap ----------

  /** `value | 1 << k`. */
  function WithBit(value: nat, k: nat): nat {
    if Shr(value, k) % 2 == 1 then value else value + Pow2(k)
  }

  lemma {:induction false} WithBitBits(value: nat, k: nat, m: nat)
    ensures Shr(WithBit(value, k), m) % 2 == 1 <==> m == k || Shr(value, m) % 2 == 1
    decreases k
  {
    if k == 0 {
      if m > 0 { ShrHalf(WithBit(value, 0), m - 1); ShrHalf(value, m - 1); }
    } else {
      ShrHalf(value, k - 1);
      assert WithBit(value, k) / 2 == WithBit(value / 2, k - 1) && WithBit(value, k) % 2 == value % 2;
      if m > 0 {
        ShrHalf(WithBit(value, k), m - 1);
        ShrHalf(value, m - 1);
        WithBitBits(value / 2, k - 1, m - 1);
      }
    }
  }

  lemma {:induction false} WithBitBound(value: nat, k: nat, width: nat)
    requires k < width && value < Pow2(width)
    ensures WithBit(value, k) < Pow2(width)
    decreases k
  {
    if k > 0 {
      ShrHalf(value, k - 1);
      assert WithBit(value, k) / 2 == WithBit(value / 2, k - 1);
      WithBitBound(value / 2, k - 1, width - 1);
    } else {
      assert Pow2(width) == 2 * Pow2(width - 1);
    }
  }

  ghost predicate IsComplete(bitmap: Bytes, bitCount: nat) {
    |bitmap| == BITMAP_BYTES && SetBits(bitmap) == Below(bitCount)
  }

  /** Sets the first `bitCount` bits one by one in a zeroed buffer. */
  method CompleteVerificationBitmap(bitCount: int) returns (r: Option<Bytes>)
    ensures r.Some? <==> 0 <= bitCount <= 512
    ensures r.Some? ==> IsComplete(r.value, bitCount)
  {
    if bitCount < 0 || bitCount > BITMAP_BITS { return None; }
    var bitmap := new Byte[BITMAP_BYTES](_ => 0);
    forall i: nat | i < BITMAP_BITS ensures !Bit(bitmap[..], i) { ShrOfZero(i % 8); }
    for index := 0 to bitCount
      invariant forall i: nat :: i < BITMAP_BITS ==> (Bit(bitmap[..], i) <==> i < index)
    {
      ghost var before := bitmap[..];
      var old' := bitmap[index / 8];
      EightBits();
      WithBitBound(old', index % 8, 8);
      bitmap[index / 8] := WithBit(old', index % 8);
      forall i: nat | i < BITMAP_BITS ensures Bit(bitmap[..], i) <==> i < index + 1 {
        assert Bit(before, i) <==> i < index;
        OneBitSet(before, bitmap[..], index, i);
      }
    }
    r := Some(bitmap[..]);
  }

  lemma EightBits()
    ensures Pow2(8) == 256
  {
    assert Pow2(3) == 8 && Pow2(6) == 64;
  }

  lemma {:induction false} ShrOfZero(k: nat)
    ensures Shr(0, k) == 0
  {
    if k > 0 { ShrOfZero(k - 1); }
  }

  lemma OneBitSet(before: Bytes, after: Bytes, index: nat, i: nat)
    requires |before| == |after| == BITMAP_BYTES && index < BITMAP_BITS && i < BITMAP_BITS
    requires WithBit(before[index / 8], index % 8) < 256
      && after == before[index / 8 := WithBit(before[index / 8], index % 8)]
    ensures Bit(after, i) <==> i == index || Bit(before, i)
  {
    if i / 8 == index / 8 { WithBitBits(before[index / 8], index % 8, i % 8); }
    assert i == index <==> i / 8 == index / 8 && i % 8 == index % 8;
  }

  lemma {:induction false} BitsDetermine(a: nat, b: nat, width: nat)
    requires a < Pow2(width) && b < Pow2(width)
    requires forall k :: 0 <= k < width ==> (Shr(a, k) % 2 == 1 <==> Shr(b, k) % 2 == 1)
    ensures a == b
  {
    if width > 0 {
      assert Shr(a, 0) % 2 == 1 <==> Shr(b, 0) % 2 == 1;
      forall k | 0 <= k < width - 1 ensures Shr(a / 2, k) % 2 == 1 <==> Shr(b / 2, k) % 2 == 1 {
        ShrHalf(a, k);
        ShrHalf(b, k);
        assert Shr(a, k + 1) % 2 == 1 <==> Shr(b, k + 1) % 2 == 1;
      }
      BitsDetermine(a / 2, b / 2, width - 1);
    }
  }

  lemma SetBitsDetermine(a: Bytes, b: Bytes)
    requires |a| == |b| && SetBits(a) == SetBits(b)
    ensures a == b
  {
    forall j | 0 <= j < |a| ensures a[j] == b[j] {
      EightBits();
      forall k | 0 <= k < 8 ensures Shr(a[j], k) % 2 == 1 <==> Shr(b[j], k) % 2 == 1 {
        var i: nat := 8 * j + k;
        assert i / 8 == j && i % 8 == k;
        assert i in SetBits(a) <==> i in SetBits(b);
      }
      BitsDetermine(a[j], b[j], 8);
    }
  }

  lemma SubsetOfSameSize(a: set<nat>, b: set<nat>)
    requires a <= b && |a| == |b|
    ensures a == b
  {
    assert b == a + (b - a);
    assert |b - a| == 0;
  }

  /** Completeness by counting: with the stored count equal to the bit count, exactly one bitmap is
      accepted, byte for byte the complete one. */
  lemma CountDecidesCompleteness(bitmap: Bytes, complete: Bytes, bitCount: nat)
    requires bitCount <= BITMAP_BITS && IsComplete(complete, bitCount)
    ensures ValidBitmap(bitmap, bitCount, bitCount) <==> bitmap == complete
  {
    hide SetBits, Below;
    if ValidBitmap(bitmap, bitCount, bitCount) {
      SubsetOfSameSize(SetBits(bitmap), Below(bitCount));
      SetBitsDetermine(bitmap, complete);
    }
  }

  /** The complete bitmap, byte by byte: full bytes, then the low bits of one byte, then zero bytes. */
  lemma CompleteBytes(complete: Bytes, bitCount: nat, j: nat)
    requires IsComplete(complete, bitCount) && j < 64
    ensures complete[j] == if 8 * j + 8 <= bitCount then 255
                           else if bitCount <= 8 * j then 0
                           else Pow2(bitCount - 8 * j) - 1
  {
    var m: nat := if 8 * j + 8 <= bitCount then 8 else if bitCount <= 8 * j then 0 else bitCount - 8 * j;
    EightBits();
    OnesValue(m);
    Pow2Monotone(m, 8);
    forall k | 0 <= k < 8 ensures Shr(complete[j], k) % 2 == 1 <==> Shr(Ones(m), k) % 2 == 1 {
      var i: nat := 8 * j + k;
      assert i / 8 == j && i % 8 == k;
      assert i in SetBits(complete) <==> i in Below(bitCount);
      OnesBit(m, k);
    }
    BitsDetermine(complete[j], Ones(m), 8);
    assert Pow2(0) == 1;
  }

  /** The m low bits set. */
  function Ones(m: nat): nat {
    if m == 0 then 0 else 2 * Ones(m - 1) + 1
  }

  lemma {:induction false} OnesValue(m: nat)
    ensures Ones(m) == Pow2(m) - 1
  {
    if m > 0 { OnesValue(m - 1); }
  }

  lemma {:induction false} OnesBit(m: nat, k: nat)
    ensures Shr(Ones(m), k) % 2 == 1 <==> k < m
  {
    if m == 0 {
      ShrOfZero(k);
    } else if k > 0 {
      ShrHalf(Ones(m), k - 1);
      assert Ones(m) / 2 == Ones(m - 1);
      OnesBit(m - 1, k - 1);
    }
  }
}
