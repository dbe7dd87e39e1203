/** The bitmaps of filesystem/fs.c: 256 bytes, most significant bit first, of which the
  * allocator uses the first 256 bits. The methods act on an array of bytes; Bits gives the
  * sequence of booleans that it stands for.
  */
module Bitmap {
  const BITMAP_ENTRIES: nat := 256

  type Byte = bv8

  /** The bit of a byte that stands for entry k of its eight entries. */
  function Mask(k: nat): Byte
    requires k < 8
  {
    if k == 0 then 0x80 else if k == 1 then 0x40 else if k == 2 then 0x20 else if k == 3 then 0x10
    else if k == 4 then 0x08 else if k == 5 then 0x04 else if k == 6 then 0x02 else 0x01
  }

  predicate Has(b: Byte, k: nat)
    requires k < 8
  {
    b & Mask(k) != 0
  }

  function Bits(bytes: seq<Byte>): (bits: seq<bool>)
    ensures |bits| == 8 * |bytes|
    ensures forall i :: 0 <= i < 8 * |bytes| ==> bits[i] == Has(bytes[i / 8], i % 8)
  {
    seq(8 * |bytes|, i requires 0 <= i < 8 * |bytes| => Has(bytes[i / 8], i % 8))
  }

  /** How many of the first n bits are set. */
  function Count(bits: seq<bool>, n: nat): nat
    requires n <= |bits|
  {
    if n == 0 then 0 else Count(bits, n - 1) + if bits[n - 1] then 1 else 0
  }

  lemma MaskSets(b: Byte, k: nat, j: nat)
    requires k < 8 && j < 8
    ensures Has(b | Mask(k), j) == (Has(b, j) || j == k)
    ensures Has(b & !Mask(k), j) == (Has(b, j) && j != k)
  {
  }

  lemma FullByte(b: Byte)
    ensures b == 0xff <==> forall k :: 0 <= k < 8 ==> Has(b, k)
  {
    if forall k :: 0 <= k < 8 ==> Has(b, k) {
      assert Has(b, 0) && Has(b, 1) && Has(b, 2) && Has(b, 3) && Has(b, 4) && Has(b, 5) && Has(b, 6) && Has(b, 7);
    }
  }

  lemma BitAt(bytes: seq<Byte>, i: nat, k: nat)
    requires i < |bytes| && k < 8
    ensures Bits(bytes)[8 * i + k] == Has(bytes[i], k)
  {
    assert (8 * i + k) / 8 == i && (8 * i + k) % 8 == k;
  }

  lemma WriteBitAt(bytes: seq<Byte>, i: nat, k: nat, b: Byte, value: bool, l: nat, m: nat)
    requires i < |bytes| && k < 8 && l < |bytes| && m < 8
    requires b == if value then bytes[i] | Mask(k) else bytes[i] & !Mask(k)
    ensures Bits(bytes[i := b])[8 * l + m] == if l == i && m == k then value else Bits(bytes)[8 * l + m]
  {
    hide Has, Mask, Bits;
    BitAt(bytes, l, m);
    BitAt(bytes[i := b], l, m);
    MaskSets(bytes[i], k, m);
  }

  lemma WriteBit(bytes: seq<Byte>, i: nat, k: nat, b: Byte, value: bool)
    requires i < |bytes| && k < 8
    requires b == if value then bytes[i] | Mask(k) else bytes[i] & !Mask(k)
    ensures Bits(bytes[i := b]) == Bits(bytes)[8 * i + k := value]
  {
    hide Has, Mask, Bits;
    var now, expected := Bits(bytes[i := b]), Bits(bytes)[8 * i + k := value];
    forall j | 0 <= j < 8 * |bytes|
      ensures now[j] == expected[j]
    {
      WriteBitAt(bytes, i, k, b, value, j / 8, j % 8);
    }
  }

  /** The least free entry below 256 is taken; -1 means that there is none. */
  method GetFreeEntry(bitmap: array<Byte>) returns (entry: int)
    requires bitmap.Length >= BITMAP_ENTRIES / 8
    modifies bitmap
    ensures entry == -1 <==> forall j :: 0 <= j < BITMAP_ENTRIES ==> old(Bits(bitmap[..]))[j]
    ensures entry == -1 ==> Bits(bitmap[..]) == old(Bits(bitmap[..]))
    ensures entry != -1 ==> 0 <= entry < BITMAP_ENTRIES && !old(Bits(bitmap[..]))[entry]
    ensures entry != -1 ==> forall j :: 0 <= j < entry ==> old(Bits(bitmap[..]))[j]
    ensures entry != -1 ==> Bits(bitmap[..]) == old(Bits(bitmap[..]))[entry := true]
  {
    hide Bits, Has, Mask;
    ghost var bits := Bits(bitmap[..]);
    for i := 0 to BITMAP_ENTRIES / 8
      invariant bitmap[..] == old(bitmap[..])
      invariant forall j :: 0 <= j < 8 * i ==> bits[j]
    {
      var b := bitmap[i];
      if b == 0xff {
        FullAt(bitmap[..], i);
        continue;
      }
      var k := if b & 0x80 == 0 then 0 else if b & 0x40 == 0 then 1 else if b & 0x20 == 0 then 2
               else if b & 0x10 == 0 then 3 else if b & 0x08 == 0 then 4 else if b & 0x04 == 0 then 5
               else if b & 0x02 == 0 then 6 else 7;
      FirstZero(b, k);
      FirstZeroAt(bitmap[..], i, k);
      WriteBit(bitmap[..], i, k, b | Mask(k), true);
      bitmap[i] := b | Mask(k);
      assert bitmap[..] == old(bitmap[..])[i := b | Mask(k)];
      return 8 * i + k;
    }
    return -1;
  }

  lemma FullAt(bytes: seq<Byte>, i: nat)
    requires i < |bytes| && bytes[i] == 0xff
    ensures forall j :: 8 * i <= j < 8 * i + 8 ==> Bits(bytes)[j]
  {
    FullByte(bytes[i]);
    forall j | 8 * i <= j < 8 * i + 8
      ensures Bits(bytes)[j]
    {
      BitAt(bytes, i, j - 8 * i);
    }
  }

  lemma FirstZeroAt(bytes: seq<Byte>, i: nat, k: nat)
    requires i < |bytes| && k < 8 && !Has(bytes[i], k) && forall j :: 0 <= j < k ==> Has(bytes[i], j)
    ensures !Bits(bytes)[8 * i + k] && forall j :: 8 * i <= j < 8 * i + k ==> Bits(bytes)[j]
  {
    hide Has;
    BitAt(bytes, i, k);
    forall j | 8 * i <= j < 8 * i + k
      ensures Bits(bytes)[j]
    {
      BitAt(bytes, i, j - 8 * i);
    }
  }

  lemma FirstZero(b: Byte, k: nat)
    requires b != 0xff
    requires k == if b & 0x80 == 0 then 0 else if b & 0x40 == 0 then 1 else if b & 0x20 == 0 then 2
                  else if b & 0x10 == 0 then 3 else if b & 0x08 == 0 then 4 else if b & 0x04 == 0 then 5
                  else if b & 0x02 == 0 then 6 else 7
    ensures k < 8 && !Has(b, k) && forall j :: 0 <= j < k ==> Has(b, j)
  {
  }

  /** The bit of an entry below 256 is cleared, whether it was set or not; other entries are refused. */
  method FreeBitmapEntry(entry: nat, bitmap: array<Byte>) returns (r: int)
    requires bitmap.Length >= BITMAP_ENTRIES / 8
    modifies bitmap
    ensures entry >= BITMAP_ENTRIES ==> r == -1 && Bits(bitmap[..]) == old(Bits(bitmap[..]))
    ensures entry < BITMAP_ENTRIES ==> r == 0 && Bits(bitmap[..]) == old(Bits(bitmap[..]))[entry := false]
  {
    if entry >= BITMAP_ENTRIES {
      return -1;
    }
    hide Bits, Has, Mask;
    var i, k := entry / 8, entry % 8;
    assert entry == 8 * i + k;
    ClearBit(i, k, bitmap);
    return 0;
  }

  method ClearBit(i: nat, k: nat, bitmap: array<Byte>)
    requires i < bitmap.Length && k < 8
    modifies bitmap
    ensures Bits(bitmap[..]) == old(Bits(bitmap[..]))[8 * i + k := false]
  {
    hide Bits, Has, Mask;
    var b := bitmap[i] & !Mask(k);
    WriteBit(bitmap[..], i, k, b, false);
    bitmap[i] := b;
    assert bitmap[..] == old(bitmap[..])[i := b];
  }

  /** The code shifts 1 to the left by 7 - i % 8; that is the bit the allocator means by entry i. */
  method CheckBit(i: nat, bitmap: array<Byte>) returns (r: int)
    requires i < 8 * bitmap.Length
    ensures r == if Bits(bitmap[..])[i] then 1 else 0
  {
    var index := i / 8;
    var bit := 7 - i % 8;
    ShiftIsMask(i % 8);
    if bitmap[index] & (1 << bit) > 0 {
      return 1;
    }
    return 0;
  }

  lemma ShiftIsMask(k: nat)
    requires k < 8
    ensures (1 as Byte) << (7 - k) == Mask(k)
  {
  }

  predicate LowBit(b: Byte, y: nat)
    requires y < 8
  {
    b & (1 << y) > 0
  }

  function One(b: bool): nat { if b then 1 else 0 }

  /** The set bits among the y least significant ones of a byte. */
  function Low(b: Byte, y: nat): nat
    requires y <= 8
  {
    if y == 0 then 0 else Low(b, y - 1) + One(LowBit(b, y - 1))
  }

  lemma LowByte(b: Byte)
    ensures Low(b, 8) == One(LowBit(b, 0)) + One(LowBit(b, 1)) + One(LowBit(b, 2)) + One(LowBit(b, 3))
                         + One(LowBit(b, 4)) + One(LowBit(b, 5)) + One(LowBit(b, 6)) + One(LowBit(b, 7))
  {
    hide LowBit;
    assert Low(b, 1) == One(LowBit(b, 0));
    assert Low(b, 2) == One(LowBit(b, 0)) + One(LowBit(b, 1));
    assert Low(b, 4) == Low(b, 2) + One(LowBit(b, 2)) + One(LowBit(b, 3));
    assert Low(b, 6) == Low(b, 4) + One(LowBit(b, 4)) + One(LowBit(b, 5));
  }

  lemma CountByte(bits: seq<bool>, n: nat)
    requires n + 8 <= |bits|
    ensures Count(bits, n + 8) == Count(bits, n) + One(bits[n]) + One(bits[n + 1]) + One(bits[n + 2]) + One(bits[n + 3])
                                  + One(bits[n + 4]) + One(bits[n + 5]) + One(bits[n + 6]) + One(bits[n + 7])
  {
    assert Count(bits, n + 2) == Count(bits, n + 1) + One(bits[n + 1]);
    assert Count(bits, n + 4) == Count(bits, n + 3) + One(bits[n + 3]);
    assert Count(bits, n + 6) == Count(bits, n + 5) + One(bits[n + 5]);
  }

  lemma BitIsLow(bytes: seq<Byte>, x: nat, k: nat)
    requires x < |bytes| && k < 8
    ensures Bits(bytes)[8 * x + k] == LowBit(bytes[x], 7 - k)
  {
    BitAt(bytes, x, k);
    ShiftIsMask(k);
  }

  lemma MirroredCounts(bits: seq<bool>, n: nat, b: Byte)
    requires n + 8 <= |bits|
    requires bits[n] == LowBit(b, 7) && bits[n + 1] == LowBit(b, 6) && bits[n + 2] == LowBit(b, 5) && bits[n + 3] == LowBit(b, 4)
    requires bits[n + 4] == LowBit(b, 3) && bits[n + 5] == LowBit(b, 2) && bits[n + 6] == LowBit(b, 1) && bits[n + 7] == LowBit(b, 0)
    ensures Count(bits, n + 8) == Count(bits, n) + Low(b, 8)
  {
    hide LowBit, Count, Low, One;
    CountByte(bits, n);
    LowByte(b);
  }

  /** A byte has as many set bits in the one order as in the other. */
  lemma LowCounts(bytes: seq<Byte>, x: nat)
    requires x < |bytes|
    ensures Count(Bits(bytes), 8 * x + 8) == Count(Bits(bytes), 8 * x) + Low(bytes[x], 8)
  {
    hide LowBit, Has, Bits, Count, Low;
    BitIsLow(bytes, x, 0);
    BitIsLow(bytes, x, 1);
    BitIsLow(bytes, x, 2);
    BitIsLow(bytes, x, 3);
    BitIsLow(bytes, x, 4);
    BitIsLow(bytes, x, 5);
    BitIsLow(bytes, x, 6);
    BitIsLow(bytes, x, 7);
    MirroredCounts(Bits(bytes), 8 * x, bytes[x]);
  }

  lemma CountNone(bits: seq<bool>)
    ensures Count(bits, 0) == 0
  {
  }

  /** The number of entries in use. */
  method BitmapUsedSpace(bitmap: array<Byte>) returns (counter: int)
    ensures counter == Count(Bits(bitmap[..]), 8 * bitmap.Length)
  {
    hide Bits, Count;
    counter := 0;
    assert Count(Bits(bitmap[..]), 0) == 0 by { CountNone(Bits(bitmap[..])); }
    for x := 0 to bitmap.Length
      invariant counter == Count(Bits(bitmap[..]), 8 * x)
    {
      for y := 0 to 8
        invariant counter == Count(Bits(bitmap[..]), 8 * x) + Low(bitmap[x], y)
      {
        if bitmap[x] & (1 << y) > 0 {
          counter := counter + 1;
        }
      }
      LowCounts(bitmap[..], x);
    }
  }

  /** Setting or clearing one bit moves the count by exactly one, if it changes the bit at all. */
  lemma {:induction false} CountWrite(bits: seq<bool>, n: nat, entry: nat, value: bool)
    requires n <= |bits| && entry < |bits|
    ensures Count(bits[entry := value], n) ==
            Count(bits, n) + if entry < n then One(value) - One(bits[entry]) else 0
  {
    if n > 0 {
      CountWrite(bits, n - 1, entry, value);
    }
  }
}
