/** Bytes, big-endian integers and the 28-bit sizes of ID3v2 headers (ID3v2.4.0 structure, section 6.2). */
module FlacBytes {
  import opened Bits

  type Byte = b: int | 0 <= b < 256

  type Bytes = seq<Byte>

  function FromBytes(b: Bytes): nat {
    if b == [] then 0 else FromBytes(b[..|b| - 1]) * 256 + b[|b| - 1] as int
  }

  lemma {:induction false} FromBytesInjective(a: Bytes, b: Bytes)
    requires |a| == |b| && FromBytes(a) == FromBytes(b)
    ensures a == b
    decreases |a|
  {
    if a != [] {
      var n := |a| - 1;
      FromBytesInjective(a[..n], b[..n]);
      assert a == a[..n] + [a[n]] && b == b[..n] + [b[n]];
    }
  }

  function Read(file: Bytes, at: nat, count: nat): Bytes {
    if at >= |file| then []
    else if at + count <= |file| then file[at..at + count]
    else file[at..]
  }

  // ---------------------------------------------------------------- synchsafe sizes

  /** Four bytes whose high bits are clear. */
  predicate IsSynchsafe(b: Bytes) {
    |b| == 4 && forall i :: 0 <= i < 4 ==> b[i] < 128
  }

  /**
     A 32-bit big-endian word whose four 7-bit fields are masked, shifted down and joined; a mask is
     written as its digits.
   */
  function MaskedWord(t: nat): nat {
    t / 0x1000000 % 128 * 0x200000 + t / 0x10000 % 128 * 0x4000 + t / 0x100 % 128 * 0x80 + t % 128
  }

  /** One field: the mask of seven ones moved up by n bits, and the shift that closes the gaps below it. */
  lemma MaskedField(t: nat, n: nat, gaps: nat)
    requires gaps <= n
    ensures Shr(And(t, Shl(0x7F, n)), gaps) == Shl(Shr(t, n) % 128, n - gaps)
  {
    AndShifted(t, 0x7F, n);
    AndOnes(Shr(t, n), 7);
    SevenBits(Shr(t, n));
    ShrOfShl(Low(Shr(t, n), 7), n, gaps);
  }

  lemma MaskPositions()
    ensures Shl(0x7F, 0) == 0x7F && Shl(0x7F, 8) == 0x7F00 && Shl(0x7F, 16) == 0x7F0000 && Shl(0x7F, 24) == 0x7F000000
  {
  }

  lemma BytePositions(t: nat)
    ensures Shr(t, 8) == t / 0x100 && Shr(t, 16) == t / 0x10000 && Shr(t, 24) == t / 0x1000000
  {
    ByteShifts(t);
    ByteShifts(t / 0x100);
    ByteShifts(t / 0x100 / 0x100);
    ShrTwice(t, 8, 8);
    ShrTwice(t, 16, 8);
    assert t / 0x100 / 0x100 == t / 0x10000 && t / 0x10000 / 0x100 == t / 0x1000000;
  }

  lemma FieldPositions(t: nat)
    ensures Shl(t, 7) == t * 0x80 && Shl(t, 14) == t * 0x4000 && Shl(t, 21) == t * 0x200000
  {
    ByteShifts(t);
    ByteShifts(t * 0x80);
    ByteShifts(t * 0x4000);
    ShlTwice(t, 7, 7);
    ShlTwice(t, 14, 7);
  }

  lemma {:induction false} SmallShr(a: nat, n: nat)
    requires a < Shl(1, n)
    ensures Shr(a, n) == 0
    decreases n
  {
    if n > 0 {
      SmallShr(a / 2, n - 1);
    }
  }

  lemma JoinField(high: nat, low: nat, n: nat, factor: nat)
    requires Shl(high, n) == high * factor && Shl(1, n) == factor && low < factor
    ensures Or(high * factor, low) == high * factor + low
  {
    SmallShr(low, n);
    OrDisjoint(high, low, n);
  }

  lemma JoinAfter7(high: nat, low: nat)
    requires low < 0x80
    ensures Or(high * 0x80, low) == high * 0x80 + low
  {
    FieldPositions(high);
    FieldPositions(1);
    JoinField(high, low, 7, 0x80);
  }

  lemma JoinAfter14(high: nat, low: nat)
    requires low < 0x4000
    ensures Or(high * 0x4000, low) == high * 0x4000 + low
  {
    FieldPositions(high);
    FieldPositions(1);
    JoinField(high, low, 14, 0x4000);
  }

  lemma JoinAfter21(high: nat, low: nat)
    requires low < 0x200000
    ensures Or(high * 0x200000, low) == high * 0x200000 + low
  {
    FieldPositions(high);
    FieldPositions(1);
    JoinField(high, low, 21, 0x200000);
  }

  lemma JoinedFields(a: nat, b: nat, c: nat, d: nat)
    requires a < 128 && b < 128 && c < 128 && d < 128
    ensures Or(Or(Or(a * 0x200000, b * 0x4000), c * 0x80), d) == a * 0x200000 + b * 0x4000 + c * 0x80 + d
  {
    JoinAfter21(a, b * 0x4000);
    JoinAfter14(a * 0x80 + b, c * 0x80);
    JoinAfter7(a * 0x4000 + b * 0x80 + c, d);
    assert (a * 0x80 + b) * 0x4000 == a * 0x200000 + b * 0x4000;
    assert (a * 0x4000 + b * 0x80 + c) * 0x80 == a * 0x200000 + b * 0x4000 + c * 0x80;
  }

  /** The masks, shifts and joins of the decoder give the digits the model writes. */
  lemma MasksAreDigits(t: nat)
    ensures Or(
              Or(Or(Shr(And(t, 0x7F000000), 3), Shr(And(t, 0x007F0000), 2)), Shr(And(t, 0x00007F00), 1)),
              And(t, 0x0000007F))
            == MaskedWord(t)
  {
    MaskPositions();
    BytePositions(t);
    MaskedField(t, 24, 3);
    FieldPositions(t / 0x1000000 % 128);
    MaskedField(t, 16, 2);
    FieldPositions(t / 0x10000 % 128);
    MaskedField(t, 8, 1);
    FieldPositions(t / 0x100 % 128);
    MaskedField(t, 0, 0);
    JoinedFields(t / 0x1000000 % 128, t / 0x10000 % 128, t / 0x100 % 128, t % 128);
  }

  /** The sanitizer's decoder. */
  function MaskedSize(b: Bytes): nat
    requires |b| == 4
  {
    MaskedWord(b[0] as int * 0x1000000 + b[1] as int * 0x10000 + b[2] as int * 0x100 + b[3] as int)
  }

  /** The inspectors' decoder: the sum of the bytes, each shifted by seven more bits. */
  function SummedSize(b: Bytes): nat
    requires |b| == 4
  {
    b[3] as int + b[2] as int * 0x80 + b[1] as int * 0x4000 + b[0] as int * 0x200000
  }

  function SynchsafeBytes(n: nat): (b: Bytes)
    requires n < 0x10000000
    ensures IsSynchsafe(b)
  {
    [n / 0x200000, n / 0x4000 % 128, n / 0x80 % 128, n % 128]
  }

  lemma WordDigits(a: nat, b: nat, c: nat, d: nat)
    requires a < 256 && b < 256 && c < 256 && d < 256
    ensures var t := a * 0x1000000 + b * 0x10000 + c * 0x100 + d;
            t / 0x1000000 == a && t / 0x10000 == a * 0x100 + b && t / 0x100 == a * 0x10000 + b * 0x100 + c
  {
  }

  lemma SevenBitDigits(a: nat, b: nat, c: nat, d: nat)
    requires a < 128 && b < 128 && c < 128 && d < 128
    ensures var n := d + c * 0x80 + b * 0x4000 + a * 0x200000;
            n / 0x200000 == a && n / 0x4000 % 128 == b && n / 0x80 % 128 == c && n % 128 == d
  {
    var n := d + c * 0x80 + b * 0x4000 + a * 0x200000;
    assert n / 0x80 == c + b * 0x80 + a * 0x4000 && n / 0x4000 == b + a * 0x80;
  }

  lemma LowDigits(high: nat, low: nat)
    requires low < 128
    ensures (high * 256 + low) % 128 == low
  {
    assert high * 256 + low == (high * 2) * 128 + low;
  }

  lemma MaskedDigits(a: nat, b: nat, c: nat, d: nat)
    requires a < 128 && b < 128 && c < 128 && d < 128
    ensures MaskedWord(a * 0x1000000 + b * 0x10000 + c * 0x100 + d) == d + c * 0x80 + b * 0x4000 + a * 0x200000
  {
    WordDigits(a, b, c, d);
    LowDigits(a, b);
    LowDigits(a * 0x100 + b, c);
    LowDigits(a * 0x10000 + b * 0x100 + c, d);
  }

  /** Both decoders agree, and are one bijection between synchsafe bytes and [0, 2^28). */
  lemma DecodersAgree(b: Bytes)
    requires IsSynchsafe(b)
    ensures MaskedSize(b) == SummedSize(b) < 0x10000000
    ensures SynchsafeBytes(MaskedSize(b)) == b
  {
    MaskedDigits(b[0], b[1], b[2], b[3]);
    SevenBitDigits(b[0], b[1], b[2], b[3]);
    assert b == [b[0], b[1], b[2], b[3]];
  }

  lemma EncodeThenDecode(n: nat)
    requires n < 0x10000000
    ensures MaskedSize(SynchsafeBytes(n)) == n
  {
    DecodersAgree(SynchsafeBytes(n));
    assert n / 0x80 / 0x80 == n / 0x4000 && n / 0x4000 / 0x80 == n / 0x200000;
    assert n == n % 128 + n / 0x80 % 128 * 0x80 + n / 0x4000 % 128 * 0x4000 + n / 0x200000 * 0x200000;
  }

  // ---------------------------------------------------------------- block headers

  /** The low seven bits of a block header: the block's kind. */
  function KindOf(header: Bytes): nat
    requires |header| == 4
  {
    header[0] as int % 128
  }

  /** The high bit: whether the block is the last. */
  predicate IsLast(header: Bytes)
    requires |header| == 4
  {
    header[0] >= 128
  }

  /** A single bit, tested by its mask. */
  lemma BitMask(b: nat, n: nat)
    ensures And(b, Shl(1, n)) != 0 <==> Shr(b, n) % 2 == 1
  {
    AndShifted(b, 1, n);
    AndOdd(Shr(b, n), 0);
    ShlIsZero(Shr(b, n) % 2, n);
  }

  lemma {:induction false} ShlIsZero(a: nat, n: nat)
    ensures Shl(a, n) == 0 <==> a == 0
    decreases n
  {
    if n > 0 {
      ShlIsZero(a, n - 1);
    }
  }

  lemma FourBits(b: nat)
    ensures Shr(b, 4) == b / 16 && Shl(1, 4) == 16 && Low(b, 4) == b % 16
  {
    HighAndLow(b, 4);
    assert Shr(b, 4) == b / 2 / 2 / 2 / 2;
    assert Shl(Shr(b, 4), 4) == 16 * Shr(b, 4);
  }

  lemma SevenHighBits(b: nat)
    ensures Shr(b, 7) == b / 128 && Shl(1, 7) == 128
  {
    HighAndLow(b, 7);
    ByteShifts(Shr(b, 7));
    ByteShifts(1);
    SevenBits(b);
  }

  lemma KindMask(b: Byte)
    ensures And(b, 0x7F) == b % 128
  {
    AndOnes(b, 7);
    SevenBits(b);
  }

  lemma LastMask(b: Byte)
    ensures And(b, 0x80) != 0 <==> b >= 128
  {
    SevenHighBits(b);
    BitMask(b, 7);
  }

  lemma FlagMasks(b: Byte)
    ensures And(b, 0x0F) == b % 16 && (And(b, 0x10) != 0 <==> b / 16 % 2 == 1)
  {
    AndOnes(b, 4);
    FourBits(b);
    BitMask(b, 4);
  }

  /** The masks of block headers and tag flags are the digits the model writes. */
  lemma HeaderMasksAreDigits(b: Byte)
    ensures And(b, 0x7F) == b % 128 && (And(b, 0x80) != 0 <==> b >= 128)
    ensures And(b, 0x0F) == b % 16 && (And(b, 0x10) != 0 <==> b / 16 % 2 == 1)
  {
    KindMask(b);
    LastMask(b);
    FlagMasks(b);
  }

  /** The payload size: three big-endian bytes. */
  function SizeOf(header: Bytes): nat
    requires |header| == 4
  {
    header[1] as int * 65536 + header[2] as int * 256 + header[3] as int
  }

  lemma FromThree(a: Byte, b: Byte, c: Byte)
    ensures FromBytes([a, b, c]) == a as int * 65536 + b as int * 256 + c as int
  {
    assert [a, b, c][..2] == [a, b] && [a, b][..1] == [a] && [a][..0] == [];
    assert FromBytes([a]) == a as int;
    assert FromBytes([a, b]) == a as int * 256 + b as int;
  }

  lemma SizeIsBigEndian(header: Bytes)
    requires |header| == 4
    ensures SizeOf(header) == FromBytes(header[1..4])
  {
    assert header[1..4] == [header[1], header[2], header[3]];
    FromThree(header[1], header[2], header[3]);
  }

  function HeaderBytes(kind: nat, last: bool, size: nat): (h: Bytes)
    requires kind < 128 && size < 0x1000000
    ensures |h| == 4 && KindOf(h) == kind && (IsLast(h) <==> last) && SizeOf(h) == size
  {
    SizeDigits(size);
    [if last then 128 + kind else kind, size / 65536, size / 256 % 256, size % 256]
  }

  lemma SizeDigits(n: nat)
    requires n < 0x1000000
    ensures n / 65536 < 256 && n == n / 65536 * 65536 + n / 256 % 256 * 256 + n % 256
  {
    assert n / 256 / 256 == n / 65536;
  }

  /** A header is written from what is read from it. */
  lemma HeaderIsRead(h: Bytes)
    requires |h| == 4
    ensures SizeOf(h) < 0x1000000 && h == HeaderBytes(KindOf(h), IsLast(h), SizeOf(h))
  {
    var n := SizeOf(h);
    assert n / 256 == h[1] as int * 256 + h[2] as int && n / 65536 == h[1];
  }
}
