/** The CRC-32 of section 8 of RFC 1952 as the log computes it, and the errors it is sure to detect. Registers and
    bytes are rows of bits, lowest first, so that every operation on them is explicit. */
module Crc32 {

  type Word = w: seq<bool> | |w| == 32 witness seq(32, _ => false)

  type Octet = b: seq<bool> | |b| == 8 witness seq(8, _ => false)

  /** Polynomials whose highest bit is set; the laws below hold for each of them. */
  type Polynomial = p: Word | p[31] witness seq(32, _ => true)

  /** The k lowest bits of a number. */
  function BitsOf(n: nat, k: nat): (bits: seq<bool>)
    ensures |bits| == k
    decreases k
  {
    if k == 0 then [] else [n % 2 == 1] + BitsOf(n / 2, k - 1)
  }

  function Halve(n: nat, k: nat): nat
    decreases k
  {
    if k == 0 then n else Halve(n / 2, k - 1)
  }

  lemma {:induction false} BitsOfLast(n: nat, k: nat)
    ensures BitsOf(n, k + 1)[k] == (Halve(n, k) % 2 == 1)
    decreases k
  {
    if k > 0 {
      BitsOfLast(n / 2, k - 1);
      assert BitsOf(n, k + 1)[k] == BitsOf(n / 2, k)[k - 1];
    }
  }

  /** The polynomial of the standard. */
  function Standard(): Word {
    BitsOf(0xEDB8_8320, 32)
  }

  lemma {:induction false} HalveSplit(n: nat, j: nat, k: nat)
    ensures Halve(n, j + k) == Halve(Halve(n, j), k)
    decreases j
  {
    if j > 0 {
      HalveSplit(n / 2, j - 1, k);
    }
  }

  lemma HighHalf()
    ensures Halve(0xEDB8_8320, 16) == 0xEDB8
  {
    HalveSplit(0xEDB8_8320, 8, 8);
    assert Halve(0xEDB8_8320, 8) == 0xED_B883;
  }

  lemma HighByte()
    ensures Halve(0xEDB8, 8) == 0xED
  {
  }

  lemma HighBit()
    ensures Halve(0xEDB8, 15) == 1
  {
    HalveSplit(0xEDB8, 8, 7);
    HighByte();
    assert Halve(0xED, 7) == 1;
  }

  lemma {:induction false} TopHalf()
    ensures Halve(0xEDB8_8320, 31) == 1
  {
    HighHalf();
    HighBit();
    HalveSplit(0xEDB8_8320, 16, 15);
  }

  lemma {:induction false} TopBit()
    ensures Standard()[31]
  {
    BitsOfLast(0xEDB8_8320, 31);
    TopHalf();
  }

  function Unset(n: nat): (z: seq<bool>)
    ensures |z| == n && forall i :: 0 <= i < n ==> !z[i]
  {
    seq(n, _ => false)
  }

  function Ones(): (w: Word)
    ensures forall i :: 0 <= i < 32 ==> w[i]
  {
    seq(32, _ => true)
  }

  function Xor(a: seq<bool>, b: seq<bool>): (r: seq<bool>)
    requires |a| == |b|
    ensures |r| == |a| && forall i :: 0 <= i < |a| ==> r[i] == (a[i] != b[i])
  {
    seq(|a|, i requires 0 <= i < |a| => a[i] != b[i])
  }

  /** One shift to the right: every bit moves down, and the polynomial comes in exactly if a one falls out. */
  function Shift(p: Polynomial, s: Word): (r: Word)
    ensures forall i :: 0 <= i < 32 ==> r[i] == ((i < 31 && s[i + 1]) != (s[0] && p[i]))
  {
    seq(32, i requires 0 <= i < 32 => (i < 31 && s[i + 1]) != (s[0] && p[i]))
  }

  function Shifts(p: Polynomial, s: Word, n: nat): Word
    decreases n
  {
    if n == 0 then s else Shifts(p, Shift(p, s), n - 1)
  }

  /** Up to 32 bits in a register. */
  function Pad(bits: seq<bool>): (w: Word)
    requires |bits| <= 32
    ensures forall i :: 0 <= i < 32 ==> w[i] == (i < |bits| && bits[i])
  {
    bits + Unset(32 - |bits|)
  }

  function FeedByte(p: Polynomial, s: Word, d: Octet): Word {
    Shifts(p, Xor(s, Pad(d)), 8)
  }

  function FeedBytes(p: Polynomial, s: Word, data: seq<Octet>): Word
    decreases |data|
  {
    if data == [] then s else FeedBytes(p, FeedByte(p, s, data[0]), data[1..])
  }

  function Crc(p: Polynomial, data: seq<Octet>): Word {
    Xor(FeedBytes(p, Ones(), data), Ones())
  }

  /** The program's two loops. */
  method ComputeCrc(p: Polynomial, data: seq<Octet>) returns (crc: Word)
    ensures crc == Crc(p, data)
  {
    crc := Ones();
    var i := 0;
    while i < |data|
      invariant i <= |data| && FeedBytes(p, Ones(), data) == FeedBytes(p, crc, data[i..])
    {
      assert data[i..][1..] == data[i + 1..];
      crc := Xor(crc, Pad(data[i]));
      crc := ShiftMany(p, crc, 8);
      i := i + 1;
    }
    crc := Xor(crc, Ones());
  }

  /** The register moved down by one, with the polynomial under a mask that is all ones or all zeros. */
  method ShiftOnce(p: Polynomial, s: Word) returns (r: Word)
    ensures r == Shift(p, s)
  {
    var mask := if s[0] then Ones() else Unset(32);
    r := Xor(s[1..] + [false], seq(32, i requires 0 <= i < 32 => p[i] && mask[i]));
  }

  method ShiftMany(p: Polynomial, s: Word, n: nat) returns (crc: Word)
    ensures crc == Shifts(p, s, n)
  {
    crc := s;
    var j := 0;
    while j < n
      invariant j <= n && Shifts(p, s, n) == Shifts(p, crc, n - j)
    {
      crc := ShiftOnce(p, crc);
      j := j + 1;
    }
  }

  /** `metadata_crc32`. */
  method Checksum(data: seq<Octet>) returns (crc: Word)
    ensures Standard()[31] && crc == Crc(Standard(), data)
  {
    TopBit();
    crc := ComputeCrc(Standard(), data);
  }

  // ---------------------------------------------------------------- the shift is linear and one-to-one

  lemma {:induction false} ShiftInjective(p: Polynomial, a: Word, b: Word)
    requires Shift(p, a) == Shift(p, b)
    ensures a == b
  {
    assert Shift(p, a)[31] == a[0] && Shift(p, b)[31] == b[0];
    forall i | 0 < i < 32 ensures a[i] == b[i] {
      assert Shift(p, a)[i - 1] == Shift(p, b)[i - 1];
    }
  }

  lemma {:induction false} ShiftXor(p: Polynomial, a: Word, b: Word)
    ensures Shift(p, Xor(a, b)) == Xor(Shift(p, a), Shift(p, b))
  {
    forall i | 0 <= i < 32 ensures Shift(p, Xor(a, b))[i] == Xor(Shift(p, a), Shift(p, b))[i] {
      assert i < 31 ==> Xor(a, b)[i + 1] == (a[i + 1] != b[i + 1]);
    }
  }

  lemma {:induction false} ShiftsInjective(p: Polynomial, a: Word, b: Word, n: nat)
    requires Shifts(p, a, n) == Shifts(p, b, n)
    ensures a == b
    decreases n
  {
    if n > 0 {
      ShiftsInjective(p, Shift(p, a), Shift(p, b), n - 1);
      ShiftInjective(p, a, b);
    }
  }

  // ---------------------------------------------------------------- one bit at a time

  function Mix(s: Word, b: bool): Word {
    [s[0] != b] + s[1..]
  }

  function FeedBits(p: Polynomial, s: Word, bits: seq<bool>): Word
    decreases |bits|
  {
    if bits == [] then s else FeedBits(p, Shift(p, Mix(s, bits[0])), bits[1..])
  }

  /** Only the lowest bit of what is mixed in meets the polynomial; the rest just moves down. */
  lemma {:induction false} ShiftMixed(p: Polynomial, s: Word, bits: seq<bool>)
    requires 0 < |bits| <= 32
    ensures Shift(p, Xor(s, Pad(bits))) == Xor(Shift(p, Mix(s, bits[0])), Pad(bits[1..]))
  {
    var x, m := Xor(s, Pad(bits)), Mix(s, bits[0]);
    assert x[0] == m[0];
    forall i | 0 <= i < 32 ensures Shift(p, x)[i] == Xor(Shift(p, m), Pad(bits[1..]))[i] {
      if i < 31 {
        assert x[i + 1] == (s[i + 1] != Pad(bits)[i + 1]) && m[i + 1] == s[i + 1];
      }
    }
  }

  /** Feeding bits one by one is mixing them in at once and then shifting. */
  lemma {:induction false} BitsAtOnce(p: Polynomial, s: Word, bits: seq<bool>)
    requires |bits| <= 32
    ensures FeedBits(p, s, bits) == Shifts(p, Xor(s, Pad(bits)), |bits|)
    decreases |bits|
  {
    if bits == [] {
      assert Xor(s, Pad(bits)) == s;
    } else {
      ShiftMixed(p, s, bits);
      BitsAtOnce(p, Shift(p, Mix(s, bits[0])), bits[1..]);
    }
  }

  function Bits(data: seq<Octet>): (bits: seq<bool>)
    ensures |bits| == 8 * |data|
  {
    if data == [] then [] else data[0] + Bits(data[1..])
  }

  lemma {:induction false} FeedConcat(p: Polynomial, s: Word, a: seq<bool>, b: seq<bool>)
    ensures FeedBits(p, s, a + b) == FeedBits(p, FeedBits(p, s, a), b)
    decreases |a|
  {
    if a == [] {
      assert a + b == b;
    } else {
      assert (a + b)[1..] == a[1..] + b;
      FeedConcat(p, Shift(p, Mix(s, a[0])), a[1..], b);
    }
  }

  /** The byte loop computes what the bit-serial register computes. */
  lemma {:induction false} BytesAreBits(p: Polynomial, s: Word, data: seq<Octet>)
    ensures FeedBytes(p, s, data) == FeedBits(p, s, Bits(data))
    decreases |data|
  {
    if data != [] {
      BitsAtOnce(p, s, data[0]);
      FeedConcat(p, s, data[0], Bits(data[1..]));
      BytesAreBits(p, FeedByte(p, s, data[0]), data[1..]);
    }
  }

  // ---------------------------------------------------------------- differences survive

  /** The same bits never merge two registers. */
  lemma {:induction false} FeedInjective(p: Polynomial, s: Word, t: Word, bits: seq<bool>)
    requires FeedBits(p, s, bits) == FeedBits(p, t, bits)
    ensures s == t
    decreases |bits|
  {
    if bits != [] {
      FeedInjective(p, Shift(p, Mix(s, bits[0])), Shift(p, Mix(t, bits[0])), bits[1..]);
      ShiftInjective(p, Mix(s, bits[0]), Mix(t, bits[0]));
      MixInjective(s, t, bits[0]);
    }
  }

  lemma {:induction false} MixInjective(s: Word, t: Word, b: bool)
    requires Mix(s, b) == Mix(t, b)
    ensures s == t
  {
    assert forall i :: 0 < i < 32 ==> s[i] == Mix(s, b)[i] && t[i] == Mix(t, b)[i];
    assert Mix(s, b)[0] == Mix(t, b)[0];
  }

  lemma {:induction false} XorInjective(s: seq<bool>, a: seq<bool>, b: seq<bool>)
    requires |s| == |a| == |b| && Xor(s, a) == Xor(s, b)
    ensures a == b
  {
    forall i | 0 <= i < |a| ensures a[i] == b[i] {
      assert Xor(s, a)[i] == Xor(s, b)[i];
    }
  }

  /** From one register, different bit strings of the same length of at most 32 lead to different registers. */
  lemma {:induction false} ShortInputsSeparate(p: Polynomial, s: Word, a: seq<bool>, b: seq<bool>)
    requires |a| == |b| <= 32 && FeedBits(p, s, a) == FeedBits(p, s, b)
    ensures a == b
  {
    BitsAtOnce(p, s, a);
    BitsAtOnce(p, s, b);
    ShiftsInjective(p, Xor(s, Pad(a)), Xor(s, Pad(b)), |a|);
    XorInjective(s, Pad(a), Pad(b));
    assert a == Pad(a)[..|a|] && b == Pad(b)[..|b|];
  }

  // ---------------------------------------------------------------- error detection

  lemma {:induction false} BitsInjective(a: seq<Octet>, b: seq<Octet>)
    requires |a| == |b| && Bits(a) == Bits(b)
    ensures a == b
    decreases |a|
  {
    if a != [] {
      assert a[0] == Bits(a)[..8] && b[0] == Bits(b)[..8];
      assert Bits(a[1..]) == Bits(a)[8..] && Bits(b[1..]) == Bits(b)[8..];
      BitsInjective(a[1..], b[1..]);
    }
  }

  /** Two rows of bits that differ only from k up to k + width. */
  ghost predicate DifferWithin(a: seq<bool>, b: seq<bool>, k: nat, width: nat) {
    |a| == |b| && forall i :: 0 <= i < |a| && !(k <= i < k + width) ==> a[i] == b[i]
  }

  lemma {:induction false} MiddleSeparates(
      p: Polynomial, s: Word, head: seq<bool>, x: seq<bool>, y: seq<bool>, tail: seq<bool>)
    requires |x| == |y| <= 32 && FeedBits(p, s, head + x + tail) == FeedBits(p, s, head + y + tail)
    ensures x == y
  {
    FeedConcat(p, s, head + x, tail);
    FeedConcat(p, s, head + y, tail);
    FeedInjective(p, FeedBits(p, s, head + x), FeedBits(p, s, head + y), tail);
    FeedConcat(p, s, head, x);
    FeedConcat(p, s, head, y);
    ShortInputsSeparate(p, FeedBits(p, s, head), x, y);
  }

  lemma {:induction false} Window(a: seq<bool>, b: seq<bool>, k: nat)
      returns (head: seq<bool>, x: seq<bool>, y: seq<bool>, tail: seq<bool>)
    requires DifferWithin(a, b, k, 32)
    ensures a == head + x + tail && b == head + y + tail && |x| == |y| <= 32
  {
    if k >= |a| {
      head, x, y, tail := a, [], [], [];
      assert a == b;
    } else {
      var e := if k + 32 < |a| then k + 32 else |a|;
      head, x, y, tail := a[..k], a[k..e], b[k..e], a[e..];
      assert head == b[..k] && tail == b[e..];
    }
  }

  lemma {:induction false} WindowsEqual(p: Polynomial, s: Word, a: seq<bool>, b: seq<bool>, k: nat)
    requires DifferWithin(a, b, k, 32) && FeedBits(p, s, a) == FeedBits(p, s, b)
    ensures a == b
  {
    var head, x, y, tail := Window(a, b, k);
    MiddleSeparates(p, s, head, x, y, tail);
  }

  /** Every error burst within 32 consecutive bits is detected, wherever it starts and however long the message. */
  lemma {:induction false} BurstsAreDetected(p: Polynomial, a: seq<Octet>, b: seq<Octet>, k: nat)
    requires DifferWithin(Bits(a), Bits(b), k, 32) && a != b
    ensures Crc(p, a) != Crc(p, b)
  {
    if Crc(p, a) == Crc(p, b) {
      SameRegister(p, a, b);
      WindowsEqual(p, Ones(), Bits(a), Bits(b), k);
      BitsInjective(a, b);
    }
  }

  lemma {:induction false} SameRegister(p: Polynomial, a: seq<Octet>, b: seq<Octet>)
    requires Crc(p, a) == Crc(p, b)
    ensures FeedBits(p, Ones(), Bits(a)) == FeedBits(p, Ones(), Bits(b))
  {
    BytesAreBits(p, Ones(), a);
    BytesAreBits(p, Ones(), b);
    var x, y := FeedBytes(p, Ones(), a), FeedBytes(p, Ones(), b);
    forall i | 0 <= i < 32 ensures x[i] == y[i] {
      assert Xor(x, Ones())[i] == Xor(y, Ones())[i];
    }
  }

  lemma {:induction false} BitOf(data: seq<Octet>, n: nat, i: nat)
    requires n < |data| && i < 8
    ensures Bits(data)[8 * n + i] == data[n][i]
    decreases n
  {
    if n > 0 {
      BitOf(data[1..], n - 1, i);
    }
  }

  /** In particular a change of one byte, in a message of any length. */
  lemma {:induction false} ByteChangesAreDetected(p: Polynomial, data: seq<Octet>, n: nat, d: Octet)
    requires n < |data| && data[n] != d
    ensures Crc(p, data[n := d]) != Crc(p, data)
  {
    var other := data[n := d];
    forall i | 0 <= i < 8 * |data| && !(8 * n <= i < 8 * n + 32) ensures Bits(other)[i] == Bits(data)[i] {
      var q := i / 8;
      BitOf(other, q, i - 8 * q);
      BitOf(data, q, i - 8 * q);
    }
    assert other[n] != data[n];
    BurstsAreDetected(p, other, data, 8 * n);
  }

  /** The checksum of the log detects every burst of 32 bits and every change of one byte. */
  lemma {:induction false} ChecksumDetects(a: seq<Octet>, b: seq<Octet>, k: nat)
    requires a != b && |a| == |b|
    requires DifferWithin(Bits(a), Bits(b), k, 32) || (k < |a| && b == a[k := b[k]])
    ensures Standard()[31] && Crc(Standard(), a) != Crc(Standard(), b)
  {
    TopBit();
    if DifferWithin(Bits(a), Bits(b), k, 32) {
      BurstsAreDetected(Standard(), a, b, k);
    } else {
      ByteChangesAreDetected(Standard(), a, k, b[k]);
    }
  }

  // ---------------------------------------------------------------- the limit

  /** The effect of an error pattern does not depend on the message. */
  lemma {:induction false} FeedXor(p: Polynomial, s: Word, t: Word, a: seq<bool>, e: seq<bool>)
    requires |a| == |e|
    ensures FeedBits(p, Xor(s, t), Xor(a, e)) == Xor(FeedBits(p, s, a), FeedBits(p, t, e))
    decreases |a|
  {
    if a != [] {
      assert Xor(a, e)[1..] == Xor(a[1..], e[1..]);
      MixXor(s, t, a[0], e[0]);
      ShiftXor(p, Mix(s, a[0]), Mix(t, e[0]));
      FeedXor(p, Shift(p, Mix(s, a[0])), Shift(p, Mix(t, e[0])), a[1..], e[1..]);
    }
  }

  lemma {:induction false} MixXor(s: Word, t: Word, x: bool, y: bool)
    ensures Mix(Xor(s, t), x != y) == Xor(Mix(s, x), Mix(t, y))
  {
    assert forall i :: 0 < i < 32 ==> Mix(s, x)[i] == s[i] && Mix(t, y)[i] == t[i];
    assert forall i :: 0 < i < 32 ==> Mix(Xor(s, t), x != y)[i] == Xor(s, t)[i];
  }

  lemma {:induction false} XorZero(x: Word, y: Word)
    ensures Xor(x, Unset(32)) == x
    ensures Xor(x, y) == x <==> y == Unset(32)
  {
    if Xor(x, y) == x {
      forall i | 0 <= i < 32 ensures !y[i] {
        assert Xor(x, y)[i] == x[i];
      }
    }
  }

  /** An error pattern goes unnoticed exactly when it feeds an empty register back to zero. */
  lemma {:induction false} UndetectedIff(p: Polynomial, s: Word, a: seq<bool>, e: seq<bool>)
    requires |a| == |e|
    ensures FeedBits(p, s, Xor(a, e)) == FeedBits(p, s, a) <==> FeedBits(p, Unset(32), e) == Unset(32)
  {
    XorZero(s, s);
    FeedXor(p, s, Unset(32), a, e);
    XorZero(FeedBits(p, s, a), FeedBits(p, Unset(32), e));
  }

  /** The generator itself: 33 bits. */
  function Generator(p: Polynomial): (g: seq<bool>)
    ensures |g| == 33
  {
    [true] + p
  }

  lemma {:induction false} ShiftsZero(p: Polynomial, n: nat)
    ensures Shifts(p, Unset(32), n) == Unset(32)
  {
    if n > 0 {
      assert Shift(p, Unset(32)) == Unset(32);
      ShiftsZero(p, n - 1);
    }
  }

  lemma {:induction false} GeneratorFeedsZero(p: Polynomial)
    ensures FeedBits(p, Unset(32), Generator(p)) == Unset(32)
  {
    assert Generator(p)[1..] == p;
    assert Shift(p, Mix(Unset(32), true)) == p;
    BitsAtOnce(p, p, p);
    assert Pad(p) == p;
    assert Xor(p, p) == Unset(32);
    ShiftsZero(p, 32);
  }

  /** 32 is the limit: a burst in the shape of the generator's 33 bits is never detected, whatever the message and
      wherever it falls. */
  lemma {:induction false} GeneratorIsInvisible(
      p: Polynomial, s: Word, before: seq<bool>, a: seq<bool>, after: seq<bool>)
    requires |a| == 33
    ensures Xor(a, Generator(p)) != a
    ensures FeedBits(p, s, before + Xor(a, Generator(p)) + after) == FeedBits(p, s, before + a + after)
  {
    var g := Generator(p);
    assert Xor(a, g)[0] != a[0];
    GeneratorFeedsZero(p);
    UndetectedIff(p, FeedBits(p, s, before), a, g);
    FeedConcat(p, s, before, Xor(a, g));
    FeedConcat(p, s, before, a);
    FeedConcat(p, s, before + Xor(a, g), after);
    FeedConcat(p, s, before + a, after);
  }

  // ---------------------------------------------------------------- the same for the checksum of bytes

  /** Two messages of one length have the same checksum exactly when their difference, alone, leaves an empty register
      empty. */
  lemma {:induction false} SameChecksumIff(p: Polynomial, a: seq<Octet>, b: seq<Octet>)
    requires |a| == |b|
    ensures Crc(p, a) == Crc(p, b) <==> FeedBits(p, Unset(32), Xor(Bits(a), Bits(b))) == Unset(32)
  {
    var e := Xor(Bits(a), Bits(b));
    assert Xor(Bits(a), e) == Bits(b);
    UndetectedIff(p, Ones(), Bits(a), e);
    if Crc(p, a) == Crc(p, b) {
      SameRegister(p, a, b);
    } else {
      BytesAreBits(p, Ones(), a);
      BytesAreBits(p, Ones(), b);
    }
  }

  /** Of the patterns of 33 bits that start with a one, the generator is the only one that goes unnoticed. */
  lemma {:induction false} OnlyTheGenerator(p: Polynomial, e: seq<bool>)
    requires |e| == 33 && e[0]
    ensures FeedBits(p, Unset(32), e) == Unset(32) <==> e == Generator(p)
  {
    GeneratorFeedsZero(p);
    assert e == [true] + e[1..] && Generator(p)[1..] == p;
    assert Shift(p, Mix(Unset(32), true)) == p;
    if FeedBits(p, Unset(32), e) == Unset(32) {
      ShortInputsSeparate(p, p, e[1..], p);
    }
  }

  lemma {:induction false} FeedNothing(p: Polynomial, n: nat)
    ensures FeedBits(p, Unset(32), Unset(n)) == Unset(32)
  {
    if n > 0 {
      assert Unset(n)[1..] == Unset(n - 1);
      assert Mix(Unset(32), false) == Unset(32) == Shift(p, Unset(32));
      FeedNothing(p, n - 1);
    }
  }

  /** Where a pattern stands does not matter. */
  lemma {:induction false} PlaceDoesNotMatter(p: Polynomial, m: nat, e: seq<bool>, n: nat)
    ensures FeedBits(p, Unset(32), Unset(m) + e + Unset(n)) == Unset(32) <==> FeedBits(p, Unset(32), e) == Unset(32)
  {
    FeedConcat(p, Unset(32), Unset(m) + e, Unset(n));
    FeedConcat(p, Unset(32), Unset(m), e);
    FeedNothing(p, m);
    FeedNothing(p, n);
    if FeedBits(p, Unset(32), Unset(m) + e + Unset(n)) == Unset(32) {
      FeedInjective(p, FeedBits(p, Unset(32), e), Unset(32), Unset(n));
    }
  }

  /** Bursts of 33 bits: a difference that starts at bit k and ends within 33 bits is missed exactly when it is the
      generator. So all shorter bursts are detected, and one burst at each place is not. */
  lemma {:induction false} LongBurstMissedIff(p: Polynomial, a: seq<Octet>, b: seq<Octet>, k: nat)
    requires DifferWithin(Bits(a), Bits(b), k, 33) && k + 33 <= |Bits(a)| && Bits(a)[k] != Bits(b)[k]
    ensures Crc(p, a) == Crc(p, b) <==> Xor(Bits(a), Bits(b))[k..k + 33] == Generator(p)
  {
    var e := Xor(Bits(a), Bits(b));
    var n := |e| - k - 33;
    assert e == Unset(k) + e[k..k + 33] + Unset(n);
    SameChecksumIff(p, a, b);
    PlaceDoesNotMatter(p, k, e[k..k + 33], n);
    OnlyTheGenerator(p, e[k..k + 33]);
  }

  function Octets(bits: seq<bool>): (data: seq<Octet>)
    requires |bits| % 8 == 0
    ensures 8 * |data| == |bits| && Bits(data) == bits
  {
    if bits == [] then [] else [bits[..8]] + Octets(bits[8..])
  }

  /** And such a message exists for every message, at every place where 33 bits fit. */
  lemma {:induction false} SomeLongBurstIsMissed(p: Polynomial, a: seq<Octet>, k: nat) returns (b: seq<Octet>)
    requires k + 33 <= |Bits(a)|
    ensures |b| == |a| && b != a && DifferWithin(Bits(a), Bits(b), k, 33) && Crc(p, b) == Crc(p, a)
  {
    var n := |Bits(a)| - k - 33;
    var e := Unset(k) + Generator(p) + Unset(n);
    b := Octets(Xor(Bits(a), e));
    assert Xor(Bits(a), Bits(b)) == e;
    assert e[k] && Bits(a)[k] != Bits(b)[k];
    assert e[k..k + 33] == Generator(p);
    LongBurstMissedIff(p, a, b, k);
  }
}
