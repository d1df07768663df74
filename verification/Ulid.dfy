/**
 * Crockford encoding (ulid.go): a bit buffer that is never masked and wraps at 32 bits still yields the
 * base-32 digits of the input, so ids decode, and sort as their bytes do.
 */
module Ulid {
  const W32 := 0x1_0000_0000
  const ALPHABET := "0123456789ABCDEFGHJKMNPQRSTVWXYZ"

  // ----- numbers in a base -----------------------------------------------------------------------

  predicate Digits(s: seq<int>, base: int) {
    forall i :: 0 <= i < |s| ==> 0 <= s[i] < base
  }

  /** The value of a big-endian digit sequence. */
  function Value(s: seq<int>, base: int): int {
    if s == [] then 0 else Value(s[..|s| - 1], base) * base + s[|s| - 1]
  }

  lemma ValueSnoc(s: seq<int>, d: int, base: int)
    ensures Value(s + [d], base) == Value(s, base) * base + d
  {
    assert (s + [d])[..|s|] == s;
  }

  /** Comparison as strings compare: the first difference decides. */
  predicate Precedes(x: seq<int>, y: seq<int>)
    requires |x| == |y|
  {
    exists k :: 0 <= k < |x| && x[..k] == y[..k] && x[k] < y[k]
  }

  lemma PrecedesSnoc(x: seq<int>, y: seq<int>)
    requires |x| == |y| > 0
    ensures var n := |x| - 1;
            Precedes(x, y) <==> Precedes(x[..n], y[..n]) || (x[..n] == y[..n] && x[n] < y[n])
  {
    var n := |x| - 1;
    if Precedes(x, y) {
      var k :| 0 <= k < |x| && x[..k] == y[..k] && x[k] < y[k];
      if k < n {
        assert x[..n][..k] == x[..k] && y[..n][..k] == y[..k] && x[..n][k] < y[..n][k];
      }
    }
    if Precedes(x[..n], y[..n]) {
      var k :| 0 <= k < n && x[..n][..k] == y[..n][..k] && x[..n][k] < y[..n][k];
      assert x[..n][..k] == x[..k] && y[..n][..k] == y[..k] && x[k] < y[k];
    }
  }

  /** At equal length, digit order is numeric order and the value determines the digits. */
  lemma {:induction false} OrderIsValue(x: seq<int>, y: seq<int>, base: int)
    requires |x| == |y| && base > 1 && Digits(x, base) && Digits(y, base)
    ensures Precedes(x, y) <==> Value(x, base) < Value(y, base)
    ensures x == y <==> Value(x, base) == Value(y, base)
  {
    if x != [] {
      var n := |x| - 1;
      OrderIsValue(x[..n], y[..n], base);
      PrecedesSnoc(x, y);
      assert x == x[..n] + [x[n]] && y == y[..n] + [y[n]];
      LeadingDecides(Value(x[..n], base), x[n], Value(y[..n], base), y[n], base);
    }
  }

  lemma LeadingDecides(a: int, d: int, b: int, e: int, base: int)
    requires 0 <= d < base && 0 <= e < base
    ensures a * base + d < b * base + e <==> a < b || (a == b && d < e)
    ensures a * base + d == b * base + e <==> a == b && d == e
  {
    if a < b {
      Spread(a, b, base);
    } else if b < a {
      Spread(b, a, base);
    }
  }

  lemma Spread(a: int, b: int, base: int)
    requires a < b && base > 0
    ensures a * base + base <= b * base
  {
    assert b * base == a * base + base + (b - a - 1) * base;
    assert (b - a - 1) * base >= 0;
  }

  // ----- the bit buffer --------------------------------------------------------------------------

  /** 2^n for the few shifts the encoder makes. */
  function Pow2(n: nat): (p: int)
    ensures p > 0
  {
    if n == 0 then 1 else 2 * Pow2(n - 1)
  }

  lemma SmallPowers()
    ensures Pow2(0) == 1 && Pow2(1) == 2 && Pow2(2) == 4 && Pow2(3) == 8 && Pow2(4) == 16 && Pow2(5) == 32
    ensures Pow2(6) == 64 && Pow2(7) == 128 && Pow2(8) == 256 && Pow2(9) == 512 && Pow2(10) == 1024
    ensures Pow2(11) == 2048 && Pow2(12) == 4096
  {
    assert Pow2(2) == 4;
    assert Pow2(4) == 16;
    assert Pow2(6) == 64;
    assert Pow2(8) == 256;
    assert Pow2(10) == 1024;
  }

  lemma ShiftSum(x: int, r: int, bits: nat)
    requires bits <= 7
    ensures (x * Pow2(bits) + r) / Pow2(bits) == x + r / Pow2(bits)
  {
    SmallPowers();
    if bits == 0 {} else if bits == 1 { assert (x * 2 + r) / 2 == x + r / 2; }
    else if bits == 2 { assert (x * 4 + r) / 4 == x + r / 4; }
    else if bits == 3 { assert (x * 8 + r) / 8 == x + r / 8; }
    else if bits == 4 { assert (x * 16 + r) / 16 == x + r / 16; }
    else if bits == 5 { assert (x * 32 + r) / 32 == x + r / 32; }
    else if bits == 6 { assert (x * 64 + r) / 64 == x + r / 64; }
    else { assert (x * 128 + r) / 128 == x + r / 128; }
  }

  lemma DropTop(z: int, y: int)
    ensures (32 * z + y) % 32 == y % 32
  {
  }

  lemma HighPartVanishes(x: int, r: int, bits: nat)
    requires bits <= 7
    ensures (32 * x * Pow2(bits) + r) / Pow2(bits) % 32 == r / Pow2(bits) % 32
  {
    ShiftSum(32 * x, r, bits);
    DropTop(x, r / Pow2(bits));
  }

  /** Dropping the high bits first makes no difference to five bits below them. */
  lemma WrapIsHarmless(v: int, bits: nat)
    requires v >= 0 && bits <= 7
    ensures (v % W32) / Pow2(bits) % 32 == v / Pow2(bits) % 32
  {
    SmallPowers();
    hide Pow2;
    var q, r := v / W32, v % W32;
    if bits == 0 { HighPartVanishes(q * 0x800_0000, r, 0); }
    else if bits == 1 { HighPartVanishes(q * 0x400_0000, r, 1); }
    else if bits == 2 { HighPartVanishes(q * 0x200_0000, r, 2); }
    else if bits == 3 { HighPartVanishes(q * 0x100_0000, r, 3); }
    else if bits == 4 { HighPartVanishes(q * 0x80_0000, r, 4); }
    else if bits == 5 { HighPartVanishes(q * 0x40_0000, r, 5); }
    else if bits == 6 { HighPartVanishes(q * 0x20_0000, r, 6); }
    else { HighPartVanishes(q * 0x10_0000, r, 7); }
  }

  /** Taking five more bits. */
  lemma FiveMoreBits(v: int, bits: nat)
    requires v >= 0 && bits <= 7
    ensures v / Pow2(bits) == v / Pow2(bits + 5) * 32 + v / Pow2(bits) % 32
  {
    SmallPowers();
    if bits == 0 { assert v / 32 == (v / 1) / 32; }
    else if bits == 1 { assert v / 64 == (v / 2) / 32; }
    else if bits == 2 { assert v / 128 == (v / 4) / 32; }
    else if bits == 3 { assert v / 256 == (v / 8) / 32; }
    else if bits == 4 { assert v / 512 == (v / 16) / 32; }
    else if bits == 5 { assert v / 1024 == (v / 32) / 32; }
    else if bits == 6 { assert v / 2048 == (v / 64) / 32; }
    else { assert v / 4096 == (v / 128) / 32; }
  }

  /** A byte shifted in: the unmasked buffer stays the value so far, modulo 2^32. */
  lemma ShiftIn(v: int, octet: int)
    requires v >= 0 && 0 <= octet < 256
    ensures ((v % W32) * 256 % W32 + octet) == (v * 256 + octet) % W32
  {
    var q, r := v / W32, v % W32;
    assert v * 256 == q * 256 * W32 + r * 256;
    var q2, r2 := r * 256 / W32, r * 256 % W32;
    assert v * 256 + octet == (q * 256 + q2) * W32 + (r2 + octet);
    assert r2 % 256 == 0 by { assert r2 == r * 256 - q2 * W32; }
    assert r2 + octet < W32;
    ModOf(q * 256 + q2, r2 + octet);
  }

  lemma ModOf(q: int, r: int)
    requires 0 <= r < W32
    ensures (q * W32 + r) % W32 == r
  {
  }

  /** Eight bits shifted in leave the digits taken so far where they are. */
  lemma ShiftKeepsHigh(v: int, octet: int, bits: nat)
    requires v >= 0 && 0 <= octet < 256 && bits <= 4
    ensures (v * 256 + octet) / Pow2(bits + 8) == v / Pow2(bits)
  {
    SmallPowers();
    if bits == 0 {} else if bits == 1 { assert (v * 256 + octet) / 512 == v / 2; }
    else if bits == 2 { assert (v * 256 + octet) / 1024 == v / 4; }
    else if bits == 3 { assert (v * 256 + octet) / 2048 == v / 8; }
    else { assert (v * 256 + octet) / 4096 == v / 16; }
  }

  // ----- the alphabet ----------------------------------------------------------------------------

  lemma AlphabetRises()
    ensures |ALPHABET| == 32 && forall i, j :: 0 <= i < j < 32 ==> ALPHABET[i] < ALPHABET[j]
  {
    assert forall i :: 0 <= i < 31 ==> ALPHABET[i] < ALPHABET[i + 1];
    RisesThroughout();
  }

  lemma RisesThroughout()
    requires forall i :: 0 <= i < 31 ==> ALPHABET[i] < ALPHABET[i + 1]
    ensures forall i, j :: 0 <= i < j < 32 ==> ALPHABET[i] < ALPHABET[j]
  {
    forall i, j | 0 <= i < j < 32 ensures ALPHABET[i] < ALPHABET[j] {
      Climb(i, j);
    }
  }

  lemma {:induction false} Climb(i: nat, j: nat)
    requires forall i :: 0 <= i < 31 ==> ALPHABET[i] < ALPHABET[i + 1]
    requires i < j < 32
    ensures ALPHABET[i] < ALPHABET[j]
  {
    if i < j - 1 {
      Climb(i, j - 1);
    }
  }

  /** A digit, or a capital other than the four that read as something else: there are 32 of these. */
  predicate Readable(c: char) {
    '0' <= c <= '9' || 'A' <= c <= 'H' || c == 'J' || c == 'K' || c == 'M' || c == 'N' || 'P' <= c <= 'T' ||
    'V' <= c <= 'Z'
  }

  /** The alphabet's 32 characters rise and are readable, so they are all of them. */
  lemma AlphabetIsReadable()
    ensures |ALPHABET| == 32 && forall i :: 0 <= i < 32 ==> Readable(ALPHABET[i])
    ensures forall i, j :: 0 <= i < j < 32 ==> ALPHABET[i] != ALPHABET[j]
  {
    AlphabetRises();
  }

  /** The characters of some base-32 digits. */
  function Text(digits: seq<int>): string
    requires Digits(digits, 32)
  {
    seq(|digits|, i requires 0 <= i < |digits| => ALPHABET[digits[i]])
  }

  /** Two texts spell the same digits only if they are the same. */
  lemma TextInjective(x: seq<int>, y: seq<int>)
    requires Digits(x, 32) && Digits(y, 32) && Text(x) == Text(y)
    ensures x == y
  {
    AlphabetRises();
    assert |x| == |Text(x)| == |Text(y)| == |y|;
    forall i | 0 <= i < |x| ensures x[i] == y[i] {
      assert Text(x)[i] == Text(y)[i];
    }
  }

  /** String comparison of texts of one length. */
  predicate SortsBefore(s: string, t: string)
    requires |s| == |t|
  {
    exists k :: 0 <= k < |s| && s[..k] == t[..k] && s[k] < t[k]
  }

  lemma TextKeepsOrder(x: seq<int>, y: seq<int>)
    requires |x| == |y| && Digits(x, 32) && Digits(y, 32)
    ensures SortsBefore(Text(x), Text(y)) <==> Precedes(x, y)
  {
    AlphabetRises();
    var s, t := Text(x), Text(y);
    forall k | 0 <= k < |x| ensures (s[k] < t[k] <==> x[k] < y[k]) && (s[..k] == t[..k] <==> x[..k] == y[..k]) {
      PrefixText(x, k);
      PrefixText(y, k);
      if s[..k] == t[..k] {
        TextInjective(x[..k], y[..k]);
      }
    }
  }

  lemma PrefixText(x: seq<int>, k: nat)
    requires Digits(x, 32) && k <= |x|
    ensures Digits(x[..k], 32) && Text(x)[..k] == Text(x[..k])
  {
  }

  // ----- the encoder -----------------------------------------------------------------------------

  /** Digits worth four times the bytes: the bits of the input and two zeros. */
  predicate Worth(digits: seq<int>, b: seq<int>) {
    |digits| == 26 && Digits(digits, 32) && Value(digits, 32) == 4 * Value(b, 256)
  }

  /** The text spells, in base 32, four times the value of the bytes. */
  ghost predicate Encodes(s: string, b: seq<int>) {
    exists digits :: Worth(digits, b) && s == Text(digits)
  }

  /** One more digit taken from the buffer. */
  lemma TakeDigit(v: int, bits: nat, digits: seq<int>)
    requires v >= 0 && bits <= 7 && Digits(digits, 32) && Value(digits, 32) == v / Pow2(bits + 5)
    ensures var d := (v % W32) / Pow2(bits) % 32;
            0 <= d < 32 && Digits(digits + [d], 32) && Value(digits + [d], 32) == v / Pow2(bits)
  {
    WrapIsHarmless(v, bits);
    FiveMoreBits(v, bits);
    ValueSnoc(digits, v / Pow2(bits) % 32, 32);
  }

  /** One more byte shifted in. */
  lemma TakeByte(b: seq<int>, k: nat, bits: nat)
    requires k < |b| && Digits(b, 256) && bits <= 4 && Value(b[..k], 256) >= 0
    ensures var v, w := Value(b[..k], 256), Value(b[..k + 1], 256);
            && w >= 0 && (v % W32) * 256 % W32 + b[k] == w % W32
            && w / Pow2(bits + 8) == v / Pow2(bits)
  {
    assert b[..k + 1] == b[..k] + [b[k]];
    ValueSnoc(b[..k], b[k], 256);
    ShiftIn(Value(b[..k], 256), b[k]);
    ShiftKeepsHigh(Value(b[..k], 256), b[k], bits);
  }

  method EncodeCrockford(b: seq<int>) returns (s: string)
    requires |b| == 16 && Digits(b, 256)
    ensures Encodes(s, b)
  {
    hide Value, Pow2, Digits, Text;
    var out := new char[26](_ => '0');
    var buf, bits, idx := 0, 0, 0;
    ghost var digits := [];
    NoDigits();
    for k := 0 to 16
      invariant Value(b[..k], 256) >= 0 && buf == Value(b[..k], 256) % W32
      invariant 0 <= bits <= 4 && 5 * idx + bits == 8 * k
      invariant |digits| == idx && Digits(digits, 32) && Value(digits, 32) == Value(b[..k], 256) / Pow2(bits)
      invariant forall i :: 0 <= i < idx ==> 0 <= digits[i] < 32 && out[i] == ALPHABET[digits[i]]
    {
      TakeByte(b, k, bits);
      ghost var v := Value(b[..k + 1], 256);
      buf := buf * 256 % W32 + b[k];
      bits := bits + 8;
      while bits >= 5 && idx < 26
        invariant 0 <= bits <= 12 && 5 * idx + bits == 8 * (k + 1)
        invariant |digits| == idx && Digits(digits, 32) && Value(digits, 32) == v / Pow2(bits)
        invariant forall i :: 0 <= i < idx ==> 0 <= digits[i] < 32 && out[i] == ALPHABET[digits[i]]
        decreases bits
      {
        bits := bits - 5;
        TakeDigit(v, bits, digits);
        out[idx] := ALPHABET[buf / Pow2(bits) % 32];
        digits := digits + [buf / Pow2(bits) % 32];
        idx := idx + 1;
      }
    }
    assert b[..16] == b;
    if bits > 0 && idx < 26 {
      ghost var v := Value(b, 256);
      LastDigit(v, digits);
      out[idx] := ALPHABET[buf * Pow2(5 - bits) % W32 % 32];
      digits := digits + [v * 4 % 32];
      idx := idx + 1;
    }
    s := out[..];
    Spells(s, digits);
    assert Worth(digits, b);
  }

  lemma NoDigits()
    ensures Value([], 256) == 0 && Value([], 32) == 0 && Pow2(0) == 1 && Digits([], 32)
  {
  }

  lemma Spells(s: string, digits: seq<int>)
    requires Digits(digits, 32) && |s| == |digits|
    requires forall i :: 0 <= i < |s| ==> 0 <= digits[i] < 32 && s[i] == ALPHABET[digits[i]]
    ensures s == Text(digits)
  {
  }

  /** The three bits left over, padded with two zeros. */
  lemma LastDigit(v: int, digits: seq<int>)
    requires v >= 0 && Digits(digits, 32) && Value(digits, 32) == v / Pow2(3)
    ensures (v % W32) * Pow2(2) % W32 % 32 == v * 4 % 32
    ensures Digits(digits + [v * 4 % 32], 32) && Value(digits + [v * 4 % 32], 32) == 4 * v
  {
    SmallPowers();
    var q, r := v / W32, v % W32;
    var q2, r2 := r * 4 / W32, r * 4 % W32;
    assert v * 4 == 32 * ((q * 4 + q2) * 0x800_0000) + r2;
    DropTop((q * 4 + q2) * 0x800_0000, r2);
    ThreeBits(v);
    ValueSnoc(digits, v * 4 % 32, 32);
  }

  lemma ThreeBits(v: int)
    ensures v / 8 * 32 + v * 4 % 32 == 4 * v
  {
  }

  /** Bytes have one encoding, so the method is a function, and no two inputs share it: it can be inverted. */
  lemma EncodingDecodes(x: seq<int>, y: seq<int>, s: string, t: string)
    requires |x| == |y| && Digits(x, 256) && Digits(y, 256) && Encodes(s, x) && Encodes(t, y)
    ensures s == t <==> x == y
  {
    var dx :| Worth(dx, x) && s == Text(dx);
    var dy :| Worth(dy, y) && t == Text(dy);
    OrderIsValue(x, y, 256);
    OrderIsValue(dx, dy, 32);
    if s == t {
      TextInjective(dx, dy);
    }
  }

  /** Ids sort as their bytes do. */
  lemma EncodingKeepsOrder(x: seq<int>, y: seq<int>, s: string, t: string)
    requires |x| == |y| && Digits(x, 256) && Digits(y, 256) && Encodes(s, x) && Encodes(t, y)
    ensures |s| == |t| && (SortsBefore(s, t) <==> Precedes(x, y))
  {
    var dx :| Worth(dx, x) && s == Text(dx);
    var dy :| Worth(dy, y) && t == Text(dy);
    OrderIsValue(x, y, 256);
    OrderIsValue(dx, dy, 32);
    TextKeepsOrder(dx, dy);
  }

  // ----- minting ---------------------------------------------------------------------------------

  /** The six time bytes of a millisecond count. */
  function TimeBytes(ms: int): seq<int> {
    [ms / 0x100_0000_0000 % 256, ms / 0x1_0000_0000 % 256, ms / 0x100_0000 % 256, ms / 0x1_0000 % 256,
     ms / 0x100 % 256, ms % 256]
  }

  /** Shifting by bytes, one at a time. */
  lemma ByteShifts(ms: int)
    ensures ms / 0x1_0000 == ms / 0x100 / 256 && ms / 0x100_0000 == ms / 0x1_0000 / 256
    ensures ms / 0x1_0000_0000 == ms / 0x100_0000 / 256 && ms / 0x100_0000_0000 == ms / 0x1_0000_0000 / 256
    ensures ms / 0x1_0000_0000_0000 == ms / 0x100_0000_0000 / 256
  {
  }

  lemma SixDigits(t: seq<int>)
    requires |t| == 6
    ensures Value(t, 256) == ((((t[0] * 256 + t[1]) * 256 + t[2]) * 256 + t[3]) * 256 + t[4]) * 256 + t[5]
  {
    assert t[..5][..4] == t[..4] && t[..4][..3] == t[..3] && t[..3][..2] == t[..2] && t[..2][..1] == t[..1] &&
           t[..1][..0] == [];
    assert Value(t[..1], 256) == t[0];
    assert Value(t[..3], 256) == (t[0] * 256 + t[1]) * 256 + t[2];
    assert Value(t[..5], 256) == Value(t[..4], 256) * 256 + t[4];
  }

  lemma TimeBytesValue(ms: int)
    ensures Digits(TimeBytes(ms), 256) && Value(TimeBytes(ms), 256) == ms % 0x1_0000_0000_0000
  {
    ByteShifts(ms);
    SixDigits(TimeBytes(ms));
    SixBytes(ms, ms / 0x100, ms / 0x1_0000, ms / 0x100_0000, ms / 0x1_0000_0000, ms / 0x100_0000_0000,
             ms / 0x1_0000_0000_0000);
  }

  lemma SixBytes(ms: int, a: int, b: int, c: int, d: int, e: int, f: int)
    requires a == ms / 256 && b == a / 256 && c == b / 256 && d == c / 256 && e == d / 256 && f == e / 256
    ensures ((((e % 256 * 256 + d % 256) * 256 + c % 256) * 256 + b % 256) * 256 + a % 256) * 256 + ms % 256 ==
            ms - f * 0x1_0000_0000_0000
    ensures 0 <= ms - f * 0x1_0000_0000_0000 < 0x1_0000_0000_0000
  {
  }

  /** The ten bytes taken from the clock when the random source fails. */
  function Fallback(ms: int): (b: seq<int>)
    ensures |b| == 10 && Digits(b, 256)
  {
    seq(10, k requires 0 <= k < 10 => ms / Pow2(3 * (k + 6)) % 256)
  }

  function IdBytes(ms: int, random: seq<int>, randomOk: bool): seq<int> {
    TimeBytes(ms) + if randomOk then random else Fallback(ms)
  }

  /** Byte by byte: each is three bits further down the clock than the one before. */
  lemma FallbackBytes(ms: int)
    ensures var b := Fallback(ms);
            && b[0] == ms / 0x4_0000 % 256 && b[1] == ms / 0x20_0000 % 256 && b[2] == ms / 0x100_0000 % 256
            && b[3] == ms / 0x800_0000 % 256 && b[4] == ms / 0x4000_0000 % 256 && b[5] == ms / 0x2_0000_0000 % 256
            && b[6] == ms / 0x10_0000_0000 % 256 && b[7] == ms / 0x80_0000_0000 % 256
            && b[8] == ms / 0x400_0000_0000 % 256 && b[9] == ms / 0x2000_0000_0000 % 256
  {
    SmallPowers();
    EightTimes(12);
    EightTimes(15);
    EightTimes(18);
    EightTimes(21);
    EightTimes(24);
    EightTimes(27);
    EightTimes(30);
    EightTimes(33);
    EightTimes(36);
    EightTimes(39);
    EightTimes(42);
  }

  lemma EightTimes(n: nat)
    ensures Pow2(n + 3) == 8 * Pow2(n)
  {
    assert Pow2(n + 3) == 2 * Pow2(n + 2) == 4 * Pow2(n + 1);
  }

  /** The leading 48 bits of an id, read off its 26 digits. */
  ghost predicate TellsTime(s: string, time: int) {
    exists digits :: |digits| == 26 && Digits(digits, 32) && s == Text(digits) &&
                     Value(digits, 32) / 0x4_0000_0000_0000_0000_0000 == time
  }

  /** Of two ids the one that tells the later time sorts last, and an id tells one time only. */
  lemma TimeDecides(s: string, t: string, time: int, later: int)
    requires TellsTime(s, time) && TellsTime(t, later)
    ensures |s| == |t| == 26
    ensures time < later ==> SortsBefore(s, t)
    ensures s == t ==> time == later
  {
    var dx :| |dx| == 26 && Digits(dx, 32) && s == Text(dx) && Value(dx, 32) / 0x4_0000_0000_0000_0000_0000 == time;
    var dy :| |dy| == 26 && Digits(dy, 32) && t == Text(dy) && Value(dy, 32) / 0x4_0000_0000_0000_0000_0000 == later;
    OrderIsValue(dx, dy, 32);
    TextKeepsOrder(dx, dy);
    if s == t {
      TextInjective(dx, dy);
    }
  }

  /** What follows the first six bytes is worth less than a unit of their last. */
  lemma {:induction false} ValueSplit(head: seq<int>, tail: seq<int>)
    requires Digits(head, 256) && Digits(tail, 256)
    ensures Value(head + tail, 256) == Value(head, 256) * Pow2(8 * |tail|) + Value(tail, 256)
    ensures 0 <= Value(tail, 256) < Pow2(8 * |tail|)
    decreases |tail|
  {
    if tail == [] {
      assert head + tail == head;
    } else {
      var n := |tail| - 1;
      ValueSplit(head, tail[..n]);
      assert head + tail == head + tail[..n] + [tail[n]] && tail == tail[..n] + [tail[n]];
      ValueSnoc(head + tail[..n], tail[n], 256);
      ValueSnoc(tail[..n], tail[n], 256);
      ByteMore(8 * n);
      Shifted(Value(head, 256), Pow2(8 * n), Value(tail[..n], 256), tail[n]);
    }
  }

  lemma ByteMore(n: nat)
    ensures Pow2(n + 8) == 256 * Pow2(n)
  {
    EightTimes(n);
    EightTimes(n + 3);
    assert Pow2(n + 8) == 2 * Pow2(n + 7) == 4 * Pow2(n + 6);
  }

  lemma Shifted(h: int, p: int, v: int, d: int)
    requires 0 <= v < p && 0 <= d < 256
    ensures (h * p + v) * 256 + d == h * (256 * p) + (v * 256 + d)
    ensures 0 <= v * 256 + d < 256 * p
  {
  }

  lemma TenBytes()
    ensures Pow2(80) == 0x1_0000_0000_0000_0000_0000
  {
    SmallPowers();
    ByteMore(8);
    ByteMore(16);
    ByteMore(24);
    ByteMore(32);
    ByteMore(40);
    ByteMore(48);
    ByteMore(56);
    ByteMore(64);
    ByteMore(72);
  }

  /** An encoding of time bytes and ten more tells the time, whatever the ten are. */
  lemma EncodedTime(s: string, ms: int, tail: seq<int>)
    requires Encodes(s, TimeBytes(ms) + tail) && |tail| == 10 && Digits(tail, 256)
    ensures TellsTime(s, ms % 0x1_0000_0000_0000)
  {
    var digits :| Worth(digits, TimeBytes(ms) + tail) && s == Text(digits);
    TimeBytesValue(ms);
    ValueSplit(TimeBytes(ms), tail);
    TenBytes();
    hide TimeBytes, Value, Pow2;
    Quotient(ms % 0x1_0000_0000_0000, Value(tail, 256), Value(digits, 32));
  }

  lemma Quotient(time: int, rest: int, value: int)
    requires 0 <= rest < 0x1_0000_0000_0000_0000_0000
    requires value == 4 * (time * 0x1_0000_0000_0000_0000_0000 + rest)
    ensures value / 0x4_0000_0000_0000_0000_0000 == time
  {
  }

  /**
   * An id minted at `ms` is 26 characters that tell the millisecond modulo 2^48, whether the random source
   * worked or not; and what follows the time is what that source gave, or bytes of the clock.
   */
  method MintULID(ms: int, random: seq<int>, randomOk: bool) returns (s: string)
    requires |random| == 10 && Digits(random, 256)
    ensures Encodes(s, IdBytes(ms, random, randomOk))
    ensures |s| == 26 && TellsTime(s, ms % 0x1_0000_0000_0000)
    ensures forall t, later :: TellsTime(t, later) && ms % 0x1_0000_0000_0000 < later ==> |t| == 26 && SortsBefore(s, t)
  {
    hide Encodes, TellsTime;
    var rest := random;
    if !randomOk {
      rest := [];
      for i := 6 to 16
        invariant |rest| == i - 6
        invariant rest == Fallback(ms)[..i - 6]
      {
        assert Fallback(ms)[..i - 5] == Fallback(ms)[..i - 6] + [Fallback(ms)[i - 6]];
        rest := rest + [ms / Pow2(3 * i) % 256];
      }
      assert Fallback(ms)[..10] == Fallback(ms);
    }
    TimeBytesValue(ms);
    s := EncodeCrockford(TimeBytes(ms) + rest);
    EncodedTime(s, ms, rest);
    TimeDecides(s, s, ms % 0x1_0000_0000_0000, ms % 0x1_0000_0000_0000);
    forall t, later | TellsTime(t, later) && ms % 0x1_0000_0000_0000 < later
      ensures |t| == 26 && SortsBefore(s, t)
    {
      TimeDecides(s, t, ms % 0x1_0000_0000_0000, later);
    }
  }

  /** Two ids, minted in any order and with any luck: the one of the later millisecond sorts last. */
  method MintTwo(ms: int, later: int, x: seq<int>, xOk: bool, y: seq<int>, yOk: bool) returns (s: string, t: string)
    requires |x| == |y| == 10 && Digits(x, 256) && Digits(y, 256)
    ensures |s| == |t| && (ms % 0x1_0000_0000_0000 < later % 0x1_0000_0000_0000 ==> SortsBefore(s, t))
  {
    hide TellsTime, Encodes;
    s := MintULID(ms, x, xOk);
    t := MintULID(later, y, yOk);
  }

  /** Ids minted at a later millisecond, counted modulo 48 bits, sort later whatever follows the time. */
  lemma LaterIdsSortLater(ms: int, later: int, x: seq<int>, xOk: bool, y: seq<int>, yOk: bool)
    requires ms % 0x1_0000_0000_0000 < later % 0x1_0000_0000_0000
    requires |x| == |y| == 10 && Digits(x, 256) && Digits(y, 256)
    ensures forall s, t :: Encodes(s, IdBytes(ms, x, xOk)) && Encodes(t, IdBytes(later, y, yOk)) ==>
            |s| == |t| && SortsBefore(s, t)
  {
    hide Encodes, TellsTime;
    forall s, t | Encodes(s, IdBytes(ms, x, xOk)) && Encodes(t, IdBytes(later, y, yOk))
      ensures |s| == |t| && SortsBefore(s, t)
    {
      EncodedTime(s, ms, if xOk then x else Fallback(ms));
      EncodedTime(t, later, if yOk then y else Fallback(later));
      TimeDecides(s, t, ms % 0x1_0000_0000_0000, later % 0x1_0000_0000_0000);
    }
  }
}
