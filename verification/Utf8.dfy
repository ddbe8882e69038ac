/**
  UTF-8 (section 3 of RFC 3629): the encoding by its table, its decoder, and the shift-and-mask
  steps by which `parse_string` writes it (src/cJSON.c, lines 216-238).
 */
module Utf8 {
  import opened Bits

  // Code points that UTF-8 encodes.
  predicate Scalar(u: nat) {
    u < 0x11_0000 && !Surrogate(u)
  }

  predicate High(u: nat) {
    0xD800 <= u <= 0xDBFF
  }

  predicate Low(u: nat) {
    0xDC00 <= u <= 0xDFFF
  }

  predicate Surrogate(u: nat) {
    High(u) || Low(u)
  }

  // The table of section 3 of RFC 3629.
  function Encode(u: nat): (s: string)
    requires u < 0x11_0000
    ensures 1 <= |s| <= 4
    ensures u > 0 ==> '\0' !in s
  {
    if u < 0x80 then [u as char]
    else if u < 0x800 then [(0xC0 + u / 64) as char, (0x80 + u % 64) as char]
    else if u < 0x1_0000 then
      [(0xE0 + u / 4096) as char, (0x80 + u / 64 % 64) as char, (0x80 + u % 64) as char]
    else
      [(0xF0 + u / 262144) as char, (0x80 + u / 4096 % 64) as char, (0x80 + u / 64 % 64) as char,
       (0x80 + u % 64) as char]
  }

  // The low six bits of a continuation byte, if it is one.
  function Tail(s: string, i: nat): (b: int)
    ensures -1 <= b < 64
  {
    if i < |s| && 0x80 <= s[i] as int < 0xC0 then s[i] as int - 0x80 else -1
  }

  // The code point that s encodes, or -1 when s is not one well-formed sequence.
  function Decode(s: string): int {
    if |s| == 0 then -1
    else
      var b, t1, t2, t3 := s[0] as int, Tail(s, 1), Tail(s, 2), Tail(s, 3);
      if |s| == 1 && b < 0x80 then b
      else if |s| == 2 && 0xC2 <= b < 0xE0 && t1 >= 0 then (b - 0xC0) * 64 + t1
      else if |s| == 3 && 0xE0 <= b < 0xF0 && t1 >= 0 && t2 >= 0 then
        var u := (b - 0xE0) * 4096 + t1 * 64 + t2;
        if u >= 0x800 && !Surrogate(u) then u else -1
      else if |s| == 4 && 0xF0 <= b < 0xF5 && t1 >= 0 && t2 >= 0 && t3 >= 0 then
        var u := (b - 0xF0) * 262144 + t1 * 4096 + t2 * 64 + t3;
        if 0x1_0000 <= u < 0x11_0000 then u else -1
      else -1
  }

  lemma DecodeEncode(u: nat)
    requires Scalar(u)
    ensures Decode(Encode(u)) == u
  {
    if u >= 0x1_0000 {
      DecodeFour(u);
    } else if u >= 0x800 {
      DecodeThree(u);
    }
  }

  lemma DecodeThree(u: nat)
    requires 0x800 <= u < 0x1_0000 && !Surrogate(u)
    ensures Decode(Encode(u)) == u
  {
    var s := Encode(u);
    var h, m, l := u / 4096, u / 64 % 64, u % 64;
    assert u == h * 4096 + m * 64 + l;
    assert s[0] as int == 0xE0 + h && Tail(s, 1) == m && Tail(s, 2) == l;
  }

  lemma DecodeFour(u: nat)
    requires 0x1_0000 <= u < 0x11_0000
    ensures Decode(Encode(u)) == u
  {
    var s := Encode(u);
    SixBits(u);
    var h, m, n, l := u / 262144, u / 4096 % 64, u / 64 % 64, u % 64;
    assert h < 5;
    assert s[0] as int == 0xF0 + h && Tail(s, 1) == m && Tail(s, 2) == n && Tail(s, 3) == l;
    hide *;
  }

  // u in base 64
  lemma SixBits(u: nat)
    ensures u == u / 262144 * 262144 + u / 4096 % 64 * 4096 + u / 64 % 64 * 64 + u % 64
  {
    var a := u / 64;
    var b := a / 64;
    var c := b / 64;
    assert b == u / 4096 && c == u / 262144;
    assert u == 64 * a + u % 64 && a == 64 * b + a % 64 && b == 64 * c + b % 64;
  }

  // The scalar value of a surrogate pair (section 7 of RFC 8259).
  function Pair(hi: nat, lo: nat): nat
    requires High(hi) && Low(lo)
  {
    0x1_0000 + (hi - 0xD800) * 0x400 + (lo - 0xDC00)
  }

  // Every scalar value above 0xFFFF is the value of exactly one pair.
  lemma PairOnto(u: nat) returns (hi: nat, lo: nat)
    requires 0x1_0000 <= u < 0x11_0000
    ensures High(hi) && Low(lo) && Pair(hi, lo) == u
    ensures forall h: nat, l: nat :: High(h) && Low(l) && Pair(h, l) == u ==> h == hi && l == lo
  {
    hi, lo := 0xD800 + (u - 0x1_0000) / 0x400, 0xDC00 + (u - 0x1_0000) % 0x400;
  }

  // ((uc & 0x3FF) << 10) | (uc2 & 0x3FF)
  lemma PairBits(hi: nat, lo: nat, mask: nat, shift: nat)
    requires High(hi) && Low(lo)
    requires mask == 0x3FF && shift == 0x400
    ensures 0x1_0000 + Or(And(hi, mask) * shift, And(lo, mask)) == Pair(hi, lo)
  {
    hide And, Or, Pow2, Ones;
    var k := Log(shift);
    OnesOf(k);
    MaskBits(hi, k);
    MaskBits(lo, k);
    assert hi % shift == hi - 0xD800 && lo % shift == lo - 0xDC00;
    OrBits(hi % shift, lo % shift, k);
  }

  lemma OnesOf(k: nat)
    ensures Ones(k) == Pow2(k) - 1
  {
  }

  // The exponent of the two shifts in use.
  ghost function Log(p: nat): (k: nat)
    requires p == 64 || p == 0x400
    ensures Pow2(k) == p
  {
    SmallPowers();
    if p == 64 then 6 else 10
  }

  lemma SmallPowers()
    ensures Pow2(4) == 16 && Pow2(5) == 32 && Pow2(6) == 64 && Pow2(10) == 0x400
  {
  }

  // x & (2^k - 1)
  lemma MaskBits(x: nat, k: nat)
    ensures And(x, Ones(k)) == x % Pow2(k)
  {
    AndMask(x, 0, k);
    JoinOnes(0, k);
    JoinSum(0, x, k);
    assert And(Shr(x, k), 0) == 0;
  }

  // (h << k) | l, when l fits in k bits
  lemma OrBits(h: nat, l: nat, k: nat)
    requires l < Pow2(k)
    ensures Or(h * Pow2(k), l) == h * Pow2(k) + l == Or(l, h * Pow2(k))
  {
    ShiftedBits(h, k);
    OrHigh(l, h, k);
    ShrSmall(l, k);
    OrZero(h);
    JoinSum(h, l, k);
    Remainder(0, l, Pow2(k));
  }

  lemma ShiftedBits(h: nat, k: nat)
    ensures Join(h, 0, k) == h * Pow2(k)
  {
    JoinSum(h, 0, k);
    Remainder(0, 0, Pow2(k));
  }

  // (x | 0x80) & 0xBF: a continuation byte with the low six bits of x
  lemma Continuation(x: nat, bit: nat, mask: nat)
    requires bit == 0x80 && mask == 0xBF
    ensures And(Or(x, bit), mask) == 0x80 + x % 64
  {
    var k, two := Log(64), bit / 64;
    var h := Shr(x, k);
    var o := Or(x, bit);
    ShiftedBits(two, k);
    OrHigh(x, two, k);
    JoinSum(two, Ones(k), k);
    Remainder(0, Ones(k), 64);
    AndMask(o, two, k);
    OrShr(x, bit, k);
    JoinShift(two, k);
    SecondBit(h, two);
    JoinSum(two, o, k);
    JoinSum(Or(h, two), x, k);
    Remainder(Or(h, two), x % 64, 64);
  }

  // x >> 6
  lemma ShiftSix(x: nat, six: nat)
    requires six == 6
    ensures Shr(x, six) == x / 64
  {
    SmallPowers();
    JoinShr(x, six);
    JoinSum(Shr(x, six), x, six);
  }

  // The bits that mark the first byte of a sequence of len bytes (`firstByteMark`).
  function FirstByteMark(len: nat): nat
    requires 1 <= len <= 4
  {
    if len == 1 then 0 else if len == 2 then 0xC0 else if len == 3 then 0xE0 else 0xF0
  }

  // uc | firstByteMark[len]
  lemma FirstByte(x: nat, len: nat)
    requires 1 <= len <= 4 && x < (if len == 1 then 0x80 else if len == 2 then 32 else 16)
    ensures Or(x, FirstByteMark(len)) == FirstByteMark(len) + x
  {
    SmallPowers();
    if len == 1 {
      OrZero(x);
    } else if len == 4 {
      OrHighBits(x, 15, 4, FirstByteMark(len));
    } else {
      OrHighBits(x, FirstByteMark(len) / 32, 5, FirstByteMark(len));
    }
  }

  lemma OrHighBits(x: nat, h: nat, k: nat, m: nat)
    requires x < Pow2(k) && m == h * Pow2(k)
    ensures Or(x, m) == m + x
  {
    OrBits(h, x, k);
  }

  lemma {:induction false} JoinShift(h: nat, k: nat)
    ensures Shr(Join(h, 0, k), k) == h
  {
    if k > 0 {
      JoinShift(h, k - 1);
    }
  }

  lemma SecondBit(h: nat, two: nat)
    requires two == 2
    ensures And(Or(h, two), two) == two
  {
    hide Or, And;
    var y := Or(h, two);
    var one := two / 2;
    var z := Or(h / 2, one);
    OneBit(h, two);
    OneBit(h / 2, one);
    OneBit(y, two);
    OneBit(z, one);
    AndNothing(z / 2, one / 2);
  }

  lemma OneBit(x: nat, y: nat)
    ensures Or(x, y) == 2 * Or(x / 2, y / 2) + if x % 2 == 1 || y % 2 == 1 then 1 else 0
    ensures And(x, y) == 2 * And(x / 2, y / 2) + if x % 2 == 1 && y % 2 == 1 then 1 else 0
  {
  }

  lemma AndNothing(x: nat, none: nat)
    requires none == 0
    ensures And(x, none) == 0
  {
  }
}
