/**
 What the SHA-256 functions are, said without them: laws of their bits, and the constants as digits of roots of primes
 (FIPS 180-4, sections 4.1.2, 4.2.2 and 5.3.3).
 */
module Sha256Standard {
  import opened Sha256Hash

  // ----- bits -----

  /** Each bit of the first argument chooses the second one's bit, if it is set, or else the third one's. */
  lemma ChChooses(x: bv32, y: bv32, z: bv32)
    ensures Ch(x, y, z) & x == y & x
    ensures Ch(x, y, z) & !x == z & !x
  {
  }

  /** Where two arguments agree in a bit, so does the result. */
  lemma MajIsMajority(x: bv32, y: bv32, z: bv32)
    ensures Maj(x, y, z) & !(x ^ y) == x & !(x ^ y)
    ensures Maj(x, y, z) & !(x ^ z) == x & !(x ^ z)
    ensures Maj(x, y, z) & !(y ^ z) == y & !(y ^ z)
  {
    hide Maj;
    MajorityOf(x, y, z);
    MajorityOf(x, z, y);
    MajorityOf(y, z, x);
    MajSymmetric(x, y, z);
  }

  lemma MajSymmetric(x: bv32, y: bv32, z: bv32)
    ensures Maj(x, y, z) == Maj(x, z, y) == Maj(y, z, x)
  {
  }

  lemma MajorityOf(x: bv32, y: bv32, z: bv32)
    ensures Maj(x, y, z) & !(x ^ y) == x & !(x ^ y)
  {
  }

  function Bit(x: bv32, i: bv32): bv32
    requires i < 32
  {
    (x >> i) & 1
  }

  /** Every bit moves down by `n`, and the lowest ones to the top. */
  lemma RotrRotates(x: bv32, n: bv32, i: bv32)
    requires 0 < n < 32 && i < 32
    ensures Bit(Rotr(x, n), i) == Bit(x, if i + n < 32 then i + n else i + n - 32)
  {
    hide Rotr, Bit;
    if i + n < 32 { RotrDown(x, n, i); } else { RotrAround(x, n, i); }
  }

  lemma RotrDown(x: bv32, n: bv32, i: bv32)
    requires 0 < n < 32 && i < 32 && i + n < 32
    ensures Bit(Rotr(x, n), i) == Bit(x, i + n)
  {
  }

  lemma RotrAround(x: bv32, n: bv32, i: bv32)
    requires 0 < n < 32 && i < 32 && i + n >= 32
    ensures Bit(Rotr(x, n), i) == Bit(x, i + n - 32)
  {
  }

  /** The four bytes of a word, the highest first. */
  lemma WordIsBigEndian(b0: bv8, b1: bv8, b2: bv8, b3: bv8)
    ensures var w := BigEndian(b0, b1, b2, b3);
            && w >> 24 == b0 as bv32 && (w >> 16) & 255 == b1 as bv32
            && (w >> 8) & 255 == b2 as bv32 && w & 255 == b3 as bv32
  {
  }

  /** The number that digits to the base 256 denote, the highest first. */
  function DigitsValue(digits: seq<nat>): nat {
    if digits == [] then 0 else 256 * DigitsValue(digits[..|digits| - 1]) + digits[|digits| - 1]
  }

  lemma {:induction false} ShiftedOnce(n: nat, j: nat)
    ensures Shifted(n, j + 1) == Shifted(n, j) / 256
  {
    if j > 0 { ShiftedOnce(n / 256, j - 1); }
  }

  /** The lowest `k` digits of a number. */
  function LengthDigits(bits: nat, k: nat): (d: seq<nat>)
    ensures |d| == k && forall i :: 0 <= i < k ==> d[i] < 256
  {
    if k == 0 then [] else [Shifted(bits, k - 1) % 256] + LengthDigits(bits, k - 1)
  }

  /** The length is written in eight bytes, the highest first. */
  lemma LengthIsBigEndian(bits: nat)
    requires bits < TWO64
    ensures |LengthBytes(bits)| == 8 && DigitsValue(LengthDigits(bits, 8)) == bits
    ensures forall i :: 0 <= i < 8 ==> LengthBytes(bits)[i] == LengthDigits(bits, 8)[i] as bv8
  {
    ShiftedEnds(bits);
    ShiftedNone(bits);
    LengthPrefix(bits, 8);
    var d := LengthDigits(bits, 8);
    assert d[..8] == d;
    forall i | 0 <= i < 8 ensures LengthBytes(bits)[i] == d[i] as bv8 {
      LengthByte(bits, i);
      DigitAt(bits, 8, i);
    }
  }

  lemma ShiftedEnds(bits: nat)
    requires bits < TWO64
    ensures Shifted(bits, 8) == 0
  {
    hide Shifted;
    ShiftedNone(bits);
    forall j: nat | j < 8 ensures Shifted(bits, j + 1) == Shifted(bits, j) / 256 { ShiftedOnce(bits, j); }
    assert Shifted(bits, 0 + 1) < 0x100_0000_0000_0000;
    assert Shifted(bits, 1 + 1) < 0x1_0000_0000_0000;
    assert Shifted(bits, 2 + 1) < 0x100_0000_0000;
    assert Shifted(bits, 3 + 1) < 0x1_0000_0000;
    assert Shifted(bits, 4 + 1) < 0x100_0000;
    assert Shifted(bits, 5 + 1) < 0x1_0000;
    assert Shifted(bits, 6 + 1) < 0x100;
    assert Shifted(bits, 7 + 1) == 0;
  }

  lemma ShiftedNone(bits: nat)
    ensures Shifted(bits, 0) == bits
  {
  }

  lemma {:induction false} DigitAt(bits: nat, k: nat, i: nat)
    requires i < k
    ensures LengthDigits(bits, k)[i] == Shifted(bits, k - 1 - i) % 256
    decreases k
  {
    if i > 0 { DigitAt(bits, k - 1, i - 1); }
  }

  lemma {:induction false} LengthPrefix(bits: nat, k: nat)
    requires k <= 8 && Shifted(bits, 8) == 0
    ensures DigitsValue(LengthDigits(bits, 8)[..k]) == Shifted(bits, 8 - k)
  {
    hide Shifted, LengthDigits;
    if k > 0 {
      var d := LengthDigits(bits, 8);
      LengthPrefix(bits, k - 1);
      ShiftedOnce(bits, 8 - k);
      assert d[..k][..k - 1] == d[..k - 1] && d[..k][k - 1] == d[k - 1];
      DigitAt(bits, 8, k - 1);
    }
  }

  lemma LengthByte(bits: nat, i: nat)
    requires i < 8
    ensures |LengthBytes(bits)| == 8 && LengthBytes(bits)[i] == ByteOf(bits, 7 - i)
  {
    hide ByteOf;
  }

  // ----- the constants -----

  /** The first 64 primes. */
  const PRIMES: seq<nat> :=
    [2, 3, 5, 7, 11, 13, 17, 19] +
    [23, 29, 31, 37, 41, 43, 47, 53] +
    [59, 61, 67, 71, 73, 79, 83, 89] +
    [97, 101, 103, 107, 109, 113, 127, 131] +
    [137, 139, 149, 151, 157, 163, 167, 173] +
    [179, 181, 191, 193, 197, 199, 211, 223] +
    [227, 229, 233, 239, 241, 251, 257, 263] +
    [269, 271, 277, 281, 283, 293, 307, 311]

  predicate IsPrime(n: nat) {
    n >= 2 && forall d :: 2 <= d < n ==> n % d != 0
  }

  /** Below 19 * 19, what has no factor up to 17 is prime. */
  predicate NoSmallFactor(n: nat) {
    n % 2 != 0 && n % 3 != 0 && n % 5 != 0 && n % 7 != 0 && n % 11 != 0 && n % 13 != 0 && n % 17 != 0
  }

  lemma MultipleMod(p: nat, x: nat)
    requires p > 0
    ensures (p * x) % p == 0
  {
    var q, m := p * x / p, p * x % p;
    assert p * (x - q) == m;
    assert x - q >= 1 ==> p * (x - q) >= p;
    assert x - q <= -1 ==> p * (x - q) + p <= 0;
  }

  lemma SmallFactor(n: nat, d: nat)
    requires 2 <= d < 18 && n % d == 0
    ensures !NoSmallFactor(n)
  {
    var p := if d % 2 == 0 then 2 else if d % 3 == 0 then 3 else if d % 5 == 0 then 5 else d;
    assert p in {2, 3, 5, 7, 11, 13, 17} && d % p == 0;
    FactorOfFactor(n, d, p);
  }

  lemma FactorOfFactor(n: nat, d: nat, p: nat)
    requires d > 0 && p > 0 && n % d == 0 && d % p == 0
    ensures n % p == 0
  {
    var q, e := d / p, n / d;
    assert n == p * q * e;
    assert p * q * e == p * (q * e);
    MultipleMod(p, q * e);
  }

  lemma SomeFactor(n: nat, d: nat)
    requires 2 <= d < n && 18 <= n < 324 && n % d == 0
    ensures !NoSmallFactor(n)
  {
    var e := n / d;
    assert n == d * e && n == e * d;
    if d < 18 {
      SmallFactor(n, d);
    } else {
      assert e >= 18 ==> d * e >= 18 * 18;
      assert e < 2 ==> d * e < n;
      MultipleMod(e, d);
      SmallFactor(n, e);
    }
  }

  lemma PrimeIff(n: nat)
    requires 18 <= n < 324
    ensures IsPrime(n) <==> NoSmallFactor(n)
  {
    if NoSmallFactor(n) {
      forall d | 2 <= d < n ensures n % d != 0 { if n % d == 0 { SomeFactor(n, d); } }
    }
  }

  lemma SieveTo31(n: nat)
    requires 18 <= n <= 31
    ensures NoSmallFactor(n) <==> n in {19, 23, 29, 31}
  {
  }

  lemma SieveTo45(n: nat)
    requires 32 <= n <= 45
    ensures NoSmallFactor(n) <==> n in {37, 41, 43}
  {
  }

  lemma SieveTo59(n: nat)
    requires 46 <= n <= 59
    ensures NoSmallFactor(n) <==> n in {47, 53, 59}
  {
  }

  lemma SieveTo73(n: nat)
    requires 60 <= n <= 73
    ensures NoSmallFactor(n) <==> n in {61, 67, 71, 73}
  {
  }

  lemma SieveTo87(n: nat)
    requires 74 <= n <= 87
    ensures NoSmallFactor(n) <==> n in {79, 83}
  {
  }

  lemma SieveTo101(n: nat)
    requires 88 <= n <= 101
    ensures NoSmallFactor(n) <==> n in {89, 97, 101}
  {
  }

  lemma SieveTo115(n: nat)
    requires 102 <= n <= 115
    ensures NoSmallFactor(n) <==> n in {103, 107, 109, 113}
  {
  }

  lemma SieveTo129(n: nat)
    requires 116 <= n <= 129
    ensures NoSmallFactor(n) <==> n in {127}
  {
  }

  lemma SieveTo143(n: nat)
    requires 130 <= n <= 143
    ensures NoSmallFactor(n) <==> n in {131, 137, 139}
  {
  }

  lemma SieveTo157(n: nat)
    requires 144 <= n <= 157
    ensures NoSmallFactor(n) <==> n in {149, 151, 157}
  {
  }

  lemma SieveTo171(n: nat)
    requires 158 <= n <= 171
    ensures NoSmallFactor(n) <==> n in {163, 167}
  {
  }

  lemma SieveTo185(n: nat)
    requires 172 <= n <= 185
    ensures NoSmallFactor(n) <==> n in {173, 179, 181}
  {
  }

  lemma SieveTo199(n: nat)
    requires 186 <= n <= 199
    ensures NoSmallFactor(n) <==> n in {191, 193, 197, 199}
  {
  }

  lemma SieveTo213(n: nat)
    requires 200 <= n <= 213
    ensures NoSmallFactor(n) <==> n in {211}
  {
  }

  lemma SieveTo227(n: nat)
    requires 214 <= n <= 227
    ensures NoSmallFactor(n) <==> n in {223, 227}
  {
  }

  lemma SieveTo241(n: nat)
    requires 228 <= n <= 241
    ensures NoSmallFactor(n) <==> n in {229, 233, 239, 241}
  {
  }

  lemma SieveTo255(n: nat)
    requires 242 <= n <= 255
    ensures NoSmallFactor(n) <==> n in {251}
  {
  }

  lemma SieveTo269(n: nat)
    requires 256 <= n <= 269
    ensures NoSmallFactor(n) <==> n in {257, 263, 269}
  {
  }

  lemma SieveTo283(n: nat)
    requires 270 <= n <= 283
    ensures NoSmallFactor(n) <==> n in {271, 277, 281, 283}
  {
  }

  lemma SieveTo297(n: nat)
    requires 284 <= n <= 297
    ensures NoSmallFactor(n) <==> n in {293}
  {
  }

  lemma SieveTo311(n: nat)
    requires 298 <= n <= 311
    ensures NoSmallFactor(n) <==> n in {307, 311}
  {
  }

  lemma PrimesTo17(n: nat)
    requires 2 <= n <= 17
    ensures IsPrime(n) <==> n in {2, 3, 5, 7, 11, 13, 17}
  {
    if n == 9 || n == 15 { assert n % 3 == 0; } else if n % 2 == 0 { assert n > 2 ==> !IsPrime(n); }
  }

  lemma PrimesSize()
    ensures |PRIMES| == 64
  {
  }

  lemma PrimesAscend()
    ensures forall k :: 0 <= k < 63 ==> PRIMES[k] < PRIMES[k + 1]
  {
  }

  lemma PrimesListedTo73(n: nat)
    requires 2 <= n <= 73
    ensures IsPrime(n) <==> n in PRIMES
  {
    hide IsPrime, NoSmallFactor;
    if n <= 17 { PrimesTo17(n); } else { PrimeIff(n); }
    if 18 <= n <= 31 { SieveTo31(n); }
    else if 31 < n <= 45 { SieveTo45(n); }
    else if 45 < n <= 59 { SieveTo59(n); }
    else if n > 59 { SieveTo73(n); }
  }

  lemma PrimesListedTo129(n: nat)
    requires 74 <= n <= 129
    ensures IsPrime(n) <==> n in PRIMES
  {
    hide IsPrime, NoSmallFactor;
    PrimeIff(n);
    if n <= 87 { SieveTo87(n); }
    else if n <= 101 { SieveTo101(n); }
    else if n <= 115 { SieveTo115(n); }
    else { SieveTo129(n); }
  }

  lemma PrimesListedTo185(n: nat)
    requires 130 <= n <= 185
    ensures IsPrime(n) <==> n in PRIMES
  {
    hide IsPrime, NoSmallFactor;
    PrimeIff(n);
    if n <= 143 { SieveTo143(n); }
    else if n <= 157 { SieveTo157(n); }
    else if n <= 171 { SieveTo171(n); }
    else { SieveTo185(n); }
  }

  lemma PrimesListedTo241(n: nat)
    requires 186 <= n <= 241
    ensures IsPrime(n) <==> n in PRIMES
  {
    hide IsPrime, NoSmallFactor;
    PrimeIff(n);
    if n <= 199 { SieveTo199(n); }
    else if n <= 213 { SieveTo213(n); }
    else if n <= 227 { SieveTo227(n); }
    else { SieveTo241(n); }
  }

  lemma PrimesListedTo297(n: nat)
    requires 242 <= n <= 297
    ensures IsPrime(n) <==> n in PRIMES
  {
    hide IsPrime, NoSmallFactor;
    PrimeIff(n);
    if n <= 255 { SieveTo255(n); }
    else if n <= 269 { SieveTo269(n); }
    else if n <= 283 { SieveTo283(n); }
    else { SieveTo297(n); }
  }

  lemma PrimesListedTo311(n: nat)
    requires 298 <= n <= 311
    ensures IsPrime(n) <==> n in PRIMES
  {
    hide IsPrime, NoSmallFactor;
    PrimeIff(n);
    { SieveTo311(n); }
  }

  /** Exactly the primes up to 311, in ascending order. */
  lemma PrimesAreFirst()
    ensures |PRIMES| == 64 && forall n :: 2 <= n <= 311 ==> (IsPrime(n) <==> n in PRIMES)
    ensures forall k :: 0 <= k < 63 ==> PRIMES[k] < PRIMES[k + 1]
  {
    PrimesSize();
    PrimesAscend();
    forall n | 2 <= n <= 311 ensures IsPrime(n) <==> n in PRIMES {
      if n <= 73 { PrimesListedTo73(n); }
      else if n <= 129 { PrimesListedTo129(n); }
      else if n <= 185 { PrimesListedTo185(n); }
      else if n <= 241 { PrimesListedTo241(n); }
      else if n <= 297 { PrimesListedTo297(n); }
      else { PrimesListedTo311(n); }
    }
  }

  /** The integer part of the cube root of `n` times 2^32. */
  predicate CubeRoot(r: nat, n: nat) {
    r * r * r <= n * 0x1_0000_0000_0000_0000_0000_0000 < (r + 1) * (r + 1) * (r + 1)
  }

  predicate SquareRoot(r: nat, n: nat) {
    r * r <= n * 0x1_0000_0000_0000_0000 < (r + 1) * (r + 1)
  }

  /** The first 32 bits of the fraction of the cube root. */
  ghost predicate CubeFraction(k: bv32, n: nat) {
    exists whole: nat :: CubeRoot(whole * 0x1_0000_0000 + k as nat, n)
  }

  ghost predicate SquareFraction(k: bv32, n: nat) {
    exists whole: nat :: SquareRoot(whole * 0x1_0000_0000 + k as nat, n)
  }

  lemma CubeFractionIs(k: bv32, n: nat, whole: nat)
    requires CubeRoot(whole * 0x1_0000_0000 + k as nat, n)
    ensures CubeFraction(k, n)
  {
  }

  lemma SquareFractionIs(k: bv32, n: nat, whole: nat)
    requires SquareRoot(whole * 0x1_0000_0000 + k as nat, n)
    ensures SquareFraction(k, n)
  {
  }

  lemma Constants0()
    ensures CubeFraction(0x428a2f98, 2)
    ensures CubeFraction(0x71374491, 3)
    ensures CubeFraction(0xb5c0fbcf, 5)
    ensures CubeFraction(0xe9b5dba5, 7)
  {
    hide CubeFraction;
    CubeFractionIs(0x428a2f98, 2, 1);
    CubeFractionIs(0x71374491, 3, 1);
    CubeFractionIs(0xb5c0fbcf, 5, 1);
    CubeFractionIs(0xe9b5dba5, 7, 1);
  }

  lemma Constants4()
    ensures CubeFraction(0x3956c25b, 11)
    ensures CubeFraction(0x59f111f1, 13)
    ensures CubeFraction(0x923f82a4, 17)
    ensures CubeFraction(0xab1c5ed5, 19)
  {
    hide CubeFraction;
    CubeFractionIs(0x3956c25b, 11, 2);
    CubeFractionIs(0x59f111f1, 13, 2);
    CubeFractionIs(0x923f82a4, 17, 2);
    CubeFractionIs(0xab1c5ed5, 19, 2);
  }

  lemma Constants8()
    ensures CubeFraction(0xd807aa98, 23)
    ensures CubeFraction(0x12835b01, 29)
    ensures CubeFraction(0x243185be, 31)
    ensures CubeFraction(0x550c7dc3, 37)
  {
    hide CubeFraction;
    CubeFractionIs(0xd807aa98, 23, 2);
    CubeFractionIs(0x12835b01, 29, 3);
    CubeFractionIs(0x243185be, 31, 3);
    CubeFractionIs(0x550c7dc3, 37, 3);
  }

  lemma Constants12()
    ensures CubeFraction(0x72be5d74, 41)
    ensures CubeFraction(0x80deb1fe, 43)
    ensures CubeFraction(0x9bdc06a7, 47)
    ensures CubeFraction(0xc19bf174, 53)
  {
    hide CubeFraction;
    CubeFractionIs(0x72be5d74, 41, 3);
    CubeFractionIs(0x80deb1fe, 43, 3);
    CubeFractionIs(0x9bdc06a7, 47, 3);
    CubeFractionIs(0xc19bf174, 53, 3);
  }

  lemma Constants16()
    ensures CubeFraction(0xe49b69c1, 59)
    ensures CubeFraction(0xefbe4786, 61)
    ensures CubeFraction(0x0fc19dc6, 67)
    ensures CubeFraction(0x240ca1cc, 71)
  {
    hide CubeFraction;
    CubeFractionIs(0xe49b69c1, 59, 3);
    CubeFractionIs(0xefbe4786, 61, 3);
    CubeFractionIs(0x0fc19dc6, 67, 4);
    CubeFractionIs(0x240ca1cc, 71, 4);
  }

  lemma Constants20()
    ensures CubeFraction(0x2de92c6f, 73)
    ensures CubeFraction(0x4a7484aa, 79)
    ensures CubeFraction(0x5cb0a9dc, 83)
    ensures CubeFraction(0x76f988da, 89)
  {
    hide CubeFraction;
    CubeFractionIs(0x2de92c6f, 73, 4);
    CubeFractionIs(0x4a7484aa, 79, 4);
    CubeFractionIs(0x5cb0a9dc, 83, 4);
    CubeFractionIs(0x76f988da, 89, 4);
  }

  lemma Constants24()
    ensures CubeFraction(0x983e5152, 97)
    ensures CubeFraction(0xa831c66d, 101)
    ensures CubeFraction(0xb00327c8, 103)
    ensures CubeFraction(0xbf597fc7, 107)
  {
    hide CubeFraction;
    CubeFractionIs(0x983e5152, 97, 4);
    CubeFractionIs(0xa831c66d, 101, 4);
    CubeFractionIs(0xb00327c8, 103, 4);
    CubeFractionIs(0xbf597fc7, 107, 4);
  }

  lemma Constants28()
    ensures CubeFraction(0xc6e00bf3, 109)
    ensures CubeFraction(0xd5a79147, 113)
    ensures CubeFraction(0x06ca6351, 127)
    ensures CubeFraction(0x14292967, 131)
  {
    hide CubeFraction;
    CubeFractionIs(0xc6e00bf3, 109, 4);
    CubeFractionIs(0xd5a79147, 113, 4);
    CubeFractionIs(0x06ca6351, 127, 5);
    CubeFractionIs(0x14292967, 131, 5);
  }

  lemma Constants32()
    ensures CubeFraction(0x27b70a85, 137)
    ensures CubeFraction(0x2e1b2138, 139)
    ensures CubeFraction(0x4d2c6dfc, 149)
    ensures CubeFraction(0x53380d13, 151)
  {
    hide CubeFraction;
    CubeFractionIs(0x27b70a85, 137, 5);
    CubeFractionIs(0x2e1b2138, 139, 5);
    CubeFractionIs(0x4d2c6dfc, 149, 5);
    CubeFractionIs(0x53380d13, 151, 5);
  }

  lemma Constants36()
    ensures CubeFraction(0x650a7354, 157)
    ensures CubeFraction(0x766a0abb, 163)
    ensures CubeFraction(0x81c2c92e, 167)
    ensures CubeFraction(0x92722c85, 173)
  {
    hide CubeFraction;
    CubeFractionIs(0x650a7354, 157, 5);
    CubeFractionIs(0x766a0abb, 163, 5);
    CubeFractionIs(0x81c2c92e, 167, 5);
    CubeFractionIs(0x92722c85, 173, 5);
  }

  lemma Constants40()
    ensures CubeFraction(0xa2bfe8a1, 179)
    ensures CubeFraction(0xa81a664b, 181)
    ensures CubeFraction(0xc24b8b70, 191)
    ensures CubeFraction(0xc76c51a3, 193)
  {
    hide CubeFraction;
    CubeFractionIs(0xa2bfe8a1, 179, 5);
    CubeFractionIs(0xa81a664b, 181, 5);
    CubeFractionIs(0xc24b8b70, 191, 5);
    CubeFractionIs(0xc76c51a3, 193, 5);
  }

  lemma Constants44()
    ensures CubeFraction(0xd192e819, 197)
    ensures CubeFraction(0xd6990624, 199)
    ensures CubeFraction(0xf40e3585, 211)
    ensures CubeFraction(0x106aa070, 223)
  {
    hide CubeFraction;
    CubeFractionIs(0xd192e819, 197, 5);
    CubeFractionIs(0xd6990624, 199, 5);
    CubeFractionIs(0xf40e3585, 211, 5);
    CubeFractionIs(0x106aa070, 223, 6);
  }

  lemma Constants48()
    ensures CubeFraction(0x19a4c116, 227)
    ensures CubeFraction(0x1e376c08, 229)
    ensures CubeFraction(0x2748774c, 233)
    ensures CubeFraction(0x34b0bcb5, 239)
  {
    hide CubeFraction;
    CubeFractionIs(0x19a4c116, 227, 6);
    CubeFractionIs(0x1e376c08, 229, 6);
    CubeFractionIs(0x2748774c, 233, 6);
    CubeFractionIs(0x34b0bcb5, 239, 6);
  }

  lemma Constants52()
    ensures CubeFraction(0x391c0cb3, 241)
    ensures CubeFraction(0x4ed8aa4a, 251)
    ensures CubeFraction(0x5b9cca4f, 257)
    ensures CubeFraction(0x682e6ff3, 263)
  {
    hide CubeFraction;
    CubeFractionIs(0x391c0cb3, 241, 6);
    CubeFractionIs(0x4ed8aa4a, 251, 6);
    CubeFractionIs(0x5b9cca4f, 257, 6);
    CubeFractionIs(0x682e6ff3, 263, 6);
  }

  lemma Constants56()
    ensures CubeFraction(0x748f82ee, 269)
    ensures CubeFraction(0x78a5636f, 271)
    ensures CubeFraction(0x84c87814, 277)
    ensures CubeFraction(0x8cc70208, 281)
  {
    hide CubeFraction;
    CubeFractionIs(0x748f82ee, 269, 6);
    CubeFractionIs(0x78a5636f, 271, 6);
    CubeFractionIs(0x84c87814, 277, 6);
    CubeFractionIs(0x8cc70208, 281, 6);
  }

  lemma Constants60()
    ensures CubeFraction(0x90befffa, 283)
    ensures CubeFraction(0xa4506ceb, 293)
    ensures CubeFraction(0xbef9a3f7, 307)
    ensures CubeFraction(0xc67178f2, 311)
  {
    hide CubeFraction;
    CubeFractionIs(0x90befffa, 283, 6);
    CubeFractionIs(0xa4506ceb, 293, 6);
    CubeFractionIs(0xbef9a3f7, 307, 6);
    CubeFractionIs(0xc67178f2, 311, 6);
  }

  lemma ConstantsFrom0(t: nat)
    requires 0 <= t < 16
    ensures |K| == 64 && |PRIMES| == 64 && CubeFraction(K[t], PRIMES[t])
  {
    hide CubeFraction;
    Constants0();
    Constants4();
    Constants8();
    Constants12();
  }

  lemma ConstantsFrom16(t: nat)
    requires 16 <= t < 32
    ensures |K| == 64 && |PRIMES| == 64 && CubeFraction(K[t], PRIMES[t])
  {
    hide CubeFraction;
    Constants16();
    Constants20();
    Constants24();
    Constants28();
  }

  lemma ConstantsFrom32(t: nat)
    requires 32 <= t < 48
    ensures |K| == 64 && |PRIMES| == 64 && CubeFraction(K[t], PRIMES[t])
  {
    hide CubeFraction;
    Constants32();
    Constants36();
    Constants40();
    Constants44();
  }

  lemma ConstantsFrom48(t: nat)
    requires 48 <= t < 64
    ensures |K| == 64 && |PRIMES| == 64 && CubeFraction(K[t], PRIMES[t])
  {
    hide CubeFraction;
    Constants48();
    Constants52();
    Constants56();
    Constants60();
  }

  /** Each round's constant is the fraction of the cube root of its prime. */
  lemma ConstantsAreCubeRoots(t: nat)
    requires t < 64
    ensures |K| == 64 && |PRIMES| == 64 && CubeFraction(K[t], PRIMES[t])
  {
    hide CubeFraction;
    if t < 16 { ConstantsFrom0(t); } else if t < 32 { ConstantsFrom16(t); } else if t < 48 { ConstantsFrom32(t); } else { ConstantsFrom48(t); }
  }

  /** The initial hash value: the fractions of the square roots of the first eight primes. */
  lemma InitialIsSquareRoots()
    ensures SquareFraction(INITIAL.a, 2)
    ensures SquareFraction(INITIAL.b, 3)
    ensures SquareFraction(INITIAL.c, 5)
    ensures SquareFraction(INITIAL.d, 7)
    ensures SquareFraction(INITIAL.e, 11)
    ensures SquareFraction(INITIAL.f, 13)
    ensures SquareFraction(INITIAL.g, 17)
    ensures SquareFraction(INITIAL.h, 19)
  {
    hide SquareFraction;
    SquareFractionIs(0x6a09e667, 2, 1);
    SquareFractionIs(0xbb67ae85, 3, 1);
    SquareFractionIs(0x3c6ef372, 5, 2);
    SquareFractionIs(0xa54ff53a, 7, 2);
    SquareFractionIs(0x510e527f, 11, 3);
    SquareFractionIs(0x9b05688c, 13, 3);
    SquareFractionIs(0x1f83d9ab, 17, 4);
    SquareFractionIs(0x5be0cd19, 19, 4);
  }
}
