/**
 SHA-256, computed by streaming: bytes go through a 64-byte buffer, and the padding is written into it at the end.

 The functions follow FIPS 180-4: the padding of section 5.1.1, the message schedule and the rounds of section 6.2.2.
 Class `Sha256` computes exactly that hash of everything it was fed, however it was fed.
 */
module Sha256Hash {

  type Bytes = seq<bv8>

  // ----- the standard -----

  function Rotr(x: bv32, n: bv32): bv32
    requires 0 < n < 32
  {
    (x >> n) | (x << (32 - n))
  }

  /** Addition modulo 2^32. */
  function Add(x: bv32, y: bv32): bv32 {
    x + y
  }

  function FourSum(w: bv32, x: bv32, y: bv32, z: bv32): bv32 {
    w + x + y + z
  }

  function Ch(x: bv32, y: bv32, z: bv32): bv32 {
    (x & y) ^ ((!x) & z)
  }

  function Maj(x: bv32, y: bv32, z: bv32): bv32 {
    (x & y) ^ (x & z) ^ (y & z)
  }

  function BigSigma0(x: bv32): bv32 {
    Rotr(x, 2) ^ Rotr(x, 13) ^ Rotr(x, 22)
  }

  function BigSigma1(x: bv32): bv32 {
    Rotr(x, 6) ^ Rotr(x, 11) ^ Rotr(x, 25)
  }

  function SmallSigma0(x: bv32): bv32 {
    Rotr(x, 7) ^ Rotr(x, 18) ^ (x >> 3)
  }

  function SmallSigma1(x: bv32): bv32 {
    Rotr(x, 17) ^ Rotr(x, 19) ^ (x >> 10)
  }

  const K: seq<bv32> :=
    [0x428a2f98, 0x71374491, 0xb5c0fbcf, 0xe9b5dba5, 0x3956c25b, 0x59f111f1, 0x923f82a4, 0xab1c5ed5] +
    [0xd807aa98, 0x12835b01, 0x243185be, 0x550c7dc3, 0x72be5d74, 0x80deb1fe, 0x9bdc06a7, 0xc19bf174] +
    [0xe49b69c1, 0xefbe4786, 0x0fc19dc6, 0x240ca1cc, 0x2de92c6f, 0x4a7484aa, 0x5cb0a9dc, 0x76f988da] +
    [0x983e5152, 0xa831c66d, 0xb00327c8, 0xbf597fc7, 0xc6e00bf3, 0xd5a79147, 0x06ca6351, 0x14292967] +
    [0x27b70a85, 0x2e1b2138, 0x4d2c6dfc, 0x53380d13, 0x650a7354, 0x766a0abb, 0x81c2c92e, 0x92722c85] +
    [0xa2bfe8a1, 0xa81a664b, 0xc24b8b70, 0xc76c51a3, 0xd192e819, 0xd6990624, 0xf40e3585, 0x106aa070] +
    [0x19a4c116, 0x1e376c08, 0x2748774c, 0x34b0bcb5, 0x391c0cb3, 0x4ed8aa4a, 0x5b9cca4f, 0x682e6ff3] +
    [0x748f82ee, 0x78a5636f, 0x84c87814, 0x8cc70208, 0x90befffa, 0xa4506ceb, 0xbef9a3f7, 0xc67178f2]

  /** A hash value, or the eight working variables. */
  datatype Words = Words(a: bv32, b: bv32, c: bv32, d: bv32, e: bv32, f: bv32, g: bv32, h: bv32)

  const INITIAL := Words(0x6a09e667, 0xbb67ae85, 0x3c6ef372, 0xa54ff53a, 0x510e527f, 0x9b05688c, 0x1f83d9ab, 0x5be0cd19)

  function BigEndian(b0: bv8, b1: bv8, b2: bv8, b3: bv8): bv32 {
    ((b0 as bv32) << 24) | ((b1 as bv32) << 16) | ((b2 as bv32) << 8) | (b3 as bv32)
  }

  /** Word `t` of a block. */
  function BlockWord(block: Bytes, t: nat): bv32
    requires |block| == 64 && t < 16
  {
    BigEndian(block[4 * t], block[4 * t + 1], block[4 * t + 2], block[4 * t + 3])
  }

  /** The message schedule. */
  function Schedule(block: Bytes, t: nat): bv32
    requires |block| == 64
  {
    if t < 16 then BlockWord(block, t)
    else
      FourSum(SmallSigma1(Schedule(block, t - 2)), Schedule(block, t - 7), SmallSigma0(Schedule(block, t - 15)), Schedule(block, t - 16))
  }

  function Round(v: Words, k: bv32, w: bv32): Words {
    var t1 := Add(Add(Add(Add(v.h, BigSigma1(v.e)), Ch(v.e, v.f, v.g)), k), w);
    var t2 := Add(BigSigma0(v.a), Maj(v.a, v.b, v.c));
    Words(Add(t1, t2), v.a, v.b, v.c, Add(v.d, t1), v.e, v.f, v.g)
  }

  function Rounds(v: Words, block: Bytes, t: nat): Words
    requires |block| == 64 && t <= 64
  {
    if t == 0 then v else Round(Rounds(v, block, t - 1), K[t - 1], Schedule(block, t - 1))
  }

  function Plus(x: Words, y: Words): Words {
    Words(Add(x.a, y.a), Add(x.b, y.b), Add(x.c, y.c), Add(x.d, y.d),
          Add(x.e, y.e), Add(x.f, y.f), Add(x.g, y.g), Add(x.h, y.h))
  }

  function Compress(hash: Words, block: Bytes): Words
    requires |block| == 64
  {
    Plus(hash, Rounds(hash, block, 64))
  }

  /** The hash value after all whole blocks. */
  function HashBlocks(hash: Words, bytes: Bytes): Words
    decreases |bytes|
  {
    if |bytes| < 64 then hash else HashBlocks(Compress(hash, bytes[..64]), bytes[64..])
  }

  /** Behind the message, the mark and these zeros, eight bytes are left of a block. */
  predicate LeavesRoom(length: nat, zeros: nat) {
    (length + 1 + zeros) % 64 == 56
  }

  /** The smallest number of zero bytes that leaves room for the length. */
  function ZeroCount(length: nat): (z: nat)
    ensures LeavesRoom(length, z) && forall y: nat :: y < z ==> !LeavesRoom(length, y)
  {
    (119 - length % 64) % 64
  }

  function Zeros(n: nat): Bytes {
    seq(n, _ => 0)
  }

  const TWO64: nat := 0x1_0000_0000_0000_0000

  function Shifted(n: nat, j: nat): nat {
    if j == 0 then n else Shifted(n / 256, j - 1)
  }

  /** Byte `j` of a number, the lowest being byte 0. */
  function ByteOf(n: nat, j: nat): bv8 {
    (Shifted(n, j) % 256) as bv8
  }

  /** A 64-bit number, big-endian. */
  function LengthBytes(bits: nat): Bytes {
    [ByteOf(bits, 7), ByteOf(bits, 6), ByteOf(bits, 5), ByteOf(bits, 4),
     ByteOf(bits, 3), ByteOf(bits, 2), ByteOf(bits, 1), ByteOf(bits, 0)]
  }

  function Padded(message: Bytes): Bytes {
    message + [0x80] + Zeros(ZeroCount(|message|)) + LengthBytes(8 * |message|)
  }

  function Hash(message: Bytes): Words {
    HashBlocks(INITIAL, Padded(message))
  }

  function HexDigit(x: bv32): char
    requires x < 16
  {
    var n := x as nat;
    if n < 10 then '0' + n as char else 'a' + (n - 10) as char
  }

  /** Eight hexadecimal digits. */
  function HexWord(x: bv32): string {
    [HexDigit((x >> 28) & 15), HexDigit((x >> 24) & 15), HexDigit((x >> 20) & 15), HexDigit((x >> 16) & 15),
     HexDigit((x >> 12) & 15), HexDigit((x >> 8) & 15), HexDigit((x >> 4) & 15), HexDigit(x & 15)]
  }

  function HexHash(h: Words): string {
    HexWord(h.a) + HexWord(h.b) + HexWord(h.c) + HexWord(h.d) + HexWord(h.e) + HexWord(h.f) + HexWord(h.g) + HexWord(h.h)
  }

  // ----- blocks -----

  lemma {:induction false} HashAppend(hash: Words, a: Bytes, b: Bytes)
    requires |a| % 64 == 0
    decreases |a|
    ensures HashBlocks(hash, a + b) == HashBlocks(HashBlocks(hash, a), b)
  {
    hide Compress;
    if a == [] {
      assert a + b == b;
    } else {
      assert (a + b)[..64] == a[..64] && (a + b)[64..] == a[64..] + b;
      HashAppend(Compress(hash, a[..64]), a[64..], b);
    }
  }

  lemma SumOrder(w16: bv32, s0: bv32, w7: bv32, s1: bv32)
    ensures w16 + s0 + w7 + s1 == s1 + w7 + s0 + w16
  {
  }

  /** The words of the schedule may be added in another order. */
  lemma ScheduleOrder(w16: bv32, s0: bv32, w7: bv32, s1: bv32)
    ensures FourSum(w16, s0, w7, s1) == FourSum(s1, w7, s0, w16)
  {
    SumOrder(w16, s0, w7, s1);
  }

  lemma OneBlock(hash: Words, block: Bytes)
    requires |block| == 64
    ensures HashBlocks(hash, block) == Compress(hash, block)
  {
    assert block[..64] == block && block[64..] == [];
  }

  /** The padding behind the whole blocks of a message: what is left of it, the mark, zeros and the length. */
  function PaddedTail(message: Bytes, whole: nat): Bytes
    requires whole <= |message|
  {
    message[whole..] + [0x80] + Zeros(ZeroCount(|message|)) + LengthBytes(8 * |message|)
  }

  lemma ZerosFit(length: nat, whole: nat)
    requires whole <= length < whole + 64 && whole % 64 == 0
    ensures ZeroCount(length) == if length - whole < 56 then 55 - (length - whole) else 119 - (length - whole)
  {
  }

  lemma TailSize(message: Bytes, whole: nat)
    requires whole <= |message| < whole + 64 && whole % 64 == 0
    ensures |PaddedTail(message, whole)| == if |message| - whole < 56 then 64 else 128
  {
    hide ZeroCount, LengthBytes;
    ZerosFit(|message|, whole);
    EightBytes(8 * |message|);
  }

  lemma EightBytes(n: nat)
    ensures |LengthBytes(n)| == 8
  {
  }

  /** The padded message is made of whole blocks, and of no more than the mark and the length need. */
  lemma PaddedIsShortest(message: Bytes)
    ensures |Padded(message)| % 64 == 0 && message <= Padded(message)
    ensures |message| + 9 <= |Padded(message)| < |message| + 9 + 64
  {
    var whole := |message| - |message| % 64;
    TailSize(message, whole);
    hide ZeroCount, LengthBytes, Zeros;
    assert message == message[..whole] + message[whole..];
    assert Padded(message) == message[..whole] + PaddedTail(message, whole);
    assert Padded(message)[..|message|] == message;
  }

  lemma TailHashes(message: Bytes, whole: nat)
    requires whole <= |message| && whole % 64 == 0
    ensures Hash(message) == HashBlocks(HashBlocks(INITIAL, message[..whole]), PaddedTail(message, whole))
  {
    hide HashBlocks, ZeroCount, LengthBytes, Zeros;
    assert message == message[..whole] + message[whole..];
    assert Padded(message) == message[..whole] + PaddedTail(message, whole);
    HashAppend(INITIAL, message[..whole], PaddedTail(message, whole));
  }

  // ----- streaming -----

  class Sha256 {
    const buffer: array<bv8>
    var bufferLength: nat
    var bitLength: nat
    var state: Words
    /** Everything since the last reset. */
    ghost var message: Bytes

    ghost predicate Valid()
      reads this, buffer
    {
      && buffer.Length == 64 && bufferLength < 64 && bufferLength == |message| % 64
      && buffer[..bufferLength] == message[|message| - bufferLength..]
      && bitLength == 8 * (|message| - bufferLength) % TWO64
      && state == HashBlocks(INITIAL, message[..|message| - bufferLength])
    }

    constructor ()
      ensures Valid() && message == [] && fresh(buffer)
    {
      buffer := new bv8[64](_ => 0);
      bufferLength, bitLength, state, message := 0, 0, INITIAL, [];
    }

    method Reset()
      requires buffer.Length == 64
      modifies this
      ensures Valid() && message == []
    {
      bufferLength, bitLength, state, message := 0, 0, INITIAL, [];
      assert message[..0] == [];
    }

    method Update(data: Bytes)
      requires Valid()
      modifies this, buffer
      ensures Valid() && message == old(message) + data
    {
      for i := 0 to |data|
        invariant Valid() && message == old(message) + data[..i]
      {
        UpdateByte(data[i]);
        assert data[..i + 1] == data[..i] + [data[i]];
      }
      assert data[..|data|] == data;
    }

    method UpdateByte(x: bv8)
      requires Valid()
      modifies this, buffer
      ensures Valid() && message == old(message) + [x]
    {
      hide HashBlocks, Compress;
      ghost var whole := |message| - bufferLength;
      ghost var start := state;
      buffer[bufferLength] := x;
      bufferLength := bufferLength + 1;
      message := message + [x];
      assert message[..whole] == old(message)[..whole];
      assert buffer[..bufferLength] == message[whole..];
      OneMore(whole, bufferLength - 1);
      if bufferLength == 64 {
        assert buffer[..] == message[whole..];
        Transform();
        bitLength := (bitLength + 512) % TWO64;
        bufferLength := 0;
        WholeBlock(start, message, whole);
      }
    }

    static lemma OneMore(whole: nat, rest: nat)
      requires rest < 64 && rest == (whole + rest) % 64
      ensures whole % 64 == 0
      ensures (whole + rest + 1) % 64 == if rest == 63 then 0 else rest + 1
    {
    }

    /** One more whole block. */
    static lemma WholeBlock(hash: Words, bytes: Bytes, whole: nat)
      requires whole % 64 == 0 && |bytes| == whole + 64 && hash == HashBlocks(INITIAL, bytes[..whole])
      ensures HashBlocks(INITIAL, bytes[..|bytes|]) == Compress(hash, bytes[whole..])
      ensures (8 * whole % TWO64 + 512) % TWO64 == 8 * |bytes| % TWO64
    {
      hide Compress;
      assert bytes[..|bytes|] == bytes[..whole] + bytes[whole..];
      HashAppend(INITIAL, bytes[..whole], bytes[whole..]);
      OneBlock(hash, bytes[whole..]);
    }

    /** Takes the block in the buffer into the hash value. */
    method Transform()
      requires buffer.Length == 64
      modifies this`state
      ensures state == Compress(old(state), buffer[..])
    {
      hide Round, Schedule;
      ghost var block := buffer[..];
      var w := MakeSchedule();
      var v := state;
      for i := 0 to 64
        invariant v == Rounds(old(state), block, i) && state == old(state) && buffer[..] == block
      {
        v := OneRound(v, K[i], w[i]);
      }
      state := Plus(state, v);
    }

    method MakeSchedule() returns (w: seq<bv32>)
      requires buffer.Length == 64
      ensures |w| == 64 && forall j :: 0 <= j < 64 ==> w[j] == Schedule(buffer[..], j)
    {
      hide BigEndian, SmallSigma0, SmallSigma1, FourSum;
      ghost var block := buffer[..];
      w := [];
      for i := 0 to 16
        invariant |w| == i && forall j :: 0 <= j < i ==> w[j] == Schedule(block, j)
      {
        var word := BigEndian(buffer[4 * i], buffer[4 * i + 1], buffer[4 * i + 2], buffer[4 * i + 3]);
        w := w + [word];
      }
      for i := 16 to 64
        invariant |w| == i && forall j :: 0 <= j < i ==> w[j] == Schedule(block, j)
      {
        var s0, s1 := SmallSigma0(w[i - 15]), SmallSigma1(w[i - 2]);
        ScheduleOrder(w[i - 16], s0, w[i - 7], s1);
        w := w + [FourSum(w[i - 16], s0, w[i - 7], s1)];
      }
    }

    static method OneRound(v: Words, k: bv32, w: bv32) returns (r: Words)
      ensures r == Round(v, k, w)
    {
      hide BigSigma0, BigSigma1, Ch, Maj, Add;
      var s1 := BigSigma1(v.e);
      var ch := Ch(v.e, v.f, v.g);
      var t1 := Add(Add(Add(Add(v.h, s1), ch), k), w);
      var s0 := BigSigma0(v.a);
      var maj := Maj(v.a, v.b, v.c);
      var t2 := Add(s0, maj);
      r := Words(Add(t1, t2), v.a, v.b, v.c, Add(v.d, t1), v.e, v.f, v.g);
    }

    /** The hash of everything since the last reset, as hexadecimal text; the object starts afresh. */
    method Finish() returns (text: string)
      requires Valid()
      modifies this, buffer
      ensures |old(message)| < 0x2000_0000_0000_0000 ==> text == HexHash(Hash(old(message)))
      ensures Valid() && message == []
    {
      hide HashBlocks, Compress, ZeroCount, LengthBytes, Hash, HexHash, PaddedTail;
      ghost var whole, start, length := |message| - bufferLength, state, bufferLength;
      OneMore(whole, length);
      TailHashes(message, whole);
      var i, first := FirstBlock(whole);
      Fill(i, 56);
      bitLength := (bitLength + bufferLength * 8) % TWO64;
      PutLength();
      if |message| < 0x2000_0000_0000_0000 {
        LengthFits(|message|, length);
        LastBlock(message, whole, first, buffer[..]);
        TwoBlocks(start, first, buffer[..]);
      }
      Transform();
      text := HexHash(state);
      Reset();
    }

    /** Puts the mark behind the message; if the length does not fit behind it, fills and takes that block first. */
    method FirstBlock(ghost whole: nat) returns (i: nat, ghost first: Bytes)
      requires Valid() && whole == |message| - bufferLength
      modifies this`state, buffer
      ensures i == if bufferLength < 56 then bufferLength + 1 else 0
      ensures bufferLength < 56 ==> first == [] && state == old(state) && buffer[..bufferLength + 1] == message[whole..] + [0x80]
      ensures bufferLength >= 56 ==>
        first == message[whole..] + [0x80] + Zeros(63 - bufferLength) && state == Compress(old(state), first)
    {
      hide HashBlocks, Compress;
      first := [];
      i := bufferLength;
      buffer[i] := 0x80;
      i := i + 1;
      assert buffer[..i] == message[whole..] + [0x80];
      if i > 56 {
        Fill(i, 64);
        first := buffer[..];
        assert first == message[whole..] + [0x80] + Zeros(63 - bufferLength);
        Transform();
        i := 0;
      }
    }

    /** The blocks taken at the end are the padded rest of the message. */
    static lemma LastBlock(message: Bytes, whole: nat, first: Bytes, last: Bytes)
      requires whole <= |message| < whole + 64 && whole % 64 == 0 && |last| == 64
      requires last[56..] == LengthBytes(8 * |message|)
      requires var rest := |message| - whole;
               if rest < 56 then first == [] && last[..56] == message[whole..] + [0x80] + Zeros(55 - rest)
               else first == message[whole..] + [0x80] + Zeros(63 - rest) && last[..56] == Zeros(56)
      ensures first + last == PaddedTail(message, whole)
      ensures first == [] || |first| == 64
    {
      hide ZeroCount, LengthBytes;
      ZerosFit(|message|, whole);
      EightBytes(8 * |message|);
      var rest := |message| - whole;
      assert last == last[..56] + last[56..];
      if rest >= 56 { assert Zeros(63 - rest) + Zeros(56) == Zeros(119 - rest); }
    }

    /** Zero bytes from index `from` up to `to`. */
    method Fill(from: nat, to: nat)
      requires buffer.Length == 64 && from <= to <= 64
      modifies buffer
      ensures forall k :: 0 <= k < 64 ==> buffer[k] == if from <= k < to then 0 else old(buffer[k])
    {
      for i := from to to
        invariant forall k :: 0 <= k < 64 ==> buffer[k] == if from <= k < i then 0 else old(buffer[k])
      {
        buffer[i] := 0;
      }
    }

    /** The length in bits, in the last eight bytes. */
    method PutLength()
      requires buffer.Length == 64
      modifies buffer
      ensures buffer[..] == old(buffer[..56]) + LengthBytes(bitLength)
    {
      for j := 0 to 8
        invariant forall k :: 0 <= k < 56 ==> buffer[k] == old(buffer[k])
        invariant forall k :: 56 <= k < 56 + j ==> buffer[k] == ByteOf(bitLength, 63 - k)
      {
        hide ByteOf;
        buffer[56 + j] := ByteOf(bitLength, 7 - j);
      }
      hide ByteOf;
    }

    static lemma LengthFits(length: nat, rest: nat)
      requires length < 0x2000_0000_0000_0000 && rest == length % 64
      ensures (8 * (length - rest) % TWO64 + rest * 8) % TWO64 == 8 * length
    {
    }

    static lemma TwoBlocks(hash: Words, first: Bytes, last: Bytes)
      requires (|first| == 64 || first == []) && |last| == 64
      ensures HashBlocks(hash, first + last) == Compress(if first == [] then hash else Compress(hash, first), last)
    {
      if first == [] {
        assert first + last == last;
        OneBlock(hash, last);
      } else {
        HashAppend(hash, first, last);
        OneBlock(hash, first);
        OneBlock(Compress(hash, first), last);
      }
    }
  }

  // ----- any split of a message -----

  function Joined(pieces: seq<Bytes>): Bytes {
    if pieces == [] then [] else Joined(pieces[..|pieces| - 1]) + pieces[|pieces| - 1]
  }

  /** Feeding a message in any pieces hashes their concatenation. */
  method HashPieces(pieces: seq<Bytes>) returns (text: string)
    requires |Joined(pieces)| < 0x2000_0000_0000_0000
    ensures text == HexHash(Hash(Joined(pieces)))
  {
    var sha := new Sha256();
    for i := 0 to |pieces|
      invariant fresh(sha) && fresh(sha.buffer) && sha.Valid() && sha.message == Joined(pieces[..i])
    {
      assert pieces[..i + 1][..i] == pieces[..i];
      sha.Update(pieces[i]);
    }
    assert pieces[..|pieces|] == pieces;
    text := sha.Finish();
  }
}
