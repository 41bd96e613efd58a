/**
 A published hash, computed by the functions: `abc` (FIPS 180-4, the first SHA-256 example).  It fixes the rotation
 amounts, the order of the rounds and of the working variables, and the byte order.
 */
module Sha256Example {
  import opened Sha256Hash
  import opened Sha256Standard

  const ABC: Bytes := [0x61, 0x62, 0x63]

  /** The padded message: one block. */
  const ABC_BLOCK: Bytes := ABC + [0x80] + Zeros(52) + [0, 0, 0, 0, 0, 0, 0, 24]

  lemma AbcPadded()
    ensures |ABC_BLOCK| == 64 && Padded(ABC) == ABC_BLOCK
  {
    AbcLength();
    hide LengthBytes, ZeroCount;
    assert ZeroCount(3) == 52;
    assert Padded(ABC) == ABC + [0x80] + Zeros(52) + LengthBytes(24);
  }

  lemma AbcLength()
    ensures LengthBytes(24) == [0, 0, 0, 0, 0, 0, 0, 24] && ZeroCount(3) == 52
  {
    forall j | 0 <= j < 8 ensures ByteOf(24, j) == if j == 0 then 24 else 0 { SmallByte(j); }
    hide ByteOf;
  }

  lemma SmallByte(j: nat)
    ensures ByteOf(24, j) == if j == 0 then 24 else 0
  {
    if j > 0 {
      ShiftedOnce(24, 0);
      SmallShifted(j);
    }
  }

  lemma {:induction false} SmallShifted(j: nat)
    requires j > 0
    ensures Shifted(24, j) == 0
  {
    if j == 1 { ShiftedNone(0); } else { ShiftedOnce(24, j - 1); SmallShifted(j - 1); }
  }

  lemma AbcBlockWords()
    ensures |ABC_BLOCK| == 64 && BlockWord(ABC_BLOCK, 0) == 0x61626380 && BlockWord(ABC_BLOCK, 15) == 0x00000018
    ensures forall t :: 1 <= t < 15 ==> BlockWord(ABC_BLOCK, t) == 0
  {
    assert forall k :: 4 <= k < 60 ==> ABC_BLOCK[k] == 0;
  }

  lemma ScheduleStep(block: Bytes, t: nat)
    requires |block| == 64 && 16 <= t < 64
    ensures Schedule(block, t) ==
      FourSum(SmallSigma1(Schedule(block, t - 2)), Schedule(block, t - 7), SmallSigma0(Schedule(block, t - 15)), Schedule(block, t - 16))
  {
    hide FourSum, SmallSigma0, SmallSigma1;
  }

  lemma AbcWords0()
    ensures |ABC_BLOCK| == 64
    ensures Schedule(ABC_BLOCK, 0) == 0x61626380
    ensures Schedule(ABC_BLOCK, 1) == 0x00000000
    ensures Schedule(ABC_BLOCK, 2) == 0x00000000
    ensures Schedule(ABC_BLOCK, 3) == 0x00000000
    ensures Schedule(ABC_BLOCK, 4) == 0x00000000
    ensures Schedule(ABC_BLOCK, 5) == 0x00000000
    ensures Schedule(ABC_BLOCK, 6) == 0x00000000
    ensures Schedule(ABC_BLOCK, 7) == 0x00000000
    ensures Schedule(ABC_BLOCK, 8) == 0x00000000
    ensures Schedule(ABC_BLOCK, 9) == 0x00000000
    ensures Schedule(ABC_BLOCK, 10) == 0x00000000
    ensures Schedule(ABC_BLOCK, 11) == 0x00000000
    ensures Schedule(ABC_BLOCK, 12) == 0x00000000
    ensures Schedule(ABC_BLOCK, 13) == 0x00000000
    ensures Schedule(ABC_BLOCK, 14) == 0x00000000
    ensures Schedule(ABC_BLOCK, 15) == 0x00000018
  {
    AbcBlockWords();
    hide BlockWord;
  }

  lemma AbcWords16()
    ensures |ABC_BLOCK| == 64
    ensures Schedule(ABC_BLOCK, 16) == 0x61626380
    ensures Schedule(ABC_BLOCK, 17) == 0x000f0000
    ensures Schedule(ABC_BLOCK, 18) == 0x7da86405
    ensures Schedule(ABC_BLOCK, 19) == 0x600003c6
    ensures Schedule(ABC_BLOCK, 20) == 0x3e9d7b78
    ensures Schedule(ABC_BLOCK, 21) == 0x0183fc00
    ensures Schedule(ABC_BLOCK, 22) == 0x12dcbfdb
    ensures Schedule(ABC_BLOCK, 23) == 0xe2e2c38e
    ensures Schedule(ABC_BLOCK, 24) == 0xc8215c1a
    ensures Schedule(ABC_BLOCK, 25) == 0xb73679a2
    ensures Schedule(ABC_BLOCK, 26) == 0xe5bc3909
    ensures Schedule(ABC_BLOCK, 27) == 0x32663c5b
    ensures Schedule(ABC_BLOCK, 28) == 0x9d209d67
    ensures Schedule(ABC_BLOCK, 29) == 0xec8726cb
    ensures Schedule(ABC_BLOCK, 30) == 0x702138a4
    ensures Schedule(ABC_BLOCK, 31) == 0xd3b7973b
  {
    AbcWords0();
    hide Schedule, FourSum, SmallSigma0, SmallSigma1;
    AbcSums16();
    ScheduleStep(ABC_BLOCK, 16);
    ScheduleStep(ABC_BLOCK, 17);
    ScheduleStep(ABC_BLOCK, 18);
    ScheduleStep(ABC_BLOCK, 19);
    ScheduleStep(ABC_BLOCK, 20);
    ScheduleStep(ABC_BLOCK, 21);
    ScheduleStep(ABC_BLOCK, 22);
    ScheduleStep(ABC_BLOCK, 23);
    ScheduleStep(ABC_BLOCK, 24);
    ScheduleStep(ABC_BLOCK, 25);
    ScheduleStep(ABC_BLOCK, 26);
    ScheduleStep(ABC_BLOCK, 27);
    ScheduleStep(ABC_BLOCK, 28);
    ScheduleStep(ABC_BLOCK, 29);
    ScheduleStep(ABC_BLOCK, 30);
    ScheduleStep(ABC_BLOCK, 31);
  }

  lemma AbcSums16()
    ensures FourSum(SmallSigma1(0x00000000), 0x00000000, SmallSigma0(0x00000000), 0x61626380) == 0x61626380
    ensures FourSum(SmallSigma1(0x00000018), 0x00000000, SmallSigma0(0x00000000), 0x00000000) == 0x000f0000
    ensures FourSum(SmallSigma1(0x61626380), 0x00000000, SmallSigma0(0x00000000), 0x00000000) == 0x7da86405
    ensures FourSum(SmallSigma1(0x000f0000), 0x00000000, SmallSigma0(0x00000000), 0x00000000) == 0x600003c6
    ensures FourSum(SmallSigma1(0x7da86405), 0x00000000, SmallSigma0(0x00000000), 0x00000000) == 0x3e9d7b78
    ensures FourSum(SmallSigma1(0x600003c6), 0x00000000, SmallSigma0(0x00000000), 0x00000000) == 0x0183fc00
    ensures FourSum(SmallSigma1(0x3e9d7b78), 0x00000018, SmallSigma0(0x00000000), 0x00000000) == 0x12dcbfdb
    ensures FourSum(SmallSigma1(0x0183fc00), 0x61626380, SmallSigma0(0x00000000), 0x00000000) == 0xe2e2c38e
    ensures FourSum(SmallSigma1(0x12dcbfdb), 0x000f0000, SmallSigma0(0x00000000), 0x00000000) == 0xc8215c1a
    ensures FourSum(SmallSigma1(0xe2e2c38e), 0x7da86405, SmallSigma0(0x00000000), 0x00000000) == 0xb73679a2
    ensures FourSum(SmallSigma1(0xc8215c1a), 0x600003c6, SmallSigma0(0x00000000), 0x00000000) == 0xe5bc3909
    ensures FourSum(SmallSigma1(0xb73679a2), 0x3e9d7b78, SmallSigma0(0x00000000), 0x00000000) == 0x32663c5b
    ensures FourSum(SmallSigma1(0xe5bc3909), 0x0183fc00, SmallSigma0(0x00000000), 0x00000000) == 0x9d209d67
    ensures FourSum(SmallSigma1(0x32663c5b), 0x12dcbfdb, SmallSigma0(0x00000000), 0x00000000) == 0xec8726cb
    ensures FourSum(SmallSigma1(0x9d209d67), 0xe2e2c38e, SmallSigma0(0x00000018), 0x00000000) == 0x702138a4
    ensures FourSum(SmallSigma1(0xec8726cb), 0xc8215c1a, SmallSigma0(0x61626380), 0x00000018) == 0xd3b7973b
  {
  }

  lemma AbcWords32()
    ensures |ABC_BLOCK| == 64
    ensures Schedule(ABC_BLOCK, 32) == 0x93f5997f
    ensures Schedule(ABC_BLOCK, 33) == 0x3b68ba73
    ensures Schedule(ABC_BLOCK, 34) == 0xaff4ffc1
    ensures Schedule(ABC_BLOCK, 35) == 0xf10a5c62
    ensures Schedule(ABC_BLOCK, 36) == 0x0a8b3996
    ensures Schedule(ABC_BLOCK, 37) == 0x72af830a
    ensures Schedule(ABC_BLOCK, 38) == 0x9409e33e
    ensures Schedule(ABC_BLOCK, 39) == 0x24641522
    ensures Schedule(ABC_BLOCK, 40) == 0x9f47bf94
    ensures Schedule(ABC_BLOCK, 41) == 0xf0a64f5a
    ensures Schedule(ABC_BLOCK, 42) == 0x3e246a79
    ensures Schedule(ABC_BLOCK, 43) == 0x27333ba3
    ensures Schedule(ABC_BLOCK, 44) == 0x0c4763f2
    ensures Schedule(ABC_BLOCK, 45) == 0x840abf27
    ensures Schedule(ABC_BLOCK, 46) == 0x7a290d5d
    ensures Schedule(ABC_BLOCK, 47) == 0x065c43da
  {
    AbcWords16();
    hide Schedule, FourSum, SmallSigma0, SmallSigma1;
    AbcSums32();
    ScheduleStep(ABC_BLOCK, 32);
    ScheduleStep(ABC_BLOCK, 33);
    ScheduleStep(ABC_BLOCK, 34);
    ScheduleStep(ABC_BLOCK, 35);
    ScheduleStep(ABC_BLOCK, 36);
    ScheduleStep(ABC_BLOCK, 37);
    ScheduleStep(ABC_BLOCK, 38);
    ScheduleStep(ABC_BLOCK, 39);
    ScheduleStep(ABC_BLOCK, 40);
    ScheduleStep(ABC_BLOCK, 41);
    ScheduleStep(ABC_BLOCK, 42);
    ScheduleStep(ABC_BLOCK, 43);
    ScheduleStep(ABC_BLOCK, 44);
    ScheduleStep(ABC_BLOCK, 45);
    ScheduleStep(ABC_BLOCK, 46);
    ScheduleStep(ABC_BLOCK, 47);
  }

  lemma AbcSums32()
    ensures FourSum(SmallSigma1(0x702138a4), 0xb73679a2, SmallSigma0(0x000f0000), 0x61626380) == 0x93f5997f
    ensures FourSum(SmallSigma1(0xd3b7973b), 0xe5bc3909, SmallSigma0(0x7da86405), 0x000f0000) == 0x3b68ba73
    ensures FourSum(SmallSigma1(0x93f5997f), 0x32663c5b, SmallSigma0(0x600003c6), 0x7da86405) == 0xaff4ffc1
    ensures FourSum(SmallSigma1(0x3b68ba73), 0x9d209d67, SmallSigma0(0x3e9d7b78), 0x600003c6) == 0xf10a5c62
    ensures FourSum(SmallSigma1(0xaff4ffc1), 0xec8726cb, SmallSigma0(0x0183fc00), 0x3e9d7b78) == 0x0a8b3996
    ensures FourSum(SmallSigma1(0xf10a5c62), 0x702138a4, SmallSigma0(0x12dcbfdb), 0x0183fc00) == 0x72af830a
    ensures FourSum(SmallSigma1(0x0a8b3996), 0xd3b7973b, SmallSigma0(0xe2e2c38e), 0x12dcbfdb) == 0x9409e33e
    ensures FourSum(SmallSigma1(0x72af830a), 0x93f5997f, SmallSigma0(0xc8215c1a), 0xe2e2c38e) == 0x24641522
    ensures FourSum(SmallSigma1(0x9409e33e), 0x3b68ba73, SmallSigma0(0xb73679a2), 0xc8215c1a) == 0x9f47bf94
    ensures FourSum(SmallSigma1(0x24641522), 0xaff4ffc1, SmallSigma0(0xe5bc3909), 0xb73679a2) == 0xf0a64f5a
    ensures FourSum(SmallSigma1(0x9f47bf94), 0xf10a5c62, SmallSigma0(0x32663c5b), 0xe5bc3909) == 0x3e246a79
    ensures FourSum(SmallSigma1(0xf0a64f5a), 0x0a8b3996, SmallSigma0(0x9d209d67), 0x32663c5b) == 0x27333ba3
    ensures FourSum(SmallSigma1(0x3e246a79), 0x72af830a, SmallSigma0(0xec8726cb), 0x9d209d67) == 0x0c4763f2
    ensures FourSum(SmallSigma1(0x27333ba3), 0x9409e33e, SmallSigma0(0x702138a4), 0xec8726cb) == 0x840abf27
    ensures FourSum(SmallSigma1(0x0c4763f2), 0x24641522, SmallSigma0(0xd3b7973b), 0x702138a4) == 0x7a290d5d
    ensures FourSum(SmallSigma1(0x840abf27), 0x9f47bf94, SmallSigma0(0x93f5997f), 0xd3b7973b) == 0x065c43da
  {
  }

  lemma AbcWords48()
    ensures |ABC_BLOCK| == 64
    ensures Schedule(ABC_BLOCK, 48) == 0xfb3e89cb
    ensures Schedule(ABC_BLOCK, 49) == 0xcc7617db
    ensures Schedule(ABC_BLOCK, 50) == 0xb9e66c34
    ensures Schedule(ABC_BLOCK, 51) == 0xa9993667
    ensures Schedule(ABC_BLOCK, 52) == 0x84badedd
    ensures Schedule(ABC_BLOCK, 53) == 0xc21462bc
    ensures Schedule(ABC_BLOCK, 54) == 0x1487472c
    ensures Schedule(ABC_BLOCK, 55) == 0xb20f7a99
    ensures Schedule(ABC_BLOCK, 56) == 0xef57b9cd
    ensures Schedule(ABC_BLOCK, 57) == 0xebe6b238
    ensures Schedule(ABC_BLOCK, 58) == 0x9fe3095e
    ensures Schedule(ABC_BLOCK, 59) == 0x78bc8d4b
    ensures Schedule(ABC_BLOCK, 60) == 0xa43fcf15
    ensures Schedule(ABC_BLOCK, 61) == 0x668b2ff8
    ensures Schedule(ABC_BLOCK, 62) == 0xeeaba2cc
    ensures Schedule(ABC_BLOCK, 63) == 0x12b1edeb
  {
    AbcWords32();
    hide Schedule, FourSum, SmallSigma0, SmallSigma1;
    AbcSums48();
    ScheduleStep(ABC_BLOCK, 48);
    ScheduleStep(ABC_BLOCK, 49);
    ScheduleStep(ABC_BLOCK, 50);
    ScheduleStep(ABC_BLOCK, 51);
    ScheduleStep(ABC_BLOCK, 52);
    ScheduleStep(ABC_BLOCK, 53);
    ScheduleStep(ABC_BLOCK, 54);
    ScheduleStep(ABC_BLOCK, 55);
    ScheduleStep(ABC_BLOCK, 56);
    ScheduleStep(ABC_BLOCK, 57);
    ScheduleStep(ABC_BLOCK, 58);
    ScheduleStep(ABC_BLOCK, 59);
    ScheduleStep(ABC_BLOCK, 60);
    ScheduleStep(ABC_BLOCK, 61);
    ScheduleStep(ABC_BLOCK, 62);
    ScheduleStep(ABC_BLOCK, 63);
  }

  lemma AbcSums48()
    ensures FourSum(SmallSigma1(0x7a290d5d), 0xf0a64f5a, SmallSigma0(0x3b68ba73), 0x93f5997f) == 0xfb3e89cb
    ensures FourSum(SmallSigma1(0x065c43da), 0x3e246a79, SmallSigma0(0xaff4ffc1), 0x3b68ba73) == 0xcc7617db
    ensures FourSum(SmallSigma1(0xfb3e89cb), 0x27333ba3, SmallSigma0(0xf10a5c62), 0xaff4ffc1) == 0xb9e66c34
    ensures FourSum(SmallSigma1(0xcc7617db), 0x0c4763f2, SmallSigma0(0x0a8b3996), 0xf10a5c62) == 0xa9993667
    ensures FourSum(SmallSigma1(0xb9e66c34), 0x840abf27, SmallSigma0(0x72af830a), 0x0a8b3996) == 0x84badedd
    ensures FourSum(SmallSigma1(0xa9993667), 0x7a290d5d, SmallSigma0(0x9409e33e), 0x72af830a) == 0xc21462bc
    ensures FourSum(SmallSigma1(0x84badedd), 0x065c43da, SmallSigma0(0x24641522), 0x9409e33e) == 0x1487472c
    ensures FourSum(SmallSigma1(0xc21462bc), 0xfb3e89cb, SmallSigma0(0x9f47bf94), 0x24641522) == 0xb20f7a99
    ensures FourSum(SmallSigma1(0x1487472c), 0xcc7617db, SmallSigma0(0xf0a64f5a), 0x9f47bf94) == 0xef57b9cd
    ensures FourSum(SmallSigma1(0xb20f7a99), 0xb9e66c34, SmallSigma0(0x3e246a79), 0xf0a64f5a) == 0xebe6b238
    ensures FourSum(SmallSigma1(0xef57b9cd), 0xa9993667, SmallSigma0(0x27333ba3), 0x3e246a79) == 0x9fe3095e
    ensures FourSum(SmallSigma1(0xebe6b238), 0x84badedd, SmallSigma0(0x0c4763f2), 0x27333ba3) == 0x78bc8d4b
    ensures FourSum(SmallSigma1(0x9fe3095e), 0xc21462bc, SmallSigma0(0x840abf27), 0x0c4763f2) == 0xa43fcf15
    ensures FourSum(SmallSigma1(0x78bc8d4b), 0x1487472c, SmallSigma0(0x7a290d5d), 0x840abf27) == 0x668b2ff8
    ensures FourSum(SmallSigma1(0xa43fcf15), 0xb20f7a99, SmallSigma0(0x065c43da), 0x7a290d5d) == 0xeeaba2cc
    ensures FourSum(SmallSigma1(0x668b2ff8), 0xef57b9cd, SmallSigma0(0xfb3e89cb), 0x065c43da) == 0x12b1edeb
  {
  }

  lemma RoundsStep(v: Words, block: Bytes, t: nat)
    requires |block| == 64 && t < 64
    ensures Rounds(v, block, t + 1) == Round(Rounds(v, block, t), K[t], Schedule(block, t))
  {
    hide Round, Schedule;
  }

  lemma AbcConstants0()
    ensures |K| == 64
    ensures K[0] == 0x428a2f98
    ensures K[1] == 0x71374491
    ensures K[2] == 0xb5c0fbcf
    ensures K[3] == 0xe9b5dba5
    ensures K[4] == 0x3956c25b
    ensures K[5] == 0x59f111f1
    ensures K[6] == 0x923f82a4
    ensures K[7] == 0xab1c5ed5
  {
  }

  lemma AbcSteps0()
    ensures Round(Words(0x6a09e667, 0xbb67ae85, 0x3c6ef372, 0xa54ff53a, 0x510e527f, 0x9b05688c, 0x1f83d9ab, 0x5be0cd19),
                  0x428a2f98, 0x61626380)
              == Words(0x5d6aebcd, 0x6a09e667, 0xbb67ae85, 0x3c6ef372, 0xfa2a4622, 0x510e527f, 0x9b05688c, 0x1f83d9ab)
    ensures Round(Words(0x5d6aebcd, 0x6a09e667, 0xbb67ae85, 0x3c6ef372, 0xfa2a4622, 0x510e527f, 0x9b05688c, 0x1f83d9ab),
                  0x71374491, 0x00000000)
              == Words(0x5a6ad9ad, 0x5d6aebcd, 0x6a09e667, 0xbb67ae85, 0x78ce7989, 0xfa2a4622, 0x510e527f, 0x9b05688c)
    ensures Round(Words(0x5a6ad9ad, 0x5d6aebcd, 0x6a09e667, 0xbb67ae85, 0x78ce7989, 0xfa2a4622, 0x510e527f, 0x9b05688c),
                  0xb5c0fbcf, 0x00000000)
              == Words(0xc8c347a7, 0x5a6ad9ad, 0x5d6aebcd, 0x6a09e667, 0xf92939eb, 0x78ce7989, 0xfa2a4622, 0x510e527f)
    ensures Round(Words(0xc8c347a7, 0x5a6ad9ad, 0x5d6aebcd, 0x6a09e667, 0xf92939eb, 0x78ce7989, 0xfa2a4622, 0x510e527f),
                  0xe9b5dba5, 0x00000000)
              == Words(0xd550f666, 0xc8c347a7, 0x5a6ad9ad, 0x5d6aebcd, 0x24e00850, 0xf92939eb, 0x78ce7989, 0xfa2a4622)
    ensures Round(Words(0xd550f666, 0xc8c347a7, 0x5a6ad9ad, 0x5d6aebcd, 0x24e00850, 0xf92939eb, 0x78ce7989, 0xfa2a4622),
                  0x3956c25b, 0x00000000)
              == Words(0x04409a6a, 0xd550f666, 0xc8c347a7, 0x5a6ad9ad, 0x43ada245, 0x24e00850, 0xf92939eb, 0x78ce7989)
    ensures Round(Words(0x04409a6a, 0xd550f666, 0xc8c347a7, 0x5a6ad9ad, 0x43ada245, 0x24e00850, 0xf92939eb, 0x78ce7989),
                  0x59f111f1, 0x00000000)
              == Words(0x2b4209f5, 0x04409a6a, 0xd550f666, 0xc8c347a7, 0x714260ad, 0x43ada245, 0x24e00850, 0xf92939eb)
    ensures Round(Words(0x2b4209f5, 0x04409a6a, 0xd550f666, 0xc8c347a7, 0x714260ad, 0x43ada245, 0x24e00850, 0xf92939eb),
                  0x923f82a4, 0x00000000)
              == Words(0xe5030380, 0x2b4209f5, 0x04409a6a, 0xd550f666, 0x9b27a401, 0x714260ad, 0x43ada245, 0x24e00850)
    ensures Round(Words(0xe5030380, 0x2b4209f5, 0x04409a6a, 0xd550f666, 0x9b27a401, 0x714260ad, 0x43ada245, 0x24e00850),
                  0xab1c5ed5, 0x00000000)
              == Words(0x85a07b5f, 0xe5030380, 0x2b4209f5, 0x04409a6a, 0x0c657a79, 0x9b27a401, 0x714260ad, 0x43ada245)
  {
  }

  lemma AbcRounds8()
    ensures |ABC_BLOCK| == 64 && Rounds(INITIAL, ABC_BLOCK, 8) ==
      Words(0x85a07b5f, 0xe5030380, 0x2b4209f5, 0x04409a6a, 0x0c657a79, 0x9b27a401, 0x714260ad, 0x43ada245)
  {
    AbcWords0();
    AbcConstants0();
    AbcSteps0();
    hide Round, Schedule;
    RoundsStep(INITIAL, ABC_BLOCK, 0);
    RoundsStep(INITIAL, ABC_BLOCK, 1);
    RoundsStep(INITIAL, ABC_BLOCK, 2);
    RoundsStep(INITIAL, ABC_BLOCK, 3);
    RoundsStep(INITIAL, ABC_BLOCK, 4);
    RoundsStep(INITIAL, ABC_BLOCK, 5);
    RoundsStep(INITIAL, ABC_BLOCK, 6);
    RoundsStep(INITIAL, ABC_BLOCK, 7);
  }

  lemma AbcConstants8()
    ensures |K| == 64
    ensures K[8] == 0xd807aa98
    ensures K[9] == 0x12835b01
    ensures K[10] == 0x243185be
    ensures K[11] == 0x550c7dc3
    ensures K[12] == 0x72be5d74
    ensures K[13] == 0x80deb1fe
    ensures K[14] == 0x9bdc06a7
    ensures K[15] == 0xc19bf174
  {
  }

  lemma AbcSteps8()
    ensures Round(Words(0x85a07b5f, 0xe5030380, 0x2b4209f5, 0x04409a6a, 0x0c657a79, 0x9b27a401, 0x714260ad, 0x43ada245),
                  0xd807aa98, 0x00000000)
              == Words(0x8e04ecb9, 0x85a07b5f, 0xe5030380, 0x2b4209f5, 0x32ca2d8c, 0x0c657a79, 0x9b27a401, 0x714260ad)
    ensures Round(Words(0x8e04ecb9, 0x85a07b5f, 0xe5030380, 0x2b4209f5, 0x32ca2d8c, 0x0c657a79, 0x9b27a401, 0x714260ad),
                  0x12835b01, 0x00000000)
              == Words(0x8c87346b, 0x8e04ecb9, 0x85a07b5f, 0xe5030380, 0x1cc92596, 0x32ca2d8c, 0x0c657a79, 0x9b27a401)
    ensures Round(Words(0x8c87346b, 0x8e04ecb9, 0x85a07b5f, 0xe5030380, 0x1cc92596, 0x32ca2d8c, 0x0c657a79, 0x9b27a401),
                  0x243185be, 0x00000000)
              == Words(0x4798a3f4, 0x8c87346b, 0x8e04ecb9, 0x85a07b5f, 0x436b23e8, 0x1cc92596, 0x32ca2d8c, 0x0c657a79)
    ensures Round(Words(0x4798a3f4, 0x8c87346b, 0x8e04ecb9, 0x85a07b5f, 0x436b23e8, 0x1cc92596, 0x32ca2d8c, 0x0c657a79),
                  0x550c7dc3, 0x00000000)
              == Words(0xf71fc5a9, 0x4798a3f4, 0x8c87346b, 0x8e04ecb9, 0x816fd6e9, 0x436b23e8, 0x1cc92596, 0x32ca2d8c)
    ensures Round(Words(0xf71fc5a9, 0x4798a3f4, 0x8c87346b, 0x8e04ecb9, 0x816fd6e9, 0x436b23e8, 0x1cc92596, 0x32ca2d8c),
                  0x72be5d74, 0x00000000)
              == Words(0x87912990, 0xf71fc5a9, 0x4798a3f4, 0x8c87346b, 0x1e578218, 0x816fd6e9, 0x436b23e8, 0x1cc92596)
    ensures Round(Words(0x87912990, 0xf71fc5a9, 0x4798a3f4, 0x8c87346b, 0x1e578218, 0x816fd6e9, 0x436b23e8, 0x1cc92596),
                  0x80deb1fe, 0x00000000)
              == Words(0xd932eb16, 0x87912990, 0xf71fc5a9, 0x4798a3f4, 0x745a48de, 0x1e578218, 0x816fd6e9, 0x436b23e8)
    ensures Round(Words(0xd932eb16, 0x87912990, 0xf71fc5a9, 0x4798a3f4, 0x745a48de, 0x1e578218, 0x816fd6e9, 0x436b23e8),
                  0x9bdc06a7, 0x00000000)
              == Words(0xc0645fde, 0xd932eb16, 0x87912990, 0xf71fc5a9, 0x0b92f20c, 0x745a48de, 0x1e578218, 0x816fd6e9)
    ensures Round(Words(0xc0645fde, 0xd932eb16, 0x87912990, 0xf71fc5a9, 0x0b92f20c, 0x745a48de, 0x1e578218, 0x816fd6e9),
                  0xc19bf174, 0x00000018)
              == Words(0xb0fa238e, 0xc0645fde, 0xd932eb16, 0x87912990, 0x07590dcd, 0x0b92f20c, 0x745a48de, 0x1e578218)
  {
  }

  lemma AbcRounds16()
    ensures |ABC_BLOCK| == 64 && Rounds(INITIAL, ABC_BLOCK, 16) ==
      Words(0xb0fa238e, 0xc0645fde, 0xd932eb16, 0x87912990, 0x07590dcd, 0x0b92f20c, 0x745a48de, 0x1e578218)
  {
    AbcWords0();
    AbcConstants8();
    AbcSteps8();
    AbcRounds8();
    hide Round, Schedule, Rounds;
    RoundsStep(INITIAL, ABC_BLOCK, 8);
    RoundsStep(INITIAL, ABC_BLOCK, 9);
    RoundsStep(INITIAL, ABC_BLOCK, 10);
    RoundsStep(INITIAL, ABC_BLOCK, 11);
    RoundsStep(INITIAL, ABC_BLOCK, 12);
    RoundsStep(INITIAL, ABC_BLOCK, 13);
    RoundsStep(INITIAL, ABC_BLOCK, 14);
    RoundsStep(INITIAL, ABC_BLOCK, 15);
  }

  lemma AbcConstants16()
    ensures |K| == 64
    ensures K[16] == 0xe49b69c1
    ensures K[17] == 0xefbe4786
    ensures K[18] == 0x0fc19dc6
    ensures K[19] == 0x240ca1cc
    ensures K[20] == 0x2de92c6f
    ensures K[21] == 0x4a7484aa
    ensures K[22] == 0x5cb0a9dc
    ensures K[23] == 0x76f988da
  {
  }

  lemma AbcSteps16()
    ensures Round(Words(0xb0fa238e, 0xc0645fde, 0xd932eb16, 0x87912990, 0x07590dcd, 0x0b92f20c, 0x745a48de, 0x1e578218),
                  0xe49b69c1, 0x61626380)
              == Words(0x21da9a9b, 0xb0fa238e, 0xc0645fde, 0xd932eb16, 0x8034229c, 0x07590dcd, 0x0b92f20c, 0x745a48de)
    ensures Round(Words(0x21da9a9b, 0xb0fa238e, 0xc0645fde, 0xd932eb16, 0x8034229c, 0x07590dcd, 0x0b92f20c, 0x745a48de),
                  0xefbe4786, 0x000f0000)
              == Words(0xc2fbd9d1, 0x21da9a9b, 0xb0fa238e, 0xc0645fde, 0x846ee454, 0x8034229c, 0x07590dcd, 0x0b92f20c)
    ensures Round(Words(0xc2fbd9d1, 0x21da9a9b, 0xb0fa238e, 0xc0645fde, 0x846ee454, 0x8034229c, 0x07590dcd, 0x0b92f20c),
                  0x0fc19dc6, 0x7da86405)
              == Words(0xfe777bbf, 0xc2fbd9d1, 0x21da9a9b, 0xb0fa238e, 0xcc899961, 0x846ee454, 0x8034229c, 0x07590dcd)
    ensures Round(Words(0xfe777bbf, 0xc2fbd9d1, 0x21da9a9b, 0xb0fa238e, 0xcc899961, 0x846ee454, 0x8034229c, 0x07590dcd),
                  0x240ca1cc, 0x600003c6)
              == Words(0xe1f20c33, 0xfe777bbf, 0xc2fbd9d1, 0x21da9a9b, 0xb0638179, 0xcc899961, 0x846ee454, 0x8034229c)
    ensures Round(Words(0xe1f20c33, 0xfe777bbf, 0xc2fbd9d1, 0x21da9a9b, 0xb0638179, 0xcc899961, 0x846ee454, 0x8034229c),
                  0x2de92c6f, 0x3e9d7b78)
              == Words(0x9dc68b63, 0xe1f20c33, 0xfe777bbf, 0xc2fbd9d1, 0x8ada8930, 0xb0638179, 0xcc899961, 0x846ee454)
    ensures Round(Words(0x9dc68b63, 0xe1f20c33, 0xfe777bbf, 0xc2fbd9d1, 0x8ada8930, 0xb0638179, 0xcc899961, 0x846ee454),
                  0x4a7484aa, 0x0183fc00)
              == Words(0xc2606d6d, 0x9dc68b63, 0xe1f20c33, 0xfe777bbf, 0xe1257970, 0x8ada8930, 0xb0638179, 0xcc899961)
    ensures Round(Words(0xc2606d6d, 0x9dc68b63, 0xe1f20c33, 0xfe777bbf, 0xe1257970, 0x8ada8930, 0xb0638179, 0xcc899961),
                  0x5cb0a9dc, 0x12dcbfdb)
              == Words(0xa7a3623f, 0xc2606d6d, 0x9dc68b63, 0xe1f20c33, 0x49f5114a, 0xe1257970, 0x8ada8930, 0xb0638179)
    ensures Round(Words(0xa7a3623f, 0xc2606d6d, 0x9dc68b63, 0xe1f20c33, 0x49f5114a, 0xe1257970, 0x8ada8930, 0xb0638179),
                  0x76f988da, 0xe2e2c38e)
              == Words(0xc5d53d8d, 0xa7a3623f, 0xc2606d6d, 0x9dc68b63, 0xaa47c347, 0x49f5114a, 0xe1257970, 0x8ada8930)
  {
  }

  lemma AbcRounds24()
    ensures |ABC_BLOCK| == 64 && Rounds(INITIAL, ABC_BLOCK, 24) ==
      Words(0xc5d53d8d, 0xa7a3623f, 0xc2606d6d, 0x9dc68b63, 0xaa47c347, 0x49f5114a, 0xe1257970, 0x8ada8930)
  {
    AbcWords16();
    AbcConstants16();
    AbcSteps16();
    AbcRounds16();
    hide Round, Schedule, Rounds;
    RoundsStep(INITIAL, ABC_BLOCK, 16);
    RoundsStep(INITIAL, ABC_BLOCK, 17);
    RoundsStep(INITIAL, ABC_BLOCK, 18);
    RoundsStep(INITIAL, ABC_BLOCK, 19);
    RoundsStep(INITIAL, ABC_BLOCK, 20);
    RoundsStep(INITIAL, ABC_BLOCK, 21);
    RoundsStep(INITIAL, ABC_BLOCK, 22);
    RoundsStep(INITIAL, ABC_BLOCK, 23);
  }

  lemma AbcConstants24()
    ensures |K| == 64
    ensures K[24] == 0x983e5152
    ensures K[25] == 0xa831c66d
    ensures K[26] == 0xb00327c8
    ensures K[27] == 0xbf597fc7
    ensures K[28] == 0xc6e00bf3
    ensures K[29] == 0xd5a79147
    ensures K[30] == 0x06ca6351
    ensures K[31] == 0x14292967
  {
  }

  lemma AbcSteps24()
    ensures Round(Words(0xc5d53d8d, 0xa7a3623f, 0xc2606d6d, 0x9dc68b63, 0xaa47c347, 0x49f5114a, 0xe1257970, 0x8ada8930),
                  0x983e5152, 0xc8215c1a)
              == Words(0x1c2c2838, 0xc5d53d8d, 0xa7a3623f, 0xc2606d6d, 0x2823ef91, 0xaa47c347, 0x49f5114a, 0xe1257970)
    ensures Round(Words(0x1c2c2838, 0xc5d53d8d, 0xa7a3623f, 0xc2606d6d, 0x2823ef91, 0xaa47c347, 0x49f5114a, 0xe1257970),
                  0xa831c66d, 0xb73679a2)
              == Words(0xcde8037d, 0x1c2c2838, 0xc5d53d8d, 0xa7a3623f, 0x14383d8e, 0x2823ef91, 0xaa47c347, 0x49f5114a)
    ensures Round(Words(0xcde8037d, 0x1c2c2838, 0xc5d53d8d, 0xa7a3623f, 0x14383d8e, 0x2823ef91, 0xaa47c347, 0x49f5114a),
                  0xb00327c8, 0xe5bc3909)
              == Words(0xb62ec4bc, 0xcde8037d, 0x1c2c2838, 0xc5d53d8d, 0xc74c6516, 0x14383d8e, 0x2823ef91, 0xaa47c347)
    ensures Round(Words(0xb62ec4bc, 0xcde8037d, 0x1c2c2838, 0xc5d53d8d, 0xc74c6516, 0x14383d8e, 0x2823ef91, 0xaa47c347),
                  0xbf597fc7, 0x32663c5b)
              == Words(0x77d37528, 0xb62ec4bc, 0xcde8037d, 0x1c2c2838, 0xedffbff8, 0xc74c6516, 0x14383d8e, 0x2823ef91)
    ensures Round(Words(0x77d37528, 0xb62ec4bc, 0xcde8037d, 0x1c2c2838, 0xedffbff8, 0xc74c6516, 0x14383d8e, 0x2823ef91),
                  0xc6e00bf3, 0x9d209d67)
              == Words(0x363482c9, 0x77d37528, 0xb62ec4bc, 0xcde8037d, 0x6112a3b7, 0xedffbff8, 0xc74c6516, 0x14383d8e)
    ensures Round(Words(0x363482c9, 0x77d37528, 0xb62ec4bc, 0xcde8037d, 0x6112a3b7, 0xedffbff8, 0xc74c6516, 0x14383d8e),
                  0xd5a79147, 0xec8726cb)
              == Words(0xa0060b30, 0x363482c9, 0x77d37528, 0xb62ec4bc, 0xade79437, 0x6112a3b7, 0xedffbff8, 0xc74c6516)
    ensures Round(Words(0xa0060b30, 0x363482c9, 0x77d37528, 0xb62ec4bc, 0xade79437, 0x6112a3b7, 0xedffbff8, 0xc74c6516),
                  0x06ca6351, 0x702138a4)
              == Words(0xea992a22, 0xa0060b30, 0x363482c9, 0x77d37528, 0x0109ab3a, 0xade79437, 0x6112a3b7, 0xedffbff8)
    ensures Round(Words(0xea992a22, 0xa0060b30, 0x363482c9, 0x77d37528, 0x0109ab3a, 0xade79437, 0x6112a3b7, 0xedffbff8),
                  0x14292967, 0xd3b7973b)
              == Words(0x73b33bf5, 0xea992a22, 0xa0060b30, 0x363482c9, 0xba591112, 0x0109ab3a, 0xade79437, 0x6112a3b7)
  {
  }

  lemma AbcRounds32()
    ensures |ABC_BLOCK| == 64 && Rounds(INITIAL, ABC_BLOCK, 32) ==
      Words(0x73b33bf5, 0xea992a22, 0xa0060b30, 0x363482c9, 0xba591112, 0x0109ab3a, 0xade79437, 0x6112a3b7)
  {
    AbcWords16();
    AbcConstants24();
    AbcSteps24();
    AbcRounds24();
    hide Round, Schedule, Rounds;
    RoundsStep(INITIAL, ABC_BLOCK, 24);
    RoundsStep(INITIAL, ABC_BLOCK, 25);
    RoundsStep(INITIAL, ABC_BLOCK, 26);
    RoundsStep(INITIAL, ABC_BLOCK, 27);
    RoundsStep(INITIAL, ABC_BLOCK, 28);
    RoundsStep(INITIAL, ABC_BLOCK, 29);
    RoundsStep(INITIAL, ABC_BLOCK, 30);
    RoundsStep(INITIAL, ABC_BLOCK, 31);
  }

  lemma AbcConstants32()
    ensures |K| == 64
    ensures K[32] == 0x27b70a85
    ensures K[33] == 0x2e1b2138
    ensures K[34] == 0x4d2c6dfc
    ensures K[35] == 0x53380d13
    ensures K[36] == 0x650a7354
    ensures K[37] == 0x766a0abb
    ensures K[38] == 0x81c2c92e
    ensures K[39] == 0x92722c85
  {
  }

  lemma AbcSteps32()
    ensures Round(Words(0x73b33bf5, 0xea992a22, 0xa0060b30, 0x363482c9, 0xba591112, 0x0109ab3a, 0xade79437, 0x6112a3b7),
                  0x27b70a85, 0x93f5997f)
              == Words(0x98e12507, 0x73b33bf5, 0xea992a22, 0xa0060b30, 0x9cd9f5f6, 0xba591112, 0x0109ab3a, 0xade79437)
    ensures Round(Words(0x98e12507, 0x73b33bf5, 0xea992a22, 0xa0060b30, 0x9cd9f5f6, 0xba591112, 0x0109ab3a, 0xade79437),
                  0x2e1b2138, 0x3b68ba73)
              == Words(0xfe604df5, 0x98e12507, 0x73b33bf5, 0xea992a22, 0x59249dd3, 0x9cd9f5f6, 0xba591112, 0x0109ab3a)
    ensures Round(Words(0xfe604df5, 0x98e12507, 0x73b33bf5, 0xea992a22, 0x59249dd3, 0x9cd9f5f6, 0xba591112, 0x0109ab3a),
                  0x4d2c6dfc, 0xaff4ffc1)
              == Words(0xa9a7738c, 0xfe604df5, 0x98e12507, 0x73b33bf5, 0x085f3833, 0x59249dd3, 0x9cd9f5f6, 0xba591112)
    ensures Round(Words(0xa9a7738c, 0xfe604df5, 0x98e12507, 0x73b33bf5, 0x085f3833, 0x59249dd3, 0x9cd9f5f6, 0xba591112),
                  0x53380d13, 0xf10a5c62)
              == Words(0x65a0cfe4, 0xa9a7738c, 0xfe604df5, 0x98e12507, 0xf4b002d6, 0x085f3833, 0x59249dd3, 0x9cd9f5f6)
    ensures Round(Words(0x65a0cfe4, 0xa9a7738c, 0xfe604df5, 0x98e12507, 0xf4b002d6, 0x085f3833, 0x59249dd3, 0x9cd9f5f6),
                  0x650a7354, 0x0a8b3996)
              == Words(0x41a65cb1, 0x65a0cfe4, 0xa9a7738c, 0xfe604df5, 0x0772a26b, 0xf4b002d6, 0x085f3833, 0x59249dd3)
    ensures Round(Words(0x41a65cb1, 0x65a0cfe4, 0xa9a7738c, 0xfe604df5, 0x0772a26b, 0xf4b002d6, 0x085f3833, 0x59249dd3),
                  0x766a0abb, 0x72af830a)
              == Words(0x34df1604, 0x41a65cb1, 0x65a0cfe4, 0xa9a7738c, 0xa507a53d, 0x0772a26b, 0xf4b002d6, 0x085f3833)
    ensures Round(Words(0x34df1604, 0x41a65cb1, 0x65a0cfe4, 0xa9a7738c, 0xa507a53d, 0x0772a26b, 0xf4b002d6, 0x085f3833),
                  0x81c2c92e, 0x9409e33e)
              == Words(0x6dc57a8a, 0x34df1604, 0x41a65cb1, 0x65a0cfe4, 0xf0781bc8, 0xa507a53d, 0x0772a26b, 0xf4b002d6)
    ensures Round(Words(0x6dc57a8a, 0x34df1604, 0x41a65cb1, 0x65a0cfe4, 0xf0781bc8, 0xa507a53d, 0x0772a26b, 0xf4b002d6),
                  0x92722c85, 0x24641522)
              == Words(0x79ea687a, 0x6dc57a8a, 0x34df1604, 0x41a65cb1, 0x1efbc0a0, 0xf0781bc8, 0xa507a53d, 0x0772a26b)
  {
  }

  lemma AbcRounds40()
    ensures |ABC_BLOCK| == 64 && Rounds(INITIAL, ABC_BLOCK, 40) ==
      Words(0x79ea687a, 0x6dc57a8a, 0x34df1604, 0x41a65cb1, 0x1efbc0a0, 0xf0781bc8, 0xa507a53d, 0x0772a26b)
  {
    AbcWords32();
    AbcConstants32();
    AbcSteps32();
    AbcRounds32();
    hide Round, Schedule, Rounds;
    RoundsStep(INITIAL, ABC_BLOCK, 32);
    RoundsStep(INITIAL, ABC_BLOCK, 33);
    RoundsStep(INITIAL, ABC_BLOCK, 34);
    RoundsStep(INITIAL, ABC_BLOCK, 35);
    RoundsStep(INITIAL, ABC_BLOCK, 36);
    RoundsStep(INITIAL, ABC_BLOCK, 37);
    RoundsStep(INITIAL, ABC_BLOCK, 38);
    RoundsStep(INITIAL, ABC_BLOCK, 39);
  }

  lemma AbcConstants40()
    ensures |K| == 64
    ensures K[40] == 0xa2bfe8a1
    ensures K[41] == 0xa81a664b
    ensures K[42] == 0xc24b8b70
    ensures K[43] == 0xc76c51a3
    ensures K[44] == 0xd192e819
    ensures K[45] == 0xd6990624
    ensures K[46] == 0xf40e3585
    ensures K[47] == 0x106aa070
  {
  }

  lemma AbcSteps40()
    ensures Round(Words(0x79ea687a, 0x6dc57a8a, 0x34df1604, 0x41a65cb1, 0x1efbc0a0, 0xf0781bc8, 0xa507a53d, 0x0772a26b),
                  0xa2bfe8a1, 0x9f47bf94)
              == Words(0xd6670766, 0x79ea687a, 0x6dc57a8a, 0x34df1604, 0x26352d63, 0x1efbc0a0, 0xf0781bc8, 0xa507a53d)
    ensures Round(Words(0xd6670766, 0x79ea687a, 0x6dc57a8a, 0x34df1604, 0x26352d63, 0x1efbc0a0, 0xf0781bc8, 0xa507a53d),
                  0xa81a664b, 0xf0a64f5a)
              == Words(0xdf46652f, 0xd6670766, 0x79ea687a, 0x6dc57a8a, 0x838b2711, 0x26352d63, 0x1efbc0a0, 0xf0781bc8)
    ensures Round(Words(0xdf46652f, 0xd6670766, 0x79ea687a, 0x6dc57a8a, 0x838b2711, 0x26352d63, 0x1efbc0a0, 0xf0781bc8),
                  0xc24b8b70, 0x3e246a79)
              == Words(0x17aa0dfe, 0xdf46652f, 0xd6670766, 0x79ea687a, 0xdecd4715, 0x838b2711, 0x26352d63, 0x1efbc0a0)
    ensures Round(Words(0x17aa0dfe, 0xdf46652f, 0xd6670766, 0x79ea687a, 0xdecd4715, 0x838b2711, 0x26352d63, 0x1efbc0a0),
                  0xc76c51a3, 0x27333ba3)
              == Words(0x9d4baf93, 0x17aa0dfe, 0xdf46652f, 0xd6670766, 0xfda24c2e, 0xdecd4715, 0x838b2711, 0x26352d63)
    ensures Round(Words(0x9d4baf93, 0x17aa0dfe, 0xdf46652f, 0xd6670766, 0xfda24c2e, 0xdecd4715, 0x838b2711, 0x26352d63),
                  0xd192e819, 0x0c4763f2)
              == Words(0x26628815, 0x9d4baf93, 0x17aa0dfe, 0xdf46652f, 0xa80f11f0, 0xfda24c2e, 0xdecd4715, 0x838b2711)
    ensures Round(Words(0x26628815, 0x9d4baf93, 0x17aa0dfe, 0xdf46652f, 0xa80f11f0, 0xfda24c2e, 0xdecd4715, 0x838b2711),
                  0xd6990624, 0x840abf27)
              == Words(0x72ab4b91, 0x26628815, 0x9d4baf93, 0x17aa0dfe, 0xb7755da1, 0xa80f11f0, 0xfda24c2e, 0xdecd4715)
    ensures Round(Words(0x72ab4b91, 0x26628815, 0x9d4baf93, 0x17aa0dfe, 0xb7755da1, 0xa80f11f0, 0xfda24c2e, 0xdecd4715),
                  0xf40e3585, 0x7a290d5d)
              == Words(0xa14c14b0, 0x72ab4b91, 0x26628815, 0x9d4baf93, 0xd57b94a9, 0xb7755da1, 0xa80f11f0, 0xfda24c2e)
    ensures Round(Words(0xa14c14b0, 0x72ab4b91, 0x26628815, 0x9d4baf93, 0xd57b94a9, 0xb7755da1, 0xa80f11f0, 0xfda24c2e),
                  0x106aa070, 0x065c43da)
              == Words(0x4172328d, 0xa14c14b0, 0x72ab4b91, 0x26628815, 0xfecf0bc6, 0xd57b94a9, 0xb7755da1, 0xa80f11f0)
  {
  }

  lemma AbcRounds48()
    ensures |ABC_BLOCK| == 64 && Rounds(INITIAL, ABC_BLOCK, 48) ==
      Words(0x4172328d, 0xa14c14b0, 0x72ab4b91, 0x26628815, 0xfecf0bc6, 0xd57b94a9, 0xb7755da1, 0xa80f11f0)
  {
    AbcWords32();
    AbcConstants40();
    AbcSteps40();
    AbcRounds40();
    hide Round, Schedule, Rounds;
    RoundsStep(INITIAL, ABC_BLOCK, 40);
    RoundsStep(INITIAL, ABC_BLOCK, 41);
    RoundsStep(INITIAL, ABC_BLOCK, 42);
    RoundsStep(INITIAL, ABC_BLOCK, 43);
    RoundsStep(INITIAL, ABC_BLOCK, 44);
    RoundsStep(INITIAL, ABC_BLOCK, 45);
    RoundsStep(INITIAL, ABC_BLOCK, 46);
    RoundsStep(INITIAL, ABC_BLOCK, 47);
  }

  lemma AbcConstants48()
    ensures |K| == 64
    ensures K[48] == 0x19a4c116
    ensures K[49] == 0x1e376c08
    ensures K[50] == 0x2748774c
    ensures K[51] == 0x34b0bcb5
    ensures K[52] == 0x391c0cb3
    ensures K[53] == 0x4ed8aa4a
    ensures K[54] == 0x5b9cca4f
    ensures K[55] == 0x682e6ff3
  {
  }

  lemma AbcSteps48()
    ensures Round(Words(0x4172328d, 0xa14c14b0, 0x72ab4b91, 0x26628815, 0xfecf0bc6, 0xd57b94a9, 0xb7755da1, 0xa80f11f0),
                  0x19a4c116, 0xfb3e89cb)
              == Words(0x05757ceb, 0x4172328d, 0xa14c14b0, 0x72ab4b91, 0xbd714038, 0xfecf0bc6, 0xd57b94a9, 0xb7755da1)
    ensures Round(Words(0x05757ceb, 0x4172328d, 0xa14c14b0, 0x72ab4b91, 0xbd714038, 0xfecf0bc6, 0xd57b94a9, 0xb7755da1),
                  0x1e376c08, 0xcc7617db)
              == Words(0xf11bfaa8, 0x05757ceb, 0x4172328d, 0xa14c14b0, 0x6e5c390c, 0xbd714038, 0xfecf0bc6, 0xd57b94a9)
    ensures Round(Words(0xf11bfaa8, 0x05757ceb, 0x4172328d, 0xa14c14b0, 0x6e5c390c, 0xbd714038, 0xfecf0bc6, 0xd57b94a9),
                  0x2748774c, 0xb9e66c34)
              == Words(0x7a0508a1, 0xf11bfaa8, 0x05757ceb, 0x4172328d, 0x52f1ccf7, 0x6e5c390c, 0xbd714038, 0xfecf0bc6)
    ensures Round(Words(0x7a0508a1, 0xf11bfaa8, 0x05757ceb, 0x4172328d, 0x52f1ccf7, 0x6e5c390c, 0xbd714038, 0xfecf0bc6),
                  0x34b0bcb5, 0xa9993667)
              == Words(0x886e7a22, 0x7a0508a1, 0xf11bfaa8, 0x05757ceb, 0x49231c1e, 0x52f1ccf7, 0x6e5c390c, 0xbd714038)
    ensures Round(Words(0x886e7a22, 0x7a0508a1, 0xf11bfaa8, 0x05757ceb, 0x49231c1e, 0x52f1ccf7, 0x6e5c390c, 0xbd714038),
                  0x391c0cb3, 0x84badedd)
              == Words(0x101fd28f, 0x886e7a22, 0x7a0508a1, 0xf11bfaa8, 0x529e7d00, 0x49231c1e, 0x52f1ccf7, 0x6e5c390c)
    ensures Round(Words(0x101fd28f, 0x886e7a22, 0x7a0508a1, 0xf11bfaa8, 0x529e7d00, 0x49231c1e, 0x52f1ccf7, 0x6e5c390c),
                  0x4ed8aa4a, 0xc21462bc)
              == Words(0xf5702fdb, 0x101fd28f, 0x886e7a22, 0x7a0508a1, 0x9f4787c3, 0x529e7d00, 0x49231c1e, 0x52f1ccf7)
    ensures Round(Words(0xf5702fdb, 0x101fd28f, 0x886e7a22, 0x7a0508a1, 0x9f4787c3, 0x529e7d00, 0x49231c1e, 0x52f1ccf7),
                  0x5b9cca4f, 0x1487472c)
              == Words(0x3ec45cdb, 0xf5702fdb, 0x101fd28f, 0x886e7a22, 0xe50e1b4f, 0x9f4787c3, 0x529e7d00, 0x49231c1e)
    ensures Round(Words(0x3ec45cdb, 0xf5702fdb, 0x101fd28f, 0x886e7a22, 0xe50e1b4f, 0x9f4787c3, 0x529e7d00, 0x49231c1e),
                  0x682e6ff3, 0xb20f7a99)
              == Words(0x38cc9913, 0x3ec45cdb, 0xf5702fdb, 0x101fd28f, 0x54cb266b, 0xe50e1b4f, 0x9f4787c3, 0x529e7d00)
  {
  }

  lemma AbcRounds56()
    ensures |ABC_BLOCK| == 64 && Rounds(INITIAL, ABC_BLOCK, 56) ==
      Words(0x38cc9913, 0x3ec45cdb, 0xf5702fdb, 0x101fd28f, 0x54cb266b, 0xe50e1b4f, 0x9f4787c3, 0x529e7d00)
  {
    AbcWords48();
    AbcConstants48();
    AbcSteps48();
    AbcRounds48();
    hide Round, Schedule, Rounds;
    RoundsStep(INITIAL, ABC_BLOCK, 48);
    RoundsStep(INITIAL, ABC_BLOCK, 49);
    RoundsStep(INITIAL, ABC_BLOCK, 50);
    RoundsStep(INITIAL, ABC_BLOCK, 51);
    RoundsStep(INITIAL, ABC_BLOCK, 52);
    RoundsStep(INITIAL, ABC_BLOCK, 53);
    RoundsStep(INITIAL, ABC_BLOCK, 54);
    RoundsStep(INITIAL, ABC_BLOCK, 55);
  }

  lemma AbcConstants56()
    ensures |K| == 64
    ensures K[56] == 0x748f82ee
    ensures K[57] == 0x78a5636f
    ensures K[58] == 0x84c87814
    ensures K[59] == 0x8cc70208
    ensures K[60] == 0x90befffa
    ensures K[61] == 0xa4506ceb
    ensures K[62] == 0xbef9a3f7
    ensures K[63] == 0xc67178f2
  {
  }

  lemma AbcSteps56()
    ensures Round(Words(0x38cc9913, 0x3ec45cdb, 0xf5702fdb, 0x101fd28f, 0x54cb266b, 0xe50e1b4f, 0x9f4787c3, 0x529e7d00),
                  0x748f82ee, 0xef57b9cd)
              == Words(0xfcd1887b, 0x38cc9913, 0x3ec45cdb, 0xf5702fdb, 0x9b5e906c, 0x54cb266b, 0xe50e1b4f, 0x9f4787c3)
    ensures Round(Words(0xfcd1887b, 0x38cc9913, 0x3ec45cdb, 0xf5702fdb, 0x9b5e906c, 0x54cb266b, 0xe50e1b4f, 0x9f4787c3),
                  0x78a5636f, 0xebe6b238)
              == Words(0xc062d46f, 0xfcd1887b, 0x38cc9913, 0x3ec45cdb, 0x7e44008e, 0x9b5e906c, 0x54cb266b, 0xe50e1b4f)
    ensures Round(Words(0xc062d46f, 0xfcd1887b, 0x38cc9913, 0x3ec45cdb, 0x7e44008e, 0x9b5e906c, 0x54cb266b, 0xe50e1b4f),
                  0x84c87814, 0x9fe3095e)
              == Words(0xffb70472, 0xc062d46f, 0xfcd1887b, 0x38cc9913, 0x6d83bfc6, 0x7e44008e, 0x9b5e906c, 0x54cb266b)
    ensures Round(Words(0xffb70472, 0xc062d46f, 0xfcd1887b, 0x38cc9913, 0x6d83bfc6, 0x7e44008e, 0x9b5e906c, 0x54cb266b),
                  0x8cc70208, 0x78bc8d4b)
              == Words(0xb6ae8fff, 0xffb70472, 0xc062d46f, 0xfcd1887b, 0xb21bad3d, 0x6d83bfc6, 0x7e44008e, 0x9b5e906c)
    ensures Round(Words(0xb6ae8fff, 0xffb70472, 0xc062d46f, 0xfcd1887b, 0xb21bad3d, 0x6d83bfc6, 0x7e44008e, 0x9b5e906c),
                  0x90befffa, 0xa43fcf15)
              == Words(0xb85e2ce9, 0xb6ae8fff, 0xffb70472, 0xc062d46f, 0x961f4894, 0xb21bad3d, 0x6d83bfc6, 0x7e44008e)
    ensures Round(Words(0xb85e2ce9, 0xb6ae8fff, 0xffb70472, 0xc062d46f, 0x961f4894, 0xb21bad3d, 0x6d83bfc6, 0x7e44008e),
                  0xa4506ceb, 0x668b2ff8)
              == Words(0x04d24d6c, 0xb85e2ce9, 0xb6ae8fff, 0xffb70472, 0x948d25b6, 0x961f4894, 0xb21bad3d, 0x6d83bfc6)
    ensures Round(Words(0x04d24d6c, 0xb85e2ce9, 0xb6ae8fff, 0xffb70472, 0x948d25b6, 0x961f4894, 0xb21bad3d, 0x6d83bfc6),
                  0xbef9a3f7, 0xeeaba2cc)
              == Words(0xd39a2165, 0x04d24d6c, 0xb85e2ce9, 0xb6ae8fff, 0xfb121210, 0x948d25b6, 0x961f4894, 0xb21bad3d)
    ensures Round(Words(0xd39a2165, 0x04d24d6c, 0xb85e2ce9, 0xb6ae8fff, 0xfb121210, 0x948d25b6, 0x961f4894, 0xb21bad3d),
                  0xc67178f2, 0x12b1edeb)
              == Words(0x506e3058, 0xd39a2165, 0x04d24d6c, 0xb85e2ce9, 0x5ef50f24, 0xfb121210, 0x948d25b6, 0x961f4894)
  {
  }

  lemma AbcRounds64()
    ensures |ABC_BLOCK| == 64 && Rounds(INITIAL, ABC_BLOCK, 64) ==
      Words(0x506e3058, 0xd39a2165, 0x04d24d6c, 0xb85e2ce9, 0x5ef50f24, 0xfb121210, 0x948d25b6, 0x961f4894)
  {
    AbcWords48();
    AbcConstants56();
    AbcSteps56();
    AbcRounds56();
    hide Round, Schedule, Rounds;
    RoundsStep(INITIAL, ABC_BLOCK, 56);
    RoundsStep(INITIAL, ABC_BLOCK, 57);
    RoundsStep(INITIAL, ABC_BLOCK, 58);
    RoundsStep(INITIAL, ABC_BLOCK, 59);
    RoundsStep(INITIAL, ABC_BLOCK, 60);
    RoundsStep(INITIAL, ABC_BLOCK, 61);
    RoundsStep(INITIAL, ABC_BLOCK, 62);
    RoundsStep(INITIAL, ABC_BLOCK, 63);
  }

  lemma AbcText()
    ensures HexHash(Words(0xba7816bf, 0x8f01cfea, 0x414140de, 0x5dae2223, 0xb00361a3, 0x96177a9c, 0xb410ff61, 0xf20015ad)) ==
      "ba7816bf" + "8f01cfea" + "414140de" + "5dae2223" + "b00361a3" + "96177a9c" + "b410ff61" + "f20015ad"
  {
    assert HexWord(0xba7816bf) == "ba7816bf";
    assert HexWord(0x8f01cfea) == "8f01cfea";
    assert HexWord(0x414140de) == "414140de";
    assert HexWord(0x5dae2223) == "5dae2223";
    assert HexWord(0xb00361a3) == "b00361a3";
    assert HexWord(0x96177a9c) == "96177a9c";
    assert HexWord(0xb410ff61) == "b410ff61";
    assert HexWord(0xf20015ad) == "f20015ad";
    hide HexWord;
  }

  /** The hash of `abc`. */
  lemma HashOfAbc()
    ensures HexHash(Hash(ABC)) == "ba7816bf" + "8f01cfea" + "414140de" + "5dae2223" + "b00361a3" + "96177a9c" + "b410ff61" + "f20015ad"
  {
    AbcPadded();
    OneBlock(INITIAL, ABC_BLOCK);
    AbcRounds64();
    assert Plus(INITIAL, Words(0x506e3058, 0xd39a2165, 0x04d24d6c, 0xb85e2ce9, 0x5ef50f24, 0xfb121210, 0x948d25b6, 0x961f4894))
        == Words(0xba7816bf, 0x8f01cfea, 0x414140de, 0x5dae2223, 0xb00361a3, 0x96177a9c, 0xb410ff61, 0xf20015ad);
    AbcText();
    hide Rounds, HexHash, HashBlocks, Padded;
  }
}
