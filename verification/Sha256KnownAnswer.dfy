/**
 * The digest of "abc", worked out step by step: it fixes every operand, rotation, order and
 * constant of the schedule and of the rounds.
 */
module Sha256KnownAnswer {
  import opened Basics
  import opened Sha256Spec
  import Hex

  // ---------------------------------------------------------------- padding

  lemma {:induction false} SmallLength(n: nat, k: nat)
    requires n < 256 && k >= 1
    ensures BigEndian(n, k) == Zeros(k - 1) + [n]
    decreases k
  {
    if k == 1 {
      assert ByteAt(n, 0) == n && BigEndian(n, 0) == [];
    } else {
      SmallLength(n, k - 1);
      ShiftsAdd(n, 8, 8 * (k - 1) - 8);
      ShiftByEight(n);
      NothingShifted(8 * (k - 1) - 8);
      assert [0] + Zeros(k - 2) == Zeros(k - 1);
    }
  }

  lemma {:induction false} NothingShifted(places: nat)
    ensures ShiftRight(0, places) == 0
  {
    if places > 0 { NothingShifted(places - 1); }
  }

  const ABC: seq<byte> := [0x61, 0x62, 0x63]

  /** One block: the message, a one bit, zeros, and the length in bits. */
  lemma Padded()
    ensures var p := Pad(ABC);
            && |p| == 64 && p[0] == 0x61 && p[1] == 0x62 && p[2] == 0x63 && p[3] == 0x80 && p[63] == 24
            && forall i :: 4 <= i < 63 ==> p[i] == 0
  {
    hide BigEndian;
    SmallLength(24, 8);
    assert ZeroCount(3) == 52;
  }

  function WordFrom(a: byte, b: byte, c: byte, d: byte): word {
    ((a as word) << 24) | ((b as word) << 16) | ((c as word) << 8) | (d as word)
  }

  lemma WordIs(p: seq<byte>, i: nat, a: byte, b: byte, c: byte, d: byte)
    requires i + 4 <= |p| && p[i] == a && p[i + 1] == b && p[i + 2] == c && p[i + 3] == d
    ensures WordAt(p, i) == WordFrom(a, b, c, d)
  {
  }

  // ---------------------------------------------------------------- the schedule

  /** The words of the message schedule. */
  const SCHEDULED: seq<word> :=
    ((([0x61626380, 0x00000000, 0x00000000, 0x00000000, 0x00000000, 0x00000000, 0x00000000, 0x00000000]
    + [0x00000000, 0x00000000, 0x00000000, 0x00000000, 0x00000000, 0x00000000, 0x00000000, 0x00000018])
    + ([0x61626380, 0x000f0000, 0x7da86405, 0x600003c6, 0x3e9d7b78, 0x0183fc00, 0x12dcbfdb, 0xe2e2c38e]
    + [0xc8215c1a, 0xb73679a2, 0xe5bc3909, 0x32663c5b, 0x9d209d67, 0xec8726cb, 0x702138a4, 0xd3b7973b]))
    + (([0x93f5997f, 0x3b68ba73, 0xaff4ffc1, 0xf10a5c62, 0x0a8b3996, 0x72af830a, 0x9409e33e, 0x24641522]
    + [0x9f47bf94, 0xf0a64f5a, 0x3e246a79, 0x27333ba3, 0x0c4763f2, 0x840abf27, 0x7a290d5d, 0x065c43da])
    + ([0xfb3e89cb, 0xcc7617db, 0xb9e66c34, 0xa9993667, 0x84badedd, 0xc21462bc, 0x1487472c, 0xb20f7a99]
    + [0xef57b9cd, 0xebe6b238, 0x9fe3095e, 0x78bc8d4b, 0xa43fcf15, 0x668b2ff8, 0xeeaba2cc, 0x12b1edeb])))

  lemma FirstWords(p: seq<byte>)
    requires |p| == 64 && p[0] == 0x61 && p[1] == 0x62 && p[2] == 0x63 && p[3] == 0x80 && p[63] == 24
    requires forall i :: 4 <= i < 63 ==> p[i] == 0
    ensures forall t :: 0 <= t < 16 ==> WordAt(p, 4 * t) == SCHEDULED[t]
  {
    hide WordAt;
    WordIs(p, 0, 0x61, 0x62, 0x63, 0x80);
    WordIs(p, 60, 0, 0, 0, 24);
    assert WordFrom(0x61, 0x62, 0x63, 0x80) == 0x61626380 && WordFrom(0, 0, 0, 24) == 0x00000018;
    assert WordFrom(0, 0, 0, 0) == 0;
    forall t | 1 <= t < 15 ensures WordAt(p, 4 * t) == 0 {
      WordIs(p, 4 * t, 0, 0, 0, 0);
    }
    hide WordFrom;
    forall t | 0 <= t < 16 ensures WordAt(p, 4 * t) == SCHEDULED[t] {
      FirstScheduled(t);
    }
  }

  lemma FirstScheduled(t: nat)
    requires t < 16
    ensures SCHEDULED[t] == if t == 0 then 0x61626380 else if t == 15 then 0x00000018 else 0
  {
  }

  predicate ScheduleStep(t: nat)
    requires 16 <= t < 64
  {
    SCHEDULED[t] == Next(SCHEDULED[t - 2], SCHEDULED[t - 7], SCHEDULED[t - 15], SCHEDULED[t - 16])
  }

  lemma Next16() ensures Next(0x00000000, 0x00000000, 0x00000000, 0x61626380) == 0x61626380 {}
  lemma Next17() ensures Next(0x00000018, 0x00000000, 0x00000000, 0x00000000) == 0x000f0000 {}
  lemma Next18() ensures Next(0x61626380, 0x00000000, 0x00000000, 0x00000000) == 0x7da86405 {}
  lemma Next19() ensures Next(0x000f0000, 0x00000000, 0x00000000, 0x00000000) == 0x600003c6 {}
  lemma Next20() ensures Next(0x7da86405, 0x00000000, 0x00000000, 0x00000000) == 0x3e9d7b78 {}
  lemma Next21() ensures Next(0x600003c6, 0x00000000, 0x00000000, 0x00000000) == 0x0183fc00 {}
  lemma Next22() ensures Next(0x3e9d7b78, 0x00000018, 0x00000000, 0x00000000) == 0x12dcbfdb {}
  lemma Next23() ensures Next(0x0183fc00, 0x61626380, 0x00000000, 0x00000000) == 0xe2e2c38e {}
  lemma Next24() ensures Next(0x12dcbfdb, 0x000f0000, 0x00000000, 0x00000000) == 0xc8215c1a {}
  lemma Next25() ensures Next(0xe2e2c38e, 0x7da86405, 0x00000000, 0x00000000) == 0xb73679a2 {}
  lemma Next26() ensures Next(0xc8215c1a, 0x600003c6, 0x00000000, 0x00000000) == 0xe5bc3909 {}
  lemma Next27() ensures Next(0xb73679a2, 0x3e9d7b78, 0x00000000, 0x00000000) == 0x32663c5b {}
  lemma Next28() ensures Next(0xe5bc3909, 0x0183fc00, 0x00000000, 0x00000000) == 0x9d209d67 {}
  lemma Next29() ensures Next(0x32663c5b, 0x12dcbfdb, 0x00000000, 0x00000000) == 0xec8726cb {}
  lemma Next30() ensures Next(0x9d209d67, 0xe2e2c38e, 0x00000018, 0x00000000) == 0x702138a4 {}
  lemma Next31() ensures Next(0xec8726cb, 0xc8215c1a, 0x61626380, 0x00000018) == 0xd3b7973b {}
  lemma Next32() ensures Next(0x702138a4, 0xb73679a2, 0x000f0000, 0x61626380) == 0x93f5997f {}
  lemma Next33() ensures Next(0xd3b7973b, 0xe5bc3909, 0x7da86405, 0x000f0000) == 0x3b68ba73 {}
  lemma Next34() ensures Next(0x93f5997f, 0x32663c5b, 0x600003c6, 0x7da86405) == 0xaff4ffc1 {}
  lemma Next35() ensures Next(0x3b68ba73, 0x9d209d67, 0x3e9d7b78, 0x600003c6) == 0xf10a5c62 {}
  lemma Next36() ensures Next(0xaff4ffc1, 0xec8726cb, 0x0183fc00, 0x3e9d7b78) == 0x0a8b3996 {}
  lemma Next37() ensures Next(0xf10a5c62, 0x702138a4, 0x12dcbfdb, 0x0183fc00) == 0x72af830a {}
  lemma Next38() ensures Next(0x0a8b3996, 0xd3b7973b, 0xe2e2c38e, 0x12dcbfdb) == 0x9409e33e {}
  lemma Next39() ensures Next(0x72af830a, 0x93f5997f, 0xc8215c1a, 0xe2e2c38e) == 0x24641522 {}
  lemma Next40() ensures Next(0x9409e33e, 0x3b68ba73, 0xb73679a2, 0xc8215c1a) == 0x9f47bf94 {}
  lemma Next41() ensures Next(0x24641522, 0xaff4ffc1, 0xe5bc3909, 0xb73679a2) == 0xf0a64f5a {}
  lemma Next42() ensures Next(0x9f47bf94, 0xf10a5c62, 0x32663c5b, 0xe5bc3909) == 0x3e246a79 {}
  lemma Next43() ensures Next(0xf0a64f5a, 0x0a8b3996, 0x9d209d67, 0x32663c5b) == 0x27333ba3 {}
  lemma Next44() ensures Next(0x3e246a79, 0x72af830a, 0xec8726cb, 0x9d209d67) == 0x0c4763f2 {}
  lemma Next45() ensures Next(0x27333ba3, 0x9409e33e, 0x702138a4, 0xec8726cb) == 0x840abf27 {}
  lemma Next46() ensures Next(0x0c4763f2, 0x24641522, 0xd3b7973b, 0x702138a4) == 0x7a290d5d {}
  lemma Next47() ensures Next(0x840abf27, 0x9f47bf94, 0x93f5997f, 0xd3b7973b) == 0x065c43da {}
  lemma Next48() ensures Next(0x7a290d5d, 0xf0a64f5a, 0x3b68ba73, 0x93f5997f) == 0xfb3e89cb {}
  lemma Next49() ensures Next(0x065c43da, 0x3e246a79, 0xaff4ffc1, 0x3b68ba73) == 0xcc7617db {}
  lemma Next50() ensures Next(0xfb3e89cb, 0x27333ba3, 0xf10a5c62, 0xaff4ffc1) == 0xb9e66c34 {}
  lemma Next51() ensures Next(0xcc7617db, 0x0c4763f2, 0x0a8b3996, 0xf10a5c62) == 0xa9993667 {}
  lemma Next52() ensures Next(0xb9e66c34, 0x840abf27, 0x72af830a, 0x0a8b3996) == 0x84badedd {}
  lemma Next53() ensures Next(0xa9993667, 0x7a290d5d, 0x9409e33e, 0x72af830a) == 0xc21462bc {}
  lemma Next54() ensures Next(0x84badedd, 0x065c43da, 0x24641522, 0x9409e33e) == 0x1487472c {}
  lemma Next55() ensures Next(0xc21462bc, 0xfb3e89cb, 0x9f47bf94, 0x24641522) == 0xb20f7a99 {}
  lemma Next56() ensures Next(0x1487472c, 0xcc7617db, 0xf0a64f5a, 0x9f47bf94) == 0xef57b9cd {}
  lemma Next57() ensures Next(0xb20f7a99, 0xb9e66c34, 0x3e246a79, 0xf0a64f5a) == 0xebe6b238 {}
  lemma Next58() ensures Next(0xef57b9cd, 0xa9993667, 0x27333ba3, 0x3e246a79) == 0x9fe3095e {}
  lemma Next59() ensures Next(0xebe6b238, 0x84badedd, 0x0c4763f2, 0x27333ba3) == 0x78bc8d4b {}
  lemma Next60() ensures Next(0x9fe3095e, 0xc21462bc, 0x840abf27, 0x0c4763f2) == 0xa43fcf15 {}
  lemma Next61() ensures Next(0x78bc8d4b, 0x1487472c, 0x7a290d5d, 0x840abf27) == 0x668b2ff8 {}
  lemma Next62() ensures Next(0xa43fcf15, 0xb20f7a99, 0x065c43da, 0x7a290d5d) == 0xeeaba2cc {}
  lemma Next63() ensures Next(0x668b2ff8, 0xef57b9cd, 0xfb3e89cb, 0x065c43da) == 0x12b1edeb {}

  lemma Schedule0()
    ensures forall t :: 16 <= t < 24 ==> ScheduleStep(t)
  {
    hide Next;
    Next16(); Next17(); Next18(); Next19();
    Next20(); Next21(); Next22(); Next23();
    assert ScheduleStep(16) && ScheduleStep(17) && ScheduleStep(18) && ScheduleStep(19);
    assert ScheduleStep(20) && ScheduleStep(21) && ScheduleStep(22) && ScheduleStep(23);
  }

  lemma Schedule1()
    ensures forall t :: 24 <= t < 32 ==> ScheduleStep(t)
  {
    hide Next;
    Next24(); Next25(); Next26(); Next27();
    Next28(); Next29(); Next30(); Next31();
    assert ScheduleStep(24) && ScheduleStep(25) && ScheduleStep(26) && ScheduleStep(27);
    assert ScheduleStep(28) && ScheduleStep(29) && ScheduleStep(30) && ScheduleStep(31);
  }

  lemma Schedule2()
    ensures forall t :: 32 <= t < 40 ==> ScheduleStep(t)
  {
    hide Next;
    Next32(); Next33(); Next34(); Next35();
    Next36(); Next37(); Next38(); Next39();
    assert ScheduleStep(32) && ScheduleStep(33) && ScheduleStep(34) && ScheduleStep(35);
    assert ScheduleStep(36) && ScheduleStep(37) && ScheduleStep(38) && ScheduleStep(39);
  }

  lemma Schedule3()
    ensures forall t :: 40 <= t < 48 ==> ScheduleStep(t)
  {
    hide Next;
    Next40(); Next41(); Next42(); Next43();
    Next44(); Next45(); Next46(); Next47();
    assert ScheduleStep(40) && ScheduleStep(41) && ScheduleStep(42) && ScheduleStep(43);
    assert ScheduleStep(44) && ScheduleStep(45) && ScheduleStep(46) && ScheduleStep(47);
  }

  lemma Schedule4()
    ensures forall t :: 48 <= t < 56 ==> ScheduleStep(t)
  {
    hide Next;
    Next48(); Next49(); Next50(); Next51();
    Next52(); Next53(); Next54(); Next55();
    assert ScheduleStep(48) && ScheduleStep(49) && ScheduleStep(50) && ScheduleStep(51);
    assert ScheduleStep(52) && ScheduleStep(53) && ScheduleStep(54) && ScheduleStep(55);
  }

  lemma Schedule5()
    ensures forall t :: 56 <= t < 64 ==> ScheduleStep(t)
  {
    hide Next;
    Next56(); Next57(); Next58(); Next59();
    Next60(); Next61(); Next62(); Next63();
    assert ScheduleStep(56) && ScheduleStep(57) && ScheduleStep(58) && ScheduleStep(59);
    assert ScheduleStep(60) && ScheduleStep(61) && ScheduleStep(62) && ScheduleStep(63);
  }

  lemma ScheduleSteps()
    ensures forall t :: 16 <= t < 64 ==> ScheduleStep(t)
  {
    hide ScheduleStep;
    Schedule0();
    Schedule1();
    Schedule2();
    Schedule3();
    Schedule4();
    Schedule5();
  }

  lemma {:induction false} WordIsScheduled(p: seq<byte>, t: nat)
    requires |p| == 64 && t < 64 && forall i :: 0 <= i < 16 ==> WordAt(p, 4 * i) == SCHEDULED[i]
    ensures W(p, 0, t) == SCHEDULED[t]
  {
    hide WordAt, Next, SCHEDULED;
    if t >= 16 {
      WordIsScheduled(p, t - 2);
      WordIsScheduled(p, t - 7);
      WordIsScheduled(p, t - 15);
      WordIsScheduled(p, t - 16);
      ScheduleSteps();
      assert ScheduleStep(t);
    }
  }

  // ---------------------------------------------------------------- the rounds

  lemma Round0()
    ensures Round(Hash(0x6a09e667, 0xbb67ae85, 0x3c6ef372, 0xa54ff53a, 0x510e527f, 0x9b05688c, 0x1f83d9ab, 0x5be0cd19),
                  0x428a2f98, 0x61626380)
            == Hash(0x5d6aebcd, 0x6a09e667, 0xbb67ae85, 0x3c6ef372, 0xfa2a4622, 0x510e527f, 0x9b05688c, 0x1f83d9ab)
  {
  }

  lemma Round1()
    ensures Round(Hash(0x5d6aebcd, 0x6a09e667, 0xbb67ae85, 0x3c6ef372, 0xfa2a4622, 0x510e527f, 0x9b05688c, 0x1f83d9ab),
                  0x71374491, 0x00000000)
            == Hash(0x5a6ad9ad, 0x5d6aebcd, 0x6a09e667, 0xbb67ae85, 0x78ce7989, 0xfa2a4622, 0x510e527f, 0x9b05688c)
  {
  }

  lemma Round2()
    ensures Round(Hash(0x5a6ad9ad, 0x5d6aebcd, 0x6a09e667, 0xbb67ae85, 0x78ce7989, 0xfa2a4622, 0x510e527f, 0x9b05688c),
                  0xb5c0fbcf, 0x00000000)
            == Hash(0xc8c347a7, 0x5a6ad9ad, 0x5d6aebcd, 0x6a09e667, 0xf92939eb, 0x78ce7989, 0xfa2a4622, 0x510e527f)
  {
  }

  lemma Round3()
    ensures Round(Hash(0xc8c347a7, 0x5a6ad9ad, 0x5d6aebcd, 0x6a09e667, 0xf92939eb, 0x78ce7989, 0xfa2a4622, 0x510e527f),
                  0xe9b5dba5, 0x00000000)
            == Hash(0xd550f666, 0xc8c347a7, 0x5a6ad9ad, 0x5d6aebcd, 0x24e00850, 0xf92939eb, 0x78ce7989, 0xfa2a4622)
  {
  }

  lemma Round4()
    ensures Round(Hash(0xd550f666, 0xc8c347a7, 0x5a6ad9ad, 0x5d6aebcd, 0x24e00850, 0xf92939eb, 0x78ce7989, 0xfa2a4622),
                  0x3956c25b, 0x00000000)
            == Hash(0x04409a6a, 0xd550f666, 0xc8c347a7, 0x5a6ad9ad, 0x43ada245, 0x24e00850, 0xf92939eb, 0x78ce7989)
  {
  }

  lemma Round5()
    ensures Round(Hash(0x04409a6a, 0xd550f666, 0xc8c347a7, 0x5a6ad9ad, 0x43ada245, 0x24e00850, 0xf92939eb, 0x78ce7989),
                  0x59f111f1, 0x00000000)
            == Hash(0x2b4209f5, 0x04409a6a, 0xd550f666, 0xc8c347a7, 0x714260ad, 0x43ada245, 0x24e00850, 0xf92939eb)
  {
  }

  lemma Round6()
    ensures Round(Hash(0x2b4209f5, 0x04409a6a, 0xd550f666, 0xc8c347a7, 0x714260ad, 0x43ada245, 0x24e00850, 0xf92939eb),
                  0x923f82a4, 0x00000000)
            == Hash(0xe5030380, 0x2b4209f5, 0x04409a6a, 0xd550f666, 0x9b27a401, 0x714260ad, 0x43ada245, 0x24e00850)
  {
  }

  lemma Round7()
    ensures Round(Hash(0xe5030380, 0x2b4209f5, 0x04409a6a, 0xd550f666, 0x9b27a401, 0x714260ad, 0x43ada245, 0x24e00850),
                  0xab1c5ed5, 0x00000000)
            == Hash(0x85a07b5f, 0xe5030380, 0x2b4209f5, 0x04409a6a, 0x0c657a79, 0x9b27a401, 0x714260ad, 0x43ada245)
  {
  }

  lemma Round8()
    ensures Round(Hash(0x85a07b5f, 0xe5030380, 0x2b4209f5, 0x04409a6a, 0x0c657a79, 0x9b27a401, 0x714260ad, 0x43ada245),
                  0xd807aa98, 0x00000000)
            == Hash(0x8e04ecb9, 0x85a07b5f, 0xe5030380, 0x2b4209f5, 0x32ca2d8c, 0x0c657a79, 0x9b27a401, 0x714260ad)
  {
  }

  lemma Round9()
    ensures Round(Hash(0x8e04ecb9, 0x85a07b5f, 0xe5030380, 0x2b4209f5, 0x32ca2d8c, 0x0c657a79, 0x9b27a401, 0x714260ad),
                  0x12835b01, 0x00000000)
            == Hash(0x8c87346b, 0x8e04ecb9, 0x85a07b5f, 0xe5030380, 0x1cc92596, 0x32ca2d8c, 0x0c657a79, 0x9b27a401)
  {
  }

  lemma Round10()
    ensures Round(Hash(0x8c87346b, 0x8e04ecb9, 0x85a07b5f, 0xe5030380, 0x1cc92596, 0x32ca2d8c, 0x0c657a79, 0x9b27a401),
                  0x243185be, 0x00000000)
            == Hash(0x4798a3f4, 0x8c87346b, 0x8e04ecb9, 0x85a07b5f, 0x436b23e8, 0x1cc92596, 0x32ca2d8c, 0x0c657a79)
  {
  }

  lemma Round11()
    ensures Round(Hash(0x4798a3f4, 0x8c87346b, 0x8e04ecb9, 0x85a07b5f, 0x436b23e8, 0x1cc92596, 0x32ca2d8c, 0x0c657a79),
                  0x550c7dc3, 0x00000000)
            == Hash(0xf71fc5a9, 0x4798a3f4, 0x8c87346b, 0x8e04ecb9, 0x816fd6e9, 0x436b23e8, 0x1cc92596, 0x32ca2d8c)
  {
  }

  lemma Round12()
    ensures Round(Hash(0xf71fc5a9, 0x4798a3f4, 0x8c87346b, 0x8e04ecb9, 0x816fd6e9, 0x436b23e8, 0x1cc92596, 0x32ca2d8c),
                  0x72be5d74, 0x00000000)
            == Hash(0x87912990, 0xf71fc5a9, 0x4798a3f4, 0x8c87346b, 0x1e578218, 0x816fd6e9, 0x436b23e8, 0x1cc92596)
  {
  }

  lemma Round13()
    ensures Round(Hash(0x87912990, 0xf71fc5a9, 0x4798a3f4, 0x8c87346b, 0x1e578218, 0x816fd6e9, 0x436b23e8, 0x1cc92596),
                  0x80deb1fe, 0x00000000)
            == Hash(0xd932eb16, 0x87912990, 0xf71fc5a9, 0x4798a3f4, 0x745a48de, 0x1e578218, 0x816fd6e9, 0x436b23e8)
  {
  }

  lemma Round14()
    ensures Round(Hash(0xd932eb16, 0x87912990, 0xf71fc5a9, 0x4798a3f4, 0x745a48de, 0x1e578218, 0x816fd6e9, 0x436b23e8),
                  0x9bdc06a7, 0x00000000)
            == Hash(0xc0645fde, 0xd932eb16, 0x87912990, 0xf71fc5a9, 0x0b92f20c, 0x745a48de, 0x1e578218, 0x816fd6e9)
  {
  }

  lemma Round15()
    ensures Round(Hash(0xc0645fde, 0xd932eb16, 0x87912990, 0xf71fc5a9, 0x0b92f20c, 0x745a48de, 0x1e578218, 0x816fd6e9),
                  0xc19bf174, 0x00000018)
            == Hash(0xb0fa238e, 0xc0645fde, 0xd932eb16, 0x87912990, 0x07590dcd, 0x0b92f20c, 0x745a48de, 0x1e578218)
  {
  }

  lemma Round16()
    ensures Round(Hash(0xb0fa238e, 0xc0645fde, 0xd932eb16, 0x87912990, 0x07590dcd, 0x0b92f20c, 0x745a48de, 0x1e578218),
                  0xe49b69c1, 0x61626380)
            == Hash(0x21da9a9b, 0xb0fa238e, 0xc0645fde, 0xd932eb16, 0x8034229c, 0x07590dcd, 0x0b92f20c, 0x745a48de)
  {
  }

  lemma Round17()
    ensures Round(Hash(0x21da9a9b, 0xb0fa238e, 0xc0645fde, 0xd932eb16, 0x8034229c, 0x07590dcd, 0x0b92f20c, 0x745a48de),
                  0xefbe4786, 0x000f0000)
            == Hash(0xc2fbd9d1, 0x21da9a9b, 0xb0fa238e, 0xc0645fde, 0x846ee454, 0x8034229c, 0x07590dcd, 0x0b92f20c)
  {
  }

  lemma Round18()
    ensures Round(Hash(0xc2fbd9d1, 0x21da9a9b, 0xb0fa238e, 0xc0645fde, 0x846ee454, 0x8034229c, 0x07590dcd, 0x0b92f20c),
                  0x0fc19dc6, 0x7da86405)
            == Hash(0xfe777bbf, 0xc2fbd9d1, 0x21da9a9b, 0xb0fa238e, 0xcc899961, 0x846ee454, 0x8034229c, 0x07590dcd)
  {
  }

  lemma Round19()
    ensures Round(Hash(0xfe777bbf, 0xc2fbd9d1, 0x21da9a9b, 0xb0fa238e, 0xcc899961, 0x846ee454, 0x8034229c, 0x07590dcd),
                  0x240ca1cc, 0x600003c6)
            == Hash(0xe1f20c33, 0xfe777bbf, 0xc2fbd9d1, 0x21da9a9b, 0xb0638179, 0xcc899961, 0x846ee454, 0x8034229c)
  {
  }

  lemma Round20()
    ensures Round(Hash(0xe1f20c33, 0xfe777bbf, 0xc2fbd9d1, 0x21da9a9b, 0xb0638179, 0xcc899961, 0x846ee454, 0x8034229c),
                  0x2de92c6f, 0x3e9d7b78)
            == Hash(0x9dc68b63, 0xe1f20c33, 0xfe777bbf, 0xc2fbd9d1, 0x8ada8930, 0xb0638179, 0xcc899961, 0x846ee454)
  {
  }

  lemma Round21()
    ensures Round(Hash(0x9dc68b63, 0xe1f20c33, 0xfe777bbf, 0xc2fbd9d1, 0x8ada8930, 0xb0638179, 0xcc899961, 0x846ee454),
                  0x4a7484aa, 0x0183fc00)
            == Hash(0xc2606d6d, 0x9dc68b63, 0xe1f20c33, 0xfe777bbf, 0xe1257970, 0x8ada8930, 0xb0638179, 0xcc899961)
  {
  }

  lemma Round22()
    ensures Round(Hash(0xc2606d6d, 0x9dc68b63, 0xe1f20c33, 0xfe777bbf, 0xe1257970, 0x8ada8930, 0xb0638179, 0xcc899961),
                  0x5cb0a9dc, 0x12dcbfdb)
            == Hash(0xa7a3623f, 0xc2606d6d, 0x9dc68b63, 0xe1f20c33, 0x49f5114a, 0xe1257970, 0x8ada8930, 0xb0638179)
  {
  }

  lemma Round23()
    ensures Round(Hash(0xa7a3623f, 0xc2606d6d, 0x9dc68b63, 0xe1f20c33, 0x49f5114a, 0xe1257970, 0x8ada8930, 0xb0638179),
                  0x76f988da, 0xe2e2c38e)
            == Hash(0xc5d53d8d, 0xa7a3623f, 0xc2606d6d, 0x9dc68b63, 0xaa47c347, 0x49f5114a, 0xe1257970, 0x8ada8930)
  {
  }

  lemma Round24()
    ensures Round(Hash(0xc5d53d8d, 0xa7a3623f, 0xc2606d6d, 0x9dc68b63, 0xaa47c347, 0x49f5114a, 0xe1257970, 0x8ada8930),
                  0x983e5152, 0xc8215c1a)
            == Hash(0x1c2c2838, 0xc5d53d8d, 0xa7a3623f, 0xc2606d6d, 0x2823ef91, 0xaa47c347, 0x49f5114a, 0xe1257970)
  {
  }

  lemma Round25()
    ensures Round(Hash(0x1c2c2838, 0xc5d53d8d, 0xa7a3623f, 0xc2606d6d, 0x2823ef91, 0xaa47c347, 0x49f5114a, 0xe1257970),
                  0xa831c66d, 0xb73679a2)
            == Hash(0xcde8037d, 0x1c2c2838, 0xc5d53d8d, 0xa7a3623f, 0x14383d8e, 0x2823ef91, 0xaa47c347, 0x49f5114a)
  {
  }

  lemma Round26()
    ensures Round(Hash(0xcde8037d, 0x1c2c2838, 0xc5d53d8d, 0xa7a3623f, 0x14383d8e, 0x2823ef91, 0xaa47c347, 0x49f5114a),
                  0xb00327c8, 0xe5bc3909)
            == Hash(0xb62ec4bc, 0xcde8037d, 0x1c2c2838, 0xc5d53d8d, 0xc74c6516, 0x14383d8e, 0x2823ef91, 0xaa47c347)
  {
  }

  lemma Round27()
    ensures Round(Hash(0xb62ec4bc, 0xcde8037d, 0x1c2c2838, 0xc5d53d8d, 0xc74c6516, 0x14383d8e, 0x2823ef91, 0xaa47c347),
                  0xbf597fc7, 0x32663c5b)
            == Hash(0x77d37528, 0xb62ec4bc, 0xcde8037d, 0x1c2c2838, 0xedffbff8, 0xc74c6516, 0x14383d8e, 0x2823ef91)
  {
  }

  lemma Round28()
    ensures Round(Hash(0x77d37528, 0xb62ec4bc, 0xcde8037d, 0x1c2c2838, 0xedffbff8, 0xc74c6516, 0x14383d8e, 0x2823ef91),
                  0xc6e00bf3, 0x9d209d67)
            == Hash(0x363482c9, 0x77d37528, 0xb62ec4bc, 0xcde8037d, 0x6112a3b7, 0xedffbff8, 0xc74c6516, 0x14383d8e)
  {
  }

  lemma Round29()
    ensures Round(Hash(0x363482c9, 0x77d37528, 0xb62ec4bc, 0xcde8037d, 0x6112a3b7, 0xedffbff8, 0xc74c6516, 0x14383d8e),
                  0xd5a79147, 0xec8726cb)
            == Hash(0xa0060b30, 0x363482c9, 0x77d37528, 0xb62ec4bc, 0xade79437, 0x6112a3b7, 0xedffbff8, 0xc74c6516)
  {
  }

  lemma Round30()
    ensures Round(Hash(0xa0060b30, 0x363482c9, 0x77d37528, 0xb62ec4bc, 0xade79437, 0x6112a3b7, 0xedffbff8, 0xc74c6516),
                  0x06ca6351, 0x702138a4)
            == Hash(0xea992a22, 0xa0060b30, 0x363482c9, 0x77d37528, 0x0109ab3a, 0xade79437, 0x6112a3b7, 0xedffbff8)
  {
  }

  lemma Round31()
    ensures Round(Hash(0xea992a22, 0xa0060b30, 0x363482c9, 0x77d37528, 0x0109ab3a, 0xade79437, 0x6112a3b7, 0xedffbff8),
                  0x14292967, 0xd3b7973b)
            == Hash(0x73b33bf5, 0xea992a22, 0xa0060b30, 0x363482c9, 0xba591112, 0x0109ab3a, 0xade79437, 0x6112a3b7)
  {
  }

  lemma Round32()
    ensures Round(Hash(0x73b33bf5, 0xea992a22, 0xa0060b30, 0x363482c9, 0xba591112, 0x0109ab3a, 0xade79437, 0x6112a3b7),
                  0x27b70a85, 0x93f5997f)
            == Hash(0x98e12507, 0x73b33bf5, 0xea992a22, 0xa0060b30, 0x9cd9f5f6, 0xba591112, 0x0109ab3a, 0xade79437)
  {
  }

  lemma Round33()
    ensures Round(Hash(0x98e12507, 0x73b33bf5, 0xea992a22, 0xa0060b30, 0x9cd9f5f6, 0xba591112, 0x0109ab3a, 0xade79437),
                  0x2e1b2138, 0x3b68ba73)
            == Hash(0xfe604df5, 0x98e12507, 0x73b33bf5, 0xea992a22, 0x59249dd3, 0x9cd9f5f6, 0xba591112, 0x0109ab3a)
  {
  }

  lemma Round34()
    ensures Round(Hash(0xfe604df5, 0x98e12507, 0x73b33bf5, 0xea992a22, 0x59249dd3, 0x9cd9f5f6, 0xba591112, 0x0109ab3a),
                  0x4d2c6dfc, 0xaff4ffc1)
            == Hash(0xa9a7738c, 0xfe604df5, 0x98e12507, 0x73b33bf5, 0x085f3833, 0x59249dd3, 0x9cd9f5f6, 0xba591112)
  {
  }

  lemma Round35()
    ensures Round(Hash(0xa9a7738c, 0xfe604df5, 0x98e12507, 0x73b33bf5, 0x085f3833, 0x59249dd3, 0x9cd9f5f6, 0xba591112),
                  0x53380d13, 0xf10a5c62)
            == Hash(0x65a0cfe4, 0xa9a7738c, 0xfe604df5, 0x98e12507, 0xf4b002d6, 0x085f3833, 0x59249dd3, 0x9cd9f5f6)
  {
  }

  lemma Round36()
    ensures Round(Hash(0x65a0cfe4, 0xa9a7738c, 0xfe604df5, 0x98e12507, 0xf4b002d6, 0x085f3833, 0x59249dd3, 0x9cd9f5f6),
                  0x650a7354, 0x0a8b3996)
            == Hash(0x41a65cb1, 0x65a0cfe4, 0xa9a7738c, 0xfe604df5, 0x0772a26b, 0xf4b002d6, 0x085f3833, 0x59249dd3)
  {
  }

  lemma Round37()
    ensures Round(Hash(0x41a65cb1, 0x65a0cfe4, 0xa9a7738c, 0xfe604df5, 0x0772a26b, 0xf4b002d6, 0x085f3833, 0x59249dd3),
                  0x766a0abb, 0x72af830a)
            == Hash(0x34df1604, 0x41a65cb1, 0x65a0cfe4, 0xa9a7738c, 0xa507a53d, 0x0772a26b, 0xf4b002d6, 0x085f3833)
  {
  }

  lemma Round38()
    ensures Round(Hash(0x34df1604, 0x41a65cb1, 0x65a0cfe4, 0xa9a7738c, 0xa507a53d, 0x0772a26b, 0xf4b002d6, 0x085f3833),
                  0x81c2c92e, 0x9409e33e)
            == Hash(0x6dc57a8a, 0x34df1604, 0x41a65cb1, 0x65a0cfe4, 0xf0781bc8, 0xa507a53d, 0x0772a26b, 0xf4b002d6)
  {
  }

  lemma Round39()
    ensures Round(Hash(0x6dc57a8a, 0x34df1604, 0x41a65cb1, 0x65a0cfe4, 0xf0781bc8, 0xa507a53d, 0x0772a26b, 0xf4b002d6),
                  0x92722c85, 0x24641522)
            == Hash(0x79ea687a, 0x6dc57a8a, 0x34df1604, 0x41a65cb1, 0x1efbc0a0, 0xf0781bc8, 0xa507a53d, 0x0772a26b)
  {
  }

  lemma Round40()
    ensures Round(Hash(0x79ea687a, 0x6dc57a8a, 0x34df1604, 0x41a65cb1, 0x1efbc0a0, 0xf0781bc8, 0xa507a53d, 0x0772a26b),
                  0xa2bfe8a1, 0x9f47bf94)
            == Hash(0xd6670766, 0x79ea687a, 0x6dc57a8a, 0x34df1604, 0x26352d63, 0x1efbc0a0, 0xf0781bc8, 0xa507a53d)
  {
  }

  lemma Round41()
    ensures Round(Hash(0xd6670766, 0x79ea687a, 0x6dc57a8a, 0x34df1604, 0x26352d63, 0x1efbc0a0, 0xf0781bc8, 0xa507a53d),
                  0xa81a664b, 0xf0a64f5a)
            == Hash(0xdf46652f, 0xd6670766, 0x79ea687a, 0x6dc57a8a, 0x838b2711, 0x26352d63, 0x1efbc0a0, 0xf0781bc8)
  {
  }

  lemma Round42()
    ensures Round(Hash(0xdf46652f, 0xd6670766, 0x79ea687a, 0x6dc57a8a, 0x838b2711, 0x26352d63, 0x1efbc0a0, 0xf0781bc8),
                  0xc24b8b70, 0x3e246a79)
            == Hash(0x17aa0dfe, 0xdf46652f, 0xd6670766, 0x79ea687a, 0xdecd4715, 0x838b2711, 0x26352d63, 0x1efbc0a0)
  {
  }

  lemma Round43()
    ensures Round(Hash(0x17aa0dfe, 0xdf46652f, 0xd6670766, 0x79ea687a, 0xdecd4715, 0x838b2711, 0x26352d63, 0x1efbc0a0),
                  0xc76c51a3, 0x27333ba3)
            == Hash(0x9d4baf93, 0x17aa0dfe, 0xdf46652f, 0xd6670766, 0xfda24c2e, 0xdecd4715, 0x838b2711, 0x26352d63)
  {
  }

  lemma Round44()
    ensures Round(Hash(0x9d4baf93, 0x17aa0dfe, 0xdf46652f, 0xd6670766, 0xfda24c2e, 0xdecd4715, 0x838b2711, 0x26352d63),
                  0xd192e819, 0x0c4763f2)
            == Hash(0x26628815, 0x9d4baf93, 0x17aa0dfe, 0xdf46652f, 0xa80f11f0, 0xfda24c2e, 0xdecd4715, 0x838b2711)
  {
  }

  lemma Round45()
    ensures Round(Hash(0x26628815, 0x9d4baf93, 0x17aa0dfe, 0xdf46652f, 0xa80f11f0, 0xfda24c2e, 0xdecd4715, 0x838b2711),
                  0xd6990624, 0x840abf27)
            == Hash(0x72ab4b91, 0x26628815, 0x9d4baf93, 0x17aa0dfe, 0xb7755da1, 0xa80f11f0, 0xfda24c2e, 0xdecd4715)
  {
  }

  lemma Round46()
    ensures Round(Hash(0x72ab4b91, 0x26628815, 0x9d4baf93, 0x17aa0dfe, 0xb7755da1, 0xa80f11f0, 0xfda24c2e, 0xdecd4715),
                  0xf40e3585, 0x7a290d5d)
            == Hash(0xa14c14b0, 0x72ab4b91, 0x26628815, 0x9d4baf93, 0xd57b94a9, 0xb7755da1, 0xa80f11f0, 0xfda24c2e)
  {
  }

  lemma Round47()
    ensures Round(Hash(0xa14c14b0, 0x72ab4b91, 0x26628815, 0x9d4baf93, 0xd57b94a9, 0xb7755da1, 0xa80f11f0, 0xfda24c2e),
                  0x106aa070, 0x065c43da)
            == Hash(0x4172328d, 0xa14c14b0, 0x72ab4b91, 0x26628815, 0xfecf0bc6, 0xd57b94a9, 0xb7755da1, 0xa80f11f0)
  {
  }

  lemma Round48()
    ensures Round(Hash(0x4172328d, 0xa14c14b0, 0x72ab4b91, 0x26628815, 0xfecf0bc6, 0xd57b94a9, 0xb7755da1, 0xa80f11f0),
                  0x19a4c116, 0xfb3e89cb)
            == Hash(0x05757ceb, 0x4172328d, 0xa14c14b0, 0x72ab4b91, 0xbd714038, 0xfecf0bc6, 0xd57b94a9, 0xb7755da1)
  {
  }

  lemma Round49()
    ensures Round(Hash(0x05757ceb, 0x4172328d, 0xa14c14b0, 0x72ab4b91, 0xbd714038, 0xfecf0bc6, 0xd57b94a9, 0xb7755da1),
                  0x1e376c08, 0xcc7617db)
            == Hash(0xf11bfaa8, 0x05757ceb, 0x4172328d, 0xa14c14b0, 0x6e5c390c, 0xbd714038, 0xfecf0bc6, 0xd57b94a9)
  {
  }

  lemma Round50()
    ensures Round(Hash(0xf11bfaa8, 0x05757ceb, 0x4172328d, 0xa14c14b0, 0x6e5c390c, 0xbd714038, 0xfecf0bc6, 0xd57b94a9),
                  0x2748774c, 0xb9e66c34)
            == Hash(0x7a0508a1, 0xf11bfaa8, 0x05757ceb, 0x4172328d, 0x52f1ccf7, 0x6e5c390c, 0xbd714038, 0xfecf0bc6)
  {
  }

  lemma Round51()
    ensures Round(Hash(0x7a0508a1, 0xf11bfaa8, 0x05757ceb, 0x4172328d, 0x52f1ccf7, 0x6e5c390c, 0xbd714038, 0xfecf0bc6),
                  0x34b0bcb5, 0xa9993667)
            == Hash(0x886e7a22, 0x7a0508a1, 0xf11bfaa8, 0x05757ceb, 0x49231c1e, 0x52f1ccf7, 0x6e5c390c, 0xbd714038)
  {
  }

  lemma Round52()
    ensures Round(Hash(0x886e7a22, 0x7a0508a1, 0xf11bfaa8, 0x05757ceb, 0x49231c1e, 0x52f1ccf7, 0x6e5c390c, 0xbd714038),
                  0x391c0cb3, 0x84badedd)
            == Hash(0x101fd28f, 0x886e7a22, 0x7a0508a1, 0xf11bfaa8, 0x529e7d00, 0x49231c1e, 0x52f1ccf7, 0x6e5c390c)
  {
  }

  lemma Round53()
    ensures Round(Hash(0x101fd28f, 0x886e7a22, 0x7a0508a1, 0xf11bfaa8, 0x529e7d00, 0x49231c1e, 0x52f1ccf7, 0x6e5c390c),
                  0x4ed8aa4a, 0xc21462bc)
            == Hash(0xf5702fdb, 0x101fd28f, 0x886e7a22, 0x7a0508a1, 0x9f4787c3, 0x529e7d00, 0x49231c1e, 0x52f1ccf7)
  {
  }

  lemma Round54()
    ensures Round(Hash(0xf5702fdb, 0x101fd28f, 0x886e7a22, 0x7a0508a1, 0x9f4787c3, 0x529e7d00, 0x49231c1e, 0x52f1ccf7),
                  0x5b9cca4f, 0x1487472c)
            == Hash(0x3ec45cdb, 0xf5702fdb, 0x101fd28f, 0x886e7a22, 0xe50e1b4f, 0x9f4787c3, 0x529e7d00, 0x49231c1e)
  {
  }

  lemma Round55()
    ensures Round(Hash(0x3ec45cdb, 0xf5702fdb, 0x101fd28f, 0x886e7a22, 0xe50e1b4f, 0x9f4787c3, 0x529e7d00, 0x49231c1e),
                  0x682e6ff3, 0xb20f7a99)
            == Hash(0x38cc9913, 0x3ec45cdb, 0xf5702fdb, 0x101fd28f, 0x54cb266b, 0xe50e1b4f, 0x9f4787c3, 0x529e7d00)
  {
  }

  lemma Round56()
    ensures Round(Hash(0x38cc9913, 0x3ec45cdb, 0xf5702fdb, 0x101fd28f, 0x54cb266b, 0xe50e1b4f, 0x9f4787c3, 0x529e7d00),
                  0x748f82ee, 0xef57b9cd)
            == Hash(0xfcd1887b, 0x38cc9913, 0x3ec45cdb, 0xf5702fdb, 0x9b5e906c, 0x54cb266b, 0xe50e1b4f, 0x9f4787c3)
  {
  }

  lemma Round57()
    ensures Round(Hash(0xfcd1887b, 0x38cc9913, 0x3ec45cdb, 0xf5702fdb, 0x9b5e906c, 0x54cb266b, 0xe50e1b4f, 0x9f4787c3),
                  0x78a5636f, 0xebe6b238)
            == Hash(0xc062d46f, 0xfcd1887b, 0x38cc9913, 0x3ec45cdb, 0x7e44008e, 0x9b5e906c, 0x54cb266b, 0xe50e1b4f)
  {
  }

  lemma Round58()
    ensures Round(Hash(0xc062d46f, 0xfcd1887b, 0x38cc9913, 0x3ec45cdb, 0x7e44008e, 0x9b5e906c, 0x54cb266b, 0xe50e1b4f),
                  0x84c87814, 0x9fe3095e)
            == Hash(0xffb70472, 0xc062d46f, 0xfcd1887b, 0x38cc9913, 0x6d83bfc6, 0x7e44008e, 0x9b5e906c, 0x54cb266b)
  {
  }

  lemma Round59()
    ensures Round(Hash(0xffb70472, 0xc062d46f, 0xfcd1887b, 0x38cc9913, 0x6d83bfc6, 0x7e44008e, 0x9b5e906c, 0x54cb266b),
                  0x8cc70208, 0x78bc8d4b)
            == Hash(0xb6ae8fff, 0xffb70472, 0xc062d46f, 0xfcd1887b, 0xb21bad3d, 0x6d83bfc6, 0x7e44008e, 0x9b5e906c)
  {
  }

  lemma Round60()
    ensures Round(Hash(0xb6ae8fff, 0xffb70472, 0xc062d46f, 0xfcd1887b, 0xb21bad3d, 0x6d83bfc6, 0x7e44008e, 0x9b5e906c),
                  0x90befffa, 0xa43fcf15)
            == Hash(0xb85e2ce9, 0xb6ae8fff, 0xffb70472, 0xc062d46f, 0x961f4894, 0xb21bad3d, 0x6d83bfc6, 0x7e44008e)
  {
  }

  lemma Round61()
    ensures Round(Hash(0xb85e2ce9, 0xb6ae8fff, 0xffb70472, 0xc062d46f, 0x961f4894, 0xb21bad3d, 0x6d83bfc6, 0x7e44008e),
                  0xa4506ceb, 0x668b2ff8)
            == Hash(0x04d24d6c, 0xb85e2ce9, 0xb6ae8fff, 0xffb70472, 0x948d25b6, 0x961f4894, 0xb21bad3d, 0x6d83bfc6)
  {
  }

  lemma Round62()
    ensures Round(Hash(0x04d24d6c, 0xb85e2ce9, 0xb6ae8fff, 0xffb70472, 0x948d25b6, 0x961f4894, 0xb21bad3d, 0x6d83bfc6),
                  0xbef9a3f7, 0xeeaba2cc)
            == Hash(0xd39a2165, 0x04d24d6c, 0xb85e2ce9, 0xb6ae8fff, 0xfb121210, 0x948d25b6, 0x961f4894, 0xb21bad3d)
  {
  }

  lemma Round63()
    ensures Round(Hash(0xd39a2165, 0x04d24d6c, 0xb85e2ce9, 0xb6ae8fff, 0xfb121210, 0x948d25b6, 0x961f4894, 0xb21bad3d),
                  0xc67178f2, 0x12b1edeb)
            == Hash(0x506e3058, 0xd39a2165, 0x04d24d6c, 0xb85e2ce9, 0x5ef50f24, 0xfb121210, 0x948d25b6, 0x961f4894)
  {
  }

  /** The schedule of the block is the table. */
  ghost predicate Scheduled(p: seq<byte>)
    requires |p| == 64
  {
    forall t :: 0 <= t < 64 ==> W(p, 0, t) == SCHEDULED[t]
  }

  lemma NextRound(p: seq<byte>, t: nat)
    requires |p| == 64 && t < 64 && Scheduled(p)
    ensures Rounds(p, 0, INITIAL, t + 1) == Round(Rounds(p, 0, INITIAL, t), K[t], SCHEDULED[t])
  {
    hide Round, INITIAL, SCHEDULED, K, W;
  }

  lemma Rounds0(p: seq<byte>)
    requires |p| == 64 && Scheduled(p)
    requires Rounds(p, 0, INITIAL, 0)
             == Hash(0x6a09e667, 0xbb67ae85, 0x3c6ef372, 0xa54ff53a, 0x510e527f, 0x9b05688c, 0x1f83d9ab, 0x5be0cd19)
    ensures Rounds(p, 0, INITIAL, 4)
            == Hash(0xd550f666, 0xc8c347a7, 0x5a6ad9ad, 0x5d6aebcd, 0x24e00850, 0xf92939eb, 0x78ce7989, 0xfa2a4622)
  {
    hide Scheduled, Rounds, INITIAL, Round;
    NextRound(p, 0); Round0();
    NextRound(p, 1); Round1();
    NextRound(p, 2); Round2();
    NextRound(p, 3); Round3();
  }

  lemma Rounds1(p: seq<byte>)
    requires |p| == 64 && Scheduled(p)
    requires Rounds(p, 0, INITIAL, 4)
             == Hash(0xd550f666, 0xc8c347a7, 0x5a6ad9ad, 0x5d6aebcd, 0x24e00850, 0xf92939eb, 0x78ce7989, 0xfa2a4622)
    ensures Rounds(p, 0, INITIAL, 8)
            == Hash(0x85a07b5f, 0xe5030380, 0x2b4209f5, 0x04409a6a, 0x0c657a79, 0x9b27a401, 0x714260ad, 0x43ada245)
  {
    hide Scheduled, Rounds, INITIAL, Round;
    NextRound(p, 4); Round4();
    NextRound(p, 5); Round5();
    NextRound(p, 6); Round6();
    NextRound(p, 7); Round7();
  }

  lemma Rounds2(p: seq<byte>)
    requires |p| == 64 && Scheduled(p)
    requires Rounds(p, 0, INITIAL, 8)
             == Hash(0x85a07b5f, 0xe5030380, 0x2b4209f5, 0x04409a6a, 0x0c657a79, 0x9b27a401, 0x714260ad, 0x43ada245)
    ensures Rounds(p, 0, INITIAL, 12)
            == Hash(0xf71fc5a9, 0x4798a3f4, 0x8c87346b, 0x8e04ecb9, 0x816fd6e9, 0x436b23e8, 0x1cc92596, 0x32ca2d8c)
  {
    hide Scheduled, Rounds, INITIAL, Round;
    NextRound(p, 8); Round8();
    NextRound(p, 9); Round9();
    NextRound(p, 10); Round10();
    NextRound(p, 11); Round11();
  }

  lemma Rounds3(p: seq<byte>)
    requires |p| == 64 && Scheduled(p)
    requires Rounds(p, 0, INITIAL, 12)
             == Hash(0xf71fc5a9, 0x4798a3f4, 0x8c87346b, 0x8e04ecb9, 0x816fd6e9, 0x436b23e8, 0x1cc92596, 0x32ca2d8c)
    ensures Rounds(p, 0, INITIAL, 16)
            == Hash(0xb0fa238e, 0xc0645fde, 0xd932eb16, 0x87912990, 0x07590dcd, 0x0b92f20c, 0x745a48de, 0x1e578218)
  {
    hide Scheduled, Rounds, INITIAL, Round;
    NextRound(p, 12); Round12();
    NextRound(p, 13); Round13();
    NextRound(p, 14); Round14();
    NextRound(p, 15); Round15();
  }

  lemma Rounds4(p: seq<byte>)
    requires |p| == 64 && Scheduled(p)
    requires Rounds(p, 0, INITIAL, 16)
             == Hash(0xb0fa238e, 0xc0645fde, 0xd932eb16, 0x87912990, 0x07590dcd, 0x0b92f20c, 0x745a48de, 0x1e578218)
    ensures Rounds(p, 0, INITIAL, 20)
            == Hash(0xe1f20c33, 0xfe777bbf, 0xc2fbd9d1, 0x21da9a9b, 0xb0638179, 0xcc899961, 0x846ee454, 0x8034229c)
  {
    hide Scheduled, Rounds, INITIAL, Round;
    NextRound(p, 16); Round16();
    NextRound(p, 17); Round17();
    NextRound(p, 18); Round18();
    NextRound(p, 19); Round19();
  }

  lemma Rounds5(p: seq<byte>)
    requires |p| == 64 && Scheduled(p)
    requires Rounds(p, 0, INITIAL, 20)
             == Hash(0xe1f20c33, 0xfe777bbf, 0xc2fbd9d1, 0x21da9a9b, 0xb0638179, 0xcc899961, 0x846ee454, 0x8034229c)
    ensures Rounds(p, 0, INITIAL, 24)
            == Hash(0xc5d53d8d, 0xa7a3623f, 0xc2606d6d, 0x9dc68b63, 0xaa47c347, 0x49f5114a, 0xe1257970, 0x8ada8930)
  {
    hide Scheduled, Rounds, INITIAL, Round;
    NextRound(p, 20); Round20();
    NextRound(p, 21); Round21();
    NextRound(p, 22); Round22();
    NextRound(p, 23); Round23();
  }

  lemma Rounds6(p: seq<byte>)
    requires |p| == 64 && Scheduled(p)
    requires Rounds(p, 0, INITIAL, 24)
             == Hash(0xc5d53d8d, 0xa7a3623f, 0xc2606d6d, 0x9dc68b63, 0xaa47c347, 0x49f5114a, 0xe1257970, 0x8ada8930)
    ensures Rounds(p, 0, INITIAL, 28)
            == Hash(0x77d37528, 0xb62ec4bc, 0xcde8037d, 0x1c2c2838, 0xedffbff8, 0xc74c6516, 0x14383d8e, 0x2823ef91)
  {
    hide Scheduled, Rounds, INITIAL, Round;
    NextRound(p, 24); Round24();
    NextRound(p, 25); Round25();
    NextRound(p, 26); Round26();
    NextRound(p, 27); Round27();
  }

  lemma Rounds7(p: seq<byte>)
    requires |p| == 64 && Scheduled(p)
    requires Rounds(p, 0, INITIAL, 28)
             == Hash(0x77d37528, 0xb62ec4bc, 0xcde8037d, 0x1c2c2838, 0xedffbff8, 0xc74c6516, 0x14383d8e, 0x2823ef91)
    ensures Rounds(p, 0, INITIAL, 32)
            == Hash(0x73b33bf5, 0xea992a22, 0xa0060b30, 0x363482c9, 0xba591112, 0x0109ab3a, 0xade79437, 0x6112a3b7)
  {
    hide Scheduled, Rounds, INITIAL, Round;
    NextRound(p, 28); Round28();
    NextRound(p, 29); Round29();
    NextRound(p, 30); Round30();
    NextRound(p, 31); Round31();
  }

  lemma Rounds8(p: seq<byte>)
    requires |p| == 64 && Scheduled(p)
    requires Rounds(p, 0, INITIAL, 32)
             == Hash(0x73b33bf5, 0xea992a22, 0xa0060b30, 0x363482c9, 0xba591112, 0x0109ab3a, 0xade79437, 0x6112a3b7)
    ensures Rounds(p, 0, INITIAL, 36)
            == Hash(0x65a0cfe4, 0xa9a7738c, 0xfe604df5, 0x98e12507, 0xf4b002d6, 0x085f3833, 0x59249dd3, 0x9cd9f5f6)
  {
    hide Scheduled, Rounds, INITIAL, Round;
    NextRound(p, 32); Round32();
    NextRound(p, 33); Round33();
    NextRound(p, 34); Round34();
    NextRound(p, 35); Round35();
  }

  lemma Rounds9(p: seq<byte>)
    requires |p| == 64 && Scheduled(p)
    requires Rounds(p, 0, INITIAL, 36)
             == Hash(0x65a0cfe4, 0xa9a7738c, 0xfe604df5, 0x98e12507, 0xf4b002d6, 0x085f3833, 0x59249dd3, 0x9cd9f5f6)
    ensures Rounds(p, 0, INITIAL, 40)
            == Hash(0x79ea687a, 0x6dc57a8a, 0x34df1604, 0x41a65cb1, 0x1efbc0a0, 0xf0781bc8, 0xa507a53d, 0x0772a26b)
  {
    hide Scheduled, Rounds, INITIAL, Round;
    NextRound(p, 36); Round36();
    NextRound(p, 37); Round37();
    NextRound(p, 38); Round38();
    NextRound(p, 39); Round39();
  }

  lemma Rounds10(p: seq<byte>)
    requires |p| == 64 && Scheduled(p)
    requires Rounds(p, 0, INITIAL, 40)
             == Hash(0x79ea687a, 0x6dc57a8a, 0x34df1604, 0x41a65cb1, 0x1efbc0a0, 0xf0781bc8, 0xa507a53d, 0x0772a26b)
    ensures Rounds(p, 0, INITIAL, 44)
            == Hash(0x9d4baf93, 0x17aa0dfe, 0xdf46652f, 0xd6670766, 0xfda24c2e, 0xdecd4715, 0x838b2711, 0x26352d63)
  {
    hide Scheduled, Rounds, INITIAL, Round;
    NextRound(p, 40); Round40();
    NextRound(p, 41); Round41();
    NextRound(p, 42); Round42();
    NextRound(p, 43); Round43();
  }

  lemma Rounds11(p: seq<byte>)
    requires |p| == 64 && Scheduled(p)
    requires Rounds(p, 0, INITIAL, 44)
             == Hash(0x9d4baf93, 0x17aa0dfe, 0xdf46652f, 0xd6670766, 0xfda24c2e, 0xdecd4715, 0x838b2711, 0x26352d63)
    ensures Rounds(p, 0, INITIAL, 48)
            == Hash(0x4172328d, 0xa14c14b0, 0x72ab4b91, 0x26628815, 0xfecf0bc6, 0xd57b94a9, 0xb7755da1, 0xa80f11f0)
  {
    hide Scheduled, Rounds, INITIAL, Round;
    NextRound(p, 44); Round44();
    NextRound(p, 45); Round45();
    NextRound(p, 46); Round46();
    NextRound(p, 47); Round47();
  }

  lemma Rounds12(p: seq<byte>)
    requires |p| == 64 && Scheduled(p)
    requires Rounds(p, 0, INITIAL, 48)
             == Hash(0x4172328d, 0xa14c14b0, 0x72ab4b91, 0x26628815, 0xfecf0bc6, 0xd57b94a9, 0xb7755da1, 0xa80f11f0)
    ensures Rounds(p, 0, INITIAL, 52)
            == Hash(0x886e7a22, 0x7a0508a1, 0xf11bfaa8, 0x05757ceb, 0x49231c1e, 0x52f1ccf7, 0x6e5c390c, 0xbd714038)
  {
    hide Scheduled, Rounds, INITIAL, Round;
    NextRound(p, 48); Round48();
    NextRound(p, 49); Round49();
    NextRound(p, 50); Round50();
    NextRound(p, 51); Round51();
  }

  lemma Rounds13(p: seq<byte>)
    requires |p| == 64 && Scheduled(p)
    requires Rounds(p, 0, INITIAL, 52)
             == Hash(0x886e7a22, 0x7a0508a1, 0xf11bfaa8, 0x05757ceb, 0x49231c1e, 0x52f1ccf7, 0x6e5c390c, 0xbd714038)
    ensures Rounds(p, 0, INITIAL, 56)
            == Hash(0x38cc9913, 0x3ec45cdb, 0xf5702fdb, 0x101fd28f, 0x54cb266b, 0xe50e1b4f, 0x9f4787c3, 0x529e7d00)
  {
    hide Scheduled, Rounds, INITIAL, Round;
    NextRound(p, 52); Round52();
    NextRound(p, 53); Round53();
    NextRound(p, 54); Round54();
    NextRound(p, 55); Round55();
  }

  lemma Rounds14(p: seq<byte>)
    requires |p| == 64 && Scheduled(p)
    requires Rounds(p, 0, INITIAL, 56)
             == Hash(0x38cc9913, 0x3ec45cdb, 0xf5702fdb, 0x101fd28f, 0x54cb266b, 0xe50e1b4f, 0x9f4787c3, 0x529e7d00)
    ensures Rounds(p, 0, INITIAL, 60)
            == Hash(0xb6ae8fff, 0xffb70472, 0xc062d46f, 0xfcd1887b, 0xb21bad3d, 0x6d83bfc6, 0x7e44008e, 0x9b5e906c)
  {
    hide Scheduled, Rounds, INITIAL, Round;
    NextRound(p, 56); Round56();
    NextRound(p, 57); Round57();
    NextRound(p, 58); Round58();
    NextRound(p, 59); Round59();
  }

  lemma Rounds15(p: seq<byte>)
    requires |p| == 64 && Scheduled(p)
    requires Rounds(p, 0, INITIAL, 60)
             == Hash(0xb6ae8fff, 0xffb70472, 0xc062d46f, 0xfcd1887b, 0xb21bad3d, 0x6d83bfc6, 0x7e44008e, 0x9b5e906c)
    ensures Rounds(p, 0, INITIAL, 64)
            == Hash(0x506e3058, 0xd39a2165, 0x04d24d6c, 0xb85e2ce9, 0x5ef50f24, 0xfb121210, 0x948d25b6, 0x961f4894)
  {
    hide Scheduled, Rounds, INITIAL, Round;
    NextRound(p, 60); Round60();
    NextRound(p, 61); Round61();
    NextRound(p, 62); Round62();
    NextRound(p, 63); Round63();
  }

  lemma AllRounds(p: seq<byte>)
    requires |p| == 64 && Scheduled(p)
    ensures Rounds(p, 0, INITIAL, 64)
            == Hash(0x506e3058, 0xd39a2165, 0x04d24d6c, 0xb85e2ce9, 0x5ef50f24, 0xfb121210, 0x948d25b6, 0x961f4894)
  {
    NoRounds(p);
    hide Scheduled, Rounds, INITIAL;
    Rounds0(p); Rounds1(p); Rounds2(p); Rounds3(p);
    Rounds4(p); Rounds5(p); Rounds6(p); Rounds7(p);
    Rounds8(p); Rounds9(p); Rounds10(p); Rounds11(p);
    Rounds12(p); Rounds13(p); Rounds14(p); Rounds15(p);
  }

  lemma NoRounds(p: seq<byte>)
    requires |p| == 64
    ensures Rounds(p, 0, INITIAL, 0)
            == Hash(0x6a09e667, 0xbb67ae85, 0x3c6ef372, 0xa54ff53a, 0x510e527f, 0x9b05688c, 0x1f83d9ab, 0x5be0cd19)
  {
  }

  // ---------------------------------------------------------------- the digest

  lemma Sums()
    ensures Add(Hash(0x6a09e667, 0xbb67ae85, 0x3c6ef372, 0xa54ff53a, 0x510e527f, 0x9b05688c, 0x1f83d9ab, 0x5be0cd19),
                Hash(0x506e3058, 0xd39a2165, 0x04d24d6c, 0xb85e2ce9, 0x5ef50f24, 0xfb121210, 0x948d25b6, 0x961f4894))
            == Hash(0xba7816bf, 0x8f01cfea, 0x414140de, 0x5dae2223, 0xb00361a3, 0x96177a9c, 0xb410ff61, 0xf20015ad)
  {
  }

  lemma OneBlock(p: seq<byte>)
    requires |p| == 64 && p == Pad(ABC)
    ensures Blocks(p, 1)
            == Hash(0xba7816bf, 0x8f01cfea, 0x414140de, 0x5dae2223, 0xb00361a3, 0x96177a9c, 0xb410ff61, 0xf20015ad)
  {
    Padded();
    FirstWords(p);
    forall t | 0 <= t < 64 ensures W(p, 0, t) == SCHEDULED[t] {
      WordIsScheduled(p, t);
    }
    AllRounds(p);
    Sums();
    NoRounds(p);
    hide Add, W, Pad, SCHEDULED;
    assert Blocks(p, 0) == INITIAL;
  }

  lemma Digits()
    ensures Hex.Digit(0x0) == '0' && Hex.Digit(0x1) == '1' && Hex.Digit(0x2) == '2' && Hex.Digit(0x3) == '3'
    ensures Hex.Digit(0x4) == '4' && Hex.Digit(0x5) == '5' && Hex.Digit(0x6) == '6' && Hex.Digit(0x7) == '7'
    ensures Hex.Digit(0x8) == '8' && Hex.Digit(0x9) == '9' && Hex.Digit(0xa) == 'a' && Hex.Digit(0xb) == 'b'
    ensures Hex.Digit(0xc) == 'c' && Hex.Digit(0xd) == 'd' && Hex.Digit(0xe) == 'e' && Hex.Digit(0xf) == 'f'
  {
  }

  lemma OneDigit(n: nat, d: nat, s: string)
    requires n >= 1 && d < 16 && s == Hex.Text(n)
    ensures Hex.Text(16 * n + d) == s + [Hex.Digit(d)]
  {
  }

  lemma Hex0()
    ensures WordText(0xba7816bf) == "ba7816bf"
  {
    assert Hex.Text(0xb) == "b";
    Digits();
    hide Hex.Text, Hex.Digit;
    OneDigit(0xb, 0xa, "b"); OneDigit(0xba, 0x7, "ba");
    OneDigit(0xba7, 0x8, "ba7"); OneDigit(0xba78, 0x1, "ba78");
    OneDigit(0xba781, 0x6, "ba781"); OneDigit(0xba7816, 0xb, "ba7816");
    OneDigit(0xba7816b, 0xf, "ba7816b");
  }

  lemma Hex1()
    ensures WordText(0x8f01cfea) == "8f01cfea"
  {
    assert Hex.Text(0x8) == "8";
    Digits();
    hide Hex.Text, Hex.Digit;
    OneDigit(0x8, 0xf, "8"); OneDigit(0x8f, 0x0, "8f");
    OneDigit(0x8f0, 0x1, "8f0"); OneDigit(0x8f01, 0xc, "8f01");
    OneDigit(0x8f01c, 0xf, "8f01c"); OneDigit(0x8f01cf, 0xe, "8f01cf");
    OneDigit(0x8f01cfe, 0xa, "8f01cfe");
  }

  lemma Hex2()
    ensures WordText(0x414140de) == "414140de"
  {
    assert Hex.Text(0x4) == "4";
    Digits();
    hide Hex.Text, Hex.Digit;
    OneDigit(0x4, 0x1, "4"); OneDigit(0x41, 0x4, "41");
    OneDigit(0x414, 0x1, "414"); OneDigit(0x4141, 0x4, "4141");
    OneDigit(0x41414, 0x0, "41414"); OneDigit(0x414140, 0xd, "414140");
    OneDigit(0x414140d, 0xe, "414140d");
  }

  lemma Hex3()
    ensures WordText(0x5dae2223) == "5dae2223"
  {
    assert Hex.Text(0x5) == "5";
    Digits();
    hide Hex.Text, Hex.Digit;
    OneDigit(0x5, 0xd, "5"); OneDigit(0x5d, 0xa, "5d");
    OneDigit(0x5da, 0xe, "5da"); OneDigit(0x5dae, 0x2, "5dae");
    OneDigit(0x5dae2, 0x2, "5dae2"); OneDigit(0x5dae22, 0x2, "5dae22");
    OneDigit(0x5dae222, 0x3, "5dae222");
  }

  lemma Hex4()
    ensures WordText(0xb00361a3) == "b00361a3"
  {
    assert Hex.Text(0xb) == "b";
    Digits();
    hide Hex.Text, Hex.Digit;
    OneDigit(0xb, 0x0, "b"); OneDigit(0xb0, 0x0, "b0");
    OneDigit(0xb00, 0x3, "b00"); OneDigit(0xb003, 0x6, "b003");
    OneDigit(0xb0036, 0x1, "b0036"); OneDigit(0xb00361, 0xa, "b00361");
    OneDigit(0xb00361a, 0x3, "b00361a");
  }

  lemma Hex5()
    ensures WordText(0x96177a9c) == "96177a9c"
  {
    assert Hex.Text(0x9) == "9";
    Digits();
    hide Hex.Text, Hex.Digit;
    OneDigit(0x9, 0x6, "9"); OneDigit(0x96, 0x1, "96");
    OneDigit(0x961, 0x7, "961"); OneDigit(0x9617, 0x7, "9617");
    OneDigit(0x96177, 0xa, "96177"); OneDigit(0x96177a, 0x9, "96177a");
    OneDigit(0x96177a9, 0xc, "96177a9");
  }

  lemma Hex6()
    ensures WordText(0xb410ff61) == "b410ff61"
  {
    assert Hex.Text(0xb) == "b";
    Digits();
    hide Hex.Text, Hex.Digit;
    OneDigit(0xb, 0x4, "b"); OneDigit(0xb4, 0x1, "b4");
    OneDigit(0xb41, 0x0, "b41"); OneDigit(0xb410, 0xf, "b410");
    OneDigit(0xb410f, 0xf, "b410f"); OneDigit(0xb410ff, 0x6, "b410ff");
    OneDigit(0xb410ff6, 0x1, "b410ff6");
  }

  lemma Hex7()
    ensures WordText(0xf20015ad) == "f20015ad"
  {
    assert Hex.Text(0xf) == "f";
    Digits();
    hide Hex.Text, Hex.Digit;
    OneDigit(0xf, 0x2, "f"); OneDigit(0xf2, 0x0, "f2");
    OneDigit(0xf20, 0x0, "f20"); OneDigit(0xf200, 0x1, "f200");
    OneDigit(0xf2001, 0x5, "f2001"); OneDigit(0xf20015, 0xa, "f20015");
    OneDigit(0xf20015a, 0xd, "f20015a");
  }

  function WordText(w: word): string {
    Hex.Padded(w as int, 8)
  }

  lemma NextWord(ws: seq<word>, n: nat, text: string, next: string)
    requires n < |ws| && HexOf(ws[..n]) == text && text + WordText(ws[n]) == next
    ensures HexOf(ws[..n + 1]) == next
  {
    assert ws[..n + 1][..n] == ws[..n];
  }

  lemma NoWords()
    ensures HexOf([]) == ""
  {
  }

  /** The words joined, one after the other. */
  lemma TextJoined()
    ensures "ba7816bf" + "8f01cfea" == "ba7816bf8f01cfea"
    ensures "ba7816bf8f01cfea" + "414140de" == "ba7816bf8f01cfea414140de"
    ensures "ba7816bf8f01cfea414140de" + "5dae2223" == "ba7816bf8f01cfea414140de5dae2223"
    ensures "ba7816bf8f01cfea414140de5dae2223" + "b00361a3"
            == "ba7816bf8f01cfea414140de5dae2223b00361a3"
    ensures "ba7816bf8f01cfea414140de5dae2223b00361a3" + "96177a9c"
            == "ba7816bf8f01cfea414140de5dae2223b00361a396177a9c"
    ensures "ba7816bf8f01cfea414140de5dae2223b00361a396177a9c" + "b410ff61"
            == "ba7816bf8f01cfea414140de5dae2223b00361a396177a9cb410ff61"
    ensures "ba7816bf8f01cfea414140de5dae2223b00361a396177a9cb410ff61" + "f20015ad"
            == "ba7816bf8f01cfea414140de5dae2223b00361a396177a9cb410ff61f20015ad"
  {
  }

  lemma DigestText(ws: seq<word>)
    requires ws == [0xba7816bf, 0x8f01cfea, 0x414140de, 0x5dae2223, 0xb00361a3, 0x96177a9c, 0xb410ff61, 0xf20015ad]
    ensures HexOf(ws) == "ba7816bf8f01cfea414140de5dae2223b00361a396177a9cb410ff61f20015ad"
  {
    Hex0(); Hex1(); Hex2(); Hex3(); Hex4(); Hex5(); Hex6(); Hex7();
    TextJoined();
    NoWords();
    hide HexOf, WordText;
    NextWord(ws, 0, "", "ba7816bf");
    NextWord(ws, 1, "ba7816bf", "ba7816bf8f01cfea");
    NextWord(ws, 2, "ba7816bf8f01cfea", "ba7816bf8f01cfea414140de");
    NextWord(ws, 3, "ba7816bf8f01cfea414140de", "ba7816bf8f01cfea414140de5dae2223");
    NextWord(ws, 4, "ba7816bf8f01cfea414140de5dae2223", "ba7816bf8f01cfea414140de5dae2223b00361a3");
    NextWord(ws, 5, "ba7816bf8f01cfea414140de5dae2223b00361a3",
             "ba7816bf8f01cfea414140de5dae2223b00361a396177a9c");
    NextWord(ws, 6, "ba7816bf8f01cfea414140de5dae2223b00361a396177a9c",
             "ba7816bf8f01cfea414140de5dae2223b00361a396177a9cb410ff61");
    NextWord(ws, 7, "ba7816bf8f01cfea414140de5dae2223b00361a396177a9cb410ff61",
             "ba7816bf8f01cfea414140de5dae2223b00361a396177a9cb410ff61f20015ad");
    assert ws[..8] == ws;
  }

  /** The known answer of the standard's first example: it fixes the whole computation. */
  lemma DigestOfAbc()
    ensures HexDigest(ABC) == "ba7816bf8f01cfea414140de5dae2223b00361a396177a9cb410ff61f20015ad"
  {
    Padded();
    OneBlock(Pad(ABC));
    DigestText(Words(Blocks(Pad(ABC), 1)));
    hide Blocks, HexOf, Pad;
  }
}