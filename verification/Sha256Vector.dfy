/** The worked example of FIPS 180-4: the hash of the three octets "abc", round by round. It fixes the
    constants, the rotations, the order of the variables and of the octets, and the padding. */
module Sha256Vector {
  import opened Core
  import opened Sha256
  import opened Sha256Roots

  // ----- the message schedule

  function Expand(w16: bv32, w15: bv32, w7: bv32, w2: bv32): bv32 {
    Add(Add(Add(w16, Small0(w15)), w7), Small1(w2))
  }

  predicate Expanded(z: Words, t: nat)
    requires |z| == 64 && 16 <= t < 64
  {
    z[t] == Expand(z[t - 16], z[t - 15], z[t - 7], z[t - 2])
  }

  /** Sixteen words of the block, and the rest computed from them. */
  predicate Expands(z: Words) {
    |z| == 64 && forall t :: 16 <= t < 64 ==> Expanded(z, t)
  }

  lemma {:induction false} Prefix(block: Text, n: nat, t: nat)
    requires |block| == 64 && t < n <= 64
    ensures Schedule(block, n)[t] == Schedule(block, t + 1)[t]
  {
    hide LoadWord, Small0, Small1, Add;
    if t + 1 < n {
      Prefix(block, n - 1, t);
    }
  }

  lemma ScheduleExpands(block: Text)
    requires |block| == 64
    ensures Expands(Schedule(block, 64))
  {
    hide Schedule, Expanded;
    forall t | 16 <= t < 64
      ensures Expanded(Schedule(block, 64), t)
    {
      ScheduleWord(block, t);
    }
  }

  lemma ScheduleWord(block: Text, t: nat)
    requires |block| == 64 && t < 64
    ensures if t < 16 then Schedule(block, 64)[t] == LoadWord(block, t) else Expanded(Schedule(block, 64), t)
  {
    hide LoadWord, Small0, Small1, Add;
    Prefix(block, 64, t);
    forall u | 0 <= u < t
      ensures Schedule(block, t)[u] == Schedule(block, 64)[u]
    {
      Prefix(block, 64, u);
      Prefix(block, t, u);
    }
  }

  lemma NextWord(z: Words, t: nat, w16: bv32, w15: bv32, w7: bv32, w2: bv32, w: bv32)
    requires Expands(z) && 16 <= t < 64 && Expand(w16, w15, w7, w2) == w
    requires |z| == 64 && z[t - 16] == w16 && z[t - 15] == w15 && z[t - 7] == w7 && z[t - 2] == w2
    ensures z[t] == w
  {
    hide Expand;
    assert Expanded(z, t);
  }

  lemma Expansions16()
    ensures Expand(0x61626380, 0x00000000, 0x00000000, 0x00000000) == 0x61626380
    ensures Expand(0x00000000, 0x00000000, 0x00000000, 0x00000018) == 0x000f0000
    ensures Expand(0x00000000, 0x00000000, 0x00000000, 0x61626380) == 0x7da86405
    ensures Expand(0x00000000, 0x00000000, 0x00000000, 0x000f0000) == 0x600003c6
    ensures Expand(0x00000000, 0x00000000, 0x00000000, 0x7da86405) == 0x3e9d7b78
    ensures Expand(0x00000000, 0x00000000, 0x00000000, 0x600003c6) == 0x0183fc00
    ensures Expand(0x00000000, 0x00000000, 0x00000018, 0x3e9d7b78) == 0x12dcbfdb
    ensures Expand(0x00000000, 0x00000000, 0x61626380, 0x0183fc00) == 0xe2e2c38e
    ensures Expand(0x00000000, 0x00000000, 0x000f0000, 0x12dcbfdb) == 0xc8215c1a
    ensures Expand(0x00000000, 0x00000000, 0x7da86405, 0xe2e2c38e) == 0xb73679a2
    ensures Expand(0x00000000, 0x00000000, 0x600003c6, 0xc8215c1a) == 0xe5bc3909
    ensures Expand(0x00000000, 0x00000000, 0x3e9d7b78, 0xb73679a2) == 0x32663c5b
    ensures Expand(0x00000000, 0x00000000, 0x0183fc00, 0xe5bc3909) == 0x9d209d67
    ensures Expand(0x00000000, 0x00000000, 0x12dcbfdb, 0x32663c5b) == 0xec8726cb
    ensures Expand(0x00000000, 0x00000018, 0xe2e2c38e, 0x9d209d67) == 0x702138a4
    ensures Expand(0x00000018, 0x61626380, 0xc8215c1a, 0xec8726cb) == 0xd3b7973b
  {}

  lemma Words16(z: Words)
    requires Expands(z) && |z| == 64
    requires z[0] == 0x61626380 && z[1] == 0x00000000 && z[2] == 0x00000000 && z[3] == 0x00000000
             && z[4] == 0x00000000 && z[5] == 0x00000000 && z[6] == 0x00000000 && z[7] == 0x00000000
             && z[8] == 0x00000000 && z[9] == 0x00000000 && z[10] == 0x00000000 && z[11] == 0x00000000
             && z[12] == 0x00000000 && z[13] == 0x00000000 && z[14] == 0x00000000 && z[15] == 0x00000018
    ensures z[16] == 0x61626380 && z[17] == 0x000f0000 && z[18] == 0x7da86405 && z[19] == 0x600003c6
            && z[20] == 0x3e9d7b78 && z[21] == 0x0183fc00 && z[22] == 0x12dcbfdb && z[23] == 0xe2e2c38e
            && z[24] == 0xc8215c1a && z[25] == 0xb73679a2 && z[26] == 0xe5bc3909 && z[27] == 0x32663c5b
            && z[28] == 0x9d209d67 && z[29] == 0xec8726cb && z[30] == 0x702138a4 && z[31] == 0xd3b7973b
  {
    hide *;
    Expansions16();
    NextWord(z, 16, 0x61626380, 0x00000000, 0x00000000, 0x00000000, 0x61626380);
    NextWord(z, 17, 0x00000000, 0x00000000, 0x00000000, 0x00000018, 0x000f0000);
    NextWord(z, 18, 0x00000000, 0x00000000, 0x00000000, 0x61626380, 0x7da86405);
    NextWord(z, 19, 0x00000000, 0x00000000, 0x00000000, 0x000f0000, 0x600003c6);
    NextWord(z, 20, 0x00000000, 0x00000000, 0x00000000, 0x7da86405, 0x3e9d7b78);
    NextWord(z, 21, 0x00000000, 0x00000000, 0x00000000, 0x600003c6, 0x0183fc00);
    NextWord(z, 22, 0x00000000, 0x00000000, 0x00000018, 0x3e9d7b78, 0x12dcbfdb);
    NextWord(z, 23, 0x00000000, 0x00000000, 0x61626380, 0x0183fc00, 0xe2e2c38e);
    NextWord(z, 24, 0x00000000, 0x00000000, 0x000f0000, 0x12dcbfdb, 0xc8215c1a);
    NextWord(z, 25, 0x00000000, 0x00000000, 0x7da86405, 0xe2e2c38e, 0xb73679a2);
    NextWord(z, 26, 0x00000000, 0x00000000, 0x600003c6, 0xc8215c1a, 0xe5bc3909);
    NextWord(z, 27, 0x00000000, 0x00000000, 0x3e9d7b78, 0xb73679a2, 0x32663c5b);
    NextWord(z, 28, 0x00000000, 0x00000000, 0x0183fc00, 0xe5bc3909, 0x9d209d67);
    NextWord(z, 29, 0x00000000, 0x00000000, 0x12dcbfdb, 0x32663c5b, 0xec8726cb);
    NextWord(z, 30, 0x00000000, 0x00000018, 0xe2e2c38e, 0x9d209d67, 0x702138a4);
    NextWord(z, 31, 0x00000018, 0x61626380, 0xc8215c1a, 0xec8726cb, 0xd3b7973b);
  }

  lemma Expansions32()
    ensures Expand(0x61626380, 0x000f0000, 0xb73679a2, 0x702138a4) == 0x93f5997f
    ensures Expand(0x000f0000, 0x7da86405, 0xe5bc3909, 0xd3b7973b) == 0x3b68ba73
    ensures Expand(0x7da86405, 0x600003c6, 0x32663c5b, 0x93f5997f) == 0xaff4ffc1
    ensures Expand(0x600003c6, 0x3e9d7b78, 0x9d209d67, 0x3b68ba73) == 0xf10a5c62
    ensures Expand(0x3e9d7b78, 0x0183fc00, 0xec8726cb, 0xaff4ffc1) == 0x0a8b3996
    ensures Expand(0x0183fc00, 0x12dcbfdb, 0x702138a4, 0xf10a5c62) == 0x72af830a
    ensures Expand(0x12dcbfdb, 0xe2e2c38e, 0xd3b7973b, 0x0a8b3996) == 0x9409e33e
    ensures Expand(0xe2e2c38e, 0xc8215c1a, 0x93f5997f, 0x72af830a) == 0x24641522
    ensures Expand(0xc8215c1a, 0xb73679a2, 0x3b68ba73, 0x9409e33e) == 0x9f47bf94
    ensures Expand(0xb73679a2, 0xe5bc3909, 0xaff4ffc1, 0x24641522) == 0xf0a64f5a
    ensures Expand(0xe5bc3909, 0x32663c5b, 0xf10a5c62, 0x9f47bf94) == 0x3e246a79
    ensures Expand(0x32663c5b, 0x9d209d67, 0x0a8b3996, 0xf0a64f5a) == 0x27333ba3
    ensures Expand(0x9d209d67, 0xec8726cb, 0x72af830a, 0x3e246a79) == 0x0c4763f2
    ensures Expand(0xec8726cb, 0x702138a4, 0x9409e33e, 0x27333ba3) == 0x840abf27
    ensures Expand(0x702138a4, 0xd3b7973b, 0x24641522, 0x0c4763f2) == 0x7a290d5d
    ensures Expand(0xd3b7973b, 0x93f5997f, 0x9f47bf94, 0x840abf27) == 0x065c43da
  {}

  lemma Words32(z: Words)
    requires Expands(z) && |z| == 64
    requires z[16] == 0x61626380 && z[17] == 0x000f0000 && z[18] == 0x7da86405 && z[19] == 0x600003c6
             && z[20] == 0x3e9d7b78 && z[21] == 0x0183fc00 && z[22] == 0x12dcbfdb && z[23] == 0xe2e2c38e
             && z[24] == 0xc8215c1a && z[25] == 0xb73679a2 && z[26] == 0xe5bc3909 && z[27] == 0x32663c5b
             && z[28] == 0x9d209d67 && z[29] == 0xec8726cb && z[30] == 0x702138a4 && z[31] == 0xd3b7973b
    ensures z[32] == 0x93f5997f && z[33] == 0x3b68ba73 && z[34] == 0xaff4ffc1 && z[35] == 0xf10a5c62
            && z[36] == 0x0a8b3996 && z[37] == 0x72af830a && z[38] == 0x9409e33e && z[39] == 0x24641522
            && z[40] == 0x9f47bf94 && z[41] == 0xf0a64f5a && z[42] == 0x3e246a79 && z[43] == 0x27333ba3
            && z[44] == 0x0c4763f2 && z[45] == 0x840abf27 && z[46] == 0x7a290d5d && z[47] == 0x065c43da
  {
    hide *;
    Expansions32();
    NextWord(z, 32, 0x61626380, 0x000f0000, 0xb73679a2, 0x702138a4, 0x93f5997f);
    NextWord(z, 33, 0x000f0000, 0x7da86405, 0xe5bc3909, 0xd3b7973b, 0x3b68ba73);
    NextWord(z, 34, 0x7da86405, 0x600003c6, 0x32663c5b, 0x93f5997f, 0xaff4ffc1);
    NextWord(z, 35, 0x600003c6, 0x3e9d7b78, 0x9d209d67, 0x3b68ba73, 0xf10a5c62);
    NextWord(z, 36, 0x3e9d7b78, 0x0183fc00, 0xec8726cb, 0xaff4ffc1, 0x0a8b3996);
    NextWord(z, 37, 0x0183fc00, 0x12dcbfdb, 0x702138a4, 0xf10a5c62, 0x72af830a);
    NextWord(z, 38, 0x12dcbfdb, 0xe2e2c38e, 0xd3b7973b, 0x0a8b3996, 0x9409e33e);
    NextWord(z, 39, 0xe2e2c38e, 0xc8215c1a, 0x93f5997f, 0x72af830a, 0x24641522);
    NextWord(z, 40, 0xc8215c1a, 0xb73679a2, 0x3b68ba73, 0x9409e33e, 0x9f47bf94);
    NextWord(z, 41, 0xb73679a2, 0xe5bc3909, 0xaff4ffc1, 0x24641522, 0xf0a64f5a);
    NextWord(z, 42, 0xe5bc3909, 0x32663c5b, 0xf10a5c62, 0x9f47bf94, 0x3e246a79);
    NextWord(z, 43, 0x32663c5b, 0x9d209d67, 0x0a8b3996, 0xf0a64f5a, 0x27333ba3);
    NextWord(z, 44, 0x9d209d67, 0xec8726cb, 0x72af830a, 0x3e246a79, 0x0c4763f2);
    NextWord(z, 45, 0xec8726cb, 0x702138a4, 0x9409e33e, 0x27333ba3, 0x840abf27);
    NextWord(z, 46, 0x702138a4, 0xd3b7973b, 0x24641522, 0x0c4763f2, 0x7a290d5d);
    NextWord(z, 47, 0xd3b7973b, 0x93f5997f, 0x9f47bf94, 0x840abf27, 0x065c43da);
  }

  lemma Expansions48()
    ensures Expand(0x93f5997f, 0x3b68ba73, 0xf0a64f5a, 0x7a290d5d) == 0xfb3e89cb
    ensures Expand(0x3b68ba73, 0xaff4ffc1, 0x3e246a79, 0x065c43da) == 0xcc7617db
    ensures Expand(0xaff4ffc1, 0xf10a5c62, 0x27333ba3, 0xfb3e89cb) == 0xb9e66c34
    ensures Expand(0xf10a5c62, 0x0a8b3996, 0x0c4763f2, 0xcc7617db) == 0xa9993667
    ensures Expand(0x0a8b3996, 0x72af830a, 0x840abf27, 0xb9e66c34) == 0x84badedd
    ensures Expand(0x72af830a, 0x9409e33e, 0x7a290d5d, 0xa9993667) == 0xc21462bc
    ensures Expand(0x9409e33e, 0x24641522, 0x065c43da, 0x84badedd) == 0x1487472c
    ensures Expand(0x24641522, 0x9f47bf94, 0xfb3e89cb, 0xc21462bc) == 0xb20f7a99
    ensures Expand(0x9f47bf94, 0xf0a64f5a, 0xcc7617db, 0x1487472c) == 0xef57b9cd
    ensures Expand(0xf0a64f5a, 0x3e246a79, 0xb9e66c34, 0xb20f7a99) == 0xebe6b238
    ensures Expand(0x3e246a79, 0x27333ba3, 0xa9993667, 0xef57b9cd) == 0x9fe3095e
    ensures Expand(0x27333ba3, 0x0c4763f2, 0x84badedd, 0xebe6b238) == 0x78bc8d4b
    ensures Expand(0x0c4763f2, 0x840abf27, 0xc21462bc, 0x9fe3095e) == 0xa43fcf15
    ensures Expand(0x840abf27, 0x7a290d5d, 0x1487472c, 0x78bc8d4b) == 0x668b2ff8
    ensures Expand(0x7a290d5d, 0x065c43da, 0xb20f7a99, 0xa43fcf15) == 0xeeaba2cc
    ensures Expand(0x065c43da, 0xfb3e89cb, 0xef57b9cd, 0x668b2ff8) == 0x12b1edeb
  {}

  lemma Words48(z: Words)
    requires Expands(z) && |z| == 64
    requires z[32] == 0x93f5997f && z[33] == 0x3b68ba73 && z[34] == 0xaff4ffc1 && z[35] == 0xf10a5c62
             && z[36] == 0x0a8b3996 && z[37] == 0x72af830a && z[38] == 0x9409e33e && z[39] == 0x24641522
             && z[40] == 0x9f47bf94 && z[41] == 0xf0a64f5a && z[42] == 0x3e246a79 && z[43] == 0x27333ba3
             && z[44] == 0x0c4763f2 && z[45] == 0x840abf27 && z[46] == 0x7a290d5d && z[47] == 0x065c43da
    ensures z[48] == 0xfb3e89cb && z[49] == 0xcc7617db && z[50] == 0xb9e66c34 && z[51] == 0xa9993667
            && z[52] == 0x84badedd && z[53] == 0xc21462bc && z[54] == 0x1487472c && z[55] == 0xb20f7a99
            && z[56] == 0xef57b9cd && z[57] == 0xebe6b238 && z[58] == 0x9fe3095e && z[59] == 0x78bc8d4b
            && z[60] == 0xa43fcf15 && z[61] == 0x668b2ff8 && z[62] == 0xeeaba2cc && z[63] == 0x12b1edeb
  {
    hide *;
    Expansions48();
    NextWord(z, 48, 0x93f5997f, 0x3b68ba73, 0xf0a64f5a, 0x7a290d5d, 0xfb3e89cb);
    NextWord(z, 49, 0x3b68ba73, 0xaff4ffc1, 0x3e246a79, 0x065c43da, 0xcc7617db);
    NextWord(z, 50, 0xaff4ffc1, 0xf10a5c62, 0x27333ba3, 0xfb3e89cb, 0xb9e66c34);
    NextWord(z, 51, 0xf10a5c62, 0x0a8b3996, 0x0c4763f2, 0xcc7617db, 0xa9993667);
    NextWord(z, 52, 0x0a8b3996, 0x72af830a, 0x840abf27, 0xb9e66c34, 0x84badedd);
    NextWord(z, 53, 0x72af830a, 0x9409e33e, 0x7a290d5d, 0xa9993667, 0xc21462bc);
    NextWord(z, 54, 0x9409e33e, 0x24641522, 0x065c43da, 0x84badedd, 0x1487472c);
    NextWord(z, 55, 0x24641522, 0x9f47bf94, 0xfb3e89cb, 0xc21462bc, 0xb20f7a99);
    NextWord(z, 56, 0x9f47bf94, 0xf0a64f5a, 0xcc7617db, 0x1487472c, 0xef57b9cd);
    NextWord(z, 57, 0xf0a64f5a, 0x3e246a79, 0xb9e66c34, 0xb20f7a99, 0xebe6b238);
    NextWord(z, 58, 0x3e246a79, 0x27333ba3, 0xa9993667, 0xef57b9cd, 0x9fe3095e);
    NextWord(z, 59, 0x27333ba3, 0x0c4763f2, 0x84badedd, 0xebe6b238, 0x78bc8d4b);
    NextWord(z, 60, 0x0c4763f2, 0x840abf27, 0xc21462bc, 0x9fe3095e, 0xa43fcf15);
    NextWord(z, 61, 0x840abf27, 0x7a290d5d, 0x1487472c, 0x78bc8d4b, 0x668b2ff8);
    NextWord(z, 62, 0x7a290d5d, 0x065c43da, 0xb20f7a99, 0xa43fcf15, 0xeeaba2cc);
    NextWord(z, 63, 0x065c43da, 0xfb3e89cb, 0xef57b9cd, 0x668b2ff8, 0x12b1edeb);
  }

  // ----- the rounds

  /** The eight working variables after n rounds on a schedule z. */
  predicate At(z: Words, n: nat, a: bv32, b: bv32, c: bv32, d: bv32, e: bv32, f: bv32, g: bv32, h: bv32) {
    |z| == 64 && n <= 64 && Rounds(INITIAL, z, n) == [a, b, c, d, e, f, g, h]
  }

  /** One round brings two new values; the other six move along. */
  predicate Step(a: bv32, b: bv32, c: bv32, d: bv32, e: bv32, f: bv32, g: bv32, h: bv32, k: bv32, w: bv32,
                 first: bv32, fifth: bv32)
  {
    var sum := Add(Add(Add(Add(h, Sigma1(e)), Choose(e, f, g)), k), w);
    fifth == Add(d, sum) && first == Add(sum, Add(Sigma0(a), Majority(a, b, c)))
  }

  lemma Next(z: Words, n: nat, a: bv32, b: bv32, c: bv32, d: bv32, e: bv32, f: bv32, g: bv32, h: bv32,
             k: bv32, w: bv32, first: bv32, fifth: bv32)
    requires n < 64 && At(z, n, a, b, c, d, e, f, g, h) && |z| == 64 && z[n] == w && RoundConstant(n) == k
    requires Step(a, b, c, d, e, f, g, h, k, w, first, fifth)
    ensures At(z, n + 1, first, a, b, c, fifth, e, f, g)
  {
    hide Sigma0, Sigma1, Choose, Majority, Add, RoundConstant;
    assert Rounds(INITIAL, z, n + 1) == Round(Rounds(INITIAL, z, n), k, w);
  }

  lemma Steps0()
    ensures Step(0x6a09e667, 0xbb67ae85, 0x3c6ef372, 0xa54ff53a, 0x510e527f, 0x9b05688c, 0x1f83d9ab, 0x5be0cd19,
                 0x428a2f98, 0x61626380, 0x5d6aebcd, 0xfa2a4622)
    ensures Step(0x5d6aebcd, 0x6a09e667, 0xbb67ae85, 0x3c6ef372, 0xfa2a4622, 0x510e527f, 0x9b05688c, 0x1f83d9ab,
                 0x71374491, 0x00000000, 0x5a6ad9ad, 0x78ce7989)
    ensures Step(0x5a6ad9ad, 0x5d6aebcd, 0x6a09e667, 0xbb67ae85, 0x78ce7989, 0xfa2a4622, 0x510e527f, 0x9b05688c,
                 0xb5c0fbcf, 0x00000000, 0xc8c347a7, 0xf92939eb)
    ensures Step(0xc8c347a7, 0x5a6ad9ad, 0x5d6aebcd, 0x6a09e667, 0xf92939eb, 0x78ce7989, 0xfa2a4622, 0x510e527f,
                 0xe9b5dba5, 0x00000000, 0xd550f666, 0x24e00850)
    ensures Step(0xd550f666, 0xc8c347a7, 0x5a6ad9ad, 0x5d6aebcd, 0x24e00850, 0xf92939eb, 0x78ce7989, 0xfa2a4622,
                 0x3956c25b, 0x00000000, 0x04409a6a, 0x43ada245)
    ensures Step(0x04409a6a, 0xd550f666, 0xc8c347a7, 0x5a6ad9ad, 0x43ada245, 0x24e00850, 0xf92939eb, 0x78ce7989,
                 0x59f111f1, 0x00000000, 0x2b4209f5, 0x714260ad)
    ensures Step(0x2b4209f5, 0x04409a6a, 0xd550f666, 0xc8c347a7, 0x714260ad, 0x43ada245, 0x24e00850, 0xf92939eb,
                 0x923f82a4, 0x00000000, 0xe5030380, 0x9b27a401)
    ensures Step(0xe5030380, 0x2b4209f5, 0x04409a6a, 0xd550f666, 0x9b27a401, 0x714260ad, 0x43ada245, 0x24e00850,
                 0xab1c5ed5, 0x00000000, 0x85a07b5f, 0x0c657a79)
    ensures Step(0x85a07b5f, 0xe5030380, 0x2b4209f5, 0x04409a6a, 0x0c657a79, 0x9b27a401, 0x714260ad, 0x43ada245,
                 0xd807aa98, 0x00000000, 0x8e04ecb9, 0x32ca2d8c)
    ensures Step(0x8e04ecb9, 0x85a07b5f, 0xe5030380, 0x2b4209f5, 0x32ca2d8c, 0x0c657a79, 0x9b27a401, 0x714260ad,
                 0x12835b01, 0x00000000, 0x8c87346b, 0x1cc92596)
    ensures Step(0x8c87346b, 0x8e04ecb9, 0x85a07b5f, 0xe5030380, 0x1cc92596, 0x32ca2d8c, 0x0c657a79, 0x9b27a401,
                 0x243185be, 0x00000000, 0x4798a3f4, 0x436b23e8)
    ensures Step(0x4798a3f4, 0x8c87346b, 0x8e04ecb9, 0x85a07b5f, 0x436b23e8, 0x1cc92596, 0x32ca2d8c, 0x0c657a79,
                 0x550c7dc3, 0x00000000, 0xf71fc5a9, 0x816fd6e9)
    ensures Step(0xf71fc5a9, 0x4798a3f4, 0x8c87346b, 0x8e04ecb9, 0x816fd6e9, 0x436b23e8, 0x1cc92596, 0x32ca2d8c,
                 0x72be5d74, 0x00000000, 0x87912990, 0x1e578218)
    ensures Step(0x87912990, 0xf71fc5a9, 0x4798a3f4, 0x8c87346b, 0x1e578218, 0x816fd6e9, 0x436b23e8, 0x1cc92596,
                 0x80deb1fe, 0x00000000, 0xd932eb16, 0x745a48de)
    ensures Step(0xd932eb16, 0x87912990, 0xf71fc5a9, 0x4798a3f4, 0x745a48de, 0x1e578218, 0x816fd6e9, 0x436b23e8,
                 0x9bdc06a7, 0x00000000, 0xc0645fde, 0x0b92f20c)
    ensures Step(0xc0645fde, 0xd932eb16, 0x87912990, 0xf71fc5a9, 0x0b92f20c, 0x745a48de, 0x1e578218, 0x816fd6e9,
                 0xc19bf174, 0x00000018, 0xb0fa238e, 0x07590dcd)
  {}

  lemma Rounds0(z: Words)
    requires At(z, 0, 0x6a09e667, 0xbb67ae85, 0x3c6ef372, 0xa54ff53a, 0x510e527f, 0x9b05688c, 0x1f83d9ab, 0x5be0cd19)
    requires |z| == 64 && z[0] == 0x61626380 && z[1] == 0x00000000 && z[2] == 0x00000000 && z[3] == 0x00000000
             && z[4] == 0x00000000 && z[5] == 0x00000000 && z[6] == 0x00000000 && z[7] == 0x00000000
             && z[8] == 0x00000000 && z[9] == 0x00000000 && z[10] == 0x00000000 && z[11] == 0x00000000
             && z[12] == 0x00000000 && z[13] == 0x00000000 && z[14] == 0x00000000 && z[15] == 0x00000018
    ensures At(z, 16, 0xb0fa238e, 0xc0645fde, 0xd932eb16, 0x87912990, 0x07590dcd, 0x0b92f20c, 0x745a48de, 0x1e578218)
  {
    hide *;
    Steps0();
    Constants0();
    Constants8();
    Next(z, 0, 0x6a09e667, 0xbb67ae85, 0x3c6ef372, 0xa54ff53a, 0x510e527f, 0x9b05688c, 0x1f83d9ab, 0x5be0cd19,
         0x428a2f98, 0x61626380, 0x5d6aebcd, 0xfa2a4622);
    Next(z, 1, 0x5d6aebcd, 0x6a09e667, 0xbb67ae85, 0x3c6ef372, 0xfa2a4622, 0x510e527f, 0x9b05688c, 0x1f83d9ab,
         0x71374491, 0x00000000, 0x5a6ad9ad, 0x78ce7989);
    Next(z, 2, 0x5a6ad9ad, 0x5d6aebcd, 0x6a09e667, 0xbb67ae85, 0x78ce7989, 0xfa2a4622, 0x510e527f, 0x9b05688c,
         0xb5c0fbcf, 0x00000000, 0xc8c347a7, 0xf92939eb);
    Next(z, 3, 0xc8c347a7, 0x5a6ad9ad, 0x5d6aebcd, 0x6a09e667, 0xf92939eb, 0x78ce7989, 0xfa2a4622, 0x510e527f,
         0xe9b5dba5, 0x00000000, 0xd550f666, 0x24e00850);
    Next(z, 4, 0xd550f666, 0xc8c347a7, 0x5a6ad9ad, 0x5d6aebcd, 0x24e00850, 0xf92939eb, 0x78ce7989, 0xfa2a4622,
         0x3956c25b, 0x00000000, 0x04409a6a, 0x43ada245);
    Next(z, 5, 0x04409a6a, 0xd550f666, 0xc8c347a7, 0x5a6ad9ad, 0x43ada245, 0x24e00850, 0xf92939eb, 0x78ce7989,
         0x59f111f1, 0x00000000, 0x2b4209f5, 0x714260ad);
    Next(z, 6, 0x2b4209f5, 0x04409a6a, 0xd550f666, 0xc8c347a7, 0x714260ad, 0x43ada245, 0x24e00850, 0xf92939eb,
         0x923f82a4, 0x00000000, 0xe5030380, 0x9b27a401);
    Next(z, 7, 0xe5030380, 0x2b4209f5, 0x04409a6a, 0xd550f666, 0x9b27a401, 0x714260ad, 0x43ada245, 0x24e00850,
         0xab1c5ed5, 0x00000000, 0x85a07b5f, 0x0c657a79);
    Next(z, 8, 0x85a07b5f, 0xe5030380, 0x2b4209f5, 0x04409a6a, 0x0c657a79, 0x9b27a401, 0x714260ad, 0x43ada245,
         0xd807aa98, 0x00000000, 0x8e04ecb9, 0x32ca2d8c);
    Next(z, 9, 0x8e04ecb9, 0x85a07b5f, 0xe5030380, 0x2b4209f5, 0x32ca2d8c, 0x0c657a79, 0x9b27a401, 0x714260ad,
         0x12835b01, 0x00000000, 0x8c87346b, 0x1cc92596);
    Next(z, 10, 0x8c87346b, 0x8e04ecb9, 0x85a07b5f, 0xe5030380, 0x1cc92596, 0x32ca2d8c, 0x0c657a79, 0x9b27a401,
         0x243185be, 0x00000000, 0x4798a3f4, 0x436b23e8);
    Next(z, 11, 0x4798a3f4, 0x8c87346b, 0x8e04ecb9, 0x85a07b5f, 0x436b23e8, 0x1cc92596, 0x32ca2d8c, 0x0c657a79,
         0x550c7dc3, 0x00000000, 0xf71fc5a9, 0x816fd6e9);
    Next(z, 12, 0xf71fc5a9, 0x4798a3f4, 0x8c87346b, 0x8e04ecb9, 0x816fd6e9, 0x436b23e8, 0x1cc92596, 0x32ca2d8c,
         0x72be5d74, 0x00000000, 0x87912990, 0x1e578218);
    Next(z, 13, 0x87912990, 0xf71fc5a9, 0x4798a3f4, 0x8c87346b, 0x1e578218, 0x816fd6e9, 0x436b23e8, 0x1cc92596,
         0x80deb1fe, 0x00000000, 0xd932eb16, 0x745a48de);
    Next(z, 14, 0xd932eb16, 0x87912990, 0xf71fc5a9, 0x4798a3f4, 0x745a48de, 0x1e578218, 0x816fd6e9, 0x436b23e8,
         0x9bdc06a7, 0x00000000, 0xc0645fde, 0x0b92f20c);
    Next(z, 15, 0xc0645fde, 0xd932eb16, 0x87912990, 0xf71fc5a9, 0x0b92f20c, 0x745a48de, 0x1e578218, 0x816fd6e9,
         0xc19bf174, 0x00000018, 0xb0fa238e, 0x07590dcd);
  }

  lemma Steps16()
    ensures Step(0xb0fa238e, 0xc0645fde, 0xd932eb16, 0x87912990, 0x07590dcd, 0x0b92f20c, 0x745a48de, 0x1e578218,
                 0xe49b69c1, 0x61626380, 0x21da9a9b, 0x8034229c)
    ensures Step(0x21da9a9b, 0xb0fa238e, 0xc0645fde, 0xd932eb16, 0x8034229c, 0x07590dcd, 0x0b92f20c, 0x745a48de,
                 0xefbe4786, 0x000f0000, 0xc2fbd9d1, 0x846ee454)
    ensures Step(0xc2fbd9d1, 0x21da9a9b, 0xb0fa238e, 0xc0645fde, 0x846ee454, 0x8034229c, 0x07590dcd, 0x0b92f20c,
                 0x0fc19dc6, 0x7da86405, 0xfe777bbf, 0xcc899961)
    ensures Step(0xfe777bbf, 0xc2fbd9d1, 0x21da9a9b, 0xb0fa238e, 0xcc899961, 0x846ee454, 0x8034229c, 0x07590dcd,
                 0x240ca1cc, 0x600003c6, 0xe1f20c33, 0xb0638179)
    ensures Step(0xe1f20c33, 0xfe777bbf, 0xc2fbd9d1, 0x21da9a9b, 0xb0638179, 0xcc899961, 0x846ee454, 0x8034229c,
                 0x2de92c6f, 0x3e9d7b78, 0x9dc68b63, 0x8ada8930)
    ensures Step(0x9dc68b63, 0xe1f20c33, 0xfe777bbf, 0xc2fbd9d1, 0x8ada8930, 0xb0638179, 0xcc899961, 0x846ee454,
                 0x4a7484aa, 0x0183fc00, 0xc2606d6d, 0xe1257970)
    ensures Step(0xc2606d6d, 0x9dc68b63, 0xe1f20c33, 0xfe777bbf, 0xe1257970, 0x8ada8930, 0xb0638179, 0xcc899961,
                 0x5cb0a9dc, 0x12dcbfdb, 0xa7a3623f, 0x49f5114a)
    ensures Step(0xa7a3623f, 0xc2606d6d, 0x9dc68b63, 0xe1f20c33, 0x49f5114a, 0xe1257970, 0x8ada8930, 0xb0638179,
                 0x76f988da, 0xe2e2c38e, 0xc5d53d8d, 0xaa47c347)
    ensures Step(0xc5d53d8d, 0xa7a3623f, 0xc2606d6d, 0x9dc68b63, 0xaa47c347, 0x49f5114a, 0xe1257970, 0x8ada8930,
                 0x983e5152, 0xc8215c1a, 0x1c2c2838, 0x2823ef91)
    ensures Step(0x1c2c2838, 0xc5d53d8d, 0xa7a3623f, 0xc2606d6d, 0x2823ef91, 0xaa47c347, 0x49f5114a, 0xe1257970,
                 0xa831c66d, 0xb73679a2, 0xcde8037d, 0x14383d8e)
    ensures Step(0xcde8037d, 0x1c2c2838, 0xc5d53d8d, 0xa7a3623f, 0x14383d8e, 0x2823ef91, 0xaa47c347, 0x49f5114a,
                 0xb00327c8, 0xe5bc3909, 0xb62ec4bc, 0xc74c6516)
    ensures Step(0xb62ec4bc, 0xcde8037d, 0x1c2c2838, 0xc5d53d8d, 0xc74c6516, 0x14383d8e, 0x2823ef91, 0xaa47c347,
                 0xbf597fc7, 0x32663c5b, 0x77d37528, 0xedffbff8)
    ensures Step(0x77d37528, 0xb62ec4bc, 0xcde8037d, 0x1c2c2838, 0xedffbff8, 0xc74c6516, 0x14383d8e, 0x2823ef91,
                 0xc6e00bf3, 0x9d209d67, 0x363482c9, 0x6112a3b7)
    ensures Step(0x363482c9, 0x77d37528, 0xb62ec4bc, 0xcde8037d, 0x6112a3b7, 0xedffbff8, 0xc74c6516, 0x14383d8e,
                 0xd5a79147, 0xec8726cb, 0xa0060b30, 0xade79437)
    ensures Step(0xa0060b30, 0x363482c9, 0x77d37528, 0xb62ec4bc, 0xade79437, 0x6112a3b7, 0xedffbff8, 0xc74c6516,
                 0x06ca6351, 0x702138a4, 0xea992a22, 0x0109ab3a)
    ensures Step(0xea992a22, 0xa0060b30, 0x363482c9, 0x77d37528, 0x0109ab3a, 0xade79437, 0x6112a3b7, 0xedffbff8,
                 0x14292967, 0xd3b7973b, 0x73b33bf5, 0xba591112)
  {}

  lemma Rounds16(z: Words)
    requires At(z, 16, 0xb0fa238e, 0xc0645fde, 0xd932eb16, 0x87912990, 0x07590dcd, 0x0b92f20c, 0x745a48de, 0x1e578218)
    requires |z| == 64 && z[16] == 0x61626380 && z[17] == 0x000f0000 && z[18] == 0x7da86405 && z[19] == 0x600003c6
             && z[20] == 0x3e9d7b78 && z[21] == 0x0183fc00 && z[22] == 0x12dcbfdb && z[23] == 0xe2e2c38e
             && z[24] == 0xc8215c1a && z[25] == 0xb73679a2 && z[26] == 0xe5bc3909 && z[27] == 0x32663c5b
             && z[28] == 0x9d209d67 && z[29] == 0xec8726cb && z[30] == 0x702138a4 && z[31] == 0xd3b7973b
    ensures At(z, 32, 0x73b33bf5, 0xea992a22, 0xa0060b30, 0x363482c9, 0xba591112, 0x0109ab3a, 0xade79437, 0x6112a3b7)
  {
    hide *;
    Steps16();
    Constants16();
    Constants24();
    Next(z, 16, 0xb0fa238e, 0xc0645fde, 0xd932eb16, 0x87912990, 0x07590dcd, 0x0b92f20c, 0x745a48de, 0x1e578218,
         0xe49b69c1, 0x61626380, 0x21da9a9b, 0x8034229c);
    Next(z, 17, 0x21da9a9b, 0xb0fa238e, 0xc0645fde, 0xd932eb16, 0x8034229c, 0x07590dcd, 0x0b92f20c, 0x745a48de,
         0xefbe4786, 0x000f0000, 0xc2fbd9d1, 0x846ee454);
    Next(z, 18, 0xc2fbd9d1, 0x21da9a9b, 0xb0fa238e, 0xc0645fde, 0x846ee454, 0x8034229c, 0x07590dcd, 0x0b92f20c,
         0x0fc19dc6, 0x7da86405, 0xfe777bbf, 0xcc899961);
    Next(z, 19, 0xfe777bbf, 0xc2fbd9d1, 0x21da9a9b, 0xb0fa238e, 0xcc899961, 0x846ee454, 0x8034229c, 0x07590dcd,
         0x240ca1cc, 0x600003c6, 0xe1f20c33, 0xb0638179);
    Next(z, 20, 0xe1f20c33, 0xfe777bbf, 0xc2fbd9d1, 0x21da9a9b, 0xb0638179, 0xcc899961, 0x846ee454, 0x8034229c,
         0x2de92c6f, 0x3e9d7b78, 0x9dc68b63, 0x8ada8930);
    Next(z, 21, 0x9dc68b63, 0xe1f20c33, 0xfe777bbf, 0xc2fbd9d1, 0x8ada8930, 0xb0638179, 0xcc899961, 0x846ee454,
         0x4a7484aa, 0x0183fc00, 0xc2606d6d, 0xe1257970);
    Next(z, 22, 0xc2606d6d, 0x9dc68b63, 0xe1f20c33, 0xfe777bbf, 0xe1257970, 0x8ada8930, 0xb0638179, 0xcc899961,
         0x5cb0a9dc, 0x12dcbfdb, 0xa7a3623f, 0x49f5114a);
    Next(z, 23, 0xa7a3623f, 0xc2606d6d, 0x9dc68b63, 0xe1f20c33, 0x49f5114a, 0xe1257970, 0x8ada8930, 0xb0638179,
         0x76f988da, 0xe2e2c38e, 0xc5d53d8d, 0xaa47c347);
    Next(z, 24, 0xc5d53d8d, 0xa7a3623f, 0xc2606d6d, 0x9dc68b63, 0xaa47c347, 0x49f5114a, 0xe1257970, 0x8ada8930,
         0x983e5152, 0xc8215c1a, 0x1c2c2838, 0x2823ef91);
    Next(z, 25, 0x1c2c2838, 0xc5d53d8d, 0xa7a3623f, 0xc2606d6d, 0x2823ef91, 0xaa47c347, 0x49f5114a, 0xe1257970,
         0xa831c66d, 0xb73679a2, 0xcde8037d, 0x14383d8e);
    Next(z, 26, 0xcde8037d, 0x1c2c2838, 0xc5d53d8d, 0xa7a3623f, 0x14383d8e, 0x2823ef91, 0xaa47c347, 0x49f5114a,
         0xb00327c8, 0xe5bc3909, 0xb62ec4bc, 0xc74c6516);
    Next(z, 27, 0xb62ec4bc, 0xcde8037d, 0x1c2c2838, 0xc5d53d8d, 0xc74c6516, 0x14383d8e, 0x2823ef91, 0xaa47c347,
         0xbf597fc7, 0x32663c5b, 0x77d37528, 0xedffbff8);
    Next(z, 28, 0x77d37528, 0xb62ec4bc, 0xcde8037d, 0x1c2c2838, 0xedffbff8, 0xc74c6516, 0x14383d8e, 0x2823ef91,
         0xc6e00bf3, 0x9d209d67, 0x363482c9, 0x6112a3b7);
    Next(z, 29, 0x363482c9, 0x77d37528, 0xb62ec4bc, 0xcde8037d, 0x6112a3b7, 0xedffbff8, 0xc74c6516, 0x14383d8e,
         0xd5a79147, 0xec8726cb, 0xa0060b30, 0xade79437);
    Next(z, 30, 0xa0060b30, 0x363482c9, 0x77d37528, 0xb62ec4bc, 0xade79437, 0x6112a3b7, 0xedffbff8, 0xc74c6516,
         0x06ca6351, 0x702138a4, 0xea992a22, 0x0109ab3a);
    Next(z, 31, 0xea992a22, 0xa0060b30, 0x363482c9, 0x77d37528, 0x0109ab3a, 0xade79437, 0x6112a3b7, 0xedffbff8,
         0x14292967, 0xd3b7973b, 0x73b33bf5, 0xba591112);
  }

  lemma Steps32()
    ensures Step(0x73b33bf5, 0xea992a22, 0xa0060b30, 0x363482c9, 0xba591112, 0x0109ab3a, 0xade79437, 0x6112a3b7,
                 0x27b70a85, 0x93f5997f, 0x98e12507, 0x9cd9f5f6)
    ensures Step(0x98e12507, 0x73b33bf5, 0xea992a22, 0xa0060b30, 0x9cd9f5f6, 0xba591112, 0x0109ab3a, 0xade79437,
                 0x2e1b2138, 0x3b68ba73, 0xfe604df5, 0x59249dd3)
    ensures Step(0xfe604df5, 0x98e12507, 0x73b33bf5, 0xea992a22, 0x59249dd3, 0x9cd9f5f6, 0xba591112, 0x0109ab3a,
                 0x4d2c6dfc, 0xaff4ffc1, 0xa9a7738c, 0x085f3833)
    ensures Step(0xa9a7738c, 0xfe604df5, 0x98e12507, 0x73b33bf5, 0x085f3833, 0x59249dd3, 0x9cd9f5f6, 0xba591112,
                 0x53380d13, 0xf10a5c62, 0x65a0cfe4, 0xf4b002d6)
    ensures Step(0x65a0cfe4, 0xa9a7738c, 0xfe604df5, 0x98e12507, 0xf4b002d6, 0x085f3833, 0x59249dd3, 0x9cd9f5f6,
                 0x650a7354, 0x0a8b3996, 0x41a65cb1, 0x0772a26b)
    ensures Step(0x41a65cb1, 0x65a0cfe4, 0xa9a7738c, 0xfe604df5, 0x0772a26b, 0xf4b002d6, 0x085f3833, 0x59249dd3,
                 0x766a0abb, 0x72af830a, 0x34df1604, 0xa507a53d)
    ensures Step(0x34df1604, 0x41a65cb1, 0x65a0cfe4, 0xa9a7738c, 0xa507a53d, 0x0772a26b, 0xf4b002d6, 0x085f3833,
                 0x81c2c92e, 0x9409e33e, 0x6dc57a8a, 0xf0781bc8)
    ensures Step(0x6dc57a8a, 0x34df1604, 0x41a65cb1, 0x65a0cfe4, 0xf0781bc8, 0xa507a53d, 0x0772a26b, 0xf4b002d6,
                 0x92722c85, 0x24641522, 0x79ea687a, 0x1efbc0a0)
    ensures Step(0x79ea687a, 0x6dc57a8a, 0x34df1604, 0x41a65cb1, 0x1efbc0a0, 0xf0781bc8, 0xa507a53d, 0x0772a26b,
                 0xa2bfe8a1, 0x9f47bf94, 0xd6670766, 0x26352d63)
    ensures Step(0xd6670766, 0x79ea687a, 0x6dc57a8a, 0x34df1604, 0x26352d63, 0x1efbc0a0, 0xf0781bc8, 0xa507a53d,
                 0xa81a664b, 0xf0a64f5a, 0xdf46652f, 0x838b2711)
    ensures Step(0xdf46652f, 0xd6670766, 0x79ea687a, 0x6dc57a8a, 0x838b2711, 0x26352d63, 0x1efbc0a0, 0xf0781bc8,
                 0xc24b8b70, 0x3e246a79, 0x17aa0dfe, 0xdecd4715)
    ensures Step(0x17aa0dfe, 0xdf46652f, 0xd6670766, 0x79ea687a, 0xdecd4715, 0x838b2711, 0x26352d63, 0x1efbc0a0,
                 0xc76c51a3, 0x27333ba3, 0x9d4baf93, 0xfda24c2e)
    ensures Step(0x9d4baf93, 0x17aa0dfe, 0xdf46652f, 0xd6670766, 0xfda24c2e, 0xdecd4715, 0x838b2711, 0x26352d63,
                 0xd192e819, 0x0c4763f2, 0x26628815, 0xa80f11f0)
    ensures Step(0x26628815, 0x9d4baf93, 0x17aa0dfe, 0xdf46652f, 0xa80f11f0, 0xfda24c2e, 0xdecd4715, 0x838b2711,
                 0xd6990624, 0x840abf27, 0x72ab4b91, 0xb7755da1)
    ensures Step(0x72ab4b91, 0x26628815, 0x9d4baf93, 0x17aa0dfe, 0xb7755da1, 0xa80f11f0, 0xfda24c2e, 0xdecd4715,
                 0xf40e3585, 0x7a290d5d, 0xa14c14b0, 0xd57b94a9)
    ensures Step(0xa14c14b0, 0x72ab4b91, 0x26628815, 0x9d4baf93, 0xd57b94a9, 0xb7755da1, 0xa80f11f0, 0xfda24c2e,
                 0x106aa070, 0x065c43da, 0x4172328d, 0xfecf0bc6)
  {}

  lemma Rounds32(z: Words)
    requires At(z, 32, 0x73b33bf5, 0xea992a22, 0xa0060b30, 0x363482c9, 0xba591112, 0x0109ab3a, 0xade79437, 0x6112a3b7)
    requires |z| == 64 && z[32] == 0x93f5997f && z[33] == 0x3b68ba73 && z[34] == 0xaff4ffc1 && z[35] == 0xf10a5c62
             && z[36] == 0x0a8b3996 && z[37] == 0x72af830a && z[38] == 0x9409e33e && z[39] == 0x24641522
             && z[40] == 0x9f47bf94 && z[41] == 0xf0a64f5a && z[42] == 0x3e246a79 && z[43] == 0x27333ba3
             && z[44] == 0x0c4763f2 && z[45] == 0x840abf27 && z[46] == 0x7a290d5d && z[47] == 0x065c43da
    ensures At(z, 48, 0x4172328d, 0xa14c14b0, 0x72ab4b91, 0x26628815, 0xfecf0bc6, 0xd57b94a9, 0xb7755da1, 0xa80f11f0)
  {
    hide *;
    Steps32();
    Constants32();
    Constants40();
    Next(z, 32, 0x73b33bf5, 0xea992a22, 0xa0060b30, 0x363482c9, 0xba591112, 0x0109ab3a, 0xade79437, 0x6112a3b7,
         0x27b70a85, 0x93f5997f, 0x98e12507, 0x9cd9f5f6);
    Next(z, 33, 0x98e12507, 0x73b33bf5, 0xea992a22, 0xa0060b30, 0x9cd9f5f6, 0xba591112, 0x0109ab3a, 0xade79437,
         0x2e1b2138, 0x3b68ba73, 0xfe604df5, 0x59249dd3);
    Next(z, 34, 0xfe604df5, 0x98e12507, 0x73b33bf5, 0xea992a22, 0x59249dd3, 0x9cd9f5f6, 0xba591112, 0x0109ab3a,
         0x4d2c6dfc, 0xaff4ffc1, 0xa9a7738c, 0x085f3833);
    Next(z, 35, 0xa9a7738c, 0xfe604df5, 0x98e12507, 0x73b33bf5, 0x085f3833, 0x59249dd3, 0x9cd9f5f6, 0xba591112,
         0x53380d13, 0xf10a5c62, 0x65a0cfe4, 0xf4b002d6);
    Next(z, 36, 0x65a0cfe4, 0xa9a7738c, 0xfe604df5, 0x98e12507, 0xf4b002d6, 0x085f3833, 0x59249dd3, 0x9cd9f5f6,
         0x650a7354, 0x0a8b3996, 0x41a65cb1, 0x0772a26b);
    Next(z, 37, 0x41a65cb1, 0x65a0cfe4, 0xa9a7738c, 0xfe604df5, 0x0772a26b, 0xf4b002d6, 0x085f3833, 0x59249dd3,
         0x766a0abb, 0x72af830a, 0x34df1604, 0xa507a53d);
    Next(z, 38, 0x34df1604, 0x41a65cb1, 0x65a0cfe4, 0xa9a7738c, 0xa507a53d, 0x0772a26b, 0xf4b002d6, 0x085f3833,
         0x81c2c92e, 0x9409e33e, 0x6dc57a8a, 0xf0781bc8);
    Next(z, 39, 0x6dc57a8a, 0x34df1604, 0x41a65cb1, 0x65a0cfe4, 0xf0781bc8, 0xa507a53d, 0x0772a26b, 0xf4b002d6,
         0x92722c85, 0x24641522, 0x79ea687a, 0x1efbc0a0);
    Next(z, 40, 0x79ea687a, 0x6dc57a8a, 0x34df1604, 0x41a65cb1, 0x1efbc0a0, 0xf0781bc8, 0xa507a53d, 0x0772a26b,
         0xa2bfe8a1, 0x9f47bf94, 0xd6670766, 0x26352d63);
    Next(z, 41, 0xd6670766, 0x79ea687a, 0x6dc57a8a, 0x34df1604, 0x26352d63, 0x1efbc0a0, 0xf0781bc8, 0xa507a53d,
         0xa81a664b, 0xf0a64f5a, 0xdf46652f, 0x838b2711);
    Next(z, 42, 0xdf46652f, 0xd6670766, 0x79ea687a, 0x6dc57a8a, 0x838b2711, 0x26352d63, 0x1efbc0a0, 0xf0781bc8,
         0xc24b8b70, 0x3e246a79, 0x17aa0dfe, 0xdecd4715);
    Next(z, 43, 0x17aa0dfe, 0xdf46652f, 0xd6670766, 0x79ea687a, 0xdecd4715, 0x838b2711, 0x26352d63, 0x1efbc0a0,
         0xc76c51a3, 0x27333ba3, 0x9d4baf93, 0xfda24c2e);
    Next(z, 44, 0x9d4baf93, 0x17aa0dfe, 0xdf46652f, 0xd6670766, 0xfda24c2e, 0xdecd4715, 0x838b2711, 0x26352d63,
         0xd192e819, 0x0c4763f2, 0x26628815, 0xa80f11f0);
    Next(z, 45, 0x26628815, 0x9d4baf93, 0x17aa0dfe, 0xdf46652f, 0xa80f11f0, 0xfda24c2e, 0xdecd4715, 0x838b2711,
         0xd6990624, 0x840abf27, 0x72ab4b91, 0xb7755da1);
    Next(z, 46, 0x72ab4b91, 0x26628815, 0x9d4baf93, 0x17aa0dfe, 0xb7755da1, 0xa80f11f0, 0xfda24c2e, 0xdecd4715,
         0xf40e3585, 0x7a290d5d, 0xa14c14b0, 0xd57b94a9);
    Next(z, 47, 0xa14c14b0, 0x72ab4b91, 0x26628815, 0x9d4baf93, 0xd57b94a9, 0xb7755da1, 0xa80f11f0, 0xfda24c2e,
         0x106aa070, 0x065c43da, 0x4172328d, 0xfecf0bc6);
  }

  lemma Steps48()
    ensures Step(0x4172328d, 0xa14c14b0, 0x72ab4b91, 0x26628815, 0xfecf0bc6, 0xd57b94a9, 0xb7755da1, 0xa80f11f0,
                 0x19a4c116, 0xfb3e89cb, 0x05757ceb, 0xbd714038)
    ensures Step(0x05757ceb, 0x4172328d, 0xa14c14b0, 0x72ab4b91, 0xbd714038, 0xfecf0bc6, 0xd57b94a9, 0xb7755da1,
                 0x1e376c08, 0xcc7617db, 0xf11bfaa8, 0x6e5c390c)
    ensures Step(0xf11bfaa8, 0x05757ceb, 0x4172328d, 0xa14c14b0, 0x6e5c390c, 0xbd714038, 0xfecf0bc6, 0xd57b94a9,
                 0x2748774c, 0xb9e66c34, 0x7a0508a1, 0x52f1ccf7)
    ensures Step(0x7a0508a1, 0xf11bfaa8, 0x05757ceb, 0x4172328d, 0x52f1ccf7, 0x6e5c390c, 0xbd714038, 0xfecf0bc6,
                 0x34b0bcb5, 0xa9993667, 0x886e7a22, 0x49231c1e)
    ensures Step(0x886e7a22, 0x7a0508a1, 0xf11bfaa8, 0x05757ceb, 0x49231c1e, 0x52f1ccf7, 0x6e5c390c, 0xbd714038,
                 0x391c0cb3, 0x84badedd, 0x101fd28f, 0x529e7d00)
    ensures Step(0x101fd28f, 0x886e7a22, 0x7a0508a1, 0xf11bfaa8, 0x529e7d00, 0x49231c1e, 0x52f1ccf7, 0x6e5c390c,
                 0x4ed8aa4a, 0xc21462bc, 0xf5702fdb, 0x9f4787c3)
    ensures Step(0xf5702fdb, 0x101fd28f, 0x886e7a22, 0x7a0508a1, 0x9f4787c3, 0x529e7d00, 0x49231c1e, 0x52f1ccf7,
                 0x5b9cca4f, 0x1487472c, 0x3ec45cdb, 0xe50e1b4f)
    ensures Step(0x3ec45cdb, 0xf5702fdb, 0x101fd28f, 0x886e7a22, 0xe50e1b4f, 0x9f4787c3, 0x529e7d00, 0x49231c1e,
                 0x682e6ff3, 0xb20f7a99, 0x38cc9913, 0x54cb266b)
    ensures Step(0x38cc9913, 0x3ec45cdb, 0xf5702fdb, 0x101fd28f, 0x54cb266b, 0xe50e1b4f, 0x9f4787c3, 0x529e7d00,
                 0x748f82ee, 0xef57b9cd, 0xfcd1887b, 0x9b5e906c)
    ensures Step(0xfcd1887b, 0x38cc9913, 0x3ec45cdb, 0xf5702fdb, 0x9b5e906c, 0x54cb266b, 0xe50e1b4f, 0x9f4787c3,
                 0x78a5636f, 0xebe6b238, 0xc062d46f, 0x7e44008e)
    ensures Step(0xc062d46f, 0xfcd1887b, 0x38cc9913, 0x3ec45cdb, 0x7e44008e, 0x9b5e906c, 0x54cb266b, 0xe50e1b4f,
                 0x84c87814, 0x9fe3095e, 0xffb70472, 0x6d83bfc6)
    ensures Step(0xffb70472, 0xc062d46f, 0xfcd1887b, 0x38cc9913, 0x6d83bfc6, 0x7e44008e, 0x9b5e906c, 0x54cb266b,
                 0x8cc70208, 0x78bc8d4b, 0xb6ae8fff, 0xb21bad3d)
    ensures Step(0xb6ae8fff, 0xffb70472, 0xc062d46f, 0xfcd1887b, 0xb21bad3d, 0x6d83bfc6, 0x7e44008e, 0x9b5e906c,
                 0x90befffa, 0xa43fcf15, 0xb85e2ce9, 0x961f4894)
    ensures Step(0xb85e2ce9, 0xb6ae8fff, 0xffb70472, 0xc062d46f, 0x961f4894, 0xb21bad3d, 0x6d83bfc6, 0x7e44008e,
                 0xa4506ceb, 0x668b2ff8, 0x04d24d6c, 0x948d25b6)
    ensures Step(0x04d24d6c, 0xb85e2ce9, 0xb6ae8fff, 0xffb70472, 0x948d25b6, 0x961f4894, 0xb21bad3d, 0x6d83bfc6,
                 0xbef9a3f7, 0xeeaba2cc, 0xd39a2165, 0xfb121210)
    ensures Step(0xd39a2165, 0x04d24d6c, 0xb85e2ce9, 0xb6ae8fff, 0xfb121210, 0x948d25b6, 0x961f4894, 0xb21bad3d,
                 0xc67178f2, 0x12b1edeb, 0x506e3058, 0x5ef50f24)
  {}

  lemma Rounds48(z: Words)
    requires At(z, 48, 0x4172328d, 0xa14c14b0, 0x72ab4b91, 0x26628815, 0xfecf0bc6, 0xd57b94a9, 0xb7755da1, 0xa80f11f0)
    requires |z| == 64 && z[48] == 0xfb3e89cb && z[49] == 0xcc7617db && z[50] == 0xb9e66c34 && z[51] == 0xa9993667
             && z[52] == 0x84badedd && z[53] == 0xc21462bc && z[54] == 0x1487472c && z[55] == 0xb20f7a99
             && z[56] == 0xef57b9cd && z[57] == 0xebe6b238 && z[58] == 0x9fe3095e && z[59] == 0x78bc8d4b
             && z[60] == 0xa43fcf15 && z[61] == 0x668b2ff8 && z[62] == 0xeeaba2cc && z[63] == 0x12b1edeb
    ensures At(z, 64, 0x506e3058, 0xd39a2165, 0x04d24d6c, 0xb85e2ce9, 0x5ef50f24, 0xfb121210, 0x948d25b6, 0x961f4894)
  {
    hide *;
    Steps48();
    Constants48();
    Constants56();
    Next(z, 48, 0x4172328d, 0xa14c14b0, 0x72ab4b91, 0x26628815, 0xfecf0bc6, 0xd57b94a9, 0xb7755da1, 0xa80f11f0,
         0x19a4c116, 0xfb3e89cb, 0x05757ceb, 0xbd714038);
    Next(z, 49, 0x05757ceb, 0x4172328d, 0xa14c14b0, 0x72ab4b91, 0xbd714038, 0xfecf0bc6, 0xd57b94a9, 0xb7755da1,
         0x1e376c08, 0xcc7617db, 0xf11bfaa8, 0x6e5c390c);
    Next(z, 50, 0xf11bfaa8, 0x05757ceb, 0x4172328d, 0xa14c14b0, 0x6e5c390c, 0xbd714038, 0xfecf0bc6, 0xd57b94a9,
         0x2748774c, 0xb9e66c34, 0x7a0508a1, 0x52f1ccf7);
    Next(z, 51, 0x7a0508a1, 0xf11bfaa8, 0x05757ceb, 0x4172328d, 0x52f1ccf7, 0x6e5c390c, 0xbd714038, 0xfecf0bc6,
         0x34b0bcb5, 0xa9993667, 0x886e7a22, 0x49231c1e);
    Next(z, 52, 0x886e7a22, 0x7a0508a1, 0xf11bfaa8, 0x05757ceb, 0x49231c1e, 0x52f1ccf7, 0x6e5c390c, 0xbd714038,
         0x391c0cb3, 0x84badedd, 0x101fd28f, 0x529e7d00);
    Next(z, 53, 0x101fd28f, 0x886e7a22, 0x7a0508a1, 0xf11bfaa8, 0x529e7d00, 0x49231c1e, 0x52f1ccf7, 0x6e5c390c,
         0x4ed8aa4a, 0xc21462bc, 0xf5702fdb, 0x9f4787c3);
    Next(z, 54, 0xf5702fdb, 0x101fd28f, 0x886e7a22, 0x7a0508a1, 0x9f4787c3, 0x529e7d00, 0x49231c1e, 0x52f1ccf7,
         0x5b9cca4f, 0x1487472c, 0x3ec45cdb, 0xe50e1b4f);
    Next(z, 55, 0x3ec45cdb, 0xf5702fdb, 0x101fd28f, 0x886e7a22, 0xe50e1b4f, 0x9f4787c3, 0x529e7d00, 0x49231c1e,
         0x682e6ff3, 0xb20f7a99, 0x38cc9913, 0x54cb266b);
    Next(z, 56, 0x38cc9913, 0x3ec45cdb, 0xf5702fdb, 0x101fd28f, 0x54cb266b, 0xe50e1b4f, 0x9f4787c3, 0x529e7d00,
         0x748f82ee, 0xef57b9cd, 0xfcd1887b, 0x9b5e906c);
    Next(z, 57, 0xfcd1887b, 0x38cc9913, 0x3ec45cdb, 0xf5702fdb, 0x9b5e906c, 0x54cb266b, 0xe50e1b4f, 0x9f4787c3,
         0x78a5636f, 0xebe6b238, 0xc062d46f, 0x7e44008e);
    Next(z, 58, 0xc062d46f, 0xfcd1887b, 0x38cc9913, 0x3ec45cdb, 0x7e44008e, 0x9b5e906c, 0x54cb266b, 0xe50e1b4f,
         0x84c87814, 0x9fe3095e, 0xffb70472, 0x6d83bfc6);
    Next(z, 59, 0xffb70472, 0xc062d46f, 0xfcd1887b, 0x38cc9913, 0x6d83bfc6, 0x7e44008e, 0x9b5e906c, 0x54cb266b,
         0x8cc70208, 0x78bc8d4b, 0xb6ae8fff, 0xb21bad3d);
    Next(z, 60, 0xb6ae8fff, 0xffb70472, 0xc062d46f, 0xfcd1887b, 0xb21bad3d, 0x6d83bfc6, 0x7e44008e, 0x9b5e906c,
         0x90befffa, 0xa43fcf15, 0xb85e2ce9, 0x961f4894);
    Next(z, 61, 0xb85e2ce9, 0xb6ae8fff, 0xffb70472, 0xc062d46f, 0x961f4894, 0xb21bad3d, 0x6d83bfc6, 0x7e44008e,
         0xa4506ceb, 0x668b2ff8, 0x04d24d6c, 0x948d25b6);
    Next(z, 62, 0x04d24d6c, 0xb85e2ce9, 0xb6ae8fff, 0xffb70472, 0x948d25b6, 0x961f4894, 0xb21bad3d, 0x6d83bfc6,
         0xbef9a3f7, 0xeeaba2cc, 0xd39a2165, 0xfb121210);
    Next(z, 63, 0xd39a2165, 0x04d24d6c, 0xb85e2ce9, 0xb6ae8fff, 0xfb121210, 0x948d25b6, 0x961f4894, 0xb21bad3d,
         0xc67178f2, 0x12b1edeb, 0x506e3058, 0x5ef50f24);
  }

  // ----- the block and the digest

  lemma LengthOctets()
    ensures U64(24) == Zeros(7) + [24 as char]
  {
    assert BigEndian(24, 8) == BigEndian(0, 7) + [24 as char];
    NoOctets(7);
  }

  lemma {:induction false} NoOctets(n: nat)
    ensures BigEndian(0, n) == Zeros(n)
  {
    if n > 0 {
      NoOctets(n - 1);
    }
  }

  /** The padded message is one block: the text, the marker, 52 zeros and the length in bits. */
  lemma Block()
    ensures Pad("abc") == ['a', 'b', 'c', 0x80 as char] + Zeros(59) + [24 as char]
  {
    LengthOctets();
    assert ZeroCount(3) == 52 && Wrapped(24) == 24;
    assert Zeros(52) + Zeros(7) == Zeros(59);
    assert Pad("abc") == "abc" + [0x80 as char] + Zeros(52) + (Zeros(7) + [24 as char]);
  }

  function Joined(b0: byte, b1: byte, b2: byte, b3: byte): bv32 {
    ((b0 as int as bv32) << 24) | ((b1 as int as bv32) << 16) | ((b2 as int as bv32) << 8) | (b3 as int as bv32)
  }

  lemma JoinedWords()
    ensures Joined('a', 'b', 'c', 128 as char) == 0x61626380
    ensures Joined(0 as char, 0 as char, 0 as char, 24 as char) == 24
    ensures Joined(0 as char, 0 as char, 0 as char, 0 as char) == 0
  {}

  lemma BlockWords(block: Text)
    requires |block| == 64 && block == ['a', 'b', 'c', 128 as char] + Zeros(59) + [24 as char]
    ensures LoadWord(block, 0) == 0x61626380 && LoadWord(block, 15) == 24
    ensures forall t :: 1 <= t < 15 ==> LoadWord(block, t) == 0
  {
    hide Joined;
    JoinedWords();
    Loaded(block, 0);
    Loaded(block, 15);
    forall t | 1 <= t < 15
      ensures LoadWord(block, t) == 0
    {
      Loaded(block, t);
    }
  }

  lemma Loaded(block: Text, t: nat)
    requires |block| == 64 && t < 16
    ensures LoadWord(block, t) == Joined(block[4 * t], block[4 * t + 1], block[4 * t + 2], block[4 * t + 3])
  {}


  lemma OneBlock(block: Text)
    requires |block| == 64 && block == ['a', 'b', 'c', 128 as char] + Zeros(59) + [24 as char]
    ensures At(Schedule(block, 64), 64,
               0x506e3058, 0xd39a2165, 0x04d24d6c, 0xb85e2ce9, 0x5ef50f24, 0xfb121210, 0x948d25b6, 0x961f4894)
  {
    hide At, LoadWord, Schedule, Expands;
    var z := Schedule(block, 64);
    BlockWords(block);
    ScheduleExpands(block);
    forall t | 0 <= t < 16
      ensures z[t] == LoadWord(block, t)
    {
      ScheduleWord(block, t);
    }
    AllRounds(z);
  }

  lemma AllRounds(z: Words)
    requires Expands(z) && |z| == 64 && z[0] == 0x61626380 && z[15] == 24
    requires forall t :: 1 <= t < 15 ==> z[t] == 0
    ensures At(z, 64, 0x506e3058, 0xd39a2165, 0x04d24d6c, 0xb85e2ce9, 0x5ef50f24, 0xfb121210, 0x948d25b6, 0x961f4894)
  {
    hide Expands;
    assert At(z, 0, 0x6a09e667, 0xbb67ae85, 0x3c6ef372, 0xa54ff53a, 0x510e527f, 0x9b05688c, 0x1f83d9ab, 0x5be0cd19);
    hide At;
    Words16(z);
    Words32(z);
    Words48(z);
    Rounds0(z);
    Rounds16(z);
    Rounds32(z);
    Rounds48(z);
  }

  lemma Sums()
    ensures Add(0x6a09e667, 0x506e3058) == 0xba7816bf
    ensures Add(0xbb67ae85, 0xd39a2165) == 0x8f01cfea
    ensures Add(0x3c6ef372, 0x04d24d6c) == 0x414140de
    ensures Add(0xa54ff53a, 0xb85e2ce9) == 0x5dae2223
    ensures Add(0x510e527f, 0x5ef50f24) == 0xb00361a3
    ensures Add(0x9b05688c, 0xfb121210) == 0x96177a9c
    ensures Add(0x1f83d9ab, 0x948d25b6) == 0xb410ff61
    ensures Add(0x5be0cd19, 0x961f4894) == 0xf20015ad
  {}

  function Values(text: Text): seq<int> {
    seq(|text|, i requires 0 <= i < |text| => text[i] as int)
  }

  lemma Compressed(block: Text)
    requires |block| == 64
    requires At(Schedule(block, 64), 64,
                0x506e3058, 0xd39a2165, 0x04d24d6c, 0xb85e2ce9, 0x5ef50f24, 0xfb121210, 0x948d25b6, 0x961f4894)
    ensures CompressBlock(INITIAL, block)
         == [0xba7816bf, 0x8f01cfea, 0x414140de, 0x5dae2223, 0xb00361a3, 0x96177a9c, 0xb410ff61, 0xf20015ad]
  {
    hide Add, Rounds, Schedule;
    Sums();
  }

  lemma Octets0()
    ensures Octet(0xba7816bf, 0) as int == 0xba && Octet(0xba7816bf, 1) as int == 0x78
            && Octet(0xba7816bf, 2) as int == 0x16 && Octet(0xba7816bf, 3) as int == 0xbf
  {}

  lemma Octets1()
    ensures Octet(0x8f01cfea, 0) as int == 0x8f && Octet(0x8f01cfea, 1) as int == 0x01
            && Octet(0x8f01cfea, 2) as int == 0xcf && Octet(0x8f01cfea, 3) as int == 0xea
  {}

  lemma Octets2()
    ensures Octet(0x414140de, 0) as int == 0x41 && Octet(0x414140de, 1) as int == 0x41
            && Octet(0x414140de, 2) as int == 0x40 && Octet(0x414140de, 3) as int == 0xde
  {}

  lemma Octets3()
    ensures Octet(0x5dae2223, 0) as int == 0x5d && Octet(0x5dae2223, 1) as int == 0xae
            && Octet(0x5dae2223, 2) as int == 0x22 && Octet(0x5dae2223, 3) as int == 0x23
  {}

  lemma Octets4()
    ensures Octet(0xb00361a3, 0) as int == 0xb0 && Octet(0xb00361a3, 1) as int == 0x03
            && Octet(0xb00361a3, 2) as int == 0x61 && Octet(0xb00361a3, 3) as int == 0xa3
  {}

  lemma Octets5()
    ensures Octet(0x96177a9c, 0) as int == 0x96 && Octet(0x96177a9c, 1) as int == 0x17
            && Octet(0x96177a9c, 2) as int == 0x7a && Octet(0x96177a9c, 3) as int == 0x9c
  {}

  lemma Octets6()
    ensures Octet(0xb410ff61, 0) as int == 0xb4 && Octet(0xb410ff61, 1) as int == 0x10
            && Octet(0xb410ff61, 2) as int == 0xff && Octet(0xb410ff61, 3) as int == 0x61
  {}

  lemma Octets7()
    ensures Octet(0xf20015ad, 0) as int == 0xf2 && Octet(0xf20015ad, 1) as int == 0x00
            && Octet(0xf20015ad, 2) as int == 0x15 && Octet(0xf20015ad, 3) as int == 0xad
  {}

  lemma Digest()
    ensures Values(DigestOctets(
              [0xba7816bf, 0x8f01cfea, 0x414140de, 0x5dae2223, 0xb00361a3, 0x96177a9c, 0xb410ff61, 0xf20015ad]))
         == [0xba, 0x78, 0x16, 0xbf, 0x8f, 0x01, 0xcf, 0xea, 0x41, 0x41, 0x40, 0xde, 0x5d, 0xae, 0x22, 0x23,
             0xb0, 0x03, 0x61, 0xa3, 0x96, 0x17, 0x7a, 0x9c, 0xb4, 0x10, 0xff, 0x61, 0xf2, 0x00, 0x15, 0xad]
  {
    hide Octet;
    Octets0(); Octets1(); Octets2(); Octets3(); Octets4(); Octets5(); Octets6(); Octets7();
  }

  /** The digest the standard gives for "abc". */
  lemma KnownAnswer()
    ensures Values(Hash("abc"))
         == [0xba, 0x78, 0x16, 0xbf, 0x8f, 0x01, 0xcf, 0xea, 0x41, 0x41, 0x40, 0xde, 0x5d, 0xae, 0x22, 0x23,
             0xb0, 0x03, 0x61, 0xa3, 0x96, 0x17, 0x7a, 0x9c, 0xb4, 0x10, 0xff, 0x61, 0xf2, 0x00, 0x15, 0xad]
  {
    hide Pad, Fold, CompressBlock, DigestOctets, Schedule, At, Values;
    Block();
    var block := Pad("abc");
    OneBlock(block);
    Compressed(block);
    FoldOne(INITIAL, block);
    Digest();
  }
}
