/** Where the numbers of SHA-256 come from (sections 4.2.2 and 5.3.3 of FIPS 180-4). */
module Sha256Roots {
  import opened Sha256

  const ONE: nat := 0x1_0000_0000

  /** The word holds the first 32 bits of the fractional part of the square root of p. */
  predicate SquareRoot(p: nat, whole: nat, word: bv32) {
    var n := whole * ONE + word as int;
    n * n <= p * ONE * ONE < (n + 1) * (n + 1)
  }

  /** The word holds the first 32 bits of the fractional part of the cube root of p. */
  predicate CubeRoot(p: nat, whole: nat, word: bv32) {
    var n := whole * ONE + word as int;
    n * n * n <= p * ONE * ONE * ONE < (n + 1) * (n + 1) * (n + 1)
  }

  /** The initial state: the square roots of the first eight primes. */
  lemma InitialRoots()
    ensures INITIAL[0] == 0x6a09e667 && SquareRoot(2, 1, 0x6a09e667)
            && INITIAL[1] == 0xbb67ae85 && SquareRoot(3, 1, 0xbb67ae85)
            && INITIAL[2] == 0x3c6ef372 && SquareRoot(5, 2, 0x3c6ef372)
            && INITIAL[3] == 0xa54ff53a && SquareRoot(7, 2, 0xa54ff53a)
            && INITIAL[4] == 0x510e527f && SquareRoot(11, 3, 0x510e527f)
            && INITIAL[5] == 0x9b05688c && SquareRoot(13, 3, 0x9b05688c)
            && INITIAL[6] == 0x1f83d9ab && SquareRoot(17, 4, 0x1f83d9ab)
            && INITIAL[7] == 0x5be0cd19 && SquareRoot(19, 4, 0x5be0cd19)
  {}

  // ----- the round constants: the cube roots of the first sixty-four primes

  lemma Constants0()
    ensures RoundConstant(0) == 0x428a2f98 && CubeRoot(2, 1, 0x428a2f98)
            && RoundConstant(1) == 0x71374491 && CubeRoot(3, 1, 0x71374491)
            && RoundConstant(2) == 0xb5c0fbcf && CubeRoot(5, 1, 0xb5c0fbcf)
            && RoundConstant(3) == 0xe9b5dba5 && CubeRoot(7, 1, 0xe9b5dba5)
            && RoundConstant(4) == 0x3956c25b && CubeRoot(11, 2, 0x3956c25b)
            && RoundConstant(5) == 0x59f111f1 && CubeRoot(13, 2, 0x59f111f1)
            && RoundConstant(6) == 0x923f82a4 && CubeRoot(17, 2, 0x923f82a4)
            && RoundConstant(7) == 0xab1c5ed5 && CubeRoot(19, 2, 0xab1c5ed5)
  {}

  lemma Constants8()
    ensures RoundConstant(8) == 0xd807aa98 && CubeRoot(23, 2, 0xd807aa98)
            && RoundConstant(9) == 0x12835b01 && CubeRoot(29, 3, 0x12835b01)
            && RoundConstant(10) == 0x243185be && CubeRoot(31, 3, 0x243185be)
            && RoundConstant(11) == 0x550c7dc3 && CubeRoot(37, 3, 0x550c7dc3)
            && RoundConstant(12) == 0x72be5d74 && CubeRoot(41, 3, 0x72be5d74)
            && RoundConstant(13) == 0x80deb1fe && CubeRoot(43, 3, 0x80deb1fe)
            && RoundConstant(14) == 0x9bdc06a7 && CubeRoot(47, 3, 0x9bdc06a7)
            && RoundConstant(15) == 0xc19bf174 && CubeRoot(53, 3, 0xc19bf174)
  {}

  lemma Constants16()
    ensures RoundConstant(16) == 0xe49b69c1 && CubeRoot(59, 3, 0xe49b69c1)
            && RoundConstant(17) == 0xefbe4786 && CubeRoot(61, 3, 0xefbe4786)
            && RoundConstant(18) == 0x0fc19dc6 && CubeRoot(67, 4, 0x0fc19dc6)
            && RoundConstant(19) == 0x240ca1cc && CubeRoot(71, 4, 0x240ca1cc)
            && RoundConstant(20) == 0x2de92c6f && CubeRoot(73, 4, 0x2de92c6f)
            && RoundConstant(21) == 0x4a7484aa && CubeRoot(79, 4, 0x4a7484aa)
            && RoundConstant(22) == 0x5cb0a9dc && CubeRoot(83, 4, 0x5cb0a9dc)
            && RoundConstant(23) == 0x76f988da && CubeRoot(89, 4, 0x76f988da)
  {}

  lemma Constants24()
    ensures RoundConstant(24) == 0x983e5152 && CubeRoot(97, 4, 0x983e5152)
            && RoundConstant(25) == 0xa831c66d && CubeRoot(101, 4, 0xa831c66d)
            && RoundConstant(26) == 0xb00327c8 && CubeRoot(103, 4, 0xb00327c8)
            && RoundConstant(27) == 0xbf597fc7 && CubeRoot(107, 4, 0xbf597fc7)
            && RoundConstant(28) == 0xc6e00bf3 && CubeRoot(109, 4, 0xc6e00bf3)
            && RoundConstant(29) == 0xd5a79147 && CubeRoot(113, 4, 0xd5a79147)
            && RoundConstant(30) == 0x06ca6351 && CubeRoot(127, 5, 0x06ca6351)
            && RoundConstant(31) == 0x14292967 && CubeRoot(131, 5, 0x14292967)
  {}

  lemma Constants32()
    ensures RoundConstant(32) == 0x27b70a85 && CubeRoot(137, 5, 0x27b70a85)
            && RoundConstant(33) == 0x2e1b2138 && CubeRoot(139, 5, 0x2e1b2138)
            && RoundConstant(34) == 0x4d2c6dfc && CubeRoot(149, 5, 0x4d2c6dfc)
            && RoundConstant(35) == 0x53380d13 && CubeRoot(151, 5, 0x53380d13)
            && RoundConstant(36) == 0x650a7354 && CubeRoot(157, 5, 0x650a7354)
            && RoundConstant(37) == 0x766a0abb && CubeRoot(163, 5, 0x766a0abb)
            && RoundConstant(38) == 0x81c2c92e && CubeRoot(167, 5, 0x81c2c92e)
            && RoundConstant(39) == 0x92722c85 && CubeRoot(173, 5, 0x92722c85)
  {}

  lemma Constants40()
    ensures RoundConstant(40) == 0xa2bfe8a1 && CubeRoot(179, 5, 0xa2bfe8a1)
            && RoundConstant(41) == 0xa81a664b && CubeRoot(181, 5, 0xa81a664b)
            && RoundConstant(42) == 0xc24b8b70 && CubeRoot(191, 5, 0xc24b8b70)
            && RoundConstant(43) == 0xc76c51a3 && CubeRoot(193, 5, 0xc76c51a3)
            && RoundConstant(44) == 0xd192e819 && CubeRoot(197, 5, 0xd192e819)
            && RoundConstant(45) == 0xd6990624 && CubeRoot(199, 5, 0xd6990624)
            && RoundConstant(46) == 0xf40e3585 && CubeRoot(211, 5, 0xf40e3585)
            && RoundConstant(47) == 0x106aa070 && CubeRoot(223, 6, 0x106aa070)
  {}

  lemma Constants48()
    ensures RoundConstant(48) == 0x19a4c116 && CubeRoot(227, 6, 0x19a4c116)
            && RoundConstant(49) == 0x1e376c08 && CubeRoot(229, 6, 0x1e376c08)
            && RoundConstant(50) == 0x2748774c && CubeRoot(233, 6, 0x2748774c)
            && RoundConstant(51) == 0x34b0bcb5 && CubeRoot(239, 6, 0x34b0bcb5)
            && RoundConstant(52) == 0x391c0cb3 && CubeRoot(241, 6, 0x391c0cb3)
            && RoundConstant(53) == 0x4ed8aa4a && CubeRoot(251, 6, 0x4ed8aa4a)
            && RoundConstant(54) == 0x5b9cca4f && CubeRoot(257, 6, 0x5b9cca4f)
            && RoundConstant(55) == 0x682e6ff3 && CubeRoot(263, 6, 0x682e6ff3)
  {}

  lemma Constants56()
    ensures RoundConstant(56) == 0x748f82ee && CubeRoot(269, 6, 0x748f82ee)
            && RoundConstant(57) == 0x78a5636f && CubeRoot(271, 6, 0x78a5636f)
            && RoundConstant(58) == 0x84c87814 && CubeRoot(277, 6, 0x84c87814)
            && RoundConstant(59) == 0x8cc70208 && CubeRoot(281, 6, 0x8cc70208)
            && RoundConstant(60) == 0x90befffa && CubeRoot(283, 6, 0x90befffa)
            && RoundConstant(61) == 0xa4506ceb && CubeRoot(293, 6, 0xa4506ceb)
            && RoundConstant(62) == 0xbef9a3f7 && CubeRoot(307, 6, 0xbef9a3f7)
            && RoundConstant(63) == 0xc67178f2 && CubeRoot(311, 6, 0xc67178f2)
  {}
}
