/**
 The compression function of MD5: the operations of section 3.4 of RFC 1321, and the unrolled code that
 performs them on registers that change their roles.
 */
module Md5Block {
  import opened Blocks

  datatype State = State(a: bv32, b: bv32, c: bv32, d: bv32)

  // ----- the standard

  function StdF(x: bv32, y: bv32, z: bv32): bv32 { (x & y) | (!x & z) }

  function StdG(x: bv32, y: bv32, z: bv32): bv32 { (x & z) | (y & !z) }

  function StdH(x: bv32, y: bv32, z: bv32): bv32 { x ^ y ^ z }

  function StdI(x: bv32, y: bv32, z: bv32): bv32 { y ^ (x | !z) }

  /** The auxiliary function of operation `i`. */
  function Aux(x: bv32, y: bv32, z: bv32, i: nat): bv32 {
    if i < 16 then StdF(x, y, z) else if i < 32 then StdG(x, y, z) else if i < 48 then StdH(x, y, z) else StdI(x, y, z)
  }

  /** The index of the word that operation `i` takes. */
  function Index(i: nat): (k: nat)
    ensures k < 16
  {
    if i < 16 then i else if i < 32 then (5 * i + 1) % 16 else if i < 48 then (3 * i + 5) % 16 else 7 * i % 16
  }

  function Shift(i: nat): (s: nat)
    ensures s <= 32
  {
    if i < 16 then (if i % 4 == 0 then 7 else if i % 4 == 1 then 12 else if i % 4 == 2 then 17 else 22)
    else if i < 32 then (if i % 4 == 0 then 5 else if i % 4 == 1 then 9 else if i % 4 == 2 then 14 else 20)
    else if i < 48 then (if i % 4 == 0 then 4 else if i % 4 == 1 then 11 else if i % 4 == 2 then 16 else 23)
    else (if i % 4 == 0 then 6 else if i % 4 == 1 then 10 else if i % 4 == 2 then 15 else 21)
  }

  function T1(i: nat): bv32
    requires i < 16
  {
    match i
    case 0 => 0xd76aa478 case 1 => 0xe8c7b756 case 2 => 0x242070db case 3 => 0xc1bdceee
    case 4 => 0xf57c0faf case 5 => 0x4787c62a case 6 => 0xa8304613 case 7 => 0xfd469501
    case 8 => 0x698098d8 case 9 => 0x8b44f7af case 10 => 0xffff5bb1 case 11 => 0x895cd7be
    case 12 => 0x6b901122 case 13 => 0xfd987193 case 14 => 0xa679438e case 15 => 0x49b40821
  }

  function T2(i: nat): bv32
    requires i < 16
  {
    match i
    case 0 => 0xf61e2562 case 1 => 0xc040b340 case 2 => 0x265e5a51 case 3 => 0xe9b6c7aa
    case 4 => 0xd62f105d case 5 => 0x02441453 case 6 => 0xd8a1e681 case 7 => 0xe7d3fbc8
    case 8 => 0x21e1cde6 case 9 => 0xc33707d6 case 10 => 0xf4d50d87 case 11 => 0x455a14ed
    case 12 => 0xa9e3e905 case 13 => 0xfcefa3f8 case 14 => 0x676f02d9 case 15 => 0x8d2a4c8a
  }

  function T3(i: nat): bv32
    requires i < 16
  {
    match i
    case 0 => 0xfffa3942 case 1 => 0x8771f681 case 2 => 0x6d9d6122 case 3 => 0xfde5380c
    case 4 => 0xa4beea44 case 5 => 0x4bdecfa9 case 6 => 0xf6bb4b60 case 7 => 0xbebfbc70
    case 8 => 0x289b7ec6 case 9 => 0xeaa127fa case 10 => 0xd4ef3085 case 11 => 0x04881d05
    case 12 => 0xd9d4d039 case 13 => 0xe6db99e5 case 14 => 0x1fa27cf8 case 15 => 0xc4ac5665
  }

  function T4(i: nat): bv32
    requires i < 16
  {
    match i
    case 0 => 0xf4292244 case 1 => 0x432aff97 case 2 => 0xab9423a7 case 3 => 0xfc93a039
    case 4 => 0x655b59c3 case 5 => 0x8f0ccc92 case 6 => 0xffeff47d case 7 => 0x85845dd1
    case 8 => 0x6fa87e4f case 9 => 0xfe2ce6e0 case 10 => 0xa3014314 case 11 => 0x4e0811a1
    case 12 => 0xf7537e82 case 13 => 0xbd3af235 case 14 => 0x2ad7d2bb case 15 => 0xeb86d391
  }

  /** The integer part of 4294967296 times the absolute value of the sine of `i + 1`. */
  function T(i: nat): bv32
    requires i < 64
  {
    if i < 16 then T1(i) else if i < 32 then T2(i - 16) else if i < 48 then T3(i - 32) else T4(i - 48)
  }

  /** The new value of a register: `b + ((a + f + x + t) <<< s)`. */
  function Mix(f: bv32, a: bv32, b: bv32, x: bv32, t: bv32, s: nat): bv32
    requires s <= 32
  {
    b + Rol(a + f + x + t, s)
  }

  /** One operation; the registers change their roles after it. */
  function Op(s: State, x: seq<bv32>, i: nat): State
    requires |x| == 16 && i < 64
  {
    State(s.d, Mix(Aux(s.b, s.c, s.d, i), s.a, s.b, x[Index(i)], T(i), Shift(i)), s.b, s.c)
  }

  function Rounds(s: State, x: seq<bv32>, n: nat): State
    requires |x| == 16 && n <= 64
  {
    if n == 0 then s else Op(Rounds(s, x, n - 1), x, n - 1)
  }

  function Compress(s: State, x: seq<bv32>): State
    requires |x| == 16
  {
    Plus(Rounds(s, x, 64), s)
  }

  function Plus(t: State, s: State): State { State(t.a + s.a, t.b + s.b, t.c + s.c, t.d + s.d) }

  // ----- the macros of the code

  function F(x: bv32, y: bv32, z: bv32): bv32 { z ^ (x & (y ^ z)) }

  function G(x: bv32, y: bv32, z: bv32): bv32 { y ^ (z & (x ^ y)) }

  function H(x: bv32, y: bv32, z: bv32): bv32 { (x ^ y) ^ z }

  function H2(x: bv32, y: bv32, z: bv32): bv32 { x ^ (y ^ z) }

  function I(x: bv32, y: bv32, z: bv32): bv32 { y ^ (x | !z) }

  lemma Shifts(i: nat)
    requires i < 64 && i % 4 == 0
    ensures i < 16 ==> Shift(i) == 7 && Shift(i + 1) == 12 && Shift(i + 2) == 17 && Shift(i + 3) == 22
    ensures 16 <= i < 32 ==> Shift(i) == 5 && Shift(i + 1) == 9 && Shift(i + 2) == 14 && Shift(i + 3) == 20
    ensures 32 <= i < 48 ==> Shift(i) == 4 && Shift(i + 1) == 11 && Shift(i + 2) == 16 && Shift(i + 3) == 23
    ensures 48 <= i ==> Shift(i) == 6 && Shift(i + 1) == 10 && Shift(i + 2) == 15 && Shift(i + 3) == 21
  {}

  lemma RoundsNext(start: State, x: seq<bv32>, i: nat)
    requires |x| == 16 && i < 64
    ensures Rounds(start, x, i + 1) == Op(Rounds(start, x, i), x, i)
  {
    hide Op;
  }

  lemma OpWithF(s: State, x: seq<bv32>, i: nat)
    requires |x| == 16 && 0 <= i < 16
    ensures Op(s, x, i) == State(s.d, Mix(F(s.b, s.c, s.d), s.a, s.b, x[Index(i)], T(i), Shift(i)), s.b, s.c)
  {
    hide Mix, T, Index, Shift;
    AuxF(s.b, s.c, s.d, i);
    hide Aux, F, G, H, H2, I;
  }

  /** The code's `F` is the standard's function of round 1. */
  lemma AuxF(x: bv32, y: bv32, z: bv32, i: nat)
    requires 0 <= i < 16
    ensures F(x, y, z) == Aux(x, y, z, i)
  {
    BitsF(x, y, z);
  }

  lemma BitsF(x: bv32, y: bv32, z: bv32)
    ensures z ^ (x & (y ^ z)) == (x & y) | (!x & z)
  {
    hide *;
  }

  lemma OpWithG(s: State, x: seq<bv32>, i: nat)
    requires |x| == 16 && 16 <= i < 32
    ensures Op(s, x, i) == State(s.d, Mix(G(s.b, s.c, s.d), s.a, s.b, x[Index(i)], T(i), Shift(i)), s.b, s.c)
  {
    hide Mix, T, Index, Shift;
    AuxG(s.b, s.c, s.d, i);
    hide Aux, F, G, H, H2, I;
  }

  /** The code's `G` is the standard's function of round 2. */
  lemma AuxG(x: bv32, y: bv32, z: bv32, i: nat)
    requires 16 <= i < 32
    ensures G(x, y, z) == Aux(x, y, z, i)
  {
    BitsG(x, y, z);
  }

  lemma BitsG(x: bv32, y: bv32, z: bv32)
    ensures y ^ (z & (x ^ y)) == (x & z) | (y & !z)
  {
    hide *;
  }

  lemma OpWithH(s: State, x: seq<bv32>, i: nat)
    requires |x| == 16 && 32 <= i < 48
    ensures Op(s, x, i) == State(s.d, Mix(H(s.b, s.c, s.d), s.a, s.b, x[Index(i)], T(i), Shift(i)), s.b, s.c)
    ensures Op(s, x, i) == State(s.d, Mix(H2(s.b, s.c, s.d), s.a, s.b, x[Index(i)], T(i), Shift(i)), s.b, s.c)
  {
    hide Mix, T, Index, Shift;
    AuxH(s.b, s.c, s.d, i);
    hide Aux, F, G, H, H2, I;
  }

  /** The code's `H` and `H2` are the standard's function of round 3. */
  lemma AuxH(x: bv32, y: bv32, z: bv32, i: nat)
    requires 32 <= i < 48
    ensures H(x, y, z) == Aux(x, y, z, i) == H2(x, y, z)
  {
  }

  lemma OpWithI(s: State, x: seq<bv32>, i: nat)
    requires |x| == 16 && 48 <= i < 64
    ensures Op(s, x, i) == State(s.d, Mix(I(s.b, s.c, s.d), s.a, s.b, x[Index(i)], T(i), Shift(i)), s.b, s.c)
  {
    hide Mix, T, Index, Shift;
    AuxI(s.b, s.c, s.d, i);
    hide Aux, F, G, H, H2, I;
  }

  /** The code's `I` is the standard's function of round 4. */
  lemma AuxI(x: bv32, y: bv32, z: bv32, i: nat)
    requires 48 <= i < 64
    ensures I(x, y, z) == Aux(x, y, z, i)
  {
  }

  lemma Quad1(start: State, x: seq<bv32>, i: nat, s: State)
    requires |x| == 16 && 0 <= i <= 12 && i % 4 == 0 && s == Rounds(start, x, i)
    ensures
      var a := Mix(F(s.b, s.c, s.d), s.a, s.b, x[Index(i)], T(i), 7);
      var d := Mix(F(a, s.b, s.c), s.d, a, x[Index(i + 1)], T(i + 1), 12);
      var c := Mix(F(d, a, s.b), s.c, d, x[Index(i + 2)], T(i + 2), 17);
      var b := Mix(F(c, d, a), s.b, c, x[Index(i + 3)], T(i + 3), 22);
      Rounds(start, x, i + 4) == State(a, b, c, d)
  {
    hide *;
    Shifts(i);
    OpWithF(s, x, i);
    RoundsNext(start, x, i);
    var s1 := Op(s, x, i);
    OpWithF(s1, x, i + 1);
    RoundsNext(start, x, i + 1);
    var s2 := Op(s1, x, i + 1);
    OpWithF(s2, x, i + 2);
    RoundsNext(start, x, i + 2);
    var s3 := Op(s2, x, i + 2);
    OpWithF(s3, x, i + 3);
    RoundsNext(start, x, i + 3);
  }

  lemma Quad2(start: State, x: seq<bv32>, i: nat, s: State)
    requires |x| == 16 && 16 <= i <= 28 && i % 4 == 0 && s == Rounds(start, x, i)
    ensures
      var a := Mix(G(s.b, s.c, s.d), s.a, s.b, x[Index(i)], T(i), 5);
      var d := Mix(G(a, s.b, s.c), s.d, a, x[Index(i + 1)], T(i + 1), 9);
      var c := Mix(G(d, a, s.b), s.c, d, x[Index(i + 2)], T(i + 2), 14);
      var b := Mix(G(c, d, a), s.b, c, x[Index(i + 3)], T(i + 3), 20);
      Rounds(start, x, i + 4) == State(a, b, c, d)
  {
    hide *;
    Shifts(i);
    OpWithG(s, x, i);
    RoundsNext(start, x, i);
    var s1 := Op(s, x, i);
    OpWithG(s1, x, i + 1);
    RoundsNext(start, x, i + 1);
    var s2 := Op(s1, x, i + 1);
    OpWithG(s2, x, i + 2);
    RoundsNext(start, x, i + 2);
    var s3 := Op(s2, x, i + 2);
    OpWithG(s3, x, i + 3);
    RoundsNext(start, x, i + 3);
  }

  lemma Quad3(start: State, x: seq<bv32>, i: nat, s: State)
    requires |x| == 16 && 32 <= i <= 44 && i % 4 == 0 && s == Rounds(start, x, i)
    ensures
      var a := Mix(H(s.b, s.c, s.d), s.a, s.b, x[Index(i)], T(i), 4);
      var d := Mix(H2(a, s.b, s.c), s.d, a, x[Index(i + 1)], T(i + 1), 11);
      var c := Mix(H(d, a, s.b), s.c, d, x[Index(i + 2)], T(i + 2), 16);
      var b := Mix(H2(c, d, a), s.b, c, x[Index(i + 3)], T(i + 3), 23);
      Rounds(start, x, i + 4) == State(a, b, c, d)
  {
    hide *;
    Shifts(i);
    OpWithH(s, x, i);
    RoundsNext(start, x, i);
    var s1 := Op(s, x, i);
    OpWithH(s1, x, i + 1);
    RoundsNext(start, x, i + 1);
    var s2 := Op(s1, x, i + 1);
    OpWithH(s2, x, i + 2);
    RoundsNext(start, x, i + 2);
    var s3 := Op(s2, x, i + 2);
    OpWithH(s3, x, i + 3);
    RoundsNext(start, x, i + 3);
  }

  lemma Quad4(start: State, x: seq<bv32>, i: nat, s: State)
    requires |x| == 16 && 48 <= i <= 60 && i % 4 == 0 && s == Rounds(start, x, i)
    ensures
      var a := Mix(I(s.b, s.c, s.d), s.a, s.b, x[Index(i)], T(i), 6);
      var d := Mix(I(a, s.b, s.c), s.d, a, x[Index(i + 1)], T(i + 1), 10);
      var c := Mix(I(d, a, s.b), s.c, d, x[Index(i + 2)], T(i + 2), 15);
      var b := Mix(I(c, d, a), s.b, c, x[Index(i + 3)], T(i + 3), 21);
      Rounds(start, x, i + 4) == State(a, b, c, d)
  {
    hide *;
    Shifts(i);
    OpWithI(s, x, i);
    RoundsNext(start, x, i);
    var s1 := Op(s, x, i);
    OpWithI(s1, x, i + 1);
    RoundsNext(start, x, i + 1);
    var s2 := Op(s1, x, i + 1);
    OpWithI(s2, x, i + 2);
    RoundsNext(start, x, i + 2);
    var s3 := Op(s2, x, i + 2);
    OpWithI(s3, x, i + 3);
    RoundsNext(start, x, i + 3);
  }

  /** The words and constants of round 1. */
  lemma Table1()
    ensures Index(0) == 0 && T(0) == 0xd76aa478 && Index(1) == 1 && T(1) == 0xe8c7b756
    ensures Index(2) == 2 && T(2) == 0x242070db && Index(3) == 3 && T(3) == 0xc1bdceee
    ensures Index(4) == 4 && T(4) == 0xf57c0faf && Index(5) == 5 && T(5) == 0x4787c62a
    ensures Index(6) == 6 && T(6) == 0xa8304613 && Index(7) == 7 && T(7) == 0xfd469501
    ensures Index(8) == 8 && T(8) == 0x698098d8 && Index(9) == 9 && T(9) == 0x8b44f7af
    ensures Index(10) == 10 && T(10) == 0xffff5bb1 && Index(11) == 11 && T(11) == 0x895cd7be
    ensures Index(12) == 12 && T(12) == 0x6b901122 && Index(13) == 13 && T(13) == 0xfd987193
    ensures Index(14) == 14 && T(14) == 0xa679438e && Index(15) == 15 && T(15) == 0x49b40821
  {
    hide T2, T3, T4;
  }

  /** The words and constants of round 2. */
  lemma Table2()
    ensures Index(16) == 1 && T(16) == 0xf61e2562 && Index(17) == 6 && T(17) == 0xc040b340
    ensures Index(18) == 11 && T(18) == 0x265e5a51 && Index(19) == 0 && T(19) == 0xe9b6c7aa
    ensures Index(20) == 5 && T(20) == 0xd62f105d && Index(21) == 10 && T(21) == 0x02441453
    ensures Index(22) == 15 && T(22) == 0xd8a1e681 && Index(23) == 4 && T(23) == 0xe7d3fbc8
    ensures Index(24) == 9 && T(24) == 0x21e1cde6 && Index(25) == 14 && T(25) == 0xc33707d6
    ensures Index(26) == 3 && T(26) == 0xf4d50d87 && Index(27) == 8 && T(27) == 0x455a14ed
    ensures Index(28) == 13 && T(28) == 0xa9e3e905 && Index(29) == 2 && T(29) == 0xfcefa3f8
    ensures Index(30) == 7 && T(30) == 0x676f02d9 && Index(31) == 12 && T(31) == 0x8d2a4c8a
  {
    hide T1, T3, T4;
  }

  /** The words and constants of round 3. */
  lemma Table3()
    ensures Index(32) == 5 && T(32) == 0xfffa3942 && Index(33) == 8 && T(33) == 0x8771f681
    ensures Index(34) == 11 && T(34) == 0x6d9d6122 && Index(35) == 14 && T(35) == 0xfde5380c
    ensures Index(36) == 1 && T(36) == 0xa4beea44 && Index(37) == 4 && T(37) == 0x4bdecfa9
    ensures Index(38) == 7 && T(38) == 0xf6bb4b60 && Index(39) == 10 && T(39) == 0xbebfbc70
    ensures Index(40) == 13 && T(40) == 0x289b7ec6 && Index(41) == 0 && T(41) == 0xeaa127fa
    ensures Index(42) == 3 && T(42) == 0xd4ef3085 && Index(43) == 6 && T(43) == 0x04881d05
    ensures Index(44) == 9 && T(44) == 0xd9d4d039 && Index(45) == 12 && T(45) == 0xe6db99e5
    ensures Index(46) == 15 && T(46) == 0x1fa27cf8 && Index(47) == 2 && T(47) == 0xc4ac5665
  {
    hide T1, T2, T4;
  }

  /** The words and constants of round 4. */
  lemma Table4()
    ensures Index(48) == 0 && T(48) == 0xf4292244 && Index(49) == 7 && T(49) == 0x432aff97
    ensures Index(50) == 14 && T(50) == 0xab9423a7 && Index(51) == 5 && T(51) == 0xfc93a039
    ensures Index(52) == 12 && T(52) == 0x655b59c3 && Index(53) == 3 && T(53) == 0x8f0ccc92
    ensures Index(54) == 10 && T(54) == 0xffeff47d && Index(55) == 1 && T(55) == 0x85845dd1
    ensures Index(56) == 8 && T(56) == 0x6fa87e4f && Index(57) == 15 && T(57) == 0xfe2ce6e0
    ensures Index(58) == 6 && T(58) == 0xa3014314 && Index(59) == 13 && T(59) == 0x4e0811a1
    ensures Index(60) == 4 && T(60) == 0xf7537e82 && Index(61) == 11 && T(61) == 0xbd3af235
    ensures Index(62) == 2 && T(62) == 0x2ad7d2bb && Index(63) == 9 && T(63) == 0xeb86d391
  {
    hide T1, T2, T3;
  }

  /** The source's round 1, in which the registers take turns. */
  method Round1(s: State, x: seq<bv32>, ghost start: State) returns (t: State)
    requires |x| == 16 && s == Rounds(start, x, 0)
    ensures t == Rounds(start, x, 16)
  {
    hide *;
    Table1();
    var a, b, c, d := s.a, s.b, s.c, s.d;
    Quad1(start, x, 0, State(a, b, c, d));
    a := Mix(F(b, c, d), a, b, x[0], 0xd76aa478, 7);
    d := Mix(F(a, b, c), d, a, x[1], 0xe8c7b756, 12);
    c := Mix(F(d, a, b), c, d, x[2], 0x242070db, 17);
    b := Mix(F(c, d, a), b, c, x[3], 0xc1bdceee, 22);
    Quad1(start, x, 4, State(a, b, c, d));
    a := Mix(F(b, c, d), a, b, x[4], 0xf57c0faf, 7);
    d := Mix(F(a, b, c), d, a, x[5], 0x4787c62a, 12);
    c := Mix(F(d, a, b), c, d, x[6], 0xa8304613, 17);
    b := Mix(F(c, d, a), b, c, x[7], 0xfd469501, 22);
    Quad1(start, x, 8, State(a, b, c, d));
    a := Mix(F(b, c, d), a, b, x[8], 0x698098d8, 7);
    d := Mix(F(a, b, c), d, a, x[9], 0x8b44f7af, 12);
    c := Mix(F(d, a, b), c, d, x[10], 0xffff5bb1, 17);
    b := Mix(F(c, d, a), b, c, x[11], 0x895cd7be, 22);
    Quad1(start, x, 12, State(a, b, c, d));
    a := Mix(F(b, c, d), a, b, x[12], 0x6b901122, 7);
    d := Mix(F(a, b, c), d, a, x[13], 0xfd987193, 12);
    c := Mix(F(d, a, b), c, d, x[14], 0xa679438e, 17);
    b := Mix(F(c, d, a), b, c, x[15], 0x49b40821, 22);
    t := State(a, b, c, d);
  }

  /** The source's round 2, in which the registers take turns. */
  method Round2(s: State, x: seq<bv32>, ghost start: State) returns (t: State)
    requires |x| == 16 && s == Rounds(start, x, 16)
    ensures t == Rounds(start, x, 32)
  {
    hide *;
    Table2();
    var a, b, c, d := s.a, s.b, s.c, s.d;
    Quad2(start, x, 16, State(a, b, c, d));
    a := Mix(G(b, c, d), a, b, x[1], 0xf61e2562, 5);
    d := Mix(G(a, b, c), d, a, x[6], 0xc040b340, 9);
    c := Mix(G(d, a, b), c, d, x[11], 0x265e5a51, 14);
    b := Mix(G(c, d, a), b, c, x[0], 0xe9b6c7aa, 20);
    Quad2(start, x, 20, State(a, b, c, d));
    a := Mix(G(b, c, d), a, b, x[5], 0xd62f105d, 5);
    d := Mix(G(a, b, c), d, a, x[10], 0x02441453, 9);
    c := Mix(G(d, a, b), c, d, x[15], 0xd8a1e681, 14);
    b := Mix(G(c, d, a), b, c, x[4], 0xe7d3fbc8, 20);
    Quad2(start, x, 24, State(a, b, c, d));
    a := Mix(G(b, c, d), a, b, x[9], 0x21e1cde6, 5);
    d := Mix(G(a, b, c), d, a, x[14], 0xc33707d6, 9);
    c := Mix(G(d, a, b), c, d, x[3], 0xf4d50d87, 14);
    b := Mix(G(c, d, a), b, c, x[8], 0x455a14ed, 20);
    Quad2(start, x, 28, State(a, b, c, d));
    a := Mix(G(b, c, d), a, b, x[13], 0xa9e3e905, 5);
    d := Mix(G(a, b, c), d, a, x[2], 0xfcefa3f8, 9);
    c := Mix(G(d, a, b), c, d, x[7], 0x676f02d9, 14);
    b := Mix(G(c, d, a), b, c, x[12], 0x8d2a4c8a, 20);
    t := State(a, b, c, d);
  }

  /** The source's round 3, in which the registers take turns. */
  method Round3(s: State, x: seq<bv32>, ghost start: State) returns (t: State)
    requires |x| == 16 && s == Rounds(start, x, 32)
    ensures t == Rounds(start, x, 48)
  {
    hide *;
    Table3();
    var a, b, c, d := s.a, s.b, s.c, s.d;
    Quad3(start, x, 32, State(a, b, c, d));
    a := Mix(H(b, c, d), a, b, x[5], 0xfffa3942, 4);
    d := Mix(H2(a, b, c), d, a, x[8], 0x8771f681, 11);
    c := Mix(H(d, a, b), c, d, x[11], 0x6d9d6122, 16);
    b := Mix(H2(c, d, a), b, c, x[14], 0xfde5380c, 23);
    Quad3(start, x, 36, State(a, b, c, d));
    a := Mix(H(b, c, d), a, b, x[1], 0xa4beea44, 4);
    d := Mix(H2(a, b, c), d, a, x[4], 0x4bdecfa9, 11);
    c := Mix(H(d, a, b), c, d, x[7], 0xf6bb4b60, 16);
    b := Mix(H2(c, d, a), b, c, x[10], 0xbebfbc70, 23);
    Quad3(start, x, 40, State(a, b, c, d));
    a := Mix(H(b, c, d), a, b, x[13], 0x289b7ec6, 4);
    d := Mix(H2(a, b, c), d, a, x[0], 0xeaa127fa, 11);
    c := Mix(H(d, a, b), c, d, x[3], 0xd4ef3085, 16);
    b := Mix(H2(c, d, a), b, c, x[6], 0x04881d05, 23);
    Quad3(start, x, 44, State(a, b, c, d));
    a := Mix(H(b, c, d), a, b, x[9], 0xd9d4d039, 4);
    d := Mix(H2(a, b, c), d, a, x[12], 0xe6db99e5, 11);
    c := Mix(H(d, a, b), c, d, x[15], 0x1fa27cf8, 16);
    b := Mix(H2(c, d, a), b, c, x[2], 0xc4ac5665, 23);
    t := State(a, b, c, d);
  }

  /** The source's round 4, in which the registers take turns. */
  method Round4(s: State, x: seq<bv32>, ghost start: State) returns (t: State)
    requires |x| == 16 && s == Rounds(start, x, 48)
    ensures t == Rounds(start, x, 64)
  {
    hide *;
    Table4();
    var a, b, c, d := s.a, s.b, s.c, s.d;
    Quad4(start, x, 48, State(a, b, c, d));
    a := Mix(I(b, c, d), a, b, x[0], 0xf4292244, 6);
    d := Mix(I(a, b, c), d, a, x[7], 0x432aff97, 10);
    c := Mix(I(d, a, b), c, d, x[14], 0xab9423a7, 15);
    b := Mix(I(c, d, a), b, c, x[5], 0xfc93a039, 21);
    Quad4(start, x, 52, State(a, b, c, d));
    a := Mix(I(b, c, d), a, b, x[12], 0x655b59c3, 6);
    d := Mix(I(a, b, c), d, a, x[3], 0x8f0ccc92, 10);
    c := Mix(I(d, a, b), c, d, x[10], 0xffeff47d, 15);
    b := Mix(I(c, d, a), b, c, x[1], 0x85845dd1, 21);
    Quad4(start, x, 56, State(a, b, c, d));
    a := Mix(I(b, c, d), a, b, x[8], 0x6fa87e4f, 6);
    d := Mix(I(a, b, c), d, a, x[15], 0xfe2ce6e0, 10);
    c := Mix(I(d, a, b), c, d, x[6], 0xa3014314, 15);
    b := Mix(I(c, d, a), b, c, x[13], 0x4e0811a1, 21);
    Quad4(start, x, 60, State(a, b, c, d));
    a := Mix(I(b, c, d), a, b, x[4], 0xf7537e82, 6);
    d := Mix(I(a, b, c), d, a, x[11], 0xbd3af235, 10);
    c := Mix(I(d, a, b), c, d, x[2], 0x2ad7d2bb, 15);
    b := Mix(I(c, d, a), b, c, x[9], 0xeb86d391, 21);
    t := State(a, b, c, d);
  }

  /** One turn of the loop in `body`: the block with the words `x` is compressed into the state. */
  method Block(s: State, x: seq<bv32>) returns (t: State)
    requires |x| == 16
    ensures t == Compress(s, x)
  {
    hide *;
    NoRounds(s, x);
    t := Round1(s, x, s);
    t := Round2(t, x, s);
    t := Round3(t, x, s);
    t := Round4(t, x, s);
    t := Plus(t, s);
  }

  lemma NoRounds(s: State, x: seq<bv32>)
    requires |x| == 16
    ensures Rounds(s, x, 0) == s
    ensures Compress(s, x) == Plus(Rounds(s, x, 64), s)
  {
    hide Op, Plus;
  }
}
