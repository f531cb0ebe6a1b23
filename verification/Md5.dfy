/**
  The MD5 implementation of libmd5sum: the unrolled block function, the context with its carry buffer, and
  the two ways of hashing a whole input.
 */
module Md5 {
  import opened Basics
  import opened Md5Spec

  // ----- the block function

  // The macros FF, FG, FH and FI; the first two in the form with one operation less.
  function FF(b: word, c: word, d: word): word { d ^ (b & (c ^ d)) }
  function FG(b: word, c: word, d: word): word { FF(d, b, c) }
  function FH(b: word, c: word, d: word): word { b ^ c ^ d }
  function FI(b: word, c: word, d: word): word { c ^ (b | !d) }

  lemma MacroF(b: word, c: word, d: word)
    ensures d ^ (b & (c ^ d)) == (b & c) | (!b & d)
  {
  }

  lemma MacroG(b: word, c: word, d: word)
    ensures (b & d) | (c & !d) == (d & b) | (!d & c)
  {
  }

  lemma FFIsF(b: word, c: word, d: word)
    ensures FF(b, c, d) == F(b, c, d)
  {
    calc {
      FF(b, c, d);
      d ^ (b & (c ^ d));
      { MacroF(b, c, d); }
      (b & c) | (!b & d);
      F(b, c, d);
    }
  }

  lemma FGIsG(b: word, c: word, d: word)
    ensures FG(b, c, d) == G(b, c, d)
  {
    calc {
      FG(b, c, d);
      FF(d, b, c);
      { FFIsF(d, b, c); }
      F(d, b, c);
      (d & b) | (!d & c);
      { MacroG(b, c, d); }
      (b & d) | (c & !d);
      G(b, c, d);
    }
  }

  /** The macro OP: a += f + x + t, rotate a by s, a += b. */
  function Op(a: word, b: word, f: word, x: word, s: nat, t: word): word
    requires 0 < s < 32
  {
    Add(Rotate(Add(a, Add(Add(f, x), t)), s), b)
  }

  lemma OpOperates(a: word, b: word, f: word, x: word, s: nat, t: word)
    requires 0 < s < 32
    ensures Op(a, b, f, x, s, t) == Operate(a, b, f, x, s, t)
  {
    hide Rotate;
    hide Add;
    AddRegroups(a, f, x, t);
    AddSwaps(Rotate(Add(a, Add(Add(f, x), t)), s), b);
  }

  lemma AddAssociates(a: word, b: word, c: word)
    ensures Add(a, Add(b, c)) == Add(Add(a, b), c)
  {
    calc {
      Add(a, Add(b, c));
      a + Add(b, c);
      a + (b + c);
      (a + b) + c;
      Add(a, b) + c;
      Add(Add(a, b), c);
    }
  }

  lemma AddRegroups(a: word, f: word, x: word, t: word)
    ensures Add(a, Add(Add(f, x), t)) == Add(Add(Add(a, f), x), t)
  {
    hide Add;
    AddAssociates(a, Add(f, x), t);
    AddAssociates(a, f, x);
  }

  lemma AddSwaps(a: word, b: word)
    ensures Add(a, b) == Add(b, a)
  {
  }

  lemma FHIsH(b: word, c: word, d: word)
    ensures FH(b, c, d) == H(b, c, d)
  {
  }

  lemma FIIsI(b: word, c: word, d: word)
    ensures FI(b, c, d) == I(b, c, d)
  {
  }

  /** Step n of the specification takes word k of the block, rotates by s and adds the constant t. */
  ghost predicate Uses(n: nat, k: nat, s: nat, t: word) {
    k == Pick(n) && s == Shift(n) && t == T(n)
  }

  lemma OneStep(r: Regs, x: seq<word>, n: nat, a: word, b: word, c: word, d: word, f: word, k: nat, s: nat, t: word)
    requires |x| == 16 && Steps(r, x, n) == Regs(a, b, c, d)
    requires f == Mix(n, b, c, d) && Uses(n, k, s, t)
    ensures Steps(r, x, n + 1) == Regs(d, Op(a, b, f, x[k], s, t), b, c)
  {
    hide Operate;
    hide Op;
    hide Mix;
    hide Pick;
    hide Shift;
    hide T;
    OpOperates(a, b, f, x[k], s, t);
  }

  // ----- the macro OP, once for each of the four functions: one line of the code is one step of the specification,
  // and the register it assigns is the next one to hold b

  method OpF(ghost r: Regs, x: seq<word>, ghost n: nat, a: word, b: word, c: word, d: word, k: nat, s: nat, t: word)
    returns (a': word)
    requires |x| == 16 && n / 16 == 0 && Steps(r, x, n) == Regs(a, b, c, d) && Uses(n, k, s, t)
    ensures Steps(r, x, n + 1) == Regs(d, a', b, c)
  {
    a' := Op(a, b, FF(b, c, d), x[k], s, t);
    FFIsF(b, c, d);
    OneStep(r, x, n, a, b, c, d, FF(b, c, d), k, s, t);
  }

  method OpG(ghost r: Regs, x: seq<word>, ghost n: nat, a: word, b: word, c: word, d: word, k: nat, s: nat, t: word)
    returns (a': word)
    requires |x| == 16 && n / 16 == 1 && Steps(r, x, n) == Regs(a, b, c, d) && Uses(n, k, s, t)
    ensures Steps(r, x, n + 1) == Regs(d, a', b, c)
  {
    a' := Op(a, b, FG(b, c, d), x[k], s, t);
    FGIsG(b, c, d);
    OneStep(r, x, n, a, b, c, d, FG(b, c, d), k, s, t);
  }

  method OpH(ghost r: Regs, x: seq<word>, ghost n: nat, a: word, b: word, c: word, d: word, k: nat, s: nat, t: word)
    returns (a': word)
    requires |x| == 16 && n / 16 == 2 && Steps(r, x, n) == Regs(a, b, c, d) && Uses(n, k, s, t)
    ensures Steps(r, x, n + 1) == Regs(d, a', b, c)
  {
    a' := Op(a, b, FH(b, c, d), x[k], s, t);
    FHIsH(b, c, d);
    OneStep(r, x, n, a, b, c, d, FH(b, c, d), k, s, t);
  }

  method OpI(ghost r: Regs, x: seq<word>, ghost n: nat, a: word, b: word, c: word, d: word, k: nat, s: nat, t: word)
    returns (a': word)
    requires |x| == 16 && n / 16 == 3 && Steps(r, x, n) == Regs(a, b, c, d) && Uses(n, k, s, t)
    ensures Steps(r, x, n + 1) == Regs(d, a', b, c)
  {
    a' := Op(a, b, FI(b, c, d), x[k], s, t);
    FIIsI(b, c, d);
    OneStep(r, x, n, a, b, c, d, FI(b, c, d), k, s, t);
  }

  // ----- the constants of the sixty-four lines

  lemma ScheduleOneA()
    ensures Uses(0, 0, 7, 0xd76a_a478)
    ensures Uses(1, 1, 12, 0xe8c7_b756)
    ensures Uses(2, 2, 17, 0x2420_70db)
    ensures Uses(3, 3, 22, 0xc1bd_ceee)
  {
  }

  lemma ScheduleOneB()
    ensures Uses(4, 4, 7, 0xf57c_0faf)
    ensures Uses(5, 5, 12, 0x4787_c62a)
    ensures Uses(6, 6, 17, 0xa830_4613)
    ensures Uses(7, 7, 22, 0xfd46_9501)
  {
  }

  lemma ScheduleOneC()
    ensures Uses(8, 8, 7, 0x6980_98d8)
    ensures Uses(9, 9, 12, 0x8b44_f7af)
    ensures Uses(10, 10, 17, 0xffff_5bb1)
    ensures Uses(11, 11, 22, 0x895c_d7be)
  {
  }

  lemma ScheduleOneD()
    ensures Uses(12, 12, 7, 0x6b90_1122)
    ensures Uses(13, 13, 12, 0xfd98_7193)
    ensures Uses(14, 14, 17, 0xa679_438e)
    ensures Uses(15, 15, 22, 0x49b4_0821)
  {
  }

  lemma ScheduleTwoA()
    ensures Uses(16, 1, 5, 0xf61e_2562)
    ensures Uses(17, 6, 9, 0xc040_b340)
    ensures Uses(18, 11, 14, 0x265e_5a51)
    ensures Uses(19, 0, 20, 0xe9b6_c7aa)
  {
  }

  lemma ScheduleTwoB()
    ensures Uses(20, 5, 5, 0xd62f_105d)
    ensures Uses(21, 10, 9, 0x0244_1453)
    ensures Uses(22, 15, 14, 0xd8a1_e681)
    ensures Uses(23, 4, 20, 0xe7d3_fbc8)
  {
  }

  lemma ScheduleTwoC()
    ensures Uses(24, 9, 5, 0x21e1_cde6)
    ensures Uses(25, 14, 9, 0xc337_07d6)
    ensures Uses(26, 3, 14, 0xf4d5_0d87)
    ensures Uses(27, 8, 20, 0x455a_14ed)
  {
  }

  lemma ScheduleTwoD()
    ensures Uses(28, 13, 5, 0xa9e3_e905)
    ensures Uses(29, 2, 9, 0xfcef_a3f8)
    ensures Uses(30, 7, 14, 0x676f_02d9)
    ensures Uses(31, 12, 20, 0x8d2a_4c8a)
  {
  }

  lemma ScheduleThreeA()
    ensures Uses(32, 5, 4, 0xfffa_3942)
    ensures Uses(33, 8, 11, 0x8771_f681)
    ensures Uses(34, 11, 16, 0x6d9d_6122)
    ensures Uses(35, 14, 23, 0xfde5_380c)
  {
  }

  lemma ScheduleThreeB()
    ensures Uses(36, 1, 4, 0xa4be_ea44)
    ensures Uses(37, 4, 11, 0x4bde_cfa9)
    ensures Uses(38, 7, 16, 0xf6bb_4b60)
    ensures Uses(39, 10, 23, 0xbebf_bc70)
  {
  }

  lemma ScheduleThreeC()
    ensures Uses(40, 13, 4, 0x289b_7ec6)
    ensures Uses(41, 0, 11, 0xeaa1_27fa)
    ensures Uses(42, 3, 16, 0xd4ef_3085)
    ensures Uses(43, 6, 23, 0x0488_1d05)
  {
  }

  lemma ScheduleThreeD()
    ensures Uses(44, 9, 4, 0xd9d4_d039)
    ensures Uses(45, 12, 11, 0xe6db_99e5)
    ensures Uses(46, 15, 16, 0x1fa2_7cf8)
    ensures Uses(47, 2, 23, 0xc4ac_5665)
  {
  }

  lemma ScheduleFourA()
    ensures Uses(48, 0, 6, 0xf429_2244)
    ensures Uses(49, 7, 10, 0x432a_ff97)
    ensures Uses(50, 14, 15, 0xab94_23a7)
    ensures Uses(51, 5, 21, 0xfc93_a039)
  {
  }

  lemma ScheduleFourB()
    ensures Uses(52, 12, 6, 0x655b_59c3)
    ensures Uses(53, 3, 10, 0x8f0c_cc92)
    ensures Uses(54, 10, 15, 0xffef_f47d)
    ensures Uses(55, 1, 21, 0x8584_5dd1)
  {
  }

  lemma ScheduleFourC()
    ensures Uses(56, 8, 6, 0x6fa8_7e4f)
    ensures Uses(57, 15, 10, 0xfe2c_e6e0)
    ensures Uses(58, 6, 15, 0xa301_4314)
    ensures Uses(59, 13, 21, 0x4e08_11a1)
  {
  }

  lemma ScheduleFourD()
    ensures Uses(60, 4, 6, 0xf753_7e82)
    ensures Uses(61, 11, 10, 0xbd3a_f235)
    ensures Uses(62, 2, 15, 0x2ad7_d2bb)
    ensures Uses(63, 9, 21, 0xeb86_d391)
  {
  }

  /** Round 1. */
  method RoundOne(ghost r: Regs, x: seq<word>, A0: word, B0: word, C0: word, D0: word)
    returns (A: word, B: word, C: word, D: word)
    requires |x| == 16 && Steps(r, x, 0) == Regs(A0, B0, C0, D0)
    ensures Steps(r, x, 16) == Regs(A, B, C, D)
  {
    hide *;
    ScheduleOneA();
    ScheduleOneB();
    ScheduleOneC();
    ScheduleOneD();
    A, B, C, D := A0, B0, C0, D0;
    A := OpF(r, x, 0, A, B, C, D, 0, 7, 0xd76a_a478);
    D := OpF(r, x, 1, D, A, B, C, 1, 12, 0xe8c7_b756);
    C := OpF(r, x, 2, C, D, A, B, 2, 17, 0x2420_70db);
    B := OpF(r, x, 3, B, C, D, A, 3, 22, 0xc1bd_ceee);
    A := OpF(r, x, 4, A, B, C, D, 4, 7, 0xf57c_0faf);
    D := OpF(r, x, 5, D, A, B, C, 5, 12, 0x4787_c62a);
    C := OpF(r, x, 6, C, D, A, B, 6, 17, 0xa830_4613);
    B := OpF(r, x, 7, B, C, D, A, 7, 22, 0xfd46_9501);
    A := OpF(r, x, 8, A, B, C, D, 8, 7, 0x6980_98d8);
    D := OpF(r, x, 9, D, A, B, C, 9, 12, 0x8b44_f7af);
    C := OpF(r, x, 10, C, D, A, B, 10, 17, 0xffff_5bb1);
    B := OpF(r, x, 11, B, C, D, A, 11, 22, 0x895c_d7be);
    A := OpF(r, x, 12, A, B, C, D, 12, 7, 0x6b90_1122);
    D := OpF(r, x, 13, D, A, B, C, 13, 12, 0xfd98_7193);
    C := OpF(r, x, 14, C, D, A, B, 14, 17, 0xa679_438e);
    B := OpF(r, x, 15, B, C, D, A, 15, 22, 0x49b4_0821);
  }

  /** Round 2. */
  method RoundTwo(ghost r: Regs, x: seq<word>, A0: word, B0: word, C0: word, D0: word)
    returns (A: word, B: word, C: word, D: word)
    requires |x| == 16 && Steps(r, x, 16) == Regs(A0, B0, C0, D0)
    ensures Steps(r, x, 32) == Regs(A, B, C, D)
  {
    hide *;
    ScheduleTwoA();
    ScheduleTwoB();
    ScheduleTwoC();
    ScheduleTwoD();
    A, B, C, D := A0, B0, C0, D0;
    A := OpG(r, x, 16, A, B, C, D, 1, 5, 0xf61e_2562);
    D := OpG(r, x, 17, D, A, B, C, 6, 9, 0xc040_b340);
    C := OpG(r, x, 18, C, D, A, B, 11, 14, 0x265e_5a51);
    B := OpG(r, x, 19, B, C, D, A, 0, 20, 0xe9b6_c7aa);
    A := OpG(r, x, 20, A, B, C, D, 5, 5, 0xd62f_105d);
    D := OpG(r, x, 21, D, A, B, C, 10, 9, 0x0244_1453);
    C := OpG(r, x, 22, C, D, A, B, 15, 14, 0xd8a1_e681);
    B := OpG(r, x, 23, B, C, D, A, 4, 20, 0xe7d3_fbc8);
    A := OpG(r, x, 24, A, B, C, D, 9, 5, 0x21e1_cde6);
    D := OpG(r, x, 25, D, A, B, C, 14, 9, 0xc337_07d6);
    C := OpG(r, x, 26, C, D, A, B, 3, 14, 0xf4d5_0d87);
    B := OpG(r, x, 27, B, C, D, A, 8, 20, 0x455a_14ed);
    A := OpG(r, x, 28, A, B, C, D, 13, 5, 0xa9e3_e905);
    D := OpG(r, x, 29, D, A, B, C, 2, 9, 0xfcef_a3f8);
    C := OpG(r, x, 30, C, D, A, B, 7, 14, 0x676f_02d9);
    B := OpG(r, x, 31, B, C, D, A, 12, 20, 0x8d2a_4c8a);
  }

  /** Round 3. */
  method RoundThree(ghost r: Regs, x: seq<word>, A0: word, B0: word, C0: word, D0: word)
    returns (A: word, B: word, C: word, D: word)
    requires |x| == 16 && Steps(r, x, 32) == Regs(A0, B0, C0, D0)
    ensures Steps(r, x, 48) == Regs(A, B, C, D)
  {
    hide *;
    ScheduleThreeA();
    ScheduleThreeB();
    ScheduleThreeC();
    ScheduleThreeD();
    A, B, C, D := A0, B0, C0, D0;
    A := OpH(r, x, 32, A, B, C, D, 5, 4, 0xfffa_3942);
    D := OpH(r, x, 33, D, A, B, C, 8, 11, 0x8771_f681);
    C := OpH(r, x, 34, C, D, A, B, 11, 16, 0x6d9d_6122);
    B := OpH(r, x, 35, B, C, D, A, 14, 23, 0xfde5_380c);
    A := OpH(r, x, 36, A, B, C, D, 1, 4, 0xa4be_ea44);
    D := OpH(r, x, 37, D, A, B, C, 4, 11, 0x4bde_cfa9);
    C := OpH(r, x, 38, C, D, A, B, 7, 16, 0xf6bb_4b60);
    B := OpH(r, x, 39, B, C, D, A, 10, 23, 0xbebf_bc70);
    A := OpH(r, x, 40, A, B, C, D, 13, 4, 0x289b_7ec6);
    D := OpH(r, x, 41, D, A, B, C, 0, 11, 0xeaa1_27fa);
    C := OpH(r, x, 42, C, D, A, B, 3, 16, 0xd4ef_3085);
    B := OpH(r, x, 43, B, C, D, A, 6, 23, 0x0488_1d05);
    A := OpH(r, x, 44, A, B, C, D, 9, 4, 0xd9d4_d039);
    D := OpH(r, x, 45, D, A, B, C, 12, 11, 0xe6db_99e5);
    C := OpH(r, x, 46, C, D, A, B, 15, 16, 0x1fa2_7cf8);
    B := OpH(r, x, 47, B, C, D, A, 2, 23, 0xc4ac_5665);
  }

  /** Round 4. */
  method RoundFour(ghost r: Regs, x: seq<word>, A0: word, B0: word, C0: word, D0: word)
    returns (A: word, B: word, C: word, D: word)
    requires |x| == 16 && Steps(r, x, 48) == Regs(A0, B0, C0, D0)
    ensures Steps(r, x, 64) == Regs(A, B, C, D)
  {
    hide *;
    ScheduleFourA();
    ScheduleFourB();
    ScheduleFourC();
    ScheduleFourD();
    A, B, C, D := A0, B0, C0, D0;
    A := OpI(r, x, 48, A, B, C, D, 0, 6, 0xf429_2244);
    D := OpI(r, x, 49, D, A, B, C, 7, 10, 0x432a_ff97);
    C := OpI(r, x, 50, C, D, A, B, 14, 15, 0xab94_23a7);
    B := OpI(r, x, 51, B, C, D, A, 5, 21, 0xfc93_a039);
    A := OpI(r, x, 52, A, B, C, D, 12, 6, 0x655b_59c3);
    D := OpI(r, x, 53, D, A, B, C, 3, 10, 0x8f0c_cc92);
    C := OpI(r, x, 54, C, D, A, B, 10, 15, 0xffef_f47d);
    B := OpI(r, x, 55, B, C, D, A, 1, 21, 0x8584_5dd1);
    A := OpI(r, x, 56, A, B, C, D, 8, 6, 0x6fa8_7e4f);
    D := OpI(r, x, 57, D, A, B, C, 15, 10, 0xfe2c_e6e0);
    C := OpI(r, x, 58, C, D, A, B, 6, 15, 0xa301_4314);
    B := OpI(r, x, 59, B, C, D, A, 13, 21, 0x4e08_11a1);
    A := OpI(r, x, 60, A, B, C, D, 4, 6, 0xf753_7e82);
    D := OpI(r, x, 61, D, A, B, C, 11, 10, 0xbd3a_f235);
    C := OpI(r, x, 62, C, D, A, B, 2, 15, 0x2ad7_d2bb);
    B := OpI(r, x, 63, B, C, D, A, 9, 21, 0xeb86_d391);
  }

  // ----- what a context means

  /**
    The registers have taken in all of message but its tail, and the two counters hold the number of bytes
    taken in modulo 2^64.
   */
  ghost predicate Carries(r: Regs, total0: nat, total1: nat, tail: seq<bv8>, message: seq<bv8>) {
    && |tail| <= |message|
    && (|message| - |tail|) % BLOCK == 0
    && total0 < TWO32 && total1 < TWO32
    && total0 + TWO32 * total1 == (|message| - |tail|) % TWO64
    && tail == message[|message| - |tail|..]
    && r == Blocks(INIT, message[..|message| - |tail|])
  }

  lemma CarriesMore(r: Regs, total0: nat, total1: nat, tail: seq<bv8>, message: seq<bv8>, more: seq<bv8>)
    requires Carries(r, total0, total1, tail, message)
    ensures Carries(r, total0, total1, tail + more, message + more)
  {
    hide Blocks;
    var n := |message| - |tail|;
    assert (message + more)[..n] == message[..n] && (message + more)[n..] == tail + more;
  }

  lemma SumOfWhole(k: nat, n: nat)
    requires k % BLOCK == 0 && n % BLOCK == 0
    ensures (k + n) % BLOCK == 0
  {
  }

  lemma Restate(r: Regs, total0: nat, total1: nat, tail: seq<bv8>, message: seq<bv8>, k: nat)
    requires k <= |message| && k % BLOCK == 0 && tail == message[k..]
    requires total0 < TWO32 && total1 < TWO32 && total0 + TWO32 * total1 == k % TWO64
    requires r == Blocks(INIT, message[..k])
    ensures Carries(r, total0, total1, tail, message)
  {
    hide Blocks;
    assert |message| - |tail| == k;
  }

  /** Taking whole blocks from the front of the tail. */
  lemma Drained(r: Regs, total0: nat, total1: nat, tail: seq<bv8>, message: seq<bv8>, n: nat,
                total0': nat, total1': nat)
    requires total0' < TWO32 && total1' < TWO32
    requires Carries(r, total0, total1, tail, message) && n <= |tail| && n % BLOCK == 0
    requires Advanced(total0, total1, n, total0', total1')
    ensures Carries(Blocks(r, tail[..n]), total0', total1', tail[n..], message)
  {
    hide Blocks;
    hide Advanced;
    var k := |message| - |tail|;
    CountsOn(total0, total1, k, n, total0', total1');
    SumOfWhole(k, n);
    BlocksConcat(INIT, message[..k], tail[..n]);
    assert message[..k] + tail[..n] == message[..k + n];
    assert message[k + n..] == tail[n..];
    Restate(Blocks(r, tail[..n]), total0', total1', tail[n..], message, k + n);
  }

  /** The counter pair moved on by n, modulo 2^64. */
  ghost predicate Advanced(total0: nat, total1: nat, n: nat, total0': nat, total1': nat) {
    && total0' < TWO32 && total1' < TWO32
    && total0' + TWO32 * total1' == (total0 + TWO32 * total1 + n) % TWO64
  }

  lemma CountsOn(total0: nat, total1: nat, k: nat, n: nat, total0': nat, total1': nat)
    requires total0 + TWO32 * total1 == k % TWO64 && Advanced(total0, total1, n, total0', total1')
    ensures total0' + TWO32 * total1' == (k + n) % TWO64
  {
    var q := k / TWO64;
    assert k == TWO64 * q + k % TWO64;
    WholeTurns(k % TWO64 + n, q, TWO64);
  }

  /** The double word increment: a carry happened exactly when the low word came out below what was added. */
  lemma DoubleWordIncrement(total0: nat, total1: nat, n: nat)
    requires total0 < TWO32 && total1 < TWO32 && n < TWO32
    ensures var low := (total0 + n) % TWO32;
      var high := if low < n then (total1 + 1) % TWO32 else total1;
      Advanced(total0, total1, n, low, high)
  {
    var low := (total0 + n) % TWO32;
    if total0 + n < TWO32 {
      assert low == total0 + n;
    } else {
      assert low == total0 + n - TWO32;
      if total1 + 1 == TWO32 {
        assert total0 + TWO32 * total1 + n == TWO64 + low;
      }
    }
  }

  lemma NextBlock(r: Regs, bytes: seq<bv8>, i: nat)
    requires i + BLOCK <= |bytes| && (|bytes| - i) % BLOCK == 0 && (|bytes| - (i + BLOCK)) % BLOCK == 0
    ensures Blocks(r, bytes[i..]) == Blocks(Block(r, bytes[i..i + BLOCK]), bytes[i + BLOCK..])
  {
    hide Block;
    assert bytes[i..][..BLOCK] == bytes[i..i + BLOCK] && bytes[i..][BLOCK..] == bytes[i + BLOCK..];
  }

  lemma NoBlocks(r: Regs, bytes: seq<bv8>)
    requires bytes == []
    ensures Blocks(r, bytes) == r
  {
  }

  // ----- the context

  const FILLBUF: seq<bv8> := [0x80] + Zeros(63)

  function Pad(bytes: nat): (p: nat)
    requires bytes <= BLOCK
    ensures (bytes + p + 8) % BLOCK == 0
  {
    if bytes >= 56 then 64 + 56 - bytes else 56 - bytes
  }

  // The two words of the length in bits; the parts of the second have no bit in common, so + stands for |.
  function LowBits(total0: nat): nat { total0 * 8 % TWO32 }
  function HighBits(total0: nat, total1: nat): nat { total1 * 8 % TWO32 + total0 / 0x2000_0000 }

  lemma BitsOfTotal(total0: nat, total1: nat)
    requires total0 < TWO32 && total1 < TWO32
    ensures HighBits(total0, total1) < TWO32
    ensures 8 * (total0 + TWO32 * total1) % TWO64 == LowBits(total0) + TWO32 * HighBits(total0, total1)
  {
    var q := total0 / 0x2000_0000;
    var p := total1 / 0x2000_0000;
    assert total0 * 8 == TWO32 * q + LowBits(total0);
    assert total1 * 8 == TWO32 * p + total1 * 8 % TWO32;
    assert 8 * (total0 + TWO32 * total1) == LowBits(total0) + TWO32 * HighBits(total0, total1) + TWO64 * p;
    WholeTurns(LowBits(total0) + TWO32 * HighBits(total0, total1), p, TWO64);
  }

  lemma LengthWords(total0: nat, total1: nat, bytes: nat)
    requires total0 < TWO32 && total1 < TWO32 && total0 + TWO32 * total1 == bytes % TWO64
    ensures LowFirst(LowBits(total0)) + LowFirst(HighBits(total0, total1)) == LengthField(bytes)
  {
    hide LowFirst;
    BitsOfTotal(total0, total1);
    var q := bytes / TWO64;
    assert 8 * bytes == 8 * (bytes % TWO64) + TWO64 * (8 * q);
    WholeTurns(8 * (bytes % TWO64), 8 * q, TWO64);
    Halves(LowBits(total0), HighBits(total0, total1));
  }

  lemma Halves(low: nat, high: nat)
    requires low < TWO32
    ensures (low + TWO32 * high) % TWO32 == low && (low + TWO32 * high) / TWO32 == high
  {
  }

  lemma PadIsPadding(bytes: nat, length: nat)
    requires bytes <= BLOCK && bytes <= length && (length - bytes) % BLOCK == 0
    ensures Pad(bytes) <= 64 && FILLBUF[..Pad(bytes)] == Padding(length)
  {
    assert Pad(bytes) == 1 + (55 - bytes) % 64;
    var q := (length - bytes) / 64;
    assert 55 - bytes == 55 - length + 64 * q;
    assert (55 - bytes) % 64 == (55 - length) % 64;
  }

  /** What md5_finish_ctx appends completes the padding of the whole message. */
  lemma Finished(r: Regs, total0: nat, total1: nat, tail: seq<bv8>, message: seq<bv8>, total0': nat, total1': nat)
    requires Carries(r, total0, total1, tail, message) && |tail| <= BLOCK
    requires total0' < TWO32 && total1' < TWO32
    requires Advanced(total0, total1, |tail|, total0', total1')
    ensures Pad(|tail|) <= 64
    ensures
      var last := tail + FILLBUF[..Pad(|tail|)] + LowFirst(LowBits(total0')) + LowFirst(HighBits(total0', total1'));
      |last| % BLOCK == 0 && Output(Blocks(r, last)) == Digest(message)
  {
    hide Blocks;
    hide Output;
    hide LowFirst;
    hide Pad;
    hide Advanced;
    hide Padding;
    hide LengthField;
    hide HighBits;
    hide LowBits;
    var k := |message| - |tail|;
    CountsOn(total0, total1, k, |tail|, total0', total1');
    PadIsPadding(|tail|, |message|);
    LengthWords(total0', total1', |message|);
    var last := tail + Padding(|message|) + LengthField(|message|);
    assert message[..k] + last == Padded(message) by {
      assert message == message[..k] + tail;
    }
    BlocksConcat(INIT, message[..k], last);
    assert tail + FILLBUF[..Pad(|tail|)] + LowFirst(LowBits(total0')) + LowFirst(HighBits(total0', total1')) == last;
  }

  /** n & ~63 */
  function Whole(n: nat): (w: nat)
    ensures w <= n < w + BLOCK && w % BLOCK == 0
  {
    n / BLOCK * BLOCK
  }

  method CopyInto(target: array<bv8>, at: nat, source: seq<bv8>)
    requires at + |source| <= target.Length
    modifies target
    ensures target[..] == old(target[..at]) + source + old(target[at + |source|..])
  {
    var i := 0;
    while i < |source|
      invariant i <= |source|
      invariant target[..] == old(target[..at]) + source[..i] + old(target[at + i..])
    {
      target[at + i] := source[i];
      i := i + 1;
    }
  }

  class Context {
    var A: word
    var B: word
    var C: word
    var D: word
    var total0: nat
    var total1: nat
    var buflen: nat
    const buffer: array<bv8>

    ghost predicate Valid() reads this, buffer {
      buffer.Length == 128 && total0 < TWO32 && total1 < TWO32 && buflen <= 128
    }

    ghost function Registers(): Regs reads this { Regs(A, B, C, D) }

    /** The context stands for the bytes fed so far; at most one full block of them waits in the buffer. */
    ghost predicate Holds(message: seq<bv8>) reads this, buffer {
      Valid() && buflen <= BLOCK && Carries(Registers(), total0, total1, buffer[..buflen], message)
    }

    constructor ()
      ensures Holds([]) && buflen == 0 && fresh(buffer)
    {
      A, B, C, D := INIT.a, INIT.b, INIT.c, INIT.d;
      total0, total1, buflen := 0, 0, 0;
      buffer := new bv8[128];
    }

    method Count(n: nat)
      requires Valid() && n < TWO32
      modifies this`total0, this`total1
      ensures Valid() && Advanced(old(total0), old(total1), n, total0, total1)
    {
      DoubleWordIncrement(total0, total1, n);
      total0 := (total0 + n) % TWO32;
      if total0 < n {
        total1 := (total1 + 1) % TWO32;
      }
    }

    method ProcessBlock(bytes: seq<bv8>)
      requires Valid() && |bytes| % BLOCK == 0 && |bytes| < TWO32
      modifies this
      ensures Valid() && buflen == old(buflen)
      ensures Registers() == Blocks(old(Registers()), bytes)
      ensures Advanced(old(total0), old(total1), |bytes|, total0, total1)
    {
      hide Block;
      hide Blocks;
      hide Advanced;
      var a, b, c, d := A, B, C, D;
      Count(|bytes|);
      var i := 0;
      assert bytes[0..] == bytes;
      while i < |bytes|
        modifies {}
        invariant i <= |bytes| && (|bytes| - i) % BLOCK == 0
        invariant Blocks(Regs(a, b, c, d), bytes[i..]) == Blocks(old(Registers()), bytes)
      {
        NextBlock(Regs(a, b, c, d), bytes, i);
        a, b, c, d := OneBlock(a, b, c, d, bytes[i..i + BLOCK]);
        i := i + BLOCK;
      }
      NoBlocks(Regs(a, b, c, d), bytes[i..]);
      A, B, C, D := a, b, c, d;
    }

    /** The first part of md5_process_bytes: fill up what waits in the buffer. Returns how many bytes it took. */
    method TopUp(bytes: seq<bv8>, ghost message: seq<bv8>) returns (add: nat)
      requires Holds(message) && buflen != 0
      modifies this, buffer
      ensures add <= |bytes| && Holds(message + bytes[..add])
      ensures add < |bytes| ==> buflen == 0
    {
      hide Carries;
      hide Blocks;
      add := if 128 - buflen > |bytes| then |bytes| else 128 - buflen;
      ghost var tail := buffer[..buflen];
      CarriesMore(Registers(), total0, total1, tail, message, bytes[..add]);
      var filled := buflen + add;
      CopyInto(buffer, buflen, bytes[..add]);
      buflen := filled;
      assert buffer[..filled] == tail + bytes[..add];
      if filled > BLOCK {
        Shed(Whole(filled), message + bytes[..add]);
      }
    }

    /** Process the first n bytes of the buffer and move the others to its front. */
    method Shed(n: nat, ghost message: seq<bv8>)
      requires Valid() && Carries(Registers(), total0, total1, buffer[..buflen], message)
      requires n <= buflen && n % BLOCK == 0 && buflen - n <= BLOCK
      modifies this, buffer
      ensures Holds(message) && buflen == old(buflen) - n
    {
      hide Carries;
      hide Blocks;
      hide Advanced;
      ghost var r, t0, t1, tail := Registers(), total0, total1, buffer[..buflen];
      var whole, rest := buffer[..n], buffer[n..buflen];
      assert tail[..n] == whole && tail[n..] == rest;
      ProcessBlock(whole);
      Drained(r, t0, t1, tail, message, n, total0, total1);
      CopyInto(buffer, 0, rest);
      buflen := |rest|;
      assert buffer[..buflen] == rest;
    }

    /** md5_process_bytes; size_t has 32 bits. */
    method ProcessBytes(bytes: seq<bv8>, ghost message: seq<bv8>)
      requires Holds(message) && |bytes| < TWO32
      modifies this, buffer
      ensures Holds(message + bytes)
    {
      hide Carries;
      hide Blocks;
      var left := bytes;
      ghost var fed := message;
      if buflen != 0 {
        var add := TopUp(bytes, message);
        left := bytes[add..];
        fed := message + bytes[..add];
        assert fed + left == message + bytes;
      }
      if |left| > 64 {
        var n := Whole(|left|);
        assert left[..n] + left[n..] == left;
        Direct(left[..n], fed);
        fed := fed + left[..n];
        left := left[n..];
        assert fed + left == message + bytes;
      }
      if |left| > 0 {
        CarriesMore(Registers(), total0, total1, [], fed, left);
        assert [] + left == left;
        CopyInto(buffer, 0, left);
        buflen := |left|;
        assert buffer[..buflen] == left;
      } else {
        assert fed + left == fed;
      }
    }

    /** md5_read_ctx. */
    method ReadCtx() returns (digest: seq<bv8>)
      ensures digest == Output(Registers())
    {
      digest := WordBytes(A) + WordBytes(B) + WordBytes(C) + WordBytes(D);
    }

    /** md5_finish_ctx. */
    method FinishCtx(ghost message: seq<bv8>) returns (digest: seq<bv8>)
      requires Holds(message)
      modifies this, buffer
      ensures digest == Digest(message)
    {
      hide Carries;
      hide Blocks;
      hide Advanced;
      hide LowFirst;
      hide LowBits;
      hide HighBits;
      hide Digest;
      hide Output;
      ghost var r, t0, t1, tail := Registers(), total0, total1, buffer[..buflen];
      var bytes := buflen;
      Count(bytes);
      Finished(r, t0, t1, tail, message, total0, total1);
      var pad := Pad(bytes);
      CopyInto(buffer, bytes, FILLBUF[..pad]);
      CopyInto(buffer, bytes + pad, LowFirst(LowBits(total0)));
      CopyInto(buffer, bytes + pad + 4, LowFirst(HighBits(total0, total1)));
      ghost var last := tail + FILLBUF[..pad] + LowFirst(LowBits(total0)) + LowFirst(HighBits(total0, total1));
      assert buffer[..bytes + pad + 8] == last;
      ProcessBlock(buffer[..bytes + pad + 8]);
      digest := ReadCtx();
    }

    /** Complete blocks straight from the caller's memory, while nothing waits in the buffer. */
    method Direct(bytes: seq<bv8>, ghost message: seq<bv8>)
      requires Holds(message) && buflen == 0 && |bytes| % BLOCK == 0 && |bytes| < TWO32
      modifies this
      ensures Holds(message + bytes) && buflen == 0
    {
      hide Carries;
      hide Blocks;
      hide Advanced;
      ghost var r, t0, t1 := Registers(), total0, total1;
      assert buffer[..0] == [] && [] + bytes == bytes;
      CarriesMore(r, t0, t1, [], message, bytes);
      ProcessBlock(bytes);
      Drained(r, t0, t1, bytes, message + bytes, |bytes|, total0, total1);
      assert bytes[..|bytes|] == bytes && bytes[|bytes|..] == [];
    }
  }

  method OneBlock(A0: word, B0: word, C0: word, D0: word, block: seq<bv8>)
    returns (A: word, B: word, C: word, D: word)
    requires |block| == BLOCK
    ensures Regs(A, B, C, D) == Block(Regs(A0, B0, C0, D0), block)
  {
    hide Words;
    hide Add;
    hide Step;
    ghost var r := Regs(A0, B0, C0, D0);
    var x := Words(block);
    A, B, C, D := RoundOne(r, x, A0, B0, C0, D0);
    A, B, C, D := RoundTwo(r, x, A, B, C, D);
    A, B, C, D := RoundThree(r, x, A, B, C, D);
    A, B, C, D := RoundFour(r, x, A, B, C, D);
    A, B, C, D := Add(A, A0), Add(B, B0), Add(C, C0), Add(D, D0);
  }

  // ----- whole inputs

  /** md5_buffer. */
  method Md5Buffer(buffer: seq<bv8>) returns (digest: seq<bv8>)
    requires |buffer| < TWO32
    ensures digest == Digest(buffer)
  {
    var ctx := new Context();
    ctx.ProcessBytes(buffer, []);
    assert [] + buffer == buffer;
    digest := ctx.FinishCtx(buffer);
  }

  lemma NoPieces()
    ensures Concat<bv8>([]) == []
  {
  }

  lemma OnePieceMore(chunks: seq<seq<bv8>>, i: nat)
    requires i < |chunks|
    ensures Concat(chunks[..i + 1]) == Concat(chunks[..i]) + chunks[i]
  {
    assert chunks[..i + 1][..i] == chunks[..i];
  }

  /** Any caller that hands over a message piece by piece gets its digest, wherever the cuts are. */
  method Md5Pieces(chunks: seq<seq<bv8>>) returns (digest: seq<bv8>)
    requires forall i :: 0 <= i < |chunks| ==> |chunks[i]| < TWO32
    ensures digest == Digest(Concat(chunks))
  {
    hide Carries;
    hide Concat;
    hide Digest;
    NoPieces();
    var ctx := new Context();
    var i := 0;
    while i < |chunks|
      invariant 0 <= i <= |chunks| && fresh(ctx) && fresh(ctx.buffer)
      invariant ctx.Holds(Concat(chunks[..i]))
    {
      OnePieceMore(chunks, i);
      ctx.ProcessBytes(chunks[i], Concat(chunks[..i]));
      i := i + 1;
    }
    assert chunks[..|chunks|] == chunks;
    digest := ctx.FinishCtx(Concat(chunks));
  }

  const BLOCKSIZE := 4096

  /**
    A stdio stream: how many bytes a call delivers is up to the schedule, and a call may raise the error mark.
    A call that asks for something and gets nothing is at the end of the data or has raised the mark.
   */
  class Stream {
    const data: seq<bv8>
    const size: nat -> nat
    const breaks: nat -> bool
    var position: nat
    var calls: nat
    var error: bool

    constructor (data: seq<bv8>, size: nat -> nat, breaks: nat -> bool)
      ensures this.data == data && this.size == size && this.breaks == breaks
      ensures position == 0 && calls == 0 && !error
    {
      this.data, this.size, this.breaks := data, size, breaks;
      position, calls, error := 0, 0, false;
    }

    method Read(most: nat) returns (bytes: seq<bv8>)
      requires position <= |data| && most > 0
      modifies this
      ensures position <= |data| && |bytes| <= most
      ensures old(position) + |bytes| == position && bytes == data[old(position)..position]
      ensures bytes == [] ==> position == |data| || error
      ensures old(error) ==> error
    {
      var left := |data| - position;
      var some := if breaks(calls) || size(calls) > 0 then size(calls) else 1;
      var n := if some <= most && some <= left then some else if most <= left then most else left;
      bytes := data[position..position + n];
      error := error || breaks(calls);
      position, calls := position + n, calls + 1;
    }
  }

  /** The inner loop of md5_stream: read until the block is full or a read delivers nothing. */
  method FillBlock(stream: Stream, buffer: array<bv8>) returns (sum: nat, n: nat)
    requires stream.position <= |stream.data| && buffer.Length == BLOCKSIZE + 72
    modifies stream, buffer
    ensures stream.position <= |stream.data|
    ensures sum <= BLOCKSIZE && stream.position == old(stream.position) + sum
    ensures buffer[..sum] == stream.data[old(stream.position)..stream.position]
    ensures if n == 0 then stream.position == |stream.data| || stream.error else sum == BLOCKSIZE
    ensures old(stream.error) ==> stream.error
  {
    sum := 0;
    ghost var start := stream.position;
    var first := true;
    n := 0;
    while first || (sum < BLOCKSIZE && n != 0)
      invariant stream.position <= |stream.data|
      invariant sum <= BLOCKSIZE && stream.position == start + sum
      invariant buffer[..sum] == stream.data[start..stream.position]
      invariant first ==> sum == 0
      invariant !first && n == 0 ==> stream.position == |stream.data| || stream.error
      invariant old(stream.error) ==> stream.error
      decreases first, BLOCKSIZE - sum, n
    {
      var bytes := stream.Read(BLOCKSIZE - sum);
      CopyInto(buffer, sum, bytes);
      n := |bytes|;
      sum := sum + n;
      first := false;
    }
  }

  lemma Joined(data: seq<bv8>, start: nat, from: nat, to: nat)
    requires start <= from <= to <= |data|
    ensures data[start..from] + data[from..to] == data[start..to]
  {
  }

  /** md5_stream: fails exactly when the stream raised its error mark, and otherwise yields the digest of the rest. */
  method Md5Stream(stream: Stream) returns (status: int, digest: seq<bv8>)
    requires stream.position <= |stream.data|
    modifies stream
    ensures status == (if stream.error then 1 else 0)
    ensures status == 0 ==> digest == Digest(stream.data[old(stream.position)..])
  {
    hide Digest;
    hide Carries;
    var ctx := new Context();
    var buffer := new bv8[BLOCKSIZE + 72];
    ghost var start := stream.position;
    var sum, n := FillBlock(stream, buffer);
    assert stream.data[start..start] == [];
    while n != 0
      invariant 0 <= sum <= BLOCKSIZE
      invariant stream.position <= |stream.data|
      invariant start + sum <= stream.position
      invariant ctx.Holds(stream.data[start..stream.position - sum]) && ctx.buflen == 0
      invariant fresh(ctx) && fresh(ctx.buffer)
      invariant buffer[..sum] == stream.data[stream.position - sum..stream.position]
      invariant if n == 0 then stream.position == |stream.data| || stream.error else sum == BLOCKSIZE
      decreases |stream.data| - stream.position, n
    {
      ghost var from, to := stream.position - sum, stream.position;
      assert buffer[..BLOCKSIZE] == stream.data[from..to];
      ctx.Direct(buffer[..BLOCKSIZE], stream.data[start..from]);
      Joined(stream.data, start, from, to);
      sum, n := FillBlock(stream, buffer);
      assert stream.position - sum == to;
    }
    if stream.error {
      return 1, [];
    }
    if sum > 0 {
      ghost var from := stream.position - sum;
      ctx.ProcessBytes(buffer[..sum], stream.data[start..from]);
      Joined(stream.data, start, from, stream.position);
    }
    assert stream.data[start..stream.position] == stream.data[start..];
    digest := ctx.FinishCtx(stream.data[start..]);
    status := 0;
  }
}
