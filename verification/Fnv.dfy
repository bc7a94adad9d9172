/** The FNV-1 and FNV-1a string hashes, on 32 and on 64 bits. */
module Fnv {
  import opened Bytes

  /** The parameters of a hash; arithmetic is modulo `modulus`. */
  datatype Traits = Traits(modulus: nat, prime: nat, offsetBasis: nat)

  const FNV32: Traits := Traits(0x1_0000_0000, 0x0100_0193, 0x811C_9DC5)
  const FNV64: Traits := Traits(0x1_0000_0000_0000_0000, 0x0000_0100_0000_01b3, 0xcbf2_9ce4_8422_2645)

  predicate IsTraits(t: Traits) { t == FNV32 || t == FNV64 }

  /** `hash * prime` on unsigned words. */
  function Multiply(hash: nat, t: Traits): (h: nat)
    requires IsTraits(t)
    ensures h < t.modulus
  {
    if t == FNV32 then hash * 0x0100_0193 % 0x1_0000_0000 else hash * 0x0000_0100_0000_01b3 % 0x1_0000_0000_0000_0000
  }

  function Pow2(n: nat): (p: nat)
    ensures p > 0
  {
    if n == 0 then 1 else 2 * Pow2(n - 1)
  }

  /** The exclusive or of the low `n` bits; the higher bits of `x` stay. */
  function XorBits(x: nat, c: nat, n: nat): nat {
    if n == 0 then x else (if x % 2 == c % 2 then 0 else 1) + 2 * XorBits(x / 2, c / 2, n - 1)
  }

  /** `hash ^ c`, which changes the low byte only. */
  function Xor(hash: nat, c: byte): nat {
    XorBits(hash, c, 8)
  }

  /** One step of FNV-1 multiplies first, one of FNV-1a last. */
  function Step(hash: nat, c: byte, t: Traits, a: bool): nat
    requires IsTraits(t)
  {
    if a then Multiply(Xor(hash, c), t) else Xor(Multiply(hash, t), c)
  }

  function Hash(s: seq<byte>, t: Traits, a: bool): nat
    requires IsTraits(t)
  {
    if s == [] then t.offsetBasis else Step(Hash(s[..|s| - 1], t, a), s[|s| - 1], t, a)
  }

  // ---------------------------------------------------------------- bit by bit

  ghost function Bit(x: nat, k: nat): nat {
    if k == 0 then x % 2 else Bit(x / 2, k - 1)
  }

  /** A bit of the exclusive or is set exactly when the bits differ; from the n-th on the bits of `x` stay. */
  lemma {:induction false} XorIsBitwise(x: nat, c: nat, n: nat, k: nat)
    ensures Bit(XorBits(x, c, n), k) == 1 <==> if k < n then Bit(x, k) != Bit(c, k) else Bit(x, k) == 1
    decreases n
  {
    if n == 0 {
      BitIsBit(x, k);
    } else if k > 0 {
      XorIsBitwise(x / 2, c / 2, n - 1, k - 1);
    }
  }

  lemma {:induction false} BitIsBit(x: nat, k: nat)
    ensures Bit(x, k) < 2
    decreases k
  {
    if k > 0 {
      BitIsBit(x / 2, k - 1);
    }
  }

  /** The bits determine the number. */
  lemma {:induction false} BitsDetermine(x: nat, y: nat)
    requires forall k: nat :: Bit(x, k) == Bit(y, k)
    ensures x == y
    decreases x + y
  {
    assert Bit(x, 0) == Bit(y, 0);
    if x > 0 || y > 0 {
      forall k: nat
        ensures Bit(x / 2, k) == Bit(y / 2, k)
      {
        assert Bit(x, k + 1) == Bit(y, k + 1);
      }
      BitsDetermine(x / 2, y / 2);
    }
  }

  // ---------------------------------------------------------------- each step is a bijection

  /** Equal results from the same byte come from equal states, and from the same state from equal bytes. */
  lemma {:induction false} XorCancels(x: nat, y: nat, c: nat, d: nat, n: nat)
    requires XorBits(x, c, n) == XorBits(y, d, n) && c < Pow2(n) && d < Pow2(n)
    ensures c == d ==> x == y
    ensures x == y ==> c == d
  {
    if n > 0 {
      XorCancels(x / 2, y / 2, c / 2, d / 2, n - 1);
    }
  }

  /** Exclusive or stays within a word of eight bits or more. */
  lemma {:induction false} XorWithin(x: nat, c: nat, n: nat, k: nat)
    requires n <= k && x < Pow2(k) && c < Pow2(n)
    ensures XorBits(x, c, n) < Pow2(k)
  {
    if n > 0 {
      XorWithin(x / 2, c / 2, n - 1, k - 1);
    }
  }

  lemma Remainder32(x: int, k: int, h: nat)
    requires h < 0x1_0000_0000 && x == h + 0x1_0000_0000 * k
    ensures x % 0x1_0000_0000 == h
  {
  }

  lemma Remainder64(x: int, k: int, h: nat)
    requires h < 0x1_0000_0000_0000_0000 && x == h + 0x1_0000_0000_0000_0000 * k
    ensures x % 0x1_0000_0000_0000_0000 == h
  {
  }

  /** The prime is odd, so multiplying by it can be undone. */
  lemma Multiply32Undone(h: nat)
    requires h < 0x1_0000_0000
    ensures Multiply(h, FNV32) * 0x359c_449b % 0x1_0000_0000 == h
  {
    var r, k := h * 0x0100_0193 % 0x1_0000_0000, h * 0x0100_0193 / 0x1_0000_0000;
    assert h * 0x0100_0193 == 0x1_0000_0000 * k + r;
    Remainder32(r * 0x359c_449b, h * 0x35_9c99 - k * 0x359c_449b, h);
  }

  lemma Multiply64Undone(h: nat)
    requires h < 0x1_0000_0000_0000_0000
    ensures Multiply(h, FNV64) * 0xce96_5057_aff6_957b % 0x1_0000_0000_0000_0000 == h
  {
    var r := h * 0x0000_0100_0000_01b3 % 0x1_0000_0000_0000_0000;
    var k := h * 0x0000_0100_0000_01b3 / 0x1_0000_0000_0000_0000;
    assert h * 0x0000_0100_0000_01b3 == 0x1_0000_0000_0000_0000 * k + r;
    Remainder64(r * 0xce96_5057_aff6_957b, h * 0xce_9650_590f - k * 0xce96_5057_aff6_957b, h);
  }

  lemma MultiplyCancels(g: nat, h: nat, t: Traits)
    requires IsTraits(t) && g < t.modulus && h < t.modulus && Multiply(g, t) == Multiply(h, t)
    ensures g == h
  {
    hide Multiply;
    if t == FNV32 {
      Multiply32Undone(g);
      Multiply32Undone(h);
    } else {
      Multiply64Undone(g);
      Multiply64Undone(h);
    }
  }

  lemma EightMore(n: nat)
    ensures Pow2(n + 8) == 256 * Pow2(n)
  {
    assert Pow2(n + 4) == 2 * Pow2(n + 3) == 4 * Pow2(n + 2) == 8 * Pow2(n + 1) == 16 * Pow2(n);
    assert Pow2(n + 8) == 2 * Pow2(n + 7) == 4 * Pow2(n + 6) == 8 * Pow2(n + 5) == 16 * Pow2(n + 4);
  }

  lemma Words()
    ensures Pow2(8) == 256 && Pow2(32) == 0x1_0000_0000 && Pow2(64) == 0x1_0000_0000_0000_0000
  {
    EightMore(0);
    EightMore(8);
    EightMore(16);
    EightMore(24);
    EightMore(32);
    EightMore(40);
    EightMore(48);
    EightMore(56);
  }

  lemma XorFits(h: nat, c: byte, t: Traits)
    requires IsTraits(t) && h < t.modulus
    ensures Xor(h, c) < t.modulus
  {
    Words();
    XorWithin(h, c, 8, if t == FNV32 then 32 else 64);
  }

  lemma StepFits(h: nat, c: byte, t: Traits, a: bool)
    requires IsTraits(t) && h < t.modulus
    ensures Step(h, c, t, a) < t.modulus
  {
    hide Multiply, Xor;
    XorFits(if a then h else Multiply(h, t), c, t);
  }

  /** Distinct states stay distinct under the same byte, and distinct bytes part the same state. */
  lemma StepSeparates(g: nat, h: nat, c: byte, d: byte, t: Traits, a: bool)
    requires IsTraits(t) && g < t.modulus && h < t.modulus
    ensures g != h ==> Step(g, c, t, a) != Step(h, c, t, a)
    ensures c != d ==> Step(g, c, t, a) != Step(g, d, t, a)
  {
    if Step(g, c, t, a) == Step(h, c, t, a) {
      StepCancels(g, h, c, c, t, a);
    }
    if Step(g, c, t, a) == Step(g, d, t, a) {
      StepCancels(g, g, c, d, t, a);
    }
  }

  lemma StepCancels(g: nat, h: nat, c: byte, d: byte, t: Traits, a: bool)
    requires IsTraits(t) && g < t.modulus && h < t.modulus && Step(g, c, t, a) == Step(h, d, t, a)
    ensures c == d ==> g == h
    ensures g == h ==> c == d
  {
    hide Multiply, XorBits;
    Words();
    if a {
      XorFits(g, c, t);
      XorFits(h, d, t);
      MultiplyCancels(Xor(g, c), Xor(h, d), t);
      XorCancels(g, h, c, d, 8);
    } else {
      XorCancels(Multiply(g, t), Multiply(h, t), c, d, 8);
      if c == d {
        MultiplyCancels(g, h, t);
      }
    }
  }

  // ---------------------------------------------------------------- the hashes

  lemma {:induction false} HashFits(s: seq<byte>, t: Traits, a: bool)
    requires IsTraits(t)
    ensures Hash(s, t, a) < t.modulus
  {
    if s != [] {
      HashFits(s[..|s| - 1], t, a);
      StepFits(Hash(s[..|s| - 1], t, a), s[|s| - 1], t, a);
    }
  }

  /** Strings of one length that differ in a single byte have different hashes. */
  lemma {:induction false} OneByteChangesHash(s: seq<byte>, r: seq<byte>, i: nat, t: Traits, a: bool)
    requires IsTraits(t) && |s| == |r| && i < |s| && s[i] != r[i]
    requires forall j :: 0 <= j < |s| && j != i ==> s[j] == r[j]
    ensures Hash(s, t, a) != Hash(r, t, a)
  {
    hide Step;
    var n := |s| - 1;
    HashFits(s[..n], t, a);
    HashFits(r[..n], t, a);
    if i == n {
      assert s[..n] == r[..n];
    } else {
      OneByteChangesHash(s[..n], r[..n], i, t, a);
    }
    StepSeparates(Hash(s[..n], t, a), Hash(r[..n], t, a), s[n], r[n], t, a);
  }

  /** Exclusive or with a byte leaves all but the low byte. */
  lemma XorOf(high: nat, low: byte, c: byte, r: byte)
    requires XorBits(low, c, 8) == r
    ensures Xor(256 * high + low, c) == 256 * high + r
  {
    XorHigh(high, low, c, 8);
    Words();
  }

  lemma {:induction false} XorHigh(high: nat, low: nat, c: nat, n: nat)
    requires low < Pow2(n)
    ensures XorBits(Pow2(n) * high + low, c, n) == Pow2(n) * high + XorBits(low, c, n)
  {
    if n > 0 {
      var m := Pow2(n - 1) * high;
      DoubledPower(n, high);
      EvenPart(m, low);
      XorHigh(high, low / 2, c / 2, n - 1);
      assert XorBits(2 * m + low, c, n)
          == (if low % 2 == c % 2 then 0 else 1) + 2 * XorBits(m + low / 2, c / 2, n - 1);
    }
  }

  lemma DoubledPower(n: nat, high: nat)
    requires n > 0
    ensures Pow2(n) * high == 2 * (Pow2(n - 1) * high)
  {
  }

  lemma EvenPart(m: nat, low: nat)
    ensures (2 * m + low) % 2 == low % 2 && (2 * m + low) / 2 == m + low / 2
  {
  }

  function Digit(x: nat, c: nat): nat { if x % 2 == c % 2 then 0 else 1 }

  lemma XorTwo(x: nat, c: nat, n: nat)
    requires n >= 2
    ensures XorBits(x, c, n) == Digit(x, c) + 2 * Digit(x / 2, c / 2) + 4 * XorBits(x / 4, c / 4, n - 2)
  {
    assert XorBits(x, c, n) == Digit(x, c) + 2 * XorBits(x / 2, c / 2, n - 1);
    assert x / 2 / 2 == x / 4 && c / 2 / 2 == c / 4;
  }

  lemma Quotients(x: byte)
    ensures x / 4 / 2 == x / 8 && x / 4 / 4 == x / 16 && x / 16 / 2 == x / 32 && x / 16 / 4 == x / 64
    ensures x / 64 / 2 == x / 128 && x / 64 / 4 == x / 256 == 0
  {
  }

  /** Eight digits, one by one. */
  lemma XorEight(x: byte, c: byte)
    ensures XorBits(x, c, 8)
         == Digit(x, c) + 2 * Digit(x / 2, c / 2) + 4 * Digit(x / 4, c / 4) + 8 * Digit(x / 8, c / 8)
            + 16 * Digit(x / 16, c / 16) + 32 * Digit(x / 32, c / 32) + 64 * Digit(x / 64, c / 64)
            + 128 * Digit(x / 128, c / 128)
  {
    hide XorBits, Digit;
    Quotients(x);
    Quotients(c);
    XorTwo(x, c, 8);
    XorTwo(x / 4, c / 4, 6);
    XorTwo(x / 16, c / 16, 4);
    XorTwo(x / 64, c / 64, 2);
    XorNone(x / 256, c / 256);
  }

  lemma XorNone(x: nat, c: nat)
    ensures XorBits(x, c, 0) == x
  {
  }

  lemma LowByte1()
    ensures XorBits(31, 97, 8) == 126
  {
    hide XorBits;
    XorEight(31, 97);
  }

  lemma LowByte2()
    ensures XorBits(90, 98, 8) == 56
  {
    hide XorBits;
    XorEight(90, 98);
  }

  lemma LowByte3()
    ensures XorBits(197, 97, 8) == 164
  {
    hide XorBits;
    XorEight(197, 97);
  }

  lemma LowByte4()
    ensures XorBits(44, 98, 8) == 78
  {
    hide XorBits;
    XorEight(44, 98);
  }

  lemma LowByte5()
    ensures XorBits(63, 97, 8) == 94
  {
    hide XorBits;
    XorEight(63, 97);
  }

  lemma LowByte6()
    ensures XorBits(186, 98, 8) == 216
  {
    hide XorBits;
    XorEight(186, 98);
  }

  lemma LowByte7()
    ensures XorBits(69, 97, 8) == 36
  {
    hide XorBits;
    XorEight(69, 97);
  }

  lemma LowByte8()
    ensures XorBits(44, 98, 8) == 78
  {
    hide XorBits;
    XorEight(44, 98);
  }

  lemma LowBytes()
    ensures XorBits(31, 97, 8) == 126 && XorBits(90, 98, 8) == 56
    ensures XorBits(197, 97, 8) == 164 && XorBits(44, 98, 8) == 78
    ensures XorBits(63, 97, 8) == 94 && XorBits(186, 98, 8) == 216
    ensures XorBits(69, 97, 8) == 36 && XorBits(44, 98, 8) == 78
  {
    hide XorBits;
    LowByte1();
    LowByte2();
    LowByte3();
    LowByte4();
    LowByte5();
    LowByte6();
    LowByte7();
    LowByte8();
  }

  lemma Products32()
    ensures Multiply(0x811c_9dc5, FNV32) == 0x050c_5d1f
    ensures Multiply(0x050c_5d7e, FNV32) == 0x7077_2d5a
    ensures Multiply(0x811c_9da4, FNV32) == 0xe40c_292c
    ensures Multiply(0xe40c_294e, FNV32) == 0x4d25_05ca
  {
  }

  lemma Products64()
    ensures Multiply(0xcbf2_9ce4_8422_2645, FNV64) == 0xaf66_dd4c_8607_073f
    ensures Multiply(0xaf66_dd4c_8607_075e, FNV64) == 0x12d1_6707_bdf1_84ba
    ensures Multiply(0xcbf2_9ce4_8422_2624, FNV64) == 0xaf66_bc4c_8606_cf2c
    ensures Multiply(0xaf66_bc4c_8606_cf4e, FNV64) == 0x1261_4407_bd92_418a
  {
  }

  lemma Ab32()
    ensures Hash([97, 98], FNV32, false) == 0x7077_2d38
  {
    hide XorBits, Multiply, Xor;
    Products32();
    LowBytes();
    XorOf(0x0005_0c5d, 31, 97, 126);
    XorOf(0x0070_772d, 90, 98, 56);
    assert [97, 98][..1] == [97] && [97][..0] == [];
  }

  lemma Ab32a()
    ensures Hash([97, 98], FNV32, true) == 0x4d25_05ca
  {
    hide XorBits, Multiply, Xor;
    Products32();
    LowBytes();
    XorOf(0x0081_1c9d, 197, 97, 164);
    XorOf(0x00e4_0c29, 44, 98, 78);
    assert [97, 98][..1] == [97] && [97][..0] == [];
  }

  lemma Ab64()
    ensures Hash([97, 98], FNV64, false) == 0x12d1_6707_bdf1_84d8
  {
    hide XorBits, Multiply, Xor;
    Products64();
    LowBytes();
    XorOf(0x00af_66dd_4c86_0707, 63, 97, 94);
    XorOf(0x0012_d167_07bd_f184, 186, 98, 216);
    assert [97, 98][..1] == [97] && [97][..0] == [];
  }

  lemma Ab64a()
    ensures Hash([97, 98], FNV64, true) == 0x1261_4407_bd92_418a
  {
    hide XorBits, Multiply, Xor;
    Products64();
    LowBytes();
    XorOf(0x00cb_f29c_e484_2226, 69, 97, 36);
    XorOf(0x00af_66bc_4c86_06cf, 44, 98, 78);
    assert [97, 98][..1] == [97] && [97][..0] == [];
  }

  /** The hashes of no text, and of "ab". */
  lemma HashesOfAb()
    ensures Hash([], FNV32, false) == Hash([], FNV32, true) == 0x811C_9DC5
    ensures Hash([], FNV64, false) == Hash([], FNV64, true) == 0xcbf2_9ce4_8422_2645
    ensures Hash([97, 98], FNV32, false) == 0x7077_2d38 && Hash([97, 98], FNV32, true) == 0x4d25_05ca
    ensures Hash([97, 98], FNV64, false) == 0x12d1_6707_bdf1_84d8
    ensures Hash([97, 98], FNV64, true) == 0x1261_4407_bd92_418a
  {
    hide Step;
    Ab32();
    Ab32a();
    Ab64();
    Ab64a();
  }

  /** The bytes before the first NUL. */
  function Text(input: seq<byte>): (s: seq<byte>)
    requires 0 in input
    ensures |s| < |input| && input[|s|] == 0 && s == input[..|s|] && 0 !in s
  {
    if input[0] == 0 then []
    else
      assert input == [input[0]] + input[1..];
      [input[0]] + Text(input[1..])
  }

  lemma ByteIn(s: seq<byte>, i: nat)
    requires i < |s|
    ensures s[i] in s
  {
  }

  /** The loop goes on exactly while it is within the text. */
  lemma WithinText(input: seq<byte>, c: nat)
    requires 0 in input && c <= |Text(input)|
    ensures c < |input| && (input[c] != 0 <==> c < |Text(input)|)
  {
    if c < |Text(input)| {
      ByteIn(Text(input), c);
    }
  }

  /** The hash of a terminated string. */
  method HashFnv1(input: seq<byte>, t: Traits) returns (hash: nat)
    requires IsTraits(t) && 0 in input
    ensures hash == Hash(Text(input), t, false)
  {
    hide Multiply, Xor;
    hash := t.offsetBasis;
    var c := 0;
    WithinText(input, 0);
    while input[c] != 0
      invariant c <= |Text(input)| < |input| && (input[c] != 0 <==> c < |Text(input)|)
      invariant hash == Hash(input[..c], t, false)
      decreases |input| - c
    {
      WithinText(input, c + 1);
      assert input[..c + 1][..c] == input[..c];
      hash := Multiply(hash, t);
      hash := Xor(hash, input[c]);
      c := c + 1;
    }
  }

  method HashFnv1a(input: seq<byte>, t: Traits) returns (hash: nat)
    requires IsTraits(t) && 0 in input
    ensures hash == Hash(Text(input), t, true)
  {
    hide Multiply, Xor;
    hash := t.offsetBasis;
    var c := 0;
    WithinText(input, 0);
    while input[c] != 0
      invariant c <= |Text(input)| < |input| && (input[c] != 0 <==> c < |Text(input)|)
      invariant hash == Hash(input[..c], t, true)
      decreases |input| - c
    {
      WithinText(input, c + 1);
      assert input[..c + 1][..c] == input[..c];
      hash := Xor(hash, input[c]);
      hash := Multiply(hash, t);
      c := c + 1;
    }
  }
}
