/** Bit scans and counts (xUSL/CommonLib/Utils.c). Unsigned values are naturals with explicit width:
    a right shift halves, a left shift doubles modulo 2^32. */
module BitUtils {
  import opened Bytes

  predicate Bit(v: nat, n: nat) {
    if n == 0 then v % 2 == 1 else Bit(v / 2, n - 1)
  }

  function Pow2(n: nat): (p: nat)
    ensures p > 0
  {
    if n == 0 then 1 else 2 * Pow2(n - 1)
  }

  /** The number of one bits. */
  function Ones(v: nat): nat {
    if v == 0 then 0 else v % 2 + Ones(v / 2)
  }

  /** One more than the position of the highest one bit; 0 for 0. */
  function Width(v: nat): nat {
    if v == 0 then 0 else 1 + Width(v / 2)
  }

  /** Bitwise and. */
  function And(a: nat, b: nat): nat {
    if a == 0 || b == 0 then 0 else (if a % 2 == 1 && b % 2 == 1 then 1 else 0) + 2 * And(a / 2, b / 2)
  }

  /** Bitwise or. */
  function Or(a: nat, b: nat): nat {
    if a == 0 && b == 0 then 0 else (if a % 2 == 1 || b % 2 == 1 then 1 else 0) + 2 * Or(a / 2, b / 2)
  }

  // ----- What the functions mean -----

  lemma {:induction false} OrBit(a: nat, b: nat, n: nat)
    ensures Bit(Or(a, b), n) <==> Bit(a, n) || Bit(b, n)
    decreases n
  {
    OrHalf(a, b);
    hide Or;
    if n > 0 {
      OrBit(a / 2, b / 2, n - 1);
    }
  }

  lemma OrHalf(a: nat, b: nat)
    ensures Or(a, b) % 2 == 1 <==> a % 2 == 1 || b % 2 == 1
    ensures Or(a, b) / 2 == Or(a / 2, b / 2)
  {
  }

  lemma {:induction false} OrBelow(a: nat, b: nat, n: nat)
    requires a < Pow2(n) && b < Pow2(n)
    ensures Or(a, b) < Pow2(n)
  {
    if n > 0 {
      OrBelow(a / 2, b / 2, n - 1);
    }
  }

  lemma {:induction false} Pow2Bit(n: nat, k: nat)
    ensures Bit(Pow2(n), k) <==> n == k
  {
    if n > 0 && k > 0 {
      Pow2Bit(n - 1, k - 1);
      assert Pow2(n) / 2 == Pow2(n - 1);
    } else if k > 0 {
      ZeroBit(k - 1);
    }
  }

  lemma {:induction false} Pow2Below(n: nat, m: nat)
    requires n < m
    ensures Pow2(n) < Pow2(m)
  {
    if n < m - 1 {
      Pow2Below(n, m - 1);
    }
  }

  lemma {:induction false} AndBit(a: nat, b: nat, n: nat)
    ensures Bit(And(a, b), n) <==> Bit(a, n) && Bit(b, n)
    decreases n
  {
    AndHalf(a, b);
    hide And;
    if n > 0 {
      AndBit(a / 2, b / 2, n - 1);
    }
  }

  lemma AndHalf(a: nat, b: nat)
    ensures And(a, b) % 2 == 1 <==> a % 2 == 1 && b % 2 == 1
    ensures And(a, b) / 2 == And(a / 2, b / 2)
  {
  }

  lemma ZeroBit(n: nat)
    ensures !Bit(0, n)
  {
  }

  lemma {:induction false} HighestBit(v: nat, n: nat)
    requires v > 0
    ensures Bit(v, Width(v) - 1)
    ensures Width(v) <= n ==> !Bit(v, n)
  {
    if v > 1 {
      HighestBit(v / 2, if n == 0 then 0 else n - 1);
    } else if n > 0 {
      ZeroBit(n - 1);
    }
  }

  lemma NoHigherBit(v: nat)
    requires v > 0
    ensures Bit(v, Width(v) - 1) && forall j: nat :: Width(v) <= j ==> !Bit(v, j)
  {
    HighestBit(v, 0);
    forall j: nat | Width(v) <= j
      ensures !Bit(v, j)
    {
      HighestBit(v, j);
    }
  }

  lemma {:induction false} WidthBelow(v: nat, n: nat)
    ensures Width(v) <= n <==> v < Pow2(n)
  {
    if n > 0 && v > 0 {
      WidthBelow(v / 2, n - 1);
    }
  }

  lemma {:induction false} PowAdd(a: nat, b: nat)
    ensures Pow2(a + b) == Pow2(a) * Pow2(b)
  {
    if b > 0 {
      PowAdd(a, b - 1);
    }
  }

  lemma SmallPowers()
    ensures Pow2(8) == 0x100 && Pow2(32) == 2 * Pow2(31)
  {
  }

  lemma Powers()
    ensures Pow2(31) == 0x8000_0000 && Pow2(32) == 0x1_0000_0000 && Pow2(64) == 0x1_0000_0000_0000_0000
  {
    SmallPowers();
    hide Pow2;
    PowAdd(8, 8);
    PowAdd(16, 16);
    PowAdd(32, 32);
  }

  /** Widths of machine words. */
  lemma WordWidth(v: nat)
    ensures v < 0x8000_0000 <==> Width(v) <= 31
    ensures v < 0x1_0000_0000 <==> Width(v) <= 32
    ensures v < 0x1_0000_0000_0000_0000 <==> Width(v) <= 64
  {
    hide Pow2, Width;
    Powers();
    WidthBelow(v, 31);
    WidthBelow(v, 32);
    WidthBelow(v, 64);
  }

  /** Clearing the lowest one bit by v & (v - 1). */
  lemma {:induction false} ClearLowest(v: nat)
    requires v > 0
    ensures And(v, v - 1) < v && Ones(And(v, v - 1)) == Ones(v) - 1
  {
    if v % 2 == 1 {
      AndSelf(v / 2);
      assert (v - 1) / 2 == v / 2;
      assert And(v, v - 1) == 2 * (v / 2);
      Doubled(v / 2);
    } else {
      ClearLowest(v / 2);
      assert (v - 1) / 2 == v / 2 - 1;
      Doubled(And(v / 2, v / 2 - 1));
      assert And(v, v - 1) == 2 * And(v / 2, v / 2 - 1);
    }
  }

  lemma AndSelf(v: nat)
    ensures And(v, v) == v
  {
  }

  lemma Doubled(v: nat)
    ensures Ones(2 * v) == Ones(v)
    ensures v > 0 ==> Width(2 * v) == Width(v) + 1
  {
    assert 2 * v / 2 == v;
  }

  /** The bits of a value shifted right by k. */
  function Shifted(v: nat, k: nat): nat {
    if k == 0 then v else Shifted(v, k - 1) / 2
  }

  lemma {:induction false} ShiftedBit(v: nat, k: nat, n: nat)
    ensures Bit(Shifted(v, k), n) <==> Bit(v, k + n)
  {
    if k > 0 {
      ShiftedBit(v, k - 1, n + 1);
    }
  }

  // ----- The loops -----

  /** xUslLowBitSet32 */
  method LowBitSet32(operand: uint32) returns (pos: int)
    ensures operand == 0 ==> pos == -1
    ensures operand != 0 ==> 0 <= pos < 32 && Bit(operand, pos) && forall j :: 0 <= j < pos ==> !Bit(operand, j)
  {
    hide Width;
    if operand == 0 {
      return -1;
    }
    pos := 0;
    var v := operand;
    while v % 2 == 0
      invariant pos >= 0 && v == Shifted(operand, pos) && v > 0
      invariant forall j :: 0 <= j < pos ==> !Bit(operand, j)
      decreases v
    {
      ShiftedBit(operand, pos, 0);
      pos, v := pos + 1, v / 2;
    }
    ShiftedBit(operand, pos, 0);
    WordWidth(operand);
    HighestBit(operand, pos);
  }

  lemma ShiftLeft(v: nat)
    requires 0 < v < 0x8000_0000
    ensures v * 2 % 0x1_0000_0000 == 2 * v && Width(2 * v) == Width(v) + 1
  {
    hide Width;
    Doubled(v);
  }

  /** xUslHighBitSet32: the guard reads the operand as a signed number. */
  method HighBitSet32(operand: uint32) returns (pos: int)
    ensures pos == Width(operand) - 1
    ensures operand != 0 ==> 0 <= pos < 32 && Bit(operand, pos) && forall j: nat :: pos < j ==> !Bit(operand, j)
  {
    if operand == 0 {
      return -1;
    }
    hide Width, Bit;
    pos := 31;
    var v := operand;
    while 0 < v < 0x8000_0000
      invariant 0 < v < 0x1_0000_0000
      invariant Width(v) == Width(operand) + 31 - pos
      decreases 0x1_0000_0000 - v
    {
      ShiftLeft(v);
      pos, v := pos - 1, v * 2 % 0x1_0000_0000;
    }
    WordWidth(v);
    WordWidth(operand);
    NoHigherBit(operand);
  }

  /** xUslBitWidth */
  method BitWidth(number: uint64) returns (width: uint8)
    ensures width == Width(number) <= 64
  {
    width := 0;
    var v: nat := number;
    WordWidth(number);
    while v != 0
      invariant width + Width(v) == Width(number)
      decreases v
    {
      v, width := v / 2, width + 1;
    }
  }

  /** xUslGetSetBitCount */
  method GetSetBitCount(value: uint32) returns (count: uint32)
    ensures count == Ones(value) <= 32
  {
    count := 0;
    var v: nat := value;
    hide Width, And;
    OnesAtMostWidth(value);
    WordWidth(value);
    while v != 0
      invariant count + Ones(v) == Ones(value)
      decreases v
    {
      ClearLowest(v);
      v, count := And(v, v - 1), count + 1;
    }
  }

  lemma OnesAtMostWidth(v: nat)
    ensures Ones(v) <= Width(v)
  {
  }
}
