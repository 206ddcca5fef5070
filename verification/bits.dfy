/** Bits of numbers, and rotations of 32-bit words. */
module Bits {
  /** b & (1 << i) */
  predicate BitOf(b: nat, i: nat) {
    if i == 0 then b % 2 == 1 else BitOf(b / 2, i - 1)
  }

  /** x >> k */
  ghost function Shr(x: nat, k: nat): nat { if k == 0 then x else Shr(x / 2, k - 1) }

  /** x << k */
  ghost function Shl(x: nat, k: nat): nat { if k == 0 then x else 2 * Shl(x, k - 1) }

  /** x & ((1 << k) - 1) */
  ghost function Low(x: nat, k: nat): nat { if k == 0 then 0 else 2 * Low(x / 2, k - 1) + x % 2 }

  lemma {:induction false} HighAndLow(x: nat, k: nat)
    ensures x == Shl(Shr(x, k), k) + Low(x, k)
  {
    if k > 0 { HighAndLow(x / 2, k - 1); }
  }

  lemma {:induction false} ShrMore(x: nat, j: nat, k: nat)
    ensures Shr(x, j + k) == Shr(Shr(x, j), k)
  {
    if j > 0 { ShrMore(x / 2, j - 1, k); }
  }

  lemma {:induction false} ShlMore(x: nat, j: nat, k: nat)
    ensures Shl(x, j + k) == Shl(Shl(x, j), k)
  {
    if k > 0 { ShlMore(x, j, k - 1); }
  }

  lemma ByFour(x: nat)
    ensures Shr(x, 1) == x / 2 && Shl(x, 1) == 2 * x
    ensures Shr(x, 4) == x / 16 && Shl(x, 4) == 16 * x
  {
    assert Shr(x, 4) == Shr(x / 2, 3) == Shr(x / 2 / 2, 2) == Shr(x / 2 / 2 / 2, 1);
    assert Shl(x, 1) == 2 * x;
    assert Shl(x, 2) == 2 * Shl(x, 1);
    assert Shl(x, 3) == 2 * Shl(x, 2);
  }

  lemma BySixteen(x: nat)
    ensures Shr(x, 16) == x / 0x1_0000 && Shl(x, 16) == 0x1_0000 * x
  {
    hide Shr;
    hide Shl;
    ShrMore(x, 4, 12);
    ByFour(x);
    ShrMore(x / 16, 4, 8);
    ByFour(x / 16);
    ShrMore(x / 256, 4, 4);
    ByFour(x / 256);
    ByFour(x / 4096);
    ShlMore(x, 12, 4);
    ShlMore(x, 8, 4);
    ShlMore(x, 4, 4);
    ByFour(16 * x);
    ByFour(256 * x);
    ByFour(4096 * x);
  }

  lemma BySeventeen(x: nat)
    ensures Shr(x, 17) == x / 0x2_0000 && Low(x, 17) == x % 0x2_0000 && Shl(x, 17) == 0x2_0000 * x
  {
    hide Shr;
    hide Shl;
    hide Low;
    ShrMore(x, 16, 1);
    BySixteen(x);
    ByFour(x / 0x1_0000);
    HighAndLow(x, 17);
    ShlMore(x / 0x2_0000, 16, 1);
    BySixteen(x / 0x2_0000);
    ByFour(0x1_0000 * (x / 0x2_0000));
    ShlMore(x, 16, 1);
    ByFour(0x1_0000 * x);
  }

  lemma ByFifteen(x: nat)
    ensures Shl(x, 15) == 0x8000 * x && Shr(x, 15) == x / 0x8000 && Low(x, 15) == x % 0x8000
  {
    hide Shr;
    hide Shl;
    hide Low;
    ShlMore(x, 15, 1);
    BySixteen(x);
    ByFour(Shl(x, 15));
    ShrMore(2 * x, 1, 15);
    BySixteen(2 * x);
    ByFour(2 * x);
    HighAndLow(x, 15);
    ShlMore(x / 0x8000, 15, 1);
    BySixteen(x / 0x8000);
    ByFour(Shl(x / 0x8000, 15));
  }

  lemma {:induction false} BitsApart(x: nat, k: nat, i: nat)
    ensures BitOf(Shr(x, k), i) <==> BitOf(x, k + i)
    ensures i < k ==> (BitOf(Low(x, k), i) <==> BitOf(x, i))
  {
    if k > 0 {
      BitsApart(x / 2, k - 1, i);
      if i > 0 { BitsApart(x / 2, k - 1, i - 1); }
    }
  }

  /** a | (b << k) */
  lemma {:induction false} BitsTogether(a: nat, b: nat, k: nat, i: nat)
    requires Shr(a, k) == 0
    ensures BitOf(a + Shl(b, k), i) <==> if i < k then BitOf(a, i) else BitOf(b, i - k)
  {
    if k > 0 {
      assert (a + Shl(b, k)) / 2 == a / 2 + Shl(b, k - 1) && (a + Shl(b, k)) % 2 == a % 2;
      if i > 0 { BitsTogether(a / 2, b, k - 1, i - 1); }
    }
  }

  lemma {:induction false} SameBits(a: nat, b: nat, k: nat)
    requires Shr(a, k) == 0 && Shr(b, k) == 0 && forall i: nat :: i < k ==> (BitOf(a, i) <==> BitOf(b, i))
    ensures a == b
  {
    if k > 0 {
      assert BitOf(a, 0) <==> BitOf(b, 0);
      forall i: nat | i < k - 1 ensures BitOf(a / 2, i) <==> BitOf(b / 2, i) {
        assert BitOf(a, i + 1) <==> BitOf(b, i + 1);
      }
      SameBits(a / 2, b / 2, k - 1);
    }
  }

  lemma FitsIn32(x: nat)
    requires x < 0x1_0000_0000
    ensures Shr(x, 32) == 0
  {
    hide Shr;
    hide Shl;
    hide Low;
    ShrMore(x, 16, 16);
    BySixteen(x);
    BySixteen(x / 0x1_0000);
  }

  lemma RotatedBy17(h: nat, i: nat)
    requires i < 32 && h < 0x1_0000_0000
    ensures BitOf(h / 0x2_0000 + h % 0x2_0000 * 0x8000, i) <==> BitOf(h, (i + 17) % 32)
  {
    hide Shr;
    hide Shl;
    hide Low;
    hide BitOf;
    BySeventeen(h);
    ByFifteen(h % 0x2_0000);
    ByFifteen(h / 0x2_0000);
    BitsTogether(h / 0x2_0000, h % 0x2_0000, 15, i);
    if i < 15 { BitsApart(h, 17, i); } else { BitsApart(h, 17, i - 15); }
  }

  lemma RotatedBy15(h: nat, i: nat)
    requires i < 32 && h < 0x1_0000_0000
    ensures BitOf(h / 0x8000 + h % 0x8000 * 0x2_0000, i) <==> BitOf(h, (i + 15) % 32)
  {
    hide Shr;
    hide Shl;
    hide Low;
    hide BitOf;
    ByFifteen(h);
    BySeventeen(h % 0x8000);
    BySeventeen(h / 0x8000);
    BitsTogether(h / 0x8000, h % 0x8000, 17, i);
    if i < 17 { BitsApart(h, 15, i); } else { BitsApart(h, 15, i - 17); }
  }

  lemma SameWord(a: nat, b: nat)
    requires a < 0x1_0000_0000 && b < 0x1_0000_0000
    requires forall i: nat :: i < 32 ==> (BitOf(a, i) <==> BitOf(b, i))
    ensures a == b
  {
    FitsIn32(a);
    FitsIn32(b);
    SameBits(a, b, 32);
  }
}
