/**
 * Words as numbers, bit by bit, and the two versions of `__rt_ffs` (rt-thread/src/kservice.c:1890-1976): a byte table
 * and a remainder modulo 37. Both find the least significant one bit, numbered from 1.
 */
module Bits {
  type Word = n: nat | n < 0x1_0000_0000

  // ----- Bits of a number -----

  predicate Bit(v: nat, k: nat) {
    if k == 0 then v % 2 == 1 else Bit(v / 2, k - 1)
  }

  /** v | 1 << k */
  function SetBit(v: nat, k: nat): nat {
    if k == 0 then v / 2 * 2 + 1 else 2 * SetBit(v / 2, k - 1) + v % 2
  }

  /** v & ~(1 << k) */
  function ClearBit(v: nat, k: nat): nat {
    if k == 0 then v / 2 * 2 else 2 * ClearBit(v / 2, k - 1) + v % 2
  }

  function Pow2(k: nat): (r: nat)
    ensures r > 0
  {
    if k == 0 then 1 else 2 * Pow2(k - 1)
  }

  lemma Pow2Byte(k: nat)
    ensures Pow2(k + 8) == 0x100 * Pow2(k)
  {
    assert Pow2(k + 8) == 2 * Pow2(k + 7) == 4 * Pow2(k + 6) == 8 * Pow2(k + 5) == 16 * Pow2(k + 4);
    assert Pow2(k + 4) == 2 * Pow2(k + 3) == 4 * Pow2(k + 2) == 8 * Pow2(k + 1) == 16 * Pow2(k);
  }

  lemma ByteBound()
    ensures Pow2(8) == 0x100
  {
    Pow2Byte(0);
  }

  lemma WordBound()
    ensures Pow2(32) == 0x1_0000_0000
  {
    Pow2Byte(0);
    Pow2Byte(8);
    Pow2Byte(16);
    Pow2Byte(24);
  }

  function And(a: nat, b: nat): nat {
    if a == 0 || b == 0 then 0 else 2 * And(a / 2, b / 2) + (if a % 2 == 1 && b % 2 == 1 then 1 else 0)
  }

  function Xor(a: nat, b: nat): nat
    decreases a + b
  {
    if a == 0 then b else if b == 0 then a else 2 * Xor(a / 2, b / 2) + (if a % 2 != b % 2 then 1 else 0)
  }

  function Or(a: nat, b: nat): nat
    decreases a + b
  {
    if a == 0 then b else if b == 0 then a else 2 * Or(a / 2, b / 2) + (if a % 2 == 1 || b % 2 == 1 then 1 else 0)
  }

  predicate PowerOfTwo(n: nat) {
    n == 1 || (n > 1 && n % 2 == 0 && PowerOfTwo(n / 2))
  }

  /** The test (n | (n - 1)) + 1 == n << 1 of the slab allocator. */
  lemma {:induction false} OrTestsPower(n: nat)
    requires n > 0
    ensures Or(n, n - 1) + 1 == 2 * n <==> PowerOfTwo(n)
  {
    if n > 1 {
      if n % 2 == 1 {
        assert (n - 1) / 2 == n / 2 && (n - 1) % 2 == 0;
        OrSelf(n / 2);
      } else {
        assert (n - 1) / 2 == n / 2 - 1 && (n - 1) % 2 == 1;
        OrTestsPower(n / 2);
      }
    }
  }

  lemma {:induction false} OrSelf(h: nat)
    ensures Or(h, h) == h
  {
    if h > 0 {
      OrSelf(h / 2);
    }
  }

  /** A smaller power of two divides a larger one. */
  lemma {:induction false} PowerDivides(c: nat, n: nat) returns (m: nat)
    requires PowerOfTwo(c) && PowerOfTwo(n) && c <= n
    ensures n == m * c
  {
    if c == 1 {
      m := n;
    } else {
      m := PowerDivides(c / 2, n / 2);
      assert n == 2 * (m * (c / 2)) && c == 2 * (c / 2);
    }
  }

  lemma {:induction false} SetBitIs(v: nat, k: nat, j: nat)
    ensures Bit(SetBit(v, k), j) <==> Bit(v, j) || j == k
  {
    if k > 0 && j > 0 {
      SetBitIs(v / 2, k - 1, j - 1);
    } else if j > 0 {
      assert SetBit(v, k) / 2 == v / 2;
    }
  }

  lemma {:induction false} ClearBitIs(v: nat, k: nat, j: nat)
    ensures Bit(ClearBit(v, k), j) <==> Bit(v, j) && j != k
  {
    if k > 0 && j > 0 {
      ClearBitIs(v / 2, k - 1, j - 1);
    } else if j > 0 {
      assert ClearBit(v, k) / 2 == v / 2;
    }
  }

  /** Zero has no one bit, and every other number has one. */
  lemma {:induction false} NoBit(k: nat)
    ensures !Bit(0, k)
  {
    if k > 0 {
      NoBit(k - 1);
    }
  }

  lemma {:induction false} SomeBit(v: nat, n: nat) returns (k: nat)
    requires 0 < v < Pow2(n)
    ensures k < n && Bit(v, k)
  {
    if v % 2 == 1 {
      k := 0;
    } else {
      k := SomeBit(v / 2, n - 1);
      k := k + 1;
    }
  }

  lemma {:induction false} SetBound(v: nat, n: nat, k: nat)
    requires v < Pow2(n) && k < n
    ensures SetBit(v, k) < Pow2(n)
  {
    var h := Pow2(n - 1);
    assert Pow2(n) == 2 * h && v / 2 < h;
    if k > 0 {
      SetBound(v / 2, n - 1, k - 1);
    }
  }

  lemma {:induction false} ClearBound(v: nat, k: nat)
    ensures ClearBit(v, k) <= v
  {
    if k > 0 {
      ClearBound(v / 2, k - 1);
    }
  }

  // ----- The first one bit -----

  /** The number of trailing zeros: the specification of both versions. */
  function Ctz(v: nat): nat
    requires v > 0
  {
    if v % 2 == 1 then 0 else 1 + Ctz(v / 2)
  }

  lemma {:induction false} CtzIsLeast(v: nat)
    requires v > 0
    ensures Bit(v, Ctz(v)) && forall j: nat :: j < Ctz(v) ==> !Bit(v, j)
  {
    if v % 2 == 0 {
      CtzIsLeast(v / 2);
    }
  }

  lemma {:induction false} CtzBound(v: nat, n: nat)
    requires 0 < v < Pow2(n)
    ensures Ctz(v) < n
  {
    if v % 2 == 0 {
      CtzBound(v / 2, n - 1);
    }
  }

  // ----- The table version -----

  /** The sixteen rows of the 256-entry table differ in their first column only. */
  const COLUMN := [0, 4, 5, 4, 6, 4, 5, 4, 7, 4, 5, 4, 6, 4, 5, 4]
  const ROW := [0, 0, 1, 0, 2, 0, 1, 0, 3, 0, 1, 0, 2, 0, 1, 0]

  function LowestBit(b: nat): int
    requires b < 256
  {
    if b % 16 == 0 then COLUMN[b / 16] else ROW[b % 16]
  }

  /** The bytes of the word, lowest first; each is tested with its mask before it is shifted down. */
  function FfsTable(v: Word): int {
    if v == 0 then 0 else FfsBytes(v % 0x100, v / 0x100 % 0x100, v / 0x1_0000 % 0x100, v / 0x100_0000)
  }

  function FfsBytes(a: nat, b: nat, c: nat, d: nat): int
    requires a < 0x100 && b < 0x100 && c < 0x100 && d < 0x100
  {
    if a != 0 then LowestBit(a) + 1
    else if b != 0 then LowestBit(b) + 9
    else if c != 0 then LowestBit(c) + 17
    else LowestBit(d) + 25
  }

  /** Four zero bits can be skipped at once. */
  lemma CtzNibble(v: nat)
    requires v > 0 && v % 16 == 0
    ensures Ctz(v) == 4 + Ctz(v / 16)
  {
    assert v / 2 % 8 == 0 && v / 2 / 2 % 4 == 0 && v / 2 / 2 / 2 % 2 == 0;
    assert Ctz(v) == 1 + Ctz(v / 2) && Ctz(v / 2) == 1 + Ctz(v / 2 / 2);
    assert Ctz(v / 2 / 2) == 1 + Ctz(v / 2 / 2 / 2) && Ctz(v / 2 / 2 / 2) == 1 + Ctz(v / 2 / 2 / 2 / 2);
    assert v / 2 / 2 / 2 / 2 == v / 16;
  }

  lemma Twice(x: nat)
    requires x > 0
    ensures Ctz(2 * x) == 1 + Ctz(x)
  {}

  lemma Odd(x: nat)
    ensures Ctz(2 * x + 1) == 0
  {}

  lemma TwoOdd(x: nat)
    ensures Ctz(2 * (2 * x + 1)) == 1
  {
    Odd(x);
    Twice(2 * x + 1);
  }

  lemma FourOdd(x: nat)
    ensures Ctz(4 * (2 * x + 1)) == 2
  {
    TwoOdd(x);
    Twice(2 * (2 * x + 1));
  }

  lemma EightOdd(x: nat)
    ensures Ctz(8 * (2 * x + 1)) == 3
  {
    FourOdd(x);
    Twice(4 * (2 * x + 1));
  }

  lemma RowEntries(h: nat)
    ensures h < 8 ==> ROW[2 * h + 1] == 0
    ensures h < 4 ==> ROW[4 * h + 2] == 1
    ensures h < 2 ==> ROW[8 * h + 4] == 2
    ensures ROW[8] == 3
  {
    assert h < 8 ==> h == 0 || h == 1 || h == 2 || h == 3 || h == 4 || h == 5 || h == 6 || h == 7;
  }

  /** The last four bits decide when they are not all zero. */
  lemma CtzRow(r: nat, q: nat)
    requires 0 < r < 16
    ensures Ctz(r + 16 * q) == ROW[r]
  {
    if r % 2 == 1 {
      var h := r / 2;
      RowEntries(h);
      Odd(h + 8 * q);
      assert r == 2 * h + 1 && r + 16 * q == 2 * (h + 8 * q) + 1;
    } else {
      CtzEvenRow(r / 2, q);
    }
  }

  lemma CtzEvenRow(g: nat, q: nat)
    requires 0 < g < 8
    ensures Ctz(2 * g + 16 * q) == ROW[2 * g]
  {
    if g % 2 == 1 {
      var h := g / 2;
      RowEntries(h);
      TwoOdd(h + 4 * q);
      assert g == 2 * h + 1 && 2 * g + 16 * q == 2 * (2 * (h + 4 * q) + 1);
    } else if g == 4 {
      RowEntries(0);
      EightOdd(q);
      assert 2 * g + 16 * q == 8 * (2 * q + 1);
    } else {
      var h := g / 4;
      assert g == 4 * h + 2;
      RowEntries(h);
      FourOdd(h + 2 * q);
      assert 2 * g + 16 * q == 4 * (2 * (h + 2 * q) + 1);
    }
  }

  lemma Nibbles(v: nat)
    ensures v % 256 % 16 == v % 16 && v % 256 / 16 == v / 16 % 16
  {
    var q, b := v / 256, v % 256;
    assert v == 256 * q + b;
    var h, l := b / 16, b % 16;
    assert v == 16 * (16 * q + h) + l;
    DivMod16(16 * q + h, l);
    DivMod16(q, h);
  }

  lemma DivMod16(q: nat, r: nat)
    requires r < 16
    ensures (16 * q + r) / 16 == q && (16 * q + r) % 16 == r
  {}

  lemma CtzByte(v: nat)
    requires v % 256 != 0
    ensures v > 0 && Ctz(v) == LowestBit(v % 256)
  {
    var b := v % 256;
    Nibbles(v);
    if b % 16 != 0 {
      CtzRow(v % 16, v / 16);
    } else {
      CtzHigh(v, b);
    }
  }

  lemma CtzHigh(v: nat, b: nat)
    requires 0 < b < 256 && b % 16 == 0 && v % 16 == 0 && v / 16 % 16 == b / 16
    ensures v > 0 && Ctz(v) == COLUMN[b / 16]
  {
    var h := v / 16;
    assert 0 < b / 16 < 16;
    CtzRow(h % 16, h / 16);
    CtzNibble(v);
    ColumnIsRow(b / 16);
  }

  lemma ColumnIsRow(h: nat)
    requires 0 < h < 16
    ensures COLUMN[h] == ROW[h] + 4
  {
    assert h in {1, 2, 3, 4, 5, 6, 7, 8, 9, 10, 11, 12, 13, 14, 15};
  }

  /** A word is its four bytes. */
  lemma FourBytes(v: Word) returns (a: nat, b: nat, c: nat, d: nat)
    ensures a < 0x100 && b < 0x100 && c < 0x100 && d < 0x100
    ensures v == a + 0x100 * (b + 0x100 * (c + 0x100 * d))
    ensures v % 0x100 == a && v / 0x100 % 0x100 == b && v / 0x1_0000 % 0x100 == c && v / 0x100_0000 == d
  {
    var w, x, y := v / 0x100, v / 0x1_0000, v / 0x100_0000;
    a, b, c, d := v % 0x100, w % 0x100, x % 0x100, y;
    assert v == a + 0x100 * w;
    assert x == w / 0x100;
    assert y == x / 0x100;
    assert w == b + 0x100 * x && x == c + 0x100 * y;
  }

  /** The table version finds the first one bit of every word. */
  lemma FfsTableIsCtz(v: Word)
    ensures FfsTable(v) == if v == 0 then 0 else Ctz(v) + 1
  {
    if v != 0 {
      var a, b, c, d := FourBytes(v);
      FfsBytesIsCtz(a, b, c, d);
    }
  }

  lemma FfsBytesIsCtz(a: nat, b: nat, c: nat, d: nat)
    requires a < 0x100 && b < 0x100 && c < 0x100 && d < 0x100
    requires a + 0x100 * (b + 0x100 * (c + 0x100 * d)) > 0
    ensures FfsBytes(a, b, c, d) == Ctz(a + 0x100 * (b + 0x100 * (c + 0x100 * d))) + 1
  {
    FirstByte(a, b + 0x100 * (c + 0x100 * d));
    FirstByte(b, c + 0x100 * d);
    FirstByte(c, d);
    FirstByte(d, 0);
  }

  lemma FirstByte(b: nat, rest: nat)
    requires b < 0x100
    ensures b != 0 ==> Ctz(b + 0x100 * rest) == LowestBit(b)
    ensures b == 0 && rest > 0 ==> Ctz(b + 0x100 * rest) == 8 + Ctz(rest)
  {
    var v := b + 0x100 * rest;
    assert v % 0x100 == b && v / 0x100 == rest;
    if b != 0 {
      CtzByte(v);
    } else if rest > 0 {
      SkipByte(v);
    }
  }

  lemma SkipByte(v: nat)
    requires v > 0 && v % 256 == 0
    ensures v / 256 > 0 && Ctz(v) == 8 + Ctz(v / 256)
  {
    CtzNibble(v);
    assert v / 16 % 16 == 0 && v / 16 / 16 == v / 256;
    CtzNibble(v / 16);
  }

  // ----- The version modulo 37 -----

  const TINY := [0, 1, 2, 27, 3, 24, 28, 32, 4, 17, 25, 31, 29, 12, 32, 14, 5, 8, 18, 32, 26, 23, 32, 16, 30, 11,
                 13, 7, 32, 22, 15, 10, 6, 21, 9, 20, 19]

  /** value & (value - 1) ^ value, then the remainder: & binds tighter than ^. */
  function FfsTiny(v: Word): int {
    TINY[(if v == 0 then 0 else Xor(And(v, v - 1), v)) % 37]
  }

  lemma {:induction false} LowestBitAlone(v: nat)
    requires v > 0
    ensures Xor(And(v, v - 1), v) == Pow2(Ctz(v))
  {
    if v % 2 == 1 {
      AndEven(v);
      XorNext(v);
    } else {
      var h := v / 2;
      assert (v - 1) / 2 == h - 1 && (v - 1) % 2 == 1;
      LowestBitAlone(h);
      assert And(v, v - 1) == 2 * And(h, h - 1);
      XorDouble(And(h, h - 1), h);
    }
  }

  lemma {:induction false} AndSelf(h: nat)
    ensures And(h, h) == h
  {
    if h > 0 {
      AndSelf(h / 2);
    }
  }

  lemma AndEven(v: nat)
    requires v % 2 == 1
    ensures And(v, v - 1) == v - 1
  {
    if v > 1 {
      assert (v - 1) / 2 == v / 2 && (v - 1) % 2 == 0;
      AndSelf(v / 2);
    }
  }

  lemma {:induction false} XorSelf(h: nat)
    ensures Xor(h, h) == 0
  {
    if h > 0 {
      XorSelf(h / 2);
    }
  }

  lemma XorNext(v: nat)
    requires v % 2 == 1
    ensures Xor(v - 1, v) == 1
  {
    if v > 1 {
      assert (v - 1) / 2 == v / 2;
      XorSelf(v / 2);
    }
  }

  lemma XorDouble(a: nat, b: nat)
    requires b > 0
    ensures Xor(2 * a, 2 * b) == 2 * Xor(a, b)
  {
    if a > 0 {
      assert 2 * a / 2 == a && 2 * b / 2 == b;
    }
  }

  /** The remainder of a power, without the power. */
  function Residue(k: nat): nat {
    if k == 0 then 1 else 2 * Residue(k - 1) % 37
  }

  lemma ModIs(n: nat, q: nat, r: nat)
    requires n == 37 * q + r && r < 37
    ensures n % 37 == r
  {}

  lemma PowStep(p: nat, r: nat)
    requires p % 37 == r
    ensures 2 * p % 37 == 2 * r % 37
  {
    var q := p / 37;
    assert p == 37 * q + r;
    if 2 * r < 37 {
      ModIs(2 * p, 2 * q, 2 * r);
      ModIs(2 * r, 0, 2 * r);
    } else {
      ModIs(2 * p, 2 * q + 1, 2 * r - 37);
      ModIs(2 * r, 1, 2 * r - 37);
    }
  }

  lemma {:induction false} PowMod(k: nat)
    ensures Pow2(k) % 37 == Residue(k)
  {
    if k > 0 {
      PowMod(k - 1);
      PowStep(Pow2(k - 1), Residue(k - 1));
    }
  }

  const POWERS := [1, 2, 4, 8, 16, 32, 27, 17, 34, 31, 25, 13, 26, 15, 30, 23, 9, 18, 36, 35, 33, 29, 21, 5, 10, 20,
                   3, 6, 12, 24, 11, 22]

  lemma LowPowers(k: nat)
    requires k < 16
    ensures POWERS[k] < 37 && TINY[POWERS[k]] == k + 1
    ensures k == 0 ==> POWERS[k] == 1
    ensures k > 0 ==> POWERS[k] == 2 * POWERS[k - 1] % 37
  {
    assert k in {0, 1, 2, 3, 4, 5, 6, 7, 8, 9, 10, 11, 12, 13, 14, 15};
  }

  lemma HighPowers(k: nat)
    requires 16 <= k < 32
    ensures POWERS[k] < 37 && TINY[POWERS[k]] == k + 1
    ensures POWERS[k] == 2 * POWERS[k - 1] % 37
  {
    assert k in {16, 17, 18, 19, 20, 21, 22, 23, 24, 25, 26, 27, 28, 29, 30, 31};
  }

  lemma {:induction false} Powers(k: nat)
    requires k < 32
    ensures POWERS[k] == Residue(k)
  {
    if k == 0 {
      LowPowers(k);
    } else {
      Powers(k - 1);
      if k < 16 {
        LowPowers(k);
      } else {
        HighPowers(k);
      }
    }
  }

  /** 2 generates the residues modulo 37: the 32 powers fall on different entries of the table. */
  lemma TinyTable(k: nat)
    requires k < 32
    ensures TINY[Pow2(k) % 37] == k + 1
  {
    PowMod(k);
    Powers(k);
    if k < 16 {
      LowPowers(k);
    } else {
      HighPowers(k);
    }
  }

  /** The two versions agree on every word. */
  lemma FfsVersionsAgree(v: Word)
    ensures FfsTiny(v) == FfsTable(v)
  {
    FfsTableIsCtz(v);
    if v > 0 {
      LowestBitAlone(v);
      WordBound();
      CtzBound(v, 32);
      TinyTable(Ctz(v));
    }
  }
}
