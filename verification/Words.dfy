// 64-bit words and their bits.
module Words {
  import opened Bytes

  // Bit i of w, least significant first.
  predicate Bit(w: nat, i: nat) { if i == 0 then w % 2 == 1 else Bit(w / 2, i - 1) }

  // w >> n
  function Shr(w: nat, n: nat): nat { if n == 0 then w else Shr(w / 2, n - 1) }

  // w << n: the top bits fall out.
  function Shl(w: nat, n: nat): nat
    decreases n
  {
    if n == 0 then w else Shl((2 * w) % U64, n - 1)
  }

  // x | y
  function Or(x: nat, y: nat): nat {
    if x == 0 && y == 0 then 0
    else 2 * Or(x / 2, y / 2) + (if x % 2 == 1 || y % 2 == 1 then 1 else 0)
  }

  lemma {:induction false} BitZero(i: nat)
    ensures !Bit(0, i)
  {
    if i > 0 { BitZero(i - 1); }
  }

  lemma {:induction false} BitShr(w: nat, n: nat, i: nat)
    ensures Bit(Shr(w, n), i) == Bit(w, i + n)
    decreases n
  {
    if n > 0 { BitShr(w / 2, n - 1, i); }
  }

  lemma Halve(m: nat, b: nat)
    requires b < 2
    ensures (2 * m + b) / 2 == m && (2 * m + b) % 2 == b
  {}

  lemma {:induction false} BitOr(x: nat, y: nat, i: nat)
    ensures Bit(Or(x, y), i) == (Bit(x, i) || Bit(y, i))
    decreases i
  {
    if x == 0 && y == 0 {
      BitZero(i);
    } else {
      Halve(Or(x / 2, y / 2), if x % 2 == 1 || y % 2 == 1 then 1 else 0);
      if i > 0 { BitOr(x / 2, y / 2, i - 1); }
    }
  }

  function Pow2(n: nat): (p: nat)
    ensures p >= 1
  {
    if n == 0 then 1 else 2 * Pow2(n - 1)
  }

  // Subtracting 2^n leaves the bits below n alone.
  lemma {:induction false} BitBelow(w: nat, n: nat, i: nat)
    requires i < n && Pow2(n) <= w
    ensures Bit(w - Pow2(n), i) == Bit(w, i)
    decreases n
  {
    assert (w - Pow2(n)) / 2 == w / 2 - Pow2(n - 1);
    if i > 0 { BitBelow(w / 2, n - 1, i - 1); }
  }

  lemma WordIsPow2()
    ensures Pow2(64) == U64
  {
    assert Pow2(8) == 0x100;
    assert Pow2(16) == 0x1_0000;
    assert Pow2(24) == 0x100_0000;
    assert Pow2(32) == 0x1_0000_0000;
    assert Pow2(40) == 0x100_0000_0000;
    assert Pow2(48) == 0x1_0000_0000_0000;
    assert Pow2(56) == 0x100_0000_0000_0000;
  }

  lemma BitTwice(w: nat, i: nat)
    ensures Bit(2 * w, i) == (i > 0 && Bit(w, i - 1))
  {
    Halve(w, 0);
  }

  // Doubling a word either fits, or drops 2^64.
  lemma DoubleWord(w: nat)
    requires w < U64
    ensures (2 * w) % U64 == if 2 * w < U64 then 2 * w else 2 * w - Pow2(64)
  {
    WordIsPow2();
  }

  lemma DroppedBit(w: nat, i: nat)
    requires w >= U64 && i < 64
    ensures w >= Pow2(64) && Bit(w - Pow2(64), i) == Bit(w, i)
  {
    WordIsPow2();
    BitBelow(w, 64, i);
  }

  lemma BitDouble(w: nat, i: nat)
    requires w < U64 && i < 64
    ensures Bit((2 * w) % U64, i) == (i > 0 && Bit(w, i - 1))
  {
    DoubleWord(w);
    BitTwice(w, i);
    if 2 * w >= U64 { DroppedBit(2 * w, i); }
  }

  lemma {:induction false} BitShl(w: nat, n: nat, i: nat)
    requires w < U64 && i < 64
    ensures Bit(Shl(w, n), i) == (i >= n && Bit(w, i - n))
    decreases n
  {
    if n > 0 {
      BitShl((2 * w) % U64, n - 1, i);
      if i >= n - 1 { BitDouble(w, i - (n - 1)); }
    }
  }

  lemma {:induction false} BitOne(i: nat)
    ensures Bit(1, i) == (i == 0)
  {
    if i > 0 { BitZero(i - 1); }
  }

  lemma {:induction false} OrBound(x: nat, y: nat, n: nat)
    requires x < Pow2(n) && y < Pow2(n)
    ensures Or(x, y) < Pow2(n)
    decreases n
  {
    if n > 0 && !(x == 0 && y == 0) { OrBound(x / 2, y / 2, n - 1); }
  }

  lemma {:induction false} ShrBound(w: nat, n: nat)
    ensures Shr(w, n) <= w
    decreases n
  {
    if n > 0 { ShrBound(w / 2, n - 1); }
  }

  lemma {:induction false} ShlBound(w: nat, n: nat)
    requires w < U64
    ensures Shl(w, n) < U64
    decreases n
  {
    if n > 0 { ShlBound((2 * w) % U64, n - 1); }
  }
}
