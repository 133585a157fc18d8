module GaloisField {
  import opened Options
  import opened Bytes
  import opened Fields

  // Multiplication by x modulo x^8 + x^4 + x^3 + x^2 + 1: shift, and subtract
  // the low byte of the polynomial when the top bit falls out.
  function Xtime(x: bv8): bv8 { (x << 1) ^ (0x1d & (0 - (x >> 7))) }

  // Multiplication by x^n.
  function Iter(n: nat, x: bv8): bv8 { if n == 0 then x else Xtime(Iter(n - 1, x)) }

  function Pow(n: nat): bv8 { Iter(n, 1) }

  // Addition of polynomials over GF(2).
  function Plus(a: bv8, b: bv8): bv8 { a ^ b }

  lemma XtimePlus(a: bv8, b: bv8)
    ensures Xtime(Plus(a, b)) == Plus(Xtime(a), Xtime(b))
  {}

  lemma XtimeInjective(a: bv8, b: bv8)
    requires Xtime(a) == Xtime(b)
    ensures a == b
  {}

  lemma {:induction false} IterPlus(n: nat, a: bv8, b: bv8)
    ensures Iter(n, Plus(a, b)) == Plus(Iter(n, a), Iter(n, b))
  {
    hide Xtime, Plus;
    if n > 0 {
      IterPlus(n - 1, a, b);
      XtimePlus(Iter(n - 1, a), Iter(n - 1, b));
    }
  }

  lemma {:induction false} IterZero(n: nat)
    ensures Iter(n, 0) == 0
  {
    if n > 0 { IterZero(n - 1); }
  }

  lemma {:induction false} IterCompose(m: nat, n: nat, x: bv8)
    ensures Iter(m + n, x) == Iter(m, Iter(n, x))
  {
    if m > 0 { IterCompose(m - 1, n, x); }
  }

  lemma {:induction false} IterInjective(n: nat, a: bv8, b: bv8)
    requires Iter(n, a) == Iter(n, b)
    ensures a == b
  {
    if n > 0 { XtimeInjective(Iter(n - 1, a), Iter(n - 1, b)); IterInjective(n - 1, a, b); }
  }

  function Xtime4(v: bv8): bv8 { Xtime(Xtime(Xtime(Xtime(v)))) }

  predicate AvoidsOne(v: bv8) {
    Xtime(v) != 1 && Xtime(Xtime(v)) != 1 && Xtime(Xtime(Xtime(v))) != 1 && Xtime4(v) != 1
  }

  predicate NoReturn(n: nat) { forall d {:trigger Pow(d)} | 1 <= d <= n :: Pow(d) != 1 }

  lemma Four(n: nat, v: bv8)
    requires Pow(n) == v && NoReturn(n) && AvoidsOne(v)
    ensures Pow(n + 4) == Xtime4(v) && NoReturn(n + 4)
  {
    assert Pow(n + 1) == Xtime(v);
    assert Pow(n + 2) == Xtime(Xtime(v));
    assert Pow(n + 3) == Xtime(Xtime(Xtime(v)));
    assert Pow(n + 4) == Xtime4(v);
  }

  function Xtime16(v: bv8): bv8 { Xtime4(Xtime4(Xtime4(Xtime4(v)))) }

  predicate AvoidsOne16(v: bv8) {
    AvoidsOne(v) && AvoidsOne(Xtime4(v)) && AvoidsOne(Xtime4(Xtime4(v))) && AvoidsOne(Xtime4(Xtime4(Xtime4(v))))
  }

  lemma Sixteen(n: nat, v: bv8, w: bv8)
    requires Pow(n) == v && NoReturn(n) && AvoidsOne16(v) && Xtime16(v) == w
    ensures Pow(n + 16) == w && NoReturn(n + 16)
  {
    Four(n, v);
    Four(n + 4, Xtime4(v));
    Four(n + 8, Xtime4(Xtime4(v)));
    Four(n + 12, Xtime4(Xtime4(Xtime4(v))));
  }

  lemma WalkTo32()
    ensures Pow(32) == 0x9d && NoReturn(32)
  {
    Sixteen(0, 0x01, 0x4c);
    Sixteen(16, 0x4c, 0x9d);
  }

  lemma WalkTo64()
    ensures Pow(64) == 0x5f && NoReturn(64)
  {
    WalkTo32();
    Sixteen(32, 0x9d, 0x46);
    Sixteen(48, 0x46, 0x5f);
  }

  lemma WalkTo96()
    ensures Pow(96) == 0xd9 && NoReturn(96)
  {
    WalkTo64();
    Sixteen(64, 0x5f, 0xfd);
    Sixteen(80, 0xfd, 0xd9);
  }

  lemma WalkTo128()
    ensures Pow(128) == 0x85 && NoReturn(128)
  {
    WalkTo96();
    Sixteen(96, 0xd9, 0x81);
    Sixteen(112, 0x81, 0x85);
  }

  lemma WalkTo160()
    ensures Pow(160) == 0xe6 && NoReturn(160)
  {
    WalkTo128();
    Sixteen(128, 0x85, 0xa8);
    Sixteen(144, 0xa8, 0xe6);
  }

  lemma WalkTo192()
    ensures Pow(192) == 0x82 && NoReturn(192)
  {
    WalkTo160();
    Sixteen(160, 0xe6, 0xe3);
    Sixteen(176, 0xe3, 0x82);
  }

  lemma WalkTo224()
    ensures Pow(224) == 0x12 && NoReturn(224)
  {
    WalkTo192();
    Sixteen(192, 0x82, 0x51);
    Sixteen(208, 0x51, 0x12);
  }

  lemma OrderIs255()
    ensures Pow(255) == 1 && NoReturn(254)
  {
    WalkTo224();
    Sixteen(224, 0x12, 0x2c);
    Four(240, 0x2c);
    Four(244, 0xfa);
    Four(248, 0x1b);
    assert Pow(253) == 0x47;
    assert Pow(254) == 0x8e;
  }

  lemma PowNonZero(n: nat)
    ensures Pow(n) != 0
  {
    IterZero(n);
    if Pow(n) == 0 { IterInjective(n, 1, 0); }
  }

  lemma PowDistinct(i: nat, j: nat)
    requires i < j < 255
    ensures Pow(i) != Pow(j)
  {
    OrderIs255();
    IterCompose(i, j - i, 1);
    if Pow(i) == Pow(j) { IterInjective(i, 1, Pow(j - i)); }
  }

  lemma PowIndexDistinct(i: nat, j: nat)
    requires i < j < 255
    ensures Pow(i) as int != Pow(j) as int
  {
    PowDistinct(i, j);
    NatOfByte(Pow(i));
    NatOfByte(Pow(j));
  }

  ghost function PowersBelow(n: nat): set<int> { set i | 0 <= i < n :: Pow(i) as int }

  ghost function NonZeroUpTo(n: nat): (s: set<int>)
    ensures forall x :: x in s <==> 1 <= x <= n
    ensures |s| == n
  {
    if n == 0 then {} else NonZeroUpTo(n - 1) + {n}
  }

  lemma {:induction false} PowersBelowSize(n: nat)
    requires n <= 255
    ensures |PowersBelow(n)| == n
  {
    hide Pow;
    if n > 0 {
      PowersBelowSize(n - 1);
      assert PowersBelow(n) == PowersBelow(n - 1) + {Pow(n - 1) as int};
      forall i | 0 <= i < n - 1 ensures Pow(i) as int != Pow(n - 1) as int { PowIndexDistinct(i, n - 1); }
    }
  }

  lemma SubsetSize(s: set<int>, t: set<int>)
    requires s <= t
    ensures |s| <= |t|
  {
    assert t == s + (t - s);
  }

  lemma PowersAvoid(a: bv8)
    requires a as int !in PowersBelow(255)
    ensures PowersBelow(255) <= NonZeroUpTo(255) - {a as int}
  {
    forall x | x in PowersBelow(255) ensures x in NonZeroUpTo(255) {
      var i: nat :| i < 255 && x == Pow(i) as int;
      PowNonZero(i);
      NatOfByte(Pow(i));
    }
  }

  // Every non-zero byte is a power of x: the 255 powers are distinct and non-zero.
  lemma LogExists(a: bv8)
    requires a != 0
    ensures exists i: nat :: i < 255 && Pow(i) == a
  {
    NatOfByte(a);
    PowersBelowSize(255);
    if a as int !in PowersBelow(255) {
      PowersAvoid(a);
      SubsetSize(PowersBelow(255), NonZeroUpTo(255) - {a as int});
    }
    var i: nat :| i < 255 && a as int == Pow(i) as int;
    NatOfByte(Pow(i));
  }

  // The discrete logarithm to base x.
  ghost function Log(a: bv8): (i: nat)
    requires a != 0
    ensures i < 255 && Pow(i) == a
  {
    LogExists(a);
    var i: nat :| i < 255 && Pow(i) == a;
    i
  }

  lemma LogUnique(a: bv8, i: nat)
    requires a != 0 && i < 255 && Pow(i) == a
    ensures Log(a) == i
  {
    if Log(a) < i { PowDistinct(Log(a), i); }
    if i < Log(a) { PowDistinct(i, Log(a)); }
  }

  lemma IterPeriod(x: bv8)
    ensures Iter(255, x) == x
  {
    if x == 0 {
      IterZero(255);
    } else {
      OrderIs255();
      IterCompose(255, Log(x), 1);
      IterCompose(Log(x), 255, 1);
    }
  }

  lemma PowPeriod(n: nat)
    ensures Pow(n + 255) == Pow(n)
  {
    OrderIs255();
    IterCompose(n, 255, 1);
  }

  // Field multiplication, by adding logarithms.
  ghost function Mul(a: bv8, b: bv8): bv8 {
    if a == 0 || b == 0 then 0 else Pow(Log(a) + Log(b))
  }

  // Multiplying by a is applying Xtime log(a) times: a linear map.
  lemma MulIsIter(a: bv8, b: bv8)
    requires a != 0
    ensures Mul(a, b) == Iter(Log(a), b)
  {
    if b == 0 { IterZero(Log(a)); } else { IterCompose(Log(a), Log(b), 1); }
  }

  lemma MulComm(a: bv8, b: bv8)
    ensures Mul(a, b) == Mul(b, a)
  {}

  lemma MulOne(a: bv8)
    ensures Mul(1, a) == a && Mul(a, 1) == a
  {
    LogUnique(1, 0);
  }

  // The logarithm of a product, modulo the order of x.
  lemma IterLogOfPow(n: nat, x: bv8)
    requires n < 510
    ensures Pow(n) != 0 && Iter(Log(Pow(n)), x) == Iter(n, x)
  {
    PowNonZero(n);
    if n < 255 {
      LogUnique(Pow(n), n);
    } else {
      PowPeriod(n - 255);
      LogUnique(Pow(n), n - 255);
      IterCompose(n - 255, 255, x);
      IterPeriod(x);
    }
  }

  lemma MulAssoc(a: bv8, b: bv8, c: bv8)
    ensures Mul(a, Mul(b, c)) == Mul(Mul(a, b), c)
  {
    if a != 0 && b != 0 {
      MulIsIter(a, Mul(b, c));
      MulIsIter(b, c);
      IterCompose(Log(a), Log(b), c);
      IterLogOfPow(Log(a) + Log(b), c);
      MulIsIter(Mul(a, b), c);
    }
  }

  lemma MulPlus(a: bv8, b: bv8, c: bv8)
    ensures Mul(a, Plus(b, c)) == Plus(Mul(a, b), Mul(a, c))
  {
    if a == 0 { NothingTimes(b, c); } else { IterTimes(a, b, c); }
  }

  lemma NothingTimes(b: bv8, c: bv8)
    ensures Mul(0, Plus(b, c)) == Plus(Mul(0, b), Mul(0, c))
  {}

  lemma IterTimes(a: bv8, b: bv8, c: bv8)
    requires a != 0
    ensures Mul(a, Plus(b, c)) == Plus(Mul(a, b), Mul(a, c))
  {
    hide Mul, Iter, Plus;
    MulIsIter(a, Plus(b, c));
    MulIsIter(a, b);
    MulIsIter(a, c);
    IterPlus(Log(a), b, c);
  }

  ghost function Inverse(a: bv8): (r: bv8)
    requires a != 0
    ensures r != 0 && Mul(a, r) == 1 && Mul(r, a) == 1
  {
    PowNonZero(255 - Log(a));
    IterCompose(Log(a), 255 - Log(a), 1);
    OrderIs255();
    MulIsIter(a, Pow(255 - Log(a)));
    Pow(255 - Log(a))
  }

  // Multiplying by x is Xtime.
  lemma MulByX(b: bv8)
    ensures Mul(2, b) == Xtime(b)
  {
    assert Pow(1) == 2;
    LogUnique(2, 1);
    MulIsIter(2, b);
    assert Iter(1, b) == Xtime(b);
  }

  // The bit of a that stands for x^i.
  function Bit(a: bv8, i: nat): bv8 { a & Pow(i) }

  // The share of that bit in the product: b shifted by i and reduced, or nothing.
  function Share(a: bv8, b: bv8, i: nat): bv8 { if Bit(a, i) == 0 then 0 else Iter(i, b) }

  // The polynomial product, the schoolbook way, over the lowest n bits of a.
  function Schoolbook(a: bv8, b: bv8, n: nat): bv8 {
    if n == 0 then 0 else Plus(Schoolbook(a, b, n - 1), Share(a, b, n - 1))
  }

  // The lowest n bits.
  function Low(a: bv8, n: nat): bv8 { if n == 0 then 0 else Plus(Low(a, n - 1), Bit(a, n - 1)) }

  lemma Bits()
    ensures Pow(0) == 1 && Pow(1) == 2 && Pow(2) == 4 && Pow(3) == 8
    ensures Pow(4) == 16 && Pow(5) == 32 && Pow(6) == 64 && Pow(7) == 128
  {}

  lemma OneBit(a: bv8, i: nat)
    requires i < 8
    ensures Bit(a, i) == 0 || Bit(a, i) == Pow(i)
  {
    Bits();
    hide Pow;
  }

  lemma LowStep(a: bv8, n: nat)
    ensures Low(a, n + 1) == Plus(Low(a, n), Bit(a, n))
  {}

  lemma LowHalf(a: bv8)
    ensures Low(a, 4) == a & 15
  {
    Bits();
    hide Pow, Low;
    NoBits(a, 0);
    LowStep(a, 0);
    LowStep(a, 1);
    LowStep(a, 2);
    LowStep(a, 3);
  }

  lemma NoBits(a: bv8, b: bv8)
    ensures Low(a, 0) == 0 && Schoolbook(a, b, 0) == 0
  {}

  lemma AllBits(a: bv8)
    ensures Low(a, 8) == a
  {
    LowHalf(a);
    Bits();
    hide Pow, Low;
    LowStep(a, 4);
    LowStep(a, 5);
    LowStep(a, 6);
    LowStep(a, 7);
  }

  lemma MulPow(i: nat, b: bv8)
    requires i < 255
    ensures Mul(b, Pow(i)) == Iter(i, b)
  {
    PowNonZero(i);
    LogUnique(Pow(i), i);
    MulIsIter(Pow(i), b);
    MulComm(b, Pow(i));
  }

  lemma MulZero(b: bv8)
    ensures Mul(b, 0) == 0
  {}

  lemma BitTimes(a: bv8, b: bv8, i: nat)
    requires i < 8
    ensures Mul(b, Bit(a, i)) == Share(a, b, i)
  {
    hide Mul, Bit, Iter, Pow;
    OneBit(a, i);
    MulPow(i, b);
    MulZero(b);
  }

  lemma {:induction false} LowTimes(a: bv8, b: bv8, n: nat)
    requires n <= 8
    ensures Mul(b, Low(a, n)) == Schoolbook(a, b, n)
  {
    hide Mul, Low, Share, Bit, Plus;
    if n == 0 {
      NoBits(a, b);
      MulZero(b);
    } else {
      LowTimes(a, b, n - 1);
      LowStep(a, n - 1);
      MulPlus(b, Low(a, n - 1), Bit(a, n - 1));
      BitTimes(a, b, n - 1);
    }
  }

  // The product by logarithms is the product of polynomials modulo x^8 + x^4 + x^3 + x^2 + 1.
  lemma MulIsPolynomial(a: bv8, b: bv8)
    ensures Mul(a, b) == Schoolbook(a, b, 8)
  {
    hide Mul, Low, Schoolbook;
    AllBits(a);
    LowTimes(a, b, 8);
    MulComm(a, b);
  }

  // GF(2^8) as a field of characteristic two.
  ghost function GF(): Field<bv8> {
    Field(0, 1, (a: bv8, b: bv8) => Plus(a, b), (a: bv8, b: bv8) => Mul(a, b),
          (a: bv8) => if a == 0 then 0 else Inverse(a))
  }

  lemma PlusLaws(a: bv8, b: bv8, c: bv8)
    ensures Plus(a, b) == Plus(b, a) && Plus(Plus(a, b), c) == Plus(a, Plus(b, c)) && Plus(a, 0) == a && Plus(a, a) == 0
  {}

  lemma AddLaws(a: bv8, b: bv8, c: bv8)
    ensures GF().AddCommutes(a, b) && GF().AddAssociates(a, b, c) && GF().AddNeutral(a)
  {
    PlusLaws(a, b, c);
  }

  lemma MulLaws(a: bv8, b: bv8, c: bv8)
    ensures GF().MulCommutes(a, b) && GF().MulAssociates(a, b, c) && GF().MulNeutral(a)
  {
    MulComm(a, b);
    MulAssoc(a, b, c);
    MulOne(a);
  }

  lemma DistributiveLaw(a: bv8, b: bv8, c: bv8)
    ensures GF().Distributes(a, b, c)
  {
    hide Mul, Plus;
    MulPlus(a, b, c);
  }

  lemma FieldLaws()
    ensures GF().Laws()
  {
    forall a, b ensures GF().AddCommutes(a, b) { AddLaws(a, b, 0); }
    forall a, b, c ensures GF().AddAssociates(a, b, c) { AddLaws(a, b, c); }
    forall a ensures GF().AddNeutral(a) { AddLaws(a, 0, 0); }
    forall a, b ensures GF().MulCommutes(a, b) { MulLaws(a, b, 0); }
    forall a, b, c ensures GF().MulAssociates(a, b, c) { MulLaws(a, b, c); }
    forall a ensures GF().MulNeutral(a) { MulLaws(a, 0, 0); }
    forall a, b, c ensures GF().Distributes(a, b, c) { DistributiveLaw(a, b, c); }
  }

  // The EXP and LOG tables.
  datatype Tables = Tables(exp: seq<bv8>, log: seq<nat>)
  {
    ghost predicate Correct() {
      && |exp| == 512 && |log| == 256
      && (forall i | 0 <= i < 511 :: exp[i] == Pow(i))
      && (forall a: bv8 | a != 0 :: log[a as int] == Log(a))
    }

    function LogOf(a: bv8): (i: nat)
      requires Correct() && a != 0
      ensures i == Log(a)
    {
      assert log[a as int] == Log(a);
      log[a as int]
    }

    function Multiply(a: bv8, b: bv8): (r: bv8)
      requires Correct()
      ensures r == Mul(a, b)
    {
      if a == 0 || b == 0 then 0 else exp[LogOf(a) + LogOf(b)]
    }

    function Divide(a: bv8, b: bv8): (r: bv8)
      requires Correct() && b != 0
      ensures Mul(r, b) == a
    {
      DivideLaw(a, b);
      if a == 0 then 0 else exp[LogOf(a) + 255 - LogOf(b)]
    }

    function Invert(a: bv8): (r: Option<bv8>)
      requires Correct()
      ensures r == if a == 0 then None else Some(Inverse(a))
    {
      if a == 0 then None else Some(exp[255 - LogOf(a)])
    }
  }

  lemma DivideLaw(a: bv8, b: bv8)
    requires b != 0
    ensures Mul(0, b) == 0
    ensures a != 0 ==> Mul(Pow(Log(a) + 255 - Log(b)), b) == a
  {
    if a != 0 {
      var n := Log(a) + 255 - Log(b);
      IterLogOfPow(n, b);
      MulIsIter(Pow(n), b);
      IterCompose(n, Log(b), 1);
      PowPeriod(Log(a));
    }
  }

  ghost predicate ExpFilled(exp: seq<bv8>, n: nat) {
    |exp| == 512 && n <= 255 && forall j | 0 <= j < n :: exp[j] == Pow(j) && exp[j + 255] == Pow(j)
  }

  ghost predicate PowIndices(idx: seq<nat>) {
    && |idx| == 255
    && (forall j {:trigger Pow(j)} | 0 <= j < 255 :: idx[j] == Pow(j) as int)
    && (forall j | 0 <= j < 255 :: idx[j] < 256)
    && (forall i, j | 0 <= i < j < 255 :: idx[i] != idx[j])
  }

  ghost predicate LogFilled(log: seq<nat>, idx: seq<nat>, n: nat) {
    |log| == 256 && n <= |idx| && forall j | 0 <= j < n :: idx[j] < 256 && log[idx[j]] == j
  }

  lemma PowIndicesExist() returns (idx: seq<nat>)
    ensures PowIndices(idx)
  {
    idx := seq(255, j requires 0 <= j < 255 => Pow(j) as int);
    forall j | 0 <= j < 255 ensures idx[j] < 256 { NatOfByte(Pow(j)); }
    forall i, j | 0 <= i < j < 255 ensures idx[i] != idx[j] { PowIndexDistinct(i, j); }
  }

  lemma ExpStep(exp: seq<bv8>, n: nat, v: bv8)
    requires n < 255 && ExpFilled(exp, n) && v == Pow(n)
    ensures ExpFilled(exp[n := v][n + 255 := v], n + 1)
  {}

  lemma LogStep(log: seq<nat>, idx: seq<nat>, n: nat)
    requires PowIndices(idx) && n < 255 && LogFilled(log, idx, n)
    ensures LogFilled(log[idx[n] := n], idx, n + 1)
  {}

  // One round of the table loop on its 16-bit register is Xtime on the byte.
  method ShiftRegister(x: bv16) returns (y: bv16)
    requires x < 256
    ensures y < 256 && y as bv8 == Xtime(x as bv8)
  {
    y := x << 1;
    if y & 0x100 != 0 {
      y := y ^ 0x11d;
    }
  }

  lemma PowStart()
    ensures Pow(0) == 1
  {}

  lemma PowNext(n: nat)
    ensures Pow(n + 1) == Xtime(Pow(n))
  {
    hide Xtime;
  }

  method BuildTables() returns (t: Tables)
    ensures t.Correct()
  {
    hide Pow, Xtime;
    PowStart();
    var exp := new bv8[512](_ => 0);
    var log := new nat[256](_ => 0);
    var x: bv16 := 1;
    var i := 0;
    ghost var idx := PowIndicesExist();
    while i < 255
      invariant 0 <= i <= 255
      invariant x < 256 && x as bv8 == Pow(i)
      invariant ExpFilled(exp[..], i)
      invariant LogFilled(log[..], idx, i)
    {
      ExpStep(exp[..], i, x as bv8);
      LogStep(log[..], idx, i);
      exp[i] := x as bv8;
      exp[i + 255] := x as bv8;
      assert (x as bv8) as int == idx[i];
      log[(x as bv8) as int] := i;
      PowNext(i);
      x := ShiftRegister(x);
      i := i + 1;
    }
    exp[255] := 1;
    exp[510] := 1;
    t := Tables(exp[..], log[..]);
    TablesCorrect(t, idx);
  }

  lemma TablesCorrect(t: Tables, idx: seq<nat>)
    requires PowIndices(idx) && LogFilled(t.log, idx, 255)
    requires |t.exp| == 512 && t.exp[255] == t.exp[510] == 1
    requires forall j | 0 <= j < 255 :: t.exp[j] == Pow(j) && (0 < j ==> t.exp[j + 255] == Pow(j))
    ensures t.Correct()
  {
    OrderIs255();
    forall j | 0 <= j < 511 ensures t.exp[j] == Pow(j) {
      if j >= 255 { PowPeriod(j - 255); assert j != 510 ==> t.exp[(j - 255) + 255] == Pow(j - 255); }
    }
    forall a: bv8 | a != 0 ensures t.log[a as int] == Log(a) {
      assert idx[Log(a)] == Pow(Log(a)) as int;
    }
  }

}
