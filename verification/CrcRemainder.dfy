/** What the checksum of tokens is: a remainder of polynomials over the field of two elements, as section 3.2.9 of
    IEEE 802.3 defines it. */
module CrcRemainder {
  import opened Token

  // ----- polynomials -----

  /** The exponents whose coefficient is one. */
  type Poly = set<nat>

  function Plus(p: Poly, q: Poly): Poly {
    (p - q) + (q - p)
  }

  /** Times a power of x. */
  function Times(p: Poly, k: nat): Poly {
    set e | e in p :: e + k
  }

  /** The generator of CRC-32. */
  const G: Poly := {32, 26, 23, 22, 16, 12, 11, 10, 8, 7, 5, 4, 2, 1, 0}

  /** The multiples of a polynomial: sums of its products with powers of x. */
  function Multiple(g: Poly, ks: seq<nat>): Poly {
    if ks == [] then {} else Plus(Multiple(g, ks[..|ks| - 1]), Times(g, ks[|ks| - 1]))
  }

  /** Two polynomials leave the same remainder. */
  ghost predicate Congruent(p: Poly, q: Poly) {
    exists ks :: Plus(p, q) == Multiple(G, ks)
  }

  lemma TimesTwice(p: Poly, k: nat, l: nat)
    ensures Times(Times(p, k), l) == Times(p, k + l)
  {
    forall e ensures e in Times(Times(p, k), l) <==> e in Times(p, k + l) {
      if e in Times(p, k + l) {
        assert e - l in Times(p, k);
      }
    }
  }

  lemma TimesPlus(p: Poly, q: Poly, k: nat)
    ensures Times(Plus(p, q), k) == Plus(Times(p, k), Times(q, k))
  {
    forall e ensures e in Times(Plus(p, q), k) <==> e in Plus(Times(p, k), Times(q, k)) {
      if e >= k {
        assert e in Times(p, k) <==> e - k in p;
        assert e in Times(q, k) <==> e - k in q;
        assert e in Times(Plus(p, q), k) <==> e - k in Plus(p, q);
      }
    }
  }

  lemma {:induction false} MultipleConcat(g: Poly, a: seq<nat>, b: seq<nat>)
    ensures Multiple(g, a + b) == Plus(Multiple(g, a), Multiple(g, b))
  {
    if b == [] {
      assert a + b == a;
    } else {
      var n := |b| - 1;
      assert (a + b)[..|a| + n] == a + b[..n];
      MultipleConcat(g, a, b[..n]);
    }
  }

  lemma MultipleOfOne(g: Poly, k: nat)
    ensures Multiple(g, [k]) == Times(g, k)
  {
    assert [k][..0] == [];
  }

  function Shifted(ks: seq<nat>, k: nat): seq<nat> {
    seq(|ks|, i requires 0 <= i < |ks| => ks[i] + k)
  }

  lemma {:induction false} MultipleShifted(g: Poly, ks: seq<nat>, k: nat)
    ensures Multiple(g, Shifted(ks, k)) == Times(Multiple(g, ks), k)
  {
    if ks != [] {
      var n := |ks| - 1;
      assert Shifted(ks, k)[..n] == Shifted(ks[..n], k);
      MultipleShifted(g, ks[..n], k);
      TimesPlus(Multiple(g, ks[..n]), Times(g, ks[n]), k);
      TimesTwice(g, ks[n], k);
    }
  }

  lemma CongruentSelf(p: Poly)
    ensures Congruent(p, p)
  {
    assert Plus(p, p) == Multiple(G, []);
  }

  lemma CongruentTrans(p: Poly, q: Poly, r: Poly)
    requires Congruent(p, q) && Congruent(q, r)
    ensures Congruent(p, r)
  {
    var a :| Plus(p, q) == Multiple(G, a);
    var b :| Plus(q, r) == Multiple(G, b);
    MultipleConcat(G, a, b);
    assert Plus(p, r) == Plus(Plus(p, q), Plus(q, r));
  }

  lemma CongruentTimes(p: Poly, q: Poly, k: nat)
    requires Congruent(p, q)
    ensures Congruent(Times(p, k), Times(q, k))
  {
    var ks :| Plus(p, q) == Multiple(G, ks);
    MultipleShifted(G, ks, k);
    TimesPlus(p, q, k);
  }

  lemma CongruentPlus(p: Poly, q: Poly, r: Poly)
    requires Congruent(p, q)
    ensures Congruent(Plus(p, r), Plus(q, r))
  {
    var ks :| Plus(p, q) == Multiple(G, ks);
    assert Plus(Plus(p, r), Plus(q, r)) == Plus(p, q);
  }

  // ----- remainders are unique -----

  predicate NoRepeats(ks: seq<nat>) {
    forall i, j :: 0 <= i < j < |ks| ==> ks[i] != ks[j]
  }

  function Without(ks: seq<nat>, i: nat): seq<nat>
    requires i < |ks|
  {
    ks[..i] + ks[i + 1..]
  }

  lemma WithoutIs(ks: seq<nat>, i: nat)
    requires i < |ks| && NoRepeats(ks)
    ensures NoRepeats(Without(ks, i))
    ensures forall j :: 0 <= j < |Without(ks, i)| ==>
      Without(ks, i)[j] == (if j < i then ks[j] else ks[j + 1]) && Without(ks, i)[j] != ks[i]
  {
  }

  lemma PlusTwice(a: Poly, g: Poly, b: Poly)
    ensures Plus(Plus(a, Plus(g, b)), g) == Plus(a, b)
  {
  }

  lemma Cancelled(g: Poly, ks: seq<nat>, i: nat)
    requires i < |ks|
    ensures Multiple(g, Without(ks, i)) == Plus(Multiple(g, ks), Times(g, ks[i]))
  {
    var a, b := ks[..i], ks[i + 1..];
    assert ks == a + ([ks[i]] + b);
    MultipleConcat(g, a, b);
    MultipleConcat(g, a, [ks[i]] + b);
    MultipleConcat(g, [ks[i]], b);
    MultipleOfOne(g, ks[i]);
    PlusTwice(Multiple(g, a), Times(g, ks[i]), Multiple(g, b));
  }

  /** What occurs twice cancels. */
  lemma {:induction false} Reduced(g: Poly, ks: seq<nat>) returns (ds: seq<nat>)
    ensures NoRepeats(ds) && Multiple(g, ds) == Multiple(g, ks)
  {
    if ks == [] {
      ds := [];
    } else {
      var n := |ks| - 1;
      var es := Reduced(g, ks[..n]);
      if i :| 0 <= i < |es| && es[i] == ks[n] {
        ds := Without(es, i);
        WithoutIs(es, i);
        Cancelled(g, es, i);
      } else {
        ds := es + [ks[n]];
        MultipleConcat(g, es, [ks[n]]);
        MultipleOfOne(g, ks[n]);
      }
    }
  }

  /** A polynomial of degree 32. */
  ghost predicate OfDegree32(g: Poly) {
    32 in g && forall e :: e in g ==> e <= 32
  }

  lemma {:induction false} TooLow(g: Poly, ks: seq<nat>, m: nat)
    requires OfDegree32(g) && forall i :: 0 <= i < |ks| ==> ks[i] < m
    ensures m + 32 !in Multiple(g, ks)
  {
    if ks != [] {
      TooLow(g, ks[..|ks| - 1], m);
    }
  }

  /** The highest power does not cancel. */
  lemma TopStays(g: Poly, ks: seq<nat>, i: nat)
    requires OfDegree32(g) && NoRepeats(ks) && i < |ks| && forall j :: 0 <= j < |ks| ==> ks[j] <= ks[i]
    ensures ks[i] + 32 in Multiple(g, ks)
  {
    WithoutIs(ks, i);
    TooLow(g, Without(ks, i), ks[i]);
    Cancelled(g, ks, i);
    assert ks[i] + 32 in Times(g, ks[i]);
  }

  lemma {:induction false} Highest(ks: seq<nat>) returns (i: nat)
    requires ks != []
    ensures i < |ks| && forall j :: 0 <= j < |ks| ==> ks[j] <= ks[i]
  {
    var n := |ks| - 1;
    i := n;
    if n > 0 {
      var j := Highest(ks[..n]);
      if ks[j] > ks[n] {
        i := j;
      }
      assert forall k :: 0 <= k < n ==> ks[..n][k] == ks[k];
    }
  }

  lemma SmallMultipleIsZero(g: Poly, ks: seq<nat>)
    requires OfDegree32(g) && forall e :: e in Multiple(g, ks) ==> e < 32
    ensures Multiple(g, ks) == {}
  {
    var ds := Reduced(g, ks);
    if ds != [] {
      var i := Highest(ds);
      TopStays(g, ds, i);
    }
  }

  /** Of the polynomials below the generator no two are congruent. */
  lemma RemainderIsUnique(p: Poly, q: Poly)
    requires Congruent(p, q) && forall e :: e in p || e in q ==> e < 32
    ensures p == q
  {
    var ks :| Plus(p, q) == Multiple(G, ks);
    SmallMultipleIsZero(G, ks);
    EmptySum(p, q);
  }

  lemma EmptySum(p: Poly, q: Poly)
    requires Plus(p, q) == {}
    ensures p == q
  {
    assert p - q == {} && q - p == {};
  }

  // ----- bits as coefficients -----

  /** How a shift register of any kind is taken apart: its lowest bit, the rest, and sums. */
  datatype Bits<!T> = Bits(odd: T -> bool, half: T -> T, sum: (T, T) -> T)

  predicate AdditiveAt<T(==)>(r: Bits<T>, x: T, y: T) {
    && r.odd(r.sum(x, y)) == (r.odd(x) != r.odd(y))
    && r.half(r.sum(x, y)) == r.sum(r.half(x), r.half(y))
  }

  ghost predicate Additive<T(!new)>(r: Bits<T>) {
    forall x, y :: AdditiveAt(r, x, y)
  }

  function Single(e: nat, there: bool): Poly {
    if there then {e} else {}
  }

  /** The lowest bit is the coefficient of the highest power. */
  function Coefficients<T>(r: Bits<T>, s: T, top: nat): Poly {
    Single(top, r.odd(s)) + (if top == 0 then {} else Coefficients(r, r.half(s), top - 1))
  }

  predicate BitAt<T>(r: Bits<T>, s: T, n: nat) {
    if n == 0 then r.odd(s) else BitAt(r, r.half(s), n - 1)
  }

  lemma {:induction false} CoefficientsBound<T>(r: Bits<T>, s: T, top: nat)
    ensures forall e :: e in Coefficients(r, s, top) ==> e <= top
  {
    if top > 0 {
      CoefficientsBound(r, r.half(s), top - 1);
    }
  }

  lemma SinglePlus(top: nat, a: bool, b: bool, p: Poly, q: Poly)
    requires forall e :: e in p || e in q ==> e < top
    ensures Single(top, a != b) + Plus(p, q) == Plus(Single(top, a) + p, Single(top, b) + q)
  {
  }

  lemma {:induction false} CoefficientsPlus<T(!new)>(r: Bits<T>, x: T, y: T, top: nat)
    requires Additive(r)
    ensures Coefficients(r, r.sum(x, y), top) == Plus(Coefficients(r, x, top), Coefficients(r, y, top))
  {
    assert AdditiveAt(r, x, y);
    if top == 0 {
      SinglePlus(top, r.odd(x), r.odd(y), {}, {});
    } else {
      CoefficientsPlus(r, r.half(x), r.half(y), top - 1);
      CoefficientsBound(r, r.half(x), top - 1);
      CoefficientsBound(r, r.half(y), top - 1);
      SinglePlus(top, r.odd(x), r.odd(y), Coefficients(r, r.half(x), top - 1), Coefficients(r, r.half(y), top - 1));
    }
  }

  lemma SingleTimes(top: nat, a: bool, p: Poly, z: Poly)
    ensures Times(Single(top, a) + p, 1) + z == Single(top + 1, a) + (Times(p, 1) + z)
  {
    assert Times(Single(top, a) + p, 1) == Single(top + 1, a) + Times(p, 1);
  }

  /** One more bit moves all coefficients up. */
  lemma {:induction false} OneMoreBit<T>(r: Bits<T>, s: T, top: nat)
    ensures Coefficients(r, s, top + 1) == Times(Coefficients(r, s, top), 1) + Single(0, BitAt(r, s, top + 1))
  {
    if top == 0 {
      SingleTimes(top, r.odd(s), {}, Single(0, BitAt(r, s, 1)));
      assert Coefficients(r, r.half(s), 0) == Single(0, BitAt(r, r.half(s), 0));
    } else {
      OneMoreBit(r, r.half(s), top - 1);
      SingleTimes(top, r.odd(s), Coefficients(r, r.half(s), top - 1), Single(0, BitAt(r, s, top + 1)));
    }
  }

  function Half4<T>(r: Bits<T>, s: T): T {
    r.half(r.half(r.half(r.half(s))))
  }

  lemma FourBitsOn<T>(r: Bits<T>, s: T, n: nat)
    ensures BitAt(r, s, n + 4) == BitAt(r, Half4(r, s), n)
  {
    var s1 := r.half(s);
    var s2 := r.half(s1);
    var s3 := r.half(s2);
    assert BitAt(r, s, n + 4) == BitAt(r, s1, n + 3) == BitAt(r, s2, n + 2) == BitAt(r, s3, n + 1);
  }

  lemma EightBitsOn<T>(r: Bits<T>, s: T, n: nat)
    ensures BitAt(r, s, n + 8) == BitAt(r, Half4(r, Half4(r, s)), n)
  {
    FourBitsOn(r, s, n + 4);
    FourBitsOn(r, Half4(r, s), n);
  }

  /** Without bits from `top` on, the coefficients just move up. */
  lemma {:induction false} NoMoreBits<T>(r: Bits<T>, s: T, top: nat, k: nat)
    requires forall n :: top < n <= top + k ==> !BitAt(r, s, n)
    ensures Coefficients(r, s, top + k) == Times(Coefficients(r, s, top), k)
  {
    if k == 0 {
      assert Times(Coefficients(r, s, top), 0) == Coefficients(r, s, top);
    } else {
      NoMoreBits(r, s, top, k - 1);
      OneMoreBit(r, s, top + k - 1);
      TimesTwice(Coefficients(r, s, top), k - 1, 1);
    }
  }

  // ----- the register as a polynomial -----

  const REGISTER: Bits<bv32> := Bits(x => x & 1 == 1, x => x >> 1, (x, y) => Xor(x, y))

  function Of(s: bv32): Poly {
    Coefficients(REGISTER, s, 31)
  }

  lemma RegisterIsAdditiveAt(x: bv32, y: bv32)
    ensures AdditiveAt(REGISTER, x, y)
  {
    LowBit(x, y);
  }

  lemma RegisterIsAdditive()
    ensures Additive(REGISTER)
  {
    forall x, y ensures AdditiveAt(REGISTER, x, y) {
      RegisterIsAdditiveAt(x, y);
    }
  }

  lemma OfXor(x: bv32, y: bv32)
    ensures Of(Xor(x, y)) == Plus(Of(x), Of(y))
  {
    RegisterIsAdditive();
    CoefficientsPlus(REGISTER, x, y, 31);
  }

  lemma HalfEight(s: bv32)
    ensures Half4(REGISTER, Half4(REGISTER, s)) == Down(s)
  {
  }

  lemma {:induction false} ZeroHasNoBits(n: nat)
    ensures !BitAt(REGISTER, 0, n)
  {
    assert REGISTER.half(0) == 0 && !REGISTER.odd(0);
    if n > 0 {
      ZeroHasNoBits(n - 1);
    }
  }

  lemma ByteIsDown(b: bv8)
    ensures Down(Wide(b)) == 0
  {
  }

  lemma ByteHasEightBits(b: bv8, n: nat)
    requires n >= 8
    ensures !BitAt(REGISTER, Wide(b), n)
  {
    EightBitsOn(REGISTER, Wide(b), n - 8);
    HalfEight(Wide(b));
    ByteIsDown(b);
    ZeroHasNoBits(n - 8);
  }

  // ----- the values of the standard -----

  function FourBits<T>(r: Bits<T>, s: T, top: nat): Poly
    requires top >= 3
  {
    Single(top, r.odd(s)) + Single(top - 1, r.odd(r.half(s)))
    + Single(top - 2, r.odd(r.half(r.half(s)))) + Single(top - 3, r.odd(r.half(r.half(r.half(s)))))
  }

  lemma FourAtATime<T>(r: Bits<T>, s: T, top: nat)
    requires top >= 3
    ensures Coefficients(r, s, top) == FourBits(r, s, top) + if top == 3 then {} else Coefficients(r, Half4(r, s), top - 4)
  {
    var s1 := r.half(s);
    var s2 := r.half(s1);
    var s3 := r.half(s2);
    assert Coefficients(r, s, top) == Single(top, r.odd(s)) + Coefficients(r, s1, top - 1);
    assert Coefficients(r, s1, top - 1) == Single(top - 1, r.odd(s1)) + Coefficients(r, s2, top - 2);
    assert Coefficients(r, s2, top - 2) == Single(top - 2, r.odd(s2)) + Coefficients(r, s3, top - 3);
  }

  /** Four bits of a constant, and what is left of it. */
  lemma Nibble(s: bv32, rest: bv32, top: nat, bits: Poly)
    requires top >= 3 && Half4(REGISTER, s) == rest && FourBits(REGISTER, s, top) == bits
    ensures Coefficients(REGISTER, s, top) == bits + if top == 3 then {} else Coefficients(REGISTER, rest, top - 4)
  {
    FourAtATime(REGISTER, s, top);
  }

  lemma Polynomial3()
    ensures Coefficients(REGISTER, 0xE, 3) == {2, 1, 0}
  {
    Nibble(0xE, 0x0, 3, {2, 1, 0});
  }

  lemma Polynomial7()
    ensures Coefficients(REGISTER, 0xED, 7) == {7, 5, 4, 2, 1, 0}
  {
    Polynomial3();
    Nibble(0xED, 0xE, 7, {7, 5, 4});
  }

  lemma Polynomial11()
    ensures Coefficients(REGISTER, 0xEDB, 11) == {11, 10, 8, 7, 5, 4, 2, 1, 0}
  {
    Polynomial7();
    Nibble(0xEDB, 0xED, 11, {11, 10, 8});
  }

  lemma Polynomial15()
    ensures Coefficients(REGISTER, 0xEDB8, 15) == {12, 11, 10, 8, 7, 5, 4, 2, 1, 0}
  {
    Polynomial11();
    Nibble(0xEDB8, 0xEDB, 15, {12});
  }

  lemma Polynomial19()
    ensures Coefficients(REGISTER, 0xEDB88, 19) == {16, 12, 11, 10, 8, 7, 5, 4, 2, 1, 0}
  {
    Polynomial15();
    Nibble(0xEDB88, 0xEDB8, 19, {16});
  }

  lemma Polynomial23()
    ensures Coefficients(REGISTER, 0xEDB883, 23) == {23, 22, 16, 12, 11, 10, 8, 7, 5, 4, 2, 1, 0}
  {
    Polynomial19();
    Nibble(0xEDB883, 0xEDB88, 23, {23, 22});
  }

  lemma Polynomial27()
    ensures Coefficients(REGISTER, 0xEDB8832, 27) == {26, 23, 22, 16, 12, 11, 10, 8, 7, 5, 4, 2, 1, 0}
  {
    Polynomial23();
    Nibble(0xEDB8832, 0xEDB883, 27, {26});
  }

  lemma Polynomial31()
    ensures Coefficients(REGISTER, 0xEDB88320, 31) == {26, 23, 22, 16, 12, 11, 10, 8, 7, 5, 4, 2, 1, 0}
  {
    Polynomial27();
    Nibble(0xEDB88320, 0xEDB8832, 31, {});
  }

  lemma PolynomialIsG()
    ensures Of(POLYNOMIAL) == G - {32}
  {
    Polynomial31();
  }

  /** As many set bits. */
  function Ones(n: nat): bv32
    requires n in {4, 8, 12, 16, 20, 24, 28, 32}
  {
    if n == 4 then 0xF else if n == 8 then 0xFF else if n == 12 then 0xFFF else if n == 16 then 0xFFFF
    else if n == 20 then 0xF_FFFF else if n == 24 then 0xFF_FFFF else if n == 28 then 0xFFF_FFFF else 0xFFFF_FFFF
  }

  lemma OnesAreSet(n: nat)
    requires n in {4, 8, 12, 16, 20, 24, 28, 32}
    ensures n > 4 ==> Half4(REGISTER, Ones(n)) == Ones(n - 4)
    ensures REGISTER.odd(Ones(n)) && REGISTER.odd(REGISTER.half(Ones(n)))
    ensures REGISTER.odd(REGISTER.half(REGISTER.half(Ones(n))))
    ensures REGISTER.odd(REGISTER.half(REGISTER.half(REGISTER.half(Ones(n)))))
  {
  }

  lemma {:induction false} OnesAreAll(n: nat, e: nat)
    requires n in {4, 8, 12, 16, 20, 24, 28, 32}
    ensures e in Coefficients(REGISTER, Ones(n), n - 1) <==> e < n
  {
    OnesAreSet(n);
    FourSet(REGISTER, Ones(n), n - 1, e);
    if n > 4 {
      OnesAreAll(n - 4, e);
    }
  }

  lemma FourSet<T>(r: Bits<T>, s: T, top: nat, e: nat)
    requires top >= 3 && r.odd(s) && r.odd(r.half(s)) && r.odd(r.half(r.half(s))) && r.odd(r.half(r.half(r.half(s))))
    ensures e in Coefficients(r, s, top) <==>
      top - 3 <= e <= top || (top > 3 && e in Coefficients(r, Half4(r, s), top - 4))
  {
    FourAtATime(r, s, top);
  }

  // ----- one round multiplies by x -----

  lemma SevenBitsOn<T>(r: Bits<T>, s: T)
    ensures BitAt(r, s, 7) == r.odd(r.half(r.half(r.half(Half4(r, s)))))
  {
    FourBitsOn(r, s, 3);
    var t := Half4(r, s);
    assert BitAt(r, t, 3) == BitAt(r, r.half(t), 2) == BitAt(r, r.half(r.half(t)), 1);
  }

  lemma TopIsGone(x: bv32)
    ensures var z := Down(Down(Down(x >> 1)));
      !REGISTER.odd(REGISTER.half(REGISTER.half(REGISTER.half(Half4(REGISTER, z)))))
  {
  }

  lemma HalfHasNoTop(x: bv32)
    ensures !BitAt(REGISTER, x >> 1, 31)
  {
    var y := x >> 1;
    EightBitsOn(REGISTER, y, 23);
    HalfEight(y);
    EightBitsOn(REGISTER, Down(y), 15);
    HalfEight(Down(y));
    EightBitsOn(REGISTER, Down(Down(y)), 7);
    HalfEight(Down(Down(y)));
    SevenBitsOn(REGISTER, Down(Down(Down(y))));
    TopIsGone(x);
  }

  lemma RoundCases(x: bv32)
    ensures Round(x) == if REGISTER.odd(x) then Xor(x >> 1, POLYNOMIAL) else x >> 1
    ensures REGISTER.half(x) == x >> 1
  {
  }

  lemma ShiftTimes(x: bv32)
    ensures Times(Of(x), 1) == Single(32, REGISTER.odd(x)) + Of(x >> 1)
  {
    RoundCases(x);
    HalfHasNoTop(x);
    OneMoreBit(REGISTER, x >> 1, 30);
    SingleTimes(31, REGISTER.odd(x), Coefficients(REGISTER, x >> 1, 30), {});
  }

  lemma FeedbackIsG(h: Poly)
    requires forall e :: e in h ==> e < 32
    ensures Congruent(Plus(h, G - {32}), {32} + h)
  {
    assert Plus(Plus(h, G - {32}), {32} + h) == G;
    MultipleOfOne(G, 0);
    assert Times(G, 0) == G;
  }

  lemma RoundTimes(x: bv32)
    ensures Congruent(Of(Round(x)), Times(Of(x), 1))
  {
    RoundCases(x);
    ShiftTimes(x);
    if REGISTER.odd(x) {
      OfXor(x >> 1, POLYNOMIAL);
      PolynomialIsG();
      CoefficientsBound(REGISTER, x >> 1, 31);
      FeedbackIsG(Of(x >> 1));
    } else {
      CongruentSelf(Of(x >> 1));
    }
  }

  // ----- messages -----

  /** Registers and bytes, read as polynomials. The proofs about messages need not know how. */
  datatype Reading = Reading(of: bv32 -> Poly, byte: bv8 -> Poly)

  /** The function multiplies by a power of x, up to multiples of the generator. */
  ghost predicate MultipliesAt(r: Reading, f: Table, k: nat, x: bv32) {
    Congruent(r.of(f(x)), Times(r.of(x), k))
  }

  ghost predicate Multiplies(r: Reading, f: Table, k: nat) {
    forall x :: MultipliesAt(r, f, k, x)
  }

  predicate SumsAt(r: Reading, x: bv32, y: bv32) {
    r.of(Xor(x, y)) == Plus(r.of(x), r.of(y))
  }

  predicate WidensAt(r: Reading, b: bv8) {
    r.of(Wide(b)) == Times(r.byte(b), 24)
  }

  ghost predicate Faithful(r: Reading) {
    (forall x, y :: SumsAt(r, x, y)) && (forall b :: WidensAt(r, b))
  }

  lemma TwiceMultipliesAt(r: Reading, f: Table, k: nat, x: bv32)
    requires MultipliesAt(r, f, k, x) && MultipliesAt(r, f, k, f(x))
    ensures MultipliesAt(r, Twice(f), k + k, x)
  {
    CongruentTimes(r.of(f(x)), Times(r.of(x), k), k);
    TimesTwice(r.of(x), k, k);
    CongruentTrans(r.of(f(f(x))), Times(r.of(f(x)), k), Times(r.of(x), k + k));
  }

  /** A message as a polynomial: the first bit has the highest power. */
  function Message(r: Reading, bytes: Bytes): Poly {
    if bytes == [] then {}
    else Plus(Times(Message(r, bytes[..|bytes| - 1]), 8), r.byte(bytes[|bytes| - 1]))
  }

  lemma StepCongruent(r: Reading, f: Table, s: bv32, b: bv8, x: bv32)
    requires x == Xor(s, Wide(b)) && TableStep(f, s, b) == f(x)
    requires MultipliesAt(r, f, 8, x) && SumsAt(r, s, Wide(b)) && WidensAt(r, b)
    ensures Congruent(r.of(TableStep(f, s, b)), Plus(Times(r.of(s), 8), Times(r.byte(b), 32)))
  {
    TimesPlus(r.of(s), Times(r.byte(b), 24), 8);
    TimesTwice(r.byte(b), 24, 8);
  }

  lemma NextMessage(s: Poly, n: nat, m: Poly, b: Poly)
    ensures Plus(Times(Plus(Times(s, n), Times(m, 32)), 8), Times(b, 32)) ==
      Plus(Times(s, n + 8), Times(Plus(Times(m, 8), b), 32))
  {
    TimesPlus(Times(s, n), Times(m, 32), 8);
    TimesTwice(s, n, 8);
    TimesTwice(m, 32, 8);
    TimesPlus(Times(m, 8), b, 32);
    TimesTwice(m, 8, 32);
  }

  lemma NextCongruent(r: Reading, f: Table, s: bv32, b: bv8, before: Poly)
    requires IsCrcTable(f) && Faithful(r) && Multiplies(r, f, 8) && Congruent(r.of(s), before)
    ensures Congruent(r.of(TableStep(f, s, b)), Plus(Times(before, 8), Times(r.byte(b), 32)))
  {
    TableStepIsBitSerial(f, s, b);
    StepCongruent(r, f, s, b, Xor(s, Wide(b)));
    CongruentTimes(r.of(s), before, 8);
    CongruentPlus(Times(r.of(s), 8), Times(before, 8), Times(r.byte(b), 32));
    CongruentTrans(r.of(TableStep(f, s, b)), Plus(Times(r.of(s), 8), Times(r.byte(b), 32)),
      Plus(Times(before, 8), Times(r.byte(b), 32)));
  }

  /** The message, times x to the 32nd, plus what the register was, moved before the message. */
  function Dividend(r: Reading, s: bv32, bytes: Bytes): Poly {
    Plus(Times(r.of(s), 8 * |bytes|), Times(Message(r, bytes), 32))
  }

  lemma NextDividend(r: Reading, s: bv32, bytes: Bytes)
    requires bytes != []
    ensures var n := |bytes| - 1;
      Dividend(r, s, bytes) == Plus(Times(Dividend(r, s, bytes[..n]), 8), Times(r.byte(bytes[n]), 32))
  {
    var n := |bytes| - 1;
    NextMessage(r.of(s), 8 * n, Message(r, bytes[..n]), r.byte(bytes[n]));
    assert 8 * n + 8 == 8 * |bytes|;
  }

  /** After a message the register leaves the same remainder. */
  lemma {:induction false} RegisterCongruent(r: Reading, f: Table, s: bv32, bytes: Bytes)
    requires IsCrcTable(f) && Faithful(r) && Multiplies(r, f, 8)
    ensures Congruent(r.of(Register(f, s, bytes)), Dividend(r, s, bytes))
  {
    if bytes == [] {
      assert Plus(Times(r.of(s), 0), Times({}, 32)) == r.of(s);
      CongruentSelf(r.of(s));
    } else {
      var n := |bytes| - 1;
      RegisterCongruent(r, f, s, bytes[..n]);
      NextCongruent(r, f, Register(f, s, bytes[..n]), bytes[n], Dividend(r, s, bytes[..n]));
      NextDividend(r, s, bytes);
    }
  }

  lemma ComplementCongruent(r: Reading, f: Table, ones: bv32, all: Poly, bytes: Bytes)
    requires IsCrcTable(f) && Faithful(r) && Multiplies(r, f, 8) && r.of(ones) == all
    ensures Congruent(Plus(r.of(Xor(Register(f, ones, bytes), ones)), all),
                      Plus(Times(all, 8 * |bytes|), Times(Message(r, bytes), 32)))
  {
    var s := Register(f, ones, bytes);
    RegisterCongruent(r, f, ones, bytes);
    assert SumsAt(r, s, ones);
    assert Plus(Plus(r.of(s), all), all) == r.of(s);
  }

  // ----- the checksum -----

  /** The first bit of a byte to be sent is its lowest. */
  function OfByte(b: bv8): Poly {
    Coefficients(REGISTER, Wide(b), 7)
  }

  lemma OfWide(b: bv8)
    ensures Of(Wide(b)) == Times(OfByte(b), 24)
  {
    forall n | 7 < n <= 31 ensures !BitAt(REGISTER, Wide(b), n) {
      ByteHasEightBits(b, n);
    }
    NoMoreBits(REGISTER, Wide(b), 7, 24);
  }

  const IEEE: Reading := Reading(Of, OfByte)

  lemma IeeeIsFaithful()
    ensures Faithful(IEEE)
  {
    forall x, y ensures SumsAt(IEEE, x, y) {
      OfXor(x, y);
    }
    forall b ensures WidensAt(IEEE, b) {
      OfWide(b);
    }
  }

  lemma IeeeMultiplies()
    ensures Multiplies(IEEE, IeeeTable(), 8)
  {
    forall x ensures MultipliesAt(IEEE, IeeeTable(), 8, x) {
      EightRoundsMultiply(x);
    }
  }

  lemma OneRoundMultiplies(x: bv32)
    ensures MultipliesAt(IEEE, Round, 1, x)
  {
    RoundTimes(x);
  }

  lemma TwoRoundsMultiply(x: bv32)
    ensures MultipliesAt(IEEE, Twice(Round), 2, x)
  {
    OneRoundMultiplies(x);
    OneRoundMultiplies(Round(x));
    TwiceMultipliesAt(IEEE, Round, 1, x);
  }

  lemma FourRoundsMultiply(x: bv32)
    ensures MultipliesAt(IEEE, Twice(Twice(Round)), 4, x)
  {
    TwoRoundsMultiply(x);
    TwoRoundsMultiply(Twice(Round)(x));
    TwiceMultipliesAt(IEEE, Twice(Round), 2, x);
  }

  lemma EightRoundsMultiply(x: bv32)
    ensures MultipliesAt(IEEE, IeeeTable(), 8, x)
  {
    FourRoundsMultiply(x);
    FourRoundsMultiply(Twice(Twice(Round))(x));
    TwiceMultipliesAt(IEEE, Twice(Twice(Round)), 4, x);
  }

  lemma CrcBound(bytes: Bytes)
    ensures forall e :: e in Of(Crc(bytes)) ==> e < 32
  {
    CoefficientsBound(REGISTER, Crc(bytes), 31);
  }

  /** The CRC of a key, complemented, is the remainder of the message, times x to the 32nd, with its first 32 bits
      complemented: it is congruent to that, and of a degree below 32. */
  lemma CrcIsRemainder(bytes: Bytes, all: Poly)
    requires forall e: nat :: e in all <==> e < 32
    ensures Congruent(Plus(Of(Crc(bytes)), all), Plus(Times(all, 8 * |bytes|), Times(Message(IEEE, bytes), 32)))
    ensures forall e :: e in Of(Crc(bytes)) ==> e < 32
  {
    IeeeTableIsCrcTable();
    IeeeIsFaithful();
    IeeeMultiplies();
    StartIsAll(all);
    ComplementCongruent(IEEE, IeeeTable(), 0xFFFF_FFFF, all, bytes);
    CrcBound(bytes);
  }

  lemma StartIsAll(all: Poly)
    requires forall e: nat :: e in all <==> e < 32
    ensures Of(0xFFFF_FFFF) == all
  {
    forall e: nat ensures e in Of(0xFFFF_FFFF) <==> e in all {
      OnesAreAll(32, e);
    }
  }
}
