/** The format of access tokens: prefix, key, and a CRC-32 in base 62. */
module Token {
  import opened Common

  type Bytes = seq<bv8>

  // ----- CRC-32, section 3.2.9 of IEEE 802.3, bit-reflected -----

  const POLYNOMIAL: bv32 := 0xEDB88320

  /** One bit of the shift register. */
  function Round(x: bv32): bv32 {
    if x & 1 == 1 then (x >> 1) ^ POLYNOMIAL else x >> 1
  }

  /** The table of the algorithm, which is looked up for bytes only, as a function. */
  type Table = bv32 -> bv32

  function Twice(f: Table): Table {
    x => f(f(x))
  }

  /** The IEEE table: eight rounds for each byte. */
  function IeeeTable(): Table {
    Twice(Twice(Twice(Round)))
  }

  function Xor(x: bv32, y: bv32): bv32 {
    x ^ y
  }

  function Up(x: bv32): bv32 {
    x << 8
  }

  function Down(x: bv32): bv32 {
    x >> 8
  }

  function Low(x: bv32): bv32 {
    x & 0xff
  }

  function Wide(b: bv8): bv32 {
    b as bv32
  }

  /** The step of the table-driven algorithm. */
  function TableStep(f: Table, s: bv32, b: bv8): bv32 {
    Xor(f(Low(Xor(s, Wide(b)))), Down(s))
  }

  function Register(f: Table, s: bv32, bytes: Bytes): bv32 {
    if bytes == [] then s else TableStep(f, Register(f, s, bytes[..|bytes| - 1]), bytes[|bytes| - 1])
  }

  function Crc(bytes: Bytes): bv32 {
    Xor(Register(IeeeTable(), 0xFFFF_FFFF, bytes), 0xFFFF_FFFF)
  }

  // ----- base 62 -----

  function LetterOf(v: bv8): bv8 {
    if v < 10 then v + 48 else if v < 36 then v + 55 else v + 61
  }

  type Digit = d: nat | d < 62

  function Letter(d: Digit): bv8 {
    LetterOf(d as bv8)
  }

  function Digits(n: nat): seq<Digit> {
    if n < 62 then [n] else Digits(n / 62) + [n % 62]
  }

  function Letters(digits: seq<Digit>): Bytes {
    seq(|digits|, i requires 0 <= i < |digits| => Letter(digits[i]))
  }

  function Encode(n: nat): Bytes {
    Letters(Digits(n))
  }

  // ----- tokens -----

  const PREFIX_LENGTH := 6
  const KEY_LENGTH := 30
  const MIN_TOKEN_LENGTH := 4 + PREFIX_LENGTH + 1 + KEY_LENGTH
  const MAX_TOKEN_LENGTH := MIN_TOKEN_LENGTH + 6

  /** `drg_` */
  const MARK: Bytes := [100, 114, 103, 95]

  function Checksum(key: Bytes): Bytes {
    Encode(Crc(key) as nat)
  }

  function SerializeToken(prefix: Bytes, key: Bytes): Bytes {
    var token := prefix + [95] + key;
    token + Checksum(token)
  }

  function IsValid(token: Bytes): Option<Bytes> {
    if !(MIN_TOKEN_LENGTH <= |token| <= MAX_TOKEN_LENGTH) then None
    else if token[0..4] != MARK then None
    else
      var key := token[0..MIN_TOKEN_LENGTH];
      if token[MIN_TOKEN_LENGTH..] != Checksum(key) then None
      else Some(token[0..PREFIX_LENGTH + 4])
  }

  // ----- base 62 is injective, and short -----

  lemma LettersDiffer(v: bv8, w: bv8)
    requires v < 62 && w < 62 && LetterOf(v) == LetterOf(w)
    ensures v == w
  {
  }

  lemma ByteOfDigit(d: Digit)
    ensures (d as bv8) as nat == d && (d as bv8) < 62
  {
  }

  lemma LetterIsInjective(d: Digit, e: Digit)
    requires Letter(d) == Letter(e)
    ensures d == e
  {
    ByteOfDigit(d);
    ByteOfDigit(e);
    LettersDiffer(d as bv8, e as bv8);
  }

  lemma {:induction false} DigitsLength(n: nat)
    ensures |Digits(n)| >= 1 && (|Digits(n)| == 1 <==> n < 62)
  {
    if n >= 62 {
      DigitsLength(n / 62);
    }
  }

  lemma {:induction false} DigitsAreInjective(n: nat, m: nat)
    requires Digits(n) == Digits(m)
    ensures n == m
  {
    DigitsLength(n);
    DigitsLength(m);
    var a, b := Digits(n), Digits(m);
    assert a[|a| - 1] == n % 62 && b[|b| - 1] == m % 62;
    if n >= 62 {
      assert a[..|a| - 1] == Digits(n / 62) && b[..|b| - 1] == Digits(m / 62);
      DigitsAreInjective(n / 62, m / 62);
    }
  }

  /** Base 62 is injective. */
  lemma EncodeIsInjective(n: nat, m: nat)
    requires Encode(n) == Encode(m)
    ensures n == m
  {
    var a, b := Digits(n), Digits(m);
    assert |a| == |Encode(n)| == |Encode(m)| == |b|;
    forall i | 0 <= i < |a| ensures a[i] == b[i] {
      assert Letter(a[i]) == Encode(n)[i] == Encode(m)[i] == Letter(b[i]);
      LetterIsInjective(a[i], b[i]);
    }
    DigitsAreInjective(n, m);
  }

  /** What a letter counts: first the digits, then the upper case, then the lower case letters of ASCII. */
  function LetterValue(b: bv8): bv8 {
    if b < 65 then b - 48 else if b < 97 then b - 65 + 10 else b - 97 + 36
  }

  /** The number that a text denotes in base 62. */
  function Value(text: Bytes): nat {
    if text == [] then 0 else 62 * Value(text[..|text| - 1]) + LetterValue(text[|text| - 1]) as nat
  }

  lemma LetterCounts(v: bv8)
    requires v < 62
    ensures LetterValue(LetterOf(v)) == v
  {
  }

  lemma LetterOfDigitCounts(d: Digit)
    ensures LetterValue(Letter(d)) as nat == d
  {
    ByteOfDigit(d);
    LetterCounts(d as bv8);
  }

  function Number(digits: seq<Digit>): nat {
    if digits == [] then 0 else 62 * Number(digits[..|digits| - 1]) + digits[|digits| - 1]
  }

  lemma {:induction false} NumberOfDigits(n: nat)
    ensures Number(Digits(n)) == n
  {
    var a := Digits(n);
    if n < 62 {
      assert a == [n] && a[..0] == [];
    } else {
      NumberOfDigits(n / 62);
      assert a[..|a| - 1] == Digits(n / 62) && a[|a| - 1] == n % 62;
    }
  }

  lemma {:induction false} ValueOfLetters(digits: seq<Digit>)
    ensures Value(Letters(digits)) == Number(digits)
  {
    if digits != [] {
      var n := |digits| - 1;
      ValueOfLetters(digits[..n]);
      assert Letters(digits)[..n] == Letters(digits[..n]);
      LetterOfDigitCounts(digits[n]);
    }
  }

  /** The checksum denotes the number that it was made of. */
  lemma EncodeReadsBack(n: nat)
    ensures Value(Encode(n)) == n
  {
    ValueOfLetters(Digits(n));
    NumberOfDigits(n);
  }

  function Power62(k: nat): nat {
    if k == 0 then 1 else 62 * Power62(k - 1)
  }

  lemma {:induction false} DigitsBound(n: nat, k: nat)
    requires k >= 1 && n < Power62(k)
    ensures |Digits(n)| <= k
  {
    if n >= 62 {
      assert k >= 2 by { assert Power62(1) == 62 * Power62(0); }
      DigitsBound(n / 62, k - 1);
    }
  }

  lemma EncodeIsShort(n: nat)
    requires n < 0x1_0000_0000
    ensures 1 <= |Encode(n)| <= 6
  {
    assert Power62(3) == 62 * Power62(2) && Power62(2) == 62 * Power62(1) && Power62(1) == 62 * Power62(0);
    assert Power62(6) == 62 * Power62(5) && Power62(5) == 62 * Power62(4) && Power62(4) == 62 * Power62(3);
    DigitsBound(n, 6);
    DigitsLength(n);
  }

  /** The checksum of any 32-bit value fits the six characters that tokens have room for. */
  lemma ChecksumIsShort(key: Bytes)
    ensures 1 <= |Checksum(key)| <= 6
  {
    EncodeIsShort(Crc(key) as nat);
  }

  // ----- the CRC is linear and injective -----

  lemma XorRules(a: bv32, b: bv32, p: bv32)
    ensures (a ^ p) ^ (b ^ p) == a ^ b
    ensures (a ^ b) ^ p == (a ^ p) ^ b
    ensures (a ^ b) ^ p == a ^ (b ^ p)
  {
  }

  lemma LowBit(x: bv32, y: bv32)
    ensures (x ^ y) >> 1 == (x >> 1) ^ (y >> 1)
    ensures (x ^ y) & 1 == (x & 1) ^ (y & 1)
    ensures x & 1 == 0 || x & 1 == 1
    ensures y & 1 == 0 || y & 1 == 1
  {
  }

  /** What matters about a table: it is linear, injective, and without feedback a shift. */
  predicate LinearAt(f: Table, x: bv32, y: bv32) {
    f(Xor(x, y)) == Xor(f(x), f(y))
  }

  predicate InjectiveAt(f: Table, x: bv32, y: bv32) {
    f(x) == f(y) ==> x == y
  }

  predicate ShiftsAt(f: Table, x: bv32) {
    Low(x) == 0 ==> f(x) == Down(x)
  }

  ghost predicate Linear(f: Table) {
    forall x, y :: LinearAt(f, x, y)
  }

  ghost predicate Injective(f: Table) {
    forall x, y :: InjectiveAt(f, x, y)
  }

  ghost predicate IsCrcTable(f: Table) {
    && Linear(f)
    && Injective(f)
    && (forall x :: ShiftsAt(f, x))
  }

  lemma RoundOfXor(x: bv32, y: bv32, z: bv32)
    requires z == x ^ y
    ensures Round(z) == Xor(Round(x), Round(y))
  {
    LowBit(x, y);
    XorRules(x >> 1, y >> 1, POLYNOMIAL);
  }

  lemma RoundIsLinear(x: bv32, y: bv32)
    ensures LinearAt(Round, x, y)
  {
    RoundOfXor(x, y, Xor(x, y));
  }

  lemma RoundIsInjective(x: bv32, y: bv32)
    ensures InjectiveAt(Round, x, y)
  {
  }

  lemma TwiceAt(f: Table, x: bv32, y: bv32)
    ensures LinearAt(f, x, y) && LinearAt(f, f(x), f(y)) ==> LinearAt(Twice(f), x, y)
    ensures InjectiveAt(f, x, y) && InjectiveAt(f, f(x), f(y)) ==> InjectiveAt(Twice(f), x, y)
  {
  }

  lemma TwiceKeeps(f: Table)
    requires Linear(f) && Injective(f)
    ensures Linear(Twice(f)) && Injective(Twice(f))
  {
    forall x, y ensures LinearAt(Twice(f), x, y) && InjectiveAt(Twice(f), x, y) {
      TwiceAt(f, x, y);
    }
  }

  /** Without feedback bits, eight rounds are a shift. */
  lemma NoFeedback(x: bv32)
    requires Low(x) == 0
    ensures Round(Round(Round(Round(Round(Round(Round(Round(x)))))))) == Down(x)
  {
  }

  lemma EightRounds(f: Table, x: bv32)
    ensures Twice(Twice(Twice(f)))(x) == f(f(f(f(f(f(f(f(x))))))))
  {
  }

  lemma IeeeTableShifts(x: bv32)
    ensures ShiftsAt(IeeeTable(), x)
  {
    if Low(x) == 0 {
      NoFeedback(x);
      EightRounds(Round, x);
    }
  }

  lemma IeeeTableIsCrcTable()
    ensures IsCrcTable(IeeeTable())
  {
    forall x, y ensures LinearAt(Round, x, y) && InjectiveAt(Round, x, y) {
      RoundIsLinear(x, y);
      RoundIsInjective(x, y);
    }
    TwiceKeeps(Round);
    TwiceKeeps(Twice(Round));
    TwiceKeeps(Twice(Twice(Round)));
    forall x ensures ShiftsAt(IeeeTable(), x) {
      IeeeTableShifts(x);
    }
  }

  function High(x: bv32): bv32 {
    x & 0xFFFF_FF00
  }

  lemma SplitLowByte(x: bv32)
    ensures Xor(Low(x), High(x)) == x
    ensures Low(High(x)) == 0 && Down(High(x)) == Down(x)
  {
  }

  lemma ByteDoesNotReach(s: bv32, b: bv8)
    ensures Down(Xor(s, Wide(b))) == Down(s)
  {
  }

  lemma TableStepAt(f: Table, s: bv32, b: bv8, x: bv32)
    requires x == Xor(s, Wide(b))
    requires LinearAt(f, Low(x), High(x)) && ShiftsAt(f, High(x))
    ensures TableStep(f, s, b) == f(x)
  {
    SplitLowByte(x);
    ByteDoesNotReach(s, b);
  }

  /** The fast step, which looks up one byte and shifts, is the table function of the whole register: for the IEEE
      table, eight rounds of the bit-serial register. */
  lemma TableStepIsBitSerial(f: Table, s: bv32, b: bv8)
    requires IsCrcTable(f)
    ensures TableStep(f, s, b) == f(Xor(s, Wide(b)))
  {
    TableStepAt(f, s, b, Xor(s, Wide(b)));
  }

  lemma XorCancels(s: bv32, t: bv32, b: bv32)
    requires Xor(s, b) == Xor(t, b)
    ensures s == t
  {
  }

  lemma StepIsInjective(f: Table, s: bv32, t: bv32, b: bv8)
    requires IsCrcTable(f) && TableStep(f, s, b) == TableStep(f, t, b)
    ensures s == t
  {
    TableStepIsBitSerial(f, s, b);
    TableStepIsBitSerial(f, t, b);
    assert InjectiveAt(f, Xor(s, Wide(b)), Xor(t, Wide(b)));
    XorCancels(s, t, Wide(b));
  }

  /** Equal bytes never make different states equal. */
  lemma {:induction false} RegisterIsInjective(f: Table, s: bv32, t: bv32, bytes: Bytes)
    requires IsCrcTable(f) && Register(f, s, bytes) == Register(f, t, bytes)
    ensures s == t
  {
    if bytes != [] {
      var n := |bytes| - 1;
      StepIsInjective(f, Register(f, s, bytes[..n]), Register(f, t, bytes[..n]), bytes[n]);
      RegisterIsInjective(f, s, t, bytes[..n]);
    }
  }

  lemma {:induction false} RegisterConcat(f: Table, s: bv32, a: Bytes, b: Bytes)
    ensures Register(f, s, a + b) == Register(f, Register(f, s, a), b)
  {
    if b == [] {
      assert a + b == a;
    } else {
      var n := |b| - 1;
      assert (a + b)[..|a| + n] == a + b[..n];
      RegisterConcat(f, s, a, b[..n]);
    }
  }

  // ----- bursts of up to four bytes -----

  /** The first byte goes lowest. */
  function Word(s: bv32, a: bv8, b: bv8, c: bv8, d: bv8): bv32 {
    Xor(Xor(Xor(Xor(s, Wide(a)), Up(Wide(b))), Up(Up(Wide(c)))), Up(Up(Up(Wide(d)))))
  }

  function Bytes4(a: bv8, b: bv8, c: bv8, d: bv8): bv32 {
    (a as bv32) ^ ((b as bv32) << 8) ^ ((c as bv32) << 16) ^ ((d as bv32) << 24)
  }

  lemma UpByte(b: bv8)
    ensures Up(Wide(b)) == (b as bv32) << 8
    ensures Up(Up(Wide(b))) == (b as bv32) << 16
    ensures Up(Up(Up(Wide(b)))) == (b as bv32) << 24
  {
  }

  lemma XorMoves(s: bv32, a: bv32, b: bv32, c: bv32, d: bv32)
    ensures Xor(Xor(Xor(Xor(s, a), b), c), d) == s ^ (a ^ b ^ c ^ d)
  {
  }

  lemma WordAddsBytes(s: bv32, a: bv8, b: bv8, c: bv8, d: bv8)
    ensures Word(s, a, b, c, d) == s ^ Bytes4(a, b, c, d)
  {
    UpByte(b);
    UpByte(c);
    UpByte(d);
    XorMoves(s, Wide(a), Up(Wide(b)), Up(Up(Wide(c))), Up(Up(Up(Wide(d)))));
  }

  lemma XorBytes4(s: bv32, x: bv32, y: bv32)
    requires s ^ x == s ^ y
    ensures x == y
  {
  }

  lemma Bytes4IsInjective(a: bv8, b: bv8, c: bv8, d: bv8, a': bv8, b': bv8, c': bv8, d': bv8)
    requires Bytes4(a, b, c, d) == Bytes4(a', b', c', d')
    ensures a == a' && b == b' && c == c' && d == d'
  {
  }

  lemma WordIsInjective(s: bv32, a: bv8, b: bv8, c: bv8, d: bv8, a': bv8, b': bv8, c': bv8, d': bv8)
    requires Word(s, a, b, c, d) == Word(s, a', b', c', d')
    ensures a == a' && b == b' && c == c' && d == d'
  {
    WordAddsBytes(s, a, b, c, d);
    WordAddsBytes(s, a', b', c', d');
    XorBytes4(s, Bytes4(a, b, c, d), Bytes4(a', b', c', d'));
    Bytes4IsInjective(a, b, c, d, a', b', c', d');
  }

  lemma ShiftBack(b: bv32)
    requires b < 0x100_0000
    ensures Low(Up(b)) == 0 && Down(Up(b)) == b
  {
  }

  lemma EnterEarlierAt(f: Table, x: bv32, b: bv32)
    requires LinearAt(f, x, Up(b)) && ShiftsAt(f, Up(b)) && b < 0x100_0000
    ensures Xor(f(x), b) == f(Xor(x, Up(b)))
  {
    ShiftBack(b);
  }

  /** What enters one step later could as well have entered now, one byte further up. */
  lemma EnterEarlier(f: Table, x: bv32, b: bv32)
    requires IsCrcTable(f) && b < 0x100_0000
    ensures Xor(f(x), b) == f(Xor(x, Up(b)))
  {
    EnterEarlierAt(f, x, b);
  }

  lemma SmallBytes(b: bv8)
    ensures Wide(b) < 0x100_0000 && Up(Wide(b)) < 0x100_0000 && Up(Up(Wide(b))) < 0x100_0000
  {
  }

  lemma NextStep(f: Table, s: bv32, v: Bytes, b: bv8)
    requires IsCrcTable(f)
    ensures Register(f, s, v + [b]) == f(Xor(Register(f, s, v), Wide(b)))
  {
    assert (v + [b])[..|v|] == v;
    TableStepIsBitSerial(f, Register(f, s, v), b);
  }

  lemma Register2(f: Table, s: bv32, v: Bytes, b: bv8, x: bv32)
    requires IsCrcTable(f) && Register(f, s, v) == f(x)
    ensures Register(f, s, v + [b]) == f(f(Xor(x, Up(Wide(b)))))
  {
    NextStep(f, s, v, b);
    SmallBytes(b);
    EnterEarlier(f, x, Wide(b));
  }

  lemma Register3(f: Table, s: bv32, v: Bytes, b: bv8, x: bv32)
    requires IsCrcTable(f) && Register(f, s, v) == f(f(x))
    ensures Register(f, s, v + [b]) == f(f(f(Xor(x, Up(Up(Wide(b)))))))
  {
    NextStep(f, s, v, b);
    SmallBytes(b);
    EnterEarlier(f, f(x), Wide(b));
    EnterEarlier(f, x, Up(Wide(b)));
  }

  lemma Register4(f: Table, s: bv32, v: Bytes, b: bv8, x: bv32)
    requires IsCrcTable(f) && Register(f, s, v) == f(f(f(x)))
    ensures Register(f, s, v + [b]) == f(f(f(f(Xor(x, Up(Up(Up(Wide(b)))))))))
  {
    NextStep(f, s, v, b);
    SmallBytes(b);
    EnterEarlier(f, f(f(x)), Wide(b));
    EnterEarlier(f, f(x), Up(Wide(b)));
    EnterEarlier(f, x, Up(Up(Wide(b))));
  }

  /** Four steps are four applications of the table function to the word that the bytes form. */
  lemma RegisterOfWord(f: Table, s: bv32, a: bv8, b: bv8, c: bv8, d: bv8)
    requires IsCrcTable(f)
    ensures Register(f, s, [a, b, c, d]) == f(f(f(f(Word(s, a, b, c, d)))))
  {
    var s1 := Xor(s, Wide(a));
    var s2 := Xor(s1, Up(Wide(b)));
    var s3 := Xor(s2, Up(Up(Wide(c))));
    NextStep(f, s, [], a);
    assert [] + [a] == [a] && [a] + [b] == [a, b] && [a, b] + [c] == [a, b, c] && [a, b, c] + [d] == [a, b, c, d];
    Register2(f, s, [a], b, s1);
    Register3(f, s, [a, b], c, s2);
    Register4(f, s, [a, b, c], d, s3);
  }

  lemma InjectiveFourTimes(f: Table, x: bv32, y: bv32)
    requires InjectiveAt(f, f(f(f(x))), f(f(f(y)))) && InjectiveAt(f, f(f(x)), f(f(y)))
    requires InjectiveAt(f, f(x), f(y)) && InjectiveAt(f, x, y)
    requires f(f(f(f(x)))) == f(f(f(f(y))))
    ensures x == y
  {
  }

  lemma WordsAreInjective(f: Table, x: bv32, y: bv32)
    requires IsCrcTable(f) && f(f(f(f(x)))) == f(f(f(f(y))))
    ensures x == y
  {
    InjectiveFourTimes(f, x, y);
  }

  /** Four bytes that differ in any way lead to different states. */
  lemma FourBytesAreInjective(f: Table, s: bv32, v: Bytes, w: Bytes)
    requires IsCrcTable(f) && |v| == 4 && |w| == 4 && Register(f, s, v) == Register(f, s, w)
    ensures v == w
  {
    var a, b, c, d := v[0], v[1], v[2], v[3];
    var a', b', c', d' := w[0], w[1], w[2], w[3];
    assert v == [a, b, c, d] && w == [a', b', c', d'];
    RegisterOfWord(f, s, a, b, c, d);
    RegisterOfWord(f, s, a', b', c', d');
    WordsAreInjective(f, Word(s, a, b, c, d), Word(s, a', b', c', d'));
    WordIsInjective(s, a, b, c, d, a', b', c', d');
  }

  lemma BurstChangesRegister(f: Table, s: bv32, v: Bytes, w: Bytes, i: nat)
    requires IsCrcTable(f) && |v| == |w| && i + 4 <= |v| && v != w
    requires v[..i] == w[..i] && v[i + 4..] == w[i + 4..]
    ensures Register(f, s, v) != Register(f, s, w)
  {
    var t := Register(f, s, v[..i]);
    var v4, w4, rest := v[i..i + 4], w[i..i + 4], v[i + 4..];
    assert v == v[..i] + v4 + rest && w == w[..i] + w4 + rest;
    RegisterConcat(f, s, v[..i] + v4, rest);
    RegisterConcat(f, s, w[..i] + w4, rest);
    RegisterConcat(f, s, v[..i], v4);
    RegisterConcat(f, s, w[..i], w4);
    if Register(f, s, v) == Register(f, s, w) {
      RegisterIsInjective(f, Register(f, t, v4), Register(f, t, w4), rest);
      FourBytesAreInjective(f, t, v4, w4);
    }
  }

  /** Any change confined to four adjacent bytes changes the CRC. */
  lemma BurstChangesCrc(v: Bytes, w: Bytes, i: nat)
    requires |v| == |w| && i + 4 <= |v| && v != w
    requires v[..i] == w[..i] && v[i + 4..] == w[i + 4..]
    ensures Crc(v) != Crc(w)
  {
    IeeeTableIsCrcTable();
    BurstChangesRegister(IeeeTable(), 0xFFFF_FFFF, v, w, i);
    if Crc(v) == Crc(w) {
      XorCancels(Register(IeeeTable(), 0xFFFF_FFFF, v), Register(IeeeTable(), 0xFFFF_FFFF, w), 0xFFFF_FFFF);
    }
  }

  // ----- what is accepted -----

  /** The valid tokens are exactly the marked keys of the right length, followed by their own checksum. */
  lemma ValidTokens(token: Bytes)
    ensures IsValid(token).Some? <==>
      |token| >= 41 && token[..4] == Ascii("drg_") && token == token[..41] + Checksum(token[..41])
    ensures IsValid(token).Some? ==> IsValid(token).value == token[..10]
  {
    MarksAreAscii();
    if |token| >= MIN_TOKEN_LENGTH {
      ChecksumIsShort(token[..MIN_TOKEN_LENGTH]);
      assert token == token[..MIN_TOKEN_LENGTH] + token[MIN_TOKEN_LENGTH..];
    }
  }

  function Ascii(s: string): Bytes {
    seq(|s|, i requires 0 <= i < |s| => (s[i] as int % 128) as bv8)
  }

  lemma MarksAreAscii()
    ensures Ascii("drg_") == MARK && Ascii("_") == [95]
  {
    AsciiCodes();
  }

  lemma AsciiCodes()
    ensures 'd' as int % 128 == 100 && 'r' as int % 128 == 114 && 'g' as int % 128 == 103 && '_' as int % 128 == 95
    ensures 100 as bv8 == (100 as int) as bv8 && 114 as bv8 == (114 as int) as bv8
    ensures 103 as bv8 == (103 as int) as bv8 && 95 as bv8 == (95 as int) as bv8
  {
  }

  /** The checksum is the CRC of the key, as a number in base 62. */
  lemma ChecksumDenotesCrc(key: Bytes)
    ensures Value(Checksum(key)) == Crc(key) as nat
  {
    EncodeReadsBack(Crc(key) as nat);
  }

  /** A serialized token is valid, and gives its prefix back. */
  lemma TokenRoundTrip(prefix: Bytes, key: Bytes)
    requires |prefix| == 10 && prefix[..4] == Ascii("drg_") && |key| == 30
    ensures SerializeToken(prefix, key) == prefix + Ascii("_") + key + Checksum(prefix + Ascii("_") + key)
    ensures IsValid(SerializeToken(prefix, key)) == Some(prefix)
  {
    MarksAreAscii();
    var body := prefix + [95] + key;
    var token := SerializeToken(prefix, key);
    assert token[..MIN_TOKEN_LENGTH] == body && token[..4] == MARK && token[..PREFIX_LENGTH + 4] == prefix;
    ValidTokens(token);
  }

  /** Errors are detected: if a valid token is changed only within four adjacent bytes of its first 41, or only
      in its checksum, the result is not valid. */
  lemma CorruptionIsDetected(token: Bytes, other: Bytes, i: nat)
    requires IsValid(token).Some? && |other| == |token| && other != token
    requires i + 4 <= 41 && other[..i] == token[..i]
    requires other[i + 4..] == token[i + 4..] || other[..41] == token[..41]
    ensures IsValid(other) == None
  {
    var k, k' := token[..MIN_TOKEN_LENGTH], other[..MIN_TOKEN_LENGTH];
    if k == k' {
      SameParts(token, other);
    } else {
      SameTail(token, other, i);
      ChecksumsDiffer(k, k', i);
    }
  }

  lemma SameParts(token: Bytes, other: Bytes)
    requires |token| == |other| >= MIN_TOKEN_LENGTH
    requires token[..MIN_TOKEN_LENGTH] == other[..MIN_TOKEN_LENGTH]
    ensures token[MIN_TOKEN_LENGTH..] == other[MIN_TOKEN_LENGTH..] ==> token == other
  {
    assert token == token[..MIN_TOKEN_LENGTH] + token[MIN_TOKEN_LENGTH..];
    assert other == other[..MIN_TOKEN_LENGTH] + other[MIN_TOKEN_LENGTH..];
  }

  lemma ChecksumsDiffer(k: Bytes, k': Bytes, i: nat)
    requires |k| == |k'| && i + 4 <= |k| && k != k' && k[..i] == k'[..i] && k[i + 4..] == k'[i + 4..]
    ensures Checksum(k) != Checksum(k')
  {
    BurstChangesCrc(k, k', i);
    if Checksum(k) == Checksum(k') {
      CrcIsDetermined(k, k');
    }
  }

  lemma SameTail(token: Bytes, other: Bytes, i: nat)
    requires |token| == |other| && i + 4 <= MIN_TOKEN_LENGTH <= |token|
    requires other[..i] == token[..i] && other[i + 4..] == token[i + 4..]
    ensures var k, k' := token[..MIN_TOKEN_LENGTH], other[..MIN_TOKEN_LENGTH];
      k[..i] == k'[..i] && k[i + 4..] == k'[i + 4..] && token[MIN_TOKEN_LENGTH..] == other[MIN_TOKEN_LENGTH..]
  {
    var n := MIN_TOKEN_LENGTH - (i + 4);
    assert token[i + 4..][n..] == token[MIN_TOKEN_LENGTH..] && other[i + 4..][n..] == other[MIN_TOKEN_LENGTH..];
    assert token[..MIN_TOKEN_LENGTH][i + 4..] == token[i + 4..][..n];
    assert other[..MIN_TOKEN_LENGTH][i + 4..] == other[i + 4..][..n];
    assert token[..MIN_TOKEN_LENGTH][..i] == token[..i] && other[..MIN_TOKEN_LENGTH][..i] == other[..i];
  }

  lemma CrcIsDetermined(k: Bytes, k': Bytes)
    requires Checksum(k) == Checksum(k')
    ensures Crc(k) == Crc(k')
  {
    EncodeIsInjective(Crc(k) as nat, Crc(k') as nat);
    assert (Crc(k) as nat) as bv32 == Crc(k) && (Crc(k') as nat) as bv32 == Crc(k');
  }
}
