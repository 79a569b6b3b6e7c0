/** The CRC-32 of section 8 of RFC 1952, computed bit by bit. */
module Crc32 {
  const POLYNOMIAL: bv32 := 0xEDB8_8320

  // Exclusive or is addition here; the names keep bit-vector reasoning inside small lemmas.

  function Add(a: bv32, b: bv32): bv32 {
    a ^ b
  }

  function Twice(a: bv32): bv32 {
    a << 1
  }

  function Half(a: bv32): bv32 {
    a >> 1
  }

  predicate Odd(a: bv32) {
    a & 1 == 1
  }

  predicate TopClear(a: bv32) {
    a & 0x8000_0000 == 0
  }

  /** What a bit step adds to the shifted register. */
  function Feedback(odd: bool): bv32 {
    if odd then POLYNOMIAL else 0
  }

  /** One bit step of the register. */
  function Shift(crc: bv32): bv32 {
    Add(Half(crc), Feedback(Odd(crc)))
  }

  function Shifts(crc: bv32, n: nat): bv32
    decreases n
  {
    if n == 0 then crc else Shifts(Shift(crc), n - 1)
  }

  function Update(crc: bv32, b: bv8): bv32 {
    Shifts(crc ^ (b as bv32), 8)
  }

  function Register(data: seq<bv8>): bv32 {
    if data == [] then 0xFFFF_FFFF else Update(Register(data[..|data| - 1]), data[|data| - 1])
  }

  function Crc(data: seq<bv8>): bv32 {
    !Register(data)
  }

  /** The code selects the polynomial by masking it with the negated low bit. */
  lemma MaskedPolynomial(crc: bv32)
    ensures Shift(crc) == (crc >> 1) ^ (POLYNOMIAL & (0 - (crc & 1)))
  {
    if crc & 1 == 1 {
      assert 0 - (crc & 1) == 0xFFFF_FFFF;
    } else {
      assert crc & 1 == 0;
    }
  }

  // one byte of crc32_calc
  method AddByte(before: bv32, b: bv8) returns (crc: bv32)
    ensures crc == Update(before, b)
  {
    crc := before ^ (b as bv32);
    for j := 0 to 8
      invariant Shifts(crc, 8 - j) == Update(before, b)
    {
      MaskedPolynomial(crc);
      crc := (crc >> 1) ^ (POLYNOMIAL & (0 - (crc & 1)));
    }
  }

  // crc32_calc
  method Calc(data: array<bv8>, len: nat) returns (r: bv32)
    requires len <= data.Length
    ensures r == Crc(data[..len])
  {
    hide Update;
    var crc: bv32 := 0xFFFF_FFFF;
    for i := 0 to len
      invariant crc == Register(data[..i])
    {
      assert data[..i + 1][..i] == data[..i];
      crc := AddByte(crc, data[i]);
    }
    r := !crc;
  }

  // ---- The register as a machine over single bits, least significant bit of each byte first ----

  function Bit(b: bool): bv32 {
    if b then 1 else 0
  }

  function BitStep(crc: bv32, bit: bool): bv32 {
    Shift(Add(crc, Bit(bit)))
  }

  function BitSteps(crc: bv32, bits: seq<bool>): bv32
    decreases |bits|
  {
    if bits == [] then crc else BitSteps(BitStep(crc, bits[0]), bits[1..])
  }

  /** The `n` low bits of a word. */
  function LowBits(w: bv32, n: nat): (r: seq<bool>)
    ensures |r| == n
    decreases n
  {
    if n == 0 then [] else [Odd(w)] + LowBits(Half(w), n - 1)
  }

  function ByteBits(b: bv8): (r: seq<bool>)
    ensures |r| == 8
  {
    LowBits(b as bv32, 8)
  }

  function Bits(data: seq<bv8>): (r: seq<bool>)
    ensures |r| == 8 * |data|
  {
    if data == [] then [] else Bits(data[..|data| - 1]) + ByteBits(data[|data| - 1])
  }

  lemma XorAssociates(a: bv32, b: bv32, c: bv32)
    ensures (a ^ b) ^ c == a ^ (b ^ c)
  {
  }

  lemma AddAssociates(a: bv32, b: bv32, c: bv32)
    ensures Add(Add(a, b), c) == Add(a, Add(b, c))
  {
    XorAssociates(a, b, c);
  }

  lemma AddFacts(a: bv32, b: bv32)
    ensures Add(a, b) == Add(b, a) && Add(a, 0) == a
  {
  }

  lemma AddSame(a: bv32, b: bv32)
    ensures Add(a, b) == 0 <==> a == b
  {
  }

  lemma AddRegroup(x: bv32, y: bv32, p: bv32, q: bv32)
    ensures Add(Add(x, p), Add(y, q)) == Add(Add(x, y), Add(p, q))
  {
    hide Add;
    AddAssociates(x, p, Add(y, q));
    AddAssociates(p, y, q);
    AddFacts(p, y);
    AddAssociates(y, p, q);
    AddAssociates(x, y, Add(p, q));
  }

  lemma HalfOdd(a: bv32, b: bv32)
    ensures Half(Add(a, b)) == Add(Half(a), Half(b))
    ensures Odd(Add(a, b)) <==> Odd(a) != Odd(b)
  {
  }

  lemma FeedbackXor(p: bool, q: bool)
    ensures Add(Feedback(p), Feedback(q)) == Feedback(p != q)
    ensures Add(Bit(p), Bit(q)) == Bit(p != q)
  {
    if p {
      if q {
      }
    }
  }

  /** The bit step is linear. */
  lemma ShiftIsLinear(a: bv32, b: bv32)
    ensures Shift(Add(a, b)) == Add(Shift(a), Shift(b))
  {
    hide Add, Half, Odd, Feedback;
    HalfOdd(a, b);
    FeedbackXor(Odd(a), Odd(b));
    AddRegroup(Half(a), Half(b), Feedback(Odd(a)), Feedback(Odd(b)));
  }

  /** A register whose top bit is clear after a step had its low bit clear before, so the step was a shift. */
  lemma ShiftBack(crc: bv32)
    requires TopClear(Shift(crc))
    ensures crc == Twice(Shift(crc))
  {
    if crc & 1 == 1 {
      assert false;
    }
  }

  lemma {:induction false} BitStepsSplit(crc: bv32, s: seq<bool>, t: seq<bool>)
    ensures BitSteps(crc, s + t) == BitSteps(BitSteps(crc, s), t)
    decreases |s|
  {
    hide BitStep;
    if s == [] {
      assert s + t == t;
    } else {
      assert (s + t)[1..] == s[1..] + t;
      BitStepsSplit(BitStep(crc, s[0]), s[1..], t);
    }
  }

  /** `n` right shifts leave nothing of `w`. */
  predicate Fits(w: bv32, n: nat)
    decreases n
  {
    if n == 0 then w == 0 else Fits(Half(w), n - 1)
  }

  lemma ByteFits(b: bv8)
    ensures Fits(b as bv32, 8)
  {
    var w := b as bv32;
    var w2 := Half(Half(w));
    var w4 := Half(Half(w2));
    var w6 := Half(Half(w4));
    assert Half(Half(w6)) == 0;
    assert Fits(w6, 2);
    assert Fits(w4, 4);
    assert Fits(w2, 6);
  }

  lemma OneIsLow()
    ensures Half(1) == 0 && Odd(1)
  {
  }

  lemma ClearLow(w: bv32)
    requires Odd(w)
    ensures !Odd(Add(w, 1)) && Half(Add(w, 1)) == Half(w) && Add(1, Add(w, 1)) == w
  {
    hide Add, Half, Odd;
    OneIsLow();
    HalfOdd(w, 1);
    AddFacts(Half(w), 0);
    AddFacts(Add(w, 1), 1);
    AddCancels(w, 1);
  }

  lemma ShiftEven(w: bv32)
    requires !Odd(w)
    ensures Shift(w) == Half(w)
  {
    assert w & 1 == 0;
  }

  lemma LowAndHigh(w: bv32)
    ensures var high := Add(w, Bit(Odd(w)));
            Shift(high) == Half(w) && w == Add(Bit(Odd(w)), high)
  {
    hide Shift, Add, Half, Odd;
    if Odd(w) {
      ClearLow(w);
      ShiftEven(Add(w, 1));
    } else {
      AddFacts(w, 0);
      ShiftEven(w);
    }
  }

  lemma LowBitFirst(crc: bv32, w: bv32)
    ensures Shift(Add(crc, w)) == Add(BitStep(crc, Odd(w)), Half(w))
  {
    hide Shift, Bit, Add, Half, Odd;
    var low := Bit(Odd(w));
    var high := Add(w, low);
    LowAndHigh(w);
    AddAssociates(crc, low, high);
    ShiftIsLinear(Add(crc, low), high);
  }

  /** Taking a word at once and shifting is taking its bits one by one. */
  lemma {:induction false} WordAsBits(crc: bv32, w: bv32, n: nat)
    requires Fits(w, n)
    ensures Shifts(Add(crc, w), n) == BitSteps(crc, LowBits(w, n))
    decreases n
  {
    hide BitStep, Shift, Add, Half, Odd;
    if n == 0 {
      AddFacts(crc, crc);
    } else {
      LowBitFirst(crc, w);
      WordAsBits(BitStep(crc, Odd(w)), Half(w), n - 1);
      assert LowBits(w, n)[1..] == LowBits(Half(w), n - 1);
    }
  }

  lemma UpdateAsBits(crc: bv32, b: bv8)
    ensures Update(crc, b) == BitSteps(crc, ByteBits(b))
  {
    hide Shifts, BitSteps, LowBits, Fits;
    ByteFits(b);
    WordAsBits(crc, b as bv32, 8);
  }

  lemma {:induction false} RegisterAsBits(data: seq<bv8>)
    ensures Register(data) == BitSteps(0xFFFF_FFFF, Bits(data))
  {
    hide Update, BitSteps, LowBits;
    if data == [] {
      NoBits(0xFFFF_FFFF);
    } else {
      var before, last := data[..|data| - 1], data[|data| - 1];
      RegisterAsBits(before);
      UpdateAsBits(Register(before), last);
      BitStepsSplit(0xFFFF_FFFF, Bits(before), ByteBits(last));
    }
  }

  lemma NoBits(crc: bv32)
    ensures BitSteps(crc, []) == crc
  {
  }

  // ---- Bursts ----

  /** The bits that differ. */
  function Difference(s: seq<bool>, t: seq<bool>): (r: seq<bool>)
    requires |s| == |t|
    ensures |r| == |s|
  {
    seq(|s|, i requires 0 <= i < |s| => s[i] != t[i])
  }

  lemma BitStepIsLinear(c: bv32, d: bv32, b: bool, e: bool)
    ensures Add(BitStep(c, b), BitStep(d, e)) == BitStep(Add(c, d), b != e)
  {
    hide Shift, Add, Bit;
    ShiftIsLinear(Add(c, Bit(b)), Add(d, Bit(e)));
    AddRegroup(c, d, Bit(b), Bit(e));
    FeedbackXor(b, e);
  }

  /** How two runs over different bits drift apart depends on the difference alone. */
  lemma {:induction false} DriftIsLinear(c: bv32, d: bv32, s: seq<bool>, t: seq<bool>)
    requires |s| == |t|
    ensures Add(BitSteps(c, s), BitSteps(d, t)) == BitSteps(Add(c, d), Difference(s, t))
    decreases |s|
  {
    hide BitStep, Add;
    if s != [] {
      BitStepIsLinear(c, d, s[0], t[0]);
      DriftIsLinear(BitStep(c, s[0]), BitStep(d, t[0]), s[1..], t[1..]);
      assert Difference(s, t)[1..] == Difference(s[1..], t[1..]);
    }
  }

  /** The word whose bits these are, the first one lowest. */
  function Word(bits: seq<bool>): bv32
    decreases |bits|
  {
    if bits == [] then 0 else Add(Twice(Word(bits[1..])), Bit(bits[0]))
  }

  lemma {:induction false} FitsMore(w: bv32, n: nat, m: nat)
    requires n <= m && Fits(w, n)
    ensures Fits(w, m)
    decreases m
  {
    if n == 0 {
      if m > 0 {
        assert Half(0) == 0;
        FitsMore(0, 0, m - 1);
      }
    } else {
      FitsMore(Half(w), n - 1, m - 1);
    }
  }

  lemma HalfSubset(w: bv32, m: bv32)
    requires m & !w == 0
    ensures Half(m) & !Half(w) == 0
  {
  }

  lemma {:induction false} FitsSubset(w: bv32, m: bv32, n: nat)
    requires m & !w == 0 && Fits(w, n)
    ensures Fits(m, n)
    decreases n
  {
    if n == 0 {
      SubsetOfZero(m);
    } else {
      HalfSubset(w, m);
      FitsSubset(Half(w), Half(m), n - 1);
    }
  }

  lemma SubsetOfZero(m: bv32)
    requires m & !(0 as bv32) == 0
    ensures m == 0
  {
  }

  lemma TopDoesNotFit()
    ensures !Fits(0x8000_0000, 31)
  {
    assert !Fits(2, 1);
    assert !Fits(0x8, 3);
    assert !Fits(0x20, 5);
    assert !Fits(0x80, 7);
    assert !Fits(0x200, 9);
    assert !Fits(0x800, 11);
    assert !Fits(0x2000, 13);
    assert !Fits(0x8000, 15);
    assert !Fits(0x2_0000, 17);
    assert !Fits(0x8_0000, 19);
    assert !Fits(0x20_0000, 21);
    assert !Fits(0x80_0000, 23);
    assert !Fits(0x200_0000, 25);
    assert !Fits(0x800_0000, 27);
    assert !Fits(0x2000_0000, 29);
  }

  lemma TopBit(w: bv32)
    ensures TopClear(w) || 0x8000_0000 & !w == 0
  {
  }

  /** A word of at most 31 bits has its top bit clear. */
  lemma FitsTopClear(w: bv32, n: nat)
    requires n <= 31 && Fits(w, n)
    ensures TopClear(w)
  {
    hide Fits, TopClear;
    TopBit(w);
    if !TopClear(w) {
      FitsMore(w, n, 31);
      FitsSubset(w, 0x8000_0000, 31);
      TopDoesNotFit();
    }
  }

  lemma HalfTwice(w: bv32)
    requires TopClear(w)
    ensures Half(Twice(w)) == w
  {
  }

  lemma TwiceEven(w: bv32)
    ensures !Odd(Twice(w))
  {
  }

  lemma AddOne(w: bv32)
    requires !Odd(w)
    ensures Odd(Add(w, 1)) && Half(Add(w, 1)) == Half(w)
  {
  }

  lemma HalfOfTwice(w: bv32, b: bool)
    requires TopClear(w)
    ensures Half(Add(Twice(w), Bit(b))) == w && Odd(Add(Twice(w), Bit(b))) == b
  {
    hide Half, Odd, Add, Twice, TopClear;
    HalfTwice(w);
    TwiceEven(w);
    AddOne(Twice(w));
    AddFacts(Twice(w), 0);
    if b {
    }
  }

  lemma {:induction false} WordFits(bits: seq<bool>)
    requires |bits| <= 32
    ensures Fits(Word(bits), |bits|)
    decreases |bits|
  {
    hide Half, Twice, Add, Bit;
    if bits != [] {
      WordFits(bits[1..]);
      FitsTopClear(Word(bits[1..]), |bits| - 1);
      HalfOfTwice(Word(bits[1..]), bits[0]);
    }
  }

  /** A register that at most 32 bits drive to zero held exactly these bits. */
  lemma {:induction false} DrivenToZero(crc: bv32, bits: seq<bool>)
    requires |bits| <= 32 && BitSteps(crc, bits) == 0
    ensures crc == Word(bits)
    decreases |bits|
  {
    hide Shift, Add, Twice, Bit, Fits, TopClear;
    if bits != [] {
      var bit := Bit(bits[0]);
      var next := BitStep(crc, bits[0]);
      DrivenToZero(next, bits[1..]);
      WordFits(bits[1..]);
      FitsTopClear(next, |bits| - 1);
      ShiftBack(Add(crc, bit));
      AddCancels(crc, bit);
    }
  }

  lemma AddCancels(a: bv32, b: bv32)
    ensures Add(Add(a, b), b) == a
  {
  }

  lemma {:induction false} ZeroWord(bits: seq<bool>)
    requires |bits| <= 32 && Word(bits) == 0
    ensures AllClear(bits)
    decreases |bits|
  {
    hide Half, Twice, Add, Bit, Fits, TopClear, Odd;
    if bits != [] {
      WordFits(bits[1..]);
      FitsTopClear(Word(bits[1..]), |bits| - 1);
      HalfOfTwice(Word(bits[1..]), bits[0]);
      ZeroIsEven();
      ZeroWord(bits[1..]);
    }
  }

  lemma ZeroIsEven()
    ensures Half(0) == 0 && !Odd(0) && Shift(0) == 0 && TopClear(0) && Twice(0) == 0 && Bit(false) == 0
  {
  }

  lemma {:induction false} ZeroStaysZero(bits: seq<bool>)
    requires AllClear(bits)
    ensures BitSteps(0, bits) == 0
    decreases |bits|
  {
    hide Shift, Add, Bit;
    if bits != [] {
      ZeroIsEven();
      AddFacts(0, 0);
      ZeroStaysZero(bits[1..]);
    }
  }

  lemma {:induction false} NonzeroStaysNonzero(crc: bv32, bits: seq<bool>)
    requires crc != 0 && AllClear(bits)
    ensures BitSteps(crc, bits) != 0
    decreases |bits|
  {
    hide Shift, Add, Bit, Twice, TopClear;
    if bits != [] {
      ZeroIsEven();
      AddFacts(crc, 0);
      if Shift(crc) == 0 {
        ShiftBack(crc);
      }
      NonzeroStaysNonzero(BitStep(crc, bits[0]), bits[1..]);
    }
  }

  predicate AllClear(bits: seq<bool>) {
    forall i :: 0 <= i < |bits| ==> !bits[i]
  }

  /** An error of at most 32 bits, with no error before and behind it, leaves a nonzero trace in the register. */
  lemma BurstLeavesTrace(before: seq<bool>, burst: seq<bool>, after: seq<bool>)
    requires AllClear(before) && AllClear(after) && !AllClear(burst) && |burst| <= 32
    ensures BitSteps(0, before + (burst + after)) != 0
  {
    hide BitSteps, Word;
    BitStepsSplit(0, before, burst + after);
    ZeroStaysZero(before);
    BitStepsSplit(0, burst, after);
    if BitSteps(0, burst) == 0 {
      DrivenToZero(0, burst);
      ZeroWord(burst);
      assert false;
    }
    NonzeroStaysNonzero(BitSteps(0, burst), after);
  }

  /** `s` and `t` differ nowhere but in the `n` bits from `k` on. */
  predicate DifferWithin(s: seq<bool>, t: seq<bool>, k: nat, n: nat) {
    |s| == |t| && k + n <= |s| && forall i :: 0 <= i < |s| && !(k <= i < k + n) ==> s[i] == t[i]
  }

  lemma ThreeParts(s: seq<bool>, k: nat, n: nat)
    requires k + n <= |s|
    ensures s == s[..k] + (s[k..k + n] + s[k + n..])
  {
  }

  /** The difference of such messages is a burst. */
  lemma ErrorIsBurst(s: seq<bool>, t: seq<bool>, k: nat, n: nat)
    requires DifferWithin(s, t, k, n) && s != t
    ensures var error := Difference(s, t);
            AllClear(error[..k]) && AllClear(error[k + n..]) && !AllClear(error[k..k + n])
  {
    var error := Difference(s, t);
    var i :| 0 <= i < |s| && s[i] != t[i];
    assert error[k..k + n][i - k];
  }

  lemma BurstSeparates(crc: bv32, s: seq<bool>, t: seq<bool>, k: nat, n: nat)
    requires DifferWithin(s, t, k, n) && s != t && n <= 32
    ensures BitSteps(crc, s) != BitSteps(crc, t)
  {
    hide BitSteps, Add, AllClear, Difference, DifferWithin;
    DifferLength(s, t, k, n);
    var error := Difference(s, t);
    ErrorIsBurst(s, t, k, n);
    ThreeParts(error, k, n);
    BurstLeavesTrace(error[..k], error[k..k + n], error[k + n..]);
    DriftIsLinear(crc, crc, s, t);
    AddSame(crc, crc);
    AddSame(BitSteps(crc, s), BitSteps(crc, t));
  }

  lemma DifferLength(s: seq<bool>, t: seq<bool>, k: nat, n: nat)
    requires DifferWithin(s, t, k, n)
    ensures |s| == |t| && k + n <= |s|
  {
  }

  /** The bits of a word of at most `n` bits are the word. */
  lemma {:induction false} LowBitsInjective(a: bv32, b: bv32, n: nat)
    requires Fits(a, n) && Fits(b, n) && LowBits(a, n) == LowBits(b, n)
    ensures a == b
    decreases n
  {
    hide Half, Odd;
    if n > 0 {
      var s, t := LowBits(a, n), LowBits(b, n);
      assert s[0] == Odd(a) && t[0] == Odd(b);
      assert s[1..] == LowBits(Half(a), n - 1) && t[1..] == LowBits(Half(b), n - 1);
      LowBitsInjective(Half(a), Half(b), n - 1);
      HalvesAndOdds(a, b);
    }
  }

  lemma HalvesAndOdds(a: bv32, b: bv32)
    requires Half(a) == Half(b) && Odd(a) == Odd(b)
    ensures a == b
  {
    hide Half, Odd, Add, Twice, Bit;
    RestoreWord(a);
    RestoreWord(b);
  }

  lemma SplitWord(a: bv32)
    ensures a == ((a >> 1) << 1) ^ (a & 1)
    ensures a & 1 == 0 || a & 1 == 1
  {
  }

  lemma RestoreWord(a: bv32)
    ensures a == Add(Twice(Half(a)), Bit(Odd(a)))
  {
    SplitWord(a);
  }

  lemma WideBytesDiffer(b: bv8, c: bv8)
    requires b as bv32 == c as bv32
    ensures b == c
  {
  }

  lemma BytesBits(b: bv8, c: bv8)
    ensures ByteBits(b) == ByteBits(c) ==> b == c
  {
    hide LowBits, Fits;
    ByteFits(b);
    ByteFits(c);
    if ByteBits(b) == ByteBits(c) {
      LowBitsInjective(b as bv32, c as bv32, 8);
      WideBytesDiffer(b, c);
    }
  }

  lemma SameParts(a: seq<bool>, b: seq<bool>, c: seq<bool>, d: seq<bool>)
    requires |a| == |c| && a + b == c + d
    ensures a == c && b == d
  {
    assert a == (a + b)[..|a|] && c == (c + d)[..|a|];
    assert b == (a + b)[|a|..] && d == (c + d)[|a|..];
  }

  /** Different messages have different bits. */
  lemma {:induction false} BitsInjective(s: seq<bv8>, t: seq<bv8>)
    requires |s| == |t| && Bits(s) == Bits(t)
    ensures s == t
  {
    hide ByteBits;
    if s != [] {
      var n := |s| - 1;
      SameParts(Bits(s[..n]), ByteBits(s[n]), Bits(t[..n]), ByteBits(t[n]));
      BitsInjective(s[..n], t[..n]);
      BytesBits(s[n], t[n]);
      assert s == s[..n] + [s[n]] && t == t[..n] + [t[n]];
    }
  }

  /** Every burst of up to 32 bits is detected: two messages of equal length that differ, and differ only
      within 32 consecutive bits at whatever offset, have different checksums. */
  lemma BurstsAreDetected(s: seq<bv8>, t: seq<bv8>, k: nat, n: nat)
    requires |s| == |t| && s != t && n <= 32 && DifferWithin(Bits(s), Bits(t), k, n)
    ensures Crc(s) != Crc(t)
  {
    hide Bits, BitSteps, Register, DifferWithin;
    if Bits(s) == Bits(t) {
      BitsInjective(s, t);
    }
    RegisterAsBits(s);
    RegisterAsBits(t);
    BurstSeparates(0xFFFF_FFFF, Bits(s), Bits(t), k, n);
    ComplementsDiffer(Register(s), Register(t));
  }

  lemma {:induction false} BitsSplit(s: seq<bv8>, t: seq<bv8>)
    ensures Bits(s + t) == Bits(s) + Bits(t)
  {
    hide ByteBits;
    if t == [] {
      assert s + t == s;
    } else {
      var n := |t| - 1;
      assert (s + t)[..|s + t| - 1] == s + t[..n];
      BitsSplit(s, t[..n]);
    }
  }

  /** In bytes: two messages that differ only within four consecutive bytes have different checksums. */
  lemma FourBytesAreDetected(before: seq<bv8>, b: seq<bv8>, c: seq<bv8>, after: seq<bv8>)
    requires |b| == |c| <= 4 && b != c
    ensures Crc(before + b + after) != Crc(before + c + after)
  {
    hide Bits, Crc;
    var s, t, k := before + b + after, before + c + after, |before|;
    assert s[k..k + |b|] == b && t[k..k + |b|] == c;
    BitsSplit(before + b, after);
    BitsSplit(before, b);
    BitsSplit(before + c, after);
    BitsSplit(before, c);
    BitsDifferWithin(Bits(before), Bits(b), Bits(c), Bits(after));
    BurstsAreDetected(s, t, 8 * k, 8 * |b|);
  }

  lemma BitsDifferWithin(before: seq<bool>, b: seq<bool>, c: seq<bool>, after: seq<bool>)
    requires |b| == |c|
    ensures DifferWithin(before + b + after, before + c + after, |before|, |b|)
  {
  }

  lemma ComplementsDiffer(a: bv32, b: bv32)
    requires a != b
    ensures !a != !b
  {
  }

  // ---- A message followed by its checksum ----

  function Halves(w: bv32, n: nat): bv32
    decreases n
  {
    if n == 0 then w else Halves(Half(w), n - 1)
  }

  lemma {:induction false} LowBitsSplit(w: bv32, n: nat, m: nat)
    ensures LowBits(w, n + m) == LowBits(w, n) + LowBits(Halves(w, n), m)
    decreases n
  {
    hide Half, Odd;
    if n == 0 {
      assert [] + LowBits(w, m) == LowBits(w, m);
    } else {
      LowBitsSplit(Half(w), n - 1, m);
      var b := [Odd(w)];
      assert b + (LowBits(Half(w), n - 1) + LowBits(Halves(w, n), m))
             == b + LowBits(Half(w), n - 1) + LowBits(Halves(w, n), m);
    }
  }

  /** The mask leaves the `n` low bits alone. */
  predicate Ones(m: bv32, n: nat)
    decreases n
  {
    n == 0 || (Odd(m) && Ones(Half(m), n - 1))
  }

  function And(a: bv32, b: bv32): bv32 {
    a & b
  }

  lemma HalfAnd(w: bv32, m: bv32)
    ensures Half(And(w, m)) == And(Half(w), Half(m)) && (Odd(m) ==> Odd(And(w, m)) == Odd(w))
  {
  }

  lemma {:induction false} LowBitsMasked(w: bv32, m: bv32, n: nat)
    requires Ones(m, n)
    ensures LowBits(And(w, m), n) == LowBits(w, n)
    decreases n
  {
    hide Half, Odd, And;
    if n > 0 {
      HalfAnd(w, m);
      LowBitsMasked(Half(w), Half(m), n - 1);
    }
  }

  lemma LowByteOnes()
    ensures Ones(0xFF, 8)
  {
    assert Ones(0x3, 2);
    assert Ones(0xF, 4);
    assert Ones(0x3F, 6);
  }

  /** The bytes of a word, lowest first. */
  predicate IsWord(w: bv32, b: seq<bv8>) {
    && |b| == 4
    && b[0] as bv32 == w & 0xFF
    && b[1] as bv32 == (w >> 8) & 0xFF
    && b[2] as bv32 == (w >> 16) & 0xFF
    && b[3] as bv32 == (w >> 24) & 0xFF
  }

  function NextByte(w: bv32): bv32 {
    w >> 8
  }

  lemma WordParts(w: bv32, b: seq<bv8>)
    requires IsWord(w, b)
    ensures b[0] as bv32 == And(w, 0xFF) && b[1] as bv32 == And(NextByte(w), 0xFF)
    ensures b[2] as bv32 == And(NextByte(NextByte(w)), 0xFF)
    ensures b[3] as bv32 == And(NextByte(NextByte(NextByte(w))), 0xFF)
  {
  }

  lemma ByteOfWord(w: bv32, b: bv8)
    requires b as bv32 == And(w, 0xFF)
    ensures ByteBits(b) == LowBits(w, 8)
  {
    hide LowBits, Ones, And;
    LowByteOnes();
    LowBitsMasked(w, 0xFF, 8);
  }

  lemma EightHalves(w: bv32)
    ensures Halves(w, 8) == NextByte(w)
  {
    var w2 := Half(Half(w));
    var w4 := Half(Half(w2));
    var w6 := Half(Half(w4));
    assert Half(Half(w6)) == w >> 8;
    assert Halves(w6, 2) == w >> 8;
    assert Halves(w4, 4) == w >> 8;
    assert Halves(w2, 6) == w >> 8;
  }

  lemma FirstByte(w: bv32, b: bv8, n: nat)
    requires b as bv32 == And(w, 0xFF)
    ensures LowBits(w, 8 + n) == ByteBits(b) + LowBits(NextByte(w), n)
  {
    hide LowBits, Halves, And, NextByte, ByteBits;
    ByteOfWord(w, b);
    EightHalves(w);
    LowBitsSplit(w, 8, n);
  }

  /** The bits of its four bytes are the bits of the word. */
  lemma WordBits(w: bv32, b: seq<bv8>)
    requires IsWord(w, b)
    ensures Bits(b) == LowBits(w, 32)
  {
    hide LowBits, ByteBits, And, NextByte, Bits;
    WordParts(w, b);
    hide IsWord;
    FirstByte(w, b[0], 24);
    FirstByte(NextByte(w), b[1], 16);
    FirstByte(NextByte(NextByte(w)), b[2], 8);
    ByteOfWord(NextByte(NextByte(NextByte(w))), b[3]);
    FourBytesBits(b);
  }

  lemma OneByteBits(b: bv8)
    ensures Bits([b]) == ByteBits(b)
  {
    hide ByteBits;
    assert [b][..0] == [];
  }

  lemma FourBytesBits(b: seq<bv8>)
    requires |b| == 4
    ensures Bits(b) == ByteBits(b[0]) + (ByteBits(b[1]) + (ByteBits(b[2]) + ByteBits(b[3])))
  {
    hide ByteBits, Bits;
    OneByteBits(b[0]);
    OneByteBits(b[1]);
    OneByteBits(b[2]);
    OneByteBits(b[3]);
    BitsSplit([b[2]], [b[3]]);
    BitsSplit([b[1]], [b[2]] + [b[3]]);
    BitsSplit([b[0]], [b[1]] + ([b[2]] + [b[3]]));
    assert b == [b[0]] + ([b[1]] + ([b[2]] + [b[3]]));
  }

  lemma AllFit()
    ensures Fits(0xFFFF_FFFF, 32)
  {
    assert Fits(0x3, 2);
    assert Fits(0xF, 4);
    assert Fits(0x3F, 6);
    assert Fits(0xFF, 8);
    assert Fits(0x3FF, 10);
    assert Fits(0xFFF, 12);
    assert Fits(0x3FFF, 14);
    assert Fits(0xFFFF, 16);
    assert Fits(0x3_FFFF, 18);
    assert Fits(0xF_FFFF, 20);
    assert Fits(0x3F_FFFF, 22);
    assert Fits(0xFF_FFFF, 24);
    assert Fits(0x3FF_FFFF, 26);
    assert Fits(0xFFF_FFFF, 28);
    assert Fits(0x3FFF_FFFF, 30);
  }

  lemma WordFitsAll(w: bv32)
    ensures Fits(w, 32)
  {
    hide Fits;
    AllFit();
    assert w & !(0xFFFF_FFFF as bv32) == 0;
    FitsSubset(0xFFFF_FFFF, w, 32);
  }

  lemma CrcCompletes(data: seq<bv8>)
    ensures Add(Register(data), Crc(data)) == 0xFFFF_FFFF
    ensures Register(data) == 0xDEBB_20E3 ==> Crc(data) == 0x2144_DF1C
  {
    hide Register;
  }

  lemma ShiftedOut()
    ensures Shifts(0xFFFF_FFFF, 32) == 0xDEBB20E3
  {
    assert Shifts(0xCC0E8F0E, 2) == 0xDEBB20E3;
    assert Shifts(0x86D830BA, 4) == 0xDEBB20E3;
    assert Shifts(0x76F3C82B, 6) == 0xDEBB20E3;
    assert Shifts(0x00BE26ED, 8) == 0xDEBB20E3;
    assert Shifts(0x02F89BB4, 10) == 0xDEBB20E3;
    assert Shifts(0x0BE26ED0, 12) == 0xDEBB20E3;
    assert Shifts(0x2F89BB40, 14) == 0xDEBB20E3;
    assert Shifts(0xBE26ED00, 16) == 0xDEBB20E3;
    assert Shifts(0x9508BEC3, 18) == 0xDEBB20E3;
    assert Shifts(0x39B1F1CF, 20) == 0xDEBB20E3;
    assert Shifts(0xE6C7C73C, 22) == 0xDEBB20E3;
    assert Shifts(0x2DFD1072, 24) == 0xDEBB20E3;
    assert Shifts(0xB7F441C8, 26) == 0xDEBB20E3;
    assert Shifts(0xB2420DE3, 28) == 0xDEBB20E3;
    assert Shifts(0xA49B3D4F, 30) == 0xDEBB20E3;
    assert Shifts(0xFFFFFFFF, 32) == 0xDEBB20E3;
  }

  /** The residue of RFC 1952's CRC-32: a message followed by its checksum, lowest byte first, has the checksum
      0x2144DF1C, whatever the message. */
  lemma Residue(data: seq<bv8>, b: seq<bv8>)
    requires IsWord(Crc(data), b)
    ensures Crc(data + b) == 0x2144_DF1C
  {
    hide Register, Crc, Bits, BitSteps, LowBits, Shifts, IsWord, Fits, Add;
    RegisterAsBits(data);
    RegisterAsBits(data + b);
    BitsSplit(data, b);
    BitStepsSplit(0xFFFF_FFFF, Bits(data), Bits(b));
    WordBits(Crc(data), b);
    WordFitsAll(Crc(data));
    WordAsBits(Register(data), Crc(data), 32);
    CrcCompletes(data);
    CrcCompletes(data + b);
    ShiftedOut();
  }

  // ---- The checksum of the two bytes the code keeps precompressed ----

  lemma UpdateOpenBrace()
    ensures Update(0xFFFFFFFF, 0x7B) == 0xEA2AB8C6
  {
    assert Shifts(0x1E48EF9A, 2) == 0xEA2AB8C6;
    assert Shifts(0x7923BE68, 4) == 0xEA2AB8C6;
    assert Shifts(0x3FFFFFE1, 6) == 0xEA2AB8C6;
    assert Shifts(0xFFFFFF84, 8) == 0xEA2AB8C6;
  }

  lemma UpdateCloseBrace()
    ensures Update(0xEA2AB8C6, 0x7D) == 0x5C5940BC
  {
    assert Shifts(0xAA1404B1, 2) == 0x5C5940BC;
    assert Shifts(0xC5C31807, 4) == 0x5C5940BC;
    assert Shifts(0xA1EE6C9E, 6) == 0x5C5940BC;
    assert Shifts(0xEA2AB8BB, 8) == 0x5C5940BC;
  }

  lemma CrcOfBraces()
    ensures Crc([0x7B, 0x7D]) == 0xA3A6BF43
  {
    hide Update;
    var s: seq<bv8> := [0x7B, 0x7D];
    assert s[..1] == [0x7B] && s[..1][..0] == [];
    UpdateOpenBrace();
    UpdateCloseBrace();
    assert Register(s[..1]) == 0xEA2AB8C6;
  }
}
