/**
 * Big-endian bit strings, and regrouping them into digits of another width. Shifts and masks are defined one bit at a
 * time, so that everything below is linear arithmetic.
 */
module Bits {
  import opened Seqs

  function Pow2(k: nat): (p: nat)
    ensures p >= 1
  {
    if k == 0 then 1 else 2 * Pow2(k - 1)
  }

  /** `n << k`, on unbounded integers. */
  function ShiftLeft(n: nat, k: nat): nat {
    if k == 0 then n else 2 * ShiftLeft(n, k - 1)
  }

  /** `n >>> k`. */
  function ShiftRight(n: nat, k: nat): nat {
    if k == 0 then n else ShiftRight(n / 2, k - 1)
  }

  /** `n & ((1 << k) - 1)`. */
  function LowBits(n: nat, k: nat): nat {
    if k == 0 then 0 else 2 * LowBits(n / 2, k - 1) + n % 2
  }

  /** The `width` low bits of `n`, most significant first. */
  function BitsOf(n: nat, width: nat): (bits: seq<bool>)
    ensures |bits| == width
  {
    if width == 0 then [] else BitsOf(n / 2, width - 1) + [n % 2 == 1]
  }

  /** The number a bit string stands for. */
  function Num(bits: seq<bool>): nat {
    if bits == [] then 0 else 2 * Num(bits[..|bits| - 1]) + if bits[|bits| - 1] then 1 else 0
  }

  function Zeros(n: nat): (z: seq<bool>)
    ensures |z| == n
  {
    seq(n, _ => false)
  }

  /** Writes each digit with `width` bits. */
  function Spread(digits: seq<nat>, width: nat): seq<bool> {
    if digits == [] then [] else Spread(digits[..|digits| - 1], width) + BitsOf(digits[|digits| - 1], width)
  }

  /** Reads digits of `width` bits; an incomplete group at the end is dropped. */
  function Pack(bits: seq<bool>, width: nat): seq<nat>
    requires width > 0
  {
    if |bits| < width then [] else [Num(bits[..width])] + Pack(bits[width..], width)
  }

  // ---------------------------------------------------------------------------
  // Shifts as arithmetic, for the widths that occur
  // ---------------------------------------------------------------------------

  lemma Powers()
    ensures Pow2(0) == 1 && Pow2(2) == 4 && Pow2(4) == 16 && Pow2(5) == 32 && Pow2(6) == 64 && Pow2(7) == 128
    ensures Pow2(8) == 256
  {
    assert Pow2(4) == 2 * Pow2(3) && Pow2(3) == 2 * Pow2(2);
    assert Pow2(8) == 2 * Pow2(7) && Pow2(7) == 2 * Pow2(6) && Pow2(6) == 2 * Pow2(5);
  }

  lemma LeftFive(n: nat)
    ensures ShiftLeft(n, 5) == 32 * n
  {
    assert ShiftLeft(n, 3) == 2 * ShiftLeft(n, 2) && ShiftLeft(n, 2) == 2 * ShiftLeft(n, 1);
    assert ShiftLeft(n, 5) == 2 * ShiftLeft(n, 4) && ShiftLeft(n, 4) == 2 * ShiftLeft(n, 3);
  }

  lemma LeftSix(n: nat)
    ensures ShiftLeft(n, 6) == 64 * n
  {
    LeftFive(n);
  }

  lemma RightTwoFour(n: nat)
    ensures ShiftRight(n, 2) == n / 4 && LowBits(n, 2) == n % 4
    ensures ShiftRight(n, 4) == n / 16 && LowBits(n, 4) == n % 16
  {
    TwoBits(n);
    TwoBits(n / 4);
    assert n / 2 / 2 == n / 4;
    assert ShiftRight(n, 4) == ShiftRight(n / 2, 3) == ShiftRight(n / 2 / 2, 2);
    assert LowBits(n, 4) == 2 * LowBits(n / 2, 3) + n % 2;
    assert LowBits(n / 2, 3) == 2 * LowBits(n / 4, 2) + n / 2 % 2;
  }

  lemma TwoBits(n: nat)
    ensures ShiftRight(n, 2) == n / 4 && LowBits(n, 2) == n % 4
  {
    assert LowBits(n / 2, 1) == n / 2 % 2;
    assert ShiftRight(n / 2, 1) == n / 2 / 2;
  }

  // ---------------------------------------------------------------------------
  // Numbers and bit strings
  // ---------------------------------------------------------------------------

  lemma {:induction false} NumBound(bits: seq<bool>)
    ensures Num(bits) < Pow2(|bits|)
  {
    if bits != [] { NumBound(bits[..|bits| - 1]); }
  }

  lemma {:induction false} NumConcat(a: seq<bool>, b: seq<bool>)
    ensures Num(a + b) == ShiftLeft(Num(a), |b|) + Num(b)
  {
    if b == [] {
      assert a + b == a;
    } else {
      var n := |b| - 1;
      NumConcat(a, b[..n]);
      assert (a + b)[..|a + b| - 1] == a + b[..n];
      assert (a + b)[|a + b| - 1] == b[n];
    }
  }

  lemma {:induction false} NumBitsOf(n: nat, width: nat)
    requires n < Pow2(width)
    ensures Num(BitsOf(n, width)) == n
  {
    if width > 0 {
      NumBitsOf(n / 2, width - 1);
      assert BitsOf(n, width)[..width - 1] == BitsOf(n / 2, width - 1);
    }
  }

  lemma {:induction false} BitsOfNum(bits: seq<bool>)
    ensures BitsOf(Num(bits), |bits|) == bits
  {
    if bits != [] {
      var n := |bits| - 1;
      BitsOfNum(bits[..n]);
      assert bits == bits[..n] + [bits[n]];
    }
  }

  lemma {:induction false} NumZeros(n: nat)
    ensures Num(Zeros(n)) == 0
  {
    if n > 0 {
      NumZeros(n - 1);
      assert Zeros(n)[..n - 1] == Zeros(n - 1);
    }
  }

  /** A string of bits is all zeros exactly when it stands for zero. */
  lemma ZeroBits(bits: seq<bool>)
    requires Num(bits) == 0
    ensures bits == Zeros(|bits|)
  {
    NumZeros(|bits|);
    BitsOfNum(bits);
    BitsOfNum(Zeros(|bits|));
  }

  lemma CutTail(bits: seq<bool>, low: nat)
    requires 0 < low <= |bits|
    ensures var n, tail := |bits| - 1, bits[|bits| - low..];
            && bits[..n][..n - (low - 1)] == bits[..|bits| - low]
            && tail[..low - 1] == bits[..n][n - (low - 1)..] && tail[low - 1] == bits[n]
  {}

  /** The two parts of a number cut above its `low` lowest bits. */
  lemma {:induction false} CutNum(bits: seq<bool>, low: nat)
    requires low <= |bits|
    ensures ShiftRight(Num(bits), low) == Num(bits[..|bits| - low])
    ensures LowBits(Num(bits), low) == Num(bits[|bits| - low..])
  {
    if low == 0 {
      assert bits[..|bits|] == bits && bits[|bits|..] == [];
    } else {
      var n := |bits| - 1;
      CutNum(bits[..n], low - 1);
      CutTail(bits, low);
      assert Num(bits) / 2 == Num(bits[..n]);
    }
  }

  // ---------------------------------------------------------------------------
  // Regrouping
  // ---------------------------------------------------------------------------

  /** How many groups of `width` there are in `n`, and what is left: quotient and remainder by subtraction. */
  function Groups(n: nat, width: nat): nat
    requires width > 0
  {
    if n < width then 0 else 1 + Groups(n - width, width)
  }

  function Left(n: nat, width: nat): (r: nat)
    requires width > 0
    ensures r < width && r <= n
  {
    if n < width then n else Left(n - width, width)
  }

  lemma {:induction false} GroupsAre(n: nat, width: nat)
    requires width == 5 || width == 6 || width == 8
    ensures Groups(n, width) == n / width && Left(n, width) == n % width
  {
    if n >= width { GroupsAre(n - width, width); }
  }

  lemma {:induction false} LeftAdd(m: nat, n: nat, width: nat)
    requires width > 0 && Left(m, width) == 0
    ensures Left(m + n, width) == Left(n, width)
  {
    if m > 0 { LeftAdd(m - width, n, width); }
  }

  lemma {:induction false} SpreadWhole(digits: seq<nat>, width: nat)
    requires width > 0
    ensures Left(|Spread(digits, width)|, width) == 0
  {
    if digits != [] {
      SpreadWhole(digits[..|digits| - 1], width);
      LeftAdd(|Spread(digits[..|digits| - 1], width)|, width, width);
    }
  }

  lemma {:induction false} SpreadSize(digits: seq<nat>, width: nat)
    requires width == 5 || width == 6 || width == 8
    ensures |Spread(digits, width)| == width * |digits|
  {
    if digits != [] { SpreadSize(digits[..|digits| - 1], width); }
  }

  lemma PackCons(bits: seq<bool>, width: nat)
    requires 0 < width <= |bits|
    ensures Pack(bits, width) == [Num(bits[..width])] + Pack(bits[width..], width)
  {}

  lemma ConsConcat(x: nat, a: seq<nat>, b: seq<nat>)
    ensures [x] + (a + b) == [x] + a + b
  {}

  lemma {:induction false} PackConcat(a: seq<bool>, b: seq<bool>, width: nat)
    requires width > 0 && Left(|a|, width) == 0
    ensures Pack(a + b, width) == Pack(a, width) + Pack(b, width)
    decreases |a|
  {
    if a == [] {
      assert a + b == b;
    } else {
      CutFront(a, b, width);
      PackConcat(a[width..], b, width);
      PackCons(a, width);
      PackCons(a + b, width);
      ConsConcat(Num(a[..width]), Pack(a[width..], width), Pack(b, width));
    }
  }

  lemma PackGroup(group: seq<bool>, width: nat)
    requires width > 0 && |group| == width
    ensures Pack(group, width) == [Num(group)]
  {
    assert group[..width] == group;
  }

  lemma {:induction false} SpreadConcat(a: seq<nat>, b: seq<nat>, width: nat)
    ensures Spread(a + b, width) == Spread(a, width) + Spread(b, width)
  {
    if b == [] {
      assert a + b == a;
    } else {
      var init, last := b[..|b| - 1], b[|b| - 1];
      SpreadConcat(a, init, width);
      assert (a + b)[..|a + b| - 1] == a + init && (a + b)[|a + b| - 1] == last;
      Regroup(Spread(a, width), Spread(init, width), BitsOf(last, width));
    }
  }

  lemma SpreadOne(digit: nat, width: nat)
    ensures Spread([digit], width) == BitsOf(digit, width)
  {
    assert [digit][..0] == [];
    assert Spread([digit], width) == [] + BitsOf(digit, width);
  }

  ghost predicate Fit(digits: seq<nat>, limit: nat) {
    forall i :: 0 <= i < |digits| ==> digits[i] < limit
  }

  /** The contents of a byte array. */
  ghost predicate IsBytes(bytes: seq<nat>) {
    Fit(bytes, 256)
  }

  lemma PackLast(bits: seq<bool>, digit: nat, width: nat)
    requires width > 0 && digit < Pow2(width) && Left(|bits|, width) == 0
    ensures Pack(bits + BitsOf(digit, width), width) == Pack(bits, width) + [digit]
  {
    PackConcat(bits, BitsOf(digit, width), width);
    NumBitsOf(digit, width);
    PackGroup(BitsOf(digit, width), width);
  }

  lemma {:induction false} PackSpread(digits: seq<nat>, width: nat)
    requires width > 0 && Fit(digits, Pow2(width))
    ensures Pack(Spread(digits, width), width) == digits
  {
    if digits != [] {
      var n := |digits| - 1;
      PackSpread(digits[..n], width);
      SpreadWhole(digits[..n], width);
      PackLast(Spread(digits[..n], width), digits[n], width);
      SplitAt(digits, n);
    }
  }

  lemma SpreadCons(digit: nat, rest: seq<nat>, width: nat)
    ensures Spread([digit] + rest, width) == BitsOf(digit, width) + Spread(rest, width)
  {
    SpreadConcat([digit], rest, width);
    SpreadOne(digit, width);
  }

  /** The bits of the complete groups. */
  function Complete(bits: seq<bool>, width: nat): seq<bool>
    requires width > 0
  {
    bits[..|bits| - Left(|bits|, width)]
  }

  lemma CompleteNext(bits: seq<bool>, width: nat)
    requires 0 < width <= |bits|
    ensures Complete(bits, width) == bits[..width] + Complete(bits[width..], width)
  {
    PrefixInTwo(bits, width, |bits| - width - Left(|bits| - width, width));
  }

  /** Packing keeps the complete groups. */
  lemma {:induction false} SpreadPack(bits: seq<bool>, width: nat)
    requires width > 0
    ensures Spread(Pack(bits, width), width) == Complete(bits, width)
    decreases |bits|
  {
    if |bits| >= width {
      SpreadPack(bits[width..], width);
      BitsOfNum(bits[..width]);
      PackCons(bits, width);
      SpreadCons(Num(bits[..width]), Pack(bits[width..], width), width);
      CompleteNext(bits, width);
    }
  }

  lemma {:induction false} PackFits(bits: seq<bool>, width: nat)
    requires width > 0
    ensures |Pack(bits, width)| == Groups(|bits|, width) && Fit(Pack(bits, width), Pow2(width))
    decreases |bits|
  {
    if |bits| >= width {
      PackFits(bits[width..], width);
      NumBound(bits[..width]);
    }
  }

  lemma PackShort(bits: seq<bool>, width: nat)
    requires |bits| < width
    ensures Pack(bits, width) == []
  {}

  lemma SpreadPackWhole(bits: seq<bool>, width: nat)
    requires width > 0 && Left(|bits|, width) == 0
    ensures Spread(Pack(bits, width), width) == bits
  {
    SpreadPack(bits, width);
    assert Complete(bits, width) == bits;
  }

  /** Bytes regrouped into digits of `width` bits behind zero padding, and read back. */
  lemma RegroupBytes(bytes: seq<nat>, width: nat, pad: nat)
    requires 0 < width && pad < 8 && Fit(bytes, 256) && Left(|Spread(bytes, 8) + Zeros(pad)|, width) == 0
    ensures Pack(Spread(Pack(Spread(bytes, 8) + Zeros(pad), width), width), 8) == bytes
  {
    Powers();
    SpreadPackWhole(Spread(bytes, 8) + Zeros(pad), width);
    SpreadWhole(bytes, 8);
    PackConcat(Spread(bytes, 8), Zeros(pad), 8);
    PackSpread(bytes, 8);
    assert bytes + [] == bytes;
  }

  /** Read as bytes, dropping fewer than eight zero bits, and spread out again. */
  lemma WholeThenSpare(bits: seq<bool>, spare: nat)
    requires spare == Left(|bits|, 8) && bits[|bits| - spare..] == Zeros(spare)
    ensures Fit(Pack(bits, 8), 256) && Spread(Pack(bits, 8), 8) + Zeros(spare) == bits
  {
    Powers();
    PackFits(bits, 8);
    SpreadPack(bits, 8);
    SplitAt(bits, |bits| - spare);
  }

  // ---------------------------------------------------------------------------
  // Digits as numerals
  // ---------------------------------------------------------------------------

  /** The number that the digits write in a radix, the most significant first. */
  function Numeral(digits: seq<nat>, radix: nat): nat {
    if digits == [] then 0 else Numeral(digits[..|digits| - 1], radix) * radix + digits[|digits| - 1]
  }

  lemma {:induction false} ShiftIsPower(n: nat, k: nat)
    ensures ShiftLeft(n, k) == n * Pow2(k)
  {
    if k > 0 {
      ShiftIsPower(n, k - 1);
      Doubled(n, Pow2(k - 1));
    }
  }

  lemma Doubled(n: nat, p: nat)
    ensures 2 * (n * p) == n * (2 * p)
  {}

  /** Spreading digits into bits keeps the number. */
  lemma {:induction false} NumeralIs(digits: seq<nat>, width: nat)
    requires Fit(digits, Pow2(width))
    ensures Num(Spread(digits, width)) == Numeral(digits, Pow2(width))
  {
    if digits != [] {
      var init, last := digits[..|digits| - 1], digits[|digits| - 1];
      NumeralIs(init, width);
      NumConcat(Spread(init, width), BitsOf(last, width));
      NumBitsOf(last, width);
      ShiftIsPower(Numeral(init, Pow2(width)), width);
    }
  }

  /** Digits whose bits are those of the bytes and then zeros write the number of the bytes, shifted. */
  lemma PaddedNumeral(digits: seq<nat>, width: nat, bytes: seq<nat>, pad: nat)
    requires Fit(digits, Pow2(width)) && IsBytes(bytes) && Spread(digits, width) == Spread(bytes, 8) + Zeros(pad)
    ensures Numeral(digits, Pow2(width)) == Numeral(bytes, 256) * Pow2(pad)
  {
    Powers();
    NumeralIs(digits, width);
    NumeralIs(bytes, 8);
    NumConcat(Spread(bytes, 8), Zeros(pad));
    NumZeros(pad);
    ShiftIsPower(Numeral(bytes, 256), pad);
  }

  /** Packing digits into bytes drops the low bits of their number, fewer than eight. */
  lemma PackedNumeral(digits: seq<nat>, width: nat)
    requires Fit(digits, Pow2(width))
    ensures var bits := Spread(digits, width);
            var bytes, spare := Pack(bits, 8), Left(|bits|, 8);
            && IsBytes(bytes)
            && Numeral(digits, Pow2(width)) == Numeral(bytes, 256) * Pow2(spare) + Num(bits[|bits| - spare..])
            && Num(bits[|bits| - spare..]) < Pow2(spare)
  {
    var bits := Spread(digits, width);
    var spare := Left(|bits|, 8);
    var whole, tail := bits[..|bits| - spare], bits[|bits| - spare..];
    Powers();
    PackFits(bits, 8);
    SpreadPack(bits, 8);
    SplitAt(bits, |bits| - spare);
    NumeralIs(digits, width);
    NumeralIs(Pack(bits, 8), 8);
    NumConcat(whole, tail);
    NumBound(tail);
    ShiftIsPower(Num(whole), spare);
  }

  // ---------------------------------------------------------------------------
  // Bit accumulators
  // ---------------------------------------------------------------------------

  /** One step of a bit accumulator: a digit shifted in behind the `tail` bits it holds. */
  lemma ShiftIn(tail: seq<bool>, digit: nat, width: nat)
    requires digit < Pow2(width)
    ensures Num(tail + BitsOf(digit, width)) == ShiftLeft(Num(tail), width) + digit
  {
    NumConcat(tail, BitsOf(digit, width));
    NumBitsOf(digit, width);
  }

  /** One more digit of output. */
  lemma PackNext(bits: seq<bool>, done: nat, width: nat)
    requires width > 0 && Left(done, width) == 0 && done + width <= |bits|
    ensures Pack(bits[..done + width], width) == Pack(bits[..done], width) + [Num(bits[done..done + width])]
    ensures Left(done + width, width) == 0
  {
    var group := bits[done..done + width];
    assert bits[..done + width] == bits[..done] + group;
    PackConcat(bits[..done], group, width);
    PackGroup(group, width);
    LeftAdd(done, width, width);
  }

  /** An incomplete group at the end gives no digit. */
  lemma PackDropsRest(bits: seq<bool>, done: nat, width: nat)
    requires width > 0 && Left(done, width) == 0 && done <= |bits| < done + width
    ensures Pack(bits[..done], width) == Pack(bits, width)
  {
    PackConcat(bits[..done], bits[done..], width);
    assert bits == bits[..done] + bits[done..];
    PackShort(bits[done..], width);
    assert Pack(bits[..done], width) + [] == Pack(bits[..done], width);
  }

  /** The variables of a decoding loop: `held` bits in `acc`, and the bytes put out so far. */
  datatype Reader = Reader(acc: nat, held: nat, output: seq<nat>)

  const START: Reader := Reader(0, 0, [])

  /** A digit shifted in. */
  function TakeIn(r: Reader, digit: nat, width: nat): Reader {
    Reader(ShiftLeft(r.acc, width) + digit, r.held + width, r.output)
  }

  /** The oldest byte goes out and is masked off the accumulator. */
  function PutOut(r: Reader): Reader
    requires r.held >= 8
  {
    Reader(LowBits(r.acc, r.held - 8), r.held - 8, r.output + [ShiftRight(r.acc, r.held - 8) % 256])
  }

  function Feed(r: Reader, digit: nat, width: nat): Reader {
    var next := TakeIn(r, digit, width);
    if next.held < 8 then next else PutOut(next)
  }

  function FeedAll(digits: seq<nat>, width: nat): Reader {
    if digits == [] then START
    else Feed(FeedAll(digits[..|digits| - 1], width), digits[|digits| - 1], width)
  }

  /** The accumulator holds exactly the bits that do not fill a byte yet. */
  ghost predicate Holds(r: Reader, bits: seq<bool>) {
    && r.held <= |bits| && r.acc == Num(bits[|bits| - r.held..])
    && Left(|bits| - r.held, 8) == 0 && r.output == Pack(bits[..|bits| - r.held], 8)
  }

  /** What is held, with a digit behind it. */
  lemma TailIn(bits: seq<bool>, held: nat, digit: nat, width: nat)
    requires held <= |bits| && digit < Pow2(width)
    ensures var now := bits + BitsOf(digit, width);
            && Num(now[|now| - (held + width)..]) == ShiftLeft(Num(bits[|bits| - held..]), width) + digit
            && now[..|now| - (held + width)] == bits[..|bits| - held]
  {
    var k := |bits| - held;
    ShiftIn(bits[k..], digit, width);
    CutFront(bits, BitsOf(digit, width), k);
    assert |bits + BitsOf(digit, width)| - (held + width) == k;
  }

  /** A digit goes in. */
  lemma DigitIn(r: Reader, bits: seq<bool>, digit: nat, width: nat)
    requires Holds(r, bits) && digit < Pow2(width)
    ensures Holds(TakeIn(r, digit, width), bits + BitsOf(digit, width))
  {
    TailIn(bits, r.held, digit, width);
  }

  /** The oldest eight of the bits from `done` on, and the `rest` behind them. */
  lemma OldestByte(bits: seq<bool>, done: nat, rest: nat)
    requires done + 8 + rest == |bits|
    ensures LowBits(Num(bits[done..]), rest) == Num(bits[done + 8..])
    ensures ShiftRight(Num(bits[done..]), rest) % 256 == Num(bits[done..done + 8])
  {
    CutNum(bits[done..], rest);
    PrefixInTwo(bits, done, 8);
    DropTwice(bits, done, 8);
    NumBound(bits[done..done + 8]);
    Powers();
  }

  /** A byte goes out. */
  lemma ByteOut(r: Reader, bits: seq<bool>)
    requires Holds(r, bits) && 8 <= r.held < 16
    ensures Holds(PutOut(r), bits)
  {
    var done := |bits| - r.held;
    OldestByte(bits, done, r.held - 8);
    PackNext(bits, done, 8);
  }

  lemma FeedHolds(r: Reader, bits: seq<bool>, digit: nat, width: nat)
    requires Holds(r, bits) && r.held < 8 && width <= 8 && digit < Pow2(width)
    ensures Holds(Feed(r, digit, width), bits + BitsOf(digit, width)) && Feed(r, digit, width).held < 8
  {
    DigitIn(r, bits, digit, width);
    if r.held + width >= 8 { ByteOut(TakeIn(r, digit, width), bits + BitsOf(digit, width)); }
  }

  /** The loop computes the regrouping, and its accumulator never reaches 2^held. */
  lemma {:induction false} FeedAllPacks(digits: seq<nat>, width: nat)
    requires width <= 8 && Fit(digits, Pow2(width))
    ensures var r := FeedAll(digits, width);
            && r.held < 8 && Holds(r, Spread(digits, width)) && r.acc < Pow2(r.held)
            && r.output == Pack(Spread(digits, width), 8)
  {
    if digits == [] {
      HeldBitsIncomplete(START, []);
    } else {
      var init, last := digits[..|digits| - 1], digits[|digits| - 1];
      FeedAllPacks(init, width);
      var r, bits := FeedAll(init, width), Spread(init, width);
      FeedHolds(r, bits, last, width);
      HeldBitsIncomplete(Feed(r, last, width), bits + BitsOf(last, width));
    }
  }

  lemma HeldBitsIncomplete(r: Reader, bits: seq<bool>)
    requires Holds(r, bits) && r.held < 8
    ensures r.acc < Pow2(r.held) && r.output == Pack(bits, 8)
  {
    var done := |bits| - r.held;
    NumBound(bits[done..]);
    PackDropsRest(bits, done, 8);
  }
}
