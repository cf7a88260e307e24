/** Three implementations of base32 (section 6 of RFC 4648) for one-time-password secrets, compared. */
module Base32 {
  import opened Seqs
  import opened Bits
  import opened Text

  /** `BASE32_ALPHABET.charAt(i)`. */
  function CharAt(i: nat): char
    requires i < 32
  {
    if i < 26 then ('A' as int + i) as char else ('2' as int + i - 26) as char
  }

  /** `BASE32_ALPHABET.indexOf(c)`. */
  function IndexOf(c: char): (i: int)
    ensures -1 <= i < 32
    ensures i >= 0 ==> CharAt(i) == c
  {
    if 'A' <= c <= 'Z' then c as int - 'A' as int
    else if '2' <= c <= '7' then c as int - '2' as int + 26 else -1
  }

  lemma IndexOfCharAt(i: nat)
    requires i < 32
    ensures IndexOf(CharAt(i)) == i
  {
    if i < 26 {}
  }

  predicate InAlphabet(s: string) {
    forall i :: 0 <= i < |s| ==> IndexOf(s[i]) >= 0
  }

  function Indices(s: string): (r: seq<nat>)
    requires InAlphabet(s)
    ensures |r| == |s| && Fit(r, 32)
  {
    seq(|s|, i requires 0 <= i < |s| => IndexOf(s[i]))
  }

  function Chars(digits: seq<nat>): (s: string)
    requires Fit(digits, 32)
    ensures |s| == |digits|
  {
    seq(|digits|, i requires 0 <= i < |digits| => CharAt(digits[i]))
  }

  lemma IndicesOfChars(digits: seq<nat>)
    requires Fit(digits, 32)
    ensures InAlphabet(Chars(digits)) && Indices(Chars(digits)) == digits
  {
    var s := Chars(digits);
    forall i | 0 <= i < |s| ensures IndexOf(s[i]) == digits[i] { IndexOfCharAt(digits[i]); }
  }

  // ---------------------------------------------------------------------------
  // Cleaning the input
  // ---------------------------------------------------------------------------

  predicate Kept(c: char) {
    !JsSpace(c) && c != '=' && c != '-'
  }

  /** `input.replace(/[\s=-]/g, "")`. */
  function Strip(input: string): string {
    Filter(input, Kept)
  }

  function AsciiUpper(c: char): char {
    if 'a' <= c <= 'z' then (c as int - 32) as char else c
  }

  function UpperAll(s: string): (r: string)
    ensures |r| == |s|
  {
    seq(|s|, i requires 0 <= i < |s| => AsciiUpper(s[i]))
  }

  predicate Plain(s: string) {
    forall i :: 0 <= i < |s| ==> s[i] < '\U{0080}' || s[i] == NEXT_LINE
  }

  /** All that is assumed of `toUpperCase`: on ASCII and the control character U+0085 it maps a-z only. */
  ghost predicate Uppercases(upper: string -> string) {
    forall s :: Plain(s) ==> upper(s) == UpperAll(s)
  }

  // ---------------------------------------------------------------------------
  // The code
  // ---------------------------------------------------------------------------

  /** Digits of five bits read as bytes; spare bits are dropped unseen. `None` is the exception. */
  function Decoded(input: string, upper: string -> string): Option<seq<nat>> {
    var cleaned := upper(Strip(input));
    if InAlphabet(cleaned) then Some(Pack(Spread(Indices(cleaned), 5), 8)) else None
  }

  /** The zero bits that complete the last digit. */
  function Pad(bytes: nat): (pad: nat)
    ensures pad < 5 && (bytes * 8 + pad) % 5 == 0
  {
    (5 - bytes * 8 % 5) % 5
  }

  function Digits(bytes: seq<nat>): (digits: seq<nat>)
    ensures Fit(digits, 32)
  {
    var bits := Spread(bytes, 8) + Zeros(Pad(|bytes|));
    PackFits(bits, 5);
    Powers();
    Pack(bits, 5)
  }

  function Encoded(bytes: seq<nat>): string {
    Chars(Digits(bytes))
  }

  /** Decoding what was encoded returns the bytes. */
  lemma EncodeThenDecode(bytes: seq<nat>, upper: string -> string)
    requires IsBytes(bytes) && Uppercases(upper)
    ensures Decoded(Encoded(bytes), upper) == Some(bytes)
  {
    IndicesOfChars(Digits(bytes));
    CleanedIs(Encoded(bytes), upper);
    DigitsReadBack(bytes);
  }

  lemma DigitsReadBack(bytes: seq<nat>)
    requires IsBytes(bytes)
    ensures Pack(Spread(Digits(bytes), 5), 8) == bytes
  {
    SpreadSize(bytes, 8);
    GroupsAre(|bytes| * 8 + Pad(|bytes|), 5);
    RegroupBytes(bytes, 5, Pad(|bytes|));
  }

  /** Cleaning leaves a string of the alphabet alone. */
  lemma CleanedIs(s: string, upper: string -> string)
    requires InAlphabet(s) && Uppercases(upper)
    ensures upper(Strip(s)) == s
  {
    AlphabetClean(s);
    FilterAll(s, Kept);
  }

  lemma AlphabetClean(s: string)
    requires InAlphabet(s)
    ensures Plain(s) && UpperAll(s) == s && forall c :: c in s ==> Kept(c)
  {
    forall c | c in s ensures Kept(c) {
      var i :| 0 <= i < |s| && s[i] == c;
    }
  }

  // ---------------------------------------------------------------------------
  // Against RFC 4648
  // ---------------------------------------------------------------------------

  /** The alphabet of section 6, and no character beside it. */
  lemma AlphabetIs(i: nat, c: char)
    ensures var alphabet := "ABCDEFGHIJKLMNOPQRSTUVWXYZ" + "234567";
            && |alphabet| == 32 && (i < 32 ==> CharAt(i) == alphabet[i] && IndexOf(alphabet[i]) == i)
            && (IndexOf(c) >= 0 <==> c in alphabet)
  {
    var alphabet := "ABCDEFGHIJKLMNOPQRSTUVWXYZ" + "234567";
    if i < 32 {
      IndexOfCharAt(i);
      LetterAt(alphabet, i);
    }
    if IndexOf(c) >= 0 {
      LetterAt(alphabet, IndexOf(c));
    } else if k: nat :| k < 32 && alphabet[k] == c {
      LetterAt(alphabet, k);
      IndexOfCharAt(k);
    }
  }

  lemma LetterAt(alphabet: string, i: nat)
    requires alphabet == "ABCDEFGHIJKLMNOPQRSTUVWXYZ" + "234567" && i < 32
    ensures |alphabet| == 32 && CharAt(i) == alphabet[i]
  {
    if i < 26 {
      assert alphabet[i] == "ABCDEFGHIJKLMNOPQRSTUVWXYZ"[i];
    } else {
      assert alphabet[i] == "234567"[i - 26];
    }
  }

  /**
   * The encoding has as many letters as the bits need, and writes, in radix 32, the number its bytes write in radix
   * 256, shifted by the zero bits that fill the last letter.
   */
  lemma EncodedNumeral(bytes: seq<nat>)
    requires IsBytes(bytes)
    ensures var s := Encoded(bytes);
            && InAlphabet(s) && 8 * |bytes| <= 5 * |s| < 8 * |bytes| + 5
            && Numeral(Indices(s), 32) == Numeral(bytes, 256) * Pow2(5 * |s| - 8 * |bytes|)
  {
    IndicesOfChars(Digits(bytes));
    DigitCount(bytes);
    DigitsNumeral(bytes);
  }

  lemma DigitsNumeral(bytes: seq<nat>)
    requires IsBytes(bytes)
    ensures Numeral(Digits(bytes), 32) == Numeral(bytes, 256) * Pow2(Pad(|bytes|))
  {
    Powers();
    DigitsSpread(bytes);
    PaddedNumeral(Digits(bytes), 5, bytes, Pad(|bytes|));
  }

  lemma PadFills(bytes: nat)
    ensures Left(8 * bytes + Pad(bytes), 5) == 0
  {
    GroupsAre(8 * bytes + Pad(bytes), 5);
  }

  lemma DigitsSpread(bytes: seq<nat>)
    ensures Spread(Digits(bytes), 5) == Spread(bytes, 8) + Zeros(Pad(|bytes|))
  {
    var pad := Pad(|bytes|);
    var bits := Spread(bytes, 8) + Zeros(pad);
    SpreadSize(bytes, 8);
    PadFills(|bytes|);
    assert |bits| == 8 * |bytes| + pad;
    SpreadPackWhole(bits, 5);
  }

  /** A letter of either case, or a digit from 2 to 7. */
  predicate Letter(c: char) {
    'A' <= c <= 'Z' || 'a' <= c <= 'z' || '2' <= c <= '7'
  }

  predicate Skipped(c: char) {
    c in [' ', '\t', '\n', '\r', '=', '-']
  }

  /** The value of a letter whatever its case. */
  function LetterValue(c: char): nat
    requires Letter(c)
  {
    if 'A' <= c <= 'Z' then c as int - 65 else if 'a' <= c <= 'z' then c as int - 97 else c as int - 24
  }

  function LetterValues(s: string): (digits: seq<nat>)
    requires forall c :: c in s ==> Letter(c)
    ensures |digits| == |s|
  {
    seq(|s|, i requires 0 <= i < |s| => LetterValue(s[i]))
  }

  /**
   * The browser decoders skip blanks, `=` and `-` anywhere, take an ASCII text exactly when all the rest are letters
   * or digits from 2 to 7, and return as many bytes as fit: the number they write is what is written in radix 32,
   * its last bits dropped.
   */
  lemma DecodedExactly(input: string, upper: string -> string)
    requires Uppercases(upper) && forall c :: c in input ==> c < '\U{0080}' && (JsSpace(c) ==> Skipped(c))
    ensures Decoded(input, upper).Some? <==> forall c :: c in input ==> Letter(c) || Skipped(c)
    ensures Decoded(input, upper).Some? ==>
              var letters, bytes := Filter(input, Letter), Decoded(input, upper).value;
              && (forall c :: c in letters ==> Letter(c)) && |bytes| == 5 * |letters| / 8
              && var unit, number := Pow2(5 * |letters| % 8), Numeral(LetterValues(letters), 32);
                 Numeral(bytes, 256) * unit <= number < Numeral(bytes, 256) * unit + unit
  {
    StripIs(input);
    var kept := Strip(input);
    assert upper(kept) == UpperAll(kept);
    if forall c :: c in input ==> Letter(c) || Skipped(c) {
      LettersKept(input);
      UpperLetters(kept);
      Truncated(kept);
    } else {
      var c :| c in input && !Letter(c) && !Skipped(c);
      var i :| 0 <= i < |kept| && kept[i] == c;
      assert IndexOf(UpperAll(kept)[i]) == -1;
    }
  }

  lemma StripIs(input: string)
    requires forall c :: c in input ==> c < '\U{0080}' && (JsSpace(c) ==> Skipped(c))
    ensures Plain(Strip(input)) && forall c :: c in Strip(input) <==> c in input && !Skipped(c)
  {
    FilterIn(input, Kept);
    forall c | c in input ensures Kept(c) <==> !Skipped(c) {}
    forall i | 0 <= i < |Strip(input)| ensures Strip(input)[i] < '\U{0080}' { assert Strip(input)[i] in input; }
  }

  lemma LettersKept(input: string)
    requires forall c :: c in input ==> c < '\U{0080}' && (JsSpace(c) ==> Skipped(c)) && (Letter(c) || Skipped(c))
    ensures Strip(input) == Filter(input, Letter) && forall c :: c in Strip(input) ==> Letter(c)
  {
    forall c | c in input ensures Kept(c) == Letter(c) {}
    FilterAgree(input, Kept, Letter);
    FilterIn(input, Letter);
  }

  lemma UpperLetters(s: string)
    requires forall c :: c in s ==> Letter(c)
    ensures InAlphabet(UpperAll(s)) && Indices(UpperAll(s)) == LetterValues(s)
  {
    forall i | 0 <= i < |s| ensures IndexOf(UpperAll(s)[i]) == LetterValues(s)[i] { assert Letter(s[i]); }
  }

  lemma Truncated(s: string)
    requires forall c :: c in s ==> Letter(c)
    requires InAlphabet(UpperAll(s)) && Indices(UpperAll(s)) == LetterValues(s)
    ensures var bytes := Pack(Spread(Indices(UpperAll(s)), 5), 8);
            var unit, number := Pow2(5 * |s| % 8), Numeral(LetterValues(s), 32);
            |bytes| == 5 * |s| / 8 && Numeral(bytes, 256) * unit <= number < Numeral(bytes, 256) * unit + unit
  {
    PackedSize(LetterValues(s));
    PackedLetters(LetterValues(s));
  }

  lemma PackedSize(digits: seq<nat>)
    ensures var bits := Spread(digits, 5); |Pack(bits, 8)| == 5 * |digits| / 8 && Left(|bits|, 8) == 5 * |digits| % 8
  {
    SpreadSize(digits, 5);
    GroupsAre(5 * |digits|, 8);
    PackFits(Spread(digits, 5), 8);
  }

  lemma PackedLetters(digits: seq<nat>)
    requires Fit(digits, 32)
    ensures var bits := Spread(digits, 5);
            var spare := Left(|bits|, 8);
            && Numeral(digits, 32) == Numeral(Pack(bits, 8), 256) * Pow2(spare) + Num(bits[|bits| - spare..])
            && Num(bits[|bits| - spare..]) < Pow2(spare)
  {
    Powers();
    PackedNumeral(digits, 5);
  }

  // ---------------------------------------------------------------------------
  // The web application: an accumulator that wraps at 32 bits and is never masked
  // ---------------------------------------------------------------------------

  /** What a 32-bit word keeps. */
  const WORD: nat := 32

  /** The low `held` bits of the accumulator are the last `held` bits read. */
  ghost predicate Tracks(value: nat, held: nat, bits: seq<bool>) {
    held <= |bits| && LowBits(value, held) == Num(bits[|bits| - held..])
  }

  /** Cutting a number down to fewer bits keeps its low ones. */
  lemma {:induction false} LowOfLow(n: nat, m: nat, k: nat)
    requires k <= m
    ensures LowBits(LowBits(n, m), k) == LowBits(n, k)
  {
    if k > 0 { LowOfLow(n / 2, m - 1, k - 1); }
  }

  /** A digit shifted in goes below the low bits there were. */
  lemma {:induction false} LowOfShifted(value: nat, held: nat, digit: nat, width: nat)
    requires digit < Pow2(width)
    ensures LowBits(ShiftLeft(value, width) + digit, held + width) == ShiftLeft(LowBits(value, held), width) + digit
  {
    if width > 0 {
      LowOfShifted(value, held, digit / 2, width - 1);
      assert (ShiftLeft(value, width) + digit) / 2 == ShiftLeft(value, width - 1) + digit / 2;
    }
  }

  /** The bits of a shifted number are those further up. */
  lemma {:induction false} LowOfRight(n: nat, low: nat, width: nat)
    ensures LowBits(ShiftRight(n, low), width) == ShiftRight(LowBits(n, low + width), low)
  {
    if low > 0 {
      LowOfRight(n / 2, low - 1, width);
      assert LowBits(n, low + width) / 2 == LowBits(n / 2, low + width - 1);
    }
  }

  /** `value = (value << width) | digit`, on 32 bits. */
  function Shifted(value: nat, digit: nat, width: nat): nat {
    LowBits(ShiftLeft(value, width) + digit, WORD)
  }

  lemma TrackIn(value: nat, held: nat, bits: seq<bool>, digit: nat, width: nat)
    requires Tracks(value, held, bits) && digit < Pow2(width) && held + width <= WORD
    ensures Tracks(Shifted(value, digit, width), held + width, bits + BitsOf(digit, width))
  {
    ShiftIn(bits[|bits| - held..], digit, width);
    CutFront(bits, BitsOf(digit, width), |bits| - held);
    LowOfLow(ShiftLeft(value, width) + digit, WORD, held + width);
    LowOfShifted(value, held, digit, width);
  }

  /** `(value >>> (held - width)) & ((1 << width) - 1)` reads the oldest bits held, and leaves the others. */
  lemma TrackOut(value: nat, held: nat, bits: seq<bool>, width: nat)
    requires Tracks(value, held, bits) && width <= held
    ensures LowBits(ShiftRight(value, held - width), width) == Num(bits[|bits| - held..|bits| - held + width])
    ensures Tracks(value, held - width, bits)
  {
    var tail, rest := bits[|bits| - held..], held - width;
    LowOfRight(value, rest, width);
    LowOfLow(value, held, rest);
    CutNum(tail, rest);
    assert tail[..width] == bits[|bits| - held..|bits| - held + width];
    assert tail[width..] == bits[|bits| - rest..];
  }

  lemma SpreadNext(digits: seq<nat>, i: nat, width: nat)
    requires i < |digits|
    ensures Spread(digits[..i + 1], width) == Spread(digits[..i], width) + BitsOf(digits[i], width)
  {
    assert digits[..i + 1][..i] == digits[..i];
  }

  /** The state of a regrouping loop: the complete groups are out, the bits after them are held. */
  ghost predicate Regrouping(value: nat, held: nat, out: seq<nat>, bits: seq<bool>, group: nat) {
    group > 0 && Tracks(value, held, bits) && Left(|bits| - held, group) == 0 && out == Pack(bits[..|bits| - held], group)
  }

  /** A digit goes in. */
  lemma TakesIn(value: nat, held: nat, out: seq<nat>, bits: seq<bool>, group: nat, digit: nat, width: nat)
    requires Regrouping(value, held, out, bits, group) && digit < Pow2(width) && held + width <= WORD
    ensures Regrouping(Shifted(value, digit, width), held + width, out, bits + BitsOf(digit, width), group)
  {
    TrackIn(value, held, bits, digit, width);
    CutFront(bits, BitsOf(digit, width), |bits| - held);
  }

  /** A group goes out. */
  lemma PutsOut(value: nat, held: nat, out: seq<nat>, bits: seq<bool>, group: nat)
    requires Regrouping(value, held, out, bits, group) && held >= group
    ensures var digit := LowBits(ShiftRight(value, held - group), group);
            digit < Pow2(group) && Regrouping(value, held - group, out + [digit], bits, group)
  {
    var done := |bits| - held;
    TrackOut(value, held, bits, group);
    PackNext(bits, done, group);
    NumBound(bits[done..done + group]);
  }

  /** `decodeBase32` of the web application; `None` is the exception. */
  method DecodeWeb(input: string, upper: string -> string) returns (r: Option<seq<nat>>)
    ensures r == Decoded(input, upper)
  {
    var cleaned := upper(Strip(input));
    var bits: nat, value: nat, output: seq<nat> := 0, 0, [];
    ghost var read: seq<bool> := [];
    Powers();
    for i := 0 to |cleaned|
      invariant InAlphabet(cleaned[..i]) && read == Spread(Indices(cleaned[..i]), 5)
      invariant bits < 8 && Regrouping(value, bits, output, read, 8)
    {
      var index := IndexOf(cleaned[i]);
      if index == -1 { return None; }
      IndicesNext(cleaned, i);
      TakesIn(value, bits, output, read, 8, index, 5);
      read := read + BitsOf(index, 5);
      value, bits := Shifted(value, index, 5), bits + 5;
      if bits >= 8 {
        PutsOut(value, bits, output, read, 8);
        bits := bits - 8;
        output := output + [LowBits(ShiftRight(value, bits), 8)];
      }
    }
    assert cleaned[..|cleaned|] == cleaned;
    PackDropsRest(read, |read| - bits, 8);
    r := Some(output);
  }

  lemma IndicesNext(s: string, i: nat)
    requires i < |s| && InAlphabet(s[..i]) && IndexOf(s[i]) >= 0
    ensures InAlphabet(s[..i + 1])
    ensures Spread(Indices(s[..i + 1]), 5) == Spread(Indices(s[..i]), 5) + BitsOf(IndexOf(s[i]), 5)
  {
    var before, after := Indices(s[..i]), Indices(s[..i + 1]);
    assert after == before + [IndexOf(s[i])];
    assert after[..|before|] == before;
  }

  /** The last digit, its missing bits read as zero. */
  lemma LastDigit(value: nat, held: nat, digits: seq<nat>, bits: seq<bool>, pad: nat, group: nat)
    requires Regrouping(value, held, digits, bits, group) && held + pad == group <= WORD
    ensures var last := LowBits(Shifted(value, 0, pad), group);
            last < Pow2(group) && Pack(bits + Zeros(pad), group) == digits + [last]
  {
    var all := bits + Zeros(pad);
    ZeroIsBits(pad);
    TakesIn(value, held, digits, bits, group, 0, pad);
    PutsOut(Shifted(value, 0, pad), group, digits, all, group);
    assert all[..|all|] == all;
  }

  lemma {:induction false} ZeroIsBits(n: nat)
    ensures BitsOf(0, n) == Zeros(n)
  {
    if n > 0 { ZeroIsBits(n - 1); }
  }

  /** The inner loop: every complete digit goes out. */
  method EmitDigits(value: nat, held: nat, before: string, ghost digits: seq<nat>, ghost read: seq<bool>)
    returns (output: string, bits: nat, ghost digits': seq<nat>)
    requires Regrouping(value, held, digits, read, 5) && Written(before, digits)
    ensures bits < 5 && Regrouping(value, bits, digits', read, 5) && Written(output, digits')
  {
    output, bits, digits' := before, held, digits;
    Powers();
    while bits >= 5
      invariant Regrouping(value, bits, digits', read, 5) && Written(output, digits')
    {
      PutsOut(value, bits, digits', read, 5);
      var digit: nat := LowBits(ShiftRight(value, bits - 5), 5);
      WriteNext(output, digits', digit);
      output, bits, digits' := output + [CharAt(digit)], bits - 5, digits' + [digit];
    }
  }

  lemma WriteNext(output: string, digits: seq<nat>, digit: nat)
    requires Written(output, digits) && digit < 32
    ensures Written(output + [CharAt(digit)], digits + [digit])
  {}

  /** `encodeBase32` of the web application. */
  method EncodeWeb(data: seq<nat>) returns (output: string)
    requires IsBytes(data)
    ensures output == Encoded(data)
  {
    var bits: nat, value: nat := 0, 0;
    output := "";
    ghost var digits: seq<nat> := [];
    Powers();
    for i := 0 to |data|
      invariant bits < 5 && Regrouping(value, bits, digits, Spread(data[..i], 8), 5)
      invariant Written(output, digits)
    {
      SpreadNext(data, i, 8);
      TakesIn(value, bits, digits, Spread(data[..i], 8), 5, data[i], 8);
      value, bits := Shifted(value, data[i], 8), bits + 8;
      output, bits, digits := EmitDigits(value, bits, output, digits, Spread(data[..i + 1], 8));
    }
    assert data[..|data|] == data;
    Flush(value, bits, digits, data);
    if bits > 0 {
      output := output + [CharAt(LowBits(Shifted(value, 0, 5 - bits), 5))];
    }
  }

  /** What is left after the last byte completes the digits. */
  lemma Flush(value: nat, held: nat, digits: seq<nat>, data: seq<nat>)
    requires held < 5 && Regrouping(value, held, digits, Spread(data, 8), 5)
    ensures held > 0 ==> LowBits(Shifted(value, 0, 5 - held), 5) < 32
    ensures Digits(data) == if held == 0 then digits else digits + [LowBits(Shifted(value, 0, 5 - held), 5)]
  {
    var read := Spread(data, 8);
    Powers();
    SpreadSize(data, 8);
    GroupsAre(|read| - held, 5);
    PadIs(|data|, held);
    if held > 0 {
      LastDigit(value, held, digits, read, 5 - held, 5);
    } else {
      assert read + Zeros(0) == read && read[..|read|] == read;
    }
  }

  ghost predicate Written(output: string, digits: seq<nat>) {
    Fit(digits, 32) && output == Chars(digits)
  }

  lemma PadIs(bytes: nat, held: nat)
    requires held <= 8 * bytes && (8 * bytes - held) % 5 == 0 && held < 5
    ensures Pad(bytes) == if held == 0 then 0 else 5 - held
  {}

  // ---------------------------------------------------------------------------
  // The desktop application: lists of bits
  // ---------------------------------------------------------------------------

  /** `(index >> i) & 1`, from the highest bit down. */
  method PushBits(bits: seq<bool>, index: nat) returns (pushed: seq<bool>)
    requires index < 32
    ensures pushed == bits + BitsOf(index, 5)
  {
    pushed := bits;
    var i: nat := 5;
    assert bits + [] == bits;
    while i > 0
      invariant i <= 5 && pushed == bits + BitsOf(ShiftRight(index, i), 5 - i)
    {
      i := i - 1;
      PushedNext(bits, index, i);
      pushed := pushed + [ShiftRight(index, i) % 2 == 1];
    }
    assert ShiftRight(index, 0) == index;
  }

  lemma PushedNext(bits: seq<bool>, n: nat, i: nat)
    requires i < 5
    ensures bits + BitsOf(ShiftRight(n, i + 1), 5 - (i + 1)) + [ShiftRight(n, i) % 2 == 1] ==
            bits + BitsOf(ShiftRight(n, i), 5 - i)
  {
    NextBit(n, i, 4 - i);
    AppendLast(bits, BitsOf(ShiftRight(n, i + 1), 4 - i), ShiftRight(n, i) % 2 == 1);
  }

  lemma NextBit(n: nat, i: nat, width: nat)
    ensures BitsOf(ShiftRight(n, i), width + 1) == BitsOf(ShiftRight(n, i + 1), width) + [ShiftRight(n, i) % 2 == 1]
  {
    RightOnce(n, i);
  }

  lemma {:induction false} RightOnce(n: nat, i: nat)
    ensures ShiftRight(n, i) / 2 == ShiftRight(n, i + 1)
  {
    if i > 0 { RightOnce(n / 2, i - 1); }
  }

  /** `decodeBase32` of the desktop application, by lists of bits. */
  method DecodeDesktop(input: string, upper: string -> string) returns (r: Option<seq<nat>>)
    ensures r == Decoded(input, upper)
  {
    var cleaned := upper(Strip(input));
    if |cleaned| == 0 { return Some([]); }
    var bits: seq<bool> := [];
    for i := 0 to |cleaned|
      invariant InAlphabet(cleaned[..i]) && bits == Spread(Indices(cleaned[..i]), 5)
    {
      var index := IndexOf(cleaned[i]);
      if index == -1 { return None; }
      IndicesNext(cleaned, i);
      bits := PushBits(bits, index);
    }
    assert cleaned[..|cleaned|] == cleaned;
    var bytes := BytesOf(bits);
    r := Some(bytes);
  }

  lemma NumNext(bits: seq<bool>, i: nat, j: nat)
    requires i + j < |bits|
    ensures Num(bits[i..i + j + 1]) == 2 * Num(bits[i..i + j]) + if bits[i + j] then 1 else 0
  {
    assert bits[i..i + j + 1][..j] == bits[i..i + j];
  }

  /** Eight bits at a time; an incomplete group ends the loop. */
  method BytesOf(bits: seq<bool>) returns (bytes: seq<nat>)
    ensures bytes == Pack(bits, 8)
  {
    bytes := [];
    var i := 0;
    while i < |bits|
      invariant Left(i, 8) == 0 && i <= |bits| && bytes == Pack(bits[..i], 8)
    {
      if i + 8 > |bits| { break; }
      var byte: nat := 0;
      for j := 0 to 8
        invariant byte == Num(bits[i..i + j])
      {
        NumNext(bits, i, j);
        byte := byte * 2 + if bits[i + j] then 1 else 0;
      }
      PackNext(bits, i, 8);
      bytes := bytes + [byte];
      i := i + 8;
    }
    PackDropsRest(bits, i, 8);
  }

  /** `encodeBase32` of the desktop application: bits as text, five at a time, the last group filled with zeros. */
  method EncodeDesktop(data: seq<nat>) returns (output: string)
    requires IsBytes(data)
    ensures output == Encoded(data)
  {
    var bits: seq<bool> := [];
    for i := 0 to |data|
      invariant bits == Spread(data[..i], 8)
    {
      SpreadNext(data, i, 8);
      bits := bits + BitsOf(data[i], 8);
    }
    assert data[..|data|] == data;
    SpreadSize(data, 8);
    GroupsAre(8 * |data| + Pad(|data|), 5);
    output := CharsOf(bits, Pad(|data|));
  }

  method CharsOf(bits: seq<bool>, ghost pad: nat) returns (output: string)
    requires pad < 5 && Left(|bits| + pad, 5) == 0
    ensures Written(output, Pack(bits + Zeros(pad), 5))
  {
    ghost var all := bits + Zeros(pad);
    output := "";
    var i := 0;
    while i < |bits|
      invariant Left(i, 5) == 0 && i <= |all| && Written(output, Pack(all[..i], 5))
    {
      var chunk := if i + 5 <= |bits| then bits[i..i + 5] else bits[i..] + Zeros(5 - (|bits| - i));
      ChunkIs(bits, i, pad);
      ChunkFits(chunk);
      PackNext(all, i, 5);
      WriteNext(output, Pack(all[..i], 5), Num(chunk));
      output := output + [CharAt(Num(chunk))];
      i := i + 5;
    }
    GroupsAre(i, 5);
    GroupsAre(|all|, 5);
    assert all[..i] == all;
  }

  lemma ChunkFits(chunk: seq<bool>)
    requires |chunk| == 5
    ensures Num(chunk) < 32
  {
    NumBound(chunk);
    Powers();
  }

  /** Padding each chunk is padding the whole. */
  lemma ChunkIs(bits: seq<bool>, i: nat, pad: nat)
    requires i < |bits| && Left(i, 5) == 0 && pad < 5 && Left(|bits| + pad, 5) == 0
    ensures i + 5 <= |bits| + pad
    ensures (bits + Zeros(pad))[i..i + 5] ==
            if i + 5 <= |bits| then bits[i..i + 5] else bits[i..] + Zeros(5 - (|bits| - i))
  {
    GroupsAre(i, 5);
    GroupsAre(|bits| + pad, 5);
    if i + 5 > |bits| { assert 5 - (|bits| - i) == pad; }
  }

  // ---------------------------------------------------------------------------
  // The native core: a masked accumulator, and a stricter input
  // ---------------------------------------------------------------------------

  function TrimPadding(s: string): string {
    if s != "" && s[|s| - 1] == '=' then TrimPadding(s[..|s| - 1]) else s
  }

  /** `value.trim().trim_end_matches('=')`. */
  function Body(value: string): string {
    TrimPadding(Trim(value, RustSpace))
  }

  /** The digit of an ASCII byte, in either case. */
  function NativeDigit(c: char): (d: int)
    ensures -1 <= d < 32
  {
    if 'A' <= AsciiUpper(c) <= 'Z' then AsciiUpper(c) as int - 'A' as int
    else if '2' <= c <= '7' then c as int - '2' as int + 26 else -1
  }

  lemma NativeDigitIs(c: char)
    ensures NativeDigit(c) == IndexOf(AsciiUpper(c))
  {}

  /** The bits after the last complete byte. */
  predicate SpareIsZero(bits: seq<bool>) {
    var spare := Left(|bits|, 8);
    bits[|bits| - spare..] == Zeros(spare)
  }

  /** What letters decode to: ten bytes at least, and nothing but zero bits after them. */
  function BodyDecoded(body: string): Option<seq<nat>> {
    if !InAlphabet(body) then None
    else
      var bits := Spread(Indices(body), 5);
      var bytes := Pack(bits, 8);
      if |bytes| < 10 || !SpareIsZero(bits) then None else Some(bytes)
  }

  /** The secret, as its digits say; `None` is `InvalidInput`. */
  function NativeDecoded(value: string): Option<seq<nat>> {
    if Body(value) == "" || |Body(value)| > 2048 then None else BodyDecoded(UpperAll(Body(value)))
  }

  /** The loop has read the first `i` letters. */
  ghost predicate ReadSoFar(s: string, i: nat, r: Reader) {
    i <= |s| && InAlphabet(s[..i]) && r == FeedAll(Indices(s[..i]), 5)
  }

  /**
   * `decode_base32_secret`. Lengths are counted in characters where the source counts bytes: they differ only on
   * input that is refused either way.
   */
  method DecodeNative(value: string) returns (r: Option<seq<nat>>)
    ensures r == NativeDecoded(value)
  {
    var normalized := Body(value);
    if normalized == "" || |normalized| > 2048 || '=' in normalized {
      if '=' in normalized { PaddingInside(normalized); }
      return None;
    }
    r := DecodeBody(normalized);
  }

  /** The loop over the letters, and the checks after it. */
  method DecodeBody(normalized: string) returns (r: Option<seq<nat>>)
    ensures r == BodyDecoded(UpperAll(normalized))
  {
    ghost var body := UpperAll(normalized);
    var accumulator: nat, bits: nat, output: seq<nat> := 0, 0, [];
    for i := 0 to |normalized|
      invariant ReadSoFar(body, i, Reader(accumulator, bits, output))
    {
      var digit := NativeDigit(normalized[i]);
      NativeDigitIs(normalized[i]);
      if digit == -1 {
        assert IndexOf(body[i]) == -1;
        return None;
      }
      NextDigit(body, i, Reader(accumulator, bits, output));
      accumulator, bits := ShiftLeft(accumulator, 5) + digit, bits + 5;
      assert accumulator < 0x1_0000;
      if bits >= 8 {
        bits := bits - 8;
        output := output + [ShiftRight(accumulator, bits) % 256];
        accumulator := LowBits(accumulator, bits);
      }
    }
    assert body[..|body|] == body;
    ReadAll(body, Reader(accumulator, bits, output));
    if |output| < 10 || (bits > 0 && accumulator != 0) { return None; }
    r := Some(output);
  }

  lemma PaddingInside(s: string)
    requires '=' in s
    ensures !InAlphabet(UpperAll(s))
  {
    var i :| 0 <= i < |s| && s[i] == '=';
    assert IndexOf(UpperAll(s)[i]) == -1;
  }

  /** One turn of the loop; the accumulator, masked each time, never comes near 32 bits. */
  lemma NextDigit(s: string, i: nat, r: Reader)
    requires i < |s| && ReadSoFar(s, i, r) && IndexOf(s[i]) >= 0
    ensures ShiftLeft(r.acc, 5) + IndexOf(s[i]) < 0x1_0000
    ensures ReadSoFar(s, i + 1, Feed(r, IndexOf(s[i]), 5))
  {
    var before, after := Indices(s[..i]), Indices(s[..i + 1]);
    assert after == before + [IndexOf(s[i])];
    assert after[..|before|] == before;
    Powers();
    FeedAllPacks(before, 5);
    PowAtMost(r.held);
    LeftFive(r.acc);
  }

  lemma PowAtMost(k: nat)
    requires k <= 7
    ensures Pow2(k) <= 128
  {
    Powers();
    if k < 7 { PowGrows(k, 7); }
  }

  lemma {:induction false} PowGrows(j: nat, k: nat)
    requires j < k
    ensures Pow2(j) <= Pow2(k)
  {
    if j + 1 < k { PowGrows(j, k - 1); }
  }

  /** What the loop ends with: the bytes, and the bits that fill none. */
  lemma ReadAll(s: string, r: Reader)
    requires InAlphabet(s) && r == FeedAll(Indices(s), 5)
    ensures var bits := Spread(Indices(s), 5);
            r.output == Pack(bits, 8) && (SpareIsZero(bits) <==> r.held == 0 || r.acc == 0)
  {
    Powers();
    FeedAllPacks(Indices(s), 5);
    SpareHeld(r, Spread(Indices(s), 5));
  }

  lemma SpareHeld(r: Reader, bits: seq<bool>)
    requires Holds(r, bits) && r.held < 8
    ensures SpareIsZero(bits) <==> r.held == 0 || r.acc == 0
  {
    LeftAdd(|bits| - r.held, r.held, 8);
    assert Left(|bits|, 8) == r.held;
    NumZeros(r.held);
    if r.held == 0 {
      assert bits[|bits|..] == Zeros(0);
    } else if r.acc == 0 {
      ZeroBits(bits[|bits| - r.held..]);
    }
  }

  // ---------------------------------------------------------------------------
  // Agreement
  // ---------------------------------------------------------------------------

  predicate AllPadding(s: string) {
    forall i :: 0 <= i < |s| ==> s[i] == '='
  }

  lemma {:induction false} TrimPaddingCuts(s: string) returns (cut: string)
    ensures AllPadding(cut) && s == TrimPadding(s) + cut
  {
    if s != "" && s[|s| - 1] == '=' {
      cut := TrimPaddingCuts(s[..|s| - 1]);
      cut := cut + [s[|s| - 1]];
    } else {
      cut := "";
    }
  }

  /** Trimming takes blanks off the front, and padding and blanks off the end. */
  lemma BodyCuts(value: string) returns (front: string, padding: string, end: string)
    ensures value == front + Body(value) + padding + end
    ensures AllSpace(front, RustSpace) && AllPadding(padding) && AllSpace(end, RustSpace)
  {
    front, end := TrimCuts(value, RustSpace);
    padding := TrimPaddingCuts(Trim(value, RustSpace));
  }

  /** What stripping leaves of trimmed blanks: the one blank JavaScript does not know. */
  lemma StripSpace(s: string)
    requires AllSpace(s, RustSpace)
    ensures forall c :: c in Strip(s) <==> c in s && c == NEXT_LINE
  {
    FilterIn(s, Kept);
    forall c | c in s ensures Kept(c) <==> c == NEXT_LINE {
      var i :| 0 <= i < |s| && s[i] == c;
    }
  }

  lemma LetterFacts(c: char)
    requires IndexOf(AsciiUpper(c)) >= 0
    ensures Kept(c) && c < '\U{0080}' && c != NEXT_LINE
  {}

  /** The letters of an accepted secret survive the stripping. */
  lemma StripBody(body: string)
    requires InAlphabet(UpperAll(body))
    ensures Strip(body) == body && Plain(body) && NEXT_LINE !in body
  {
    forall i | 0 <= i < |body| ensures Kept(body[i]) && body[i] < '\U{0080}' && body[i] != NEXT_LINE {
      assert IndexOf(UpperAll(body)[i]) >= 0;
      LetterFacts(body[i]);
    }
    FilterAll(body, Kept);
  }

  /** What the browser reads of an input whose body is plain letters. */
  lemma Stripped(value: string) returns (front: string, end: string)
    requires InAlphabet(UpperAll(Body(value)))
    ensures Strip(value) == front + Body(value) + end
    ensures forall c :: c in front || c in end ==> c == NEXT_LINE
    ensures NEXT_LINE in value <==> front != "" || end != ""
  {
    var a, padding, b := BodyCuts(value);
    StripBody(Body(value));
    StripParts(a, Body(value), padding, b);
    BlankLeft(a);
    BlankLeft(b);
    front, end := Strip(a), Strip(b);
    InParts(a, Body(value), padding, b, NEXT_LINE);
  }

  lemma StripParts(a: string, body: string, padding: string, b: string)
    requires Strip(body) == body && AllPadding(padding)
    ensures Strip(a + body + padding + b) == Strip(a) + body + Strip(b)
    ensures NEXT_LINE !in padding
  {
    forall c | c in padding ensures !Kept(c) && c != NEXT_LINE {}
    FilterAll(padding, Kept);
    FilterConcat(a + body + padding, b, Kept);
    FilterConcat(a + body, padding, Kept);
    FilterConcat(a, body, Kept);
  }

  /** Of trimmed blanks, stripping leaves the next-line characters. */
  lemma BlankLeft(s: string)
    requires AllSpace(s, RustSpace)
    ensures forall c :: c in Strip(s) ==> c == NEXT_LINE
    ensures Strip(s) != "" <==> NEXT_LINE in s
  {
    StripSpace(s);
    if Strip(s) != "" { assert Strip(s)[0] in Strip(s); }
  }

  lemma InParts(a: string, b: string, c: string, d: string, x: char)
    ensures x in a + b + c + d <==> x in a || x in b || x in c || x in d
  {}

  /**
   * Whenever the native decoder accepts, the browser decoders return the same bytes, if and only if the input does
   * not contain U+0085, which only Rust counts as white space.
   */
  lemma NativeAgrees(value: string, upper: string -> string)
    requires Uppercases(upper) && NativeDecoded(value).Some?
    ensures Decoded(value, upper) == NativeDecoded(value) <==> NEXT_LINE !in value
    ensures NEXT_LINE in value ==> Decoded(value, upper) == None
  {
    var body := Body(value);
    var front, end := Stripped(value);
    StripBody(body);
    if NEXT_LINE !in value {
      assert front + body + end == body;
    } else {
      var all := front + body + end;
      AllPlain(front, body, end);
      var i := if front != "" then 0 else |front + body|;
      assert all[i] == NEXT_LINE by { NextLineAt(front, body, end); }
      assert IndexOf(UpperAll(all)[i]) == -1;
    }
  }

  lemma AllPlain(front: string, body: string, end: string)
    requires forall c :: c in front || c in end ==> c == NEXT_LINE
    requires Plain(body)
    ensures Plain(front + body + end)
  {
    var all := front + body + end;
    forall i | 0 <= i < |all| ensures all[i] < '\U{0080}' || all[i] == NEXT_LINE {
      if i < |front| {
        assert all[i] in front;
      } else if i >= |front + body| {
        assert all[i] in end;
      }
    }
  }

  lemma NextLineAt(front: string, body: string, end: string)
    requires forall c :: c in front || c in end ==> c == NEXT_LINE
    requires front != "" || end != ""
    ensures (front + body + end)[if front != "" then 0 else |front + body|] == NEXT_LINE
  {
    if front != "" { assert front[0] in front; } else { assert end[0] in end; }
  }

  /**
   * An accepted secret is what its bytes encode to, if and only if its letters do not go on for a whole letter
   * after the last byte: such letters are all zero bits, accepted, and lost.
   */
  lemma NativeReencodes(value: string)
    requires NativeDecoded(value).Some?
    ensures Encoded(NativeDecoded(value).value) == UpperAll(Body(value)) <==> |Body(value)| * 5 % 8 < 5
  {
    var body := UpperAll(Body(value));
    var bits := Spread(Indices(body), 5);
    SpreadSize(Indices(body), 5);
    GroupsAre(|bits|, 8);
    if Left(|bits|, 8) < 5 { ReencodesShort(body); } else { ReencodesLong(body); }
  }

  /**
   * The native decoder accepts exactly the secrets whose body, trimmed of blanks and then of `=` at the end, is 16 to
   * 2048 letters or digits from 2 to 7, with zero bits after the last byte; it returns the bytes of that number.
   */
  lemma NativeExactly(value: string)
    ensures var body := Body(value);
            var plain := forall c :: c in body ==> Letter(c);
            && (NativeDecoded(value).Some? <==>
                  plain && 16 <= |body| <= 2048 && Numeral(LetterValues(body), 32) % Pow2(5 * |body| % 8) == 0)
            && (NativeDecoded(value).Some? ==>
                  var bytes := NativeDecoded(value).value;
                  && |bytes| == 5 * |body| / 8
                  && Numeral(LetterValues(body), 32) == Numeral(bytes, 256) * Pow2(5 * |body| % 8))
  {
    var body := Body(value);
    if forall c :: c in body ==> Letter(c) {
      UpperLetters(body);
      SpareExactly(body);
    } else {
      var c :| c in body && !Letter(c);
      var i :| 0 <= i < |body| && body[i] == c;
      assert IndexOf(UpperAll(body)[i]) == -1;
    }
  }

  /** White space around a secret, and padding after it, are cut off. */
  lemma BodyBetween(front: string, body: string, padding: string, end: string)
    requires AllSpace(front, RustSpace) && AllPadding(padding) && AllSpace(end, RustSpace)
    requires body != "" && forall c :: c in body ==> Letter(c)
    ensures Body(front + body + padding + end) == body
  {
    var text := body + padding;
    assert body[0] in body && body[|body| - 1] in body;
    assert text[|text| - 1] == if padding == "" then body[|body| - 1] else padding[|padding| - 1];
    TrimBetween(front, text, end, RustSpace);
    assert front + text + end == front + body + padding + end;
    PaddingCut(body, padding);
  }

  lemma {:induction false} PaddingCut(body: string, padding: string)
    requires AllPadding(padding) && body != "" && body[|body| - 1] != '='
    ensures TrimPadding(body + padding) == body
  {
    if padding == "" {
      assert body + padding == body;
    } else {
      var n := |padding| - 1;
      assert (body + padding)[..|body + padding| - 1] == body + padding[..n];
      PaddingCut(body, padding[..n]);
    }
  }

  lemma SpareExactly(s: string)
    requires forall c :: c in s ==> Letter(c)
    requires InAlphabet(UpperAll(s)) && Indices(UpperAll(s)) == LetterValues(s)
    ensures var bits, unit, number := Spread(Indices(UpperAll(s)), 5), Pow2(5 * |s| % 8), Numeral(LetterValues(s), 32);
            && |Pack(bits, 8)| == 5 * |s| / 8
            && (SpareIsZero(bits) <==> number % unit == 0)
            && (SpareIsZero(bits) ==> number == Numeral(Pack(bits, 8), 256) * unit)
  {
    PackedSize(LetterValues(s));
    SpareNumber(LetterValues(s), Left(|Spread(LetterValues(s), 5)|, 8));
  }

  lemma SpareNumber(digits: seq<nat>, spare: nat)
    requires Fit(digits, 32) && spare == Left(|Spread(digits, 5)|, 8)
    ensures var bits, unit, number := Spread(digits, 5), Pow2(spare), Numeral(digits, 32);
            && (SpareIsZero(bits) <==> number % unit == 0)
            && (SpareIsZero(bits) ==> number == Numeral(Pack(bits, 8), 256) * unit)
  {
    var bits := Spread(digits, 5);
    PackedLetters(digits);
    RestOf(Numeral(Pack(bits, 8), 256), Pow2(spare), Num(bits[|bits| - spare..]));
    ZeroTail(bits[|bits| - spare..]);
  }

  lemma ZeroTail(tail: seq<bool>)
    ensures Num(tail) == 0 <==> tail == Zeros(|tail|)
  {
    NumZeros(|tail|);
    if Num(tail) == 0 { ZeroBits(tail); }
  }

  lemma RestOf(n: nat, unit: nat, rest: nat)
    requires rest < unit
    ensures (n * unit + rest) % unit == rest
  {
    var x := n * unit + rest;
    var q, r := x / unit, x % unit;
    assert unit * (q - n) == rest - r;
    if q > n { Larger(unit, q - n); }
    if q < n { Larger(unit, n - q); }
  }

  lemma ReencodesShort(body: string)
    requires InAlphabet(body)
    requires var bits := Spread(Indices(body), 5); Left(|bits|, 8) < 5 && SpareIsZero(bits)
    ensures Encoded(Pack(Spread(Indices(body), 5), 8)) == body
  {
    var digits := Indices(body);
    var bits := Spread(digits, 5);
    var bytes, spare := Pack(bits, 8), Left(|bits|, 8);
    Powers();
    WholeThenSpare(bits, spare);
    PackSpread(digits, 5);
    SpreadSize(digits, 5);
    BytesAndSpare(bits);
    SparePad(|digits|, |bytes|, spare);
    CharsOfIndices(body);
  }

  lemma ReencodesLong(body: string)
    requires InAlphabet(body) && Left(|Spread(Indices(body), 5)|, 8) >= 5
    ensures Encoded(Pack(Spread(Indices(body), 5), 8)) != body
  {
    var digits := Indices(body);
    var bits := Spread(digits, 5);
    var bytes := Pack(bits, 8);
    SpreadSize(digits, 5);
    BytesAndSpare(bits);
    ShorterWithout(|digits|, |bytes|, Left(|bits|, 8));
    DigitCount(bytes);
  }

  lemma BytesAndSpare(bits: seq<bool>)
    ensures |bits| == 8 * |Pack(bits, 8)| + Left(|bits|, 8)
  {
    PackFits(bits, 8);
    GroupsAre(|bits|, 8);
  }

  lemma DigitCount(bytes: seq<nat>)
    ensures 5 * |Digits(bytes)| == 8 * |bytes| + Pad(|bytes|)
  {
    SpreadSize(bytes, 8);
    PackFits(Spread(bytes, 8) + Zeros(Pad(|bytes|)), 5);
    GroupsAre(8 * |bytes| + Pad(|bytes|), 5);
  }

  lemma SparePad(digits: nat, bytes: nat, spare: nat)
    requires digits * 5 == bytes * 8 + spare && spare < 5
    ensures Pad(bytes) == spare
  {}

  lemma ShorterWithout(digits: nat, bytes: nat, spare: nat)
    requires digits * 5 == bytes * 8 + spare && 5 <= spare
    ensures bytes * 8 + Pad(bytes) < digits * 5
  {}

  lemma CharsOfIndices(s: string)
    requires InAlphabet(s)
    ensures Fit(Indices(s), 32) && Chars(Indices(s)) == s
  {}

  /** Both kinds of disagreement do occur: a trailing U+0085, and a seventeenth letter that adds nothing. */
  lemma DisagreementsOccur(upper: string -> string)
    requires Uppercases(upper)
    ensures var s := seq(16, _ => 'A') + [NEXT_LINE];
            NativeDecoded(s) == Some(seq(10, _ => 0)) && Decoded(s, upper) == None
    ensures var s := seq(17, _ => 'A');
            NativeDecoded(s) == Some(seq(10, _ => 0)) && Encoded(seq(10, _ => 0)) != s
  {
    LettersA(16);
    NativeAgrees(seq(16, _ => 'A') + [NEXT_LINE], upper);
    SeventeenLetters();
  }

  lemma SeventeenLetters()
    ensures var s := seq(17, _ => 'A');
            NativeDecoded(s) == Some(seq(10, _ => 0)) && Encoded(seq(10, _ => 0)) != s
  {
    LettersA(17);
    LostLetter(seq(17, _ => 'A'), seq(10, _ => 0));
  }

  lemma LostLetter(s: string, bytes: seq<nat>)
    requires NativeDecoded(s) == Some(bytes) && Body(s) == s && |s| == 17 && forall i :: 0 <= i < |s| ==> s[i] == 'A'
    ensures Encoded(bytes) != s
  {
    assert UpperAll(s) == s;
    NativeReencodes(s);
  }

  lemma TrailingLine(s: string)
    requires s != "" && !RustSpace(s[0]) && !RustSpace(s[|s| - 1]) && s[|s| - 1] != '='
    ensures Body(s + [NEXT_LINE]) == s == Body(s)
  {
    assert (s + [NEXT_LINE])[..|s|] == s;
    assert TrimStart(s + [NEXT_LINE], RustSpace) == s + [NEXT_LINE];
    assert TrimEnd(s, RustSpace) == s;
  }

  /** A run of the zero letter decodes to zero bytes. */
  lemma LettersA(n: nat)
    requires 16 <= n <= 17
    ensures var s := seq(n, _ => 'A');
            Body(s) == s && NativeDecoded(s) == Some(seq(10, _ => 0)) && NativeDecoded(s + [NEXT_LINE]) == NativeDecoded(s)
  {
    var s := seq(n, _ => 'A');
    TrailingLine(s);
    assert UpperAll(s) == s;
    ZeroDigits(Indices(s));
    ZeroSecret(n * 5);
  }

  lemma ZeroSecret(n: nat)
    requires 80 <= n < 88
    ensures Pack(Zeros(n), 8) == seq(10, _ => 0) && SpareIsZero(Zeros(n))
  {
    ZeroBytes(n);
    GroupsAre(n, 8);
  }

  lemma {:induction false} ZeroDigits(digits: seq<nat>)
    requires forall i :: 0 <= i < |digits| ==> digits[i] == 0
    ensures Spread(digits, 5) == Zeros(|digits| * 5)
  {
    if digits != [] {
      ZeroDigits(digits[..|digits| - 1]);
      ZeroIsBits(5);
    }
  }

  lemma {:induction false} ZeroBytes(n: nat)
    ensures |Pack(Zeros(n), 8)| == Groups(n, 8) && Fit(Pack(Zeros(n), 8), 1)
  {
    if n >= 8 {
      ZeroBytes(n - 8);
      NumZeros(8);
      assert Zeros(n)[..8] == Zeros(8) && Zeros(n)[8..] == Zeros(n - 8);
    }
  }
}
