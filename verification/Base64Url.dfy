/** Canonical unpadded base64url, section 5 of RFC 4648. */
module Base64Url {
  import opened Seqs
  import opened Bits

  /** `BASE64URL_ALPHABET.charAt(i)`: upper case, lower case, digits, '-' and '_'. */
  function CharAt(i: nat): char
    requires i < 64
  {
    if i < 26 then ('A' as int + i) as char
    else if i < 52 then ('a' as int + i - 26) as char
    else if i < 62 then ('0' as int + i - 52) as char
    else if i == 62 then '-' else '_'
  }

  /** `BASE64URL_ALPHABET.indexOf(c)`. */
  function IndexOf(c: char): (i: int)
    ensures -1 <= i < 64
    ensures i >= 0 ==> CharAt(i) == c
  {
    if 'A' <= c <= 'Z' then c as int - 'A' as int
    else if 'a' <= c <= 'z' then c as int - 'a' as int + 26
    else if '0' <= c <= '9' then c as int - '0' as int + 52
    else if c == '-' then 62 else if c == '_' then 63 else -1
  }

  lemma IndexOfCharAt(i: nat)
    requires i < 64
    ensures IndexOf(CharAt(i)) == i
  {
    if i < 26 {
    } else if i < 52 {
    } else if i < 62 {
    }
  }

  predicate InAlphabet(s: string) {
    forall i :: 0 <= i < |s| ==> IndexOf(s[i]) >= 0
  }

  function Indices(s: string): (r: seq<nat>)
    requires InAlphabet(s)
    ensures |r| == |s| && Fit(r, 64)
  {
    seq(|s|, i requires 0 <= i < |s| => IndexOf(s[i]))
  }

  function Chars(indices: seq<nat>): (s: string)
    requires Fit(indices, 64)
    ensures |s| == |indices|
  {
    seq(|indices|, i requires 0 <= i < |indices| => CharAt(indices[i]))
  }

  lemma IndicesOfChars(indices: seq<nat>)
    requires Fit(indices, 64)
    ensures InAlphabet(Chars(indices)) && Indices(Chars(indices)) == indices
  {
    var s := Chars(indices);
    forall i | 0 <= i < |s| ensures IndexOf(s[i]) == indices[i] { IndexOfCharAt(indices[i]); }
  }

  lemma CharsOfIndices(s: string)
    requires InAlphabet(s)
    ensures Chars(Indices(s)) == s
  {}

  // ---------------------------------------------------------------------------
  // The source's length and canonicity checks
  // ---------------------------------------------------------------------------

  /** `value.replace(/=+$/u, "")`. */
  function Unpadded(value: string): (s: string)
    ensures |s| <= |value|
  {
    if value != "" && value[|value| - 1] == '=' then Unpadded(value[..|value| - 1]) else value
  }

  function DecodedLength(value: string): int {
    var unpadded := Unpadded(value);
    var remainder, padding := |unpadded| % 4, |value| - |unpadded|;
    if remainder == 1 || (padding > 0 && !((remainder == 2 && padding == 2) || (remainder == 3 && padding == 1))) then -1
    else |unpadded| * 6 / 8
  }

  predicate IsCanonical(value: string) {
    && value != "" && InAlphabet(value) && |value| % 4 != 1
    && var last := IndexOf(value[|value| - 1]);
       && (|value| % 4 == 2 ==> last % 16 == 0)
       && (|value| % 4 == 3 ==> last % 4 == 0)
  }

  lemma AlphabetUnpadded(value: string)
    requires InAlphabet(value)
    ensures Unpadded(value) == value
  {
    if value != "" { assert IndexOf(value[|value| - 1]) >= 0; }
  }

  lemma BitCount(value: string)
    requires InAlphabet(value)
    ensures var n := |Spread(Indices(value), 6)|; n == 6 * |value| && Left(n, 8) == n % 8
  {
    SpreadSize(Indices(value), 6);
    GroupsAre(6 * |value|, 8);
  }

  /** The spare bits a string of this length ends with. */
  function Spare(length: nat): nat {
    if length % 4 == 0 then 0 else if length % 4 == 1 then 6 else if length % 4 == 2 then 4 else 2
  }

  /** A number's low bits are zero exactly when its bits there are. */
  lemma LowZeros(n: nat, spare: nat)
    requires n < 64 && (spare == 2 || spare == 4)
    ensures BitsOf(n, 6)[6 - spare..] == Zeros(spare) <==> n % (if spare == 2 then 4 else 16) == 0
  {
    Powers();
    var end := BitsOf(n, 6);
    NumBitsOf(n, 6);
    CutNum(end, spare);
    RightTwoFour(n);
    NumZeros(spare);
    if Num(end[6 - spare..]) == 0 { ZeroBits(end[6 - spare..]); }
  }

  lemma LastDigitBits(value: string)
    requires value != "" && InAlphabet(value)
    ensures var bits := Spread(Indices(value), 6);
            |bits| >= 6 && bits[|bits| - 6..] == BitsOf(IndexOf(value[|value| - 1]), 6)
  {
    var indices := Indices(value);
    assert Spread(indices, 6) == Spread(indices[..|indices| - 1], 6) + BitsOf(indices[|indices| - 1], 6);
  }

  lemma SpareIs(n: nat)
    ensures Spare(n) == 6 * n % 8 && (Spare(n) == 6 <==> n % 4 == 1)
    ensures (Spare(n) == 4 <==> n % 4 == 2) && (Spare(n) == 2 <==> n % 4 == 3) && (Spare(n) == 0 <==> n % 4 == 0)
  {
    var q, r := n / 4, n % 4;
    assert n == 4 * q + r;
    assert 6 * n == 8 * (3 * q) + 6 * r;
  }

  lemma TailLength(value: string)
    requires value != "" && InAlphabet(value)
    ensures DecodedLength(value) == if Spare(|value|) == 6 then -1 else (6 * |value| - Spare(|value|)) / 8
  {
    AlphabetUnpadded(value);
    SpareIs(|value|);
    FloorDown(6 * |value|);
  }

  lemma FloorDown(n: nat)
    ensures n / 8 == (n - n % 8) / 8
  {}

  lemma CanonicalIs(value: string)
    requires value != "" && InAlphabet(value)
    ensures var spare, last := Spare(|value|), IndexOf(value[|value| - 1]);
            IsCanonical(value) <==> spare == 0 || (spare == 4 && last % 16 == 0) || (spare == 2 && last % 4 == 0)
  {
    SpareIs(|value|);
  }

  lemma TailBits(value: string, bits: seq<bool>)
    requires value != "" && InAlphabet(value) && bits == Spread(Indices(value), 6) && |bits| >= 6
    ensures IsCanonical(value) <==> Spare(|value|) < 6 && bits[|bits| - Spare(|value|)..] == Zeros(Spare(|value|))
  {
    CanonicalIs(value);
    LastDigitBits(value);
    SpareZeros(bits, Spare(|value|), IndexOf(value[|value| - 1]));
  }

  lemma SpareZeros(bits: seq<bool>, spare: nat, last: nat)
    requires |bits| >= 6 && bits[|bits| - 6..] == BitsOf(last, 6) && last < 64 && spare in [0, 2, 4, 6]
    ensures spare < 6 ==>
              (bits[|bits| - spare..] == Zeros(spare) <==>
                 spare == 0 || (spare == 4 && last % 16 == 0) || (spare == 2 && last % 4 == 0))
  {
    if spare == 0 {
      assert bits[|bits|..] == Zeros(0);
    } else if spare < 6 {
      LowZeros(last, spare);
      TailOfTail(bits, spare);
    }
  }

  /** The bits of a canonical string that do not fill a byte are zero, and fewer than six. */
  lemma CanonicalTail(value: string)
    requires value != "" && InAlphabet(value)
    ensures var bits, spare := Spread(Indices(value), 6), Spare(|value|);
            && |bits| == 6 * |value| && spare == Left(|bits|, 8) <= |bits|
            && DecodedLength(value) == (if spare == 6 then -1 else (|bits| - spare) / 8)
            && (IsCanonical(value) <==> spare < 6 && bits[|bits| - spare..] == Zeros(spare))
  {
    BitCount(value);
    SpareIs(|value|);
    TailLength(value);
    TailBits(value, Spread(Indices(value), 6));
  }

  lemma TailOfTail(bits: seq<bool>, spare: nat)
    requires spare <= 6 <= |bits|
    ensures bits[|bits| - spare..] == bits[|bits| - 6..][6 - spare..]
  {}

  // ---------------------------------------------------------------------------
  // The code, and its two round trips
  // ---------------------------------------------------------------------------

  /** Six-bit digits read as bytes; the spare bits at the end are dropped. */
  function Decoded(value: string): Option<seq<nat>> {
    if IsCanonical(value) then Some(Pack(Spread(Indices(value), 6), 8)) else None
  }

  /** The digits of one group of up to three bytes, missing bytes read as zero. */
  function GroupDigits(group: seq<nat>): (digits: seq<nat>)
    requires 1 <= |group| <= 3 && IsBytes(group)
    ensures |digits| == |group| + 1 && Fit(digits, 64)
  {
    var a, b, c := group[0], if |group| > 1 then group[1] else 0, if |group| > 2 then group[2] else 0;
    [a / 4, a % 4 * 16 + b / 16] + (if |group| > 1 then [b % 16 * 4 + c / 64] else []) +
      (if |group| > 2 then [c % 64] else [])
  }

  /** How many bytes come before the last group. */
  function Whole(n: nat): (m: nat)
    ensures n > 0 ==> m < n <= m + 3
    ensures m % 3 == 0
  {
    if n == 0 then 0 else (n - 1) / 3 * 3
  }

  function Digits(bytes: seq<nat>): (digits: seq<nat>)
    requires IsBytes(bytes)
    ensures Fit(digits, 64)
    ensures bytes == [] <==> digits == []
  {
    if bytes == [] then [] else Digits(bytes[..Whole(|bytes|)]) + GroupDigits(bytes[Whole(|bytes|)..])
  }

  function Encoded(bytes: seq<nat>): string
    requires IsBytes(bytes)
  {
    Chars(Digits(bytes))
  }

  /** What a reader makes of a digit, by the number of bits it holds. */
  lemma FeedSix(r: Reader, d: nat)
    ensures var next: nat := r.acc * 64 + d;
            && (r.held == 0 ==> Feed(r, d, 6) == Reader(next, 6, r.output))
            && (r.held == 6 ==> Feed(r, d, 6) == Reader(next % 16, 4, r.output + [next / 16 % 256]))
            && (r.held == 4 ==> Feed(r, d, 6) == Reader(next % 4, 2, r.output + [next / 4 % 256]))
            && (r.held == 2 ==> Feed(r, d, 6) == Reader(0, 0, r.output + [next % 256]))
  {
    LeftSix(r.acc);
    RightTwoFour(r.acc * 64 + d);
  }

  /** A byte cut in two and put together again, above `rest`. */
  lemma CutByte(byte: nat, unit: nat, rest: nat)
    requires byte < 256 && (unit == 4 || unit == 16) && rest < unit
    ensures var next: nat := if unit == 16 then byte / 4 * 64 + (byte % 4 * 16 + rest) else byte / 16 * 64 + (byte % 16 * 4 + rest);
            next == byte * unit + rest
    ensures (byte * unit + rest) % unit == rest && (byte * unit + rest) / unit == byte
  {
    if unit == 16 {
      var q, r := byte / 4, byte % 4;
      assert byte == 4 * q + r;
    } else {
      var q, r := byte / 16, byte % 16;
      assert byte == 16 * q + r;
    }
  }

  /** The digits of a group, read one after another from a clean reader. */
  lemma ReadFirst(out: seq<nat>, a: nat, rest: nat)
    requires a < 256 && rest < 16
    ensures Feed(Feed(Reader(0, 0, out), a / 4, 6), a % 4 * 16 + rest, 6) == Reader(rest, 4, out + [a])
  {
    FeedSix(Reader(0, 0, out), a / 4);
    FeedSix(Reader(a / 4, 6, out), a % 4 * 16 + rest);
    CutByte(a, 16, rest);
  }

  lemma ReadSecond(out: seq<nat>, b: nat, rest: nat)
    requires b < 256 && rest < 4
    ensures Feed(Reader(b / 16, 4, out), b % 16 * 4 + rest, 6) == Reader(rest, 2, out + [b])
  {
    FeedSix(Reader(b / 16, 4, out), b % 16 * 4 + rest);
    CutByte(b, 4, rest);
  }

  lemma ReadThird(out: seq<nat>, c: nat)
    requires c < 256
    ensures Feed(Reader(c / 64, 2, out), c % 64, 6) == Reader(0, 0, out + [c])
  {
    FeedSix(Reader(c / 64, 2, out), c % 64);
    assert c / 64 * 64 + c % 64 == c;
  }

  lemma FedTwo(digits: seq<nat>, x: nat, y: nat)
    ensures FeedAll(digits + [x, y], 6) == Feed(Feed(FeedAll(digits, 6), x, 6), y, 6)
  {
    var one, two := digits + [x], digits + [x, y];
    assert one[..|digits|] == digits && two[..|digits| + 1] == one;
  }

  lemma FedThree(digits: seq<nat>, x: nat, y: nat, z: nat)
    ensures FeedAll(digits + [x, y, z], 6) == Feed(FeedAll(digits + [x, y], 6), z, 6)
  {
    var three := digits + [x, y, z];
    assert three[..|digits| + 2] == digits + [x, y];
  }

  lemma FedFour(digits: seq<nat>, x: nat, y: nat, z: nat, t: nat)
    ensures FeedAll(digits + [x, y, z, t], 6) == Feed(FeedAll(digits + [x, y, z], 6), t, 6)
  {
    var four := digits + [x, y, z, t];
    assert four[..|digits| + 3] == digits + [x, y, z];
  }

  /** The bits a reader still holds after a group: none, or the zeros that completed the last digit. */
  function Leftover(n: nat): nat {
    if n % 3 == 1 then 4 else if n % 3 == 2 then 2 else 0
  }

  /** Reading back one group from a clean reader gives its bytes and leaves nothing behind. */
  lemma GroupReadsBack(digits: seq<nat>, bytes: seq<nat>, group: seq<nat>)
    requires FeedAll(digits, 6) == Reader(0, 0, bytes)
    requires 1 <= |group| <= 3 && IsBytes(group)
    ensures FeedAll(digits + GroupDigits(group), 6) == Reader(0, Leftover(|group|), bytes + group)
  {
    if |group| == 1 {
      assert group == [group[0]];
      ReadOne(digits, bytes, group[0]);
    } else if |group| == 2 {
      assert group == [group[0], group[1]];
      ReadTwo(digits, bytes, group[0], group[1]);
    } else {
      assert group == [group[0], group[1], group[2]];
      ReadThree(digits, bytes, group[0], group[1], group[2]);
    }
  }

  lemma ReadOne(digits: seq<nat>, bytes: seq<nat>, a: nat)
    requires FeedAll(digits, 6) == Reader(0, 0, bytes) && a < 256
    ensures FeedAll(digits + GroupDigits([a]), 6) == Reader(0, 4, bytes + [a])
  {
    assert GroupDigits([a]) == [a / 4, a % 4 * 16 + 0];
    FedTwo(digits, a / 4, a % 4 * 16 + 0);
    ReadFirst(bytes, a, 0);
  }

  lemma TwoBytesDigits(a: nat, b: nat)
    requires a < 256 && b < 256
    ensures GroupDigits([a, b]) == [a / 4, a % 4 * 16 + b / 16, b % 16 * 4 + 0]
  {}

  lemma ReadTwo(digits: seq<nat>, bytes: seq<nat>, a: nat, b: nat)
    requires FeedAll(digits, 6) == Reader(0, 0, bytes) && a < 256 && b < 256
    ensures FeedAll(digits + GroupDigits([a, b]), 6) == Reader(0, 2, bytes + [a, b])
  {
    var x: nat, y: nat, z: nat := a / 4, a % 4 * 16 + b / 16, b % 16 * 4 + 0;
    TwoBytesDigits(a, b);
    FedTwo(digits, x, y);
    FedThree(digits, x, y, z);
    ReadFirst(bytes, a, b / 16);
    ReadSecond(bytes + [a], b, 0);
    assert bytes + [a] + [b] == bytes + [a, b];
  }

  lemma ThreeBytesDigits(a: nat, b: nat, c: nat)
    requires a < 256 && b < 256 && c < 256
    ensures GroupDigits([a, b, c]) == [a / 4, a % 4 * 16 + b / 16, b % 16 * 4 + c / 64, c % 64]
  {}

  lemma ReadThree(digits: seq<nat>, bytes: seq<nat>, a: nat, b: nat, c: nat)
    requires FeedAll(digits, 6) == Reader(0, 0, bytes) && a < 256 && b < 256 && c < 256
    ensures FeedAll(digits + GroupDigits([a, b, c]), 6) == Reader(0, 0, bytes + [a, b, c])
  {
    var x: nat, y: nat, z: nat, t: nat := a / 4, a % 4 * 16 + b / 16, b % 16 * 4 + c / 64, c % 64;
    ThreeBytesDigits(a, b, c);
    FedTwo(digits, x, y);
    FedThree(digits, x, y, z);
    FedFour(digits, x, y, z, t);
    ReadFirst(bytes, a, b / 16);
    ReadSecond(bytes + [a], b, c / 64);
    ReadThird(bytes + [a] + [b], c);
    assert bytes + [a] + [b] + [c] == bytes + [a, b, c];
  }

  lemma LastGroup(n: nat)
    requires n > 0
    ensures Leftover(Whole(n)) == 0 && Leftover(n - Whole(n)) == Leftover(n)
  {}

  /** The digits of a byte sequence read back to it, with nothing but zeros left over. */
  lemma {:induction false} DigitsReadBack(bytes: seq<nat>)
    requires IsBytes(bytes)
    ensures FeedAll(Digits(bytes), 6) == Reader(0, Leftover(|bytes|), bytes)
  {
    if bytes != [] {
      var m := Whole(|bytes|);
      LastGroup(|bytes|);
      DigitsReadBack(bytes[..m]);
      GroupReadsBack(Digits(bytes[..m]), bytes[..m], bytes[m..]);
      assert bytes[..m] + bytes[m..] == bytes;
    }
  }

  /** Decoding what was encoded returns the bytes; every encoding is canonical. */
  lemma EncodeThenDecode(bytes: seq<nat>)
    requires bytes != [] && IsBytes(bytes)
    ensures Decoded(Encoded(bytes)) == Some(bytes)
  {
    IndicesOfChars(Digits(bytes));
    DigitsReadBack(bytes);
    Powers();
    FeedAllPacks(Digits(bytes), 6);
    CanonicalTail(Encoded(bytes));
    LeftoverIsZero(Digits(bytes));
    LeftoverSpare(|bytes|, |Digits(bytes)|, Leftover(|bytes|));
  }

  /** A reader that ends with an empty accumulator has dropped zeros only. */
  lemma LeftoverIsZero(digits: seq<nat>)
    requires Fit(digits, 64) && FeedAll(digits, 6).acc == 0
    ensures var bits, held := Spread(digits, 6), FeedAll(digits, 6).held;
            && |bits| == 6 * |digits| == 8 * |FeedAll(digits, 6).output| + held
            && held <= |bits| && bits[|bits| - held..] == Zeros(held)
  {
    Powers();
    FeedAllPacks(digits, 6);
    SpreadSize(digits, 6);
    ReaderSize(digits);
    var bits := Spread(digits, 6);
    ZeroBits(bits[|bits| - FeedAll(digits, 6).held..]);
  }

  /** Bits in are bits out and bits held. */
  lemma {:induction false} ReaderSize(digits: seq<nat>)
    ensures var r := FeedAll(digits, 6); 6 * |digits| == 8 * |r.output| + r.held && r.held in [0, 2, 4, 6]
  {
    if digits != [] { ReaderSize(digits[..|digits| - 1]); }
  }

  lemma LeftoverSpare(bytes: nat, digits: nat, held: nat)
    requires 6 * digits == 8 * bytes + held && held <= 4
    ensures Spare(digits) == held
  {
    SpareIs(digits);
    ModEight(bytes, held);
  }

  lemma ModEight(n: nat, r: nat)
    requires r < 8
    ensures (8 * n + r) % 8 == r
  {}

  /** Canonical strings with the same bytes are the same string. */
  lemma DecodedInjective(s: string, t: string)
    requires IsCanonical(s) && IsCanonical(t) && Decoded(s) == Decoded(t)
    ensures s == t
  {
    BitsFromBytes(s);
    BitsFromBytes(t);
    SameLength(|s|, |t|, |Decoded(s).value|);
    IndicesFromBits(s);
    IndicesFromBits(t);
  }

  lemma IndicesFromBits(s: string)
    requires InAlphabet(s)
    ensures Pack(Spread(Indices(s), 6), 6) == Indices(s) && Chars(Indices(s)) == s
  {
    Powers();
    PackSpread(Indices(s), 6);
    CharsOfIndices(s);
  }

  lemma SameLength(m: nat, n: nat, bytes: nat)
    requires 6 * m == 8 * bytes + Spare(m) && 6 * n == 8 * bytes + Spare(n) && Spare(m) < 6 && Spare(n) < 6
    ensures m == n
  {}

  /** A canonical string's bits are those of its bytes, then zeros. */
  lemma BitsFromBytes(s: string)
    requires IsCanonical(s)
    ensures 6 * |s| == 8 * |Decoded(s).value| + Spare(|s|) && Spare(|s|) < 6
    ensures Spread(Indices(s), 6) == Spread(Decoded(s).value, 8) + Zeros(Spare(|s|))
  {
    Powers();
    CanonicalTail(s);
    DecodedBytes(s);
    WholeThenSpare(Spread(Indices(s), 6), Spare(|s|));
  }

  /** Encoding what was decoded returns the string: the code is one-to-one onto non-empty byte strings. */
  lemma DecodeThenEncode(value: string)
    requires IsCanonical(value)
    ensures var bytes := Decoded(value).value;
            bytes != [] && IsBytes(bytes) && |bytes| == DecodedLength(value) && Encoded(bytes) == value
  {
    var bytes := Decoded(value).value;
    CanonicalTail(value);
    DecodedBytes(value);
    EncodeThenDecode(bytes);
    DecodedInjective(Encoded(bytes), value);
  }

  lemma DecodedBytes(value: string)
    requires IsCanonical(value)
    ensures var bytes := Decoded(value).value;
            bytes != [] && IsBytes(bytes) && |bytes| == DecodedLength(value) && 6 * |value| == 8 * |bytes| + Spare(|value|)
  {
    Powers();
    CanonicalTail(value);
    PackFits(Spread(Indices(value), 6), 8);
    GroupsAre(6 * |value|, 8);
  }

  // ---------------------------------------------------------------------------
  // Against RFC 4648
  // ---------------------------------------------------------------------------

  /** The alphabet of section 5, and no character beside it. */
  lemma AlphabetIs(i: nat, c: char)
    ensures var alphabet := "ABCDEFGHIJKLMNOPQRSTUVWXYZ" + "abcdefghijklmnopqrstuvwxyz" + "0123456789" + "-_";
            && |alphabet| == 64 && (i < 64 ==> CharAt(i) == alphabet[i] && IndexOf(alphabet[i]) == i)
            && (IndexOf(c) >= 0 <==> c in alphabet)
  {
    var alphabet := "ABCDEFGHIJKLMNOPQRSTUVWXYZ" + "abcdefghijklmnopqrstuvwxyz" + "0123456789" + "-_";
    if i < 64 {
      IndexOfCharAt(i);
      LetterAt(alphabet, i);
    }
    if IndexOf(c) >= 0 {
      LetterAt(alphabet, IndexOf(c));
    } else if k: nat :| k < 64 && alphabet[k] == c {
      LetterAt(alphabet, k);
      IndexOfCharAt(k);
    }
  }

  lemma LetterAt(alphabet: string, i: nat)
    requires alphabet == "ABCDEFGHIJKLMNOPQRSTUVWXYZ" + "abcdefghijklmnopqrstuvwxyz" + "0123456789" + "-_"
    requires i < 64
    ensures |alphabet| == 64 && CharAt(i) == alphabet[i]
  {
    if i < 26 {
      assert alphabet[i] == "ABCDEFGHIJKLMNOPQRSTUVWXYZ"[i];
    } else if i < 52 {
      assert alphabet[i] == "abcdefghijklmnopqrstuvwxyz"[i - 26];
    } else if i < 62 {
      assert alphabet[i] == "0123456789"[i - 52];
    }
  }

  /**
   * A canonical text writes, in radix 64, the number its bytes write in radix 256, shifted by the two or four bits
   * that fill the last character.
   */
  lemma DecodedNumeral(value: string)
    requires IsCanonical(value)
    ensures var bytes := Decoded(value).value;
            && IsBytes(bytes) && |bytes| == |value| * 6 / 8
            && Numeral(Indices(value), 64) ==
               Numeral(bytes, 256) * (if |value| % 4 == 0 then 1 else if |value| % 4 == 2 then 16 else 4)
  {
    var spare := Spare(|value|);
    Powers();
    BitsFromBytes(value);
    DecodeThenEncode(value);
    PaddedNumeral(Indices(value), 6, Decoded(value).value, spare);
  }

  lemma {:induction false} GroupsJoin(front: seq<nat>, rest: seq<nat>)
    requires IsBytes(front) && IsBytes(rest) && |front| % 3 == 0
    ensures Encoded(front + rest) == Encoded(front) + Encoded(rest)
    decreases |rest|
  {
    DigitsJoin(front, rest);
  }

  lemma {:induction false} DigitsJoin(front: seq<nat>, rest: seq<nat>)
    requires IsBytes(front) && IsBytes(rest) && |front| % 3 == 0
    ensures IsBytes(front + rest) && Digits(front + rest) == Digits(front) + Digits(rest)
    decreases |rest|
  {
    if rest == [] {
      assert front + rest == front;
      assert Digits(rest) == [];
    } else {
      var m := Whole(|rest|);
      DigitsJoin(front, rest[..m]);
      OneGroupMore(front, rest, m);
    }
  }

  lemma CutGroup(bytes: seq<nat>, m: nat)
    requires IsBytes(bytes) && bytes != [] && m == Whole(|bytes|)
    ensures IsBytes(bytes[..m]) && IsBytes(bytes[m..]) && 1 <= |bytes[m..]| <= 3
    ensures Digits(bytes) == Digits(bytes[..m]) + GroupDigits(bytes[m..])
  {}

  lemma OneGroupMore(front: seq<nat>, rest: seq<nat>, m: nat)
    requires IsBytes(front) && IsBytes(rest) && |front| % 3 == 0 && rest != [] && m == Whole(|rest|)
    requires IsBytes(front + rest[..m]) && Digits(front + rest[..m]) == Digits(front) + Digits(rest[..m])
    ensures IsBytes(front + rest) && Digits(front + rest) == Digits(front) + Digits(rest)
  {
    var group := rest[m..];
    CutGroup(rest, m);
    JoinedGroup(front, rest, m);
    Regroup(Digits(front), Digits(rest[..m]), GroupDigits(group));
  }

  lemma JoinedGroup(front: seq<nat>, rest: seq<nat>, m: nat)
    requires IsBytes(front) && IsBytes(rest) && |front| % 3 == 0 && rest != [] && m == Whole(|rest|)
    ensures IsBytes(front + rest) && IsBytes(front + rest[..m]) && IsBytes(rest[m..]) && 1 <= |rest[m..]| <= 3
    ensures Digits(front + rest) == Digits(front + rest[..m]) + GroupDigits(rest[m..])
  {
    AfterFront(front, rest, m);
    WholeOf(front, rest);
    CutBefore(front + rest, front + rest[..m], rest[m..]);
  }

  lemma CutBefore(bytes: seq<nat>, before: seq<nat>, group: seq<nat>)
    requires IsBytes(bytes) && bytes != [] && bytes == before + group && |before| == Whole(|bytes|)
    ensures IsBytes(before) && IsBytes(group) && 1 <= |group| <= 3
    ensures Digits(bytes) == Digits(before) + GroupDigits(group)
  {
    assert bytes[..|before|] == before && bytes[|before|..] == group;
    CutGroup(bytes, |before|);
  }

  lemma AfterFront(front: seq<nat>, rest: seq<nat>, m: nat)
    requires IsBytes(front) && IsBytes(rest) && m <= |rest|
    ensures IsBytes(front + rest)
    ensures front + rest == front + rest[..m] + rest[m..]
  {}

  lemma WholeOf(front: seq<nat>, rest: seq<nat>)
    requires |front| % 3 == 0 && rest != []
    ensures front + rest != [] && |front| + Whole(|rest|) == Whole(|front + rest|)
  {
    WholeAfter(|front|, |rest|);
  }

  lemma WholeAfter(front: nat, rest: nat)
    requires front % 3 == 0 && rest > 0
    ensures Whole(front + rest) == front + Whole(rest)
  {}

  lemma OneGroup(bytes: seq<nat>)
    requires IsBytes(bytes) && 1 <= |bytes| <= 3
    ensures Encoded(bytes) == Chars(GroupDigits(bytes))
  {
    assert Digits(bytes[..0]) == [] && bytes[0..] == bytes;
  }

  lemma ThreeBytes(a: nat, b: nat, c: nat)
    requires a < 256 && b < 256 && c < 256
    ensures Encoded([a, b, c]) == [CharAt(a / 4), CharAt(a % 4 * 16 + b / 16), CharAt(b % 16 * 4 + c / 64), CharAt(c % 64)]
  {
    OneGroup([a, b, c]);
    ThreeBytesDigits(a, b, c);
  }

  lemma TwoBytes(a: nat, b: nat)
    requires a < 256 && b < 256
    ensures Encoded([a, b]) == [CharAt(a / 4), CharAt(a % 4 * 16 + b / 16), CharAt(b % 16 * 4)]
  {
    OneGroup([a, b]);
    TwoBytesDigits(a, b);
  }

  lemma OneByte(a: nat)
    requires a < 256
    ensures Encoded([a]) == [CharAt(a / 4), CharAt(a % 4 * 16)]
  {
    OneGroup([a]);
    assert GroupDigits([a]) == [a / 4, a % 4 * 16];
  }

  /** The encoded texts of section 10, without their padding; they are decoded again by `EncodeThenDecode`. */
  lemma TestVectors()
    ensures Encoded([]) == "" && Encoded([102]) == "Zg" && Encoded([102, 111]) == "Zm8"
    ensures Encoded([102, 111, 111]) == "Zm9v" && Encoded([102, 111, 111] + [98]) == "Zm9v" + "Yg"
    ensures Encoded([102, 111, 111] + [98, 97]) == "Zm9v" + "YmE"
    ensures Encoded([102, 111, 111] + [98, 97, 114]) == "Zm9v" + "YmFy"
  {
    var foo := [102, 111, 111];
    ShortVectors();
    GroupsJoin(foo, [98]);
    GroupsJoin(foo, [98, 97]);
    GroupsJoin(foo, [98, 97, 114]);
  }

  lemma ShortVectors()
    ensures Encoded([102]) == "Zg" && Encoded([102, 111]) == "Zm8" && Encoded([102, 111, 111]) == "Zm9v"
    ensures Encoded([98]) == "Yg" && Encoded([98, 97]) == "YmE" && Encoded([98, 97, 114]) == "YmFy"
  {
    OneByte(102);
    TwoBytes(102, 111);
    ThreeBytes(102, 111, 111);
    OneByte(98);
    TwoBytes(98, 97);
    ThreeBytes(98, 97, 114);
  }

  /**
   * A text has a decoded length unless one character is left over, or there is padding that does not fill the last
   * group of four; it is the number of whole bytes in the characters before the padding.
   */
  lemma {:induction false} DecodedLengthIs(value: string, pads: nat)
    requires pads <= |value| && forall k :: |value| - pads <= k < |value| ==> value[k] == '='
    requires pads < |value| ==> value[|value| - pads - 1] != '='
    ensures var n := |value| - pads;
            && (DecodedLength(value) >= 0 <==> n % 4 != 1 && (pads == 0 || (pads <= 2 && |value| % 4 == 0)))
            && (DecodedLength(value) >= 0 ==> 8 * DecodedLength(value) <= 6 * n < 8 * DecodedLength(value) + 8)
  {
    UnpaddedIs(value, pads);
    PaddedGroups(|value| - pads, pads);
  }

  lemma PaddedGroups(n: nat, pads: nat)
    ensures pads <= 2 && (n + pads) % 4 == 0 <==>
            (pads == 0 && n % 4 == 0) || (pads == 1 && n % 4 == 3) || (pads == 2 && n % 4 == 2)
    ensures 8 * (n * 6 / 8) <= 6 * n < 8 * (n * 6 / 8) + 8
  {
    if pads <= 2 { FillsGroup(n, pads); }
  }

  lemma FillsGroup(n: nat, pads: nat)
    requires pads <= 2
    ensures (n + pads) % 4 == (n % 4 + pads) % 4
  {
    var q := n / 4;
    assert n + pads == 4 * q + (n % 4 + pads);
  }

  lemma {:induction false} UnpaddedIs(value: string, pads: nat)
    requires pads <= |value| && forall k :: |value| - pads <= k < |value| ==> value[k] == '='
    requires pads < |value| ==> value[|value| - pads - 1] != '='
    ensures Unpadded(value) == value[..|value| - pads]
    decreases pads
  {
    if pads > 0 {
      var n := |value| - 1;
      UnpaddedIs(value[..n], pads - 1);
      assert value[..n][..n - (pads - 1)] == value[..|value| - pads];
    } else {
      assert value[..|value|] == value;
    }
  }

  // ---------------------------------------------------------------------------
  // The source's loops
  // ---------------------------------------------------------------------------

  /**
   * `decodeCanonicalBase64Url`. The accumulator stays below 2^12, so no 32-bit shift can wrap, and the write offset
   * ends exactly at the predicted length.
   */
  method Decode(value: string) returns (r: Option<seq<nat>>)
    ensures r == Decoded(value)
  {
    if !IsCanonical(value) { return None; }
    var length := DecodedLength(value);
    BufferFits(value);
    var output := new nat[length];
    var accumulator: nat, bits: nat, offset: nat := 0, 0, 0;
    for i := 0 to |value|
      invariant offset <= output.Length == length
      invariant Reader(accumulator, bits, output[..offset]) == FeedAll(Indices(value)[..i], 6)
    {
      var index: nat := IndexOf(value[i]);
      NextIndex(value, i, Reader(accumulator, bits, output[..offset]), length);
      accumulator, bits, offset := Accumulate(output, accumulator, bits, offset, index);
    }
    assert Indices(value)[..|value|] == Indices(value);
    assert output[..offset] == output[..];
    r := Some(output[..]);
  }

  /** The body of the loop. */
  method Accumulate(output: array<nat>, before: nat, held: nat, start: nat, index: nat)
    returns (accumulator: nat, bits: nat, offset: nat)
    requires start <= output.Length && (held >= 2 ==> start < output.Length)
    requires ShiftLeft(before, 6) + index < 4096
    modifies output
    ensures accumulator < 4096 && offset <= output.Length
    ensures Reader(accumulator, bits, output[..offset]) == Feed(Reader(before, held, old(output[..start])), index, 6)
  {
    accumulator, bits, offset := ShiftLeft(before, 6) + index, held + 6, start;
    if bits >= 8 {
      bits := bits - 8;
      Store(output, offset, ShiftRight(accumulator, bits) % 256);
      LowBitsBound(accumulator, bits);
      offset, accumulator := offset + 1, LowBits(accumulator, bits);
    }
  }

  lemma {:induction false} LowBitsBound(n: nat, k: nat)
    ensures LowBits(n, k) <= n
  {
    if k > 0 { LowBitsBound(n / 2, k - 1); }
  }

  lemma BufferFits(value: string)
    requires IsCanonical(value)
    ensures DecodedLength(value) >= 0 && 6 * |value| < 8 * DecodedLength(value) + 8
    ensures Decoded(value) == Some(FeedAll(Indices(value), 6).output)
    ensures |FeedAll(Indices(value), 6).output| == DecodedLength(value)
  {
    Powers();
    DecodedBytes(value);
    FeedAllPacks(Indices(value), 6);
  }

  /** `output[offset] = byte`, with the filled part of the buffer spelled out. */
  method Store(output: array<nat>, offset: nat, byte: nat)
    requires offset < output.Length
    modifies output
    ensures output[..offset + 1] == old(output[..offset]) + [byte]
  {
    output[offset] := byte;
  }

  /** One turn of the loop: the reader feeds on, the accumulator is small, and the buffer has room. */
  lemma NextIndex(value: string, i: nat, r: Reader, length: nat)
    requires InAlphabet(value) && i < |value| && r == FeedAll(Indices(value)[..i], 6)
    requires 6 * |value| < 8 * length + 8
    ensures FeedAll(Indices(value)[..i + 1], 6) == Feed(r, IndexOf(value[i]), 6)
    ensures ShiftLeft(r.acc, 6) + IndexOf(value[i]) < 4096
    ensures r.held >= 2 ==> |r.output| < length
  {
    var indices := Indices(value)[..i];
    assert Indices(value)[..i + 1][..i] == indices;
    AccumulatorBound(indices);
    LeftSix(r.acc);
    ReaderSize(indices);
    ReaderSize(Indices(value)[..i + 1]);
  }

  /** At most six bits are held. */
  lemma AccumulatorBound(indices: seq<nat>)
    requires Fit(indices, 64)
    ensures FeedAll(indices, 6).acc < 64
  {
    var r := FeedAll(indices, 6);
    Powers();
    FeedAllPacks(indices, 6);
    ReaderSize(indices);
  }

  /** The characters of a group, as the loop computes them. */
  function GroupChars(a: nat, second: Option<nat>, third: Option<nat>): string
    requires a < 256 && second.Or(0) < 256 && third.Or(0) < 256
  {
    var b, c := second.Or(0), third.Or(0);
    [CharAt(a / 4), CharAt(a % 4 * 16 + b / 16)] + (if second.Some? then [CharAt(b % 16 * 4 + c / 64)] else []) +
      (if third.Some? then [CharAt(c % 64)] else [])
  }

  function At(value: seq<nat>, i: nat): Option<nat> {
    if i < |value| then Some(value[i]) else None
  }

  lemma GroupCharsAre(group: seq<nat>)
    requires 1 <= |group| <= 3 && IsBytes(group)
    ensures At(group, 1).Or(0) < 256 && At(group, 2).Or(0) < 256
    ensures Chars(GroupDigits(group)) == GroupChars(group[0], At(group, 1), At(group, 2))
  {}

  lemma CharsConcat(a: seq<nat>, b: seq<nat>)
    requires Fit(a, 64) && Fit(b, 64)
    ensures Fit(a + b, 64) && Chars(a + b) == Chars(a) + Chars(b)
  {}

  /** `encodeCanonicalBase64Url`: four characters for three bytes, fewer for the last group. */
  method Encode(value: seq<nat>) returns (output: string)
    requires IsBytes(value)
    ensures output == Encoded(value)
  {
    output := "";
    var offset := 0;
    while offset < |value|
      invariant offset % 3 == 0 && output == Encoded(value[..Reached(value, offset)])
    {
      NextGroup(value, offset);
      var first, second, third := value[offset], At(value, offset + 1), At(value, offset + 2);
      output := output + GroupChars(first, second, third);
      offset := offset + 3;
    }
    assert value[..|value|] == value;
  }

  /** How much of the input the first `offset` positions cover. */
  function Reached(value: seq<nat>, offset: nat): (n: nat)
    ensures n <= |value|
  {
    if offset < |value| then offset else |value|
  }

  lemma NextDigits(value: seq<nat>, offset: nat, next: nat)
    requires IsBytes(value) && offset < next <= |value| && offset % 3 == 0 && next <= offset + 3
    ensures Digits(value[..next]) == Digits(value[..offset]) + GroupDigits(value[offset..next])
  {
    WholeIs(next, offset);
    assert value[..next] == value[..offset] + value[offset..next];
    CutBefore(value[..next], value[..offset], value[offset..next]);
  }

  lemma WholeIs(next: nat, offset: nat)
    requires offset < next <= offset + 3 && offset % 3 == 0
    ensures Whole(next) == offset
  {}

  lemma NextChars(value: seq<nat>, offset: nat, next: nat)
    requires IsBytes(value) && offset < next <= |value| && offset % 3 == 0 && next <= offset + 3
    ensures Encoded(value[..next]) == Encoded(value[..offset]) + Chars(GroupDigits(value[offset..next]))
  {
    NextDigits(value, offset, next);
    CharsConcat(Digits(value[..offset]), GroupDigits(value[offset..next]));
  }

  lemma GroupAt(value: seq<nat>, offset: nat)
    requires offset < |value|
    ensures var group := value[offset..Reached(value, offset + 3)];
            group[0] == value[offset] && At(group, 1) == At(value, offset + 1) && At(group, 2) == At(value, offset + 2)
  {}

  lemma NextGroup(value: seq<nat>, offset: nat)
    requires IsBytes(value) && offset < |value| && offset % 3 == 0
    ensures value[offset] < 256 && At(value, offset + 1).Or(0) < 256 && At(value, offset + 2).Or(0) < 256
    ensures Encoded(value[..Reached(value, offset + 3)]) ==
            Encoded(value[..offset]) + GroupChars(value[offset], At(value, offset + 1), At(value, offset + 2))
  {
    var next := Reached(value, offset + 3);
    NextChars(value, offset, next);
    GroupAt(value, offset);
    GroupCharsAre(value[offset..next]);
  }
}
