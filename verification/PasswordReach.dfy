/** Which passwords the two generators give: what every one of them holds, read off the options, and that none is left out. */
module PasswordReach {
  import opened Seqs
  import opened PasswordGenerators

  // ---------------------------------------------------------------------------
  // The native generator, from its flags
  // ---------------------------------------------------------------------------

  predicate Upper(c: char) { 'A' <= c <= 'Z' }

  predicate Lower(c: char) { 'a' <= c <= 'z' }

  predicate Digit(c: char) { '0' <= c <= '9' }

  predicate Symbol(c: char) {
    c in ['!', '@', '#', '$', '%', '^', '&', '*', '(', ')', '-', '_', '=', '+', '[', ']', '{', '}', ':', ',', '.', '?']
  }

  /** Some character of the password has the property. */
  ghost predicate Holds(p: string, kind: char -> bool) {
    exists c :: c in p && kind(c)
  }

  predicate AllowedBy(f: Flags, c: char) {
    (f.upper && Upper(c)) || (f.lower && Lower(c)) || (f.digits && Digit(c)) || (f.symbols && Symbol(c))
  }

  /** Selected kinds all occur, and every character is of a selected kind. */
  ghost predicate FitsFlags(f: Flags, p: string) {
    && (f.upper ==> Holds(p, Upper)) && (f.lower ==> Holds(p, Lower))
    && (f.digits ==> Holds(p, Digit)) && (f.symbols ==> Holds(p, Symbol))
    && forall c :: c in p ==> AllowedBy(f, c)
  }

  function Selected(f: Flags): nat {
    (if f.upper then 1 else 0) + (if f.lower then 1 else 0) + (if f.digits then 1 else 0) + (if f.symbols then 1 else 0)
  }

  lemma CharsOfSets(c: char)
    ensures (c in UPPER <==> Upper(c)) && (c in LOWER <==> Lower(c))
    ensures (c in DIGITS <==> Digit(c)) && (c in SYMBOLS <==> Symbol(c))
  {
    UpperLetters(c);
    LowerLetters(c);
    if Digit(c) { assert DIGITS[c as int - '0' as int] == c; }
  }

  lemma UpperLetters(c: char)
    ensures c in UPPER <==> Upper(c)
  {
    if Upper(c) { assert UPPER[c as int - 'A' as int] == c; }
  }

  lemma LowerLetters(c: char)
    ensures c in LOWER <==> Lower(c)
  {
    if Lower(c) { assert LOWER[c as int - 'a' as int] == c; }
  }

  /** The classes, one for each selected flag, hold just the characters of its kind. */
  lemma ClassesAre(f: Flags, c: char)
    ensures |Classes(f)| == Selected(f)
    ensures c in Flatten(Classes(f)) <==>
            (f.upper && c in UPPER) || (f.lower && c in LOWER) || (f.digits && c in DIGITS) || (f.symbols && c in SYMBOLS)
  {
    var a, b, d, e := if f.upper then [UPPER] else [], if f.lower then [LOWER] else [],
                      if f.digits then [DIGITS] else [], if f.symbols then [SYMBOLS] else [];
    FlattenAdd(a + b + d, e, c);
    FlattenAdd(a + b, d, c);
    FlattenAdd(a, b, c);
    OneClass(UPPER, c);
    OneClass(LOWER, c);
    OneClass(DIGITS, c);
    OneClass(SYMBOLS, c);
  }

  lemma OneClass(s: string, c: char)
    ensures c in Flatten([s]) <==> c in s
    ensures Flatten<char>([]) == []
  {
    assert [s][..0] == [] && Flatten([s][..0]) == [];
  }

  lemma {:induction false} FlattenAdd(a: seq<string>, b: seq<string>, c: char)
    ensures c in Flatten(a + b) <==> c in Flatten(a) || c in Flatten(b)
  {
    if b == [] {
      assert a + b == a;
    } else {
      var n := |b| - 1;
      FlattenAdd(a, b[..n], c);
      assert (a + b)[..|a + b| - 1] == a + b[..n];
    }
  }

  /** Where the class of a flag stands. */
  lemma ClassOf(f: Flags) returns (u: nat, l: nat, d: nat, s: nat)
    ensures f.upper ==> u < |Classes(f)| && Classes(f)[u] == UPPER
    ensures f.lower ==> l < |Classes(f)| && Classes(f)[l] == LOWER
    ensures f.digits ==> d < |Classes(f)| && Classes(f)[d] == DIGITS
    ensures f.symbols ==> s < |Classes(f)| && Classes(f)[s] == SYMBOLS
  {
    u := 0;
    l := if f.upper then 1 else 0;
    d := l + if f.lower then 1 else 0;
    s := d + if f.digits then 1 else 0;
  }

  /** A character of the set occurs. */
  ghost predicate Meets(set': string, p: string) {
    exists c :: c in set' && c in p
  }

  lemma SetsMet(p: string)
    ensures (Meets(UPPER, p) <==> Holds(p, Upper)) && (Meets(LOWER, p) <==> Holds(p, Lower))
    ensures (Meets(DIGITS, p) <==> Holds(p, Digit)) && (Meets(SYMBOLS, p) <==> Holds(p, Symbol))
  {
    MetIs(UPPER, Upper, p);
    MetIs(LOWER, Lower, p);
    MetIs(DIGITS, Digit, p);
    MetIs(SYMBOLS, Symbol, p);
  }

  lemma MetIs(set': string, kind: char -> bool, p: string)
    requires || (set' == UPPER && kind == Upper) || (set' == LOWER && kind == Lower)
             || (set' == DIGITS && kind == Digit) || (set' == SYMBOLS && kind == Symbol)
    ensures Meets(set', p) <==> Holds(p, kind)
  {
    if c :| c in set' && c in p { CharsOfSets(c); }
    if c :| c in p && kind(c) { CharsOfSets(c); }
  }

  lemma ClassIsOne(f: Flags, k: nat)
    requires k < |Classes(f)|
    ensures || (f.upper && Classes(f)[k] == UPPER) || (f.lower && Classes(f)[k] == LOWER)
            || (f.digits && Classes(f)[k] == DIGITS) || (f.symbols && Classes(f)[k] == SYMBOLS)
  {}

  ghost predicate AllMet(classes: seq<string>, p: string) {
    forall k :: 0 <= k < |classes| ==> Meets(classes[k], p)
  }

  lemma ClassesMet(f: Flags, p: string)
    ensures AllMet(Classes(f), p) <==>
            && (f.upper ==> Meets(UPPER, p)) && (f.lower ==> Meets(LOWER, p))
            && (f.digits ==> Meets(DIGITS, p)) && (f.symbols ==> Meets(SYMBOLS, p))
  {
    if AllMet(Classes(f), p) {
      var u, l, d, s := ClassOf(f);
      assert f.upper ==> Meets(Classes(f)[u], p);
      assert f.lower ==> Meets(Classes(f)[l], p);
      assert f.digits ==> Meets(Classes(f)[d], p);
      assert f.symbols ==> Meets(Classes(f)[s], p);
    } else {
      var k :| 0 <= k < |Classes(f)| && !Meets(Classes(f)[k], p);
      ClassIsOne(f, k);
    }
  }

  lemma EveryClassFits(f: Flags, p: string)
    ensures FitsFlags(f, p) <==> (forall c :: c in p ==> c in Flatten(Classes(f))) && AllMet(Classes(f), p)
  {
    AlphabetIs(f);
    SetsMet(p);
    ClassesMet(f, p);
  }

  lemma AlphabetIs(f: Flags)
    ensures forall c :: c in Flatten(Classes(f)) <==> AllowedBy(f, c)
  {
    forall c ensures c in Flatten(Classes(f)) <==> AllowedBy(f, c) {
      ClassesAre(f, c);
      CharsOfSets(c);
    }
  }

  /**
   * A native password has the requested length, a character of every selected kind, and characters of selected kinds
   * only. The options are refused exactly when no kind is selected, or the length is below four, above 256 or below
   * the number of kinds.
   */
  lemma NativePassword(f: Flags, length: nat, words: seq<nat>)
    ensures Generated(f, length, words) == InvalidInput <==> Selected(f) == 0 || length < 4 || length > 256 || length < Selected(f)
    ensures var r := Generated(f, length, words); r.Ok? ==> |r.password| == length && FitsFlags(f, r.password)
  {
    Accepts(f, length);
    var r := Generated(f, length, words);
    if r.Ok? {
      GeneratedHasEveryClass(f, length, words);
      EveryClassFits(f, r.password);
    }
  }

  // ---------------------------------------------------------------------------
  // Every fitting password can come out
  // ---------------------------------------------------------------------------

  ghost predicate Disjoint(classes: seq<string>) {
    forall j, k, c :: 0 <= j < k < |classes| && c in classes[j] ==> c !in classes[k]
  }

  /** The password rearranged so that a character of each class comes first, class by class. */
  lemma {:induction false} Headed(classes: seq<string>, p: string) returns (q: string)
    requires Disjoint(classes) && AllMet(classes, p)
    ensures multiset(q) == multiset(p) && |q| == |p| && |classes| <= |p|
    ensures forall k :: 0 <= k < |classes| ==> q[k] in classes[k]
    decreases |classes|
  {
    q := p;
    if classes != [] {
      assert Meets(classes[0], p);
      var c :| c in classes[0] && c in p;
      var i :| 0 <= i < |p| && p[i] == c;
      var rest, more := p[..i] + p[i + 1..], classes[1..];
      forall k | 0 <= k < |more| ensures Meets(more[k], rest) {
        assert more[k] == classes[k + 1] && Meets(classes[k + 1], p);
        var d :| d in classes[k + 1] && d in p;
        StillThere(p, i, d);
      }
      var tail := Headed(more, rest);
      q := [c] + tail;
      HeadFirst(p, i, tail);
      forall k | 0 <= k < |classes| ensures q[k] in classes[k] {
        if k > 0 { assert q[k] == tail[k - 1] && more[k - 1] == classes[k]; }
      }
    }
  }

  lemma StillThere(p: string, i: nat, d: char)
    requires i < |p| && d in p && d != p[i]
    ensures d in p[..i] + p[i + 1..]
  {
    var j :| 0 <= j < |p| && p[j] == d;
    if j < i { assert (p[..i] + p[i + 1..])[j] == d; } else { assert (p[..i] + p[i + 1..])[j - 1] == d; }
  }

  lemma HeadFirst(p: string, i: nat, tail: string)
    requires i < |p| && multiset(tail) == multiset(p[..i] + p[i + 1..])
    ensures multiset([p[i]] + tail) == multiset(p) && |[p[i]] + tail| == |p|
  {
    assert p == p[..i] + [p[i]] + p[i + 1..];
    SameSize(tail, p[..i] + p[i + 1..]);
  }

  /** The choices that give a headed arrangement. */
  function PicksFor(classes: seq<string>, q: string): (picks: seq<nat>)
    requires forall k :: 0 <= k < |q| ==> q[k] in ClassAt(classes, k)
    ensures |picks| == |q| && Picks(classes, picks) && Picked(classes, picks) == q
  {
    seq(|q|, k requires 0 <= k < |q| => Position(ClassAt(classes, k), q[k]))
  }

  /** Numbers below their bounds are drawn as they are. */
  lemma {:induction false} DrawnAsIs(drawn: seq<nat>, uppers: seq<nat>, rest: seq<nat>)
    requires |drawn| == |uppers| && forall k :: 0 <= k < |uppers| ==> drawn[k] < uppers[k] <= 10_000
    ensures DrawAll(drawn + rest, uppers) == Some((drawn, rest))
  {
    if drawn == [] {
      assert drawn + rest == rest;
    } else {
      var n := |drawn| - 1;
      var d := drawn[n];
      assert drawn + rest == drawn[..n] + ([d] + rest);
      DrawnAsIs(drawn[..n], uppers[..n], [d] + rest);
      assert ([d] + rest)[1..] == rest;
      BelowZone(d, uppers[n]);
      assert drawn[..n] + [d] == drawn;
    }
  }

  lemma BelowZone(d: nat, upper: nat)
    requires d < upper <= 10_000
    ensures d < Zone(upper) && d % upper == d
  {
    SmallRemainder(d, upper);
    RemainderBelow(U32_MAX, upper);
  }

  lemma SmallRemainder(d: nat, upper: nat)
    requires d < upper
    ensures d % upper == d
  {}

  lemma RemainderBelow(n: nat, upper: nat)
    requires upper > 0
    ensures n % upper < upper
  {}

  lemma ClassesDisjoint(f: Flags)
    ensures Disjoint(Classes(f))
  {
    forall j, k, c | 0 <= j < k < |Classes(f)| && c in Classes(f)[j] ensures c !in Classes(f)[k] {
      ClassesDiffer(f, j, k);
      InOneSet(f, j, k, c);
    }
  }

  lemma InOneSet(f: Flags, j: nat, k: nat, c: char)
    requires j < |Classes(f)| && k < |Classes(f)| && Classes(f)[j] != Classes(f)[k] && c in Classes(f)[j]
    ensures c !in Classes(f)[k]
  {
    ClassIsOne(f, j);
    ClassIsOne(f, k);
    CharsOfSets(c);
  }

  lemma ClassesDiffer(f: Flags, j: nat, k: nat)
    requires j < k < |Classes(f)|
    ensures Classes(f)[j] != Classes(f)[k]
  {
    ClassIsOne(f, j);
    ClassIsOne(f, k);
    assert UPPER[0] != LOWER[0] && UPPER[0] != DIGITS[0] && UPPER[0] != SYMBOLS[0];
    assert LOWER[0] != DIGITS[0] && LOWER[0] != SYMBOLS[0] && DIGITS[0] != SYMBOLS[0];
  }

  lemma {:induction false} SmallAlphabet(classes: seq<string>)
    requires forall k :: 0 <= k < |classes| ==> |classes[k]| <= 26
    ensures |Flatten(classes)| <= 26 * |classes|
  {
    if classes != [] { SmallAlphabet(classes[..|classes| - 1]); }
  }

  lemma BoundsSmall(f: Flags, length: nat)
    requires 0 < length <= 256
    ensures forall k :: 0 <= k < |Uppers(Classes(f), length)| ==> Uppers(Classes(f), length)[k] <= 10_000
  {
    SmallAlphabet(Classes(f));
  }

  /** An arrangement of a fitting password with a character of each class first, and the rest from all. */
  lemma Arranged(f: Flags, p: string) returns (q: string)
    requires FitsFlags(f, p)
    ensures multiset(q) == multiset(p) && |q| == |p| && |Classes(f)| <= |p|
    ensures forall k :: 0 <= k < |q| ==> q[k] in ClassAt(Classes(f), k)
  {
    EveryClassFits(f, p);
    ClassesDisjoint(f);
    q := Headed(Classes(f), p);
    forall k | 0 <= k < |q| ensures q[k] in ClassAt(Classes(f), k) {
      if k >= |Classes(f)| { InMultiset(q, p, q[k]); }
    }
  }

  lemma DrawsGive(f: Flags, length: nat, picks: seq<nat>, swaps: seq<nat>)
    requires NativeAccepts(f, length) && |picks| == length && Picks(Classes(f), picks) && FullChoices(swaps, length)
    ensures Generated(f, length, picks + swaps) == Ok(Swapped(Picked(Classes(f), picks), swaps))
  {
    var drawn := picks + swaps;
    DrawableAll(f, length, picks, swaps);
    DrawnAsIs(drawn, Uppers(Classes(f), length), []);
    assert drawn + [] == drawn && drawn[..length] == picks && drawn[length..] == swaps;
    UppersPositive(Classes(f), length);
  }

  /** Picks and swaps that end in a fitting password. */
  lemma ChoicesFor(f: Flags, p: string) returns (picks: seq<nat>, swaps: seq<nat>)
    requires FitsFlags(f, p)
    ensures |Classes(f)| <= |p| && |picks| == |p| && Picks(Classes(f), picks) && FullChoices(swaps, |p|)
    ensures Swapped(Picked(Classes(f), picks), swaps) == p
  {
    var q := Arranged(f, p);
    picks, swaps := PicksFor(Classes(f), q), Recovered(q, p);
    ShuffleOnto(q, p);
  }

  /** Every password of the length that fits the flags comes out for some random words. */
  lemma NativeReachesAll(f: Flags, p: string)
    requires Selected(f) > 0 && 4 <= |p| <= 256 && FitsFlags(f, p)
    ensures exists words :: Words32(words) && Generated(f, |p|, words) == Ok(p)
  {
    var picks, swaps := ChoicesFor(f, p);
    Accepts(f, |p|);
    DrawsGive(f, |p|, picks, swaps);
    DrawableAll(f, |p|, picks, swaps);
    assert Words32(picks + swaps);
  }

  predicate Words32(words: seq<nat>) {
    forall k :: 0 <= k < |words| ==> words[k] < 0x1_0000_0000
  }

  lemma Accepts(f: Flags, length: nat)
    ensures NativeAccepts(f, length) <==> Selected(f) > 0 && 4 <= length <= 256 && Selected(f) <= length
    ensures |Classes(f)| == Selected(f)
  {
    ClassesAre(f, 'A');
  }

  lemma DrawableAll(f: Flags, length: nat, picks: seq<nat>, swaps: seq<nat>)
    requires 0 < length <= 256 && |picks| == length && Picks(Classes(f), picks) && FullChoices(swaps, length)
    ensures var drawn, uppers := picks + swaps, Uppers(Classes(f), length);
            |drawn| == |uppers| && forall k :: 0 <= k < |uppers| ==> drawn[k] < uppers[k] <= 10_000
  {
    BoundsSmall(f, length);
    var drawn, uppers := picks + swaps, Uppers(Classes(f), length);
    forall k | 0 <= k < |uppers| ensures drawn[k] < uppers[k] {
      if k >= length { assert swaps[k - length] <= length - 1 - (k - length); }
    }
  }

  // ---------------------------------------------------------------------------
  // The browser generator
  // ---------------------------------------------------------------------------

  lemma CharsetSmall(opts: Options)
    ensures |BuildCharset(opts)| <= 70
  {
    var chars := (if opts.classes.upper then UPPER else "") + (if opts.classes.lower then LOWER else "") +
                 (if opts.classes.digits then DIGITS else "") + (if opts.classes.symbols then BROWSER_SYMBOLS else "");
    var clear := if opts.excludeSimilar then Filter(chars, c => c !in SIMILAR) else chars;
    FilterSmaller(chars, c => c !in SIMILAR);
    FilterSmaller(clear, c => c !in AMBIGUOUS);
  }

  lemma {:induction false} FilterSmaller<T>(s: seq<T>, keep: T -> bool)
    ensures |Filter(s, keep)| <= |s|
  {
    if s != [] { FilterSmaller(s[..|s| - 1], keep); }
  }

  predicate BrowserSymbol(c: char) {
    c in ['!', '@', '#', '$', '%', '^', '&', '*']
  }

  predicate Similar(c: char) {
    c in ['i', 'l', '1', 'L', 'o', '0', 'O', 'I']
  }

  predicate Ambiguous(c: char) {
    c in ['{', '}', '[', ']', '(', ')', '/', '\\', '\'', '"', '`', ',', ';', '.', '<', '>', '~', ' ']
  }

  /** The browser's set: the characters of the selected kinds, less the similar and the ambiguous ones on request. */
  lemma BrowserSetIs(opts: Options, c: char)
    ensures c in BuildCharset(opts) <==>
              && ((opts.classes.upper && Upper(c)) || (opts.classes.lower && Lower(c)) ||
                  (opts.classes.digits && Digit(c)) || (opts.classes.symbols && BrowserSymbol(c)))
              && (opts.excludeSimilar ==> !Similar(c)) && (opts.excludeAmbiguous ==> !Ambiguous(c))
  {
    CharsetOptions(opts, c);
    CharsOfSets(c);
    ExcludedAre(c);
  }

  lemma ExcludedAre(c: char)
    ensures (c in BROWSER_SYMBOLS <==> BrowserSymbol(c)) && (c in SIMILAR <==> Similar(c)) && (c in AMBIGUOUS <==> Ambiguous(c))
  {}

  /** The bytes that read as a text. */
  function BytesFor(chars: string, p: string): (bytes: seq<nat>)
    requires forall k :: 0 <= k < |p| ==> p[k] in chars
    ensures |bytes| == |p|
  {
    seq(|p|, k requires 0 <= k < |p| => Position(chars, p[k]))
  }

  lemma ByteRead(chars: string, b: nat)
    requires b < |chars| <= 70
    ensures b < ByteLimit(|chars|) && b % |chars| == b
  {
    SmallRemainder(b, |chars|);
    RemainderBelow(256, |chars|);
  }

  lemma BytesLow(chars: string, p: string)
    requires 0 < |chars| <= 70 && forall k :: 0 <= k < |p| ==> p[k] in chars
    ensures forall k :: 0 <= k < |p| ==> BytesFor(chars, p)[k] < ByteLimit(|chars|)
    ensures forall k :: 0 <= k < |p| ==> chars[BytesFor(chars, p)[k] % |chars|] == p[k]
  {
    forall k | 0 <= k < |p|
      ensures BytesFor(chars, p)[k] < ByteLimit(|chars|) && chars[BytesFor(chars, p)[k] % |chars|] == p[k]
    {
      ByteRead(chars, Position(chars, p[k]));
    }
  }

  lemma AllBelow(bytes: seq<nat>, more: seq<nat>, limit: nat)
    requires forall k :: 0 <= k < |bytes| ==> bytes[k] < limit
    ensures Take(Filter(bytes + more, Below(limit)), |bytes|) == bytes
  {
    FilterAll(bytes, Below(limit));
    FilterConcat(bytes, more, Below(limit));
  }

  /** The byte buffer of the source, filled at random. */
  predicate Buffer(block: seq<nat>) {
    |block| == 128 && forall k :: 0 <= k < |block| ==> block[k] < 256
  }

  /** The bytes of a text, and zeros. */
  function Filled(bytes: seq<nat>): seq<nat>
    requires |bytes| <= 128
  {
    bytes + seq(128 - |bytes|, _ => 0)
  }

  lemma ReadsBack(chars: string, p: string)
    requires 0 < |chars| <= 70 && |p| <= 128 && forall k :: 0 <= k < |p| ==> p[k] in chars
    ensures Sampled(chars, Filled(BytesFor(chars, p)), |p|) == BytesFor(chars, p)
    ensures Readings(chars, BytesFor(chars, p)) == p && Buffer(Filled(BytesFor(chars, p)))
  {
    BytesLow(chars, p);
    AllBelow(BytesFor(chars, p), seq(128 - |p|, _ => 0), ByteLimit(|chars|));
  }

  lemma OneBlock(bytes: seq<nat>)
    ensures Flatten([bytes]) == bytes
  {
    var none: seq<seq<nat>> := [bytes][..0];
    assert none == [] && Flatten(none) == [];
    assert [] + bytes == bytes;
  }

  /**
   * The browser's options are refused exactly when the length is below eight or above 128, or no character is left;
   * otherwise every text of the length over the characters that are left comes out, already of one buffer of bytes.
   */
  lemma BrowserReachesAll(opts: Options, p: string)
    ensures (forall blocks :: BrowserGenerated(opts, blocks) == InvalidInput) <==>
            opts.length < 8 || opts.length > 128 || forall c: char :: c !in BuildCharset(opts)
    ensures 8 <= opts.length <= 128 && |p| == opts.length && (forall c :: c in p ==> c in BuildCharset(opts)) ==>
              exists block :: Buffer(block) && BrowserGenerated(opts, [block]) == Ok(p)
  {
    var chars := BuildCharset(opts);
    assert BrowserGenerated(opts, []) == InvalidInput <==> !BrowserAccepts(opts);
    if chars != "" { assert chars[0] in chars; }
    if 8 <= opts.length <= 128 && |p| == opts.length && forall c :: c in p ==> c in chars {
      assert p[0] in p && p[0] in chars;
      CharsetSmall(opts);
      forall k | 0 <= k < |p| ensures p[k] in chars { assert p[k] in p; }
      var block := Filled(BytesFor(chars, p));
      ReadsBack(chars, p);
      OneBlock(block);
      assert Buffer(block) && BrowserGenerated(opts, [block]) == Ok(p);
    }
  }
}
