/** The native and the browser password generators: unbiased draws, and an unbiased shuffle. */
module PasswordGenerators {
  import opened Seqs

  // ---------------------------------------------------------------------------
  // Rejection sampling
  // ---------------------------------------------------------------------------

  const U32_MAX: nat := 0xFFFF_FFFF

  /** `u32::MAX - u32::MAX % upper`: draws from here on are rejected. */
  function Zone(upper: nat): nat
    requires upper > 0
  {
    U32_MAX - U32_MAX % upper
  }

  /** `256 - 256 % chars.length`. */
  function ByteLimit(chars: nat): nat
    requires chars > 0
  {
    256 - 256 % chars
  }

  /** The values below `limit` that are read as index `r`. */
  function Accepted(limit: nat, upper: nat, r: nat): set<nat>
    requires upper > 0
  {
    set v: nat | v < limit && v % upper == r
  }

  /** Below a multiple of `upper`, every residue has equally many values. */
  lemma {:induction false} ResidueCount(limit: nat, upper: nat, r: nat)
    requires r < upper && limit % upper == 0
    ensures |Accepted(limit, upper, r)| == limit / upper
  {
    if limit < upper {
      assert limit == 0 by { SmallDivision(limit, upper); }
      assert Accepted(0, upper, r) == {};
    } else {
      var low: nat := limit - upper;
      PlusOne(low, upper);
      ResidueCount(low, upper, r);
      forall v: nat | low <= v < limit ensures v % upper == v - low { OnlyResidue(low, upper, v - low); }
      assert Accepted(limit, upper, r) == Accepted(low, upper, r) + {low + r};
    }
  }

  lemma SmallDivision(n: nat, upper: nat)
    requires n < upper
    ensures n % upper == n && n / upper == 0
  {}

  lemma {:induction false} OnlyResidue(low: nat, upper: nat, r: nat)
    requires r < upper && low % upper == 0
    ensures (low + r) % upper == r
  {
    if low < upper {
      SmallDivision(low, upper);
      SmallDivision(r, upper);
    } else {
      PlusOne(low - upper, upper);
      OnlyResidue(low - upper, upper, r);
      PlusOne(low - upper + r, upper);
    }
  }

  /** Cutting down to a multiple keeps the quotient. */
  lemma {:induction false} CutDown(max: nat, upper: nat)
    requires upper > 0
    ensures max % upper <= max && (max - max % upper) % upper == 0 && (max - max % upper) / upper == max / upper
  {
    if max < upper {
      SmallDivision(max, upper);
      SmallDivision(0, upper);
    } else {
      CutDown(max - upper, upper);
      PlusOne(max - upper, upper);
      PlusOne(max - upper - (max - upper) % upper, upper);
    }
  }

  lemma PlusOne(v: nat, upper: nat)
    requires upper > 0
    ensures (v + upper) % upper == v % upper && (v + upper) / upper == v / upper + 1
  {
    var q, r := v / upper, v % upper;
    var q', r' := (v + upper) / upper, (v + upper) % upper;
    assert upper * (q' - q - 1) == r - r';
    if q' > q + 1 { Larger(upper, q' - q - 1); }
    if q' < q + 1 { Larger(upper, q + 1 - q'); }
  }

  /** A limit cut down to a multiple of `upper`, of which every index gets the same share. */
  lemma EqualShares(max: nat, upper: nat, r: nat)
    requires r < upper <= max
    ensures |Accepted(max - max % upper, upper, r)| == max / upper && max / upper >= 1
  {
    CutDown(max, upper);
    ResidueCount(max - max % upper, upper, r);
    PlusOne(max - upper, upper);
  }

  /** Every index below `upper` is the reading of equally many accepted 32-bit values, and of at least one. */
  lemma IndexUnbiased(upper: nat, r: nat, s: nat)
    requires r < upper <= U32_MAX && s < upper
    ensures |Accepted(Zone(upper), upper, r)| == |Accepted(Zone(upper), upper, s)| == U32_MAX / upper
    ensures U32_MAX / upper >= 1
  {
    EqualShares(U32_MAX, upper, r);
    EqualShares(U32_MAX, upper, s);
  }

  /** Every character of a set of at most 256 is the reading of equally many accepted bytes, and of at least one. */
  lemma ByteUnbiased(chars: nat, r: nat, s: nat)
    requires r < chars <= 256 && s < chars
    ensures |Accepted(ByteLimit(chars), chars, r)| == |Accepted(ByteLimit(chars), chars, s)| == 256 / chars
    ensures 256 / chars >= 1
  {
    EqualShares(256, chars, r);
    EqualShares(256, chars, s);
  }

  /** What `random_index` reads off the random words: the index and the words left; `None` when they run out. */
  function DrawIndex(words: seq<nat>, upper: nat): (r: Option<(nat, seq<nat>)>)
    requires upper > 0
    ensures r.Some? ==> r.value.0 < upper
  {
    if words == [] then None
    else if words[0] < Zone(upper) then Some((words[0] % upper, words[1..]))
    else DrawIndex(words[1..], upper)
  }

  /** Indices below the given bounds, drawn one after another. */
  function DrawAll(words: seq<nat>, uppers: seq<nat>): (r: Option<(seq<nat>, seq<nat>)>)
    requires forall k :: 0 <= k < |uppers| ==> uppers[k] > 0
    ensures r.Some? ==> |r.value.0| == |uppers| && forall k :: 0 <= k < |uppers| ==> r.value.0[k] < uppers[k]
  {
    if uppers == [] then Some(([], words))
    else
      var n := |uppers| - 1;
      var before := DrawAll(words, uppers[..n]);
      if before.None? then None
      else
        var last := DrawIndex(before.value.1, uppers[n]);
        if last.None? then None else Some((before.value.0 + [last.value.0], last.value.1))
  }

  /** A source of random words. */
  class RandomWords {
    var words: seq<nat>

    constructor (given: seq<nat>)
      ensures words == given
    {
      words := given;
    }

    /** `random_index` for a positive bound. */
    method RandomIndex(upper: nat) returns (index: Option<nat>)
      requires upper > 0
      modifies this
      ensures index.None? <==> DrawIndex(old(words), upper).None?
      ensures index.Some? ==> DrawIndex(old(words), upper) == Some((index.value, words))
    {
      var zone := Zone(upper);
      while words != []
        invariant DrawIndex(words, upper) == DrawIndex(old(words), upper)
        decreases |words|
      {
        var value := words[0];
        words := words[1..];
        if value < zone { return Some(value % upper); }
      }
      index := None;
    }
  }

  predicate Positive(uppers: seq<nat>) {
    forall k :: 0 <= k < |uppers| ==> uppers[k] > 0
  }

  lemma {:induction false} DrawPrefix(words: seq<nat>, uppers: seq<nat>, k: nat)
    requires Positive(uppers) && k <= |uppers| && DrawAll(words, uppers[..k]).None?
    ensures DrawAll(words, uppers).None?
  {
    var n := |uppers| - 1;
    if k <= n {
      assert uppers[..n][..k] == uppers[..k];
      DrawPrefix(words, uppers[..n], k);
    } else {
      assert uppers[..k] == uppers;
    }
  }

  /** The planned draws made so far, and the words left. */
  predicate Drawn(start: seq<nat>, uppers: seq<nat>, drawn: seq<nat>, words: seq<nat>) {
    && Positive(uppers) && |drawn| <= |uppers|
    && DrawAll(start, uppers[..|drawn|]) == Some((drawn, words))
  }

  /** The next of a planned list of draws. */
  method NextIndex(random: RandomWords, ghost start: seq<nat>, ghost uppers: seq<nat>, upper: nat,
                   ghost drawn: seq<nat>)
    returns (index: Option<nat>)
    requires Positive(uppers) && |drawn| < |uppers| && uppers[|drawn|] == upper
    requires Drawn(start, uppers, drawn, random.words)
    modifies random
    ensures index.None? ==> DrawAll(start, uppers).None?
    ensures index.Some? ==> index.value < upper && Drawn(start, uppers, drawn + [index.value], random.words)
  {
    ghost var k := |drawn|;
    assert uppers[..k + 1][..k] == uppers[..k];
    index := random.RandomIndex(upper);
    if index.None? { DrawPrefix(start, uppers, k + 1); }
  }

  // ---------------------------------------------------------------------------
  // Fisher-Yates
  // ---------------------------------------------------------------------------

  function Swap<T>(s: seq<T>, i: nat, j: nat): (r: seq<T>)
    requires i < |s| && j < |s|
    ensures |r| == |s|
  {
    s[i := s[j]][j := s[i]]
  }

  /** Swaps down from the last position; the k-th may reach any position not above its own. */
  predicate Choices(swaps: seq<nat>, n: nat) {
    (swaps == [] || |swaps| < n) && forall k :: 0 <= k < |swaps| ==> swaps[k] <= n - 1 - k
  }

  /** Choices for every position but the first. */
  predicate FullChoices(swaps: seq<nat>, n: nat) {
    Choices(swaps, n) && |swaps| == if n == 0 then 0 else n - 1
  }

  /** The swaps made so far: position |s| - 1, then |s| - 2, and so on. */
  function Swapped<T>(s: seq<T>, swaps: seq<nat>): (r: seq<T>)
    requires Choices(swaps, |s|)
    ensures |r| == |s|
  {
    if swaps == [] then s
    else
      var k := |swaps| - 1;
      Swap(Swapped(s, swaps[..k]), |s| - 1 - k, swaps[k])
  }

  /** What is left to permute once position |s| - 1 holds element `c`. */
  function Rest<T>(s: seq<T>, c: nat): (r: seq<T>)
    requires c < |s|
    ensures |r| == |s| - 1
  {
    Swap(s, |s| - 1, c)[..|s| - 1]
  }

  lemma RestAndLast<T>(s: seq<T>, c: nat)
    requires c < |s|
    ensures Swap(s, |s| - 1, c) == Rest(s, c) + [s[c]]
  {}

  lemma ConsChoices(c: nat, rest: seq<nat>, n: nat)
    requires n >= 2 && c < n && Choices(rest, n - 1)
    ensures Choices([c] + rest, n)
  {}

  /** The first swap settles the last position; the others permute what is before it. */
  lemma {:induction false} SwappedFirst<T>(s: seq<T>, c: nat, rest: seq<nat>)
    requires |s| >= 2 && c < |s| && Choices(rest, |s| - 1)
    ensures Choices([c] + rest, |s|)
    ensures Swapped(s, [c] + rest) == Swapped(Rest(s, c), rest) + [s[c]]
  {
    ConsChoices(c, rest, |s|);
    RestAndLast(s, c);
    if rest == [] {
      assert [c] + rest == [c] && [c][..0] == [];
      assert Swapped(s, [c][..0]) == s;
    } else {
      var k := |rest| - 1;
      SwappedFirst(s, c, rest[..k]);
      assert ([c] + rest)[..k + 1] == [c] + rest[..k];
      SwapBefore(Swapped(Rest(s, c), rest[..k]), [s[c]], |s| - 2 - k, rest[k]);
    }
  }

  lemma SwapBefore<T>(a: seq<T>, b: seq<T>, i: nat, j: nat)
    requires i < |a| && j < |a|
    ensures Swap(a + b, i, j) == Swap(a, i, j) + b
  {}

  function Position<T(==)>(s: seq<T>, x: T): (k: nat)
    requires x in s
    ensures k < |s| && s[k] == x
  {
    if s[0] == x then 0 else 1 + Position(s[1..], x)
  }

  lemma RestMultiset<T>(s: seq<T>, c: nat)
    requires c < |s|
    ensures multiset(s) == multiset(Rest(s, c)) + multiset{s[c]}
  {
    var n := |s| - 1;
    assert s == s[..n] + [s[n]];
    if c < n {
      assert s[..n] == s[..c] + [s[c]] + s[c + 1..n];
      assert Rest(s, c) == s[..c] + [s[n]] + s[c + 1..n];
    }
  }

  lemma LastMultiset<T>(t: seq<T>)
    requires |t| > 0
    ensures multiset(t) == multiset(t[..|t| - 1]) + multiset{t[|t| - 1]} && t[|t| - 1] in multiset(t)
  {
    assert t == t[..|t| - 1] + [t[|t| - 1]];
  }

  /** A shuffle rearranges. */
  lemma {:induction false} ShuffleRearranges<T>(s: seq<T>, swaps: seq<nat>)
    requires Choices(swaps, |s|)
    ensures multiset(Swapped(s, swaps)) == multiset(s)
    decreases |s|
  {
    if swaps != [] {
      assert swaps == [swaps[0]] + swaps[1..];
      SwappedFirst(s, swaps[0], swaps[1..]);
      ShuffleRearranges(Rest(s, swaps[0]), swaps[1..]);
      RestMultiset(s, swaps[0]);
    }
  }

  lemma SameSize<T>(s: seq<T>, t: seq<T>)
    requires multiset(s) == multiset(t)
    ensures |s| == |t|
  {
    assert |multiset(s)| == |s| && |multiset(t)| == |t|;
  }

  /** Where the last element of a rearrangement came from, and that the rest is rearranged too. */
  lemma LastFrom<T>(s: seq<T>, t: seq<T>)
    requires multiset(s) == multiset(t) && |s| > 0
    ensures |s| == |t| && t[|t| - 1] in s
    ensures multiset(Rest(s, Position(s, t[|t| - 1]))) == multiset(t[..|t| - 1])
  {
    SameSize(s, t);
    LastMultiset(t);
    assert t[|t| - 1] in multiset(s);
    RestMultiset(s, Position(s, t[|t| - 1]));
    CancelLast(multiset(Rest(s, Position(s, t[|t| - 1]))), multiset(t[..|t| - 1]), t[|t| - 1]);
  }

  lemma CancelLast<T>(a: multiset<T>, b: multiset<T>, x: T)
    requires a + multiset{x} == b + multiset{x}
    ensures a == b
  {
    assert a == a + multiset{x} - multiset{x};
    assert b == b + multiset{x} - multiset{x};
  }

  /** The choices that turn `s` into its rearrangement `t`. */
  function Recovered<T(==)>(s: seq<T>, t: seq<T>): (swaps: seq<nat>)
    requires multiset(s) == multiset(t)
    ensures FullChoices(swaps, |s|)
    decreases |s|
  {
    if |s| <= 1 then []
    else
      LastFrom(s, t);
      var c := Position(s, t[|t| - 1]);
      [c] + Recovered(Rest(s, c), t[..|t| - 1])
  }

  lemma RecoveredFirst<T>(s: seq<T>, t: seq<T>)
    requires multiset(s) == multiset(t) && |s| > 1
    ensures |t| == |s| && t[|t| - 1] in s
    ensures var c := Position(s, t[|t| - 1]);
            && multiset(Rest(s, c)) == multiset(t[..|t| - 1])
            && Recovered(s, t) == [c] + Recovered(Rest(s, c), t[..|t| - 1])
  {
    LastFrom(s, t);
  }

  /** Onto: every rearrangement of `s` is reached by some choices. */
  lemma {:induction false} ShuffleOnto<T>(s: seq<T>, t: seq<T>)
    requires multiset(s) == multiset(t)
    ensures Swapped(s, Recovered(s, t)) == t
    decreases |s|
  {
    SameSize(s, t);
    if |s| == 1 {
      LastFrom(s, t);
      assert s == [s[0]] && t == [t[0]];
    } else if |s| > 1 {
      RecoveredFirst(s, t);
      var n, c := |s| - 1, Position(s, t[|t| - 1]);
      ShuffleOnto(Rest(s, c), t[..n]);
      SwappedFirst(s, c, Recovered(Rest(s, c), t[..n]));
      SplitAt(t, n);
      assert t[n..] == [s[c]];
    }
  }

  lemma RestNoDup<T>(s: seq<T>, c: nat)
    requires NoDup(s) && c < |s|
    ensures NoDup(Rest(s, c))
  {}

  /** One-to-one: on distinct elements, the order tells which choices were made. */
  lemma {:induction false} ShuffleOneToOne<T>(s: seq<T>, swaps: seq<nat>)
    requires NoDup(s) && FullChoices(swaps, |s|)
    ensures multiset(Swapped(s, swaps)) == multiset(s)
    ensures Recovered(s, Swapped(s, swaps)) == swaps
    decreases |s|
  {
    ShuffleRearranges(s, swaps);
    if |s| > 1 {
      var c, rest := swaps[0], swaps[1..];
      assert swaps == [c] + rest;
      RestNoDup(s, c);
      ShuffleOneToOne(Rest(s, c), rest);
      FirstChoiceShows(s, c, rest);
    }
  }

  /** The last element tells the first choice, the others tell the rest. */
  lemma FirstChoiceShows<T>(s: seq<T>, c: nat, rest: seq<nat>)
    requires NoDup(s) && |s| > 1 && c < |s| && Choices(rest, |s| - 1) && Choices([c] + rest, |s|)
    requires var t := Swapped(Rest(s, c), rest); multiset(t) == multiset(Rest(s, c)) && Recovered(Rest(s, c), t) == rest
    requires multiset(Swapped(s, [c] + rest)) == multiset(s)
    ensures Recovered(s, Swapped(s, [c] + rest)) == [c] + rest
  {
    var t := Swapped(s, [c] + rest);
    SwappedFirst(s, c, rest);
    assert t[..|t| - 1] == Swapped(Rest(s, c), rest) && t[|t| - 1] == s[c];
    LastFrom(s, t);
    assert Position(s, s[c]) == c;
  }

  /** `output.swap(i, j)`. */
  method SwapInPlace(output: array<char>, i: nat, j: nat)
    requires i < output.Length && j < output.Length
    modifies output
    ensures output[..] == Swap(old(output[..]), i, j)
  {
    output[i], output[j] := output[j], output[i];
  }

  lemma ChoicesNext(swaps: seq<nat>, c: nat, n: nat)
    requires |swaps| + 1 < n && Choices(swaps, n) && c <= n - 1 - |swaps|
    ensures Choices(swaps + [c], n)
  {
    var more := swaps + [c];
    forall k | 0 <= k < |more| ensures more[k] <= n - 1 - k {
      if k < |swaps| { assert more[k] == swaps[k]; }
    }
  }

  lemma SwappedNext<T>(s: seq<T>, swaps: seq<nat>, c: nat)
    requires Choices(swaps, |s|) && Choices(swaps + [c], |s|) && |swaps| < |s| && c <= |s| - 1 - |swaps|
    ensures Swapped(s, swaps + [c]) == Swap(Swapped(s, swaps), |s| - 1 - |swaps|, c)
  {
    var more := swaps + [c];
    assert more[..|more| - 1] == swaps && more[|more| - 1] == c;
  }

  lemma OneMoreSwap<T>(was: seq<T>, swaps: seq<nat>, c: nat, now: seq<T>)
    requires |swaps| + 1 < |was| && Choices(swaps, |was|) && c <= |was| - 1 - |swaps|
    requires now == Swap(Swapped(was, swaps), |was| - 1 - |swaps|, c)
    ensures Choices(swaps + [c], |was|) && now == Swapped(was, swaps + [c])
  {
    ChoicesNext(swaps, c, |was|);
    SwappedNext(was, swaps, c);
  }

  /** The bound of each swap: the number of positions it may reach. */
  predicate SwapBounds(uppers: seq<nat>, n: nat) {
    && n > 0 && |uppers| == 2 * n - 1 && Positive(uppers)
    && forall k :: n <= k < |uppers| ==> uppers[k] == 2 * n - k
  }

  /** `output.swap` down the buffer, in place. */
  method Shuffle(output: array<char>, random: RandomWords, ghost start: seq<nat>, ghost uppers: seq<nat>,
                 ghost picks: seq<nat>)
    returns (ok: bool, ghost swaps: seq<nat>)
    requires SwapBounds(uppers, output.Length) && |picks| == output.Length
    requires Drawn(start, uppers, picks, random.words)
    modifies output, random
    ensures !ok ==> DrawAll(start, uppers).None?
    ensures ok ==> Drawn(start, uppers, picks + swaps, random.words) && FullChoices(swaps, output.Length)
    ensures ok ==> output[..] == Swapped(old(output[..]), swaps)
  {
    swaps := [];
    var index: nat := output.Length - 1;
    assert picks + [] == picks;
    while index > 0
      invariant |swaps| == output.Length - 1 - index && Choices(swaps, output.Length)
      invariant Drawn(start, uppers, picks + swaps, random.words)
      invariant output[..] == Swapped(old(output[..]), swaps)
    {
      var swap := NextIndex(random, start, uppers, index + 1, picks + swaps);
      if swap.None? { return false, []; }
      SwapInPlace(output, index, swap.value);
      OneMoreSwap(old(output[..]), swaps, swap.value, output[..]);
      AppendLast(picks, swaps, swap.value);
      swaps, index := swaps + [swap.value], index - 1;
    }
    ok := true;
  }

  // ---------------------------------------------------------------------------
  // The native generator
  // ---------------------------------------------------------------------------

  const UPPER := "ABCDEFGHIJKLMNOPQRSTUVWXYZ"
  const LOWER := "abcdefghijklmnopqrstuvwxyz"
  const DIGITS := "0123456789"
  const SYMBOLS := "!@#$%^&*()-_=+[]{}:,.?"

  datatype Flags = Flags(upper: bool, lower: bool, digits: bool, symbols: bool)

  function Classes(f: Flags): (classes: seq<string>)
    ensures |classes| <= 4 && forall k :: 0 <= k < |classes| ==> classes[k] != ""
  {
    (if f.upper then [UPPER] else []) + (if f.lower then [LOWER] else []) +
    (if f.digits then [DIGITS] else []) + (if f.symbols then [SYMBOLS] else [])
  }

  lemma {:induction false} InFlatten<T>(parts: seq<seq<T>>, k: nat, x: T)
    requires k < |parts| && x in parts[k]
    ensures x in Flatten(parts)
  {
    if k < |parts| - 1 { InFlatten(parts[..|parts| - 1], k, x); }
  }

  /** The class a position is first drawn from: one of each class, then the whole alphabet. */
  function ClassAt(classes: seq<string>, k: nat): string {
    if k < |classes| then classes[k] else Flatten(classes)
  }

  function Uppers(classes: seq<string>, length: nat): (uppers: seq<nat>)
    requires length > 0
    ensures |uppers| == 2 * length - 1
  {
    seq(length, k requires 0 <= k < length => |ClassAt(classes, k)|) +
    seq(length - 1, k requires 0 <= k < length - 1 => length - k)
  }

  lemma UppersPositive(classes: seq<string>, length: nat)
    requires length > 0 && classes != [] && forall k :: 0 <= k < |classes| ==> classes[k] != ""
    ensures Positive(Uppers(classes, length))
    ensures forall k :: 0 <= k < length ==> Uppers(classes, length)[k] == |ClassAt(classes, k)|
    ensures forall k :: length <= k < 2 * length - 1 ==> Uppers(classes, length)[k] == 2 * length - k
  {
    assert classes[0][0] in classes[0];
    InFlatten(classes, 0, classes[0][0]);
  }

  predicate Picks(classes: seq<string>, indices: seq<nat>) {
    forall k :: 0 <= k < |indices| ==> indices[k] < |ClassAt(classes, k)|
  }

  function Picked(classes: seq<string>, indices: seq<nat>): (s: string)
    requires Picks(classes, indices)
    ensures |s| == |indices|
  {
    seq(|indices|, k requires 0 <= k < |indices| => ClassAt(classes, k)[indices[k]])
  }

  lemma PickedNext(classes: seq<string>, picks: seq<nat>, index: nat)
    requires Picks(classes, picks) && index < |ClassAt(classes, |picks|)|
    ensures Picks(classes, picks + [index])
    ensures Picked(classes, picks + [index]) == Picked(classes, picks) + [ClassAt(classes, |picks|)[index]]
  {}

  datatype Result = Ok(password: string) | InvalidInput | OutOfRandom

  predicate NativeAccepts(f: Flags, length: nat) {
    Classes(f) != [] && |Classes(f)| <= length && 4 <= length <= 256
  }

  /** The password the random words determine. */
  function Generated(f: Flags, length: nat, words: seq<nat>): Result {
    if !NativeAccepts(f, length) then InvalidInput
    else
      var classes := Classes(f);
      UppersPositive(classes, length);
      var drawn := DrawAll(words, Uppers(classes, length));
      if drawn.None? then OutOfRandom
      else Ok(Swapped(Picked(classes, drawn.value.0[..length]), drawn.value.0[length..]))
  }

  /** One pushed character: the next index, read in the class of its position. */
  method PushNext(classes: seq<string>, output: string, class': string, random: RandomWords, ghost start: seq<nat>,
                  ghost uppers: seq<nat>, ghost picks: seq<nat>)
    returns (next: Option<string>, ghost picks': seq<nat>)
    requires Positive(uppers) && |picks| < |uppers| && class' == ClassAt(classes, |picks|)
    requires uppers[|picks|] == |class'| && Picks(classes, picks) && output == Picked(classes, picks)
    requires Drawn(start, uppers, picks, random.words)
    modifies random
    ensures next.None? ==> DrawAll(start, uppers).None?
    ensures next.Some? ==> |picks'| == |picks| + 1 && Picks(classes, picks') && next.value == Picked(classes, picks')
    ensures next.Some? ==> Drawn(start, uppers, picks', random.words)
  {
    var index := NextIndex(random, start, uppers, |class'|, picks);
    if index.None? { return None, picks; }
    PickedNext(classes, picks, index.value);
    next, picks' := Some(output + [class'[index.value]]), picks + [index.value];
  }

  /** The pushes: one character of each class, then any characters. */
  method Fill(classes: seq<string>, length: nat, random: RandomWords, ghost start: seq<nat>, ghost uppers: seq<nat>)
    returns (output: Option<string>, ghost picks: seq<nat>)
    requires |classes| <= length <= |uppers| && start == random.words && Positive(uppers)
    requires forall k :: 0 <= k < length ==> uppers[k] == |ClassAt(classes, k)|
    modifies random
    ensures output.None? ==> DrawAll(start, uppers).None?
    ensures output.Some? ==> |picks| == length && Drawn(start, uppers, picks, random.words)
    ensures output.Some? ==> Picks(classes, picks) && output.value == Picked(classes, picks)
  {
    output, picks := Some(""), [];
    for k := 0 to |classes|
      invariant output.Some? && |picks| == k && Picks(classes, picks) && output.value == Picked(classes, picks)
      invariant Drawn(start, uppers, picks, random.words)
    {
      output, picks := PushNext(classes, output.value, classes[k], random, start, uppers, picks);
      if output.None? { return; }
    }
    var alphabet := Flatten(classes);
    while |output.value| < length
      invariant output.Some? && |classes| <= |picks| <= length
      invariant Picks(classes, picks) && output.value == Picked(classes, picks)
      invariant Drawn(start, uppers, picks, random.words)
      decreases length - |picks|
    {
      output, picks := PushNext(classes, output.value, alphabet, random, start, uppers, picks);
      if output.None? { return; }
    }
  }

  /** `mobile_generate_password`. */
  method GenerateNative(length: nat, f: Flags, random: RandomWords) returns (r: Result)
    modifies random
    ensures r == Generated(f, length, old(random.words))
  {
    var classes := Classes(f);
    if classes == [] || length < |classes| || !(4 <= length <= 256) { return InvalidInput; }
    ghost var start := random.words;
    UppersPositive(classes, length);
    r := FillAndShuffle(classes, length, random, Uppers(classes, length));
  }

  method FillAndShuffle(classes: seq<string>, length: nat, random: RandomWords, ghost uppers: seq<nat>)
    returns (r: Result)
    requires |classes| <= length && SwapBounds(uppers, length)
    requires forall k :: 0 <= k < length ==> uppers[k] == |ClassAt(classes, k)|
    modifies random
    ensures var drawn := DrawAll(old(random.words), uppers);
            && (drawn.None? ==> r == OutOfRandom)
            && (drawn.Some? ==> r == Ok(Swapped(Picked(classes, drawn.value.0[..length]), drawn.value.0[length..])))
  {
    ghost var start := random.words;
    var chosen, picks := Fill(classes, length, random, start, uppers);
    if chosen.None? { return OutOfRandom; }
    var output := new char[length](k requires 0 <= k < |chosen.value| => chosen.value[k]);
    assert output[..] == chosen.value;
    var shuffled, swaps := Shuffle(output, random, start, uppers, picks);
    if !shuffled { return OutOfRandom; }
    AllDrawn(uppers, picks, swaps, length);
    r := Ok(output[..]);
  }

  lemma AllDrawn(uppers: seq<nat>, picks: seq<nat>, swaps: seq<nat>, length: nat)
    requires |picks| == length && |picks + swaps| == |uppers|
    ensures uppers[..|picks + swaps|] == uppers
    ensures (picks + swaps)[..length] == picks && (picks + swaps)[length..] == swaps
  {}

  lemma InMultiset<T>(s: seq<T>, t: seq<T>, x: T)
    requires multiset(s) == multiset(t) && x in s
    ensures x in t
  {
    assert x in multiset(t);
  }

  lemma PickedAllowed(classes: seq<string>, picks: seq<nat>, k: nat)
    requires Picks(classes, picks) && |classes| <= |picks| && k < |picks|
    ensures Picked(classes, picks)[k] in Flatten(classes)
    ensures k < |classes| ==> Picked(classes, picks)[k] in classes[k]
  {
    if k < |classes| { InFlatten(classes, k, Picked(classes, picks)[k]); }
  }

  /** Any rearrangement of the picked characters. */
  lemma PickedCovers(classes: seq<string>, picks: seq<nat>, p: string)
    requires Picks(classes, picks) && |classes| <= |picks| && multiset(p) == multiset(Picked(classes, picks))
    ensures forall c :: c in p ==> c in Flatten(classes)
    ensures forall k :: 0 <= k < |classes| ==> exists c :: c in classes[k] && c in p
  {
    var chosen := Picked(classes, picks);
    forall c | c in p ensures c in Flatten(classes) {
      InMultiset(p, chosen, c);
      var k :| 0 <= k < |chosen| && chosen[k] == c;
      PickedAllowed(classes, picks, k);
    }
    forall k | 0 <= k < |classes| ensures exists c :: c in classes[k] && c in p {
      InMultiset(chosen, p, chosen[k]);
      PickedAllowed(classes, picks, k);
    }
  }

  /** A generated password has the requested length, only allowed characters, and every selected class. */
  lemma GeneratedHasEveryClass(f: Flags, length: nat, words: seq<nat>)
    requires Generated(f, length, words).Ok?
    ensures var p, classes := Generated(f, length, words).password, Classes(f);
            && |p| == length
            && (forall c :: c in p ==> c in Flatten(classes))
            && (forall k :: 0 <= k < |classes| ==> exists c :: c in classes[k] && c in p)
  {
    var classes := Classes(f);
    UppersPositive(classes, length);
    var drawn := DrawAll(words, Uppers(classes, length)).value.0;
    var picks, swaps := drawn[..length], drawn[length..];
    var p := Swapped(Picked(classes, picks), swaps);
    ShuffleRearranges(Picked(classes, picks), swaps);
    PickedCovers(classes, picks, p);
  }

  // ---------------------------------------------------------------------------
  // The browser generator
  // ---------------------------------------------------------------------------

  const BROWSER_SYMBOLS := "!@#$%^&*"
  const SIMILAR := "il1Lo0OI"
  const AMBIGUOUS := "{ }[ ]()/\\'\"`,;.<>~"

  datatype Options = Options(length: int, classes: Flags, excludeSimilar: bool, excludeAmbiguous: bool)

  function BuildCharset(opts: Options): string {
    var chars := (if opts.classes.upper then UPPER else "") + (if opts.classes.lower then LOWER else "") +
                 (if opts.classes.digits then DIGITS else "") + (if opts.classes.symbols then BROWSER_SYMBOLS else "");
    var clear := if opts.excludeSimilar then Filter(chars, c => c !in SIMILAR) else chars;
    if opts.excludeAmbiguous then Filter(clear, c => c !in AMBIGUOUS) else clear
  }

  predicate BrowserAccepts(opts: Options) {
    8 <= opts.length <= 128 && BuildCharset(opts) != ""
  }

  function Readings(chars: string, bytes: seq<nat>): (s: string)
    requires chars != ""
    ensures |s| == |bytes|
  {
    seq(|bytes|, k requires 0 <= k < |bytes| => chars[bytes[k] % |chars|])
  }

  function Below(limit: nat): nat -> bool {
    b => b < limit
  }

  /** The accepted bytes, as many as are wanted, in the order they arrive. */
  function Sampled(chars: string, bytes: seq<nat>, length: nat): seq<nat>
    requires chars != ""
  {
    Take(Filter(bytes, Below(ByteLimit(|chars|))), length)
  }

  /** The result when the buffer is refilled with `blocks`, one after another. */
  function BrowserGenerated(opts: Options, blocks: seq<seq<nat>>): Result {
    if !BrowserAccepts(opts) then InvalidInput
    else
      var chars := BuildCharset(opts);
      var taken := Sampled(chars, Flatten(blocks), opts.length);
      if |taken| < opts.length then OutOfRandom else Ok(Readings(chars, taken))
  }

  /** One byte more: read as a character if it is accepted and there is room. */
  lemma NextByte(chars: string, bytes: seq<nat>, i: nat, length: nat)
    requires chars != "" && i < |bytes|
    ensures var before := Readings(chars, Sampled(chars, bytes[..i], length));
            Readings(chars, Sampled(chars, bytes[..i + 1], length)) ==
            if bytes[i] < ByteLimit(|chars|) && |before| < length then before + [chars[bytes[i] % |chars|]] else before
  {
    var taken := Sampled(chars, bytes[..i], length);
    TakeFilterNext(bytes, i, Below(ByteLimit(|chars|)), length);
    assert Readings(chars, taken + [bytes[i]]) == Readings(chars, taken) + [chars[bytes[i] % |chars|]];
  }

  /** One pass over the byte buffer. */
  method ReadBlock(chars: string, length: nat, before: string, ghost seen: seq<nat>, block: seq<nat>)
    returns (result: string)
    requires chars != "" && before == Readings(chars, Sampled(chars, seen, length))
    ensures result == Readings(chars, Sampled(chars, seen + block, length))
  {
    result := before;
    var limit := ByteLimit(|chars|);
    ghost var all := seen + block;
    assert all[..|seen|] == seen;
    for i := 0 to |block|
      invariant result == Readings(chars, Sampled(chars, all[..|seen| + i], length))
    {
      NextByte(chars, all, |seen| + i, length);
      if block[i] < limit && |result| < length {
        result := result + [chars[block[i] % |chars|]];
      }
    }
    assert all[..|all|] == all;
  }

  /** `generatePassword`. */
  method GenerateBrowser(opts: Options, blocks: seq<seq<nat>>) returns (r: Result)
    ensures r == BrowserGenerated(opts, blocks)
  {
    var chars := BuildCharset(opts);
    if opts.length < 8 || opts.length > 128 || chars == "" { return InvalidInput; }
    var result, k := "", 0;
    while |result| < opts.length
      invariant k <= |blocks| && result == Readings(chars, Sampled(chars, Flatten(blocks[..k]), opts.length))
      decreases |blocks| - k
    {
      if k == |blocks| {
        assert blocks[..k] == blocks;
        return OutOfRandom;
      }
      assert blocks[..k + 1][..k] == blocks[..k];
      result := ReadBlock(chars, opts.length, result, Flatten(blocks[..k]), blocks[k]);
      k := k + 1;
    }
    SampledEnough(chars, blocks, k, opts.length);
    r := Ok(result);
  }

  /** Once enough bytes were accepted, later blocks change nothing. */
  lemma SampledEnough(chars: string, blocks: seq<seq<nat>>, k: nat, length: nat)
    requires chars != "" && k <= |blocks| && |Sampled(chars, Flatten(blocks[..k]), length)| >= length
    ensures Sampled(chars, Flatten(blocks), length) == Sampled(chars, Flatten(blocks[..k]), length)
  {
    var all, part := Flatten(blocks), Flatten(blocks[..k]);
    FlattenPrefix(blocks, k);
    assert all[..|part|] == part;
    TakeFilterFull(all, |part|, Below(ByteLimit(|chars|)), length);
  }

  /** A browser password has the requested length, and only characters of the set; the set honours every option. */
  lemma BrowserPasswordAllowed(opts: Options, blocks: seq<seq<nat>>, c: char)
    requires BrowserGenerated(opts, blocks).Ok?
    ensures |BrowserGenerated(opts, blocks).password| == opts.length
    ensures c in BrowserGenerated(opts, blocks).password ==> c in BuildCharset(opts)
    ensures c in BuildCharset(opts) <==>
              && ((opts.classes.upper && c in UPPER) || (opts.classes.lower && c in LOWER) ||
                  (opts.classes.digits && c in DIGITS) || (opts.classes.symbols && c in BROWSER_SYMBOLS))
              && (opts.excludeSimilar ==> c !in SIMILAR) && (opts.excludeAmbiguous ==> c !in AMBIGUOUS)
  {
    var chars := BuildCharset(opts);
    var taken := Sampled(chars, Flatten(blocks), opts.length);
    if c in Readings(chars, taken) {
      var k :| 0 <= k < |taken| && Readings(chars, taken)[k] == c;
    }
    CharsetOptions(opts, c);
  }

  lemma CharsetOptions(opts: Options, c: char)
    ensures c in BuildCharset(opts) <==>
              && ((opts.classes.upper && c in UPPER) || (opts.classes.lower && c in LOWER) ||
                  (opts.classes.digits && c in DIGITS) || (opts.classes.symbols && c in BROWSER_SYMBOLS))
              && (opts.excludeSimilar ==> c !in SIMILAR) && (opts.excludeAmbiguous ==> c !in AMBIGUOUS)
  {
    var chars := (if opts.classes.upper then UPPER else "") + (if opts.classes.lower then LOWER else "") +
                 (if opts.classes.digits then DIGITS else "") + (if opts.classes.symbols then BROWSER_SYMBOLS else "");
    var clear := if opts.excludeSimilar then Filter(chars, c => c !in SIMILAR) else chars;
    FilterIn(chars, c => c !in SIMILAR);
    FilterIn(clear, c => c !in AMBIGUOUS);
  }
}
