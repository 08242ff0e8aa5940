/**
 160-bit identifiers held as five 32-bit words, most significant first (p2core/ID.C).  The word-wise
 algorithms are shown to compute on the ring of integers modulo 2^160.
 */
module Ids {
  import opened Arithmetic

  const WORDS := 5
  const BASE := 0x1_0000_0000

  type Word = w: int | 0 <= w < 0x1_0000_0000
  type Id = s: seq<Word> | |s| == 5 witness [0, 0, 0, 0, 0]

  function Pow2(n: nat): (p: nat)
    ensures p >= 1
  {
    if n == 0 then 1 else 2 * Pow2(n - 1)
  }

  /** The weight of the word that has `k` words below it. */
  ghost function Weight(k: nat): (p: nat)
    ensures p >= 1
  {
    if k == 0 then 1 else BASE * Weight(k - 1)
  }

  /** The number denoted by a sequence of words, most significant first. */
  ghost function Value(w: seq<Word>): nat {
    if w == [] then 0 else Value(w[..|w| - 1]) * BASE + w[|w| - 1]
  }

  /** The size of the identifier ring. */
  ghost function Ring(): (m: nat)
    ensures m >= 1
  {
    Weight(WORDS)
  }

  // ---------------------------------------------------------------------------------
  // Arithmetic of word sequences
  // ---------------------------------------------------------------------------------

  lemma {:induction false} WeightIsPow2(k: nat)
    ensures Weight(k) == Pow2(32 * k)
  {
    if k > 0 {
      WeightIsPow2(k - 1);
      Pow2Add(32, 32 * (k - 1));
      assert Pow2(32) == BASE by { Pow2Of32(); }
    }
  }

  lemma {:induction false} Pow2Of32()
    ensures Pow2(32) == BASE
  {
    assert Pow2(8) == 0x100;
    Pow2Add(8, 8);
    Pow2Add(16, 16);
  }

  lemma {:induction false} Pow2Add(m: nat, n: nat)
    ensures Pow2(m + n) == Pow2(m) * Pow2(n)
  {
    if m > 0 {
      Pow2Add(m - 1, n);
    }
  }

  lemma {:induction false} WeightAdd(m: nat, n: nat)
    ensures Weight(m + n) == Weight(m) * Weight(n)
  {
    if m > 0 {
      WeightAdd(m - 1, n);
    }
  }

  /** Splitting a word sequence splits its value. */
  lemma {:induction false} ValueSplit(hi: seq<Word>, lo: seq<Word>)
    ensures Value(hi + lo) == Value(hi) * Weight(|lo|) + Value(lo)
  {
    if lo == [] {
      assert hi + lo == hi;
    } else {
      var init := lo[..|lo| - 1];
      assert (hi + lo)[..|hi + lo| - 1] == hi + init;
      ValueSplit(hi, init);
      assert Value(hi) * Weight(|lo|) == Value(hi) * Weight(|init|) * BASE;
    }
  }

  lemma {:induction false} ValueBound(w: seq<Word>)
    ensures Value(w) < Weight(|w|)
  {
    if w != [] {
      ValueBound(w[..|w| - 1]);
    }
  }

  /** One more word at the top. */
  lemma {:induction false} ValueFrom(w: seq<Word>, i: nat)
    requires i < |w|
    ensures Value(w[i..]) == w[i] * Weight(|w| - 1 - i) + Value(w[i + 1..])
  {
    assert w[i..] == [w[i]] + w[i + 1..];
    ValueSplit([w[i]], w[i + 1..]);
    assert Value([w[i]]) == w[i];
  }

  /** One more word at the bottom. */
  lemma {:induction false} ValueUpTo(w: seq<Word>, i: nat)
    requires i < |w|
    ensures Value(w[..i + 1]) == Value(w[..i]) * BASE + w[i]
  {
    assert w[..i + 1][..i] == w[..i];
  }

  lemma {:induction false} ValueOfZeros(n: nat)
    ensures Value(seq(n, _ => 0)) == 0
  {
    if n > 0 {
      ValueOfZeros(n - 1);
      assert seq(n, _ => 0 as Word)[..n - 1] == seq(n - 1, _ => 0 as Word);
    }
  }

  /** Words are determined by the number they denote. */
  lemma {:induction false} ValueInjective(v: seq<Word>, w: seq<Word>)
    requires |v| == |w| && Value(v) == Value(w)
    ensures v == w
  {
    if v != [] {
      var n := |v| - 1;
      assert v == v[..n] + [v[n]] && w == w[..n] + [w[n]];
      assert Value(v[..n]) == Value(w[..n]) && v[n] == w[n] by {
        var (a, b) := (Value(v[..n]), Value(w[..n]));
        assert (a - b) * BASE == w[n] - v[n];
      }
      ValueInjective(v[..n], w[..n]);
    }
  }

  // ---------------------------------------------------------------------------------
  // The operations
  // ---------------------------------------------------------------------------------

  /** Unsigned 32-bit arithmetic wraps around. */
  function Wrap(x: int): Word {
    x % BASE
  }

  /** One column of an addition, at weight `p`. */
  lemma {:induction false} AddColumn(x: int, y: int, c: int, z: int, c': int, p: int)
    requires x + y + c == z + c' * BASE
    ensures x * p + y * p + c * p == z * p + c' * (BASE * p)
  {
    assert (x + y + c) * p == (z + c' * BASE) * p;
  }

  /** The words from position `i` on of `x` and `y` add up to those of `z`, with carry `c`. */
  ghost predicate SumsTo(x: Id, y: Id, z: Id, c: int, i: nat)
    requires i <= WORDS
  {
    Value(x[i..]) + Value(y[i..]) == Value(z[i..]) + c * Weight(WORDS - i)
  }

  lemma {:induction false} SumsToStep(x: Id, y: Id, z: Id, c: int, z': Id, c': int, i: nat)
    requires i < WORDS && SumsTo(x, y, z, c, i + 1)
    requires z'[i + 1..] == z[i + 1..] && x[i] + y[i] + c == z'[i] + c' * BASE
    ensures SumsTo(x, y, z', c', i)
  {
    ValueFrom(x, i);
    ValueFrom(y, i);
    ValueFrom(z', i);
    AddColumn(x[i], y[i], c, z'[i], c', Weight(WORDS - 1 - i));
  }

  lemma {:induction false} SumsToRing(x: Id, y: Id, z: Id, c: int)
    requires SumsTo(x, y, z, c, 0)
    ensures Value(z) == (Value(x) + Value(y)) % Ring()
  {
    assert x[0..] == x && y[0..] == y && z[0..] == z;
    ValueBound(z);
    ModIs(Value(x) + Value(y), Ring(), c, Value(z));
  }

  /** `add`: word-wise addition with carry is addition on the ring. */
  method Add(a: Id, b: Id) returns (r: Id)
    ensures Value(r) == (Value(a) + Value(b)) % Ring()
  {
    var words := new Word[WORDS](_ => 0);
    var carry: Word := 0;
    var i := WORDS - 1;
    while i >= 0
      invariant -1 <= i < WORDS && 0 <= carry <= 1
      invariant SumsTo(a, b, words[..], carry, i + 1)
    {
      var temp := a[i] + b[i] + carry;
      ghost var (before, c) := (words[..], carry);
      if temp > 0xffff_ffff {
        words[i] := temp % BASE;
        carry := 1;
      } else {
        words[i] := temp;
        carry := 0;
      }
      SumsToStep(a, b, before, c, words[..], carry, i);
      i := i - 1;
    }
    r := words[..];
    SumsToRing(a, b, r, carry);
  }

  /** `distance`: word-wise subtraction with borrow is subtraction on the ring. */
  method Distance(a: Id, to: Id) returns (r: Id)
    ensures Value(r) == (Value(to) - Value(a)) % Ring()
  {
    var words := new Word[WORDS](_ => 0);
    var carry: Word := 0;
    var i := WORDS - 1;
    while i >= 0
      invariant -1 <= i < WORDS && 0 <= carry <= 1
      invariant SumsTo(a, words[..], to, carry, i + 1)
    {
      ghost var (before, c) := (words[..], carry);
      if to[i] >= Wrap(a[i] + carry) {
        words[i] := Wrap(to[i] - a[i] - carry);
        if carry == 1 {
          if Wrap(a[i] + carry) == 0 {
            carry := 1;
          } else {
            carry := 0;
          }
        }
      } else {
        words[i] := Wrap(to[i] - a[i] - carry);
        carry := 1;
      }
      BorrowStep(a, before, to, c, words[..], carry, i);
      i := i - 1;
    }
    r := words[..];
    BorrowRing(a, r, to, carry);
  }

  lemma {:induction false} BorrowStep(x: Id, y: Id, z: Id, c: int, y': Id, c': int, i: nat)
    requires i < WORDS && SumsTo(x, y, z, c, i + 1)
    requires y'[i + 1..] == y[i + 1..] && x[i] + y'[i] + c == z[i] + c' * BASE
    ensures SumsTo(x, y', z, c', i)
  {
    ValueFrom(x, i);
    ValueFrom(y', i);
    ValueFrom(z, i);
    AddColumn(x[i], y'[i], c, z[i], c', Weight(WORDS - 1 - i));
  }

  lemma {:induction false} BorrowRing(x: Id, y: Id, z: Id, c: int)
    requires SumsTo(x, y, z, c, 0)
    ensures Value(y) == (Value(z) - Value(x)) % Ring()
  {
    assert x[0..] == x && y[0..] == y && z[0..] == z;
    ValueBound(y);
    ModIs(Value(z) - Value(x), Ring(), -c, Value(y));
  }

  /** Going from `a` by the distance to `b` leads to `b`. */
  lemma {:induction false} AddDistance(a: Id, b: Id, d: Id, s: Id)
    requires Value(d) == (Value(b) - Value(a)) % Ring()
    requires Value(s) == (Value(a) + Value(d)) % Ring()
    ensures s == b
  {
    var m := Ring();
    var q := (Value(b) - Value(a)) / m;
    assert Value(b) - Value(a) == q * m + Value(d);
    ValueBound(b);
    assert Value(a) + Value(d) == (-q) * m + Value(b);
    ModIs(Value(a) + Value(d), m, -q, Value(b));
    ValueInjective(s, b);
  }

  /** `a.add(a.distance(b))` is `b`. */
  method AddTheDistance(a: Id, b: Id) returns (r: Id)
    ensures r == b
  {
    var d := Distance(a, b);
    r := Add(a, d);
    AddDistance(a, b, d, r);
  }

  // ---------------------------------------------------------------------------------
  // Shifts
  // ---------------------------------------------------------------------------------

  /** The words from position `i` on were shifted left by `s` bits, spilling `c`. */
  ghost predicate ShiftedLeft(x: Id, s: nat, z: Id, c: int, i: nat)
    requires i <= WORDS
  {
    Value(x[i..]) * Pow2(s) == Value(z[i..]) + c * Weight(WORDS - i)
  }

  lemma {:induction false} ShiftColumn(x: int, f: int, c: int, z: int, c': int, p: int, lo: int, lo': int)
    requires x * f + c == z + c' * BASE
    requires lo * f == lo' + c * p
    ensures (x * p + lo) * f == z * p + lo' + c' * (BASE * p)
  {
    assert (x * f + c) * p == (z + c' * BASE) * p;
    assert (x * p + lo) * f == x * f * p + lo * f;
  }

  lemma {:induction false} ShiftedLeftStep(x: Id, s: nat, z: Id, c: int, z': Id, c': int, i: nat)
    requires i < WORDS && ShiftedLeft(x, s, z, c, i + 1)
    requires z'[i + 1..] == z[i + 1..] && x[i] * Pow2(s) + c == z'[i] + c' * BASE
    ensures ShiftedLeft(x, s, z', c', i)
  {
    ValueFrom(x, i);
    ValueFrom(z', i);
    ShiftColumn(x[i], Pow2(s), c, z'[i], c', Weight(WORDS - 1 - i), Value(x[i + 1..]), Value(z[i + 1..]));
  }

  lemma {:induction false} Regroup(h: int, p: int, lo: int, q: int)
    ensures (h * p + lo) * q == h * (p * q) + lo * q
  {
  }

  /** Dropping the top `n` words and filling up with zeros multiplies by a weight, on the ring. */
  lemma {:induction false} MovedLeft(a: Id, n: nat, mid: Id)
    requires n <= WORDS
    requires mid == a[n..] + seq(n, _ => 0)
    ensures Value(a) * Weight(n) == Value(mid) + Value(a[..n]) * Ring()
  {
    ValueSplit(a[n..], seq(n, _ => 0));
    ValueOfZeros(n);
    assert a == a[..n] + a[n..];
    ValueSplit(a[..n], a[n..]);
    WeightAdd(WORDS - n, n);
    Regroup(Value(a[..n]), Weight(WORDS - n), Value(a[n..]), Weight(n));
  }

  lemma {:induction false} ScaleTwice(x: int, w: int, y: int, k: int, m: int, f: int, r: int, c: int)
    requires x * w == y + k * m && y * f == r + c * m
    ensures x * (w * f) == (c + k * f) * m + r
  {
    assert x * (w * f) == (x * w) * f;
    assert (y + k * m) * f == y * f + (k * f) * m;
  }

  lemma {:induction false} ShiftedLeftRing(a: Id, n: nat, s: nat, mid: Id, r: Id, c: int)
    requires n <= WORDS && mid == a[n..] + seq(n, _ => 0)
    requires ShiftedLeft(mid, s, r, c, 0)
    ensures Value(r) == Value(a) * Pow2(32 * n + s) % Ring()
  {
    MovedLeft(a, n, mid);
    assert mid[0..] == mid && r[0..] == r;
    ScaleTwice(Value(a), Weight(n), Value(mid), Value(a[..n]), Ring(), Pow2(s), Value(r), c);
    WeightIsPow2(n);
    Pow2Add(32 * n, s);
    ValueBound(r);
    ModIs(Value(a) * Pow2(32 * n + s), Ring(), c + Value(a[..n]) * Pow2(s), Value(r));
  }

  /**
   `lshift`: multiplication by a power of two on the ring.  The 64-bit `temp | carry` adds, since the
   carry fits into the bits that the shift vacated.
   */
  method LShift(a: Id, shift: Word) returns (r: Id)
    ensures Value(r) == Value(a) * Pow2(shift) % Ring()
  {
    if shift == 0 {
      NoShift(a);
      return a;
    }
    if shift >= WORDS * 32 {
      WholeRingShift(a, shift);
      return [0, 0, 0, 0, 0];
    }
    r := LShiftWithin(a, shift);
  }

  lemma {:induction false} NoShift(a: Id)
    ensures Value(a) == Value(a) * Pow2(0) % Ring()
  {
    ValueBound(a);
    ModIs(Value(a), Ring(), 0, Value(a));
  }

  /** The left shift by less than the width: whole words first, then the rest within words. */
  method LShiftWithin(a: Id, shift: Word) returns (r: Id)
    requires 0 < shift < WORDS * 32
    ensures Value(r) == Value(a) * Pow2(shift) % Ring()
  {
    var words := new Word[WORDS](_ => 0);
    var longShift, short := 0, shift;
    if shift > 32 {
      longShift := shift / 32;
      for i := 0 to WORDS - longShift
        invariant forall k | 0 <= k < WORDS :: words[k] == if k < i then a[k + longShift] else 0
      {
        words[i] := a[i + longShift];
      }
      short := shift % 32;
    } else {
      for i := 0 to WORDS
        invariant words[..i] == a[..i]
      {
        words[i] := a[i];
      }
    }
    ghost var mid := words[..];
    assert mid == a[longShift..] + seq(longShift, _ => 0);
    ghost var spill := ShiftWordsLeft(words, short);
    r := words[..];
    ShiftedLeftRing(a, longShift, short, mid, r, spill);
  }

  /** The short shift, in place: each word takes in what the word below it spilled. */
  method ShiftWordsLeft(words: array<Word>, shift: nat) returns (ghost spill: int)
    requires words.Length == WORDS && shift <= 32
    modifies words
    ensures ShiftedLeft(old(words[..]), shift, words[..], spill, 0)
  {
    ghost var mid := words[..];
    var carry: int := 0;
    var i := WORDS - 1;
    while i >= 0
      invariant -1 <= i < WORDS && 0 <= carry < Pow2(shift)
      invariant words[..i + 1] == mid[..i + 1]
      invariant ShiftedLeft(mid, shift, words[..], carry, i + 1)
    {
      ghost var (before, c) := (words[..], carry);
      assert words[i] == mid[i];
      var temp := words[i] * Pow2(shift) + carry;
      carry := temp / BASE;
      words[i] := temp % BASE;
      SpillBound(mid[i], Pow2(shift), c);
      ShiftedLeftStep(mid, shift, before, c, words[..], carry, i);
      i := i - 1;
    }
    spill := carry;
  }

  lemma {:induction false} SpillBound(w: Word, f: int, c: int)
    requires f >= 1 && 0 <= c < f
    ensures 0 <= (w * f + c) / BASE < f
  {
    assert w * f <= (BASE - 1) * f;
  }

  lemma {:induction false} ValueOfZero()
    ensures Value([0, 0, 0, 0, 0]) == 0
  {
    ValueOfZeros(5);
    assert seq(5, _ => 0 as Word) == [0, 0, 0, 0, 0];
  }

  lemma {:induction false} SmallQuotient(x: int, y: int)
    requires 0 <= x < y
    ensures x / y == 0
  {
  }

  lemma {:induction false} MultipleOf(x: int, p: int, q: int, m: int)
    requires m > 0 && p == q * m
    ensures x * p % m == 0
  {
    assert x * (q * m) == (x * q) * m;
    ModIs(x * p, m, x * q, 0);
  }

  lemma {:induction false} WholeRingShift(a: Id, shift: nat)
    requires shift >= WORDS * 32
    ensures Value([0, 0, 0, 0, 0]) == Value(a) * Pow2(shift) % Ring()
  {
    WeightIsPow2(WORDS);
    Pow2Add(shift - 160, 160);
    MultipleOf(Value(a), Pow2(shift), Pow2(shift - 160), Ring());
    ValueOfZero();
  }

  /** The words before position `i` were shifted right by `s` bits, leaving remainder `t`. */
  ghost predicate ShiftedRight(x: Id, s: nat, z: Id, t: int, i: nat)
    requires i <= WORDS
  {
    Value(x[..i]) == Value(z[..i]) * Pow2(s) + t
  }

  lemma {:induction false} DivideColumn(hi: int, hi': int, w: int, g: int, f: int, t: int)
    requires g >= 1 && f * g == BASE && hi == hi' * g + t
    ensures hi * BASE + w == (hi' * BASE + (w / g + t * f)) * g + w % g
  {
    assert w == (w / g) * g + w % g;
    assert t * BASE == (t * f) * g;
    assert (hi' * BASE) * g == (hi' * g) * BASE;
    assert (hi' * BASE + (w / g + t * f)) * g == (hi' * BASE) * g + (w / g) * g + (t * f) * g;
  }

  lemma {:induction false} ShiftedRightStep(x: Id, s: nat, z: Id, t: int, z': Id, i: nat)
    requires i < WORDS && s <= 32 && ShiftedRight(x, s, z, t, i)
    requires z'[..i] == z[..i] && z'[i] == x[i] / Pow2(s) + t * Pow2(32 - s)
    ensures ShiftedRight(x, s, z', x[i] % Pow2(s), i + 1)
  {
    ValueUpTo(x, i);
    ValueUpTo(z', i);
    Pow2Add(32 - s, s);
    Pow2Of32();
    DivideColumn(Value(x[..i]), Value(z[..i]), x[i], Pow2(s), Pow2(32 - s), t);
  }

  lemma {:induction false} SmallerFactor(q: int, f: int, g: int)
    requires g >= 1 && q * g < f * g
    ensures q < f
  {
  }

  lemma {:induction false} RightPart(w: Word, f: int, g: int)
    requires f >= 1 && g >= 1 && f * g == BASE
    ensures w * BASE / g == w * f
  {
    assert w * (f * g) == (w * f) * g;
    ModIs(w * BASE, g, w * f, 0);
  }

  lemma {:induction false} RightSplit(w: Word, f: int, g: int, q: int, r: int)
    requires f >= 1 && g >= 1 && f * g == BASE && w == q * g + r && 0 <= r < g
    ensures w * f / BASE == q && w * f % BASE == r * f
  {
    assert (q * g + r) * f == q * (f * g) + r * f;
    assert r * f <= (g - 1) * f;
    assert (g - 1) * f == f * g - f;
    ModIs(w * f, BASE, q, r * f);
  }

  lemma {:induction false} RightBound(w: Word, f: int, g: int, t: int)
    requires f >= 1 && g >= 1 && f * g == BASE && 0 <= t < g
    ensures 0 <= w / g + t * f < BASE
  {
    SmallerFactor(w / g, f, g);
    assert t * f <= (g - 1) * f;
    assert (g - 1) * f == f * g - f;
  }

  /** What the 64-bit steps of the right shift do to one word: `g` is the divisor, `f * g` is 2^32. */
  lemma {:induction false} RightColumn(w: Word, f: int, g: int, t: int)
    requires f >= 1 && g >= 1 && f * g == BASE && 0 <= t < g
    ensures w * BASE / g == w * f
    ensures w * f / BASE == w / g && w * f % BASE == (w % g) * f
    ensures 0 <= w / g + t * f < BASE
  {
    RightPart(w, f, g);
    RightSplit(w, f, g, w / g, w % g);
    RightBound(w, f, g, t);
  }

  /** The short shift, in place, from the top word down to the bottom one. */
  method ShiftWordsRight(words: array<Word>, shift: nat) returns (ghost rest: int)
    requires words.Length == WORDS && shift <= 32
    modifies words
    ensures ShiftedRight(old(words[..]), shift, words[..], rest, WORDS) && 0 <= rest < Pow2(shift)
  {
    ghost var mid := words[..];
    ghost var (f, g) := (Pow2(32 - shift), Pow2(shift));
    assert f * g == BASE by { Pow2Add(32 - shift, shift); Pow2Of32(); }
    rest := 0;
    var carry := 0;
    for i := 0 to WORDS
      invariant 0 <= rest < g && carry == rest * f
      invariant words[i..] == mid[i..]
      invariant ShiftedRight(mid, shift, words[..], rest, i)
    {
      ghost var before := words[..];
      assert words[i] == mid[i];
      RightColumn(mid[i], f, g, rest);
      var temp := words[i] * BASE;
      temp := temp / Pow2(shift);
      var newWord := temp / BASE;
      words[i] := newWord + carry;
      carry := temp % BASE;
      ShiftedRightStep(mid, shift, before, rest, words[..], i);
      rest := mid[i] % g;
    }
  }

  lemma {:induction false} ShiftedRightRing(a: Id, n: nat, s: nat, mid: Id, r: Id, t: int)
    requires n <= WORDS && mid == seq(n, _ => 0) + a[..WORDS - n]
    requires ShiftedRight(mid, s, r, t, WORDS) && 0 <= t < Pow2(s)
    ensures Value(r) == Value(a) / Pow2(32 * n + s)
  {
    var (hi, lo) := (a[..WORDS - n], a[WORDS - n..]);
    assert mid[..WORDS] == mid && r[..WORDS] == r && a == hi + lo;
    ValueSplit(seq(n, _ => 0), hi);
    ValueOfZeros(n);
    ValueSplit(hi, lo);
    ValueBound(lo);
    WeightIsPow2(n);
    Pow2Add(32 * n, s);
    NestedQuotient(Value(hi), Value(lo), Weight(n), Value(r), Pow2(s), t);
  }

  lemma {:induction false} NestedQuotient(hi: int, lo: int, w: int, r: int, g: int, t: int)
    requires 0 <= lo < w && 0 <= t < g && hi == r * g + t
    ensures w * g > 0 && (hi * w + lo) / (w * g) == r
  {
    Regroup(r, g, t, w);
    assert t * w <= (g - 1) * w;
    assert (g - 1) * w == g * w - w;
    ModIs(hi * w + lo, w * g, r, t * w + lo);
  }

  /** `rshift`: division by a power of two. */
  method RShift(a: Id, shift: Word) returns (r: Id)
    ensures Value(r) == Value(a) / Pow2(shift)
  {
    if shift == 0 {
      return a;
    }
    if shift >= WORDS * 32 {
      AllShiftedOut(a, shift);
      return [0, 0, 0, 0, 0];
    }
    var words := new Word[WORDS](_ => 0);
    var longShift, short := 0, shift;
    if shift > 32 {
      longShift := shift / 32;
      for i := longShift to WORDS
        invariant forall k | 0 <= k < WORDS :: words[k] == if longShift <= k < i then a[k - longShift] else 0
      {
        words[i] := a[i - longShift];
      }
      short := shift % 32;
    } else {
      for i := 0 to WORDS
        invariant words[..i] == a[..i]
      {
        words[i] := a[i];
      }
    }
    ghost var mid := words[..];
    assert mid == seq(longShift, _ => 0) + a[..WORDS - longShift];
    ghost var rest := ShiftWordsRight(words, short);
    r := words[..];
    ShiftedRightRing(a, longShift, short, mid, r, rest);
  }

  lemma {:induction false} TimesAtLeast(x: int, y: int)
    requires x >= 1 && y >= 0
    ensures x * y >= y
  {
    assert x * y == (x - 1) * y + y;
  }

  lemma {:induction false} Pow2Grows(i: nat, j: nat)
    ensures Pow2(i + j) >= Pow2(j)
  {
    Pow2Add(i, j);
    TimesAtLeast(Pow2(i), Pow2(j));
  }

  lemma {:induction false} ValueBelow(a: Id, shift: nat)
    requires shift >= WORDS * 32
    ensures 0 <= Value(a) < Pow2(shift)
  {
    ValueBound(a);
    WeightIsPow2(WORDS);
    assert Value(a) < Pow2(160);
    Pow2Grows(shift - 160, 160);
  }

  lemma {:induction false} AllShiftedOut(a: Id, shift: nat)
    requires shift >= WORDS * 32
    ensures Value([0, 0, 0, 0, 0]) == Value(a) / Pow2(shift)
  {
    ValueBelow(a, shift);
    SmallQuotient(Value(a), Pow2(shift));
    ValueOfZero();
  }

  // ---------------------------------------------------------------------------------
  // Comparison
  // ---------------------------------------------------------------------------------

  function Sign(x: int): int {
    if x < 0 then -1 else if x > 0 then 1 else 0
  }

  /** A difference in a higher word outweighs everything below it. */
  lemma {:induction false} HigherWordDecides(a: Id, b: Id, i: nat)
    requires i < WORDS && a[..i] == b[..i] && a[i] < b[i]
    ensures Value(a) < Value(b)
  {
    assert a == a[..i] + a[i..] && b == b[..i] + b[i..];
    ValueSplit(a[..i], a[i..]);
    ValueSplit(b[..i], b[i..]);
    ValueFrom(a, i);
    ValueFrom(b, i);
    ValueBound(a[i + 1..]);
    DigitDecides(a[i], b[i], Weight(WORDS - 1 - i), Value(a[i + 1..]), Value(b[i + 1..]));
  }

  lemma {:induction false} DigitDecides(x: int, y: int, w: int, lo: int, lo': int)
    requires x < y && 0 <= lo < w && 0 <= lo'
    ensures x * w + lo < y * w + lo'
  {
    assert (y - x) * w == w + (y - x - 1) * w;
    assert (y - x - 1) * w >= 0;
  }

  /** `compareTo`: the first differing word decides, which orders identifiers as numbers. */
  method CompareTo(a: Id, b: Id) returns (r: int)
    ensures r == Sign(Value(a) - Value(b))
  {
    for i := 0 to WORDS
      invariant a[..i] == b[..i]
    {
      if a[i] < b[i] {
        HigherWordDecides(a, b, i);
        return -1;
      }
      if a[i] > b[i] {
        HigherWordDecides(b, a, i);
        return 1;
      }
    }
    assert a == b;
    return 0;
  }
}
