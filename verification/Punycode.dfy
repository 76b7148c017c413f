/** The Punycode encoder of `uv__idna_toascii_label`, over the code points of one label. */
module Punycode {
  import opened Wrappers
  import opened Arithmetic
  import opened SeqFacts
  import opened PunycodeSpec

  const MAX_U32: nat := 0xFFFF_FFFF

  /** What the label function returns: the number of characters of an all-ASCII label, 0, or an error. */
  datatype Result = Ok(count: nat) | EINVAL | E2BIG

  /** Code points as the UTF-8 reader yields them; the largest 32-bit value stands for malformed input. */
  ghost predicate Readable(text: seq<nat>) {
    |text| < MAX_U32 && forall c :: c in text ==> c <= MAX_U32
  }

  // ---- The part of a label a decoder has rebuilt so far ----

  /** The code points below n, in order. */
  function Below(s: seq<nat>, n: nat): seq<nat> {
    if s == [] then [] else (if s[0] < n then [s[0]] else []) + Below(s[1..], n)
  }

  /** How many code points up to n lie before position p. */
  function Index(text: seq<nat>, n: nat, p: nat): nat
    requires p <= |text|
  {
    if p == 0 then 0 else Index(text, n, p - 1) + (if text[p - 1] <= n then 1 else 0)
  }

  /** What has been rebuilt when the scan for n has reached position p: everything below n, and the n before p, each
      inserted at its place. */
  function Kept(text: seq<nat>, n: nat, p: nat): seq<nat>
    requires p <= |text|
  {
    if p == 0 then Below(text, n)
    else if text[p - 1] == n && Index(text, n, p - 1) <= |Kept(text, n, p - 1)| then
      Insert(Kept(text, n, p - 1), Index(text, n, p - 1), n)
    else Kept(text, n, p - 1)
  }

  lemma {:induction false} BelowConcat(s: seq<nat>, t: seq<nat>, n: nat)
    ensures Below(s + t, n) == Below(s, n) + Below(t, n)
  {
    if s == [] {
      assert s + t == t;
    } else {
      assert (s + t)[1..] == s[1..] + t;
      BelowConcat(s[1..], t, n);
    }
  }

  lemma {:induction false} BelowSame(s: seq<nat>, n: nat, m: nat)
    requires n <= m && forall i :: 0 <= i < |s| ==> s[i] < n || s[i] >= m
    ensures Below(s, n) == Below(s, m)
  {
    if s != [] {
      assert forall i :: 0 <= i < |s[1..]| ==> s[1..][i] == s[i + 1];
      BelowSame(s[1..], n, m);
    }
  }

  /** Everything is below n exactly when nothing is left out. */
  lemma {:induction false} BelowAll(s: seq<nat>, n: nat)
    ensures |Below(s, n)| <= |s|
    ensures |Below(s, n)| == |s| ==> Below(s, n) == s && forall i :: 0 <= i < |s| ==> s[i] < n
    ensures (forall i :: 0 <= i < |s| ==> s[i] < n) ==> |Below(s, n)| == |s|
  {
    if s != [] {
      assert forall i :: 0 <= i < |s[1..]| ==> s[1..][i] == s[i + 1];
      BelowAll(s[1..], n);
      assert forall i :: 0 < i < |s| ==> s[i] == s[1..][i - 1];
    }
  }

  lemma BelowSnoc(s: seq<nat>, c: nat, n: nat)
    ensures Below(s + [c], n) == if c < n then Below(s, n) + [c] else Below(s, n)
  {
    BelowConcat(s, [c], n);
    BelowCons(c, [], n);
    assert [c] + [] == [c];
  }

  lemma BelowCons(c: nat, s: seq<nat>, n: nat)
    ensures Below([c] + s, n) == if c < n then [c] + Below(s, n) else Below(s, n)
  {
    assert ([c] + s)[1..] == s;
  }

  lemma InsertBetween(a: seq<nat>, b: seq<nat>, x: nat)
    ensures Insert(a + b, |a|, x) == a + [x] + b
  {
  }

  lemma BelowAround(text: seq<nat>, n: nat, p: nat)
    requires 0 < p <= |text|
    ensures var c, a, b := text[p - 1], Below(text[..p - 1], n + 1), Below(text[p..], n);
      && Below(text[..p], n + 1) == (if c <= n then a + [c] else a)
      && Below(text[p - 1..], n) == (if c < n then [c] + b else b)
  {
    var c := text[p - 1];
    assert text[..p] == text[..p - 1] + [c];
    assert text[p - 1..] == [c] + text[p..];
    BelowSnoc(text[..p - 1], c, n + 1);
    BelowCons(c, text[p..], n);
  }

  /** The same without insertions: the code points up to n before p, then those below n. */
  lemma {:induction false} KeptShape(text: seq<nat>, n: nat, p: nat)
    requires p <= |text|
    ensures Kept(text, n, p) == Below(text[..p], n + 1) + Below(text[p..], n)
    ensures Index(text, n, p) == |Below(text[..p], n + 1)|
  {
    if p == 0 {
      KeptAtStart(text, n);
    } else {
      KeptShape(text, n, p - 1);
      KeptGrows(text, n, p);
    }
  }

  lemma {:induction false} KeptAtStart(text: seq<nat>, n: nat)
    ensures Below(text, n) == Below(text[..0], n + 1) + Below(text[0..], n)
  {
    assert text[0..] == text && text[..0] == [];
    NothingAround(Below(text, n));
  }

  lemma {:induction false} KeptGrows(text: seq<nat>, n: nat, p: nat)
    requires 0 < p <= |text|
    requires Kept(text, n, p - 1) == Below(text[..p - 1], n + 1) + Below(text[p - 1..], n)
    requires Index(text, n, p - 1) == |Below(text[..p - 1], n + 1)|
    ensures Kept(text, n, p) == Below(text[..p], n + 1) + Below(text[p..], n)
    ensures Index(text, n, p) == |Below(text[..p], n + 1)|
  {
    BelowAround(text, n, p);
    KeptStep(text[p - 1], n, Below(text[..p - 1], n + 1), Below(text[p..], n));
  }

  lemma {:induction false} KeptStep(c: nat, n: nat, a: seq<nat>, b: seq<nat>)
    ensures c == n ==> Insert(a + b, |a|, n) == (a + [c]) + b
    ensures c < n ==> a + ([c] + b) == (a + [c]) + b
  {
    InsertBetween(a, b, n);
    Associates(a, [c], b);
  }

  lemma IndexInKept(text: seq<nat>, n: nat, p: nat)
    requires p <= |text|
    ensures Index(text, n, p) <= |Kept(text, n, p)| <= |text|
  {
    KeptShape(text, n, p);
    BelowAll(text[..p], n + 1);
    BelowAll(text[p..], n);
  }

  /** Ending the scan for n is starting the one for n + 1. */
  lemma KeptEnds(text: seq<nat>, n: nat)
    ensures Kept(text, n, |text|) == Kept(text, n + 1, 0)
    ensures Index(text, n, |text|) == |Kept(text, n, |text|)|
  {
    KeptShape(text, n, |text|);
    assert text[..|text|] == text && text[|text|..] == [];
  }

  // ---- One variable-length integer ----

  function Alphabet(digit: nat): char
    requires digit < BASE
  {
    if digit < 26 then ('a' as int + digit) as char else ('0' as int + digit - 26) as char
  }

  lemma AlphabetInverts(digit: nat)
    requires digit < BASE
    ensures DigitValue(Alphabet(digit)) == Some(digit) && Alphabet(digit) != '-'
  {
  }

  /** Digits of base 36, letters in lower case. */
  predicate Base36(s: string) { forall c :: c in s ==> 'a' <= c <= 'z' || '0' <= c <= '9' }

  /** What a decoder makes of the digits it is fed. */
  type Feed = string -> Decoder

  predicate FeedAt(fed: Feed, s: string, c: char) { fed(s + [c]) == Read(fed(s), c) }

  ghost predicate Feeding(fed: Feed) { forall s, c :: FeedAt(fed, s, c) }

  /** A decoder between two integers. */
  predicate AtRest(d: Decoder) { d.Reading? && d.w == 1 && d.k == BASE && d.i == d.oldI }

  /** A decoder inside an integer that still lacks q times the current weight to make delta. */
  predicate Within(d: Decoder, start: Decoder, q: nat, delta: nat) {
    && d.Reading? && start.Reading?
    && d == start.(i := d.i, w := d.w, k := d.k)
    && d.i + Times(q, d.w) == start.i + delta
  }

  /** q splits into a digit of at least t and what is then left of it. */
  predicate Splits(q: nat, t: nat, digit: nat, left: nat) {
    1 <= t <= 26 && t <= digit < BASE && left < q && digit + Times(left, BASE - t) == q
  }

  /** One long division of the encoder. */
  method SplitDigit(q: nat, t: nat) returns (digit: nat, left: nat)
    requires 1 <= t <= 26 && q >= t
    ensures Splits(q, t, digit, left)
  {
    var x := q - t;
    var y := 36 - t;  // 10 <= y <= 35
    left := x / y;
    digit := t + x % y;  // at most 35 because of y
    QuotientIsDivision(x, y);
    QuotientRebuilds(x, y);
    QuotientFits(x, y);
  }

  lemma {:induction false} Regroup(left: nat, y: nat, w: nat)
    ensures Times(Times(left, y), w) == Times(left, Times(y, w))
  {
    if left > 0 {
      Regroup(left - 1, y, w);
      TimesAdd(y, Times(left - 1, y), w);
    }
  }

  lemma {:induction false} TimesAdd(j: nat, k: nat, w: nat)
    ensures Times(j + k, w) == Times(j, w) + Times(k, w)
  {
    if j > 0 { TimesAdd(j - 1, k, w); }
  }

  lemma {:induction false} TimesOne(q: nat)
    ensures Times(q, 1) == q
  {
    if q > 0 { TimesOne(q - 1); }
  }

  /** One digit that is not the last takes the decoder one step on. */
  lemma ReadDigit(d: Decoder, start: Decoder, q: nat, delta: nat, t: nat, digit: nat, left: nat)
    requires Within(d, start, q, delta) && t == Threshold(d.k, d.bias) && Splits(q, t, digit, left)
    ensures Within(Read(d, Alphabet(digit)), start, left, delta)
    ensures Read(d, Alphabet(digit)).k == d.k + BASE
  {
    AlphabetInverts(digit);
    TimesAdd(digit, Times(left, BASE - t), d.w);
    Regroup(left, BASE - t, d.w);
  }

  /** The threshold as the encoder computes it. */
  method CodeThreshold(k: nat, bias: nat) returns (t: nat)
    ensures t == Threshold(k, bias)
  {
    t := 1;
    if k > bias { t := k - bias; }
    if t > 26 { t := 26; }
  }

  method WriteDigit(out: string, digit: nat, ghost out0: string, ghost fed: Feed, ghost d: Decoder)
    returns (more: string, ghost e: Decoder)
    requires Feeding(fed)
    requires digit < BASE && out0 <= out && Base36(out[|out0|..]) && d == fed(out)
    ensures more == out + [Alphabet(digit)] && out0 <= more && Base36(more[|out0|..])
    ensures e == fed(more) == Read(d, Alphabet(digit))
  {
    AlphabetInverts(digit);
    assert FeedAt(fed, out, Alphabet(digit));
    more, e := out + [Alphabet(digit)], Read(d, Alphabet(digit));
    assert more[|out0|..] == out[|out0|..] + [Alphabet(digit)];
  }

  /** The loop over `q` in the encoder: writes delta as a variable-length integer up to its last digit. */
  method EncodeDelta(delta: nat, bias: nat, out0: string, ghost fed: Feed, ghost start: Decoder)
    returns (out: string, q: nat, ghost d: Decoder)
    requires Feeding(fed)
    requires delta <= MAX_U32 && AtRest(start) && start.bias == bias && start == fed(out0)
    ensures out0 <= out && Base36(out[|out0|..])
    ensures d == fed(out) && Within(d, start, q, delta) && q < Threshold(d.k, bias)
  {
    TimesOne(delta);
    out, q, d := out0, delta, start;
    var k: nat := 36;
    while true
      invariant out0 <= out && Base36(out[|out0|..])
      invariant d == fed(out) && Within(d, start, q, delta) && d.k == k
      decreases q
    {
      var t := CodeThreshold(k, bias);
      if q < t {
        break;
      }
      var digit, left := SplitDigit(q, t);
      ReadDigit(d, start, q, delta, t, digit, left);
      out, d := WriteDigit(out, digit, out0, fed, d);
      q := left;
      k := k + 36;
    }
  }

  /** The bias adaptation in the encoder; `h` is the number of code points handled, this one included. */
  method AdaptBias(delta0: nat, first: bool, h: nat) returns (bias: nat)
    requires delta0 <= MAX_U32 && h > 0
    ensures bias == Adapt(delta0, h, first)
  {
    var delta := Damped(delta0, first);
    var share := Divide(delta, h);
    // No overflow: delta was halved before a share of itself is added.
    assert delta + share <= MAX_U32;
    bias := AdaptTail(delta + share);
  }

  method Divide(x: nat, y: nat) returns (q: nat)
    requires y > 0
    ensures q == Quotient(x, y) && q <= x
  {
    QuotientIsDivision(x, y);
    QuotientFits(x, y);
    q := x / y;
  }

  method Damped(delta0: nat, first: bool) returns (delta: nat)
    ensures delta == if first then delta0 / DAMP else delta0 / 2
    ensures 2 * delta <= delta0
  {
    delta := delta0 / 2;
    if first { delta := delta / 350; }
  }

  method AdaptTail(delta0: nat) returns (bias: nat)
    ensures bias == AdaptLoop(delta0, 0)
  {
    var delta: nat := delta0;
    bias := 0;
    while delta > 35 * 26 / 2
      invariant AdaptLoop(delta, bias) == AdaptLoop(delta0, 0)
    {
      delta := delta / 35;
      bias := bias + 36;
    }
    var last := Divide(36 * delta, delta + 38);
    bias := bias + last;
  }

  // ---- Encoder and decoder in step ----

  /** The variables of the encoder's main loop. */
  datatype Encoder = Encoder(delta: nat, h: nat, bias: nat, first: bool, todo: nat, digits: string)

  /** Fed with the digits written so far, decoder d has rebuilt what the encoder has handled when its scan for n has
      reached position p, and delta is how far the decoder's insertion state is behind. */
  ghost predicate InStep(text: seq<nat>, n: nat, p: nat, e: Encoder, d: Decoder)
    requires p <= |text|
  {
    && AtRest(d) && d.bias == e.bias && (e.first <==> d.oldI == 0) && Base36(e.digits)
    && d.output == Kept(text, n, p) && e.h == |d.output| && e.todo + e.h == |text|
    && d.n <= n && d.i <= e.h
    && e.delta == Times(n - d.n, e.h + 1) + Index(text, n, p) - d.i
  }

  /** A decoder that completes an integer which ends `at` positions into the row of n inserts n there. */
  lemma CompleteAt(d: Decoder, i: nat, n: nat, at: nat)
    requires d.Reading? && d.oldI <= i && d.n <= n && at <= |d.output| && i == Times(n - d.n, |d.output| + 1) + at
    ensures Complete(d, i) == Reading(n, at + 1, Adapt(i - d.oldI, |d.output| + 1, d.oldI == 0),
                                      Insert(d.output, at, n), at + 1, 1, BASE)
  {
    TimesThenRest(n - d.n, |d.output| + 1, at);
  }

  /** The last digit completes delta, and the decoder inserts n at its place. */
  lemma ReadLast(d: Decoder, start: Decoder, q: nat, delta: nat, n: nat, at: nat)
    requires AtRest(start) && Within(d, start, q, delta) && q < Threshold(d.k, d.bias)
    requires start.n <= n && at <= |start.output| && start.i + delta == Times(n - start.n, |start.output| + 1) + at
    ensures Read(d, Alphabet(q)) == Inserted(start, delta, n, at)
  {
    AlphabetInverts(q);
    CompleteAt(d, start.i + delta, n, at);
  }

  /** The decoder after an integer delta that makes it insert n at position `at`. */
  ghost function Inserted(start: Decoder, delta: nat, n: nat, at: nat): Decoder
    requires start.Reading? && at <= |start.output|
  {
    Reading(n, at + 1, Adapt(delta, |start.output| + 1, start.oldI == 0), Insert(start.output, at, n), at + 1, 1, BASE)
  }

  /** Writes one integer; the decoder then has inserted n at its place. */
  method EncodeInteger(delta: nat, bias: nat, digits: string, n: nat, ghost at: nat, ghost fed: Feed, ghost start: Decoder)
    returns (out: string, ghost g: Decoder)
    requires Feeding(fed)
    requires delta <= MAX_U32 && AtRest(start) && start.bias == bias && start == fed(digits) && Base36(digits)
    requires start.n <= n && at <= |start.output| && start.i + delta == Times(n - start.n, |start.output| + 1) + at
    ensures Base36(out) && g == fed(out) && g == Inserted(start, delta, n, at)
  {
    var q;
    ghost var mid;
    out, q, mid := EncodeDelta(delta, bias, digits, fed, start);
    ReadLast(mid, start, q, delta, n, at);
    out, g := WriteDigit(out, q, digits, fed, mid);
    assert out == digits + out[|digits|..];
  }

  /** Handles the code point n at position p: writes delta, adapts the bias, starts afresh. */
  method Emit(text: seq<nat>, n: nat, p: nat, e: Encoder, ghost fed: Feed, ghost d: Decoder) returns (f: Encoder, ghost g: Decoder)
    requires Feeding(fed)
    requires p < |text| && text[p] == n && e.delta <= MAX_U32
    requires InStep(text, n, p, e, d) && d == fed(e.digits)
    ensures InStep(text, n, p + 1, f, g) && g == fed(f.digits)
    ensures f.delta == 0 && f.h == e.h + 1
  {
    IndexInKept(text, n, p);
    IndexInKept(text, n, p + 1);
    var digits;
    digits, g := EncodeInteger(e.delta, e.bias, e.digits, n, Index(text, n, p), fed, d);
    var bias := AdaptBias(e.delta, e.first, e.h + 1);
    f := Encoder(0, e.h + 1, bias, false, e.todo - 1, digits);
  }

  /** Labels for which the arithmetic never overflows: Unicode code points, and fewer than 3855 of them. */
  ghost predicate Modest(text: seq<nat>) {
    |text| < 3855 && forall c :: c in text ==> c <= 0x10FFFF
  }

  lemma DeltaFits(text: seq<nat>, n: nat, p: nat, e: Encoder, d: Decoder)
    requires p <= |text| < 3855 && n <= 0x10FFFF && InStep(text, n, p, e, d)
    ensures e.delta < MAX_U32
  {
    IndexInKept(text, n, p);
    TimesIsProduct(n - d.n, e.h + 1);
    MulMono(n - d.n, 0x10FFFF, e.h + 1, 3855);
  }

  lemma MulMono(a: nat, b: nat, c: nat, d: nat)
    requires a <= b && c <= d
    ensures a * c <= b * d
  {
    assert a * c <= b * c;
    assert b * c <= b * d;
  }

  /** A code point other than n only moves the scan on. */
  lemma PassBy(text: seq<nat>, n: nat, p: nat, e: Encoder, d: Decoder)
    requires p < |text| && text[p] != n && InStep(text, n, p, e, d)
    ensures text[p] < n ==> InStep(text, n, p + 1, e.(delta := e.delta + 1), d)
    ensures text[p] > n ==> InStep(text, n, p + 1, e, d)
  {
  }

  /** One code point of a pass; not ok means that delta would wrap to 0. */
  method Visit(text: seq<nat>, n: nat, p: nat, e: Encoder, ghost fed: Feed, ghost d: Decoder)
    returns (ok: bool, f: Encoder, ghost g: Decoder)
    requires Feeding(fed)
    requires p < |text| && e.delta <= MAX_U32 && n <= MAX_U32
    requires InStep(text, n, p, e, d) && d == fed(e.digits)
    ensures ok ==> InStep(text, n, p + 1, f, g) && g == fed(f.digits) && f.delta <= MAX_U32
    ensures ok && text[p] == n ==> f.delta == 0 && f.todo < e.todo
    ensures ok && text[p] != n ==> f.delta <= e.delta + 1 && f.todo == e.todo
    ensures e.delta < MAX_U32 ==> ok
  {
    ok, f, g := true, e, d;
    if text[p] < n {
      PassBy(text, n, p, e, d);
      ok := e.delta < MAX_U32;
      f := e.(delta := if ok then e.delta + 1 else 0);
    } else if text[p] == n {
      f, g := Emit(text, n, p, e, fed, d);
    } else {
      PassBy(text, n, p, e, d);
    }
  }

  /** One pass over the label for code point n. Writing every n, it resets delta; so delta is then no larger than
      the number of code points since, and the final increment cannot wrap. */
  method Pass(text: seq<nat>, n: nat, e0: Encoder, ghost fed: Feed, ghost d0: Decoder)
    returns (ok: bool, e: Encoder, ghost d: Decoder)
    requires Feeding(fed)
    requires Readable(text) && n in text && e0.delta <= MAX_U32
    requires InStep(text, n, 0, e0, d0) && d0 == fed(e0.digits)
    ensures ok ==> InStep(text, n, |text|, e, d) && d == fed(e.digits)
    ensures ok ==> e.delta <= |text| && e.todo < e0.todo
    ensures Modest(text) ==> ok
  {
    e, d, ok := e0, d0, true;
    for p := 0 to |text|
      invariant InStep(text, n, p, e, d) && d == fed(e.digits)
      invariant e.delta <= MAX_U32 && e.todo <= e0.todo
      invariant n in text[..p] ==> e.delta <= p && e.todo < e0.todo
    {
      if Modest(text) { DeltaFits(text, n, p, e, d); }
      assert text[..p + 1] == text[..p] + [text[p]];
      ok, e, d := Visit(text, n, p, e, fed, d);
      if !ok {
        return;
      }
    }
    assert text[..|text|] == text;
  }

  /** The smallest code point not below n. */
  method NextPoint(text: seq<nat>, n: nat) returns (m: nat)
    requires Readable(text) && exists i :: 0 <= i < |text| && n <= text[i] < MAX_U32
    ensures n <= m < MAX_U32 && m in text && forall i :: 0 <= i < |text| ==> text[i] < n || text[i] >= m
  {
    m := MAX_U32;
    for p := 0 to |text|
      invariant n <= m <= MAX_U32 && (m < MAX_U32 ==> m in text)
      invariant forall i :: 0 <= i < p ==> text[i] < n || text[i] >= m
    {
      if text[p] >= n && text[p] < m { m := text[p]; }
    }
  }

  /** Skipping from n to the next code point present adds the missing rows to delta. */
  lemma Skip(text: seq<nat>, n: nat, m: nat, e: Encoder, d: Decoder)
    requires n <= m && InStep(text, n, 0, e, d)
    requires forall i :: 0 <= i < |text| ==> text[i] < n || text[i] >= m
    ensures InStep(text, m, 0, e.(delta := e.delta + (m - n) * (e.h + 1)), d)
  {
    BelowSame(text, n, m);
    TimesAdd(n - d.n, m - n, e.h + 1);
    TimesIsProduct(m - n, e.h + 1);
  }

  /** From the end of the pass for n to the start of the one for n + 1. */
  lemma NextRow(text: seq<nat>, n: nat, e: Encoder, d: Decoder)
    requires InStep(text, n, |text|, e, d)
    ensures InStep(text, n + 1, 0, e.(delta := e.delta + 1), d)
  {
    KeptEnds(text, n);
  }

  ghost function Start(text: seq<nat>): Decoder {
    Reading(INITIAL_N, 0, INITIAL_BIAS, Below(text, INITIAL_N), 0, 1, BASE)
  }

  /** The decoder of RFC 3492, once it has the label's ASCII code points. */
  ghost function Reader(text: seq<nat>): Feed { s => ReadAll(Start(text), s) }

  lemma ReaderFeeds(text: seq<nat>)
    ensures Feeding(Reader(text)) && Reader(text)("") == Start(text)
  {
    forall s, c ensures FeedAt(Reader(text), s, c) { ReadAllSnoc(Start(text), s, c); }
  }

  lemma SomethingLeft(text: seq<nat>, n: nat, e: Encoder, d: Decoder)
    requires InStep(text, n, 0, e, d) && e.todo > 0
    ensures exists i :: 0 <= i < |text| && n <= text[i] && text[i] in text
  {
    BelowAll(text, n);
    assert forall i :: 0 <= i < |text| ==> text[i] in text;
  }

  lemma StartInStep(text: seq<nat>, n: nat, e: Encoder)
    requires n == INITIAL_N && e.h == |Below(text, n)| && e.todo + e.h == |text|
    requires e.delta == 0 && e.bias == INITIAL_BIAS && e.first && e.digits == ""
    ensures InStep(text, n, 0, e, Start(text))
  {
  }

  lemma RestDone(text: seq<nat>, n: nat, e: Encoder, d: Decoder)
    requires InStep(text, n, 0, e, d) && e.todo == 0
    ensures d.output == text
  {
    BelowAll(text, n);
  }

  /** One iteration of the main loop; `todo` falls every time. */
  method EncodeRow(text: seq<nat>, n: nat, e: Encoder, ghost fed: Feed, ghost d: Decoder)
    returns (ok: bool, n': nat, f: Encoder, ghost g: Decoder)
    requires Feeding(fed)
    requires Readable(text) && (forall c :: c in text ==> c < MAX_U32) && n <= MAX_U32
    requires InStep(text, n, 0, e, d) && d == fed(e.digits) && e.delta <= MAX_U32 && e.todo > 0
    ensures ok ==> InStep(text, n', 0, f, g) && g == fed(f.digits)
    ensures ok ==> f.delta <= MAX_U32 && n' <= MAX_U32 && f.todo < e.todo
    ensures Modest(text) ==> ok
  {
    SomethingLeft(text, n, e, d);
    n' := NextPoint(text, n);
    f, g := e, d;
    var skip := SkipTo(text, n, n', e, d);
    if skip.None? {
      return false, n', f, g;
    }
    ok, f, g := Pass(text, n', e.(delta := skip.value), fed, d);
    if ok {
      NextRow(text, n', f, g);
      f := f.(delta := f.delta + 1);
      n' := n' + 1;
    }
  }

  /** The main loop: writes every code point from 128 on, smallest first. */
  method EncodeRest(text: seq<nat>, h: nat, todo: nat, ghost fed: Feed) returns (ok: bool, digits: string)
    requires Feeding(fed) && fed("") == Start(text)
    requires Readable(text) && (forall c :: c in text ==> c < MAX_U32)
    requires h == |Below(text, INITIAL_N)| && todo + h == |text|
    ensures Modest(text) ==> ok
    ensures ok ==> Base36(digits) && fed(digits).Reading? && fed(digits).k == BASE && fed(digits).output == text
  {
    ok, digits := true, "";
    var n: nat := 128;
    var e := Encoder(0, h, 72, true, todo, "");
    ghost var d := Start(text);
    StartInStep(text, n, e);
    while e.todo > 0
      invariant InStep(text, n, 0, e, d) && d == fed(e.digits)
      invariant e.delta <= MAX_U32 && n <= MAX_U32
      decreases e.todo
    {
      ok, n, e, d := EncodeRow(text, n, e, fed, d);
      if !ok {
        return;
      }
    }
    digits := e.digits;
    RestDone(text, n, e, d);
  }

  /** The guarded update of delta: exact, or refused because it would overflow. */
  method SkipTo(text: seq<nat>, n: nat, m: nat, e: Encoder, ghost d: Decoder) returns (delta: Option<nat>)
    requires Readable(text) && InStep(text, n, 0, e, d) && e.delta <= MAX_U32 && n <= m && m in text
    requires forall i :: 0 <= i < |text| ==> text[i] < n || text[i] >= m
    ensures delta.None? <==> e.delta + (m - n) * (e.h + 1) > MAX_U32
    ensures delta.Some? ==> delta.value <= MAX_U32 && InStep(text, m, 0, e.(delta := delta.value), d)
    ensures Modest(text) ==> delta.Some?
  {
    var x := m - n;
    var y := e.h + 1;
    Skip(text, n, m, e, d);
    GuardExact(x, y, MAX_U32 - e.delta);
    if x > (MAX_U32 - e.delta) / y {
      if Modest(text) { DeltaFits(text, m, 0, e.(delta := e.delta + x * y), d); }
      return None;
    }
    delta := Some(e.delta + x * y);
  }

  /** The division in the guard decides exactly whether the product fits. */
  lemma GuardExact(x: nat, y: nat, room: nat)
    requires y > 0
    ensures x > room / y <==> x * y > room
  {
    var q := room / y;
    assert room == q * y + room % y;
    if x > q { Gap(q, x, y); } else { MulMono(x, q, y, y); }
  }

  // ---- The whole label ----

  ghost predicate Ascii(text: seq<nat>) { forall c :: c in text ==> c < 128 }

  /** First loop: how many ASCII and other code points there are; not ok on malformed input. */
  method Count(text: seq<nat>) returns (ok: bool, h: nat, todo: nat)
    requires Readable(text)
    ensures ok <==> MAX_U32 !in text
    ensures ok ==> h == |Below(text, INITIAL_N)| && h + todo == |text|
  {
    ok, h, todo := true, 0, 0;
    for p := 0 to |text|
      invariant MAX_U32 !in text[..p]
      invariant h == |Below(text[..p], INITIAL_N)| && h + todo == p
    {
      assert text[..p + 1] == text[..p] + [text[p]];
      BelowConcat(text[..p], [text[p]], INITIAL_N);
      if text[p] < 128 {
        h := h + 1;
      } else if text[p] == MAX_U32 {
        return false, h, todo;
      } else {
        todo := todo + 1;
      }
    }
    assert text[..|text|] == text;
  }

  /** Second loop: copies the ASCII code points, and stops at the last one. */
  method CopyAscii(text: seq<nat>, h: nat) returns (basic: string)
    requires h == |Below(text, INITIAL_N)|
    ensures CodePoints(basic) == Below(text, INITIAL_N) && |basic| == h
    ensures forall c :: c in basic ==> c as int < 128
  {
    basic := "";
    var x: nat := 0;
    for p := 0 to |text|
      invariant CodePoints(basic) == Below(text[..p], INITIAL_N) && |basic| == x
      invariant forall c :: c in basic ==> c as int < 128
    {
      assert text[..p + 1] == text[..p] + [text[p]];
      BelowConcat(text[..p], [text[p]], INITIAL_N);
      if text[p] > 127 {
        continue;
      }
      basic := basic + [text[p] as char];
      x := x + 1;
      if x == h {
        AllCopied(text, p + 1, basic);
        return;
      }
    }
    assert text[..|text|] == text;
  }

  lemma AllCopied(text: seq<nat>, p: nat, basic: string)
    requires p <= |text| && CodePoints(basic) == Below(text[..p], INITIAL_N) && |basic| == |Below(text, INITIAL_N)|
    ensures CodePoints(basic) == Below(text, INITIAL_N)
  {
    assert text == text[..p] + text[p..];
    BelowConcat(text[..p], text[p..], INITIAL_N);
  }

  lemma {:induction false} NoDelimiter(digits: string)
    requires '-' !in digits
    ensures LastDelimiter(digits) == None
    decreases |digits|
  {
    if digits != [] {
      assert digits[|digits| - 1] in digits;
      NoDelimiter(digits[..|digits| - 1]);
    }
  }

  lemma {:induction false} DelimiterFound(basic: string, digits: string)
    requires '-' !in digits
    ensures LastDelimiter(basic + "-" + digits) == Some(|basic|)
    decreases |digits|
  {
    var s := basic + "-" + digits;
    if digits == [] {
      assert s[|s| - 1] == '-';
    } else {
      assert s[|s| - 1] == digits[|digits| - 1] && digits[|digits| - 1] in digits;
      assert s[..|s| - 1] == basic + "-" + digits[..|digits| - 1];
      DelimiterFound(basic, digits[..|digits| - 1]);
    }
  }

  lemma DecodeWhole(text: seq<nat>, basic: string, digits: string, s: string)
    requires CodePoints(basic) == Below(text, INITIAL_N) && (forall c :: c in basic ==> c as int < 128)
    requires '-' !in digits && s == if basic == "" then digits else basic + "-" + digits
    requires var d := Reader(text)(digits); d.Reading? && d.k == BASE && d.output == text
    ensures Decode(s) == Some(text)
  {
    if basic == "" {
      NoDelimiter(digits);
    } else {
      DelimiterFound(basic, digits);
      assert s[..|basic|] == basic && s[|basic| + 1..] == digits;
    }
  }

  lemma AsciiExactly(text: seq<nat>, h: nat, todo: nat)
    requires h == |Below(text, INITIAL_N)| && h + todo == |text|
    ensures Ascii(text) <==> todo == 0
    ensures todo == 0 ==> Below(text, INITIAL_N) == text
  {
    BelowAll(text, INITIAL_N);
    if Ascii(text) {
      forall i | 0 <= i < |text| ensures text[i] < 128 { assert text[i] in text; }
    }
  }

  /** `uv__idna_toascii_label` into a buffer with enough room. What it writes for a label with a non-ASCII code point
      is "xn--" and a text from which the decoder of RFC 3492 section 6.2 rebuilds exactly the label. */
  method ToAsciiLabel(text: seq<nat>) returns (r: Result, out: string)
    requires Readable(text)
    ensures r.EINVAL? <==> MAX_U32 in text
    ensures Modest(text) ==> r.Ok?
    ensures r.Ok? && Ascii(text) ==> r.count == |text| && CodePoints(out) == text
    ensures r.Ok? && !Ascii(text) ==> r.count == 0 && "xn--" <= out && Decode(out[4..]) == Some(text)
    ensures r.Ok? && !Ascii(text) ==>
      var n := |Below(text, 128)|;
      var at := if n == 0 then 4 else n + 5;
      at <= |out| && CodePoints(out[4..4 + n]) == Below(text, 128) && Base36(out[at..]) && (n > 0 ==> out[4 + n] == '-')
  {
    out := "";
    var ok, h, todo := Count(text);
    if !ok {
      return EINVAL, out;
    }
    AsciiExactly(text, h, todo);
    if todo > 0 { out := "xn--"; }
    var basic := CopyAscii(text, h);
    out := out + basic;
    if todo == 0 {
      return Ok(h), out;
    }
    if h > 0 { out := out + "-"; }
    var digits;
    ReaderFeeds(text);
    ok, digits := EncodeRest(text, h, todo, Reader(text));
    out := out + digits;
    if !ok {
      return E2BIG, out;
    }
    assert out[4..] == if basic == "" then digits else basic + "-" + digits;
    DecodeWhole(text, basic, digits, out[4..]);
    r := Ok(0);
  }
}
