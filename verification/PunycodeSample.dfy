/** One label worked through by hand, which fixes the parameters of section 5 of RFC 3492: the label of the two code points
    U+4E2D and U+6587 is "fiq228c". */
module PunycodeSample {
  import opened Wrappers
  import opened Arithmetic
  import opened PunycodeSpec

  /** A digit that is not the last of its integer. */
  lemma {:induction false} More(d: Decoder, c: char, digit: nat, i: nat, w: nat)
    requires d.Reading? && DigitValue(c) == Some(digit) && digit >= Threshold(d.k, d.bias)
    requires i == d.i + digit * d.w && w == (BASE - Threshold(d.k, d.bias)) * d.w
    ensures Read(d, c) == d.(i := i, w := w, k := d.k + BASE)
  {
    TimesIsProduct(digit, d.w);
    TimesIsProduct(BASE - Threshold(d.k, d.bias), d.w);
  }

  /** The last digit of an integer. */
  lemma {:induction false} Last(d: Decoder, c: char, digit: nat, i: nat)
    requires d.Reading? && DigitValue(c) == Some(digit) && digit < Threshold(d.k, d.bias)
    requires i == d.i + digit * d.w && i >= d.oldI
    ensures var points := |d.output| + 1;
      Read(d, c) == Reading(d.n + i / points, i % points + 1, Adapt(i - d.oldI, points, d.oldI == 0),
                            Insert(d.output, i % points, d.n + i / points), i % points + 1, 1, BASE)
  {
    TimesIsProduct(digit, d.w);
    QuotientIsDivision(i, |d.output| + 1);
  }

  lemma {:induction false} FirstBias()
    ensures Adapt(19885, 1, true) == 21
  {
    QuotientIsDivision(28, 1);
    QuotientIsDivision(36 * 56, 56 + 38);
    assert 19885 / DAMP == 28;
    assert AdaptLoop(56, 0) == 0 + Quotient((BASE - TMIN + 1) * 56, 56 + SKEW);
  }

  lemma {:induction false} SecondBias()
    ensures Adapt(11956, 2, false) == 67
  {
    QuotientIsDivision(5978, 2);
    assert (11956 as nat) / 2 == 5978 && 5978 + 2989 == 8967 && 8967 / 35 == 256;
    QuotientIsDivision(36 * 256, 256 + 38);
    assert AdaptLoop(256, 36) == 36 + Quotient((BASE - TMIN + 1) * 256, 256 + SKEW);
    assert AdaptLoop(8967, 0) == AdaptLoop(8967 / (BASE - TMIN), 0 + BASE);
  }

  lemma {:induction false} FirstPoint(d0: Decoder)
    requires d0 == Reading(INITIAL_N, 0, INITIAL_BIAS, [], 0, 1, BASE)
    ensures Read(Read(Read(d0, 'f'), 'i'), 'q') == Reading(20013, 1, 21, [0x4e2d], 1, 1, 36)
  {
    More(d0, 'f', 5, 5, 35);
    var d1 := Reading(INITIAL_N, 5, INITIAL_BIAS, [], 0, 35, 72);
    More(d1, 'i', 8, 285, 1225);
    FirstInsert();
  }

  lemma {:induction false} FirstInsert()
    ensures Read(Reading(INITIAL_N, 285, INITIAL_BIAS, [], 0, 1225, 108), 'q') == Reading(20013, 1, 21, [0x4e2d], 1, 1, 36)
  {
    Last(Reading(INITIAL_N, 285, INITIAL_BIAS, [], 0, 1225, 108), 'q', 16, 19885);
    FirstBias();
    assert Insert([], 0, 20013) == [20013];
  }

  lemma {:induction false} SecondPoint(d0: Decoder)
    requires d0 == Reading(20013, 1, 21, [0x4e2d], 1, 1, 36)
    ensures Read(Read(Read(Read(d0, '2'), '2'), '8'), 'c') == Reading(25991, 2, 67, [0x4e2d, 0x6587], 2, 1, 36)
  {
    More(d0, '2', 28, 29, 21);
    var d1 := Read(d0, '2');
    More(d1, '2', 28, 617, 210);
    var d2 := Read(d1, '2');
    More(d2, '8', 34, 7757, 2100);
    var d3 := Read(d2, '8');
    Last(d3, 'c', 2, 11957);
    SecondBias();
    assert Insert([0x4e2d], 1, 25991) == [0x4e2d, 25991];
  }

  lemma {:induction false} ReadThree(d: Decoder, a: char, b: char, c: char)
    ensures ReadAll(d, [a, b, c]) == Read(Read(Read(d, a), b), c)
  {
    ReadAllSnoc(d, [], a);
    ReadAllSnoc(d, [a], b);
    ReadAllSnoc(d, [a, b], c);
    assert [] + [a] == [a] && [a] + [b] == [a, b] && [a, b] + [c] == [a, b, c];
    assert ReadAll(d, []) == d;
  }

  lemma {:induction false} ReadAllConcat(d: Decoder, s: string, t: string)
    ensures ReadAll(d, s + t) == ReadAll(ReadAll(d, s), t)
    decreases |t|
  {
    if t == [] {
      assert s + t == s;
    } else {
      assert (s + t)[..|s + t| - 1] == s + t[..|t| - 1];
      ReadAllConcat(d, s, t[..|t| - 1]);
    }
  }

  lemma {:induction false} ReadFour(d: Decoder, a: char, b: char, c: char, e: char)
    ensures ReadAll(d, [a, b, c, e]) == Read(Read(Read(Read(d, a), b), c), e)
  {
    ReadThree(d, a, b, c);
    ReadAllSnoc(d, [a, b, c], e);
    assert [a, b, c] + [e] == [a, b, c, e];
  }

  lemma {:induction false} ReadSample(d0: Decoder, d1: Decoder, s: string, t: string)
    requires d0 == Reading(INITIAL_N, 0, INITIAL_BIAS, [], 0, 1, BASE) && d1 == Reading(20013, 1, 21, [0x4e2d], 1, 1, 36)
    requires s == ['f', 'i', 'q'] && t == ['2', '2', '8', 'c']
    ensures ReadAll(d0, s + t) == Reading(25991, 2, 67, [0x4e2d, 0x6587], 2, 1, 36)
  {
    ReadThree(d0, s[0], s[1], s[2]);
    FirstPoint(d0);
    ReadFour(d1, t[0], t[1], t[2], t[3]);
    SecondPoint(d1);
    ReadAllConcat(d0, s, t);
  }

  /** The decoder of section 6.2, with the parameters of section 5. */
  lemma {:induction false} Sample(s: string)
    requires s == "fiq228c"
    ensures Decode(s) == Some([0x4e2d, 0x6587])
  {
    var d0 := Reading(INITIAL_N, 0, INITIAL_BIAS, [], 0, 1, BASE);
    ReadSample(d0, Reading(20013, 1, 21, [0x4e2d], 1, 1, 36), s[..3], s[3..]);
    assert s[..3] + s[3..] == s;
    Whole(s, d0);
  }

  lemma {:induction false} Whole(s: string, d0: Decoder)
    requires d0 == Reading(INITIAL_N, 0, INITIAL_BIAS, [], 0, 1, BASE) && forall i :: 0 <= i < |s| ==> s[i] != '-'
    ensures var d := ReadAll(d0, s); Decode(s) == if d.Reading? && d.k == BASE then Some(d.output) else None
  {
    NoDash(s);
    assert CodePoints([]) == [];
  }

  lemma {:induction false} NoDash(s: string)
    requires forall i :: 0 <= i < |s| ==> s[i] != '-'
    ensures LastDelimiter(s) == None
    decreases |s|
  {
    if s != [] { NoDash(s[..|s| - 1]); }
  }
}
