/** What the text of an IPv6 address looks like, told from its bytes: where it is in dotted form, and that its groups are
    in lower case and without leading zeros (sections 4.1, 4.3 and 5 of RFC 5952). */
module Inet6Shape {
  import opened Wrappers
  import opened SeqFacts
  import opened Inet6Text
  import opened Inet6
  import V4 = Inet4

  // ---- Characters and groups ----

  predicate Separator(c: char) { c == ':' || c == '.' }

  predicate Allowed(c: char) { '0' <= c <= '9' || 'a' <= c <= 'f' || Separator(c) }

  /** No group of several digits begins with a zero. */
  predicate NoLeadingZero(t: string) {
    forall i :: 0 <= i < |t| - 1 && GroupStart(t, i) && t[i] == '0' ==> Separator(t[i + 1])
  }

  predicate GroupStart(t: string, i: nat)
    requires i < |t|
  {
    i == 0 || Separator(t[i - 1])
  }

  predicate Clean(t: string) { NoLeadingZero(t) && forall i :: 0 <= i < |t| ==> Allowed(t[i]) }

  /** At least one of two neighbours is a separator, or there is only one. */
  predicate Meet(a: string, b: string) { a == "" || b == "" || Separator(a[|a| - 1]) || Separator(b[0]) }

  lemma {:induction false} CleanJoined(a: string, b: string)
    requires Clean(a) && Clean(b) && Meet(a, b)
    ensures Clean(a + b)
  {
    var t := a + b;
    forall i | 0 <= i < |t| - 1 && GroupStart(t, i) && t[i] == '0' ensures Separator(t[i + 1]) {
      if i < |a| {
        assert GroupStart(a, i) && t[i] == a[i];
        if i == |a| - 1 { assert t[i + 1] == b[0]; }
      } else {
        assert t[i] == b[i - |a|] && t[i + 1] == b[i - |a| + 1] && GroupStart(b, i - |a|);
      }
    }
    forall i | 0 <= i < |t| ensures Allowed(t[i]) { assert t[i] == if i < |a| then a[i] else b[i - |a|]; }
  }

  lemma {:induction false} CleanMark(c: char, t: string)
    requires Separator(c) && Clean(t)
    ensures Clean([c] + t)
  {
    CleanJoined([c], t);
  }

  /** A hexadecimal number has no leading zero, and no separator in it. */
  lemma {:induction false} HexDigits(n: nat)
    ensures forall i :: 0 <= i < |Hex(n)| ==> Allowed(Hex(n)[i]) && !Separator(Hex(n)[i])
    ensures n > 0 ==> Hex(n)[0] != '0'
    ensures n == 0 ==> Hex(n) == "0"
    decreases n
  {
    if n >= 16 {
      HexDigits(n / 16);
    }
  }

  lemma {:induction false} HexClean(n: nat)
    ensures Clean(Hex(n))
  {
    HexDigits(n);
  }

  lemma {:induction false} DecimalClean(n: nat)
    requires n < 256
    ensures Clean(V4.Decimal(n)) && forall i :: 0 <= i < |V4.Decimal(n)| ==> !Separator(V4.Decimal(n)[i])
  {
  }

  lemma {:induction false} JoinClean(b: seq<nat>)
    requires b != [] && V4.Bytes(b)
    ensures Clean(V4.Join(b)) && (|b| > 1 ==> '.' in V4.Join(b))
    decreases |b|
  {
    DecimalClean(b[0]);
    if |b| > 1 {
      JoinClean(b[1..]);
      CleanMark('.', V4.Join(b[1..]));
      CleanJoined(V4.Decimal(b[0]), "." + V4.Join(b[1..]));
    }
  }

  lemma {:induction false} ColonsClean(ws: seq<nat>)
    ensures Clean(Colons(ws)) && '.' !in Colons(ws)
    ensures ws != [] ==> Colons(ws) != "" && Colons(ws)[|Colons(ws)| - 1] == ':'
    decreases |ws|
  {
    if ws != [] {
      var h, rest := Hex(ws[0]), Colons(ws[1..]);
      HexClean(ws[0]);
      HexDigits(ws[0]);
      ColonsClean(ws[1..]);
      CleanMark(':', rest);
      CleanJoined(h, ":" + rest);
    }
  }

  lemma {:induction false} GroupsClean(ws: seq<nat>)
    ensures Clean(Groups(ws)) && '.' !in Groups(ws)
  {
    if ws != [] {
      var n := ws[|ws| - 1];
      ColonsClean(ws[..|ws| - 1]);
      HexClean(n);
      HexDigits(n);
      CleanJoined(Colons(ws[..|ws| - 1]), Hex(n));
    }
  }

  lemma {:induction false} TailClean(ws: seq<nat>, base: nat, len: nat)
    requires |ws| == 8 && Words(ws) && base + len <= 8 && (Embeds(ws, base, len) ==> len <= 6)
    ensures Clean(Tail(ws, base, len)) && ('.' in Tail(ws, base, len) <==> Embeds(ws, base, len))
  {
    if Embeds(ws, base, len) {
      ColonsClean(ws[base + len..6]);
      JoinClean(ToBytes(ws[6..]));
      CleanJoined(Colons(ws[base + len..6]), V4.Dotted(ToBytes(ws[6..])));
    } else {
      GroupsClean(ws[base + len..]);
    }
  }

  lemma {:induction false} TextClean(ws: seq<nat>, run: Option<(nat, nat)>)
    requires |ws| == 8 && Words(ws) && RunOf(ws, run)
    ensures Clean(Text(ws, run))
    ensures '.' in Text(ws, run) <==> run.Some? && Embeds(ws, run.value.0, run.value.1)
  {
    match run
    case None => GroupsClean(ws);
    case Some((base, len)) =>
      var tail := Tail(ws, base, len);
      TailClean(ws, base, len);
      CleanMark(':', tail);
      CleanMark(':', ":" + tail);
      assert "::" + tail == ":" + (":" + tail);
      ColonsClean(ws[..base]);
      CleanJoined(Colons(ws[..base]), (if base == 0 then "::" else ":") + tail);
  }

  // ---- Where the last four bytes are in dotted form ----

  predicate ZeroBelow(b: seq<nat>, n: nat) { n <= |b| && forall i :: 0 <= i < n ==> b[i] == 0 }

  /** An IPv4-mapped address. */
  predicate Mapped(b: seq<nat>) { |b| == 16 && ZeroBelow(b, 10) && b[10] == 0xff && b[11] == 0xff }

  /** An IPv4-compatible address: six words of zeros and no more. */
  predicate Compatible(b: seq<nat>) { |b| == 16 && ZeroBelow(b, 12) && (b[12] != 0 || b[13] != 0) }

  lemma {:induction false} ZeroWords(b: seq<nat>, n: nat)
    requires |b| == 16 && V4.Bytes(b) && n <= 8
    ensures ZeroBelow(b, 2 * n) <==> ZeroRun(FromBytes(b), 0, n)
  {
    var ws := FromBytes(b);
    forall k | 0 <= k < 8 ensures ws[k] == b[2 * k] * 256 + b[2 * k + 1] { FromBytesAt(b, k); }
    if ZeroRun(ws, 0, n) {
      forall i | 0 <= i < 2 * n ensures b[i] == 0 {
        assert ws[i / 2] == 0 && (i == 2 * (i / 2) || i == 2 * (i / 2) + 1);
      }
    }
  }

  /** The best run of an address with zeros up to a word that is not zero, if there are at least five of them. */
  lemma {:induction false} LeadingBest(ws: seq<nat>, run: Option<(nat, nat)>, n: nat)
    requires |ws| == 8 && BestRun(ws, run) && 5 <= n < 8 && ZeroRun(ws, 0, n) && ws[n] != 0
    ensures run == Some((0, n))
  {
    if run.Some? {
      var (base, len) := run.value;
      assert Beats(base, len, 0, n);
      assert !(base <= n < base + len);
    }
  }

  lemma {:induction false} LastFour(b: seq<nat>)
    requires |b| == 16 && V4.Bytes(b)
    ensures ToBytes(FromBytes(b)[6..]) == b[12..]
  {
    var ws := FromBytes(b);
    assert ws == ws[..6] + ws[6..];
    ToBytesConcat(ws[..6], ws[6..]);
  }

  lemma {:induction false} HexAllOnes()
    ensures Hex(0xffff) == "ffff"
  {
    assert Hex(0xf) == "f";
    assert Hex(0xff) == Hex(0xf) + "f";
    assert Hex(0xfff) == Hex(0xff) + "f";
    assert Hex(0xffff) == Hex(0xfff) + "f";
  }

  lemma {:induction false} OneColon(n: nat)
    ensures Colons([n]) == Hex(n) + ":"
  {
    assert [n][1..] == [];
    NothingAround(":");
  }

  lemma {:induction false} Pieces(d: string)
    ensures "" + ("::" + (("ffff" + ":") + d)) == "::ffff:" + d && "" + ("::" + ("" + d)) == "::" + d
  {
  }

  lemma {:induction false} TextAfterFive(ws: seq<nat>)
    requires |ws| == 8 && Words(ws) && ZeroRun(ws, 0, 5) && ws[5] == 0xffff
    ensures Text(ws, Some((0, 5))) == "::ffff:" + V4.Dotted(ToBytes(ws[6..]))
  {
    HexAllOnes();
    OneColon(0xffff);
    assert ws[5..6] == [0xffff] && ws[..0] == [];
    Pieces(V4.Dotted(ToBytes(ws[6..])));
  }

  lemma {:induction false} TextAfterSix(ws: seq<nat>)
    requires |ws| == 8 && Words(ws) && ZeroRun(ws, 0, 6)
    ensures Text(ws, Some((0, 6))) == "::" + V4.Dotted(ToBytes(ws[6..]))
  {
    assert ws[6..6] == [] && ws[..0] == [];
    Pieces(V4.Dotted(ToBytes(ws[6..])));
  }

  lemma {:induction false} MappedRun(b: seq<nat>, run: Option<(nat, nat)>)
    requires V4.Bytes(b) && Mapped(b) && BestRun(FromBytes(b), run)
    ensures run == Some((0, 5)) && ZeroRun(FromBytes(b), 0, 5) && FromBytes(b)[5] == 0xffff
  {
    ZeroWords(b, 5);
    FromBytesAt(b, 5);
    LeadingBest(FromBytes(b), run, 5);
  }

  lemma {:induction false} CompatibleRun(b: seq<nat>, run: Option<(nat, nat)>)
    requires V4.Bytes(b) && Compatible(b) && BestRun(FromBytes(b), run)
    ensures run == Some((0, 6)) && ZeroRun(FromBytes(b), 0, 6)
  {
    ZeroWords(b, 6);
    FromBytesAt(b, 6);
    LeadingBest(FromBytes(b), run, 6);
  }

  lemma {:induction false} MappedText(b: seq<nat>, t: string)
    requires V4.Bytes(b) && Mapped(b) && IsText(b, t)
    ensures t == "::ffff:" + V4.Dotted(b[12..])
  {
    var run :| BestRun(FromBytes(b), run) && RunOf(FromBytes(b), run) && t == Text(FromBytes(b), run);
    MappedRun(b, run);
    TextAfterFive(FromBytes(b));
    LastFour(b);
  }

  lemma {:induction false} CompatibleText(b: seq<nat>, t: string)
    requires V4.Bytes(b) && Compatible(b) && IsText(b, t)
    ensures t == "::" + V4.Dotted(b[12..])
  {
    var run :| BestRun(FromBytes(b), run) && RunOf(FromBytes(b), run) && t == Text(FromBytes(b), run);
    CompatibleRun(b, run);
    TextAfterSix(FromBytes(b));
    LastFour(b);
  }

  lemma {:induction false} EmbedsMeans(b: seq<nat>, base: nat, len: nat)
    requires |b| == 16 && V4.Bytes(b) && BestRun(FromBytes(b), Some((base, len))) && Embeds(FromBytes(b), base, len)
    ensures Mapped(b) || Compatible(b)
  {
    var ws := FromBytes(b);
    ZeroWords(b, len);
    FromBytesAt(b, 5);
    FromBytesAt(b, 6);
    assert ZeroRun(ws, 0, 7) ==> Beats(base, len, 0, 7);
  }

  lemma {:induction false} OtherText(b: seq<nat>, t: string)
    requires |b| == 16 && V4.Bytes(b) && !Mapped(b) && !Compatible(b) && IsText(b, t)
    ensures '.' !in t
  {
    var run :| BestRun(FromBytes(b), run) && RunOf(FromBytes(b), run) && t == Text(FromBytes(b), run);
    TextClean(FromBytes(b), run);
    if run.Some? && Embeds(FromBytes(b), run.value.0, run.value.1) { EmbedsMeans(b, run.value.0, run.value.1); }
  }

  /** The text of an address: an IPv4-mapped or IPv4-compatible address, and no other, ends in the dotted form of its last
      four bytes; letters are in lower case; and no group begins with a zero that could be left out. */
  lemma {:induction false} TextLooksLike(b: seq<nat>, t: string)
    requires |b| == 16 && V4.Bytes(b) && IsText(b, t)
    ensures '.' in t <==> Mapped(b) || Compatible(b)
    ensures Mapped(b) ==> t == "::ffff:" + V4.Dotted(b[12..])
    ensures Compatible(b) ==> t == "::" + V4.Dotted(b[12..])
    ensures NoLeadingZero(t) && forall i :: 0 <= i < |t| ==> Allowed(t[i])
  {
    var run :| BestRun(FromBytes(b), run) && RunOf(FromBytes(b), run) && t == Text(FromBytes(b), run);
    TextClean(FromBytes(b), run);
    var d := V4.Dotted(b[12..]);
    if Mapped(b) { MappedText(b, t); JoinClean(b[12..]); }
    else if Compatible(b) { CompatibleText(b, t); JoinClean(b[12..]); }
    else { OtherText(b, t); }
  }

  // ---- Where the "::" stands ----

  /** From word `base` on, `len` words are zero. */
  predicate ZerosAt(b: seq<nat>, base: nat, len: nat) {
    2 * (base + len) <= |b| && forall i :: 2 * base <= i < 2 * (base + len) ==> b[i] == 0
  }

  /** The first of the longest runs of at least two zero words. */
  ghost predicate FirstOfLongest(b: seq<nat>, base: nat, len: nat) {
    && len >= 2 && ZerosAt(b, base, len)
    && forall i, n: nat :: ZerosAt(b, i, n) ==> n < len || (n == len && base <= i)
  }

  lemma {:induction false} ZerosAreRuns(b: seq<nat>, base: nat, len: nat)
    requires |b| == 16 && V4.Bytes(b)
    ensures ZerosAt(b, base, len) <==> ZeroRun(FromBytes(b), base, len)
  {
    var ws := FromBytes(b);
    forall k | 0 <= k < 8 ensures ws[k] == b[2 * k] * 256 + b[2 * k + 1] { FromBytesAt(b, k); }
    if ZeroRun(ws, base, len) {
      forall i | 2 * base <= i < 2 * (base + len) ensures b[i] == 0 {
        assert ws[i / 2] == 0 && (i == 2 * (i / 2) || i == 2 * (i / 2) + 1);
      }
    }
  }

  /** The text has a form of the grammar in which the "::" stands for the first of the longest runs of at least two zero
      words; without such a run there is no "::" (sections 4.2.1 to 4.2.3 of RFC 5952). */
  lemma {:induction false} GapIsFirstOfLongest(b: seq<nat>, t: string) returns (f: Form)
    requires |b| == 16 && V4.Bytes(b) && IsText(b, t)
    ensures WellFormed(f) && Spell(f) == t && Meaning(f) == b
    ensures f.gap.Some? ==>
      FirstOfLongest(b, |f.left|, 8 - |f.left| - |f.gap.value| - (if f.v4.Some? then 2 else 0))
    ensures f.gap.None? ==> forall i :: !ZerosAt(b, i, 2)
  {
    var run :| BestRun(FromBytes(b), run) && RunOf(FromBytes(b), run) && t == Text(FromBytes(b), run);
    f := FormOfText(FromBytes(b), run);
    TextIsSpelled(FromBytes(b), run);
    if run.Some? {
      BestIsFirst(b, run.value.0, run.value.1);
      FormShape(FromBytes(b), run.value.0, run.value.1);
    } else {
      forall i: nat ensures !ZerosAt(b, i, 2) { ZerosAreRuns(b, i, 2); }
    }
  }

  lemma {:induction false} TextIsSpelled(ws: seq<nat>, run: Option<(nat, nat)>)
    requires |ws| == 8 && Words(ws) && RunOf(ws, run)
    ensures var f := FormOfText(ws, run); WellFormed(f) && Spell(f) == Text(ws, run) && Meaning(f) == ToBytes(ws)
  {
    if run.Some? { GappedForm(ws, run.value.0, run.value.1); } else { PlainForm(ws); }
    assert StandsAt(FormOfText(ws, run), Text(ws, run), ToBytes(ws), 0);
  }

  lemma {:induction false} FormShape(ws: seq<nat>, base: nat, len: nat)
    requires |ws| == 8 && Words(ws) && len > 0 && ZeroRun(ws, base, len)
    ensures var f := FormOfText(ws, Some((base, len)));
      f.gap.Some? && |f.left| == base && 8 - |f.left| - |f.gap.value| - (if f.v4.Some? then 2 else 0) == len
  {
  }

  lemma {:induction false} BestIsFirst(b: seq<nat>, base: nat, len: nat)
    requires |b| == 16 && V4.Bytes(b) && BestRun(FromBytes(b), Some((base, len)))
    ensures FirstOfLongest(b, base, len)
  {
    forall i: nat, n: nat ensures ZerosAt(b, i, n) <==> ZeroRun(FromBytes(b), i, n) { ZerosAreRuns(b, i, n); }
  }
}
