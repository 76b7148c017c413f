/** IPv6 addresses as text (RFC 4291 section 2.2, RFC 5952 section 4.2): the printer and the parser, and that the
    parser undoes the printer for every address. */
module Inet6 {
  import opened Wrappers
  import opened SeqFacts
  import opened Inet6Text
  import V4 = Inet4

  // ---- Sixteen-bit words ----

  predicate Words(ws: seq<nat>) { forall i :: 0 <= i < |ws| ==> ws[i] < 0x10000 }

  /** Big-endian bytes of a sequence of words. */
  function ToBytes(ws: seq<nat>): (b: seq<nat>)
    requires Words(ws)
    ensures |b| == 2 * |ws| && V4.Bytes(b)
  {
    if ws == [] then [] else [ws[0] / 256, ws[0] % 256] + ToBytes(ws[1..])
  }

  lemma {:induction false} ToBytesConcat(s: seq<nat>, t: seq<nat>)
    requires Words(s) && Words(t)
    ensures ToBytes(s + t) == ToBytes(s) + ToBytes(t)
  {
    if s == [] {
      assert s + t == t;
    } else {
      assert (s + t)[1..] == s[1..] + t;
      ToBytesConcat(s[1..], t);
    }
  }

  // ---- Hexadecimal ----

  function HexChar(d: nat): char
    requires d < 16
  {
    if d < 10 then ('0' as int + d) as char else ('a' as int + d - 10) as char
  }

  /** %x of a number. */
  function Hex(n: nat): (s: string)
    ensures s != []
    ensures n < 16 ==> |s| == 1
    ensures n < 0x100 ==> |s| <= 2
    ensures n < 0x1000 ==> |s| <= 3
    ensures n < 0x10000 ==> |s| <= 4
  {
    if n < 16 then [HexChar(n)] else Hex(n / 16) + [HexChar(n % 16)]
  }

  // ---- The printer ----

  /** Words in hexadecimal, each followed by a colon. */
  function Colons(ws: seq<nat>): string { if ws == [] then "" else Hex(ws[0]) + (":" + Colons(ws[1..])) }

  /** Words in hexadecimal, with colons between them. */
  function Groups(ws: seq<nat>): string {
    if ws == [] then "" else Colons(ws[..|ws| - 1]) + Hex(ws[|ws| - 1])
  }

  /** Is the address printed with its last four bytes as an IPv4 address? */
  predicate Embeds(ws: seq<nat>, base: nat, len: nat)
    requires |ws| == 8
  {
    base == 0 && (len == 6 || (len == 5 && ws[5] == 0xffff))
  }

  predicate ZeroRun(ws: seq<nat>, base: nat, len: nat) {
    base + len <= |ws| && forall i :: base <= i < base + len ==> ws[i] == 0
  }

  predicate RunOf(ws: seq<nat>, run: Option<(nat, nat)>) {
    run.Some? ==> run.value.1 > 0 && ZeroRun(ws, run.value.0, run.value.1)
  }

  /** The text after the "::". */
  function Tail(ws: seq<nat>, base: nat, len: nat): string
    requires |ws| == 8 && Words(ws) && base + len <= 8
  {
    if Embeds(ws, base, len) then Colons(ws[base + len..6]) + V4.Dotted(ToBytes(ws[6..])) else Groups(ws[base + len..])
  }

  /** The text for an address whose words base..base+len, all zero, are written as "::". */
  function Text(ws: seq<nat>, run: Option<(nat, nat)>): string
    requires |ws| == 8 && Words(ws) && RunOf(ws, run)
  {
    match run
    case None => Groups(ws)
    case Some((base, len)) => Colons(ws[..base]) + ((if base == 0 then "::" else ":") + Tail(ws, base, len))
  }

  // ---- The parser undoes the printer ----

  function Hexes(ws: seq<nat>): (gs: seq<string>)
    ensures |gs| == |ws|
  {
    if ws == [] then [] else Hexes(ws[..|ws| - 1]) + [Hex(ws[|ws| - 1])]
  }

  lemma {:induction false} HexesSnoc(ws: seq<nat>, n: nat)
    ensures Hexes(ws + [n]) == Hexes(ws) + [Hex(n)]
  {
    assert (ws + [n])[..|ws|] == ws;
  }

  lemma HexCharInverts(d: nat)
    requires d < 16
    ensures HexValue(HexChar(d)) == Some(d)
  {
  }

  /** A printed number is a group that stands for it. */
  lemma {:induction false} HexMeans(n: nat)
    ensures Digits(Hex(n)) && Number(Hex(n)) == n
    decreases n
  {
    HexCharInverts(n % 16);
    if n < 16 {
      NumberSnoc("", HexChar(n));
      assert "" + [HexChar(n)] == Hex(n);
    } else {
      HexMeans(n / 16);
      NumberSnoc(Hex(n / 16), HexChar(n % 16));
    }
  }

  lemma {:induction false} BytesSnoc(ws: seq<nat>, n: nat)
    requires n < 0x10000 && Words(ws)
    ensures Words(ws + [n]) && ToBytes(ws + [n]) == ToBytes(ws) + [n / 256, n % 256]
  {
    ToBytesConcat(ws, [n]);
    assert ToBytes([n]) == [n / 256, n % 256];
  }

  lemma {:induction false} HexGroup(n: nat)
    requires n < 0x10000
    ensures Group(Hex(n)) && Number(Hex(n)) == n && n / 256 % 256 == n / 256
  {
    HexMeans(n);
  }

  lemma {:induction false} HexesMean(ws: seq<nat>)
    requires Words(ws)
    ensures AllGroups(Hexes(ws)) && Octets(Hexes(ws)) == ToBytes(ws)
    decreases |ws|, 1
  {
    if ws != [] {
      var init, n := ws[..|ws| - 1], ws[|ws| - 1];
      FrontAndLast(ws);
      HexesMeanSnoc(init, n);
    }
  }

  lemma {:induction false} HexesMeanSnoc(init: seq<nat>, n: nat)
    requires Words(init) && n < 0x10000
    ensures Words(init + [n]) && AllGroups(Hexes(init + [n])) && Octets(Hexes(init + [n])) == ToBytes(init + [n])
    decreases |init| + 1, 0
  {
    HexesMean(init);
    HexGroup(n);
    HexesSnoc(init, n);
    OctetsSnoc(Hexes(init), Hex(n));
    BytesSnoc(init, n);
  }

  lemma {:induction false} ColonsAreEach(ws: seq<nat>)
    ensures Colons(ws) == Each(Hexes(ws))
    decreases |ws|
  {
    if ws != [] {
      var init, n := ws[..|ws| - 1], ws[|ws| - 1];
      FrontAndLast(ws);
      ColonsSnoc(init, n);
      ColonsAreEach(init);
      HexesSnoc(init, n);
      EachSnoc(Hexes(init), Hex(n));
      Associates(Colons(init), Hex(n), ":");
    }
  }

  lemma {:induction false} GroupsAreJoined(ws: seq<nat>)
    ensures Groups(ws) == Join(Hexes(ws))
  {
    if ws != [] {
      var init, n := ws[..|ws| - 1], ws[|ws| - 1];
      FrontAndLast(ws);
      GroupsSnoc(init, n);
      ColonsAreEach(init);
      HexesSnoc(init, n);
      JoinSnoc(Hexes(init), Hex(n));
    }
  }

  /** The form of a printed address. */
  function FormOfText(ws: seq<nat>, run: Option<(nat, nat)>): Form
    requires |ws| == 8 && Words(ws) && RunOf(ws, run)
  {
    match run
    case None => Form(Hexes(ws), None, None)
    case Some((base, len)) =>
      if Embeds(ws, base, len) then Form(Hexes(ws[..base]), Some(Hexes(ws[base + len..6])), Some(ToBytes(ws[6..])))
      else Form(Hexes(ws[..base]), Some(Hexes(ws[base + len..])), None)
  }

  lemma {:induction false} PlainForm(ws: seq<nat>)
    requires |ws| == 8 && Words(ws)
    ensures Stands(Form(Hexes(ws), None, None), Groups(ws), ToBytes(ws))
  {
    HexesMean(ws);
    GroupsAreJoined(ws);
    assert Hexes(ws) + [] == Hexes(ws);
    assert ToBytes(ws) + Zeros(0) + ([] + []) == ToBytes(ws);
    ItStands(Form(Hexes(ws), None, None), Groups(ws), ToBytes(ws));
  }

  /** The part after the "::" as the grammar has it. */
  lemma {:induction false} MixedParts(mid: seq<nat>, last: seq<nat>)
    requires Words(mid) && Words(last) && |last| == 2
    ensures AllGroups(Hexes(mid)) && Octets(Hexes(mid)) + ToBytes(last) == ToBytes(mid + last)
    ensures Join(Parts(Hexes(mid), Some(ToBytes(last)))) == Colons(mid) + V4.Dotted(ToBytes(last))
  {
    HexesMean(mid);
    ColonsAreEach(mid);
    JoinSnoc(Hexes(mid), V4.Dotted(ToBytes(last)));
    ToBytesConcat(mid, last);
  }

  lemma {:induction false} PlainParts(right: seq<nat>)
    requires Words(right)
    ensures AllGroups(Hexes(right)) && Octets(Hexes(right)) + [] == ToBytes(right)
    ensures Join(Parts(Hexes(right), None)) == Groups(right)
  {
    HexesMean(right);
    GroupsAreJoined(right);
    NothingAfter(Hexes(right));
  }

  lemma {:induction false} ZeroBytes(ws: seq<nat>)
    requires ZeroRun(ws, 0, |ws|)
    ensures Words(ws) && ToBytes(ws) == Zeros(2 * |ws|)
    decreases |ws|
  {
    if ws != [] {
      ZeroBytes(ws[1..]);
      assert Zeros(2 * |ws|) == [0, 0] + Zeros(2 * |ws| - 2);
    }
  }

  lemma {:induction false} RefillParts(left: seq<nat>, gap: seq<nat>, right: seq<nat>)
    requires Words(left) && ZeroRun(gap, 0, |gap|) && Words(right)
    ensures Words(left + (gap + right))
    ensures ToBytes(left + (gap + right)) == ToBytes(left) + Zeros(2 * |gap|) + ToBytes(right)
  {
    ZeroBytes(gap);
    ToBytesConcat(gap, right);
    ToBytesConcat(left, gap + right);
    BytesOneMore(ToBytes(left), Zeros(2 * |gap|), ToBytes(right));
  }

  /** Cutting a zero run out and putting that many zero bytes back. */
  lemma {:induction false} RefillRun(ws: seq<nat>, base: nat, len: nat)
    requires |ws| == 8 && Words(ws) && ZeroRun(ws, base, len)
    ensures ToBytes(ws) == ToBytes(ws[..base]) + Zeros(2 * len) + ToBytes(ws[base + len..])
  {
    RefillParts(ws[..base], ws[base..base + len], ws[base + len..]);
    assert ws == ws[..base] + (ws[base..base + len] + ws[base + len..]);
  }

  lemma {:induction false} GappedSpelling(left: seq<nat>, t: string, first: bool)
    requires first == (left == [])
    ensures Join(Hexes(left)) + ("::" + t) == Colons(left) + ((if first then "::" else ":") + t)
  {
    GroupsAreJoined(left);
    if !first {
      ColonsEnd(left);
      SplitColons(Groups(left), t);
    }
  }

  lemma {:induction false} SplitColons(a: string, t: string)
    ensures a + ("::" + t) == (a + ":") + (":" + t)
  {
  }

  lemma {:induction false} AroundForm(left: seq<nat>, gs: seq<string>, v4: Option<seq<nat>>, len: nat, first: bool)
    requires Words(left) && AllGroups(gs) && (v4.Some? ==> |v4.value| == 4 && V4.Bytes(v4.value))
    requires |left| + len + |gs| + (if v4.Some? then 2 else 0) == 8 && len > 0 && first == (left == [])
    ensures Stands(Form(Hexes(left), Some(gs), v4),
                   Colons(left) + ((if first then "::" else ":") + Join(Parts(gs, v4))),
                   ToBytes(left) + Zeros(2 * len) + (Octets(gs) + (if v4.Some? then v4.value else [])))
  {
    HexesMean(left);
    GappedSpelling(left, Join(Parts(gs, v4)), first);
    AroundGap(Hexes(left), gs, v4, len);
  }

  lemma {:induction false} GappedMixed(ws: seq<nat>, base: nat, len: nat)
    requires |ws| == 8 && Words(ws) && len > 0 && ZeroRun(ws, base, len) && base + len <= 6
    ensures Stands(Form(Hexes(ws[..base]), Some(Hexes(ws[base + len..6])), Some(ToBytes(ws[6..]))),
                   Colons(ws[..base])
                   + ((if base == 0 then "::" else ":") + (Colons(ws[base + len..6]) + V4.Dotted(ToBytes(ws[6..])))),
                   ToBytes(ws))
  {
    var mid, last := ws[base + len..6], ws[6..];
    RefillRun(ws, base, len);
    assert ws[base + len..] == mid + last;
    MixedParts(mid, last);
    AroundForm(ws[..base], Hexes(mid), Some(ToBytes(last)), len, base == 0);
  }

  lemma {:induction false} GappedPlain(ws: seq<nat>, base: nat, len: nat)
    requires |ws| == 8 && Words(ws) && len > 0 && ZeroRun(ws, base, len)
    ensures Stands(Form(Hexes(ws[..base]), Some(Hexes(ws[base + len..])), None),
                   Colons(ws[..base]) + ((if base == 0 then "::" else ":") + Groups(ws[base + len..])), ToBytes(ws))
  {
    RefillRun(ws, base, len);
    PlainParts(ws[base + len..]);
    AroundForm(ws[..base], Hexes(ws[base + len..]), None, len, base == 0);
  }

  lemma {:induction false} GappedForm(ws: seq<nat>, base: nat, len: nat)
    requires |ws| == 8 && Words(ws) && len > 0 && ZeroRun(ws, base, len)
    ensures Stands(FormOfText(ws, Some((base, len))), Text(ws, Some((base, len))), ToBytes(ws))
  {
    if Embeds(ws, base, len) { GappedMixed(ws, base, len); } else { GappedPlain(ws, base, len); }
  }

  /** Whatever run of zero words is written as "::", and also if none is, the parser gives the address back. */
  lemma {:induction false} AnyTextParses(ws: seq<nat>, run: Option<(nat, nat)>)
    requires |ws| == 8 && Words(ws) && RunOf(ws, run)
    ensures Parse(Text(ws, run)) == Some(ToBytes(ws))
  {
    if run.Some? { GappedForm(ws, run.value.0, run.value.1); } else { PlainForm(ws); }
    TextParses(FormOfText(ws, run), Text(ws, run), ToBytes(ws));
  }

  // ---- Which run is compressed ----

  /** Is the run (base, len) longer than (b, l), or as long and not to its right? */
  predicate Beats(base: nat, len: nat, b: nat, l: nat) { l < len || (l == len && base <= b) }

  /** The leftmost of the longest runs of at least two zero words, or none if there is no such run. */
  ghost predicate BestRun(ws: seq<nat>, run: Option<(nat, nat)>) {
    match run
    case None => forall b: nat, l: nat :: ZeroRun(ws, b, l) ==> l < 2
    case Some((base, len)) =>
      ZeroRun(ws, base, len) && len >= 2 && forall b: nat, l: nat :: ZeroRun(ws, b, l) ==> Beats(base, len, b, l)
  }

  lemma BestRunUnique(ws: seq<nat>, r1: Option<(nat, nat)>, r2: Option<(nat, nat)>)
    requires BestRun(ws, r1) && BestRun(ws, r2)
    ensures r1 == r2
  {
    if r1.Some? { assert ZeroRun(ws, r1.value.0, r1.value.1); }
    if r2.Some? { assert ZeroRun(ws, r2.value.0, r2.value.1); }
  }

  /** Every run that ends at or before `limit` is beaten by the best so far. */
  ghost predicate BestUpTo(ws: seq<nat>, limit: nat, base: int, len: nat) {
    && (base >= 0 ==> ZeroRun(ws, base, len) && len > 0 && base + len <= limit)
    && forall b: nat, l: nat :: ZeroRun(ws, b, l) && l > 0 && b + l <= limit ==> base >= 0 && Beats(base, len, b, l)
  }

  /** The best run after looking at the run (base, len), which nothing can extend to the left. */
  lemma BestGrows(ws: seq<nat>, from: nat, upto: nat, base: int, len: nat)
    requires BestUpTo(ws, from, base, len) && from < upto && ZeroRun(ws, from, upto - from)
    requires from > 0 ==> ws[from - 1] != 0
    ensures var better := base < 0 || upto - from > len;
      BestUpTo(ws, upto, if better then from else base, if better then upto - from else len)
  {
    forall b: nat, l: nat | ZeroRun(ws, b, l) ensures b >= from || b + l <= from {
      NotAcross(ws, from, b, l);
    }
  }

  lemma NotAcross(ws: seq<nat>, from: nat, b: nat, l: nat)
    requires ZeroRun(ws, b, l) && (0 < from <= |ws| ==> ws[from - 1] != 0)
    ensures b >= from || b + l <= from
  {
  }

  /** A word that is not zero ends every run before it. */
  lemma BestStays(ws: seq<nat>, i: nat, base: int, len: nat)
    requires BestUpTo(ws, i, base, len) && i < |ws| && ws[i] != 0
    ensures BestUpTo(ws, i + 1, base, len)
  {
    forall b: nat, l: nat | ZeroRun(ws, b, l) && l > 0 ensures ws[b + l - 1] == 0 {}
  }

  /** The first pass of `inet_ntop6` over the words. */
  method FindRun(ws: seq<nat>) returns (run: Option<(nat, nat)>)
    ensures BestRun(ws, run)
  {
    var bestBase: int, bestLen: nat := -1, 0;
    var curBase: int, curLen: nat := -1, 0;
    for i := 0 to |ws|
      invariant curBase >= 0 ==> curBase < i && curLen == i - curBase && ZeroRun(ws, curBase, curLen)
      invariant curBase > 0 ==> ws[curBase - 1] != 0
      invariant curBase >= -1 && (curBase < 0 && i > 0 ==> ws[i - 1] != 0)
      invariant BestUpTo(ws, if curBase >= 0 then curBase else i, bestBase, bestLen)
    {
      if ws[i] == 0 {
        if curBase == -1 {
          curBase, curLen := i, 1;
        } else {
          curLen := curLen + 1;
        }
      } else {
        if curBase != -1 {
          BestGrows(ws, curBase, i, bestBase, bestLen);
          if bestBase < 0 || curLen > bestLen {
            bestBase, bestLen := curBase, curLen;
          }
          curBase := -1;
        }
        BestStays(ws, i, bestBase, bestLen);
      }
    }
    if curBase != -1 {
      BestGrows(ws, curBase, |ws|, bestBase, bestLen);
      if bestBase < 0 || curLen > bestLen {
        bestBase, bestLen := curBase, curLen;
      }
    }
    BestOverall(ws, bestBase, bestLen);
    run := if bestBase < 0 || bestLen < 2 then None else Some((bestBase, bestLen));
  }

  lemma BestOverall(ws: seq<nat>, base: int, len: nat)
    requires BestUpTo(ws, |ws|, base, len)
    ensures BestRun(ws, if base < 0 || len < 2 then None else Some((base, len)))
  {
  }

  // ---- The printer's loop ----

  lemma ColonsSnoc(ws: seq<nat>, n: nat)
    ensures Colons(ws + [n]) == Colons(ws) + Hex(n) + ":"
  {
    if ws == [] {
      assert ws + [n] == [n];
      assert [n][1..] == [];
    } else {
      ColonsSnoc(ws[1..], n);
      RestSnoc(ws, n);
    }
  }

  lemma {:induction false} GroupsSnoc(ws: seq<nat>, n: nat)
    ensures Groups(ws + [n]) == Colons(ws) + Hex(n)
  {
    assert (ws + [n])[..|ws|] == ws;
  }

  lemma {:induction false} ColonsEnd(ws: seq<nat>)
    requires ws != []
    ensures Colons(ws) == Groups(ws) + ":"
  {
    ColonsEndSnoc(ws[..|ws| - 1], ws[|ws| - 1]);
    FrontAndLast(ws);
  }

  lemma {:induction false} ColonsEndSnoc(ws: seq<nat>, n: nat)
    ensures Colons(ws + [n]) == Groups(ws + [n]) + ":"
  {
    ColonsSnoc(ws, n);
    GroupsSnoc(ws, n);
  }

  /** What has been written before word i. */
  function Written(ws: seq<nat>, run: Option<(nat, nat)>, i: nat): string
    requires i <= |ws| && RunOf(ws, run)
  {
    WrittenBy(Groups, ws, run, i)
  }

  function WrittenBy(groups: seq<nat> -> string, ws: seq<nat>, run: Option<(nat, nat)>, i: nat): string
    requires i <= |ws| && RunOf(ws, run)
  {
    match run
    case None => groups(ws[..i])
    case Some((base, len)) =>
      if i <= base then groups(ws[..i])
      else if i <= base + len then groups(ws[..base]) + ":"
      else groups(ws[..base]) + ":" + ":" + groups(ws[base + len..i])
  }

  lemma {:induction false} GroupsGrow(ws: seq<nat>, from: nat, i: nat)
    requires from <= i < |ws|
    ensures Groups(ws[from..i + 1]) == Groups(ws[from..i]) + ((if i == from then "" else ":") + Hex(ws[i]))
  {
    SliceSnoc(ws, from, i);
    GroupsOneMore(ws[from..i], ws[i]);
  }

  lemma {:induction false} GroupsOneMore(ws: seq<nat>, n: nat)
    ensures Groups(ws + [n]) == Groups(ws) + ((if ws == [] then "" else ":") + Hex(n))
  {
    GroupsSnoc(ws, n);
    if ws != [] {
      ColonsEnd(ws);
      Associates(Groups(ws), ":", Hex(n));
    }
  }

  /** One word outside the run adds a colon, unless it is the first, and its digits. */
  lemma {:induction false} WrittenGrows(ws: seq<nat>, run: Option<(nat, nat)>, i: nat)
    requires i < |ws| && RunOf(ws, run) && !(run.Some? && run.value.0 <= i < run.value.0 + run.value.1)
    ensures Written(ws, run, i + 1) == Written(ws, run, i) + ((if i == 0 then "" else ":") + Hex(ws[i]))
  {
    forall from: nat | from <= i ensures GrowsAt(Groups, ws, from, i, Hex(ws[i])) { GroupsGrow(ws, from, i); }
    WrittenGrowsBy(Groups, ws, run, i, Hex(ws[i]));
  }

  predicate GrowsAt(groups: seq<nat> -> string, ws: seq<nat>, from: nat, i: nat, h: string)
    requires from <= i < |ws|
  {
    groups(ws[from..i + 1]) == groups(ws[from..i]) + ((if i == from then "" else ":") + h)
  }

  lemma {:induction false} WrittenGrowsBy(groups: seq<nat> -> string, ws: seq<nat>, run: Option<(nat, nat)>, i: nat, h: string)
    requires i < |ws| && RunOf(ws, run) && !(run.Some? && run.value.0 <= i < run.value.0 + run.value.1)
    requires groups([]) == "" && forall from: nat :: from <= i ==> GrowsAt(groups, ws, from, i, h)
    ensures WrittenBy(groups, ws, run, i + 1) == WrittenBy(groups, ws, run, i) + ((if i == 0 then "" else ":") + h)
  {
    assert GrowsAt(groups, ws, 0, i, h);
    if run.Some? && i >= run.value.0 {
      var end := run.value.0 + run.value.1;
      assert GrowsAt(groups, ws, end, i, h);
      if i == end { assert ws[end..i] == []; }
      AfterRun(groups(ws[..run.value.0]), groups(ws[end..i]), groups(ws[end..i + 1]), h, i == end);
    }
  }

  lemma {:induction false} WrittenInRun(ws: seq<nat>, base: nat, len: nat, i: nat)
    requires len > 0 && ZeroRun(ws, base, len) && base <= i < base + len
    ensures var run := Some((base, len));
      Written(ws, run, i + 1) == Written(ws, run, i) + (if i == base then ":" else "")
  {
  }

  lemma {:induction false} AfterRun(a: string, cur: string, longer: string, h: string, first: bool)
    requires longer == cur + ((if first then "" else ":") + h) && (first ==> cur == "")
    ensures a + ":" + ":" + longer == (if first then a + ":" else a + ":" + ":" + cur) + (":" + h)
  {
    assert a + ":" + ":" + (cur + (":" + h)) == (a + ":" + ":" + cur) + (":" + h);
  }

  /** What is written at the end of the words, or at word 6 before an IPv4 address. */
  lemma {:induction false} WrittenAll(ws: seq<nat>, run: Option<(nat, nat)>)
    requires |ws| == 8 && Words(ws) && RunOf(ws, run) && !(run.Some? && Embeds(ws, run.value.0, run.value.1))
    ensures Text(ws, run) == Written(ws, run, 8) + (if run.Some? && run.value.0 + run.value.1 == 8 then ":" else "")
  {
    if run.None? {
      assert ws[..8] == ws;
    } else {
      WrittenRun(ws, run.value.0, run.value.1);
    }
  }

  lemma {:induction false} WrittenRun(ws: seq<nat>, base: nat, len: nat)
    requires |ws| == 8 && Words(ws) && len > 0 && ZeroRun(ws, base, len) && !Embeds(ws, base, len)
    ensures var run := Some((base, len));
      Text(ws, run) == Written(ws, run, 8) + (if base + len == 8 then ":" else "")
  {
    var left, right := ws[..base], ws[base + len..];
    assert ws[base + len..8] == right;
    BesideGap(left, right);
  }

  lemma {:induction false} BesideGap(left: seq<nat>, right: seq<nat>)
    ensures Colons(left) + ((if |left| == 0 then "::" else ":") + Groups(right))
         == Groups(left) + ":" + ":" + Groups(right)
    ensures right == [] ==> Groups(left) + ":" + ":" + Groups(right) == Groups(left) + ":" + ":"
  {
    if left != [] { ColonsEnd(left); }
    BesideColons(Groups(left), Groups(right));
  }

  lemma {:induction false} BesideColons(a: string, b: string)
    ensures (a + ":") + (":" + b) == a + ":" + ":" + b && "" + ("::" + b) == "" + ":" + ":" + b
    ensures b == "" ==> a + ":" + ":" + b == a + ":" + ":"
  {
  }

  lemma {:induction false} WrittenEmbedded(ws: seq<nat>, len: nat)
    requires |ws| == 8 && Words(ws) && len > 0 && ZeroRun(ws, 0, len) && Embeds(ws, 0, len)
    ensures Text(ws, Some((0, len))) == Written(ws, Some((0, len)), 6) + ":" + V4.Dotted(ToBytes(ws[6..]))
  {
    assert ws[..0] == [] && ws[6..6] == [];
    if len == 5 { ColonsEnd(ws[5..6]); }
    EmbeddedText(Colons(ws[len..6]), Groups(ws[len..6]), V4.Dotted(ToBytes(ws[6..])));
  }

  lemma {:induction false} EmbeddedText(cs: string, gs: string, d: string)
    ensures cs == gs + ":" ==> "" + ("::" + (cs + d)) == ("" + ":" + ":" + gs) + ":" + d
    ensures cs == "" ==> "" + ("::" + (cs + d)) == ("" + ":") + ":" + d
  {
  }

  // ---- Lengths: the printer's buffer of 46 characters is large enough ----

  lemma {:induction false} ColonsLength(ws: seq<nat>)
    requires Words(ws)
    ensures |Colons(ws)| <= 5 * |ws|
    decreases |ws|
  {
    if ws != [] {
      ColonsLength(ws[1..]);
    }
  }

  lemma {:induction false} GroupsLength(ws: seq<nat>)
    requires Words(ws)
    ensures ws == [] ==> Groups(ws) == ""
    ensures ws != [] ==> |Groups(ws)| <= 5 * |ws| - 1
  {
    if ws != [] {
      ColonsLength(ws[..|ws| - 1]);
    }
  }

  lemma JoinedLength(left: seq<nat>, right: seq<nat>)
    requires Words(left) && Words(right) && |left| + |right| < 8
    ensures |Groups(left) + ":" + ":" + Groups(right)| <= 39
  {
    GroupsLength(left);
    GroupsLength(right);
  }

  lemma {:induction false} WrittenLength(ws: seq<nat>, run: Option<(nat, nat)>)
    requires |ws| == 8 && Words(ws) && RunOf(ws, run)
    ensures |Written(ws, run, |ws|)| <= 39
  {
    if run.None? {
      GroupsLength(ws[..|ws|]);
    } else {
      RunLength(ws, run.value.0, run.value.1);
    }
  }

  lemma {:induction false} RunLength(ws: seq<nat>, base: nat, len: nat)
    requires |ws| == 8 && Words(ws) && len > 0 && ZeroRun(ws, base, len)
    ensures |Written(ws, Some((base, len)), |ws|)| <= 39
  {
    var left, right := ws[..base], ws[base + len..|ws|];
    JoinedLength(left, right);
    assert |Groups(left) + ":"| <= 39;
  }

  /** What word i adds to the text, for a run at `base`, or at -1 if there is none. */
  function Piece(ws: seq<nat>, base: int, len: nat, i: nat): string
    requires i < |ws|
  {
    if base >= 0 && base <= i < base + len then (if i == base then ":" else "")
    else (if i != 0 then ":" else "") + Hex(ws[i])
  }

  function Base(run: Option<(nat, nat)>): int { if run.Some? then run.value.0 else -1 }
  function Length(run: Option<(nat, nat)>): nat { if run.Some? then run.value.1 else 0 }

  predicate PieceAt(ws: seq<nat>, base: int, len: nat, w: nat -> string, i: nat) {
    i < |ws| ==> w(i + 1) == w(i) + Piece(ws, base, len, i)
  }

  lemma {:induction false} WrittenPiece(ws: seq<nat>, run: Option<(nat, nat)>, i: nat)
    requires RunOf(ws, run) && i < |ws|
    ensures Written(ws, run, i + 1) == Written(ws, run, i) + Piece(ws, Base(run), Length(run), i)
  {
    if !(run.Some? && run.value.0 <= i < run.value.0 + run.value.1) {
      WrittenGrows(ws, run, i);
    } else {
      WrittenInRun(ws, run.value.0, run.value.1, i);
    }
  }

  /** The whole text, given what has been written before each word. */
  predicate Whole(ws: seq<nat>, base: int, len: nat, six: string, eight: string, goal: string)
    requires |ws| == 8 && Words(ws)
  {
    if base == 0 && Embeds(ws, 0, len) then goal == six + ":" + V4.Dotted(ToBytes(ws[6..])) && |six| <= 6
    else goal == eight + (if base >= 0 && base + len == 8 then ":" else "") && |eight| <= 39
  }

  lemma {:induction false} WholeText(ws: seq<nat>, run: Option<(nat, nat)>)
    requires |ws| == 8 && Words(ws) && RunOf(ws, run)
    ensures Whole(ws, Base(run), Length(run), Written(ws, run, 6), Written(ws, run, 8), Text(ws, run))
  {
    if run.Some? && Embeds(ws, run.value.0, run.value.1) {
      WrittenEmbedded(ws, run.value.1);
      EmbeddedLength(ws, run.value.1);
    } else {
      WrittenAll(ws, run);
      WrittenLength(ws, run);
    }
  }

  lemma TextInPieces(ws: seq<nat>, run: Option<(nat, nat)>) returns (w: nat -> string)
    requires |ws| == 8 && Words(ws) && RunOf(ws, run)
    ensures w(0) == "" && forall i: nat :: i < 8 ==> PieceAt(ws, Base(run), Length(run), w, i)
    ensures Whole(ws, Base(run), Length(run), w(6), w(8), Text(ws, run))
  {
    w := (i: nat) => if i <= 8 then Written(ws, run, i) else "";
    forall i: nat | i < 8 ensures PieceAt(ws, Base(run), Length(run), w, i) {
      WrittenPiece(ws, run, i);
    }
    WholeText(ws, run);
  }

  /** The second pass of `inet_ntop6`: no write goes past the end of the buffer, the IPv4 part included. */
  method Format(ws: seq<nat>, run: Option<(nat, nat)>) returns (r: V4.Result<string>)
    requires |ws| == 8 && Words(ws) && RunOf(ws, run)
    ensures r == V4.Ok(Text(ws, run)) && |r.value| < 46
  {
    ghost var w := TextInPieces(ws, run);
    r := FormatAll(ws, Base(run), Length(run), w, Text(ws, run));
  }

  /** The last four bytes as an IPv4 address, in the room that the buffer of 46 characters has left. */
  method AppendIPv4(t: string, b: seq<nat>) returns (r: V4.Result<string>)
    requires |b| == 4 && V4.Bytes(b) && |t| <= 30
    ensures r == V4.Ok(t + V4.Dotted(b))
  {
    var room := new char[46 - |t|];
    var ok, d := V4.Ntop4(b, room);
    V4.AcceptsOnlyPrinted(d);
    if !ok {
      return V4.ENOSPC;
    }
    var n := V4.Strlen(room, d);
    assert room[..n] == room[..][..n];
    r := V4.Ok(t + room[..n]);
  }

  method FormatAll(ws: seq<nat>, base: int, len: nat, ghost w: nat -> string, ghost goal: string)
    returns (r: V4.Result<string>)
    requires |ws| == 8 && Words(ws) && w(0) == "" && forall i: nat :: i < 8 ==> PieceAt(ws, base, len, w, i)
    requires Whole(ws, base, len, w(6), w(8), goal)
    ensures r == V4.Ok(goal) && |r.value| < 46
  {
    var t, embeds := FormatWords(ws, base, len, w);
    if embeds {
      r := AppendIPv4(t, ToBytes(ws[6..]));
      return;
    }
    assert t + "" == t;
    if base >= 0 && base + len == 8 {
      t := t + ":";
    }
    r := V4.Ok(t);
  }

  /** The loop over the words; `embeds` is its exit for an IPv4 address. */
  method FormatWords(ws: seq<nat>, base: int, len: nat, ghost w: nat -> string) returns (t: string, embeds: bool)
    requires |ws| == 8 && w(0) == "" && forall i: nat :: i < 8 ==> PieceAt(ws, base, len, w, i)
    ensures embeds == (base == 0 && Embeds(ws, 0, len))
    ensures t == if embeds then w(6) + ":" else w(8)
  {
    t := "";
    var last := ws[7];
    for i := 0 to 8
      invariant t == w(i)
      invariant base == 0 && Embeds(ws, 0, len) ==> i <= 6
    {
      assert PieceAt(ws, base, len, w, i);
      if base >= 0 && base <= i < base + len {
        if i == base {
          t := t + ":";
        }
        continue;
      }
      if i != 0 {
        t := t + ":";
      }
      // A run of seven words would have word 6 inside it; that the contract holds shows that case to be dead.
      if i == 6 && base == 0 && (len == 6 || (len == 7 && last != 1) || (len == 5 && ws[5] == 0xffff)) {
        return t, true;
      }
      t := t + Hex(ws[i]);
    }
    embeds := false;
  }

  lemma EmbeddedLength(ws: seq<nat>, len: nat)
    requires |ws| == 8 && Words(ws) && len > 0 && ZeroRun(ws, 0, len) && Embeds(ws, 0, len)
    ensures |Written(ws, Some((0, len)), 6)| <= 6
  {
    assert ws[..0] == [];
    if len == 5 {
      GroupsLength(ws[5..6]);
    }
  }

  // ---- No NUL inside the text ----

  lemma {:induction false} HexNulFree(n: nat)
    ensures V4.NulFree(Hex(n))
    decreases n
  {
    if n >= 16 {
      HexNulFree(n / 16);
    }
  }

  lemma {:induction false} ColonsNulFree(ws: seq<nat>)
    ensures V4.NulFree(Colons(ws))
    decreases |ws|
  {
    if ws != [] {
      HexNulFree(ws[0]);
      ColonsNulFree(ws[1..]);
      V4.NulFreeConcat(":", Colons(ws[1..]));
    }
  }

  lemma {:induction false} GroupsNulFree(ws: seq<nat>)
    ensures V4.NulFree(Groups(ws))
  {
    if ws != [] {
      HexNulFree(ws[|ws| - 1]);
      ColonsNulFree(ws[..|ws| - 1]);
    }
  }

  lemma {:induction false} TextNulFree(ws: seq<nat>, run: Option<(nat, nat)>)
    requires |ws| == 8 && Words(ws) && RunOf(ws, run)
    ensures V4.NulFree(Text(ws, run))
  {
    GroupsNulFree(ws);
    if run.Some? {
      var base, len := run.value.0, run.value.1;
      ColonsNulFree(ws[..base]);
      if Embeds(ws, base, len) {
        ColonsNulFree(ws[base + len..6]);
        V4.JoinNulFree(ToBytes(ws[6..]));
      } else {
        GroupsNulFree(ws[base + len..]);
      }
      assert V4.NulFree(Tail(ws, base, len));
      V4.NulFreeConcat(if base == 0 then "::" else ":", Tail(ws, base, len));
    }
  }

  // ---- `inet_ntop6` ----

  /** The words of an address. */
  function FromBytes(b: seq<nat>): (ws: seq<nat>)
    requires |b| % 2 == 0 && V4.Bytes(b)
    ensures |ws| == |b| / 2 && Words(ws) && ToBytes(ws) == b
  {
    if b == [] then [] else
      assert b == [b[0], b[1]] + b[2..];
      [b[0] * 256 + b[1]] + FromBytes(b[2..])
  }

  lemma {:induction false} FromBytesAt(b: seq<nat>, k: nat)
    requires |b| % 2 == 0 && V4.Bytes(b) && k < |b| / 2
    ensures FromBytes(b)[k] == b[2 * k] * 256 + b[2 * k + 1]
    decreases k
  {
    if k > 0 {
      FromBytesAt(b[2..], k - 1);
      assert b[2..][2 * (k - 1)] == b[2 * k] && b[2..][2 * (k - 1) + 1] == b[2 * k + 1];
      assert FromBytes(b)[k] == FromBytes(b[2..])[k - 1];
    }
  }

  /** The text the printer must produce for an address. */
  ghost predicate IsText(b: seq<nat>, t: string)
    requires |b| == 16 && V4.Bytes(b)
  {
    exists run :: BestRun(FromBytes(b), run) && RunOf(FromBytes(b), run) && t == Text(FromBytes(b), run)
  }

  /** Every address has at most one text, and no two addresses share one: the parser gives the address back. */
  lemma RoundTrip(b: seq<nat>, t: string)
    requires |b| == 16 && V4.Bytes(b) && IsText(b, t)
    ensures Parse(t) == Some(b)
    ensures forall u :: IsText(b, u) ==> u == t
  {
    var run :| BestRun(FromBytes(b), run) && RunOf(FromBytes(b), run) && t == Text(FromBytes(b), run);
    AnyTextParses(FromBytes(b), run);
    forall u | IsText(b, u) ensures u == t {
      var other :| BestRun(FromBytes(b), other) && RunOf(FromBytes(b), other) && u == Text(FromBytes(b), other);
      BestRunUnique(FromBytes(b), run, other);
    }
  }

  /** The bytes of an address taken two by two. */
  method ReadWords(src: seq<nat>) returns (ws: seq<nat>)
    requires |src| == 16 && V4.Bytes(src)
    ensures ws == FromBytes(src)
  {
    var words := new nat[8](_ => 0);
    for i := 0 to 16
      invariant forall k :: 0 <= k < i / 2 ==> words[k] == src[2 * k] * 256 + src[2 * k + 1]
      invariant i % 2 == 1 ==> words[i / 2] == src[i - 1] * 256
      invariant forall k :: (i + 1) / 2 <= k < 8 ==> words[k] == 0
    {
      words[i / 2] := words[i / 2] + src[i] * (if i % 2 == 0 then 256 else 1);
    }
    ws := words[..];
    forall k | 0 <= k < 8 ensures ws[k] == FromBytes(src)[k] {
      FromBytesAt(src, k);
    }
  }

  /** `inet_ntop6`: on success the buffer holds the text of the address, which parses back to it. It fails exactly
      when the text does not fit, except that for an empty buffer it succeeds and writes nothing. */
  method Ntop6(src: seq<nat>, dst: array<char>) returns (ok: bool, ghost t: string)
    requires |src| == 16 && V4.Bytes(src)
    modifies dst
    ensures IsText(src, t) && Parse(t) == Some(src) && |t| < 46
    ensures ok == (dst.Length == 0 || |t| < dst.Length)
    ensures ok && dst.Length > 0 ==> V4.Holds(dst[..], t)
  {
    var ws := ReadWords(src);
    var run := FindRun(ws);
    var tmp := Format(ws, run);
    if !tmp.Ok? {
      return false, "";
    }
    t := tmp.value;
    assert RunOf(ws, run);
    assert IsText(src, t);
    TextNulFree(ws, run);
    RoundTrip(src, t);
    var copied := V4.Strscpy(dst, tmp.value);
    ok := copied.Some?;
  }

  // ---- `inet_pton6` ----

  /** Moving the bytes after the "::" to the end of the address, from the last one down, and zeros into their place. */
  method ShiftUp(tmp: array<nat>, colon: nat, tp: nat)
    requires tmp.Length == 16 && colon <= tp < 16 && forall k :: tp <= k < 16 ==> tmp[k] == 0
    modifies tmp
    ensures tmp[..] == old(tmp[..colon]) + Zeros(16 - tp) + old(tmp[colon..tp])
  {
    var n := tp - colon;
    for i := 1 to n + 1
      invariant forall k :: 0 <= k < tp - (i - 1) ==> tmp[k] == old(tmp[k])
      invariant forall k :: tp - (i - 1) <= k < 16 - (i - 1) ==> tmp[k] == 0
      invariant forall k :: 16 - (i - 1) <= k < 16 ==> tmp[k] == old(tmp[k - (16 - tp)])
    {
      tmp[16 - i] := tmp[colon + n - i];
      tmp[colon + n - i] := 0;
    }
  }

  ghost function ToOption(colon: int): Option<nat> { if colon < 0 then None else Some(colon) }

  /** The parser between two characters, seen from its variables. */
  ghost predicate Corresponds(st: State, b: seq<nat>, tp: nat, colon: int, seen: nat, val: nat) {
    && |b| == 16 && tp <= 16 && -1 <= colon <= tp && seen <= 4
    && st.bytes == b[..tp] && st.colon == ToOption(colon) && st.seen == seen && st.val == val
    && forall k :: tp <= k < 16 ==> b[k] == 0
  }

  method StoreWord(tmp: array<nat>, tp: nat, val: nat)
    requires tmp.Length == 16 && tp + 2 <= 16
    modifies tmp
    ensures tmp[..] == old(tmp[..tp]) + [val / 256 % 256, val % 256] + old(tmp[tp + 2..])
  {
    tmp[tp] := val / 256 % 256;
    tmp[tp + 1] := val % 256;
  }

  method StoreIPv4(tmp: array<nat>, tp: nat, v4: seq<nat>)
    requires tmp.Length == 16 && tp + 4 <= 16 && |v4| == 4
    modifies tmp
    ensures tmp[..] == old(tmp[..tp]) + v4 + old(tmp[tp + 4..])
  {
    for i := 0 to 4
      invariant forall k :: 0 <= k < 16 ==> tmp[k] == if tp <= k < tp + i then v4[k - tp] else old(tmp[k])
    {
      tmp[tp + i] := v4[i];
    }
  }

  lemma Stored(st: State, b: seq<nat>, c: seq<nat>, more: seq<nat>, tp: nat, colon: int, seen: nat, val: nat)
    requires Corresponds(st, b, tp, colon, seen, val) && tp + |more| <= 16 && c == b[..tp] + more + b[tp + |more|..]
    ensures Corresponds(st.(bytes := st.bytes + more), c, tp + |more|, colon, seen, val)
  {
  }

  /** The end of `inet_pton6`, once the text is read. */
  method Complete(tmp: array<nat>, tp0: nat, colon: int, seen: nat, val: nat, ghost st: State)
    returns (r: V4.Result<seq<nat>>)
    requires tmp.Length == 16 && Corresponds(st, tmp[..], tp0, colon, seen, val)
    modifies tmp
    ensures r == ToResult(Finish(st))
  {
    var tp := tp0;
    if seen > 0 {
      if tp + 2 > 16 {
        return V4.EINVAL;
      }
      ghost var before := tmp[..];
      StoreWord(tmp, tp, val);
      Stored(st, before, tmp[..], [val / 256 % 256, val % 256], tp, colon, seen, val);
      tp := tp + 2;
    }
    assert tmp[..tp] == if seen > 0 then Push(st).bytes else st.bytes;
    if colon >= 0 {
      if tp == 16 {
        return V4.EINVAL;
      }
      assert tmp[..tp][..colon] == tmp[..colon] && tmp[..tp][colon..] == tmp[colon..tp];
      ShiftUp(tmp, colon, tp);
      tp := 16;
    }
    if tp != 16 {
      return V4.EINVAL;
    }
    assert tmp[..16] == tmp[..];
    r := V4.Ok(tmp[..]);
  }

  function ToResult(p: Option<seq<nat>>): V4.Result<seq<nat>> { if p.Some? then V4.Ok(p.value) else V4.EINVAL }

  /** The loop of `inet_pton6` over the characters. */
  method Scan(src: string, tmp: array<nat>, ghost run: Machine) returns (r: V4.Result<seq<nat>>)
    requires tmp.Length == 16 && forall k :: 0 <= k < 16 ==> tmp[k] == 0
    requires Reads(run)
    modifies tmp
    ensures r == ToResult(run(State([], None, 0, 0, src), src))
  {
    var tp, colon, seen, val, tok := 0, -1, 0, 0, 0;
    ghost var st := State([], None, 0, 0, src);
    ghost var goal := run(st, src);
    var i := 0;
    while i < |src|
      invariant 0 <= i <= |src| && 0 <= tok <= |src|
      invariant Corresponds(st, tmp[..], tp, colon, seen, val) && st.tok == src[tok..]
      invariant goal == run(st, src[i..])
    {
      var ch := src[i];
      i := i + 1;
      assert src[i - 1..] == [ch] + src[i..];
      assert StepsAt(run, st, ch, src[i..]);
      var d := HexValue(ch);
      if d.Some? {
        val := val * 16 + d.value;
        seen := seen + 1;
        if seen > 4 {
          return V4.EINVAL;
        }
        st := st.(val := val, seen := seen);
      } else if ch == ':' {
        tok := i;
        if seen == 0 {
          if colon >= 0 {
            return V4.EINVAL;
          }
          colon := tp;
          st := st.(colon := Some(tp), tok := src[i..]);
        } else {
          if i == |src| {
            return V4.EINVAL;
          }
          if tp + 2 > 16 {
            return V4.EINVAL;
          }
          ghost var before := tmp[..];
          StoreWord(tmp, tp, val);
          Stored(st, before, tmp[..], [val / 256 % 256, val % 256], tp, colon, seen, val);
          tp, seen, val := tp + 2, 0, 0;
          st := Push(st).(tok := src[i..]);
        }
      } else {
        if ch == '.' && tp + 4 <= 16 {
          r := EndInIPv4(src[tok..], tmp, tp, colon, seen, val, st);
          return;
        }
        return V4.EINVAL;
      }
    }
    assert src[i..] == [] && EndAt(run, st);
    r := Complete(tmp, tp, colon, seen, val, st);
  }

  /** A dot: the current token and all that follows it must be an IPv4 address. */
  method EndInIPv4(tok: string, tmp: array<nat>, tp: nat, colon: int, seen: nat, val: nat, ghost st: State)
    returns (r: V4.Result<seq<nat>>)
    requires tmp.Length == 16 && Corresponds(st, tmp[..], tp, colon, seen, val) && tp + 4 <= 16 && st.tok == tok
    modifies tmp
    ensures r == match V4.Parse(tok)
                 case None => V4.EINVAL
                 case Some(v4) => ToResult(Finish(st.(bytes := st.bytes + v4, seen := 0)))
  {
    var v4 := V4.Pton4(tok);
    if !v4.Ok? {
      return V4.EINVAL;
    }
    ghost var before := tmp[..];
    StoreIPv4(tmp, tp, v4.value);
    Stored(st, before, tmp[..], v4.value, tp, colon, seen, val);
    r := Complete(tmp, tp + 4, colon, 0, val, st.(bytes := st.bytes + v4.value, seen := 0));
  }

  /** `inet_pton6`: it accepts exactly the texts of the grammar, and an accepted text gives the sixteen bytes it means. */
  method Pton6(text: string) returns (r: V4.Result<seq<nat>>)
    ensures r == ToResult(Parse(text))
    ensures r.Ok? <==> exists f :: WellFormed(f) && Spell(f) == text
    ensures forall f :: WellFormed(f) && Spell(f) == text ==> r == V4.Ok(Meaning(f))
    ensures r.Ok? ==> |r.value| == 16 && V4.Bytes(r.value)
  {
    Accepted(text);
    r := ParseText(text);
  }

  method ParseText(text: string) returns (r: V4.Result<seq<nat>>)
    ensures r == ToResult(Parse(text))
  {
    var tmp := new nat[16](_ => 0);
    var src := text;
    if src != "" && src[0] == ':' {
      src := src[1..];
      if src == "" || src[0] != ':' {
        return V4.EINVAL;
      }
    }
    RunReads();
    r := Scan(src, tmp, Run);
  }
}
