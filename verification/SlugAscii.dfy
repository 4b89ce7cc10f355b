/**
 * SlugAscii and its recogniser IsSlugAscii. The loop keeps two flags and one 12-byte scratch array; it
 * is proved equal to a declarative meaning: cut each run of the plain slug into maximal ASCII and
 * non-ASCII blocks, write the latter as the hexadecimal of their UTF-8, and join all blocks with hyphens.
 */
module SlugAscii {
  import opened Runes
  import opened Sequences
  import opened Slug

  // ---------- the declarative meaning ----------

  /** Length of the longest prefix on the same side of the ASCII boundary as the first rune. */
  function KindPrefix(w: seq<Rune>): (n: nat)
    ensures n <= |w|
    ensures w != [] ==> 0 < n
    ensures forall i :: 0 <= i < n ==> (w[i] < 128 <==> w[0] < 128)
    ensures n < |w| ==> (w[n] < 128 <==> w[0] >= 128)
  {
    if |w| <= 1 then |w|
    else if w[0] < 128 <==> w[1] < 128 then 1 + KindPrefix(w[1..])
    else 1
  }

  /** The maximal ASCII and non-ASCII blocks of a run. */
  function Blocks(w: seq<Rune>): (bs: seq<seq<Rune>>)
    decreases |w|
  {
    if w == [] then [] else [w[..KindPrefix(w)]] + Blocks(w[KindPrefix(w)..])
  }

  /** A block as it is written out. */
  function Render(b: seq<Rune>): (out: seq<Rune>)
  {
    if b != [] && b[0] >= 128 then Hex(Utf8All(b)) else Utf8All(b)
  }

  function RenderAll(bs: seq<seq<Rune>>): (out: seq<seq<Rune>>)
    ensures |out| == |bs|
    ensures forall i :: 0 <= i < |bs| ==> out[i] == Render(bs[i])
  {
    Image(Render, bs)
  }

  /** The blocks of all runs, in order. */
  function AllBlocks(runs: seq<seq<Rune>>): (bs: seq<seq<Rune>>)
  {
    if runs == [] then [] else Blocks(runs[0]) + AllBlocks(runs[1..])
  }

  /** The blocks of a text. */
  function TextBlocks(u: Unicode, s: seq<Rune>): (bs: seq<seq<Rune>>)
  {
    AllBlocks(LowerRuns(u, Runs(u, Kept(u, s))))
  }

  /** The blocks of a text, as they are written out. */
  function AsciiBlocks(u: Unicode, s: seq<Rune>): (bs: seq<seq<Rune>>)
  {
    RenderAll(TextBlocks(u, s))
  }

  /** The ASCII slug of an already decomposed text. */
  function AsciiSlug(u: Unicode, s: seq<Rune>): (out: seq<Rune>)
  {
    Join(AsciiBlocks(u, s), [HYPHEN])
  }

  // ---------- the loop, as a transcription of the plain slug's runes ----------

  datatype Side = Outside | Ascii | NonAscii

  function SideOf(r: Rune): Side
  {
    if r < 128 then Ascii else NonAscii
  }

  function RenderRune(r: Rune): (out: seq<Rune>)
    ensures out != []
  {
    if r < 128 then Utf8(r) else Hex(Utf8(r))
  }

  /** The hyphen written between two blocks of one run. */
  function Seam(prev: Side, r: Rune): (out: seq<Rune>)
  {
    if prev != Outside && prev != SideOf(r) then [HYPHEN] else []
  }

  /** Transcribes the runes of a slug; `prev` is the kind of the rune before, if it was in the same run. */
  function Asciify(t: seq<Rune>, prev: Side): (out: seq<Rune>)
  {
    if t == [] then []
    else if t[0] == HYPHEN then [HYPHEN] + Asciify(t[1..], Outside)
    else Seam(prev, t[0]) + RenderRune(t[0]) + Asciify(t[1..], SideOf(t[0]))
  }

  /** What the loop still appends, before the final trim. */
  function EmitAscii(u: Unicode, s: seq<Rune>, dash: bool, latin: bool): (out: seq<Rune>)
  {
    if s == [] then []
    else if u.lat(s[0]) then
      var r := u.lower(s[0]);
      if r >= 128 then
        (if latin && dash then [HYPHEN] else []) + Hex(Utf8(r)) + EmitAscii(u, s[1..], true, false)
      else
        (if !latin then [HYPHEN] else []) + Utf8(r) + EmitAscii(u, s[1..], true, true)
    else if u.nop(s[0]) then EmitAscii(u, s[1..], dash, latin)
    else if dash then [HYPHEN] + EmitAscii(u, s[1..], false, true)
    else EmitAscii(u, s[1..], dash, latin)
  }

  /** The two flags of the loop encode the kind of the rune before. */
  function SideOfFlags(dash: bool, latin: bool): Side
  {
    if !dash then Outside else if latin then Ascii else NonAscii
  }

  lemma {:induction false} EmitAsciiTranscribes(u: Unicode, s: seq<Rune>, dash: bool, latin: bool)
    requires u.Lawful() && (!dash ==> latin)
    ensures EmitAscii(u, s, dash, latin) == Asciify(Emit(u, s, dash), SideOfFlags(dash, latin))
  {
    if s == [] {
    } else if u.lat(s[0]) {
      var r := u.lower(s[0]);
      LowerLatIsNotHyphen(u, s[0]);
      EmitAsciiTranscribes(u, s[1..], true, r < 128);
      assert Emit(u, s, dash)[1..] == Emit(u, s[1..], true);
    } else if u.nop(s[0]) {
      EmitAsciiTranscribes(u, s[1..], dash, latin);
    } else {
      EmitAsciiTranscribes(u, s[1..], false, true);
      assert dash ==> Emit(u, s, dash)[1..] == Emit(u, s[1..], false);
    }
  }

  lemma RenderCons(r: Rune, b: seq<Rune>)
    requires b != [] ==> (b[0] < 128 <==> r < 128)
    ensures Render([r] + b) == RenderRune(r) + Render(b)
  {
    assert ([r] + b)[1..] == b;
    HexConcat(Utf8(r), Utf8All(b));
  }

  ghost predicate NoHyphen(w: seq<Rune>)
  {
    forall i :: 0 <= i < |w| ==> w[i] != HYPHEN
  }

  lemma AsciifyCons(r: Rune, t: seq<Rune>, prev: Side)
    requires r != HYPHEN
    ensures Asciify([r] + t, prev) == Seam(prev, r) + RenderRune(r) + Asciify(t, SideOf(r))
  {
    assert ([r] + t)[1..] == t;
  }

  lemma AsciifyStay(r: Rune, t: seq<Rune>, side: Side)
    requires r != HYPHEN && SideOf(r) == side
    ensures Asciify([r] + t, side) == RenderRune(r) + Asciify(t, side)
  {
    AsciifyCons(r, t, side);
    assert [] + RenderRune(r) == RenderRune(r);
  }

  lemma AsciifyBlockStep(r: Rune, tail: seq<Rune>, rest: seq<Rune>, side: Side)
    requires r != HYPHEN && SideOf(r) == side
    requires tail != [] ==> SideOf(tail[0]) == side
    requires Asciify(tail + rest, side) == Render(tail) + Asciify(rest, side)
    ensures Asciify([r] + (tail + rest), side) == Render([r] + tail) + Asciify(rest, side)
  {
    AsciifyStay(r, tail + rest, side);
    RenderCons(r, tail);
    Assoc(RenderRune(r), Render(tail), Asciify(rest, side));
  }

  /** Runes that all lie on one side of the ASCII boundary. */
  ghost predicate OnSide(b: seq<Rune>, side: Side)
  {
    side != Outside && forall i :: 0 <= i < |b| ==> b[i] != HYPHEN && SideOf(b[i]) == side
  }

  /** A block, or the rest of one, is transcribed to its rendering. */
  lemma {:induction false} AsciifyBlock(b: seq<Rune>, rest: seq<Rune>, side: Side)
    requires OnSide(b, side)
    ensures Asciify(b + rest, side) == Render(b) + Asciify(rest, side)
  {
    if b == [] {
      assert b + rest == rest && Render(b) + Asciify(rest, side) == Asciify(rest, side);
    } else {
      var r, tail := b[0], b[1..];
      AsciifyBlock(tail, rest, side);
      AsciifyBlockStep(r, tail, rest, side);
      assert b == [r] + tail;
      Assoc([r], tail, rest);
    }
  }

  lemma AsciifyEnter(w: seq<Rune>, prev: Side)
    requires w != [] && NoHyphen(w)
    ensures Asciify(w, prev) == Seam(prev, w[0]) + Asciify(w, SideOf(w[0]))
  {
    var r, tail := w[0], w[1..];
    assert w == [r] + tail;
    AsciifyCons(r, tail, prev);
    AsciifyStay(r, tail, SideOf(r));
    Assoc(Seam(prev, r), RenderRune(r), Asciify(tail, SideOf(r)));
  }

  lemma BlocksCons(w: seq<Rune>)
    requires w != []
    ensures var n := KindPrefix(w);
      RenderAll(Blocks(w)) == [Render(w[..n])] + RenderAll(Blocks(w[n..]))
  {
    var first := w[..KindPrefix(w)];
    RenderAllConcat([first], Blocks(w[KindPrefix(w)..]));
    assert RenderAll([first]) == [Render(first)];
  }

  lemma RenderAllConcat(a: seq<seq<Rune>>, b: seq<seq<Rune>>)
    ensures RenderAll(a + b) == RenderAll(a) + RenderAll(b)
  {
    ImageConcat(Render, a, b);
  }

  /** One run is transcribed to the hyphen-join of its rendered blocks. */
  lemma {:induction false} AsciifyRun(w: seq<Rune>)
    requires w != [] && NoHyphen(w)
    ensures Blocks(w) != []
    ensures Asciify(w, SideOf(w[0])) == Join(RenderAll(Blocks(w)), [HYPHEN])
    decreases |w|
  {
    var n := KindPrefix(w);
    var b, rest, side := w[..n], w[n..], SideOf(w[0]);
    assert w == b + rest;
    AsciifyBlock(b, rest, side);
    BlocksCons(w);
    if rest == [] {
      RunOfOneBlock(w, b, side);
    } else {
      AsciifyRun(rest);
      AsciifyEnter(rest, side);
      JoinPrepend(Render(b), RenderAll(Blocks(rest)), [HYPHEN]);
      Assoc(Render(b), [HYPHEN], Join(RenderAll(Blocks(rest)), [HYPHEN]));
    }
  }

  lemma RunOfOneBlock(w: seq<Rune>, b: seq<Rune>, side: Side)
    requires w != [] && RenderAll(Blocks(w)) == [Render(b)] + RenderAll(Blocks([]))
    requires Asciify(w, side) == Render(b) + Asciify([], side)
    ensures Asciify(w, side) == Join(RenderAll(Blocks(w)), [HYPHEN])
  {
    assert Render(b) + [] == Render(b);
    assert RenderAll(Blocks(w)) == [Render(b)];
  }

  /** A hyphen closes a run. */
  lemma {:induction false} AsciifyHyphen(w: seq<Rune>, rest: seq<Rune>, prev: Side)
    requires NoHyphen(w)
    ensures Asciify(w + ([HYPHEN] + rest), prev) == Asciify(w, prev) + ([HYPHEN] + Asciify(rest, Outside))
  {
    var t := [HYPHEN] + rest;
    if w == [] {
      assert w + t == t && t[1..] == rest;
      assert [] + Asciify(t, prev) == Asciify(t, prev);
    } else {
      var tail := w[1..];
      AsciifyHyphen(tail, rest, SideOf(w[0]));
      assert w == [w[0]] + tail && w + t == [w[0]] + (tail + t);
      AsciifyCons(w[0], tail + t, prev);
      AsciifyCons(w[0], tail, prev);
      Assoc(Seam(prev, w[0]) + RenderRune(w[0]), Asciify(tail, SideOf(w[0])), [HYPHEN] + Asciify(rest, Outside));
    }
  }

  lemma AllBlocksCons(runs: seq<seq<Rune>>)
    requires runs != []
    ensures RenderAll(AllBlocks(runs)) == RenderAll(Blocks(runs[0])) + RenderAll(AllBlocks(runs[1..]))
  {
    RenderAllConcat(Blocks(runs[0]), AllBlocks(runs[1..]));
  }

  /** A whole slug is transcribed to the hyphen-join of all its rendered blocks. */
  lemma {:induction false} AsciifyJoin(runs: seq<seq<Rune>>)
    requires forall i :: 0 <= i < |runs| ==> runs[i] != [] && NoHyphen(runs[i])
    ensures Asciify(Join(runs, [HYPHEN]), Outside) == Join(RenderAll(AllBlocks(runs)), [HYPHEN])
    ensures runs != [] ==> AllBlocks(runs) != []
  {
    if runs != [] {
      var w, rest := runs[0], runs[1..];
      AsciifyRun(w);
      AsciifyEnter(w, Outside);
      assert [] + Asciify(w, SideOf(w[0])) == Asciify(w, SideOf(w[0]));
      AsciifyJoin(rest);
      AllBlocksCons(runs);
      var a, b := RenderAll(Blocks(w)), RenderAll(AllBlocks(rest));
      if rest == [] {
        assert a + b == a;
      } else {
        var j := Join(rest, [HYPHEN]);
        Assoc(w, [HYPHEN], j);
        AsciifyHyphen(w, j, Outside);
        JoinConcat(a, b, [HYPHEN]);
      }
    }
  }

  /** SlugAscii is Slug followed by a transcription of what is still outside ASCII. */
  lemma AsciiSlugTranscribesSlug(u: Unicode, s: seq<Rune>)
    requires u.Lawful()
    ensures AsciiSlug(u, s) == Asciify(SlugRunes(u, s), Outside)
  {
    var runs := LowerRuns(u, Runs(u, Kept(u, s)));
    LowerRunsAreRuns(u, Kept(u, s));
    forall i | 0 <= i < |runs| ensures runs[i] != [] && NoHyphen(runs[i]) {
      assert runs[i] in runs && IsRun(u, runs[i]);
    }
    AsciifyJoin(runs);
  }

  // ---------- the shape of the output ----------

  ghost predicate LowerAlnums(out: seq<int>)
  {
    forall i :: 0 <= i < |out| ==> LowerAlnum(out[i])
  }

  lemma {:induction false} Utf8AllAscii(b: seq<Rune>)
    requires AllAscii(b)
    ensures Utf8All(b) == b
  {
    if b != [] {
      Utf8AllAscii(b[1..]);
      assert b == [b[0]] + b[1..];
    }
  }

  /** A block of lowered letters and numbers is rendered in a-z, 0-9. */
  lemma BlockRenders(u: Unicode, b: seq<Rune>)
    requires u.Lawful() && b != []
    requires forall i :: 0 <= i < |b| ==> u.lat(b[i]) && u.lower(b[i]) == b[i]
    requires forall i :: 0 <= i < |b| ==> (b[i] < 128 <==> b[0] < 128)
    ensures Render(b) != [] && LowerAlnums(Render(b))
  {
    if b[0] < 128 {
      Utf8AllAscii(b);
      forall i | 0 <= i < |b| ensures LowerAlnum(b[i]) { LoweredAscii(u, b[i]); }
    } else {
      HexIsLowerAlnum(Utf8All(b));
    }
  }

  /** Every block is rendered in a-z, 0-9. */
  ghost predicate RenderWell(bs: seq<seq<Rune>>)
  {
    forall i :: 0 <= i < |bs| ==> Render(bs[i]) != [] && LowerAlnums(Render(bs[i]))
  }

  lemma {:induction false} BlocksRender(u: Unicode, w: seq<Rune>)
    requires u.Lawful()
    requires forall i :: 0 <= i < |w| ==> u.lat(w[i]) && u.lower(w[i]) == w[i]
    ensures RenderWell(Blocks(w))
    decreases |w|
  {
    if w != [] {
      var n := KindPrefix(w);
      BlockRenders(u, w[..n]);
      BlocksRender(u, w[n..]);
    }
  }

  lemma {:induction false} AllBlocksRender(u: Unicode, runs: seq<seq<Rune>>)
    requires u.Lawful()
    requires forall i :: 0 <= i < |runs| ==> IsRun(u, runs[i]) && Lower(u, runs[i]) == runs[i]
    ensures RenderWell(AllBlocks(runs))
  {
    if runs != [] {
      var w := runs[0];
      assert forall i :: 0 <= i < |w| ==> u.lower(w[i]) == Lower(u, w)[i];
      BlocksRender(u, w);
      AllBlocksRender(u, runs[1..]);
    }
  }

  lemma AlnumsAreRun(u: Unicode, w: seq<Rune>)
    requires u.Lawful() && w != [] && LowerAlnums(w)
    ensures IsRun(u, w) && Lower(u, w) == w
  {
  }

  /** The blocks of an ASCII slug are non-empty, and written in a-z, 0-9. */
  lemma BlocksAreAlnums(u: Unicode, s: seq<Rune>)
    requires u.Lawful()
    ensures forall i :: 0 <= i < |AsciiBlocks(u, s)| ==>
      var b := AsciiBlocks(u, s)[i]; LowerAlnums(b) && IsRun(u, b) && Lower(u, b) == b
  {
    var runs := LowerRuns(u, Runs(u, Kept(u, s)));
    LowerRunsAreRuns(u, Kept(u, s));
    forall i | 0 <= i < |runs| ensures IsRun(u, runs[i]) && Lower(u, runs[i]) == runs[i] {
      assert runs[i] in runs;
    }
    AllBlocksRender(u, runs);
    forall i | 0 <= i < |AsciiBlocks(u, s)|
      ensures var b := AsciiBlocks(u, s)[i]; LowerAlnums(b) && IsRun(u, b) && Lower(u, b) == b
    {
      AlnumsAreRun(u, AsciiBlocks(u, s)[i]);
    }
  }

  lemma {:induction false} JoinIsAscii(parts: seq<seq<Rune>>)
    requires forall i :: 0 <= i < |parts| ==> LowerAlnums(parts[i])
    ensures AllAscii(Join(parts, [HYPHEN]))
  {
    if parts != [] {
      assert AllAscii(parts[0]);
      JoinIsAscii(parts[1..]);
    }
  }

  /** An ASCII slug has slug shape, and is all ASCII. */
  lemma AsciiSlugHasShape(u: Unicode, s: seq<Rune>)
    requires u.Lawful()
    ensures SlugShape(u, AsciiSlug(u, s)) && AllAscii(AsciiSlug(u, s))
  {
    BlocksAreAlnums(u, s);
    JoinIsAscii(AsciiBlocks(u, s));
    JoinShape(u, AsciiBlocks(u, s));
  }

  // ---------- the recogniser ----------

  /** Non-empty, only a-z, 0-9 and single hyphens, none at either end. */
  ghost predicate AsciiSlugText(t: seq<Rune>)
  {
    && t != []
    && (forall i :: 0 <= i < |t| ==> t[i] == 0x2D || 0x61 <= t[i] <= 0x7A || 0x30 <= t[i] <= 0x39)
    && (forall i :: 0 <= i < |t| && t[i] == 0x2D ==> 0 < i < |t| - 1 && t[i - 1] != 0x2D)
  }

  /** providers.IsSlugAscii: a one-flag recogniser of exactly those texts. */
  method IsSlugAscii(t: seq<Rune>) returns (ok: bool)
    ensures ok <==> AsciiSlugText(t)
  {
    var dash := true;
    for i := 0 to |t|
      invariant forall j :: 0 <= j < i ==> t[j] == HYPHEN || LowerAlnum(t[j])
      invariant forall j :: 0 <= j < i && t[j] == HYPHEN ==> 0 < j && t[j - 1] != HYPHEN
      invariant dash <==> i == 0 || t[i - 1] == HYPHEN
    {
      var r := t[i];
      if r == HYPHEN {
        if dash {
          return false;
        }
        dash := true;
      } else if 0x61 <= r <= 0x7A || 0x30 <= r <= 0x39 {
        dash := false;
      } else {
        return false;
      }
    }
    return !dash;
  }

  lemma AsciiSlugTextIsShape(u: Unicode, t: seq<Rune>)
    requires u.Lawful()
    ensures AsciiSlugText(t) <==> t != [] && AllAscii(t) && SlugShape(u, t)
  {
    if t != [] && AllAscii(t) && SlugShape(u, t) {
      forall i | 0 <= i < |t| && t[i] != HYPHEN ensures LowerAlnum(t[i]) {
        LoweredAscii(u, t[i]);
      }
    }
    if AsciiSlugText(t) {
      assert forall j :: 0 < j < |t| && t[j] == HYPHEN ==> t[j - 1] != HYPHEN;
    }
  }

  lemma {:induction false} AsciifyAscii(t: seq<Rune>, prev: Side)
    requires AllAscii(t) && prev != NonAscii
    ensures Asciify(t, prev) == t
  {
    if t != [] {
      AsciifyAscii(t[1..], if t[0] == HYPHEN then Outside else Ascii);
      assert t == [t[0]] + t[1..];
    }
  }

  /** SlugAscii differs from Slug exactly where something outside ASCII is left. */
  lemma AsciiSlugIsSlugWhen(u: Unicode, s: seq<Rune>)
    requires u.Lawful()
    ensures AsciiSlug(u, s) == SlugRunes(u, s) <==> AllAscii(SlugRunes(u, s))
  {
    AsciiSlugTranscribesSlug(u, s);
    AsciiSlugHasShape(u, s);
    if AllAscii(SlugRunes(u, s)) {
      AsciifyAscii(SlugRunes(u, s), Outside);
    }
  }

  /** The recogniser accepts a text exactly when it is non-empty and its own ASCII slug. */
  lemma RecogniserIsFixedPoints(u: Unicode, t: seq<Rune>)
    requires u.Lawful()
    ensures AsciiSlugText(t) <==> t != [] && AsciiSlug(u, u.nfkd(t)) == t
  {
    AsciiSlugTextIsShape(u, t);
    if AsciiSlug(u, u.nfkd(t)) == t {
      AsciiSlugHasShape(u, u.nfkd(t));
    }
    if AsciiSlugText(t) {
      assert u.nfkd(t) == t;
      SlugFixedPoints(u, t);
      AsciiSlugTranscribesSlug(u, t);
      AsciifyAscii(t, Outside);
    }
  }

  /** Every output of SlugAscii is empty or recognised; so SlugAscii is idempotent on all texts. */
  lemma AsciiSlugIdempotent(u: Unicode, text: seq<Rune>)
    requires u.Lawful()
    ensures var t := AsciiSlug(u, u.nfkd(text)); (t == [] || AsciiSlugText(t)) && AsciiSlug(u, u.nfkd(t)) == t
  {
    var t := AsciiSlug(u, u.nfkd(text));
    AsciiSlugHasShape(u, u.nfkd(text));
    AsciiSlugTextIsShape(u, t);
    RecogniserIsFixedPoints(u, t);
    assert t == [] ==> u.nfkd(t) == [];
  }

  /** An ASCII slug has the blocks of the text it came from, in order, and no others. */
  lemma AsciiSlugKeepsBlocks(u: Unicode, s: seq<Rune>)
    requires u.Lawful()
    ensures Runs(u, AsciiSlug(u, s)) == AsciiBlocks(u, s)
  {
    BlocksAreAlnums(u, s);
    RunsOfJoin(u, AsciiBlocks(u, s));
  }

  /** A block is not empty and lies on one side of the ASCII boundary. */
  ghost predicate IsBlock(b: seq<Rune>)
  {
    b != [] && forall i :: 0 <= i < |b| ==> (b[i] < 128 <==> b[0] < 128)
  }

  ghost predicate AreBlocks(bs: seq<seq<Rune>>)
  {
    forall i :: 0 <= i < |bs| ==> IsBlock(bs[i])
  }

  lemma {:induction false} BlocksAreBlocks(w: seq<Rune>)
    ensures AreBlocks(Blocks(w))
    decreases |w|
  {
    if w != [] {
      BlocksAreBlocks(w[KindPrefix(w)..]);
    }
  }

  lemma {:induction false} AllBlocksAreBlocks(runs: seq<seq<Rune>>)
    ensures AreBlocks(AllBlocks(runs))
  {
    if runs != [] {
      BlocksAreBlocks(runs[0]);
      AllBlocksAreBlocks(runs[1..]);
    }
  }

  /** The same runes, or the one outside ASCII and the other its hexadecimal. */
  ghost predicate Alike(b: seq<Rune>, c: seq<Rune>)
  {
    b == c || HexOf(b, c) || HexOf(c, b)
  }

  ghost predicate HexOf(b: seq<Rune>, c: seq<Rune>)
  {
    b != [] && b[0] >= 128 && c == Hex(Utf8All(b))
  }

  /** Neighbours lie on different sides: the blocks are maximal. */
  ghost predicate Alternate(bs: seq<seq<Rune>>)
  {
    AreBlocks(bs) && forall i :: 0 < i < |bs| ==> (bs[i - 1][0] < 128 <==> bs[i][0] >= 128)
  }

  lemma KindPrefixIs(b: seq<Rune>, rest: seq<Rune>)
    requires IsBlock(b) && (rest == [] || (b[0] < 128 <==> rest[0] >= 128))
    ensures KindPrefix(b + rest) == |b|
  {
    var w := b + rest;
    assert w[0] == b[0] && forall i :: 0 <= i < |b| ==> w[i] == b[i];
    assert rest != [] ==> w[|b|] == rest[0];
  }

  /** However a run is cut into such blocks, they are Blocks. */
  lemma {:induction false} BlocksAreTheOnlyCut(bs: seq<seq<Rune>>)
    requires Alternate(bs)
    ensures Blocks(Flatten(bs)) == bs
  {
    if bs != [] {
      var b, rest := bs[0], Flatten(bs[1..]);
      BlocksAreTheOnlyCut(bs[1..]);
      if 1 < |bs| { assert rest == bs[1] + Flatten(bs[1..][1..]) && rest[0] == bs[1][0]; }
      KindPrefixIs(b, rest);
      assert (b + rest)[..|b|] == b && (b + rest)[|b|..] == rest;
    }
  }

  /** For instance, a lower-case ASCII block that meets one outside ASCII, in either order. */
  lemma AsciiSlugOfTwoBlocks(u: Unicode, a: seq<Rune>, b: seq<Rune>)
    requires LoweredRun(u, a) && LoweredRun(u, b)
    requires AllAscii(a) && forall i :: 0 <= i < |b| ==> b[i] >= 128
    ensures AsciiSlug(u, a + b) == a + [0x2D] + Hex(Utf8All(b))
    ensures AsciiSlug(u, b + a) == Hex(Utf8All(b)) + [0x2D] + a
  {
    assert IsBlock(a) && IsBlock(b);
    Utf8AllAscii(a);
    TwoBlocks(u, a, b);
    TwoBlocks(u, b, a);
  }

  lemma TwoAlternate(a: seq<Rune>, b: seq<Rune>)
    requires IsBlock(a) && IsBlock(b) && (a[0] < 128 <==> b[0] >= 128)
    ensures Alternate([a, b])
  {
    var bs := [a, b];
    assert bs[0] == a && bs[1] == b && |bs| == 2;
  }

  ghost predicate LoweredRun(u: Unicode, w: seq<Rune>)
  {
    IsRun(u, w) && forall i :: 0 <= i < |w| ==> u.lower(w[i]) == w[i]
  }

  lemma TwoBlocks(u: Unicode, a: seq<Rune>, b: seq<Rune>)
    requires LoweredRun(u, a) && LoweredRun(u, b)
    requires IsBlock(a) && IsBlock(b) && (a[0] < 128 <==> b[0] >= 128)
    ensures AsciiSlug(u, a + b) == Render(a) + [0x2D] + Render(b)
  {
    OneRun(u, a + b);
    TwoBlocksCut(a, b);
    assert RenderAll([a, b]) == [Render(a), Render(b)];
    JoinOfTwo(Render(a), Render(b), [HYPHEN]);
  }

  lemma TwoBlocksCut(a: seq<Rune>, b: seq<Rune>)
    requires IsBlock(a) && IsBlock(b) && (a[0] < 128 <==> b[0] >= 128)
    ensures AllBlocks([a + b]) == [a, b]
  {
    TwoAlternate(a, b);
    var runs := [a + b];
    BlocksAreTheOnlyCut([a, b]);
    FlattenTwo(a, b);
    assert runs[1..] == [] && AllBlocks(runs) == Blocks(a + b) + AllBlocks([]);
  }

  lemma OneRun(u: Unicode, w: seq<Rune>)
    requires LoweredRun(u, w)
    ensures LowerRuns(u, Runs(u, Kept(u, w))) == [w]
  {
    KeptAll(u, w);
    assert w + [] == w;
    RunsTakeRun(u, w, []);
    assert Lower(u, w) == w;
  }

  lemma RendersAlike(b: seq<Rune>, c: seq<Rune>)
    requires IsBlock(b) && IsBlock(c)
    ensures Render(b) == Render(c) <==> Alike(b, c)
  {
    if b[0] < 128 { Utf8AllAscii(b); }
    if c[0] < 128 { Utf8AllAscii(c); }
    if b[0] >= 128 && c[0] >= 128 {
      HexOfIsAscii(b, c);
      HexOfIsAscii(c, b);
      if Render(b) == Render(c) { HexBlockDetermines(b, c); }
    } else {
      if HexOf(b, c) { HexOfIsAscii(b, c); }
      if HexOf(c, b) { HexOfIsAscii(c, b); }
    }
  }

  lemma HexOfIsAscii(b: seq<Rune>, c: seq<Rune>)
    requires c != []
    ensures HexOf(b, c) ==> c[0] < 128
  {
    HexIsLowerAlnum(Utf8All(b));
  }

  /**
   * Two texts share an ASCII slug exactly when they have equally many blocks and each is alike to its
   * counterpart: only a hexadecimal text can be taken for something else.
   */
  lemma AsciiSlugsAgreeExactlyWhen(u: Unicode, s: seq<Rune>, t: seq<Rune>)
    requires u.Lawful()
    ensures AsciiSlug(u, s) == AsciiSlug(u, t) <==>
      |TextBlocks(u, s)| == |TextBlocks(u, t)|
      && forall i :: 0 <= i < |TextBlocks(u, s)| ==> Alike(TextBlocks(u, s)[i], TextBlocks(u, t)[i])
  {
    AsciiSlugKeepsBlocks(u, s);
    AsciiSlugKeepsBlocks(u, t);
    AllBlocksAreBlocks(LowerRuns(u, Runs(u, Kept(u, s))));
    AllBlocksAreBlocks(LowerRuns(u, Runs(u, Kept(u, t))));
    BlocksAlike(TextBlocks(u, s), TextBlocks(u, t));
  }

  lemma BlocksAlike(bs: seq<seq<Rune>>, cs: seq<seq<Rune>>)
    requires AreBlocks(bs) && AreBlocks(cs)
    ensures RenderAll(bs) == RenderAll(cs) <==> |bs| == |cs| && forall i :: 0 <= i < |bs| ==> Alike(bs[i], cs[i])
  {
    if |bs| == |cs| {
      forall i | 0 <= i < |bs| ensures RenderAll(bs)[i] == RenderAll(cs)[i] <==> Alike(bs[i], cs[i]) {
        RendersAlike(bs[i], cs[i]);
      }
    }
  }

  lemma AsciifyLetter(r: Rune)
    requires r >= 128
    ensures Asciify([r], Outside) == Hex(Utf8(r))
  {
    AsciifyCons(r, [], Outside);
    assert [r] + [] == [r];
    assert [] + Hex(Utf8(r)) + [] == Hex(Utf8(r));
  }

  lemma LetterIsItsHex(u: Unicode, r: Rune)
    requires u.Lawful() && r >= 128 && u.lat(r) && u.lower(r) == r
    ensures AsciiSlug(u, [r]) == Hex(Utf8(r))
  {
    SlugFixedPoints(u, [r]);
    AsciiSlugTranscribesSlug(u, [r]);
    AsciifyLetter(r);
  }

  /** A text of a-z and 0-9 is its own ASCII slug. */
  lemma AlnumsAreTheirSlug(u: Unicode, h: seq<Rune>)
    requires u.Lawful() && LowerAlnums(h)
    ensures AsciiSlug(u, h) == h
  {
    SlugFixedPoints(u, h);
    AsciiSlugIsSlugWhen(u, h);
  }

  /** So different texts collide: a lower-case letter outside ASCII, and the text of its own hexadecimal. */
  lemma HexTextCollides(u: Unicode, r: Rune)
    requires u.Lawful() && r >= 128 && u.lat(r) && u.lower(r) == r
    ensures [r] != Hex(Utf8(r)) && AsciiSlug(u, [r]) == AsciiSlug(u, Hex(Utf8(r)))
  {
    HexIsLowerAlnum(Utf8(r));
    LetterIsItsHex(u, r);
    AlnumsAreTheirSlug(u, Hex(Utf8(r)));
  }

  /** A hexadecimal block determines the non-ASCII runes it stands for. */
  lemma HexBlockDetermines(b: seq<Rune>, c: seq<Rune>)
    requires b != [] && c != [] && b[0] >= 128 && c[0] >= 128
    requires Render(b) == Render(c)
    ensures b == c
  {
    HexInjective(Utf8All(b), Utf8All(c));
    Utf8AllInjective(b, c);
  }

  // ---------- the method ----------

  lemma {:induction false} AsciifyTrailingHyphen(t: seq<Rune>, prev: Side)
    ensures Asciify(t + [HYPHEN], prev) == Asciify(t, prev) + [HYPHEN]
  {
    var s := t + [HYPHEN];
    if t == [] {
      assert s[1..] == [];
    } else {
      assert s[0] == t[0] && s[1..] == t[1..] + [HYPHEN];
      AsciifyTrailingHyphen(t[1..], if t[0] == HYPHEN then Outside else SideOf(t[0]));
    }
  }

  lemma EmitAsciiMeaning(u: Unicode, s: seq<Rune>)
    requires u.Lawful()
    ensures Trim(EmitAscii(u, s, false, true)) == AsciiSlug(u, s)
  {
    var t, e := SlugRunes(u, s), Emit(u, s, false);
    EmitMeaning(u, s, false);
    EmitAsciiTranscribes(u, s, false, true);
    AsciiSlugTranscribesSlug(u, s);
    AsciiSlugHasShape(u, s);
    if e != t {
      assert e == t + [HYPHEN];
      AsciifyTrailingHyphen(t, Outside);
    }
  }

  /** What one letter or number appends to the buffer. */
  function Appended(r: Rune, dash: bool, latin: bool): (out: seq<byte>)
  {
    if r >= 128 then (if latin && dash then [HYPHEN] else []) + Hex(Utf8(r))
    else (if !latin then [HYPHEN] else []) + Utf8(r)
  }

  lemma EmitAsciiStep(u: Unicode, buf: seq<byte>, s: seq<Rune>, dash: bool, latin: bool)
    requires s != [] && u.lat(s[0])
    ensures var r := u.lower(s[0]);
      buf + EmitAscii(u, s, dash, latin) == buf + Appended(r, dash, latin) + EmitAscii(u, s[1..], true, r < 128)
  {
    var r := u.lower(s[0]);
    Assoc<int>(buf, Appended(r, dash, latin), EmitAscii(u, s[1..], true, r < 128));
  }

  /** The letter-or-number case of the loop, with its scratch array: ib[..n] is encoded into ib[4..4 + 2n]. */
  method AppendRune(ib: array<byte>, buf: seq<byte>, r: Rune, dash: bool, latin: bool) returns (buf': seq<byte>)
    requires ib.Length == 12
    modifies ib
    ensures buf' == buf + Appended(r, dash, latin)
  {
    var sep: seq<byte>, ob: seq<byte> := [], [];
    var n := EncodeRune(ib, r);
    if r >= 128 {
      if latin && dash {
        sep := [HYPHEN];
      }
      n := HexEncode(ib, 4, n);
      ob := ib[4..4 + n];
    } else {
      if !latin {
        sep := [HYPHEN];
      }
      ob := ib[..n];
    }
    buf' := buf + sep + ob;
    Assoc(buf, sep, ob);
  }

  /** providers.SlugAscii: the loop with its flags and scratch array computes the declarative ASCII slug. */
  method SlugifyAscii(u: Unicode, text: seq<Rune>) returns (slug: seq<byte>)
    requires u.Lawful()
    ensures slug == AsciiSlug(u, u.nfkd(text))
  {
    var s := u.nfkd(text);
    var ib := new byte[12];
    var buf: seq<byte> := [];
    var dash, latin := false, true;
    for i := 0 to |s|
      invariant buf + EmitAscii(u, s[i..], dash, latin) == EmitAscii(u, s, false, true)
    {
      var r := s[i];
      assert s[i..][0] == r && s[i..][1..] == s[i + 1..];
      if u.lat(r) {
        EmitAsciiStep(u, buf, s[i..], dash, latin);
        r := u.lower(r);
        buf := AppendRune(ib, buf, r, dash, latin);
        dash, latin := true, r < 128;
      } else if u.nop(r) {
      } else if dash {
        Assoc<int>(buf, [HYPHEN], EmitAscii(u, s[i + 1..], false, true));
        buf := buf + [HYPHEN];
        dash, latin := false, true;
      }
    }
    assert buf == EmitAscii(u, s, false, true);
    EmitAsciiMeaning(u, s);
    if 0 < |buf| && buf[|buf| - 1] == HYPHEN {
      buf := buf[..|buf| - 1];
    }
    slug := buf;
  }
}
