/**
 * Slug: a one-pass, flag-driven loop over the decomposed runes of a text, proved equal to its
 * declarative meaning, the hyphen-join of the maximal letter/number runs, lower-cased.
 */
module Slug {
  import opened Runes
  import opened Sequences

  // ---------- the declarative meaning ----------

  /** The runes that matter: everything but skipped marks and modifier symbols. */
  function Kept(u: Unicode, s: seq<Rune>): (k: seq<Rune>)
  {
    if s == [] then []
    else if u.lat(s[0]) || !u.nop(s[0]) then [s[0]] + Kept(u, s[1..])
    else Kept(u, s[1..])
  }

  /** Length of the longest prefix made of letters and numbers. */
  function LatPrefix(u: Unicode, s: seq<Rune>): (n: nat)
    ensures n <= |s|
    ensures forall i :: 0 <= i < n ==> u.lat(s[i])
    ensures n < |s| ==> !u.lat(s[n])
  {
    if s == [] || !u.lat(s[0]) then 0 else 1 + LatPrefix(u, s[1..])
  }

  /** The maximal runs of letters and numbers, in order. */
  function Runs(u: Unicode, s: seq<Rune>): (rs: seq<seq<Rune>>)
    decreases |s|
  {
    if s == [] then []
    else if !u.lat(s[0]) then Runs(u, s[1..])
    else [s[..LatPrefix(u, s)]] + Runs(u, s[LatPrefix(u, s)..])
  }

  function Lower(u: Unicode, s: seq<Rune>): (r: seq<Rune>)
    ensures |r| == |s|
    ensures forall i :: 0 <= i < |s| ==> r[i] == u.lower(s[i])
  {
    seq(|s|, i requires 0 <= i < |s| => u.lower(s[i]))
  }

  function LowerRuns(u: Unicode, rs: seq<seq<Rune>>): (r: seq<seq<Rune>>)
    ensures |r| == |rs|
    ensures forall i :: 0 <= i < |rs| ==> r[i] == Lower(u, rs[i])
  {
    seq(|rs|, i requires 0 <= i < |rs| => Lower(u, rs[i]))
  }

  /** The slug of an already decomposed text. */
  function SlugRunes(u: Unicode, s: seq<Rune>): (r: seq<Rune>)
  {
    Join(LowerRuns(u, Runs(u, Kept(u, s))), [HYPHEN])
  }

  // ---------- what the declarative meaning says ----------

  ghost predicate IsRun(u: Unicode, w: seq<Rune>)
  {
    w != [] && forall i :: 0 <= i < |w| ==> u.lat(w[i])
  }

  ghost predicate IsGap(u: Unicode, g: seq<Rune>)
  {
    forall i :: 0 <= i < |g| ==> !u.lat(g[i])
  }

  /** gaps[0] + runs[0] + gaps[1] + runs[1] + ... + gaps[|runs|]. */
  ghost function Weave(gaps: seq<seq<Rune>>, runs: seq<seq<Rune>>): (s: seq<Rune>)
    requires |gaps| == |runs| + 1
  {
    if runs == [] then gaps[0] else gaps[0] + runs[0] + Weave(gaps[1..], runs[1..])
  }

  /** A decomposition into runs kept apart by non-empty gaps. */
  ghost predicate Decomposes(u: Unicode, gaps: seq<seq<Rune>>, runs: seq<seq<Rune>>)
  {
    && |gaps| == |runs| + 1
    && (forall i :: 0 <= i < |runs| ==> IsRun(u, runs[i]))
    && (forall i :: 0 <= i < |gaps| ==> IsGap(u, gaps[i]))
    && (forall i :: 0 < i < |gaps| - 1 ==> gaps[i] != [])
  }

  lemma {:induction false} RunsSkipGap(u: Unicode, g: seq<Rune>, s: seq<Rune>)
    requires IsGap(u, g)
    ensures Runs(u, g + s) == Runs(u, s)
  {
    if g == [] {
      assert g + s == s;
    } else {
      assert (g + s)[0] == g[0] && (g + s)[1..] == g[1..] + s;
      RunsSkipGap(u, g[1..], s);
    }
  }

  lemma LatPrefixIs(u: Unicode, w: seq<Rune>, s: seq<Rune>)
    requires IsRun(u, w) && (s == [] || !u.lat(s[0]))
    ensures LatPrefix(u, w + s) == |w|
  {
    var n := LatPrefix(u, w + s);
    if s != [] { assert (w + s)[|w|] == s[0]; }
    assert forall i :: 0 <= i < |w| ==> (w + s)[i] == w[i];
  }

  lemma RunsTakeRun(u: Unicode, w: seq<Rune>, s: seq<Rune>)
    requires IsRun(u, w) && (s == [] || !u.lat(s[0]))
    ensures Runs(u, w + s) == [w] + Runs(u, s)
  {
    LatPrefixIs(u, w, s);
    assert (w + s)[0] == w[0];
    assert (w + s)[..|w|] == w && (w + s)[|w|..] == s;
  }

  /** However a text is cut into letter/number runs kept apart by gaps, the runs are Runs. */
  lemma {:induction false} RunsAreTheOnlyDecomposition(
    u: Unicode, gaps: seq<seq<Rune>>, runs: seq<seq<Rune>>)
    requires Decomposes(u, gaps, runs)
    ensures Runs(u, Weave(gaps, runs)) == runs
    decreases |runs|
  {
    if runs == [] {
      assert gaps[0] + [] == gaps[0];
      RunsSkipGap(u, gaps[0], []);
    } else {
      var rest := Weave(gaps[1..], runs[1..]);
      WeaveStartsWithGap(u, gaps[1..], runs[1..], 1 < |runs|);
      assert gaps[0] + runs[0] + rest == gaps[0] + (runs[0] + rest);
      RunsSkipGap(u, gaps[0], runs[0] + rest);
      RunsTakeRun(u, runs[0], rest);
      RunsAreTheOnlyDecomposition(u, gaps[1..], runs[1..]);
    }
  }

  lemma WeaveStartsWithGap(u: Unicode, gaps: seq<seq<Rune>>, runs: seq<seq<Rune>>, more: bool)
    requires |gaps| == |runs| + 1 && IsGap(u, gaps[0])
    requires more <==> runs != []
    requires more ==> gaps[0] != []
    ensures Weave(gaps, runs) == [] || !u.lat(Weave(gaps, runs)[0])
  {
    if more {
      assert Weave(gaps, runs)[0] == gaps[0][0];
    }
  }

  /** Every text does have such a decomposition. */
  lemma {:induction false} RunsDecompose(u: Unicode, s: seq<Rune>) returns (gaps: seq<seq<Rune>>)
    ensures Decomposes(u, gaps, Runs(u, s)) && Weave(gaps, Runs(u, s)) == s
    ensures gaps[0] == [] <==> s == [] || u.lat(s[0])
    decreases |s|
  {
    if s == [] {
      gaps := [[]];
    } else if !u.lat(s[0]) {
      var g := RunsDecompose(u, s[1..]);
      gaps := [[s[0]] + g[0]] + g[1..];
      WeavePrepend(s[0], g, Runs(u, s));
    } else {
      var n := LatPrefix(u, s);
      var g := RunsDecompose(u, s[n..]);
      gaps := [[]] + g;
      var rs := Runs(u, s);
      assert rs[0] == s[..n] && rs[1..] == Runs(u, s[n..]) && gaps[1..] == g;
      if g[0] == [] && s[n..] == [] { assert Runs(u, s[n..]) == []; }
      assert [] + s[..n] + s[n..] == s;
      DecomposesCons(u, g, s[..n], Runs(u, s[n..]));
    }
  }

  lemma DecomposesCons(u: Unicode, g: seq<seq<Rune>>, w: seq<Rune>, rs: seq<seq<Rune>>)
    requires Decomposes(u, g, rs) && IsRun(u, w)
    requires rs != [] ==> g[0] != []
    ensures Decomposes(u, [[]] + g, [w] + rs)
  {
    var gaps, runs := [[]] + g, [w] + rs;
    assert forall i :: 0 < i < |gaps| ==> gaps[i] == g[i - 1];
    assert forall i :: 0 < i < |runs| ==> runs[i] == rs[i - 1];
  }

  lemma WeavePrepend(r: Rune, g: seq<seq<Rune>>, rs: seq<seq<Rune>>)
    requires |g| == |rs| + 1
    ensures Weave([[r] + g[0]] + g[1..], rs) == [r] + Weave(g, rs)
  {
    var gaps := [[r] + g[0]] + g[1..];
    assert gaps[1..] == g[1..];
    if rs != [] {
      var rest := Weave(g[1..], rs[1..]);
      assert [r] + g[0] + rs[0] + rest == [r] + (g[0] + rs[0] + rest);
    }
  }

  /** Joining runs with hyphens loses nothing: the runs of the join are the runs joined. */
  lemma {:induction false} RunsOfJoin(u: Unicode, rs: seq<seq<Rune>>)
    requires u.Lawful()
    requires forall i :: 0 <= i < |rs| ==> IsRun(u, rs[i])
    ensures Runs(u, Join(rs, [HYPHEN])) == rs
  {
    if |rs| == 1 {
      assert rs[0] + [] == rs[0];
      RunsTakeRun(u, rs[0], []);
    } else if 1 < |rs| {
      var rest := Join(rs[1..], [HYPHEN]);
      assert rs[0] + [HYPHEN] + rest == rs[0] + ([HYPHEN] + rest);
      RunsTakeRun(u, rs[0], [HYPHEN] + rest);
      RunsSkipGap(u, [HYPHEN], rest);
      RunsOfJoin(u, rs[1..]);
    }
  }

  // ---------- the loop ----------

  /** What the loop still appends, before the final trim, when `dash` says a run is open. */
  function Emit(u: Unicode, s: seq<Rune>, dash: bool): (r: seq<Rune>)
  {
    if s == [] then []
    else if u.lat(s[0]) then [u.lower(s[0])] + Emit(u, s[1..], true)
    else if u.nop(s[0]) then Emit(u, s[1..], dash)
    else if dash then [HYPHEN] + Emit(u, s[1..], false)
    else Emit(u, s[1..], false)
  }

  /** Dropping one trailing hyphen. */
  function Trim(s: seq<int>): (r: seq<int>)
    ensures r == s || r + [HYPHEN] == s
  {
    if s != [] && s[|s| - 1] == HYPHEN then s[..|s| - 1] else s
  }

  lemma TrimCons(x: int, s: seq<int>)
    requires s != [] || x != HYPHEN
    ensures Trim([x] + s) == [x] + Trim(s)
  {
    if s != [] {
      assert ([x] + s)[|s|] == s[|s| - 1];
      assert ([x] + s)[..|s|] == [x] + s[..|s| - 1];
    }
  }

  lemma LowerLatIsNotHyphen(u: Unicode, r: Rune)
    requires u.Lawful() && u.lat(r)
    ensures u.lower(r) != HYPHEN
  {
    assert u.lat(u.lower(r));
  }

  /** A hyphen, then the joined runs, if there are any. */
  function Following(u: Unicode, k: seq<Rune>): (r: seq<Rune>)
  {
    if Runs(u, k) == [] then [] else [HYPHEN] + Join(LowerRuns(u, Runs(u, k)), [HYPHEN])
  }

  lemma JoinCons(u: Unicode, w: seq<Rune>, k: seq<Rune>)
    ensures Join(LowerRuns(u, [w] + Runs(u, k)), [HYPHEN]) == Lower(u, w) + Following(u, k)
  {
    var rs := LowerRuns(u, [w] + Runs(u, k));
    assert rs[0] == Lower(u, w) && rs[1..] == LowerRuns(u, Runs(u, k));
  }

  /**
   * What the loop's trimmed emission is: outside a run, the joined runs; inside one, the rest of that
   * run and then whatever follows it.
   */
  function Meaning(u: Unicode, k: seq<Rune>, dash: bool): (r: seq<Rune>)
  {
    if dash then Lower(u, k[..LatPrefix(u, k)]) + Following(u, k[LatPrefix(u, k)..])
    else Join(LowerRuns(u, Runs(u, k)), [HYPHEN])
  }

  lemma {:induction false} EmitMeaning(u: Unicode, s: seq<Rune>, dash: bool)
    requires u.Lawful()
    ensures Trim(Emit(u, s, dash)) == Meaning(u, Kept(u, s), dash)
    ensures !dash ==> (Emit(u, s, dash) == [] <==> Runs(u, Kept(u, s)) == [])
  {
    if s == [] {
    } else if u.lat(s[0]) {
      EmitMeaning(u, s[1..], true);
      LowerLatIsNotHyphen(u, s[0]);
      TrimCons(u.lower(s[0]), Emit(u, s[1..], true));
      MeaningLat(u, s[0], Kept(u, s[1..]), dash);
    } else if u.nop(s[0]) {
      EmitMeaning(u, s[1..], dash);
    } else {
      EmitMeaning(u, s[1..], false);
      MeaningGap(u, s[0], Kept(u, s[1..]), dash);
      if dash && Emit(u, s[1..], false) != [] {
        TrimCons(HYPHEN, Emit(u, s[1..], false));
      }
    }
  }

  lemma MeaningLat(u: Unicode, r: Rune, k: seq<Rune>, dash: bool)
    requires u.lat(r)
    ensures Meaning(u, [r] + k, dash) == [u.lower(r)] + Meaning(u, k, true)
    ensures Runs(u, [r] + k) != []
  {
    EmitLat(u, r, k);
    var n := LatPrefix(u, k);
    assert [u.lower(r)] + Lower(u, k[..n]) + Following(u, k[n..])
        == [u.lower(r)] + (Lower(u, k[..n]) + Following(u, k[n..]));
  }

  lemma MeaningGap(u: Unicode, r: Rune, k: seq<Rune>, dash: bool)
    requires !u.lat(r)
    ensures Runs(u, [r] + k) == Runs(u, k)
    ensures Meaning(u, [r] + k, dash) ==
      if dash && Runs(u, k) != [] then [HYPHEN] + Meaning(u, k, false)
      else if dash then [] else Meaning(u, k, false)
  {
    var k' := [r] + k;
    assert k'[1..] == k && k'[0..] == k' && Lower(u, k'[..0]) == [];
  }

  lemma EmitLat(u: Unicode, r: Rune, k: seq<Rune>)
    requires u.lat(r)
    ensures var n := LatPrefix(u, k); var k' := [r] + k;
      && LatPrefix(u, k') == n + 1
      && Lower(u, k'[..n + 1]) == [u.lower(r)] + Lower(u, k[..n])
      && k'[n + 1..] == k[n..]
      && Runs(u, k') == [k'[..n + 1]] + Runs(u, k[n..])
      && Join(LowerRuns(u, Runs(u, k')), [HYPHEN]) == Lower(u, k'[..n + 1]) + Following(u, k[n..])
  {
    var n := LatPrefix(u, k);
    var k' := [r] + k;
    assert k'[1..] == k;
    JoinCons(u, k'[..n + 1], k[n..]);
  }

  /** providers.Slug: the loop over the decomposed text computes the declarative slug. */
  method Slugify(u: Unicode, text: seq<Rune>) returns (slug: seq<Rune>)
    requires u.Lawful()
    ensures slug == SlugRunes(u, u.nfkd(text))
  {
    var s := u.nfkd(text);
    var buf: seq<Rune> := [];
    var dash := false;
    for i := 0 to |s|
      invariant buf + Emit(u, s[i..], dash) == Emit(u, s, false)
    {
      var r := s[i];
      assert s[i..][0] == r && s[i..][1..] == s[i + 1..];
      if u.lat(r) {
        assert buf + ([u.lower(r)] + Emit(u, s[i + 1..], true)) == buf + [u.lower(r)] + Emit(u, s[i + 1..], true);
        buf := buf + [u.lower(r)];
        dash := true;
      } else if u.nop(r) {
      } else if dash {
        assert buf + ([HYPHEN] + Emit(u, s[i + 1..], false)) == buf + [HYPHEN] + Emit(u, s[i + 1..], false);
        buf := buf + [HYPHEN];
        dash := false;
      }
    }
    assert buf == Emit(u, s, false);
    EmitMeaning(u, s, false);
    if 0 < |buf| && buf[|buf| - 1] == HYPHEN {
      buf := buf[..|buf| - 1];
    }
    slug := buf;
  }

  // ---------- what is in a slug ----------

  lemma {:induction false} KeptConcat(u: Unicode, a: seq<Rune>, b: seq<Rune>)
    ensures Kept(u, a + b) == Kept(u, a) + Kept(u, b)
  {
    if a == [] {
      assert a + b == b;
    } else {
      assert (a + b)[0] == a[0] && (a + b)[1..] == a[1..] + b;
      KeptConcat(u, a[1..], b);
    }
  }

  /** A mark or modifier that is no letter or number makes no difference, wherever it stands. */
  lemma MarksAreSkipped(u: Unicode, a: seq<Rune>, r: Rune, b: seq<Rune>)
    requires u.nop(r) && !u.lat(r)
    ensures SlugRunes(u, a + [r] + b) == SlugRunes(u, a + b)
  {
    KeptConcat(u, a + [r], b);
    KeptConcat(u, a, [r]);
    KeptConcat(u, a, b);
    assert Kept(u, [r]) == [] && Kept(u, a) + [] == Kept(u, a);
  }

  /** A text without marks: its runs, lower-cased rune by rune, with one hyphen between each two. */
  lemma SlugOfRuns(u: Unicode, gaps: seq<seq<Rune>>, runs: seq<seq<Rune>>)
    requires Decomposes(u, gaps, runs)
    requires forall r :: r in Weave(gaps, runs) ==> u.lat(r) || !u.nop(r)
    ensures SlugRunes(u, Weave(gaps, runs)) == Join(LowerRuns(u, runs), [0x2D])
  {
    KeptAll(u, Weave(gaps, runs));
    RunsAreTheOnlyDecomposition(u, gaps, runs);
  }

  /** For instance, two runs apart. */
  lemma SlugOfTwoRuns(u: Unicode, v: seq<Rune>, gap: seq<Rune>, w: seq<Rune>)
    requires IsRun(u, v) && IsRun(u, w) && gap != []
    requires forall i :: 0 <= i < |gap| ==> !u.lat(gap[i]) && !u.nop(gap[i])
    ensures |SlugRunes(u, v + gap + w)| == |v| + 1 + |w|
    ensures forall i :: 0 <= i < |v| ==> SlugRunes(u, v + gap + w)[i] == u.lower(v[i])
    ensures SlugRunes(u, v + gap + w)[|v|] == 0x2D
    ensures forall i :: 0 <= i < |w| ==> SlugRunes(u, v + gap + w)[|v| + 1 + i] == u.lower(w[i])
  {
    KeptAll(u, v + gap + w);
    Assoc(v, gap, w);
    RunsTakeRun(u, v, gap + w);
    RunsSkipGap(u, gap, w);
    assert w + [] == w;
    RunsTakeRun(u, w, []);
    var rs := LowerRuns(u, [v, w]);
    assert Runs(u, v + gap + w) == [v, w] && rs[1..] == [Lower(u, w)];
    assert Join(rs, [0x2D]) == Lower(u, v) + [0x2D] + Lower(u, w);
  }

  // ---------- what a slug looks like, and slugging again ----------

  /** Every rune is a lowered letter or number, or a hyphen standing strictly between two of them. */
  ghost predicate SlugShape(u: Unicode, t: seq<Rune>)
  {
    && (forall i :: 0 <= i < |t| && t[i] != 0x2D ==> u.lat(t[i]) && u.lower(t[i]) == t[i])
    && (forall i :: 0 <= i < |t| && t[i] == 0x2D ==> 0 < i < |t| - 1 && t[i - 1] != 0x2D && t[i + 1] != 0x2D)
  }

  lemma {:induction false} JoinShape(u: Unicode, rs: seq<seq<Rune>>)
    requires u.Lawful()
    requires forall i :: 0 <= i < |rs| ==> IsRun(u, rs[i]) && Lower(u, rs[i]) == rs[i]
    ensures SlugShape(u, Join(rs, [HYPHEN]))
    ensures rs != [] ==> Join(rs, [HYPHEN]) != [] && Join(rs, [HYPHEN])[0] != HYPHEN
  {
    if |rs| == 1 {
      assert forall i :: 0 <= i < |rs[0]| ==> u.lat(rs[0][i]) && u.lower(rs[0][i]) == rs[0][i];
    } else if 1 < |rs| {
      var w, rest := rs[0], Join(rs[1..], [HYPHEN]);
      JoinShape(u, rs[1..]);
      var t := w + [HYPHEN] + rest;
      assert forall i :: 0 <= i < |w| ==> t[i] == w[i] && u.lat(w[i]) && u.lower(w[i]) == w[i];
      assert forall i :: |w| < i < |t| ==> t[i] == rest[i - |w| - 1];
    }
  }

  lemma LowerRunsAreRuns(u: Unicode, s: seq<Rune>)
    requires u.Lawful()
    ensures forall w :: w in LowerRuns(u, Runs(u, s)) ==> IsRun(u, w) && Lower(u, w) == w
  {
    var gaps := RunsDecompose(u, s);
    var rs := Runs(u, s);
    forall w | w in LowerRuns(u, rs) ensures IsRun(u, w) && Lower(u, w) == w {
      var i :| 0 <= i < |rs| && w == Lower(u, rs[i]);
      assert IsRun(u, rs[i]);
    }
  }

  /** No slug starts or ends with a hyphen or has two in a row. */
  lemma SlugHasShape(u: Unicode, s: seq<Rune>)
    requires u.Lawful()
    ensures SlugShape(u, SlugRunes(u, s))
  {
    LowerRunsAreRuns(u, Kept(u, s));
    JoinShape(u, LowerRuns(u, Runs(u, Kept(u, s))));
  }

  lemma {:induction false} KeptAll(u: Unicode, t: seq<Rune>)
    requires forall i :: 0 <= i < |t| ==> u.lat(t[i]) || !u.nop(t[i])
    ensures Kept(u, t) == t
  {
    if t != [] { KeptAll(u, t[1..]); }
  }

  /** The texts that slug to themselves are exactly those of slug shape. */
  lemma SlugFixedPoints(u: Unicode, t: seq<Rune>)
    requires u.Lawful()
    ensures SlugRunes(u, t) == t <==> SlugShape(u, t)
  {
    if SlugRunes(u, t) == t {
      SlugHasShape(u, t);
    }
    if SlugShape(u, t) {
      EmitShape(u, t, false);
      EmitMeaning(u, t, false);
    }
  }

  lemma {:induction false} EmitShape(u: Unicode, t: seq<Rune>, dash: bool)
    requires u.Lawful()
    requires forall i :: 0 <= i < |t| && t[i] != HYPHEN ==> u.lat(t[i]) && u.lower(t[i]) == t[i]
    requires forall i :: 0 <= i < |t| - 1 && t[i] == HYPHEN ==> t[i + 1] != HYPHEN
    requires !dash && t != [] ==> t[0] != HYPHEN
    ensures Emit(u, t, dash) == t
  {
    if t != [] {
      EmitShape(u, t[1..], t[0] != HYPHEN);
      assert t == [t[0]] + t[1..];
    }
  }

  /** A slug has the lower-cased runs of the text it came from, in order, and no others. */
  lemma SlugKeepsRuns(u: Unicode, s: seq<Rune>)
    requires u.Lawful()
    ensures Runs(u, SlugRunes(u, s)) == LowerRuns(u, Runs(u, Kept(u, s)))
  {
    LowerRunsAreRuns(u, Kept(u, s));
    RunsOfJoin(u, LowerRuns(u, Runs(u, Kept(u, s))));
  }

  /** Two texts share a slug exactly when they have the same runs up to case. */
  lemma SlugsAgreeExactlyWhen(u: Unicode, s: seq<Rune>, t: seq<Rune>)
    requires u.Lawful()
    ensures SlugRunes(u, s) == SlugRunes(u, t) <==>
      LowerRuns(u, Runs(u, Kept(u, s))) == LowerRuns(u, Runs(u, Kept(u, t)))
  {
    SlugKeepsRuns(u, s);
    SlugKeepsRuns(u, t);
  }

  /** The loop writes hyphens and lowered letters and numbers of its text. */
  lemma {:induction false} EmitRunes(u: Unicode, s: seq<Rune>, dash: bool, x: Rune)
    requires x in Emit(u, s, dash)
    ensures x == HYPHEN || exists r :: r in s && u.lat(r) && x == u.lower(r)
  {
    if u.lat(s[0]) {
      if x != u.lower(s[0]) { EmitRunes(u, s[1..], true, x); }
    } else if u.nop(s[0]) {
      EmitRunes(u, s[1..], dash, x);
    } else if x != HYPHEN {
      EmitRunes(u, s[1..], false, x);
    }
  }

  /** Slug of a slug is that slug, for all texts. */
  lemma SlugTwice(u: Unicode, text: seq<Rune>)
    requires u.Lawful() && u.Stable()
    ensures var t := SlugRunes(u, u.nfkd(text)); SlugRunes(u, u.nfkd(t)) == t
  {
    var s := u.nfkd(text);
    var t := SlugRunes(u, s);
    EmitMeaning(u, s, false);
    forall x | x in t ensures (u.lat(x) || x == HYPHEN) && u.Settled(x) {
      EmitRunes(u, s, false, x);
      assert u.nfkd([HYPHEN]) == [HYPHEN];
    }
    SlugIdempotent(u, s);
  }

  /** Slugging is idempotent on decomposed text. */
  lemma SlugIdempotent(u: Unicode, s: seq<Rune>)
    requires u.Lawful()
    ensures SlugRunes(u, SlugRunes(u, s)) == SlugRunes(u, s)
  {
    SlugHasShape(u, s);
    SlugFixedPoints(u, SlugRunes(u, s));
  }
}
