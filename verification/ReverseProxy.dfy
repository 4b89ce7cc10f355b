/** The reverse proxy's treatment of request headers: a shared map that is copied only if it must change. */
module ReverseProxy {
  import opened Wrappers
  import opened Sequences

  type Values = map<string, seq<string>>

  const HOP_HEADERS: seq<string> := [
    "Connection", "Keep-Alive", "Proxy-Authenticate", "Proxy-Authorization",
    "Te", "Trailers", "Transfer-Encoding", "Upgrade"]

  const FORWARDED := "X-Forwarded-For"

  function All(m: Values, k: string): seq<string>
  {
    if k in m then m[k] else []
  }

  /** Header.Get of a canonical key: the first value, or "". */
  function Get(m: Values, k: string): string
  {
    if All(m, k) == [] then "" else m[k][0]
  }

  /** Keys as Go's server delivers them; `canon` is textproto.CanonicalMIMEHeaderKey. */
  predicate Canonical(canon: string -> string, m: Values)
  {
    forall k :: k in m ==> canon(k) == k
  }

  /** `s` added to `d`, key by key and in order. */
  function Merged(d: Values, s: Values): Values
  {
    map k | k in d.Keys + s.Keys && (k in d || s[k] != []) :: All(d, k) + All(s, k)
  }

  /** http.Header: a map that requests share by reference. */
  class Header {
    var m: Values

    constructor ()
      ensures m == map[]
    {
      m := map[];
    }

    method Add(canon: string -> string, k: string, v: string)
      modifies this
      ensures m == old(m)[canon(k) := All(old(m), canon(k)) + [v]]
    {
      m := m[canon(k) := All(m, canon(k)) + [v]];
    }

    method Del(k: string)
      modifies this
      ensures m == old(m) - {k}
    {
      m := m - {k};
    }

    method Set(k: string, v: string)
      modifies this
      ensures m == old(m)[k := [v]]
    {
      m := m[k := [v]];
    }
  }

  /** The inner loop of copyHeader: the values of one key, in order. */
  method AddAll(canon: string -> string, dst: Header, k: string, vv: seq<string>)
    modifies dst
    ensures dst.m == Appended(old(dst.m), canon(k), vv)
  {
    for j := 0 to |vv|
      invariant dst.m == Appended(old(dst.m), canon(k), vv[..j])
    {
      assert vv[..j + 1] == vv[..j] + [vv[j]];
      AppendedSnoc(old(dst.m), canon(k), vv[..j], vv[j]);
      dst.Add(canon, k, vv[j]);
    }
    assert vv[..|vv|] == vv;
  }

  /** `order` lists the keys of `m`, each once: the order in which its map happens to be walked. */
  ghost predicate Walks(order: seq<string>, m: Values)
  {
    && (forall k :: k in order <==> k in m)
    && (forall i, j :: 0 <= i < j < |order| ==> order[i] != order[j])
  }

  /** The values of the keys in `order` added to `d`, one key after the other, under their canonical keys. */
  function Added(canon: string -> string, d: Values, s: Values, order: seq<string>): Values
    requires forall k :: k in order ==> k in s
  {
    if order == [] then d
    else
      var n := |order| - 1;
      Appended(Added(canon, d, s, order[..n]), canon(order[n]), s[order[n]])
  }

  /** copyHeader, walking the source in whatever order its map gives. */
  method CopyHeader(canon: string -> string, dst: Header, src: Header) returns (ghost order: seq<string>)
    requires dst != src
    modifies dst
    ensures Walks(order, src.m) && dst.m == Added(canon, old(dst.m), src.m, order)
    ensures Canonical(canon, src.m) ==> dst.m == Merged(old(dst.m), src.m)
  {
    var left := src.m.Keys;
    order := [];
    while left != {}
      invariant left <= src.m.Keys
      invariant Walks(order, src.m - left)
      invariant dst.m == Added(canon, old(dst.m), src.m, order)
      decreases left
    {
      var k :| k in left;
      AddAll(canon, dst, k, src.m[k]);
      assert k !in order && (order + [k])[..|order|] == order;
      order := order + [k];
      left := left - {k};
    }
    assert src.m - {} == src.m;
    if Canonical(canon, src.m) {
      AddedIsMerged(canon, old(dst.m), src.m, order);
    }
  }

  /** The part of `s` under the keys in `order`. */
  function Part(s: Values, order: seq<string>): Values
  {
    map k | k in s && k in order :: s[k]
  }

  /** With canonical keys the order does not matter. */
  lemma {:induction false} AddedArePart(canon: string -> string, d: Values, s: Values, order: seq<string>)
    requires Canonical(canon, s) && forall k :: k in order ==> k in s
    requires forall i, j :: 0 <= i < j < |order| ==> order[i] != order[j]
    ensures Added(canon, d, s, order) == Merged(d, Part(s, order))
  {
    if order == [] {
      MergedNothing(d);
      assert Part(s, order) == map[];
    } else {
      var n := |order| - 1;
      var k := order[n];
      AddedArePart(canon, d, s, order[..n]);
      assert k !in order[..n];
      assert Part(s, order) == Part(s, order[..n])[k := s[k]];
      MergedSnoc(d, Part(s, order[..n]), k, s[k]);
    }
  }

  lemma AddedIsMerged(canon: string -> string, d: Values, s: Values, order: seq<string>)
    requires Canonical(canon, s) && Walks(order, s)
    ensures Added(canon, d, s, order) == Merged(d, s)
  {
    AddedArePart(canon, d, s, order);
    assert Part(s, order) == s;
  }

  /** The values of all keys with this canonical form, in the order of the walk. */
  function Gathered(canon: string -> string, s: Values, order: seq<string>, k: string): seq<string>
    requires forall o :: o in order ==> o in s
  {
    if order == [] then []
    else
      var n := |order| - 1;
      Gathered(canon, s, order[..n], k) + if canon(order[n]) == k then s[order[n]] else []
  }

  /** What a copy into an empty header holds under a key. */
  lemma {:induction false} CopyGathers(canon: string -> string, s: Values, order: seq<string>, k: string)
    requires forall o :: o in order ==> o in s
    ensures All(Added(canon, map[], s, order), k) == Gathered(canon, s, order, k)
  {
    if order != [] {
      var n := |order| - 1;
      CopyGathers(canon, s, order[..n], k);
      assert Gathered(canon, s, order[..n], k) + [] == Gathered(canon, s, order[..n], k);
    }
  }

  /** `m` with more values for one key. */
  function Appended(m: Values, k: string, vv: seq<string>): Values
  {
    if vv == [] then m else m[k := All(m, k) + vv]
  }

  lemma AppendedSnoc(m: Values, k: string, vv: seq<string>, v: string)
    ensures var a := Appended(m, k, vv); a[k := All(a, k) + [v]] == Appended(m, k, vv + [v])
  {
    assert All(m, k) + vv + [v] == All(m, k) + (vv + [v]);
    assert vv == [] ==> vv + [v] == [v];
  }

  lemma MergedNothing(d: Values)
    ensures Merged(d, map[]) == d
  {
    forall k | k in d ensures All(d, k) + [] == d[k] { }
  }

  lemma MergedSnoc(d: Values, s: Values, k: string, vv: seq<string>)
    requires k !in s
    ensures Appended(Merged(d, s), k, vv) == Merged(d, s[k := vv])
  {
    var a, b := Appended(Merged(d, s), k, vv), Merged(d, s[k := vv]);
    assert All(Merged(d, s), k) == All(d, k) by {
      assert All(d, k) + [] == All(d, k);
    }
    forall x ensures (x in a <==> x in b) && (x in a ==> a[x] == b[x]) {
      if x != k {
        assert All(s, x) == All(s[k := vv], x);
      } else {
        assert All(s[k := vv], k) == vv && All(d, k) + [] == All(d, k);
      }
    }
  }

  // ---------- hop-by-hop headers ----------

  /** The hop headers that Get finds. */
  function Visible(m: Values, n: nat): set<string>
    requires n <= |HOP_HEADERS|
  {
    set i | 0 <= i < n && Get(m, HOP_HEADERS[i]) != "" :: HOP_HEADERS[i]
  }

  function AllVisible(m: Values): set<string>
  {
    Visible(m, |HOP_HEADERS|)
  }

  /** The headers sent on: the shared map itself if no hop header is visible, else a copy without those. */
  function Scrubbed(m: Values): Values
  {
    if AllVisible(m) == {} then m else Merged(map[], m) - AllVisible(m)
  }

  /** The first hop header from `i` on that Get finds; their number if there is none. */
  function FirstFrom(m: Values, i: nat): (first: nat)
    requires i <= |HOP_HEADERS|
    ensures i <= first <= |HOP_HEADERS|
    ensures forall j :: i <= j < first ==> Get(m, HOP_HEADERS[j]) == ""
    ensures first < |HOP_HEADERS| ==> Get(m, HOP_HEADERS[first]) != ""
    decreases |HOP_HEADERS| - i
  {
    if i == |HOP_HEADERS| || Get(m, HOP_HEADERS[i]) != "" then i else FirstFrom(m, i + 1)
  }

  /** The hop headers taken out of the copy `c`: the one that caused it, and those found in it later. */
  function Removed(m: Values, c: Values, n: nat): set<string>
    requires n <= |HOP_HEADERS|
  {
    set i | FirstFrom(m, 0) <= i < n && (i == FirstFrom(m, 0) || Get(c, HOP_HEADERS[i]) != "") :: HOP_HEADERS[i]
  }

  /** The headers sent on, if a copy of `m` would be `c`. */
  function ScrubbedVia(m: Values, c: Values): Values
  {
    if FirstFrom(m, 0) == |HOP_HEADERS| then m else c - Removed(m, c, |HOP_HEADERS|)
  }

  lemma RemovedSnoc(m: Values, c: Values, i: nat)
    requires i < |HOP_HEADERS| && FirstFrom(m, 0) <= i
    ensures Removed(m, c, i + 1) ==
      Removed(m, c, i) + if i == FirstFrom(m, 0) || Get(c, HOP_HEADERS[i]) != "" then {HOP_HEADERS[i]} else {}
    ensures HOP_HEADERS[i] !in Removed(m, c, i)
    ensures Get(c - Removed(m, c, i), HOP_HEADERS[i]) == Get(c, HOP_HEADERS[i])
  {
    HopsDistinct(i);
    assert forall j :: 0 <= j < i ==> HOP_HEADERS[..i][j] == HOP_HEADERS[j];
  }

  /** A hop header that was found is dropped from a copy, which is made unless there is one already. */
  method DropHop(canon: string -> string, header: Header, out: Header, copiedHeaders: bool, h: string)
    returns (out': Header, ghost order: seq<string>)
    requires copiedHeaders <==> out != header
    modifies if copiedHeaders then {out} else {}
    ensures copiedHeaders ==> out' == out && out'.m == old(out.m) - {h}
    ensures !copiedHeaders ==> fresh(out') && Walks(order, header.m)
    ensures !copiedHeaders ==> out'.m == Added(canon, map[], header.m, order) - {h}
  {
    out', order := out, [];
    if !copiedHeaders {
      out' := new Header();
      order := CopyHeader(canon, out', header);
    }
    out'.Del(h);
  }

  /** The headers after the first `i` hop headers have been looked at. */
  function ScrubbedUpTo(m: Values, c: Values, i: nat): Values
    requires i <= |HOP_HEADERS|
  {
    if FirstFrom(m, 0) < i then c - Removed(m, c, i) else m
  }

  /** Looking at one more: if it is found, it is dropped, from a copy. */
  lemma ScrubStep(m: Values, c: Values, i: nat)
    requires i < |HOP_HEADERS|
    ensures var h, now := HOP_HEADERS[i], ScrubbedUpTo(m, c, i);
      && (Get(now, h) != "" ==> FirstFrom(m, 0) <= i)
      && (FirstFrom(m, 0) == i ==> Get(now, h) != "")
      && ScrubbedUpTo(m, c, i + 1) ==
         if Get(now, h) == "" then now else (if FirstFrom(m, 0) < i then now else c) - {h}
  {
    if FirstFrom(m, 0) < i {
      ScrubLater(m, c, i);
    } else if FirstFrom(m, 0) == i {
      RemovedSnoc(m, c, i);
      assert Removed(m, c, i) == {};
    }
  }

  lemma ScrubLater(m: Values, c: Values, i: nat)
    requires FirstFrom(m, 0) < i < |HOP_HEADERS|
    ensures var h, now := HOP_HEADERS[i], c - Removed(m, c, i);
      c - Removed(m, c, i + 1) == if Get(now, h) == "" then now else now - {h}
  {
    RemovedSnoc(m, c, i);
  }

  /** `out` is what is to be sent on after the first `i` hop headers have been looked at. */
  ghost predicate ScrubbedSoFar(
    canon: string -> string, header: Header, out: Header, copiedHeaders: bool, order: seq<string>, i: nat)
    requires i <= |HOP_HEADERS|
    reads header, out
  {
    && (copiedHeaders <==> out != header)
    && (copiedHeaders <==> FirstFrom(header.m, 0) < i)
    && Walks(order, header.m)
    && out.m == ScrubbedUpTo(header.m, Added(canon, map[], header.m, order), i)
  }

  /** Looks at one hop header. */
  method ScrubHop(
    canon: string -> string, header: Header, out: Header, copiedHeaders: bool, i: nat, ghost order: seq<string>)
    returns (out': Header, copiedHeaders': bool, ghost order': seq<string>)
    requires i < |HOP_HEADERS| && ScrubbedSoFar(canon, header, out, copiedHeaders, order, i)
    modifies if copiedHeaders then {out} else {}
    ensures out' == out || fresh(out')
    ensures ScrubbedSoFar(canon, header, out', copiedHeaders', order', i + 1)
  {
    out', copiedHeaders', order' := out, copiedHeaders, order;
    ScrubStep(header.m, Added(canon, map[], header.m, order), i);
    if Get(out.m, HOP_HEADERS[i]) != "" {
      ghost var walk;
      out', walk := DropHop(canon, header, out, copiedHeaders, HOP_HEADERS[i]);
      if !copiedHeaders {
        order' := walk;
        ScrubStep(header.m, Added(canon, map[], header.m, walk), i);
      }
      copiedHeaders' := true;
    }
  }

  /** The hop-header loop of ServeHTTP: `header` is shared with the caller, `out` is what is sent on. */
  method ScrubHopHeaders(canon: string -> string, header: Header) returns (out: Header, ghost order: seq<string>)
    ensures out == header || fresh(out)
    ensures out == header <==> AllVisible(header.m) == {}
    ensures Walks(order, header.m) && out.m == ScrubbedVia(header.m, Added(canon, map[], header.m, order))
    ensures Canonical(canon, header.m) ==> out.m == Scrubbed(header.m)
  {
    out := header;
    order := SomeWalk(header.m.Keys);
    var copiedHeaders := false;
    for i := 0 to |HOP_HEADERS|
      invariant out == header || fresh(out)
      invariant ScrubbedSoFar(canon, header, out, copiedHeaders, order, i)
    {
      out, copiedHeaders, order := ScrubHop(canon, header, out, copiedHeaders, i, order);
    }
    ScrubMeans(canon, header.m, order);
  }

  lemma ScrubMeans(canon: string -> string, m: Values, order: seq<string>)
    requires Walks(order, m)
    ensures FirstFrom(m, 0) == |HOP_HEADERS| <==> AllVisible(m) == {}
    ensures Canonical(canon, m) ==> ScrubbedVia(m, Added(canon, map[], m, order)) == Scrubbed(m)
  {
    FirstIsVisible(m);
    if Canonical(canon, m) { ViaCanonical(canon, m, order); }
  }

  lemma {:induction false} SomeWalk(keys: set<string>) returns (order: seq<string>)
    ensures forall k :: k in order <==> k in keys
    ensures forall i, j :: 0 <= i < j < |order| ==> order[i] != order[j]
    decreases keys
  {
    if keys == {} {
      order := [];
    } else {
      var k :| k in keys;
      var rest := SomeWalk(keys - {k});
      order := rest + [k];
    }
  }

  lemma FirstIsVisible(m: Values)
    ensures FirstFrom(m, 0) == |HOP_HEADERS| <==> AllVisible(m) == {}
  {
    var first := FirstFrom(m, 0);
    if first < |HOP_HEADERS| {
      assert HOP_HEADERS[first] in AllVisible(m);
    }
  }

  lemma GetMerged(m: Values, k: string)
    ensures Get(Merged(map[], m), k) == Get(m, k)
  {
    assert [] + All(m, k) == All(m, k);
  }

  lemma RemovedMerged(m: Values)
    ensures Removed(m, Merged(map[], m), |HOP_HEADERS|) == AllVisible(m)
  {
    var c, n := Merged(map[], m), |HOP_HEADERS|;
    forall i | 0 <= i < n
      ensures Get(m, HOP_HEADERS[i]) != "" <==>
        FirstFrom(m, 0) <= i && (i == FirstFrom(m, 0) || Get(c, HOP_HEADERS[i]) != "")
    {
      GetMerged(m, HOP_HEADERS[i]);
    }
  }

  /** With canonical keys the copy shows what the shared map shows, in whatever order it was made. */
  lemma ViaCanonical(canon: string -> string, m: Values, order: seq<string>)
    requires Canonical(canon, m) && Walks(order, m)
    ensures ScrubbedVia(m, Added(canon, map[], m, order)) == Scrubbed(m)
  {
    AddedIsMerged(canon, map[], m, order);
    FirstIsVisible(m);
    RemovedMerged(m);
  }

  /**
   * Whatever the keys: a hop header can still be got from what is sent on exactly if it only came up in the
   * copy, from a key not in canonical form, after it had been looked for.
   */
  lemma HopGetsThroughExactlyWhen(m: Values, c: Values, i: nat)
    requires i < |HOP_HEADERS|
    ensures Get(ScrubbedVia(m, c), HOP_HEADERS[i]) != "" <==>
      AllVisible(m) != {} && Get(c, HOP_HEADERS[i]) != "" && forall j :: 0 <= j <= i ==> Get(m, HOP_HEADERS[j]) == ""
  {
    var first, n := FirstFrom(m, 0), |HOP_HEADERS|;
    FirstIsVisible(m);
    if first < n && i < first {
      HopNotRemoved(m, c, i);
    } else if first < n && Get(c, HOP_HEADERS[i]) != "" {
      assert HOP_HEADERS[i] in Removed(m, c, n);
    }
  }

  lemma HopNotRemoved(m: Values, c: Values, i: nat)
    requires i < FirstFrom(m, 0)
    ensures HOP_HEADERS[i] !in Removed(m, c, |HOP_HEADERS|)
  {
    forall j | i < j < |HOP_HEADERS| ensures HOP_HEADERS[j] != HOP_HEADERS[i] {
      HopsDistinct(j);
      assert HOP_HEADERS[..j][i] == HOP_HEADERS[i];
    }
  }

  /** Every other header is as in the shared map, or as the copy gathered it. */
  lemma OthersGetThrough(m: Values, c: Values, k: string)
    requires k !in HOP_HEADERS
    ensures All(ScrubbedVia(m, c), k) == All(if AllVisible(m) == {} then m else c, k)
  {
    FirstIsVisible(m);
  }

  lemma HopsDistinct(i: nat)
    requires i < |HOP_HEADERS|
    ensures HOP_HEADERS[i] !in HOP_HEADERS[..i]
  {
    assert HOP_HEADERS[0] == "Connection";
    assert |HOP_HEADERS[0]| == 10 && |HOP_HEADERS[1]| == 10 && |HOP_HEADERS[2]| == 18 && |HOP_HEADERS[3]| == 19;
    assert |HOP_HEADERS[4]| == 2 && |HOP_HEADERS[5]| == 8 && |HOP_HEADERS[6]| == 17 && |HOP_HEADERS[7]| == 7;
    assert HOP_HEADERS[0][0] == 'C' && HOP_HEADERS[1][0] == 'K';
    assert forall j, k :: 0 <= j < k < 8 ==> HOP_HEADERS[j] != HOP_HEADERS[k];
  }

  /** No hop header can be got from what is sent on; every other header keeps its values, in order. */
  lemma ScrubbedIsClean(m: Values, h: string)
    ensures h in HOP_HEADERS ==> Get(Scrubbed(m), h) == ""
    ensures h !in HOP_HEADERS ==> All(Scrubbed(m), h) == All(m, h)
  {
    assert [] + All(m, h) == All(m, h);
    if h in HOP_HEADERS {
      var i :| 0 <= i < |HOP_HEADERS| && HOP_HEADERS[i] == h;
      assert Get(m, h) != "" ==> h in AllVisible(m);
    }
  }

  /** A hop header stays in the map exactly when its first value is empty, or it has none and nothing was copied. */
  lemma HopRemainsExactlyWhen(m: Values, h: string)
    requires h in HOP_HEADERS
    ensures h in Scrubbed(m) <==> h in m && Get(m, h) == "" && (m[h] != [] || AllVisible(m) == {})
  {
    var i :| 0 <= i < |HOP_HEADERS| && HOP_HEADERS[i] == h;
    assert Get(m, h) != "" <==> h in AllVisible(m);
  }

  // ---------- X-Forwarded-For ----------

  function Forwarded(m: Values, clientIP: Option<string>): Values
  {
    match clientIP
    case None => m
    case Some(ip) =>
      m[FORWARDED := [if FORWARDED in m then Join(m[FORWARDED], ", ") + ", " + ip else ip]]
  }

  /** The header part of ServeHTTP; `clientIP` is None when the remote address does not split. */
  method PrepareHeaders(canon: string -> string, header: Header, clientIP: Option<string>)
    returns (out: Header, ghost order: seq<string>)
    modifies header
    ensures out == header || fresh(out)
    ensures old(Canonical(canon, header.m)) ==> out.m == Forwarded(Scrubbed(old(header.m)), clientIP)
    ensures header.m == if out == header then Forwarded(old(header.m), clientIP) else old(header.m)
    ensures out == header <==> AllVisible(old(header.m)) == {}
    ensures Walks(order, old(header.m))
    ensures out.m ==
      Forwarded(ScrubbedVia(old(header.m), Added(canon, map[], old(header.m), order)), clientIP)
  {
    out, order := ScrubHopHeaders(canon, header);
    match clientIP
    case None =>
    case Some(ip) =>
      var chain := ip;
      if FORWARDED in out.m {
        chain := Join(out.m[FORWARDED], ", ") + ", " + ip;
      }
      out.Set(FORWARDED, chain);
  }

  /** The client is put at the end of the chain of forwarders, folded into one value. */
  lemma ForwardedAppends(m: Values, ip: string)
    ensures All(Forwarded(m, Some(ip)), FORWARDED) ==
      if FORWARDED !in m then [ip]
      else if m[FORWARDED] == [] then [", " + ip]
      else [Join(m[FORWARDED] + [ip], ", ")]
    ensures forall k :: k != FORWARDED ==> All(Forwarded(m, Some(ip)), k) == All(m, k)
    ensures Forwarded(m, None) == m && FORWARDED == "X-Forwarded-For"
  {
    if FORWARDED in m {
      if m[FORWARDED] == [] {
        assert Join<char>([], ", ") + ", " + ip == ", " + ip;
      } else {
        JoinConcat(m[FORWARDED], [ip], ", ");
        Assoc(Join(m[FORWARDED], ", "), ", ", ip);
      }
    }
  }

  lemma ForwardedIsNoHop()
    ensures FORWARDED !in HOP_HEADERS
  {
    assert FORWARDED[0] == 'X';
    assert HOP_HEADERS[0][0] == 'C' && HOP_HEADERS[1][0] == 'K' && HOP_HEADERS[2][0] == 'P' && HOP_HEADERS[3][0] == 'P';
    assert HOP_HEADERS[4][0] == 'T' && HOP_HEADERS[5][0] == 'T' && HOP_HEADERS[6][0] == 'T' && HOP_HEADERS[7][0] == 'U';
  }

  /** The headers of section 13.5.1 of RFC 2616, as the proxy spells them. */
  lemma HopHeadersAre(h: string)
    ensures h in HOP_HEADERS <==>
      h in {"Connection", "Keep-Alive", "Proxy-Authenticate", "Proxy-Authorization",
        "Te", "Trailers", "Transfer-Encoding", "Upgrade"}
  {
  }

  /** What reaches the backend: no hop header, the prior chain with the client appended, all else untouched. */
  lemma BackendSees(m: Values, ip: string, h: string)
    ensures var sent := Forwarded(Scrubbed(m), Some(ip));
      && (h in HOP_HEADERS ==> Get(sent, h) == "")
      && (h !in HOP_HEADERS && h != FORWARDED ==> All(sent, h) == All(m, h))
      && (All(m, FORWARDED) != [] ==> sent[FORWARDED] == [Join(m[FORWARDED] + [ip], ", ")])
  {
    ScrubbedIsClean(m, h);
    ScrubbedIsClean(m, FORWARDED);
    ForwardedIsNoHop();
    ForwardedAppends(Scrubbed(m), ip);
  }
}
