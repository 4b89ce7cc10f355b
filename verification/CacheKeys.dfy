/** The keys under which identities, profiles and path parameters are stored. */
module CacheKeys {
  /** tap.GenerateSSOKey. */
  function SSOKey(userId: string, provider: string): string
  {
    userId + "@" + provider + ".com"
  }

  /** The token-cache key of an identity under a profile. */
  function IdWithProfile(profileId: string, userId: string, provider: string): string
  {
    profileId + "-" + SSOKey(userId, provider)
  }

  /** Profile.GetPrefix. */
  function Prefix(orgId: string, profileId: string): string
  {
    orgId + "-" + profileId
  }

  /** For instance, user "bob" of "github" under profile "p", and profile "p" of organisation "org". */
  lemma KeysAsWritten()
    ensures IdWithProfile("p", "bob", "github") == "p-bob@github.com"
    ensures SSOKey("bob", "github") == "bob@github.com"
    ensures Prefix("org", "p") == "org-p"
  {
  }

  // ---------- when two keys can be the same ----------

  /** `b` continues `a` after the mark `c`. */
  ghost predicate Continues(a: string, c: char, b: string)
  {
    |a| < |b| && b[..|a|] == a && b[|a|] == c
  }

  /** `b` ends in `a`, just after the mark `c`. */
  ghost predicate Ends(a: string, c: char, b: string)
  {
    |a| < |b| && b[|b| - |a|..] == a && b[|b| - |a| - 1] == c
  }

  /** Equal texts that start with a head and a mark: the heads are equal or one continues the other. */
  lemma HeadsMeet(a: string, x: string, b: string, y: string, c: char)
    requires a + [c] + x == b + [c] + y
    ensures a == b || Continues(a, c, b) || Continues(b, c, a)
  {
    var s, t := a + [c] + x, b + [c] + y;
    assert s[..|a|] == a && s[|a|] == c && t[..|b|] == b && t[|b|] == c;
    if |a| < |b| {
      assert b[..|a|] == t[..|a|] && b[|a|] == t[|a|];
    } else if |b| < |a| {
      assert a[..|b|] == s[..|b|] && a[|b|] == s[|b|];
    }
  }

  /** Equal texts that end with a mark and a tail: the tails are equal or one ends in the other. */
  lemma TailsMeet(x: string, a: string, y: string, b: string, c: char)
    requires x + [c] + a == y + [c] + b
    ensures a == b || Ends(a, c, b) || Ends(b, c, a)
  {
    var s, t := x + [c] + a, y + [c] + b;
    var n := |s|;
    assert s[n - |a|..] == a && s[n - |a| - 1] == c && t[n - |b|..] == b && t[n - |b| - 1] == c;
    if |a| < |b| {
      assert b[|b| - |a|..] == t[n - |a|..] && b[|b| - |a| - 1] == t[n - |a| - 1];
    } else if |b| < |a| {
      assert a[|a| - |b|..] == s[n - |b|..] && a[|a| - |b| - 1] == s[n - |b| - 1];
    }
  }

  ghost predicate HeadsRelated(p: string, q: string)
  {
    p == q || Continues(p, '-', q) || Continues(q, '-', p)
  }

  ghost predicate TailsRelated(v: string, x: string)
  {
    v == x || Ends(v, '@', x) || Ends(x, '@', v)
  }

  ghost predicate SameKey(p: string, u: string, v: string, q: string, w: string, x: string)
  {
    IdWithProfile(p, u, v) == IdWithProfile(q, w, x)
  }

  lemma StripSuffix(a: string, b: string, suffix: string)
    requires a + suffix == b + suffix
    ensures a == b
  {
    assert (a + suffix)[..|a|] == a && (b + suffix)[..|b|] == b;
  }

  lemma KeyCore(p: string, u: string, v: string, q: string, w: string, x: string)
    ensures SameKey(p, u, v, q, w, x) <==> p + ['-'] + (u + ['@'] + v) == q + ['-'] + (w + ['@'] + x)
  {
    var a, b := p + ['-'] + (u + ['@'] + v), q + ['-'] + (w + ['@'] + x);
    assert IdWithProfile(p, u, v) == a + ".com" && IdWithProfile(q, w, x) == b + ".com";
    if SameKey(p, u, v, q, w, x) { StripSuffix(a, b, ".com"); }
  }

  /** Keys of one profile and one provider tell users apart, whatever their IDs contain. */
  lemma KeysTellUsersApart(p: string, u: string, w: string, v: string)
    requires SameKey(p, u, v, p, w, v)
    ensures u == w
  {
    KeyCore(p, u, v, p, w, v);
    var s, t := p + ['-'] + (u + ['@'] + v), p + ['-'] + (w + ['@'] + v);
    assert s[|p| + 1..] == u + ['@'] + v && t[|p| + 1..] == w + ['@'] + v;
    assert u + ['@'] + v == u + (['@'] + v) && w + ['@'] + v == w + (['@'] + v);
    StripSuffix(u, w, ['@'] + v);
  }

  lemma KeysMeetOnlyIf(p: string, u: string, v: string, q: string, w: string, x: string)
    requires SameKey(p, u, v, q, w, x)
    ensures HeadsRelated(p, q) && TailsRelated(v, x)
  {
    KeyCore(p, u, v, q, w, x);
    HeadsMeet(p, u + ['@'] + v, q, w + ['@'] + x, '-');
    assert p + ['-'] + (u + ['@'] + v) == (p + ['-'] + u) + ['@'] + v;
    assert q + ['-'] + (w + ['@'] + x) == (q + ['-'] + w) + ['@'] + x;
    TailsMeet(p + ['-'] + u, v, q + ['-'] + w, x, '@');
  }

  lemma ContinuesSplit(a: string, c: char, b: string) returns (w: string)
    requires Continues(a, c, b)
    ensures b == a + [c] + w
  {
    w := b[|a| + 1..];
  }

  lemma EndsSplit(a: string, c: char, b: string) returns (z: string)
    requires Ends(a, c, b)
    ensures b == z + [c] + a
  {
    z := b[..|b| - |a| - 1];
  }

  /** Users for whom a text after the profile mark reads the same under both providers. */
  lemma TailUsers(head: string, v: string, x: string) returns (u: string, w: string)
    requires TailsRelated(v, x)
    ensures u + ['@'] + v == head + w + ['@'] + x
  {
    if v == x {
      u, w := head, "";
      assert head + w == head;
    } else if Ends(v, '@', x) {
      var z := EndsSplit(v, '@', x);
      u, w := head + ['@'] + z, "";
      assert head + w == head && head + ['@'] + z + ['@'] + v == head + ['@'] + (z + ['@'] + v);
    } else {
      var z := EndsSplit(x, '@', v);
      u, w := head, ['@'] + z;
      assert head + ['@'] + (z + ['@'] + x) == head + (['@'] + z) + ['@'] + x;
    }
  }

  lemma KeysMeetIf(p: string, v: string, q: string, x: string)
    requires (p == q || Continues(p, '-', q)) && TailsRelated(v, x)
    ensures exists u, w :: SameKey(p, u, v, q, w, x)
  {
    var u, w;
    if p == q {
      u, w := TailUsers("", v, x);
      assert "" + w == w;
    } else {
      var r := ContinuesSplit(p, '-', q);
      u, w := TailUsers(r + ['-'], v, x);
      assert p + ['-'] + (r + ['-'] + w + ['@'] + x) == (p + ['-'] + r) + ['-'] + (w + ['@'] + x);
    }
    KeyCore(p, u, v, q, w, x);
    assert SameKey(p, u, v, q, w, x);
  }

  /**
   * Some two users of two profile/provider pairs share a cache key exactly when the profile IDs are
   * equal or one continues the other after a '-', and the providers are equal or one ends in the other
   * after an '@'.
   */
  lemma KeysMeetExactlyWhen(p: string, v: string, q: string, x: string)
    ensures (exists u, w :: SameKey(p, u, v, q, w, x)) <==> HeadsRelated(p, q) && TailsRelated(v, x)
  {
    if u, w :| SameKey(p, u, v, q, w, x) {
      KeysMeetOnlyIf(p, u, v, q, w, x);
    }
    if HeadsRelated(p, q) && TailsRelated(v, x) {
      if p == q || Continues(p, '-', q) {
        KeysMeetIf(p, v, q, x);
      } else {
        KeysMeetIf(q, x, p, v);
        var w, u :| SameKey(q, w, x, p, u, v);
        assert SameKey(p, u, v, q, w, x);
      }
    }
  }

  /** With no '-' in profile IDs and no '@' in providers, a key determines the whole identity. */
  lemma KeysInjective(p: string, u: string, v: string, q: string, w: string, x: string)
    requires '-' !in p && '-' !in q && '@' !in v && '@' !in x
    requires SameKey(p, u, v, q, w, x)
    ensures p == q && u == w && v == x
  {
    KeysMeetOnlyIf(p, u, v, q, w, x);
    KeysTellUsersApart(p, u, w, v);
  }

  /** Path-parameter keys of two profiles can meet only if one organisation ID continues the other. */
  lemma PrefixesMeetOnlyIf(o: string, p: string, n: string, q: string)
    requires Prefix(o, p) == Prefix(n, q)
    ensures (o == n && p == q) || Continues(o, '-', n) || Continues(n, '-', o)
  {
    HeadsMeet(o, p, n, q, '-');
    if o == n {
      assert Prefix(o, p)[|o| + 1..] == p && Prefix(n, q)[|o| + 1..] == q;
    }
  }

  /** Two organisations have a path-parameter key in common exactly when one continues the other after a '-'. */
  lemma PrefixesMeetExactlyWhen(o: string, n: string)
    ensures (exists p, q :: Prefix(o, p) == Prefix(n, q)) <==> o == n || Continues(o, '-', n) || Continues(n, '-', o)
  {
    if p, q :| Prefix(o, p) == Prefix(n, q) {
      PrefixesMeetOnlyIf(o, p, n, q);
    }
    if o == n {
      assert Prefix(o, "") == Prefix(n, "");
    } else if Continues(o, '-', n) {
      PrefixContinued(o, n);
    } else if Continues(n, '-', o) {
      PrefixContinued(n, o);
    }
  }

  lemma PrefixContinued(o: string, n: string)
    requires Continues(o, '-', n)
    ensures exists p :: Prefix(o, p) == Prefix(n, "")
  {
    var w := ContinuesSplit(o, '-', n);
    assert Prefix(o, w + ['-']) == Prefix(n, "");
  }

  lemma PrefixesInjective(o: string, p: string, n: string, q: string)
    requires '-' !in o && '-' !in n && Prefix(o, p) == Prefix(n, q)
    ensures o == n && p == q
  {
    PrefixesMeetOnlyIf(o, p, n, q);
  }
}
