/** Joining and splitting sequences the way Go's strings package does. */
module Sequences {
  /** strings.Join. */
  function Join<T>(parts: seq<seq<T>>, sep: seq<T>): (r: seq<T>)
  {
    if parts == [] then []
    else if |parts| == 1 then parts[0]
    else parts[0] + sep + Join(parts[1..], sep)
  }

  lemma Assoc<T>(x: seq<T>, y: seq<T>, z: seq<T>)
    ensures x + (y + z) == x + y + z
  {
  }

  /** Nothing before the first or after the last, and the separator in between. */
  lemma JoinOfTwo<T>(x: seq<T>, y: seq<T>, sep: seq<T>)
    ensures Join([], sep) == []
    ensures Join([x], sep) == x
    ensures Join([x, y], sep) == x + sep + y
  {
    assert [x, y][1..] == [y];
  }

  lemma JoinPrepend<T>(part: seq<T>, parts: seq<seq<T>>, sep: seq<T>)
    requires parts != []
    ensures Join([part] + parts, sep) == part + sep + Join(parts, sep)
  {
    assert ([part] + parts)[1..] == parts;
  }

  lemma {:induction false} JoinConcat<T>(a: seq<seq<T>>, b: seq<seq<T>>, sep: seq<T>)
    requires a != [] && b != []
    ensures Join(a + b, sep) == Join(a, sep) + (sep + Join(b, sep))
  {
    if |a| == 1 {
      assert (a + b)[1..] == b;
    } else {
      var x, y, z := a[0] + sep, Join(a[1..], sep), sep + Join(b, sep);
      calc {
        Join(a + b, sep);
        { assert a + b == [a[0]] + (a[1..] + b); JoinPrepend(a[0], a[1..] + b, sep); }
        x + Join(a[1..] + b, sep);
        { JoinConcat(a[1..], b, sep); }
        x + (y + z);
        (x + y) + z;
      }
    }
  }

  /** The images of a sequence, in order. */
  function Image<A, B>(f: A -> B, s: seq<A>): (r: seq<B>)
    ensures |r| == |s|
    ensures forall i :: 0 <= i < |s| ==> r[i] == f(s[i])
  {
    seq(|s|, i requires 0 <= i < |s| => f(s[i]))
  }

  lemma ImageConcat<A, B>(f: A -> B, a: seq<A>, b: seq<A>)
    ensures Image(f, a + b) == Image(f, a) + Image(f, b)
  {
  }

  function Flatten<T>(parts: seq<seq<T>>): (r: seq<T>)
  {
    if parts == [] then [] else parts[0] + Flatten(parts[1..])
  }

  lemma FlattenTwo<T>(x: seq<T>, y: seq<T>)
    ensures Flatten([x, y]) == x + y
  {
    assert [x, y][1..] == [y] && [y][1..] == [];
    assert Flatten([y]) == y + [] && y + [] == y;
  }

  /** `sep` occurs in `s` at index `i`. */
  predicate OccursAt<T(==)>(s: seq<T>, sep: seq<T>, i: nat)
  {
    i + |sep| <= |s| && s[i..i + |sep|] == sep
  }

  lemma OccursShift<T>(s: seq<T>, sep: seq<T>, k: int)
    requires s != [] && 0 <= k
    ensures 0 < k ==> (OccursAt(s, sep, k) <==> OccursAt(s[1..], sep, k - 1))
  {
  }

  /** strings.Index: the first occurrence of `sep` in `s`, or -1. */
  function Index<T(==)>(s: seq<T>, sep: seq<T>): (i: int)
    ensures -1 <= i && i + |sep| <= |s| + |sep|
    ensures 0 <= i ==> OccursAt(s, sep, i)
  {
    if OccursAt(s, sep, 0) then 0
    else if s == [] then -1
    else
      var j := Index(s[1..], sep);
      OccursShift(s, sep, j + 1);
      if j < 0 then -1 else j + 1
  }

  /** Index finds the first occurrence whenever there is one. */
  lemma {:induction false} IndexIsFirst<T>(s: seq<T>, sep: seq<T>, k: nat)
    requires OccursAt(s, sep, k)
    ensures 0 <= Index(s, sep) <= k
  {
    if !OccursAt(s, sep, 0) {
      OccursShift(s, sep, k);
      IndexIsFirst(s[1..], sep, k - 1);
    }
  }

  /** strings.Split for a non-empty separator. */
  function Split<T(==)>(s: seq<T>, sep: seq<T>): (parts: seq<seq<T>>)
    requires sep != []
    ensures parts != []
    decreases |s|
  {
    var i := Index(s, sep);
    if i < 0 then [s] else [s[..i]] + Split(s[i + |sep|..], sep)
  }

  lemma OccursElement<T>(s: seq<T>, c: T, k: nat)
    ensures OccursAt(s, [c], k) <==> k < |s| && s[k] == c
  {
    if k < |s| { assert s[k..k + 1] == [s[k]]; }
  }

  /** Splitting a text that has no separator in it gives the text back. */
  lemma SplitPlain<T>(s: seq<T>, c: T)
    requires c !in s
    ensures Split(s, [c]) == [s]
  {
    forall k: nat ensures !OccursAt(s, [c], k) { OccursElement(s, c, k); }
  }

  lemma {:induction false} IndexElement<T>(s: seq<T>, c: T, i: nat)
    requires i < |s| && s[i] == c && c !in s[..i]
    ensures Index(s, [c]) == i
  {
    OccursElement(s, c, 0);
    if 0 < i {
      assert s[..i][0] == s[0] && s[1..][..i - 1] == s[..i][1..];
      IndexElement(s[1..], c, i - 1);
    }
  }

  lemma SplitFirst<T>(s: seq<T>, c: T, i: nat)
    requires i < |s| && s[i] == c && c !in s[..i]
    ensures Split(s, [c]) == [s[..i]] + Split(s[i + 1..], [c])
  {
    IndexElement(s, c, i);
  }

  lemma {:induction false} FirstOccurrence<T>(s: seq<T>, c: T) returns (i: nat)
    requires c in s
    ensures i < |s| && s[i] == c && c !in s[..i]
  {
    i := 0;
    while s[i] != c
      invariant i < |s| && c !in s[..i] && c in s[i..]
      decreases |s| - i
    {
      assert s[..i + 1] == s[..i] + [s[i]] && s[i..] == [s[i]] + s[i + 1..];
      i := i + 1;
    }
  }

  lemma SplitStep<T>(a: seq<T>, c: T, b: seq<T>, j: nat)
    requires j < |a| && a[j] == c && c !in a[..j]
    ensures Split(a + [c] + b, [c]) == [a[..j]] + Split(a[j + 1..] + [c] + b, [c])
  {
    var s := a + [c] + b;
    assert s[..j] == a[..j] && s[j] == c;
    assert s[j + 1..] == a[j + 1..] + [c] + b;
    SplitFirst(s, c, j);
  }

  lemma SplitAfterPlain<T>(a: seq<T>, c: T, b: seq<T>)
    requires c !in a
    ensures Split(a + [c] + b, [c]) == [a] + Split(b, [c])
  {
    var s := a + [c] + b;
    assert s[..|a|] == a && s[|a|] == c && s[|a| + 1..] == b;
    SplitFirst(s, c, |a|);
  }

  /** One-element separators: splitting distributes over a separator between two texts. */
  lemma {:induction false} SplitAtSeparator<T>(a: seq<T>, c: T, b: seq<T>)
    ensures Split(a + [c] + b, [c]) == Split(a, [c]) + Split(b, [c])
    decreases |a|
  {
    if c !in a {
      SplitPlain(a, c);
      SplitAfterPlain(a, c, b);
    } else {
      var j := FirstOccurrence(a, c);
      SplitAtSeparator(a[j + 1..], c, b);
      SplitStep(a, c, b, j);
      SplitFirst(a, c, j);
      Assoc([a[..j]], Split(a[j + 1..], [c]), Split(b, [c]));
    }
  }

  /** Joining what was split gives the text back. */
  lemma {:induction false} JoinSplit<T>(s: seq<T>, sep: seq<T>)
    requires sep != []
    ensures Join(Split(s, sep), sep) == s
    decreases |s|
  {
    var i := Index(s, sep);
    if 0 <= i {
      var rest := s[i + |sep|..];
      JoinSplit(rest, sep);
      JoinPrepend(s[..i], Split(rest, sep), sep);
      assert s == s[..i] + s[i..i + |sep|] + rest;
    }
  }

  lemma OccursInPrefix<T>(s: seq<T>, sep: seq<T>, i: nat, k: nat)
    requires i <= |s| && OccursAt(s[..i], sep, k)
    ensures OccursAt(s, sep, k)
  {
    assert s[..i][k..k + |sep|] == s[k..k + |sep|];
  }

  /** No piece has the separator in it. */
  lemma {:induction false} SplitPieces<T>(s: seq<T>, sep: seq<T>)
    requires sep != []
    ensures forall part, k: nat :: part in Split(s, sep) ==> !OccursAt(part, sep, k)
    decreases |s|
  {
    var i := Index(s, sep);
    if i < 0 {
      forall k: nat ensures !OccursAt(s, sep, k) {
        if OccursAt(s, sep, k) { IndexIsFirst(s, sep, k); }
      }
    } else {
      forall k: nat ensures !OccursAt(s[..i], sep, k) {
        if OccursAt(s[..i], sep, k) {
          OccursInPrefix(s, sep, i, k);
          IndexIsFirst(s, sep, k);
        }
      }
      SplitPieces(s[i + |sep|..], sep);
    }
  }

  /** Splitting a text in which the separator does not occur gives the text back. */
  lemma SplitWhole<T>(s: seq<T>, sep: seq<T>)
    requires sep != []
    ensures Split(s, sep) == [s] <==> forall k: nat :: !OccursAt(s, sep, k)
  {
    SplitPieces(s, sep);
    if Split(s, sep) == [s] {
      assert s in Split(s, sep);
    }
  }

  /** Splitting at an element that does occur gives at least two pieces. */
  lemma SplitHasTwo<T>(s: seq<T>, c: T)
    requires c in s
    ensures 2 <= |Split(s, [c])|
  {
    var i := FirstOccurrence(s, c);
    SplitFirst(s, c, i);
  }

  /** Splitting a join yields the pieces of every part, in order. */
  lemma {:induction false} SplitJoin<T>(parts: seq<seq<T>>, c: T)
    requires parts != []
    ensures Split(Join(parts, [c]), [c]) == Flatten(seq(|parts|, i requires 0 <= i < |parts| => Split(parts[i], [c])))
  {
    var pieces := seq(|parts|, i requires 0 <= i < |parts| => Split(parts[i], [c]));
    if |parts| == 1 {
      assert pieces[1..] == [];
    } else {
      var rest := parts[1..];
      SplitJoin(rest, c);
      SplitAtSeparator(parts[0], c, Join(rest, [c]));
      assert pieces[1..] == seq(|rest|, i requires 0 <= i < |rest| => Split(rest[i], [c]));
    }
  }
}
