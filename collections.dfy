/** Generic facts about sequences and sets shared by the list views: the
    `Array.prototype.filter` every one of them is built from, and the least
    element under the orders they sort by. */
module Collections {
  /** `s.filter(keep)`: the elements of `s` that `keep` accepts, in order. */
  function Filter<T>(s: seq<T>, keep: T -> bool): (r: seq<T>)
    ensures |r| <= |s|
  {
    if s == [] then []
    else Filter(s[..|s| - 1], keep) + (if keep(s[|s| - 1]) then [s[|s| - 1]] else [])
  }

  /** An element is kept exactly when it occurs and is accepted. */
  lemma {:induction false} FilterMembers<T>(s: seq<T>, keep: T -> bool)
    ensures forall x :: x in Filter(s, keep) <==> x in s && keep(x)
  {
    if s != [] {
      FilterMembers(s[..|s| - 1], keep);
      assert s == s[..|s| - 1] + [s[|s| - 1]];
    }
  }

  /** Every accepted element is kept as many times as it occurs, every
      other element not at all. */
  lemma {:induction false} FilterCount<T>(s: seq<T>, keep: T -> bool, x: T)
    ensures multiset(Filter(s, keep))[x] == if keep(x) then multiset(s)[x] else 0
  {
    if s != [] {
      var init, last := s[..|s| - 1], s[|s| - 1];
      FilterCount(init, keep, x);
      assert s == init + [last];
      assert multiset(s) == multiset(init) + multiset{last};
      if keep(last) {
        assert multiset(Filter(s, keep)) == multiset(Filter(init, keep)) + multiset{last};
      } else {
        assert Filter(init, keep) + [] == Filter(init, keep);
      }
    }
  }

  /** Filtering one more element of a prefix appends it when it is accepted. */
  lemma FilterSnoc<T>(s: seq<T>, keep: T -> bool, n: nat)
    requires n < |s|
    ensures Filter(s[..n + 1], keep) == Filter(s[..n], keep) + (if keep(s[n]) then [s[n]] else [])
  {
    assert s[..n + 1][..n] == s[..n];
  }

  /** Filtering distributes over concatenation. */
  lemma {:induction false} FilterConcat<T>(a: seq<T>, b: seq<T>, keep: T -> bool)
    ensures Filter(a + b, keep) == Filter(a, keep) + Filter(b, keep)
    decreases |b|
  {
    if b == [] {
      assert a + b == a;
    } else {
      var init, last := b[..|b| - 1], b[|b| - 1];
      FilterConcat(a, init, keep);
      assert (a + b)[..|a + b| - 1] == a + init;
      assert (a + b)[|a + b| - 1] == last;
      var tail := if keep(last) then [last] else [];
      assert Filter(a + b, keep) == Filter(a + init, keep) + tail;
      assert Filter(b, keep) == Filter(init, keep) + tail;
      assert Filter(a, keep) + Filter(init, keep) + tail == Filter(a, keep) + (Filter(init, keep) + tail);
    }
  }

  /** Everything is kept when every element is accepted. */
  lemma {:induction false} FilterAll<T>(s: seq<T>, keep: T -> bool)
    requires forall x :: x in s ==> keep(x)
    ensures Filter(s, keep) == s
  {
    if s != [] {
      var init, last := s[..|s| - 1], s[|s| - 1];
      assert last in s;
      forall x | x in init ensures x in s {
        var k :| 0 <= k < |init| && init[k] == x;
        assert s[k] == x;
      }
      FilterAll(init, keep);
      assert s == init + [last];
    }
  }

  /** When `keep` accepts exactly the positions `i..j` of `g`, the filter
      is that run. */
  lemma FilterBlock<T>(g: seq<T>, keep: T -> bool, i: nat, j: nat)
    requires i <= j < |g|
    requires forall k :: 0 <= k < |g| ==> (keep(g[k]) <==> i <= k <= j)
    ensures Filter(g, keep) == g[i..j + 1]
  {
    BlockParts(g, keep, i, j);
    FilterSegments(g[..i], g[i..j + 1], g[j + 1..], keep);
  }

  /** The run `i..j` splits `g` into a rejected part, the run and another
      rejected part. */
  lemma BlockParts<T>(g: seq<T>, keep: T -> bool, i: nat, j: nat)
    requires i <= j < |g|
    requires forall k :: 0 <= k < |g| ==> (keep(g[k]) <==> i <= k <= j)
    ensures g == g[..i] + g[i..j + 1] + g[j + 1..]
    ensures forall x :: x in g[..i] ==> !keep(x)
    ensures forall x :: x in g[i..j + 1] ==> keep(x)
    ensures forall x :: x in g[j + 1..] ==> !keep(x)
  {
    assert g == g[..i] + g[i..j + 1] + g[j + 1..];
    forall x | x in g[..i] ensures !keep(x) {
      var k :| 0 <= k < i && g[..i][k] == x;
      assert g[k] == x;
    }
    forall x | x in g[i..j + 1] ensures keep(x) {
      var k :| 0 <= k < j + 1 - i && g[i..j + 1][k] == x;
      assert g[i + k] == x;
    }
    forall x | x in g[j + 1..] ensures !keep(x) {
      var k :| 0 <= k < |g| - (j + 1) && g[j + 1..][k] == x;
      assert g[j + 1 + k] == x;
    }
  }

  /** Filtering a rejected part, an accepted part and a rejected part
      keeps the accepted part. */
  lemma FilterSegments<T>(pre: seq<T>, run: seq<T>, post: seq<T>, keep: T -> bool)
    requires forall x :: x in pre ==> !keep(x)
    requires forall x :: x in run ==> keep(x)
    requires forall x :: x in post ==> !keep(x)
    ensures Filter(pre + run + post, keep) == run
  {
    FilterNone(pre, keep);
    FilterAll(run, keep);
    FilterNone(post, keep);
    FilterConcat(pre, run, keep);
    FilterConcat(pre + run, post, keep);
    assert [] + run + [] == run;
  }

  /** Nothing is kept when no element is accepted. */
  lemma {:induction false} FilterNone<T>(s: seq<T>, keep: T -> bool)
    requires forall x :: x in s ==> !keep(x)
    ensures Filter(s, keep) == []
  {
    if s != [] {
      var init, last := s[..|s| - 1], s[|s| - 1];
      assert last in s;
      forall x | x in init ensures x in s {
        var k :| 0 <= k < |init| && init[k] == x;
        assert s[k] == x;
      }
      FilterNone(init, keep);
    }
  }

  lemma AppendRight<T>(a: seq<T>, b: seq<T>, j: nat)
    requires |a| <= j < |a| + |b|
    ensures (a + b)[j] == b[j - |a|]
  {
  }

  lemma AppendNothing<T>(s: seq<T>)
    ensures s + [] == s
  {
  }

  lemma ConcatAssoc<T>(x: seq<T>, a: seq<T>, b: seq<T>, c: seq<T>)
    ensures x + a + b + c == x + (a + b + c)
  {
  }

  lemma SnocAssoc<T>(a: seq<T>, x: T, b: seq<T>)
    ensures (a + [x]) + b == a + ([x] + b)
  {
  }

  /** A finite non-empty set on which `lt` is transitive and total has an
      element `lt` puts before every other one. */
  lemma {:induction false} LeastExists<T>(s: set<T>, lt: (T, T) -> bool)
    requires s != {}
    requires forall a, b, c :: a in s && b in s && c in s && lt(a, b) && lt(b, c) ==> lt(a, c)
    requires forall a, b :: a in s && b in s && a != b ==> lt(a, b) || lt(b, a)
    ensures exists m :: m in s && forall x :: x in s && x != m ==> lt(m, x)
    decreases |s|
  {
    var y :| y in s;
    if s == {y} {
      assert forall x :: x in s && x != y ==> lt(y, x);
    } else {
      var rest := s - {y};
      LeastExists(rest, lt);
      var m :| m in rest && forall x :: x in rest && x != m ==> lt(m, x);
      LeastStep(s, lt, y, m);
    }
  }

  /** The least element of `s` without `y`, compared with `y`. */
  lemma LeastStep<T>(s: set<T>, lt: (T, T) -> bool, y: T, m: T)
    requires forall a, b, c :: a in s && b in s && c in s && lt(a, b) && lt(b, c) ==> lt(a, c)
    requires forall a, b :: a in s && b in s && a != b ==> lt(a, b) || lt(b, a)
    requires y in s && m in s && m != y
    requires forall x :: x in s && x != y && x != m ==> lt(m, x)
    ensures exists w :: w in s && forall x :: x in s && x != w ==> lt(w, x)
  {
    if lt(y, m) {
      assert forall x :: x in s && x != y ==> lt(y, x);
    } else {
      assert forall x :: x in s && x != m ==> lt(m, x);
    }
  }

  /** `lt` orders `s` strictly and totally: it is transitive there and
      compares any two distinct elements. */
  predicate StrictTotalOn<T(!new)>(s: set<T>, lt: (T, T) -> bool) {
    && (forall a, b, c :: a in s && b in s && c in s && lt(a, b) && lt(b, c) ==> lt(a, c))
    && (forall a, b :: a in s && b in s && a != b ==> lt(a, b) || lt(b, a))
  }

  lemma StrictTotalShrinks<T(!new)>(s: set<T>, lt: (T, T) -> bool, y: T)
    requires StrictTotalOn(s, lt)
    ensures StrictTotalOn(s - {y}, lt)
  {
  }

  /** The element of `s` that `lt` puts before every other one. */
  ghost function Least<T(!new)>(s: set<T>, lt: (T, T) -> bool): (m: T)
    requires s != {} && StrictTotalOn(s, lt)
    ensures m in s && forall x :: x in s && x != m ==> lt(m, x)
  {
    LeastExists(s, lt);
    var m :| m in s && forall x :: x in s && x != m ==> lt(m, x); m
  }

  /** The elements of a finite set in ascending `lt` order: a sort of the
      set's elements, the least first. */
  ghost function SortedBy<T(!new)>(s: set<T>, lt: (T, T) -> bool): (r: seq<T>)
    requires StrictTotalOn(s, lt)
    ensures |r| == |s|
    decreases |s|
  {
    if s == {} then []
    else
      var m := Least(s, lt);
      StrictTotalShrinks(s, lt, m);
      [m] + SortedBy(s - {m}, lt)
  }

  /** The sorted sequence holds exactly the elements of the set, in
      strictly ascending order. */
  lemma {:induction false} SortedByCorrect<T(!new)>(s: set<T>, lt: (T, T) -> bool)
    requires StrictTotalOn(s, lt)
    ensures forall x :: x in SortedBy(s, lt) <==> x in s
    ensures forall i, j :: 0 <= i < j < |SortedBy(s, lt)| ==> lt(SortedBy(s, lt)[i], SortedBy(s, lt)[j])
    decreases |s|
  {
    if s != {} {
      var m := Least(s, lt);
      StrictTotalShrinks(s, lt, m);
      SortedByCorrect(s - {m}, lt);
      var rest := SortedBy(s - {m}, lt);
      var r := SortedBy(s, lt);
      assert r == [m] + rest;
      forall i, j | 0 <= i < j < |r| ensures lt(r[i], r[j]) {
        if i == 0 {
          assert r[j] == rest[j - 1] && rest[j - 1] in rest;
        } else {
          assert r[i] == rest[i - 1] && r[j] == rest[j - 1];
        }
      }
    }
  }
}
