/** The Python list operations the Manager of cannon.py relies on: `pop(i)`,
    popping a list of indices in reverse order, and `sort()` on an index list. */
module Lists {
  import opened Arena

  /** `s.pop(i)` for an index inside the list. */
  function PopAt<T>(s: seq<T>, i: nat): (r: seq<T>)
    requires i < |s|
    ensures |r| == |s| - 1
    ensures forall k :: 0 <= k < i ==> r[k] == s[k]
    ensures forall k :: i <= k < |r| ==> r[k] == s[k + 1]
  {
    s[..i] + s[i + 1..]
  }

  /** `for j in reversed(idx): s.pop(j)`: the last index is popped first.
      None when some pop is out of range, where Python raises IndexError. */
  function PopReversed<T>(s: seq<T>, idx: seq<nat>): Option<seq<T>>
    decreases |idx|
  {
    if idx == [] then Some(s)
    else
      var j := idx[|idx| - 1];
      if j < |s| then PopReversed(PopAt(s, j), idx[..|idx| - 1]) else None
  }

  /** The elements of `s` whose index is not in `gone`, in their original order:
      the reference definition of "remove these positions". */
  function Without<T>(s: seq<T>, gone: set<nat>): seq<T>
  {
    if s == [] then []
    else Without(s[..|s| - 1], gone) + (if |s| - 1 in gone then [] else [s[|s| - 1]])
  }

  function Elements(idx: seq<nat>): set<nat>
  {
    set k | k in idx
  }

  predicate Ascending(s: seq<nat>)
  {
    forall i, j :: 0 <= i < j < |s| ==> s[i] <= s[j]
  }

  predicate StrictlyAscending(s: seq<nat>)
  {
    forall i, j :: 0 <= i < j < |s| ==> s[i] < s[j]
  }

  predicate Distinct<T(==)>(s: seq<T>)
  {
    forall i, j :: 0 <= i < j < |s| ==> s[i] != s[j]
  }

  /** An element survives `Without` exactly when some position not in `gone`
      holds it. */
  lemma {:induction false} WithoutMembers<T>(s: seq<T>, gone: set<nat>, x: T)
    ensures x in Without(s, gone) <==> exists k :: 0 <= k < |s| && k !in gone && s[k] == x
  {
    if s != [] {
      var n := |s| - 1;
      WithoutMembers(s[..n], gone, x);
      if x in Without(s, gone) && x !in Without(s[..n], gone) {
        assert n !in gone && s[n] == x;
      }
      if exists k :: 0 <= k < |s| && k !in gone && s[k] == x {
        var k :| 0 <= k < |s| && k !in gone && s[k] == x;
        if k < n {
          assert s[..n][k] == x;
        }
      }
    }
  }

  /** Positions past the end of the list do not matter to `Without`. */
  lemma {:induction false} WithoutIgnoresBeyond<T>(s: seq<T>, gone: set<nat>, k: nat)
    requires k >= |s|
    ensures Without(s, gone + {k}) == Without(s, gone)
  {
    if s != [] {
      WithoutIgnoresBeyond(s[..|s| - 1], gone, k);
    }
  }

  /** Popping position j first and then removing smaller positions is the same
      as removing them all at once. */
  lemma {:induction false} WithoutAfterPop<T>(s: seq<T>, gone: set<nat>, j: nat)
    requires j < |s|
    requires forall i :: i in gone ==> i < j
    ensures Without(PopAt(s, j), gone) == Without(s, gone + {j})
  {
    var n := |s| - 1;
    if j == n {
      assert PopAt(s, j) == s[..n];
      WithoutIgnoresBeyond(s[..n], gone, j);
    } else {
      var p := PopAt(s, j);
      assert p[..|p| - 1] == PopAt(s[..n], j);
      assert p[|p| - 1] == s[n];
      WithoutAfterPop(s[..n], gone, j);
    }
  }

  /** Popping adds no element and keeps a list free of repetitions. */
  lemma PopAtKeeps<T>(s: seq<T>, j: nat)
    requires j < |s|
    ensures forall x :: x in PopAt(s, j) ==> x in s
    ensures Distinct(s) ==> Distinct(PopAt(s, j))
  {
    var r := PopAt(s, j);
    forall x | x in r
      ensures x in s
    {
      var k :| 0 <= k < |r| && r[k] == x;
      if k < j {
        assert s[k] == x;
      } else {
        assert s[k + 1] == x;
      }
    }
  }

  /** Popping strictly ascending, in-range indices in reverse order never
      raises, and removes exactly those positions. */
  lemma {:induction false} PopAscending<T>(s: seq<T>, idx: seq<nat>)
    requires StrictlyAscending(idx)
    requires forall k :: 0 <= k < |idx| ==> idx[k] < |s|
    ensures PopReversed(s, idx) == Some(Without(s, Elements(idx)))
    decreases |idx|
  {
    if idx == [] {
      assert Elements(idx) == {};
      assert Without(s, {}) == s by { WithoutKeepsAll(s); }
    } else {
      var n := |idx| - 1;
      var j := idx[n];
      var front := idx[..n];
      PopAscending(PopAt(s, j), front);
      assert Elements(idx) == Elements(front) + {j};
      WithoutAfterPop(s, Elements(front), j);
    }
  }

  /** Removing no position leaves the list as it is. */
  lemma {:induction false} WithoutKeepsAll<T>(s: seq<T>)
    ensures Without(s, {}) == s
  {
    if s != [] {
      WithoutKeepsAll(s[..|s| - 1]);
    }
  }

  /** The same index twice: the second pop removes the element that moved into
      that position, or raises when there is none. */
  lemma PopSameTwice<T>(s: seq<T>, j: nat)
    requires j < |s|
    ensures j + 1 < |s| ==> PopReversed(s, [j, j]) == Some(s[..j] + s[j + 2..])
    ensures j + 1 == |s| ==> PopReversed(s, [j, j]) == None
  {
    var once := PopAt(s, j);
    assert [j, j][..1] == [j];
    assert [j][..0] == [];
    assert PopReversed(s, [j, j]) == PopReversed(once, [j]);
    if j + 1 < |s| {
      assert PopReversed(once, [j]) == PopReversed(PopAt(once, j), []);
      assert PopAt(once, j) == s[..j] + s[j + 2..];
    }
  }

  /** `list.insert` into an ascending list, keeping it ascending. */
  function Insert(x: nat, s: seq<nat>): (r: seq<nat>)
    requires Ascending(s)
    ensures Ascending(r)
    ensures multiset(r) == multiset(s) + multiset{x}
    ensures r[0] == x || (s != [] && r[0] == s[0])
  {
    if s == [] || x <= s[0] then [x] + s
    else
      var t := Insert(x, s[1..]);
      assert s == [s[0]] + s[1..];
      [s[0]] + t
  }

  /** `list.sort()` on the collision index list. */
  function SortAsc(xs: seq<nat>): (r: seq<nat>)
    ensures Ascending(r)
    ensures multiset(r) == multiset(xs)
    ensures |r| == |xs|
  {
    if xs == [] then []
    else
      assert xs == [xs[0]] + xs[1..];
      Insert(xs[0], SortAsc(xs[1..]))
  }

  lemma {:induction false} DistinctCounts<T>(s: seq<T>, x: T)
    requires Distinct(s)
    ensures multiset(s)[x] <= 1
  {
    if s != [] {
      assert s == [s[0]] + s[1..];
      DistinctCounts(s[1..], x);
      if s[0] == x {
        assert x !in s[1..];
      }
    }
  }

  /** Sorting pairwise distinct indices gives a strictly ascending list. */
  lemma SortDistinctIsStrict(xs: seq<nat>)
    requires Distinct(xs)
    ensures StrictlyAscending(SortAsc(xs))
  {
    var r := SortAsc(xs);
    forall i, j | 0 <= i < j < |r|
      ensures r[i] < r[j]
    {
      CountAtTwo(r, i, j);
      DistinctCounts(xs, r[i]);
    }
  }

  /** Two positions holding the same value make it occur at least twice. */
  lemma CountAtTwo(r: seq<nat>, i: nat, j: nat)
    requires i < j < |r|
    ensures multiset(r)[r[i]] >= 1 + (if r[j] == r[i] then 1 else 0)
  {
    assert r == r[..j] + r[j..];
    assert r[i] in r[..j];
    assert r[j..] == [r[j]] + r[j + 1..];
  }
}
