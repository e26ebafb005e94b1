/**
 * Sequence helpers standing for the List, HashSet and OrderBy calls of the
 * generators: insertion-ordered de-duplication and ordinal sorting.
 */
module Collections {
  import opened Text
  import opened Outcomes

  function Flatten<T>(xss: seq<seq<T>>): seq<T> {
    if xss == [] then [] else xss[0] + Flatten(xss[1..])
  }

  lemma {:induction false} FlattenAppend<T>(a: seq<seq<T>>, b: seq<seq<T>>)
    ensures Flatten(a + b) == Flatten(a) + Flatten(b)
  {
    if a == [] {
      assert a + b == b;
    } else {
      assert (a + b)[1..] == a[1..] + b;
      FlattenAppend(a[1..], b);
    }
  }

  /** Element k of a slice is element lo + k of the sequence. */
  lemma SliceIndex<T>(s: seq<T>, lo: nat, hi: nat, k: nat)
    requires lo <= hi <= |s| && k < hi - lo
    ensures s[lo..hi][k] == s[lo + k]
  {
  }

  /** Element j of the sequence is element j - lo of a slice that holds it. */
  lemma SliceAt<T>(s: seq<T>, lo: nat, hi: nat, j: nat)
    requires lo <= j < hi <= |s|
    ensures s[lo..hi][j - lo] == s[j]
  {
  }

  lemma AppendAssoc<T>(a: seq<T>, b: seq<T>, c: seq<T>)
    ensures a + (b + c) == a + b + c
  {
  }

  lemma PrefixSnoc<T>(xs: seq<T>, n: nat)
    requires n < |xs|
    ensures xs[..n + 1] == xs[..n] + [xs[n]]
  {
  }

  /** Extending a prefix of `xss` by one sequence appends that sequence. */
  lemma FlattenSnoc<T>(xss: seq<seq<T>>, i: nat)
    requires i < |xss|
    ensures Flatten(xss[..i + 1]) == Flatten(xss[..i]) + xss[i]
  {
    assert xss[..i + 1] == xss[..i] + [xss[i]];
    FlattenAppend(xss[..i], [xss[i]]);
    assert Flatten([xss[i]]) == xss[i] + Flatten([]);
  }

  /** Concatenating sequences that all have length `w`. */
  lemma {:induction false} FlattenUniformLength<T>(xss: seq<seq<T>>, w: nat)
    requires forall k :: 0 <= k < |xss| ==> |xss[k]| == w
    ensures |Flatten(xss)| == |xss| * w
  {
    if xss != [] {
      FlattenUniformLength(xss[1..], w);
      assert |xss| * w == w + (|xss| - 1) * w;
    }
  }

  /** In a concatenation of sequences of length `w`, element `j` of part `i` sits at `i * w + j`. */
  lemma {:induction false} FlattenUniformAt<T>(xss: seq<seq<T>>, w: nat, i: nat, j: nat)
    requires forall k :: 0 <= k < |xss| ==> |xss[k]| == w
    requires i < |xss| && j < w
    ensures i * w + j < |Flatten(xss)| && Flatten(xss)[i * w + j] == xss[i][j]
  {
    FlattenUniformLength(xss, w);
    if i > 0 {
      FlattenUniformAt(xss[1..], w, i - 1, j);
      assert i * w + j == w + ((i - 1) * w + j);
    }
  }

  /** Applies `f` to every element, keeping the order (Select). */
  function Map<A, B>(f: A -> B, xs: seq<A>): (r: seq<B>)
    ensures |r| == |xs| && forall i :: 0 <= i < |xs| ==> r[i] == f(xs[i])
  {
    seq(|xs|, i requires 0 <= i < |xs| => f(xs[i]))
  }

  lemma MapAppend<A, B>(f: A -> B, a: seq<A>, b: seq<A>)
    ensures Map(f, a + b) == Map(f, a) + Map(f, b)
  {
  }

  /** Extending the mapped prefix by one element appends that element's image. */
  lemma FlattenMapSnoc<A, B>(f: A -> seq<B>, xs: seq<A>, i: nat)
    requires i < |xs|
    ensures Flatten(Map(f, xs[..i + 1])) == Flatten(Map(f, xs[..i])) + f(xs[i])
  {
    assert Map(f, xs[..i + 1]) == Map(f, xs[..i]) + [f(xs[i])];
    FlattenAppend(Map(f, xs[..i]), [f(xs[i])]);
    assert Flatten([f(xs[i])]) == f(xs[i]) + Flatten([]);
  }

  /** Whatever the image of a member contains, the flattened images contain. */
  lemma {:induction false} FlattenMapContains<A, B>(f: A -> seq<B>, xs: seq<A>, i: nat, y: B)
    requires i < |xs| && y in f(xs[i])
    ensures y in Flatten(Map(f, xs))
  {
    if i == 0 {
      assert Flatten(Map(f, xs)) == f(xs[0]) + Flatten(Map(f, xs)[1..]);
    } else {
      assert Map(f, xs)[1..] == Map(f, xs[1..]);
      FlattenMapContains(f, xs[1..], i - 1, y);
    }
  }

  /** The parts in order with `sep` between consecutive parts. */
  function JoinWith<T>(parts: seq<seq<T>>, sep: seq<T>): seq<T> {
    if parts == [] then []
    else if |parts| == 1 then parts[0]
    else JoinWith(parts[..|parts| - 1], sep) + sep + parts[|parts| - 1]
  }

  /** Joining two non-empty runs of parts puts exactly one separator between them. */
  lemma {:induction false} JoinWithAppend<T>(a: seq<seq<T>>, b: seq<seq<T>>, sep: seq<T>)
    requires a != [] && b != []
    ensures JoinWith(a + b, sep) == JoinWith(a, sep) + sep + JoinWith(b, sep)
    decreases |b|
  {
    var ab := a + b;
    var last := b[|b| - 1];
    assert ab[|ab| - 1] == last;
    if |b| == 1 {
      assert ab[..|ab| - 1] == a;
      assert JoinWith(ab, sep) == JoinWith(a, sep) + sep + last;
    } else {
      var init := b[..|b| - 1];
      JoinWithAppend(a, init, sep);
      assert ab[..|ab| - 1] == a + init;
      var x, y := JoinWith(a, sep), JoinWith(init, sep);
      calc {
        JoinWith(ab, sep);
        JoinWith(a + init, sep) + sep + last;
        x + sep + y + sep + last;
        { assert x + sep + y + sep + last == x + sep + (y + sep + last); }
        x + sep + (y + sep + last);
        x + sep + JoinWith(b, sep);
      }
    }
  }

  /** The elements of a sequence, as a set. */
  function Elems<T>(xs: seq<T>): set<T> { set y | y in xs }

  predicate NoDuplicates<T(==)>(xs: seq<T>) {
    forall i, j :: 0 <= i < j < |xs| ==> xs[i] != xs[j]
  }

  /** HashSet.Add followed by enumeration in insertion order: append only if new. */
  function AddUnique<T(==)>(xs: seq<T>, x: T): (r: seq<T>)
    ensures NoDuplicates(xs) ==> NoDuplicates(r)
    ensures Elems(r) == Elems(xs) + {x}
    ensures xs <= r
  {
    if x in xs then xs else xs + [x]
  }

  /** The distinct elements of `xs`, each at the position of its first occurrence. */
  function Distinct<T(==)>(xs: seq<T>): (r: seq<T>)
    ensures NoDuplicates(r)
    ensures Elems(r) == Elems(xs)
  {
    if xs == [] then [] else AddUnique(Distinct(xs[..|xs| - 1]), xs[|xs| - 1])
  }

  /** Adding one element to the input adds it to the distinct elements, unless already there. */
  lemma DistinctSnoc<T>(xs: seq<T>, x: T)
    ensures Distinct(xs + [x]) == AddUnique(Distinct(xs), x)
  {
    assert (xs + [x])[..|xs|] == xs;
  }

  lemma {:induction false} DistinctOfDistinct<T>(xs: seq<T>)
    requires NoDuplicates(xs)
    ensures Distinct(xs) == xs
  {
    if xs != [] {
      var init := xs[..|xs| - 1];
      DistinctOfDistinct(init);
      assert xs[|xs| - 1] !in init;
      assert init + [xs[|xs| - 1]] == xs;
    }
  }

  // ---------------------------------------------------------------- ordinal sorting

  predicate StrictlySorted(xs: seq<string>) {
    forall i, j :: 0 <= i < j < |xs| ==> OrdinalLess(xs[i], xs[j])
  }

  /** Inserts `x` into a strictly sorted sequence unless it is already there. */
  function InsertSorted(xs: seq<string>, x: string): (r: seq<string>)
    requires StrictlySorted(xs)
    ensures StrictlySorted(r)
    ensures Elems(r) == Elems(xs) + {x}
  {
    if xs == [] then [x]
    else if xs[0] == x then xs
    else if OrdinalLess(x, xs[0]) then
      BelowSorted(xs, x);
      [x] + xs
    else
      OrdinalLessTotal(x, xs[0]);
      var rest := InsertSorted(xs[1..], x);
      AboveHead(xs, x, rest);
      [xs[0]] + rest
  }

  /** An element below the head of a strictly sorted sequence can be put in front. */
  lemma BelowSorted(xs: seq<string>, x: string)
    requires StrictlySorted(xs) && xs != [] && OrdinalLess(x, xs[0])
    ensures StrictlySorted([x] + xs) && Elems([x] + xs) == Elems(xs) + {x}
  {
    forall j | 0 < j < |xs| ensures OrdinalLess(x, xs[j]) {
      OrdinalLessTransitive(x, xs[0], xs[j]);
    }
  }

  /** The head stays in front when `x` lands in the tail. */
  lemma AboveHead(xs: seq<string>, x: string, rest: seq<string>)
    requires StrictlySorted(xs) && xs != [] && OrdinalLess(xs[0], x)
    requires StrictlySorted(rest) && Elems(rest) == Elems(xs[1..]) + {x}
    ensures StrictlySorted([xs[0]] + rest) && Elems([xs[0]] + rest) == Elems(xs) + {x}
  {
    forall y | y in rest ensures OrdinalLess(xs[0], y) {
      if y != x {
        assert y in Elems(xs[1..]);
        var j :| 0 <= j < |xs[1..]| && xs[1..][j] == y;
        assert xs[j + 1] == y;
      }
    }
    assert xs == [xs[0]] + xs[1..];
    assert Elems(xs) == {xs[0]} + Elems(xs[1..]);
    assert Elems([xs[0]] + rest) == {xs[0]} + Elems(rest);
  }

  /** `set.OrderBy(x => x, StringComparer.Ordinal)` applied to the set of elements of `xs`. */
  function SortedSet(xs: seq<string>): (r: seq<string>)
    ensures StrictlySorted(r)
    ensures Elems(r) == Elems(xs)
  {
    if xs == [] then [] else InsertSorted(SortedSet(xs[..|xs| - 1]), xs[|xs| - 1])
  }

  /** A strictly sorted sequence is determined by its elements. */
  lemma {:induction false} StrictlySortedUnique(a: seq<string>, b: seq<string>)
    requires StrictlySorted(a) && StrictlySorted(b)
    requires Elems(a) == Elems(b)
    ensures a == b
  {
    assert a != [] ==> a[0] in Elems(a);
    assert b != [] ==> b[0] in Elems(b);
    if a != [] && b != [] {
      assert a[0] in b && b[0] in a;
      if a[0] != b[0] {
        var i :| 0 <= i < |b| && b[i] == a[0];
        var j :| 0 <= j < |a| && a[j] == b[0];
        assert OrdinalLess(b[0], a[0]);
        assert OrdinalLess(a[0], b[0]);
        OrdinalLessAsymmetric(a[0], b[0]);
      }
      assert Elems(a[1..]) == Elems(a) - {a[0]} by {
        forall y | y in a[1..] ensures y != a[0] {
          var k :| 0 <= k < |a[1..]| && a[1..][k] == y;
          assert OrdinalLess(a[0], a[k + 1]);
          OrdinalLessIrreflexive(y);
        }
        assert a == [a[0]] + a[1..];
      }
      assert Elems(b[1..]) == Elems(b) - {b[0]} by {
        forall y | y in b[1..] ensures y != b[0] {
          var k :| 0 <= k < |b[1..]| && b[1..][k] == y;
          assert OrdinalLess(b[0], b[k + 1]);
          OrdinalLessIrreflexive(y);
        }
        assert b == [b[0]] + b[1..];
      }
      StrictlySortedUnique(a[1..], b[1..]);
      assert a == [a[0]] + a[1..] && b == [b[0]] + b[1..];
    }
  }

  /** The position of the first element satisfying `p`, if any (FindIndex, with None for -1). */
  function FirstMatch<T>(xs: seq<T>, p: T -> bool): (r: Option<nat>)
    ensures r.Some? ==> r.value < |xs| && p(xs[r.value]) && forall k :: 0 <= k < r.value ==> !p(xs[k])
    ensures r.None? ==> forall k :: 0 <= k < |xs| ==> !p(xs[k])
  {
    if xs == [] then None
    else if p(xs[0]) then Some(0)
    else match FirstMatch(xs[1..], p)
         case None => None
         case Some(k) => Some(k + 1)
  }

  /** The elements satisfying `p`, in order (Where). */
  function Filter<T>(xs: seq<T>, p: T -> bool): (r: seq<T>)
    ensures |r| <= |xs|
  {
    if xs == [] then []
    else Filter(xs[..|xs| - 1], p) + (if p(xs[|xs| - 1]) then [xs[|xs| - 1]] else [])
  }

  lemma {:induction false} FilterAppend<T>(a: seq<T>, b: seq<T>, p: T -> bool)
    ensures Filter(a + b, p) == Filter(a, p) + Filter(b, p)
  {
    if b == [] {
      assert a + b == a;
    } else {
      assert (a + b)[..|a + b| - 1] == a + b[..|b| - 1];
      FilterAppend(a, b[..|b| - 1], p);
    }
  }

  /** Nothing is kept from a sequence none of whose elements satisfies `p`. */
  lemma {:induction false} FilterNone<T>(xs: seq<T>, p: T -> bool)
    requires forall k :: 0 <= k < |xs| ==> !p(xs[k])
    ensures Filter(xs, p) == []
  {
    if xs != [] {
      FilterNone(xs[..|xs| - 1], p);
    }
  }
}
