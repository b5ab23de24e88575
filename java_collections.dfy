/**
 * The parts of the Java class library whose behaviour shows in the plugin's results:
 * the natural order of `String` (`String.compareTo`), the sorted, duplicate-free
 * iteration order of a `TreeSet<String>`, and the `"[a, b, c]"` rendering of
 * `AbstractCollection.toString`.
 */
module JavaCollections {

  /** `a.compareTo(b) < 0`: the first differing character decides; a proper prefix comes first. */
  predicate Below(a: string, b: string)
    decreases |a|
  {
    if |a| == 0 then |b| != 0
    else if |b| == 0 then false
    else if a[0] != b[0] then a[0] < b[0]
    else Below(a[1..], b[1..])
  }

  lemma {:induction false} BelowIrreflexive(a: string)
    ensures !Below(a, a)
    decreases |a|
  {
    if |a| != 0 {
      BelowIrreflexive(a[1..]);
    }
  }

  lemma {:induction false} BelowTransitive(a: string, b: string, c: string)
    requires Below(a, b) && Below(b, c)
    ensures Below(a, c)
    decreases |a|
  {
    if |a| != 0 && a[0] == b[0] && b[0] == c[0] {
      BelowTransitive(a[1..], b[1..], c[1..]);
    }
  }

  /** `compareTo` is a total order: any two strings are equal or ordered one way. */
  lemma {:induction false} BelowTotal(a: string, b: string)
    ensures a == b || Below(a, b) || Below(b, a)
    decreases |a|
  {
    if |a| != 0 && |b| != 0 && a[0] == b[0] {
      BelowTotal(a[1..], b[1..]);
      if a[1..] == b[1..] {
        assert a == [a[0]] + a[1..] && b == [b[0]] + b[1..];
      }
    }
  }

  lemma {:induction false} BelowAsymmetric(a: string, b: string)
    requires Below(a, b)
    ensures !Below(b, a)
  {
    if Below(b, a) {
      BelowTransitive(a, b, a);
      BelowIrreflexive(a);
    }
  }

  /** The elements of a Java collection, forgetting order and multiplicity. */
  function Elems(xs: seq<string>): set<string>
  {
    set x | x in xs
  }

  /** Ascending by `compareTo` with no element twice: how a `TreeSet<String>` iterates. */
  predicate StrictlySorted(xs: seq<string>)
  {
    forall i, j :: 0 <= i < j < |xs| ==> Below(xs[i], xs[j])
  }

  lemma PrependSorted(y: string, xs: seq<string>)
    requires StrictlySorted(xs)
    requires forall z :: z in xs ==> Below(y, z)
    ensures StrictlySorted([y] + xs)
  {
    var r := [y] + xs;
    forall i, j | 0 <= i < j < |r| ensures Below(r[i], r[j]) {
      if i != 0 {
        assert r[i] == xs[i - 1] && r[j] == xs[j - 1];
      } else {
        assert r[j] == xs[j - 1];
      }
    }
  }

  /** The head of a strictly sorted sequence is below everything after it. */
  lemma HeadBelowTail(xs: seq<string>, z: string)
    requires StrictlySorted(xs) && |xs| > 0 && z in xs[1..]
    ensures Below(xs[0], z)
  {
    var k :| 0 <= k < |xs[1..]| && xs[1..][k] == z;
    assert xs[k + 1] == z;
  }

  /** Putting `x` in front keeps a sequence sorted when `x` is below its head. */
  lemma InsertFront(x: string, s: seq<string>)
    requires StrictlySorted(s) && s != [] && Below(x, s[0])
    ensures StrictlySorted([x] + s)
    ensures Elems([x] + s) == Elems(s) + {x}
  {
    forall z | z in s ensures Below(x, z) {
      if z != s[0] {
        HeadBelowTail(s, z);
        BelowTransitive(x, s[0], z);
      }
    }
    PrependSorted(x, s);
  }

  /** Keeping the head in front of the tail's insertion result keeps the order. */
  lemma InsertBehind(x: string, s: seq<string>, rest: seq<string>)
    requires StrictlySorted(s) && s != [] && Below(s[0], x)
    requires StrictlySorted(rest) && Elems(rest) == Elems(s[1..]) + {x}
    ensures StrictlySorted([s[0]] + rest)
    ensures Elems([s[0]] + rest) == Elems(s) + {x}
  {
    forall z | z in rest ensures Below(s[0], z) {
      assert z in Elems(rest);
      if z != x {
        HeadBelowTail(s, z);
      }
    }
    PrependSorted(s[0], rest);
    assert s == [s[0]] + s[1..];
  }

  /** `TreeSet.add(x)` on the tree's current iteration sequence `s`. */
  function Insert(x: string, s: seq<string>): (r: seq<string>)
    requires StrictlySorted(s)
    ensures StrictlySorted(r)
    ensures Elems(r) == Elems(s) + {x}
  {
    if s == [] then [x]
    else if x == s[0] then
      assert s == [s[0]] + s[1..];
      s
    else if Below(x, s[0]) then
      InsertFront(x, s);
      [x] + s
    else
      BelowTotal(x, s[0]);
      var rest := Insert(x, s[1..]);
      InsertBehind(x, s, rest);
      [s[0]] + rest
  }

  /** `new TreeSet<String>(xs)` followed by its iteration: each element added in turn. */
  function SortedSetOf(xs: seq<string>): (r: seq<string>)
    ensures StrictlySorted(r)
    ensures Elems(r) == Elems(xs)
  {
    if xs == [] then []
    else
      var init := xs[..|xs| - 1];
      assert xs == init + [xs[|xs| - 1]];
      Insert(xs[|xs| - 1], SortedSetOf(init))
  }

  /** A finite set has exactly one strictly sorted enumeration. */
  lemma {:induction false} SortedUnique(r1: seq<string>, r2: seq<string>)
    requires StrictlySorted(r1) && StrictlySorted(r2)
    requires Elems(r1) == Elems(r2)
    ensures r1 == r2
    decreases |r1|
  {
    ElemsEmpty(r1);
    ElemsEmpty(r2);
    if r1 != [] && r2 != [] {
      if r1[0] != r2[0] {
        assert r1[0] in Elems(r2) && r2[0] in Elems(r1);
        HeadBelowTail(r2, r1[0]);
        HeadBelowTail(r1, r2[0]);
        BelowAsymmetric(r1[0], r2[0]);
        assert false;
      }
      forall z ensures z in Elems(r1[1..]) <==> z in Elems(r2[1..]) {
        if z in r1[1..] {
          HeadBelowTail(r1, z);
          BelowIrreflexive(z);
          assert z in Elems(r2);
        }
        if z in r2[1..] {
          HeadBelowTail(r2, z);
          BelowIrreflexive(z);
          assert z in Elems(r1);
        }
      }
      SortedUnique(r1[1..], r2[1..]);
      assert r1 == [r1[0]] + r1[1..] && r2 == [r2[0]] + r2[1..];
    }
  }

  lemma ElemsEmpty(xs: seq<string>)
    ensures Elems(xs) == {} <==> xs == []
  {
    if xs != [] {
      assert xs[0] in Elems(xs);
    }
  }

  /** A `TreeSet` built from a collection depends only on which elements it holds:
      reordering or repeating the input changes nothing. */
  lemma SortedSetOfElemsOnly(a: seq<string>, b: seq<string>)
    requires Elems(a) == Elems(b)
    ensures SortedSetOf(a) == SortedSetOf(b)
  {
    SortedUnique(SortedSetOf(a), SortedSetOf(b));
  }

  lemma {:induction false} EnumerationExists(s: set<string>)
    ensures exists xs :: Elems(xs) == s
    decreases |s|
  {
    if s == {} {
      assert Elems([]) == s;
    } else {
      var x :| x in s;
      EnumerationExists(s - {x});
      var xs :| Elems(xs) == s - {x};
      forall y ensures y in Elems(xs + [x]) <==> y in s {
        assert y in xs + [x] <==> y in xs || y == x;
        assert y in xs <==> y in Elems(xs);
      }
      assert Elems(xs + [x]) == s;
    }
  }

  lemma SortedEnumerationExists(s: set<string>)
    ensures exists r :: StrictlySorted(r) && Elems(r) == s
  {
    EnumerationExists(s);
    var xs :| Elems(xs) == s;
    assert StrictlySorted(SortedSetOf(xs)) && Elems(SortedSetOf(xs)) == s;
  }

  /** The iteration order of a `TreeSet` holding exactly the elements of `s`. */
  ghost function Sorted(s: set<string>): (r: seq<string>)
    ensures StrictlySorted(r)
    ensures Elems(r) == s
  {
    SortedEnumerationExists(s);
    var r :| StrictlySorted(r) && Elems(r) == s;
    r
  }

  /** Iterating a `HashSet`: every element exactly once, in an order the model leaves open. */
  method Enumerate(s: set<string>) returns (xs: seq<string>)
    ensures Elems(xs) == s
    ensures |xs| == |s|
  {
    xs := [];
    var rest := s;
    while rest != {}
      invariant Elems(xs) + rest == s
      invariant Elems(xs) !! rest
      invariant |xs| + |rest| == |s|
      decreases |rest|
    {
      var x :| x in rest;
      assert forall y :: y in xs + [x] <==> y in xs || y == x;
      assert Elems(xs + [x]) == Elems(xs) + {x};
      xs := xs + [x];
      rest := rest - {x};
    }
  }

  /** The elements of `xs` separated by `", "`, as the `toString` loop appends them. */
  function Join(xs: seq<string>): string
  {
    if |xs| == 0 then ""
    else if |xs| == 1 then xs[0]
    else xs[0] + ", " + Join(xs[1..])
  }

  /** `AbstractCollection.toString` of a collection of strings iterating as `xs`. */
  function Render(xs: seq<string>): string
  {
    "[" + Join(xs) + "]"
  }
}
