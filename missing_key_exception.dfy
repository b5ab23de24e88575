/**
 * `MissingKeyException`: the failure of a consistency check. It keeps the names of the
 * checked properties files and the missing keys as `TreeSet`s, so both are held sorted
 * by `String.compareTo` and without duplicates, and its getters render them as
 * `"[a, b, c]"`.
 */
module MissingKeyException {
  import opened JavaCollections

  /** The two sets the exception holds, in their `TreeSet` iteration order. */
  datatype MissingKey = MissingKey(names: seq<string>, keys: seq<string>)
  {
    /** What the constructor establishes and nothing afterwards changes. */
    predicate Valid()
    {
      StrictlySorted(names) && StrictlySorted(keys)
    }
  }

  /** `new MissingKeyException(names, keys)`: both collections copied into `TreeSet`s. */
  function Create(names: seq<string>, keys: seq<string>): (e: MissingKey)
    ensures e.Valid()
    ensures Elems(e.names) == Elems(names)
    ensures Elems(e.keys) == Elems(keys)
  {
    MissingKey(SortedSetOf(names), SortedSetOf(keys))
  }

  /** `getNames()`: the stored names rendered by `toString`. */
  function GetNames(e: MissingKey): string
  {
    Render(e.names)
  }

  /** `getKeys()`: the stored keys rendered by `toString`. */
  function GetKeys(e: MissingKey): string
  {
    Render(e.keys)
  }

  /** The exception is fixed by the two SETS it is given: permuting or repeating
      the arguments yields the same value, hence the same `getNames`/`getKeys`. */
  lemma CreateDependsOnSetsOnly(names1: seq<string>, keys1: seq<string>, names2: seq<string>, keys2: seq<string>)
    requires Elems(names1) == Elems(names2)
    requires Elems(keys1) == Elems(keys2)
    ensures Create(names1, keys1) == Create(names2, keys2)
    ensures GetNames(Create(names1, keys1)) == GetNames(Create(names2, keys2))
    ensures GetKeys(Create(names1, keys1)) == GetKeys(Create(names2, keys2))
  {
    SortedSetOfElemsOnly(names1, names2);
    SortedSetOfElemsOnly(keys1, keys2);
  }

  /** A valid exception's stored sequences are the unique sorted enumerations of
      what it was given, whatever order the constructor's arguments came in. */
  lemma CreateStoresSortedSets(names: seq<string>, keys: seq<string>)
    ensures Create(names, keys).names == Sorted(Elems(names))
    ensures Create(names, keys).keys == Sorted(Elems(keys))
  {
    SortedUnique(Create(names, keys).names, Sorted(Elems(names)));
    SortedUnique(Create(names, keys).keys, Sorted(Elems(keys)));
  }

  /** Once the sorted enumerations are known, so are the getters' strings. */
  lemma GettersRenderSortedSets(names: seq<string>, keys: seq<string>, sortedNames: seq<string>, sortedKeys: seq<string>)
    requires StrictlySorted(sortedNames) && Elems(sortedNames) == Elems(names)
    requires StrictlySorted(sortedKeys) && Elems(sortedKeys) == Elems(keys)
    ensures GetNames(Create(names, keys)) == Render(sortedNames)
    ensures GetKeys(Create(names, keys)) == Render(sortedKeys)
  {
    SortedUnique(Create(names, keys).names, sortedNames);
    SortedUnique(Create(names, keys).keys, sortedKeys);
  }

  lemma SortedTestNames()
    ensures StrictlySorted(["ONE", "TREE", "TWO"])
  {
    assert Below("ONE", "TREE") && Below("ONE", "TWO") && Below("TREE", "TWO");
  }

  lemma SortedTestKeys()
    ensures StrictlySorted(["key.one", "key.zero"])
  {
    assert Below("one", "zero");
    assert Below(".one", ".zero");
    assert Below("y.one", "y.zero");
    assert Below("ey.one", "ey.zero");
    assert Below("key.one", "key.zero");
  }

  lemma RenderTestNames()
    ensures Render(["ONE", "TREE", "TWO"]) == "[ONE, TREE, TWO]"
  {
    assert Join(["TWO"]) == "TWO";
    assert Join(["TREE", "TWO"]) == "TREE, TWO";
  }

  lemma RenderTestKeys()
    ensures Render(["key.one", "key.zero"]) == "[key.one, key.zero]"
  {
    assert Join(["key.zero"]) == "key.zero";
  }

  /** The names of the three files of the missing-keys unit test, given in the
      order the check collects them, render sorted. */
  lemma CreateRendersSorted(given: seq<string>, missing: seq<string>)
    requires given == ["ONE", "TWO", "TREE"] && missing == ["key.zero", "key.one"]
    ensures GetNames(Create(given, missing)) == "[ONE, TREE, TWO]"
    ensures GetKeys(Create(given, missing)) == "[key.one, key.zero]"
  {
    SortedTestNames();
    SortedTestKeys();
    RenderTestNames();
    RenderTestKeys();
    var names: seq<string> := ["ONE", "TREE", "TWO"];
    var keys: seq<string> := ["key.one", "key.zero"];
    assert Elems(names) == Elems(given) by {
      assert forall x :: x in names <==> x in given;
    }
    assert Elems(keys) == Elems(missing) by {
      assert forall x :: x in keys <==> x in missing;
    }
    GettersRenderSortedSets(given, missing, names, keys);
  }
}
