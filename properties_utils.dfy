/**
 * `PropertiesUtils`: loading every `.properties` file that matches a wildcard under a
 * directory (`find`), and checking that a group of loaded files defines the same keys
 * (`check`).
 *
 * The directory walk with its wildcard filter and the parsing of one file are outside
 * the model: `find` receives them as a `Lister` and a `Loader`.
 */
module PropertiesUtils {
  import opened Wrappers
  import opened JavaCollections
  import opened Maven
  import opened MissingKeyException
  import opened NamedProperties

  /** The suffix appended to every matcher before the directory is searched. */
  const PROPERTIES := ".properties"

  /** The message of the exception that reports a file that could not be loaded. */
  const LOAD_ERROR := "Error when loading properties."

  /** `FileUtils.listFiles(new File(directory), new WildcardFileFilter(pattern), DIRECTORY)`:
      the paths of the matching files, in the order the walk returns them. */
  type Lister = (string, string) -> seq<string>

  /** `new FileInputStream(path)` followed by `Properties.load`: the entries of the file,
      or a description of the exception either of them threw. */
  type Loader = string -> Result<map<string, string>, string>

  /** Where the last component of `path[..n]` starts: just after its last separator,
      or at 0 when it has none. */
  function ComponentStart(path: string, n: nat): (start: nat)
    requires n <= |path|
    ensures start <= n
  {
    if n == 0 then 0 else if path[n - 1] == '/' then n else ComponentStart(path, n - 1)
  }

  /** `new File(path).getName()`: the part of the path after its last separator. */
  function BaseName(path: string): string
  {
    path[ComponentStart(path, |path|)..]
  }

  lemma {:induction false} ComponentStartIsAfterLastSeparator(path: string, n: nat)
    requires n <= |path|
    ensures forall i :: ComponentStart(path, n) <= i < n ==> path[i] != '/'
    ensures ComponentStart(path, n) > 0 ==> path[ComponentStart(path, n) - 1] == '/'
    decreases n
  {
    if n != 0 && path[n - 1] != '/' {
      ComponentStartIsAfterLastSeparator(path, n - 1);
    }
  }

  /** The base name is the whole last component of the path: a suffix of it with no
      separator inside, preceded by a separator or by nothing at all. */
  lemma BaseNameIsLastComponent(path: string)
    ensures |BaseName(path)| <= |path|
    ensures BaseName(path) == path[|path| - |BaseName(path)|..]
    ensures '/' !in BaseName(path)
    ensures |BaseName(path)| < |path| ==> path[|path| - |BaseName(path)| - 1] == '/'
  {
    ComponentStartIsAfterLastSeparator(path, |path|);
  }

  // ---------------------------------------------------------------- find

  /** What the loop of `find` holds after the first `n` listed files: a mapping per
      file, in listing order, named by the file's base name; or, as soon as one file
      fails to load, the wrapping exception and nothing else. */
  function FindUpTo(files: seq<string>, n: nat, load: Loader): Result<seq<Named>, MojoExecutionException>
    requires n <= |files|
  {
    if n == 0 then Success([])
    else
      match FindUpTo(files, n - 1, load)
      case Failure(e) => Failure(e)
      case Success(found) =>
        match load(files[n - 1])
        case Failure(cause) => Failure(MojoExecutionException(LOAD_ERROR, Some(cause)))
        case Success(entries) => Success(found + [Named(BaseName(files[n - 1]), entries)])
  }

  /** What `find` returns for the listed `files`. */
  function FindSpec(files: seq<string>, load: Loader): Result<seq<Named>, MojoExecutionException>
  {
    FindUpTo(files, |files|, load)
  }

  /** `find` succeeds exactly when every listed file loads, and then yields one mapping
      per file, in listing order, named by its base name and holding its entries. An
      empty listing therefore yields an empty collection, not an error. */
  lemma {:induction false} FindLoadsEveryFile(files: seq<string>, n: nat, load: Loader)
    requires n <= |files|
    ensures FindUpTo(files, n, load).Success? <==> forall i :: 0 <= i < n ==> load(files[i]).Success?
    ensures FindUpTo(files, n, load).Success? ==>
              && |FindUpTo(files, n, load).value| == n
              && forall i :: 0 <= i < n ==>
                   && FindUpTo(files, n, load).value[i].name == BaseName(files[i])
                   && load(files[i]) == Success(FindUpTo(files, n, load).value[i].props)
    decreases n
  {
    if n != 0 {
      FindLoadsEveryFile(files, n - 1, load);
    }
  }

  /** A failing `find` reports the FIRST file that fails to load: every file before it
      loaded, and the exception wraps that file's cause. */
  lemma {:induction false} FindStopsAtFirstFailure(files: seq<string>, n: nat, load: Loader)
    requires n <= |files|
    requires FindUpTo(files, n, load).Failure?
    ensures exists k :: && 0 <= k < n
                        && (forall j :: 0 <= j < k ==> load(files[j]).Success?)
                        && load(files[k]).Failure?
                        && FindUpTo(files, n, load).error == MojoExecutionException(LOAD_ERROR, Some(load(files[k]).error))
    decreases n
  {
    if FindUpTo(files, n - 1, load).Failure? {
      FindStopsAtFirstFailure(files, n - 1, load);
      var k :| && 0 <= k < n - 1
               && (forall j :: 0 <= j < k ==> load(files[j]).Success?)
               && load(files[k]).Failure?
               && FindUpTo(files, n - 1, load).error == MojoExecutionException(LOAD_ERROR, Some(load(files[k]).error));
      assert FindUpTo(files, n, load) == FindUpTo(files, n - 1, load);
    } else {
      FindLoadsEveryFile(files, n - 1, load);
      var k := n - 1;
      assert forall j :: 0 <= j < k ==> load(files[j]).Success?;
      assert load(files[k]).Failure?;
    }
  }

  /** Once the first `k` files have produced a failure, the files after them change nothing. */
  lemma {:induction false} FindFailureIsFinal(files: seq<string>, k: nat, n: nat, load: Loader)
    requires k <= n <= |files|
    requires FindUpTo(files, k, load).Failure?
    ensures FindUpTo(files, n, load) == FindUpTo(files, k, load)
    decreases n
  {
    if k < n {
      FindFailureIsFinal(files, k, n - 1, load);
    }
  }

  /** One pass of the loop of `find`: a fresh object named after the file, filled
      with what the file holds; a load failure becomes the wrapping exception. */
  method FindOne(file: string, load: Loader) returns (r: Result<NamedProperties, MojoExecutionException>)
    ensures load(file).Failure? ==> r == Failure(MojoExecutionException(LOAD_ERROR, Some(load(file).error)))
    ensures load(file).Success? ==>
              && r.Success? && fresh(r.value)
              && r.value.Value() == Named(BaseName(file), load(file).value)
  {
    var properties := new NamedProperties(BaseName(file));
    var loaded := load(file);
    if loaded.Failure? {
      r := Failure(MojoExecutionException(LOAD_ERROR, Some(loaded.error)));
    } else {
      properties.Load(loaded.value);
      r := Success(properties);
    }
  }

  /** `PropertiesUtils.find(directory, matcher)`. */
  method Find(directory: string, matcher: string, list: Lister, load: Loader)
    returns (r: Result<seq<NamedProperties>, MojoExecutionException>)
    ensures FindSpec(list(directory, matcher + PROPERTIES), load).Failure? ==>
              r == Failure(FindSpec(list(directory, matcher + PROPERTIES), load).error)
    ensures FindSpec(list(directory, matcher + PROPERTIES), load).Success? ==>
              && r.Success?
              && Values(r.value) == FindSpec(list(directory, matcher + PROPERTIES), load).value
              && forall p :: p in r.value ==> fresh(p)
  {
    var files := list(directory, matcher + PROPERTIES);
    var found: seq<NamedProperties> := [];
    r := Success(found);
    var i := 0;
    while i < |files| && r.Success?
      invariant 0 <= i <= |files|
      invariant r.Success? ==> r == Success(found) && FindUpTo(files, i, load) == Success(Values(found))
      invariant r.Failure? ==> FindUpTo(files, i, load) == Failure(r.error)
      invariant forall p :: p in found ==> fresh(p)
    {
      var one := FindOne(files[i], load);
      if one.Failure? {
        r := Failure(one.error);
      } else {
        ValuesAppend(found, one.value);
        found := found + [one.value];
        r := Success(found);
      }
      i := i + 1;
    }
    if r.Failure? {
      FindFailureIsFinal(files, i, |files|, load);
    }
  }

  // ---------------------------------------------------------------- check

  /** The name of every mapping of the group, in order (`names` in `check`). */
  function Names(group: seq<Named>): seq<string>
  {
    seq(|group|, i requires 0 <= i < |group| => group[i].name)
  }

  /** The union of the key sets of the first `n` mappings (`all` after `n` rounds). */
  function UnionUpTo(group: seq<Named>, n: nat): set<string>
    requires n <= |group|
  {
    if n == 0 then {} else UnionUpTo(group, n - 1) + group[n - 1].props.Keys
  }

  /** The union over the first `n` mappings of `all` minus their keys (`missing` after `n` rounds). */
  function MissingUpTo(group: seq<Named>, all: set<string>, n: nat): set<string>
    requires n <= |group|
  {
    if n == 0 then {} else MissingUpTo(group, all, n - 1) + (all - group[n - 1].props.Keys)
  }

  /** Every key some mapping of the group defines. */
  function KeyUnion(group: seq<Named>): set<string>
  {
    UnionUpTo(group, |group|)
  }

  /** Every key of the union that some mapping of the group lacks. */
  function MissingKeys(group: seq<Named>): set<string>
  {
    MissingUpTo(group, KeyUnion(group), |group|)
  }

  lemma {:induction false} UnionUpToMembers(group: seq<Named>, n: nat, k: string)
    requires n <= |group|
    ensures k in UnionUpTo(group, n) <==> exists i :: 0 <= i < n && k in group[i].props
  {
    if n != 0 {
      UnionUpToMembers(group, n - 1, k);
    }
  }

  lemma {:induction false} MissingUpToMembers(group: seq<Named>, all: set<string>, n: nat, k: string)
    requires n <= |group|
    ensures k in MissingUpTo(group, all, n) <==> k in all && exists i :: 0 <= i < n && k !in group[i].props
  {
    if n != 0 {
      MissingUpToMembers(group, all, n - 1, k);
    }
  }

  /** A key is in the union exactly when some mapping of the group defines it. */
  lemma KeyUnionMembers(group: seq<Named>, k: string)
    ensures k in KeyUnion(group) <==> exists i :: 0 <= i < |group| && k in group[i].props
  {
    UnionUpToMembers(group, |group|, k);
  }

  /** A key is missing exactly when one mapping of the group defines it and another lacks it. */
  lemma MissingKeysMembers(group: seq<Named>, k: string)
    ensures k in MissingKeys(group) <==>
              && (exists i :: 0 <= i < |group| && k in group[i].props)
              && (exists j :: 0 <= j < |group| && k !in group[j].props)
  {
    KeyUnionMembers(group, k);
    MissingUpToMembers(group, KeyUnion(group), |group|, k);
  }

  /** What `check` does with a group: return normally, or throw a `MissingKeyException`
      built from the names of ALL the mappings and the keys missing from any of them. */
  ghost function CheckSpec(group: seq<Named>): Outcome<MissingKey>
  {
    var missing := MissingKeys(group);
    if missing == {} then Pass else Fail(MissingKey(SortedSetOf(Names(group)), Sorted(missing)))
  }

  /** However the `missing` set is iterated, the exception built from it is the same. */
  lemma CheckSpecFailsWith(group: seq<Named>, names: seq<string>, keys: seq<string>)
    requires names == Names(group)
    requires Elems(keys) == MissingKeys(group) != {}
    ensures CheckSpec(group) == Fail(Create(names, keys))
  {
    SortedUnique(SortedSetOf(keys), Sorted(Elems(keys)));
  }

  /** `PropertiesUtils.check(properties)`. It reads the objects and changes none of them. */
  method Check(properties: seq<NamedProperties>) returns (r: Outcome<MissingKey>)
    ensures r == CheckSpec(Values(properties))
  {
    ghost var group := Values(properties);
    var names: seq<string> := [];
    var all: set<string> := {};
    var missing: set<string> := {};
    var i := 0;
    while i < |properties|
      invariant 0 <= i <= |properties|
      invariant names == Names(group)[..i]
      invariant all == UnionUpTo(group, i)
    {
      names := names + [properties[i].GetName()];
      all := all + properties[i].KeySet();
      i := i + 1;
    }
    i := 0;
    while i < |properties|
      invariant 0 <= i <= |properties|
      invariant missing == MissingUpTo(group, all, i)
    {
      var difference := all - properties[i].KeySet();
      if difference != {} {
        missing := missing + difference;
      }
      i := i + 1;
    }
    if missing != {} {
      var keys := Enumerate(missing);
      CheckSpecFailsWith(group, names, keys);
      return Fail(Create(names, keys));
    }
    return Pass;
  }

  // ---------------------------------------------------------------- what check promises

  /** Every mapping of the group defines the same keys as every other. */
  predicate SameKeys(group: seq<Named>)
  {
    forall i, j :: 0 <= i < |group| && 0 <= j < |group| ==> group[i].props.Keys == group[j].props.Keys
  }

  /** `check` returns normally exactly when all the mappings define the same keys,
      whatever values they map them to; otherwise it throws. */
  lemma CheckPassesIffSameKeys(group: seq<Named>)
    ensures CheckSpec(group) == Pass <==> SameKeys(group)
  {
    if MissingKeys(group) == {} {
      forall i, j | 0 <= i < |group| && 0 <= j < |group|
        ensures group[i].props.Keys == group[j].props.Keys
      {
        forall k | k in group[i].props ensures k in group[j].props {
          MissingKeysMembers(group, k);
        }
        forall k | k in group[j].props ensures k in group[i].props {
          MissingKeysMembers(group, k);
        }
      }
    } else {
      var k :| k in MissingKeys(group);
      MissingKeysMembers(group, k);
    }
  }

  /** An empty collection or a single mapping never makes `check` throw. */
  lemma CheckPassesOnSmallGroups(group: seq<Named>)
    requires |group| <= 1
    ensures CheckSpec(group) == Pass
  {
    CheckPassesIffSameKeys(group);
  }

  /** When `check` throws, the exception is well formed, names EVERY mapping of the
      group, complete ones included, and holds exactly the keys that some mapping
      defines and some mapping lacks. */
  lemma CheckFailureContents(group: seq<Named>)
    requires CheckSpec(group).Fail?
    ensures CheckSpec(group).error.Valid()
    ensures forall x :: x in CheckSpec(group).error.names <==> exists i :: 0 <= i < |group| && group[i].name == x
    ensures forall k :: k in CheckSpec(group).error.keys <==>
              && (exists i :: 0 <= i < |group| && k in group[i].props)
              && (exists j :: 0 <= j < |group| && k !in group[j].props)
  {
    var e := CheckSpec(group).error;
    forall x ensures x in e.names <==> exists i :: 0 <= i < |group| && group[i].name == x {
      assert x in e.names <==> x in Elems(Names(group));
      NamesMembers(group, x);
    }
    forall k ensures k in e.keys <==>
               && (exists i :: 0 <= i < |group| && k in group[i].props)
               && (exists j :: 0 <= j < |group| && k !in group[j].props)
    {
      assert k in e.keys <==> k in Elems(e.keys);
      MissingKeysMembers(group, k);
    }
  }

  /** The name of each mapping with its key set: all that `check` looks at. */
  function Shapes(group: seq<Named>): set<(string, set<string>)>
  {
    set m | m in group :: (m.name, m.props.Keys)
  }

  lemma ShapeWitness(g1: seq<Named>, g2: seq<Named>, i: int)
    requires Shapes(g1) <= Shapes(g2)
    requires 0 <= i < |g1|
    ensures exists j :: 0 <= j < |g2| && g2[j].name == g1[i].name && g2[j].props.Keys == g1[i].props.Keys
  {
    assert (g1[i].name, g1[i].props.Keys) in Shapes(g2);
    var m :| m in g2 && (m.name, m.props.Keys) == (g1[i].name, g1[i].props.Keys);
    var j :| 0 <= j < |g2| && g2[j] == m;
  }

  lemma ShapesCover(g1: seq<Named>, g2: seq<Named>, k: string)
    requires Shapes(g1) <= Shapes(g2)
    ensures (exists i :: 0 <= i < |g1| && k in g1[i].props) ==> exists j :: 0 <= j < |g2| && k in g2[j].props
    ensures (exists i :: 0 <= i < |g1| && k !in g1[i].props) ==> exists j :: 0 <= j < |g2| && k !in g2[j].props
    ensures (exists i :: 0 <= i < |g1| && g1[i].name == k) ==> exists j :: 0 <= j < |g2| && g2[j].name == k
  {
    if i :| 0 <= i < |g1| && k in g1[i].props {
      ShapeWitness(g1, g2, i);
    }
    if i :| 0 <= i < |g1| && k !in g1[i].props {
      ShapeWitness(g1, g2, i);
    }
    if i :| 0 <= i < |g1| && g1[i].name == k {
      ShapeWitness(g1, g2, i);
    }
  }

  lemma NamesMembers(group: seq<Named>, x: string)
    ensures x in Elems(Names(group)) <==> exists i :: 0 <= i < |group| && group[i].name == x
  {
    if x in Names(group) {
      var i :| 0 <= i < |group| && Names(group)[i] == x;
    }
    if i :| 0 <= i < |group| && group[i].name == x {
      assert Names(group)[i] == x;
    }
  }

  lemma SameShapesSameMissingKeys(g1: seq<Named>, g2: seq<Named>)
    requires Shapes(g1) <= Shapes(g2) && Shapes(g2) <= Shapes(g1)
    ensures MissingKeys(g1) == MissingKeys(g2)
  {
    forall k ensures k in MissingKeys(g1) <==> k in MissingKeys(g2) {
      MissingKeysMembers(g1, k);
      MissingKeysMembers(g2, k);
      ShapesCover(g1, g2, k);
      ShapesCover(g2, g1, k);
    }
  }

  lemma SameShapesSameNames(g1: seq<Named>, g2: seq<Named>)
    requires Shapes(g1) <= Shapes(g2) && Shapes(g2) <= Shapes(g1)
    ensures Elems(Names(g1)) == Elems(Names(g2))
  {
    forall x ensures x in Elems(Names(g1)) <==> x in Elems(Names(g2)) {
      NamesMembers(g1, x);
      NamesMembers(g2, x);
      ShapesCover(g1, g2, x);
      ShapesCover(g2, g1, x);
    }
  }

  /** `check` depends only on which names come with which key sets: reordering the
      collection, repeating a mapping or changing any value leaves its outcome,
      the exception included, unchanged. */
  lemma CheckDependsOnShapesOnly(g1: seq<Named>, g2: seq<Named>)
    requires Shapes(g1) == Shapes(g2)
    ensures CheckSpec(g1) == CheckSpec(g2)
  {
    SameShapesSameMissingKeys(g1, g2);
    SameShapesSameNames(g1, g2);
    SortedSetOfElemsOnly(Names(g1), Names(g2));
  }

  /** Three files defining `key.one` and `key.two` with different values pass. */
  lemma CheckPassesSameKeysScenario(group: seq<Named>)
    requires group == [Named("ONE", map["key.one" := "A value for one", "key.two" := "A value for two"]),
                       Named("TWO", map["key.one" := "Another value for one", "key.two" := "Another value for two"]),
                       Named("TREE", map["key.one" := "A third value for one", "key.two" := "A third value for two"])]
    ensures CheckSpec(group) == Pass
  {
    CheckPassesIffSameKeys(group);
  }

  /** ONE{key.one, key.two}, TWO{key.zero, key.two}, TREE{key.two}: the exception names
      all three files, sorted, and reports `key.one` and `key.zero`. */
  lemma CheckReportsMissingKeysScenario(group: seq<Named>)
    requires group == [Named("ONE", map["key.one" := "A value for one", "key.two" := "A value for two"]),
                       Named("TWO", map["key.zero" := "A value for zero", "key.two" := "Another value for two"]),
                       Named("TREE", map["key.two" := "A third value for two"])]
    ensures CheckSpec(group).Fail?
    ensures GetNames(CheckSpec(group).error) == "[ONE, TREE, TWO]"
    ensures GetKeys(CheckSpec(group).error) == "[key.one, key.zero]"
  {
    var names: seq<string> := ["ONE", "TWO", "TREE"];
    var keys: seq<string> := ["key.zero", "key.one"];
    assert Names(group) == names;
    assert group[0].props.Keys == {"key.one", "key.two"};
    assert group[1].props.Keys == {"key.zero", "key.two"};
    assert group[2].props.Keys == {"key.two"};
    var all := {"key.one", "key.two", "key.zero"};
    assert UnionUpTo(group, 1) == {"key.one", "key.two"};
    assert UnionUpTo(group, 2) == {"key.one", "key.two", "key.zero"};
    assert KeyUnion(group) == all;
    assert MissingUpTo(group, all, 1) == {"key.zero"};
    assert MissingUpTo(group, all, 2) == {"key.zero", "key.one"};
    assert MissingKeys(group) == {"key.zero", "key.one"};
    assert Elems(keys) == {"key.zero", "key.one"};
    CheckSpecFailsWith(group, names, keys);
    CreateRendersSorted(names, keys);
  }
}
