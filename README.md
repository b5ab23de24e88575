# properties-maven-plugin in Dafny

A model of the `check-properties` Maven goal of properties-maven-plugin, with proofs about it.
The goal looks in every resource directory of a project for the `.properties` files matching
each configured wildcard expression. For each group of files found, it checks that all of them
define the same keys, and fails the build when some do not.

The model follows the four Java classes the goal is made of:

- `PropertiesUtils`:
  - `Find` is the fail-fast loading loop of `find`. It loads one `NamedProperties` per listed
    file, in listing order, named by the file's base name.
  - `Check` is the two accumulating loops of `check`. They build the union of all key sets,
    then the union of what each mapping lacks from it.
  - Both are `method`s with loop invariants, proved against the pure specifications `FindSpec`
    and `CheckSpec`. Lemmas state what those specifications promise.
- `MissingKeyException`: a value holding the names and the keys as `TreeSet`s. It is modelled
  as two strictly sorted, duplicate-free sequences, rendered `"[a, b, c]"` by the getters.
- `NamedProperties`: a `class` with a constant name and a key/value table. The table is
  filled in place by `SetProperty` and `Load`.
- `CheckPropertiesMojo`: a `class` whose `log` field collects the warnings and errors the goal
  writes. Its methods are the nested loops of `execute()` and `check(Resource)` and the error
  handling of `check(Collection)`. Each is proved equal to a ghost specification that runs the
  rounds one after the other and stops at the first that throws.

Support modules:

- `JavaCollections` models the JDK behaviour that shows in the results:
  - the order of `String.compareTo`;
  - `TreeSet` insertion and iteration;
  - `AbstractCollection.toString`;
  - the unspecified iteration order of a `HashSet`.
- `Wrappers` and `Maven` hold the result types and the `MojoExecutionException`/log-event values.

Java exceptions are results: `Result`/`Outcome` values that every caller propagates.

Three things the goal depends on are parameters, since their code is not part of this model:

- the listing of files (`Lister`);
- the parsing of one file (`Loader`);
- the resources and matchers Maven injects.

`check` reports in its exception the name of EVERY mapping of the group, not only the names of
the incomplete ones. This is how line 92 of `PropertiesUtils.java` collects them, and the model
follows that code (`PropertiesUtils.CheckFailureContents`). The unit test cannot tell the two
readings apart, because in it every file misses a key.

## Model

| member | source | states |
|---|---|---|
| JavaCollections.Below | src/main/java/org/softwaredistilled/properties/MissingKeyException.java:29-30 | definition of `a.compareTo(b) < 0`: the first differing character decides, a proper prefix comes first; its order properties are `BelowTotal`, `BelowTransitive` and `BelowAsymmetric` |
| JavaCollections.BelowTotal | src/main/java/org/softwaredistilled/properties/MissingKeyException.java:29-30 | `String.compareTo`, which orders a `TreeSet<String>`, relates any two different strings one way or the other |
| JavaCollections.BelowTransitive | src/main/java/org/softwaredistilled/properties/MissingKeyException.java:29-30 | the `compareTo` order is transitive |
| JavaCollections.BelowAsymmetric | src/main/java/org/softwaredistilled/properties/MissingKeyException.java:29-30 | no two strings are each below the other |
| JavaCollections.Insert | src/main/java/org/softwaredistilled/properties/MissingKeyException.java:29-30 | adding to a `TreeSet` keeps its iteration strictly ascending and adds exactly the new element |
| JavaCollections.SortedSetOf | src/main/java/org/softwaredistilled/properties/MissingKeyException.java:29-30 | the `TreeSet` copy of a collection iterates strictly ascending, with exactly the collection's elements |
| JavaCollections.SortedUnique | src/main/java/org/softwaredistilled/properties/MissingKeyException.java:29-30 | two strictly ascending sequences with the same elements are equal, so a set's sorted iteration is unique |
| JavaCollections.SortedSetOfElemsOnly | src/main/java/org/softwaredistilled/properties/MissingKeyException.java:29-30 | the `TreeSet` copy depends only on which elements the collection holds, not on their order or repetition |
| JavaCollections.Enumerate | src/main/java/org/softwaredistilled/utils/PropertiesUtils.java:105-107 | iterating the `missing` `HashSet` yields every element exactly once, in an order left open |
| JavaCollections.Render | src/main/java/org/softwaredistilled/properties/MissingKeyException.java:38-50 | definition of `AbstractCollection.toString`: `[`, the elements joined by `", "`, then `]`; what the getters render with it is stated by `GettersRenderSortedSets` and `CreateRendersSorted` |
| MissingKeyException.Create | src/main/java/org/softwaredistilled/properties/MissingKeyException.java:28-31 | both stored sequences are strictly sorted and hold exactly the given names and keys, duplicates dropped |
| MissingKeyException.GetNames | src/main/java/org/softwaredistilled/properties/MissingKeyException.java:38-41 | definition: the stored names rendered; for all inputs `GettersRenderSortedSets` states it is the rendering of the sorted given names |
| MissingKeyException.GetKeys | src/main/java/org/softwaredistilled/properties/MissingKeyException.java:48-50 | definition: the stored keys rendered; for all inputs `GettersRenderSortedSets` states it is the rendering of the sorted given keys |
| MissingKeyException.CreateDependsOnSetsOnly | src/main/java/org/softwaredistilled/properties/MissingKeyException.java:29-30 | permuting or repeating the constructor's arguments gives the same exception and the same `getNames`/`getKeys` strings |
| MissingKeyException.CreateStoresSortedSets | src/main/java/org/softwaredistilled/properties/MissingKeyException.java:28-31 | the stored sequences are the unique sorted enumerations of the given sets |
| MissingKeyException.GettersRenderSortedSets | src/main/java/org/softwaredistilled/properties/MissingKeyException.java:38-50 | `getNames`/`getKeys` render the sorted enumeration of the given names and keys |
| MissingKeyException.CreateRendersSorted | src/test/java/org/softwaredistilled/utils/PropertiesUtilsTest.java:85-89 | names ONE, TWO, TREE and keys key.zero, key.one render as `"[ONE, TREE, TWO]"` and `"[key.one, key.zero]"` |
| NamedProperties.NamedProperties.constructor | src/main/java/org/softwaredistilled/properties/NamedProperties.java:23-25 | the name is the one given and the table starts empty; the name is a constant, never changed afterwards |
| NamedProperties.NamedProperties.GetName | src/main/java/org/softwaredistilled/properties/NamedProperties.java:32-34 | definition: the `const` name, which the constructor's contract ties to the given name |
| NamedProperties.NamedProperties.KeySet | src/main/java/org/softwaredistilled/utils/PropertiesUtils.java:93 | definition of the inherited `keySet()`: the table's keys; how it changes is stated by `SetProperty` and `Load` |
| NamedProperties.NamedProperties.SetProperty | src/main/java/org/softwaredistilled/properties/NamedProperties.java:11 | the key maps to the new value, the other entries stay, the key set gains exactly the key, and the replaced value is returned |
| NamedProperties.NamedProperties.Load | src/main/java/org/softwaredistilled/utils/PropertiesUtils.java:58 | every loaded entry is put into the table, overriding an earlier value for the same key; the key set gains exactly the loaded keys |
| NamedProperties.NamedProperties.ToString | src/main/java/org/softwaredistilled/properties/NamedProperties.java:36-40 | definition: the name, `": "`, then the table's own rendering, taken as a parameter; its property is `ToStringSeparatesTables` |
| NamedProperties.ToStringSeparatesTables | src/main/java/org/softwaredistilled/properties/NamedProperties.java:36-40 | the fixed name prefix loses nothing: two `toString` results of one object are equal exactly when the tables' renderings are |
| PropertiesUtils.BaseName | src/main/java/org/softwaredistilled/utils/PropertiesUtils.java:57 | definition of `file.getName()` on a listed path; its meaning is stated by `BaseNameIsLastComponent` |
| PropertiesUtils.BaseNameIsLastComponent | src/main/java/org/softwaredistilled/utils/PropertiesUtils.java:57 | `file.getName()` is the suffix of the path after its last `/`, and holds no `/` |
| PropertiesUtils.FindLoadsEveryFile | src/main/java/org/softwaredistilled/utils/PropertiesUtils.java:51-68 | `find` succeeds exactly when every listed file loads; then it yields one mapping per file, in listing order, named by the file's base name and holding its entries, and an empty listing yields an empty collection |
| PropertiesUtils.FindStopsAtFirstFailure | src/main/java/org/softwaredistilled/utils/PropertiesUtils.java:53-66 | a failing `find` throws `"Error when loading properties."` wrapping the cause of the first file that fails to load; every file before it loaded |
| PropertiesUtils.FindFailureIsFinal | src/main/java/org/softwaredistilled/utils/PropertiesUtils.java:53-66 | after a load failure, later files change nothing: there is no partial result |
| PropertiesUtils.FindOne | src/main/java/org/softwaredistilled/utils/PropertiesUtils.java:57-65 | one loop pass: a fresh object named by the base name and filled with the file's entries, or the wrapping exception |
| PropertiesUtils.Find | src/main/java/org/softwaredistilled/utils/PropertiesUtils.java:44-70 | lists with the pattern `matcher + ".properties"` and returns exactly what `FindSpec` specifies, as freshly allocated objects |
| PropertiesUtils.Names | src/main/java/org/softwaredistilled/utils/PropertiesUtils.java:90-93 | definition of the `names` list the first loop builds; which names it holds is stated by `NamesMembers` |
| PropertiesUtils.NamesMembers | src/main/java/org/softwaredistilled/utils/PropertiesUtils.java:90-93 | a name is collected exactly when some mapping of the group carries it, complete or not |
| PropertiesUtils.UnionUpToMembers | src/main/java/org/softwaredistilled/utils/PropertiesUtils.java:86-94 | after `n` rounds of the first loop, `all` holds exactly the keys some of the first `n` mappings define |
| PropertiesUtils.MissingUpToMembers | src/main/java/org/softwaredistilled/utils/PropertiesUtils.java:88-103 | after `n` rounds of the second loop, `missing` holds exactly the keys of `all` some of the first `n` mappings lack |
| PropertiesUtils.KeyUnionMembers | src/main/java/org/softwaredistilled/utils/PropertiesUtils.java:86-94 | a key is in the union exactly when some mapping defines it |
| PropertiesUtils.MissingKeysMembers | src/main/java/org/softwaredistilled/utils/PropertiesUtils.java:86-103 | a key is missing exactly when one mapping defines it and another lacks it |
| PropertiesUtils.CheckSpecFailsWith | src/main/java/org/softwaredistilled/utils/PropertiesUtils.java:105-107 | with missing keys, the exception is built from all names and the missing keys, whatever order the `HashSet` iterates in |
| PropertiesUtils.Check | src/main/java/org/softwaredistilled/utils/PropertiesUtils.java:81-108 | the two loops compute exactly `CheckSpec` of the group's current values; with no `modifies` clause, no mapping is changed |
| PropertiesUtils.CheckPassesIffSameKeys | src/main/java/org/softwaredistilled/utils/PropertiesUtils.java:96-107 | `check` returns normally if and only if every mapping defines the same keys, whatever the values |
| PropertiesUtils.CheckPassesOnSmallGroups | src/main/java/org/softwaredistilled/utils/PropertiesUtils.java:96-107 | an empty group or a single mapping never makes `check` throw |
| PropertiesUtils.CheckFailureContents | src/main/java/org/softwaredistilled/utils/PropertiesUtils.java:84-107 | the thrown exception is sorted, names every mapping of the group, and holds exactly the keys some mapping defines and another lacks |
| PropertiesUtils.CheckDependsOnShapesOnly | src/main/java/org/softwaredistilled/utils/PropertiesUtils.java:90-107 | `check` depends only on which names come with which key sets: not on order, repetition or values |
| PropertiesUtils.CheckPassesSameKeysScenario | src/test/java/org/softwaredistilled/utils/PropertiesUtilsTest.java:35-59 | ONE, TWO and TREE, each with `key.one` and `key.two`, pass |
| PropertiesUtils.CheckReportsMissingKeysScenario | src/test/java/org/softwaredistilled/utils/PropertiesUtilsTest.java:64-91 | ONE{key.one, key.two}, TWO{key.zero, key.two}, TREE{key.two} throw with names `"[ONE, TREE, TWO]"` and keys `"[key.one, key.zero]"` |
| CheckPropertiesMojo.CheckPropertiesMojo.constructor | src/main/java/org/softwaredistilled/mojo/CheckPropertiesMojo.java:27-31 | the goal holds the injected resource directories and matchers and has logged nothing |
| CheckPropertiesMojo.CheckPropertiesMojo.Execute | src/main/java/org/softwaredistilled/mojo/CheckPropertiesMojo.java:34-41 | appends to the log, and returns, exactly what `ExecuteSpec` says: the resources in order, stopping at the first that throws |
| CheckPropertiesMojo.CheckPropertiesMojo.CheckResource | src/main/java/org/softwaredistilled/mojo/CheckPropertiesMojo.java:52-68 | appends and returns what `ResourceSpec` says: the matchers in order, stopping at the first that throws |
| CheckPropertiesMojo.CheckPropertiesMojo.CheckMatcher | src/main/java/org/softwaredistilled/mojo/CheckPropertiesMojo.java:56-66 | `find`'s exception is rethrown; an empty result logs the warning naming the matcher; any other result goes to the check |
| CheckPropertiesMojo.CheckPropertiesMojo.CheckProperties | src/main/java/org/softwaredistilled/mojo/CheckPropertiesMojo.java:79-95 | a passing group logs nothing; a failing one logs one error carrying `getNames()` and `getKeys()`, then throws `"Missing keys"` |
| CheckPropertiesMojo.StepsFailureIsFinal | src/main/java/org/softwaredistilled/mojo/CheckPropertiesMojo.java:54-67 | once a round has thrown, later rounds change neither the log nor the outcome |
| CheckPropertiesMojo.StepsPassIffAllPass | src/main/java/org/softwaredistilled/mojo/CheckPropertiesMojo.java:38-40 | a sequence of rounds completes normally exactly when each round does |
| CheckPropertiesMojo.StepsStopAtFirstFailure | src/main/java/org/softwaredistilled/mojo/CheckPropertiesMojo.java:54-67 | a failing sequence throws what its first throwing round throws, and logs what the rounds up to that one log |
| CheckPropertiesMojo.StepsOfQuietRuns | src/main/java/org/softwaredistilled/mojo/CheckPropertiesMojo.java:54-67 | rounds that log nothing and pass add up to nothing logged and a pass |
| CheckPropertiesMojo.ExecutePassesIffEveryRoundPasses | src/main/java/org/softwaredistilled/mojo/CheckPropertiesMojo.java:34-68 | `execute` completes normally exactly when every (resource, matcher) round does |
| CheckPropertiesMojo.FirstFailingMatcher | src/main/java/org/softwaredistilled/mojo/CheckPropertiesMojo.java:54-67 | a throwing `check(Resource)` has a first throwing matcher; the earlier ones pass, and the later ones are never looked at |
| CheckPropertiesMojo.FirstFailingResource | src/main/java/org/softwaredistilled/mojo/CheckPropertiesMojo.java:38-40 | a throwing `execute` has a first throwing resource; the earlier ones pass, and the later ones are never looked at |
| CheckPropertiesMojo.FirstFailingRound | src/main/java/org/softwaredistilled/mojo/CheckPropertiesMojo.java:34-68 | a throwing `execute` has a first throwing (resource, matcher) round, and the goal is as if the configuration ended there |
| CheckPropertiesMojo.ExecuteStopsAtFirstFailure | src/main/java/org/softwaredistilled/mojo/CheckPropertiesMojo.java:34-68 | fail-fast: every round before the first throwing one passes, the goal throws what that round throws, and nothing after it is processed or logged |
| CheckPropertiesMojo.ExecuteQuietWhenConsistent | src/main/java/org/softwaredistilled/mojo/CheckPropertiesMojo.java:54-67 | when every matcher finds files and every check passes, `execute` completes normally and logs nothing, in particular no warning |
| CheckPropertiesMojo.MatcherWellLogged | src/main/java/org/softwaredistilled/mojo/CheckPropertiesMojo.java:56-92 | every warning a round logs names a configured matcher, an error is only its last event and is followed by `"Missing keys"`, and it throws nothing but a load failure or `"Missing keys"` |
| CheckPropertiesMojo.ExecuteLogShape | src/main/java/org/softwaredistilled/mojo/CheckPropertiesMojo.java:34-92 | for the whole goal: every warning names a configured matcher, an error is logged only as the last event and before `"Missing keys"`, and any other exception is a load failure |
| CheckPropertiesMojo.ExecuteWarnsOnceWhenNothingFound | src/test/java/org/softwaredistilled/mojo/CheckPropertiesMojoTest.java:128-149 | one resource, one matcher that finds nothing: exactly one warning, `"No properties found with expression: "` and the matcher, and no exception |
| CheckPropertiesMojo.ExecuteReportsMissingKeys | src/main/java/org/softwaredistilled/mojo/CheckPropertiesMojo.java:86-92 | one resource, one matcher whose files miss keys: exactly one error with the exception's names and keys, no warning, and `"Missing keys"` thrown |

## Left out

- File discovery is left out. `FileUtils.listFiles` with `WildcardFileFilter` and `DirectoryFileFilter` is library code. The model takes the listing as the `Lister` parameter: directory and pattern in, matched paths out. No wildcard matcher is modelled.
- Parsing a `.properties` file through `FileInputStream` and `Properties.load` is JDK I/O. The model takes it as the `Loader` parameter: a path in, its entries or a failure out.
- The stream opened in `find` is never closed. That resource leak is outside the model.
- NamedProperties.NamedProperties.Load: takes the file's entries as a map. Which of two lines with the same key wins, and how escapes are decoded, belong to the `Loader`.
- The cause that `find` wraps is kept as the loader's error text, not as an exception object.
- Maven plumbing is left out. `@Component`/`@Parameter` injection and `MavenProject.getResources()` become the constructor's two sequences. The `Log` sink is the `log` field, a sequence of warning and error events.
- NamedProperties.NamedProperties.ToString: the `Hashtable` rendering of the table is a parameter, since Java leaves its entry order unspecified. The `synchronized` modifier is concurrency and not modelled.
- Guava's `Sets.difference` view is Dafny's `set` difference.
- `Properties` keys are `Object`s in Java. After `load` and `setProperty` they are strings, and the model types them so.
- JavaCollections.Below: compares Dafny characters. `String.compareTo` compares UTF-16 code units, which differs only between strings holding characters outside the Basic Multilingual Plane.
- PropertiesUtils.BaseName: takes the part after the last `/`. `File.getName` also honours the platform separator and the path normalisation of the `File` constructor, such as dropping a trailing separator.
- The test scaffolding is left out: `ReflectionTestUtils`, PowerMock and Mockito. Their assertions are restated as the scenario lemmas above.
