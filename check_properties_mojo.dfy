/**
 * `CheckPropertiesMojo`: the `check-properties` goal. For every resource directory of
 * the project, in order, and every configured matcher, in order, it loads the matching
 * `.properties` files; it warns when a matcher finds none and otherwise checks that the
 * files found define the same keys. The first failure, a file that does not load or a
 * group with missing keys, ends the goal.
 *
 * Maven's `Log` is the field `log`, the sequence of events written to it. Discovery and
 * parsing of files reach the goal through `find`, whose `Lister` and `Loader` are
 * parameters here.
 */
module CheckPropertiesMojo {
  import opened Wrappers
  import opened Maven
  import opened MissingKeyException
  import opened NamedProperties
  import opened PropertiesUtils

  /** The warning for a matcher that found no file starts with this. */
  const NO_PROPERTIES := "No properties found with expression: "

  /** The error for a group with missing keys: this, the names, `KEYS`, the keys. */
  const MISSING_KEYS_IN := "Missing keys in properties files: "
  const KEYS := ". Keys: "

  /** The message of the exception that ends the goal after a failed check. */
  const MISSING_KEYS := "Missing keys"

  /** What a part of the goal did: the events it logged, in order, and how it ended. */
  datatype Run = Run(log: seq<LogEvent>, outcome: Outcome<MojoExecutionException>)

  /** Running `first` and then, unless it threw, `next`. */
  function Then(first: Run, next: Run): Run
  {
    if first.outcome.Fail? then first else Run(first.log + next.log, next.outcome)
  }

  /** The first `n` of `runs`, one after the other, stopping at the first that throws. */
  function Steps(runs: seq<Run>, n: nat): Run
    requires n <= |runs|
  {
    if n == 0 then Run([], Pass) else Then(Steps(runs, n - 1), runs[n - 1])
  }

  /** The error line logged for a `MissingKeyException`. */
  function MissingKeysMessage(e: MissingKey): string
  {
    MISSING_KEYS_IN + GetNames(e) + KEYS + GetKeys(e)
  }

  /** `check(Collection)`: the consistency check, logged and rethrown on failure. */
  ghost function CheckGroupSpec(group: seq<Named>): Run
  {
    match CheckSpec(group)
    case Pass => Run([], Pass)
    case Fail(e) => Run([Error(MissingKeysMessage(e))], Fail(MojoExecutionException(MISSING_KEYS, None)))
  }

  /** One round of `check(Resource)`: `find`, then a warning or the consistency check. */
  ghost function MatcherSpec(directory: string, matcher: string, list: Lister, load: Loader): Run
  {
    match FindSpec(list(directory, matcher + PROPERTIES), load)
    case Failure(err) => Run([], Fail(err))
    case Success(found) =>
      if found == [] then Run([Warn(NO_PROPERTIES + matcher)], Pass) else CheckGroupSpec(found)
  }

  /** The rounds of `check(Resource)` for `directory`, one per matcher. */
  ghost function MatcherRuns(directory: string, matchers: seq<string>, list: Lister, load: Loader): (runs: seq<Run>)
    ensures |runs| == |matchers|
    decreases |matchers|
  {
    if matchers == [] then []
    else
      MatcherRuns(directory, matchers[..|matchers| - 1], list, load)
        + [MatcherSpec(directory, matchers[|matchers| - 1], list, load)]
  }

  /** `check(Resource)` on the resource whose directory is `directory`. */
  ghost function ResourceSpec(directory: string, matchers: seq<string>, list: Lister, load: Loader): Run
  {
    Steps(MatcherRuns(directory, matchers, list, load), |matchers|)
  }

  /** The rounds of `execute`, one per resource. */
  ghost function ResourceRuns(resources: seq<string>, matchers: seq<string>, list: Lister, load: Loader): (runs: seq<Run>)
    ensures |runs| == |resources|
    decreases |resources|
  {
    if resources == [] then []
    else
      ResourceRuns(resources[..|resources| - 1], matchers, list, load)
        + [ResourceSpec(resources[|resources| - 1], matchers, list, load)]
  }

  /** Round `a` of `execute` is `check(Resource)` on the `a`-th resource. */
  lemma {:induction false} ResourceRunsAt(resources: seq<string>, matchers: seq<string>, list: Lister, load: Loader, a: nat)
    requires a < |resources|
    ensures ResourceRuns(resources, matchers, list, load)[a] == ResourceSpec(resources[a], matchers, list, load)
    decreases |resources|
  {
    if a < |resources| - 1 {
      var init := resources[..|resources| - 1];
      ResourceRunsAt(init, matchers, list, load, a);
      assert init[a] == resources[a];
    }
  }

  /** `execute`. */
  ghost function ExecuteSpec(resources: seq<string>, matchers: seq<string>, list: Lister, load: Loader): Run
  {
    Steps(ResourceRuns(resources, matchers, list, load), |resources|)
  }

  class CheckPropertiesMojo {
    /** The directory of each of `project.getResources()`, in order. */
    const resources: seq<string>
    /** The `check` parameter: wildcard expressions, without the `.properties` suffix. */
    const matchers: seq<string>
    /** What the goal has written to Maven's log so far. */
    var log: seq<LogEvent>

    /** The goal as Maven configures it, before anything is logged. */
    constructor (resources: seq<string>, matchers: seq<string>)
      ensures this.resources == resources && this.matchers == matchers
      ensures log == []
    {
      this.resources := resources;
      this.matchers := matchers;
      log := [];
    }

    /** `execute()`: the resources in order, until one of them throws. */
    method Execute(list: Lister, load: Loader) returns (r: Outcome<MojoExecutionException>)
      modifies this
      ensures log == old(log) + ExecuteSpec(resources, matchers, list, load).log
      ensures r == ExecuteSpec(resources, matchers, list, load).outcome
    {
      ghost var runs := ResourceRuns(resources, matchers, list, load);
      r := Pass;
      var i := 0;
      while i < |resources| && r == Pass
        invariant 0 <= i <= |resources|
        invariant r == Steps(runs, i).outcome
        invariant log == old(log) + Steps(runs, i).log
      {
        r := CheckResource(resources[i], list, load);
        ResourceRunsAt(resources, matchers, list, load, i);
        StepsNext(runs, i, old(log));
        i := i + 1;
      }
      if r.Fail? {
        StepsFailureIsFinal(runs, i, |runs|);
      }
    }

    /** `check(Resource)`: the matchers in order, until one of them throws. */
    method CheckResource(directory: string, list: Lister, load: Loader) returns (r: Outcome<MojoExecutionException>)
      modifies this
      ensures log == old(log) + ResourceSpec(directory, matchers, list, load).log
      ensures r == ResourceSpec(directory, matchers, list, load).outcome
    {
      ghost var runs := MatcherRuns(directory, matchers, list, load);
      r := Pass;
      var i := 0;
      while i < |matchers| && r == Pass
        invariant 0 <= i <= |matchers|
        invariant r == Steps(runs, i).outcome
        invariant log == old(log) + Steps(runs, i).log
      {
        r := CheckMatcher(directory, matchers[i], list, load);
        MatcherRunsAt(directory, matchers, list, load, i);
        StepsNext(runs, i, old(log));
        i := i + 1;
      }
      if r.Fail? {
        StepsFailureIsFinal(runs, i, |runs|);
      }
    }

    /** One round of the loop of `check(Resource)`. */
    method CheckMatcher(directory: string, matcher: string, list: Lister, load: Loader)
      returns (r: Outcome<MojoExecutionException>)
      modifies this
      ensures log == old(log) + MatcherSpec(directory, matcher, list, load).log
      ensures r == MatcherSpec(directory, matcher, list, load).outcome
    {
      var found := Find(directory, matcher, list, load);
      match found {
        case Failure(err) =>
          r := Fail(err);
        case Success(properties) =>
          if |properties| == 0 {
            log := log + [Warn(NO_PROPERTIES + matcher)];
            r := Pass;
          } else {
            r := CheckProperties(properties);
          }
      }
    }

    /** `check(Collection)`. */
    method CheckProperties(properties: seq<NamedProperties>) returns (r: Outcome<MojoExecutionException>)
      modifies this
      ensures log == old(log) + CheckGroupSpec(Values(properties)).log
      ensures r == CheckGroupSpec(Values(properties)).outcome
    {
      var checked := Check(properties);
      match checked {
        case Pass =>
          r := Pass;
        case Fail(e) =>
          log := log + [Error(MissingKeysMessage(e))];
          r := Fail(MojoExecutionException(MISSING_KEYS, None));
      }
    }
  }

  // ---------------------------------------------------------------- fail-fast sequencing

  /** One more round after rounds that completed normally. */
  lemma StepsNext(runs: seq<Run>, i: nat, before: seq<LogEvent>)
    requires i < |runs|
    requires Steps(runs, i).outcome == Pass
    ensures Steps(runs, i + 1).outcome == runs[i].outcome
    ensures before + Steps(runs, i + 1).log == before + Steps(runs, i).log + runs[i].log
  {
    assert Steps(runs, i + 1).log == Steps(runs, i).log + runs[i].log;
  }

  /** Once a prefix of the rounds has thrown, the later rounds change nothing. */
  lemma {:induction false} StepsFailureIsFinal(runs: seq<Run>, k: nat, n: nat)
    requires k <= n <= |runs|
    requires Steps(runs, k).outcome.Fail?
    ensures Steps(runs, n) == Steps(runs, k)
    decreases n
  {
    if k < n {
      StepsFailureIsFinal(runs, k, n - 1);
    }
  }

  /** The rounds together complete normally exactly when each of them does. */
  lemma {:induction false} StepsPassIffAllPass(runs: seq<Run>, n: nat)
    requires n <= |runs|
    ensures Steps(runs, n).outcome == Pass <==> forall i :: 0 <= i < n ==> runs[i].outcome == Pass
    decreases n
  {
    if n != 0 {
      StepsPassIffAllPass(runs, n - 1);
    }
  }

  /** The rounds together throw what the first throwing round throws, and what they log
      is what the rounds up to and including that one log. */
  lemma {:induction false} StepsStopAtFirstFailure(runs: seq<Run>, n: nat)
    requires n <= |runs|
    requires Steps(runs, n).outcome.Fail?
    ensures exists k :: && 0 <= k < n
                        && (forall i :: 0 <= i < k ==> runs[i].outcome == Pass)
                        && runs[k].outcome.Fail?
                        && Steps(runs, n) == Steps(runs, k + 1)
                        && Steps(runs, n).outcome == runs[k].outcome
    decreases n
  {
    if Steps(runs, n - 1).outcome.Fail? {
      StepsStopAtFirstFailure(runs, n - 1);
      var k :| && 0 <= k < n - 1
               && (forall i :: 0 <= i < k ==> runs[i].outcome == Pass)
               && runs[k].outcome.Fail?
               && Steps(runs, n - 1) == Steps(runs, k + 1)
               && Steps(runs, n - 1).outcome == runs[k].outcome;
      assert Steps(runs, n) == Steps(runs, n - 1);
      assert Steps(runs, n) == Steps(runs, k + 1) && Steps(runs, n).outcome == runs[k].outcome;
    } else {
      StepsPassIffAllPass(runs, n - 1);
      var k := n - 1;
      assert forall i :: 0 <= i < k ==> runs[i].outcome == Pass;
      assert runs[k].outcome.Fail? && Steps(runs, n) == Steps(runs, k + 1);
    }
  }

  /** Rounds that log nothing and complete normally add up to the same. */
  lemma {:induction false} StepsOfQuietRuns(runs: seq<Run>, n: nat)
    requires n <= |runs|
    requires forall i :: 0 <= i < n ==> runs[i] == Run([], Pass)
    ensures Steps(runs, n) == Run([], Pass)
    decreases n
  {
    if n != 0 {
      StepsOfQuietRuns(runs, n - 1);
    }
  }

  // ---------------------------------------------------------------- the rounds

  /** Round `m` of `check(Resource)` is the `m`-th matcher's. */
  lemma {:induction false} MatcherRunsAt(directory: string, matchers: seq<string>, list: Lister, load: Loader, m: nat)
    requires m < |matchers|
    ensures MatcherRuns(directory, matchers, list, load)[m] == MatcherSpec(directory, matchers[m], list, load)
    decreases |matchers|
  {
    if m < |matchers| - 1 {
      var init := matchers[..|matchers| - 1];
      MatcherRunsAt(directory, init, list, load, m);
      assert init[m] == matchers[m];
    }
  }

  lemma {:induction false} MatcherRunsPrefix(directory: string, matchers: seq<string>, list: Lister, load: Loader, m: nat)
    requires m <= |matchers|
    ensures MatcherRuns(directory, matchers[..m], list, load) == MatcherRuns(directory, matchers, list, load)[..m]
    decreases |matchers|
  {
    if m < |matchers| {
      var init := matchers[..|matchers| - 1];
      MatcherRunsPrefix(directory, init, list, load, m);
      assert init[..m] == matchers[..m];
    } else {
      assert matchers[..m] == matchers;
    }
  }

  lemma {:induction false} ResourceRunsPrefix(resources: seq<string>, matchers: seq<string>, list: Lister, load: Loader, a: nat)
    requires a <= |resources|
    ensures ResourceRuns(resources[..a], matchers, list, load) == ResourceRuns(resources, matchers, list, load)[..a]
    decreases |resources|
  {
    if a < |resources| {
      var init := resources[..|resources| - 1];
      ResourceRunsPrefix(init, matchers, list, load, a);
      assert init[..a] == resources[..a];
    } else {
      assert resources[..a] == resources;
    }
  }

  /** Sequencing looks only at the rounds it runs. */
  lemma {:induction false} StepsAgree(runs1: seq<Run>, runs2: seq<Run>, n: nat)
    requires n <= |runs1| && n <= |runs2|
    requires forall i :: 0 <= i < n ==> runs1[i] == runs2[i]
    ensures Steps(runs1, n) == Steps(runs2, n)
    decreases n
  {
    if n != 0 {
      StepsAgree(runs1, runs2, n - 1);
    }
  }

  /** `check(Resource)` over the first `m` matchers is the first `m` rounds of the full one. */
  lemma ResourceSpecPrefix(directory: string, matchers: seq<string>, list: Lister, load: Loader, m: nat)
    requires m <= |matchers|
    ensures ResourceSpec(directory, matchers[..m], list, load) == Steps(MatcherRuns(directory, matchers, list, load), m)
  {
    MatcherRunsPrefix(directory, matchers, list, load, m);
    StepsAgree(MatcherRuns(directory, matchers, list, load), MatcherRuns(directory, matchers[..m], list, load), m);
  }

  /** `execute` over the first `a` resources is the first `a` rounds of the full one. */
  lemma ExecuteSpecPrefix(resources: seq<string>, matchers: seq<string>, list: Lister, load: Loader, a: nat)
    requires a <= |resources|
    ensures ExecuteSpec(resources[..a], matchers, list, load) == Steps(ResourceRuns(resources, matchers, list, load), a)
  {
    ResourceRunsPrefix(resources, matchers, list, load, a);
    StepsAgree(ResourceRuns(resources, matchers, list, load), ResourceRuns(resources[..a], matchers, list, load), a);
  }

  // ---------------------------------------------------------------- what execute promises

  /** The goal completes normally exactly when every (resource, matcher) round does. */
  lemma ExecutePassesIffEveryRoundPasses(resources: seq<string>, matchers: seq<string>, list: Lister, load: Loader)
    ensures ExecuteSpec(resources, matchers, list, load).outcome == Pass <==>
              forall a, m :: 0 <= a < |resources| && 0 <= m < |matchers| ==>
                MatcherSpec(resources[a], matchers[m], list, load).outcome == Pass
  {
    var runs := ResourceRuns(resources, matchers, list, load);
    StepsPassIffAllPass(runs, |resources|);
    forall a | 0 <= a < |resources|
      ensures runs[a].outcome == Pass <==>
                forall m :: 0 <= m < |matchers| ==> MatcherSpec(resources[a], matchers[m], list, load).outcome == Pass
    {
      ResourceRunsAt(resources, matchers, list, load, a);
      var inner := MatcherRuns(resources[a], matchers, list, load);
      StepsPassIffAllPass(inner, |matchers|);
      forall m | 0 <= m < |matchers| ensures inner[m] == MatcherSpec(resources[a], matchers[m], list, load) {
        MatcherRunsAt(resources[a], matchers, list, load, m);
      }
    }
  }

  /** Every round of the resources before `a` completes normally. */
  lemma EarlierResourcesPass(resources: seq<string>, matchers: seq<string>, list: Lister, load: Loader, a: nat)
    requires a <= |resources|
    requires forall b :: 0 <= b < a ==> ResourceRuns(resources, matchers, list, load)[b].outcome == Pass
    ensures forall b, j :: 0 <= b < a && 0 <= j < |matchers| ==>
              MatcherSpec(resources[b], matchers[j], list, load).outcome == Pass
  {
    forall b, j | 0 <= b < a && 0 <= j < |matchers|
      ensures MatcherSpec(resources[b], matchers[j], list, load).outcome == Pass
    {
      ResourceRunsAt(resources, matchers, list, load, b);
      StepsPassIffAllPass(MatcherRuns(resources[b], matchers, list, load), |matchers|);
      MatcherRunsAt(resources[b], matchers, list, load, j);
    }
  }

  /** The first throwing round of `check(Resource)`, and what it leaves of that resource. */
  lemma FirstFailingMatcher(directory: string, matchers: seq<string>, list: Lister, load: Loader)
    returns (m: nat)
    requires ResourceSpec(directory, matchers, list, load).outcome.Fail?
    ensures m < |matchers|
    ensures forall j :: 0 <= j < m ==> MatcherSpec(directory, matchers[j], list, load).outcome == Pass
    ensures ResourceSpec(directory, matchers, list, load) == ResourceSpec(directory, matchers[..m + 1], list, load)
    ensures ResourceSpec(directory, matchers, list, load).outcome == MatcherSpec(directory, matchers[m], list, load).outcome
  {
    var inner := MatcherRuns(directory, matchers, list, load);
    StepsStopAtFirstFailure(inner, |matchers|);
    m :| && 0 <= m < |matchers|
         && (forall i :: 0 <= i < m ==> inner[i].outcome == Pass)
         && inner[m].outcome.Fail?
         && Steps(inner, |matchers|) == Steps(inner, m + 1)
         && Steps(inner, |matchers|).outcome == inner[m].outcome;
    forall j | 0 <= j < m ensures MatcherSpec(directory, matchers[j], list, load).outcome == Pass {
      MatcherRunsAt(directory, matchers, list, load, j);
    }
    MatcherRunsAt(directory, matchers, list, load, m);
    ResourceSpecPrefix(directory, matchers, list, load, m + 1);
  }

  /** The first resource whose `check(Resource)` throws, and what it leaves of the goal. */
  lemma FirstFailingResource(resources: seq<string>, matchers: seq<string>, list: Lister, load: Loader)
    returns (a: nat)
    requires ExecuteSpec(resources, matchers, list, load).outcome.Fail?
    ensures a < |resources|
    ensures forall b, j :: 0 <= b < a && 0 <= j < |matchers| ==>
              MatcherSpec(resources[b], matchers[j], list, load).outcome == Pass
    ensures ResourceSpec(resources[a], matchers, list, load).outcome.Fail?
    ensures ExecuteSpec(resources, matchers, list, load).outcome == ResourceSpec(resources[a], matchers, list, load).outcome
    ensures ExecuteSpec(resources, matchers, list, load) ==
              Then(ExecuteSpec(resources[..a], matchers, list, load), ResourceSpec(resources[a], matchers, list, load))
  {
    var runs := ResourceRuns(resources, matchers, list, load);
    StepsStopAtFirstFailure(runs, |resources|);
    a :| && 0 <= a < |resources|
         && (forall i :: 0 <= i < a ==> runs[i].outcome == Pass)
         && runs[a].outcome.Fail?
         && Steps(runs, |resources|) == Steps(runs, a + 1)
         && Steps(runs, |resources|).outcome == runs[a].outcome;
    EarlierResourcesPass(resources, matchers, list, load, a);
    ResourceRunsAt(resources, matchers, list, load, a);
    ExecuteSpecPrefix(resources, matchers, list, load, a);
    assert Steps(runs, a + 1) == Then(Steps(runs, a), runs[a]);
  }

  /** The first throwing round of `execute`, and what it leaves of the goal. */
  lemma FirstFailingRound(resources: seq<string>, matchers: seq<string>, list: Lister, load: Loader)
    returns (a: nat, m: nat)
    requires ExecuteSpec(resources, matchers, list, load).outcome.Fail?
    ensures a < |resources| && m < |matchers|
    ensures forall b, j :: 0 <= b < a && 0 <= j < |matchers| ==>
              MatcherSpec(resources[b], matchers[j], list, load).outcome == Pass
    ensures forall j :: 0 <= j < m ==> MatcherSpec(resources[a], matchers[j], list, load).outcome == Pass
    ensures ExecuteSpec(resources, matchers, list, load).outcome == MatcherSpec(resources[a], matchers[m], list, load).outcome
    ensures ExecuteSpec(resources, matchers, list, load) ==
              Then(ExecuteSpec(resources[..a], matchers, list, load), ResourceSpec(resources[a], matchers[..m + 1], list, load))
  {
    a := FirstFailingResource(resources, matchers, list, load);
    m := FirstFailingMatcher(resources[a], matchers, list, load);
  }

  /** Fail-fast: when the goal throws, there is a first round that throws, in resource
      order and then matcher order. Every round before it completed normally, the goal
      throws what that round threw, and the goal behaves as if the configuration ended
      with that round: no later matcher or resource is looked at or logged. */
  lemma ExecuteStopsAtFirstFailure(resources: seq<string>, matchers: seq<string>, list: Lister, load: Loader)
    requires ExecuteSpec(resources, matchers, list, load).outcome.Fail?
    ensures exists a, m :: && 0 <= a < |resources| && 0 <= m < |matchers|
                           && (forall b, j :: 0 <= b < a && 0 <= j < |matchers| ==>
                                 MatcherSpec(resources[b], matchers[j], list, load).outcome == Pass)
                           && (forall j :: 0 <= j < m ==> MatcherSpec(resources[a], matchers[j], list, load).outcome == Pass)
                           && ExecuteSpec(resources, matchers, list, load).outcome ==
                                MatcherSpec(resources[a], matchers[m], list, load).outcome
                           && ExecuteSpec(resources, matchers, list, load) ==
                                Then(ExecuteSpec(resources[..a], matchers, list, load),
                                     ResourceSpec(resources[a], matchers[..m + 1], list, load))
  {
    var a, m := FirstFailingRound(resources, matchers, list, load);
  }

  /** When every matcher finds files in every resource and every group passes the check,
      the goal completes normally and logs nothing, in particular no warning. */
  lemma ExecuteQuietWhenConsistent(resources: seq<string>, matchers: seq<string>, list: Lister, load: Loader)
    requires forall a, m :: 0 <= a < |resources| && 0 <= m < |matchers| ==>
               && FindSpec(list(resources[a], matchers[m] + PROPERTIES), load).Success?
               && FindSpec(list(resources[a], matchers[m] + PROPERTIES), load).value != []
               && CheckSpec(FindSpec(list(resources[a], matchers[m] + PROPERTIES), load).value) == Pass
    ensures ExecuteSpec(resources, matchers, list, load) == Run([], Pass)
  {
    var runs := ResourceRuns(resources, matchers, list, load);
    forall a | 0 <= a < |resources| ensures runs[a] == Run([], Pass) {
      ResourceRunsAt(resources, matchers, list, load, a);
      var inner := MatcherRuns(resources[a], matchers, list, load);
      forall m | 0 <= m < |matchers| ensures inner[m] == Run([], Pass) {
        MatcherRunsAt(resources[a], matchers, list, load, m);
      }
      StepsOfQuietRuns(inner, |matchers|);
    }
    StepsOfQuietRuns(runs, |resources|);
  }

  /** What a run may log and how it may end: each warning names a matcher; an error
      comes only as the last event, and then the run throws `"Missing keys"`; any
      other exception is a load failure. */
  ghost predicate WellLogged(run: Run, matchers: seq<string>)
  {
    && (forall i :: 0 <= i < |run.log| && run.log[i].Warn? ==>
          exists m :: m in matchers && run.log[i] == Warn(NO_PROPERTIES + m))
    && (forall i :: 0 <= i < |run.log| && run.log[i].Error? ==>
          i == |run.log| - 1 && run.outcome == Fail(MojoExecutionException(MISSING_KEYS, None)))
    && (run.outcome.Fail? ==>
          run.outcome.error == MojoExecutionException(MISSING_KEYS, None) || run.outcome.error.message == LOAD_ERROR)
  }

  lemma ThenWellLogged(first: Run, next: Run, matchers: seq<string>)
    requires WellLogged(first, matchers) && WellLogged(next, matchers)
    ensures WellLogged(Then(first, next), matchers)
  {
    if first.outcome.Pass? {
      var r := Then(first, next);
      forall i | 0 <= i < |r.log|
        ensures r.log[i].Warn? ==> exists m :: m in matchers && r.log[i] == Warn(NO_PROPERTIES + m)
        ensures r.log[i].Error? ==> i == |r.log| - 1 && r.outcome == Fail(MojoExecutionException(MISSING_KEYS, None))
      {
        if i < |first.log| {
          assert r.log[i] == first.log[i];
        } else {
          assert r.log[i] == next.log[i - |first.log|];
        }
      }
    }
  }

  lemma {:induction false} StepsWellLogged(runs: seq<Run>, n: nat, matchers: seq<string>)
    requires n <= |runs|
    requires forall i :: 0 <= i < n ==> WellLogged(runs[i], matchers)
    ensures WellLogged(Steps(runs, n), matchers)
    decreases n
  {
    if n != 0 {
      StepsWellLogged(runs, n - 1, matchers);
      ThenWellLogged(Steps(runs, n - 1), runs[n - 1], matchers);
    }
  }

  lemma MatcherWellLogged(directory: string, matcher: string, matchers: seq<string>, list: Lister, load: Loader)
    requires matcher in matchers
    ensures WellLogged(MatcherSpec(directory, matcher, list, load), matchers)
  {
    var files := list(directory, matcher + PROPERTIES);
    if FindSpec(files, load).Failure? {
      FindStopsAtFirstFailure(files, |files|, load);
    }
  }

  /** Whatever the files hold, the goal logs at most one error, as its last event and
      followed by the `"Missing keys"` exception; every warning it logs names one of the
      configured matchers; and any other exception it throws is a load failure. */
  lemma ExecuteLogShape(resources: seq<string>, matchers: seq<string>, list: Lister, load: Loader)
    ensures WellLogged(ExecuteSpec(resources, matchers, list, load), matchers)
  {
    var runs := ResourceRuns(resources, matchers, list, load);
    forall a | 0 <= a < |resources| ensures WellLogged(runs[a], matchers) {
      ResourceRunsAt(resources, matchers, list, load, a);
      var inner := MatcherRuns(resources[a], matchers, list, load);
      forall m | 0 <= m < |matchers| ensures WellLogged(inner[m], matchers) {
        MatcherRunsAt(resources[a], matchers, list, load, m);
        MatcherWellLogged(resources[a], matchers[m], matchers, list, load);
      }
      StepsWellLogged(inner, |matchers|, matchers);
    }
    StepsWellLogged(runs, |resources|, matchers);
  }

  /** A goal with one resource and one matcher does what that round does. */
  lemma SingleRound(directory: string, matcher: string, list: Lister, load: Loader)
    ensures ExecuteSpec([directory], [matcher], list, load) == MatcherSpec(directory, matcher, list, load)
  {
    var runs := ResourceRuns([directory], [matcher], list, load);
    var inner := MatcherRuns(directory, [matcher], list, load);
    ResourceRunsAt([directory], [matcher], list, load, 0);
    MatcherRunsAt(directory, [matcher], list, load, 0);
    assert Steps(runs, 1) == runs[0];
    assert Steps(inner, 1) == inner[0];
  }

  /** One resource, one matcher that finds nothing: exactly one warning, naming the
      matcher, and the goal completes normally. */
  lemma ExecuteWarnsOnceWhenNothingFound(directory: string, matcher: string, list: Lister, load: Loader)
    requires FindSpec(list(directory, matcher + PROPERTIES), load) == Success([])
    ensures ExecuteSpec([directory], [matcher], list, load) == Run([Warn(NO_PROPERTIES + matcher)], Pass)
  {
    SingleRound(directory, matcher, list, load);
  }

  /** One resource, one matcher whose files miss keys: exactly one error, carrying the
      exception's names and keys, no warning, and the goal throws `"Missing keys"`. */
  lemma ExecuteReportsMissingKeys(directory: string, matcher: string, list: Lister, load: Loader, e: MissingKey)
    requires FindSpec(list(directory, matcher + PROPERTIES), load).Success?
    requires CheckSpec(FindSpec(list(directory, matcher + PROPERTIES), load).value) == Fail(e)
    ensures ExecuteSpec([directory], [matcher], list, load) ==
              Run([Error(MissingKeysMessage(e))],
                  Fail(MojoExecutionException(MISSING_KEYS, None)))
  {
    SingleRound(directory, matcher, list, load);
    var found := FindSpec(list(directory, matcher + PROPERTIES), load).value;
    assert MissingKeys(found) != {};
    assert MissingKeys([]) == {};
  }
}
