/** The fail-stop recorder and the draft-delta check of the lifecycle simulator (qa/product_lifecycle_full_cycle.py). */
module Lifecycle {
  import opened Basics
  import opened StableSort

  datatype Step = Step(module_: string, key: string, passed: bool, httpStatus: Option<int>)

  /** What a stage does next: a step with its verdict, or an exception of its own. */
  datatype Action = Http(module_: string, key: string, status: int, allowed: seq<int>)
                  | Check(module_: string, key: string, holds: bool)
                  | Crash(error: string)

  datatype ModuleResult = ModuleResult(steps: nat, passed: nat, failed: nat)

  datatype Summary = Summary(pass: bool, httpViolations: nat, modules: map<string, ModuleResult>)

  predicate IsHttpFailure(s: Step) { !s.passed && s.httpStatus.Some? }

  function OfModule(m: string): Step -> bool {
    (s: Step) => s.module_ == m
  }

  function PassedIn(m: string): Step -> bool {
    (s: Step) => s.module_ == m && s.passed
  }

  function FailedIn(m: string): Step -> bool {
    (s: Step) => s.module_ == m && !s.passed
  }

  class Simulation {
    var steps: seq<Step>
    var globalError: string

    constructor ()
      ensures steps == [] && globalError == ""
    {
      steps := [];
      globalError := "";
    }

    /** The run stops at the first failure, and only a failure or a crash stops it. */
    ghost predicate FailStop()
      reads this
    {
      && (forall i :: 0 <= i < |steps| - 1 ==> steps[i].passed)
      && (globalError == "" ==> forall s :: s in steps ==> s.passed)
    }

    /** `run`: the stages in order, with the exceptions that `_record_http_step` and
        `_record_check_step` raise after recording a failed step. */
    method Run(actions: seq<Action>) returns (executed: nat)
      requires steps == [] && globalError == ""
      modifies this
      ensures FailStop() && forall i :: 0 <= i < |steps| - 1 ==> steps[i].passed
      ensures executed <= |actions|
      ensures globalError == "" <==> executed == |actions| && forall i :: 0 <= i < |actions| ==> Holds(actions[i])
      ensures forall i :: 0 <= i < |steps| ==> i < |actions| && !actions[i].Crash? && steps[i] == Recorded(actions[i])
      ensures globalError == "" ==> |steps| == executed
      ensures forall i :: 0 <= i < executed - 1 ==> Holds(actions[i])
      ensures globalError != "" ==> executed > 0 && !Holds(actions[executed - 1])
      ensures globalError != "" ==>
        match actions[executed - 1]
        case Http(_, _, _, _) => |steps| == executed && globalError == "Paso HTTP falló"
        case Check(_, _, _) => |steps| == executed && globalError == "Paso de validación falló"
        case Crash(error) => |steps| == executed - 1 && globalError == "Unhandled simulation error: " + error
    {
      executed := 0;
      while executed < |actions|
        invariant 0 <= executed <= |actions| && |steps| == executed && globalError == ""
        invariant forall i :: 0 <= i < executed ==>
                    !actions[i].Crash? && Holds(actions[i]) && steps[i] == Recorded(actions[i])
      {
        var action := actions[executed];
        executed := executed + 1;
        match action {
          case Http(m, k, status, allowed) =>
            var passed := status in allowed;
            steps := steps + [Step(m, k, passed, Some(status))];
            if !passed {
              globalError := "Paso HTTP falló";
              return;
            }
          case Check(m, k, holds) =>
            steps := steps + [Step(m, k, holds, None)];
            if !holds {
              globalError := "Paso de validación falló";
              return;
            }
          case Crash(error) =>
            globalError := "Unhandled simulation error: " + error;
            return;
        }
      }
    }

    /** `_build_module_results` and `_build_summary`. */
    method BuildSummary(requiredModules: seq<string>, orphanTotal: int) returns (summary: Summary)
      ensures summary.httpViolations == |Filter(IsHttpFailure, steps)|
      ensures forall m :: m in summary.modules <==> Filter(OfModule(m), steps) != []
      ensures forall m :: m in summary.modules ==> summary.modules[m] == ResultOf(steps, m)
      ensures summary.pass <==>
        && globalError == "" && orphanTotal <= 0
        && forall m :: m in requiredModules ==> Filter(OfModule(m), steps) != [] && Filter(FailedIn(m), steps) == []
      ensures FailStop() && summary.pass ==>
        summary.httpViolations == 0 && forall m :: m in summary.modules ==> summary.modules[m].failed == 0
    {
      hide Filter, Counted, NextRow;
      var buckets: map<string, ModuleResult> := map[];
      CountedNone(steps);
      var violations := 0;
      var i := 0;
      while i < |steps|
        invariant 0 <= i <= |steps|
        invariant violations == |Filter(IsHttpFailure, steps[..i])|
        invariant Counted(steps[..i], buckets)
      {
        var step := steps[i];
        assert steps[..i + 1] == steps[..i] + [step];
        AppendCounts(steps[..i], step);
        CountedStep(steps[..i], step, buckets);
        var row := if step.module_ in buckets then buckets[step.module_] else ModuleResult(0, 0, 0);
        buckets := buckets[step.module_ := NextRow(row, step.passed)];
        if step.httpStatus.Some? && !step.passed {
          violations := violations + 1;
        }
        i := i + 1;
      }
      assert steps[..i] == steps;
      CountedMeans(steps, buckets);
      var requiredOk := true;
      var k := 0;
      while k < |requiredModules|
        invariant 0 <= k <= |requiredModules|
        invariant requiredOk <==> forall j :: 0 <= j < k ==>
                    requiredModules[j] in buckets && buckets[requiredModules[j]].failed == 0
        invariant requiredOk ==> forall j :: 0 <= j < k ==> requiredModules[j] in buckets
      {
        var m := requiredModules[k];
        if m !in buckets || buckets[m].steps == 0 || buckets[m].failed != 0 {
          requiredOk := false;
        }
        k := k + 1;
      }
      var pass := globalError == "" && requiredOk && orphanTotal <= 0;
      if FailStop() && pass {
        PassMeansClean(steps);
      }
      summary := Summary(pass, violations, buckets);
    }
  }

  function ResultOf(steps: seq<Step>, m: string): ModuleResult {
    ModuleResult(|Filter(OfModule(m), steps)|, |Filter(PassedIn(m), steps)|, |Filter(FailedIn(m), steps)|)
  }

  /** One more step in a module's bucket. */
  function NextRow(row: ModuleResult, passed: bool): ModuleResult {
    ModuleResult(row.steps + 1, if passed then row.passed + 1 else row.passed, if passed then row.failed else row.failed + 1)
  }

  /** The buckets are those of the steps seen so far. */
  ghost predicate Counted(steps: seq<Step>, buckets: map<string, ModuleResult>) {
    && (forall m :: m in buckets <==> Filter(OfModule(m), steps) != [])
    && (forall m :: m in buckets ==> buckets[m] == ResultOf(steps, m))
  }

  lemma {:induction false} CountedMeans(steps: seq<Step>, buckets: map<string, ModuleResult>)
    requires Counted(steps, buckets)
    ensures forall m :: m in buckets <==> Filter(OfModule(m), steps) != []
    ensures forall m :: m in buckets ==> buckets[m] == ResultOf(steps, m) && buckets[m].steps > 0
    ensures forall m :: m in buckets ==> (buckets[m].failed == 0 <==> Filter(FailedIn(m), steps) == [])
  {
  }

  lemma {:induction false} CountedNone(steps: seq<Step>)
    ensures Counted(steps[..0], map[]) && Filter(IsHttpFailure, steps[..0]) == []
  {
  }

  lemma {:induction false} CountedStep(steps: seq<Step>, s: Step, buckets: map<string, ModuleResult>)
    requires Counted(steps, buckets)
    ensures var row := if s.module_ in buckets then buckets[s.module_] else ModuleResult(0, 0, 0);
      Counted(steps + [s], buckets[s.module_ := NextRow(row, s.passed)])
  {
    hide Filter;
    AppendCounts(steps, s);
    NoStepsNoResult(steps, s.module_);
    forall m
      ensures s.module_ == m ==> Filter(OfModule(m), steps + [s]) != []
      ensures s.module_ == m && m !in buckets ==> ResultOf(steps + [s], m) == NextRow(ModuleResult(0, 0, 0), s.passed)
      ensures s.module_ == m && m in buckets ==> ResultOf(steps + [s], m) == NextRow(buckets[m], s.passed)
      ensures s.module_ != m ==> Filter(OfModule(m), steps + [s]) == Filter(OfModule(m), steps) + []
      ensures s.module_ != m ==> ResultOf(steps + [s], m) == ResultOf(steps, m)
    {
    }
  }

  lemma {:induction false} NoStepsNoResult(steps: seq<Step>, m: string)
    ensures Filter(OfModule(m), steps) == [] ==> ResultOf(steps, m) == ModuleResult(0, 0, 0)
  {
    if Filter(OfModule(m), steps) == [] {
      FilterIn(OfModule(m), steps);
      assert forall s :: s in steps ==> !OfModule(m)(s);
      FilterNone(PassedIn(m), steps);
      FilterNone(FailedIn(m), steps);
    }
  }

  predicate Holds(a: Action) {
    match a
    case Http(_, _, status, allowed) => status in allowed
    case Check(_, _, holds) => holds
    case Crash(_) => false
  }

  function Recorded(a: Action): Step
    requires !a.Crash?
  {
    match a
    case Http(m, k, status, allowed) => Step(m, k, status in allowed, Some(status))
    case Check(m, k, holds) => Step(m, k, holds, None)
  }

  lemma {:induction false} AppendCounts(steps: seq<Step>, s: Step)
    ensures forall p: Step -> bool :: Filter(p, steps + [s]) == Filter(p, steps) + (if p(s) then [s] else [])
  {
    forall p: Step -> bool
      ensures Filter(p, steps + [s]) == Filter(p, steps) + (if p(s) then [s] else [])
    {
      FilterConcat(p, steps, [s]);
      FilterCons(p, s, []);
    }
  }

  /** PASS means that no recorded step failed: no HTTP violation and no failed step in any module. */
  lemma {:induction false} PassMeansClean(steps: seq<Step>)
    requires forall s :: s in steps ==> s.passed
    ensures Filter(IsHttpFailure, steps) == []
    ensures forall m :: Filter(FailedIn(m), steps) == []
  {
    FilterNone(IsHttpFailure, steps);
    forall m
      ensures Filter(FailedIn(m), steps) == []
    {
      FilterNone(FailedIn(m), steps);
    }
  }

  // ---------------------------------------------------------------- drafts created by the retail flow

  datatype Pair = Pair(key: string, minDelta: int)

  datatype Snapshot = Snapshot(total: int, byPair: map<string, int>)

  function CountIn(s: Snapshot, key: string): int {
    if key in s.byPair then s.byPair[key] else 0
  }

  function SumCounts(s: Snapshot, pairs: seq<Pair>): int {
    if pairs == [] then 0 else CountIn(s, pairs[0].key) + SumCounts(s, pairs[1..])
  }

  function SumMinima(pairs: seq<Pair>): int {
    if pairs == [] then 0 else pairs[0].minDelta + SumMinima(pairs[1..])
  }

  predicate Met(before: Snapshot, after: Snapshot, p: Pair) {
    CountIn(after, p.key) - CountIn(before, p.key) >= p.minDelta
  }

  /** `_evaluate_auto_draft_delta`. */
  method EvaluateDelta(before: Snapshot, after: Snapshot, pairs: seq<Pair>, minTotalDelta: int)
    returns (passed: bool, missing: seq<string>)
    ensures passed <==> after.total - before.total >= minTotalDelta && forall p :: p in pairs ==> Met(before, after, p)
    ensures forall k :: k in missing <==> exists p :: p in pairs && p.key == k && !Met(before, after, p)
    ensures forall p :: p in pairs ==>
      var b := if p.key in before.byPair then before.byPair[p.key] else 0;
      var a := if p.key in after.byPair then after.byPair[p.key] else 0;
      (passed ==> a - b >= p.minDelta) && (a - b < p.minDelta <==> !Met(before, after, p))
    ensures (before.total == SumCounts(before, pairs) && after.total == SumCounts(after, pairs) && minTotalDelta == SumMinima(pairs))
            ==> (passed <==> missing == [])
  {
    var coverageOk := true;
    missing := [];
    var i := 0;
    while i < |pairs|
      invariant 0 <= i <= |pairs|
      invariant coverageOk <==> missing == []
      invariant missing == Missing(before, after, pairs[..i])
    {
      var pair := pairs[i];
      assert pairs[..i + 1][..i] == pairs[..i];
      if CountIn(after, pair.key) - CountIn(before, pair.key) < pair.minDelta {
        coverageOk := false;
        missing := missing + [pair.key];
      }
      i := i + 1;
    }
    assert pairs[..i] == pairs;
    MissingSpec(before, after, pairs);
    passed := after.total - before.total >= minTotalDelta && coverageOk;
    if coverageOk {
      DefaultTotalIsImplied(before, after, pairs);
    }
  }

  /** The keys of the pairs that do not meet their minimum. */
  function Missing(before: Snapshot, after: Snapshot, pairs: seq<Pair>): seq<string> {
    if pairs == [] then []
    else
      var last := pairs[|pairs| - 1];
      Missing(before, after, pairs[..|pairs| - 1]) + (if Met(before, after, last) then [] else [last.key])
  }

  lemma {:induction false} MissingSpec(before: Snapshot, after: Snapshot, pairs: seq<Pair>)
    ensures Missing(before, after, pairs) == [] <==> forall p :: p in pairs ==> Met(before, after, p)
    ensures forall k :: k in Missing(before, after, pairs) <==> exists p :: p in pairs && p.key == k && !Met(before, after, p)
  {
    hide Met;
    if pairs != [] {
      var n := |pairs| - 1;
      MissingSpec(before, after, pairs[..n]);
      assert forall p :: p in pairs <==> p in pairs[..n] || p == pairs[n] by {
        assert pairs == pairs[..n] + [pairs[n]];
      }
    }
  }

  /** When totals are the sums over the pairs and the default total minimum is used, the total
      condition adds nothing: the check passes exactly when every pair meets its minimum. */
  lemma {:induction false} DefaultTotalIsImplied(before: Snapshot, after: Snapshot, pairs: seq<Pair>)
    requires forall p :: p in pairs ==> Met(before, after, p)
    ensures SumCounts(after, pairs) - SumCounts(before, pairs) >= SumMinima(pairs)
    ensures SumCounts(after, []) == 0 && SumMinima([]) == 0
  {
    if pairs != [] {
      assert pairs[0] in pairs && Met(before, after, pairs[0]);
      DefaultTotalIsImplied(before, after, pairs[1..]);
    }
  }
}
