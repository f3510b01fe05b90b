/**
 The deployment report: the filter that reuses the array it reads, the grouped
 printout, the summary counts and the exit code.
 */
module DeployReport {

  /** An int in the source; only the first four values have names. */
  type Status = int

  const PASS: Status := 0
  const WARN: Status := 1
  const FAIL: Status := 2
  const SKIP: Status := 3

  datatype CheckResult = CheckResult(step: string, id: string, name: string, status: Status, message: string, fix: string)

  // ----- filtering

  function Allowed(rs: seq<CheckResult>, allowed: set<string>): seq<CheckResult> {
    if rs == [] then []
    else
      var n := |rs| - 1;
      Allowed(rs[..n], allowed) + if rs[n].id in allowed then [rs[n]] else []
  }

  predicate Increasing(places: seq<nat>) {
    forall j, k :: 0 <= j < k < |places| ==> places[j] < places[k]
  }

  /** kept are the results at these places, all of them allowed. */
  predicate TakenFrom(rs: seq<CheckResult>, kept: seq<CheckResult>, allowed: set<string>, places: seq<nat>) {
    |places| == |kept| &&
    forall k :: 0 <= k < |places| ==> places[k] < |rs| && kept[k] == rs[places[k]] && kept[k].id in allowed
  }

  /** No allowed result is left out. */
  predicate NoneMissing(rs: seq<CheckResult>, allowed: set<string>, places: seq<nat>) {
    forall i: nat :: i < |rs| && rs[i].id in allowed ==> i in places
  }

  ghost predicate SelectedAt(rs: seq<CheckResult>, kept: seq<CheckResult>, allowed: set<string>, places: seq<nat>) {
    Increasing(places) && TakenFrom(rs, kept, allowed, places) && NoneMissing(rs, allowed, places)
  }

  /** kept is what filtering by id leaves of rs: the allowed results in their order, as often as they were there. */
  ghost predicate Filtered(rs: seq<CheckResult>, kept: seq<CheckResult>, allowed: set<string>) {
    && (exists places :: SelectedAt(rs, kept, allowed, places))
    && forall r :: multiset(kept)[r] == if r.id in allowed then multiset(rs)[r] else 0
  }

  lemma SkipOne(rs: seq<CheckResult>, kept: seq<CheckResult>, allowed: set<string>, places: seq<nat>, r: CheckResult)
    requires SelectedAt(rs, kept, allowed, places) && r.id !in allowed
    ensures SelectedAt(rs + [r], kept, allowed, places)
  {
  }

  lemma TakeOne(rs: seq<CheckResult>, kept: seq<CheckResult>, allowed: set<string>, places: seq<nat>, r: CheckResult)
    requires SelectedAt(rs, kept, allowed, places) && r.id in allowed
    ensures SelectedAt(rs + [r], kept + [r], allowed, places + [|rs|])
  {
    var more := places + [|rs|];
    assert Increasing(more);
    assert TakenFrom(rs + [r], kept + [r], allowed, more);
    forall i: nat | i < |rs + [r]| && (rs + [r])[i].id in allowed ensures i in more {
      if i < |rs| {
        assert i in places;
      } else {
        assert more[|places|] == i;
      }
    }
  }

  /** The allowed results at increasing places, and none of them left out. */
  lemma {:induction false} AllowedIsSelected(rs: seq<CheckResult>, allowed: set<string>) returns (places: seq<nat>)
    ensures SelectedAt(rs, Allowed(rs, allowed), allowed, places)
  {
    places := [];
    if rs != [] {
      var n := |rs| - 1;
      places := AllowedIsSelected(rs[..n], allowed);
      assert rs == rs[..n] + [rs[n]];
      if rs[n].id in allowed {
        TakeOne(rs[..n], Allowed(rs[..n], allowed), allowed, places, rs[n]);
        places := places + [n];
      } else {
        SkipOne(rs[..n], Allowed(rs[..n], allowed), allowed, places, rs[n]);
      }
    }
  }

  lemma OneMore(rs: seq<CheckResult>, last: CheckResult, r: CheckResult)
    ensures multiset(rs + [last])[r] == multiset(rs)[r] + if last == r then 1 else 0
  {
  }

  /** How often a result is kept. */
  lemma {:induction false} AllowedCounts(rs: seq<CheckResult>, allowed: set<string>, r: CheckResult)
    ensures multiset(Allowed(rs, allowed))[r] == if r.id in allowed then multiset(rs)[r] else 0
  {
    if rs != [] {
      var n := |rs| - 1;
      AllowedCounts(rs[..n], allowed, r);
      OneMore(rs[..n], rs[n], r);
      OneMore(Allowed(rs[..n], allowed), rs[n], r);
      assert rs == rs[..n] + [rs[n]];
      assert Allowed(rs[..n], allowed) + [] == Allowed(rs[..n], allowed);
    }
  }

  lemma AllowedIsFiltered(rs: seq<CheckResult>, allowed: set<string>)
    ensures Filtered(rs, Allowed(rs, allowed), allowed)
  {
    var places := AllowedIsSelected(rs, allowed);
    forall r ensures multiset(Allowed(rs, allowed))[r] == if r.id in allowed then multiset(rs)[r] else 0 {
      AllowedCounts(rs, allowed, r);
    }
  }

  /** Results[:0] and append over the array that is being read: the kept results move to the front, in order. */
  method filterInPlace(results: array<CheckResult>, allowed: set<string>) returns (kept: nat)
    modifies results
    ensures kept <= results.Length
    ensures results[..kept] == Allowed(old(results[..]), allowed)
    ensures results[kept..] == old(results[kept..])
    ensures Filtered(old(results[..]), results[..kept], allowed)
  {
    kept := 0;
    ghost var was := results[..];
    for i := 0 to results.Length
      invariant kept <= i
      invariant results[..kept] == Allowed(was[..i], allowed)
      invariant results[kept..] == was[kept..]
    {
      var res := results[i];
      assert res == results[kept..][i - kept] == was[kept..][i - kept] == was[i];
      assert was[..i + 1][..i] == was[..i];
      if res.id in allowed {
        ghost var before := results[..];
        results[kept] := res;
        assert results[..kept] == before[..kept];
        assert results[kept + 1..] == before[kept..][1..];
        kept := kept + 1;
        assert results[..kept] == before[..kept - 1] + [res];
      }
    }
    assert was[..results.Length] == was;
    AllowedIsFiltered(was, allowed);
  }

  // ----- printing

  function OfStep(rs: seq<CheckResult>, step: string): seq<CheckResult> {
    if rs == [] then []
    else
      var n := |rs| - 1;
      OfStep(rs[..n], step) + if rs[n].step == step then [rs[n]] else []
  }

  /** The steps in the order of their first result. */
  function Steps(rs: seq<CheckResult>): (steps: seq<string>)
    ensures forall s :: s in steps <==> exists i :: 0 <= i < |rs| && rs[i].step == s
  {
    if rs == [] then []
    else
      var n := |rs| - 1;
      var before := Steps(rs[..n]);
      if rs[n].step in before then before else before + [rs[n].step]
  }

  function Groups(rs: seq<CheckResult>, steps: seq<string>): seq<CheckResult> {
    if steps == [] then [] else Groups(rs, steps[..|steps| - 1]) + OfStep(rs, steps[|steps| - 1])
  }

  /** The first loop of Fprint: the steps, remembered in a set of those seen. */
  method collectSteps(results: seq<CheckResult>) returns (steps: seq<string>)
    ensures steps == Steps(results)
  {
    steps := [];
    var seen: set<string> := {};
    for i := 0 to |results|
      invariant steps == Steps(results[..i])
      invariant forall s :: s in seen <==> s in steps
    {
      assert results[..i + 1][..i] == results[..i];
      if results[i].step !in seen {
        seen := seen + {results[i].step};
        steps := steps + [results[i].step];
      }
    }
    assert results[..|results|] == results;
  }

  /** Fprint: for each step go through all results again; the lines are the results in the order printed. */
  method printed(results: seq<CheckResult>) returns (lines: seq<CheckResult>)
    ensures lines == Groups(results, Steps(results))
  {
    var steps := collectSteps(results);
    lines := [];
    for k := 0 to |steps|
      invariant lines == Groups(results, steps[..k])
    {
      ghost var before := lines;
      for i := 0 to |results|
        invariant lines == before + OfStep(results[..i], steps[k])
      {
        assert results[..i + 1][..i] == results[..i];
        if results[i].step == steps[k] {
          lines := lines + [results[i]];
        }
      }
      assert results[..|results|] == results;
      assert steps[..k + 1][..k] == steps[..k];
    }
    assert steps[..|steps|] == steps;
  }

  lemma {:induction false} OfStepHasStep(rs: seq<CheckResult>, step: string)
    ensures forall i :: 0 <= i < |OfStep(rs, step)| ==> OfStep(rs, step)[i].step == step
  {
    if rs != [] {
      OfStepHasStep(rs[..|rs| - 1], step);
    }
  }

  lemma {:induction false} OfStepConcat(a: seq<CheckResult>, b: seq<CheckResult>, step: string)
    ensures OfStep(a + b, step) == OfStep(a, step) + OfStep(b, step)
  {
    if b == [] {
      assert a + b == a;
    } else {
      var n := |b| - 1;
      OfStepConcat(a, b[..n], step);
      assert (a + b)[..|a + b| - 1] == a + b[..n];
    }
  }

  lemma {:induction false} OfStepOnGroup(rs: seq<CheckResult>, group: string, step: string)
    requires forall i :: 0 <= i < |rs| ==> rs[i].step == group
    ensures OfStep(rs, step) == if step == group then rs else []
  {
    if rs != [] {
      OfStepOnGroup(rs[..|rs| - 1], group, step);
    }
  }

  predicate Distinct(steps: seq<string>) {
    steps == [] ||
    var n := |steps| - 1;
    steps[n] !in steps[..n] && Distinct(steps[..n])
  }

  /** No step is listed twice. */
  lemma {:induction false} StepsAreDistinct(rs: seq<CheckResult>)
    ensures Distinct(Steps(rs))
  {
    if rs != [] {
      var before := Steps(rs[..|rs| - 1]);
      StepsAreDistinct(rs[..|rs| - 1]);
      assert (before + [rs[|rs| - 1].step])[..|before|] == before;
    }
  }

  predicate FirstAt(rs: seq<CheckResult>, step: string, i: nat) {
    i < |rs| && rs[i].step == step && forall k :: 0 <= k < i ==> rs[k].step != step
  }

  /** A step that appears before the last result appears there first. */
  lemma FirstAmongEarlier(rs: seq<CheckResult>, step: string, i: nat)
    requires rs != [] && FirstAt(rs, step, i)
    ensures var before := rs[..|rs| - 1];
            if step in Steps(before) then FirstAt(before, step, i) else i == |rs| - 1
  {
    var n := |rs| - 1;
    var before := rs[..n];
    if step in Steps(before) {
      var p :| 0 <= p < n && before[p].step == step;
      assert rs[p].step == step;
    }
  }

  /** Steps are listed by first appearance. */
  lemma {:induction false} StepsByFirstAppearance(rs: seq<CheckResult>, a: nat, b: nat, i: nat, j: nat)
    requires a < b < |Steps(rs)| && FirstAt(rs, Steps(rs)[a], i) && FirstAt(rs, Steps(rs)[b], j)
    ensures i < j
  {
    var n := |rs| - 1;
    var before := rs[..n];
    var steps := Steps(before);
    FirstAmongEarlier(rs, Steps(rs)[a], i);
    FirstAmongEarlier(rs, Steps(rs)[b], j);
    assert Steps(rs)[a] in steps;
    if b < |steps| {
      assert Steps(rs)[b] in steps;
      StepsByFirstAppearance(before, a, b, i, j);
    } else {
      assert Steps(rs)[b] !in steps;
    }
  }

  lemma OneGroup(rs: seq<CheckResult>, group: string, step: string)
    ensures OfStep(OfStep(rs, group), step) == if step == group then OfStep(rs, step) else []
  {
    OfStepHasStep(rs, group);
    OfStepOnGroup(OfStep(rs, group), group, step);
  }

  lemma InOrLast(steps: seq<string>, step: string)
    requires steps != []
    ensures step in steps <==> step in steps[..|steps| - 1] || step == steps[|steps| - 1]
  {
    assert steps == steps[..|steps| - 1] + [steps[|steps| - 1]];
  }

  lemma {:induction false} GroupsKeepSteps(rs: seq<CheckResult>, steps: seq<string>, step: string)
    requires Distinct(steps)
    ensures OfStep(Groups(rs, steps), step) == if step in steps then OfStep(rs, step) else []
  {
    if steps != [] {
      var n := |steps| - 1;
      GroupsKeepSteps(rs, steps[..n], step);
      OfStepConcat(Groups(rs, steps[..n]), OfStep(rs, steps[n]), step);
      OneGroup(rs, steps[n], step);
      InOrLast(steps, step);
    }
  }

  lemma {:induction false} NoResultsOfStep(rs: seq<CheckResult>, step: string)
    requires forall i :: 0 <= i < |rs| ==> rs[i].step != step
    ensures OfStep(rs, step) == []
  {
    if rs != [] {
      NoResultsOfStep(rs[..|rs| - 1], step);
    }
  }

  /** Stable grouping: the results of each step are printed once each, in their order in the report. */
  lemma GroupingIsStable(rs: seq<CheckResult>, step: string)
    ensures OfStep(Groups(rs, Steps(rs)), step) == OfStep(rs, step)
  {
    StepsAreDistinct(rs);
    GroupsKeepSteps(rs, Steps(rs), step);
    if step !in Steps(rs) {
      NoResultsOfStep(rs, step);
    }
  }

  lemma {:induction false} OfStepCounts(rs: seq<CheckResult>, r: CheckResult)
    ensures multiset(OfStep(rs, r.step))[r] == multiset(rs)[r]
  {
    if rs != [] {
      var n := |rs| - 1;
      OfStepCounts(rs[..n], r);
      assert rs == rs[..n] + [rs[n]];
    }
  }

  /** The printout has exactly the results of the report. */
  lemma PrintoutIsComplete(rs: seq<CheckResult>)
    ensures multiset(Groups(rs, Steps(rs))) == multiset(rs)
  {
    forall r: CheckResult ensures multiset(Groups(rs, Steps(rs)))[r] == multiset(rs)[r] {
      GroupingIsStable(rs, r.step);
      OfStepCounts(rs, r);
      OfStepCounts(Groups(rs, Steps(rs)), r);
    }
  }

  // ----- counting

  function Count(rs: seq<CheckResult>, status: Status): nat {
    if rs == [] then 0
    else
      var n := |rs| - 1;
      Count(rs[..n], status) + if rs[n].status == status then 1 else 0
  }

  /** The places of the results with a status. */
  function Having(rs: seq<CheckResult>, status: Status): set<nat> {
    set i: nat | 0 <= i < |rs| && rs[i].status == status
  }

  lemma {:induction false} CountIsCardinality(rs: seq<CheckResult>, status: Status)
    ensures Count(rs, status) == |Having(rs, status)|
  {
    if rs == [] {
      assert Having(rs, status) == {};
    } else {
      var n := |rs| - 1;
      CountIsCardinality(rs[..n], status);
      assert Having(rs, status) == Having(rs[..n], status) + if rs[n].status == status then {n} else {};
    }
  }

  method summary(results: seq<CheckResult>) returns (passed: nat, warning: nat, failed: nat, skipped: nat)
    ensures passed == Count(results, PASS) && warning == Count(results, WARN)
    ensures failed == Count(results, FAIL) && skipped == Count(results, SKIP)
    ensures passed == |Having(results, PASS)| && warning == |Having(results, WARN)|
    ensures failed == |Having(results, FAIL)| && skipped == |Having(results, SKIP)|
  {
    CountIsCardinality(results, PASS);
    CountIsCardinality(results, WARN);
    CountIsCardinality(results, FAIL);
    CountIsCardinality(results, SKIP);
    passed, warning, failed, skipped := 0, 0, 0, 0;
    for i := 0 to |results|
      invariant passed == Count(results[..i], PASS) && warning == Count(results[..i], WARN)
      invariant failed == Count(results[..i], FAIL) && skipped == Count(results[..i], SKIP)
    {
      assert results[..i + 1][..i] == results[..i];
      var status := results[i].status;
      if status == PASS {
        passed := passed + 1;
      } else if status == WARN {
        warning := warning + 1;
      } else if status == FAIL {
        failed := failed + 1;
      } else if status == SKIP {
        skipped := skipped + 1;
      }
    }
    assert results[..|results|] == results;
  }

  /** The exit code is 1 exactly when some result failed. */
  method hasFailures(results: seq<CheckResult>) returns (b: bool)
    ensures b <==> exists i :: 0 <= i < |results| && results[i].status == FAIL
  {
    for i := 0 to |results|
      invariant forall k :: 0 <= k < i ==> results[k].status != FAIL
    {
      if results[i].status == FAIL {
        return true;
      }
    }
    return false;
  }

  /** That is, exactly when the failed count of the summary is positive. */
  lemma FailuresAreCounted(rs: seq<CheckResult>)
    ensures Count(rs, FAIL) > 0 <==> exists i :: 0 <= i < |rs| && rs[i].status == FAIL
  {
    CountIsCardinality(rs, FAIL);
    if i :| 0 <= i < |rs| && rs[i].status == FAIL {
      assert i in Having(rs, FAIL);
    } else {
      assert Having(rs, FAIL) == {};
    }
  }

  /** The four counts add up to the number of results exactly when every status has a name. */
  lemma {:induction false} CountsAddUp(rs: seq<CheckResult>)
    ensures Count(rs, PASS) + Count(rs, WARN) + Count(rs, FAIL) + Count(rs, SKIP) <= |rs|
    ensures Count(rs, PASS) + Count(rs, WARN) + Count(rs, FAIL) + Count(rs, SKIP) == |rs|
            <==> forall i :: 0 <= i < |rs| ==> PASS <= rs[i].status <= SKIP
  {
    if rs != [] {
      var n := |rs| - 1;
      CountsAddUp(rs[..n]);
      assert forall i :: 0 <= i < n ==> rs[..n][i] == rs[i];
    }
  }
}
