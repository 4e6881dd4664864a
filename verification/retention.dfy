/** One cycle of the retention clean-up tasks: for every active project, the
    metrics (by timestamp) and the spans (by start time) older than the
    project's retention period are deleted. The list of active projects, the
    clock read for each project and which deletions fail are parameters; a
    failure is logged and the cycle goes on. */
module Retention {
  import opened Wrappers
  import ProjectDomain
  import MetricValues
  import MetricsStore
  import SpanStore

  /** The instant `days` days before `now`, in nanoseconds. */
  function Cutoff(now: int, days: int): int {
    now - days * ProjectDomain.NanosPerDay
  }

  // ---------------------------------------------------------------------------
  // metrics

  /** The metrics cutoff of the `k`-th listed project. */
  function MetricsCutoff(projects: seq<ProjectDomain.Project>, clock: nat -> int, k: nat): int
    requires k < |projects|
  {
    Cutoff(clock(k), projects[k].metricsRetentionDays)
  }

  /** A point outlives the pass when no listed project of its own whose
      deletion went through has a cutoff after the point's timestamp. */
  predicate MetricSurvives(m: MetricValues.MetricPoint, projects: seq<ProjectDomain.Project>, clock: nat -> int, fails: nat -> bool) {
    forall k :: 0 <= k < |projects| && !fails(k) && projects[k].id == m.projectId ==> m.timestamp >= MetricsCutoff(projects, clock, k)
  }

  /** The loop of `start_metrics_cleanup` over the listed projects, in order:
      the `k`-th project's old points are deleted unless that deletion
      fails, which deletes nothing. Returns the points left and the number
      deleted. */
  function MetricsSweep(points: seq<MetricValues.MetricPoint>, projects: seq<ProjectDomain.Project>, clock: nat -> int,
                        fails: nat -> bool): (seq<MetricValues.MetricPoint>, nat)
    decreases |projects|
  {
    if |projects| == 0 then (points, 0)
    else
      var n := |projects| - 1;
      var before := MetricsSweep(points, projects[..n], clock, fails);
      if fails(n) then before
      else
        var step := MetricsStore.DeleteBefore(before.0, projects[n].id, MetricsCutoff(projects, clock, n));
        (step.0, before.1 + step.1)
  }

  /** One cycle of `start_metrics_cleanup`: a failure to list the projects
      skips the cycle. */
  function MetricsCycle(points: seq<MetricValues.MetricPoint>, listed: Result<seq<ProjectDomain.Project>, string>,
                        clock: nat -> int, fails: nat -> bool): (r: (seq<MetricValues.MetricPoint>, nat))
    ensures listed.Err? ==> r == (points, 0)
  {
    if listed.Err? then (points, 0) else MetricsSweep(points, listed.value, clock, fails)
  }

  /** Exactly the points that survive every successful deletion remain, and
      the count reported is the number of points that went. */
  lemma {:induction false} MetricsSweepKeepsSurvivors(points: seq<MetricValues.MetricPoint>, projects: seq<ProjectDomain.Project>,
                                                      clock: nat -> int, fails: nat -> bool)
    ensures var r := MetricsSweep(points, projects, clock, fails);
      forall m :: m in r.0 <==> m in points && MetricSurvives(m, projects, clock, fails)
    ensures var r := MetricsSweep(points, projects, clock, fails);
      r.1 == |points| - |r.0|
    decreases |projects|
  {
    if |projects| > 0 {
      var n := |projects| - 1;
      var front := projects[..n];
      MetricsSweepKeepsSurvivors(points, front, clock, fails);
      assert forall k :: 0 <= k < n ==> front[k] == projects[k];
      forall m
        ensures MetricSurvives(m, projects, clock, fails) <==>
          MetricSurvives(m, front, clock, fails)
          && (fails(n) || projects[n].id != m.projectId || m.timestamp >= MetricsCutoff(projects, clock, n))
      {
        assert forall k :: 0 <= k < n ==> MetricsCutoff(front, clock, k) == MetricsCutoff(projects, clock, k);
      }
    }
  }

  /** Points of projects that are not listed, and points at or after every
      cutoff of their project, are never deleted; a listed project whose
      deletion went through loses every point older than its cutoff. */
  lemma MetricsCycleFacts(points: seq<MetricValues.MetricPoint>, listed: Result<seq<ProjectDomain.Project>, string>,
                          clock: nat -> int, fails: nat -> bool, m: MetricValues.MetricPoint)
    requires m in points
    ensures listed.Ok? && (forall k :: 0 <= k < |listed.value| ==> listed.value[k].id != m.projectId) ==>
      m in MetricsCycle(points, listed, clock, fails).0
    ensures listed.Ok? && (forall k :: 0 <= k < |listed.value| && listed.value[k].id == m.projectId ==>
                            m.timestamp >= MetricsCutoff(listed.value, clock, k)) ==>
      m in MetricsCycle(points, listed, clock, fails).0
    ensures forall k :: listed.Ok? && 0 <= k < |listed.value| && !fails(k) && listed.value[k].id == m.projectId
                        && m.timestamp < MetricsCutoff(listed.value, clock, k) ==>
      m !in MetricsCycle(points, listed, clock, fails).0
  {
    if listed.Ok? {
      MetricsSweepKeepsSurvivors(points, listed.value, clock, fails);
    }
  }

  // ---------------------------------------------------------------------------
  // traces

  /** The traces cutoff of the `k`-th listed project. */
  function TracesCutoff(projects: seq<ProjectDomain.Project>, clock: nat -> int, k: nat): int
    requires k < |projects|
  {
    Cutoff(clock(k), projects[k].tracesRetentionDays)
  }

  /** A span outlives the pass when no listed project of its own whose
      deletion went through has a cutoff after the span's start. */
  predicate SpanSurvives(x: SpanStore.SpanRow, projects: seq<ProjectDomain.Project>, clock: nat -> int, fails: nat -> bool) {
    forall k :: 0 <= k < |projects| && !fails(k) && projects[k].id == x.projectId ==> x.startTime >= TracesCutoff(projects, clock, k)
  }

  /** The loop of `start_traces_cleanup`, as for metrics but with the
      traces retention and the spans' start times. */
  function TracesSweep(rows: seq<SpanStore.SpanRow>, projects: seq<ProjectDomain.Project>, clock: nat -> int,
                       fails: nat -> bool): (seq<SpanStore.SpanRow>, nat)
    decreases |projects|
  {
    if |projects| == 0 then (rows, 0)
    else
      var n := |projects| - 1;
      var before := TracesSweep(rows, projects[..n], clock, fails);
      if fails(n) then before
      else
        var step := SpanStore.DeleteBefore(before.0, projects[n].id, TracesCutoff(projects, clock, n));
        (step.0, before.1 + step.1)
  }

  /** One cycle of `start_traces_cleanup`: a failure to list the projects
      skips the cycle. */
  function TracesCycle(rows: seq<SpanStore.SpanRow>, listed: Result<seq<ProjectDomain.Project>, string>,
                       clock: nat -> int, fails: nat -> bool): (r: (seq<SpanStore.SpanRow>, nat))
    ensures listed.Err? ==> r == (rows, 0)
  {
    if listed.Err? then (rows, 0) else TracesSweep(rows, listed.value, clock, fails)
  }

  /** Exactly the spans that survive every successful deletion remain, and
      the count reported is the number of spans that went. */
  lemma {:induction false} TracesSweepKeepsSurvivors(rows: seq<SpanStore.SpanRow>, projects: seq<ProjectDomain.Project>,
                                                     clock: nat -> int, fails: nat -> bool)
    ensures var r := TracesSweep(rows, projects, clock, fails);
      forall x :: x in r.0 <==> x in rows && SpanSurvives(x, projects, clock, fails)
    ensures var r := TracesSweep(rows, projects, clock, fails);
      r.1 == |rows| - |r.0|
    decreases |projects|
  {
    if |projects| > 0 {
      var n := |projects| - 1;
      var front := projects[..n];
      TracesSweepKeepsSurvivors(rows, front, clock, fails);
      assert forall k :: 0 <= k < n ==> front[k] == projects[k];
      forall x
        ensures SpanSurvives(x, projects, clock, fails) <==>
          SpanSurvives(x, front, clock, fails)
          && (fails(n) || projects[n].id != x.projectId || x.startTime >= TracesCutoff(projects, clock, n))
      {
        assert forall k :: 0 <= k < n ==> TracesCutoff(front, clock, k) == TracesCutoff(projects, clock, k);
      }
    }
  }

  /** Spans of projects that are not listed, and spans starting at or after
      every cutoff of their project, are never deleted; a listed project
      whose deletion went through loses every span that started before its
      cutoff. */
  lemma TracesCycleFacts(rows: seq<SpanStore.SpanRow>, listed: Result<seq<ProjectDomain.Project>, string>,
                         clock: nat -> int, fails: nat -> bool, x: SpanStore.SpanRow)
    requires x in rows
    ensures listed.Ok? && (forall k :: 0 <= k < |listed.value| ==> listed.value[k].id != x.projectId) ==>
      x in TracesCycle(rows, listed, clock, fails).0
    ensures listed.Ok? && (forall k :: 0 <= k < |listed.value| && listed.value[k].id == x.projectId ==>
                            x.startTime >= TracesCutoff(listed.value, clock, k)) ==>
      x in TracesCycle(rows, listed, clock, fails).0
    ensures forall k :: listed.Ok? && 0 <= k < |listed.value| && !fails(k) && listed.value[k].id == x.projectId
                        && x.startTime < TracesCutoff(listed.value, clock, k) ==>
      x !in TracesCycle(rows, listed, clock, fails).0
  {
    if listed.Ok? {
      TracesSweepKeepsSurvivors(rows, listed.value, clock, fails);
    }
  }
}
