/** Runs of the idle auto-stop: passes of the controller, clients and the agent interleaved
    (operator/internal/controller/idle.go:111-359, operator/internal/activity/reporter.go:40-200). */
module IdleRuns {
  import opened Wrappers
  import opened Activity
  import opened Idle

  /** A completed pass that clears the spec gate leaves one statement of whether the environment
      runs; and after any completed pass the mark means something. */
  lemma StopStateAgrees(e: Env, l: Look)
    ensures var r := Completed(e, l);
            && (!l.refused ==> (r.replicas == Some(0) <==> r.status.phase == Some(Stopped)))
            && (r.status.endpoints != [] ==> r.replicas == Some(1))
            && (r.marked ==> r.running && r.timeout > 0)
            && (r.marked && !StillMarked(e) ==> r.status.phase == Some(Running) && r.replicas == Some(1))
  {}

  /** A client edits the spec and clears the mark; the stamp and the status are the controller's. */
  ghost predicate ClientStep(e: Env, e': Env) {
    (e'.marked ==> e.marked) && e'.stamp == e.stamp && e'.status == e.status
  }

  ghost predicate PassStep(e: Env, e': Env, l: Look) { Leaves(e, e', l) && l.stampedAt >= l.now }

  datatype Move = Client | Passed(l: Look)

  ghost predicate Moves(e: Env, e': Env, m: Move) {
    match m case Client => ClientStep(e, e') case Passed(l) => PassStep(e, e', l)
  }

  ghost predicate IsRun(es: seq<Env>, ms: seq<Move>) {
    |es| == |ms| + 1 && forall i :: 0 <= i < |ms| ==> Moves(es[i], es[i + 1], ms[i])
  }

  /** Step `i` is a pass that judged the environment idle and marked it. */
  ghost predicate StopsAt(es: seq<Env>, ms: seq<Move>, i: nat)
    requires IsRun(es, ms) && i < |ms|
  {
    ms[i].Passed? && Judge(es[i], ms[i].l).stop && es[i + 1].marked && es[i + 1].stamp == Some(ms[i].l.stampedAt)
  }

  ghost predicate AtLeast(stamp: Option<int>, t: int) { stamp.Some? && stamp.value >= t }

  lemma StampMoves(e: Env, e': Env, m: Move, t: int)
    requires Moves(e, e', m) && AtLeast(e.stamp, t)
    ensures AtLeast(e'.stamp, t)
  {}

  lemma {:induction false} StampStays(es: seq<Env>, ms: seq<Move>, i: nat, k: nat, t: int)
    requires IsRun(es, ms) && i <= k < |es| && AtLeast(es[i].stamp, t)
    ensures AtLeast(es[k].stamp, t)
  {
    hide Moves, AtLeast;
    if i < k {
      StampStays(es, ms, i, k - 1, t);
      StampMoves(es[k - 1], es[k - 1 + 1], ms[k - 1], t);
    }
  }

  /** Over every run, each stop is of a pod that was running, and comes at least its timeout after the
      pod's mark, or its start where it has no mark, or its creation where it has neither; and after
      every earlier stop, whoever cleared the mark in between and whatever pod was still there. */
  lemma StopsAreSpaced(es: seq<Env>, ms: seq<Move>, i: nat, j: nat)
    requires IsRun(es, ms) && j < |ms| && StopsAt(es, ms, j)
    ensures ms[j].l.pod.Some? && es[j].timeout > 0
    ensures var p, at := ms[j].l.pod.value, ms[j].l.stampedAt;
            && !p.deleting && p.scheduled && !p.failed && p.up
            && (p.mark.Some? ==> at - p.mark.value >= es[j].timeout)
            && (p.mark.None? && p.startTime.Some? ==> at - p.startTime.value >= es[j].timeout)
            && (p.mark.None? && p.startTime.None? ==> at - p.created >= es[j].timeout)
    ensures i < j && StopsAt(es, ms, i) ==> ms[j].l.stampedAt - ms[i].l.stampedAt >= es[j].timeout
  {
    assert Moves(es[j], es[j + 1], ms[j]);
    JudgedBy(es[j], ms[j].l);
    if i < j && StopsAt(es, ms, i) {
      StampStays(es, ms, i + 1, j, ms[i].l.stampedAt);
    }
  }

  /** A mark appears only where a pass stops the environment. */
  lemma MarkedByStop(es: seq<Env>, ms: seq<Move>, i: nat)
    requires IsRun(es, ms) && i < |ms| && !es[i].marked && es[i + 1].marked
    ensures StopsAt(es, ms, i)
  {
    assert Moves(es[i], es[i + 1], ms[i]);
  }

  lemma {:induction false} ActivityMovesForward(es: seq<Env>, ms: seq<Move>, i: nat, k: nat)
    requires IsRun(es, ms) && i <= k < |es|
    ensures Forward(es[i].status.lastActivity, es[k].status.lastActivity)
  {
    if i < k {
      ActivityMovesForward(es, ms, i, k - 1);
      assert Moves(es[k - 1], es[k - 1 + 1], ms[k - 1]);
    }
  }

  lemma {:induction false} StoppedStaysUnmarked(es: seq<Env>, ms: seq<Move>, k: nat)
    requires IsRun(es, ms) && k < |es| && !es[0].marked
    requires forall i :: 0 <= i <= k ==> !es[i].running
    ensures !es[k].marked
  {
    if k > 0 {
      StoppedStaysUnmarked(es, ms, k - 1);
      if es[k].marked { MarkedByStop(es, ms, k - 1); }
    }
  }

  /** A user's stop, seen by one completed pass, and a user's start: however many passes and edits
      come between, the next completed pass renders one replica again. */
  lemma StopThenStart(es: seq<Env>, ms: seq<Move>, before: Env, l: Look, started: Env, next: Look)
    requires IsRun(es, ms) && es[0] == Completed(before, l) && !before.running
    requires forall i :: 0 <= i < |es| ==> !es[i].running
    requires ClientStep(es[|es| - 1], started) && started.running && !next.refused
    ensures Completed(started, next).replicas == Some(1) && Completed(started, next).status.phase != Some(Stopped)
  {
    StoppedStaysUnmarked(es, ms, |es| - 1);
  }

  // -------------------------------------------------------- the agent and the controller

  datatype Both = Both(wire: Wire, last: int, env: Env)

  datatype BusyMove = Sampled(t: Tick) | Restarted(readable: bool) | Pass(l: Look) | Edited

  /** Every sample is active and its write lands; the controller never looks more than `gap` after a
      sample, and reads the pod's annotation. */
  ghost predicate BusyStep(s: Both, s': Both, m: BusyMove, gap: int) {
    match m
    case Sampled(t) =>
      t.now >= s.last && t.sample == Active && t.outcome != Lost && s' == Both(Step(s.wire, t), t.now, s.env)
    case Restarted(readable) =>
      s' == s.(wire := Started(s.wire.mark, readable))
    case Pass(l) =>
      && s'.wire == s.wire && s'.last == s.last && Leaves(s.env, s'.env, l)
      && l.now - s.last <= gap && (l.pod.Some? ==> l.pod.value.mark == s.wire.mark)
    case Edited =>
      s'.wire == s.wire && s'.last == s.last && ClientStep(s.env, s'.env)
  }

  /** No timeout, or one the mark's age cannot reach. */
  ghost predicate LongEnough(e: Env, gap: int) { e.timeout == 0 || e.timeout >= 61_000_000_000 + gap }

  ghost predicate BusyRun(ss: seq<Both>, ms: seq<BusyMove>, gap: int) {
    && |ss| == |ms| + 1
    && (forall i :: 0 <= i < |ms| ==> BusyStep(ss[i], ss[i + 1], ms[i], gap))
    && (forall i :: 0 <= i < |ss| ==> LongEnough(ss[i].env, gap))
  }

  lemma BusyStepKeeps(s: Both, s': Both, m: BusyMove, gap: int)
    requires BusyStep(s, s', m, gap) && LongEnough(s.env, gap) && Fresh(s.wire, s.last) && !s.env.marked
    ensures Fresh(s'.wire, s'.last) && !s'.env.marked
    ensures m.Pass? ==> m.l.now - s.wire.mark.value < 61_000_000_000 + gap
  {
    if m.Sampled? { FreshStep(s.wire, s.last, m.t); }
  }

  /** An environment in use is never stopped.  Once the agent has written a mark, while samples are
      at most `gap` apart, active, and recorded, the mark is always younger than 60 s + `gap` + 1 s
      when the controller looks, and the environment is never marked auto-stopped: agent restarts,
      aborted passes and edits of the spec included. */
  lemma {:induction false} NeverStoppedInUse(ss: seq<Both>, ms: seq<BusyMove>, gap: int, k: nat)
    requires BusyRun(ss, ms, gap) && k < |ss| && Fresh(ss[0].wire, ss[0].last) && !ss[0].env.marked
    ensures !ss[k].env.marked && Fresh(ss[k].wire, ss[k].last)
    ensures k < |ms| && ms[k].Pass? ==> ms[k].l.now - ss[k].wire.mark.value < 61_000_000_000 + gap
  {
    if k > 0 {
      NeverStoppedInUse(ss, ms, gap, k - 1);
      BusyStepKeeps(ss[k - 1], ss[k - 1 + 1], ms[k - 1], gap);
    }
    if k < |ms| { BusyStepKeeps(ss[k], ss[k + 1], ms[k], gap); }
  }

  /** With the sampling interval as the gap, 76 s is the least timeout in whole seconds that is safe:
      for any shorter one, active samples at most 15 s apart can still be judged idle. */
  lemma ShorterCanStop(timeout: int) returns (ts: seq<Tick>, w: Wire, now: int)
    requires 0 < timeout <= 75_000_000_000
    ensures |ts| > 1 && w == Steps(Started(None, true), ts)
    ensures forall i :: 0 <= i < |ts| ==> ts[i].sample == Active && ts[i].outcome == Written
    ensures forall i :: 0 <= i < |ts| - 1 ==> 0 <= ts[i + 1].now - ts[i].now <= 15_000_000_000
    ensures 0 <= now - ts[|ts| - 1].now <= 15_000_000_000
    ensures w.mark.Some? && DecideIdle(now, true, timeout, w.mark.value).stop
  {
    var t := 3600 * SECOND + (SECOND - 1);
    var a, b := Tick(t, Active, Written), Tick(t + 15 * SECOND, Active, Written);
    var c, d := Tick(t + 30 * SECOND, Active, Written), Tick(t + 45 * SECOND, Active, Written);
    var e := Tick(t + 60 * SECOND - 1, Active, Written);
    ts, now := [a, b, c, d, e], t + 75 * SECOND - 1;
    var w0 := Started(None, true);
    w := Wire(Agent(Some(3600 * SECOND), t), Some(3600 * SECOND));
    assert Steps(w0, []) == w0;
    assert Steps(w0, [a]) == w by { assert [a][..0] == []; }
    assert Steps(w0, [a, b]) == w by { assert [a, b][..1] == [a]; }
    assert Steps(w0, [a, b, c]) == w by { assert [a, b, c][..2] == [a, b]; }
    assert Steps(w0, [a, b, c, d]) == w by { assert [a, b, c, d][..3] == [a, b, c]; }
    assert Steps(w0, ts) == w by { assert ts[..4] == [a, b, c, d]; }
  }
}
