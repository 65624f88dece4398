/** The activity agent: it marks the pod with the instant it was last seen active
    (operator/internal/activity/reporter.go:40-46, 120-200).
    Instants are nanoseconds since Go's zero time; the mark is a whole second. */
module Activity {
  import opened Wrappers

  const SECOND := 1_000_000_000
  const MIN_WRITE := 60 * SECOND

  /** What an RFC3339 timestamp without fractions keeps of an instant. */
  function WholeSeconds(t: int): (r: int)
    ensures r % 1_000_000_000 == 0 && r <= t < r + 1_000_000_000
  {
    t - t % SECOND
  }

  datatype Sample = Active | Inactive | Unreadable

  /** `Unacknowledged`: the write landed, but the agent was told it failed. */
  datatype Outcome = Written | Lost | Unacknowledged

  datatype Tick = Tick(now: int, sample: Sample, outcome: Outcome)

  /** The recorder's two fields; `lastWritten` is the mark it last knew, if readable. */
  datatype Agent = Agent(lastWritten: Option<int>, lastWrite: int)

  /** The agent and the annotation of its pod. */
  datatype Wire = Wire(agent: Agent, mark: Option<int>)

  predicate MayWrite(a: Agent, now: int) {
    (a.lastWritten.Some? ==> now > a.lastWritten.value) && now - a.lastWrite >= MIN_WRITE
  }

  predicate Attempts(w: Wire, t: Tick) { t.sample == Active && MayWrite(w.agent, t.now) }

  function Step(w: Wire, t: Tick): Wire {
    if !Attempts(w, t) || t.outcome == Lost then w
    else
      var mark := Some(WholeSeconds(t.now));
      Wire(if t.outcome == Written then Agent(mark, t.now) else w.agent, mark)
  }

  function Steps(w: Wire, ts: seq<Tick>): Wire {
    if ts == [] then w else Step(Steps(w, ts[..|ts| - 1]), ts[|ts| - 1])
  }

  /** Startup: the mark is read back, or not; nothing has been written yet. */
  function Started(mark: Option<int>, readable: bool): Wire {
    Wire(Agent(if readable then mark else None, 0), mark)
  }

  class Annotation {
    var value: Option<int>

    constructor (value: Option<int>)
      ensures this.value == value
    {
      this.value := value;
    }
  }

  class Recorder {
    const store: Annotation
    var lastWritten: Option<int>
    var lastWrite: int

    constructor (store: Annotation)
      ensures this.store == store && State() == Wire(Agent(None, 0), store.value)
    {
      this.store, lastWritten, lastWrite := store, None, 0;
    }

    ghost function State(): Wire
      reads this, store
    {
      Wire(Agent(lastWritten, lastWrite), store.value)
    }

    /** Run: one read, then one sample per tick until the ticks end. */
    method Run(readable: bool, ticks: seq<Tick>)
      requires lastWrite == 0 && lastWritten == None
      modifies this, store
      ensures State() == Steps(Started(old(store.value), readable), ticks)
    {
      if readable { lastWritten := store.value; }
      for i := 0 to |ticks|
        invariant State() == Steps(Started(old(store.value), readable), ticks[..i])
      {
        assert ticks[..i + 1][..i] == ticks[..i];
        DoTick(ticks[i]);
      }
      assert ticks[..|ticks|] == ticks;
    }

    method DoTick(t: Tick)
      modifies this, store
      ensures State() == Step(old(State()), t)
    {
      if t.sample != Active { return; }
      var may := MayWriteAt(t.now);
      if !may { return; }
      var value := Some(WholeSeconds(t.now));
      if t.outcome == Lost { return; }
      store.value := value;
      if t.outcome == Unacknowledged { return; }
      lastWritten, lastWrite := value, t.now;
    }

    method MayWriteAt(now: int) returns (may: bool)
      ensures may <==> (lastWritten.Some? ==> now > lastWritten.value) && now - lastWrite >= 60_000_000_000
      ensures may == MayWrite(Agent(lastWritten, lastWrite), now)
    {
      if lastWritten.Some? && now <= lastWritten.value { return false; }
      return now - lastWrite >= MIN_WRITE;
    }
  }

  // --------------------------------------------------------------- what the mark means

  /** A last-seen-active mark, not a heartbeat: it is what it was, or the second of an active sample. */
  lemma {:induction false} MarkSaysActive(w: Wire, ts: seq<Tick>)
    ensures var m := Steps(w, ts).mark;
            m == w.mark || exists i :: 0 <= i < |ts| && ts[i].sample == Active && m == Some(WholeSeconds(ts[i].now))
  {
    if ts != [] {
      var init, t := ts[..|ts| - 1], ts[|ts| - 1];
      MarkSaysActive(w, init);
      var m := Steps(w, init).mark;
      if Steps(w, ts).mark == m && m != w.mark {
        var i :| 0 <= i < |init| && init[i].sample == Active && m == Some(WholeSeconds(init[i].now));
        assert ts[i] == init[i];
      }
    }
  }

  ghost predicate Forward(before: Option<int>, after: Option<int>) {
    before.Some? ==> after.Some? && after.value >= before.value
  }

  /** The agent knows the mark as it stands. */
  ghost predicate Synced(w: Wire) {
    w.agent.lastWritten == w.mark && (w.mark.Some? ==> w.mark.value % SECOND == 0)
  }

  /** As long as its writes are answered, the mark never moves back, whatever the clock does. */
  lemma {:induction false} MarkMovesForward(w: Wire, ts: seq<Tick>)
    requires Synced(w) && forall i :: 0 <= i < |ts| ==> ts[i].outcome != Unacknowledged
    ensures Synced(Steps(w, ts)) && Forward(w.mark, Steps(w, ts).mark)
  {
    if ts != [] {
      var init := ts[..|ts| - 1];
      assert forall i :: 0 <= i < |init| ==> init[i] == ts[i];
      MarkMovesForward(w, init);
    }
  }

  /** The ticks whose write was acknowledged. */
  function Writes(w: Wire, ts: seq<Tick>): seq<int> {
    if ts == [] then []
    else
      var init, t := ts[..|ts| - 1], ts[|ts| - 1];
      Writes(w, init) + if Attempts(Steps(w, init), t) && t.outcome == Written then [t.now] else []
  }

  /** Acknowledged writes are a minute apart, and the last of them is what the floor is measured from. */
  lemma {:induction false} WritesAreSpaced(w: Wire, ts: seq<Tick>)
    ensures var ws := Writes(w, ts);
            && Steps(w, ts).agent.lastWrite == (if ws == [] then w.agent.lastWrite else ws[|ws| - 1])
            && forall i :: 0 <= i < |ws| - 1 ==> ws[i + 1] - ws[i] >= 60_000_000_000
  {
    if ts != [] { WritesAreSpaced(w, ts[..|ts| - 1]); }
  }

  /** A write that failed does not use up the floor: the next active sample tries again. */
  lemma FailureIsRetried(w: Wire, t: Tick, u: Tick)
    requires Attempts(w, t) && t.outcome != Written && u.now >= t.now && u.sample == Active
    ensures Attempts(Step(w, t), u)
  {}

  // -------------------------------------------------------------------------- its age

  /** At the sample taken at `last`, the mark is less than the floor and a second behind. */
  ghost predicate Fresh(w: Wire, last: int) {
    && last >= MIN_WRITE
    && w.mark.Some? && w.mark.value % SECOND == 0 && w.mark.value <= last < w.mark.value + MIN_WRITE + SECOND
    && (w.agent.lastWritten.Some? ==> w.agent.lastWritten.value <= w.mark.value)
    && (w.agent.lastWrite == 0 || w.agent.lastWrite < w.mark.value + SECOND)
  }

  /** An active sample whose write lands keeps the mark fresh. */
  lemma FreshStep(w: Wire, last: int, t: Tick)
    requires Fresh(w, last) && t.now >= last && t.sample == Active && t.outcome != Lost
    ensures Fresh(Step(w, t), t.now)
  {}

  /** An agent that can read its mark back knows it, so that the mark moves forward from there; one that cannot
      writes as if there were none. The floor is not waited for anew: the next active sample is written, unless
      the agent knows a mark that is not behind it. */
  lemma RestartKnowsTheMark(mark: Option<int>, readable: bool, t: Tick)
    ensures Started(mark, readable).mark == mark
    ensures readable && (mark.Some? ==> mark.value % 1_000_000_000 == 0) ==> Synced(Started(mark, readable))
    ensures t.sample == Active && t.now >= 60_000_000_000 ==>
              (Attempts(Started(mark, readable), t) <==> !readable || mark.None? || mark.value < t.now)
  {}

  /** The first write makes it fresh; a restart of the agent leaves it so. */
  lemma WriteAndRestartAreFresh(w: Wire, t: Tick, last: int, readable: bool)
    ensures Attempts(w, t) && t.outcome == Written && t.now >= MIN_WRITE ==> Fresh(Step(w, t), t.now)
    ensures Fresh(w, last) ==> Fresh(Started(w.mark, readable), last)
  {}
}
