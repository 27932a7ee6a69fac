/**
 Requests take turns on a link, with gaps between them (src/modbus_connection/_pacing.py).

 A request holds the lock from before its gap until it has finished; a teardown asks
 for the lock too, but goes ahead without it after a while. The steps are the stretches
 of code between two awaits; the clock only moves forward, and a sleep lasts at least
 as long as asked.
 */
module Pacing {
  import opened Wrappers

  datatype UnitId = UnitId(id: int)

  type Gaps = map<UnitId, real>

  function GapOf(gaps: Gaps, unit: UnitId): real {
    if unit in gaps then gaps[unit] else 0.0
  }

  function Max(a: real, b: real): real {
    if a < b then b else a
  }

  /** The gap owed before a request: the link's, its own, and that of the unit that went last. */
  function Owed(link: real, gaps: Gaps, unit: UnitId, last: Option<UnitId>): real {
    var own := Max(link, GapOf(gaps, unit));
    if last.Some? then Max(own, GapOf(gaps, last.value)) else own
  }

  /** Where a task stands: a request queues, sleeps out its gap and runs; a teardown queues, then holds the lock or does without. */
  datatype Stage = Queued | Sleeping(until: real) | Running | Holding | Proceeding | Over

  datatype Task = Request(unit: UnitId, stage: Stage) | Teardown(stage: Stage)

  /** One request's turn: the gaps as they were when it got the lock, and when it ran. */
  datatype Turn = Turn(unit: UnitId, gaps: Gaps, started: real, finished: Option<real>)

  datatype Pace = Pace(
    link: real, gaps: Gaps, lock: Option<nat>, lastFinished: real, lastUnit: Option<UnitId>,
    now: real, tasks: seq<Task>, turns: seq<Turn>, held: Gaps)

  function Stand(s: Pace, t: nat, stage: Stage): (tasks: seq<Task>)
    requires t < |s.tasks|
    ensures |tasks| == |s.tasks|
  {
    s.tasks[t := s.tasks[t].(stage := stage)]
  }

  // ----- one step -----

  /** A request gets the lock: it sleeps out what is left of its gap, or runs at once. */
  function AfterLock(s: Pace, t: nat): Pace
    requires t < |s.tasks| && s.tasks[t].Request?
  {
    var unit := s.tasks[t].unit;
    var spacing := Owed(s.link, s.gaps, unit, s.lastUnit);
    var wait := spacing - (s.now - s.lastFinished);
    var locked := s.(lock := Some(t), held := s.gaps);
    if spacing != 0.0 && wait > 0.0 then locked.(tasks := Stand(s, t, Sleeping(s.now + wait)))
    else locked.(tasks := Stand(s, t, Running), turns := s.turns + [Turn(unit, s.gaps, s.now, None)])
  }

  function AfterSleep(s: Pace, t: nat): Pace
    requires t < |s.tasks| && s.tasks[t].Request?
  {
    s.(tasks := Stand(s, t, Running), turns := s.turns + [Turn(s.tasks[t].unit, s.held, s.now, None)])
  }

  /** The request is done: the time and the unit are recorded and the lock let go. */
  function AfterFinish(s: Pace, t: nat): Pace
    requires t < |s.tasks| && s.tasks[t].Request? && s.turns != []
  {
    var last := |s.turns| - 1;
    s.(tasks := Stand(s, t, Over), lastFinished := s.now, lastUnit := Some(s.tasks[t].unit), lock := None,
       turns := s.turns[last := s.turns[last].(finished := Some(s.now))])
  }

  /** A teardown is over: it lets go of the lock only if it got it. */
  function AfterTeardown(s: Pace, t: nat): Pace
    requires t < |s.tasks|
  {
    var over := s.(tasks := Stand(s, t, Over));
    if s.tasks[t].stage.Holding? then over.(lock := None) else over
  }

  /** Zero clears a unit's gap; a negative one is refused. */
  function AfterSpacing(s: Pace, unit: UnitId, seconds: real): Pace {
    if seconds < 0.0 then s
    else s.(gaps := if seconds != 0.0 then s.gaps[unit := seconds] else s.gaps - {unit})
  }

  datatype Event =
    | Tick(to: real) | Arrive(unit: UnitId) | Ask | Lock(t: nat) | Wake(t: nat) | Finish(t: nat)
    | Hold(t: nat) | GiveUp(t: nat) | End(t: nat) | Space(unit: UnitId, seconds: real)

  predicate Enabled(s: Pace, e: Event) {
    match e
    case Tick(to) => to >= s.now
    case Arrive(_) => true
    case Ask => true
    case Lock(t) => t < |s.tasks| && s.tasks[t].Request? && s.tasks[t].stage.Queued? && s.lock.None?
    case Wake(t) => t < |s.tasks| && s.tasks[t].Request? && s.tasks[t].stage.Sleeping? && s.now >= s.tasks[t].stage.until
    case Finish(t) => t < |s.tasks| && s.tasks[t].Request? && s.tasks[t].stage.Running? && s.turns != []
    case Hold(t) => t < |s.tasks| && s.tasks[t].Teardown? && s.tasks[t].stage.Queued? && s.lock.None?
    case GiveUp(t) => t < |s.tasks| && s.tasks[t].Teardown? && s.tasks[t].stage.Queued?
    case End(t) => t < |s.tasks| && s.tasks[t].Teardown? && (s.tasks[t].stage.Holding? || s.tasks[t].stage.Proceeding?)
    case Space(_, _) => true
  }

  function Step(s: Pace, e: Event): Pace
    requires Enabled(s, e)
  {
    match e
    case Tick(to) => s.(now := to)
    case Arrive(unit) => s.(tasks := s.tasks + [Request(unit, Queued)])
    case Ask => s.(tasks := s.tasks + [Teardown(Queued)])
    case Lock(t) => AfterLock(s, t)
    case Wake(t) => AfterSleep(s, t)
    case Finish(t) => AfterFinish(s, t)
    case Hold(t) => s.(lock := Some(t), tasks := Stand(s, t, Holding))
    case GiveUp(t) => s.(tasks := Stand(s, t, Proceeding))
    case End(t) => AfterTeardown(s, t)
    case Space(unit, seconds) => AfterSpacing(s, unit, seconds)
  }

  function Initial(link: real, now: real): Pace {
    Pace(link, map[], None, 0.0, None, now, [], [], map[])
  }

  ghost predicate Runs(s: Pace, events: seq<Event>, t: Pace)
    decreases |events|
  {
    if events == [] then s == t else Enabled(s, events[0]) && Runs(Step(s, events[0]), events[1..], t)
  }

  // ----- what every step keeps -----

  predicate Locking(task: Task) {
    task.stage.Sleeping? || task.stage.Running? || task.stage.Holding?
  }

  /** The lock is held by exactly the one task that got it. */
  ghost predicate LockRight(s: Pace) {
    && (s.lock.Some? ==> s.lock.value < |s.tasks| && Locking(s.tasks[s.lock.value]))
    && (forall t :: 0 <= t < |s.tasks| && Locking(s.tasks[t]) ==> s.lock == Some(t))
    && (forall t :: 0 <= t < |s.tasks| && s.tasks[t].Request? ==> !s.tasks[t].stage.Holding? && !s.tasks[t].stage.Proceeding?)
    && (forall t :: 0 <= t < |s.tasks| && s.tasks[t].Teardown? ==> !s.tasks[t].stage.Sleeping? && !s.tasks[t].stage.Running?)
  }

  /** The last turn is the running request's if there is one, and otherwise over. */
  ghost predicate LastRight(s: Pace) {
    && (forall t :: 0 <= t < |s.tasks| && s.tasks[t].stage.Running? && s.tasks[t].Request? ==>
        s.turns != [] && s.turns[|s.turns| - 1].finished.None? && s.turns[|s.turns| - 1].unit == s.tasks[t].unit)
    && (s.turns == [] ==> s.lastUnit.None?)
    && (s.turns != [] ==>
        var last := s.turns[|s.turns| - 1];
        && last.started <= s.now
        && (last.finished.None? ==> s.lock.Some? && s.lock.value < |s.tasks| && s.tasks[s.lock.value].stage.Running?)
        && (last.finished.Some? ==> last.finished == Some(s.lastFinished) && s.lastUnit == Some(last.unit) && s.lastFinished <= s.now))
  }

  /** A sleeping request sleeps out the gap owed as of when it got the lock. */
  ghost predicate SleepRight(s: Pace) {
    forall t :: 0 <= t < |s.tasks| && s.tasks[t].stage.Sleeping? && s.tasks[t].Request? ==>
      s.tasks[t].stage.until >= s.lastFinished + Owed(s.link, s.held, s.tasks[t].unit, s.lastUnit)
  }

  /** A turn is over by the time the next starts, and the next waits out everything owed. */
  ghost predicate TurnRight(s: Pace, i: nat)
    requires i < |s.turns|
  {
    && (s.turns[i].finished.Some? ==> s.turns[i].started <= s.turns[i].finished.value)
    && (i > 0 ==>
        && s.turns[i - 1].finished.Some?
        && s.turns[i - 1].finished.value <= s.turns[i].started
        && s.turns[i].started >= s.turns[i - 1].finished.value + Owed(s.link, s.turns[i].gaps, s.turns[i].unit, Some(s.turns[i - 1].unit)))
  }

  ghost predicate TurnsRight(s: Pace) {
    forall i :: 0 <= i < |s.turns| ==> TurnRight(s, i)
  }

  ghost predicate Inv(s: Pace) {
    LockRight(s) && LastRight(s) && SleepRight(s) && TurnsRight(s)
  }

  /** A request that gets the lock finds no turn running. */
  lemma NoneRuns(s: Pace)
    requires LockRight(s) && LastRight(s) && (s.lock.Some? ==> s.lock.value < |s.tasks| && !s.tasks[s.lock.value].stage.Running?)
    ensures s.turns != [] ==> s.turns[|s.turns| - 1].finished == Some(s.lastFinished) && s.lastFinished <= s.now
  {
  }

  /** A turn that starts now, after everything owed, is right. */
  lemma TurnAdded(s: Pace, t: Pace, turn: Turn)
    requires TurnsRight(s) && t.turns == s.turns + [turn] && t.link == s.link && turn.finished.None?
    requires s.turns != [] ==>
      var last := s.turns[|s.turns| - 1];
      && last.finished.Some? && last.finished.value <= turn.started
      && turn.started >= last.finished.value + Owed(s.link, turn.gaps, turn.unit, Some(last.unit))
    ensures TurnsRight(t)
  {
    hide Owed;
    forall i | 0 <= i < |t.turns| ensures TurnRight(t, i) {
      if i < |s.turns| { assert TurnRight(s, i); }
    }
  }

  lemma LockKeeps(s: Pace, k: nat, t: Pace)
    requires Inv(s) && Enabled(s, Lock(k)) && t == AfterLock(s, k)
    ensures Inv(t)
  {
    hide TurnRight;
    NoneRuns(s);
    if t.turns != s.turns {
      var turn := Turn(s.tasks[k].unit, s.gaps, s.now, None);
      TurnAdded(s, t, turn);
    } else {
      SameTurns(s, t);
    }
  }

  lemma SameTurns(s: Pace, t: Pace)
    requires TurnsRight(s) && t.turns == s.turns && t.link == s.link
    ensures TurnsRight(t)
  {
    forall i | 0 <= i < |t.turns| ensures TurnRight(t, i) { assert TurnRight(s, i); }
  }

  lemma WakeKeeps(s: Pace, k: nat, t: Pace)
    requires Inv(s) && Enabled(s, Wake(k)) && t == AfterSleep(s, k)
    ensures Inv(t)
  {
    hide TurnRight, Owed;
    NoneRuns(s);
    TurnAdded(s, t, Turn(s.tasks[k].unit, s.held, s.now, None));
  }

  lemma FinishKeeps(s: Pace, k: nat, t: Pace)
    requires Inv(s) && Enabled(s, Finish(k)) && t == AfterFinish(s, k)
    ensures Inv(t)
  {
    hide Owed;
    forall i | 0 <= i < |t.turns| ensures TurnRight(t, i) { assert TurnRight(s, i); }
  }

  lemma TeardownKeeps(s: Pace, e: Event)
    requires Inv(s) && Enabled(s, e) && (e.Hold? || e.GiveUp? || e.End?)
    ensures Inv(Step(s, e))
  {
    hide Owed, TurnRight, TurnsRight, AfterLock, AfterSleep, AfterFinish, AfterSpacing;
    SameTurns(s, Step(s, e));
  }

  lemma OtherKeeps(s: Pace, e: Event)
    requires Inv(s) && Enabled(s, e) && (e.Tick? || e.Arrive? || e.Ask? || e.Space?)
    ensures Inv(Step(s, e))
  {
    hide Owed, TurnRight, AfterLock, AfterSleep, AfterFinish, AfterTeardown;
    SameTurns(s, Step(s, e));
  }

  /** Every step keeps everything. */
  lemma Keeps(s: Pace, e: Event)
    requires Inv(s) && Enabled(s, e)
    ensures Inv(Step(s, e))
  {
    hide Inv, AfterLock, AfterSleep, AfterFinish;
    match e
    case Lock(k) => LockKeeps(s, k, Step(s, e));
    case Wake(k) => WakeKeeps(s, k, Step(s, e));
    case Finish(k) => FinishKeeps(s, k, Step(s, e));
    case Hold(_) => TeardownKeeps(s, e);
    case GiveUp(_) => TeardownKeeps(s, e);
    case End(_) => TeardownKeeps(s, e);
    case _ => OtherKeeps(s, e);
  }

  lemma {:induction false} RunKeeps(s: Pace, events: seq<Event>, t: Pace)
    requires Inv(s) && Runs(s, events, t)
    ensures Inv(t)
    decreases |events|
  {
    hide Inv, Step, Enabled;
    if events != [] {
      Keeps(s, events[0]);
      RunKeeps(Step(s, events[0]), events[1..], t);
    }
  }

  // ----- what that means over whole runs -----

  /** The gap owed is each of the three, and no more than the largest. */
  lemma OwedIsLargest(link: real, gaps: Gaps, unit: UnitId, last: UnitId)
    ensures var owed := Owed(link, gaps, unit, Some(last));
      && owed >= link && owed >= GapOf(gaps, unit) && owed >= GapOf(gaps, last)
      && (owed == link || owed == GapOf(gaps, unit) || owed == GapOf(gaps, last))
  {
  }

  /**
   Pacing: however requests, teardowns and changes of gaps interleave, turns never overlap, and
   each starts no sooner after the previous one finished than the largest of the link's gap, its
   own unit's and the previous unit's, as they were when it got the lock.
   */
  lemma TurnsArePaced(link: real, start: real, events: seq<Event>, t: Pace, i: nat)
    requires Runs(Initial(link, start), events, t) && 0 < i < |t.turns|
    ensures t.turns[i - 1].finished.Some?
    ensures t.turns[i - 1].started <= t.turns[i - 1].finished.value <= t.turns[i].started
    ensures var gap := t.turns[i].started - t.turns[i - 1].finished.value;
      gap >= t.link && gap >= GapOf(t.turns[i].gaps, t.turns[i].unit) && gap >= GapOf(t.turns[i].gaps, t.turns[i - 1].unit)
  {
    hide Runs, LockRight, LastRight, SleepRight, Owed;
    StartsRight(link, start);
    RunKeeps(Initial(link, start), events, t);
    assert TurnRight(t, i - 1) && TurnRight(t, i);
    OwedIsLargest(t.link, t.turns[i].gaps, t.turns[i].unit, t.turns[i - 1].unit);
  }

  lemma StartsRight(link: real, now: real)
    ensures Inv(Initial(link, now))
  {
  }

  /** A teardown that gave up waiting never lets go of a lock: whoever holds it goes on holding it. */
  lemma GivingUpHoldsNothing(s: Pace, t: nat)
    requires Inv(s) && t < |s.tasks| && s.tasks[t].Teardown? && (s.tasks[t].stage.Queued? || s.tasks[t].stage.Proceeding?)
    ensures s.lock != Some(t)
    ensures Enabled(s, GiveUp(t)) ==> Step(s, GiveUp(t)).lock == s.lock
    ensures Enabled(s, End(t)) ==> Step(s, End(t)).lock == s.lock
  {
  }

  /** And one that got the lock lets go of exactly that. */
  lemma HoldingIsLetGo(s: Pace, t: nat)
    requires Inv(s) && t < |s.tasks| && s.tasks[t].Teardown? && s.tasks[t].stage.Holding?
    ensures s.lock == Some(t) && Step(s, End(t)).lock.None?
  {
    assert Locking(s.tasks[t]);
  }

  // ----- what a run leaves -----

  /** The gap last asked for a unit in a run: zero clears it, and a refused ask leaves what stood before. */
  function LastGap(events: seq<Event>, unit: UnitId, before: real): real
    decreases |events|
  {
    if events == [] then before
    else
      var last := events[|events| - 1];
      if last.Space? && last.unit == unit && last.seconds >= 0.0 then last.seconds
      else LastGap(events[..|events| - 1], unit, before)
  }

  lemma {:induction false} LastGapFirst(events: seq<Event>, unit: UnitId, before: real)
    requires events != []
    ensures LastGap(events, unit, before) == LastGap(events[1..], unit, LastGap([events[0]], unit, before))
    decreases |events|
  {
    var n := |events| - 1;
    if n > 0 {
      assert events[..n][1..] == events[1..][..n - 1];
      LastGapFirst(events[..n], unit, before);
    } else {
      assert events == [events[0]];
    }
  }

  /** Who arrived in a run, in order: a request's unit, or a teardown. */
  function Arrivals(events: seq<Event>): seq<Option<UnitId>> {
    if events == [] then []
    else (if events[0].Arrive? then [Some(events[0].unit)] else if events[0].Ask? then [None] else []) + Arrivals(events[1..])
  }

  function Who(task: Task): Option<UnitId> {
    if task.Request? then Some(task.unit) else None
  }

  function Everyone(tasks: seq<Task>): (who: seq<Option<UnitId>>)
    ensures |who| == |tasks|
  {
    seq(|tasks|, i requires 0 <= i < |tasks| => Who(tasks[i]))
  }

  /** The clock at the end of a run: where it was last moved to. */
  function Clock(events: seq<Event>, before: real): real {
    if events == [] then before else Clock(events[1..], if events[0].Tick? then events[0].to else before)
  }

  lemma StepLeaves(s: Pace, e: Event, unit: UnitId)
    requires Enabled(s, e)
    ensures GapOf(Step(s, e).gaps, unit) == LastGap([e], unit, GapOf(s.gaps, unit))
    ensures Everyone(Step(s, e).tasks) == Everyone(s.tasks) + Arrivals([e])
    ensures Step(s, e).now == Clock([e], s.now) && Step(s, e).link == s.link
  {
    hide Owed;
    assert [e][..0] == [];
  }

  lemma {:induction false} RunLeaves(s: Pace, events: seq<Event>, t: Pace, unit: UnitId)
    requires Runs(s, events, t)
    ensures GapOf(t.gaps, unit) == LastGap(events, unit, GapOf(s.gaps, unit))
    ensures Everyone(t.tasks) == Everyone(s.tasks) + Arrivals(events)
    ensures t.now == Clock(events, s.now) && t.link == s.link
    decreases |events|
  {
    hide Step, Enabled, GapOf;
    if events != [] {
      StepLeaves(s, events[0], unit);
      RunLeaves(Step(s, events[0]), events[1..], t, unit);
      LastGapFirst(events, unit, GapOf(s.gaps, unit));
      assert [events[0]][1..] == [];
    }
  }

  /**
   In every run the gap of each unit is the last one asked for that was not refused, or none, and nobody who
   arrived is forgotten: everyone who came is there, in order.
   */
  lemma GapsAreAsked(link: real, start: real, events: seq<Event>, t: Pace)
    requires Runs(Initial(link, start), events, t)
    ensures forall u :: GapOf(t.gaps, u) == LastGap(events, u, 0.0)
    ensures Everyone(t.tasks) == Arrivals(events)
    ensures t.link == link && t.now == Clock(events, start)
  {
    hide Runs, LastGap, Arrivals, Clock;
    forall u ensures GapOf(t.gaps, u) == LastGap(events, u, 0.0) { RunLeaves(Initial(link, start), events, t, u); }
    RunLeaves(Initial(link, start), events, t, UnitId(0));
  }

  /** A step of one task's own. */
  predicate Moves(e: Event) {
    e.Lock? || e.Wake? || e.Finish? || e.Hold? || e.GiveUp? || e.End?
  }

  lemma StepsAreTakenOnce(s: Pace, e: Event)
    requires Enabled(s, e) && Moves(e)
    ensures !Enabled(Step(s, e), e)
  {
    hide Owed;
  }

  /** A task that is over takes no further step. */
  lemma OverIsOver(s: Pace, e: Event)
    requires Moves(e) && e.t < |s.tasks| && s.tasks[e.t].stage.Over?
    ensures !Enabled(s, e)
  {
  }

  /**
   No waiting for nothing: a request that gets the lock runs at once exactly when none of the three gaps
   is still running, or none is set, and otherwise sleeps exactly until the last of them is over.
   */
  lemma WaitsNoLonger(s: Pace, k: nat, gaps: set<real>)
    requires Enabled(s, Lock(k))
    requires gaps == {s.link, GapOf(s.gaps, s.tasks[k].unit)}
                     + (if s.lastUnit.Some? then {GapOf(s.gaps, s.lastUnit.value)} else {})
    ensures var t := Step(s, Lock(k));
      && t.lock == Some(k) && (t.tasks[k].stage.Running? || t.tasks[k].stage.Sleeping?)
      && (t.tasks[k].stage.Running? <==>
          || (forall g :: g in gaps ==> s.lastFinished + g <= s.now)
          || (0.0 in gaps && forall g :: g in gaps ==> g <= 0.0))
      && (t.tasks[k].stage.Sleeping? ==>
          && t.tasks[k].stage.until - s.lastFinished in gaps
          && forall g :: g in gaps ==> s.lastFinished + g <= t.tasks[k].stage.until)
  {
  }

  /** A task that is not over can go on, now or once the clock has moved, or waits for one that can. */
  ghost predicate GoesOn(s: Pace, t: nat) {
    || Enabled(s, Finish(t)) || Enabled(s, End(t))
    || (t < |s.tasks| && s.tasks[t].stage.Sleeping? &&
        exists to: real :: to >= s.now && Enabled(Step(s, Tick(to)), Wake(t)))
  }

  lemma SleeperWakes(s: Pace, t: nat)
    requires t < |s.tasks| && s.tasks[t].Request? && s.tasks[t].stage.Sleeping?
    ensures GoesOn(s, t)
  {
    var to := Max(s.now, s.tasks[t].stage.until);
    assert Enabled(Step(s, Tick(to)), Wake(t));
  }

  /** Nobody is stuck: whoever queues can have the lock, or whoever has it goes on; and a teardown need not wait. */
  lemma NobodyIsStuck(s: Pace, t: nat)
    requires Inv(s) && t < |s.tasks| && s.tasks[t].stage != Over
    ensures s.tasks[t].stage.Queued? ==>
      if s.lock.Some? then GoesOn(s, s.lock.value) else Enabled(s, Lock(t)) || Enabled(s, Hold(t))
    ensures s.tasks[t].stage.Queued? && s.tasks[t].Teardown? ==> Enabled(s, GiveUp(t))
    ensures !s.tasks[t].stage.Queued? ==> GoesOn(s, t)
    ensures forall u: UnitId :: Enabled(s, Arrive(u))
    ensures Enabled(s, Ask)
  {
    hide Owed, TurnRight;
    var k := if s.tasks[t].stage.Queued? && s.lock.Some? then s.lock.value else t;
    if s.tasks[k].stage.Sleeping? { SleeperWakes(s, k); }
  }

  // ----- the pacer itself -----

  class Pacer {
    var link: real
    var gaps: Gaps
    var lock: Option<nat>
    var lastFinished: real
    var lastUnit: Option<UnitId>
    var now: real
    var tasks: seq<Task>
    ghost var turns: seq<Turn>
    ghost var held: Gaps

    ghost function Now(): Pace
      reads this
    {
      Pace(link, gaps, lock, lastFinished, lastUnit, now, tasks, turns, held)
    }

    constructor (link: real, now: real)
      ensures Now() == Initial(link, now)
    {
      this.link, this.now := link, now;
      gaps, lock, lastFinished, lastUnit, tasks := map[], None, 0.0, None, [];
      turns, held := [], map[];
    }

    method SetUnitSpacing(unit: UnitId, seconds: real) returns (ok: bool)
      requires Inv(Now())
      modifies this
      ensures Now() == Step(old(Now()), Space(unit, seconds)) && Inv(Now())
      ensures ok <==> seconds >= 0.0
    {
      Keeps(Now(), Space(unit, seconds));
      ok := seconds >= 0.0;
      if ok {
        if seconds != 0.0 {
          gaps := gaps[unit := seconds];
        } else {
          gaps := gaps - {unit};
        }
      }
    }

    /** A request gets the lock. */
    method Acquire(t: nat)
      requires Inv(Now()) && Enabled(Now(), Lock(t))
      modifies this
      ensures Now() == Step(old(Now()), Lock(t)) && Inv(Now())
    {
      Keeps(Now(), Lock(t));
      lock, held := Some(t), gaps;
      var unit := tasks[t].unit;
      var spacing := Max(link, GapOf(gaps, unit));
      if lastUnit.Some? {
        spacing := Max(spacing, GapOf(gaps, lastUnit.value));
      }
      if spacing != 0.0 {
        var wait := spacing - (now - lastFinished);
        if wait > 0.0 {
          tasks := tasks[t := tasks[t].(stage := Sleeping(now + wait))];
          return;
        }
      }
      tasks := tasks[t := tasks[t].(stage := Running)];
      turns := turns + [Turn(unit, gaps, now, None)];
    }

    /** Its gap is over. */
    method Start(t: nat)
      requires Inv(Now()) && Enabled(Now(), Wake(t))
      modifies this
      ensures Now() == Step(old(Now()), Wake(t)) && Inv(Now())
    {
      Keeps(Now(), Wake(t));
      tasks := tasks[t := tasks[t].(stage := Running)];
      turns := turns + [Turn(tasks[t].unit, held, now, None)];
    }

    /** It is done, whatever came of it. */
    method Done(t: nat)
      requires Inv(Now()) && Enabled(Now(), Finish(t))
      modifies this
      ensures Now() == Step(old(Now()), Finish(t)) && Inv(Now()) && lock.None?
    {
      Keeps(Now(), Finish(t));
      lastFinished, lastUnit := now, Some(tasks[t].unit);
      lock := None;
      tasks := tasks[t := tasks[t].(stage := Over)];
      turns := turns[|turns| - 1 := turns[|turns| - 1].(finished := Some(now))];
    }

    /** A teardown is over. */
    method EndTeardown(t: nat)
      requires Inv(Now()) && Enabled(Now(), End(t))
      modifies this
      ensures Now() == Step(old(Now()), End(t)) && Inv(Now())
      ensures old(tasks)[t].stage.Proceeding? ==> lock == old(lock)
    {
      Keeps(Now(), End(t));
      if tasks[t].stage.Holding? {
        lock := None;
      }
      tasks := tasks[t := Teardown(Over)];
    }
  }
}
