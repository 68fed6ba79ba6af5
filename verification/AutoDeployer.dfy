/**
 The throttled deployer of the local backend (packages/convex-local-dev/src/deploy.ts): a change arms a timer or, while
 a deploy runs, sets a flag. No change is lost, and deploys do not start in quick succession.
 */
module AutoDeployer {
  import opened Wrappers

  /** Milliseconds. */
  type Time = nat

  const INTERVAL := 3000

  function Max(a: int, b: int): int {
    if a < b then b else a
  }

  /** The fields of the deployer; an armed timer is the time at which it is due. */
  datatype Deployer = Deployer(pending: bool, running: bool, lastDeployTime: Time, timer: Option<Time>)

  function Schedule(d: Deployer, now: Time): Deployer {
    if d.running then d.(pending := true)
    else if d.timer.Some? then d
    else
      var delay := Max(0, INTERVAL - (now - d.lastDeployTime));
      d.(timer := Some(now + delay))
  }

  /** The timer fires: the part of `#deploy` before the deploy itself. */
  function Begin(d: Deployer, now: Time): Deployer {
    if d.running then d.(timer := None)
    else d.(timer := None, running := true, pending := false, lastDeployTime := now)
  }

  /** The `finally` block, reached whether or not the deploy failed. */
  function Finish(d: Deployer, now: Time): Deployer {
    var over := d.(running := false);
    if over.pending then Schedule(over, now) else over
  }

  function Stopped(d: Deployer): Deployer {
    d.(timer := None, pending := false, running := false)
  }

  // ---------------------------------------------------------------- runs

  datatype Event = Tick(elapsed: nat) | Change | Fire | Finished | Stop

  /**
   The deployer with its surroundings: the clock, how many changes there were, how many of them the last deploy to start
   has seen, when deploys started, and whether `stop` was called.
   */
  datatype World = World(d: Deployer, now: Time, changes: nat, covered: nat, starts: seq<Time>, stopped: bool)

  function Initial(now: Time): World {
    World(Deployer(false, false, 0, None), now, 0, 0, [], false)
  }

  /** A timer does not fire before it is due, and after `stop` the directories are no longer watched. */
  predicate Enabled(w: World, e: Event) {
    match e
    case Tick(_) => true
    case Change => !w.stopped
    case Fire => w.d.timer.Some? && w.d.timer.value <= w.now
    case Finished => w.d.running
    case Stop => true
  }

  function Next(w: World, e: Event): World
    requires Enabled(w, e)
  {
    match e
    case Tick(elapsed) => w.(now := w.now + elapsed)
    case Change => w.(d := Schedule(w.d, w.now), changes := w.changes + 1)
    case Fire =>
      var begun := Begin(w.d, w.now);
      if w.d.running then w.(d := begun)
      else w.(d := begun, covered := w.changes, starts := w.starts + [w.now])
    case Finished => w.(d := Finish(w.d, w.now))
    case Stop => w.(d := Stopped(w.d), stopped := true)
  }

  predicate CanRun(w: World, events: seq<Event>)
    decreases |events|
  {
    events == [] || (Enabled(w, events[0]) && CanRun(Next(w, events[0]), events[1..]))
  }

  function Run(w: World, events: seq<Event>): World
    requires CanRun(w, events)
    decreases |events|
  {
    if events == [] then w else Run(Next(w, events[0]), events[1..])
  }

  // ---------------------------------------------------------------- safety

  /** A change that no deploy has seen is on its way: a timer is armed, or the running deploy will be followed. */
  predicate NothingLost(w: World) {
    !w.stopped && w.changes > w.covered ==> w.d.timer.Some? || (w.d.running && w.d.pending)
  }

  /** A timer is never armed while a deploy runs, and the flag is only set while one runs or a timer is armed. */
  predicate Exclusive(d: Deployer) {
    (d.running ==> d.timer.None?) && (d.pending ==> d.running || d.timer.Some?)
  }

  /** Deploys start at least the interval apart, and an armed timer keeps to that. */
  predicate Throttled(w: World) {
    && (forall i :: 0 < i < |w.starts| ==> w.starts[i] - w.starts[i - 1] >= INTERVAL)
    && (w.starts != [] ==> w.starts[|w.starts| - 1] == w.d.lastDeployTime)
    && (w.starts == [] ==> w.d.lastDeployTime == 0)
    && w.d.lastDeployTime <= w.now
    && (w.d.timer.Some? ==>
          w.d.lastDeployTime + INTERVAL <= w.d.timer.value <= w.now + INTERVAL)
  }

  predicate Inv(w: World) {
    && NothingLost(w) && Exclusive(w.d) && Throttled(w) && w.covered <= w.changes
    && (w.stopped ==> w.d.timer.None? && !w.d.pending && !w.d.running)
  }

  lemma NextKeeps(w: World, e: Event)
    requires Inv(w) && Enabled(w, e)
    ensures Inv(Next(w, e))
  {
    var v := Next(w, e);
    if e.Fire? && !w.d.running {
      forall i | 0 < i < |v.starts| ensures v.starts[i] - v.starts[i - 1] >= INTERVAL {
        if i == |w.starts| { assert v.starts[i - 1] == w.d.lastDeployTime; }
      }
    }
  }

  lemma {:induction false} RunKeeps(w: World, events: seq<Event>)
    requires Inv(w) && CanRun(w, events)
    ensures Inv(Run(w, events))
    decreases |events|
  {
    if events == [] {
    } else {
      NextKeeps(w, events[0]);
      RunKeeps(Next(w, events[0]), events[1..]);
    }
  }

  /** In every run: no change is lost, no timer is armed while a deploy runs, and deploys start apart. */
  lemma EveryRun(begin: Time, events: seq<Event>, w: World)
    requires CanRun(Initial(begin), events) && w == Run(Initial(begin), events)
    ensures NothingLost(w) && Exclusive(w.d)
    ensures forall i, j :: 0 <= i < j < |w.starts| ==> w.starts[j] - w.starts[i] >= (j - i) * INTERVAL
  {
    RunKeeps(Initial(begin), events);
    forall i, j | 0 <= i < j < |w.starts| ensures w.starts[j] - w.starts[i] >= (j - i) * INTERVAL {
      StartsApart(w, i, j);
    }
  }

  lemma {:induction false} StartsApart(w: World, i: nat, j: nat)
    requires Throttled(w) && i < j < |w.starts|
    ensures w.starts[j] - w.starts[i] >= (j - i) * INTERVAL
    decreases j - i
  {
    if i + 1 < j { StartsApart(w, i, j - 1); }
  }

  // ---------------------------------------------------------------- progress

  /** What is left to happen before the next deploy starts: the running one ends, the timer becomes due and fires. */
  function CatchUp(w: World): seq<Event>
    requires !w.stopped && w.changes > w.covered && Inv(w)
  {
    if w.d.running then [Finished] + WaitAndFire(Next(w, Finished))
    else WaitAndFire(w)
  }

  function WaitAndFire(w: World): seq<Event>
    requires w.d.timer.Some?
  {
    [Tick(Max(0, w.d.timer.value - w.now)), Fire]
  }

  lemma WaitAndFireDeploys(w: World)
    requires Inv(w) && w.d.timer.Some?
    ensures CanRun(w, WaitAndFire(w))
    ensures
      var v := Run(w, WaitAndFire(w));
      v.covered == w.changes && v.d.running && v.now <= w.now + INTERVAL
  {
    var events := WaitAndFire(w);
    var waited := Next(w, events[0]);
    assert events[1..] == [Fire] && [Fire][1..] == [];
    assert Enabled(waited, Fire);
    assert Run(waited, [Fire]) == Next(waited, Fire);
  }

  /** A change no deploy has seen is seen by the next one, at most one interval after the running one has ended. */
  lemma ChangeGetsDeployed(w: World)
    requires Inv(w) && !w.stopped && w.changes > w.covered
    ensures CanRun(w, CatchUp(w))
    ensures
      var v := Run(w, CatchUp(w));
      v.covered == w.changes && v.d.running && v.now <= w.now + INTERVAL
  {
    if w.d.running {
      NextKeeps(w, Finished);
      var v := Next(w, Finished);
      WaitAndFireDeploys(v);
      assert CatchUp(w)[1..] == WaitAndFire(v);
    } else {
      WaitAndFireDeploys(w);
    }
  }

  /** Timers fire when they are due: the clock does not pass the due time of an armed timer. */
  predicate Prompt(w: World, events: seq<Event>)
    requires CanRun(w, events)
    decreases |events|
  {
    events == [] ||
    ((events[0].Tick? && w.d.timer.Some? ==> w.now + events[0].elapsed <= w.d.timer.value) &&
     Prompt(Next(w, events[0]), events[1..]))
  }

  predicate NoStop(events: seq<Event>) {
    forall i :: 0 <= i < |events| ==> !events[i].Stop?
  }

  /** The first deploy to start between the two moments starts at `due`. */
  predicate NextStart(w: World, v: World, due: Time) {
    |w.starts| < |v.starts| && v.starts[|w.starts|] == due
  }

  lemma {:induction false} StartsGrow(w: World, events: seq<Event>)
    requires CanRun(w, events)
    ensures w.starts <= Run(w, events).starts
    decreases |events|
  {
    if events == [] {
    } else {
      StartsGrow(Next(w, events[0]), events[1..]);
    }
  }

  lemma {:induction false} CoveredGrows(w: World, events: seq<Event>)
    requires Inv(w) && CanRun(w, events)
    ensures Run(w, events).covered >= w.covered && Run(w, events).changes >= w.changes
    decreases |events|
  {
    if events == [] {
    } else {
      NextKeeps(w, events[0]);
      CoveredGrows(Next(w, events[0]), events[1..]);
    }
  }

  /**
   When a timer is armed, every prompt run that gets past its due time has started the next deploy at that time, and
   with it deployed the changes made before.
   */
  lemma {:induction false} ArmedIsDeployed(w: World, events: seq<Event>, changes: nat)
    requires Inv(w) && w.d.timer.Some? && w.now <= w.d.timer.value && w.changes >= changes
    requires CanRun(w, events) && Prompt(w, events) && NoStop(events)
    requires Run(w, events).now > w.d.timer.value
    ensures Run(w, events).covered >= changes && NextStart(w, Run(w, events), w.d.timer.value)
    decreases |events|
  {
    if events == [] {
    } else {
      var v := Next(w, events[0]);
      NextKeeps(w, events[0]);
      assert !events[0].Stop?;
      assert NoStop(events[1..]);
      if events[0].Fire? {
        CoveredGrows(v, events[1..]);
        StartsGrow(v, events[1..]);
      } else {
        ArmedIsDeployed(v, events[1..], changes);
      }
    }
  }

  /** A running deploy with changes behind it keeps them until it ends. */
  lemma {:induction false} StaysPending(w: World, events: seq<Event>)
    requires Inv(w) && w.d.running && w.d.pending && CanRun(w, events) && NoStop(events)
    requires forall i :: 0 <= i < |events| ==> !events[i].Finished?
    ensures var v := Run(w, events); Inv(v) && v.d.running && v.d.pending && v.changes >= w.changes
    decreases |events|
  {
    if events == [] {
    } else {
      NextKeeps(w, events[0]);
      assert !events[0].Stop? && !events[0].Finished?;
      assert NoStop(events[1..]);
      StaysPending(Next(w, events[0]), events[1..]);
    }
  }

  /** In a prompt run from the start, an armed timer is never overdue. */
  lemma {:induction false} NeverOverdue(w: World, events: seq<Event>)
    requires Inv(w) && CanRun(w, events) && Prompt(w, events)
    requires w.d.timer.Some? ==> w.now <= w.d.timer.value
    ensures var v := Run(w, events); Inv(v) && (v.d.timer.Some? ==> v.now <= v.d.timer.value)
    decreases |events|
  {
    if events == [] {
    } else {
      NextKeeps(w, events[0]);
      NeverOverdue(Next(w, events[0]), events[1..]);
    }
  }

  /** The earliest time at which a deploy may start: now, or one interval after the last one started. */
  function Earliest(w: World): Time {
    var last := if w.starts == [] then 0 else w.starts[|w.starts| - 1];
    if last + INTERVAL <= w.now then w.now else last + INTERVAL
  }

  /**
   A change that no deploy has seen while none runs: a timer is armed, due within one interval, and every prompt run
   without `stop` whose clock gets past its due time has started a deploy then, which has seen the change.
   */
  lemma EveryPromptRunDeploys(begin: Time, first: seq<Event>, w: World, events: seq<Event>)
    requires CanRun(Initial(begin), first) && Prompt(Initial(begin), first) && w == Run(Initial(begin), first)
    requires !w.stopped && w.changes > w.covered && !w.d.running
    requires CanRun(w, events) && Prompt(w, events) && NoStop(events)
    ensures w.d.timer.Some? && w.now <= w.d.timer.value <= w.now + INTERVAL
    ensures Run(w, events).now > w.d.timer.value ==>
      Run(w, events).covered >= w.changes && NextStart(w, Run(w, events), w.d.timer.value)
  {
    NeverOverdue(Initial(begin), first);
    if Run(w, events).now > w.d.timer.value { ArmedIsDeployed(w, events, w.changes); }
  }

  /** A change that finds the deployer idle is deployed at the earliest time: at once, or as the interval allows. */
  lemma IdleDeploysEarliest(begin: Time, first: seq<Event>, w: World, events: seq<Event>)
    requires CanRun(Initial(begin), first) && w == Run(Initial(begin), first)
    requires !w.stopped && !w.d.running && w.d.timer.None?
    requires CanRun(w, [Change] + events) && Prompt(w, [Change] + events) && NoStop(events)
    ensures var v := Run(w, [Change] + events);
      v.now > Earliest(w) ==> NextStart(w, v, Earliest(w)) && v.covered > w.changes
  {
    RunKeeps(Initial(begin), first);
    NextKeeps(w, Change);
    assert ([Change] + events)[1..] == events;
    var armed := Next(w, Change);
    if Run(armed, events).now > Earliest(w) { ArmedIsDeployed(armed, events, armed.changes); }
  }

  /**
   One that was made while a deploy ran: every prompt run without `stop` has deployed it, at the earliest time after the
   end of that deploy.
   */
  lemma EveryPromptRunFollowsUp(begin: Time, first: seq<Event>, w: World, before: seq<Event>, after: seq<Event>)
    requires CanRun(Initial(begin), first) && w == Run(Initial(begin), first)
    requires !w.stopped && w.changes > w.covered && w.d.running
    requires CanRun(w, before) && NoStop(before) && forall i :: 0 <= i < |before| ==> !before[i].Finished?
    requires NoStop(after) && Run(w, before).d.running
    requires var v := Next(Run(w, before), Finished); CanRun(v, after) && Prompt(v, after)
    ensures var v := Next(Run(w, before), Finished);
      Earliest(v) <= v.now + INTERVAL &&
      (Run(v, after).now > Earliest(v) ==>
         Run(v, after).covered >= w.changes && NextStart(v, Run(v, after), Earliest(v)))
  {
    RunKeeps(Initial(begin), first);
    StaysPending(w, before);
    var v := Next(Run(w, before), Finished);
    NextKeeps(Run(w, before), Finished);
    if Run(v, after).now > Earliest(v) { ArmedIsDeployed(v, after, w.changes); }
  }

  /** A deployer that is idle and has nothing to deploy does not deploy. */
  lemma {:induction false} NoChangeNoDeploy(w: World, events: seq<Event>)
    requires Inv(w) && w.d.timer.None? && !w.d.pending && CanRun(w, events)
    requires forall i :: 0 <= i < |events| ==> !events[i].Change?
    ensures Run(w, events).starts == w.starts
    decreases |events|
  {
    if events == [] {
    } else {
      assert !events[0].Change?;
      NextKeeps(w, events[0]);
      assert forall i :: 0 <= i < |events[1..]| ==> events[1..][i] == events[i + 1];
      NoChangeNoDeploy(Next(w, events[0]), events[1..]);
    }
  }

  /** `stop` leaves nothing running, armed or pending. */
  lemma StopLeavesIdle(w: World)
    requires Inv(w)
    ensures var d := Next(w, Stop).d; !d.running && d.timer.None? && !d.pending
  {
    NextKeeps(w, Stop);
  }

  /** After `stop`, no deploy starts any more. */
  lemma {:induction false} StopIsFinal(w: World, events: seq<Event>)
    requires Inv(w) && w.stopped && CanRun(w, events)
    ensures Run(w, events).starts == w.starts
    decreases |events|
  {
    if events == [] {
    } else {
      NextKeeps(w, events[0]);
      StopIsFinal(Next(w, events[0]), events[1..]);
    }
  }

  // ---------------------------------------------------------------- the object

  class AutoDeployer {
    var deployPending: bool
    var deployRunning: bool
    var lastDeployTime: Time
    var deployTimer: Option<Time>

    function Now(): Deployer
      reads this
    {
      Deployer(deployPending, deployRunning, lastDeployTime, deployTimer)
    }

    constructor ()
      ensures Now() == Initial(0).d
    {
      deployPending, deployRunning, lastDeployTime, deployTimer := false, false, 0, None;
    }

    method ScheduleDeploy(now: Time)
      modifies this
      ensures Now() == Schedule(old(Now()), now)
    {
      if deployRunning {
        deployPending := true;
        return;
      }
      if deployTimer == None {
        var timeSinceLastDeploy := now - lastDeployTime;
        var delay := Max(0, INTERVAL - timeSinceLastDeploy);
        deployTimer := Some(now + delay);
      }
    }

    /** `#deploy`: the deploy itself takes until `ended`, and only `changed` tells whether changes came meanwhile. */
    method Deploy(now: Time, changed: bool, ended: Time)
      requires Exclusive(Now()) && now <= ended
      modifies this
      ensures Exclusive(Now())
      ensures
        var begun := Begin(old(Now()), now);
        Now() ==
        if old(deployRunning) then begun
        else Finish(if changed then Schedule(begun, ended) else begun, ended)
    {
      deployTimer := None;
      if deployRunning {
        return;
      }
      deployRunning := true;
      deployPending := false;
      lastDeployTime := now;
      if changed {
        ScheduleDeploy(ended);
      }
      deployRunning := false;
      if deployPending {
        ScheduleDeploy(ended);
      }
    }

    method StopDeployer()
      modifies this
      ensures Now() == Stopped(old(Now()))
    {
      deployTimer := None;
      deployPending := false;
      deployRunning := false;
    }
  }
}
