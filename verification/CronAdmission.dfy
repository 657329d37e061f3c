/**
 * Admission of cron ticks under a concurrency cap (src/crons.rs): claiming a slot,
 * dispatching, the exit of a started arc, and removal of the cron.
 */
module CronAdmission {
  import opened Wrappers
  import opened Naturals

  datatype Name = Name(text: string)

  // ---- the registry's counters ----

  function InFlight(counters: map<Name, nat>, name: Name): nat {
    if name in counters then counters[name] else 0
  }

  /** Whether a tick may dispatch; a cap of zero lifts the limit. */
  predicate Admits(counters: map<Name, nat>, name: Name, cap: nat) {
    cap == 0 || InFlight(counters, name) < cap
  }

  function Claimed(counters: map<Name, nat>, name: Name, cap: nat): map<Name, nat> {
    var n := InFlight(counters, name);
    if !Admits(counters, name, cap) then counters[name := n]
    else if cap == 0 && n >= U32_MAX then counters[name := U32_MAX]
    else counters[name := n + 1]
  }

  function Done(counters: map<Name, nat>, name: Name): map<Name, nat> {
    if name !in counters then counters
    else counters[name := if counters[name] == 0 then 0 else counters[name] - 1]
  }

  /** How a dispatch ended: an arc runs on, nothing was started, or the dispatch failed. */
  datatype Outcome = ArcStarted | OtherStatus | Failed

  class CronRegistry {
    var state: map<Name, nat>

    constructor ()
      ensures state == map[]
    {
      state := map[];
    }

    method TryClaim(name: Name, cap: nat) returns (claimed: bool)
      modifies this
      ensures claimed == Admits(old(state), name, cap)
      ensures state == Claimed(old(state), name, cap)
    {
      if name !in state {
        state := state[name := 0];
      }
      if cap == 0 {
        state := state[name := if state[name] >= U32_MAX then U32_MAX else state[name] + 1];
        return true;
      }
      if state[name] >= cap {
        return false;
      }
      state := state[name := state[name] + 1];
      return true;
    }

    method MarkDone(name: Name)
      modifies this
      ensures state == Done(old(state), name)
    {
      if name in state {
        state := state[name := if state[name] == 0 then 0 else state[name] - 1];
      }
    }

    method Remove(name: Name)
      modifies this
      ensures state == old(state) - {name}
    {
      state := state - {name};
    }

    /** The part of `run_one_tick` after the dispatch has returned. */
    method SettleDispatch(name: Name, outcome: Outcome)
      modifies this
      ensures state == if outcome == OtherStatus then Done(old(state), name) else old(state)
    {
      if outcome != Failed {
        var wasStartArc := outcome == ArcStarted;
        if !wasStartArc {
          MarkDone(name);
        }
      }
    }

    /** A whole tick with nothing in between: the slot is given back only for `OtherStatus`. */
    method RunOneTick(name: Name, cap: nat, outcome: Outcome) returns (fired: bool)
      modifies this
      ensures fired == Admits(old(state), name, cap)
      ensures fired && cap > 0 ==>
                InFlight(state, name)
                == InFlight(old(state), name) + (if outcome == OtherStatus then 0 else 1)
      ensures !fired ==> InFlight(state, name) == InFlight(old(state), name)
      ensures forall other :: other != name ==> InFlight(state, other) == InFlight(old(state), other)
    {
      fired := TryClaim(name, cap);
      if fired {
        SettleDispatch(name, outcome);
      }
    }
  }

  // ---- the protocol ----

  /** What is going on for one cron, counted from outside the registry. */
  datatype Tally = Tally(
    dispatching: nat,  // dispatches in progress
    live: nat,         // arcs started and not finished
    leaked: nat,       // dispatches failed or aborted, whose slot nobody gives back
    orphaned: nat)     // slots that were held when the cron was removed
  {
    function Held(): nat {
      dispatching + live + leaked
    }
  }

  datatype System = System(state: map<Name, nat>, tallies: map<Name, Tally>) {
    function Of(name: Name): Tally {
      if name in tallies then tallies[name] else Tally(0, 0, 0, 0)
    }

    function With(state': map<Name, nat>, name: Name, t: Tally): System {
      System(state', tallies[name := t])
    }
  }

  const INITIAL := System(map[], map[])

  /** One step of some task: ticks, dispatches and arcs of all crons interleave freely. */
  datatype Event =
    | Tick(name: Name)
    | Dispatched(name: Name, outcome: Outcome)
    | Aborted(name: Name)  // the loop is aborted in a dispatch, by a reinstallation or a removal
    | ArcExit(name: Name)
    | Remove(name: Name)

  /** The configured caps; one running arc is the default. */
  type Caps = map<Name, nat>

  function CapOf(caps: Caps, name: Name): nat {
    if name in caps then caps[name] else 1
  }

  predicate Enabled(s: System, e: Event) {
    match e
    case Tick(_) => true
    case Dispatched(name, _) => s.Of(name).dispatching > 0
    case Aborted(name) => s.Of(name).dispatching > 0
    case ArcExit(name) => s.Of(name).live > 0
    case Remove(_) => true
  }

  function Step(caps: Caps, s: System, e: Event): System
    requires Enabled(s, e)
  {
    var t := s.Of(e.name);
    match e
    case Tick(name) =>
      s.With(Claimed(s.state, name, CapOf(caps, name)), name,
             if Admits(s.state, name, CapOf(caps, name)) then t.(dispatching := t.dispatching + 1) else t)
    case Dispatched(name, ArcStarted) =>
      s.With(s.state, name, t.(dispatching := t.dispatching - 1, live := t.live + 1))
    case Dispatched(name, OtherStatus) =>
      s.With(Done(s.state, name), name, t.(dispatching := t.dispatching - 1))
    case Dispatched(name, Failed) =>
      s.With(s.state, name, t.(dispatching := t.dispatching - 1, leaked := t.leaked + 1))
    case Aborted(name) =>
      s.With(s.state, name, t.(dispatching := t.dispatching - 1, leaked := t.leaked + 1))
    case ArcExit(name) =>
      s.With(Done(s.state, name), name, t.(live := t.live - 1))
    case Remove(name) =>
      s.With(s.state - {name}, name, t.(orphaned := t.orphaned + InFlight(s.state, name)))
  }

  /** The system a run leads to, if each of its steps is enabled in turn. */
  function Execute(caps: Caps, s: System, run: seq<Event>): Option<System> {
    if run == [] then Some(s)
    else
      match Execute(caps, s, run[..|run| - 1])
      case None => None
      case Some(mid) =>
        if Enabled(mid, run[|run| - 1]) then Some(Step(caps, mid, run[|run| - 1])) else None
  }

  predicate RemoveFree(run: seq<Event>) {
    forall i :: 0 <= i < |run| ==> !run[i].Remove?
  }

  /** The dispatch ends without anyone giving its slot back. */
  predicate LosesSlot(e: Event) {
    (e.Dispatched? && e.outcome.Failed?) || e.Aborted?
  }

  /** How many dispatches of a cron failed or were aborted. */
  function Failures(run: seq<Event>, name: Name): nat {
    if run == [] then 0
    else
      var e := run[|run| - 1];
      Failures(run[..|run| - 1], name) + (if e.name == name && LosesSlot(e) then 1 else 0)
  }

  // ---- one cron's slots ----

  /** The counter of a cron, as the registry sees it, and the slots held, as they are. */
  datatype Slots = Slots(counter: nat, tally: Tally)

  function SlotsOf(s: System, name: Name): Slots {
    Slots(InFlight(s.state, name), s.Of(name))
  }

  function Released(n: nat): nat {
    if n == 0 then 0 else n - 1
  }

  /** What a step does to its own cron, when that is capped. */
  function Effect(e: Event, cap: nat, x: Slots): Slots
    requires e.Dispatched? || e.Aborted? ==> x.tally.dispatching > 0
    requires e.ArcExit? ==> x.tally.live > 0
  {
    var n, t := x.counter, x.tally;
    match e
    case Tick(_) => if n < cap then Slots(n + 1, t.(dispatching := t.dispatching + 1)) else x
    case Dispatched(_, ArcStarted) =>
      Slots(n, t.(dispatching := t.dispatching - 1, live := t.live + 1))
    case Dispatched(_, OtherStatus) => Slots(Released(n), t.(dispatching := t.dispatching - 1))
    case Dispatched(_, Failed) =>
      Slots(n, t.(dispatching := t.dispatching - 1, leaked := t.leaked + 1))
    case Aborted(_) => Slots(n, t.(dispatching := t.dispatching - 1, leaked := t.leaked + 1))
    case ArcExit(_) => Slots(Released(n), t.(live := t.live - 1))
    case Remove(_) => Slots(0, t.(orphaned := t.orphaned + n))
  }

  /** A step has its effect on its own cron and none on any other. */
  lemma StepSlots(caps: Caps, s: System, e: Event, name: Name)
    requires Enabled(s, e) && CapOf(caps, name) > 0
    ensures SlotsOf(Step(caps, s, e), name)
         == if e.name == name then Effect(e, CapOf(caps, name), SlotsOf(s, name)) else SlotsOf(s, name)
  {
    match e
    case Tick(_) =>
    case Dispatched(_, outcome) =>
      match outcome {
        case ArcStarted =>
        case OtherStatus =>
        case Failed =>
      }
    case Aborted(_) =>
    case ArcExit(_) =>
    case Remove(_) =>
  }

  /** Without a cap every tick fires, and the counter stays at the largest 32-bit number once it is there. */
  lemma UncappedTick(caps: Caps, s: System, name: Name)
    requires CapOf(caps, name) == 0 && InFlight(s.state, name) <= 4294967295
    ensures var after := Step(caps, s, Tick(name));
            && after.Of(name).dispatching == s.Of(name).dispatching + 1
            && InFlight(after.state, name)
               == (if InFlight(s.state, name) == 4294967295 then 4294967295 else InFlight(s.state, name) + 1)
            && forall other :: other != name ==>
                 InFlight(after.state, other) == InFlight(s.state, other) && after.Of(other) == s.Of(other)
  {
  }

  /** A cron whose cap is not configured may have one arc. */
  lemma DefaultCap(s: System, name: Name)
    ensures Step(map[], s, Tick(name)).Of(name).dispatching
         == s.Of(name).dispatching + (if InFlight(s.state, name) == 0 then 1 else 0)
  {
  }

  // ---- conservation, without removal ----

  predicate Balanced(cap: nat, x: Slots) {
    x.counter == x.tally.Held() && x.counter <= cap && x.tally.orphaned == 0
  }

  lemma EffectBalanced(e: Event, cap: nat, x: Slots)
    requires e.Dispatched? || e.Aborted? ==> x.tally.dispatching > 0
    requires e.ArcExit? ==> x.tally.live > 0
    requires !e.Remove? && Balanced(cap, x)
    ensures Balanced(cap, Effect(e, cap, x))
    ensures Effect(e, cap, x).tally.leaked
         == x.tally.leaked + (if LosesSlot(e) then 1 else 0)
  {
  }

  /** The slots held are covered by the counter and by what removals orphaned. */
  predicate Covered(cap: nat, x: Slots) {
    x.tally.Held() <= x.counter + x.tally.orphaned && x.counter <= cap
  }

  lemma EffectCovers(e: Event, cap: nat, x: Slots)
    requires e.Dispatched? || e.Aborted? ==> x.tally.dispatching > 0
    requires e.ArcExit? ==> x.tally.live > 0
    requires Covered(cap, x)
    ensures Covered(cap, Effect(e, cap, x))
  {
  }

  lemma AfterStep(e: Event, cap: nat, name: Name, x: Slots, x': Slots)
    requires e.name == name && (e.Dispatched? || e.Aborted?) ==> x.tally.dispatching > 0
    requires e.name == name && e.ArcExit? ==> x.tally.live > 0
    requires x' == if e.name == name then Effect(e, cap, x) else x
    ensures !e.Remove? && Balanced(cap, x) ==>
              Balanced(cap, x') && x'.tally.leaked == x.tally.leaked
                                                   + (if e.name == name && LosesSlot(e) then 1 else 0)
    ensures Covered(cap, x) ==> Covered(cap, x')
  {
    if e.name == name {
      if Covered(cap, x) {
        EffectCovers(e, cap, x);
      }
      if !e.Remove? && Balanced(cap, x) {
        EffectBalanced(e, cap, x);
      }
    }
  }

  /** The invariants of a run: the first without removal, the second always. */
  lemma {:induction false} RunInvariant(caps: Caps, run: seq<Event>, name: Name)
    requires Execute(caps, INITIAL, run).Some? && CapOf(caps, name) > 0
    ensures var x := SlotsOf(Execute(caps, INITIAL, run).value, name);
            && (RemoveFree(run) ==> Balanced(CapOf(caps, name), x) && x.tally.leaked == Failures(run, name))
            && Covered(CapOf(caps, name), x)
  {
    if run != [] {
      var before, e := run[..|run| - 1], run[|run| - 1];
      var mid := Execute(caps, INITIAL, before).value;
      RunInvariant(caps, before, name);
      StepSlots(caps, mid, e, name);
      AfterStep(e, CapOf(caps, name), name, SlotsOf(mid, name), SlotsOf(Step(caps, mid, e), name));
    }
  }

  /**
   * In every run without removal: in-flight count = live arcs + dispatches in
   * progress + failed and aborted dispatches, which are never refunded; and it is at most the cap.
   */
  lemma Conservation(caps: Caps, run: seq<Event>, name: Name)
    requires RemoveFree(run) && Execute(caps, INITIAL, run).Some? && CapOf(caps, name) > 0
    ensures var s := Execute(caps, INITIAL, run).value;
            && InFlight(s.state, name)
               == s.Of(name).live + s.Of(name).dispatching + Failures(run, name)
            && InFlight(s.state, name) <= CapOf(caps, name)
  {
    RunInvariant(caps, run, name);
  }

  /** Hence never more live arcs than the cap allows. */
  lemma LiveArcsBounded(caps: Caps, run: seq<Event>, name: Name)
    requires RemoveFree(run) && Execute(caps, INITIAL, run).Some? && CapOf(caps, name) > 0
    ensures Execute(caps, INITIAL, run).value.Of(name).live + Failures(run, name) <= CapOf(caps, name)
  {
    Conservation(caps, run, name);
  }

  /**
   * With nothing running, a tick fires exactly when fewer dispatches have failed or
   * been aborted than the cap allows: each of them costs one slot for good.
   */
  lemma FiresAtRest(caps: Caps, run: seq<Event>, name: Name)
    requires RemoveFree(run) && Execute(caps, INITIAL, run).Some? && CapOf(caps, name) > 0
    requires Execute(caps, INITIAL, run).value.Of(name).dispatching == 0
    requires Execute(caps, INITIAL, run).value.Of(name).live == 0
    ensures Admits(Execute(caps, INITIAL, run).value.state, name, CapOf(caps, name))
            <==> Failures(run, name) < CapOf(caps, name)
  {
    Conservation(caps, run, name);
  }

  lemma {:induction false} FailuresGrow(run: seq<Event>, more: seq<Event>, name: Name)
    ensures Failures(run, name) <= Failures(run + more, name)
    decreases |more|
  {
    if more == [] {
      assert run + more == run;
    } else {
      FailuresGrow(run, more[..|more| - 1], name);
      assert (run + more)[..|run + more| - 1] == run + more[..|more| - 1];
    }
  }

  /** After as many failed or aborted dispatches as the cap, no tick fires again, however the run goes on. */
  lemma Starved(caps: Caps, run: seq<Event>, more: seq<Event>, name: Name)
    requires RemoveFree(run + more) && Execute(caps, INITIAL, run + more).Some?
    requires 0 < CapOf(caps, name) <= Failures(run, name)
    ensures !Admits(Execute(caps, INITIAL, run + more).value.state, name, CapOf(caps, name))
    ensures Execute(caps, INITIAL, run + more).value.Of(name).live == 0
  {
    FailuresGrow(run, more, name);
    Conservation(caps, run + more, name);
  }

  // ---- with removal ----

  /** In every run, the slots held exceed the counter by at most those held at removals, and it keeps the cap. */
  lemma CapWithRemovals(caps: Caps, run: seq<Event>, name: Name)
    requires Execute(caps, INITIAL, run).Some? && CapOf(caps, name) > 0
    ensures var s := Execute(caps, INITIAL, run).value;
            && s.Of(name).Held() <= InFlight(s.state, name) + s.Of(name).orphaned
            && InFlight(s.state, name) <= CapOf(caps, name)
  {
    RunInvariant(caps, run, name);
  }

  lemma ExecuteOne(caps: Caps, s: System, run: seq<Event>, e: Event)
    requires Execute(caps, s, run).Some? && Enabled(Execute(caps, s, run).value, e)
    ensures Execute(caps, s, run + [e]) == Some(Step(caps, Execute(caps, s, run).value, e))
  {
    assert (run + [e])[..|run|] == run;
  }

  /** Starting an arc, removing the cron and starting another: two arcs under a cap of one. */
  lemma RemoveExceedsCap(caps: Caps, name: Name)
    requires CapOf(caps, name) == 1
    ensures var run := [Tick(name), Dispatched(name, ArcStarted), Remove(name),
                        Tick(name), Dispatched(name, ArcStarted)];
            && Execute(caps, INITIAL, run).Some?
            && Execute(caps, INITIAL, run).value.Of(name).live == 2
  {
    var r0 := [Tick(name)];
    var r1 := r0 + [Dispatched(name, ArcStarted)];
    var r2 := r1 + [Remove(name)];
    var r3 := r2 + [Tick(name)];
    var r4 := r3 + [Dispatched(name, ArcStarted)];
    assert [] + r0 == r0;
    ExecuteOne(caps, INITIAL, [], Tick(name));
    ExecuteOne(caps, INITIAL, r0, Dispatched(name, ArcStarted));
    ExecuteOne(caps, INITIAL, r1, Remove(name));
    ExecuteOne(caps, INITIAL, r2, Tick(name));
    ExecuteOne(caps, INITIAL, r3, Dispatched(name, ArcStarted));
    assert r4 == [Tick(name), Dispatched(name, ArcStarted), Remove(name),
                  Tick(name), Dispatched(name, ArcStarted)];
  }

  // ---- when the cap holds from a state on ----

  /** What is running or about to, short of what the counter accounts for, never grows. */
  lemma EffectExcess(e: Event, cap: nat, x: Slots)
    requires e.Dispatched? || e.Aborted? ==> x.tally.dispatching > 0
    requires e.ArcExit? ==> x.tally.live > 0
    requires !e.Remove? && x.counter <= cap
    ensures var y := Effect(e, cap, x);
            && y.counter <= cap
            && y.tally.live + y.tally.dispatching - y.counter
               <= x.tally.live + x.tally.dispatching - x.counter
  {
  }

  lemma {:induction false} RunExcess(caps: Caps, s: System, more: seq<Event>, name: Name)
    requires Execute(caps, s, more).Some? && RemoveFree(more)
    requires 0 < CapOf(caps, name) && InFlight(s.state, name) <= CapOf(caps, name)
    ensures var x, y := SlotsOf(s, name), SlotsOf(Execute(caps, s, more).value, name);
            && y.counter <= CapOf(caps, name)
            && y.tally.live + y.tally.dispatching - y.counter
               <= x.tally.live + x.tally.dispatching - x.counter
  {
    if more != [] {
      var before, e := more[..|more| - 1], more[|more| - 1];
      var mid := Execute(caps, s, before).value;
      RunExcess(caps, s, before, name);
      StepSlots(caps, mid, e, name);
      if e.name == name {
        EffectExcess(e, CapOf(caps, name), SlotsOf(mid, name));
      }
    }
  }

  /** One more event of a run, and what it does to the cron's slots. */
  lemma Extend(caps: Caps, s: System, run: seq<Event>, e: Event, name: Name) returns (longer: seq<Event>)
    requires Execute(caps, s, run).Some? && Enabled(Execute(caps, s, run).value, e)
    requires RemoveFree(run) && !e.Remove? && e.name == name && CapOf(caps, name) > 0
    ensures longer == run + [e] && RemoveFree(longer) && Execute(caps, s, longer).Some?
    ensures SlotsOf(Execute(caps, s, longer).value, name)
         == Effect(e, CapOf(caps, name), SlotsOf(Execute(caps, s, run).value, name))
  {
    longer := run + [e];
    ExecuteOne(caps, s, run, e);
    StepSlots(caps, Execute(caps, s, run).value, e, name);
  }

  /** Every dispatch starts its arc, and ticks fire up to the cap. */
  lemma DriveUp(caps: Caps, s: System, name: Name) returns (more: seq<Event>)
    requires 0 < CapOf(caps, name) && InFlight(s.state, name) <= CapOf(caps, name)
    ensures RemoveFree(more) && Execute(caps, s, more).Some?
    ensures Execute(caps, s, more).value.Of(name).live
         == s.Of(name).live + s.Of(name).dispatching + CapOf(caps, name) - InFlight(s.state, name)
  {
    var cap := CapOf(caps, name);
    var x := SlotsOf(s, name);
    more := [];
    while x.tally.dispatching > 0
      invariant RemoveFree(more) && Execute(caps, s, more).Some?
      invariant x == SlotsOf(Execute(caps, s, more).value, name) && x.counter == InFlight(s.state, name)
      invariant x.tally.live + x.tally.dispatching == s.Of(name).live + s.Of(name).dispatching
      decreases x.tally.dispatching
    {
      more := Extend(caps, s, more, Dispatched(name, ArcStarted), name);
      x := Effect(Dispatched(name, ArcStarted), cap, x);
    }
    while x.counter < cap
      invariant RemoveFree(more) && Execute(caps, s, more).Some?
      invariant x == SlotsOf(Execute(caps, s, more).value, name) && x.counter <= cap && x.tally.dispatching == 0
      invariant x.tally.live - x.counter == s.Of(name).live + s.Of(name).dispatching - InFlight(s.state, name)
      decreases cap - x.counter
    {
      more := Extend(caps, s, more, Tick(name), name);
      x := Effect(Tick(name), cap, x);
      more := Extend(caps, s, more, Dispatched(name, ArcStarted), name);
      x := Effect(Dispatched(name, ArcStarted), cap, x);
    }
  }

  /** From a state on, without further removals, `bound` limits the live arcs. */
  ghost predicate LiveAtMost(caps: Caps, s: System, name: Name, bound: nat) {
    forall more :: RemoveFree(more) && Execute(caps, s, more).Some? ==>
                     Execute(caps, s, more).value.Of(name).live <= bound
  }

  /** The least such bound: the cap, and what the counter misses of the arcs running and the dispatches. */
  lemma LiveBoundExactly(caps: Caps, s: System, name: Name, bound: nat)
    requires 0 < CapOf(caps, name) && InFlight(s.state, name) <= CapOf(caps, name)
    ensures LiveAtMost(caps, s, name, bound)
            <==> s.Of(name).live + s.Of(name).dispatching + CapOf(caps, name) <= bound + InFlight(s.state, name)
  {
    if s.Of(name).live + s.Of(name).dispatching + CapOf(caps, name) <= bound + InFlight(s.state, name) {
      forall more | RemoveFree(more) && Execute(caps, s, more).Some?
        ensures Execute(caps, s, more).value.Of(name).live <= bound
      {
        RunExcess(caps, s, more, name);
      }
    } else {
      var more := DriveUp(caps, s, name);
      assert Execute(caps, s, more).value.Of(name).live > bound;
    }
  }

  /**
   * Whatever has happened, removals included: the live arcs keep to the cap from then
   * on exactly when the counter covers the arcs running and the dispatches in progress.
   */
  lemma CapKeptExactly(caps: Caps, run: seq<Event>, name: Name)
    requires Execute(caps, INITIAL, run).Some? && CapOf(caps, name) > 0
    ensures var s := Execute(caps, INITIAL, run).value;
            LiveAtMost(caps, s, name, CapOf(caps, name))
            <==> s.Of(name).live + s.Of(name).dispatching <= InFlight(s.state, name)
  {
    RunInvariant(caps, run, name);
    LiveBoundExactly(caps, Execute(caps, INITIAL, run).value, name, CapOf(caps, name));
  }

  lemma {:induction false} ExecuteConcat(caps: Caps, s: System, a: seq<Event>, b: seq<Event>)
    requires Execute(caps, s, a).Some?
    ensures Execute(caps, s, a + b) == Execute(caps, Execute(caps, s, a).value, b)
    decreases |b|
  {
    if b == [] {
      assert a + b == a;
    } else {
      ExecuteConcat(caps, s, a, b[..|b| - 1]);
      assert (a + b)[..|a + b| - 1] == a + b[..|b| - 1];
    }
  }

  /** With removals no bound holds: from every state some run has more live arcs than it. */
  lemma RemovalsUnbounded(caps: Caps, s: System, name: Name, bound: nat) returns (run: seq<Event>)
    requires CapOf(caps, name) > 0
    ensures Execute(caps, s, run).Some? && Execute(caps, s, run).value.Of(name).live > bound
  {
    run := [];
    while Execute(caps, s, run).value.Of(name).live <= bound
      invariant Execute(caps, s, run).Some?
      decreases bound - Execute(caps, s, run).value.Of(name).live
    {
      var removed := run + [Remove(name)];
      ExecuteOne(caps, s, run, Remove(name));
      StepSlots(caps, Execute(caps, s, run).value, Remove(name), name);
      var more := DriveUp(caps, Execute(caps, s, removed).value, name);
      ExecuteConcat(caps, s, removed, more);
      run := removed + more;
    }
  }
}
