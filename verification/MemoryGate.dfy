/** The Argon2 resource gates shared by every password operation
    (internal/auth/password.go: PasswordHasher.derive, memoryGate): a channel of
    slots, then a memory budget behind a mutex and a condition variable.

    Any number of calls run at once; each step below is one atomic action. */
module MemoryGate {
  import opened Wrappers

  const UINT32 := 0x1_0000_0000

  function Wrap(n: int): nat { n % UINT32 }

  lemma WrapExact(n: int)
    requires 0 <= n < UINT32
    ensures Wrap(n) == n
  {
  }

  /** One call of `derive`. */
  datatype Phase =
    | Start        // before the slot channel
    | Slotted      // wants the mutex in `acquire`
    | Checking     // holds the mutex in `acquire`
    | Parked       // in `cond.Wait`
    | Awake        // woken, wants the mutex back
    | Computing    // in Argon2
    | Finished     // wants the mutex in `release`
    | Returning    // holds the mutex in `release`
    | Broadcasting // has unlocked, is about to broadcast
    | Leaving      // about to give the slot back
    | Done

  /** What the calls ask for, and the policy: amounts were validated against the
      budget before any gate. */
  datatype Config = Config(amounts: seq<nat>, capacity: nat, slots: nat) {
    predicate Valid() {
      && capacity < UINT32 && slots >= 1
      && forall i :: 0 <= i < |amounts| ==> amounts[i] <= capacity
    }
  }

  datatype State = State(phases: seq<Phase>, mutex: Option<nat>, used: nat, taken: int)

  datatype Step =
    | TakeSlot(call: nat) | Lock(call: nat) | Check(call: nat) | Compute(call: nat)
    | Subtract(call: nat) | Broadcast(call: nat) | GiveSlot(call: nat)

  function Initial(c: Config): State {
    State(seq(|c.amounts|, _ => Start), None, 0, 0)
  }

  predicate Enabled(c: Config, s: State, e: Step) {
    && e.call < |s.phases| == |c.amounts|
    && var p := s.phases[e.call];
       match e
       case TakeSlot(_) => p.Start? && s.taken < c.slots
       case Lock(_) => (p.Slotted? || p.Awake? || p.Finished?) && s.mutex.None?
       case Check(_) => p.Checking?
       case Compute(_) => p.Computing?
       case Subtract(_) => p.Returning?
       case Broadcast(_) => p.Broadcasting?
       case GiveSlot(_) => p.Leaving?
  }

  function Woken(phases: seq<Phase>): (r: seq<Phase>)
    ensures |r| == |phases|
    ensures forall i :: 0 <= i < |r| ==> r[i] == if phases[i].Parked? then Awake else phases[i]
  {
    seq(|phases|, i requires 0 <= i < |phases| => if phases[i].Parked? then Awake else phases[i])
  }

  function Next(c: Config, s: State, e: Step): State
    requires Enabled(c, s, e)
  {
    var i := e.call;
    match e
    case TakeSlot(_) => s.(phases := s.phases[i := Slotted], taken := s.taken + 1)
    case Lock(_) => s.(phases := s.phases[i := if s.phases[i].Finished? then Returning else Checking], mutex := Some(i))
    case Check(_) =>
      if Wrap(c.capacity - s.used) < c.amounts[i]
      then s.(phases := s.phases[i := Parked], mutex := None)
      else s.(phases := s.phases[i := Computing], mutex := None, used := Wrap(s.used + c.amounts[i]))
    case Compute(_) => s.(phases := s.phases[i := Finished])
    case Subtract(_) => s.(phases := s.phases[i := Broadcasting], mutex := None, used := Wrap(s.used - c.amounts[i]))
    case Broadcast(_) => s.(phases := Woken(s.phases)[i := Leaving])
    case GiveSlot(_) => s.(phases := s.phases[i := Done], taken := s.taken - 1)
  }

  // ----- sums over the calls -----

  function Sum(w: seq<nat>): nat {
    if w == [] then 0 else w[0] + Sum(w[1..])
  }

  lemma {:induction false} SumUpdate(w: seq<nat>, i: nat, v: nat)
    requires i < |w|
    ensures Sum(w[i := v]) == Sum(w) - w[i] + v && w[i] <= Sum(w)
  {
    if i == 0 {
      assert w[i := v][1..] == w[1..];
    } else {
      assert w[i := v][1..] == w[1..][i - 1 := v];
      SumUpdate(w[1..], i - 1, v);
    }
  }

  lemma {:induction false} SumZero(w: seq<nat>)
    ensures (forall i :: 0 <= i < |w| ==> w[i] == 0) ==> Sum(w) == 0
    ensures Sum(w) == 0 ==> forall i :: 0 <= i < |w| ==> w[i] == 0
  {
    if w != [] {
      SumZero(w[1..]);
      assert forall i :: 1 <= i < |w| ==> w[i] == w[1..][i - 1];
    }
  }

  predicate HoldsMemory(p: Phase) { p.Computing? || p.Finished? || p.Returning? }
  predicate HoldsSlot(p: Phase) { !p.Start? && !p.Done? }
  predicate HoldsMutex(p: Phase) { p.Checking? || p.Returning? }

  function MemoryOf(p: Phase, amount: nat): nat { if HoldsMemory(p) then amount else 0 }
  function SlotOf(p: Phase): nat { if HoldsSlot(p) then 1 else 0 }

  function Memory(c: Config, phases: seq<Phase>): (w: seq<nat>)
    requires |phases| == |c.amounts|
    ensures |w| == |phases| && forall i :: 0 <= i < |w| ==> w[i] == MemoryOf(phases[i], c.amounts[i])
  {
    seq(|phases|, i requires 0 <= i < |phases| => MemoryOf(phases[i], c.amounts[i]))
  }

  function Slots(phases: seq<Phase>): (w: seq<nat>)
    ensures |w| == |phases| && forall i :: 0 <= i < |w| ==> w[i] == SlotOf(phases[i])
  {
    seq(|phases|, i requires 0 <= i < |phases| => SlotOf(phases[i]))
  }

  lemma OnePhase(c: Config, phases: seq<Phase>, i: nat, p: Phase)
    requires |phases| == |c.amounts| && i < |phases|
    ensures Sum(Memory(c, phases[i := p])) == Sum(Memory(c, phases)) - MemoryOf(phases[i], c.amounts[i]) + MemoryOf(p, c.amounts[i])
    ensures MemoryOf(phases[i], c.amounts[i]) <= Sum(Memory(c, phases))
    ensures Sum(Slots(phases[i := p])) == Sum(Slots(phases)) - SlotOf(phases[i]) + SlotOf(p)
  {
    assert Memory(c, phases[i := p]) == Memory(c, phases)[i := MemoryOf(p, c.amounts[i])];
    SumUpdate(Memory(c, phases), i, MemoryOf(p, c.amounts[i]));
    assert Slots(phases[i := p]) == Slots(phases)[i := SlotOf(p)];
    SumUpdate(Slots(phases), i, SlotOf(p));
  }

  lemma WakingKeepsSums(c: Config, phases: seq<Phase>)
    requires |phases| == |c.amounts|
    ensures Memory(c, Woken(phases)) == Memory(c, phases) && Slots(Woken(phases)) == Slots(phases)
  {
  }

  // ----- what every interleaving keeps -----

  /** Memory in use is the sum held and within the budget; at most `slots` calls
      are past the channel. */
  ghost predicate Accounted(c: Config, s: State) {
    && |s.phases| == |c.amounts|
    && s.used == Sum(Memory(c, s.phases)) <= c.capacity
    && s.taken == Sum(Slots(s.phases)) <= c.slots
  }

  ghost predicate Excluded(s: State) {
    forall i :: 0 <= i < |s.phases| ==> (HoldsMutex(s.phases[i]) <==> s.mutex == Some(i))
  }

  /** A parked call whose request fits has a broadcast coming. */
  ghost predicate NoLostWakeup(c: Config, s: State)
    requires |s.phases| == |c.amounts|
  {
    (exists i :: 0 <= i < |s.phases| && s.phases[i].Parked? && c.amounts[i] <= c.capacity - s.used)
    ==> exists j :: 0 <= j < |s.phases| && s.phases[j].Broadcasting?
  }

  ghost predicate Good(c: Config, s: State) {
    c.Valid() && Accounted(c, s) && Excluded(s) && NoLostWakeup(c, s)
    && (s.mutex.Some? ==> s.mutex.value < |s.phases|)
  }

  /** How a step moves the two sums. */
  lemma StepSums(c: Config, s: State, e: Step)
    requires Good(c, s) && Enabled(c, s, e)
    ensures var n, i := Next(c, s, e), e.call;
            && |n.phases| == |s.phases|
            && Sum(Memory(c, n.phases))
               == Sum(Memory(c, s.phases)) - MemoryOf(s.phases[i], c.amounts[i]) + MemoryOf(n.phases[i], c.amounts[i])
            && Sum(Slots(n.phases)) == Sum(Slots(s.phases)) - SlotOf(s.phases[i]) + SlotOf(n.phases[i])
            && MemoryOf(s.phases[i], c.amounts[i]) <= Sum(Memory(c, s.phases))
  {
    var n := Next(c, s, e);
    if e.Broadcast? {
      WakingKeepsSums(c, s.phases);
      OnePhase(c, Woken(s.phases), e.call, n.phases[e.call]);
    } else {
      OnePhase(c, s.phases, e.call, n.phases[e.call]);
    }
  }

  lemma StepAccounted(c: Config, s: State, e: Step)
    requires Good(c, s) && Enabled(c, s, e)
    ensures Accounted(c, Next(c, s, e))
    ensures e.Check? ==> Wrap(c.capacity - s.used) == c.capacity - s.used
    ensures Next(c, s, e).used == s.used + (if e.Check? && Next(c, s, e).phases[e.call].Computing? then c.amounts[e.call] else 0)
                                  - (if e.Subtract? then c.amounts[e.call] else 0)
  {
    StepSums(c, s, e);
    WrapExact(c.capacity - s.used);
    hide Memory, Slots, Sum, Wrap, Excluded, NoLostWakeup;
    if e.Check? && c.amounts[e.call] <= c.capacity - s.used {
      WrapExact(s.used + c.amounts[e.call]);
    } else if e.Subtract? {
      WrapExact(s.used - c.amounts[e.call]);
    }
  }

  lemma StepExcluded(c: Config, s: State, e: Step)
    requires Good(c, s) && Enabled(c, s, e)
    ensures Excluded(Next(c, s, e))
    ensures Next(c, s, e).mutex.Some? ==> Next(c, s, e).mutex.value < |Next(c, s, e).phases|
  {
    hide Accounted, NoLostWakeup, Wrap;
  }

  lemma StepNoLostWakeup(c: Config, s: State, e: Step)
    requires Good(c, s) && Enabled(c, s, e)
    ensures |Next(c, s, e).phases| == |c.amounts| && NoLostWakeup(c, Next(c, s, e))
  {
    StepAccounted(c, s, e);
    hide Accounted, Wrap, Excluded;
    var n := Next(c, s, e);
    assert |n.phases| == |s.phases|;
    if j :| 0 <= j < |s.phases| && s.phases[j].Broadcasting? && j != e.call {
      assert n.phases[j] == s.phases[j];
    } else if e.Subtract? {
      assert n.phases[e.call].Broadcasting?;
    } else if !e.Broadcast? {
      forall i | 0 <= i < |n.phases| && n.phases[i].Parked? ensures c.amounts[i] > c.capacity - n.used {
        if i != e.call {
          assert s.phases[i].Parked?;
        }
      }
    }
  }

  lemma StepKeeps(c: Config, s: State, e: Step)
    requires Good(c, s) && Enabled(c, s, e)
    ensures Good(c, Next(c, s, e))
  {
    StepAccounted(c, s, e);
    StepExcluded(c, s, e);
    StepNoLostWakeup(c, s, e);
    hide Next, Accounted, Excluded, NoLostWakeup;
  }

  lemma InitialGood(c: Config)
    requires c.Valid()
    ensures Good(c, Initial(c))
  {
    SumZero(Memory(c, Initial(c).phases));
    SumZero(Slots(Initial(c).phases));
  }

  // ----- progress -----

  ghost predicate AllDone(s: State) { forall i :: 0 <= i < |s.phases| ==> s.phases[i].Done? }

  /** While any call is unfinished, some step can be taken. */
  lemma SomeStepEnabled(c: Config, s: State) returns (e: Step)
    requires Good(c, s) && !AllDone(s)
    ensures Enabled(c, s, e)
  {
    hide Memory, Slots;
    if s.mutex.Some? {
      var i := s.mutex.value;
      e := if s.phases[i].Checking? then Check(i) else Subtract(i);
    } else if i :| 0 <= i < |s.phases| && (s.phases[i].Slotted? || s.phases[i].Awake? || s.phases[i].Finished?) {
      e := Lock(i);
    } else if i :| 0 <= i < |s.phases| && s.phases[i].Computing? {
      e := Compute(i);
    } else if i :| 0 <= i < |s.phases| && s.phases[i].Broadcasting? {
      e := Broadcast(i);
    } else if i :| 0 <= i < |s.phases| && s.phases[i].Leaving? {
      e := GiveSlot(i);
    } else {
      NobodyParked(c, s);
      var i :| 0 <= i < |s.phases| && !s.phases[i].Done?;
      assert s.phases[i].Start?;
      SumZero(Slots(s.phases));
      e := TakeSlot(i);
    }
  }

  /** Calls cannot all be parked: with nobody holding memory everything fits. */
  lemma NobodyParked(c: Config, s: State)
    requires Good(c, s)
    requires forall i :: 0 <= i < |s.phases| ==> s.phases[i].Start? || s.phases[i].Parked? || s.phases[i].Done?
    ensures forall i :: 0 <= i < |s.phases| ==> !s.phases[i].Parked?
  {
    SumZero(Memory(c, s.phases));
  }

  // ----- termination -----

  /** Steps a call can still take by itself. */
  function Rank(p: Phase): nat {
    match p
    case Start => 11 case Slotted => 10 case Awake => 10 case Checking => 9 case Parked => 8
    case Computing => 7 case Finished => 6 case Returning => 5 case Broadcasting => 4 case Leaving => 3 case Done => 0
  }

  function YetToBroadcast(p: Phase): nat { if p.Leaving? || p.Done? then 0 else 1 }

  function Ranks(phases: seq<Phase>): (w: seq<nat>)
    ensures |w| == |phases| && forall i :: 0 <= i < |w| ==> w[i] == Rank(phases[i])
  {
    seq(|phases|, i requires 0 <= i < |phases| => Rank(phases[i]))
  }

  function Owed(phases: seq<Phase>): (w: seq<nat>)
    ensures |w| == |phases| && forall i :: 0 <= i < |w| ==> w[i] == YetToBroadcast(phases[i])
  {
    seq(|phases|, i requires 0 <= i < |phases| => YetToBroadcast(phases[i]))
  }

  /** Every step uses up a broadcast, or leaves them and uses up a rank. */
  lemma StepDescends(c: Config, s: State, e: Step)
    requires Enabled(c, s, e)
    ensures var n := Next(c, s, e);
            || Sum(Owed(n.phases)) < Sum(Owed(s.phases))
            || (Sum(Owed(n.phases)) == Sum(Owed(s.phases)) && Sum(Ranks(n.phases)) < Sum(Ranks(s.phases)))
  {
    var n, i := Next(c, s, e), e.call;
    if e.Broadcast? {
      assert Owed(n.phases) == Owed(s.phases)[i := 0];
      SumUpdate(Owed(s.phases), i, 0);
    } else {
      assert Owed(n.phases) == Owed(s.phases)[i := YetToBroadcast(n.phases[i])];
      SumUpdate(Owed(s.phases), i, YetToBroadcast(n.phases[i]));
      assert Ranks(n.phases) == Ranks(s.phases)[i := Rank(n.phases[i])];
      SumUpdate(Ranks(s.phases), i, Rank(n.phases[i]));
    }
  }

  lemma {:induction false} SumBounded(w: seq<nat>, most: nat)
    requires forall i :: 0 <= i < |w| ==> w[i] <= most
    ensures Sum(w) <= most * |w|
  {
    if w != [] {
      SumBounded(w[1..], most);
      assert most * |w| == most * |w[1..]| + most;
    }
  }

  /** How many steps are left at most. */
  function Fuel(s: State): nat { Sum(Owed(s.phases)) * (11 * |s.phases| + 1) + Sum(Ranks(s.phases)) }

  lemma StepUsesFuel(c: Config, s: State, e: Step)
    requires Enabled(c, s, e)
    ensures Fuel(Next(c, s, e)) < Fuel(s)
  {
    var n := Next(c, s, e);
    StepDescends(c, s, e);
    SumBounded(Ranks(n.phases), 11);
    assert |n.phases| == |s.phases|;
    hide Next, Sum, Ranks, Owed, Enabled;
    Lexicographic(Sum(Owed(s.phases)), Sum(Ranks(s.phases)), Sum(Owed(n.phases)), Sum(Ranks(n.phases)), 11 * |s.phases| + 1);
  }

  lemma Lexicographic(a: nat, b: nat, c: nat, d: nat, width: nat)
    requires c < a || (c == a && d < b)
    requires d < width
    ensures c * width + d < a * width + b
  {
    if c < a {
      assert (c + 1) * width <= a * width;
    }
  }

  ghost predicate Possible(c: Config, s: State, run: seq<Step>)
    decreases |run|
  {
    run != [] ==> Enabled(c, s, run[0]) && Possible(c, Next(c, s, run[0]), run[1..])
  }

  function After(c: Config, s: State, run: seq<Step>): State
    requires Possible(c, s, run)
    decreases |run|
  {
    if run == [] then s else After(c, Next(c, s, run[0]), run[1..])
  }

  lemma {:induction false} RunKeeps(c: Config, s: State, run: seq<Step>)
    requires Good(c, s) && Possible(c, s, run)
    ensures Good(c, After(c, s, run))
    ensures |run| + Fuel(After(c, s, run)) <= Fuel(s)
    decreases |run|
  {
    if run != [] {
      StepKeeps(c, s, run[0]);
      StepUsesFuel(c, s, run[0]);
      RunKeeps(c, Next(c, s, run[0]), run[1..]);
    }
  }

  /** Every schedule: within the budget and the slots at each moment, never
      stuck, and finished after boundedly many steps with everything given back. */
  lemma {:induction false} EveryScheduleFinishes(c: Config, run: seq<Step>)
    requires c.Valid() && Possible(c, Initial(c), run)
    ensures var s := After(c, Initial(c), run);
            && Accounted(c, s)
            && |run| <= Fuel(Initial(c))
            && (AllDone(s) || exists e :: Enabled(c, s, e))
            && (AllDone(s) ==> s.used == 0 && s.taken == 0)
  {
    InitialGood(c);
    RunKeeps(c, Initial(c), run);
    var s := After(c, Initial(c), run);
    if AllDone(s) {
      SumZero(Memory(c, s.phases));
      SumZero(Slots(s.phases));
    } else {
      var e := SomeStepEnabled(c, s);
    }
  }
}
