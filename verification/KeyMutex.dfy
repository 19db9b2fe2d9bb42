/**
  The lock per key (ociclient/utils/keymutex/keymutex.go), as goroutines that interleave between any two accesses to a
  mutex or to the map of mutexes.
 */
module KeyMutex {
  import opened Common

  datatype Op = Lock | Unlock | Remove

  /** Where a goroutine is: about to take `km.mut`, behind it, waiting for the mutex of a key, or about to leave. */
  datatype Pc =
    | Idle
    | Calling(op: Op, key: string)
    | Inside(op: Op, key: string)
    | Locking(key: string, id: nat)
    | Leaving

  /** A goroutine holds a key from the moment its `Lock` gets the mutex until its `Unlock` gives it back. */
  datatype Goroutine = Goroutine(pc: Pc, held: set<string>)

  /** Mutexes are named by numbers; `fatal` is Go's error for unlocking an unlocked mutex. */
  datatype State = State(
    mut: Option<nat>, mutexes: map<string, nat>, locked: set<nat>, next: nat, goroutines: seq<Goroutine>, fatal: bool)

  /** What the callers promise: only holders call Unlock, and Remove runs only while nobody holds the key. */
  datatype Rules = Rules(holdersUnlock: bool, removeUnheld: bool)

  const DISCIPLINED := Rules(true, true)

  function Init(n: nat): State {
    State(None, map[], {}, 0, seq(n, _ => Goroutine(Idle, {})), false)
  }

  function At(s: State, t: nat, pc: Pc): State
    requires t < |s.goroutines|
  {
    s.(goroutines := s.goroutines[t := s.goroutines[t].(pc := pc)])
  }

  function Holding(s: State, t: nat, held: set<string>): State
    requires t < |s.goroutines|
  {
    s.(goroutines := s.goroutines[t := s.goroutines[t].(held := held)])
  }

  predicate Holds(s: State, t: nat, key: string) {
    t < |s.goroutines| && key in s.goroutines[t].held
  }

  predicate HeldBySome(s: State, key: string) {
    exists t :: 0 <= t < |s.goroutines| && Holds(s, t, key)
  }

  /** The next step of goroutine `t`, if it can take one; an idle one calls what `call` says. */
  function Step(r: Rules, s: State, t: nat, call: (Op, string)): Option<State>
    requires t < |s.goroutines|
  {
    var me := s.goroutines[t];
    if s.fatal then None
    else match me.pc
      case Idle =>
        if r.holdersUnlock && call.0 == Unlock && call.1 !in me.held then None
        else Some(At(s, t, Calling(call.0, call.1)))
      case Calling(op, key) =>
        if s.mut.Some? then None else Some(At(s, t, Inside(op, key)).(mut := Some(t)))
      case Inside(Lock, key) =>
        if key in s.mutexes then Some(At(s, t, Locking(key, s.mutexes[key])))
        else Some(At(s, t, Locking(key, s.next)).(mutexes := s.mutexes[key := s.next], next := s.next + 1))
      case Locking(key, id) =>
        if id in s.locked then None
        else Some(Holding(At(s, t, Leaving), t, me.held + {key}).(locked := s.locked + {id}))
      case Inside(Unlock, key) =>
        var s' := Holding(At(s, t, Leaving), t, me.held - {key});
        if key !in s.mutexes then Some(s')
        else if s.mutexes[key] !in s.locked then Some(s.(fatal := true))
        else Some(s'.(locked := s.locked - {s.mutexes[key]}))
      case Inside(Remove, key) =>
        if r.removeUnheld && HeldBySome(s, key) then None
        else Some(At(s, t, Leaving).(mutexes := s.mutexes - {key}))
      case Leaving => Some(At(s, t, Idle).(mut := None))
  }

  /** A schedule: who moves, and what it calls if it is idle. */
  type Schedule = seq<(nat, (Op, string))>

  /** The state after a schedule; `None` if one of its steps cannot be taken. */
  function Run(r: Rules, s: State, schedule: Schedule): Option<State> {
    if schedule == [] then Some(s)
    else
      var before := Run(r, s, schedule[..|schedule| - 1]);
      var (t, call) := schedule[|schedule| - 1];
      if before == None || t >= |before.value.goroutines| then None else Step(r, before.value, t, call)
  }

  // ---------- safety ----------

  predicate Critical(pc: Pc) {
    pc.Inside? || pc.Locking? || pc.Leaving?
  }

  /** `km.mut` is held by exactly the goroutine behind it. */
  ghost predicate MutOwned(s: State) {
    forall t :: 0 <= t < |s.goroutines| ==> (Critical(s.goroutines[t].pc) <==> s.mut == Some(t))
  }

  /** Keys have mutexes of their own, which are not reused. */
  ghost predicate OwnMutexes(s: State) {
    && (forall key :: key in s.mutexes ==> s.mutexes[key] < s.next)
    && (forall k1, k2 :: k1 in s.mutexes && k2 in s.mutexes && k1 != k2 ==> s.mutexes[k1] != s.mutexes[k2])
    && (forall id :: id in s.locked ==> id < s.next)
    && (forall t :: 0 <= t < |s.goroutines| && s.goroutines[t].pc.Locking? ==>
          var pc := s.goroutines[t].pc; pc.key in s.mutexes && s.mutexes[pc.key] == pc.id)
  }

  /** The mutex of a held key is locked, and nobody else holds the key. */
  ghost predicate Exclusive(s: State) {
    && (forall t, key :: Holds(s, t, key) ==> key in s.mutexes && s.mutexes[key] in s.locked)
    && (forall t, u, key :: Holds(s, t, key) && Holds(s, u, key) ==> t == u)
  }

  /** Who is about to unlock is a holder. */
  ghost predicate UnlockersHold(s: State) {
    forall t :: 0 <= t < |s.goroutines| ==>
      var pc := s.goroutines[t].pc;
      (pc.Calling? || pc.Inside?) && pc.op == Unlock ==> pc.key in s.goroutines[t].held
  }

  ghost predicate Safe(s: State) {
    !s.fatal && MutOwned(s) && OwnMutexes(s) && Exclusive(s) && UnlockersHold(s)
  }

  lemma StepMutOwned(r: Rules, s: State, t: nat, call: (Op, string))
    requires t < |s.goroutines| && MutOwned(s) && Step(r, s, t, call).Some?
    ensures MutOwned(Step(r, s, t, call).value)
  {
    var s' := Step(r, s, t, call).value;
    assert s.mut == Some(t) <==> Critical(s.goroutines[t].pc);
    forall u | 0 <= u < |s'.goroutines|
      ensures Critical(s'.goroutines[u].pc) <==> s'.mut == Some(u)
    {
      assert u != t ==> s'.goroutines[u].pc == s.goroutines[u].pc;
    }
  }

  lemma StepOwnMutexes(s: State, t: nat, call: (Op, string))
    requires t < |s.goroutines| && Safe(s) && Step(DISCIPLINED, s, t, call).Some?
    ensures OwnMutexes(Step(DISCIPLINED, s, t, call).value)
  {
    hide UnlockersHold;
  }

  /** A goroutine comes to hold a key only by getting its mutex. */
  lemma NewHolder(s: State, t: nat, call: (Op, string), u: nat, key: string)
    requires t < |s.goroutines| && Safe(s) && Step(DISCIPLINED, s, t, call).Some?
    requires Holds(Step(DISCIPLINED, s, t, call).value, u, key)
    ensures Holds(s, u, key) || (u == t && s.goroutines[t].pc.Locking? && s.goroutines[t].pc.key == key)
    ensures u == t ==> s.goroutines[t].pc != Inside(Unlock, key)
  {
  }

  lemma StepExclusive(s: State, t: nat, call: (Op, string))
    requires t < |s.goroutines| && Safe(s) && Step(DISCIPLINED, s, t, call).Some?
    ensures Exclusive(Step(DISCIPLINED, s, t, call).value)
  {
    var s', pc := Step(DISCIPLINED, s, t, call).value, s.goroutines[t].pc;
    if pc.Inside? && pc.op == Unlock {
      assert Holds(s, t, pc.key);
    }
    forall u, key | Holds(s', u, key)
      ensures key in s'.mutexes && s'.mutexes[key] in s'.locked
    {
      NewHolder(s, t, call, u, key);
      assert Holds(s, u, key) ==> HeldBySome(s, key);
    }
    forall u, v, key | Holds(s', u, key) && Holds(s', v, key)
      ensures u == v
    {
      NewHolder(s, t, call, u, key);
      NewHolder(s, t, call, v, key);
    }
  }

  lemma StepSafe(s: State, t: nat, call: (Op, string))
    requires t < |s.goroutines| && Safe(s) && Step(DISCIPLINED, s, t, call).Some?
    ensures Safe(Step(DISCIPLINED, s, t, call).value)
  {
    StepMutOwned(DISCIPLINED, s, t, call);
    StepOwnMutexes(s, t, call);
    StepExclusive(s, t, call);
    var pc := s.goroutines[t].pc;
    if pc.Inside? && pc.op == Unlock {
      assert Holds(s, t, pc.key);
    }
  }

  lemma {:induction false} RunSafe(s: State, schedule: Schedule)
    requires Safe(s) && Run(DISCIPLINED, s, schedule).Some?
    ensures Safe(Run(DISCIPLINED, s, schedule).value)
  {
    if schedule != [] {
      var m := |schedule| - 1;
      RunSafe(s, schedule[..m]);
      StepSafe(Run(DISCIPLINED, s, schedule[..m]).value, schedule[m].0, schedule[m].1);
    }
  }

  /**
    If only holders call Unlock, and Remove runs only while nobody holds the key, then in every run at most one
    goroutine holds a key, and no unlocked mutex is ever unlocked.
   */
  lemma MutualExclusion(n: nat, schedule: Schedule, t: nat, u: nat, key: string)
    requires Run(DISCIPLINED, Init(n), schedule).Some?
    ensures var s := Run(DISCIPLINED, Init(n), schedule).value;
      !s.fatal && (Holds(s, t, key) && Holds(s, u, key) ==> t == u)
  {
    RunSafe(Init(n), schedule);
  }

  // ---------- no progress ----------

  /** Goroutine `t` is in `Lock`, behind `km.mut`, and the mutex it is going to wait for is locked. */
  ghost predicate Wedged(s: State, t: nat) {
    && t < |s.goroutines| && s.mut == Some(t) && MutOwned(s)
    && var pc := s.goroutines[t].pc;
       || (pc.Inside? && pc.op == Lock && pc.key in s.mutexes && s.mutexes[pc.key] in s.locked)
       || (pc.Locking? && pc.id in s.locked)
  }

  /** Nothing that lock holders can observe differs. */
  ghost predicate Frozen(s: State, s': State) {
    && s'.mutexes == s.mutexes && s'.locked == s.locked && |s'.goroutines| == |s.goroutines|
    && forall u :: 0 <= u < |s.goroutines| ==> s'.goroutines[u].held == s.goroutines[u].held
  }

  lemma StepStaysWedged(r: Rules, s: State, t: nat, u: nat, call: (Op, string))
    requires Wedged(s, t) && u < |s.goroutines| && Step(r, s, u, call).Some?
    ensures Wedged(Step(r, s, u, call).value, t) && Frozen(s, Step(r, s, u, call).value)
  {
    StepMutOwned(r, s, u, call);
    if u != t {
      assert !Critical(s.goroutines[u].pc);
    }
  }

  /** The goroutine keeps `km.mut` for ever, so no Lock, Unlock or Remove ever completes again, whatever the rules. */
  lemma {:induction false} WedgedForever(r: Rules, s: State, t: nat, schedule: Schedule)
    requires Wedged(s, t) && Run(r, s, schedule).Some?
    ensures Wedged(Run(r, s, schedule).value, t) && Frozen(s, Run(r, s, schedule).value)
  {
    if schedule != [] {
      var m := |schedule| - 1;
      WedgedForever(r, s, t, schedule[..m]);
      StepStaysWedged(r, Run(r, s, schedule[..m]).value, t, schedule[m].0, schedule[m].1);
    }
  }

  /** A goroutine that gets behind `km.mut` to lock a held key ends all progress: the first contention is a deadlock. */
  lemma ContentionWedges(n: nat, schedule: Schedule, t: nat, u: nat, key: string, more: Schedule)
    requires Run(DISCIPLINED, Init(n), schedule).Some?
    requires var s := Run(DISCIPLINED, Init(n), schedule).value;
      && t < |s.goroutines| && s.goroutines[t].pc == Inside(Lock, key) && Holds(s, u, key)
      && Run(DISCIPLINED, s, more).Some?
    ensures var s := Run(DISCIPLINED, Init(n), schedule).value;
      Holds(Run(DISCIPLINED, s, more).value, u, key) && Wedged(Run(DISCIPLINED, s, more).value, t)
  {
    RunSafe(Init(n), schedule);
    var s := Run(DISCIPLINED, Init(n), schedule).value;
    assert Critical(s.goroutines[t].pc);
    WedgedForever(DISCIPLINED, s, t, more);
  }

  // ---------- why the callers have to keep the rules ----------

  /** The steps of one uncontended call of goroutine `t`. */
  function Calls(t: nat, op: Op, key: string): Schedule {
    var step := (t, (op, key));
    if op == Lock then [step, step, step, step, step] else [step, step, step, step]
  }

  lemma {:induction false} RunConcat(r: Rules, s: State, a: Schedule, b: Schedule)
    ensures Run(r, s, a + b) == if Run(r, s, a) == None then None else Run(r, Run(r, s, a).value, b)
  {
    if b == [] {
      assert a + b == a;
    } else {
      assert (a + b)[..|a + b| - 1] == a + b[..|b| - 1];
      RunConcat(r, s, a, b[..|b| - 1]);
    }
  }

  lemma RunOne(r: Rules, s: State, step: (nat, (Op, string)))
    requires step.0 < |s.goroutines|
    ensures Run(r, s, [step]) == Step(r, s, step.0, step.1)
  {
    assert [step][..0] == [];
    assert Run(r, s, [step][..0]) == Some(s);
  }

  /** One step more at the front of a schedule. */
  lemma RunFirst(r: Rules, s: State, schedule: Schedule)
    requires schedule != [] && schedule[0].0 < |s.goroutines|
    ensures Run(r, s, schedule) ==
      var next := Step(r, s, schedule[0].0, schedule[0].1);
      if next == None then None else Run(r, next.value, schedule[1..])
  {
    RunOne(r, s, schedule[0]);
    RunConcat(r, s, [schedule[0]], schedule[1..]);
    assert [schedule[0]] + schedule[1..] == schedule;
  }

  lemma Rewritten(gs: seq<Goroutine>, t: nat, a: Goroutine, b: Goroutine)
    requires t < |gs|
    ensures gs[t := a][t := b] == gs[t := b]
  {
  }

  /** What an uncontended call does. */
  function Effect(s: State, t: nat, op: Op, key: string): State
    requires t < |s.goroutines|
  {
    var held := s.goroutines[t].held;
    match op
    case Lock =>
      var id := if key in s.mutexes then s.mutexes[key] else s.next;
      s.(goroutines := s.goroutines[t := Goroutine(Idle, held + {key})],
         mutexes := s.mutexes[key := id], locked := s.locked + {id},
         next := if key in s.mutexes then s.next else s.next + 1)
    case Unlock =>
      s.(goroutines := s.goroutines[t := Goroutine(Idle, held - {key})],
         locked := if key in s.mutexes then s.locked - {s.mutexes[key]} else s.locked)
    case Remove => s.(goroutines := s.goroutines[t := Goroutine(Idle, held)], mutexes := s.mutexes - {key})
  }

  /** Nothing stands in the way of the call. */
  predicate Free(r: Rules, s: State, t: nat, op: Op, key: string) {
    && t < |s.goroutines| && s.goroutines[t].pc == Idle && s.mut == None && !s.fatal
    && match op
       case Lock => (if key in s.mutexes then s.mutexes[key] else s.next) !in s.locked
       case Unlock => (key in s.mutexes ==> s.mutexes[key] in s.locked) && (r.holdersUnlock ==> Holds(s, t, key))
       case Remove => !r.removeUnheld || !HeldBySome(s, key)
  }

  /** The state in which goroutine `t` is behind `km.mut`. */
  function Entered(s: State, t: nat, op: Op, key: string): State
    requires t < |s.goroutines|
  {
    s.(goroutines := s.goroutines[t := Goroutine(Inside(op, key), s.goroutines[t].held)], mut := Some(t))
  }

  lemma Enters(r: Rules, s: State, t: nat, op: Op, key: string, more: Schedule)
    requires Free(r, s, t, op, key)
    ensures var step := (t, (op, key));
      Run(r, s, [step, step] + more) == Run(r, Entered(s, t, op, key), more)
  {
    var step := (t, (op, key));
    var all := [step, step] + more;
    var s1 := At(s, t, Calling(op, key));
    RunFirst(r, s, all);
    RunFirst(r, s1, all[1..]);
    Rewritten(s.goroutines, t, s1.goroutines[t], Goroutine(Inside(op, key), s.goroutines[t].held));
    assert all[1..][1..] == more;
  }

  lemma Leaves(r: Rules, s: State, t: nat, call: (Op, string))
    requires t < |s.goroutines| && s.goroutines[t].pc == Leaving && !s.fatal
    ensures Run(r, s, [(t, call)]) ==
      Some(s.(goroutines := s.goroutines[t := Goroutine(Idle, s.goroutines[t].held)], mut := None))
  {
    RunOne(r, s, (t, call));
  }

  /** Behind `km.mut`: the mutex is looked up or made, and taken. */
  lemma Takes(r: Rules, s: State, t: nat, key: string, more: Schedule)
    requires Free(r, s, t, Lock, key)
    ensures var step, held := (t, (Lock, key)), s.goroutines[t].held;
      var effect := Effect(s, t, Lock, key);
      Run(r, Entered(s, t, Lock, key), [step, step] + more) ==
      Run(r, effect.(goroutines := s.goroutines[t := Goroutine(Leaving, held + {key})], mut := Some(t)), more)
  {
    var step, held := (t, (Lock, key)), s.goroutines[t].held;
    var s2, id := Entered(s, t, Lock, key), if key in s.mutexes then s.mutexes[key] else s.next;
    var all := [step, step] + more;
    assert all[1..][1..] == more;
    RunFirst(r, s2, all);
    var s3 := Step(r, s2, t, step.1).value;
    assert s3.mutexes == s.mutexes[key := id];
    Rewritten(s.goroutines, t, s2.goroutines[t], Goroutine(Locking(key, id), held));
    RunFirst(r, s3, all[1..]);
    Rewritten(s.goroutines, t, s3.goroutines[t], Goroutine(Leaving, held));
    Rewritten(s.goroutines, t, Goroutine(Leaving, held), Goroutine(Leaving, held + {key}));
  }

  lemma LockRuns(r: Rules, s: State, t: nat, key: string)
    requires Free(r, s, t, Lock, key)
    ensures Run(r, s, Calls(t, Lock, key)) == Some(Effect(s, t, Lock, key))
  {
    var step, held := (t, (Lock, key)), s.goroutines[t].held;
    assert Calls(t, Lock, key) == [step, step] + ([step, step] + [step]);
    Enters(r, s, t, Lock, key, [step, step] + [step]);
    Takes(r, s, t, key, [step]);
    var gs := s.goroutines[t := Goroutine(Leaving, held + {key})];
    Leaves(r, Effect(s, t, Lock, key).(goroutines := gs, mut := Some(t)), t, step.1);
    Rewritten(s.goroutines, t, gs[t], Goroutine(Idle, held + {key}));
  }

  lemma OtherRuns(r: Rules, s: State, t: nat, op: Op, key: string)
    requires Free(r, s, t, op, key) && op != Lock
    ensures Run(r, s, Calls(t, op, key)) == Some(Effect(s, t, op, key))
  {
    var step, held := (t, (op, key)), s.goroutines[t].held;
    assert Calls(t, op, key) == [step, step] + [step, step];
    Enters(r, s, t, op, key, [step, step]);
    var s2, after := Entered(s, t, op, key), if op == Unlock then held - {key} else held;
    assert op == Remove && r.removeUnheld ==> !HeldBySome(s2, key) by {
      if u :| 0 <= u < |s2.goroutines| && Holds(s2, u, key) {
        assert Holds(s, u, key);
      }
    }
    RunFirst(r, s2, [step, step]);
    var s3 := Step(r, s2, t, step.1).value;
    Rewritten(s.goroutines, t, s2.goroutines[t], Goroutine(Leaving, held));
    Rewritten(s.goroutines, t, Goroutine(Leaving, held), Goroutine(Leaving, after));
    assert [step, step][1..] == [step];
    Leaves(r, s3, t, step.1);
    Rewritten(s.goroutines, t, s3.goroutines[t], Goroutine(Idle, after));
  }

  /**
    If keys may be removed while they are held, or unlocked by others, two goroutines can hold a key: the first locks
    it, the second one removes (or unlocks) it and locks it as well.
   */
  lemma RulesNeeded(r: Rules, op: Op, key: string) returns (schedule: Schedule)
    requires (op == Remove && !r.removeUnheld) || (op == Unlock && !r.holdersUnlock)
    ensures Run(r, Init(2), schedule).Some?
    ensures var s := Run(r, Init(2), schedule).value; Holds(s, 0, key) && Holds(s, 1, key)
  {
    var s0 := Init(2);
    LockRuns(r, s0, 0, key);
    var s1 := Effect(s0, 0, Lock, key);
    OtherRuns(r, s1, 1, op, key);
    var s2 := Effect(s1, 1, op, key);
    LockRuns(r, s2, 1, key);
    RunConcat(r, s0, Calls(0, Lock, key), Calls(1, op, key));
    RunConcat(r, s0, Calls(0, Lock, key) + Calls(1, op, key), Calls(1, Lock, key));
    schedule := Calls(0, Lock, key) + Calls(1, op, key) + Calls(1, Lock, key);
  }

  // ---------- progress exactly without contention ----------

  /** The rules forbid what the goroutine is about to do. */
  predicate Forbidden(s: State, t: nat) {
    t < |s.goroutines| && s.goroutines[t].pc.Inside? && s.goroutines[t].pc.op == Remove &&
    HeldBySome(s, s.goroutines[t].pc.key)
  }

  /** In a safe state the goroutine behind `km.mut` can move, unless it waits for a held key. */
  lemma StepsUnlessWedged(s: State, t: nat, call: (Op, string))
    requires Safe(s) && t < |s.goroutines| && s.mut == Some(t) && !Wedged(s, t) && !Forbidden(s, t)
    ensures Step(DISCIPLINED, s, t, call).Some?
    ensures var s' := Step(DISCIPLINED, s, t, call).value;
      && Safe(s') && s'.goroutines[t].pc != Idle ==> !Wedged(s', t) && !Forbidden(s', t) && s'.mut == Some(t)
  {
    StepSafe(s, t, call);
    assert Critical(s.goroutines[t].pc);
  }

  /** How many steps are left until `km.mut` is free. */
  function Remaining(pc: Pc): nat {
    match pc
    case Idle => 0
    case Calling(_, _) => 0
    case Inside(op, _) => if op == Lock then 3 else 2
    case Locking(_, _) => 2
    case Leaving => 1
  }

  /** It then leaves by its own steps and frees `km.mut`. */
  lemma {:induction false} LeavesUnlessWedged(s: State, t: nat, call: (Op, string)) returns (schedule: Schedule)
    requires Safe(s) && t < |s.goroutines| && s.mut == Some(t) && !Wedged(s, t) && !Forbidden(s, t)
    ensures Run(DISCIPLINED, s, schedule).Some? && Run(DISCIPLINED, s, schedule).value.mut == None
    decreases Remaining(s.goroutines[t].pc)
  {
    StepsUnlessWedged(s, t, call);
    StepSafe(s, t, call);
    var next := Step(DISCIPLINED, s, t, call).value;
    assert Critical(s.goroutines[t].pc);
    var rest: Schedule := [];
    if s.goroutines[t].pc != Leaving {
      rest := LeavesUnlessWedged(next, t, call);
    }
    schedule := [(t, call)] + rest;
    RunFirst(DISCIPLINED, s, schedule);
    assert schedule[1..] == rest;
  }

  /** In a safe state it can leave if and only if the mutex it goes for is free. */
  lemma LeavesIffNotWedged(s: State, t: nat)
    requires Safe(s) && t < |s.goroutines| && s.mut == Some(t) && !Forbidden(s, t)
    ensures (exists schedule :: CanLeave(s, schedule)) <==> !Wedged(s, t)
  {
    if Wedged(s, t) {
      forall schedule
        ensures !CanLeave(s, schedule)
      {
        if CanLeave(s, schedule) {
          WedgedForever(DISCIPLINED, s, t, schedule);
        }
      }
    } else {
      var schedule := LeavesUnlessWedged(s, t, (Lock, ""));
      assert CanLeave(s, schedule);
    }
  }

  /** Some goroutine holds a key with this mutex. */
  ghost predicate OfHeldKey(s: State, id: nat) {
    exists key :: key in s.mutexes && s.mutexes[key] == id && HeldBySome(s, key)
  }

  ghost predicate LockedAreHeld(s: State) {
    forall id :: id in s.locked ==> OfHeldKey(s, id)
  }

  /** While the mutex of a held key stays locked, the key stays held. */
  lemma StaysHeld(s: State, t: nat, call: (Op, string), u: nat, key: string)
    requires t < |s.goroutines| && Safe(s) && Step(DISCIPLINED, s, t, call).Some?
    requires Holds(s, u, key) && key in s.mutexes
    ensures var s' := Step(DISCIPLINED, s, t, call).value;
      s.mutexes[key] in s'.locked ==>
        Holds(s', u, key) && key in s'.mutexes && s'.mutexes[key] == s.mutexes[key]
  {
    hide MutOwned, UnlockersHold;
  }

  lemma NewLockIsHeld(s: State, t: nat, call: (Op, string), id: nat)
    requires t < |s.goroutines| && Safe(s) && Step(DISCIPLINED, s, t, call).Some?
    requires id !in s.locked && id in Step(DISCIPLINED, s, t, call).value.locked
    ensures OfHeldKey(Step(DISCIPLINED, s, t, call).value, id)
  {
    hide MutOwned, UnlockersHold, Exclusive;
    assert Holds(Step(DISCIPLINED, s, t, call).value, t, s.goroutines[t].pc.key);
  }

  lemma StepLockedAreHeld(s: State, t: nat, call: (Op, string))
    requires t < |s.goroutines| && Safe(s) && LockedAreHeld(s) && Step(DISCIPLINED, s, t, call).Some?
    ensures LockedAreHeld(Step(DISCIPLINED, s, t, call).value)
  {
    hide Safe, Step, Holds;
    var s' := Step(DISCIPLINED, s, t, call).value;
    forall id | id in s'.locked
      ensures OfHeldKey(s', id)
    {
      if id in s.locked {
        assert OfHeldKey(s, id);
        var key :| key in s.mutexes && s.mutexes[key] == id && HeldBySome(s, key);
        var u :| 0 <= u < |s.goroutines| && Holds(s, u, key);
        StaysHeld(s, t, call, u, key);
        HolderExists(s', u, key);
      } else {
        NewLockIsHeld(s, t, call, id);
      }
    }
  }

  lemma HolderExists(s: State, t: nat, key: string)
    requires Holds(s, t, key)
    ensures HeldBySome(s, key)
  {
  }

  lemma {:induction false} RunLockedAreHeld(n: nat, schedule: Schedule)
    requires Run(DISCIPLINED, Init(n), schedule).Some?
    ensures LockedAreHeld(Run(DISCIPLINED, Init(n), schedule).value)
  {
    if schedule != [] {
      var m := |schedule| - 1;
      RunLockedAreHeld(n, schedule[..m]);
      RunSafe(Init(n), schedule[..m]);
      StepLockedAreHeld(Run(DISCIPLINED, Init(n), schedule[..m]).value, schedule[m].0, schedule[m].1);
    }
  }

  /** Goroutine `t` is in `Lock` for a key that is held, by another one or by itself. */
  predicate WaitsForHeld(s: State, t: nat)
    requires t < |s.goroutines|
  {
    match s.goroutines[t].pc
    case Inside(Lock, key) => HeldBySome(s, key)
    case Locking(key, _) => HeldBySome(s, key)
    case _ => false
  }

  /** In reachable states a mutex is locked exactly if its key is held. */
  lemma WedgedIffHeld(s: State, t: nat)
    requires Safe(s) && LockedAreHeld(s) && t < |s.goroutines| && s.mut == Some(t)
    ensures Wedged(s, t) <==> WaitsForHeld(s, t)
  {
    var pc := s.goroutines[t].pc;
    if WaitsForHeld(s, t) {
      var u :| 0 <= u < |s.goroutines| && Holds(s, u, pc.key);
    }
    if Wedged(s, t) {
      var id := if pc.Inside? then s.mutexes[pc.key] else pc.id;
      var key :| key in s.mutexes && s.mutexes[key] == id && HeldBySome(s, key);
      assert key == pc.key;
    }
  }

  /**
    Progress is lost exactly by contention: in every state of every run the goroutine behind `km.mut` can still leave
    it if and only if it is not in `Lock` for a held key.
   */
  lemma ProgressIff(n: nat, schedule: Schedule, t: nat)
    requires Run(DISCIPLINED, Init(n), schedule).Some?
    requires var s := Run(DISCIPLINED, Init(n), schedule).value;
      t < |s.goroutines| && s.mut == Some(t) && !Forbidden(s, t)
    ensures var s := Run(DISCIPLINED, Init(n), schedule).value;
      (exists more :: CanLeave(s, more)) <==> !WaitsForHeld(s, t)
  {
    var s := Run(DISCIPLINED, Init(n), schedule).value;
    RunSafe(Init(n), schedule);
    RunLockedAreHeld(n, schedule);
    LeavesIffNotWedged(s, t);
    WedgedIffHeld(s, t);
  }

  predicate CanLeave(s: State, schedule: Schedule) {
    Run(DISCIPLINED, s, schedule).Some? && Run(DISCIPLINED, s, schedule).value.mut == None
  }

  /** Contention happens: one goroutine locks a key, and the next one that wants it gets behind `km.mut`. */
  lemma ContentionReachable(key: string) returns (schedule: Schedule)
    ensures Run(DISCIPLINED, Init(2), schedule).Some?
    ensures var s := Run(DISCIPLINED, Init(2), schedule).value;
      |s.goroutines| == 2 && Safe(s) && Holds(s, 0, key) && s.goroutines[1].pc == Inside(Lock, key) && Wedged(s, 1)
  {
    hide Run, UnlockersHold;
    var s0, step := Init(2), (1, (Lock, key));
    LockRuns(DISCIPLINED, s0, 0, key);
    var s1 := Effect(s0, 0, Lock, key);
    var s2 := At(s1, 1, Calling(Lock, key));
    RunFirst(DISCIPLINED, s1, [step, step]);
    assert [step, step][1..] == [step];
    RunOne(DISCIPLINED, s2, step);
    RunConcat(DISCIPLINED, s0, Calls(0, Lock, key), [step, step]);
    schedule := Calls(0, Lock, key) + [step, step];
    RunSafe(s0, schedule);
  }
}
