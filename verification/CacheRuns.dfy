/**
  Every interleaving of callers and garbage collectors on one cache file system (ociclient/cache/filesystem.go).

  Create, DeleteAll and the two phases of a collection hold `mux`; Remove, OpenFile and Reset do not. A collection
  copies the index in one critical section and sweeps in a later one, and every loop iteration of a sweep or of
  DeleteAll is a step of its own, between which unlocked calls may run.
 */
module CacheRuns {
  import opened Common
  import opened CachePriority
  import opened CacheFilesystem

  type Thread = nat

  /** Where a thread is in RunGarbageCollection or DeleteAll. */
  datatype Phase =
    | Triggered  // the usage has been found above the threshold
    | Snapped(snapshot: map<string, IndexEntry>)
    | Sweeping(snapshot: map<string, IndexEntry>, items: seq<IndexEntry>, tried: set<string>)
    | Swept
    | Deleting(names: seq<string>)

  datatype Sys = Sys(fs: Fs, lock: Option<Thread>, phases: map<Thread, Phase>)

  datatype Step =
    | Create(path: string, size: int, now: nat)
    | Remove(name: string, ioFails: bool)
    | Open(name: string)
    | ResetHits
    | Tamper(files: set<string>)  // the underlying files change behind the cache's back
    | Trigger(t: Thread)
    | Snapshot(t: Thread)
    | BeginSweep(t: Thread, order: seq<IndexEntry>, list: seq<IndexEntry>)
    | SweepOne(t: Thread, ioFails: bool)
    | EndSweep(t: Thread)
    | BeginDelete(t: Thread, names: seq<string>)
    | DeleteOne(t: Thread, ioFails: bool)
    | EndDelete(t: Thread)

  ghost predicate In(s: Sys, t: Thread) {
    t in s.phases
  }

  ghost predicate Next(s: Sys, step: Step, s': Sys) {
    match step
    case Create(path, size, now) =>
      s.lock == None && s' == s.(fs := Created(s.fs, path, size, now))
    case Remove(name, ioFails) =>
      s' == s.(fs := Removed(s.fs, name, ioFails))
    case Open(name) =>
      s' == s.(fs := Hit(s.fs, name))
    case ResetHits =>
      CountsValid(s.fs.index) && s' == s.(fs := Reset(s.fs))
    case Tamper(files) =>
      s' == s.(fs := s.fs.(files := files))
    case Trigger(t) =>
      && !In(s, t) && s.fs.limit != 0 && Usage(s.fs) >= GC_HIGH_THRESHOLD
      && s' == s.(phases := s.phases[t := Triggered])
    case Snapshot(t) =>
      && In(s, t) && s.phases[t] == Triggered && s.lock == None
      && s' == s.(phases := s.phases[t := Snapped(s.fs.index)])
    case BeginSweep(t, order, list) =>
      && In(s, t) && s.phases[t].Snapped? && s.lock == None
      && IsPriorityList(s.phases[t].snapshot, order, list)
      && s' == s.(lock := Some(t), phases := s.phases[t := Sweeping(s.phases[t].snapshot, list, {})])
    case SweepOne(t, ioFails) =>
      && In(s, t) && s.phases[t].Sweeping? && s.phases[t].items != [] && Above(s.fs, GC_LOW_THRESHOLD)
      && var p := s.phases[t];
         var name := p.items[0].name;
         s' == s.(fs := Removed(s.fs, name, ioFails),
                  phases := s.phases[t := Sweeping(p.snapshot, p.items[1..], p.tried + {name})])
    case EndSweep(t) =>
      && In(s, t) && s.phases[t].Sweeping? && (s.phases[t].items == [] || !Above(s.fs, GC_LOW_THRESHOLD))
      && s' == s.(lock := None, phases := s.phases[t := Phase.Swept])
    case BeginDelete(t, names) =>
      && !In(s, t) && s.lock == None && (forall name :: name in names <==> name in s.fs.files)
      && s' == s.(lock := Some(t), phases := s.phases[t := Deleting(names)])
    case DeleteOne(t, ioFails) =>
      && In(s, t) && s.phases[t].Deleting? && s.phases[t].names != []
      && var names := s.phases[t].names;
         // the first failure ends the loop
         var rest := if CanRemove(s.fs, names[0], ioFails) then names[1..] else [];
         s' == s.(fs := Removed(s.fs, names[0], ioFails), phases := s.phases[t := Deleting(rest)])
    case EndDelete(t) =>
      && In(s, t) && s.phases[t] == Deleting([])
      && s' == s.(lock := None, phases := s.phases - {t})
  }

  /** A run: the states it goes through and the steps between them. */
  datatype Run = Run(states: seq<Sys>, steps: seq<Step>)

  ghost predicate IsRun(run: Run) {
    && |run.states| == |run.steps| + 1
    && forall i :: 0 <= i < |run.steps| ==> Next(run.states[i], run.steps[i], run.states[i + 1])
  }

  ghost predicate HoldsLock(p: Phase) {
    p.Sweeping? || p.Deleting?
  }

  ghost predicate Pending(items: seq<IndexEntry>, name: string) {
    exists i :: 0 <= i < |items| && items[i].name == name
  }

  /** The names still to be tried, those tried already, and the names of the snapshot account for each other. */
  ghost predicate SweepAccounted(p: Phase) {
    p.Sweeping? ==>
      (forall name :: name in p.snapshot <==> name in p.tried || Pending(p.items, name))
  }

  ghost predicate OneHolder(s: Sys) {
    forall t :: t in s.phases && HoldsLock(s.phases[t]) ==> s.lock == Some(t)
  }

  ghost predicate PhasesAccounted(s: Sys) {
    && (forall t :: t in s.phases && s.phases[t].Snapped? ==> Named(s.phases[t].snapshot))
    && (forall t :: t in s.phases && s.phases[t].Sweeping? ==> SweepAccounted(s.phases[t]))
  }

  ghost predicate Inv(s: Sys) {
    Conserved(s.fs) && OneHolder(s) && PhasesAccounted(s)
  }

  ghost predicate Init(s: Sys) {
    Conserved(s.fs) && s.fs.overwritten == 0 && s.lock == None && s.phases == map[]
  }

  lemma AccountedAtBegin(snapshot: map<string, IndexEntry>, order: seq<IndexEntry>, list: seq<IndexEntry>)
    requires Named(snapshot) && IsPriorityList(snapshot, order, list)
    ensures SweepAccounted(Sweeping(snapshot, list, {}))
  {
    forall name
      ensures name in snapshot <==> Pending(list, name)
    {
      if name in snapshot {
        assert snapshot[name] in list;
      }
      if i :| 0 <= i < |list| && list[i].name == name {
        assert list[i] in list;
      }
    }
  }

  lemma AccountedAfterOne(p: Phase)
    requires p.Sweeping? && p.items != [] && SweepAccounted(p)
    ensures SweepAccounted(Sweeping(p.snapshot, p.items[1..], p.tried + {p.items[0].name}))
  {
    var rest := p.items[1..];
    forall name
      ensures Pending(p.items, name) <==> name == p.items[0].name || Pending(rest, name)
    {
      if i :| 0 <= i < |p.items| && p.items[i].name == name {
        assert i > 0 ==> rest[i - 1].name == name;
      }
      if i :| 0 <= i < |rest| && rest[i].name == name {
        assert p.items[i + 1].name == name;
      }
    }
  }

  lemma StepConserves(s: Sys, step: Step, s': Sys)
    requires Inv(s) && Next(s, step, s')
    ensures Conserved(s'.fs)
  {
    match step
    case Create(path, size, now) => CreateConserves(s.fs, path, size, now);
    case Remove(name, ioFails) => RemoveConserves(s.fs, name, ioFails);
    case Open(name) => HitConserves(s.fs, name);
    case ResetHits => ResetConserves(s.fs);
    case SweepOne(t, ioFails) => RemoveConserves(s.fs, s.phases[t].items[0].name, ioFails);
    case DeleteOne(t, ioFails) => RemoveConserves(s.fs, s.phases[t].names[0], ioFails);
    case _ =>
  }

  lemma StepKeepsHolder(s: Sys, step: Step, s': Sys)
    requires Inv(s) && Next(s, step, s')
    ensures OneHolder(s')
  {
    hide PhasesAccounted, Conserved, Created, Removed, Hit, Reset, IsPriorityList;
  }

  lemma StepKeepsAccounts(s: Sys, step: Step, s': Sys)
    requires Inv(s) && Next(s, step, s')
    ensures PhasesAccounted(s')
  {
    hide OneHolder, SweepAccounted, Created, Removed, Hit, Reset, IsPriorityList;
    match step
    case BeginSweep(t, order, list) => AccountedAtBegin(s.phases[t].snapshot, order, list);
    case SweepOne(t, _) => AccountedAfterOne(s.phases[t]);
    case _ =>
  }

  lemma StepKeepsInv(s: Sys, step: Step, s': Sys)
    requires Inv(s) && Next(s, step, s')
    ensures Inv(s')
  {
    StepConserves(s, step, s');
    StepKeepsHolder(s, step, s');
    StepKeepsAccounts(s, step, s');
  }

  /**
    Size conservation over every run: whatever calls, collections and outside changes interleave, the accounted size
    is the sum of the sizes in the index plus the sizes of the entries that were overwritten.
   */
  lemma {:induction false} RunConserves(run: Run, i: nat)
    requires IsRun(run) && Init(run.states[0]) && i < |run.states|
    ensures Inv(run.states[i])
    ensures run.states[i].fs.currentSize == Total(run.states[i].fs.index) + run.states[i].fs.overwritten
  {
    if i > 0 {
      RunConserves(run, i - 1);
      StepKeepsInv(run.states[i - 1], run.steps[i - 1], run.states[i]);
    }
  }

  /** If no name is created while the index still holds it, the accounted size is exactly the sum. */
  lemma {:induction false} ExactWithoutRecreation(run: Run, i: nat)
    requires IsRun(run) && Init(run.states[0]) && i < |run.states|
    requires forall j :: 0 <= j < i && run.steps[j].Create? ==> run.steps[j].path !in run.states[j].fs.index
    ensures run.states[i].fs.overwritten == 0
    ensures run.states[i].fs.currentSize == Total(run.states[i].fs.index)
  {
    RunConserves(run, i);
    if i > 0 {
      ExactWithoutRecreation(run, i - 1);
      assert Next(run.states[i - 1], run.steps[i - 1], run.states[i]);
    }
  }

  /** The size of the entry that a step replaces. */
  function Replaced(s: Sys, step: Step): int {
    if step.Create? && step.path in s.fs.index then s.fs.index[step.path].size else 0
  }

  /** The sizes of all entries replaced in the first `i` steps. */
  function Lost(run: Run, i: nat): int
    requires i < |run.states| == |run.steps| + 1
  {
    if i == 0 then 0 else Lost(run, i - 1) + Replaced(run.states[i - 1], run.steps[i - 1])
  }

  lemma LostStep(run: Run, i: nat)
    requires i + 1 < |run.states| == |run.steps| + 1
    ensures Lost(run, i + 1) == Lost(run, i) + Replaced(run.states[i], run.steps[i])
  {
  }

  lemma StepLoses(s: Sys, step: Step, s': Sys)
    requires Next(s, step, s')
    ensures s'.fs.overwritten == s.fs.overwritten + Replaced(s, step)
  {
  }

  /** In every run the accounted size is off by exactly the sizes of the entries replaced so far. */
  lemma {:induction false} LostExactly(run: Run, i: nat)
    requires IsRun(run) && Init(run.states[0]) && i < |run.states|
    ensures run.states[i].fs.overwritten == Lost(run, i)
    ensures run.states[i].fs.currentSize == Total(run.states[i].fs.index) + Lost(run, i)
  {
    RunConserves(run, i);
    hide Next, Inv, Total, Replaced;
    if i > 0 {
      LostExactly(run, i - 1);
      StepLoses(run.states[i - 1], run.steps[i - 1], run.states[i]);
    }
  }

  /** No step from the `i`-th up to the `j`-th replaces an entry of negative size. */
  ghost predicate NoneNegative(run: Run, i: nat, j: nat)
    requires j < |run.states| == |run.steps| + 1
  {
    forall m :: i <= m < j ==> Replaced(run.states[m], run.steps[m]) >= 0
  }

  lemma {:induction false} LossGrows(run: Run, i: nat, j: nat)
    requires i <= j < |run.states| == |run.steps| + 1 && NoneNegative(run, i, j)
    ensures Lost(run, i) <= Lost(run, j)
    ensures Lost(run, j) == Lost(run, i) ==> forall m :: i <= m < j ==> Replaced(run.states[m], run.steps[m]) == 0
    decreases j
  {
    if i < j {
      LossGrows(run, i, j - 1);
    }
  }

  lemma {:induction false} NothingLost(run: Run, i: nat)
    requires i < |run.states| == |run.steps| + 1
    requires forall m :: 0 <= m < i ==> Replaced(run.states[m], run.steps[m]) == 0
    ensures Lost(run, i) == 0
  {
    if i > 0 {
      NothingLost(run, i - 1);
    }
  }

  /** The accounted size is exactly the sum if and only if every re-creation so far replaced an entry of size 0. */
  lemma ExactIff(run: Run, i: nat)
    requires IsRun(run) && Init(run.states[0]) && i < |run.states| && NoneNegative(run, 0, i)
    ensures run.states[i].fs.currentSize == Total(run.states[i].fs.index) <==>
      forall m :: 0 <= m < i ==> Replaced(run.states[m], run.steps[m]) == 0
  {
    LostExactly(run, i);
    LossGrows(run, 0, i);
    if forall m :: 0 <= m < i ==> Replaced(run.states[m], run.steps[m]) == 0 {
      NothingLost(run, i);
    }
  }

  /**
    A re-creation loses the old size for good: in every later state of every run at least that much more is accounted
    than the entries of the index stand for, unless entries of negative size are replaced in between.
   */
  lemma RecreationLeaks(run: Run, i: nat, j: nat)
    requires IsRun(run) && Init(run.states[0]) && i < j < |run.states|
    ensures var before, after := run.states[i].fs, run.states[j].fs;
      && after.currentSize - Total(after.index) ==
         before.currentSize - Total(before.index) + Lost(run, j) - Lost(run, i)
      && (NoneNegative(run, i + 1, j) ==>
            after.currentSize - Total(after.index) >=
            before.currentSize - Total(before.index) + Replaced(run.states[i], run.steps[i]))
  {
    hide Init, Next, Lost, Total, Replaced, NoneNegative;
    LostExactly(run, i);
    LostExactly(run, j);
    LostStep(run, i);
    if NoneNegative(run, i + 1, j) {
      LossGrows(run, i + 1, j);
    }
  }

  // ---------- sweeps ----------

  ghost predicate SweepingFrom(s: Sys, t: Thread, snapshot: map<string, IndexEntry>) {
    t in s.phases && s.phases[t].Sweeping? && s.phases[t].snapshot == snapshot
  }

  ghost predicate Survives(s: Sys, s': Sys, name: string) {
    && name in s.fs.index && name in s'.fs.index
    && s'.fs.index[name].createdAt == s.fs.index[name].createdAt
    && s'.fs.index[name].size == s.fs.index[name].size
  }

  lemma SweepStepSpares(s: Sys, step: Step, s': Sys, t: Thread, snapshot: map<string, IndexEntry>, name: string)
    requires Inv(s) && Next(s, step, s')
    requires SweepingFrom(s, t, snapshot)
    requires name !in snapshot && name in s.fs.index
    requires step.Remove? ==> step.name != name
    ensures Survives(s, s', name)
  {
    if step.SweepOne? {
      assert HoldsLock(s.phases[step.t]);
      var p := s.phases[step.t];
      assert p.items[0].name in p.snapshot;
    } else if step.DeleteOne? {
      assert HoldsLock(s.phases[step.t]);
    }
  }

  lemma RunStepSpares(run: Run, i: nat, t: Thread, snapshot: map<string, IndexEntry>, name: string)
    requires IsRun(run) && Init(run.states[0]) && i < |run.steps|
    requires SweepingFrom(run.states[i], t, snapshot)
    requires run.steps[i].Remove? ==> run.steps[i].name != name
    requires name !in snapshot && name in run.states[i].fs.index
    ensures Survives(run.states[i], run.states[i + 1], name)
  {
    RunConserves(run, i);
    SweepStepSpares(run.states[i], run.steps[i], run.states[i + 1], t, snapshot, name);
  }

  /**
    A name that is not in the snapshot of a sweep, because it was created after the index had been copied, survives
    that sweep in every interleaving, unless somebody else removes it by an explicit Remove.
   */
  lemma {:induction false} NewNamesSurvive(
    run: Run, i: nat, j: nat, t: Thread, snapshot: map<string, IndexEntry>, name: string)
    requires IsRun(run) && Init(run.states[0]) && i <= j < |run.states|
    requires forall m :: i <= m <= j ==> SweepingFrom(run.states[m], t, snapshot)
    requires forall m :: i <= m < j && run.steps[m].Remove? ==> run.steps[m].name != name
    requires name !in snapshot && name in run.states[i].fs.index
    ensures Survives(run.states[i], run.states[j], name)
    decreases j - i
  {
    assert SweepingFrom(run.states[i], t, snapshot);
    if i < j {
      assert SweepingFrom(run.states[j - 1], t, snapshot);
      NewNamesSurvive(run, i, j - 1, t, snapshot, name);
      RunStepSpares(run, j - 1, t, snapshot, name);
    }
  }

  /** A sweep that ends has brought the usage down, or has tried every name of its snapshot. */
  lemma SweepEndsDone(run: Run, i: nat, t: Thread)
    requires IsRun(run) && Init(run.states[0]) && i < |run.steps| && run.steps[i] == EndSweep(t)
    ensures t in run.states[i].phases && run.states[i].phases[t].Sweeping?
    ensures var p := run.states[i].phases[t];
      !Above(run.states[i].fs, GC_LOW_THRESHOLD) || p.tried == p.snapshot.Keys
  {
    RunConserves(run, i);
    assert Next(run.states[i], run.steps[i], run.states[i + 1]);
    var p := run.states[i].phases[t];
    assert SweepAccounted(p);
  }
}
