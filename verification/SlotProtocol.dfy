/** One shared-memory slot used by any number of writers and readers, at the granularity of single
    field accesses: spin lock (src/shm/share_memory_mng.cpp), unlocked pre-check, locked re-check,
    field-by-field copy in and out. Readers may copy the fields in any order. */
module SlotProtocol {
  import opened ShmSlot
  import opened Paths

  datatype Process =
    | Idle
    | Peeking(w: Cells, id: int)          // has read the update id without the lock
    | SpinWrite(w: Cells)
    | Locked(w: Cells)
    | Writing(w: Cells, done: nat)
    | SpinRead
    | Reading(copy: map<nat, Cell>)
    | Leaving

  datatype Snapshot = Snapshot(reader: nat, cells: Cells)

  datatype Memory = Memory(
    kind: Kind, start: Cells, cells: Cells, lock: int, procs: seq<Process>,
    history: seq<Cells>, snapshots: seq<Snapshot>)

  datatype Step =
    | Begin(p: nat, w: Cells)
    | PreCheck(p: nat)
    | TryLock(p: nat)
    | ReCheck(p: nat)
    | Assign(p: nat)
    | BumpVersion(p: nat)
    | StartRead(p: nat)
    | CopyField(p: nat, i: nat)
    | FinishRead(p: nat)
    | Unlock(p: nat)

  predicate Enabled(m: Memory, step: Step) {
    && step.p < |m.procs|
    && Fits(m.kind, m.cells)
    && (m.procs[step.p].Writing? ==> Fits(m.kind, m.procs[step.p].w))
    && var proc := m.procs[step.p];
       match step
       case Begin(_, w) => proc.Idle? && Fits(m.kind, w)
       case PreCheck(_) => proc.Peeking?
       case TryLock(_) => proc.SpinWrite? || proc.SpinRead?
       case ReCheck(_) => proc.Locked?
       case Assign(_) => proc.Writing? && proc.done < |Plan(m.kind, proc.w)|
       case BumpVersion(_) => proc.Writing? && proc.done == |Plan(m.kind, proc.w)|
       case StartRead(_) => proc.Idle?
       case CopyField(_, i) => proc.Reading? && i < Size(m.kind) && i !in proc.copy
       case FinishRead(_) => proc.Reading? && forall i: nat :: i < Size(m.kind) ==> i in proc.copy
       case Unlock(_) => proc.Leaving?
  }

  // The cells a step leaves: only the lock holder's assignments touch them.
  function CellsAfter(m: Memory, step: Step): Cells
    requires Enabled(m, step)
  {
    var proc := m.procs[step.p];
    match step
    case Assign(_) => var i := Plan(m.kind, proc.w)[proc.done]; m.cells[i := proc.w[i]]
    case BumpVersion(_) => Bumped(m.kind, m.cells)
    case _ => m.cells
  }

  function ProcessAfter(m: Memory, step: Step): Process
    requires Enabled(m, step)
  {
    var proc := m.procs[step.p];
    match step
    case Begin(_, w) => Peeking(w, UpdateId(m.kind, m.cells))
    case PreCheck(_) => if Admits(m.kind, proc.id, Time(m.kind, m.cells), proc.w) then SpinWrite(proc.w) else Idle
    case TryLock(_) => if m.lock != 0 then proc else if proc.SpinRead? then Reading(map[]) else Locked(proc.w)
    case ReCheck(_) => if Accepts(m.kind, m.cells, proc.w) then Writing(proc.w, 0) else Leaving
    case Assign(_) => proc.(done := proc.done + 1)
    case BumpVersion(_) => Leaving
    case StartRead(_) => SpinRead
    case CopyField(_, i) => Reading(proc.copy[i := m.cells[i]])
    case FinishRead(_) => Leaving
    case Unlock(_) => Idle
  }

  function Gathered(copy: map<nat, Cell>, size: nat): Cells
    requires forall i: nat :: i < size ==> i in copy
  {
    seq(size, i requires 0 <= i < size => copy[i])
  }

  function Do(m: Memory, step: Step): Memory
    requires Enabled(m, step)
  {
    var proc := m.procs[step.p];
    m.(cells := CellsAfter(m, step),
       procs := m.procs[step.p := ProcessAfter(m, step)],
       lock := if step.TryLock? then 1 else if step.Unlock? then 0 else m.lock,
       history := if step.BumpVersion? then m.history + [proc.w] else m.history,
       snapshots := if step.FinishRead? then m.snapshots + [Snapshot(step.p, Gathered(proc.copy, Size(m.kind)))]
         else m.snapshots)
  }

  // ----- the invariant

  predicate InCritical(proc: Process) {
    proc.Locked? || proc.Writing? || proc.Reading? || proc.Leaving?
  }

  /** At most one process is inside, and the lock word says whether one is. */
  ghost predicate ExclusiveAmong(procs: seq<Process>, lock: int) {
    && (forall p, q :: 0 <= p < |procs| && 0 <= q < |procs| && InCritical(procs[p]) && InCritical(procs[q]) ==> p == q)
    && (lock != 0 <==> exists p :: 0 <= p < |procs| && InCritical(procs[p]))
  }

  ghost predicate Exclusive(m: Memory) {
    ExclusiveAmong(m.procs, m.lock)
  }

  predicate Fitting(kind: Kind, proc: Process) {
    proc.Peeking? || proc.SpinWrite? || proc.Locked? || proc.Writing? ==> Fits(kind, proc.w)
  }

  ghost predicate WellFormed(m: Memory) {
    && Fits(m.kind, m.start) && Version(m.kind, m.start) == 0 && Fits(m.kind, m.cells) && AllFit(m.kind, m.history)
    && (forall p :: 0 <= p < |m.procs| ==> Fitting(m.kind, m.procs[p]))
  }

  // What one process's local state says about the shared cells.
  ghost predicate LocalView(m: Memory, proc: Process)
    requires WellFormed(m)
    requires proc.Writing? ==> Fits(m.kind, proc.w)
  {
    var stored := Stored(m.kind, m.start, m.history);
    match proc
    case Writing(w, done) =>
      && done <= |Plan(m.kind, w)| && Accepts(m.kind, stored, w) && m.cells == Copied(m.kind, stored, w, done)
    case Reading(copy) =>
      && m.cells == stored
      && forall i: nat :: i in copy ==> i < Size(m.kind) && copy[i] == m.cells[i]
    case _ => true
  }

  ghost predicate Consistent(m: Memory)
    requires WellFormed(m)
  {
    && (forall p :: 0 <= p < |m.procs| ==> LocalView(m, m.procs[p]))
    && ((forall p :: 0 <= p < |m.procs| ==> !m.procs[p].Writing?) ==> m.cells == Stored(m.kind, m.start, m.history))
  }

  ghost predicate IsPrefixFold(m: Memory, cells: Cells)
    requires WellFormed(m)
  {
    var v := Version(m.kind, cells);
    0 <= v <= |m.history| && cells == Stored(m.kind, m.start, m.history[..v])
  }

  ghost predicate ReadsAreFolds(m: Memory)
    requires WellFormed(m)
  {
    forall r :: 0 <= r < |m.snapshots| ==> IsPrefixFold(m, m.snapshots[r].cells)
  }

  ghost predicate Inv(m: Memory) {
    WellFormed(m) && Exclusive(m) && Consistent(m) && ReadsAreFolds(m)
  }

  predicate Init(m: Memory) {
    && Fits(m.kind, m.start) && m.cells == m.start && m.lock == 0
    && Version(m.kind, m.start) == 0 && Time(m.kind, m.start) == 0 && UpdateId(m.kind, m.start) == 0
    && m.history == [] && m.snapshots == []
    && forall p :: 0 <= p < |m.procs| ==> m.procs[p].Idle?
  }

  lemma StepKeepsFitting(m: Memory, step: Step)
    requires Enabled(m, step) && Fitting(m.kind, m.procs[step.p])
    ensures Fitting(m.kind, ProcessAfter(m, step))
  {}

  lemma StepKeepsWellFormed(m: Memory, step: Step)
    requires WellFormed(m) && Enabled(m, step)
    ensures WellFormed(Do(m, step))
  {
    StepKeepsFitting(m, step);
    var n := Do(m, step);
    assert Fits(m.kind, n.cells);
    forall p | 0 <= p < |n.procs| ensures Fitting(m.kind, n.procs[p]) {
      if p != step.p { assert n.procs[p] == m.procs[p]; }
    }
  }

  lemma StepKeepsExclusive(m: Memory, step: Step)
    requires Exclusive(m) && Enabled(m, step)
    ensures Exclusive(Do(m, step))
  {
    EntersOnlyFree(m, step);
    OneMoves(m.procs, m.lock, step.p, ProcessAfter(m, step), Do(m, step).lock);
  }

  // Whoever comes in found the lock free and holds it; whoever goes out held it and frees it.
  lemma EntersOnlyFree(m: Memory, step: Step)
    requires Exclusive(m) && Enabled(m, step)
    ensures var was, now := InCritical(m.procs[step.p]), InCritical(ProcessAfter(m, step));
            && (was == now ==> (Do(m, step).lock != 0 <==> m.lock != 0))
            && (!was && now ==> m.lock == 0 && Do(m, step).lock != 0)
            && (was && !now ==> Do(m, step).lock == 0)
  {}

  lemma OneMoves(procs: seq<Process>, lock: int, p: nat, to: Process, newLock: int)
    requires ExclusiveAmong(procs, lock) && p < |procs|
    requires InCritical(procs[p]) == InCritical(to) ==> (newLock != 0 <==> lock != 0)
    requires !InCritical(procs[p]) && InCritical(to) ==> lock == 0 && newLock != 0
    requires InCritical(procs[p]) && !InCritical(to) ==> newLock == 0
    ensures ExclusiveAmong(procs[p := to], newLock)
  {
    var after := procs[p := to];
    assert after[p] == to;
    if InCritical(procs[p]) == InCritical(to) && lock != 0 {
      var q :| 0 <= q < |procs| && InCritical(procs[q]);
      assert InCritical(after[q]);
    }
  }

  // No step of another process disturbs what a process inside the critical section knows.
  lemma OthersUndisturbed(m: Memory, step: Step, q: nat)
    requires Inv(m) && Enabled(m, step) && q < |m.procs| && q != step.p
    ensures WellFormed(Do(m, step)) && LocalView(Do(m, step), m.procs[q])
  {
    StepKeepsWellFormed(m, step);
    assert LocalView(m, m.procs[q]);
    if m.procs[q].Writing? || m.procs[q].Reading? {
      assert InCritical(m.procs[q]) && !InCritical(m.procs[step.p]);
    }
  }

  lemma StepKeepsOwnView(m: Memory, step: Step)
    requires Inv(m) && Enabled(m, step)
    ensures WellFormed(Do(m, step)) && LocalView(Do(m, step), Do(m, step).procs[step.p])
  {
    StepKeepsWellFormed(m, step);
    assert LocalView(m, m.procs[step.p]);
    if step.Assign? {
      AssignKeepsView(m, step);
    } else if step.CopyField? {
      CopyKeepsView(m, step);
    } else if step.ReCheck? || (step.TryLock? && m.lock == 0) {
      NoOtherWriter(m, step);
      assert !m.procs[step.p].Writing? && !m.procs[step.p].Reading?;
    } else {
      assert !ProcessAfter(m, step).Writing? && !ProcessAfter(m, step).Reading?;
    }
  }

  lemma AssignKeepsView(m: Memory, step: Step)
    requires WellFormed(m) && Enabled(m, step) && step.Assign? && LocalView(m, m.procs[step.p])
    ensures WellFormed(Do(m, step)) && LocalView(Do(m, step), Do(m, step).procs[step.p])
  {
    StepKeepsWellFormed(m, step);
    var proc := m.procs[step.p];
    assert Do(m, step).procs[step.p] == proc.(done := proc.done + 1);
  }

  lemma CopyKeepsView(m: Memory, step: Step)
    requires WellFormed(m) && Enabled(m, step) && step.CopyField? && LocalView(m, m.procs[step.p])
    ensures WellFormed(Do(m, step)) && LocalView(Do(m, step), Do(m, step).procs[step.p])
  {
    StepKeepsWellFormed(m, step);
    assert Do(m, step).procs[step.p] == ProcessAfter(m, step);
  }

  lemma NoOtherWriter(m: Memory, step: Step)
    requires Inv(m) && Enabled(m, step) &&
             (step.ReCheck? || step.BumpVersion? || step.FinishRead? || (step.TryLock? && m.lock == 0))
    ensures forall p :: 0 <= p < |m.procs| && p != step.p ==> !m.procs[p].Writing?
    ensures !step.BumpVersion? ==> m.cells == Stored(m.kind, m.start, m.history)
  {
    forall p | 0 <= p < |m.procs| && p != step.p ensures !m.procs[p].Writing? {
      if m.procs[p].Writing? {
        assert InCritical(m.procs[p]);
      }
    }
  }

  lemma StepKeepsStored(m: Memory, step: Step)
    requires Inv(m) && Enabled(m, step)
    requires WellFormed(Do(m, step))
    requires forall p :: 0 <= p < |m.procs| ==> !Do(m, step).procs[p].Writing?
    ensures Do(m, step).cells == Stored(m.kind, m.start, Do(m, step).history)
  {
    var n := Do(m, step);
    if step.BumpVersion? {
      assert LocalView(m, m.procs[step.p]);
      assert n.history[..|n.history| - 1] == m.history;
    } else {
      assert n.procs[step.p] == ProcessAfter(m, step);
      forall p | 0 <= p < |m.procs| ensures !m.procs[p].Writing? {
        if p != step.p { assert n.procs[p] == m.procs[p]; }
      }
    }
  }

  lemma LaterWritesKeepFold(m: Memory, n: Memory, cells: Cells)
    requires WellFormed(m) && WellFormed(n) && n.kind == m.kind && n.start == m.start && IsPrefixFold(m, cells)
    requires |m.history| <= |n.history| && n.history[..|m.history|] == m.history
    ensures IsPrefixFold(n, cells)
  {
    var v := Version(m.kind, cells);
    assert n.history[..v] == n.history[..|m.history|][..v];
  }

  // A finished copy is the slot as it stands, the fold of the whole history.
  lemma FinishedReadIsFold(m: Memory, step: Step)
    requires Inv(m) && Enabled(m, step) && step.FinishRead?
    ensures var cells := Gathered(m.procs[step.p].copy, Size(m.kind));
            cells == m.cells && IsPrefixFold(m, cells)
  {
    assert LocalView(m, m.procs[step.p]);
    assert m.history[..|m.history|] == m.history;
  }

  lemma StepKeepsReads(m: Memory, step: Step)
    requires Inv(m) && Enabled(m, step)
    ensures WellFormed(Do(m, step)) && ReadsAreFolds(Do(m, step))
  {
    StepKeepsWellFormed(m, step);
    var n := Do(m, step);
    forall r | 0 <= r < |n.snapshots| ensures IsPrefixFold(n, n.snapshots[r].cells) {
      if r == |m.snapshots| { FinishedReadIsFold(m, step); }
      LaterWritesKeepFold(m, n, n.snapshots[r].cells);
    }
  }

  lemma StepKeepsInv(m: Memory, step: Step)
    requires Inv(m) && Enabled(m, step)
    ensures Inv(Do(m, step))
  {
    var n := Do(m, step);
    StepKeepsWellFormed(m, step);
    StepKeepsExclusive(m, step);
    StepKeepsReads(m, step);
    forall p | 0 <= p < |n.procs| ensures LocalView(n, n.procs[p]) {
      if p == step.p { StepKeepsOwnView(m, step); } else { OthersUndisturbed(m, step, p); }
    }
    if forall p :: 0 <= p < |n.procs| ==> !n.procs[p].Writing? {
      StepKeepsStored(m, step);
    }
  }

  // ----- runs

  predicate IsRun(states: seq<Memory>, steps: seq<Step>) {
    && |states| == |steps| + 1
    && Init(states[0])
    && forall k :: 0 <= k < |steps| ==> Enabled(states[k], steps[k]) && states[k + 1] == Do(states[k], steps[k])
  }

  lemma {:induction false} RunInv(states: seq<Memory>, steps: seq<Step>, k: nat)
    requires IsRun(states, steps) && k < |states|
    ensures Inv(states[k]) && states[k].kind == states[0].kind && states[k].start == states[0].start
  {
    if k > 0 {
      RunInv(states, steps, k - 1);
      StepKeepsInv(states[k - 1], steps[k - 1]);
    }
  }

  lemma StepKeepsAccepted(m: Memory, step: Step)
    requires Inv(m) && Enabled(m, step) && AcceptedInTurn(m.kind, m.start, m.history)
    ensures WellFormed(Do(m, step)) && AcceptedInTurn(m.kind, m.start, Do(m, step).history)
  {
    StepKeepsWellFormed(m, step);
    if step.BumpVersion? {
      assert LocalView(m, m.procs[step.p]);
      var after := Do(m, step).history;
      assert after[..|after| - 1] == m.history;
    }
  }

  lemma {:induction false} RunAccepted(states: seq<Memory>, steps: seq<Step>, k: nat)
    requires IsRun(states, steps) && k < |states|
    ensures WellFormed(states[k]) && AcceptedInTurn(states[k].kind, states[k].start, states[k].history)
  {
    if k > 0 {
      RunAccepted(states, steps, k - 1);
      RunInv(states, steps, k - 1);
      StepKeepsAccepted(states[k - 1], steps[k - 1]);
    }
  }

  // ----- what every run satisfies

  /** At most one process is ever between acquiring and releasing the lock. */
  lemma MutualExclusion(states: seq<Memory>, steps: seq<Step>, k: nat, p: nat, q: nat)
    requires IsRun(states, steps) && k < |states|
    requires p < |states[k].procs| && q < |states[k].procs|
    requires InCritical(states[k].procs[p]) && InCritical(states[k].procs[q])
    ensures p == q && states[k].lock != 0
  {
    RunInv(states, steps, k);
  }

  /** A snapshot is never torn: with version v it is the fold of the first v accepted writes, all fields alike. */
  lemma SnapshotIsPrefixFold(states: seq<Memory>, steps: seq<Step>, k: nat, r: nat)
    requires IsRun(states, steps) && k < |states| && r < |states[k].snapshots|
    ensures WellFormed(states[k]) && AcceptedInTurn(states[k].kind, states[k].start, states[k].history)
    ensures var m, cells := states[k], states[k].snapshots[r].cells;
            var v := Version(m.kind, cells);
            0 <= v <= |m.history| && cells == Stored(m.kind, m.start, m.history[..v])
  {
    RunInv(states, steps, k);
    RunAccepted(states, steps, k);
    assert IsPrefixFold(states[k], states[k].snapshots[r].cells);
  }

  /** A read takes effect at one instant: it returns the fold of everything accepted up to its last step. */
  lemma ReadsAreAtomic(states: seq<Memory>, steps: seq<Step>, k: nat)
    requires IsRun(states, steps) && k < |steps| && steps[k].FinishRead?
    ensures |states[k + 1].snapshots| == |states[k].snapshots| + 1 && WellFormed(states[k])
    ensures var m, cells := states[k], states[k + 1].snapshots[|states[k].snapshots|].cells;
            cells == Stored(m.kind, m.start, m.history) && Version(m.kind, cells) == |m.history|
  {
    RunInv(states, steps, k);
    var m := states[k];
    assert LocalView(m, m.procs[steps[k].p]);
    assert states[k + 1].snapshots[|m.snapshots|].cells == m.cells;
  }

  // A writer at work lowers nothing, and an id read without the lock is not ahead of the slot.
  predicate RisingAt(m: Memory, proc: Process) {
    && (proc.Writing? ==> Raises(m.kind, m.cells, proc.w))
    && (proc.Peeking? ==> proc.id <= UpdateId(m.kind, m.cells))
  }

  predicate Rising(m: Memory) {
    forall p :: 0 <= p < |m.procs| ==> RisingAt(m, m.procs[p])
  }

  // The re-check of a write that would lower the id or the time turns it away.
  predicate RaisesOnly(m: Memory, step: Step) {
    step.ReCheck? && step.p < |m.procs| && m.procs[step.p].Locked? && Accepts(m.kind, m.cells, m.procs[step.p].w) ==>
      Raises(m.kind, m.cells, m.procs[step.p].w)
  }

  lemma AssignRaises(m: Memory, step: Step)
    requires WellFormed(m) && Enabled(m, step) && step.Assign? && RisingAt(m, m.procs[step.p])
    ensures Raises(m.kind, m.cells, Do(m, step).cells) && Raises(m.kind, Do(m, step).cells, m.procs[step.p].w)
  {}

  lemma StepRaises(m: Memory, step: Step)
    requires Inv(m) && Rising(m) && Enabled(m, step) && RaisesOnly(m, step)
    ensures Raises(m.kind, m.cells, Do(m, step).cells) && RisingAt(Do(m, step), Do(m, step).procs[step.p])
  {
    assert RisingAt(m, m.procs[step.p]);
    if step.Assign? {
      AssignRaises(m, step);
    }
  }

  lemma StepKeepsRising(m: Memory, step: Step)
    requires Inv(m) && Rising(m) && Enabled(m, step) && RaisesOnly(m, step)
    ensures Rising(Do(m, step))
  {
    StepRaises(m, step);
    var n := Do(m, step);
    forall p | 0 <= p < |n.procs| ensures RisingAt(n, n.procs[p]) {
      if p != step.p {
        assert n.procs[p] == m.procs[p] && RisingAt(m, m.procs[p]);
        if m.procs[p].Writing? {
          assert InCritical(m.procs[p]) && !InCritical(m.procs[step.p]);
        }
      }
    }
  }

  predicate RaisingRun(states: seq<Memory>, steps: seq<Step>, k: nat) {
    forall n :: 0 <= n < k && n < |steps| && n < |states| ==> RaisesOnly(states[n], steps[n])
  }

  lemma {:induction false} RunRising(states: seq<Memory>, steps: seq<Step>, k: nat)
    requires IsRun(states, steps) && k < |states| && RaisingRun(states, steps, k)
    ensures Rising(states[k])
  {
    if k > 0 {
      RunRising(states, steps, k - 1);
      RunInv(states, steps, k - 1);
      StepKeepsRising(states[k - 1], steps[k - 1]);
    }
  }

  lemma RunRaises(states: seq<Memory>, steps: seq<Step>, k: nat)
    requires IsRun(states, steps) && k < |steps| && RaisingRun(states, steps, k + 1)
    ensures Raises(states[0].kind, states[k].cells, states[k + 1].cells)
  {
    RunInv(states, steps, k);
    RunRising(states, steps, k);
    StepRaises(states[k], steps[k]);
  }

  lemma {:induction false} NonDecreasing(values: seq<int>, j: nat, k: nat)
    requires forall i :: 0 < i < |values| ==> values[i - 1] <= values[i]
    requires j <= k < |values|
    ensures values[j] <= values[k]
  {
    if j < k { NonDecreasing(values, j, k - 1); }
  }

  /** If no accepted write lowers the stored id or time, neither ever goes back, not even in the middle of a write. */
  lemma NeverGoesBack(states: seq<Memory>, steps: seq<Step>, j: nat, k: nat)
    requires IsRun(states, steps) && j <= k < |states| && RaisingRun(states, steps, k)
    ensures Raises(states[0].kind, states[j].cells, states[k].cells)
  {
    var kind := states[0].kind;
    var times := seq(k + 1, i requires 0 <= i <= k => Time(kind, states[i].cells));
    var ids := seq(k + 1, i requires 0 <= i <= k => UpdateId(kind, states[i].cells));
    forall i | 0 < i <= k ensures times[i - 1] <= times[i] && ids[i - 1] <= ids[i] {
      RunRaises(states, steps, i - 1);
    }
    NonDecreasing(times, j, k);
    NonDecreasing(ids, j, k);
  }

  lemma {:induction false} NonTickerRaises(states: seq<Memory>, steps: seq<Step>, k: nat)
    requires IsRun(states, steps) && k < |states| && !states[0].kind.Ticker?
    ensures RaisingRun(states, steps, k)
  {
    forall n | 0 <= n < k ensures RaisesOnly(states[n], steps[n]) {
      RunInv(states, steps, n);
      if steps[n].ReCheck? && Accepts(states[n].kind, states[n].cells, states[n].procs[steps[n].p].w) {
        AcceptedRaises(states[n].kind, states[n].cells, states[n].procs[steps[n].p].w);
      }
    }
  }

  /** Outside the ticker slots that is always so. */
  lemma TimeNeverDecreases(states: seq<Memory>, steps: seq<Step>, j: nat, k: nat)
    requires IsRun(states, steps) && j <= k < |states| && !states[0].kind.Ticker?
    ensures Time(states[0].kind, states[j].cells) <= Time(states[0].kind, states[k].cells)
  {
    NonTickerRaises(states, steps, k);
    NeverGoesBack(states, steps, j, k);
  }

  /** In a slot of any kind whose accepted writes lower neither id nor time, the unlocked pre-check loses nothing: once
      it turns a write away, on an id and a time read at different moments, the locked check would turn it away at
      every later point of the run. */
  lemma RejectionStays(states: seq<Memory>, steps: seq<Step>, j: nat, k: nat)
    requires IsRun(states, steps) && j < k < |states| && RaisingRun(states, steps, k)
    requires steps[j].PreCheck? && states[j + 1].procs[steps[j].p].Idle?
    ensures !Accepts(states[k].kind, states[k].cells, states[j].procs[steps[j].p].w)
  {
    RunInv(states, steps, j);
    RunInv(states, steps, k);
    RunRising(states, steps, j);
    NeverGoesBack(states, steps, j, k);
    assert RisingAt(states[j], states[j].procs[steps[j].p]);
  }

  /** For order and threshold slots the unlocked pre-check therefore refines the always-locked writer. */
  lemma PreCheckRefines(states: seq<Memory>, steps: seq<Step>, j: nat, k: nat)
    requires IsRun(states, steps) && j < k < |states| && !states[0].kind.Ticker?
    requires steps[j].PreCheck? && states[j + 1].procs[steps[j].p].Idle?
    ensures !Accepts(states[k].kind, states[k].cells, states[j].procs[steps[j].p].w)
  {
    NonTickerRaises(states, steps, k);
    RejectionStays(states, steps, j, k);
  }

  // ----- ticker slots: a write that lowers id or time can make the pre-check lose another

  function TickerWrite(id: int, time: int): Cells {
    [Text(""), Num(0.0), Num(0.0), Num(0.0), Num(0.0), Long(id), Long(time), Long(0)]
  }

  predicate Next(m: Memory, step: Step, n: Memory) {
    Enabled(m, step) && n == Do(m, step)
  }

  lemma PathIsRun(states: seq<Memory>, steps: seq<Step>)
    requires IsPath(Next, states, steps) && Init(states[0])
    ensures IsRun(states, steps)
  {
    forall k | 0 <= k < |steps|
      ensures Enabled(states[k], steps[k]) && states[k + 1] == Do(states[k], steps[k])
    {
      assert Next(states[k], steps[k], states[k + 1]);
    }
  }

  lemma UndisturbedEntry(m: Memory, p: nat, w: Cells) returns (states: seq<Memory>, steps: seq<Step>)
    requires Fits(m.kind, m.cells) && Fits(m.kind, w) && p < |m.procs| && m.procs[p].Idle? && m.lock == 0
    requires Accepts(m.kind, m.cells, w)
    ensures IsPath(Next, states, steps) && |steps| == 4 && states[0] == m
    ensures states[4] == m.(procs := m.procs[p := Writing(w, 0)], lock := 1)
  {
    steps := [Begin(p, w), PreCheck(p), TryLock(p), ReCheck(p)];
    var m1 := m.(procs := m.procs[p := Peeking(w, UpdateId(m.kind, m.cells))]);
    var m2 := m.(procs := m.procs[p := SpinWrite(w)]);
    var m3 := m.(procs := m.procs[p := Locked(w)], lock := 1);
    var m4 := m.(procs := m.procs[p := Writing(w, 0)], lock := 1);
    assert m1 == Do(m, steps[0]) && m2 == Do(m1, steps[1]);
    assert m3 == Do(m2, steps[2]) && m4 == Do(m3, steps[3]);
    states := [m, m1, m2, m3, m4];
  }

  // The assignments a writer still has to make.
  lemma {:induction false} UndisturbedCopy(m: Memory, p: nat, w: Cells, base: Cells, done: nat)
    returns (states: seq<Memory>, steps: seq<Step>)
    requires Fits(m.kind, base) && Fits(m.kind, w) && p < |m.procs| && m.procs[p] == Writing(w, done)
    requires done <= |Plan(m.kind, w)| && m.cells == Copied(m.kind, base, w, done)
    ensures var n := |Plan(m.kind, w)|;
            && IsPath(Next, states, steps) && |steps| == n - done && states[0] == m
            && states[n - done] == m.(cells := Copied(m.kind, base, w, n), procs := m.procs[p := Writing(w, n)])
    decreases |Plan(m.kind, w)| - done
  {
    if done == |Plan(m.kind, w)| {
      states, steps := [m], [];
    } else {
      var next := AssignTo(m, p, w, done, Plan(m.kind, w)[done]);
      var rest, restSteps := UndisturbedCopy(next, p, w, base, done + 1);
      PathsJoin(Next, [m, next], [Assign(p)], rest, restSteps);
      states, steps := [m, next] + rest[1..], [Assign(p)] + restSteps;
    }
  }

  lemma UndisturbedExit(m: Memory, p: nat, w: Cells) returns (states: seq<Memory>, steps: seq<Step>)
    requires Fits(m.kind, m.cells) && Fits(m.kind, w) && p < |m.procs| && m.procs[p] == Writing(w, |Plan(m.kind, w)|)
    ensures IsPath(Next, states, steps) && |steps| == 2 && states[0] == m
    ensures states[2] ==
            m.(cells := Bumped(m.kind, m.cells), procs := m.procs[p := Idle], lock := 0, history := m.history + [w])
  {
    var m1 := Do(m, BumpVersion(p));
    var m2 := Do(m1, Unlock(p));
    states, steps := [m, m1, m2], [BumpVersion(p), Unlock(p)];
    assert m2.procs == m.procs[p := Idle];
  }

  lemma AssignTo(m: Memory, p: nat, w: Cells, done: nat, i: nat) returns (n: Memory)
    requires Fits(m.kind, m.cells) && Fits(m.kind, w) && p < |m.procs| && m.procs[p] == Writing(w, done)
    requires done < |Plan(m.kind, w)| && Plan(m.kind, w)[done] == i
    ensures Enabled(m, Assign(p)) && n == Do(m, Assign(p))
    ensures n == m.(cells := m.cells[i := w[i]], procs := m.procs[p := Writing(w, done + 1)])
  {
    n := Do(m, Assign(p));
  }

  /** An undisturbed writer takes an acceptable write through and frees the slot. */
  lemma UndisturbedWrite(m: Memory, p: nat, w: Cells) returns (states: seq<Memory>, steps: seq<Step>)
    requires Fits(m.kind, m.cells) && Fits(m.kind, w) && p < |m.procs| && m.procs[p].Idle? && m.lock == 0
    requires Accepts(m.kind, m.cells, w)
    ensures IsPath(Next, states, steps) && states[0] == m
    ensures states[|steps|] == m.(cells := Written(m.kind, m.cells, w), history := m.history + [w])
  {
    var n := |Plan(m.kind, w)|;
    var entry, entrySteps := UndisturbedEntry(m, p, w);
    assert m.cells == Copied(m.kind, m.cells, w, 0);
    var copy, copySteps := UndisturbedCopy(entry[4], p, w, m.cells, 0);
    var exit, exitSteps := UndisturbedExit(copy[n], p, w);
    PathsJoin(Next, entry, entrySteps, copy, copySteps);
    states, steps := entry + copy[1..], entrySteps + copySteps;
    assert states[|steps|] == copy[n];
    PathsJoin(Next, states, steps, exit, exitSteps);
    states, steps := states + exit[1..], steps + exitSteps;
    assert states[|steps|] == exit[2];
    assert exit[2].procs == m.procs;
  }

  lemma TurnedAway(m: Memory, p: nat, id: int, time: int) returns (states: seq<Memory>, steps: seq<Step>)
    requires m.kind == Ticker && Fits(Ticker, m.cells) && p < |m.procs| && m.procs[p].Idle?
    requires UpdateId(Ticker, m.cells) == id && Time(Ticker, m.cells) == time
    ensures IsPath(Next, states, steps) && steps == [Begin(p, TickerWrite(id, time)), PreCheck(p)]
    ensures states == [m, m.(procs := m.procs[p := Peeking(TickerWrite(id, time), id)]), m]
  {
    var w := TickerWrite(id, time);
    steps := [Begin(p, w), PreCheck(p)];
    var m1 := m.(procs := m.procs[p := Peeking(w, id)]);
    assert Enabled(m, steps[0]) && m1 == Do(m, steps[0]);
    assert m1.procs[p := Idle] == m.procs;
    states := [m, m1, m];
  }

  /** And only then: from any free ticker slot, an acceptable write that lowers the id or the time has a continuation in
      which a ticker is turned away just before it and would be accepted just after it. */
  lemma LoweringLosesWrite(m: Memory, p: nat, q: nat, w: Cells)
    returns (states: seq<Memory>, steps: seq<Step>, v: Cells)
    requires m.kind == Ticker && Fits(Ticker, m.cells) && Fits(Ticker, w) && m.lock == 0
    requires p < |m.procs| && q < |m.procs| && m.procs[p].Idle? && m.procs[q].Idle?
    requires Accepts(Ticker, m.cells, w) && !Raises(Ticker, m.cells, w)
    ensures IsPath(Next, states, steps) && |steps| > 2 && states[0] == m
    ensures steps[0] == Begin(q, v) && steps[1] == PreCheck(q) && states[2] == m
    ensures states[|steps|].lock == 0 && Accepts(Ticker, states[|steps|].cells, v)
  {
    v := TickerWrite(UpdateId(Ticker, m.cells), Time(Ticker, m.cells));
    var path, turned := TurnedAway(m, q, UpdateId(Ticker, m.cells), Time(Ticker, m.cells));
    var more, moreSteps := UndisturbedWrite(m, p, w);
    assert moreSteps != [] by { assert more[|moreSteps|].history != more[0].history; }
    PathsJoin(Next, path, turned, more, moreSteps);
    states, steps := path + more[1..], turned + moreSteps;
    assert states[|steps|] == more[|moreSteps|];
    TickerWritten(m.cells, w);
  }

  /** It happens: with two writers, a ticker (5, 5) already stored once more turned away, then (6, 1) accepted. */
  lemma TickerPreCheckLosesWrite() returns (states: seq<Memory>, steps: seq<Step>, j: nat, v: Cells)
    ensures IsRun(states, steps) && states[0].kind == Ticker && j + 1 < |steps|
    ensures steps[j] == Begin(0, v) && steps[j + 1] == PreCheck(0)
    ensures |states[j + 2].procs| == 2 && states[j + 2].procs[0].Idle?
    ensures states[|steps|].lock == 0 && Accepts(Ticker, states[|steps|].cells, v)
  {
    states, steps := OneTickerStored();
    j := |steps|;
    var more, moreSteps;
    more, moreSteps, v := LoweringLosesWrite(states[j], 1, 0, TickerWrite(6, 1));
    PathsJoin(Next, states, steps, more, moreSteps);
    states, steps := states + more[1..], steps + moreSteps;
    PathIsRun(states, steps);
    assert steps[j] == moreSteps[0] && steps[j + 1] == moreSteps[1] && states[j + 2] == more[2];
    assert states[|steps|] == more[|moreSteps|];
  }

  lemma OneTickerStored() returns (states: seq<Memory>, steps: seq<Step>)
    ensures IsPath(Next, states, steps) && Init(states[0]) && states[0].kind == Ticker
    ensures var m := states[|steps|];
            && m.kind == Ticker && Fits(Ticker, m.cells) && m.lock == 0 && m.procs == [Idle, Idle]
            && UpdateId(Ticker, m.cells) == 5 && Time(Ticker, m.cells) == 5
  {
    var start := TickerWrite(0, 0);
    var m := Memory(Ticker, start, start, 0, [Idle, Idle], [], []);
    states, steps := UndisturbedWrite(m, 1, TickerWrite(5, 5));
    TickerWritten(start, TickerWrite(5, 5));
  }
}
