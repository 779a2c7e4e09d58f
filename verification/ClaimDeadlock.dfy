/** Who waits for whom: rollbacks alone never deadlock, rollbacks and writers can, and exactly when. */
module ClaimDeadlock {
  import opened Outcomes
  import opened Ordered
  import opened ClaimRollback
  import opened ClaimRuns

  // ---------------------------------------------------------------- waiting

  /** Started and not ended. */
  predicate Unfinished(s: System, tid: Tid) {
    tid in s.txns && match s.txns[tid]
                     case Rollback(phase) => !phase.Committed? && !phase.Aborted?
                     case Writer(_, _, _, open) => open
  }

  /** What the next statement of `tid` has to lock. */
  function Wants(s: System, tid: Tid): set<Resource> {
    if tid !in s.txns then {}
    else match s.txns[tid]
      case Rollback(Locking(seen, k)) => if k < TABLE_COUNT && NameAt(k) in seen then {Of(NameAt(k))} else {}
      case Rollback(Dropping(_, k, _)) =>
        if k < TABLE_COUNT && NameAt(k) in s.tables
        then {Of(NameAt(k))} + if Refers(NameAt(k)) then {Companies} else {}
        else {}
      case Rollback(_) => {}
      case Writer(program, at, _, open) => if open && at < |program| then {Touched(program[at])} else {}
  }

  /** `holder` has a lock that `tid` needs; a writer needs only that nobody has it exclusively. */
  predicate WaitsFor(s: System, tid: Tid, holder: Tid) {
    && tid in s.txns && holder != tid
    && exists l | l in s.locks :: l.owner == holder && l.on in Wants(s, tid) && (s.txns[tid].Rollback? || l.exclusive)
  }

  /** A transaction that has not ended cannot execute its next statement exactly when it waits for somebody. */
  lemma StuckIffWaiting(s: System, tid: Tid)
    requires Unfinished(s, tid)
    ensures Next(s, Advance(tid)).None? <==> exists holder :: WaitsFor(s, tid, holder)
  {
    if holder :| WaitsFor(s, tid, holder) {
      var l :| l in s.locks && l.owner == holder && l.on in Wants(s, tid) && (s.txns[tid].Rollback? || l.exclusive);
      assert Blocked(s, tid, l.on, s.txns[tid].Rollback?);
    }
    if Next(s, Advance(tid)).None? {
      var l :| l in s.locks && l.on in Wants(s, tid) && l.owner != tid && (s.txns[tid].Rollback? || l.exclusive);
      assert WaitsFor(s, tid, l.owner);
    }
  }

  /** Any transaction can fail until it has ended; it then changes no table and nobody else, and holds no lock. */
  lemma FailIff(s: System, tid: Tid)
    ensures Next(s, Fail(tid)).Some? <==> Unfinished(s, tid)
    ensures match Next(s, Fail(tid))
      case None => true
      case Some(s') =>
        && s'.tables == s.tables && HoldsNothing(s', tid) && s'.txns.Keys == s.txns.Keys && !Unfinished(s', tid)
        && (forall u | u in s.txns && u != tid :: s'.txns[u] == s.txns[u])
        && forall l: Lock | l.owner != tid :: l in s'.locks <==> l in s.locks
  {
  }

  lemma HolderIsUnfinished(s: System, l: Lock)
    requires Inv(s) && l in s.locks
    ensures Unfinished(s, l.owner) && (l.exclusive ==> s.txns[l.owner].Rollback?)
  {
    assert TxnInv(s, l.owner, s.txns[l.owner]);
  }

  predicate WaitsWithin(s: System, w: set<Tid>, t: Tid) {
    exists u | u in w :: WaitsFor(s, t, u)
  }

  /** Every one of these transactions waits for one of them. */
  predicate Deadlock(s: System, w: set<Tid>) {
    w != {} && forall t | t in w :: WaitsWithin(s, w, t)
  }

  // ---------------------------------------------------------------- rollbacks among themselves

  /** How far along the common order a transaction has come in taking its locks; a writer is behind every rollback. */
  function Position(s: System, tid: Tid): nat {
    if !RollbackPhase(s, tid) then 0
    else match s.txns[tid].phase
      case Locking(_, k) => 1 + k
      case Counting(_, _, _) => 1 + TABLE_COUNT
      case Dropping(_, _, _) => 1 + TABLE_COUNT
      case _ => 1
  }

  /** Two rollbacks that hold their tables hold no table in common. */
  lemma DroppingTogether(s: System, r: Tid, holder: Tid)
    requires Inv(s) && RollbackPhase(s, r) && RollbackPhase(s, holder) && r != holder
    requires s.txns[r].phase.Dropping? && (s.txns[holder].phase.Dropping? || s.txns[holder].phase.Counting?)
    ensures s.tables == map[]
  {
    assert TxnInv(s, r, s.txns[r]) && TxnInv(s, holder, s.txns[holder]);
    forall t
      ensures t !in s.tables
    {
      assert t in s.tables ==> Holds(s, r, Of(t), true) && Holds(s, holder, Of(t), true);
    }
  }

  /** A rollback that waits for another rollback is behind it. */
  lemma WaitingGoesForward(s: System, tid: Tid, holder: Tid)
    requires Inv(s) && WaitsFor(s, tid, holder) && RollbackPhase(s, tid) && RollbackPhase(s, holder)
    ensures Position(s, tid) < Position(s, holder)
  {
    var l :| l in s.locks && l.owner == holder && l.on in Wants(s, tid);
    assert TxnInv(s, holder, s.txns[holder]) && TxnInv(s, tid, s.txns[tid]);
    if s.txns[tid].phase.Dropping? {
      if s.txns[holder].phase.Dropping? || s.txns[holder].phase.Counting? {
        DroppingTogether(s, tid, holder);
        assert false;
      }
      LockingHolder(s, tid, holder, l);
    }
  }

  lemma LockingHolder(s: System, tid: Tid, holder: Tid, l: Lock)
    requires Inv(s) && RollbackPhase(s, tid) && RollbackPhase(s, holder) && holder != tid
    requires s.txns[tid].phase.Dropping? && s.txns[holder].phase.Locking?
    ensures !(l in s.locks && l.owner == holder && l.on in Wants(s, tid))
  {
    assert TxnInv(s, holder, s.txns[holder]) && TxnInv(s, tid, s.txns[tid]);
    assert forall t | t in s.tables :: Holds(s, tid, Of(t), true);
  }

  lemma {:induction false} Furthest(s: System, w: set<Tid>) returns (far: Tid)
    requires w != {}
    ensures far in w && forall t | t in w :: Position(s, t) <= Position(s, far)
    decreases |w|
  {
    hide Position;
    far := SomeMember(w);
    var rest := w - {far};
    assert forall t | t in w :: t == far || t in rest;
    if rest != {} {
      var other := Furthest(s, rest);
      if Position(s, far) < Position(s, other) {
        far := other;
      }
    }
  }

  /** No set of rollbacks, of any size, is deadlocked. */
  lemma RollbacksNeverDeadlock(s: System, w: set<Tid>)
    requires Inv(s) && forall t | t in w :: RollbackPhase(s, t)
    ensures !Deadlock(s, w)
  {
    hide Inv, WaitsFor, Position;
    if Deadlock(s, w) {
      var far := Furthest(s, w);
      var u :| u in w && WaitsFor(s, far, u);
      WaitingGoesForward(s, far, u);
      assert false;
    }
  }

  /** Of any set of rollbacks that have not ended, one can execute its next statement or waits for somebody outside the
      set. */
  lemma RollbacksMakeProgress(s: System, w: set<Tid>)
    requires Inv(s) && w != {} && forall t | t in w :: RollbackPhase(s, t) && Unfinished(s, t)
    ensures exists t | t in w :: Next(s, Advance(t)).Some? || exists holder | holder !in w :: WaitsFor(s, t, holder)
  {
    hide Inv, WaitsFor, Next;
    RollbacksNeverDeadlock(s, w);
    var t :| t in w && !WaitsWithin(s, w, t);
    StuckIffWaiting(s, t);
    if Next(s, Advance(t)).None? {
      var holder :| WaitsFor(s, t, holder);
      assert holder !in w;
    }
  }

  // ---------------------------------------------------------------- stuck systems and deadlocks

  /** While a transaction has not ended, some transaction can go on or there is a deadlock. */
  lemma StuckIsDeadlock(s: System, tid: Tid)
    requires Inv(s) && Unfinished(s, tid)
    ensures (exists u :: Next(s, Advance(u)).Some?) || exists w :: Deadlock(s, w)
  {
    hide Inv, Next, WaitsFor;
    if forall u :: Next(s, Advance(u)).None? {
      var w := set t | t in s.txns && Unfinished(s, t);
      assert tid in w;
      forall t | t in w
        ensures WaitsWithin(s, w, t)
      {
        StuckIffWaiting(s, t);
        var holder :| WaitsFor(s, t, holder);
        HolderWaitedFor(s, t, holder);
      }
      assert Deadlock(s, w);
    }
  }

  lemma HolderWaitedFor(s: System, t: Tid, holder: Tid)
    requires Inv(s) && WaitsFor(s, t, holder)
    ensures Unfinished(s, holder) && (WriterAt(s, t) ==> RollbackPhase(s, holder)) && Unfinished(s, t)
  {
    hide Inv;
    var l :| l in s.locks && l.owner == holder && l.on in Wants(s, t) && (s.txns[t].Rollback? || l.exclusive);
    HolderIsUnfinished(s, l);
  }

  lemma DropUndisturbed(s: System, tid: Tid, u: Tid)
    requires Inv(s) && RollbackPhase(s, tid) && s.txns[tid].phase.Dropping? && u in s.txns && u != tid
    ensures forall t | t in s.tables :: !Holds(s, u, Of(t), true) && !Holds(s, u, Of(t), false)
  {
    assert TxnInv(s, tid, s.txns[tid]);
    assert forall t | t in s.tables :: Holds(s, tid, Of(t), true);
  }

  lemma CommitUndisturbed(s: System, tid: Tid, u: Tid, t: Table)
    requires Inv(s) && WriterAt(s, tid) && s.txns[tid].open && t in s.txns[tid].pending && u != tid
    ensures !Holds(s, u, Of(t), true)
  {
    assert TxnInv(s, tid, s.txns[tid]);
    assert Holds(s, tid, Of(t), false);
  }

  /** Others leave the state of `u`, its locks, and what it relies on alone. */
  lemma StepUndisturbed(s: System, step: Step, u: Tid)
    requires Inv(s) && Next(s, step).Some? && u in s.txns && u != step.tid
    ensures var s' := Next(s, step).value; Undisturbed(s, s', u) && u in s'.txns && s'.txns[u] == s.txns[u]
  {
    hide Inv, Blocked, NameAt, Touched, Executed;
    if RollbackPhase(s, step.tid) {
      if s.txns[step.tid].phase.Dropping? { DropUndisturbed(s, step.tid, u); }
    } else if s.txns[step.tid].open {
      forall t | t in s.txns[step.tid].pending
        ensures !Holds(s, u, Of(t), true)
      {
        CommitUndisturbed(s, step.tid, u, t);
      }
    }
  }

  lemma WaitingLasts(s: System, step: Step, t: Tid, u: Tid)
    requires Inv(s) && Next(s, step).Some? && WaitsFor(s, t, u) && t != step.tid && u != step.tid
    ensures WaitsFor(Next(s, step).value, t, u)
  {
    HolderWaitedFor(s, t, u);
    StepUndisturbed(s, step, t);
    StepUndisturbed(s, step, u);
    var s' := Next(s, step).value;
    var l :| l in s.locks && l.owner == u && l.on in Wants(s, t) && (s.txns[t].Rollback? || l.exclusive);
    assert TxnInv(s, t, s.txns[t]);
    hide Next, Inv;
    assert Wants(s', t) == Wants(s, t);
    assert l in s'.locks;
  }

  lemma DeadlockStands(s: System, w: set<Tid>, t: Tid)
    requires Inv(s) && Deadlock(s, w) && t in w
    ensures Next(s, Advance(t)).None?
  {
    hide Inv, Next, WaitsFor;
    var u :| u in w && WaitsFor(s, t, u);
    HolderWaitedFor(s, t, u);
    StuckIffWaiting(s, t);
  }

  lemma DeadlockStep(s: System, w: set<Tid>, step: Step)
    requires Inv(s) && Deadlock(s, w) && Next(s, step).Some? && (step.Fail? ==> step.tid !in w)
    ensures Deadlock(Next(s, step).value, w)
  {
    hide Inv, Next, WaitsFor;
    if step.Advance? && step.tid in w { DeadlockStands(s, w, step.tid); }
    forall t | t in w
      ensures WaitsWithin(Next(s, step).value, w, t)
    {
      var u :| u in w && WaitsFor(s, t, u);
      WaitingLasts(s, step, t, u);
    }
  }

  /** Nobody but its members can end a deadlock, and they only by failing: none of them can go on. */
  lemma {:induction false} DeadlockLasts(s: System, w: set<Tid>, steps: seq<Step>)
    requires Inv(s) && Deadlock(s, w) && Run(s, steps).Some?
    requires forall i | 0 <= i < |steps| && steps[i].Fail? :: steps[i].tid !in w
    ensures Deadlock(Run(s, steps).value, w)
    ensures forall t | t in w :: Next(Run(s, steps).value, Advance(t)).None?
    decreases |steps|
  {
    hide Inv, Next, Deadlock;
    forall t | t in w
      ensures Next(s, Advance(t)).None?
    {
      DeadlockStands(s, w, t);
    }
    if |steps| > 0 {
      DeadlockStep(s, w, steps[0]);
      NextKeepsInv(s, steps[0]);
      DeadlockLasts(Next(s, steps[0]).value, w, steps[1..]);
    }
  }

  // ---------------------------------------------------------------- which writers can deadlock

  /**
   * Statement `j` goes back before all locks taken so far. If these are on `companies` alone, the rollback has to get
   * as far as its DROP statements to meet them.
   */
  predicate GoesBack(program: seq<Statement>, tables: Catalogue, j: nat) {
    && 0 < j < |program|
    && (forall i | 0 <= i <= j :: Exists(tables, Touched(program[i])))
    && (forall i | 0 <= i < j :: Place(Touched(program[j])) < Place(Touched(program[i])))
    && ((exists i | 0 <= i < j :: Touched(program[i]).Of?) || (AllEmpty(tables) && exists t | t in tables :: Refers(t)))
  }

  predicate Inverted(program: seq<Statement>, tables: Catalogue) {
    exists j | 0 < j < |program| :: GoesBack(program, tables, j)
  }

  ghost predicate Reaches(s0: System, steps: seq<Step>, w: set<Tid>) {
    Run(s0, steps).Some? && Deadlock(Run(s0, steps).value, w)
  }

  ghost predicate CanDeadlock(s0: System) {
    exists steps, w :: Reaches(s0, steps, w)
  }

  /** Nobody changes kind or program, and no table appears. */
  predicate SameCast(s0: System, s: System) {
    && s.txns.Keys == s0.txns.Keys && s.tables.Keys <= s0.tables.Keys
    && forall t | t in s0.txns ::
         s.txns[t].Rollback? == s0.txns[t].Rollback? && (s0.txns[t].Writer? ==> s.txns[t].program == s0.txns[t].program)
  }

  lemma StepKeepsCast(s: System, step: Step)
    requires Next(s, step).Some?
    ensures SameCast(s, Next(s, step).value)
  {
    hide Blocked, NameAt, Touched;
  }

  lemma {:induction false} RunKeepsCast(s: System, steps: seq<Step>)
    requires Run(s, steps).Some?
    ensures SameCast(s, Run(s, steps).value)
    decreases |steps|
  {
    if |steps| > 0 {
      hide Next;
      StepKeepsCast(s, steps[0]);
      RunKeepsCast(Next(s, steps[0]).value, steps[1..]);
    }
  }

  /** A writer that has locks and waits for a rollback that waits itself goes back before all of them. */
  lemma WriterGoesBack(s: System, u: Tid, r: Tid, i: nat)
    requires Inv(s) && WriterAt(s, u) && RollbackPhase(s, r) && WaitsFor(s, u, r) && Wants(s, r) != {}
    requires var w := s.txns[u]; 0 < w.at && i < w.at <= |w.program|
    ensures var w := s.txns[u];
            && w.at < |w.program| && Exists(s.tables, Touched(w.program[w.at]))
            && Exists(s.tables, Touched(w.program[i])) && Place(Touched(w.program[w.at])) < Place(Touched(w.program[i]))
  {
    var w := s.txns[u];
    var l :| l in s.locks && l.owner == r && l.on in Wants(s, u) && l.exclusive;
    assert TxnInv(s, u, w) && TxnInv(s, r, s.txns[r]);
    assert Holds(s, u, Touched(w.program[i]), false);
    var a := Touched(w.program[i]);
    RollbackHoldsPrefix(s, r, l.on, Lock(u, a, false));
  }

  /** A waiting rollback has everything up to some place, and everything else that somebody holds lies behind it. */
  lemma RollbackHoldsPrefix(s: System, r: Tid, b: Resource, other: Lock)
    requires Inv(s) && RollbackPhase(s, r) && Wants(s, r) != {} && Holds(s, r, b, true)
    requires other in s.locks && other.owner != r && Exists(s.tables, other.on)
    ensures Place(b) < Place(other.on) && Exists(s.tables, b)
  {
    var phase := s.txns[r].phase;
    assert TxnInv(s, r, s.txns[r]);
    assert b != other.on;
    match phase {
      case Locking(seen, k) =>
        assert forall t | t in seen && Rank(t) < k :: Holds(s, r, Of(t), true);
      case Dropping(seen, k, counts) =>
        assert forall t | t in seen :: Holds(s, r, Of(t), true);
      case _ =>
    }
  }

  /** Its first `n` statements: the locks of a writer that nobody hinders. */
  lemma {:induction false} WriterRunsOn(s: System, u: Tid, n: nat) returns (s': System)
    requires Initial(s) && WriterAt(s, u) && n <= |s.txns[u].program|
    requires forall i | 0 <= i < n :: Exists(s.tables, Touched(s.txns[u].program[i]))
    ensures Run(s, Solo(u, n)) == Some(s') && OnlyMoved(s, s', u) && Inv(s')
    ensures WriterAt(s', u) && s'.txns[u].open && s'.txns[u].at == n && s'.txns[u].program == s.txns[u].program
    decreases n
  {
    InitialInv(s);
    if n == 0 {
      s' := s;
    } else {
      var s1 := WriterRunsOn(s, u, n - 1);
      s' := Next(s1, Advance(u)).value;
      NextKeepsInv(s1, Advance(u));
      SoloStep(s1, u);
      SoloThen(s, u, n - 1, 1);
    }
  }

  /** The first of the places touched so far. */
  lemma {:induction false} FirstPlace(program: seq<Statement>, n: nat) returns (i: nat)
    requires 0 < n <= |program|
    ensures i < n && forall k | 0 <= k < n :: Place(Touched(program[i])) <= Place(Touched(program[k]))
    decreases n
  {
    if n == 1 {
      i := 0;
    } else {
      i := FirstPlace(program, n - 1);
      if Place(Touched(program[n - 1])) < Place(Touched(program[i])) { i := n - 1; }
    }
  }

  /** A rollback that holds what the writer wants, and wants what the writer holds. */
  lemma Embrace(s: System, r: Tid, u: Tid, a: Resource)
    requires RollbackPhase(s, r) && WriterAt(s, u) && a in Wants(s, r) && Holds(s, u, a, false)
    requires s.txns[u].open && s.txns[u].at < |s.txns[u].program| &&
        Holds(s, r, Touched(s.txns[u].program[s.txns[u].at]), true)
    ensures Deadlock(s, {r, u})
  {
    assert Lock(u, a, false) in s.locks && WaitsFor(s, r, u);
    assert Lock(r, Touched(s.txns[u].program[s.txns[u].at]), true) in s.locks && WaitsFor(s, u, r);
    assert WaitsWithin(s, {r, u}, r) && WaitsWithin(s, {r, u}, u);
  }

  /** The locks of a writer among transactions that have none are on what its statements so far touched. */
  lemma OnlyWriterLocks(s: System, s1: System, u: Tid, r: Tid, m: nat)
    requires s.locks == {} && OnlyMoved(s, s1, u) && Inv(s1) && WriterAt(s1, u) && s1.txns[u].open && r != u
    requires forall k | 0 <= k < s1.txns[u].at :: k < |s1.txns[u].program| ==>
        m <= Place(Touched(s1.txns[u].program[k]))
    ensures Clear(s1, r, m)
  {
    assert TxnInv(s1, u, s1.txns[u]);
    assert forall l | l in s1.locks && l.owner != u :: l in s.locks;
  }

  lemma StillHolds(s: System, s': System, r: Tid, u: Tid, k: nat)
    requires Inv(s) && OnlyMoved(s, s', r) && WriterAt(s, u) && s.txns[u].open && r != u &&
        k < s.txns[u].at <= |s.txns[u].program|
    ensures Holds(s', u, Touched(s.txns[u].program[k]), false) && s'.txns[u] == s.txns[u]
  {
    assert TxnInv(s, u, s.txns[u]);
  }

  /** From the start of the rollback to place `k` of its lock loop. */
  lemma LockLoopRuns(s: System, r: Tid, k: nat) returns (s': System)
    requires Inv(s) && Clear(s, r, k) && InPhase(s, r, Ready) && k <= TABLE_COUNT
    ensures Run(s, Solo(r, 1 + k)) == Some(s') && OnlyMoved(s, s', r) && InPhase(s', r, Locking(s.tables.Keys, k)) &&
        Inv(s')
  {
    hide Run, Next, Inv;
    ReadyStep(s, r);
    SoloStep(s, r);
    s' := LocksOn(Enter(s, r, Locking(s.tables.Keys, 0)), r, 0, k);
    SoloThen(s, r, 1, k);
    ReachesInv(s, s', Solo(r, 1 + k));
  }

  lemma MeetInLockLoop(s1: System, s2: System, r: Tid, u: Tid, i: nat)
    requires Inv(s1) && Inv(s2) && OnlyMoved(s1, s2, r) && WriterAt(s1, u) && r != u
    requires var w := s1.txns[u];
             && w.open && i < w.at < |w.program| && Touched(w.program[i]).Of?
             && Exists(s1.tables, Touched(w.program[i])) && Exists(s1.tables, Touched(w.program[w.at]))
             && Place(Touched(w.program[w.at])) < Place(Touched(w.program[i]))
             && InPhase(s2, r, Locking(s1.tables.Keys, Place(Touched(w.program[i]))))
    ensures Deadlock(s2, {r, u})
  {
    hide Inv, Touched, Deadlock;
    var w := s1.txns[u];
    StillHolds(s1, s2, r, u, i);
    LockingHolds(s2, r, Place(Touched(w.program[i])), Touched(w.program[w.at]));
    Embrace(s2, r, u, Touched(w.program[i]));
  }

  /** After the statements of the writer, those of the rollback. */
  lemma Together(s0: System, s1: System, s2: System, u: Tid, m: nat, r: Tid, n: nat)
    requires Run(s0, Solo(u, m)) == Some(s1) && Run(s1, Solo(r, n)) == Some(s2) && Deadlock(s2, {r, u})
    ensures CanDeadlock(s0)
  {
    hide Run, Deadlock;
    RunAppend(s0, Solo(u, m), Solo(r, n));
    assert Reaches(s0, Solo(u, m) + Solo(r, n), {r, u});
  }

  lemma ReadyStep(s: System, r: Tid)
    requires InPhase(s, r, Ready)
    ensures Next(s, Advance(r)) == Some(Enter(s, r, Locking(s.tables.Keys, 0)))
  {
  }

  lemma ReachesInv(s: System, s': System, steps: seq<Step>)
    requires Inv(s) && Run(s, steps) == Some(s')
    ensures Inv(s')
  {
    RunKeepsInv(s, steps);
  }

  lemma LockingHolds(s: System, r: Tid, k: nat, b: Resource)
    requires Inv(s) && InPhase(s, r, Locking(s.tables.Keys, k)) && b.Of? && Exists(s.tables, b) && Place(b) < k
    ensures Holds(s, r, b, true)
  {
    assert TxnInv(s, r, s.txns[r]);
  }

  lemma DroppingHolds(s: System, r: Tid, seen: set<Table>, k: nat, counts: map<Table, nat>, b: Resource)
    requires Inv(s) && InPhase(s, r, Dropping(seen, k, counts)) && b.Of? && Exists(s.tables, b)
    ensures Holds(s, r, b, true)
  {
    assert TxnInv(s, r, s.txns[r]);
  }

  /** The first existing table that references `companies`. */
  lemma FirstReferrer(tables: Catalogue) returns (t: Table)
    requires exists t | t in tables :: Refers(t)
    ensures t in tables && Refers(t) && forall v | v in tables && Rank(v) < Rank(t) :: !Refers(v)
  {
    t := if ResolvedCompanyBeliefs in tables then ResolvedCompanyBeliefs else ClassificationClaims;
  }

  /** From the start of the rollback to the first DROP that has to lock `companies`. */
  lemma DropLoopRuns(s: System, r: Tid) returns (s': System, t: Table)
    requires Inv(s) && Clear(s, r, TABLE_COUNT) && InPhase(s, r, Ready)
    requires AllEmpty(s.tables) && exists t | t in s.tables :: Refers(t)
    ensures t in s.tables && Refers(t)
    ensures Run(s, Solo(r, 15 + Rank(t))) == Some(s') && OnlyMoved(s, s', r) && Inv(s')
    ensures InPhase(s', r, Dropping(s.tables.Keys, Rank(t), CountsOf(s.tables)))
  {
    hide Run, Next, Inv, CountsOf, AllEmpty;
    t := FirstReferrer(s.tables);
    var s2 := ReachesDropping(s, r);
    s' := DropsOn(s2, r, s.tables.Keys, 0, Rank(t), CountsOf(s.tables));
    SoloThen(s, r, 15, Rank(t));
    ReachesInv(s, s', Solo(r, 15 + Rank(t)));
  }

  lemma MeetInDropLoop(s1: System, s2: System, r: Tid, u: Tid, t: Table, counts: map<Table, nat>)
    requires Inv(s1) && Inv(s2) && OnlyMoved(s1, s2, r) && WriterAt(s1, u) && r != u
    requires var w := s1.txns[u];
             && w.open && 0 < w.at < |w.program| && Touched(w.program[0]) == Companies
             && Exists(s1.tables, Touched(w.program[w.at])) && Touched(w.program[w.at]).Of?
    requires t in s1.tables && Refers(t) && InPhase(s2, r, Dropping(s1.tables.Keys, Rank(t), counts))
    ensures Deadlock(s2, {r, u})
  {
    hide Inv, Touched, Deadlock;
    var w := s1.txns[u];
    StillHolds(s1, s2, r, u, 0);
    DroppingHolds(s2, r, s1.tables.Keys, Rank(t), counts, Touched(w.program[w.at]));
    Embrace(s2, r, u, Companies);
  }

  /** A writer that goes back, and a rollback, can meet. */
  lemma InvertedCanDeadlock(s0: System, r: Tid, u: Tid)
    requires Initial(s0) && RollbackPhase(s0, r) && WriterAt(s0, u) && Inverted(s0.txns[u].program, s0.tables)
    ensures CanDeadlock(s0)
  {
    hide Touched, Inv, Run, Deadlock, CountsOf, AllEmpty;
    var program := s0.txns[u].program;
    var j :| 0 < j < |program| && GoesBack(program, s0.tables, j);
    var s1 := WriterRunsOn(s0, u, j);
    var i := FirstPlace(program, j);
    OnlyWriterLocks(s0, s1, u, r, Place(Touched(program[i])));
    if Touched(program[i]).Of? {
      var s2 := LockLoopRuns(s1, r, Place(Touched(program[i])));
      MeetInLockLoop(s1, s2, r, u, i);
      Together(s0, s1, s2, u, j, r, 1 + Place(Touched(program[i])));
    } else {
      assert forall k | 0 <= k < j :: Place(Touched(program[k])) >= TABLE_COUNT;
      var s2, t := DropLoopRuns(s1, r);
      MeetInDropLoop(s1, s2, r, u, t, CountsOf(s1.tables));
      Together(s0, s1, s2, u, j, r, 15 + Rank(t));
    }
  }

  // ---------------------------------------------------------------- the exact condition

  lemma KeptEmpty(s0: System, s: System, t: Table)
    requires RowsKept(s0, s) && t in s0.tables && (t in s.tables ==> s.tables[t] == {})
    ensures s0.tables[t] == {}
  {
  }

  /** A rollback that waits for a lock on `companies` has found every table empty. */
  lemma CompaniesMeansEmpty(s0: System, s: System, r: Tid)
    requires Inv(s) && RowsKept(s0, s) && SameCast(s0, s) && RollbackPhase(s, r) && Companies in Wants(s, r)
    ensures AllEmpty(s0.tables) && exists t | t in s0.tables :: Refers(t)
  {
    assert TxnInv(s, r, s.txns[r]);
    assert NameAt(s.txns[r].phase.next) in s0.tables && Refers(NameAt(s.txns[r].phase.next));
    forall t | t in s0.tables
      ensures s0.tables[t] == {}
    {
      KeptEmpty(s0, s, t);
    }
  }

  lemma RollbackIsFurthest(s: System, w: set<Tid>) returns (far: Tid)
    requires Inv(s) && Deadlock(s, w)
    ensures far in w && RollbackPhase(s, far) && forall t | t in w :: Position(s, t) <= Position(s, far)
  {
    hide Inv, WaitsFor, Position, RollbackPhase;
    far := Furthest(s, w);
    var x :| x in w && WaitsFor(s, far, x);
    HolderWaitedFor(s, far, x);
    StartedIsPositive(s, x);
    StartedIsPositive(s, far);
  }

  lemma NextIsWriter(s: System, w: set<Tid>, far: Tid) returns (u: Tid)
    requires Inv(s) && Deadlock(s, w)
    requires far in w && RollbackPhase(s, far) && forall t | t in w :: Position(s, t) <= Position(s, far)
    ensures u in w && WaitsFor(s, far, u) && WriterAt(s, u)
  {
    hide Inv, WaitsFor, Position;
    u :| u in w && WaitsFor(s, far, u);
    HolderWaitedFor(s, far, u);
    if RollbackPhase(s, u) { WaitingGoesForward(s, far, u); assert false; }
  }

  /** In a deadlock some writer waits for a rollback and is waited for. */
  lemma DeadlockHasWriter(s: System, w: set<Tid>) returns (far: Tid, u: Tid, r: Tid)
    requires Inv(s) && Deadlock(s, w)
    ensures RollbackPhase(s, far) && WriterAt(s, u) && RollbackPhase(s, r)
    ensures WaitsFor(s, far, u) && WaitsFor(s, u, r) && Wants(s, r) != {}
  {
    hide Inv, WaitsFor, Wants, Position, Unfinished, RollbackPhase, WriterAt;
    far := RollbackIsFurthest(s, w);
    u := NextIsWriter(s, w, far);
    r :| r in w && WaitsFor(s, u, r);
    HolderWaitedFor(s, u, r);
    var v :| v in w && WaitsFor(s, r, v);
    WaitsForSomething(s, r, v);
  }

  lemma StartedIsPositive(s: System, r: Tid)
    ensures RollbackPhase(s, r) <==> Position(s, r) > 0
    ensures r in s.txns ==> RollbackPhase(s, r) || WriterAt(s, r)
  {
  }

  lemma WaitsForSomething(s: System, r: Tid, v: Tid)
    requires WaitsFor(s, r, v)
    ensures Wants(s, r) != {}
  {
  }

  lemma WaitedForWriter(s: System, far: Tid, u: Tid) returns (i: nat)
    requires Inv(s) && WriterAt(s, u) && WaitsFor(s, far, u)
    ensures var w := s.txns[u]; i < w.at <= |w.program| && Touched(w.program[i]) in Wants(s, far)
  {
    var l :| l in s.locks && l.owner == u && l.on in Wants(s, far);
    assert TxnInv(s, u, s.txns[u]);
    i :| 0 <= i < s.txns[u].at && i < |s.txns[u].program| && Touched(s.txns[u].program[i]) == l.on;
  }

  /** Where the system has come to a deadlock there were a rollback and a writer that goes back. */
  lemma DeadlockMeansInverted(s0: System, steps: seq<Step>, w: set<Tid>) returns (r: Tid, u: Tid)
    requires Initial(s0) && Reaches(s0, steps, w)
    ensures RollbackPhase(s0, r) && WriterAt(s0, u) && Inverted(s0.txns[u].program, s0.tables)
  {
    hide Run, Inv, WaitsFor, Wants, Touched, Deadlock;
    var s := Run(s0, steps).value;
    InitialInv(s0);
    RunKeepsInv(s0, steps);
    RunKeepsCast(s0, steps);
    NoCommittedRowIsLost(s0, steps);
    var far;
    far, u, r := DeadlockHasWriter(s, w);
    var first := WaitedForWriter(s, far, u);
    var program, j := s.txns[u].program, s.txns[u].at;
    forall i: nat | i < j
      ensures j < |program| && Exists(s0.tables, Touched(program[j])) && Exists(s0.tables, Touched(program[i]))
      ensures Place(Touched(program[j])) < Place(Touched(program[i]))
    {
      WriterGoesBack(s, u, r, i);
    }
    assert first < j;
    if !Touched(program[first]).Of? { CompaniesMeansEmpty(s0, s, far); }
    assert GoesBack(program, s0.tables, j);
  }

  /**
   * A deadlock can be reached exactly when there is a rollback and some writer touches a table that comes before all it
   * has touched so far.
   */
  lemma CanDeadlockIff(s0: System)
    requires Initial(s0)
    ensures CanDeadlock(s0) <==>
              && (exists r :: RollbackPhase(s0, r))
              && (exists u :: WriterAt(s0, u) && Inverted(s0.txns[u].program, s0.tables))
  {
    hide Inverted, Reaches;
    if CanDeadlock(s0) {
      var steps, w :| Reaches(s0, steps, w);
      var r, u := DeadlockMeansInverted(s0, steps, w);
    }
    if r, u :| RollbackPhase(s0, r) && WriterAt(s0, u) && Inverted(s0.txns[u].program, s0.tables) {
      InvertedCanDeadlock(s0, r, u);
    }
  }

  /** While no writer goes back, some transaction can go on for as long as one has not ended. */
  lemma OrderlyNeverStuck(s0: System, steps: seq<Step>, tid: Tid)
    requires Initial(s0) && Run(s0, steps).Some? && Unfinished(Run(s0, steps).value, tid)
    requires forall u | WriterAt(s0, u) :: !Inverted(s0.txns[u].program, s0.tables)
    ensures exists t :: Next(Run(s0, steps).value, Advance(t)).Some?
  {
    hide Run, Next, Inverted, Unfinished, Deadlock;
    var s := Run(s0, steps).value;
    InitialInv(s0);
    RunKeepsInv(s0, steps);
    StuckIsDeadlock(s, tid);
    if w :| Deadlock(s, w) {
      assert Reaches(s0, steps, w);
      var r, u := DeadlockMeansInverted(s0, steps, w);
      assert false;
    }
  }

  // ---------------------------------------------------------------- the writer of the claims gateway

  /** `submit_claim`: it reads the company and the rule set, and inserts the claim and then its evidence. */
  function SubmitClaim(claim: nat, evidence: nat): seq<Statement> {
    [Read(Companies), Read(Of(RuleSetVersions)), Insert(ClassificationClaims, claim), Insert(ClaimEvidence, evidence)]
  }

  /** Its order is the opposite of the rollback's: the two can deadlock, whatever the tables hold. */
  lemma SubmitClaimCanDeadlock(tables: Catalogue, claim: nat, evidence: nat)
    requires RuleSetVersions in tables && ClassificationClaims in tables
    ensures CanDeadlock(System(tables,
        map[0 := Rollback(Ready), 1 := Writer(SubmitClaim(claim, evidence), 0, map[], true)], {}))
  {
    var program := SubmitClaim(claim, evidence);
    var s0 := System(tables, map[0 := Rollback(Ready), 1 := Writer(program, 0, map[], true)], {});
    assert Touched(program[1]).Of? && GoesBack(program, tables, 2);
    assert WriterAt(s0, 1) && s0.txns[1].program == program;
    InvertedCanDeadlock(s0, 0, 1);
  }
}
