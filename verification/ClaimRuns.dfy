/** How far a rollback runs on while no lock of somebody else stands in its way; in particular, a rollback alone. */
module ClaimRuns {
  import opened Outcomes
  import opened ClaimRollback

  function Solo(tid: Tid, n: nat): seq<Step> {
    seq(n, i => Advance(tid))
  }

  lemma {:induction false} RunAppend(s: System, a: seq<Step>, b: seq<Step>)
    ensures Run(s, a + b) == match Run(s, a) case None => None case Some(s') => Run(s', b)
    decreases |a|
  {
    hide Next;
    if |a| == 0 {
      assert a + b == b;
    } else {
      assert (a + b)[0] == a[0] && (a + b)[1..] == a[1..] + b;
      if Next(s, a[0]).Some? { RunAppend(Next(s, a[0]).value, a[1..], b); }
    }
  }

  lemma SoloStep(s: System, tid: Tid)
    ensures Run(s, Solo(tid, 1)) == Next(s, Advance(tid))
  {
    hide Next;
    assert Solo(tid, 1) == [Advance(tid)] && Solo(tid, 1)[1..] == [];
    if Next(s, Advance(tid)).Some? { NoSteps(Next(s, Advance(tid)).value); }
  }

  lemma NoSteps(s: System)
    ensures Run(s, []) == Some(s)
  {
  }

  lemma SoloThen(s: System, tid: Tid, m: nat, n: nat)
    requires Run(s, Solo(tid, m)).Some?
    ensures Run(s, Solo(tid, m + n)) == Run(Run(s, Solo(tid, m)).value, Solo(tid, n))
  {
    hide Run;
    assert Solo(tid, m + n) == Solo(tid, m) + Solo(tid, n);
    RunAppend(s, Solo(tid, m), Solo(tid, n));
  }

  /** `s'` differs from `s` in the state and the locks of `tid` alone. */
  ghost predicate OnlyMoved(s: System, s': System, tid: Tid) {
    && s'.tables == s.tables && s'.txns.Keys == s.txns.Keys
    && (forall u | u in s.txns && u != tid :: s'.txns[u] == s.txns[u])
    && forall l: Lock | l.owner != tid :: l in s'.locks <==> l in s.locks
  }

  /** Nobody else has a lock before place `n`. */
  predicate Clear(s: System, tid: Tid, n: nat) {
    forall l | l in s.locks && l.owner != tid :: Place(l.on) >= n
  }

  predicate InPhase(s: System, tid: Tid, phase: Phase) {
    tid in s.txns && s.txns[tid] == Rollback(phase)
  }

  lemma {:induction false} LocksOn(s: System, tid: Tid, k: nat, n: nat) returns (s': System)
    requires InPhase(s, tid, Locking(s.tables.Keys, k)) && k <= n <= TABLE_COUNT && Clear(s, tid, n)
    ensures Run(s, Solo(tid, n - k)) == Some(s') && OnlyMoved(s, s', tid) && InPhase(s', tid, Locking(s.tables.Keys, n))
    decreases n - k
  {
    if k == n {
      s' := s;
    } else {
      var s1 := Next(s, Advance(tid)).value;
      s' := LocksOn(s1, tid, k + 1, n);
      SoloStep(s, tid);
      SoloThen(s, tid, 1, n - k - 1);
    }
  }

  lemma CountOne(s: System, tid: Tid, k: nat, counts: map<Table, nat>)
    returns (s': System, counted: map<Table, nat>)
    requires InPhase(s, tid, Counting(s.tables.Keys, k, counts)) && k < TABLE_COUNT
    requires CountsSoFar(s, s.tables.Keys, k, counts)
    ensures Next(s, Advance(tid)) == Some(s') && OnlyMoved(s, s', tid)
    ensures InPhase(s', tid, Counting(s.tables.Keys, k + 1, counted)) && CountsSoFar(s', s.tables.Keys, k + 1, counted)
  {
    var t := NameAt(k);
    counted := counts[t := if t in s.tables then |s.tables[t]| else 0];
    s' := Enter(s, tid, Counting(s.tables.Keys, k + 1, counted));
  }

  lemma {:induction false} CountsOn(s: System, tid: Tid, k: nat, counts: map<Table, nat>) returns (s': System)
    requires InPhase(s, tid, Counting(s.tables.Keys, k, counts)) && k <= TABLE_COUNT
    requires CountsSoFar(s, s.tables.Keys, k, counts)
    ensures Run(s, Solo(tid, TABLE_COUNT - k)) == Some(s') && OnlyMoved(s, s', tid)
    ensures InPhase(s', tid, Counting(s.tables.Keys, TABLE_COUNT, CountsOf(s.tables)))
    decreases TABLE_COUNT - k
  {
    if k == TABLE_COUNT {
      s' := s;
      CountsComplete(s, counts);
    } else {
      var s1, counted := CountOne(s, tid, k, counts);
      s' := CountsOn(s1, tid, k + 1, counted);
      SoloStep(s, tid);
      SoloThen(s, tid, 1, TABLE_COUNT - k - 1);
    }
  }

  lemma CountsComplete(s: System, counts: map<Table, nat>)
    requires CountsSoFar(s, s.tables.Keys, TABLE_COUNT, counts)
    ensures counts == CountsOf(s.tables)
  {
    assert forall t | t in counts :: counts[t] == CountsOf(s.tables)[t];
  }

  /** No existing table from place `k` to before `n` references `companies`, or nobody else has a lock on it. */
  predicate DropsFreely(s: System, tid: Tid, k: nat, n: nat) {
    (forall t | t in s.tables && k <= Rank(t) < n :: !Refers(t)) || Clear(s, tid, TABLE_COUNT + 1)
  }

  lemma DropOne(s: System, tid: Tid, seen: set<Table>, k: nat, counts: map<Table, nat>) returns (s': System)
    requires InPhase(s, tid, Dropping(seen, k, counts)) && k < TABLE_COUNT
    requires Clear(s, tid, TABLE_COUNT) && DropsFreely(s, tid, k, k + 1)
    ensures Next(s, Advance(tid)) == Some(s') && OnlyMoved(s, s', tid) &&
        InPhase(s', tid, Dropping(seen, k + 1, counts))
  {
    s' := Next(s, Advance(tid)).value;
  }

  lemma ClearStays(s: System, s': System, tid: Tid, n: nat)
    requires OnlyMoved(s, s', tid) && Clear(s, tid, n)
    ensures Clear(s', tid, n)
  {
  }

  lemma FreeStays(s: System, s': System, tid: Tid, k: nat, n: nat)
    requires OnlyMoved(s, s', tid) && DropsFreely(s, tid, k, n) && k < n
    ensures DropsFreely(s, tid, k, k + 1) && DropsFreely(s', tid, k + 1, n)
  {
  }

  lemma {:induction false} DropsOn(s: System, tid: Tid, seen: set<Table>, k: nat, n: nat, counts: map<Table, nat>)
    returns (s': System)
    requires InPhase(s, tid, Dropping(seen, k, counts)) && k <= n <= TABLE_COUNT
    requires Clear(s, tid, TABLE_COUNT) && DropsFreely(s, tid, k, n)
    ensures Run(s, Solo(tid, n - k)) == Some(s') && OnlyMoved(s, s', tid) && InPhase(s', tid, Dropping(seen, n, counts))
    decreases n - k
  {
    if k == n {
      s' := s;
      NoSteps(s);
      assert Solo(tid, 0) == [];
    } else {
      hide Next, Run, Clear, DropsFreely;
      FreeStays(s, s, tid, k, n);
      var s1 := DropOne(s, tid, seen, k, counts);
      ClearStays(s, s1, tid, TABLE_COUNT);
      FreeStays(s, s1, tid, k, n);
      s' := DropsOn(s1, tid, seen, k + 1, n, counts);
      SoloStep(s, tid);
      SoloThen(s, tid, 1, n - k - 1);
    }
  }

  /** From the start to the drop loop, when every table is empty and nobody else has a lock on one of the six. */
  lemma ReachesDropping(s: System, tid: Tid) returns (s': System)
    requires InPhase(s, tid, Ready) && Clear(s, tid, TABLE_COUNT) && AllEmpty(s.tables)
    ensures Run(s, Solo(tid, 15)) == Some(s') && OnlyMoved(s, s', tid)
    ensures InPhase(s', tid, Dropping(s.tables.Keys, 0, CountsOf(s.tables)))
  {
    hide Run, Next;
    var counted := ReachesCounted(s, tid);
    CountsZeroIffEmpty(s.tables);
    s' := Enter(counted, tid, Dropping(s.tables.Keys, 0, CountsOf(s.tables)));
    LastCount(counted, tid);
    SoloStep(counted, tid);
    SoloThen(s, tid, 14, 1);
  }

  lemma LastCount(s: System, tid: Tid)
    requires InPhase(s, tid, Counting(s.tables.Keys, TABLE_COUNT, CountsOf(s.tables)))
    ensures Next(s, Advance(tid)) ==
              Some(if AllEmpty(s.tables) then Enter(s, tid, Dropping(s.tables.Keys, 0, CountsOf(s.tables)))
                   else Release(s, tid, Rollback(Aborted)))
  {
    CountsZeroIffEmpty(s.tables);
  }

  lemma ReachesCounted(s: System, tid: Tid) returns (s': System)
    requires InPhase(s, tid, Ready) && Clear(s, tid, TABLE_COUNT)
    ensures Run(s, Solo(tid, 14)) == Some(s') && OnlyMoved(s, s', tid)
    ensures InPhase(s', tid, Counting(s.tables.Keys, TABLE_COUNT, CountsOf(s.tables)))
  {
    hide Run;
    var s1 := Enter(s, tid, Locking(s.tables.Keys, 0));
    SoloStep(s, tid);
    var s2 := LocksOn(s1, tid, 0, TABLE_COUNT);
    SoloThen(s, tid, 1, 6);
    var s3 := Enter(s2, tid, Counting(s.tables.Keys, 0, map[]));
    SoloStep(s2, tid);
    SoloThen(s, tid, 7, 1);
    s' := CountsOn(s3, tid, 0, map[]);
    SoloThen(s, tid, 8, 6);
  }

  /** Nobody else holds a lock. */
  predicate Uncontended(s: System, tid: Tid) {
    forall l | l in s.locks :: l.owner == tid
  }

  /** Run alone, the statements end as the call does: everything dropped if every table is empty, and otherwise
      aborted with every table as it was. */
  lemma SoloRollback(s: System, tid: Tid) returns (n: nat, end: System)
    requires Uncontended(s, tid) && InPhase(s, tid, Ready)
    ensures Run(s, Solo(tid, n)) == Some(end) && tid in end.txns
    ensures AllEmpty(s.tables) ==>
              end.tables == map[] && end.txns[tid] == Rollback(Committed(s.tables.Keys, CountsOf(s.tables)))
    ensures !AllEmpty(s.tables) ==> end.tables == s.tables && end.txns[tid] == Rollback(Aborted)
  {
    hide Run, CountsOf;
    if AllEmpty(s.tables) {
      n := 22;
      var s1 := ReachesDropping(s, tid);
      var s2 := DropsOn(s1, tid, s.tables.Keys, 0, TABLE_COUNT, CountsOf(s.tables));
      SoloThen(s, tid, 15, 6);
      end := Next(s2, Advance(tid)).value;
      SoloStep(s2, tid);
      SoloThen(s, tid, 21, 1);
      assert forall t :: t !in end.tables;
    } else {
      n := 15;
      var s1 := ReachesCounted(s, tid);
      LastCount(s1, tid);
      end := Release(s1, tid, Rollback(Aborted));
      SoloStep(s1, tid);
      SoloThen(s, tid, 14, 1);
    }
  }
}
