/**
 Background initialisation: any number of callers and the threads they start, sharing one lock. `thread.start()` may
 raise, after the status has been set to running.
 */
module InitThread {
  import opened Outcomes
  import opened Ordered

  datatype Status = Pending | Running | Complete | Failed

  /** A caller of `start_init_db_background` is outside the lock, inside it before the test, or about to release it. */
  datatype CallerPc = Outside | Inside | Leaving

  /** A thread runs init_db, has its result, holds the lock with it, has written the status, or is gone. */
  datatype WorkerPc = Working | HasResult(error: Option<string>) | Locked(error: Option<string>) | Wrote | Gone

  datatype Holder = Caller(id: nat) | Worker(id: nat)

  datatype State = State(
    status: Status,
    error: Option<string>,
    lock: Option<Holder>,
    callers: map<nat, CallerPc>,
    workers: map<nat, WorkerPc>)

  const MAX_ERROR := 500

  /** `_truncate_init_error`. */
  function TruncateError(message: string): (r: string)
    ensures |r| <= MAX_ERROR && (|message| <= MAX_ERROR ==> r == message)
    ensures |message| > MAX_ERROR ==> |r| == 500 && r[..497] == message[..497] && r[497..] == "..."
  {
    if |message| <= MAX_ERROR then message else message[..MAX_ERROR - 3] + "..."
  }

  function CallerAt(s: State, c: nat): CallerPc {
    if c in s.callers then s.callers[c] else Outside
  }

  predicate IsLive(pc: WorkerPc) {
    pc.Working? || pc.HasResult? || pc.Locked?
  }

  function Live(s: State): set<nat> {
    set w | w in s.workers && IsLive(s.workers[w])
  }

  /** An id no thread has had. */
  predicate Unused(s: State, w: nat) {
    w !in s.workers
  }

  datatype Action =
    | Enter(c: nat)
    | Decide(c: nat, w: nat, starts: bool)
    | Leave(c: nat)
    | Return(w: nat, error: Option<string>)
    | Acquire(w: nat)
    | Write(w: nat)
    | Release(w: nat)

  predicate Enabled(s: State, a: Action) {
    match a
    case Enter(c) => s.lock.None? && CallerAt(s, c) == Outside
    case Decide(c, w, _) => CallerAt(s, c) == Inside && Unused(s, w)
    case Leave(c) => CallerAt(s, c) == Leaving
    case Return(w, error) => w in s.workers && s.workers[w] == Working && error != Some("")
    case Acquire(w) => s.lock.None? && w in s.workers && s.workers[w].HasResult?
    case Write(w) => w in s.workers && s.workers[w].Locked?
    case Release(w) => w in s.workers && s.workers[w] == Wrote
  }

  function Do(s: State, a: Action): State
    requires Enabled(s, a)
  {
    match a
    case Enter(c) => s.(lock := Some(Caller(c)), callers := s.callers[c := Inside])
    case Decide(c, w, starts) =>
      if s.status == Running || s.status == Complete then s.(callers := s.callers[c := Leaving])
      else s.(status := Running, callers := s.callers[c := Leaving],
              workers := if starts then s.workers[w := Working] else s.workers)
    case Leave(c) => s.(lock := None, callers := s.callers[c := Outside])
    case Return(w, error) => s.(workers := s.workers[w := HasResult(error)])
    case Acquire(w) => s.(lock := Some(Worker(w)), workers := s.workers[w := Locked(s.workers[w].error)])
    case Write(w) =>
      var error := s.workers[w].error;
      s.(status := if error.None? then Complete else Failed,
         error := if error.None? then None else Some(TruncateError(error.value)),
         workers := s.workers[w := Wrote])
    case Release(w) => s.(lock := None, workers := s.workers[w := Gone])
  }

  /** Actions that are not enabled do not happen. */
  function Run(s: State, actions: seq<Action>): State {
    if |actions| == 0 then s
    else
      var before := Run(s, actions[..|actions| - 1]);
      var a := actions[|actions| - 1];
      if Enabled(before, a) then Do(before, a) else before
  }

  const START := State(Pending, None, None, map[], map[])

  ghost predicate LockMatches(s: State) {
    && (forall c: nat :: CallerAt(s, c) != Outside <==> s.lock == Some(Caller(c)))
    && (forall w: nat :: w in s.workers && (s.workers[w].Locked? || s.workers[w] == Wrote) <==>
        s.lock == Some(Worker(w)))
  }

  ghost predicate OneLive(s: State) {
    && ((exists w :: w in s.workers && IsLive(s.workers[w])) ==> s.status == Running)
    && (forall v, w | v in s.workers && IsLive(s.workers[v]) && w in s.workers && IsLive(s.workers[w]) :: v == w)
  }

  predicate ErrorMatches(s: State) {
    && (s.status == Complete ==> s.error.None?)
    && (s.status == Failed ==> s.error.Some? && 0 < |s.error.value| <= MAX_ERROR)
    && (forall w | w in s.workers && (s.workers[w].HasResult? || s.workers[w].Locked?) ::
        s.workers[w].error != Some(""))
  }

  ghost predicate Inv(s: State) {
    LockMatches(s) && OneLive(s) && ErrorMatches(s)
  }

  lemma LockKept(s: State, a: Action)
    requires LockMatches(s) && Enabled(s, a)
    ensures LockMatches(Do(s, a))
  {
    hide IsLive, TruncateError;
    var t := Do(s, a);
    assert forall c: nat :: CallerAt(t, c) != Outside <==> t.lock == Some(Caller(c));
  }

  lemma OneLiveKept(s: State, a: Action)
    requires OneLive(s) && Enabled(s, a)
    ensures OneLive(Do(s, a))
  {
    hide TruncateError;
    var t := Do(s, a);
    if a.Return? || a.Acquire? || a.Write? { assert IsLive(s.workers[a.w]); }
    if w :| w in t.workers && IsLive(t.workers[w]) {
      assert (a.Decide? && w == a.w) || (w in s.workers && IsLive(s.workers[w]));
    }
  }

  lemma ErrorKept(s: State, a: Action)
    requires ErrorMatches(s) && Enabled(s, a)
    ensures ErrorMatches(Do(s, a))
  {
  }

  /** In every interleaving the lock has one holder, at most one thread is live, and only while the status is
      running. */
  lemma {:induction false} RunKeepsInv(s: State, actions: seq<Action>)
    requires Inv(s)
    ensures Inv(Run(s, actions))
  {
    hide LockMatches, OneLive, ErrorMatches, Do, Enabled;
    if |actions| > 0 {
      var before, a := Run(s, actions[..|actions| - 1]), actions[|actions| - 1];
      RunKeepsInv(s, actions[..|actions| - 1]);
      if Enabled(before, a) {
        LockKept(before, a);
        OneLiveKept(before, a);
        ErrorKept(before, a);
      }
    }
  }

  // ---------------------------------------------------------------- a start that raises

  /** The status says running and no thread is there to change it. */
  predicate Stranded(s: State) {
    s.status == Running && forall w | w in s.workers :: !IsLive(s.workers[w])
  }

  /** `a` finds that a thread is needed, and starting it raises. */
  predicate StartRaises(s: State, a: Action) {
    a.Decide? && !a.starts && Enabled(s, a) && s.status != Running && s.status != Complete
  }

  predicate SomeStartRaised(s: State, actions: seq<Action>) {
    exists i | 0 <= i < |actions| :: StartRaises(Run(s, actions[..i]), actions[i])
  }

  lemma StrandedStep(s: State, a: Action)
    requires Inv(s) && Enabled(s, a)
    ensures Stranded(Do(s, a)) <==> Stranded(s) || StartRaises(s, a)
  {
    hide TruncateError, ErrorMatches, LockMatches;
    var t := Do(s, a);
    if Stranded(s) {
      assert forall w | w in t.workers :: !IsLive(t.workers[w]);
    } else if s.status == Running {
      var w :| w in s.workers && IsLive(s.workers[w]);
      assert a.Write? || (w in t.workers && IsLive(t.workers[w]));
    } else {
      assert forall w | w in s.workers :: !IsLive(s.workers[w]);
      if a.Decide? && a.starts && t.status == Running { assert IsLive(t.workers[a.w]); }
    }
  }

  lemma SomeStartRaisedLast(s: State, actions: seq<Action>)
    requires |actions| > 0
    ensures var init := actions[..|actions| - 1];
            SomeStartRaised(s, actions) <==>
                SomeStartRaised(s, init) || StartRaises(Run(s, init), actions[|actions| - 1])
  {
    hide StartRaises, Run;
    var init := actions[..|actions| - 1];
    assert forall i | 0 <= i < |init| :: init[..i] == actions[..i];
    if i :| 0 <= i < |actions| && StartRaises(Run(s, actions[..i]), actions[i]) && i < |init| {
      assert StartRaises(Run(s, init[..i]), init[i]);
    }
    if i :| 0 <= i < |init| && StartRaises(Run(s, init[..i]), init[i]) {
      assert StartRaises(Run(s, actions[..i]), actions[i]);
    }
  }

  /** The status stays at running without a thread exactly when some needed start raised: after that no caller starts
      another one. While no start raises, running means that a thread is live. */
  lemma {:induction false} StrandedIff(s: State, actions: seq<Action>)
    requires Inv(s) && !Stranded(s)
    ensures Stranded(Run(s, actions)) <==> SomeStartRaised(s, actions)
  {
    hide Stranded, StartRaises, Do, Enabled, Inv, SomeStartRaised;
    if |actions| == 0 {
      NoStartYet(s, actions);
    } else {
      var init, a := actions[..|actions| - 1], actions[|actions| - 1];
      StrandedIff(s, init);
      RunKeepsInv(s, init);
      SomeStartRaisedLast(s, actions);
      if Enabled(Run(s, init), a) {
        StrandedStep(Run(s, init), a);
      } else {
        NotEnabledRaisesNothing(Run(s, init), a);
      }
    }
  }

  lemma NoStartYet(s: State, actions: seq<Action>)
    requires |actions| == 0
    ensures !SomeStartRaised(s, actions)
  {
  }

  lemma NotEnabledRaisesNothing(s: State, a: Action)
    requires !Enabled(s, a)
    ensures !StartRaises(s, a)
  {
  }

  /** A stranded initialisation is never taken up again. */
  lemma {:induction false} StrandedIsAbsorbing(s: State, actions: seq<Action>)
    requires Inv(s) && Stranded(s)
    ensures Stranded(Run(s, actions)) && Run(s, actions).workers.Keys == s.workers.Keys
  {
    if |actions| > 0 {
      var init, a := actions[..|actions| - 1], actions[|actions| - 1];
      StrandedIsAbsorbing(s, init);
      RunKeepsInv(s, init);
      if Enabled(Run(s, init), a) { StrandedStep(Run(s, init), a); }
      hide LockMatches;
    }
  }

  /** From the start at most one thread is live, and one is exactly while the status is running, unless a start
      raised. */
  lemma AtMostOneThread(actions: seq<Action>)
    ensures var s := Run(START, actions);
            |Live(s)| <= 1 && (Live(s) != {} <==> s.status == Running && !SomeStartRaised(START, actions))
  {
    RunKeepsInv(START, actions);
    StrandedIff(START, actions);
    var s := Run(START, actions);
    hide Run, SomeStartRaised;
    if Stranded(s) || s.status != Running {
      NoMember(Live(s));
    } else {
      var w :| w in s.workers && IsLive(s.workers[w]);
      assert Live(s) == {w} by { assert forall v :: v in Live(s) <==> v == w; }
    }
  }

  /** Once complete, the status stays and no thread is ever started again. */
  lemma {:induction false} CompleteIsAbsorbing(s: State, actions: seq<Action>)
    requires Inv(s) && s.status == Complete
    ensures Run(s, actions).status == Complete && Run(s, actions).workers.Keys == s.workers.Keys
    ensures Run(s, actions).error.None?
  {
    if |actions| > 0 {
      var init := actions[..|actions| - 1];
      CompleteIsAbsorbing(s, init);
      RunKeepsInv(s, init);
      hide LockMatches;
    }
  }

  lemma OneMore(s: State, actions: seq<Action>, a: Action)
    ensures var before := Run(s, actions);
            Run(s, actions + [a]) == if Enabled(before, a) then Do(before, a) else before
  {
    hide Do, Enabled;
    assert (actions + [a])[..|actions|] == actions;
  }

  /** A call that nothing comes between: it leaves a running or complete initialisation alone, and otherwise marks it
      running and starts a thread, unless starting raises. */
  lemma CallRuns(s: State, c: nat, w: nat, starts: bool)
    requires s.lock.None? && CallerAt(s, c) == Outside && Unused(s, w)
    ensures var t := Run(s, [Enter(c), Decide(c, w, starts), Leave(c)]);
            && t.lock.None? && t.error == s.error && (forall d: nat :: CallerAt(t, d) == CallerAt(s, d))
            && if s.status == Running || s.status == Complete then t.status == s.status && t.workers == s.workers
               else t.status == Running && t.workers == if starts then s.workers[w := Working] else s.workers
  {
    var enter, decide := Enter(c), Decide(c, w, starts);
    OneMore(s, [], enter);
    assert [] + [enter] == [enter];
    OneMore(s, [enter], decide);
    assert [enter] + [decide] == [enter, decide];
    OneMore(s, [enter, decide], Leave(c));
    assert [enter, decide] + [Leave(c)] == [enter, decide, Leave(c)];
  }

  /** A thread that nothing comes between: it ends with the status complete, or failed with the shortened error. */
  lemma ThreadRuns(s: State, w: nat, error: Option<string>)
    requires s.lock.None? && w in s.workers && s.workers[w] == Working && error != Some("")
    ensures var t := Run(s, [Return(w, error), Acquire(w), Write(w), Release(w)]);
            && t.lock.None? && t.callers == s.callers && t.workers == s.workers[w := Gone]
            && (error.None? ==> t.status == Complete && t.error == None)
            && (error.Some? ==> t.status == Failed && t.error == Some(TruncateError(error.value)))
  {
    hide TruncateError;
    var done := Return(w, error);
    OneMore(s, [], done);
    assert [] + [done] == [done];
    OneMore(s, [done], Acquire(w));
    assert [done] + [Acquire(w)] == [done, Acquire(w)];
    OneMore(s, [done, Acquire(w)], Write(w));
    assert [done, Acquire(w)] + [Write(w)] == [done, Acquire(w), Write(w)];
    OneMore(s, [done, Acquire(w), Write(w)], Release(w));
    assert [done, Acquire(w), Write(w)] + [Release(w)] == [done, Acquire(w), Write(w), Release(w)];
  }

  /** Someone can always move: the lock's holder, or else any caller. */
  lemma NeverStuck(s: State)
    requires Inv(s)
    ensures exists a :: Enabled(s, a)
  {
    match s.lock
    case None => assert Enabled(s, Enter(0));
    case Some(Caller(c)) =>
      assert CallerAt(s, c) != Outside;
      if CallerAt(s, c) == Leaving { assert Enabled(s, Leave(c)); }
      else {
        var w := SpareId(s.workers.Keys);
        assert Enabled(s, Decide(c, w, true));
      }
    case Some(Worker(w)) =>
      assert w in s.workers && (s.workers[w].Locked? || s.workers[w] == Wrote);
      if s.workers[w].Locked? { assert Enabled(s, Write(w)); } else { assert Enabled(s, Release(w)); }
  }

  lemma {:induction false} SpareId(used: set<nat>) returns (w: nat)
    ensures w !in used && forall x | x in used :: x < w
    decreases |used|
  {
    if used == {} {
      w := 0;
    } else {
      var x := SomeMember(used);
      var v := SpareId(used - {x});
      w := if v <= x then x + 1 else v;
      assert forall y | y in used :: y == x || y in used - {x};
    }
  }
}
