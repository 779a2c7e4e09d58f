/**
 The guarded rollback of migration 029, as the statements of one transaction interleaved with any number of
 other rollbacks and of writers that execute a list of reads and inserts. Every statement reads the latest
 committed state (READ COMMITTED); table locks are held until the end of the transaction; DDL takes effect at
 commit. Nobody creates one of the six tables while the system runs.
 */
module ClaimRollback {
  import opened Outcomes
  import opened Ordered

  datatype Table =
    | ResolvedCompanyBeliefs
    | ProjectorRuns
    | ClaimEvents
    | ClaimEvidence
    | ClassificationClaims
    | RuleSetVersions

  const TABLE_COUNT: nat := 6

  /** Position in the one order in which every rollback locks, counts and drops. */
  function Rank(t: Table): (k: nat)
    ensures k < TABLE_COUNT
  {
    match t
    case ResolvedCompanyBeliefs => 0
    case ProjectorRuns => 1
    case ClaimEvents => 2
    case ClaimEvidence => 3
    case ClassificationClaims => 4
    case RuleSetVersions => 5
  }

  function NameAt(k: nat): (t: Table)
    requires k < TABLE_COUNT
    ensures forall u :: Rank(u) == k <==> u == t
  {
    if k == 0 then ResolvedCompanyBeliefs
    else if k == 1 then ProjectorRuns
    else if k == 2 then ClaimEvents
    else if k == 3 then ClaimEvidence
    else if k == 4 then ClassificationClaims
    else RuleSetVersions
  }

  /** What a statement locks: one of the six tables, or `companies`, which two of them reference. */
  datatype Resource = Of(table: Table) | Companies

  /** Place in the order in which a rollback comes to its locks: `companies` is locked by DROP TABLE. */
  function Place(on: Resource): (k: nat)
    ensures k <= TABLE_COUNT && (k < TABLE_COUNT <==> on.Of?)
  {
    match on case Of(t) => Rank(t) case Companies => TABLE_COUNT
  }

  /** The tables with a foreign key to `companies`. */
  predicate Refers(t: Table) {
    t == ClassificationClaims || t == ResolvedCompanyBeliefs
  }

  type Tid = nat

  /** Committed rows, by row id, of the tables that exist. */
  type Catalogue = map<Table, set<nat>>

  datatype Phase =
    | Ready
    | Locking(seen: set<Table>, next: nat)
    | Counting(seen: set<Table>, next: nat, counts: map<Table, nat>)
    | Dropping(seen: set<Table>, next: nat, counts: map<Table, nat>)
    | Committed(seen: set<Table>, counts: map<Table, nat>)
    | Aborted

  /** A foreign key makes an INSERT read the referenced tables, which are statements of their own here. */
  datatype Statement = Read(on: Resource) | Insert(table: Table, row: nat)

  function Touched(st: Statement): Resource {
    match st case Read(on) => on case Insert(t, _) => Of(t)
  }

  datatype Txn =
    | Rollback(phase: Phase)
    | Writer(program: seq<Statement>, at: nat, pending: Catalogue, open: bool)

  datatype Lock = Lock(owner: Tid, on: Resource, exclusive: bool)

  datatype System = System(tables: Catalogue, txns: map<Tid, Txn>, locks: set<Lock>)

  datatype Step =
    | Advance(tid: Tid)                            // next statement, or the commit once none is left
    | Fail(tid: Tid)                               // the connection breaks, or the transaction is rolled back

  // ---------------------------------------------------------------- transitions

  predicate Exists(tables: Catalogue, on: Resource) {
    on.Of? ==> on.table in tables
  }

  predicate Blocked(s: System, tid: Tid, on: Resource, exclusive: bool) {
    exists l | l in s.locks :: l.on == on && l.owner != tid && (exclusive || l.exclusive)
  }

  function Release(s: System, tid: Tid, txn: Txn): System {
    s.(txns := s.txns[tid := txn], locks := set l | l in s.locks && l.owner != tid)
  }

  function Enter(s: System, tid: Tid, phase: Phase): System {
    s.(txns := s.txns[tid := Rollback(phase)])
  }

  function Acquire(s: System, tid: Tid, on: Resource, exclusive: bool): System {
    s.(locks := s.locks + {Lock(tid, on, exclusive)})
  }

  /** DROP TABLE locks the table and every table it references; the six are locked already. */
  function AcquireForDrop(s: System, tid: Tid, t: Table): System {
    var s' := Acquire(s, tid, Of(t), true);
    if Refers(t) then Acquire(s', tid, Companies, true) else s'
  }

  /** The next statement of rollback `tid`; None while it waits for a lock or once it has ended. */
  function AdvanceRollback(s: System, tid: Tid, phase: Phase): Option<System> {
    match phase
    case Ready =>
      Some(Enter(s, tid, Locking(s.tables.Keys, 0)))
    case Locking(seen, k) =>
      if k >= TABLE_COUNT then Some(Enter(s, tid, Counting(seen, 0, map[])))
      else
        var t := NameAt(k);
        if t !in seen then Some(Enter(s, tid, Locking(seen, k + 1)))
        else if Blocked(s, tid, Of(t), true) then None
        else if t !in s.tables then Some(Release(s, tid, Rollback(Aborted)))
        else Some(Enter(Acquire(s, tid, Of(t), true), tid, Locking(seen, k + 1)))
    case Counting(seen, k, counts) =>
      if k >= TABLE_COUNT then
        if exists t | t in counts :: counts[t] > 0
        then Some(Release(s, tid, Rollback(Aborted)))
        else Some(Enter(s, tid, Dropping(seen, 0, counts)))
      else
        var t := NameAt(k);
        if t !in seen then Some(Enter(s, tid, Counting(seen, k + 1, counts[t := 0])))
        else if t !in s.tables then Some(Release(s, tid, Rollback(Aborted)))
        else Some(Enter(s, tid, Counting(seen, k + 1, counts[t := |s.tables[t]|])))
    case Dropping(seen, k, counts) =>
      if k >= TABLE_COUNT then
        var kept := map t | t in s.tables && Rank(t) >= k :: s.tables[t];
        Some(Release(s.(tables := kept), tid, Rollback(Committed(seen, counts))))
      else
        var t := NameAt(k);
        if t !in s.tables then Some(Enter(s, tid, Dropping(seen, k + 1, counts)))
        else if Blocked(s, tid, Of(t), true) || (Refers(t) && Blocked(s, tid, Companies, true)) then None
        else Some(Enter(AcquireForDrop(s, tid, t), tid, Dropping(seen, k + 1, counts)))
    case Committed(_, _) => None
    case Aborted => None
  }

  function Closed(w: Txn): Txn
    requires w.Writer?
  {
    w.(open := false)
  }

  function CommitWriter(s: System, tid: Tid, w: Txn): System
    requires w.Writer?
  {
    var merged := map t | t in s.tables :: s.tables[t] + (if t in w.pending then w.pending[t] else {});
    Release(s.(tables := merged), tid, Closed(w))
  }

  function Executed(w: Txn): Txn
    requires w.Writer? && w.at < |w.program|
  {
    match w.program[w.at]
    case Read(_) => w.(at := w.at + 1)
    case Insert(t, row) =>
      w.(at := w.at + 1, pending := w.pending[t := (if t in w.pending then w.pending[t] else {}) + {row}])
  }

  /** The next statement of a writer, or its commit when none is left; None while it waits and once it is closed. */
  function AdvanceWriter(s: System, tid: Tid, w: Txn): Option<System>
    requires w.Writer?
  {
    if !w.open then None
    else if w.at >= |w.program| then Some(CommitWriter(s, tid, w))
    else
      var on := Touched(w.program[w.at]);
      if Blocked(s, tid, on, false) then None
      else if !Exists(s.tables, on) then Some(Release(s, tid, Closed(w)))
      else Some(Acquire(s, tid, on, false).(txns := s.txns[tid := Executed(w)]))
  }

  function Next(s: System, step: Step): Option<System> {
    if step.tid !in s.txns then None
    else
      match (s.txns[step.tid], step)
      case (Rollback(phase), Advance(tid)) => AdvanceRollback(s, tid, phase)
      case (Rollback(phase), Fail(tid)) =>
        if phase.Committed? || phase.Aborted? then None else Some(Release(s, tid, Rollback(Aborted)))
      case (Writer(_, _, _, _), Advance(tid)) => AdvanceWriter(s, tid, s.txns[tid])
      case (Writer(_, _, _, open), Fail(tid)) => if open then Some(Release(s, tid, Closed(s.txns[tid]))) else None
  }

  function Run(s: System, steps: seq<Step>): Option<System>
    decreases |steps|
  {
    if |steps| == 0 then Some(s)
    else match Next(s, steps[0])
      case None => None
      case Some(s') => Run(s', steps[1..])
  }

  predicate Fresh(txn: Txn) {
    txn == Rollback(Ready) || (txn.Writer? && txn == Writer(txn.program, 0, map[], true))
  }

  predicate Initial(s: System) {
    && s.locks == {}
    && forall tid | tid in s.txns :: Fresh(s.txns[tid])
  }

  // ---------------------------------------------------------------- invariant

  predicate Holds(s: System, tid: Tid, on: Resource, exclusive: bool) {
    Lock(tid, on, exclusive) in s.locks
  }

  predicate HoldsNothing(s: System, tid: Tid) {
    forall l | l in s.locks :: l.owner != tid
  }

  /** Every table of `seen` is locked against everybody else and still exists. */
  predicate Secured(s: System, tid: Tid, seen: set<Table>) {
    s.tables.Keys <= seen && forall t | t in seen :: t in s.tables && Holds(s, tid, Of(t), true)
  }

  predicate CountsSoFar(s: System, seen: set<Table>, next: nat, counts: map<Table, nat>)
    requires seen <= s.tables.Keys
  {
    && next <= TABLE_COUNT
    && (forall t :: t in counts <==> Rank(t) < next)
    && forall t | t in counts :: counts[t] == if t in seen then |s.tables[t]| else 0
  }

  predicate PhaseInv(s: System, tid: Tid, phase: Phase) {
    match phase
    case Ready => HoldsNothing(s, tid)
    case Locking(seen, k) =>
      && k <= TABLE_COUNT
      && s.tables.Keys <= seen
      && (forall t | t in seen && Rank(t) < k :: t in s.tables && Holds(s, tid, Of(t), true))
      && forall l | l in s.locks && l.owner == tid :: l.exclusive && Place(l.on) < k && l.on.Of? && l.on.table in seen
    case Counting(seen, k, counts) =>
      && Secured(s, tid, seen)
      && CountsSoFar(s, seen, k, counts)
      && forall l | l in s.locks && l.owner == tid :: l.exclusive && l.on.Of? && l.on.table in seen
    case Dropping(seen, k, counts) =>
      && Secured(s, tid, seen)
      && CountsSoFar(s, seen, TABLE_COUNT, counts)
      && (forall t | t in seen :: s.tables[t] == {})
      && forall l | l in s.locks && l.owner == tid :: l.exclusive && (l.on.Of? ==> l.on.table in seen)
    case Committed(seen, counts) =>
      && HoldsNothing(s, tid)
      && (forall t :: t in counts)
      && forall t | t in counts :: counts[t] == 0
    case Aborted => HoldsNothing(s, tid)
  }

  /** One of the first `n` statements touches `on`. */
  predicate TouchedBefore(program: seq<Statement>, n: nat, on: Resource) {
    exists i | 0 <= i < n && i < |program| :: Touched(program[i]) == on
  }

  predicate WriterInv(s: System, tid: Tid, w: Txn)
    requires w.Writer?
  {
    && w.at <= |w.program|
    && (forall i | 0 <= i < w.at ::
        Exists(s.tables, Touched(w.program[i])) && Holds(s, tid, Touched(w.program[i]), false))
    && (forall l | l in s.locks && l.owner == tid :: !l.exclusive && TouchedBefore(w.program, w.at, l.on))
    && (forall t | t in w.pending :: t in s.tables && Holds(s, tid, Of(t), false))
  }

  predicate TxnInv(s: System, tid: Tid, txn: Txn) {
    match txn
    case Rollback(phase) => PhaseInv(s, tid, phase)
    case Writer(_, _, _, open) => if open then WriterInv(s, tid, txn) else HoldsNothing(s, tid)
  }

  predicate NoConflict(locks: set<Lock>) {
    forall l, m | l in locks && m in locks :: l.on == m.on && l.owner != m.owner ==> !l.exclusive
  }

  predicate Inv(s: System) {
    && NoConflict(s.locks)
    && (forall l | l in s.locks :: l.owner in s.txns)
    && forall tid | tid in s.txns :: TxnInv(s, tid, s.txns[tid])
  }

  lemma InitialInv(s: System)
    requires Initial(s)
    ensures Inv(s)
  {
  }

  // ---------------------------------------------------------------- every step keeps the invariant

  /** What transaction `u` relies on is the same in both states. */
  ghost predicate Undisturbed(s: System, s': System, u: Tid) {
    && (forall l: Lock | l.owner == u :: l in s'.locks <==> l in s.locks)
    && s'.tables.Keys <= s.tables.Keys
    && (forall t | t in s.tables && Holds(s, u, Of(t), true) :: t in s'.tables && s'.tables[t] == s.tables[t])
    && (forall t | t in s.tables && Holds(s, u, Of(t), false) :: t in s'.tables)
  }

  lemma UndisturbedKeepsTxn(s: System, s': System, u: Tid, txn: Txn)
    requires Undisturbed(s, s', u)
    requires TxnInv(s, u, txn)
    ensures TxnInv(s', u, txn)
  {
  }

  /** A step of `tid` that keeps its own part, the lock table and everybody else's part keeps the invariant. */
  lemma Compose(s: System, s': System, tid: Tid)
    requires Inv(s)
    requires tid in s'.txns && s'.txns.Keys == s.txns.Keys
    requires forall u | u in s.txns && u != tid :: s'.txns[u] == s.txns[u] && Undisturbed(s, s', u)
    requires NoConflict(s'.locks) && forall l | l in s'.locks :: l.owner in s.txns
    requires TxnInv(s', tid, s'.txns[tid])
    ensures Inv(s')
  {
    forall u | u in s'.txns
      ensures TxnInv(s', u, s'.txns[u])
    {
      if u != tid { UndisturbedKeepsTxn(s, s', u, s.txns[u]); }
    }
  }

  lemma NextKeepsInv(s: System, step: Step)
    requires Inv(s) && Next(s, step).Some?
    ensures Inv(Next(s, step).value)
  {
    var tid := step.tid;
    match s.txns[tid] {
      case Rollback(phase) =>
        AbortKeepsInv(s, tid);
        if step.Advance? { AdvanceKeepsInv(s, tid, phase); }
      case Writer(_, _, _, _) =>
        CloseKeepsInv(s, tid);
        if step.Advance? { WriterKeepsInv(s, tid); }
    }
  }

  predicate WriterAt(s: System, tid: Tid) {
    tid in s.txns && s.txns[tid].Writer?
  }

  lemma CloseKeepsInv(s: System, tid: Tid)
    requires Inv(s) && WriterAt(s, tid)
    ensures Inv(Release(s, tid, Closed(s.txns[tid])))
  {
    Compose(s, Release(s, tid, Closed(s.txns[tid])), tid);
  }

  lemma CommitKeepsInv(s: System, tid: Tid)
    requires Inv(s) && WriterAt(s, tid) && s.txns[tid].open
    ensures Inv(CommitWriter(s, tid, s.txns[tid]))
  {
    assert TxnInv(s, tid, s.txns[tid]);
    Compose(s, CommitWriter(s, tid, s.txns[tid]), tid);
  }

  lemma TouchedNext(program: seq<Statement>, n: nat, on: Resource)
    requires n < |program|
    ensures TouchedBefore(program, n + 1, on) <==> TouchedBefore(program, n, on) || Touched(program[n]) == on
  {
  }

  lemma ExecutedInv(s: System, tid: Tid, w: Txn)
    requires w.Writer? && WriterInv(s, tid, w) && w.at < |w.program| && Exists(s.tables, Touched(w.program[w.at]))
    ensures WriterInv(Acquire(s, tid, Touched(w.program[w.at]), false), tid, Executed(w))
  {
    hide TouchedBefore;
    var s' := Acquire(s, tid, Touched(w.program[w.at]), false);
    forall l | l in s'.locks && l.owner == tid
      ensures !l.exclusive && TouchedBefore(w.program, w.at + 1, l.on)
    {
      TouchedNext(w.program, w.at, l.on);
    }
  }

  lemma WriterKeepsInv(s: System, tid: Tid)
    requires Inv(s) && WriterAt(s, tid) && AdvanceWriter(s, tid, s.txns[tid]).Some?
    ensures Inv(AdvanceWriter(s, tid, s.txns[tid]).value)
  {
    var w := s.txns[tid];
    assert TxnInv(s, tid, w);
    if w.at >= |w.program| {
      CommitKeepsInv(s, tid);
    } else if !Exists(s.tables, Touched(w.program[w.at])) {
      CloseKeepsInv(s, tid);
    } else {
      ExecutedKeepsInv(s, tid);
    }
  }

  lemma ShareNoConflict(s: System, tid: Tid, on: Resource)
    requires NoConflict(s.locks) && !Blocked(s, tid, on, false)
    ensures NoConflict(Acquire(s, tid, on, false).locks)
  {
  }

  lemma ExecutedKeepsInv(s: System, tid: Tid)
    requires Inv(s) && WriterAt(s, tid)
    requires var w := s.txns[tid];
             && w.open && w.at < |w.program| && Exists(s.tables, Touched(w.program[w.at]))
             && !Blocked(s, tid, Touched(w.program[w.at]), false)
    ensures var w := s.txns[tid];
            Inv(Acquire(s, tid, Touched(w.program[w.at]), false).(txns := s.txns[tid := Executed(w)]))
  {
    var w := s.txns[tid];
    assert TxnInv(s, tid, w);
    hide WriterInv, PhaseInv, TouchedBefore, Executed, Touched, NoConflict, Blocked;
    var s' := Acquire(s, tid, Touched(w.program[w.at]), false);
    ExecutedInv(s, tid, w);
    SameTxnInv(s', s'.(txns := s.txns[tid := Executed(w)]), tid, Executed(w));
    ShareNoConflict(s, tid, Touched(w.program[w.at]));
    Compose(s, s'.(txns := s.txns[tid := Executed(w)]), tid);
  }

  /** What a transaction relies on are the tables and the locks. */
  lemma SameTxnInv(s: System, s': System, tid: Tid, txn: Txn)
    requires TxnInv(s, tid, txn) && s'.tables == s.tables && s'.locks == s.locks
    ensures TxnInv(s', tid, txn)
  {
  }

  lemma EnterKeepsInv(s: System, tid: Tid, phase: Phase)
    requires Inv(s) && tid in s.txns && PhaseInv(s, tid, phase)
    ensures Inv(Enter(s, tid, phase))
  {
    Compose(s, Enter(s, tid, phase), tid);
  }

  lemma AcquireNoConflict(s: System, tid: Tid, on: Resource)
    requires NoConflict(s.locks) && !Blocked(s, tid, on, true)
    ensures NoConflict(Acquire(s, tid, on, true).locks)
  {
  }

  /** Taking locks, and the next phase, are the only changes. */
  lemma LocksTaken(s: System, locks: set<Lock>, tid: Tid, phase: Phase)
    requires Inv(s) && tid in s.txns && s.locks <= locks && forall l | l in locks - s.locks :: l.owner == tid
    requires NoConflict(locks) && PhaseInv(s.(locks := locks), tid, phase)
    ensures Inv(Enter(s.(locks := locks), tid, phase))
  {
    var s' := Enter(s.(locks := locks), tid, phase);
    SameTxnInv(s.(locks := locks), s', tid, Rollback(phase));
    hide PhaseInv, WriterInv, NoConflict;
    assert forall l | l in locks :: l in s.locks || l in locks - s.locks;
    Compose(s, s', tid);
  }

  lemma AcquireKeepsInv(s: System, tid: Tid, t: Table, phase: Phase)
    requires Inv(s) && tid in s.txns && !Blocked(s, tid, Of(t), true)
    requires PhaseInv(Acquire(s, tid, Of(t), true), tid, phase)
    ensures Inv(Enter(Acquire(s, tid, Of(t), true), tid, phase))
  {
    hide PhaseInv;
    AcquireNoConflict(s, tid, Of(t));
    LocksTaken(s, Acquire(s, tid, Of(t), true).locks, tid, phase);
  }

  lemma DropKeepsInv(s: System, tid: Tid, t: Table, phase: Phase)
    requires Inv(s) && tid in s.txns && !Blocked(s, tid, Of(t), true) &&
        (Refers(t) ==> !Blocked(s, tid, Companies, true))
    requires PhaseInv(AcquireForDrop(s, tid, t), tid, phase)
    ensures Inv(Enter(AcquireForDrop(s, tid, t), tid, phase))
  {
    hide PhaseInv;
    AcquireNoConflict(s, tid, Of(t));
    if Refers(t) { AcquireNoConflict(Acquire(s, tid, Of(t), true), tid, Companies); }
    LocksTaken(s, AcquireForDrop(s, tid, t).locks, tid, phase);
  }

  lemma AbortKeepsInv(s: System, tid: Tid)
    requires Inv(s) && tid in s.txns
    ensures Inv(Release(s, tid, Rollback(Aborted)))
  {
    Compose(s, Release(s, tid, Rollback(Aborted)), tid);
  }

  lemma AdvanceKeepsInv(s: System, tid: Tid, phase: Phase)
    requires Inv(s) && tid in s.txns && s.txns[tid] == Rollback(phase)
    requires AdvanceRollback(s, tid, phase).Some?
    ensures Inv(AdvanceRollback(s, tid, phase).value)
  {
    assert PhaseInv(s, tid, phase);
    match phase {
      case Ready => EnterKeepsInv(s, tid, Locking(s.tables.Keys, 0));
      case Locking(seen, k) => LockingKeepsInv(s, tid, seen, k);
      case Counting(seen, k, counts) => CountingKeepsInv(s, tid, seen, k, counts);
      case Dropping(seen, k, counts) => DroppingKeepsInv(s, tid, seen, k, counts);
      case _ =>
    }
  }

  lemma LockingKeepsInv(s: System, tid: Tid, seen: set<Table>, k: nat)
    requires Inv(s) && tid in s.txns && PhaseInv(s, tid, Locking(seen, k))
    requires AdvanceRollback(s, tid, Locking(seen, k)).Some?
    ensures Inv(AdvanceRollback(s, tid, Locking(seen, k)).value)
  {
    if k >= TABLE_COUNT {
      assert forall t | t in seen :: Rank(t) < k;
      EnterKeepsInv(s, tid, Counting(seen, 0, map[]));
    } else {
      var t := NameAt(k);
      if t !in seen {
        EnterKeepsInv(s, tid, Locking(seen, k + 1));
      } else if t !in s.tables {
        AbortKeepsInv(s, tid);
      } else {
        AcquireKeepsInv(s, tid, t, Locking(seen, k + 1));
      }
    }
  }

  lemma CountingKeepsInv(s: System, tid: Tid, seen: set<Table>, k: nat, counts: map<Table, nat>)
    requires Inv(s) && tid in s.txns && PhaseInv(s, tid, Counting(seen, k, counts))
    requires AdvanceRollback(s, tid, Counting(seen, k, counts)).Some?
    ensures Inv(AdvanceRollback(s, tid, Counting(seen, k, counts)).value)
  {
    hide Inv, Enter, Release;
    if k >= TABLE_COUNT {
      AbortKeepsInv(s, tid);
      if forall t | t in counts :: counts[t] == 0 {
        EnterKeepsInv(s, tid, Dropping(seen, 0, counts));
      }
    } else {
      var t := NameAt(k);
      EnterKeepsInv(s, tid, Counting(seen, k + 1, counts[t := if t in seen then |s.tables[t]| else 0]));
    }
  }

  /** The locks of a DROP are all that changes, so the rollback goes on as before. */
  lemma DropPhase(s: System, tid: Tid, seen: set<Table>, k: nat, counts: map<Table, nat>)
    requires PhaseInv(s, tid, Dropping(seen, k, counts)) && k < TABLE_COUNT && NameAt(k) in s.tables
    ensures PhaseInv(AcquireForDrop(s, tid, NameAt(k)), tid, Dropping(seen, k + 1, counts))
  {
  }

  lemma DroppingKeepsInv(s: System, tid: Tid, seen: set<Table>, k: nat, counts: map<Table, nat>)
    requires Inv(s) && tid in s.txns && PhaseInv(s, tid, Dropping(seen, k, counts))
    requires AdvanceRollback(s, tid, Dropping(seen, k, counts)).Some?
    ensures Inv(AdvanceRollback(s, tid, Dropping(seen, k, counts)).value)
  {
    if k >= TABLE_COUNT {
      DropsKeepInv(s, tid, seen, k, counts);
    } else if NameAt(k) in s.tables {
      hide Inv, PhaseInv, Enter;
      DropPhase(s, tid, seen, k, counts);
      DropKeepsInv(s, tid, NameAt(k), Dropping(seen, k + 1, counts));
    } else {
      EnterKeepsInv(s, tid, Dropping(seen, k + 1, counts));
    }
  }

  lemma DropsKeepInv(s: System, tid: Tid, seen: set<Table>, k: nat, counts: map<Table, nat>)
    requires Inv(s) && tid in s.txns && PhaseInv(s, tid, Dropping(seen, k, counts)) && k >= TABLE_COUNT
    ensures Inv(AdvanceRollback(s, tid, Dropping(seen, k, counts)).value)
  {
    Compose(s, AdvanceRollback(s, tid, Dropping(seen, k, counts)).value, tid);
  }

  lemma {:induction false} RunKeepsInv(s: System, steps: seq<Step>)
    requires Inv(s) && Run(s, steps).Some?
    ensures Inv(Run(s, steps).value)
    decreases |steps|
  {
    if |steps| > 0 {
      NextKeepsInv(s, steps[0]);
      RunKeepsInv(Next(s, steps[0]).value, steps[1..]);
    }
  }

  // ---------------------------------------------------------------- what a rollback may do to the tables

  predicate RollbackPhase(s: System, tid: Tid) {
    tid in s.txns && s.txns[tid].Rollback?
  }

  /** The step that commits a rollback drops exactly the tables seen at the existence check that still exist,
      and each of them is empty at that moment. */
  lemma CommitDropsOnlyEmptyTables(s: System, tid: Tid)
    requires Inv(s) && RollbackPhase(s, tid) && !s.txns[tid].phase.Committed?
    requires Next(s, Advance(tid)).Some?
    requires Next(s, Advance(tid)).value.txns[tid].phase.Committed?
    ensures s.txns[tid].phase.Dropping?
    ensures forall t | t in s.tables :: t in s.txns[tid].phase.seen && s.tables[t] == {}
    ensures s.txns[tid].phase.seen == s.tables.Keys
    ensures Next(s, Advance(tid)).value.tables == map[]
  {
    var phase := s.txns[tid].phase;
    assert PhaseInv(s, tid, phase);
    assert forall t :: t in phase.seen <==> t in s.tables.Keys;
    assert forall t :: t !in Next(s, Advance(tid)).value.tables;
  }

  /** The same for every interleaving that starts with no lock held and no statement executed. */
  lemma CommittedRollbackFoundEveryTableEmpty(s0: System, before: seq<Step>, tid: Tid)
    requires Initial(s0) && Run(s0, before).Some?
    requires var s := Run(s0, before).value;
             && RollbackPhase(s, tid) && !s.txns[tid].phase.Committed?
             && Next(s, Advance(tid)).Some? && Next(s, Advance(tid)).value.txns[tid].phase.Committed?
    ensures var s := Run(s0, before).value;
            s.txns[tid].phase.Dropping? && s.txns[tid].phase.seen == s.tables.Keys && AllEmpty(s.tables)
  {
    InitialInv(s0);
    RunKeepsInv(s0, before);
    CommitDropsOnlyEmptyTables(Run(s0, before).value, tid);
  }

  /** Until it commits, no statement of a rollback, and no failure, changes any table or any row. */
  lemma OnlyCommitTouchesTables(s: System, step: Step)
    requires RollbackPhase(s, step.tid) && Next(s, step).Some?
    requires !Next(s, step).value.txns[step.tid].phase.Committed?
    ensures Next(s, step).value.tables == s.tables
  {
  }

  lemma {:induction false} CommittedIsFinal(s: System, steps: seq<Step>, tid: Tid)
    requires RollbackPhase(s, tid) && s.txns[tid].phase.Committed?
    requires Run(s, steps).Some?
    ensures tid in Run(s, steps).value.txns && Run(s, steps).value.txns[tid] == s.txns[tid]
    decreases |steps|
  {
    if |steps| > 0 {
      CommittedIsFinal(Next(s, steps[0]).value, steps[1..], tid);
    }
  }

  /** All or nothing: in any run at whose end the rollback is aborted, none of its steps changed a table. */
  lemma AbortedRollbackChangedNothing(s: System, step: Step, rest: seq<Step>)
    requires RollbackPhase(s, step.tid) && Next(s, step).Some?
    requires Run(Next(s, step).value, rest).Some?
    requires var end := Run(Next(s, step).value, rest).value;
             RollbackPhase(end, step.tid) && end.txns[step.tid].phase.Aborted?
    ensures Next(s, step).value.tables == s.tables
  {
    var s' := Next(s, step).value;
    if s'.txns[step.tid].phase.Committed? {
      CommittedIsFinal(s', rest, step.tid);
    }
    OnlyCommitTouchesTables(s, step);
  }

  /** Every committed row of `s` is still there in `s'`. */
  predicate RowsKept(s: System, s': System) {
    forall t | t in s.tables && s.tables[t] != {} :: t in s'.tables && s.tables[t] <= s'.tables[t]
  }

  lemma StepKeepsRows(s: System, step: Step)
    requires Inv(s) && Next(s, step).Some?
    ensures RowsKept(s, Next(s, step).value)
  {
    var tid := step.tid;
    var s' := Next(s, step).value;
    if RollbackPhase(s, tid) {
      if s'.txns[tid].phase.Committed? {
        CommitDropsOnlyEmptyTables(s, tid);
      } else {
        OnlyCommitTouchesTables(s, step);
      }
    }
  }

  /** No interleaving of rollbacks and writers ever loses a committed row. */
  lemma {:induction false} NoCommittedRowIsLost(s: System, steps: seq<Step>)
    requires Inv(s) && Run(s, steps).Some?
    ensures RowsKept(s, Run(s, steps).value)
    decreases |steps|
  {
    if |steps| > 0 {
      var s' := Next(s, steps[0]).value;
      StepKeepsRows(s, steps[0]);
      NextKeepsInv(s, steps[0]);
      NoCommittedRowIsLost(s', steps[1..]);
      var end := Run(s, steps).value;
      forall t | t in s.tables && s.tables[t] != {}
        ensures t in end.tables && s.tables[t] <= end.tables[t]
      {
        var r := SomeMember(s.tables[t]);
        assert r in s'.tables[t];
      }
    }
  }

  // ---------------------------------------------------------------- the call

  function CountsOf(tables: Catalogue): (counts: map<Table, nat>) {
    map t: Table | true :: if t in tables then |tables[t]| else 0
  }

  predicate AllEmpty(tables: Catalogue) {
    forall t | t in tables :: tables[t] == {}
  }

  lemma CountsZeroIffEmpty(tables: Catalogue)
    ensures AllEmpty(tables) <==> forall t | t in CountsOf(tables) :: CountsOf(tables)[t] == 0
  {
    var counts := CountsOf(tables);
    if forall t | t in counts :: counts[t] == 0 {
      forall t | t in tables
        ensures tables[t] == {}
      {
        assert t in counts;
      }
    }
  }

  /** The connection of `apply_classification_claims_rollback`, with nobody else on the tables. */
  class Connection {
    var tables: Catalogue

    method ApplyRollback() returns (r: Result<map<Table, nat>, map<Table, nat>>)
      modifies this
      ensures r.Ok? <==> AllEmpty(old(tables))
      ensures r.Ok? ==> tables == map[] && r.value == CountsOf(old(tables))
      ensures r.Err? ==> tables == old(tables)
      ensures r.Ok? ==> forall t: Table :: t in r.value && r.value[t] == 0
      ensures r.Err? ==> r.error == map t | t in CountsOf(tables) && CountsOf(tables)[t] > 0 :: CountsOf(tables)[t]
      ensures r.Err? ==> forall t :: t in r.error <==> t in tables && tables[t] != {}
      ensures r.Err? ==> forall t | t in r.error && t in tables :: r.error[t] == |tables[t]|
    {
      CountsZeroIffEmpty(tables);
      var existing := tables.Keys;
      var counts: map<Table, nat> := map[];
      for i := 0 to TABLE_COUNT
        invariant forall t :: t in counts <==> Rank(t) < i
        invariant forall t | t in counts :: counts[t] == CountsOf(tables)[t]
      {
        var name := NameAt(i);
        counts := counts[name := if name in existing then |tables[name]| else 0];
      }
      assert counts == CountsOf(tables) by {
        assert forall t | t in counts :: counts[t] == CountsOf(tables)[t];
      }
      var nonEmpty := map t | t in counts && counts[t] > 0 :: counts[t];
      if exists t :: t in nonEmpty {
        return Err(nonEmpty);
      }
      for i := 0 to TABLE_COUNT
        invariant forall t | t in tables :: Rank(t) >= i
      {
        tables := map t | t in tables && t != NameAt(i) :: tables[t];
      }
      assert forall t :: t !in tables;
      return Ok(counts);
    }
  }
}
