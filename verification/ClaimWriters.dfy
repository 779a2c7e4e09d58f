/** What writers leave in the tables: the rows of their inserts, all at their commit or none at all. */
module ClaimWriters {
  import opened Outcomes
  import opened ClaimRollback

  /** One of the first `n` statements inserts `row` into `t`. */
  predicate Inserts(program: seq<Statement>, n: nat, t: Table, row: nat) {
    exists i | 0 <= i < n && i < |program| :: program[i] == Insert(t, row)
  }

  predicate PendingRow(w: Txn, t: Table, row: nat)
    requires w.Writer?
  {
    t in w.pending && row in w.pending[t]
  }

  /** What an open writer has not committed yet is what its statements so far have inserted. */
  ghost predicate PendingIs(w: Txn)
    requires w.Writer?
  {
    w.at <= |w.program| && forall t, row :: PendingRow(w, t, row) <==> Inserts(w.program, w.at, t, row)
  }

  ghost predicate PendingInv(s: System) {
    forall tid | tid in s.txns && s.txns[tid].Writer? && s.txns[tid].open :: PendingIs(s.txns[tid])
  }

  lemma InsertsNext(program: seq<Statement>, n: nat, t: Table, row: nat)
    requires n < |program|
    ensures Inserts(program, n + 1, t, row) <==> Inserts(program, n, t, row) || program[n] == Insert(t, row)
  {
  }

  lemma ExecutedPending(w: Txn)
    requires w.Writer? && w.at < |w.program| && PendingIs(w)
    ensures PendingIs(Executed(w))
  {
    hide Inserts;
    var w' := Executed(w);
    forall t, row
      ensures PendingRow(w', t, row) <==> Inserts(w.program, w.at + 1, t, row)
    {
      InsertsNext(w.program, w.at, t, row);
    }
  }

  lemma InitialPending(s: System)
    requires Initial(s)
    ensures PendingInv(s)
  {
  }

  lemma StepKeepsPending(s: System, step: Step)
    requires PendingInv(s) && Next(s, step).Some?
    ensures PendingInv(Next(s, step).value)
  {
    hide PendingIs, Blocked;
    var txn := s.txns[step.tid];
    if txn.Writer? && txn.open && txn.at < |txn.program| { ExecutedPending(txn); }
  }

  lemma {:induction false} RunKeepsPending(s: System, steps: seq<Step>)
    requires PendingInv(s) && Run(s, steps).Some?
    ensures PendingInv(Run(s, steps).value)
    decreases |steps|
  {
    if |steps| > 0 {
      StepKeepsPending(s, steps[0]);
      RunKeepsPending(Next(s, steps[0]).value, steps[1..]);
    }
  }

  /** Writer `tid` has executed its whole program and not ended yet. */
  predicate CanCommit(s: System, tid: Tid) {
    WriterAt(s, tid) && s.txns[tid].open && s.txns[tid].at >= |s.txns[tid].program|
  }

  predicate HasRow(s: System, t: Table, row: nat) {
    t in s.tables && row in s.tables[t]
  }

  /** A commit leaves every table, and adds exactly the rows that the program inserts. */
  lemma CommitStoresProgram(s0: System, steps: seq<Step>, tid: Tid, t: Table, row: nat)
    requires Initial(s0) && Run(s0, steps).Some? && CanCommit(Run(s0, steps).value, tid)
    ensures var s := Run(s0, steps).value;
            var program := s.txns[tid].program;
            && Next(s, Advance(tid)).Some?
            && Next(s, Advance(tid)).value.tables.Keys == s.tables.Keys
            && (HasRow(Next(s, Advance(tid)).value, t, row) <==>
                HasRow(s, t, row) || exists i :: 0 <= i < |program| && program[i] == Insert(t, row))
  {
    InitialPending(s0);
    RunKeepsPending(s0, steps);
    InitialInv(s0);
    RunKeepsInv(s0, steps);
    var s := Run(s0, steps).value;
    var w := s.txns[tid];
    assert PendingIs(w) && TxnInv(s, tid, w);
    assert PendingRow(w, t, row) <==> Inserts(w.program, w.at, t, row);
    assert forall u :: u in CommitWriter(s, tid, w).tables <==> u in s.tables;
  }

  /** Until it commits, and when it fails or meets a table that is gone, a writer changes no table. */
  lemma OnlyCommitStores(s: System, step: Step)
    requires WriterAt(s, step.tid) && Next(s, step).Some? && !(step.Advance? && CanCommit(s, step.tid))
    ensures Next(s, step).value.tables == s.tables
  {
  }

  /** Some writer has an insert of this row in its program. */
  predicate SomeoneInserts(s: System, t: Table, row: nat) {
    exists tid | tid in s.txns :: s.txns[tid].Writer? && Insert(t, row) in s.txns[tid].program
  }

  lemma RollbackBringsNoRow(s: System, step: Step, t: Table, row: nat)
    requires RollbackPhase(s, step.tid) && Next(s, step).Some?
    ensures HasRow(Next(s, step).value, t, row) ==> HasRow(s, t, row)
  {
  }

  lemma WriterBringsItsRows(s: System, step: Step, t: Table, row: nat)
    requires PendingInv(s) && WriterAt(s, step.tid) && Next(s, step).Some?
    ensures HasRow(Next(s, step).value, t, row) ==> HasRow(s, t, row) || Insert(t, row) in s.txns[step.tid].program
  {
    hide Blocked;
    var w := s.txns[step.tid];
    if step.Advance? && CanCommit(s, step.tid) {
      assert PendingIs(w);
      assert PendingRow(w, t, row) <==> Inserts(w.program, w.at, t, row);
    } else {
      OnlyCommitStores(s, step);
    }
  }

  /** A step leaves every program as it is and brings no row that no program inserts. */
  lemma StepBringsNoRow(s: System, step: Step, t: Table, row: nat)
    requires PendingInv(s) && Next(s, step).Some?
    ensures HasRow(Next(s, step).value, t, row) ==> HasRow(s, t, row) || SomeoneInserts(s, t, row)
    ensures SomeoneInserts(Next(s, step).value, t, row) ==> SomeoneInserts(s, t, row)
  {
    ProgramsStay(s, step);
    StepHasTxn(s, step);
    hide Next, PendingInv, HasRow;
    var s' := Next(s, step).value;
    if SomeoneInserts(s', t, row) {
      var u :| u in s'.txns && s'.txns[u].Writer? && Insert(t, row) in s'.txns[u].program;
      assert u in s.txns && s.txns[u].Writer? && s.txns[u].program == s'.txns[u].program;
    }
    if WriterAt(s, step.tid) {
      WriterBringsItsRows(s, step, t, row);
    } else {
      RollbackBringsNoRow(s, step, t, row);
    }
  }

  lemma StepHasTxn(s: System, step: Step)
    requires Next(s, step).Some?
    ensures step.tid in s.txns
  {
  }

  lemma ProgramsStay(s: System, step: Step)
    requires Next(s, step).Some?
    ensures var s' := Next(s, step).value;
            && s'.txns.Keys == s.txns.Keys
            && forall u | u in s.txns :: s'.txns[u].Writer? == s.txns[u].Writer? &&
                                         (s.txns[u].Writer? ==> s'.txns[u].program == s.txns[u].program)
  {
  }

  /** Over any run, every row of a table was there at the beginning or is inserted by the program of a writer. */
  lemma {:induction false} NoRowAppears(s: System, steps: seq<Step>, t: Table, row: nat)
    requires PendingInv(s) && Run(s, steps).Some?
    ensures HasRow(Run(s, steps).value, t, row) ==> HasRow(s, t, row) || SomeoneInserts(s, t, row)
    decreases |steps|
  {
    hide Next, PendingInv, SomeoneInserts, HasRow;
    if |steps| > 0 {
      StepKeepsPending(s, steps[0]);
      StepBringsNoRow(s, steps[0], t, row);
      NoRowAppears(Next(s, steps[0]).value, steps[1..], t, row);
    }
  }
}
