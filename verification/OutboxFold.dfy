/** What the outbox adds up to: a drainer that applies rows in id order reaches the same
    tuples as the commits in their order, for every tuple that one lock protects. */
module OutboxFold {
  import opened Common
  import opened FgaIntents
  import opened RegistryStore
  import opened UseCases
  import opened OutboxOrder

  /** Whether the tuple is present after the row, given whether it was before. */
  function ApplyIntent(i: OutboxIntent, tuple: Tuple, present: bool): bool {
    if tuple in i.intent.tuples then i.event.Register? else present
  }

  function ApplyRows(rows: seq<OutboxIntent>, tuple: Tuple, present: bool): bool {
    if rows == [] then present
    else ApplyIntent(rows[|rows| - 1], tuple, ApplyRows(rows[..|rows| - 1], tuple, present))
  }

  /** The tuple after the visible rows with id below n, taken in id order. */
  function FoldById(outbox: map<nat, OutboxRow>, n: nat, tuple: Tuple): bool {
    if n == 0 then false
    else
      var before := FoldById(outbox, n - 1, tuple);
      if n - 1 in outbox then ApplyIntent(outbox[n - 1].intent, tuple, before) else before
  }

  function FoldByCommit(commits: seq<Committed>, tuple: Tuple): bool {
    if commits == [] then false
    else
      var last := commits[|commits| - 1];
      ApplyRows(Rows(last.request), tuple, FoldByCommit(commits[..|commits| - 1], tuple))
  }

  /** One transaction executed alone. */
  function RunAlone(registries: map<string, Registry>, r: Request): map<string, Registry> {
    match Execute(SlotOf(registries, r.registryId), DmlOf(r))
    case Success(slot) => SetSlot(registries, r.registryId, slot)
    case Failure(_) => registries
  }

  /** The registries and overlay rows that executing the commits one after another gives. */
  function Replay(commits: seq<Committed>): map<string, Registry> {
    if commits == [] then map[]
    else RunAlone(Replay(commits[..|commits| - 1]), commits[|commits| - 1].request)
  }

  lemma PublishIsRunAlone(registries: map<string, Registry>, tx: Tx)
    requires DmlOf(tx.request).EmitOnly? || tx.seen == SlotOf(registries, tx.request.registryId)
    ensures Publish(registries, tx) == RunAlone(registries, tx.request)
  {
    if DmlOf(tx.request).EmitOnly? {
      var id := tx.request.registryId;
      assert SetSlot(registries, id, SlotOf(registries, id)) == registries;
    }
  }

  lemma CommitIsSerial(w: World, t: nat)
    requires Inv(w) && Enabled(w, Commit(t)) && w.registries == Replay(w.commits)
    ensures Apply(w, Commit(t)).registries == Replay(Apply(w, Commit(t)).commits)
  {
    var tx := w.live[t];
    assert TxOk(w, tx);
    PublishIsRunAlone(w.registries, tx);
    var commits := w.commits + [Committed(tx.request, tx.drawn)];
    assert commits[..|commits| - 1] == w.commits;
    assert Replay(commits) == RunAlone(w.registries, tx.request);
  }

  lemma {:induction false} SerialFrom(w: World, steps: seq<Step>, w': World)
    requires Inv(w) && w.registries == Replay(w.commits) && Runs(w, steps, w')
    ensures w'.registries == Replay(w'.commits)
    decreases |steps|
  {
    if steps != [] {
      StepKeepsInv(w, steps[0]);
      if steps[0].Commit? {
        CommitIsSerial(w, steps[0].tx);
      }
      SerialFrom(Apply(w, steps[0]), steps[1..], w');
    }
  }

  /** Interleaving never shows: the tables are those of the committed transactions run alone,
      one after another, in commit order. */
  lemma TransactionsAreSerial(steps: seq<Step>, w: World)
    requires Runs(INIT, steps, w)
    ensures w.registries == Replay(w.commits)
  {
    SerialFrom(INIT, steps, w);
  }

  // ---- folding in id order ----

  predicate Mentions(rows: seq<OutboxIntent>, tuple: Tuple) {
    exists i <- rows :: tuple in i.intent.tuples
  }

  /** Every transaction of the run that mentions the tuple takes the one lock. */
  ghost predicate Guards(lock: Lock, tuple: Tuple, steps: seq<Step>) {
    forall s <- steps :: s.Begin? && Mentions(Rows(s.request), tuple) ==> LockOf(s.request) == lock
  }

  ghost predicate GuardedIn(w: World, lock: Lock, tuple: Tuple) {
    && (forall t <- w.live :: Mentions(Rows(w.live[t].request), tuple) ==> LockOf(w.live[t].request) == lock)
    && (forall id <- w.outbox :: tuple in w.outbox[id].intent.intent.tuples ==> LockOf(w.outbox[id].writer) == lock)
  }

  /** A row above every earlier row that mentions the tuple is applied last. */
  lemma FoldInsert(outbox: map<nat, OutboxRow>, n: nat, id: nat, row: OutboxRow, tuple: Tuple)
    requires id < n
    requires forall j <- outbox :: j >= id ==> tuple !in outbox[j].intent.intent.tuples
    ensures FoldById(outbox[id := row], n, tuple) == ApplyIntent(row.intent, tuple, FoldById(outbox, n, tuple))
  {
    if n - 1 == id {
      FoldBelow(outbox, id, row, id, tuple);
    } else {
      FoldInsert(outbox, n - 1, id, row, tuple);
    }
  }

  lemma {:induction false} FoldBelow(outbox: map<nat, OutboxRow>, id: nat, row: OutboxRow, n: nat, tuple: Tuple)
    requires n <= id
    ensures FoldById(outbox[id := row], n, tuple) == FoldById(outbox, n, tuple)
  {
    if n != 0 {
      FoldBelow(outbox, id, row, n - 1, tuple);
    }
  }

  lemma {:induction false} FoldNeutral(outbox: map<nat, OutboxRow>, n: nat, id: nat, row: OutboxRow, tuple: Tuple)
    requires id !in outbox && tuple !in row.intent.intent.tuples
    ensures FoldById(outbox[id := row], n, tuple) == FoldById(outbox, n, tuple)
  {
    if n != 0 {
      FoldNeutral(outbox, n - 1, id, row, tuple);
    }
  }

  lemma FoldExtend(outbox: map<nat, OutboxRow>, n: nat, m: nat, tuple: Tuple)
    requires n <= m && forall id <- outbox :: id < n
    ensures FoldById(outbox, m, tuple) == FoldById(outbox, n, tuple)
  {
  }

  /** Publishing a transaction's rows applies them on top of what was visible. */
  lemma {:induction false} FoldAddRows(outbox: map<nat, OutboxRow>, n: nat, base: nat, ids: seq<nat>,
                                       rows: seq<OutboxIntent>, writer: Request, tuple: Tuple)
    requires |ids| == |rows| && Increasing(ids)
    requires forall i :: 0 <= i < |ids| ==> base <= ids[i] < n && ids[i] !in outbox
    requires Mentions(rows, tuple) ==> forall j <- outbox :: j >= base ==> tuple !in outbox[j].intent.intent.tuples
    ensures FoldById(AddRows(outbox, ids, rows, writer), n, tuple) == ApplyRows(rows, tuple, FoldById(outbox, n, tuple))
  {
    if ids != [] {
      var k := |ids| - 1;
      var inner := AddRows(outbox, ids[..k], rows[..k], writer);
      FoldAddRows(outbox, n, base, ids[..k], rows[..k], writer, tuple);
      AddRowsKeys(outbox, ids[..k], rows[..k], writer);
      if tuple in rows[k].intent.tuples {
        assert rows[k] in rows;
        FoldInsert(inner, n, ids[k], OutboxRow(rows[k], writer), tuple);
      } else {
        FoldNeutral(inner, n, ids[k], OutboxRow(rows[k], writer), tuple);
      }
    }
  }

  lemma CommitAppliesRows(w: World, t: nat, lock: Lock, tuple: Tuple)
    requires Inv(w) && Enabled(w, Commit(t)) && GuardedIn(w, lock, tuple)
    ensures FoldById(Apply(w, Commit(t)).outbox, w.nextId, tuple)
            == ApplyRows(Rows(w.live[t].request), tuple, FoldById(w.outbox, w.nextId, tuple))
  {
    var tx := w.live[t];
    assert TxOk(w, tx);
    forall i | 0 <= i < |tx.drawn| ensures tx.base <= tx.drawn[i] < w.nextId && tx.drawn[i] !in w.outbox {
      assert tx.drawn[i] in tx.drawn;
    }
    FoldAddRows(w.outbox, w.nextId, tx.base, tx.drawn, Rows(tx.request), tx.request, tuple);
  }

  lemma AddRowsGuarded(outbox: map<nat, OutboxRow>, ids: seq<nat>, rows: seq<OutboxIntent>, writer: Request,
                       lock: Lock, tuple: Tuple)
    requires |ids| == |rows| && (Mentions(rows, tuple) ==> LockOf(writer) == lock)
    requires forall id <- outbox :: tuple in outbox[id].intent.intent.tuples ==> LockOf(outbox[id].writer) == lock
    ensures var added := AddRows(outbox, ids, rows, writer);
            forall id <- added :: tuple in added[id].intent.intent.tuples ==> LockOf(added[id].writer) == lock
  {
    if ids != [] {
      var k := |ids| - 1;
      if Mentions(rows[..k], tuple) {
        var i :| i in rows[..k] && tuple in i.intent.tuples;
        assert i in rows;
      }
      assert rows[k] in rows;
      AddRowsGuarded(outbox, ids[..k], rows[..k], writer, lock, tuple);
    }
  }

  lemma StepKeepsGuarded(w: World, step: Step, lock: Lock, tuple: Tuple)
    requires Inv(w) && Enabled(w, step) && GuardedIn(w, lock, tuple)
    requires step.Begin? && Mentions(Rows(step.request), tuple) ==> LockOf(step.request) == lock
    ensures GuardedIn(Apply(w, step), lock, tuple)
  {
    match step
    case Begin(_, _) =>
    case Rollback(_) =>
    case Emit(t) =>
      var live' := Apply(w, step).live;
      assert forall u <- live' :: live'[u].request == w.live[u].request;
    case Commit(t) => CommitKeepsGuarded(w, t, lock, tuple);
  }

  lemma CommitKeepsGuarded(w: World, t: nat, lock: Lock, tuple: Tuple)
    requires Inv(w) && Enabled(w, Commit(t)) && GuardedIn(w, lock, tuple)
    ensures GuardedIn(Apply(w, Commit(t)), lock, tuple)
  {
    var tx := w.live[t];
    var w' := Apply(w, Commit(t));
    AddRowsGuarded(w.outbox, tx.drawn, Rows(tx.request), tx.request, lock, tuple);
    forall id <- w'.outbox | tuple in w'.outbox[id].intent.intent.tuples ensures LockOf(w'.outbox[id].writer) == lock {
      assert id in AddRows(w.outbox, tx.drawn, Rows(tx.request), tx.request);
    }
  }

  ghost predicate FoldsAgree(w: World, tuple: Tuple) {
    FoldById(w.outbox, w.nextId, tuple) == FoldByCommit(w.commits, tuple)
  }

  lemma StepKeepsFolds(w: World, step: Step, lock: Lock, tuple: Tuple)
    requires Inv(w) && Enabled(w, step) && GuardedIn(w, lock, tuple) && FoldsAgree(w, tuple)
    ensures FoldsAgree(Apply(w, step), tuple)
  {
    match step
    case Begin(_, _) =>
    case Rollback(_) =>
    case Emit(_) => FoldExtend(w.outbox, w.nextId, w.nextId + 1, tuple);
    case Commit(t) =>
      CommitAppliesRows(w, t, lock, tuple);
      assert Apply(w, step).commits[..|w.commits|] == w.commits;
  }

  lemma {:induction false} FoldsAgreeFrom(w: World, steps: seq<Step>, w': World, lock: Lock, tuple: Tuple)
    requires Inv(w) && Runs(w, steps, w') && GuardedIn(w, lock, tuple) && Guards(lock, tuple, steps)
    requires FoldsAgree(w, tuple)
    ensures FoldsAgree(w', tuple)
    decreases |steps|
  {
    if steps != [] {
      assert steps[0] in steps;
      StepKeepsInv(w, steps[0]);
      StepKeepsGuarded(w, steps[0], lock, tuple);
      StepKeepsFolds(w, steps[0], lock, tuple);
      FoldsAgreeFrom(Apply(w, steps[0]), steps[1..], w', lock, tuple);
    }
  }

  /** Draining in id order reaches the state of the last commit, for any tuple one lock guards. */
  lemma DrainingFollowsCommits(steps: seq<Step>, w: World, lock: Lock, tuple: Tuple)
    requires Runs(INIT, steps, w) && Guards(lock, tuple, steps)
    ensures FoldById(w.outbox, w.nextId, tuple) == FoldByCommit(w.commits, tuple)
  {
    FoldsAgreeFrom(INIT, steps, w, lock, tuple);
  }
}
