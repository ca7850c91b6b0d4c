/** Interleaved writer transactions: each takes its row or advisory lock, draws outbox ids
    from one shared sequence, and publishes rows and intents at commit. */
module OutboxOrder {
  import opened Common
  import opened FgaIntents
  import opened RegistryStore
  import opened UseCases

  /** Overlay and registry writes hold the registries row; repo intents an advisory lock. */
  datatype Lock = RegistryRow(id: string) | Advisory(hash: int)

  function LockOf(r: Request): Lock {
    match DmlOf(r)
    case EmitOnly(hash) => Advisory(hash)
    case _ => RegistryRow(r.registryId)
  }

  function Rows(r: Request): seq<OutboxIntent> {
    Emitted(IntentsOf(r))
  }

  datatype OutboxRow = OutboxRow(intent: OutboxIntent, writer: Request)

  /** A transaction past its guard and DML: `seen` is the registry as its statement saw it
      and `base` the sequence value when it got its lock. */
  datatype Tx = Tx(request: Request, seen: Slot, base: nat, drawn: seq<nat>)

  datatype Committed = Committed(request: Request, ids: seq<nat>)

  /** Committed tables, the identity sequence, open transactions and the commit history. */
  datatype World = World(
    registries: map<string, Registry>, outbox: map<nat, OutboxRow>, nextId: nat,
    live: map<nat, Tx>, commits: seq<Committed>)

  datatype Step = Begin(tx: nat, request: Request) | Emit(tx: nat) | Commit(tx: nat) | Rollback(tx: nat)

  const INIT := World(map[], map[], 0, map[], [])

  /** A lock is free when no open transaction holds it; a failed guard or DML opens nothing. */
  ghost predicate Enabled(w: World, step: Step) {
    match step
    case Begin(t, r) =>
      && t !in w.live
      && (forall u <- w.live :: LockOf(w.live[u].request) != LockOf(r))
      && Execute(SlotOf(w.registries, r.registryId), DmlOf(r)).Success?
    case Emit(t) => t in w.live && |w.live[t].drawn| < |Rows(w.live[t].request)|
    case Commit(t) => t in w.live && |w.live[t].drawn| == |Rows(w.live[t].request)|
    case Rollback(t) => t in w.live
  }

  function AddRows(outbox: map<nat, OutboxRow>, ids: seq<nat>, rows: seq<OutboxIntent>, writer: Request)
    : map<nat, OutboxRow>
    requires |ids| == |rows|
  {
    if ids == [] then outbox
    else
      AddRows(outbox, ids[..|ids| - 1], rows[..|ids| - 1], writer)[ids[|ids| - 1] := OutboxRow(rows[|ids| - 1], writer)]
  }

  /** Publishes what the transaction computed from the slot it saw; repo intents write no table. */
  function Publish(registries: map<string, Registry>, tx: Tx): map<string, Registry> {
    if DmlOf(tx.request).EmitOnly? then registries
    else match Execute(tx.seen, DmlOf(tx.request))
      case Success(slot) => SetSlot(registries, tx.request.registryId, slot)
      case Failure(_) => registries
  }

  ghost function Apply(w: World, step: Step): World
    requires Enabled(w, step)
  {
    match step
    case Begin(t, r) => w.(live := w.live[t := Tx(r, SlotOf(w.registries, r.registryId), w.nextId, [])])
    case Emit(t) =>
      var tx := w.live[t];
      w.(live := w.live[t := tx.(drawn := tx.drawn + [w.nextId])], nextId := w.nextId + 1)
    case Commit(t) =>
      var tx := w.live[t];
      w.(registries := Publish(w.registries, tx),
         outbox := AddRows(w.outbox, tx.drawn, Rows(tx.request), tx.request),
         live := w.live - {t},
         commits := w.commits + [Committed(tx.request, tx.drawn)])
    case Rollback(t) => w.(live := w.live - {t})
  }

  ghost predicate Runs(w: World, steps: seq<Step>, w': World)
    decreases |steps|
  {
    if steps == [] then w' == w
    else Enabled(w, steps[0]) && Runs(Apply(w, steps[0]), steps[1..], w')
  }

  // ---- the invariant ----

  predicate Increasing(ids: seq<nat>) {
    forall i, j :: 0 <= i < j < |ids| ==> ids[i] < ids[j]
  }

  predicate AllBelow(ids: seq<nat>, bound: nat) {
    forall id <- ids :: id < bound
  }

  /** Drawn ids grow, come after the lock was taken and are not visible yet. */
  ghost predicate DrawnOk(w: World, tx: Tx) {
    && tx.base <= w.nextId
    && |tx.drawn| <= |Rows(tx.request)|
    && Increasing(tx.drawn)
    && (forall id <- tx.drawn :: tx.base <= id < w.nextId && id !in w.outbox)
  }

  /** Nobody else writes the registry while its row lock is held. */
  ghost predicate SeenOk(w: World, tx: Tx) {
    DmlOf(tx.request).EmitOnly? ||
    (tx.seen == SlotOf(w.registries, tx.request.registryId) && Execute(tx.seen, DmlOf(tx.request)).Success?)
  }

  /** Everything committed under the same lock drew its ids before this transaction got it. */
  ghost predicate AfterCommitted(w: World, tx: Tx) {
    && (forall id <- w.outbox :: LockOf(w.outbox[id].writer) == LockOf(tx.request) ==> id < tx.base)
    && (forall c <- w.commits :: LockOf(c.request) == LockOf(tx.request) ==> AllBelow(c.ids, tx.base))
  }

  ghost predicate TxOk(w: World, tx: Tx) {
    DrawnOk(w, tx) && SeenOk(w, tx) && AfterCommitted(w, tx)
  }

  ghost predicate Exclusive(w: World) {
    forall t, u :: t in w.live && u in w.live && t != u ==>
      && LockOf(w.live[t].request) != LockOf(w.live[u].request)
      && (forall id <- w.live[t].drawn :: id !in w.live[u].drawn)
  }

  /** Per lock, ids follow commit order: every id of an earlier commit is below every later one. */
  ghost predicate OrderedByCommit(commits: seq<Committed>) {
    && (forall c <- commits :: Increasing(c.ids) && |c.ids| == |Rows(c.request)|)
    && (forall i, j :: 0 <= i < j < |commits| && LockOf(commits[i].request) == LockOf(commits[j].request) ==>
          forall a, b :: a in commits[i].ids && b in commits[j].ids ==> a < b)
  }

  ghost predicate Inv(w: World) {
    && (forall t <- w.live :: TxOk(w, w.live[t]))
    && Exclusive(w)
    && OrderedByCommit(w.commits)
    && (forall c <- w.commits :: AllBelow(c.ids, w.nextId))
    && (forall id <- w.outbox :: id < w.nextId)
  }

  lemma AddRowsKeys(outbox: map<nat, OutboxRow>, ids: seq<nat>, rows: seq<OutboxIntent>, writer: Request)
    requires |ids| == |rows|
    ensures var added := AddRows(outbox, ids, rows, writer);
            && (forall id :: id in added <==> id in outbox || id in ids)
            && (forall id <- added :: if id in ids then added[id].writer == writer else added[id] == outbox[id])
  {
    if ids != [] {
      AddRowsKeys(outbox, ids[..|ids| - 1], rows[..|ids| - 1], writer);
      assert ids == ids[..|ids| - 1] + [ids[|ids| - 1]];
    }
  }

  lemma BeginKeepsInv(w: World, t: nat, r: Request)
    requires Inv(w) && Enabled(w, Begin(t, r))
    ensures Inv(Apply(w, Begin(t, r)))
  {
    var w' := Apply(w, Begin(t, r));
    forall u <- w'.live ensures TxOk(w', w'.live[u]) {
      if u != t {
        assert TxOk(w, w.live[u]);
      }
    }
  }

  lemma EmitKeepsTx(w: World, t: nat, u: nat)
    requires Inv(w) && Enabled(w, Emit(t)) && u in w.live
    ensures var w' := Apply(w, Emit(t)); TxOk(w', w'.live[u])
  {
    var w' := Apply(w, Emit(t));
    var tx, tx' := w.live[u], w'.live[u];
    assert TxOk(w, tx);
    assert tx'.request == tx.request && tx'.seen == tx.seen && tx'.base == tx.base;
    assert SeenOk(w', tx') && AfterCommitted(w', tx');
    assert DrawnOk(w', tx') by {
      if u == t {
        assert tx'.drawn == tx.drawn + [w.nextId];
        forall i | 0 <= i < |tx.drawn| ensures tx.drawn[i] < w.nextId {
          assert tx.drawn[i] in tx.drawn;
        }
      }
    }
  }

  lemma EmitKeepsExclusive(w: World, t: nat)
    requires Inv(w) && Enabled(w, Emit(t))
    ensures Exclusive(Apply(w, Emit(t)))
  {
    var w' := Apply(w, Emit(t));
    forall a, b | a in w'.live && b in w'.live && a != b
      ensures LockOf(w'.live[a].request) != LockOf(w'.live[b].request)
      ensures forall id <- w'.live[a].drawn :: id !in w'.live[b].drawn
    {
      assert TxOk(w, w.live[a]) && TxOk(w, w.live[b]);
    }
  }

  lemma EmitKeepsInv(w: World, t: nat)
    requires Inv(w) && Enabled(w, Emit(t))
    ensures Inv(Apply(w, Emit(t)))
  {
    var w' := Apply(w, Emit(t));
    forall u <- w'.live ensures TxOk(w', w'.live[u]) {
      EmitKeepsTx(w, t, u);
    }
    EmitKeepsExclusive(w, t);
    assert forall c <- w'.commits :: AllBelow(c.ids, w'.nextId);
  }

  lemma RollbackKeepsInv(w: World, t: nat)
    requires Inv(w) && Enabled(w, Rollback(t))
    ensures Inv(Apply(w, Rollback(t)))
  {
    var w' := Apply(w, Rollback(t));
    forall u <- w'.live ensures TxOk(w', w'.live[u]) {
      assert TxOk(w, w.live[u]);
    }
  }

  lemma CommitKeepsTx(w: World, t: nat, u: nat)
    requires Inv(w) && Enabled(w, Commit(t)) && u in w.live && u != t
    ensures TxOk(Apply(w, Commit(t)), w.live[u])
  {
    var w' := Apply(w, Commit(t));
    var tx, other := w.live[t], w.live[u];
    assert TxOk(w, tx) && TxOk(w, other);
    AddRowsKeys(w.outbox, tx.drawn, Rows(tx.request), tx.request);
    assert LockOf(tx.request) != LockOf(other.request);
  }

  lemma CommitKeepsInv(w: World, t: nat)
    requires Inv(w) && Enabled(w, Commit(t))
    ensures Inv(Apply(w, Commit(t)))
  {
    var w' := Apply(w, Commit(t));
    var tx := w.live[t];
    assert TxOk(w, tx);
    AddRowsKeys(w.outbox, tx.drawn, Rows(tx.request), tx.request);
    forall u <- w'.live ensures TxOk(w', w'.live[u]) {
      CommitKeepsTx(w, t, u);
    }
    var n := |w.commits|;
    forall i, j | 0 <= i < j < n + 1 && LockOf(w'.commits[i].request) == LockOf(w'.commits[j].request)
      ensures forall a, b :: a in w'.commits[i].ids && b in w'.commits[j].ids ==> a < b
    {
      if j == n {
        assert w'.commits[i] in w.commits;
        assert AllBelow(w'.commits[i].ids, tx.base);
      }
    }
  }

  lemma StepKeepsInv(w: World, step: Step)
    requires Inv(w) && Enabled(w, step)
    ensures Inv(Apply(w, step))
  {
    match step
    case Begin(t, r) => BeginKeepsInv(w, t, r);
    case Emit(t) => EmitKeepsInv(w, t);
    case Commit(t) => CommitKeepsInv(w, t);
    case Rollback(t) => RollbackKeepsInv(w, t);
  }

  lemma {:induction false} RunKeepsInv(w: World, steps: seq<Step>, w': World)
    requires Inv(w) && Runs(w, steps, w')
    ensures Inv(w')
    decreases |steps|
  {
    if steps != [] {
      StepKeepsInv(w, steps[0]);
      RunKeepsInv(Apply(w, steps[0]), steps[1..], w');
    }
  }

  /** For every interleaving: outbox ids of transactions that shared a lock grow in commit order. */
  lemma IdsFollowCommitOrderPerLock(steps: seq<Step>, w: World)
    requires Runs(INIT, steps, w)
    ensures OrderedByCommit(w.commits)
  {
    RunKeepsInv(INIT, steps, w);
  }
}
