/** Delivery while transactions go on: the drainer sends visible rows between commits, tries again after
    failures that may have taken effect, and keeps the id order of rows about the same tuple. */
module LiveDelivery {
  import opened Common
  import opened FgaIntents
  import opened RegistryStore
  import opened UseCases
  import opened OutboxOrder
  import opened OutboxFold
  import opened OutboxConflicts
  import opened PublicGrant
  import opened RegisterApplier
  import opened TupleEffects

  /** The database, the peer's tuples and the rows marked sent. */
  datatype Delivery = Delivery(world: World, peer: set<Tuple>, sent: set<nat>)

  /** A database step, or one attempt at a row: the first `applied` of its tuples took effect at the peer,
      and the row may be marked sent only if all did. */
  datatype Move = Db(step: Step) | Attempt(id: nat, applied: nat, done: bool)

  predicate Share(a: OutboxRow, b: OutboxRow) {
    exists t <- a.intent.intent.tuples :: t in b.intent.intent.tuples
  }

  /** No visible row with a smaller id about a tuple of this one is still unsent. */
  ghost predicate InTurn(d: Delivery, id: nat)
    requires id in d.world.outbox
  {
    forall j <- d.world.outbox :: j < id && Share(d.world.outbox[j], d.world.outbox[id]) ==> j in d.sent
  }

  ghost predicate CanMove(d: Delivery, m: Move) {
    match m
    case Db(step) => Enabled(d.world, step)
    case Attempt(id, applied, done) =>
      && id in d.world.outbox && id !in d.sent && InTurn(d, id)
      && applied <= |d.world.outbox[id].intent.intent.tuples|
      && (done ==> applied == |d.world.outbox[id].intent.intent.tuples|)
  }

  ghost function After(d: Delivery, m: Move): Delivery
    requires CanMove(d, m)
  {
    match m
    case Db(step) => d.(world := Apply(d.world, step))
    case Attempt(id, applied, done) =>
      var row := d.world.outbox[id].intent;
      d.(peer := EffectAll(d.peer, row.event, row.intent.tuples[..applied]),
         sent := if done then d.sent + {id} else d.sent)
  }

  ghost predicate Delivers(d: Delivery, moves: seq<Move>, e: Delivery)
    decreases |moves|
  {
    if moves == [] then e == d
    else CanMove(d, moves[0]) && Delivers(After(d, moves[0]), moves[1..], e)
  }

  /** The database steps among the moves. */
  function DbSteps(moves: seq<Move>): seq<Step> {
    if moves == [] then []
    else (if moves[0].Db? then [moves[0].step] else []) + DbSteps(moves[1..])
  }

  /** One row accounts for what the peer has of the tuple: all visible rows before it that mention the tuple
      are sent, none after it is. Or no row has had any effect yet. */
  ghost predicate UpTo(d: Delivery, id: nat, tuple: Tuple) {
    && MentionsAt(d.world.outbox, id, tuple)
    && (tuple in d.peer <==> d.world.outbox[id].intent.event.Register?)
    && (forall j: nat :: j < id && MentionsAt(d.world.outbox, j, tuple) ==> j in d.sent)
    && (forall j: nat :: id < j && MentionsAt(d.world.outbox, j, tuple) ==> j !in d.sent)
  }

  ghost predicate Untouched(d: Delivery, tuple: Tuple) {
    tuple !in d.peer && forall j :: MentionsAt(d.world.outbox, j, tuple) ==> j !in d.sent
  }

  ghost predicate PeerOk(d: Delivery, tuple: Tuple) {
    Untouched(d, tuple) || exists id: nat :: UpTo(d, id, tuple)
  }

  ghost predicate SentVisible(d: Delivery) {
    d.sent <= d.world.outbox.Keys
  }

  /** Sending a row that mentions the tuple makes it the one that accounts for it. */
  lemma AttemptKeepsPeer(d: Delivery, id: nat, applied: nat, done: bool, tuple: Tuple)
    requires CanMove(d, Attempt(id, applied, done)) && PeerOk(d, tuple)
    ensures PeerOk(After(d, Attempt(id, applied, done)), tuple)
  {
    var e := After(d, Attempt(id, applied, done));
    var row := d.world.outbox[id].intent;
    if !MentionsAt(d.world.outbox, id, tuple) {
      OtherRowKeeps(d, id, applied, done, tuple);
    } else if tuple in row.intent.tuples[..applied] {
      forall j: nat | j < id && MentionsAt(d.world.outbox, j, tuple) ensures j in d.sent {
        assert Share(d.world.outbox[j], d.world.outbox[id]);
      }
      assert UpTo(e, id, tuple);
    } else {
      assert row.intent.tuples[..|row.intent.tuples|] == row.intent.tuples;
      assert e.sent == d.sent;
      if !Untouched(d, tuple) {
        var k: nat :| UpTo(d, k, tuple);
        assert UpTo(e, k, tuple);
      }
    }
  }

  lemma OtherRowKeeps(d: Delivery, id: nat, applied: nat, done: bool, tuple: Tuple)
    requires CanMove(d, Attempt(id, applied, done)) && PeerOk(d, tuple) && !MentionsAt(d.world.outbox, id, tuple)
    ensures PeerOk(After(d, Attempt(id, applied, done)), tuple)
  {
    var e := After(d, Attempt(id, applied, done));
    assert tuple in e.peer <==> tuple in d.peer;
    if !Untouched(d, tuple) {
      var k: nat :| UpTo(d, k, tuple);
      assert UpTo(e, k, tuple);
    }
  }

  /** Rows that become visible mention the tuple only above all that do so already. */
  lemma NewMentionsAreHigher(w: World, step: Step, lock: Lock, tuple: Tuple, i: nat, j: nat)
    requires Inv(w) && Enabled(w, step) && GuardedIn(w, lock, tuple)
    requires MentionsAt(w.outbox, i, tuple)
    requires MentionsAt(Apply(w, step).outbox, j, tuple) && j !in w.outbox
    ensures i < j
  {
    if step.Commit? {
      var tx := w.live[step.tx];
      CommitAdds(w, step.tx);
      assert TxOk(w, tx);
      var k :| 0 <= k < |tx.drawn| && tx.drawn[k] == j;
      assert Rows(tx.request)[k] in Rows(tx.request) && Mentions(Rows(tx.request), tuple);
    }
  }

  lemma VisibleStays(w: World, step: Step)
    requires Inv(w) && Enabled(w, step)
    ensures forall id <- w.outbox :: id in Apply(w, step).outbox && Apply(w, step).outbox[id] == w.outbox[id]
  {
    if step.Commit? {
      CommitAdds(w, step.tx);
    }
  }

  lemma DbKeepsPeer(d: Delivery, step: Step, lock: Lock, tuple: Tuple)
    requires Inv(d.world) && Enabled(d.world, step) && GuardedIn(d.world, lock, tuple)
    requires PeerOk(d, tuple) && SentVisible(d)
    ensures PeerOk(After(d, Db(step)), tuple)
  {
    var e := After(d, Db(step));
    VisibleStays(d.world, step);
    if !Untouched(d, tuple) {
      var k: nat :| UpTo(d, k, tuple);
      forall j: nat | j < k && MentionsAt(e.world.outbox, j, tuple) ensures j in d.sent {
        if j !in d.world.outbox {
          NewMentionsAreHigher(d.world, step, lock, tuple, k, j);
        }
      }
      assert UpTo(e, k, tuple);
    }
  }

  lemma {:induction false} DeliveryFrom(d: Delivery, moves: seq<Move>, e: Delivery, lock: Lock, tuple: Tuple)
    requires Delivers(d, moves, e) && Guards(lock, tuple, DbSteps(moves))
    requires Inv(d.world) && GuardedIn(d.world, lock, tuple) && PeerOk(d, tuple) && SentVisible(d)
    ensures Inv(e.world) && PeerOk(e, tuple) && SentVisible(e)
    ensures Runs(d.world, DbSteps(moves), e.world)
    decreases |moves|
  {
    if moves != [] {
      var m := moves[0];
      var next := After(d, m);
      match m {
        case Attempt(id, applied, done) =>
          AttemptKeepsPeer(d, id, applied, done, tuple);
          assert DbSteps(moves) == DbSteps(moves[1..]);
        case Db(step) =>
          assert DbSteps(moves)[0] == step && DbSteps(moves)[1..] == DbSteps(moves[1..]);
          assert step in DbSteps(moves);
          assert forall s <- DbSteps(moves[1..]) :: s in DbSteps(moves);
          DbKeepsPeer(d, step, lock, tuple);
          VisibleStays(d.world, step);
          StepKeepsInv(d.world, step);
          StepKeepsGuarded(d.world, step, lock, tuple);
      }
      DeliveryFrom(next, moves[1..], e, lock, tuple);
    }
  }

  lemma {:induction false} NoMentionFoldsAbsent(outbox: map<nat, OutboxRow>, n: nat, tuple: Tuple)
    requires forall j :: !MentionsAt(outbox, j, tuple)
    ensures !FoldById(outbox, n, tuple)
  {
    if n > 0 {
      NoMentionFoldsAbsent(outbox, n - 1, tuple);
      assert !MentionsAt(outbox, n - 1, tuple);
    }
  }

  lemma AllSentFolds(e: Delivery, tuple: Tuple)
    requires PeerOk(e, tuple) && e.world.outbox.Keys <= e.sent
    requires forall id <- e.world.outbox :: id < e.world.nextId
    ensures tuple in e.peer <==> FoldById(e.world.outbox, e.world.nextId, tuple)
  {
    if Untouched(e, tuple) {
      forall j ensures !MentionsAt(e.world.outbox, j, tuple) {
        assert j in e.world.outbox ==> j in e.sent;
      }
      NoMentionFoldsAbsent(e.world.outbox, e.world.nextId, tuple);
    } else {
      var id: nat :| UpTo(e, id, tuple);
      assert forall j: nat :: id < j && MentionsAt(e.world.outbox, j, tuple) ==> j in e.sent;
      TopDecides(e.world.outbox, e.world.nextId, id, tuple);
    }
  }

  /** However commits, sends and failing attempts interleave: whenever every visible row has been sent, the
      peer has a tuple that one lock guards exactly when the last commit about it registered it. */
  lemma DeliveryFollowsCommits(peer: set<Tuple>, moves: seq<Move>, e: Delivery, lock: Lock, tuple: Tuple)
    requires Delivers(Delivery(INIT, peer, {}), moves, e) && Guards(lock, tuple, DbSteps(moves))
    requires tuple !in peer && e.world.outbox.Keys <= e.sent
    ensures tuple in e.peer <==> FoldByCommit(e.world.commits, tuple)
  {
    var start := Delivery(INIT, peer, {});
    assert Untouched(start, tuple);
    DeliveryFrom(start, moves, e, lock, tuple);
    DrainingFollowsCommits(DbSteps(moves), e.world, lock, tuple);
    AllSentFolds(e, tuple);
  }

  /** The smallest unsent row is in turn. */
  lemma {:induction false} FirstUnsent(d: Delivery, id: nat) returns (first: nat)
    requires id in d.world.outbox && id !in d.sent
    ensures first in d.world.outbox && first !in d.sent && InTurn(d, first)
    decreases id
  {
    if j: nat :| j < id && j in d.world.outbox && j !in d.sent {
      first := FirstUnsent(d, j);
    } else {
      first := id;
    }
  }

  /** Delivery never gets stuck: whatever is visible and unsent, attempts that succeed send all of it. */
  lemma {:induction false} DeliveryCanFinish(d: Delivery) returns (moves: seq<Move>, e: Delivery)
    ensures Delivers(d, moves, e) && e.world == d.world && e.world.outbox.Keys <= e.sent
    decreases |d.world.outbox.Keys - d.sent|
  {
    if id: nat :| id in d.world.outbox && id !in d.sent {
      var first := FirstUnsent(d, id);
      var move := Attempt(first, |d.world.outbox[first].intent.intent.tuples|, true);
      assert After(d, move).world.outbox.Keys - After(d, move).sent == d.world.outbox.Keys - d.sent - {first};
      var rest;
      rest, e := DeliveryCanFinish(After(d, move));
      moves := [move] + rest;
      assert moves[1..] == rest;
    } else {
      moves, e := [], d;
    }
  }

  lemma {:induction false} GrantsStayGuarded(steps: seq<Step>, id: string, name: string)
    requires AllAccepted(steps) && Slashless(id)
    ensures Guards(RegistryRow(id), PublicGetTuple(id, name), steps)
  {
    forall s <- steps | s.Begin? && Mentions(Rows(s.request), PublicGetTuple(id, name))
      ensures LockOf(s.request) == RegistryRow(id)
    {
      RowLockGuardsGrant(s.request, id, name);
    }
  }

  /** From overlay writes to the authorisation service, all at once: over every interleaving of harmless
      transactions and delivery attempts, whenever every visible row has been sent, exactly the PUBLIC
      repositories are readable by everyone. */
  lemma LiveGrantsEqualVisibility(peer: set<Tuple>, moves: seq<Move>, e: Delivery, id: string, name: string)
    requires Delivers(Delivery(INIT, peer, {}), moves, e)
    requires AllAccepted(DbSteps(moves)) && HarmlessRun(INIT, DbSteps(moves)) && Slashless(id)
    requires PublicGetTuple(id, name) !in peer && e.world.outbox.Keys <= e.sent
    ensures PublicGetTuple(id, name) in e.peer <==> PublicIn(SlotOf(e.world.registries, id), name)
  {
    var tuple := PublicGetTuple(id, name);
    GrantsStayGuarded(DbSteps(moves), id, name);
    DeliveryFollowsCommits(peer, moves, e, RegistryRow(id), tuple);
    DeliveryFrom(Delivery(INIT, peer, {}), moves, e, RegistryRow(id), tuple);
    DrainingFollowsCommits(DbSteps(moves), e.world, RegistryRow(id), tuple);
    PublicGrantEqualsVisibility(DbSteps(moves), e.world, id, name);
  }

  /** The same for a registry's project tuple: whenever every visible row has been sent the authorisation
      service has it for exactly the project the registry is in, and no longer once the registry is gone. */
  lemma LiveProjectsFollowRows(peer: set<Tuple>, moves: seq<Move>, e: Delivery, id: string, p: string)
    requires Delivers(Delivery(INIT, peer, {}), moves, e)
    requires AllAccepted(DbSteps(moves)) && ProjectsCurrent(e.world.commits)
    requires ProjectOf(id, p) !in peer && e.world.outbox.Keys <= e.sent
    ensures ProjectOf(id, p) in e.peer <==> id in e.world.registries && e.world.registries[id].projectId == p
  {
    var tuple := ProjectOf(id, p);
    forall s <- DbSteps(moves) | s.Begin? && Mentions(Rows(s.request), tuple)
      ensures LockOf(s.request) == RegistryRow(id)
    {
      RowLockGuardsProject(s.request, id, p);
    }
    DeliveryFollowsCommits(peer, moves, e, RegistryRow(id), tuple);
    DeliveryFrom(Delivery(INIT, peer, {}), moves, e, RegistryRow(id), tuple);
    DrainingFollowsCommits(DbSteps(moves), e.world, RegistryRow(id), tuple);
    ProjectTupleFollowsRow(DbSteps(moves), e.world, id, p);
  }
}
