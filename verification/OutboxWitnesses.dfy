/** Concrete runs that show which guarantees the locks do not give. */
module OutboxWitnesses {
  import opened Common
  import opened FgaIntents
  import opened RegistryStore
  import opened UseCases
  import opened OutboxOrder
  import opened OutboxFold
  import opened OutboxConflicts
  import opened PublicGrant

  lemma Opening(before: seq<Step>, w: World, t: nat, r: Request) returns (steps: seq<Step>, w': World)
    requires Runs(INIT, before, w) && Enabled(w, Begin(t, r))
    ensures Runs(INIT, steps, w') && (r.Accepted() && AllAccepted(before) ==> AllAccepted(steps))
    ensures w' == w.(live := w.live[t := Tx(r, SlotOf(w.registries, r.registryId), w.nextId, [])])
  {
    Extend(INIT, before, w, Begin(t, r));
    steps, w' := before + [Begin(t, r)], Apply(w, Begin(t, r));
  }

  lemma Drawing(before: seq<Step>, w: World, t: nat) returns (steps: seq<Step>, w': World)
    requires Runs(INIT, before, w) && Enabled(w, Emit(t))
    ensures Runs(INIT, steps, w') && (AllAccepted(before) ==> AllAccepted(steps))
    ensures w' == w.(live := w.live[t := w.live[t].(drawn := w.live[t].drawn + [w.nextId])], nextId := w.nextId + 1)
  {
    Extend(INIT, before, w, Emit(t));
    steps, w' := before + [Emit(t)], Apply(w, Emit(t));
  }

  lemma Committing(before: seq<Step>, w: World, t: nat) returns (steps: seq<Step>, w': World)
    requires Runs(INIT, before, w) && Enabled(w, Commit(t))
    ensures Runs(INIT, steps, w') && (AllAccepted(before) ==> AllAccepted(steps))
    ensures w' == Apply(w, Commit(t)) && w'.nextId == w.nextId && w'.live == w.live - {t}
    ensures w'.outbox == AddRows(w.outbox, w.live[t].drawn, Rows(w.live[t].request), w.live[t].request)
    ensures w'.commits == w.commits + [Committed(w.live[t].request, w.live[t].drawn)]
    ensures w'.registries == Publish(w.registries, w.live[t])
  {
    Extend(INIT, before, w, Commit(t));
    steps, w' := before + [Commit(t)], Apply(w, Commit(t));
  }

  /** A transaction of its own: begin, then all its intents. */
  lemma RunWhole(before: seq<Step>, w: World, t: nat, r: Request) returns (steps: seq<Step>, ready: World)
    requires Runs(INIT, before, w) && w.live == map[]
    requires Execute(SlotOf(w.registries, r.registryId), DmlOf(r)).Success?
    ensures Runs(INIT, steps, ready) && Enabled(ready, Commit(t))
    ensures ready.registries == w.registries && ready.live.Keys == {t} && ready.live[t].request == r
    ensures ready.live[t].seen == SlotOf(w.registries, r.registryId)
    ensures r.Accepted() && AllAccepted(before) ==> AllAccepted(steps)
  {
    steps, ready := Opening(before, w, t, r);
    while |ready.live[t].drawn| < |Rows(r)|
      invariant Runs(INIT, steps, ready) && t in ready.live && ready.live[t].request == r
      invariant ready.registries == w.registries && ready.live.Keys == {t} && |ready.live[t].drawn| <= |Rows(r)|
      invariant ready.live[t].seen == SlotOf(w.registries, r.registryId)
      invariant r.Accepted() && AllAccepted(before) ==> AllAccepted(steps)
      decreases |Rows(r)| - |ready.live[t].drawn|
    {
      steps, ready := Drawing(steps, ready, t);
    }
  }

  lemma CommitWhole(before: seq<Step>, ready: World, t: nat) returns (steps: seq<Step>, w: World)
    requires Runs(INIT, before, ready) && Enabled(ready, Commit(t)) && ready.live.Keys == {t}
    requires ready.live[t].seen == SlotOf(ready.registries, ready.live[t].request.registryId)
    ensures Runs(INIT, steps, w) && w.live == map[] && w == Apply(ready, Commit(t))
    ensures w.registries == RunAlone(ready.registries, ready.live[t].request)
    ensures AllAccepted(before) ==> AllAccepted(steps)
  {
    steps, w := Committing(before, ready, t);
    PublishIsRunAlone(ready.registries, ready.live[t]);
  }

  /** Runs the requests one after another. */
  lemma RunSerially(requests: seq<Request>) returns (steps: seq<Step>, w: World)
    requires RunsAlone(requests)
    ensures Runs(INIT, steps, w) && AllAccepted(steps) && w.live == map[] && w.registries == AfterAll(requests)
    decreases |requests|
  {
    if requests == [] {
      steps, w := [], INIT;
    } else {
      var k := |requests| - 1;
      PrefixRuns(requests, k);
      steps, w := RunSerially(requests[..k]);
      steps, w := RunWhole(steps, w, k, requests[k]);
      steps, w := CommitWhole(steps, w, k);
    }
  }

  ghost predicate RunsAlone(requests: seq<Request>) {
    forall i :: 0 <= i < |requests| ==> CanFollow(requests, i)
  }

  ghost predicate CanFollow(requests: seq<Request>, i: nat)
    requires i < |requests|
  {
    && requests[i].Accepted()
    && Execute(SlotOf(AfterAll(requests[..i]), requests[i].registryId), DmlOf(requests[i])).Success?
  }

  lemma PrefixRuns(requests: seq<Request>, k: nat)
    requires RunsAlone(requests) && k < |requests|
    ensures RunsAlone(requests[..k]) && CanFollow(requests, k)
  {
    forall i | 0 <= i < k ensures CanFollow(requests[..k], i) {
      assert requests[..k][..i] == requests[..i] && CanFollow(requests, i);
    }
  }

  function AfterAll(requests: seq<Request>): map<string, Registry> {
    if requests == [] then map[]
    else RunAlone(AfterAll(requests[..|requests| - 1]), requests[|requests| - 1])
  }

  /** Any harmful request that can commit after a serial history yields a reachable state whose
      grants and visibilities disagree. */
  lemma HarmfulHistoryDisagrees(requests: seq<Request>, r: Request) returns (steps: seq<Step>, w: World)
    requires RunsAlone(requests)
    requires r.Accepted() && Execute(SlotOf(AfterAll(requests), r.registryId), DmlOf(r)).Success?
    requires !Harmless(SlotOf(AfterAll(requests), r.registryId), r)
    ensures Runs(INIT, steps, w) && AllAccepted(steps) && !GrantsMatch(w)
  {
    var ready;
    steps, w := RunSerially(requests);
    steps, ready := RunWhole(steps, w, |requests|, r);
    RunKeepsInv(INIT, steps, ready);
    GrantsGuardedFrom(INIT, steps, ready);
    AcceptedFrom(INIT, steps, ready);
    if GrantsMatch(ready) {
      CommitKeepsGrantsIffHarmless(ready, |requests|);
      steps, w := CommitWhole(steps, ready, |requests|);
    } else {
      w := ready;
    }
  }

  lemma {:induction false} AcceptedFrom(w: World, steps: seq<Step>, w': World)
    requires Runs(w, steps, w') && LiveAccepted(w) && AllAccepted(steps)
    ensures LiveAccepted(w')
    decreases |steps|
  {
    if steps != [] {
      assert steps[0] in steps;
      StepKeepsAccepted(w, steps[0]);
      AcceptedFrom(Apply(w, steps[0]), steps[1..], w');
    }
  }

  lemma {:induction false} GrantsGuardedFrom(w: World, steps: seq<Step>, w': World)
    requires Inv(w) && Runs(w, steps, w') && GrantsGuarded(w) && AllAccepted(steps)
    ensures GrantsGuarded(w')
    decreases |steps|
  {
    if steps != [] {
      assert steps[0] in steps;
      StepKeepsInv(w, steps[0]);
      StepKeepsGrantsGuarded(w, steps[0]);
      GrantsGuardedFrom(Apply(w, steps[0]), steps[1..], w');
    }
  }

  const REG := "reg1"
  const OPEN := Config("", map[], Public)
  const CLOSED := Config("", map[], Private)

  const PUBLISH := UpdateRepository(REG, "app", Patch("", map[], Public, false, false, true))

  function OneRepo(c: Config): map<string, Registry> {
    map[REG := Registry("prj", Active, Private, map["app" := c])]
  }

  lemma AfterCreate(c: Config)
    ensures var requests := [CreateRegistry(REG, "prj", ""), CreateRepository(REG, "app", c, "prj", "")];
            && AfterAll([]) == map[]
            && AfterAll(requests[..1]) == map[REG := Registry("prj", Active, Private, map[])]
            && AfterAll(requests) == OneRepo(c.(visibility := Stored(c.visibility)))
  {
    var requests := [CreateRegistry(REG, "prj", ""), CreateRepository(REG, "app", c, "prj", "")];
    assert requests[..1][..0] == [] && requests[..1][0] == requests[0];
    var one := map[REG := Registry("prj", Active, Private, map[])];
    assert AfterAll(requests[..1]) == RunAlone(map[], requests[0]) == one;
    assert AfterAll(requests) == RunAlone(one, requests[1]);
  }

  lemma AfterPublish()
    ensures RunAlone(OneRepo(CLOSED), PUBLISH) == OneRepo(OPEN)
  {
    assert Patched(CLOSED, PUBLISH.patch) == OPEN;
    assert map["app" := CLOSED]["app" := OPEN] == map["app" := OPEN];
  }

  /** A rename that read PRIVATE while an update to PUBLIC was about to commit leaves the new
      name PUBLIC without its grant. */
  lemma StaleRenameDisagrees() returns (steps: seq<Step>, w: World)
    ensures Runs(INIT, steps, w) && AllAccepted(steps) && !GrantsMatch(w)
  {
    var created := [CreateRegistry(REG, "prj", ""), CreateRepository(REG, "app", CLOSED, "prj", "")];
    var requests := created + [PUBLISH];
    AfterCreate(CLOSED);
    AfterPublish();
    assert requests[..0] == [] && requests[..1] == created[..1] && requests[..2] == created;
    assert AfterAll(requests) == RunAlone(AfterAll(created), PUBLISH);
    steps, w := HarmfulHistoryDisagrees(requests, RenameDurable(REG, "app", "app2", Private, "prj", ""));
  }

  /** Removing a registry that still holds an empty PUBLIC repository leaves the grant behind. */
  lemma RemovedRegistryDisagrees() returns (steps: seq<Step>, w: World)
    ensures Runs(INIT, steps, w) && AllAccepted(steps) && !GrantsMatch(w)
  {
    var requests := [CreateRegistry(REG, "prj", ""), CreateRepository(REG, "app", OPEN, "prj", "")];
    AfterCreate(OPEN);
    assert requests[..0] == [];
    assert "app" in OneRepo(OPEN)[REG].configs && PublicIn(SlotOf(AfterAll(requests), REG), "app");
    steps, w := HarmfulHistoryDisagrees(requests, RemoveRegistryRow(REG, "prj"));
  }

  // ---- tuples with more than one lock ----

  function AllRequests(): Family {
    (r: Request) => r.Accepted()
  }

  /** A public-grant tuple has one lock, the registry row, so its drain order is its commit order. */
  lemma PublicTupleNeverConflicts(id: string, name: string)
    requires Slashless(id)
    ensures !Conflicts(AllRequests(), PublicGetTuple(id, name))
  {
    forall r: Request | AllRequests()(r) && Mentions(Rows(r), PublicGetTuple(id, name))
      ensures LockOf(r) == RegistryRow(id)
    {
      RowLockGuardsGrant(r, id, name);
    }
    OneLockNeverConflicts(AllRequests(), PublicGetTuple(id, name), RegistryRow(id));
  }

  /** The parent tuple of a repository is written under two locks: creating the repository takes the
      registry row, deleting its last tag an advisory lock. */
  lemma ParentTupleEffects(id: string, name: string, projectId: string, hash: int)
    ensures LastEffect(Rows(CreateRepository(id, name, CLOSED, projectId, "")), RepoParentTuple(id, name)) == Some(true)
    ensures LastEffect(Rows(UnregisterEmptyRepo(id, name, hash)), RepoParentTuple(id, name)) == Some(false)
  {
    RowsAreIntents(CreateRepository(id, name, CLOSED, projectId, ""));
    RowsAreIntents(UnregisterEmptyRepo(id, name, hash));
    var rows := Rows(CreateRepository(id, name, CLOSED, projectId, ""));
    assert rows == [OutboxIntent(Register, RepoPushed(id, name, projectId, ""))];
  }

  lemma OneEmptyRegistry(id: string, projectId: string) returns (steps: seq<Step>, w: World)
    requires Slashless(id)
    ensures Runs(INIT, steps, w) && AllAccepted(steps) && w.live == map[]
    ensures id in w.registries && w.registries[id] == Registry(projectId, Active, Private, map[])
  {
    var requests := [CreateRegistry(id, projectId, "")];
    assert requests[..0] == [] && requests[..1] == requests && AfterAll(requests[..0]) == map[];
    steps, w := RunSerially(requests);
    assert w.registries == RunAlone(map[], requests[0]);
  }

  /** So the parent tuple of any repository of any registry is in conflict: in some run the unregister
      commits first yet has the larger id, and draining in id order removes a tuple that the last commit
      registered. */
  lemma ParentTupleFollowsNoCommitOrder(id: string, name: string, projectId: string, hash: int)
    returns (steps: seq<Step>, w: World)
    requires Slashless(id)
    ensures Conflicts(AllRequests(), RepoParentTuple(id, name))
    ensures Runs(INIT, steps, w) && From(steps, AllRequests())
    ensures FoldByCommit(w.commits, RepoParentTuple(id, name))
    ensures !FoldById(w.outbox, w.nextId, RepoParentTuple(id, name))
  {
    var w1, low, high;
    steps, w1 := OneEmptyRegistry(id, projectId);
    assert Reached(w1, AllRequests());
    var slow, fast := CreateRepository(id, name, CLOSED, projectId, ""), UnregisterEmptyRepo(id, name, hash);
    ParentTupleEffects(id, name, projectId, hash);
    assert ConflictIn(w1, slow, fast, AllRequests(), RepoParentTuple(id, name));
    steps, w, low, high := TwoLocksDisagree(steps, w1, slow, fast, AllRequests(), RepoParentTuple(id, name));
  }
}
