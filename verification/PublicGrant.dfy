/** A repository is anonymously readable exactly when its overlay row says PUBLIC. */
module PublicGrant {
  import opened Common
  import opened FgaIntents
  import opened RegistryStore
  import opened UseCases
  import opened OutboxOrder
  import opened OutboxFold

  predicate PublicIn(slot: Slot, name: string) {
    slot.Some? && name in slot.value.configs && slot.value.configs[name].visibility.Public?
  }

  /** The `user:* v_get` tuple of the repository, once the visible outbox is drained in id order. */
  function Granted(w: World, registryId: string, name: string): bool {
    FoldById(w.outbox, w.nextId, PublicGetTuple(registryId, name))
  }

  ghost predicate GrantsMatch(w: World) {
    forall id, name :: Slashless(id) ==> (Granted(w, id, name) <==> PublicIn(SlotOf(w.registries, id), name))
  }

  /** When a transaction, executed on this registry, keeps grants and visibilities in step:
      a rename must still see the visibility it read, and a removed registry must hold no
      PUBLIC row, because the cascade that drops its rows emits no unregister intents. */
  ghost predicate Harmless(slot: Slot, r: Request) {
    match r
    case RenameDurable(_, name, _, seen, _, _) => seen.Public? <==> PublicIn(slot, name)
    case RenameEphemeral(_, name, _, _, _, _) => !PublicIn(slot, name)
    case RemoveRegistryRow(_, _) => forall name :: !PublicIn(slot, name)
    case _ => true
  }

  // ---- what one transaction's intents do to the public tuples ----

  lemma EmittedKeepsFilled(intents: seq<OutboxIntent>)
    requires forall i <- intents :: i.intent.tuples != []
    ensures Emitted(intents) == intents
  {
    if intents != [] {
      EmittedKeepsFilled(intents[1..]);
    }
  }

  lemma IntentsAreFilled(r: Request)
    ensures forall i <- IntentsOf(r) :: i.intent.tuples != []
  {
  }

  lemma RowsAreIntents(r: Request)
    ensures Rows(r) == IntentsOf(r)
  {
    IntentsAreFilled(r);
    EmittedKeepsFilled(IntentsOf(r));
  }

  lemma ApplyRowsConcat(xs: seq<OutboxIntent>, ys: seq<OutboxIntent>, tuple: Tuple, present: bool)
    ensures ApplyRows(xs + ys, tuple, present) == ApplyRows(ys, tuple, ApplyRows(xs, tuple, present))
  {
    if ys == [] {
      assert xs + ys == xs;
    } else {
      assert (xs + ys)[..|xs + ys| - 1] == xs + ys[..|ys| - 1];
      ApplyRowsConcat(xs, ys[..|ys| - 1], tuple, present);
    }
  }

  lemma ApplyPrivateRow(i: OutboxIntent, tuple: Tuple, present: bool)
    requires forall t <- i.intent.tuples :: t.relation != RELATION_V_GET
    requires tuple.relation == RELATION_V_GET
    ensures ApplyRows([i], tuple, present) == present
  {
  }

  lemma ApplyGrantRow(event: Event, id: string, name: string, other: string, present: bool)
    requires Slashless(id)
    ensures ApplyRows([OutboxIntent(event, RepoPublicGrant(id, name))], PublicGetTuple(id, other), present)
            == if other == name then event.Register? else present
  {
    PublicGetTupleInjective(id, name, id, other);
    var rows := [OutboxIntent(event, RepoPublicGrant(id, name))];
    assert rows[..0] == [];
    assert PublicGetTuple(id, name) in rows[0].intent.tuples;
  }

  lemma ApplyPublicGrantIf(public: bool, id: string, name: string, other: string, present: bool)
    requires Slashless(id)
    ensures ApplyRows(PublicGrantIf(public, id, name), PublicGetTuple(id, other), present)
            == (if other == name && public then true else present)
  {
    if public {
      ApplyGrantRow(Register, id, name, other, present);
    }
  }

  lemma ApplyRename(id: string, oldName: string, newName: string, projectId: string, subject: string,
                    seen: Visibility, other: string, present: bool)
    requires Slashless(id) && oldName != newName
    ensures ApplyRows(RenameIntents(id, oldName, newName, projectId, subject, seen), PublicGetTuple(id, other), present)
            == if other == newName && seen.Public? then true else if other == oldName then false else present
  {
    var tuple := PublicGetTuple(id, other);
    var pushed := OutboxIntent(Register, RepoPushed(id, newName, projectId, subject));
    var removed := OutboxIntent(Unregister, RepoRemoved(id, oldName));
    var revoked := OutboxIntent(Unregister, RepoPublicGrant(id, oldName));
    var granted := PublicGrantIf(seen.Public?, id, newName);
    assert RenameIntents(id, oldName, newName, projectId, subject, seen)
        == [pushed] + ([removed] + ([revoked] + granted));
    ApplyRowsConcat([pushed], [removed] + ([revoked] + granted), tuple, present);
    ApplyPrivateRow(pushed, tuple, present);
    ApplyRowsConcat([removed], [revoked] + granted, tuple, present);
    ApplyPrivateRow(removed, tuple, present);
    ApplyRowsConcat([revoked], granted, tuple, present);
    ApplyGrantRow(Unregister, id, oldName, other, present);
    ApplyPublicGrantIf(seen.Public?, id, newName, other, if other == oldName then false else present);
  }

  /** The public tuple of any repository of the registry, after the request's intents. */
  function GrantAfter(r: Request, name: string, present: bool): bool {
    match r
    case CreateRepository(_, target, config, _, _) => (name == target && config.visibility.Public?) || present
    case PromoteRepository(_, target, config) => (name == target && config.visibility.Public?) || present
    case UpdateRepository(_, target, p) =>
      if name == target && p.applyVisibility then p.visibility.Public? else present
    case RenameDurable(_, oldName, newName, seen, _, _) =>
      (name == newName && seen.Public?) || (name != oldName && present)
    case RenameEphemeral(_, oldName, newName, seen, _, _) =>
      (name == newName && seen.Public?) || (name != oldName && present)
    case DeleteRepository(_, target) => name != target && present
    case _ => present
  }

  lemma RowsDecideGrant(r: Request, name: string, present: bool)
    requires r.Accepted()
    ensures ApplyRows(Rows(r), PublicGetTuple(r.registryId, name), present) == GrantAfter(r, name, present)
  {
    RowsAreIntents(r);
    var id := r.registryId;
    var tuple := PublicGetTuple(id, name);
    match r
    case CreateRepository(_, target, config, projectId, subject) =>
      var pushed := OutboxIntent(Register, RepoPushed(id, target, projectId, subject));
      ApplyRowsConcat([pushed], PublicGrantIf(config.visibility.Public?, id, target), tuple, present);
      ApplyPrivateRow(pushed, tuple, present);
      ApplyPublicGrantIf(config.visibility.Public?, id, target, name, present);
    case PromoteRepository(_, target, config) =>
      ApplyPublicGrantIf(config.visibility.Public?, id, target, name, present);
    case UpdateRepository(_, target, p) =>
      if p.applyVisibility {
        ApplyGrantRow(if p.visibility.Public? then Register else Unregister, id, target, name, present);
      }
    case RenameDurable(_, oldName, newName, seen, projectId, subject) =>
      ApplyRename(id, oldName, newName, projectId, subject, seen, name, present);
    case RenameEphemeral(_, oldName, newName, seen, projectId, subject) =>
      ApplyRename(id, oldName, newName, projectId, subject, seen, name, present);
    case DeleteRepository(_, target) =>
      var removed := OutboxIntent(Unregister, RepoRemoved(id, target));
      var revoked := OutboxIntent(Unregister, RepoPublicGrant(id, target));
      assert IntentsOf(r) == [removed] + [revoked];
      ApplyRowsConcat([removed], [revoked], tuple, present);
      ApplyPrivateRow(removed, tuple, present);
      ApplyGrantRow(Unregister, id, target, name, present);
    case MarkRegistry(_) =>
    case CreateRegistry(_, _, _) => ApplyPrivateRow(IntentsOf(r)[0], tuple, present);
    case PatchRegistry(_, _, _, _) => ApplyPrivateRow(IntentsOf(r)[0], tuple, present);
    case RemoveRegistryRow(_, _) => ApplyPrivateRow(IntentsOf(r)[0], tuple, present);
    case RegisterPushedRepo(_, _, _, _, _) => ApplyPrivateRow(IntentsOf(r)[0], tuple, present);
    case UnregisterEmptyRepo(_, _, _) => ApplyPrivateRow(IntentsOf(r)[0], tuple, present);
  }

  /** One transaction on one registry keeps every grant equal to the row's visibility
      exactly when it is harmless there. */
  lemma GrantKeptIffHarmless(slot: Slot, r: Request)
    requires r.Accepted() && Execute(slot, DmlOf(r)).Success?
    ensures (forall name :: GrantAfter(r, name, PublicIn(slot, name))
                            == PublicIn(Execute(slot, DmlOf(r)).value, name))
            <==> Harmless(slot, r)
  {
    var after := Execute(slot, DmlOf(r)).value;
    match r
    case RenameDurable(_, oldName, newName, seen, _, _) =>
      assert GrantAfter(r, newName, PublicIn(slot, newName)) == seen.Public?;
      assert PublicIn(after, newName) == PublicIn(slot, oldName);
    case RenameEphemeral(_, oldName, newName, seen, _, _) =>
      assert !GrantAfter(r, oldName, PublicIn(slot, oldName));
      assert PublicIn(after, oldName) == PublicIn(slot, oldName);
    case RemoveRegistryRow(_, _) =>
      assert forall name :: GrantAfter(r, name, PublicIn(slot, name)) == PublicIn(slot, name);
    case _ =>
  }

  // ---- over interleaved runs ----

  /** The intent of a use-case that carries a public tuple is a grant of its own registry. */
  lemma PublicIntentIsOwn(r: Request, i: OutboxIntent, id: string, name: string)
    requires i in IntentsOf(r) && PublicGetTuple(id, name) in i.intent.tuples
    ensures exists target :: i.intent == RepoPublicGrant(r.registryId, target)
    ensures !DmlOf(r).EmitOnly?
  {
    assert i.intent.kind == "RepositoryPublicGrant";
  }

  /** Only transactions holding the registry's row touch the public tuples of its repositories. */
  lemma RowLockGuardsGrant(r: Request, id: string, name: string)
    requires r.Accepted() && Slashless(id) && Mentions(Rows(r), PublicGetTuple(id, name))
    ensures r.registryId == id && LockOf(r) == RegistryRow(id)
  {
    RowsAreIntents(r);
    var i :| i in Rows(r) && PublicGetTuple(id, name) in i.intent.tuples;
    PublicIntentIsOwn(r, i, id, name);
    var target :| i.intent == RepoPublicGrant(r.registryId, target);
    assert PublicGetTuple(id, name) == PublicGetTuple(r.registryId, target);
    PublicGetTupleInjective(id, name, r.registryId, target);
  }

  ghost predicate AllAccepted(steps: seq<Step>) {
    forall s <- steps :: s.Begin? ==> s.request.Accepted()
  }

  ghost predicate LiveAccepted(w: World) {
    forall t <- w.live :: w.live[t].request.Accepted()
  }

  ghost predicate GrantsGuarded(w: World) {
    forall id, name :: Slashless(id) ==> GuardedIn(w, RegistryRow(id), PublicGetTuple(id, name))
  }

  lemma StepKeepsGrantsGuarded(w: World, step: Step)
    requires Inv(w) && Enabled(w, step) && GrantsGuarded(w) && (step.Begin? ==> step.request.Accepted())
    ensures GrantsGuarded(Apply(w, step))
  {
    forall id, name | Slashless(id)
      ensures GuardedIn(Apply(w, step), RegistryRow(id), PublicGetTuple(id, name))
    {
      if step.Begin? && Mentions(Rows(step.request), PublicGetTuple(id, name)) {
        RowLockGuardsGrant(step.request, id, name);
      }
      StepKeepsGuarded(w, step, RegistryRow(id), PublicGetTuple(id, name));
    }
  }

  lemma StepKeepsAccepted(w: World, step: Step)
    requires LiveAccepted(w) && Enabled(w, step) && (step.Begin? ==> step.request.Accepted())
    ensures LiveAccepted(Apply(w, step))
  {
  }

  lemma CommitChangesGrant(w: World, t: nat, id: string, name: string)
    requires Inv(w) && Enabled(w, Commit(t)) && GrantsGuarded(w) && LiveAccepted(w) && Slashless(id)
    ensures var r := w.live[t].request;
            Granted(Apply(w, Commit(t)), id, name)
            == if id == r.registryId then GrantAfter(r, name, Granted(w, id, name)) else Granted(w, id, name)
  {
    var r := w.live[t].request;
    var tuple := PublicGetTuple(id, name);
    assert GuardedIn(w, RegistryRow(id), tuple);
    CommitAppliesRows(w, t, RegistryRow(id), tuple);
    if id == r.registryId {
      RowsDecideGrant(r, name, Granted(w, id, name));
    } else {
      if Mentions(Rows(r), tuple) {
        RowLockGuardsGrant(r, id, name);
      }
      UnmentionedUnchanged(Rows(r), tuple, Granted(w, id, name));
    }
  }

  lemma UnmentionedUnchanged(rows: seq<OutboxIntent>, tuple: Tuple, present: bool)
    requires !Mentions(rows, tuple)
    ensures ApplyRows(rows, tuple, present) == present
  {
    if rows != [] {
      assert forall i <- rows[..|rows| - 1] :: i in rows;
      UnmentionedUnchanged(rows[..|rows| - 1], tuple, present);
    }
  }

  lemma CommitPublishes(w: World, t: nat)
    requires Inv(w) && Enabled(w, Commit(t))
    ensures var r := w.live[t].request;
            var slot := SlotOf(w.registries, r.registryId);
            && Execute(slot, DmlOf(r)).Success?
            && Apply(w, Commit(t)).registries == SetSlot(w.registries, r.registryId, Execute(slot, DmlOf(r)).value)
  {
    assert TxOk(w, w.live[t]);
    PublishIsRunAlone(w.registries, w.live[t]);
  }

  /** In every reachable state where grants match, a commit leaves them matching if and only if
      it is harmless for the registry it commits to. */
  lemma CommitKeepsGrantsIffHarmless(w: World, t: nat)
    requires Inv(w) && Enabled(w, Commit(t)) && GrantsGuarded(w) && LiveAccepted(w) && GrantsMatch(w)
    ensures var r := w.live[t].request;
            GrantsMatch(Apply(w, Commit(t))) <==> Harmless(SlotOf(w.registries, r.registryId), r)
  {
    var r := w.live[t].request;
    var slot := SlotOf(w.registries, r.registryId);
    var w' := Apply(w, Commit(t));
    CommitPublishes(w, t);
    GrantKeptIffHarmless(slot, r);
    forall id, name | Slashless(id)
      ensures (Granted(w', id, name) <==> PublicIn(SlotOf(w'.registries, id), name))
              <==> (id == r.registryId ==> GrantAfter(r, name, PublicIn(slot, name))
                                           == PublicIn(SlotOf(w'.registries, id), name))
    {
      CommitChangesGrant(w, t, id, name);
    }
    if GrantsMatch(w') {
      forall name ensures GrantAfter(r, name, PublicIn(slot, name)) == PublicIn(Execute(slot, DmlOf(r)).value, name) {
        assert Granted(w', r.registryId, name) <==> PublicIn(SlotOf(w'.registries, r.registryId), name);
      }
    }
  }

  /** Along the run, every commit is harmless for the registry as it stands at that commit. */
  ghost predicate HarmlessRun(w: World, steps: seq<Step>)
    decreases |steps|
  {
    steps == [] ||
    (Enabled(w, steps[0])
     && (steps[0].Commit? ==>
           var r := w.live[steps[0].tx].request;
           Harmless(SlotOf(w.registries, r.registryId), r))
     && HarmlessRun(Apply(w, steps[0]), steps[1..]))
  }

  ghost predicate Good(w: World) {
    Inv(w) && GrantsGuarded(w) && LiveAccepted(w) && GrantsMatch(w)
  }

  lemma StepKeepsGood(w: World, step: Step)
    requires Good(w) && Enabled(w, step) && (step.Begin? ==> step.request.Accepted())
    requires step.Commit? ==>
               var r := w.live[step.tx].request;
               Harmless(SlotOf(w.registries, r.registryId), r)
    ensures Good(Apply(w, step))
  {
    StepKeepsInv(w, step);
    StepKeepsGrantsGuarded(w, step);
    StepKeepsAccepted(w, step);
    if step.Commit? {
      CommitKeepsGrantsIffHarmless(w, step.tx);
    } else {
      UncommittedKeepsMatch(w, step);
    }
  }

  /** Nothing shows before a commit. */
  lemma UncommittedKeepsMatch(w: World, step: Step)
    requires Inv(w) && Enabled(w, step) && !step.Commit? && GrantsMatch(w)
    ensures GrantsMatch(Apply(w, step))
  {
    var w' := Apply(w, step);
    forall id, name | Slashless(id) ensures Granted(w', id, name) == Granted(w, id, name) {
      FoldExtend(w.outbox, w.nextId, w'.nextId, PublicGetTuple(id, name));
    }
  }

  lemma {:induction false} GoodFrom(w: World, steps: seq<Step>, w': World)
    requires Good(w) && Runs(w, steps, w') && AllAccepted(steps) && HarmlessRun(w, steps)
    ensures Good(w')
    decreases |steps|
  {
    if steps != [] {
      assert steps[0] in steps;
      StepKeepsGood(w, steps[0]);
      GoodFrom(Apply(w, steps[0]), steps[1..], w');
    }
  }

  /** Over every interleaving of use-case transactions, commits and rollbacks, as long as no
      commit is harmful: a repository is readable by everyone exactly when its row is PUBLIC. */
  lemma PublicGrantEqualsVisibility(steps: seq<Step>, w: World, id: string, name: string)
    requires Runs(INIT, steps, w) && AllAccepted(steps) && HarmlessRun(INIT, steps) && Slashless(id)
    ensures Granted(w, id, name) <==> PublicIn(SlotOf(w.registries, id), name)
  {
    assert GrantsGuarded(INIT) by {
      forall id', name' | Slashless(id')
        ensures GuardedIn(INIT, RegistryRow(id'), PublicGetTuple(id', name')) {
      }
    }
    GoodFrom(INIT, steps, w);
  }
}
