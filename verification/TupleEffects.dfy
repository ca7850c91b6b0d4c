/** What each use-case's intents leave of the tuples that make up the resource hierarchy: a repository's
    parent and owner, and a registry's project and owner, each spelled out. */
module TupleEffects {
  import opened Common
  import opened FgaIntents
  import opened RegistryStore
  import opened UseCases
  import opened OutboxOrder
  import opened OutboxFold
  import opened PublicGrant

  function ParentOf(id: string, name: string): Tuple {
    Tuple("registry_registry:" + id, "parent", "registry_repository:" + (id + "/" + name))
  }

  function OwnerOf(id: string, name: string, subject: string): Tuple {
    Tuple(subject, "owner", "registry_repository:" + (id + "/" + name))
  }

  function ProjectOf(id: string, projectId: string): Tuple {
    Tuple("project:" + projectId, "project", "registry_registry:" + id)
  }

  function RegistryOwnerOf(id: string, subject: string): Tuple {
    Tuple(subject, "owner", "registry_registry:" + id)
  }

  lemma SuffixInjective(prefix: string, a: string, b: string)
    ensures prefix + a == prefix + b <==> a == b
  {
    assert (prefix + a)[|prefix|..] == a && (prefix + b)[|prefix|..] == b;
  }

  lemma RepoTuplesDiffer(id: string, a: string, b: string)
    ensures "registry_repository:" + (id + "/" + a) == "registry_repository:" + (id + "/" + b) <==> a == b
  {
    SuffixInjective("registry_repository:", id + "/" + a, id + "/" + b);
    SuffixInjective(id + "/", a, b);
  }

  lemma RefsAreSpelled(objectId: string)
    ensures ObjectRef(TYPE_PROJECT, objectId) == "project:" + objectId
    ensures ObjectRef(TYPE_REGISTRY, objectId) == "registry_registry:" + objectId
    ensures ObjectRef(TYPE_REPOSITORY, objectId) == "registry_repository:" + objectId
  {
    assert TYPE_PROJECT + ":" == "project:" && TYPE_REGISTRY + ":" == "registry_registry:";
    assert TYPE_REPOSITORY + ":" == "registry_repository:";
  }

  lemma OneRow(row: OutboxIntent, tuple: Tuple, present: bool)
    ensures ApplyRows([row], tuple, present) == if tuple in row.intent.tuples then row.event.Register? else present
  {
    assert [row][..0] == [];
  }

  /** A push registers the parent and, for a known subject, the owner; a removal unregisters the parent. */
  lemma RepoIntentTuples(id: string, name: string, projectId: string, subject: string, t: Tuple)
    ensures t in RepoPushed(id, name, projectId, subject).tuples
            <==> t == ParentOf(id, name) || (subject != "" && t == OwnerOf(id, name, subject))
    ensures t in RepoRemoved(id, name).tuples <==> t == ParentOf(id, name)
    ensures t in RepoPublicGrant(id, name).tuples
            <==> t == Tuple("user:*", "v_get", "registry_repository:" + (id + "/" + name))
    ensures RepoPushed(id, name, projectId, subject).parentProjectId == projectId
    ensures RepoPushed(id, name, projectId, subject).resourceId == RepoRemoved(id, name).resourceId == id + "/" + name
  {
    RefsAreSpelled(id);
    RefsAreSpelled(id + "/" + name);
  }

  lemma RegistryIntentTuples(id: string, projectId: string, subject: string, t: Tuple)
    ensures t in RegistryCreated(id, projectId, subject).tuples
            <==> t == ProjectOf(id, projectId) || (subject != "" && t == RegistryOwnerOf(id, subject))
    ensures t in RegistryUpdated(id, projectId).tuples <==> t == ProjectOf(id, projectId)
    ensures t in RegistryDeleted(id, projectId).tuples <==> t == ProjectOf(id, projectId)
  {
    RefsAreSpelled(id);
    RefsAreSpelled(projectId);
  }

  /** Grants aside, what the rows do to a tuple. */
  function NetEffect(r: Request, t: Tuple, present: bool): bool {
    match r
    case CreateRegistry(id, projectId, subject) =>
      t == ProjectOf(id, projectId) || (subject != "" && t == RegistryOwnerOf(id, subject)) || present
    case PatchRegistry(id, projectId, _, _) => t == ProjectOf(id, projectId) || present
    case RemoveRegistryRow(id, projectId) => t != ProjectOf(id, projectId) && present
    case CreateRepository(id, name, _, _, subject) => Pushed(id, name, subject, t) || present
    case RenameDurable(id, name, newName, _, _, subject) =>
      Pushed(id, newName, subject, t) || (t != ParentOf(id, name) && present)
    case RenameEphemeral(id, name, newName, _, _, subject) =>
      Pushed(id, newName, subject, t) || (t != ParentOf(id, name) && present)
    case DeleteRepository(id, name) => t != ParentOf(id, name) && present
    case RegisterPushedRepo(id, name, _, subject, _) => Pushed(id, name, subject, t) || present
    case UnregisterEmptyRepo(id, name, _) => t != ParentOf(id, name) && present
    case _ => present
  }

  predicate Pushed(id: string, name: string, subject: string, t: Tuple) {
    t == ParentOf(id, name) || (subject != "" && t == OwnerOf(id, name, subject))
  }

  lemma GrantRowsAside(public: bool, event: Event, id: string, name: string, t: Tuple, present: bool)
    requires t.relation != "v_get"
    ensures ApplyRows([OutboxIntent(event, RepoPublicGrant(id, name))], t, present) == present
    ensures ApplyRows(PublicGrantIf(public, id, name), t, present) == present
  {
    OneRow(OutboxIntent(event, RepoPublicGrant(id, name)), t, present);
    OneRow(OutboxIntent(Register, RepoPublicGrant(id, name)), t, present);
  }

  lemma RenameRows(id: string, oldName: string, newName: string, projectId: string, subject: string,
                   seen: Visibility, t: Tuple, present: bool)
    requires oldName != newName && t.relation != "v_get"
    ensures ApplyRows(RenameIntents(id, oldName, newName, projectId, subject, seen), t, present)
            == (Pushed(id, newName, subject, t) || (t != ParentOf(id, oldName) && present))
  {
    var pushed := OutboxIntent(Register, RepoPushed(id, newName, projectId, subject));
    var removed := OutboxIntent(Unregister, RepoRemoved(id, oldName));
    var revoked := OutboxIntent(Unregister, RepoPublicGrant(id, oldName));
    var granted := PublicGrantIf(seen.Public?, id, newName);
    assert RenameIntents(id, oldName, newName, projectId, subject, seen)
        == [pushed] + ([removed] + ([revoked] + granted));
    ApplyRowsConcat([pushed], [removed] + ([revoked] + granted), t, present);
    ApplyRowsConcat([removed], [revoked] + granted, t, Pushed(id, newName, subject, t) || present);
    OneRow(pushed, t, present);
    OneRow(removed, t, Pushed(id, newName, subject, t) || present);
    RepoIntentTuples(id, newName, projectId, subject, t);
    RepoIntentTuples(id, oldName, projectId, subject, t);
    RepoTuplesDiffer(id, oldName, newName);
    var between := Pushed(id, newName, subject, t) || (t != ParentOf(id, oldName) && present);
    ApplyRowsConcat([revoked], granted, t, between);
    GrantRowsAside(seen.Public?, Unregister, id, oldName, t, between);
    GrantRowsAside(seen.Public?, Register, id, newName, t, between);
  }

  lemma CreateRows(id: string, name: string, config: Config, projectId: string, subject: string,
                   t: Tuple, present: bool)
    requires t.relation != "v_get"
    ensures ApplyRows(IntentsOf(CreateRepository(id, name, config, projectId, subject)), t, present)
            == (Pushed(id, name, subject, t) || present)
  {
    var pushed := OutboxIntent(Register, RepoPushed(id, name, projectId, subject));
    ApplyRowsConcat([pushed], PublicGrantIf(config.visibility.Public?, id, name), t, present);
    OneRow(pushed, t, present);
    RepoIntentTuples(id, name, projectId, subject, t);
    GrantRowsAside(config.visibility.Public?, Register, id, name, t, Pushed(id, name, subject, t) || present);
  }

  lemma DeleteRows(id: string, name: string, t: Tuple, present: bool)
    requires t.relation != "v_get"
    ensures ApplyRows(IntentsOf(DeleteRepository(id, name)), t, present) == (t != ParentOf(id, name) && present)
  {
    var removed := OutboxIntent(Unregister, RepoRemoved(id, name));
    var revoked := OutboxIntent(Unregister, RepoPublicGrant(id, name));
    assert IntentsOf(DeleteRepository(id, name)) == [removed] + [revoked];
    ApplyRowsConcat([removed], [revoked], t, present);
    OneRow(removed, t, present);
    RepoIntentTuples(id, name, "", "", t);
    GrantRowsAside(false, Unregister, id, name, t, t != ParentOf(id, name) && present);
  }

  lemma SingleRows(r: Request, t: Tuple, present: bool)
    requires r.CreateRegistry? || r.PatchRegistry? || r.RemoveRegistryRow? || r.RegisterPushedRepo?
             || r.UnregisterEmptyRepo?
    ensures ApplyRows(IntentsOf(r), t, present) == NetEffect(r, t, present)
  {
    OneRow(IntentsOf(r)[0], t, present);
    if r.RegisterPushedRepo? {
      RepoIntentTuples(r.registryId, r.name, r.projectId, r.subject, t);
    } else if r.UnregisterEmptyRepo? {
      RepoIntentTuples(r.registryId, r.name, "", "", t);
    } else {
      RegistryIntentTuples(r.registryId, r.projectId, if r.CreateRegistry? then r.subject else "", t);
    }
  }

  /** Any tuple but a grant, after any use-case: creating, pushing and renaming to register a parent and an
      owner; deleting, emptying and renaming away take the parent and leave the owner; and a registry's
      project tuple follows its row. */
  lemma RowsDecideTuple(r: Request, t: Tuple, present: bool)
    requires r.Accepted() && t.relation != "v_get"
    ensures ApplyRows(Rows(r), t, present) == NetEffect(r, t, present)
  {
    RowsAreIntents(r);
    match r
    case CreateRepository(id, name, config, projectId, subject) =>
      CreateRows(id, name, config, projectId, subject, t, present);
    case RenameDurable(id, oldName, newName, seen, projectId, subject) =>
      RenameRows(id, oldName, newName, projectId, subject, seen, t, present);
    case RenameEphemeral(id, oldName, newName, seen, projectId, subject) =>
      RenameRows(id, oldName, newName, projectId, subject, seen, t, present);
    case DeleteRepository(id, name) => DeleteRows(id, name, t, present);
    case PromoteRepository(id, name, config) =>
      GrantRowsAside(config.visibility.Public?, Register, id, name, t, present);
    case UpdateRepository(id, name, p) =>
      GrantRowsAside(false, if p.visibility.Public? then Register else Unregister, id, name, t, present);
    case MarkRegistry(_) =>
    case _ => SingleRows(r, t, present);
  }

  // ---- a registry's project tuple, over interleaved runs ----

  predicate HasProject(slot: Slot, projectId: string) {
    slot.Some? && slot.value.projectId == projectId
  }

  /** The project the use-case read is the registry's. */
  predicate ProjectCurrent(slot: Slot, r: Request) {
    r.PatchRegistry? || r.RemoveRegistryRow? ==> HasProject(slot, r.projectId)
  }

  lemma ProjectTuplesDiffer(a: string, p: string, b: string, q: string)
    ensures ProjectOf(a, p) == ProjectOf(b, q) <==> a == b && p == q
  {
    SuffixInjective("project:", p, q);
    SuffixInjective("registry_registry:", a, b);
  }

  /** One transaction keeps the project tuples equal to what the row says exactly when the project it
      carries is the registry's. */
  lemma ProjectKeptIffCurrent(slot: Slot, r: Request)
    requires r.Accepted() && Execute(slot, DmlOf(r)).Success?
    ensures (forall p :: NetEffect(r, ProjectOf(r.registryId, p), HasProject(slot, p))
                         == HasProject(Execute(slot, DmlOf(r)).value, p))
            <==> ProjectCurrent(slot, r)
  {
    forall p, q ensures ProjectOf(r.registryId, p) == ProjectOf(r.registryId, q) <==> p == q {
      ProjectTuplesDiffer(r.registryId, p, r.registryId, q);
    }
    if r.PatchRegistry? || r.RemoveRegistryRow? {
      var own := slot.value.projectId;
      assert NetEffect(r, ProjectOf(r.registryId, own), true) == (r.PatchRegistry? || r.projectId != own);
      assert NetEffect(r, ProjectOf(r.registryId, r.projectId), HasProject(slot, r.projectId)) == r.PatchRegistry?;
    }
  }

  /** What a request does to another registry's project tuples: nothing. */
  lemma ForeignProjectUntouched(r: Request, id: string, p: string, present: bool)
    requires r.registryId != id
    ensures NetEffect(r, ProjectOf(id, p), present) == present
  {
    if r.CreateRegistry? || r.PatchRegistry? || r.RemoveRegistryRow? {
      ProjectTuplesDiffer(r.registryId, r.projectId, id, p);
    }
  }

  /** A project tuple is only ever written under the lock of its registry's row. */
  lemma RowLockGuardsProject(r: Request, id: string, p: string)
    requires r.Accepted() && Mentions(Rows(r), ProjectOf(id, p))
    ensures LockOf(r) == RegistryRow(id)
  {
    RowsAreIntents(r);
    var t := ProjectOf(id, p);
    var i :| i in IntentsOf(r) && t in i.intent.tuples;
    if r.CreateRegistry? || r.PatchRegistry? || r.RemoveRegistryRow? {
      RegistryIntentTuples(r.registryId, r.projectId, if r.CreateRegistry? then r.subject else "", t);
      ProjectTuplesDiffer(r.registryId, r.projectId, id, p);
    }
  }

  ghost predicate Succeeded(commits: seq<Committed>) {
    forall k :: 0 <= k < |commits| ==>
      Execute(SlotOf(Replay(commits[..k]), commits[k].request.registryId), DmlOf(commits[k].request)).Success?
  }

  /** Every commit carried the project its registry had at that commit. */
  ghost predicate ProjectsCurrent(commits: seq<Committed>) {
    forall k :: 0 <= k < |commits| ==>
      ProjectCurrent(SlotOf(Replay(commits[..k]), commits[k].request.registryId), commits[k].request)
  }

  ghost predicate AcceptedCommits(commits: seq<Committed>) {
    forall k :: 0 <= k < |commits| ==> commits[k].request.Accepted()
  }

  lemma SucceededSnoc(commits: seq<Committed>, c: Committed)
    requires Succeeded(commits) && AcceptedCommits(commits) && c.request.Accepted()
    requires Execute(SlotOf(Replay(commits), c.request.registryId), DmlOf(c.request)).Success?
    ensures Succeeded(commits + [c]) && AcceptedCommits(commits + [c])
  {
    assert forall k :: 0 <= k < |commits| ==> (commits + [c])[..k] == commits[..k];
    assert (commits + [c])[..|commits|] == commits;
  }

  ghost predicate SerialSuccess(w: World) {
    w.registries == Replay(w.commits) && Succeeded(w.commits) && AcceptedCommits(w.commits)
  }

  lemma StepKeepsSuccess(w: World, step: Step)
    requires Inv(w) && LiveAccepted(w) && SerialSuccess(w) && Enabled(w, step)
    ensures SerialSuccess(Apply(w, step))
  {
    if step.Commit? {
      CommitPublishes(w, step.tx);
      CommitIsSerial(w, step.tx);
      SucceededSnoc(w.commits, Committed(w.live[step.tx].request, w.live[step.tx].drawn));
    }
  }

  lemma {:induction false} CommitsSucceed(w: World, steps: seq<Step>, w': World)
    requires Inv(w) && LiveAccepted(w) && SerialSuccess(w) && Runs(w, steps, w') && AllAccepted(steps)
    ensures SerialSuccess(w')
    decreases |steps|
  {
    if steps != [] {
      assert steps[0] in steps;
      StepKeepsInv(w, steps[0]);
      StepKeepsAccepted(w, steps[0]);
      StepKeepsSuccess(w, steps[0]);
      CommitsSucceed(Apply(w, steps[0]), steps[1..], w');
    }
  }

  lemma ProjectFollowsRequest(registries: map<string, Registry>, r: Request, id: string, p: string)
    requires r.Accepted() && Execute(SlotOf(registries, r.registryId), DmlOf(r)).Success?
    requires ProjectCurrent(SlotOf(registries, r.registryId), r)
    ensures ApplyRows(Rows(r), ProjectOf(id, p), HasProject(SlotOf(registries, id), p))
            == HasProject(SlotOf(RunAlone(registries, r), id), p)
  {
    var present := HasProject(SlotOf(registries, id), p);
    RowsDecideTuple(r, ProjectOf(id, p), present);
    if r.registryId == id {
      ProjectKeptIffCurrent(SlotOf(registries, id), r);
    } else {
      ForeignProjectUntouched(r, id, p, present);
    }
  }

  lemma {:induction false} ProjectFollowsCommits(commits: seq<Committed>, id: string, p: string)
    requires AcceptedCommits(commits) && Succeeded(commits) && ProjectsCurrent(commits)
    ensures FoldByCommit(commits, ProjectOf(id, p)) == HasProject(SlotOf(Replay(commits), id), p)
    decreases |commits|
  {
    if commits != [] {
      var n := |commits| - 1;
      assert forall k :: 0 <= k < n ==> commits[..n][..k] == commits[..k];
      ProjectFollowsCommits(commits[..n], id, p);
      ProjectFollowsRequest(Replay(commits[..n]), commits[n].request, id, p);
    }
  }

  /** Over every interleaving in which the use-cases read projects that still hold at their commits: once the
      outbox is drained, a registry has the project tuple of exactly its own project, and none once its row
      is gone. */
  lemma ProjectTupleFollowsRow(steps: seq<Step>, w: World, id: string, p: string)
    requires Runs(INIT, steps, w) && AllAccepted(steps) && ProjectsCurrent(w.commits)
    ensures FoldById(w.outbox, w.nextId, ProjectOf(id, p)) <==> id in w.registries && w.registries[id].projectId == p
  {
    CommitsSucceed(INIT, steps, w);
    ProjectFollowsCommits(w.commits, id, p);
    forall s <- steps | s.Begin? && Mentions(Rows(s.request), ProjectOf(id, p))
      ensures LockOf(s.request) == RegistryRow(id)
    {
      RowLockGuardsProject(s.request, id, p);
    }
    DrainingFollowsCommits(steps, w, RegistryRow(id), ProjectOf(id, p));
  }
}
