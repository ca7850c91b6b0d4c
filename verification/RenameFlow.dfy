/** RenameRepository's worker across both stores: first the engine content, then the overlay row
    with its intents. The two steps are not atomic together; this is what holds anyway. */
module RenameFlow {
  import opened Common
  import opened FgaIntents
  import opened RegistryStore
  import opened UseCases
  import opened OutboxFold
  import opened PublicGrant
  import opened PromoteRace
  import opened EngineRename

  function ConfigAt(registries: map<string, Registry>, id: string, name: string): Option<Config> {
    if id in registries && name in registries[id].configs then Some(registries[id].configs[name]) else None
  }

  function FullName(id: string, name: string): string {
    id + "/" + name
  }

  /** The overlay transaction of a rename: a durable repository is re-keyed, an ephemeral one is
      promoted under its new name. */
  function RenameRequest(id: string, oldName: string, newName: string, overlay: Option<Config>, seen: Visibility,
                         projectId: string, subject: string): Request {
    if overlay.Some? then RenameDurable(id, oldName, newName, seen, projectId, subject)
    else RenameEphemeral(id, oldName, newName, seen, projectId, subject)
  }

  /** The visibility a rename carries over: the row it read, or the registry's default. */
  function SeenVisibility(overlay: Option<Config>, registry: Registry): Visibility {
    ResolveVisibility(if overlay.Some? then overlay.value.visibility else registry.defaultVisibility,
                      registry.defaultVisibility)
  }

  predicate Explicit(v: Visibility) {
    v.Public? || v.Private?
  }

  /** The rename names what it was asked for, and carries the visibility of the row as the worker read it
      at first or, without a row, the default of the registry as it read that after the content moved. */
  predicate CarriesReadings(start: map<string, Registry>, read: map<string, Registry>, r: Request,
                            id: string, oldName: string, newName: string, subject: string) {
    && id in read && r.registryId == id
    && match ConfigAt(start, id, oldName)
       case Some(row) =>
         && r.RenameDurable? && r.name == oldName && r.newName == newName
         && r.projectId == read[id].projectId && r.subject == subject
         && (Explicit(row.visibility) ==> r.seen == row.visibility)
       case None =>
         && r.RenameEphemeral? && r.name == oldName && r.newName == newName
         && r.projectId == read[id].projectId && r.subject == subject
         && r.seen == Stored(read[id].defaultVisibility)
  }

  /** Nobody changed the row's visibility, or made a PUBLIC row, between the worker's reading and its commit. */
  predicate ReadingsCurrent(start: map<string, Registry>, before: map<string, Registry>, id: string, oldName: string) {
    match ConfigAt(start, id, oldName)
    case Some(row) =>
      && Explicit(row.visibility)
      && ConfigAt(before, id, oldName).Some? && ConfigAt(before, id, oldName).value.visibility == row.visibility
    case None => ConfigAt(before, id, oldName).None? || !ConfigAt(before, id, oldName).value.visibility.Public?
  }

  /** A rename whose readings are current keeps grants and visibilities in step. */
  lemma CurrentRenameIsHarmless(start: map<string, Registry>, read: map<string, Registry>,
                                before: map<string, Registry>, r: Request,
                                id: string, oldName: string, newName: string, subject: string)
    requires CarriesReadings(start, read, r, id, oldName, newName, subject)
    requires ReadingsCurrent(start, before, id, oldName)
    ensures Harmless(SlotOf(before, id), r)
  {
  }

  predicate AllExplicit(registries: map<string, Registry>) {
    forall id <- registries, name <- registries[id].configs :: Explicit(registries[id].configs[name].visibility)
  }

  /** Every row that was ever written is explicitly PUBLIC or PRIVATE. */
  lemma {:induction false} RowsAreExplicit(start: map<string, Registry>, trace: seq<Request>)
    requires AllExplicit(start)
    ensures AllExplicit(RunAll(start, trace))
    decreases |trace|
  {
    if trace != [] {
      var n := |trace| - 1;
      RowsAreExplicit(start, trace[..n]);
      OneKeepsExplicit(RunAll(start, trace[..n]), trace[n]);
    }
  }

  lemma OneKeepsExplicit(registries: map<string, Registry>, r: Request)
    requires AllExplicit(registries)
    ensures AllExplicit(RunAlone(registries, r))
  {
    var after := RunAlone(registries, r);
    forall id <- after, name <- after[id].configs ensures Explicit(after[id].configs[name].visibility) {
      if id in registries && name in registries[id].configs {
        assert Explicit(registries[id].configs[name].visibility);
      }
    }
  }

  /** What has happened to the tables when the worker returns: it stopped before, at or after the target
      check, after the content moved, or with its one transaction, a rename that carries what it read. */
  ghost predicate OneRename(start: map<string, Registry>, trace: seq<Request>,
                            env0: seq<Request>, env1: seq<Request>, env2: seq<Request>,
                            id: string, oldName: string, newName: string, subject: string) {
    || trace == [] || trace == env0 || trace == env0 + env1 || trace == env0 + env1 + env2
    || EndsInRename(start, trace, env0, env1, env2, id, oldName, newName, subject)
  }

  ghost predicate EndsInRename(start: map<string, Registry>, trace: seq<Request>,
                               env0: seq<Request>, env1: seq<Request>, env2: seq<Request>,
                               id: string, oldName: string, newName: string, subject: string) {
    var front := env0 + env1 + env2;
    var before := RunAll(start, front);
    && |trace| == |front| + 1 && trace[..|front|] == front
    && CarriesReadings(start, RunAll(start, env0 + env1), trace[|front|], id, oldName, newName, subject)
    && (ReadingsCurrent(start, before, id, oldName) ==> Harmless(SlotOf(before, id), trace[|front|]))
  }

  /** When nothing fails, a rename goes through in exactly these cases. */
  ghost predicate RenameGoesThrough(content: Content, start: map<string, Registry>,
                                    env0: seq<Request>, env1: seq<Request>, env2: seq<Request>,
                                    id: string, oldName: string, newName: string) {
    && !Taken(content, RunAll(start, env0), id, newName)
    && RowGoesThrough(start, RunAll(start, env0 + env1), RunAll(start, env0 + env1 + env2), id, oldName, newName)
  }

  /** The registry is there when read and ACTIVE at the commit, the new name is still free, and a durable
      repository is still there. */
  predicate RowGoesThrough(start: map<string, Registry>, read: map<string, Registry>, before: map<string, Registry>,
                           id: string, oldName: string, newName: string) {
    && id in read && IsActive(before, id) && !HasName(before, id, newName)
    && (HasName(start, id, oldName) ==> HasName(before, id, oldName))
  }

  predicate Taken(content: Content, registries: map<string, Registry>, id: string, name: string) {
    ConfigAt(registries, id, name).Some? || TagsOf(content, FullName(id, name)) != map[]
  }

  /** The target is taken if it has an overlay row or tags; when a read fails nobody knows. */
  method AssertTargetFree(engine: Engine, registries: map<string, Registry>, id: string, newName: string, fate: Fate)
    returns (r: Result<(), Error>)
    requires engine.Valid()
    modifies engine`calls
    ensures Taken(engine.content, registries, id, newName) ==> r.Failure?
    ensures r == Failure(AlreadyExists) ==> Taken(engine.content, registries, id, newName)
    ensures fate.Smooth? && engine.AllAnswered() ==> (r.Success? <==> !Taken(engine.content, registries, id, newName))
    ensures r.Failure? ==> r.error == Unavailable || r.error == AlreadyExists
  {
    if !fate.Smooth? {
      return Failure(Unavailable);
    }
    if ConfigAt(registries, id, newName).Some? {
      return Failure(AlreadyExists);
    }
    var tags := engine.RepoTags(FullName(id, newName));
    if tags.Failure? {
      return Failure(tags.error);
    }
    if |tags.value| > 0 {
      assert tags.value[0] in TagsOf(engine.content, FullName(id, newName));
      return Failure(AlreadyExists);
    }
    assert forall t :: t !in TagsOf(engine.content, FullName(id, newName));
    return Success(());
  }

  /** What the overlay holds under the new name after a successful rename of this worker. */
  ghost predicate Renamed(read: map<string, Registry>, before: map<string, Registry>, after: map<string, Registry>,
                          id: string, oldName: string, newName: string, durable: bool, c: Config) {
    && HasRow(after, id, newName, c)
    && (durable ==> ConfigAt(before, id, oldName) == Some(c) && ConfigAt(after, id, oldName).None?)
    && (!durable ==> id in read && c == Config("", map[], Stored(read[id].defaultVisibility)))
  }

  lemma RenameExecutes(before: map<string, Registry>, id: string, oldName: string, newName: string,
                       overlay: Option<Config>, seen: Visibility, projectId: string, subject: string)
    requires oldName != newName
    ensures var r := RenameRequest(id, oldName, newName, overlay, seen, projectId, subject);
            Execute(SlotOf(before, id), DmlOf(r)).Success?
            <==> && IsActive(before, id) && !HasName(before, id, newName)
                 && (overlay.Some? ==> HasName(before, id, oldName))
  {
  }

  lemma RenameWritesRow(read: map<string, Registry>, before: map<string, Registry>, id: string, oldName: string,
                        newName: string, overlay: Option<Config>, seen: Visibility, projectId: string, subject: string)
    requires oldName != newName && id in read
    requires overlay.None? ==> seen == Stored(read[id].defaultVisibility)
    requires var r := RenameRequest(id, oldName, newName, overlay, seen, projectId, subject);
             Execute(SlotOf(before, id), DmlOf(r)).Success?
    ensures var r := RenameRequest(id, oldName, newName, overlay, seen, projectId, subject);
            var slot := Execute(SlotOf(before, id), DmlOf(r)).value;
            && slot.Some? && newName in slot.value.configs
            && Renamed(read, before, RunAlone(before, r), id, oldName, newName, overlay.Some?,
                       slot.value.configs[newName])
  {
  }

  /** Whatever call fails and whatever commits to the overlay in between: no tag of the repository is
      ever lost, a target taken at its check is refused before anything moves, the tables only ever see
      whole use-case transactions, and success means both stores have it under its new name. When
      nothing fails, the rename goes through exactly when it can. */
  method DoRename(engine: Engine, db: Database, id: string, oldName: string, newName: string, subject: string,
                  fates: nat -> Fate, env0: seq<Request>, env1: seq<Request>, env2: seq<Request>)
    returns (r: Result<Config, Error>, ghost trace: seq<Request>)
    requires engine.Valid() && oldName != newName
    modifies engine, db
    ensures engine.Valid()
    ensures engine.Kept(old(engine.history), old(engine.content), FullName(id, oldName), FullName(id, newName))
    ensures db.registries == RunAll(old(db.registries), trace)
    ensures OneRename(old(db.registries), trace, env0, env1, env2, id, oldName, newName, subject)
    ensures Taken(old(engine.content), RunAll(old(db.registries), env0), id, newName) ==>
              r.Failure? && engine.content == old(engine.content) && (trace == [] || trace == env0)
    ensures r.Success? ==>
              && Moved(old(engine.content), engine.content, FullName(id, oldName), FullName(id, newName))
              && Renamed(RunAll(old(db.registries), env0 + env1), RunAll(old(db.registries), env0 + env1 + env2),
                         db.registries, id, oldName, newName, ConfigAt(old(db.registries), id, oldName).Some?, r.value)
    ensures NothingFails(fates) && engine.AllAnswered() && Consistent(old(engine.content), FullName(id, oldName)) ==>
              (r.Success? <==> RenameGoesThrough(old(engine.content), old(db.registries), env0, env1, env2,
                                                 id, oldName, newName))
  {
    trace := [];
    if !fates(0).Smooth? {
      return Failure(Unavailable), trace;
    }
    var overlay := ConfigAt(db.registries, id, oldName);
    ghost var start := db.registries;
    Interfere(db, env0, start, []);
    trace := env0;
    assert [] + env0 == env0;
    var moved := MoveContent(engine, db.registries, id, oldName, newName, fates(1));
    if moved.Failure? {
      return Failure(moved.error), trace;
    }
    r, trace := WriteAndProject(engine, db, id, oldName, newName, overlay, subject, fates, start, env0, env1, env2);
  }

  /** The overlay half, then a look at what the new name has. */
  method WriteAndProject(engine: Engine, db: Database, id: string, oldName: string, newName: string,
                         overlay: Option<Config>, subject: string, fates: nat -> Fate,
                         ghost start: map<string, Registry>, env0: seq<Request>, env1: seq<Request>, env2: seq<Request>)
    returns (r: Result<Config, Error>, ghost trace: seq<Request>)
    requires engine.Valid() && oldName != newName && db.registries == RunAll(start, env0)
    requires overlay == ConfigAt(start, id, oldName)
    modifies engine`calls, db
    ensures engine.Valid() && db.registries == RunAll(start, trace)
    ensures OneRename(start, trace, env0, env1, env2, id, oldName, newName, subject)
    ensures r.Success? ==>
              Renamed(RunAll(start, env0 + env1), RunAll(start, env0 + env1 + env2), db.registries,
                      id, oldName, newName, overlay.Some?, r.value)
    ensures NothingFails(fates) && engine.AllAnswered() ==>
              (r.Success? <==> RowGoesThrough(start, RunAll(start, env0 + env1), RunAll(start, env0 + env1 + env2),
                                              id, oldName, newName))
  {
    r, trace := RenameRow(db, id, oldName, newName, overlay, subject, fates, start, env0, env1, env2);
    if r.Success? {
      var projected := engine.RepoTags(FullName(id, newName));
      if projected.Failure? {
        r := Failure(projected.error);
      }
    }
  }

  /** The engine half: nothing moves into a taken target. */
  method MoveContent(engine: Engine, registries: map<string, Registry>, id: string, oldName: string, newName: string,
                     fate: Fate)
    returns (r: Result<(), Error>)
    requires engine.Valid() && oldName != newName
    modifies engine
    ensures engine.Valid()
    ensures engine.Kept(old(engine.history), old(engine.content), FullName(id, oldName), FullName(id, newName))
    ensures Taken(old(engine.content), registries, id, newName) ==>
              r.Failure? && engine.content == old(engine.content)
    ensures r.Success? ==>
              Moved(old(engine.content), engine.content, FullName(id, oldName), FullName(id, newName))
    ensures fate.Smooth? && engine.AllAnswered() && Consistent(old(engine.content), FullName(id, oldName)) ==>
              (r.Success? <==> !Taken(old(engine.content), registries, id, newName))
  {
    var free := AssertTargetFree(engine, registries, id, newName, fate);
    if free.Failure? {
      return free;
    }
    r := engine.RenameRepository(id, oldName, newName);
  }

  /** The overlay half, run after the content has moved. */
  method RenameRow(db: Database, id: string, oldName: string, newName: string, overlay: Option<Config>,
                   subject: string, fates: nat -> Fate, ghost start: map<string, Registry>,
                   env0: seq<Request>, env1: seq<Request>, env2: seq<Request>)
    returns (r: Result<Config, Error>, ghost trace: seq<Request>)
    requires oldName != newName && db.registries == RunAll(start, env0) && overlay == ConfigAt(start, id, oldName)
    modifies db
    ensures db.registries == RunAll(start, trace)
    ensures OneRename(start, trace, env0, env1, env2, id, oldName, newName, subject)
    ensures r.Success? ==>
              Renamed(RunAll(start, env0 + env1), RunAll(start, env0 + env1 + env2), db.registries,
                      id, oldName, newName, overlay.Some?, r.value)
    ensures NothingFails(fates) ==>
              (r.Success? <==> RowGoesThrough(start, RunAll(start, env0 + env1), RunAll(start, env0 + env1 + env2),
                                              id, oldName, newName))
  {
    Interfere(db, env1, start, env0);
    trace := env0 + env1;
    ghost var read := db.registries;
    var slot := SlotOf(db.registries, id);
    if !fates(2).Smooth? {
      return Failure(Unavailable), trace;
    }
    if slot.None? {
      return Failure(NotFound), trace;
    }
    var seen := SeenVisibility(overlay, slot.value);
    Interfere(db, env2, start, env0 + env1);
    ghost var before := db.registries;
    var request := RenameRequest(id, oldName, newName, overlay, seen, slot.value.projectId, subject);
    assert CarriesReadings(start, read, request, id, oldName, newName, subject);
    ghost var front := env0 + env1 + env2;
    ghost var took;
    var written;
    RenameExecutes(before, id, oldName, newName, overlay, seen, slot.value.projectId, subject);
    written, took := Submit(db, request, fates(3), start, front);
    trace := front + Done(took, request);
    TraceEndsInRename(start, trace, env0, env1, env2, id, oldName, newName, subject, request, took);
    if written.Failure? {
      return Failure(written.error), trace;
    }
    RenameWritesRow(read, before, id, oldName, newName, overlay, seen, slot.value.projectId, subject);
    return Success(written.value.value.configs[newName]), trace;
  }

  lemma TraceEndsInRename(start: map<string, Registry>, trace: seq<Request>,
                          env0: seq<Request>, env1: seq<Request>, env2: seq<Request>,
                          id: string, oldName: string, newName: string, subject: string, r: Request, took: bool)
    requires CarriesReadings(start, RunAll(start, env0 + env1), r, id, oldName, newName, subject)
    requires trace == env0 + env1 + env2 + Done(took, r)
    ensures OneRename(start, trace, env0, env1, env2, id, oldName, newName, subject)
  {
    var front := env0 + env1 + env2;
    if took {
      assert trace[..|front|] == front && trace[|front|] == r;
      if ReadingsCurrent(start, RunAll(start, front), id, oldName) {
        CurrentRenameIsHarmless(start, RunAll(start, env0 + env1), RunAll(start, front), r,
                                id, oldName, newName, subject);
      }
    } else {
      assert trace == front;
    }
  }
}
