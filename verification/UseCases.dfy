/** The transactions the control plane and the push path issue: what each writes and which
    intents it emits with the write. */
module UseCases {
  import opened Common
  import opened FgaIntents
  import opened RegistryStore

  /** One committed-or-rolled-back transaction as its use-case issues it. Visibilities and
      project ids are what the use-case read before the transaction, so they may be stale. */
  datatype Request =
    | CreateRegistry(registryId: string, projectId: string, subject: string)
    | PatchRegistry(registryId: string, projectId: string, applyDefault: bool, defaultVisibility: Visibility)
    | MarkRegistry(registryId: string)
    | RemoveRegistryRow(registryId: string, projectId: string)
    | CreateRepository(registryId: string, name: string, config: Config, projectId: string, subject: string)
    | UpdateRepository(registryId: string, name: string, patch: Patch)
    | PromoteRepository(registryId: string, name: string, config: Config)
    | RenameDurable(registryId: string, name: string, newName: string, seen: Visibility,
                    projectId: string, subject: string)
    | RenameEphemeral(registryId: string, name: string, newName: string, seen: Visibility,
                      projectId: string, subject: string)
    | DeleteRepository(registryId: string, name: string)
    | RegisterPushedRepo(registryId: string, name: string, projectId: string, subject: string, lockHash: int)
    | UnregisterEmptyRepo(registryId: string, name: string, lockHash: int)
  {
    /** Ids and names the use-cases accept: a registry id holds no '/', and renaming to the
        current name is refused before any transaction. */
    predicate Accepted() {
      Slashless(registryId) && (RenameDurable? || RenameEphemeral? ==> newName != name)
    }
  }

  function DmlOf(r: Request): Dml {
    match r
    case CreateRegistry(_, projectId, _) => InsertRegistry(projectId)
    case PatchRegistry(_, _, apply, v) => UpdateRegistry(apply, v)
    case MarkRegistry(_) => MarkDeleting
    case RemoveRegistryRow(_, _) => RemoveRegistry
    case CreateRepository(_, name, config, _, _) => InsertConfig(name, config)
    case UpdateRepository(_, name, patch) => UpdateConfig(name, patch)
    case PromoteRepository(_, name, config) => InsertConfig(name, config)
    case RenameDurable(_, name, newName, _, _, _) => RekeyConfig(name, newName)
    case RenameEphemeral(_, _, newName, seen, _, _) => InsertConfig(newName, Config("", map[], seen))
    case DeleteRepository(_, name) => DeleteConfig(name)
    case RegisterPushedRepo(_, _, _, _, lockHash) => EmitOnly(lockHash)
    case UnregisterEmptyRepo(_, _, lockHash) => EmitOnly(lockHash)
  }

  function PublicGrantIf(public: bool, registryId: string, name: string): seq<OutboxIntent> {
    if public then [OutboxIntent(Register, RepoPublicGrant(registryId, name))] else []
  }

  /** Governance of an explicit visibility change; nothing when visibility is not in the mask. */
  function UpdateGovernance(registryId: string, name: string, p: Patch): seq<OutboxIntent> {
    if !p.applyVisibility then []
    else [OutboxIntent(if p.visibility.Public? then Register else Unregister, RepoPublicGrant(registryId, name))]
  }

  function RenameIntents(registryId: string, oldName: string, newName: string, projectId: string,
                         subject: string, visibility: Visibility): seq<OutboxIntent> {
    [OutboxIntent(Register, RepoPushed(registryId, newName, projectId, subject)),
     OutboxIntent(Unregister, RepoRemoved(registryId, oldName)),
     OutboxIntent(Unregister, RepoPublicGrant(registryId, oldName))]
    + PublicGrantIf(visibility.Public?, registryId, newName)
  }

  function IntentsOf(r: Request): seq<OutboxIntent> {
    match r
    case CreateRegistry(id, projectId, subject) => [OutboxIntent(Register, RegistryCreated(id, projectId, subject))]
    case PatchRegistry(id, projectId, _, _) => [OutboxIntent(Register, RegistryUpdated(id, projectId))]
    case MarkRegistry(_) => []
    case RemoveRegistryRow(id, projectId) => [OutboxIntent(Unregister, RegistryDeleted(id, projectId))]
    case CreateRepository(id, name, config, projectId, subject) =>
      [OutboxIntent(Register, RepoPushed(id, name, projectId, subject))]
      + PublicGrantIf(config.visibility.Public?, id, name)
    case UpdateRepository(id, name, patch) => UpdateGovernance(id, name, patch)
    case PromoteRepository(id, name, config) => PublicGrantIf(config.visibility.Public?, id, name)
    case RenameDurable(id, name, newName, seen, projectId, subject) =>
      RenameIntents(id, name, newName, projectId, subject, seen)
    case RenameEphemeral(id, name, newName, seen, projectId, subject) =>
      RenameIntents(id, name, newName, projectId, subject, seen)
    case DeleteRepository(id, name) =>
      [OutboxIntent(Unregister, RepoRemoved(id, name)), OutboxIntent(Unregister, RepoPublicGrant(id, name))]
    case RegisterPushedRepo(id, name, projectId, subject, _) =>
      [OutboxIntent(Register, RepoPushed(id, name, projectId, subject))]
    case UnregisterEmptyRepo(id, name, _) => [OutboxIntent(Unregister, RepoRemoved(id, name))]
  }

  /** What a use-case writes when it goes through: exactly the registry or the row it is about, each field as
      asked, and nothing beside it. */
  lemma RequestsWrite(slot: Slot, r: Request)
    requires Execute(slot, DmlOf(r)).Success?
    ensures Execute(slot, DmlOf(r)).value == After(slot, r)
    ensures !r.CreateRegistry? && !DmlOf(r).EmitOnly? ==> slot.Some?
    ensures !r.MarkRegistry? && !r.RemoveRegistryRow? && slot.Some? && !DmlOf(r).EmitOnly? ==> slot.value.status.Active?
  {
  }

  predicate AboutRow(r: Request) {
    r.CreateRepository? || r.PromoteRepository? || r.UpdateRepository? || r.RenameDurable? || r.RenameEphemeral?
    || r.DeleteRepository?
  }

  /** Why a use-case is refused: nothing is written to the rows of a registry that is gone or being deleted,
      a new name must be free, and what is changed must be there. */
  lemma RequestsRefused(slot: Slot, r: Request)
    requires r.Accepted()
    ensures var result := Execute(slot, DmlOf(r));
            if AboutRow(r) then
              if slot.None? || slot.value.status.Deleting? then
                result.Failure? && result.error.FailedPrecondition?
              else
                var rows := slot.value.configs;
                var missing := (r.UpdateRepository? || r.RenameDurable? || r.DeleteRepository?) && r.name !in rows;
                var taken := || ((r.CreateRepository? || r.PromoteRepository?) && r.name in rows)
                             || ((r.RenameDurable? || r.RenameEphemeral?) && r.newName in rows);
                && (result == Failure(NotFound) <==> missing)
                && (result == Failure(AlreadyExists) <==> taken && !missing)
                && (result.Success? <==> !missing && !taken)
            else if r.CreateRegistry? then
              if slot.Some? then result == Failure(AlreadyExists) else result.Success?
            else if r.PatchRegistry? then
              if slot.None? || slot.value.status.Deleting? then result == Failure(NotFound) else result.Success?
            else if r.MarkRegistry? || r.RemoveRegistryRow? then
              if slot.None? then result == Failure(NotFound) else result.Success?
            else result.Success?
  {
  }

  /** The registry afterwards. */
  function After(slot: Slot, r: Request): Slot {
    match r
    case CreateRegistry(_, projectId, _) => Some(Registry(projectId, Active, Private, map[]))
    case RemoveRegistryRow(_, _) => None
    case RegisterPushedRepo(_, _, _, _, _) => slot
    case UnregisterEmptyRepo(_, _, _) => slot
    case _ =>
      if slot.None? then None
      else
        var g := slot.value;
        Some(Registry(g.projectId,
                      if r.MarkRegistry? then Deleting else g.status,
                      if r.PatchRegistry? && r.applyDefault then Stored(r.defaultVisibility) else g.defaultVisibility,
                      RowsAfter(g.configs, r)))
  }

  function RowsAfter(rows: map<string, Config>, r: Request): map<string, Config> {
    match r
    case CreateRepository(_, name, c, _, _) => rows[name := Config(c.description, c.labels, Stored(c.visibility))]
    case PromoteRepository(_, name, c) => rows[name := Config(c.description, c.labels, Stored(c.visibility))]
    case UpdateRepository(_, name, p) =>
      if name !in rows then rows
      else
        rows[name := Config(if p.applyDescription then p.description else rows[name].description,
                            if p.applyLabels then p.labels else rows[name].labels,
                            if p.applyVisibility then Stored(p.visibility) else rows[name].visibility)]
    case RenameDurable(_, name, newName, _, _, _) =>
      if name !in rows then rows else (rows - {name})[newName := rows[name]]
    case RenameEphemeral(_, _, newName, seen, _, _) => rows[newName := Config("", map[], Stored(seen))]
    case DeleteRepository(_, name) => rows - {name}
    case _ => rows
  }
}
