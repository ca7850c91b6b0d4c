/** DeleteRepository's worker: the engine decides emptiness, then the overlay row goes with its
    authorisation tuples. */
module RepositoryRemoval {
  import opened Common
  import opened RegistryStore
  import opened UseCases
  import opened OutboxFold
  import opened PromoteRace
  import opened EngineRename
  import opened RenameFlow

  /** A repository with tags is never touched; success, the first or a repeated one, means its row is
      gone; and apart from what others commit the only effect, also when the reply of the database is
      lost, is one whole delete transaction. */
  method DeleteRepository(engine: Engine, db: Database, id: string, name: string, fate: Fate, env: seq<Request>)
    returns (r: Result<(), Error>, ghost trace: seq<Request>)
    requires engine.Valid()
    modifies engine`calls, db
    ensures db.registries == RunAll(old(db.registries), trace)
    ensures trace == [] || exists took :: trace == env + Done(took, Request.DeleteRepository(id, name))
    ensures TagsOf(engine.content, FullName(id, name)) != map[] ==> r.Failure? && trace == []
    ensures r.Success? ==> ConfigAt(db.registries, id, name).None? && id in db.registries
    ensures fate.Smooth? && engine.AllAnswered() ==>
              (r.Success? <==> TagsOf(engine.content, FullName(id, name)) == map[]
                               && IsActive(RunAll(old(db.registries), env), id))
  {
    ghost var start := db.registries;
    trace := [];
    var tags := engine.RepoTags(FullName(id, name));
    if tags.Failure? {
      return Failure(tags.error), trace;
    }
    if |tags.value| > 0 {
      assert tags.value[0] in TagsOf(engine.content, FullName(id, name));
      return Failure(FailedPrecondition("repository is not empty")), trace;
    }
    assert forall t :: t !in TagsOf(engine.content, FullName(id, name));
    Interfere(db, env, start, []);
    assert [] + env == env;
    ghost var before := db.registries;
    var request := Request.DeleteRepository(id, name);
    ghost var took;
    var removed;
    removed, took := Submit(db, request, fate, start, env);
    trace := env + Done(took, request);
    DeleteLeavesNoRow(before, id, name);
    if removed.Failure? && removed.error != NotFound {
      return Failure(removed.error), trace;
    }
    return Success(()), trace;
  }

  /** Deleted now or before: either way there is no row; the registry has to be ACTIVE. */
  lemma DeleteLeavesNoRow(before: map<string, Registry>, id: string, name: string)
    ensures var result := Execute(SlotOf(before, id), DmlOf(Request.DeleteRepository(id, name)));
            && (result.Success? ==>
                  && ConfigAt(RunAlone(before, Request.DeleteRepository(id, name)), id, name).None?
                  && id in RunAlone(before, Request.DeleteRepository(id, name)))
            && (result == Failure(NotFound) ==> ConfigAt(before, id, name).None? && id in before)
            && (result.Success? || result == Failure(NotFound) <==> IsActive(before, id))
  {
  }
}
