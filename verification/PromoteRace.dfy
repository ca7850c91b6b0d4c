/** UpdateRepository's worker: update, and when the repository has no overlay row yet, insert
    one, falling back to a second update when a concurrent promotion won. */
module PromoteRace {
  import opened Common
  import opened FgaIntents
  import opened RegistryStore
  import opened UseCases
  import opened OutboxFold

  /** Requests run one after another; those that fail change nothing. */
  function RunAll(registries: map<string, Registry>, requests: seq<Request>): map<string, Registry> {
    if requests == [] then registries
    else RunAlone(RunAll(registries, requests[..|requests| - 1]), requests[|requests| - 1])
  }

  lemma RunAllSnoc(start: map<string, Registry>, trace: seq<Request>, r: Request)
    ensures RunAll(start, trace + [r]) == RunAlone(RunAll(start, trace), r)
  {
    assert (trace + [r])[..|trace|] == trace;
  }

  /** The request if its transaction took effect. */
  function Done(took: bool, r: Request): seq<Request> {
    if took then [r] else []
  }

  /** Runs one request in its own transaction. Success means it took effect; a domain error means the
      statement refused it; after an outage it may have taken effect or not, but as a whole. */
  method Submit(db: Database, r: Request, fate: Fate, ghost start: map<string, Registry>, ghost trace: seq<Request>)
    returns (result: Result<Slot, Error>, ghost took: bool)
    requires db.registries == RunAll(start, trace)
    modifies db
    ensures fate.Smooth? ==> result == Execute(old(SlotOf(db.registries, r.registryId)), DmlOf(r))
    ensures result.Success? ==> took && result == Execute(old(SlotOf(db.registries, r.registryId)), DmlOf(r))
    ensures result.Failure? ==>
              result.error == Unavailable || result == Execute(old(SlotOf(db.registries, r.registryId)), DmlOf(r))
    ensures result.Failure? && took ==> fate.ReplyLost?
    ensures took ==> Execute(old(SlotOf(db.registries, r.registryId)), DmlOf(r)).Success?
    ensures db.registries == if took then RunAlone(old(db.registries), r) else old(db.registries)
    ensures db.registries == RunAll(start, trace + Done(took, r))
  {
    result, took := db.RunTx(r.registryId, DmlOf(r), IntentsOf(r), fate);
    RunAllSnoc(start, trace, r);
    assert trace + [] == trace;
  }

  /** One transaction of somebody else; if its statement is refused it changes nothing. */
  method InterfereOnce(db: Database, r: Request, ghost start: map<string, Registry>, ghost trace: seq<Request>)
    requires db.registries == RunAll(start, trace)
    modifies db
    ensures db.registries == RunAll(start, trace + [r])
  {
    var result;
    ghost var took;
    result, took := Submit(db, r, Smooth, start, trace);
    RunAllSnoc(start, trace, r);
  }

  /** Other transactions that commit between two of ours. */
  method Interfere(db: Database, requests: seq<Request>, ghost start: map<string, Registry>, ghost trace: seq<Request>)
    requires db.registries == RunAll(start, trace)
    modifies db
    ensures db.registries == RunAll(start, trace + requests)
    decreases |requests|
  {
    if requests == [] {
      assert trace + requests == trace;
    } else {
      InterfereOnce(db, requests[0], start, trace);
      Interfere(db, requests[1..], start, trace + [requests[0]]);
      assert trace + [requests[0]] + requests[1..] == trace + requests;
    }
  }

  /** The row a promotion inserts: the request's fields whether or not they are in the mask. */
  function Promoted(p: Patch, registryDefault: Visibility): Config {
    Config(p.description, p.labels,
           ResolveVisibility(if p.applyVisibility then p.visibility else registryDefault, registryDefault))
  }

  predicate Honours(c: Config, p: Patch) {
    && (p.applyDescription ==> c.description == p.description)
    && (p.applyLabels ==> c.labels == p.labels)
    && (p.applyVisibility ==> c.visibility == Stored(p.visibility))
  }

  ghost predicate HasRow(registries: map<string, Registry>, id: string, name: string, c: Config) {
    id in registries && name in registries[id].configs && registries[id].configs[name] == c
  }

  lemma UpdateWritesRow(registries: map<string, Registry>, id: string, name: string, p: Patch)
    requires Execute(SlotOf(registries, id), UpdateConfig(name, p)).Success?
    ensures var slot := Execute(SlotOf(registries, id), UpdateConfig(name, p)).value;
            && slot.Some? && name in slot.value.configs && Honours(slot.value.configs[name], p)
            && HasRow(RunAlone(registries, UpdateRepository(id, name, p)), id, name, slot.value.configs[name])
  {
  }

  lemma PromoteWritesRow(registries: map<string, Registry>, id: string, name: string, p: Patch, v: Visibility)
    requires p.applyVisibility ==> !p.visibility.Unspecified?
    requires Execute(SlotOf(registries, id), InsertConfig(name, Promoted(p, v))).Success?
    ensures var slot := Execute(SlotOf(registries, id), InsertConfig(name, Promoted(p, v))).value;
            && slot.Some? && name in slot.value.configs && Honours(slot.value.configs[name], p)
            && HasRow(RunAlone(registries, PromoteRepository(id, name, Promoted(p, v))), id, name,
                      slot.value.configs[name])
  {
  }

  /** What the worker and the others have done to the tables by the time it returns: it stopped after
      its update, after finding the registry gone, after its promotion, or after its second update. */
  ghost predicate UpdateTrace(trace: seq<Request>, update: Request, promote: Request,
                              env1: seq<Request>, env2: seq<Request>, env3: seq<Request>) {
    || trace == env1
    || exists took :: trace == Done(took, update) || trace == env1 + env2 + Done(took, promote)
                      || trace == env1 + env2 + env3 + Done(took, update)
  }

  predicate IsActive(registries: map<string, Registry>, id: string) {
    id in registries && registries[id].status.Active?
  }

  predicate HasName(registries: map<string, Registry>, id: string, name: string) {
    id in registries && name in registries[id].configs
  }

  /** When nothing fails, the update goes through in exactly these cases: the registry is ACTIVE at each of
      the worker's transactions and there at its read, and the row is there at once; or it is not and
      the insert makes it; or the insert finds one, the lost race, and it is still there at the retry. */
  ghost predicate GoesThrough(start: map<string, Registry>, env1: seq<Request>, env2: seq<Request>, env3: seq<Request>,
                              id: string, name: string) {
    var read := RunAll(start, env1);
    var inserting := RunAll(start, env1 + env2);
    var retrying := RunAll(start, env1 + env2 + env3);
    && IsActive(start, id)
    && (HasName(start, id, name) || Promotes(read, inserting, retrying, id, name))
  }

  predicate Promotes(read: map<string, Registry>, inserting: map<string, Registry>, retrying: map<string, Registry>,
                     id: string, name: string) {
    && id in read && IsActive(inserting, id)
    && (HasName(inserting, id, name) ==> IsActive(retrying, id) && HasName(retrying, id, name))
  }

  lemma UpdateExecutes(registries: map<string, Registry>, id: string, name: string, p: Patch)
    ensures var result := Execute(SlotOf(registries, id), UpdateConfig(name, p));
            && (result.Success? <==> IsActive(registries, id) && HasName(registries, id, name))
            && (result == Failure(NotFound) <==> IsActive(registries, id) && !HasName(registries, id, name))
  {
  }

  lemma InsertExecutes(registries: map<string, Registry>, id: string, name: string, c: Config)
    ensures var result := Execute(SlotOf(registries, id), InsertConfig(name, c));
            && (result.Success? <==> IsActive(registries, id) && !HasName(registries, id, name))
            && (result == Failure(AlreadyExists) <==> IsActive(registries, id) && HasName(registries, id, name))
  {
  }

  ghost predicate NothingFails(fates: nat -> Fate) {
    forall k :: fates(k).Smooth?
  }

  /** With nobody else around and nothing failing, an update of any repository of an ACTIVE registry, durable
      or not, goes through. */
  lemma UndisturbedUpdateGoesThrough(start: map<string, Registry>, id: string, name: string)
    requires IsActive(start, id)
    ensures GoesThrough(start, [], [], [], id, name)
  {
    var none: seq<Request> := [];
    assert RunAll(start, none) == start && none + none == none;
  }

  /** The promotion, with the default of the registry as the worker read it. */
  function PromoteRequest(read: map<string, Registry>, id: string, name: string, p: Patch): Request {
    PromoteRepository(id, name, Promoted(p, if id in read then read[id].defaultVisibility else Private))
  }

  /** Whatever commits in between and whatever call fails, success means the row now has every masked
      field, and the worker's effect is at most one whole use-case transaction; and when nothing fails
      it goes through exactly when it can. */
  method ApplyRepoUpdate(db: Database, id: string, name: string, p: Patch, fates: nat -> Fate,
                         env1: seq<Request>, env2: seq<Request>, env3: seq<Request>)
    returns (r: Result<Config, Error>, ghost trace: seq<Request>)
    requires p.applyVisibility ==> !p.visibility.Unspecified?
    modifies db
    ensures db.registries == RunAll(old(db.registries), trace)
    ensures UpdateTrace(trace, UpdateRepository(id, name, p),
                        PromoteRequest(RunAll(old(db.registries), env1), id, name, p), env1, env2, env3)
    ensures r.Success? ==> HasRow(db.registries, id, name, r.value) && Honours(r.value, p)
    ensures NothingFails(fates) ==>
              (r.Success? <==> GoesThrough(old(db.registries), env1, env2, env3, id, name))
  {
    ghost var start := db.registries;
    var update := UpdateRepository(id, name, p);
    UpdateExecutes(start, id, name, p);
    ghost var took;
    var updated;
    updated, took := Submit(db, update, fates(0), start, []);
    trace := Done(took, update);
    assert [] + trace == trace;
    if updated.Success? {
      UpdateWritesRow(start, id, name, p);
      return Success(updated.value.value.configs[name]), trace;
    }
    if updated.error != NotFound {
      return Failure(updated.error), trace;
    }
    assert !took;
    Interfere(db, env1, start, []);
    assert [] + env1 == env1;
    r, trace := Promote(db, id, name, p, fates, env1, env2, env3, start);
  }

  /** The second half: read the registry's default, insert the row, and update it after all if a
      concurrent promotion was first. */
  method Promote(db: Database, id: string, name: string, p: Patch, fates: nat -> Fate,
                 env1: seq<Request>, env2: seq<Request>, env3: seq<Request>, ghost start: map<string, Registry>)
    returns (r: Result<Config, Error>, ghost trace: seq<Request>)
    requires p.applyVisibility ==> !p.visibility.Unspecified?
    requires db.registries == RunAll(start, env1)
    modifies db
    ensures db.registries == RunAll(start, trace)
    ensures UpdateTrace(trace, UpdateRepository(id, name, p),
                        PromoteRequest(RunAll(start, env1), id, name, p), env1, env2, env3)
    ensures r.Success? ==> HasRow(db.registries, id, name, r.value) && Honours(r.value, p)
    ensures NothingFails(fates) ==>
              (r.Success? <==> Promotes(old(db.registries), RunAll(start, env1 + env2),
                                        RunAll(start, env1 + env2 + env3), id, name))
  {
    trace := env1;
    if !fates(1).Smooth? {
      return Failure(Unavailable), trace;
    }
    var slot := SlotOf(db.registries, id);
    if slot.None? {
      return Failure(NotFound), trace;
    }
    var promoted := Promoted(p, slot.value.defaultVisibility);
    Interfere(db, env2, start, env1);
    ghost var before := db.registries;
    var promote := PromoteRepository(id, name, promoted);
    InsertExecutes(before, id, name, promoted);
    ghost var took;
    var inserted;
    inserted, took := Submit(db, promote, fates(2), start, env1 + env2);
    trace := env1 + env2 + Done(took, promote);
    if inserted.Success? {
      PromoteWritesRow(before, id, name, p, slot.value.defaultVisibility);
      return Success(inserted.value.value.configs[name]), trace;
    }
    if inserted.error != AlreadyExists {
      return Failure(inserted.error), trace;
    }
    assert !took && trace == env1 + env2;
    Interfere(db, env3, start, trace);
    before := db.registries;
    var update := UpdateRepository(id, name, p);
    UpdateExecutes(before, id, name, p);
    var retried;
    retried, took := Submit(db, update, fates(3), start, env1 + env2 + env3);
    trace := env1 + env2 + env3 + Done(took, update);
    if retried.Failure? {
      return Failure(retried.error), trace;
    }
    UpdateWritesRow(before, id, name, p);
    return Success(retried.value.value.configs[name]), trace;
  }

  /** A promotion writes what the masked PATCH of an empty PRIVATE-by-default row would, exactly
      when the fields outside the mask are empty in the request. */
  lemma PromotionIsPatchIffUnmaskedEmpty(p: Patch, registryDefault: Visibility)
    requires p.applyVisibility ==> !p.visibility.Unspecified?
    ensures Promoted(p, registryDefault) == Patched(Config("", map[], Stored(registryDefault)), p)
            <==> (p.applyDescription || p.description == "") && (p.applyLabels || p.labels == map[])
  {
  }
}
