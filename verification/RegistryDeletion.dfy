/** Deleting a registry: any number of workers mark the row, re-check that the engine namespace
    is empty and remove the row, while updates, overlay writes, pushes and retries interleave. */
module RegistryDeletion {
  import opened Common
  import opened FgaIntents
  import opened RegistryStore

  /** A worker between two of its steps, with the log positions of its own mark and observation. */
  datatype Stage = Started | Marked(markAt: nat) | Confirmed(markAt: nat, seenAt: nat) | Done

  datatype Event =
    | Mark(worker: nat)
    | SawEmpty(worker: nat)
    | Removed(worker: nat, left: set<string>)
    | Finished(worker: nat, ok: bool)
    | Wrote(dml: Dml)
    | Pushed(repo: string)
    | Erased(repo: string)

  datatype World = World(
    id: string, registry: Slot, content: set<string>, workers: map<nat, Stage>,
    outbox: seq<OutboxIntent>, log: seq<Event>)

  datatype Step =
    | Spawn(worker: nat)
    | TryMark(worker: nat)
    | Recheck(worker: nat)
    | TryRemove(worker: nat, replyLost: bool)
    | Fail(worker: nat)
    | Write(dml: Dml)
    | Push(repo: string)
    | Erase(repo: string)

  /** A registry created and not yet being deleted; `content` is its engine namespace. */
  predicate Fresh(w: World) {
    w.registry.Some? && w.registry.value.status.Active? && w.workers == map[] && w.outbox == [] && w.log == []
  }

  predicate AtStage(w: World, worker: nat) {
    worker in w.workers && !w.workers[worker].Done?
  }

  predicate Enabled(w: World, step: Step) {
    match step
    case Spawn(k) => k !in w.workers
    case TryMark(k) => k in w.workers && w.workers[k].Started?
    case Recheck(k) => k in w.workers && w.workers[k].Marked?
    case TryRemove(k, _) => k in w.workers && w.workers[k].Confirmed?
    case Fail(k) => AtStage(w, k)
    case Write(dml) => (dml.IsOverlay() || dml.UpdateRegistry?) && Execute(w.registry, dml).Success?
    case Push(_) => true
    case Erase(repo) => repo in w.content
  }

  function Finish(w: World, k: nat, ok: bool): World {
    w.(workers := w.workers[k := Done], log := w.log + [Finished(k, ok)])
  }

  /** The world right after the row is gone and before the worker reports: one transaction with its
      unregister intent. */
  function RowRemoved(w: World, k: nat): World
    requires w.registry.Some?
  {
    var intent := OutboxIntent(Unregister, RegistryDeleted(w.id, w.registry.value.projectId));
    w.(registry := Execute(w.registry, RemoveRegistry).value, outbox := w.outbox + [intent],
       log := w.log + [Removed(k, w.content)])
  }

  function Apply(w: World, step: Step): World
    requires Enabled(w, step)
  {
    match step
    case Spawn(k) => w.(workers := w.workers[k := Started])
    case TryMark(k) =>
      if Execute(w.registry, MarkDeleting).Failure? then Finish(w, k, true)
      else w.(registry := Execute(w.registry, MarkDeleting).value,
              workers := w.workers[k := Marked(|w.log|)], log := w.log + [Mark(k)])
    case Recheck(k) =>
      if w.content != {} then Finish(w, k, false)
      else w.(workers := w.workers[k := Confirmed(w.workers[k].markAt, |w.log|)], log := w.log + [SawEmpty(k)])
    case TryRemove(k, replyLost) =>
      if Execute(w.registry, RemoveRegistry).Failure? then Finish(w, k, true)
      else Finish(RowRemoved(w, k), k, !replyLost)
    case Fail(k) => Finish(w, k, false)
    case Write(dml) => w.(registry := Execute(w.registry, dml).value, log := w.log + [Wrote(dml)])
    case Push(repo) => w.(content := w.content + {repo}, log := w.log + [Pushed(repo)])
    case Erase(repo) => w.(content := w.content - {repo}, log := w.log + [Erased(repo)])
  }

  ghost predicate Runs(w: World, steps: seq<Step>, w': World)
    decreases |steps|
  {
    if steps == [] then w' == w else Enabled(w, steps[0]) && Runs(Apply(w, steps[0]), steps[1..], w')
  }

  function Moved(content: set<string>, e: Event): set<string> {
    match e
    case Pushed(repo) => content + {repo}
    case Erased(repo) => content - {repo}
    case _ => content
  }

  /** The namespace after the pushes and tag removals in the events. */
  function ContentAfter(content: set<string>, events: seq<Event>): set<string> {
    if events == [] then content
    else
      Moved(ContentAfter(content, events[..|events| - 1]), events[|events| - 1])
  }

  // ---- what holds in every reachable state ----

  ghost predicate NoWriteAfterMark(log: seq<Event>) {
    forall i, j :: 0 <= i < j < |log| && log[i].Mark? ==> !log[j].Wrote?
  }

  /** The row goes at most once; the removal is preceded by its worker's own mark and, later, its
      own empty observation; what the namespace holds then is exactly what was pushed since. */
  ghost predicate RemovalsJustified(log: seq<Event>) {
    && (forall i, j :: 0 <= i < j < |log| && log[i].Removed? ==> !log[j].Removed?)
    && (forall j :: 0 <= j < |log| && log[j].Removed? ==>
          exists i, k :: 0 <= i < k < j && JustifiedBy(log, i, k, j))
  }

  ghost predicate JustifiedBy(log: seq<Event>, i: nat, k: nat, j: nat)
    requires i < |log| && k < j < |log| && log[j].Removed?
  {
    log[i] == Mark(log[j].worker) && log[k] == SawEmpty(log[j].worker)
    && log[j].left == ContentAfter({}, log[k + 1..j])
  }

  predicate AnyMark(log: seq<Event>) {
    exists e <- log :: e.Mark?
  }

  predicate AnyRemoved(log: seq<Event>) {
    exists e <- log :: e.Removed?
  }

  predicate AnySuccess(log: seq<Event>) {
    exists e <- log :: e.Finished? && e.ok
  }

  /** The row, its unregister intent and the log tell the same story. */
  ghost predicate RowOk(w: World) {
    && (w.registry.Some? && w.registry.value.status.Active? ==> !AnyMark(w.log))
    && NoWriteAfterMark(w.log)
    && (w.registry.None? <==> AnyRemoved(w.log))
    && (w.registry.Some? ==> w.outbox == [])
    && (AnySuccess(w.log) ==> w.registry.None?)
  }

  ghost predicate StagesOk(w: World) {
    forall k <- w.workers :: StageOk(w, k, w.workers[k])
  }

  ghost predicate Inv(w: World) {
    RowOk(w) && RemovalsJustified(w.log) && StagesOk(w)
  }

  lemma LogSnoc(log: seq<Event>, e: Event)
    ensures AnyMark(log + [e]) <==> AnyMark(log) || e.Mark?
    ensures AnyRemoved(log + [e]) <==> AnyRemoved(log) || e.Removed?
    ensures AnySuccess(log + [e]) <==> AnySuccess(log) || (e.Finished? && e.ok)
  {
    assert forall x <- log :: x in log + [e];
    assert e in log + [e];
    assert forall x <- log + [e] :: x in log || x == e;
  }

  lemma NoWriteSnoc(log: seq<Event>, e: Event)
    requires NoWriteAfterMark(log) && (e.Wrote? ==> !AnyMark(log))
    ensures NoWriteAfterMark(log + [e])
  {
    assert forall i :: 0 <= i < |log| ==> log[i] in log;
  }

  ghost predicate StageOk(w: World, k: nat, stage: Stage) {
    match stage
    case Marked(markAt) => markAt < |w.log| && w.log[markAt] == Mark(k)
    case Confirmed(markAt, seenAt) =>
      && markAt < seenAt < |w.log| && w.log[markAt] == Mark(k) && w.log[seenAt] == SawEmpty(k)
      && w.content == ContentAfter({}, w.log[seenAt + 1..])
    case _ => true
  }

  lemma ContentAfterSnoc(events: seq<Event>, e: Event)
    ensures ContentAfter({}, events + [e]) == Moved(ContentAfter({}, events), e)
  {
    assert (events + [e])[..|events|] == events;
  }

  /** A stage survives one more event that changes the namespace as the event says. */
  lemma StageKept(w: World, w': World, k: nat, stage: Stage, e: Event)
    requires StageOk(w, k, stage) && w'.log == w.log + [e]
    requires w'.content == Moved(w.content, e)
    ensures StageOk(w', k, stage)
  {
    if stage.Confirmed? {
      ContentAfterSnoc(w.log[stage.seenAt + 1..], e);
      assert w'.log[stage.seenAt + 1..] == w.log[stage.seenAt + 1..] + [e];
    }
  }

  lemma StagesKept(w: World, w': World, changed: set<nat>, e: Event)
    requires StagesOk(w) && w'.log == w.log + [e] && w'.content == Moved(w.content, e)
    requires forall k <- w'.workers :: k !in changed ==> k in w.workers && w'.workers[k] == w.workers[k]
    ensures forall k <- w'.workers :: k !in changed ==> StageOk(w', k, w'.workers[k])
  {
    forall k <- w'.workers | k !in changed ensures StageOk(w', k, w'.workers[k]) {
      StageKept(w, w', k, w.workers[k], e);
    }
  }

  lemma RemovalsKept(log: seq<Event>, e: Event)
    requires RemovalsJustified(log) && !e.Removed?
    ensures RemovalsJustified(log + [e])
  {
    forall j | 0 <= j < |log| && log[j].Removed?
      ensures exists i, k :: 0 <= i < k < j && JustifiedBy(log + [e], i, k, j)
    {
      var i, k :| 0 <= i < k < j && JustifiedBy(log, i, k, j);
      assert (log + [e])[k + 1..j] == log[k + 1..j];
      assert JustifiedBy(log + [e], i, k, j);
    }
  }

  lemma FinishKeepsInv(w: World, k: nat, ok: bool)
    requires Inv(w) && k in w.workers && (ok ==> w.registry.None?)
    ensures Inv(Finish(w, k, ok))
  {
    var e := Finished(k, ok);
    LogSnoc(w.log, e);
    NoWriteSnoc(w.log, e);
    RemovalsKept(w.log, e);
    StagesKept(w, Finish(w, k, ok), {k}, e);
  }

  lemma MarkKeepsInv(w: World, k: nat)
    requires Inv(w) && Enabled(w, TryMark(k)) && w.registry.Some?
    ensures Inv(Apply(w, TryMark(k)))
  {
    var e := Mark(k);
    LogSnoc(w.log, e);
    NoWriteSnoc(w.log, e);
    RemovalsKept(w.log, e);
    StagesKept(w, Apply(w, TryMark(k)), {k}, e);
  }

  lemma ConfirmKeepsInv(w: World, k: nat)
    requires Inv(w) && Enabled(w, Recheck(k)) && w.content == {}
    ensures Inv(Apply(w, Recheck(k)))
  {
    var w' := Apply(w, Recheck(k));
    var e := SawEmpty(k);
    assert StageOk(w, k, w.workers[k]);
    LogSnoc(w.log, e);
    NoWriteSnoc(w.log, e);
    RemovalsKept(w.log, e);
    StagesKept(w, w', {k}, e);
    assert w'.log[|w.log| + 1..] == [];
    assert StageOk(w', k, w'.workers[k]);
  }

  lemma FirstRemovalJustified(log: seq<Event>, k: nat, markAt: nat, seenAt: nat, left: set<string>)
    requires !AnyRemoved(log)
    requires markAt < seenAt < |log| && log[markAt] == Mark(k) && log[seenAt] == SawEmpty(k)
    requires left == ContentAfter({}, log[seenAt + 1..])
    ensures RemovalsJustified(log + [Removed(k, left)])
  {
    var log' := log + [Removed(k, left)];
    assert log'[seenAt + 1..|log|] == log[seenAt + 1..];
    assert JustifiedBy(log', markAt, seenAt, |log|);
    assert forall j :: 0 <= j < |log| ==> log'[j] in log;
  }

  lemma RowRemovedKeepsRow(w: World, k: nat)
    requires RowOk(w) && w.registry.Some?
    ensures RowOk(RowRemoved(w, k))
  {
    LogSnoc(w.log, Removed(k, w.content));
    NoWriteSnoc(w.log, Removed(k, w.content));
  }

  lemma RowRemovedKeepsStages(w: World, k: nat)
    requires StagesOk(w) && w.registry.Some?
    ensures StagesOk(RowRemoved(w, k))
  {
    StagesKept(w, RowRemoved(w, k), {}, Removed(k, w.content));
  }

  lemma RowRemovedKeepsInv(w: World, k: nat)
    requires Inv(w) && Enabled(w, TryRemove(k, false)) && w.registry.Some?
    ensures Inv(RowRemoved(w, k))
  {
    var stage := w.workers[k];
    assert StageOk(w, k, stage);
    RowRemovedKeepsRow(w, k);
    FirstRemovalJustified(w.log, k, stage.markAt, stage.seenAt, w.content);
    RowRemovedKeepsStages(w, k);
  }

  lemma RemoveIsFinishedRemoval(w: World, k: nat, replyLost: bool)
    requires Enabled(w, TryRemove(k, replyLost)) && w.registry.Some?
    ensures Apply(w, TryRemove(k, replyLost)) == Finish(RowRemoved(w, k), k, !replyLost)
  {
    assert Execute(w.registry, RemoveRegistry).Success?;
  }

  lemma RemoveKeepsInv(w: World, k: nat, replyLost: bool)
    requires Inv(w) && Enabled(w, TryRemove(k, replyLost)) && w.registry.Some?
    ensures Inv(Apply(w, TryRemove(k, replyLost)))
  {
    var removed := RowRemoved(w, k);
    RowRemovedKeepsInv(w, k);
    assert removed.registry.None? && k in removed.workers;
    FinishKeepsInv(removed, k, !replyLost);
    RemoveIsFinishedRemoval(w, k, replyLost);
  }

  lemma SpawnKeepsInv(w: World, k: nat)
    requires Inv(w) && Enabled(w, Spawn(k))
    ensures Inv(Apply(w, Spawn(k)))
  {
    var w' := Apply(w, Spawn(k));
    forall j <- w'.workers ensures StageOk(w', j, w'.workers[j]) {
      if j != k {
        assert StageOk(w, j, w.workers[j]);
      }
    }
  }

  lemma WorldMoveKeepsInv(w: World, step: Step)
    requires Inv(w) && Enabled(w, step) && (step.Write? || step.Push? || step.Erase?)
    ensures Inv(Apply(w, step))
  {
    var w' := Apply(w, step);
    var e := w'.log[|w.log|];
    assert w'.log == w.log + [e];
    LogSnoc(w.log, e);
    NoWriteSnoc(w.log, e);
    RemovalsKept(w.log, e);
    StagesKept(w, w', {}, e);
  }

  lemma StepKeepsInv(w: World, step: Step)
    requires Inv(w) && Enabled(w, step)
    ensures Inv(Apply(w, step))
  {
    match step
    case Spawn(k) => SpawnKeepsInv(w, k);
    case TryMark(k) => if w.registry.Some? { MarkKeepsInv(w, k); } else { FinishKeepsInv(w, k, true); }
    case Recheck(k) => if w.content == {} { ConfirmKeepsInv(w, k); } else { FinishKeepsInv(w, k, false); }
    case TryRemove(k, lost) =>
      if w.registry.Some? { RemoveKeepsInv(w, k, lost); } else { FinishKeepsInv(w, k, true); }
    case Fail(k) => FinishKeepsInv(w, k, false);
    case Write(_) => WorldMoveKeepsInv(w, step);
    case Push(_) => WorldMoveKeepsInv(w, step);
    case Erase(_) => WorldMoveKeepsInv(w, step);
  }

  lemma {:induction false} RunKeepsInv(w: World, steps: seq<Step>, w': World)
    requires Inv(w) && Runs(w, steps, w')
    ensures Inv(w')
    decreases |steps|
  {
    if steps != [] {
      StepKeepsInv(w, steps[0]);
      RunKeepsInv(Apply(w, steps[0]), steps[1..], w');
    }
  }

  /** The one intent of a removed registry of the project. */
  predicate ProjectRevoked(outbox: seq<OutboxIntent>, id: string, projectId: string) {
    && |outbox| == 1 && outbox[0].event == Unregister
    && outbox[0].intent.tuples == [Tuple("project:" + projectId, "project", "registry_registry:" + id)]
    && outbox[0].intent.resourceId == id
  }

  /** The registry is the project's until it is removed, and then its project tuple is revoked. */
  predicate ProjectKept(w: World, id: string, projectId: string) {
    && w.id == id
    && if w.registry.Some? then w.registry.value.projectId == projectId && w.outbox == []
       else ProjectRevoked(w.outbox, id, projectId)
  }

  lemma RevocationIsSpelled(id: string, projectId: string)
    ensures ProjectRevoked([OutboxIntent(Unregister, RegistryDeleted(id, projectId))], id, projectId)
  {
    assert TYPE_PROJECT + ":" == "project:" && TYPE_REGISTRY + ":" == "registry_registry:";
  }

  lemma StepKeepsProject(w: World, step: Step, projectId: string)
    requires ProjectKept(w, w.id, projectId) && Enabled(w, step)
    ensures ProjectKept(Apply(w, step), w.id, projectId)
  {
    if step.TryRemove? && w.registry.Some? {
      RevocationIsSpelled(w.id, projectId);
    }
  }

  lemma {:induction false} RunKeepsProject(w: World, steps: seq<Step>, w': World, projectId: string)
    requires ProjectKept(w, w.id, projectId) && Runs(w, steps, w')
    ensures ProjectKept(w', w.id, projectId)
    decreases |steps|
  {
    if steps != [] {
      StepKeepsProject(w, steps[0], projectId);
      RunKeepsProject(Apply(w, steps[0]), steps[1..], w', projectId);
    }
  }

  /** The deletion protocol over every interleaving of workers, retries, writes and pushes. */
  lemma DeletionProtocol(w: World, steps: seq<Step>, w': World)
    requires Fresh(w) && Runs(w, steps, w')
    ensures NoWriteAfterMark(w'.log) && RemovalsJustified(w'.log)
    ensures w'.registry.None? <==> AnyRemoved(w'.log)
    ensures if w'.registry.None? then ProjectRevoked(w'.outbox, w.id, w.registry.value.projectId) else w'.outbox == []
    ensures AnySuccess(w'.log) ==> w'.registry.None?
  {
    RunKeepsInv(w, steps, w');
    RunKeepsProject(w, steps, w', w.registry.value.projectId);
  }

  /** The step made the worker report this. */
  predicate Reported(w: World, step: Step, k: nat, ok: bool)
    requires Enabled(w, step)
  {
    var log := Apply(w, step).log;
    |log| > |w.log| && log[|log| - 1] == Finished(k, ok)
  }

  /** A worker reports failure exactly when a call of its own fails, the reply to its removal is lost, or it
      finds the namespace in use; and success exactly when it removes the row or finds it removed. */
  lemma ReportsHaveCauses(w: World, step: Step, k: nat)
    requires Enabled(w, step)
    ensures Reported(w, step, k, false)
            <==> || step == Fail(k)
                 || (step == Recheck(k) && w.content != {})
                 || (step == TryRemove(k, true) && w.registry.Some?)
    ensures Reported(w, step, k, true)
            <==> || (step == TryMark(k) && w.registry.None?)
                 || (step == TryRemove(k, false)) || (step == TryRemove(k, true) && w.registry.None?)
  {
  }

  /** And otherwise each step of its own brings it forward, whatever the others do meanwhile. */
  lemma WorkersMoveOn(w: World, step: Step, k: nat)
    requires Enabled(w, step) && w.registry.Some?
    ensures step == TryMark(k) ==> Apply(w, step).workers[k].Marked? && Apply(w, step).registry.value.status.Deleting?
    ensures step == Recheck(k) && w.content == {} ==> Apply(w, step).workers[k].Confirmed?
    ensures step == TryRemove(k, false) ==> Apply(w, step).registry.None? && Apply(w, step).workers[k].Done?
  {
  }

  /** DELETING and removed are for ever: no step leads back to an ACTIVE row. */
  lemma {:induction false} NeverActiveAgain(w: World, steps: seq<Step>, w': World)
    requires Runs(w, steps, w') && !(w.registry.Some? && w.registry.value.status.Active?)
    ensures !(w'.registry.Some? && w'.registry.value.status.Active?)
    ensures w.registry.None? ==> w'.registry.None?
    decreases |steps|
  {
    if steps != [] {
      NeverActiveAgain(Apply(w, steps[0]), steps[1..], w');
    }
  }

  /** The re-check narrows the window but does not close it: a push between the observation and
      the removal leaves content without a registry. */
  lemma PushAfterRecheckIsOrphaned(id: string, projectId: string, repo: string)
    returns (w: World, steps: seq<Step>, w': World)
    ensures Fresh(w) && w.content == {} && Runs(w, steps, w')
    ensures w'.registry.None? && repo in w'.content && Finished(0, true) in w'.log
  {
    w := World(id, Some(Registry(projectId, Active, Private, map[])), {}, map[], [], []);
    var seen := Rechecked(id, projectId);
    MarkAndRecheck(id, projectId);
    var w4 := Apply(seen, Push(repo));
    w' := Apply(w4, TryRemove(0, false));
    var rest := [Push(repo), TryRemove(0, false)];
    assert Runs(w', [], w');
    assert Runs(w4, rest[1..], w');
    steps := [Spawn(0), TryMark(0), Recheck(0)] + rest;
    Append(w, [Spawn(0), TryMark(0), Recheck(0)], seen, rest, w');
    assert w'.log[|w'.log| - 1] == Finished(0, true);
  }

  /** Worker 0 has marked the registry and found its namespace empty. */
  function Rechecked(id: string, projectId: string): World {
    World(id, Some(Registry(projectId, Deleting, Private, map[])), {}, map[0 := Confirmed(0, 1)], [],
          [Mark(0), SawEmpty(0)])
  }

  lemma MarkAndRecheck(id: string, projectId: string)
    ensures Runs(World(id, Some(Registry(projectId, Active, Private, map[])), {}, map[], [], []),
                 [Spawn(0), TryMark(0), Recheck(0)], Rechecked(id, projectId))
  {
    var steps := [Spawn(0), TryMark(0), Recheck(0)];
    var w := World(id, Some(Registry(projectId, Active, Private, map[])), {}, map[], [], []);
    var w1 := w.(workers := map[0 := Started]);
    assert w1 == Apply(w, steps[0]);
    var w2 := World(id, Some(Registry(projectId, Deleting, Private, map[])), {}, map[0 := Marked(0)], [], [Mark(0)]);
    assert w2 == Apply(w1, steps[1]);
    var w3 := Rechecked(id, projectId);
    assert w3 == Apply(w2, steps[2]);
    assert Runs(w3, steps[3..], w3);
    assert Runs(w2, steps[2..], w3);
    assert Runs(w1, steps[1..], w3);
  }

  lemma {:induction false} Append(w: World, first: seq<Step>, w1: World, second: seq<Step>, w2: World)
    requires Runs(w, first, w1) && Runs(w1, second, w2)
    ensures Runs(w, first + second, w2)
    decreases |first|
  {
    if first == [] {
      assert first + second == second;
    } else {
      Append(Apply(w, first[0]), first[1..], w1, second, w2);
      assert (first + second)[1..] == first[1..] + second;
    }
  }
}
