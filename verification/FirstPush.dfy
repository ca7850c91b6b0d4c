/** The first push of a repository always completes and can be read back by its pusher. */
module FirstPush {
  import opened Common
  import opened TtlTables
  import opened DataPlane
  import opened DataPlaneSafety
  import BlobScan

  /** A subject pushes a new repository from the state `start` on. It may read whatever it likes whenever
      it likes, as clients do that look for a blob before uploading it; `readBacks` are the requests it sends
      in order to read back what it has pushed. */
  datatype Scene = Scene(subject: Subject, repo: Repo, start: Plane, readBacks: set<nat>) {
    predicate Own(j: Job) {
      j.subject == subject && j.repo == repo && !j.kind.Mount?
    }

    /** A request the scene promises something about: a push, or a read of what was pushed. */
    predicate Tracked(id: nat, j: Job) {
      Own(j) && id !in start.jobs && (Pushes(j.kind) || id in readBacks)
    }

    predicate InTime(now: int) {
      start.now <= now && now - start.limits.pendingTtl < start.now && now - start.limits.grantTtl < start.now
    }

    ghost predicate Finished(p: Plane) {
      forall id <- p.jobs :: Tracked(id, p.jobs[id]) ==> p.jobs[id].stage.Done?
    }

    ghost predicate TagPutUnderWay(p: Plane) {
      exists id <- p.jobs :: Tracked(id, p.jobs[id]) && PutsTag(p.jobs[id].kind) && !p.jobs[id].stage.Done?
    }

    ghost predicate PutDone(p: Plane) {
      exists id <- p.jobs :: Tracked(id, p.jobs[id]) && p.jobs[id].kind.PutManifest? && p.jobs[id].stage.Done?
    }

    ghost predicate FinalizeDone(p: Plane, digest: Digest) {
      exists id <- p.jobs :: Tracked(id, p.jobs[id]) && p.jobs[id].kind == Finalize(digest) && p.jobs[id].stage.Done?
    }

    /** The repository has no tag, no deletion of an older grant is in flight, and the subject has no push
        to it under way; what it did before, and what it is reading, does not matter. */
    ghost predicate Begins() {
      && InTime(start.now) && !Exists(start, repo) && (repo, subject) !in start.drops
      && forall id <- start.jobs :: Own(start.jobs[id]) && Pushes(start.jobs[id].kind) ==> start.jobs[id].stage.Done?
    }

    /** What the push client does: it pushes blobs, and manifests by digest, while the repository has no
        tag, and the tag last, when all else has been answered; a blob is read back after its finalize,
        a manifest after a manifest was put, and neither beside the last PUT. */
    ghost predicate ClientSends(p: Plane, id: nat, kind: Kind) {
      if Pushes(kind) then
        !Exists(p, repo) && !TagPutUnderWay(p) && (PutsTag(kind) ==> Finished(p))
      else
        id in readBacks ==>
          && !TagPutUnderWay(p)
          && (kind.ReadBlob? ==> FinalizeDone(p, kind.digest))
          && (kind.ReadRepo? ==> PutDone(p))
    }

    /** The environment of the scene: the subject may create repositories in the registry and has no other
        right, and no dependency fails for it. */
    ghost predicate Helpful(j: Job, a: Answer) {
      if Question(j).Some? then
        a == if Question(j).value == Right(VCreate, OnRegistry(repo.registryId)) then Yes else No
      else match j.stage
      case Engine(_) => a.Status? && Success2xx(a.code)
      case _ => a != Failed && a != FailedAfterEffect
    }

    /** Everybody else may do anything, except give this repository its first tag. */
    predicate Elsewhere(j: Job, a: Answer) {
      !(j.repo == repo && Publishes(j, a))
    }

    ghost predicate Allows(p: Plane, s: Step) {
      match s
      case Arrive(id, kind, r, u) => r == repo && u == subject && !kind.Mount? ==> ClientSends(p, id, kind)
      case Advance(id, a) =>
        id in p.jobs && if Own(p.jobs[id]) then Helpful(p.jobs[id], a) else Elsewhere(p.jobs[id], a)
      case Tick(now) => InTime(now)
      case Change(contents) => ContentOf(contents, repo) != map[] ==> Exists(p, repo)
      case Drop(_, _) => true
    }
  }

  predicate PutsTag(k: Kind) {
    k.PutManifest? && k.tag.Some?
  }

  ghost predicate Unfolds(c: Scene, p: Plane, steps: seq<Step>, q: Plane)
    decreases |steps|
  {
    if steps == [] then q == p
    else Enabled(p, steps[0]) && c.Allows(p, steps[0]) && Unfolds(c, Apply(p, steps[0]), steps[1..], q)
  }

  // ---- what the scene keeps ----

  ghost predicate Pending(c: Scene, facts: seq<Fact>, digest: Digest) {
    exists i, w, t :: 0 <= i < |facts| && facts[i] == UploadRecorded(w, c.repo, digest, t) && c.start.now <= t
  }

  /** The subject's grant was recorded since the scene began. */
  ghost predicate Granted(c: Scene, facts: seq<Fact>) {
    exists i, w, t :: |c.start.facts| <= i < |facts| && facts[i] == GrantRecorded(w, c.repo, c.subject, t)
                      && c.start.now <= t
  }

  /** A tracked request stands where the scene lets it stand, and never at a refusal. */
  ghost predicate OnTrack(c: Scene, facts: seq<Fact>, existing: bool, j: Job) {
    match j.kind
    case ReadBlob(digest) =>
      && Pending(c, facts, digest)
      && (j.stage.CheckRead? || j.stage.RepoExists? || j.stage.CheckCreate? || j.stage.PushedBlob?
          || (j.stage.PushOwner? && Granted(c, facts)) || j.stage.Lookup? || j.stage.Scan? || j.stage.Uploaded?
          || j.stage == Done(Forwarded))
    case ReadRepo(_) =>
      Granted(c, facts) && (j.stage.CheckRead? || j.stage.PushOwner? || j.stage == Done(Forwarded))
    case Finalize(digest) =>
      || (BeforeEngine(j.stage) && !existing)
      || (j.stage.RecordUpload? && Success2xx(j.stage.status))
      || (Succeeded(j.stage) && Pending(c, facts, digest))
    case PutManifest(_, _) =>
      || (BeforeEngine(j.stage) && !existing)
      || (j.stage.RecordGrant? && Success2xx(j.stage.status))
      || (j.stage.Register? && Success2xx(j.stage.status) && Granted(c, facts))
      || (Succeeded(j.stage) && Granted(c, facts))
    case OtherPush => (BeforeEngine(j.stage) && !existing) || Succeeded(j.stage)
    case Mount(_, _) => true
  }

  predicate BeforeEngine(stage: Stage) {
    stage.PushExists? || stage == CheckPush(false) || stage == Engine(false)
  }

  predicate Succeeded(stage: Stage) {
    stage.Done? && stage.outcome.Relayed? && Success2xx(stage.outcome.status)
  }

  ghost predicate JobsOnTrack(c: Scene, p: Plane) {
    forall id <- p.jobs :: c.Tracked(id, p.jobs[id]) ==> OnTrack(c, p.facts, Exists(p, c.repo), p.jobs[id])
  }

  /** While the PUT by tag is under way, no other tracked request is. */
  ghost predicate PutAlone(c: Scene, p: Plane) {
    forall w <- p.jobs, id <- p.jobs |
      c.Tracked(w, p.jobs[w]) && PutsTag(p.jobs[w].kind) && !p.jobs[w].stage.Done? ::
      c.Tracked(id, p.jobs[id]) && !p.jobs[id].stage.Done? ==> id == w
  }

  /** Once the repository exists its pusher has its grant, or is just getting it. */
  ghost predicate ExistsGranted(c: Scene, p: Plane) {
    Exists(p, c.repo) ==> Granted(c, p.facts) || GettingGrant(c, p)
  }

  ghost predicate GettingGrant(c: Scene, p: Plane) {
    exists w <- p.jobs :: c.Tracked(w, p.jobs[w]) && PutsTag(p.jobs[w].kind) && p.jobs[w].stage.RecordGrant?
  }

  ghost predicate NoDeletion(c: Scene, p: Plane) {
    && (c.repo, c.subject) !in p.drops
    && forall i :: |c.start.facts| <= i < |p.facts| ==> p.facts[i] != GrantDeleted(c.repo, c.subject)
  }

  /** Earlier pushes stay answered. */
  ghost predicate OldPushesDone(c: Scene, p: Plane) {
    forall id <- p.jobs :: c.Own(p.jobs[id]) && Pushes(p.jobs[id].kind) && id in c.start.jobs ==> p.jobs[id].stage.Done?
  }

  ghost predicate Track(c: Scene, p: Plane) {
    && p.limits == c.start.limits && c.InTime(p.now) && |c.start.facts| <= |p.facts|
    && c.start.jobs.Keys <= p.jobs.Keys && p.history != []
    && JobsOnTrack(c, p) && PutAlone(c, p) && ExistsGranted(c, p) && NoDeletion(c, p) && OldPushesDone(c, p)
  }

  // ---- what the tables answer in the scene ----

  lemma PendingIsFound(c: Scene, p: Plane, digest: Digest)
    requires Track(c, p) && Pending(c, p.facts, digest)
    ensures BlobUploaded(p, c.repo, digest)
  {
    UploadStandsIsFound(p, c.repo, digest);
  }

  lemma GrantIsFound(c: Scene, p: Plane)
    requires Track(c, p) && Granted(c, p.facts)
    ensures PushGranted(p, c.repo, c.subject)
  {
    var i, w, t :| |c.start.facts| <= i < |p.facts|
                   && p.facts[i] == GrantRecorded(w, c.repo, c.subject, t) && c.start.now <= t;
    assert UndeletedUntil(p.facts, i, |p.facts|, c.repo, c.subject);
    GrantLogAgrees(p.facts, c.repo, c.subject, p.now - p.limits.grantTtl);
  }

  // ---- every step keeps it ----

  lemma FactsOnlyGrow(c: Scene, facts: seq<Fact>, news: seq<Fact>)
    ensures Granted(c, facts) ==> Granted(c, facts + news)
    ensures forall d :: Pending(c, facts, d) ==> Pending(c, facts + news, d)
  {
    var all := facts + news;
    assert forall i :: 0 <= i < |facts| ==> all[i] == facts[i];
    if Granted(c, facts) {
      var i, w, t :| |c.start.facts| <= i < |facts| && facts[i] == GrantRecorded(w, c.repo, c.subject, t)
                     && c.start.now <= t;
      assert all[i] == GrantRecorded(w, c.repo, c.subject, t);
    }
    forall d | Pending(c, facts, d) ensures Pending(c, all, d) {
      var i, w, t :| 0 <= i < |facts| && facts[i] == UploadRecorded(w, c.repo, d, t) && c.start.now <= t;
      assert all[i] == UploadRecorded(w, c.repo, d, t);
    }
  }

  /** Only a PUT by tag into the repository makes it exist. */
  lemma ExistsOnlyByTag(p: Plane, id: nat, a: Answer, repo: Repo)
    requires p.history != [] && id in p.jobs
    ensures !(Publishes(p.jobs[id], a) && p.jobs[id].repo == repo) ==>
              Exists(Apply(p, Advance(id, a)), repo) == Exists(p, repo)
  {
  }

  lemma NoDeletionInNews(now: int, moment: nat, id: nat, j: Job, a: Answer)
    ensures forall i :: 0 <= i < |News(now, moment, id, j, a)| ==> !News(now, moment, id, j, a)[i].GrantDeleted?
  {
  }

  lemma BlobReadStaysOnTrack(c: Scene, p: Plane, id: nat, a: Answer)
    requires Track(c, p) && id in p.jobs && c.Tracked(id, p.jobs[id]) && p.jobs[id].kind.ReadBlob?
    requires Permitted(p, p.jobs[id], a) && c.Helpful(p.jobs[id], a)
    ensures OnTrack(c, p.facts, Exists(p, c.repo), Moved(p, id, a))
  {
    var j := p.jobs[id];
    assert OnTrack(c, p.facts, Exists(p, c.repo), j);
    PendingIsFound(c, p, j.kind.digest);
    if Granted(c, p.facts) {
      GrantIsFound(c, p);
    }
    if j.stage.RepoExists? && a == Yes {
      assert ExistsGranted(c, p);
      assert PutAlone(c, p);
      assert Granted(c, p.facts);
    }
  }

  lemma RepoReadStaysOnTrack(c: Scene, p: Plane, id: nat, a: Answer)
    requires Track(c, p) && id in p.jobs && c.Tracked(id, p.jobs[id]) && p.jobs[id].kind.ReadRepo?
    requires Permitted(p, p.jobs[id], a) && c.Helpful(p.jobs[id], a)
    ensures OnTrack(c, p.facts, Exists(p, c.repo), Moved(p, id, a))
  {
    GrantIsFound(c, p);
  }

  lemma UploadIsPending(c: Scene, p: Plane, id: nat, a: Answer)
    requires id in p.jobs && c.Own(p.jobs[id]) && p.jobs[id].kind.Finalize? && p.jobs[id].stage.RecordUpload?
    requires a == Yes && c.start.now <= p.now
    ensures Pending(c, p.facts + NewsOf(p, id, a), p.jobs[id].kind.digest)
  {
    var all := p.facts + NewsOf(p, id, a);
    assert all[|p.facts|] == UploadRecorded(id, c.repo, p.jobs[id].kind.digest, p.now);
  }

  lemma GrantIsGranted(c: Scene, p: Plane, id: nat, a: Answer)
    requires id in p.jobs && c.Own(p.jobs[id]) && p.jobs[id].stage.RecordGrant?
    requires a == Yes && c.start.now <= p.now && |c.start.facts| <= |p.facts|
    ensures Granted(c, p.facts + NewsOf(p, id, a))
  {
    var all := p.facts + NewsOf(p, id, a);
    assert all[|p.facts|] == GrantRecorded(id, c.repo, c.subject, p.now);
  }

  /** A push on track gets an answer; `now` is whether the repository exists afterwards. */
  ghost predicate PushReady(c: Scene, p: Plane, id: nat, a: Answer, now: bool) {
    && id in p.jobs && c.Own(p.jobs[id]) && OnTrack(c, p.facts, Exists(p, c.repo), p.jobs[id])
    && c.start.now <= p.now && |c.start.facts| <= |p.facts|
    && Permitted(p, p.jobs[id], a) && c.Helpful(p.jobs[id], a)
    && (now == Exists(p, c.repo) || Publishes(p.jobs[id], a))
  }

  lemma FinalizeStaysOnTrack(c: Scene, p: Plane, id: nat, a: Answer, now: bool)
    requires PushReady(c, p, id, a, now) && p.jobs[id].kind.Finalize?
    ensures OnTrack(c, p.facts + NewsOf(p, id, a), now, Moved(p, id, a))
  {
    FactsOnlyGrow(c, p.facts, NewsOf(p, id, a));
    if p.jobs[id].stage.RecordUpload? {
      UploadIsPending(c, p, id, a);
    }
  }

  lemma PutStaysOnTrack(c: Scene, p: Plane, id: nat, a: Answer, now: bool)
    requires PushReady(c, p, id, a, now) && p.jobs[id].kind.PutManifest?
    ensures OnTrack(c, p.facts + NewsOf(p, id, a), now, Moved(p, id, a))
  {
    FactsOnlyGrow(c, p.facts, NewsOf(p, id, a));
    if p.jobs[id].stage.RecordGrant? {
      GrantIsGranted(c, p, id, a);
    }
  }

  lemma UploadStaysOnTrack(c: Scene, p: Plane, id: nat, a: Answer, now: bool)
    requires PushReady(c, p, id, a, now) && p.jobs[id].kind.OtherPush?
    ensures OnTrack(c, p.facts + NewsOf(p, id, a), now, Moved(p, id, a))
  {
    FactsOnlyGrow(c, p.facts, NewsOf(p, id, a));
  }

  lemma PushStaysOnTrack(c: Scene, p: Plane, id: nat, a: Answer)
    requires Track(c, p) && id in p.jobs && c.Tracked(id, p.jobs[id]) && Pushes(p.jobs[id].kind)
    requires Permitted(p, p.jobs[id], a) && c.Helpful(p.jobs[id], a)
    ensures OnTrack(c, p.facts + NewsOf(p, id, a), Exists(Apply(p, Advance(id, a)), c.repo), Moved(p, id, a))
  {
    var now := Exists(Apply(p, Advance(id, a)), c.repo);
    ExistsOnlyByTag(p, id, a, c.repo);
    if p.jobs[id].kind.Finalize? {
      FinalizeStaysOnTrack(c, p, id, a, now);
    } else if p.jobs[id].kind.PutManifest? {
      PutStaysOnTrack(c, p, id, a, now);
    } else {
      UploadStaysOnTrack(c, p, id, a, now);
    }
  }

  /** A publishing request of the scene's repository is a tracked PUT by tag. */
  lemma PublisherIsTracked(c: Scene, p: Plane, mover: nat, a: Answer)
    requires Track(c, p) && Enabled(p, Advance(mover, a)) && c.Allows(p, Advance(mover, a))
    requires Publishes(p.jobs[mover], a) && p.jobs[mover].repo == c.repo
    ensures c.Tracked(mover, p.jobs[mover]) && PutsTag(p.jobs[mover].kind) && !p.jobs[mover].stage.Done?
  {
  }

  /** Another tracked request does not suffer from this step. */
  lemma OthersStayOnTrack(c: Scene, p: Plane, mover: nat, a: Answer, id: nat)
    requires Track(c, p) && mover in p.jobs && Enabled(p, Advance(mover, a)) && c.Allows(p, Advance(mover, a))
    requires id in p.jobs && id != mover && c.Tracked(id, p.jobs[id])
    ensures OnTrack(c, p.facts + NewsOf(p, mover, a), Exists(Apply(p, Advance(mover, a)), c.repo), p.jobs[id])
  {
    assert OnTrack(c, p.facts, Exists(p, c.repo), p.jobs[id]);
    FactsOnlyGrow(c, p.facts, NewsOf(p, mover, a));
    ExistsOnlyByTag(p, mover, a, c.repo);
    if Publishes(p.jobs[mover], a) && p.jobs[mover].repo == c.repo {
      PublisherIsTracked(c, p, mover, a);
      assert p.jobs[id].stage.Done?;
    }
  }

  lemma AdvanceKeepsJobs(c: Scene, p: Plane, mover: nat, a: Answer)
    requires Track(c, p) && Enabled(p, Advance(mover, a)) && c.Allows(p, Advance(mover, a))
    ensures JobsOnTrack(c, Apply(p, Advance(mover, a)))
  {
    var q := Apply(p, Advance(mover, a));
    forall id <- q.jobs | c.Tracked(id, q.jobs[id]) ensures OnTrack(c, q.facts, Exists(q, c.repo), q.jobs[id]) {
      if id != mover {
        OthersStayOnTrack(c, p, mover, a, id);
      } else if Pushes(p.jobs[id].kind) {
        PushStaysOnTrack(c, p, id, a);
      } else {
        if p.jobs[id].kind.ReadBlob? {
          BlobReadStaysOnTrack(c, p, id, a);
        } else {
          RepoReadStaysOnTrack(c, p, id, a);
        }
        ExistsOnlyByTag(p, id, a, c.repo);
        FactsOnlyGrow(c, p.facts, NewsOf(p, id, a));
      }
    }
  }

  lemma AdvanceKeepsAlone(c: Scene, p: Plane, mover: nat, a: Answer)
    requires PutAlone(c, p) && OldPushesDone(c, p) && Enabled(p, Advance(mover, a))
    ensures PutAlone(c, Apply(p, Advance(mover, a))) && OldPushesDone(c, Apply(p, Advance(mover, a)))
  {
    var q := Apply(p, Advance(mover, a));
    assert forall id <- q.jobs :: !q.jobs[id].stage.Done? ==> !p.jobs[id].stage.Done?;
  }

  lemma AdvanceKeepsGrants(c: Scene, p: Plane, mover: nat, a: Answer)
    requires JobsEarned(p) && NoDeletion(c, p) && |c.start.facts| <= |p.facts|
    requires Enabled(p, Advance(mover, a)) && c.Allows(p, Advance(mover, a))
    ensures NoDeletion(c, Apply(p, Advance(mover, a)))
  {
    var q := Apply(p, Advance(mover, a));
    NoDeletionInNews(p.now, Moment(p), mover, p.jobs[mover], a);
    assert Earned(p.facts, p.limits, mover, p.jobs[mover]);
    forall i | |c.start.facts| <= i < |q.facts| ensures q.facts[i] != GrantDeleted(c.repo, c.subject) {
      if i < |p.facts| {
        assert q.facts[i] == p.facts[i];
      }
    }
  }

  lemma AdvanceKeepsExists(c: Scene, p: Plane, mover: nat, a: Answer)
    requires Track(c, p) && Enabled(p, Advance(mover, a)) && c.Allows(p, Advance(mover, a))
    ensures ExistsGranted(c, Apply(p, Advance(mover, a)))
  {
    var q := Apply(p, Advance(mover, a));
    FactsOnlyGrow(c, p.facts, NewsOf(p, mover, a));
    AdvanceKeepsJobs(c, p, mover, a);
    if Exists(q, c.repo) && !Granted(c, q.facts) {
      ExistsOnlyByTag(p, mover, a, c.repo);
      if Publishes(p.jobs[mover], a) && p.jobs[mover].repo == c.repo {
        PublisherIsTracked(c, p, mover, a);
        assert mover in q.jobs && q.jobs[mover] == Moved(p, mover, a) && q.jobs[mover].stage.RecordGrant?;
      } else {
        var w :| w in p.jobs && c.Tracked(w, p.jobs[w]) && PutsTag(p.jobs[w].kind) && p.jobs[w].stage.RecordGrant?;
        assert OnTrack(c, q.facts, Exists(q, c.repo), q.jobs[w]);
        assert w in q.jobs && c.Tracked(w, q.jobs[w]) && q.jobs[w].stage.RecordGrant?;
      }
    }
  }

  lemma NewcomerOnTrack(c: Scene, p: Plane, id: nat, kind: Kind, repo: Repo, subject: Subject)
    requires Track(c, p) && Enabled(p, Arrive(id, kind, repo, subject)) && c.Allows(p, Arrive(id, kind, repo, subject))
    requires c.Tracked(id, Job(kind, repo, subject, FirstStage(kind)))
    ensures OnTrack(c, p.facts, Exists(p, c.repo), Job(kind, repo, subject, FirstStage(kind)))
  {
    match kind
    case ReadBlob(digest) =>
      var w :| w in p.jobs && c.Tracked(w, p.jobs[w]) && p.jobs[w].kind == Finalize(digest) && p.jobs[w].stage.Done?;
      assert OnTrack(c, p.facts, Exists(p, c.repo), p.jobs[w]);
    case ReadRepo(_) =>
      var w :| w in p.jobs && c.Tracked(w, p.jobs[w]) && p.jobs[w].kind.PutManifest? && p.jobs[w].stage.Done?;
      assert OnTrack(c, p.facts, Exists(p, c.repo), p.jobs[w]);
    case _ =>
  }

  lemma ArriveKeepsJobs(c: Scene, p: Plane, id: nat, kind: Kind, repo: Repo, subject: Subject)
    requires Track(c, p) && Enabled(p, Arrive(id, kind, repo, subject)) && c.Allows(p, Arrive(id, kind, repo, subject))
    ensures JobsOnTrack(c, Apply(p, Arrive(id, kind, repo, subject)))
  {
    var q := Apply(p, Arrive(id, kind, repo, subject));
    if c.Tracked(id, q.jobs[id]) {
      NewcomerOnTrack(c, p, id, kind, repo, subject);
    }
  }

  lemma ArriveKeepsAlone(c: Scene, p: Plane, id: nat, kind: Kind, repo: Repo, subject: Subject)
    requires Track(c, p) && Enabled(p, Arrive(id, kind, repo, subject)) && c.Allows(p, Arrive(id, kind, repo, subject))
    ensures PutAlone(c, Apply(p, Arrive(id, kind, repo, subject)))
  {
    assert PutAlone(c, p);
  }

  lemma ArriveKeepsTrack(c: Scene, p: Plane, id: nat, kind: Kind, repo: Repo, subject: Subject)
    requires Track(c, p) && Enabled(p, Arrive(id, kind, repo, subject)) && c.Allows(p, Arrive(id, kind, repo, subject))
    ensures Track(c, Apply(p, Arrive(id, kind, repo, subject)))
  {
    var q := Apply(p, Arrive(id, kind, repo, subject));
    ArriveKeepsJobs(c, p, id, kind, repo, subject);
    ArriveKeepsAlone(c, p, id, kind, repo, subject);
    if GettingGrant(c, p) {
      var w :| w in p.jobs && c.Tracked(w, p.jobs[w]) && PutsTag(p.jobs[w].kind) && p.jobs[w].stage.RecordGrant?;
      assert w in q.jobs && q.jobs[w] == p.jobs[w];
    }
  }

  lemma DropKeepsTrack(c: Scene, p: Plane, repo: Repo, subject: Subject)
    requires Track(c, p) && Enabled(p, Drop(repo, subject))
    ensures Track(c, Apply(p, Drop(repo, subject)))
  {
    FactsOnlyGrow(c, p.facts, [GrantDeleted(repo, subject)]);
  }

  lemma ChangeKeepsTrack(c: Scene, p: Plane, contents: Contents)
    requires Track(c, p) && c.Allows(p, Change(contents))
    ensures Track(c, Apply(p, Change(contents)))
  {
    var q := Apply(p, Change(contents));
    assert Exists(q, c.repo) ==> Exists(p, c.repo);
    forall id <- q.jobs | c.Tracked(id, q.jobs[id]) ensures OnTrack(c, q.facts, Exists(q, c.repo), q.jobs[id]) {
      assert OnTrack(c, p.facts, Exists(p, c.repo), p.jobs[id]);
    }
  }

  lemma StepKeepsTrack(c: Scene, p: Plane, s: Step)
    requires Inv(p) && Track(c, p) && Enabled(p, s) && c.Allows(p, s)
    ensures Track(c, Apply(p, s))
  {
    match s
    case Arrive(id, kind, repo, subject) => ArriveKeepsTrack(c, p, id, kind, repo, subject);
    case Drop(repo, subject) => DropKeepsTrack(c, p, repo, subject);
    case Change(contents) => ChangeKeepsTrack(c, p, contents);
    case Tick(_) =>
    case Advance(id, a) =>
      AdvanceKeepsJobs(c, p, id, a);
      AdvanceKeepsAlone(c, p, id, a);
      AdvanceKeepsGrants(c, p, id, a);
      AdvanceKeepsExists(c, p, id, a);
  }

  lemma {:induction false} SceneKeepsTrack(c: Scene, p: Plane, steps: seq<Step>, q: Plane)
    requires Inv(p) && Track(c, p) && Unfolds(c, p, steps, q)
    ensures Inv(q) && Track(c, q)
    decreases |steps|
  {
    if steps != [] {
      StepKeepsInv(p, steps[0]);
      StepKeepsTrack(c, p, steps[0]);
      SceneKeepsTrack(c, Apply(p, steps[0]), steps[1..], q);
    }
  }

  // ---- the theorems ----

  lemma SceneReaches(origin: Plane, before: seq<Step>, c: Scene, steps: seq<Step>, p: Plane)
    requires Initial(origin) && Runs(origin, before, c.start) && c.Begins() && Unfolds(c, c.start, steps, p)
    ensures Inv(p) && Track(c, p)
  {
    RunKeepsInv(origin, before, c.start);
    SceneKeepsTrack(c, c.start, steps, p);
  }

  /** A successful end: reads are forwarded, pushes are answered with a success status. */
  predicate Served(j: Job) {
    j.stage == Done(Forwarded) || (Pushes(j.kind) && Succeeded(j.stage))
  }

  /** A subject that may only create repositories in the registry, with every read check denied,
      completes its first push and reads it back: whatever else goes on, and whatever it looked for
      before it pushed, each of its uploads, finalizes, manifest PUTs by digest and by tag, and
      each read of what it has pushed that has ended, ended well. In particular it does not matter
      what the membership cache or a scan says of its blobs. */
  lemma FirstPushSucceeds(origin: Plane, before: seq<Step>, c: Scene, steps: seq<Step>, p: Plane, id: nat)
    requires Initial(origin) && Runs(origin, before, c.start) && c.Begins() && Unfolds(c, c.start, steps, p)
    requires id in p.jobs && c.Tracked(id, p.jobs[id]) && p.jobs[id].stage.Done?
    ensures Served(p.jobs[id])
  {
    SceneReaches(origin, before, c, steps, p);
    assert OnTrack(c, p.facts, Exists(p, c.repo), p.jobs[id]);
  }

  /** How far a request still has to go. */
  function Left(stage: Stage): nat {
    match stage
    case CheckRead => 8
    case RepoExists => 7
    case CheckCreate => 6
    case PushedBlob => 5
    case PushOwner => 4
    case Lookup => 3
    case Scan(_) => 2
    case Uploaded => 1
    case PushExists => 5
    case CheckPush(_) => 4
    case Engine(_) => 3
    case RecordUpload(_) => 1
    case RecordGrant(_, _) => 2
    case Register(_) => 1
    case MountSource => 6
    case MountExists(_) => 5
    case MountTarget(_, _) => 4
    case Done(_) => 0
  }

  /** Every answer brings a request closer to its end. */
  lemma RequestsEnd(p: Plane, id: nat, a: Answer)
    requires Enabled(p, Advance(id, a))
    ensures Left(Apply(p, Advance(id, a)).jobs[id].stage) < Left(p.jobs[id].stage)
  {
    AnswersLeadOn(p.jobs[id].kind, p.jobs[id].stage, a, Moment(p));
    assert Apply(p, Advance(id, a)).jobs[id] == Moved(p, id, a);
  }

  lemma AnswersLeadOn(k: Kind, stage: Stage, a: Answer, moment: nat)
    requires !stage.Done?
    ensures Left(Next(k, stage, a, moment)) < Left(stage)
  {
  }

  /** And in the scene no own request, tracked or not, is ever left without an answer it can get. */
  lemma FirstPushIsNeverStuck(origin: Plane, before: seq<Step>, c: Scene, steps: seq<Step>, p: Plane, id: nat)
    requires Initial(origin) && Runs(origin, before, c.start) && c.Begins() && Unfolds(c, c.start, steps, p)
    requires id in p.jobs && c.Own(p.jobs[id]) && !p.jobs[id].stage.Done?
    ensures exists a :: Enabled(p, Advance(id, a)) && c.Allows(p, Advance(id, a))
  {
    SceneReaches(origin, before, c, steps, p);
    var a := SceneAnswer(c, p, id);
    assert Enabled(p, Advance(id, a)) && c.Allows(p, Advance(id, a));
  }

  function YesIf(b: bool): Answer {
    if b then Yes else No
  }

  lemma SceneAnswer(c: Scene, p: Plane, id: nat) returns (a: Answer)
    requires Inv(p) && id in p.jobs && c.Own(p.jobs[id]) && !p.jobs[id].stage.Done?
    ensures Permitted(p, p.jobs[id], a) && c.Helpful(p.jobs[id], a)
  {
    var j := p.jobs[id];
    if Question(j).Some? {
      return YesIf(Question(j).value == Right(VCreate, OnRegistry(c.repo.registryId)));
    }
    match j.stage
    case Engine(_) => a := Status(201);
    case Lookup => a := Miss;
    case RepoExists => a := YesIf(Exists(p, j.repo));
    case PushExists => a := YesIf(Exists(p, j.repo));
    case MountExists(_) => a := YesIf(Exists(p, j.repo));
    case PushedBlob => a := UploadAnswer(p, j);
    case Uploaded => a := UploadAnswer(p, j);
    case PushOwner => a := GrantAnswer(p, j);
    case Scan(_) => a := ScanAnswer(p, id);
    case _ => a := Yes;
  }

  lemma UploadAnswer(p: Plane, j: Job) returns (a: Answer)
    ensures a == if BlobUploaded(p, j.repo, BlobOf(j.kind)) then Yes else No
  {
    a := if BlobUploaded(p, j.repo, BlobOf(j.kind)) then Yes else No;
  }

  lemma GrantAnswer(p: Plane, j: Job) returns (a: Answer)
    ensures a == if PushGranted(p, j.repo, j.subject) then Yes else No
  {
    a := if PushGranted(p, j.repo, j.subject) then Yes else No;
  }

  lemma ScanAnswer(p: Plane, id: nat) returns (a: Answer)
    requires AllObserved(p) && id in p.jobs && p.jobs[id].stage.Scan?
    ensures Binary(a) && Permitted(p, p.jobs[id], a)
  {
    var j := p.jobs[id];
    var window := Window(p.history, j.stage.since, |p.history|, ScopeRepo(j));
    assert |window| > 0;
    var answer := BlobScan.SomeAnswer(window, BlobOf(j.kind));
    a := YesIf(answer);
  }

  // ---- the window between the published manifest and the recorded grant ----

  /** A denied manifest, tag-list or referrer read is forwarded exactly when the pusher's grant is
      on record at that moment, within the TTL and undeleted. */
  lemma DeniedReadForwardedIffGrantStands(p: Plane, id: nat, a: Answer)
    requires id in p.jobs && p.jobs[id].kind.ReadRepo? && p.jobs[id].stage.PushOwner?
    requires Permitted(p, p.jobs[id], a) && a != Failed
    ensures Apply(p, Advance(id, a)).jobs[id].stage == Done(Forwarded)
            <==> GrantStands(p.facts, p.jobs[id].repo, p.jobs[id].subject, p.now - p.limits.grantTtl)
    ensures Apply(p, Advance(id, a)).jobs[id].stage == Done(Hidden)
            <==> !GrantStands(p.facts, p.jobs[id].repo, p.jobs[id].subject, p.now - p.limits.grantTtl)
  {
    GrantLogAgrees(p.facts, p.jobs[id].repo, p.jobs[id].subject, p.now - p.limits.grantTtl);
  }

  /** The manifest is published before the grant is recorded, and a read concurrent with the end of the PUT
      is hidden from the pusher: here the engine has answered the PUT of request 0 with 201, and request 1,
      which the pusher sends meanwhile, gets 404. */
  lemma ReadInsideTheWindowIsHidden(limits: Limits, repo: Repo, subject: Subject, tag: string, m: BlobScan.Manifest)
    ensures exists p :: Reachable(p) && Exists(p, repo) && 0 in p.jobs && 1 in p.jobs
              && p.jobs[0] == Job(PutManifest(Some(tag), m), repo, subject, RecordGrant(false, 201))
              && p.jobs[1] == Job(ReadRepo(VGet), repo, subject, Done(Hidden))
  {
    var kind := PutManifest(Some(tag), m);
    PutIsAnswered(limits, repo, subject, tag, m);
    var history := [map[], WithTag(map[], repo, tag, m)];
    var jobs := map[0 := Job(kind, repo, subject, RecordGrant(false, 201))];
    var facts := PutFacts(repo, subject);
    var read := Job(ReadRepo(VGet), repo, subject, CheckRead);
    Arrived(limits, history, facts, jobs, 1, ReadRepo(VGet), repo, subject);
    Advanced(limits, history, facts, jobs[1 := read], 1, No, PushOwner, [Checked(1, ReadRight(read), false)]);
    var denied := facts + [Checked(1, ReadRight(read), false)];
    var waiting := jobs[1 := read][1 := read.(stage := PushOwner)];
    GrantLogAgrees(denied, repo, subject, -limits.grantTtl);
    assert !PushGranted(At(limits, history, denied, waiting), repo, subject);
    Advanced(limits, history, denied, waiting, 1, No, Done(Hidden),
             [GrantMissing(1, repo, subject, 0)]);
    var p := At(limits, history, denied + [GrantMissing(1, repo, subject, 0)],
                waiting[1 := waiting[1].(stage := Done(Hidden))]);
    assert tag in ContentOf(history[1], repo) && Exists(p, repo);
    assert Reachable(p) && p.jobs[0] == jobs[0] && p.jobs[1] == read.(stage := Done(Hidden));
  }

  function At(limits: Limits, history: seq<Contents>, facts: seq<Fact>, jobs: map<nat, Job>): Plane {
    Plane(limits, 0, history, facts, map[], {}, jobs)
  }

  ghost predicate Reachable(p: Plane) {
    exists steps :: Runs(Start(p.limits, 0, map[]), steps, p)
  }

  function PutFacts(repo: Repo, subject: Subject): seq<Fact> {
    [Found(0, repo, false, 0), Checked(0, PushRight(repo, false), true), Published(0, repo, subject, 0),
     Answered(0, 201)]
  }

  /** The engine has answered the PUT with 201; its grant is still to be recorded. */
  lemma PutIsAnswered(limits: Limits, repo: Repo, subject: Subject, tag: string, m: BlobScan.Manifest)
    ensures Reachable(At(limits, [map[], WithTag(map[], repo, tag, m)],
                         PutFacts(repo, subject),
                         map[0 := Job(PutManifest(Some(tag), m), repo, subject, RecordGrant(false, 201))]))
  {
    var put := Job(PutManifest(Some(tag), m), repo, subject, Engine(false));
    var passed := [Found(0, repo, false, 0), Checked(0, PushRight(repo, false), true)];
    var p := At(limits, [map[]], passed, map[0 := put]);
    PutIsChecked(limits, repo, subject, tag, m);
    var steps :| Runs(Start(limits, 0, map[]), steps, p);
    var step := Advance(0, Status(201));
    var done := put.(stage := RecordGrant(false, 201));
    assert Moved(p, 0, Status(201)) == done;
    assert NewsOf(p, 0, Status(201)) == [Published(0, repo, subject, 0), Answered(0, 201)];
    assert map[0 := put][0 := done] == map[0 := done];
    var q := At(limits, [map[], WithTag(map[], repo, tag, m)],
                PutFacts(repo, subject), map[0 := done]);
    assert q == Apply(p, step);
    Extend(Start(limits, 0, map[]), steps, p, step, q);
  }

  lemma PutIsChecked(limits: Limits, repo: Repo, subject: Subject, tag: string, m: BlobScan.Manifest)
    ensures Reachable(At(limits, [map[]], [Found(0, repo, false, 0), Checked(0, PushRight(repo, false), true)],
                         map[0 := Job(PutManifest(Some(tag), m), repo, subject, Engine(false))]))
  {
    var asked := Job(PutManifest(Some(tag), m), repo, subject, CheckPush(false));
    var found := [Found(0, repo, false, 0)];
    var passed := [Checked(0, PushRight(repo, false), true)];
    PutIsAsked(limits, repo, subject, tag, m);
    Advanced(limits, [map[]], found, map[0 := asked], 0, Yes, Engine(false), passed);
    assert map[0 := asked][0 := asked.(stage := Engine(false))] == map[0 := asked.(stage := Engine(false))];
    assert found + passed == [Found(0, repo, false, 0), Checked(0, PushRight(repo, false), true)];
  }

  lemma PutIsAsked(limits: Limits, repo: Repo, subject: Subject, tag: string, m: BlobScan.Manifest)
    ensures Reachable(At(limits, [map[]], [Found(0, repo, false, 0)],
                         map[0 := Job(PutManifest(Some(tag), m), repo, subject, CheckPush(false))]))
  {
    var put := Job(PutManifest(Some(tag), m), repo, subject, PushExists);
    var found := [Found(0, repo, false, 0)];
    var history: seq<Contents> := [map[]];
    assert Runs(Start(limits, 0, map[]), [], At(limits, history, [], map[]));
    Arrived(limits, history, [], map[], 0, PutManifest(Some(tag), m), repo, subject);
    assert map[][0 := put] == map[0 := put];
    Advanced(limits, history, [], map[0 := put], 0, No, CheckPush(false), found);
    assert map[0 := put][0 := put.(stage := CheckPush(false))] == map[0 := put.(stage := CheckPush(false))];
    assert [] + found == found;
  }

  lemma {:induction false} Extend(p: Plane, steps: seq<Step>, q: Plane, s: Step, r: Plane)
    requires Runs(p, steps, q) && Enabled(q, s) && r == Apply(q, s)
    ensures Runs(p, steps + [s], r)
    decreases |steps|
  {
    if steps == [] {
      assert Runs(r, [s][1..], r);
    } else {
      Extend(Apply(p, steps[0]), steps[1..], q, s, r);
      assert (steps + [s])[1..] == steps[1..] + [s];
    }
  }

  lemma Arrived(limits: Limits, history: seq<Contents>, facts: seq<Fact>, jobs: map<nat, Job>,
                id: nat, kind: Kind, repo: Repo, subject: Subject)
    requires Reachable(At(limits, history, facts, jobs)) && id !in jobs
    ensures Reachable(At(limits, history, facts, jobs[id := Job(kind, repo, subject, FirstStage(kind))]))
  {
    var p := At(limits, history, facts, jobs);
    var steps :| Runs(Start(limits, 0, map[]), steps, p);
    var step := Arrive(id, kind, repo, subject);
    Extend(Start(limits, 0, map[]), steps, p, step, Apply(p, step));
  }

  lemma Advanced(limits: Limits, history: seq<Contents>, facts: seq<Fact>, jobs: map<nat, Job>,
                 id: nat, a: Answer, stage: Stage, news: seq<Fact>)
    requires Reachable(At(limits, history, facts, jobs)) && history != []
    requires id in jobs && !jobs[id].stage.Scan? && !jobs[id].stage.Engine? && a != Miss
    requires Permitted(At(limits, history, facts, jobs), jobs[id], a)
    requires jobs[id].stage.CheckRead? ==> a == No
    requires Moved(At(limits, history, facts, jobs), id, a) == jobs[id].(stage := stage)
    requires NewsOf(At(limits, history, facts, jobs), id, a) == news
    ensures Reachable(At(limits, history, facts + news, jobs[id := jobs[id].(stage := stage)]))
  {
    var p := At(limits, history, facts, jobs);
    var steps :| Runs(Start(limits, 0, map[]), steps, p);
    Extend(Start(limits, 0, map[]), steps, p, Advance(id, a), Apply(p, Advance(id, a)));
  }
}
