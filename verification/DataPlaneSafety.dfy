/** Why the data plane forwarded what it forwarded: every forwarded read or mount is justified by
    an authorisation and, for blobs, by evidence that the blob belongs to the repository. */
module DataPlaneSafety {
  import opened Common
  import opened TtlTables
  import opened MembershipCache
  import opened DataPlane
  import BlobScan

  // ---- the justifications ----

  /** The request asked whether the repository exists and got this answer. */
  ghost predicate Asked(facts: seq<Fact>, id: nat, repo: Repo, existed: bool) {
    exists moment: nat :: Found(id, repo, existed, moment) in facts
  }

  /** Its check of the right that pushing demands, v_update on a repository that it found and v_create on
      the registry of one that it did not, had this answer. */
  ghost predicate PushChecked(facts: seq<Fact>, id: nat, repo: Repo, allowed: bool) {
    || (Asked(facts, id, repo, true) && Checked(id, Right(VUpdate, OnRepository(repo)), allowed) in facts)
    || (Asked(facts, id, repo, false) && Checked(id, Right(VCreate, OnRegistry(repo.registryId)), allowed) in facts)
  }

  ghost predicate PassedPush(facts: seq<Fact>, id: nat, repo: Repo) {
    PushChecked(facts, id, repo, true)
  }

  /** It found no repository, and was told whether it may create one in the registry. */
  ghost predicate CreateChecked(facts: seq<Fact>, id: nat, repo: Repo, allowed: bool) {
    Asked(facts, id, repo, false) && Checked(id, Right(VCreate, OnRegistry(repo.registryId)), allowed) in facts
  }

  /** Its check of the right to read: v_get, or for a read of the repository itself the relation it needs. */
  predicate ReadChecked(facts: seq<Fact>, id: nat, kind: Kind, repo: Repo, allowed: bool) {
    Checked(id, Right(if kind.ReadRepo? then kind.relation else VGet, OnRepository(repo)), allowed) in facts
  }

  /** Among the first k facts: the subject's own manifest push into the repository, then its
      grant within the TTL, then no deletion of that grant. */
  ghost predicate GrantStood(facts: seq<Fact>, k: nat, repo: Repo, subject: Subject, cutoff: int) {
    exists i, w, t :: 0 <= i < k <= |facts| && facts[i] == GrantRecorded(w, repo, subject, t) && cutoff < t
                      && WasPublished(facts[..i], w, repo, subject) && UndeletedUntil(facts, i, k, repo, subject)
  }

  ghost predicate WasPublished(facts: seq<Fact>, w: nat, repo: Repo, subject: Subject) {
    exists t :: Published(w, repo, subject, t) in facts
  }

  ghost predicate UndeletedUntil(facts: seq<Fact>, i: int, k: int, repo: Repo, subject: Subject) {
    forall m :: 0 <= i < m < k <= |facts| ==> facts[m] != GrantDeleted(repo, subject)
  }

  /** The request found a standing grant of its own subject. */
  ghost predicate OwnPush(facts: seq<Fact>, limits: Limits, id: nat, repo: Repo, subject: Subject) {
    exists k, t :: 0 <= k < |facts| && facts[k] == GrantSeen(id, repo, subject, t)
                   && GrantStood(facts, k, repo, subject, t - limits.grantTtl)
  }

  ghost predicate MayRead(facts: seq<Fact>, limits: Limits, id: nat, j: Job) {
    ReadChecked(facts, id, j.kind, j.repo, true) || OwnPush(facts, limits, id, j.repo, j.subject)
  }

  /** A scan found the blob in a manifest of the repository, just now or within the cache TTL. */
  ghost predicate SeenByScan(facts: seq<Fact>, limits: Limits, repo: Repo, digest: Digest, at: int) {
    exists t: int, since: nat, until: nat :: Scanned(repo, digest, true, t, since, until) in facts && t <= at
                              && (t == at || at - t < limits.cacheTtl)
  }

  ghost predicate WasCaptured(facts: seq<Fact>, w: nat, repo: Repo, digest: Digest, t: int) {
    exists t1 :: Captured(w, repo, digest, t1) in facts && t1 <= t
  }

  /** Somebody who passed the push check finalised the blob into this repository with a success
      status, recorded within the pending TTL. */
  ghost predicate UploadedWithin(facts: seq<Fact>, limits: Limits, repo: Repo, digest: Digest, at: int) {
    exists w, t :: UploadRecorded(w, repo, digest, t) in facts && at - limits.pendingTtl < t <= at
                   && WasCaptured(facts, w, repo, digest, t) && PassedPush(facts, w, repo)
  }

  ghost predicate Justified(facts: seq<Fact>, limits: Limits, id: nat, j: Job, at: int) {
    match j.kind
    case ReadBlob(digest) =>
      || (MayRead(facts, limits, id, j)
          && (SeenByScan(facts, limits, j.repo, digest, at) || UploadedWithin(facts, limits, j.repo, digest, at)))
      || (CreateChecked(facts, id, j.repo, true) && UploadedWithin(facts, limits, j.repo, digest, at))
    case ReadRepo(_) => MayRead(facts, limits, id, j)
    case Mount(source, digest) =>
      && source.Some? && Checked(id, Right(VGet, OnRepository(source.value)), true) in facts
      && PassedPush(facts, id, j.repo) && SeenByScan(facts, limits, source.value, digest, at)
    case _ => false
  }

  // ---- the invariant ----

  predicate Pushes(k: Kind) {
    k.Finalize? || k.PutManifest? || k.OtherPush?
  }

  predicate MayMountFrom(facts: seq<Fact>, id: nat, k: Kind, mayRead: bool) {
    k.Mount? && (mayRead && k.source.Some? ==> Checked(id, Right(VGet, OnRepository(k.source.value)), true) in facts)
  }

  ghost predicate WasForwarded(facts: seq<Fact>, limits: Limits, id: nat, j: Job) {
    exists at :: ForwardedAt(id, at) in facts && Justified(facts, limits, id, j, at)
  }

  /** What a request has established by the time it stands where it does. */
  ghost predicate Earned(facts: seq<Fact>, limits: Limits, id: nat, j: Job) {
    match j.stage
    case CheckRead => j.kind.ReadBlob? || j.kind.ReadRepo?
    case RepoExists => j.kind.ReadBlob?
    case CheckCreate => j.kind.ReadBlob? && Asked(facts, id, j.repo, false)
    case PushedBlob => j.kind.ReadBlob? && CreateChecked(facts, id, j.repo, true)
    case PushOwner => j.kind.ReadBlob? || j.kind.ReadRepo?
    case Lookup => InLookup(facts, limits, id, j)
    case Scan(_) => InLookup(facts, limits, id, j)
    case Uploaded => j.kind.ReadBlob? && MayRead(facts, limits, id, j)
    case PushExists => Pushes(j.kind)
    case CheckPush(existed) => Pushes(j.kind) && Asked(facts, id, j.repo, existed)
    case Engine(existed) => Pushes(j.kind) && PassedPush(facts, id, j.repo) && Asked(facts, id, j.repo, existed)
    case RecordUpload(code) =>
      && j.kind.Finalize? && PassedPush(facts, id, j.repo) && Answered(id, code) in facts
      && CapturedBy(facts, id, j)
    case RecordGrant(existed, code) =>
      && j.kind.PutManifest? && PassedPush(facts, id, j.repo) && Answered(id, code) in facts
      && WasPublished(facts, id, j.repo, j.subject) && Asked(facts, id, j.repo, existed)
    case Register(code) =>
      && j.kind.PutManifest? && PassedPush(facts, id, j.repo) && Answered(id, code) in facts
      && WasPublished(facts, id, j.repo, j.subject) && Asked(facts, id, j.repo, false) && Granting(facts, id, j)
    case MountSource => j.kind.Mount?
    case MountExists(mayRead) => MayMountFrom(facts, id, j.kind, mayRead)
    case MountTarget(mayRead, existed) =>
      MayMountFrom(facts, id, j.kind, mayRead) && Asked(facts, id, j.repo, existed)
    case Done(o) =>
      && (o.Forwarded? ==> WasForwarded(facts, limits, id, j))
      && (o.Relayed? ==> Pushes(j.kind) && PassedPush(facts, id, j.repo) && Answered(id, o.status) in facts)
      && (o.Relayed? && Success2xx(o.status) && j.kind.Finalize? ==> RecordedBy(facts, id, j))
      && (o.Relayed? && Success2xx(o.status) && j.kind.PutManifest? ==> KeptBooks(facts, id, j))
  }

  /** The push's grant is on record unless recording it failed. */
  ghost predicate Granting(facts: seq<Fact>, id: nat, j: Job) {
    GrantFailed(id) in facts || exists t :: GrantRecorded(id, j.repo, j.subject, t) in facts
  }

  /** A published manifest has its push grant, and a new repository its registration, unless that failed. */
  ghost predicate KeptBooks(facts: seq<Fact>, id: nat, j: Job) {
    && WasPublished(facts, id, j.repo, j.subject) && Granting(facts, id, j)
    && (|| Asked(facts, id, j.repo, true)
        || Registered(id, j.repo, j.subject) in facts || RegisterFailed(id) in facts)
  }

  ghost predicate InLookup(facts: seq<Fact>, limits: Limits, id: nat, j: Job) {
    || (j.kind.ReadBlob? && MayRead(facts, limits, id, j))
    || (j.kind.Mount? && j.kind.source.Some? && MayMountFrom(facts, id, j.kind, true) && PassedPush(facts, id, j.repo))
  }

  ghost predicate CapturedBy(facts: seq<Fact>, id: nat, j: Job) {
    exists t :: Captured(id, j.repo, BlobOf(j.kind), t) in facts
  }

  ghost predicate RecordedBy(facts: seq<Fact>, id: nat, j: Job) {
    exists t :: UploadRecorded(id, j.repo, BlobOf(j.kind), t) in facts
  }

  ghost predicate JobsEarned(p: Plane) {
    forall id <- p.jobs :: Earned(p.facts, p.limits, id, p.jobs[id])
  }

  predicate TimeOk(f: Fact, now: int) {
    match f
    case Scanned(_, _, _, at, _, _) => at <= now
    case Captured(_, _, _, at) => at <= now
    case Published(_, _, _, at) => at <= now
    case UploadRecorded(_, _, _, at) => at <= now
    case GrantRecorded(_, _, _, at) => at <= now
    case GrantSeen(_, _, _, at) => at <= now
    case ForwardedAt(_, at) => at <= now
    case _ => true
  }

  ghost predicate TimesOk(p: Plane) {
    forall i :: 0 <= i < |p.facts| ==> TimeOk(p.facts[i], p.now)
  }

  /** Every recorded upload was a captured success of a request that passed the push check; every
      recorded grant follows the manifest push of its subject, and every registration the first such push;
      and what a table did not have was not on record within its TTL. */
  ghost predicate FactBacked(before: seq<Fact>, limits: Limits, f: Fact) {
    match f
    case UploadRecorded(w, repo, digest, t) => WasCaptured(before, w, repo, digest, t) && PassedPush(before, w, repo)
    case GrantRecorded(w, repo, subject, _) => WasPublished(before, w, repo, subject)
    case Registered(w, repo, subject) => WasPublished(before, w, repo, subject) && Asked(before, w, repo, false)
    case UploadMissing(_, repo, digest, t) => !UploadStands(before, repo, digest, t - limits.pendingTtl)
    case GrantMissing(_, repo, subject, t) => !GrantStands(before, repo, subject, t - limits.grantTtl)
    case _ => true
  }

  ghost predicate RecordBacked(facts: seq<Fact>, limits: Limits, i: int)
    requires 0 <= i < |facts|
  {
    FactBacked(facts[..i], limits, facts[i])
  }

  ghost predicate UploadStands(facts: seq<Fact>, repo: Repo, digest: Digest, cutoff: int) {
    exists w, t :: UploadRecorded(w, repo, digest, t) in facts && cutoff < t
  }

  ghost predicate RecordsBacked(p: Plane) {
    forall i :: 0 <= i < |p.facts| ==> RecordBacked(p.facts, p.limits, i)
  }

  ghost predicate WasScanned(facts: seq<Fact>, repo: Repo, digest: Digest, answer: bool, at: int) {
    exists since: nat, until: nat :: Scanned(repo, digest, answer, at, since, until) in facts
  }

  ghost predicate VerdictsBacked(p: Plane) {
    forall key <- p.verdicts ::
      WasScanned(p.facts, key.0, key.1, p.verdicts[key].inRepo, p.verdicts[key].at) && p.verdicts[key].at <= p.now
  }

  /** A scan looked at the repository between two moments of the past; an answer about its existence is
      about one moment. */
  ghost predicate Observed(history: seq<Contents>, f: Fact) {
    && (f.Scanned? ==>
          && f.since < f.until <= |history|
          && BlobScan.Answers(Window(history, f.since, f.until, f.repo), f.digest, f.answer))
    && (f.Found? ==> FoundAt(history, f.repo, f.existed, f.moment))
  }

  predicate FoundAt(history: seq<Contents>, repo: Repo, existed: bool, moment: nat) {
    moment < |history| && (existed <==> ContentOf(history[moment], repo) != map[])
  }

  ghost predicate AllObserved(p: Plane) {
    && p.history != []
    && (forall i :: 0 <= i < |p.facts| ==> Observed(p.history, p.facts[i]))
    && (forall id <- p.jobs :: p.jobs[id].stage.Scan? ==> p.jobs[id].stage.since < |p.history|)
  }

  /** A request that has yet to ask whether its repository exists. */
  predicate Unasked(stage: Stage) {
    stage.CheckRead? || stage.MountSource? || AsksExistence(stage)
  }

  /** A request asks it once. */
  ghost predicate AskedOnce(facts: seq<Fact>, jobs: map<nat, Job>) {
    && (forall i :: 0 <= i < |facts| && facts[i].Found? ==>
          facts[i].id in jobs && facts[i].repo == jobs[facts[i].id].repo && !Unasked(jobs[facts[i].id].stage))
    && (forall i, k :: 0 <= i < k < |facts| && facts[i].Found? && facts[k].Found? ==> facts[i].id != facts[k].id)
  }

  ghost predicate Inv(p: Plane) {
    JobsEarned(p) && TimesOk(p) && RecordsBacked(p) && VerdictsBacked(p) && AllObserved(p)
    && AskedOnce(p.facts, p.jobs)
  }

  // ---- what is established stays established ----

  lemma GrantStoodGrows(facts: seq<Fact>, news: seq<Fact>, k: nat, repo: Repo, subject: Subject, cutoff: int)
    requires GrantStood(facts, k, repo, subject, cutoff)
    ensures GrantStood(facts + news, k, repo, subject, cutoff)
  {
    var i, w, t :| 0 <= i < k <= |facts| && facts[i] == GrantRecorded(w, repo, subject, t) && cutoff < t
                   && WasPublished(facts[..i], w, repo, subject) && UndeletedUntil(facts, i, k, repo, subject);
    assert (facts + news)[..i] == facts[..i];
    assert (facts + news)[i] == facts[i] && UndeletedUntil(facts + news, i, k, repo, subject);
  }

  lemma OwnPushGrows(facts: seq<Fact>, news: seq<Fact>, limits: Limits, id: nat, repo: Repo, subject: Subject)
    requires OwnPush(facts, limits, id, repo, subject)
    ensures OwnPush(facts + news, limits, id, repo, subject)
  {
    var k, t :| 0 <= k < |facts| && facts[k] == GrantSeen(id, repo, subject, t)
                && GrantStood(facts, k, repo, subject, t - limits.grantTtl);
    GrantStoodGrows(facts, news, k, repo, subject, t - limits.grantTtl);
    assert (facts + news)[k] == facts[k];
  }

  lemma MayReadGrows(facts: seq<Fact>, news: seq<Fact>, limits: Limits, id: nat, j: Job)
    requires MayRead(facts, limits, id, j)
    ensures MayRead(facts + news, limits, id, j)
  {
    if OwnPush(facts, limits, id, j.repo, j.subject) {
      OwnPushGrows(facts, news, limits, id, j.repo, j.subject);
    }
  }

  lemma CapturedGrows(facts: seq<Fact>, news: seq<Fact>, w: nat, repo: Repo, digest: Digest, t: int)
    requires WasCaptured(facts, w, repo, digest, t)
    ensures WasCaptured(facts + news, w, repo, digest, t)
  {
    var t1 :| Captured(w, repo, digest, t1) in facts && t1 <= t;
    assert Captured(w, repo, digest, t1) in facts + news;
  }

  lemma ScopeGrows(facts: seq<Fact>, news: seq<Fact>, limits: Limits, repo: Repo, digest: Digest, at: int)
    ensures SeenByScan(facts, limits, repo, digest, at) ==> SeenByScan(facts + news, limits, repo, digest, at)
    ensures UploadedWithin(facts, limits, repo, digest, at) ==> UploadedWithin(facts + news, limits, repo, digest, at)
  {
    if SeenByScan(facts, limits, repo, digest, at) {
      var t: int, since: nat, until: nat :| Scanned(repo, digest, true, t, since, until) in facts && t <= at
                             && (t == at || at - t < limits.cacheTtl);
      assert Scanned(repo, digest, true, t, since, until) in facts + news;
    }
    if UploadedWithin(facts, limits, repo, digest, at) {
      var w, t :| UploadRecorded(w, repo, digest, t) in facts && at - limits.pendingTtl < t <= at
                  && WasCaptured(facts, w, repo, digest, t) && PassedPush(facts, w, repo);
      CapturedGrows(facts, news, w, repo, digest, t);
      ChecksGrow(facts, news, w, repo);
      assert UploadRecorded(w, repo, digest, t) in facts + news && PassedPush(facts + news, w, repo);
    }
  }

  lemma JustifiedGrows(facts: seq<Fact>, news: seq<Fact>, limits: Limits, id: nat, j: Job, at: int)
    requires Justified(facts, limits, id, j, at)
    ensures Justified(facts + news, limits, id, j, at)
  {
    ChecksGrow(facts, news, id, j.repo);
    if MayRead(facts, limits, id, j) {
      MayReadGrows(facts, news, limits, id, j);
    }
    if j.kind.ReadBlob? {
      ScopeGrows(facts, news, limits, j.repo, j.kind.digest, at);
    } else if j.kind.Mount? {
      ScopeGrows(facts, news, limits, j.kind.source.value, j.kind.digest, at);
    }
  }

  lemma WitnessesGrow(facts: seq<Fact>, news: seq<Fact>, id: nat, j: Job)
    ensures WasPublished(facts, id, j.repo, j.subject) ==> WasPublished(facts + news, id, j.repo, j.subject)
    ensures CapturedBy(facts, id, j) ==> CapturedBy(facts + news, id, j)
    ensures RecordedBy(facts, id, j) ==> RecordedBy(facts + news, id, j)
    ensures Granting(facts, id, j) ==> Granting(facts + news, id, j)
  {
    assert forall f :: f in facts ==> f in facts + news;
  }

  lemma ChecksGrow(facts: seq<Fact>, news: seq<Fact>, id: nat, repo: Repo)
    ensures forall existed :: Asked(facts, id, repo, existed) ==> Asked(facts + news, id, repo, existed)
    ensures forall allowed :: PushChecked(facts, id, repo, allowed) ==> PushChecked(facts + news, id, repo, allowed)
    ensures forall allowed :: CreateChecked(facts, id, repo, allowed) ==> CreateChecked(facts + news, id, repo, allowed)
  {
    assert forall f :: f in facts ==> f in facts + news;
    forall existed | Asked(facts, id, repo, existed) ensures Asked(facts + news, id, repo, existed) {
      var moment: nat :| Found(id, repo, existed, moment) in facts;
      assert Found(id, repo, existed, moment) in facts + news;
    }
  }

  /** The answer about the repository's existence is on record when it decides the next check. */
  lemma AnswerIsAsked(p: Plane, id: nat, a: Answer)
    requires id in p.jobs && AsksExistence(p.jobs[id].stage) && Binary(a)
    ensures Asked(p.facts + NewsOf(p, id, a), id, p.jobs[id].repo, a == Yes)
  {
    assert NewsOf(p, id, a)[0] == Found(id, p.jobs[id].repo, a == Yes, Moment(p));
    assert Found(id, p.jobs[id].repo, a == Yes, Moment(p)) in p.facts + NewsOf(p, id, a);
  }

  /** The check of a push, an upload of the first push or a mount is of the right its existence answer demands. */
  lemma AnswerIsChecked(p: Plane, id: nat, a: Answer)
    requires id in p.jobs && Binary(a)
    requires p.jobs[id].stage.CheckCreate? || p.jobs[id].stage.CheckPush? || p.jobs[id].stage.MountTarget?
    requires Asked(p.facts, id, p.jobs[id].repo, !p.jobs[id].stage.CheckCreate? && p.jobs[id].stage.existed)
    ensures PushChecked(p.facts + NewsOf(p, id, a), id, p.jobs[id].repo, a == Yes)
    ensures p.jobs[id].stage.CheckCreate? ==>
              CreateChecked(p.facts + NewsOf(p, id, a), id, p.jobs[id].repo, a == Yes)
  {
    var j := p.jobs[id];
    var existed := !j.stage.CheckCreate? && j.stage.existed;
    ChecksGrow(p.facts, NewsOf(p, id, a), id, j.repo);
    assert NewsOf(p, id, a)[0]
        == Checked(id, if existed then Right(VUpdate, OnRepository(j.repo))
                       else Right(VCreate, OnRegistry(j.repo.registryId)), a == Yes);
    assert NewsOf(p, id, a)[0] in p.facts + NewsOf(p, id, a);
  }

  lemma EarnedGrows(facts: seq<Fact>, news: seq<Fact>, limits: Limits, id: nat, j: Job)
    requires Earned(facts, limits, id, j)
    ensures Earned(facts + news, limits, id, j)
  {
    WitnessesGrow(facts, news, id, j);
    ChecksGrow(facts, news, id, j.repo);
    if MayRead(facts, limits, id, j) {
      MayReadGrows(facts, news, limits, id, j);
    }
    if j.stage == Done(Forwarded) {
      var at :| ForwardedAt(id, at) in facts && Justified(facts, limits, id, j, at);
      JustifiedGrows(facts, news, limits, id, j, at);
      assert ForwardedAt(id, at) in facts + news;
    }
  }

  // ---- what the tables' answers mean ----

  lemma {:induction false} UploadLogBacked(facts: seq<Fact>, repo: Repo, digest: Digest, at: int)
    requires Recorded((repo, digest), at) in UploadLog(facts)
    ensures exists i, w :: 0 <= i < |facts| && facts[i] == UploadRecorded(w, repo, digest, at)
  {
    var n := |facts| - 1;
    if Recorded((repo, digest), at) in UploadLog(facts[..n]) {
      UploadLogBacked(facts[..n], repo, digest, at);
      var i, w :| 0 <= i < n && facts[..n][i] == UploadRecorded(w, repo, digest, at);
      assert facts[i] == UploadRecorded(w, repo, digest, at);
    } else {
      assert facts[n].UploadRecorded?;
      assert facts[n] == UploadRecorded(facts[n].id, repo, digest, at);
    }
  }

  lemma UploadedIsBacked(p: Plane, repo: Repo, digest: Digest)
    requires TimesOk(p) && RecordsBacked(p) && BlobUploaded(p, repo, digest)
    ensures UploadedWithin(p.facts, p.limits, repo, digest, p.now)
  {
    var log := UploadLog(p.facts);
    var i, at :| 0 <= i < |log| && log[i] == Recorded((repo, digest), at)
                 && p.now - p.limits.pendingTtl < at && NotDeletedAfter(log, i, (repo, digest));
    UploadLogBacked(p.facts, repo, digest, at);
    var k, w :| 0 <= k < |p.facts| && p.facts[k] == UploadRecorded(w, repo, digest, at);
    assert RecordBacked(p.facts, p.limits, k) && TimeOk(p.facts[k], p.now);
    assert p.facts == p.facts[..k] + p.facts[k..];
    CapturedGrows(p.facts[..k], p.facts[k..], w, repo, digest, at);
    ChecksGrow(p.facts[..k], p.facts[k..], w, repo);
  }

  /** Some grant recorded after the cutoff has no deletion after it. */
  ghost predicate GrantStands(facts: seq<Fact>, repo: Repo, subject: Subject, cutoff: int) {
    exists i, w, t :: 0 <= i < |facts| && facts[i] == GrantRecorded(w, repo, subject, t) && cutoff < t
                      && UndeletedUntil(facts, i, |facts|, repo, subject)
  }

  lemma SinceSnoc<K(!new)>(log: Log<K>, e: Event<K>, key: K, cutoff: int)
    ensures Since(log + [e], key, cutoff) <==>
              (e.Recorded? && e.key == key && cutoff < e.at) || (e != Deleted(key) && Since(log, key, cutoff))
  {
    var both := log + [e];
    assert both[|log|] == e && forall i :: 0 <= i < |log| ==> both[i] == log[i];
    if Since(log, key, cutoff) && e != Deleted(key) {
      var i, at :| 0 <= i < |log| && log[i] == Recorded(key, at) && cutoff < at && NotDeletedAfter(log, i, key);
      assert both[i] == Recorded(key, at) && NotDeletedAfter(both, i, key);
    }
    if e.Recorded? && e.key == key && cutoff < e.at {
      assert both[|log|] == Recorded(key, e.at) && NotDeletedAfter(both, |log|, key);
    }
    if Since(both, key, cutoff) {
      var i, at :| 0 <= i < |both| && both[i] == Recorded(key, at) && cutoff < at && NotDeletedAfter(both, i, key);
      if i < |log| {
        assert log[i] == Recorded(key, at) && NotDeletedAfter(log, i, key);
      }
    }
  }

  lemma GrantStandsSnoc(facts: seq<Fact>, f: Fact, repo: Repo, subject: Subject, cutoff: int)
    ensures GrantStands(facts + [f], repo, subject, cutoff) <==>
              || (f.GrantRecorded? && f.repo == repo && f.subject == subject && cutoff < f.at)
              || (f != GrantDeleted(repo, subject) && GrantStands(facts, repo, subject, cutoff))
  {
    var both := facts + [f];
    assert both[|facts|] == f && forall i :: 0 <= i < |facts| ==> both[i] == facts[i];
    if GrantStands(facts, repo, subject, cutoff) && f != GrantDeleted(repo, subject) {
      var i, w, t :| 0 <= i < |facts| && facts[i] == GrantRecorded(w, repo, subject, t) && cutoff < t
                     && UndeletedUntil(facts, i, |facts|, repo, subject);
      assert both[i] == GrantRecorded(w, repo, subject, t) && UndeletedUntil(both, i, |both|, repo, subject);
    }
    if f.GrantRecorded? && f.repo == repo && f.subject == subject && cutoff < f.at {
      assert both[|facts|] == GrantRecorded(f.id, repo, subject, f.at)
             && UndeletedUntil(both, |facts|, |both|, repo, subject);
    }
    if GrantStands(both, repo, subject, cutoff) {
      var i, w, t :| 0 <= i < |both| && both[i] == GrantRecorded(w, repo, subject, t) && cutoff < t
                     && UndeletedUntil(both, i, |both|, repo, subject);
      if i < |facts| {
        assert facts[i] == GrantRecorded(w, repo, subject, t) && UndeletedUntil(facts, i, |facts|, repo, subject);
      }
    }
  }

  /** The grant table's log and the facts tell the same story. */
  lemma {:induction false} GrantLogAgrees(facts: seq<Fact>, repo: Repo, subject: Subject, cutoff: int)
    ensures Since(GrantLog(facts), (repo, subject), cutoff) <==> GrantStands(facts, repo, subject, cutoff)
  {
    if facts != [] {
      var n := |facts| - 1;
      var f := facts[n];
      GrantLogAgrees(facts[..n], repo, subject, cutoff);
      assert facts == facts[..n] + [f];
      GrantStandsSnoc(facts[..n], f, repo, subject, cutoff);
      if f.GrantRecorded? {
        SinceSnoc(GrantLog(facts[..n]), Recorded((f.repo, f.subject), f.at), (repo, subject), cutoff);
      } else if f.GrantDeleted? {
        SinceSnoc(GrantLog(facts[..n]), Deleted((f.repo, f.subject)), (repo, subject), cutoff);
      } else {
        assert GrantLog(facts) == GrantLog(facts[..n]);
      }
    }
  }

  lemma GrantedIsBacked(p: Plane, repo: Repo, subject: Subject)
    requires RecordsBacked(p) && PushGranted(p, repo, subject)
    ensures GrantStood(p.facts, |p.facts|, repo, subject, p.now - p.limits.grantTtl)
  {
    GrantLogAgrees(p.facts, repo, subject, p.now - p.limits.grantTtl);
    var i, w, t :| 0 <= i < |p.facts| && p.facts[i] == GrantRecorded(w, repo, subject, t)
                   && p.now - p.limits.grantTtl < t && UndeletedUntil(p.facts, i, |p.facts|, repo, subject);
    assert RecordBacked(p.facts, p.limits, i);
  }

  // ---- every step keeps the invariant ----

  lemma ForwardJustified(facts: seq<Fact>, limits: Limits, id: nat, j: Job, at: int)
    requires Justified(facts, limits, id, j, at) && ForwardedAt(id, at) in facts && j.stage == Done(Forwarded)
    ensures Earned(facts, limits, id, j)
  {
  }

  lemma BlobStageEarns(p: Plane, id: nat, a: Answer)
    requires TimesOk(p) && RecordsBacked(p) && id in p.jobs && Permitted(p, p.jobs[id], a)
    requires p.jobs[id].stage.PushedBlob? || p.jobs[id].stage.Uploaded?
    requires Earned(p.facts, p.limits, id, p.jobs[id])
    ensures Earned(p.facts + NewsOf(p, id, a), p.limits, id,
                   Moved(p, id, a))
  {
    var j := p.jobs[id];
    if a == Yes {
      var after := j.(stage := Done(Forwarded));
      UploadedIsBacked(p, j.repo, j.kind.digest);
      assert Justified(p.facts, p.limits, id, after, p.now);
      assert NewsOf(p, id, Yes) == [ForwardedAt(id, p.now)];
      JustifiedGrows(p.facts, [ForwardedAt(id, p.now)], p.limits, id, after, p.now);
      ForwardJustified(p.facts + [ForwardedAt(id, p.now)], p.limits, id, after, p.now);
    }
  }

  lemma SeenGrantIsOwnPush(p: Plane, id: nat, j: Job, news: seq<Fact>)
    requires RecordsBacked(p) && PushGranted(p, j.repo, j.subject)
    requires news != [] && news[0] == GrantSeen(id, j.repo, j.subject, p.now)
    ensures OwnPush(p.facts + news, p.limits, id, j.repo, j.subject)
  {
    GrantedIsBacked(p, j.repo, j.subject);
    GrantStoodGrows(p.facts, news, |p.facts|, j.repo, j.subject, p.now - p.limits.grantTtl);
    assert (p.facts + news)[|p.facts|] == GrantSeen(id, j.repo, j.subject, p.now);
  }

  lemma OwnerStageEarns(p: Plane, id: nat, a: Answer)
    requires RecordsBacked(p) && id in p.jobs && Permitted(p, p.jobs[id], a) && p.jobs[id].stage.PushOwner?
    requires p.jobs[id].kind.ReadBlob? || p.jobs[id].kind.ReadRepo?
    ensures Earned(p.facts + NewsOf(p, id, a), p.limits, id, Moved(p, id, a))
  {
    if a == Yes {
      var news := NewsOf(p, id, Yes);
      assert news[0] == GrantSeen(id, p.jobs[id].repo, p.jobs[id].subject, p.now);
      SeenGrantIsOwnPush(p, id, p.jobs[id], news);
      OwnerMayRead(p.facts + news, p.limits, id, Moved(p, id, Yes));
      if p.jobs[id].kind.ReadRepo? {
        assert news[1] == ForwardedAt(id, p.now);
        ForwardJustified(p.facts + news, p.limits, id, Moved(p, id, Yes), p.now);
      }
    }
  }

  lemma OwnerMayRead(facts: seq<Fact>, limits: Limits, id: nat, j: Job)
    requires OwnPush(facts, limits, id, j.repo, j.subject)
    ensures MayRead(facts, limits, id, j)
  {
  }

  /** A positive verdict, cached or fresh, justifies the forward. */
  lemma VerdictForwards(facts: seq<Fact>, limits: Limits, id: nat, j: Job, at: int)
    requires InLookup(facts, limits, id, j) && SeenByScan(facts, limits, ScopeRepo(j), BlobOf(j.kind), at)
    ensures Justified(facts, limits, id, j, at)
  {
  }

  lemma LookupGrows(facts: seq<Fact>, news: seq<Fact>, limits: Limits, id: nat, j: Job)
    requires InLookup(facts, limits, id, j)
    ensures InLookup(facts + news, limits, id, j)
  {
    ChecksGrow(facts, news, id, j.repo);
    if MayRead(facts, limits, id, j) {
      MayReadGrows(facts, news, limits, id, j);
    }
  }

  /** A cached positive verdict comes from a scan less than the TTL ago. */
  lemma HitWasSeen(p: Plane, repo: Repo, digest: Digest)
    requires VerdictsBacked(p) && CacheMayAnswer(p, (repo, digest), true)
    ensures SeenByScan(p.facts, p.limits, repo, digest, p.now)
  {
    var at := p.verdicts[(repo, digest)].at;
    var since: nat, until: nat :| Scanned(repo, digest, true, at, since, until) in p.facts;
    assert Scanned(repo, digest, true, at, since, until) in p.facts;
  }

  lemma LookupStageEarns(p: Plane, id: nat, a: Answer)
    requires Inv(p) && id in p.jobs && Permitted(p, p.jobs[id], a) && p.jobs[id].stage.Lookup?
    ensures Earned(p.facts + NewsOf(p, id, a), p.limits, id, Moved(p, id, a))
  {
    var j := p.jobs[id];
    var news := NewsOf(p, id, a);
    var after := Moved(p, id, a);
    assert Earned(p.facts, p.limits, id, j);
    LookupGrows(p.facts, news, p.limits, id, j);
    if a == Yes {
      HitWasSeen(p, ScopeRepo(j), BlobOf(j.kind));
      ScopeGrows(p.facts, news, p.limits, ScopeRepo(j), BlobOf(j.kind), p.now);
      assert news == [ForwardedAt(id, p.now)];
      VerdictForwards(p.facts + news, p.limits, id, after, p.now);
      ForwardJustified(p.facts + news, p.limits, id, after, p.now);
    }
  }

  lemma ScanStageEarns(p: Plane, id: nat, a: Answer)
    requires id in p.jobs && p.jobs[id].stage.Scan? && InLookup(p.facts, p.limits, id, p.jobs[id])
    ensures Earned(p.facts + NewsOf(p, id, a), p.limits, id, Moved(p, id, a))
  {
    LookupGrows(p.facts, NewsOf(p, id, a), p.limits, id, p.jobs[id]);
    if a == Yes {
      FoundByScan(p, id);
      VerdictForwards(p.facts + NewsOf(p, id, a), p.limits, id, Moved(p, id, a), p.now);
      ForwardJustified(p.facts + NewsOf(p, id, a), p.limits, id, Moved(p, id, a), p.now);
    }
  }

  lemma FoundByScan(p: Plane, id: nat)
    requires id in p.jobs && p.jobs[id].stage.Scan?
    ensures ForwardedAt(id, p.now) in p.facts + NewsOf(p, id, Yes)
    ensures SeenByScan(p.facts + NewsOf(p, id, Yes), p.limits, ScopeRepo(p.jobs[id]), BlobOf(p.jobs[id].kind), p.now)
  {
    var j := p.jobs[id];
    var news := NewsOf(p, id, Yes);
    assert news[0] == Scanned(ScopeRepo(j), BlobOf(j.kind), true, p.now, j.stage.since, Moment(p) + 1);
    assert news[1] == ForwardedAt(id, p.now);
    assert news[0] in p.facts + news && news[1] in p.facts + news;
  }

  lemma CheckStageEarns(p: Plane, id: nat, a: Answer)
    requires Inv(p) && id in p.jobs && Permitted(p, p.jobs[id], a)
    requires p.jobs[id].stage.CheckRead? || p.jobs[id].stage.CheckCreate? || p.jobs[id].stage.RepoExists?
    ensures Earned(p.facts + NewsOf(p, id, a), p.limits, id,
                   Moved(p, id, a))
  {
    var j := p.jobs[id];
    var news := NewsOf(p, id, a);
    assert Earned(p.facts, p.limits, id, j);
    if j.stage.CheckRead? && a == Yes {
      assert news[0] == Checked(id, ReadRight(j), true);
      if j.kind.ReadRepo? {
        assert news[1] == ForwardedAt(id, p.now);
        ForwardJustified(p.facts + news, p.limits, id, j.(stage := Done(Forwarded)), p.now);
      }
    } else if j.stage.RepoExists? && a == No {
      AnswerIsAsked(p, id, a);
    } else if j.stage.CheckCreate? && a == Yes {
      AnswerIsChecked(p, id, a);
    }
  }

  lemma PushCheckEarns(p: Plane, id: nat, a: Answer)
    requires Inv(p) && id in p.jobs && Permitted(p, p.jobs[id], a)
    requires p.jobs[id].stage.PushExists? || p.jobs[id].stage.CheckPush?
    ensures Earned(p.facts + NewsOf(p, id, a), p.limits, id, Moved(p, id, a))
  {
    var j := p.jobs[id];
    assert Earned(p.facts, p.limits, id, j);
    if Binary(a) {
      ChecksGrow(p.facts, NewsOf(p, id, a), id, j.repo);
      if j.stage.PushExists? {
        AnswerIsAsked(p, id, a);
      } else {
        AnswerIsChecked(p, id, a);
      }
    }
  }

  lemma PushStageEarns(p: Plane, id: nat, a: Answer)
    requires Inv(p) && id in p.jobs && Permitted(p, p.jobs[id], a)
    requires p.jobs[id].stage.Engine? || p.jobs[id].stage.RecordUpload?
    ensures Earned(p.facts + NewsOf(p, id, a), p.limits, id,
                   Moved(p, id, a))
  {
    var j := p.jobs[id];
    var news := NewsOf(p, id, a);
    assert Earned(p.facts, p.limits, id, j);
    WitnessesGrow(p.facts, news, id, j);
    ChecksGrow(p.facts, news, id, j.repo);
    if j.stage.Engine? && Success2xx(a.code) {
      if j.kind.Finalize? {
        assert news[0] == Captured(id, j.repo, BlobOf(j.kind), p.now);
      } else if j.kind.PutManifest? {
        assert news[0] == Published(id, j.repo, j.subject, p.now);
      }
    }
    if j.stage.Engine? {
      assert news[|news| - 1] == Answered(id, a.code);
      assert news[|news| - 1] in p.facts + news;
    }
    if j.stage.RecordUpload? && a == Yes {
      assert news[0] == UploadRecorded(id, j.repo, BlobOf(j.kind), p.now);
    }
  }

  /** The bookkeeping after a published manifest. */
  lemma BooksEarn(p: Plane, id: nat, a: Answer)
    requires Inv(p) && id in p.jobs && Permitted(p, p.jobs[id], a)
    requires p.jobs[id].stage.RecordGrant? || p.jobs[id].stage.Register?
    ensures Earned(p.facts + NewsOf(p, id, a), p.limits, id, Moved(p, id, a))
  {
    var j := p.jobs[id];
    var news := NewsOf(p, id, a);
    assert Earned(p.facts, p.limits, id, j);
    WitnessesGrow(p.facts, news, id, j);
    ChecksGrow(p.facts, news, id, j.repo);
    assert forall f :: f in news ==> f in p.facts + news;
    if j.stage.RecordGrant? {
      assert if a == Failed then news[0] == GrantFailed(id) else news[0] == GrantRecorded(id, j.repo, j.subject, p.now);
      assert news[0] in news;
    } else {
      assert if a == Failed then news[0] == RegisterFailed(id) else news[0] == Registered(id, j.repo, j.subject);
      assert news[0] in news;
    }
  }

  lemma MountSourceEarns(p: Plane, id: nat, a: Answer)
    requires id in p.jobs && p.jobs[id].kind.Mount? && p.jobs[id].stage.MountSource?
    ensures Earned(p.facts + NewsOf(p, id, a), p.limits, id, Moved(p, id, a))
  {
    if a == Yes && p.jobs[id].kind.source.Some? {
      assert NewsOf(p, id, Yes)[0] == Checked(id, Right(VGet, OnRepository(p.jobs[id].kind.source.value)), true);
    }
  }

  lemma MountStageEarns(p: Plane, id: nat, a: Answer)
    requires id in p.jobs && (p.jobs[id].stage.MountExists? || p.jobs[id].stage.MountTarget?)
    requires MayMountFrom(p.facts, id, p.jobs[id].kind, p.jobs[id].stage.mayRead)
    requires p.jobs[id].stage.MountTarget? ==> Asked(p.facts, id, p.jobs[id].repo, p.jobs[id].stage.existed)
    ensures Earned(p.facts + NewsOf(p, id, a), p.limits, id, Moved(p, id, a))
  {
    if Binary(a) {
      if p.jobs[id].stage.MountExists? {
        AnswerIsAsked(p, id, a);
      } else {
        AnswerIsChecked(p, id, a);
      }
    }
  }

  lemma AdvanceEarns(p: Plane, id: nat, a: Answer)
    requires Inv(p) && id in p.jobs && Permitted(p, p.jobs[id], a)
    ensures Earned(p.facts + NewsOf(p, id, a), p.limits, id,
                   Moved(p, id, a))
  {
    assert Earned(p.facts, p.limits, id, p.jobs[id]);
    match p.jobs[id].stage
    case CheckRead => CheckStageEarns(p, id, a);
    case RepoExists => CheckStageEarns(p, id, a);
    case CheckCreate => CheckStageEarns(p, id, a);
    case PushedBlob => BlobStageEarns(p, id, a);
    case Uploaded => BlobStageEarns(p, id, a);
    case PushOwner => OwnerStageEarns(p, id, a);
    case Lookup => LookupStageEarns(p, id, a);
    case Scan(_) => ScanStageEarns(p, id, a);
    case MountSource => MountSourceEarns(p, id, a);
    case MountExists(_) => MountStageEarns(p, id, a);
    case MountTarget(_, _) => MountStageEarns(p, id, a);
    case PushExists => PushCheckEarns(p, id, a);
    case CheckPush(_) => PushCheckEarns(p, id, a);
    case RecordGrant(_, _) => BooksEarn(p, id, a);
    case Register(_) => BooksEarn(p, id, a);
    case Done(_) =>
    case _ => PushStageEarns(p, id, a);
  }

  lemma StepKeepsJobs(p: Plane, s: Step)
    requires Inv(p) && Enabled(p, s)
    ensures JobsEarned(Apply(p, s))
  {
    var q := Apply(p, s);
    forall id <- q.jobs ensures Earned(q.facts, q.limits, id, q.jobs[id]) {
      match s
      case Arrive(_, _, _, _) =>
      case Tick(_) =>
      case Change(_) =>
      case Drop(repo, subject) =>
        EarnedGrows(p.facts, [GrantDeleted(repo, subject)], p.limits, id, p.jobs[id]);
      case Advance(mover, a) =>
        if id == mover {
          AdvanceEarns(p, id, a);
        } else {
          EarnedGrows(p.facts, NewsOf(p, mover, a), p.limits, id, p.jobs[id]);
        }
    }
  }

  lemma NewsTimely(now: int, moment: nat, id: nat, j: Job, a: Answer)
    ensures forall i :: 0 <= i < |News(now, moment, id, j, a)| ==> TimeOk(News(now, moment, id, j, a)[i], now)
  {
  }

  lemma StepKeepsTimes(p: Plane, s: Step)
    requires TimesOk(p) && Enabled(p, s)
    ensures TimesOk(Apply(p, s))
  {
    if s.Advance? {
      NewsTimely(p.now, Moment(p), s.id, p.jobs[s.id], s.answer);
    }
  }

  /** The facts of one step that are about the tables come first in it. */
  lemma NewsRecords(now: int, moment: nat, id: nat, j: Job, a: Answer, i: nat)
    requires i < |News(now, moment, id, j, a)|
    ensures var f := News(now, moment, id, j, a)[i];
            && (f.UploadRecorded? ==>
                  i == 0 && j.stage.RecordUpload? && f == UploadRecorded(id, j.repo, BlobOf(j.kind), now))
            && (f.GrantRecorded? ==>
                  i == 0 && j.stage.RecordGrant? && f == GrantRecorded(id, j.repo, j.subject, now))
            && (f.Registered? ==> i == 0 && j.stage.Register? && f == Registered(id, j.repo, j.subject))
            && (f.UploadMissing? ==>
                  i == 0 && a == No && (j.stage.PushedBlob? || j.stage.Uploaded?)
                  && f == UploadMissing(id, j.repo, BlobOf(j.kind), now))
            && (f.GrantMissing? ==>
                  i == 0 && a == No && j.stage.PushOwner? && f == GrantMissing(id, j.repo, j.subject, now))
  {
  }

  lemma UploadRecordIsBacked(p: Plane, id: nat)
    requires TimesOk(p) && id in p.jobs && p.jobs[id].stage.RecordUpload? && Earned(p.facts, p.limits, id, p.jobs[id])
    ensures WasCaptured(p.facts, id, p.jobs[id].repo, BlobOf(p.jobs[id].kind), p.now)
    ensures PassedPush(p.facts, id, p.jobs[id].repo)
  {
    var j := p.jobs[id];
    var t :| Captured(id, j.repo, BlobOf(j.kind), t) in p.facts;
    var k :| 0 <= k < |p.facts| && p.facts[k] == Captured(id, j.repo, BlobOf(j.kind), t);
    assert TimeOk(p.facts[k], p.now);
  }

  lemma {:induction false} LogOfUpload(facts: seq<Fact>, i: nat, w: nat, repo: Repo, digest: Digest, t: int)
    requires i < |facts| && facts[i] == UploadRecorded(w, repo, digest, t)
    ensures Recorded((repo, digest), t) in UploadLog(facts)
  {
    if i < |facts| - 1 {
      LogOfUpload(facts[..|facts| - 1], i, w, repo, digest, t);
    }
  }

  lemma {:induction false} UploadsAreNeverDeleted(facts: seq<Fact>)
    ensures forall i :: 0 <= i < |UploadLog(facts)| ==> UploadLog(facts)[i].Recorded?
  {
    if facts != [] {
      UploadsAreNeverDeleted(facts[..|facts| - 1]);
    }
  }

  /** The pending-blob table's log and the facts tell the same story. */
  lemma UploadStandsIsFound(p: Plane, repo: Repo, digest: Digest)
    requires UploadStands(p.facts, repo, digest, p.now - p.limits.pendingTtl)
    ensures BlobUploaded(p, repo, digest)
  {
    var w, t :| UploadRecorded(w, repo, digest, t) in p.facts && p.now - p.limits.pendingTtl < t;
    var i :| 0 <= i < |p.facts| && p.facts[i] == UploadRecorded(w, repo, digest, t);
    LogOfUpload(p.facts, i, w, repo, digest, t);
    UploadsAreNeverDeleted(p.facts);
    var log := UploadLog(p.facts);
    var k :| 0 <= k < |log| && log[k] == Recorded((repo, digest), t);
    assert NotDeletedAfter(log, k, (repo, digest));
  }

  lemma NewRecordIsBacked(p: Plane, id: nat, a: Answer, i: nat)
    requires JobsEarned(p) && TimesOk(p) && id in p.jobs && Permitted(p, p.jobs[id], a) && i < |NewsOf(p, id, a)|
    ensures FactBacked(p.facts + NewsOf(p, id, a)[..i], p.limits, NewsOf(p, id, a)[i])
  {
    var f := NewsOf(p, id, a)[i];
    NewsRecords(p.now, Moment(p), id, p.jobs[id], a, i);
    assert Earned(p.facts, p.limits, id, p.jobs[id]);
    assert p.facts + [] == p.facts;
    if f.UploadRecorded? {
      UploadRecordIsBacked(p, id);
    } else if f.UploadMissing? {
      if UploadStands(p.facts, f.repo, f.digest, p.now - p.limits.pendingTtl) {
        UploadStandsIsFound(p, f.repo, f.digest);
      }
    } else if f.GrantMissing? {
      GrantLogAgrees(p.facts, f.repo, f.subject, p.now - p.limits.grantTtl);
    }
  }

  /** Old records stay backed as backed news comes in. */
  lemma RecordsJoin(facts: seq<Fact>, news: seq<Fact>, limits: Limits)
    requires forall i :: 0 <= i < |facts| ==> RecordBacked(facts, limits, i)
    requires forall i :: 0 <= i < |news| ==> FactBacked(facts + news[..i], limits, news[i])
    ensures forall i :: 0 <= i < |facts + news| ==> RecordBacked(facts + news, limits, i)
  {
    var all := facts + news;
    forall i | 0 <= i < |all| ensures RecordBacked(all, limits, i) {
      if i < |facts| {
        assert all[..i] == facts[..i] && all[i] == facts[i];
        assert RecordBacked(facts, limits, i);
      } else {
        assert all[..i] == facts + news[..i - |facts|] && all[i] == news[i - |facts|];
      }
    }
  }

  lemma StepKeepsRecords(p: Plane, s: Step)
    requires JobsEarned(p) && TimesOk(p) && RecordsBacked(p) && Enabled(p, s)
    ensures RecordsBacked(Apply(p, s))
  {
    if s.Advance? {
      forall i | 0 <= i < |NewsOf(p, s.id, s.answer)|
        ensures FactBacked(p.facts + NewsOf(p, s.id, s.answer)[..i], p.limits, NewsOf(p, s.id, s.answer)[i])
      {
        NewRecordIsBacked(p, s.id, s.answer, i);
      }
      RecordsJoin(p.facts, NewsOf(p, s.id, s.answer), p.limits);
    } else if s.Drop? {
      RecordsJoin(p.facts, [GrantDeleted(s.repo, s.subject)], p.limits);
    }
  }

  lemma WasScannedGrows(facts: seq<Fact>, news: seq<Fact>, repo: Repo, digest: Digest, answer: bool, at: int)
    requires WasScanned(facts, repo, digest, answer, at)
    ensures WasScanned(facts + news, repo, digest, answer, at)
  {
    var since: nat, until: nat :| Scanned(repo, digest, answer, at, since, until) in facts;
    assert Scanned(repo, digest, answer, at, since, until) in facts + news;
  }

  /** A scan's answer is on record when it enters the cache. */
  lemma ScanRecorded(p: Plane, id: nat, a: Answer)
    requires id in p.jobs && p.jobs[id].stage.Scan? && Binary(a)
    ensures WasScanned(p.facts + NewsOf(p, id, a), ScopeRepo(p.jobs[id]), BlobOf(p.jobs[id].kind), a == Yes, p.now)
  {
    var j := p.jobs[id];
    var f := Scanned(ScopeRepo(j), BlobOf(j.kind), a == Yes, p.now, j.stage.since, Moment(p) + 1);
    assert NewsOf(p, id, a)[0] == f;
    assert f in p.facts + NewsOf(p, id, a);
  }

  lemma FactsGrow(p: Plane, s: Step)
    ensures p.facts <= Apply(p, s).facts
    ensures s.Advance? && s.id in p.jobs ==> Apply(p, s).facts == p.facts + NewsOf(p, s.id, s.answer)
  {
  }

  lemma VerdictsChange(p: Plane, s: Step)
    ensures Apply(p, s).verdicts == p.verdicts
            || (s.Advance? && s.id in p.jobs && p.jobs[s.id].stage.Scan? && Binary(s.answer)
                && Apply(p, s).verdicts == p.verdicts[(ScopeRepo(p.jobs[s.id]), BlobOf(p.jobs[s.id].kind))
                                                      := Stamp(s.answer == Yes, p.now)])
    ensures s.Tick? || Apply(p, s).now == p.now
  {
  }

  lemma StepKeepsVerdicts(p: Plane, s: Step)
    requires VerdictsBacked(p) && Enabled(p, s)
    ensures VerdictsBacked(Apply(p, s))
  {
    var q := Apply(p, s);
    FactsGrow(p, s);
    VerdictsChange(p, s);
    var news := q.facts[|p.facts|..];
    assert q.facts == p.facts + news;
    forall key <- q.verdicts
      ensures WasScanned(q.facts, key.0, key.1, q.verdicts[key].inRepo, q.verdicts[key].at)
      ensures q.verdicts[key].at <= q.now
    {
      if key in p.verdicts && q.verdicts[key] == p.verdicts[key] {
        WasScannedGrows(p.facts, news, key.0, key.1, p.verdicts[key].inRepo, p.verdicts[key].at);
      } else {
        ScanRecorded(p, s.id, s.answer);
      }
    }
  }

  /** The past does not change. */
  lemma WindowStays(history: seq<Contents>, more: seq<Contents>, since: nat, until: nat, repo: Repo)
    requires since <= until <= |history|
    ensures Window(history + more, since, until, repo) == Window(history, since, until, repo)
  {
    assert forall i :: 0 <= i < |history| ==> (history + more)[i] == history[i];
  }

  lemma ObservedGrows(history: seq<Contents>, more: seq<Contents>, f: Fact)
    requires Observed(history, f)
    ensures Observed(history + more, f)
  {
    if f.Scanned? {
      WindowStays(history, more, f.since, f.until, f.repo);
    }
  }

  lemma NewsScans(p: Plane, id: nat, a: Answer, i: nat)
    requires AllObserved(p) && id in p.jobs && Permitted(p, p.jobs[id], a) && i < |NewsOf(p, id, a)|
    ensures Observed(p.history, NewsOf(p, id, a)[i])
  {
  }

  lemma HistoryGrows(p: Plane, s: Step)
    requires p.history != []
    ensures p.history <= Apply(p, s).history
  {
  }

  lemma StepKeepsScans(p: Plane, s: Step)
    requires AllObserved(p) && Enabled(p, s)
    ensures AllObserved(Apply(p, s))
  {
    var q := Apply(p, s);
    HistoryGrows(p, s);
    var more := q.history[|p.history|..];
    assert q.history == p.history + more;
    forall i | 0 <= i < |q.facts| ensures Observed(q.history, q.facts[i]) {
      if i < |p.facts| {
        assert q.facts[i] == p.facts[i];
        ObservedGrows(p.history, more, p.facts[i]);
      } else if s.Advance? {
        NewsScans(p, s.id, s.answer, i - |p.facts|);
        ObservedGrows(p.history, more, q.facts[i]);
      }
    }
  }

  /** News of an existence answer comes first, from a request that had not asked before. */
  lemma NewsFinds(p: Plane, id: nat, a: Answer, i: nat)
    requires id in p.jobs && i < |NewsOf(p, id, a)| && NewsOf(p, id, a)[i].Found?
    ensures i == 0 && AsksExistence(p.jobs[id].stage) && !Unasked(Moved(p, id, a).stage)
    ensures NewsOf(p, id, a)[i].id == id && NewsOf(p, id, a)[i].repo == p.jobs[id].repo
  {
  }

  lemma AskedStaysAsked(k: Kind, stage: Stage, a: Answer, moment: nat)
    requires !Unasked(stage)
    ensures !Unasked(Next(k, stage, a, moment))
  {
  }

  lemma AdvanceKeepsAskedOnce(p: Plane, id: nat, a: Answer)
    requires AskedOnce(p.facts, p.jobs) && id in p.jobs
    ensures AskedOnce(p.facts + NewsOf(p, id, a), p.jobs[id := Moved(p, id, a)])
  {
    var news := NewsOf(p, id, a);
    var all := p.facts + news;
    var jobs := p.jobs[id := Moved(p, id, a)];
    forall i | 0 <= i < |all| && all[i].Found?
      ensures all[i].id in jobs && all[i].repo == jobs[all[i].id].repo && !Unasked(jobs[all[i].id].stage)
      ensures i < |p.facts| || (i == |p.facts| && all[i].id == id && Unasked(p.jobs[id].stage))
    {
      if i < |p.facts| {
        assert all[i] == p.facts[i];
        if all[i].id == id {
          AskedStaysAsked(p.jobs[id].kind, p.jobs[id].stage, a, Moment(p));
        }
      } else {
        assert all[i] == news[i - |p.facts|];
        NewsFinds(p, id, a, i - |p.facts|);
      }
    }
  }

  lemma StepKeepsAskedOnce(p: Plane, s: Step)
    requires AskedOnce(p.facts, p.jobs) && Enabled(p, s)
    ensures AskedOnce(Apply(p, s).facts, Apply(p, s).jobs)
  {
    if s.Advance? {
      AdvanceKeepsAskedOnce(p, s.id, s.answer);
    }
  }

  lemma StepKeepsInv(p: Plane, s: Step)
    requires Inv(p) && Enabled(p, s)
    ensures Inv(Apply(p, s))
  {
    StepKeepsJobs(p, s);
    StepKeepsTimes(p, s);
    StepKeepsRecords(p, s);
    StepKeepsVerdicts(p, s);
    StepKeepsScans(p, s);
    StepKeepsAskedOnce(p, s);
  }

  lemma {:induction false} RunKeepsInv(p: Plane, steps: seq<Step>, q: Plane)
    requires Inv(p) && Runs(p, steps, q)
    ensures Inv(q) && q.limits == p.limits
    decreases |steps|
  {
    if steps != [] {
      StepKeepsInv(p, steps[0]);
      RunKeepsInv(Apply(p, steps[0]), steps[1..], q);
    }
  }

  // ---- the theorems ----

  predicate Initial(p: Plane) {
    |p.history| == 1 && p == Start(p.limits, p.now, p.history[0])
  }

  /** Between two moments some tag of the repository pointed at a manifest with the digest. */
  ghost predicate HeldBetween(history: seq<Contents>, since: nat, until: nat, repo: Repo, digest: Digest) {
    exists m, tag :: since <= m < until <= |history| && tag in ContentOf(history[m], repo)
                     && BlobScan.Holds(ContentOf(history[m], repo)[tag], digest)
  }

  /** A scan whose verdict is less than the cache TTL old, or new, looked at the repository while one of its
      tagged manifests held the digest. */
  ghost predicate InManifest(p: Plane, repo: Repo, digest: Digest, at: int) {
    exists t: int, since: nat, until: nat :: Scanned(repo, digest, true, t, since, until) in p.facts
                              && t <= at && (t == at || at - t < p.limits.cacheTtl)
                              && HeldBetween(p.history, since, until, repo, digest)
  }

  lemma ScanSawManifest(p: Plane, repo: Repo, digest: Digest, at: int)
    requires AllObserved(p) && SeenByScan(p.facts, p.limits, repo, digest, at)
    ensures InManifest(p, repo, digest, at)
  {
    var t: int, since: nat, until: nat :| Scanned(repo, digest, true, t, since, until) in p.facts && t <= at
                           && (t == at || at - t < p.limits.cacheTtl);
    var f := Scanned(repo, digest, true, t, since, until);
    var k :| 0 <= k < |p.facts| && p.facts[k] == f;
    assert Observed(p.history, p.facts[k]);
    TrueMeansHeld(p.history, since, until, repo, digest);
  }

  lemma TrueMeansHeld(history: seq<Contents>, since: nat, until: nat, repo: Repo, digest: Digest)
    requires since < until <= |history|
    requires BlobScan.Answers(Window(history, since, until, repo), digest, true)
    ensures HeldBetween(history, since, until, repo, digest)
  {
    var window := Window(history, since, until, repo);
    BlobScan.AnswersAreTrue(window, digest, true);
    var m, tag :| 0 <= m < |window| && tag in window[m] && BlobScan.Holds(window[m][tag], digest);
    assert window[m] == ContentOf(history[since + m], repo);
  }

  /** A scan never looks further back than the moment its request began it: whatever moment the request
      had not begun to scan at, what it sees is from then on. */
  lemma ScansLookForward(p: Plane, steps: seq<Step>, q: Plane, id: nat)
    requires Runs(p, steps, q) && p.history != []
    requires id in p.jobs ==> !p.jobs[id].stage.Scan?
    requires id in q.jobs && q.jobs[id].stage.Scan?
    ensures Moment(p) <= q.jobs[id].stage.since
  {
    RunScansFrom(p, steps, q, id, Moment(p));
  }

  predicate ScansFrom(p: Plane, id: nat, moment: nat) {
    && p.history != [] && moment <= Moment(p)
    && (id in p.jobs && p.jobs[id].stage.Scan? ==> moment <= p.jobs[id].stage.since)
  }

  lemma {:induction false} RunScansFrom(p: Plane, steps: seq<Step>, q: Plane, id: nat, moment: nat)
    requires Runs(p, steps, q) && ScansFrom(p, id, moment)
    ensures ScansFrom(q, id, moment)
    decreases |steps|
  {
    if steps != [] {
      StepScansFrom(p, steps[0], id, moment);
      RunScansFrom(Apply(p, steps[0]), steps[1..], q, id, moment);
    }
  }

  lemma StepScansFrom(p: Plane, s: Step, id: nat, moment: nat)
    requires Enabled(p, s) && ScansFrom(p, id, moment)
    ensures ScansFrom(Apply(p, s), id, moment)
  {
  }

  /** Blob reads: whatever the environment did, a forwarded blob belongs to the repository: one of its
      tagged manifests held it when it was scanned, with a verdict within the cache TTL, or a caller
      who passed the push check finalised it into that repository within the pending TTL. And the
      reader was authorised, or had pushed the repository itself, or may create repositories there
      and reads a pending upload. */
  lemma BlobReadsAreJustified(start: Plane, steps: seq<Step>, p: Plane, id: nat)
    requires Initial(start) && Runs(start, steps, p)
    requires id in p.jobs && p.jobs[id].kind.ReadBlob? && p.jobs[id].stage == Done(Forwarded)
    ensures exists at :: ForwardedAt(id, at) in p.facts
                         && BlobReadAllowed(p, id, p.jobs[id], p.jobs[id].kind.digest, at)
  {
    RunKeepsInv(start, steps, p);
    var j := p.jobs[id];
    assert Earned(p.facts, p.limits, id, j);
    var at :| ForwardedAt(id, at) in p.facts && Justified(p.facts, p.limits, id, j, at);
    if SeenByScan(p.facts, p.limits, j.repo, j.kind.digest, at) {
      ScanSawManifest(p, j.repo, j.kind.digest, at);
    }
    if CreateChecked(p.facts, id, j.repo, true) {
      AskedIsTold(p, id, j.repo, false);
    }
    assert BlobReadAllowed(p, id, j, j.kind.digest, at);
  }

  ghost predicate BlobReadAllowed(p: Plane, id: nat, j: Job, digest: Digest, at: int) {
    var uploaded := UploadedWithin(p.facts, p.limits, j.repo, digest, at);
    && (InManifest(p, j.repo, digest, at) || uploaded)
    && (MayRead(p.facts, p.limits, id, j)
        || (uploaded && Told(p, id, j.repo, false)
            && Checked(id, Right(VCreate, OnRegistry(j.repo.registryId)), true) in p.facts))
  }

  /** The one time the request asked whether the repository exists it was told this, and at that moment it
      was so. */
  ghost predicate Told(p: Plane, id: nat, repo: Repo, existed: bool) {
    exists moment: nat ::
      && Found(id, repo, existed, moment) in p.facts && FoundAt(p.history, repo, existed, moment)
      && forall f <- p.facts :: f.Found? && f.id == id ==> f == Found(id, repo, existed, moment)
  }

  lemma AskedIsTold(p: Plane, id: nat, repo: Repo, existed: bool)
    requires Inv(p) && Asked(p.facts, id, repo, existed)
    ensures Told(p, id, repo, existed)
  {
    var moment: nat :| Found(id, repo, existed, moment) in p.facts;
    var k :| 0 <= k < |p.facts| && p.facts[k] == Found(id, repo, existed, moment);
    assert Observed(p.history, p.facts[k]);
    forall f <- p.facts | f.Found? && f.id == id ensures f == Found(id, repo, existed, moment) {
      var i :| 0 <= i < |p.facts| && p.facts[i] == f;
      assert i == k;
    }
  }

  /** The request's check for pushing had this answer, and it was v_update on the repository if that was
      there when the request asked, and v_create on the registry if it was not. */
  ghost predicate PushDecided(p: Plane, id: nat, repo: Repo, allowed: bool) {
    exists existed ::
      && Told(p, id, repo, existed)
      && Checked(id, if existed then Right(VUpdate, OnRepository(repo))
                     else Right(VCreate, OnRegistry(repo.registryId)), allowed) in p.facts
  }

  lemma CheckedIsDecided(p: Plane, id: nat, repo: Repo, allowed: bool)
    requires Inv(p) && PushChecked(p.facts, id, repo, allowed)
    ensures PushDecided(p, id, repo, allowed)
  {
    var existed := Asked(p.facts, id, repo, true)
                   && Checked(id, Right(VUpdate, OnRepository(repo)), allowed) in p.facts;
    AskedIsTold(p, id, repo, existed);
  }

  predicate ReachedEngine(stage: Stage) {
    || stage.Engine? || stage.RecordUpload? || stage.RecordGrant? || stage.Register?
    || (stage.Done? && stage.outcome.Relayed?)
  }

  /** Pushes: whatever the environment did, one that reached the engine had passed the check of exactly the
      right that the repository's existence demands, and a relayed status is the engine's own. */
  lemma PushesAreJustified(start: Plane, steps: seq<Step>, p: Plane, id: nat)
    requires Initial(start) && Runs(start, steps, p)
    requires id in p.jobs && Pushes(p.jobs[id].kind) && ReachedEngine(p.jobs[id].stage)
    ensures PushDecided(p, id, p.jobs[id].repo, true)
    ensures p.jobs[id].stage.Done? ==> Answered(id, p.jobs[id].stage.outcome.status) in p.facts
  {
    RunKeepsInv(start, steps, p);
    assert Earned(p.facts, p.limits, id, p.jobs[id]);
    CheckedIsDecided(p, id, p.jobs[id].repo, true);
  }

  /** Manifest, tag-list and referrer reads that were forwarded without an allowing check of their
      own are reads by somebody who pushed a manifest into that very repository, whose grant was
      recorded within the TTL of the read and not deleted in between. */
  lemma DeniedReadsAreOwnPushes(start: Plane, steps: seq<Step>, p: Plane, id: nat)
    requires Initial(start) && Runs(start, steps, p)
    requires id in p.jobs && p.jobs[id].kind.ReadRepo? && p.jobs[id].stage == Done(Forwarded)
    requires Checked(id, Right(p.jobs[id].kind.relation, OnRepository(p.jobs[id].repo)), true) !in p.facts
    ensures OwnPush(p.facts, p.limits, id, p.jobs[id].repo, p.jobs[id].subject)
  {
    RunKeepsInv(start, steps, p);
    assert Earned(p.facts, p.limits, id, p.jobs[id]);
  }

  /** Mounts: a forwarded mount passed both the source and the target check, and a tagged
      manifest of the source repository held the blob when it was scanned; a pending upload does not
      do. */
  lemma MountsAreJustified(start: Plane, steps: seq<Step>, p: Plane, id: nat)
    requires Initial(start) && Runs(start, steps, p)
    requires id in p.jobs && p.jobs[id].kind.Mount? && p.jobs[id].stage == Done(Forwarded)
    ensures p.jobs[id].kind.source.Some?
    ensures Checked(id, Right(VGet, OnRepository(p.jobs[id].kind.source.value)), true) in p.facts
    ensures PushDecided(p, id, p.jobs[id].repo, true)
    ensures exists at :: ForwardedAt(id, at) in p.facts
                         && InManifest(p, p.jobs[id].kind.source.value, p.jobs[id].kind.digest, at)
  {
    RunKeepsInv(start, steps, p);
    var j := p.jobs[id];
    assert Earned(p.facts, p.limits, id, j);
    var at :| ForwardedAt(id, at) in p.facts && Justified(p.facts, p.limits, id, j, at);
    ScanSawManifest(p, j.kind.source.value, j.kind.digest, at);
    CheckedIsDecided(p, id, j.repo, true);
  }

  /** No finalize is answered with success before its blob is on record. */
  lemma SuccessMeansRecorded(start: Plane, steps: seq<Step>, p: Plane, id: nat)
    requires Initial(start) && Runs(start, steps, p)
    requires id in p.jobs && p.jobs[id].kind.Finalize? && p.jobs[id].stage.Done?
    requires p.jobs[id].stage.outcome.Relayed? && Success2xx(p.jobs[id].stage.outcome.status)
    ensures exists t :: UploadRecorded(id, p.jobs[id].repo, p.jobs[id].kind.digest, t) in p.facts
  {
    RunKeepsInv(start, steps, p);
    assert Earned(p.facts, p.limits, id, p.jobs[id]);
  }

  /** A manifest PUT answered with success has published it; its push grant is on record, and if the
      repository was not there when the request asked, so is its registration, unless writing that failed. */
  lemma SuccessMeansRegistered(start: Plane, steps: seq<Step>, p: Plane, id: nat)
    requires Initial(start) && Runs(start, steps, p)
    requires id in p.jobs && p.jobs[id].kind.PutManifest? && p.jobs[id].stage.Done?
    requires p.jobs[id].stage.outcome.Relayed? && Success2xx(p.jobs[id].stage.outcome.status)
    ensures WasPublished(p.facts, id, p.jobs[id].repo, p.jobs[id].subject)
    ensures GrantFailed(id) in p.facts
            || exists t :: GrantRecorded(id, p.jobs[id].repo, p.jobs[id].subject, t) in p.facts
    ensures Told(p, id, p.jobs[id].repo, true)
            || Registered(id, p.jobs[id].repo, p.jobs[id].subject) in p.facts || RegisterFailed(id) in p.facts
  {
    RunKeepsInv(start, steps, p);
    assert Earned(p.facts, p.limits, id, p.jobs[id]);
    if Asked(p.facts, id, p.jobs[id].repo, true) {
      AskedIsTold(p, id, p.jobs[id].repo, true);
    }
  }
}
