/** The converse of DataPlaneSafety: what the data plane refused, it had a reason to refuse. */
module DataPlaneRefusals {
  import opened Common
  import opened DataPlane
  import opened DataPlaneSafety
  import BlobScan

  /** Some scan did not find the blob in the repository's manifests. */
  ghost predicate ScannedAbsent(facts: seq<Fact>, repo: Repo, digest: Digest) {
    exists t: int, since: nat, until: nat :: Scanned(repo, digest, false, t, since, until) in facts
  }

  predicate ReadDenied(facts: seq<Fact>, id: nat, j: Job) {
    ReadChecked(facts, id, j.kind, j.repo, false)
  }

  predicate SourceDenied(facts: seq<Fact>, id: nat, source: Repo) {
    Checked(id, Right(VGet, OnRepository(source)), false) in facts
  }

  ghost predicate PushDenied(facts: seq<Fact>, id: nat, repo: Repo) {
    PushChecked(facts, id, repo, false)
  }

  /** The pending-blob table had no upload of the blob into the repository. */
  ghost predicate NotPending(facts: seq<Fact>, id: nat, repo: Repo, digest: Digest) {
    exists t :: UploadMissing(id, repo, digest, t) in facts
  }

  /** The push-grant table had no grant of the subject. */
  ghost predicate NotOwner(facts: seq<Fact>, id: nat, j: Job) {
    exists t :: GrantMissing(id, j.repo, j.subject, t) in facts
  }

  /** It is not a first push under way: the repository exists, or the subject may not create one in the
      registry, or has not uploaded the blob. */
  ghost predicate NoFirstPush(facts: seq<Fact>, id: nat, j: Job, digest: Digest) {
    || Asked(facts, id, j.repo, true)
    || CreateChecked(facts, id, j.repo, false)
    || NotPending(facts, id, j.repo, digest)
  }

  /** A read is hidden only after its check was denied and neither of the bridges over it held, or because
      its blob was scanned for and not found, and not pending either; a push is denied only by its own
      check, a mount by one of its two, and hidden when the source lacks the blob. */
  ghost predicate Reasoned(facts: seq<Fact>, id: nat, j: Job) {
    match j.kind
    case ReadBlob(digest) =>
      && (AfterDenial(j.stage) ==> ReadDenied(facts, id, j))
      && (j.stage.PushOwner? ==> NoFirstPush(facts, id, j, digest))
      && (j.stage.Uploaded? ==> ScannedAbsent(facts, j.repo, digest))
      && (j.stage == Done(Hidden) ==>
            || (ReadDenied(facts, id, j) && NoFirstPush(facts, id, j, digest) && NotOwner(facts, id, j))
            || (ScannedAbsent(facts, j.repo, digest) && NotPending(facts, id, j.repo, digest)))
      && j.stage != Done(Denied)
    case ReadRepo(_) =>
      && (AfterDenial(j.stage) ==> ReadDenied(facts, id, j))
      && (j.stage == Done(Hidden) ==> ReadDenied(facts, id, j) && NotOwner(facts, id, j))
      && j.stage != Done(Denied)
    case Mount(source, digest) =>
      && (source.Some? && MayNotMount(j.stage) ==> SourceDenied(facts, id, source.value))
      && (source.Some? && j.stage == Done(Hidden) ==> ScannedAbsent(facts, source.value, digest))
      && (source.Some? && j.stage == Done(Denied) ==>
            SourceDenied(facts, id, source.value) || PushDenied(facts, id, j.repo))
    case _ => j.stage != Done(Hidden) && (j.stage == Done(Denied) ==> PushDenied(facts, id, j.repo))
  }

  predicate AfterDenial(stage: Stage) {
    stage.RepoExists? || stage.CheckCreate? || stage.PushedBlob? || stage.PushOwner?
  }

  predicate MayNotMount(stage: Stage) {
    (stage.MountExists? || stage.MountTarget?) && !stage.mayRead
  }

  ghost predicate AllReasoned(p: Plane) {
    forall id <- p.jobs :: Reasoned(p.facts, id, p.jobs[id])
  }

  ghost predicate AbsencesKnown(p: Plane) {
    forall key <- p.verdicts :: !p.verdicts[key].inRepo ==> ScannedAbsent(p.facts, key.0, key.1)
  }

  lemma ReasonsGrow(facts: seq<Fact>, news: seq<Fact>, id: nat, j: Job)
    requires Reasoned(facts, id, j)
    ensures Reasoned(facts + news, id, j)
  {
    assert forall f :: f in facts ==> f in facts + news;
    ChecksGrow(facts, news, id, j.repo);
  }

  lemma AbsenceReasoned(p: Plane, id: nat, a: Answer)
    requires AbsencesKnown(p) && Enabled(p, Advance(id, a)) && a == No
    requires p.jobs[id].stage.Lookup? || p.jobs[id].stage.Scan?
    ensures ScannedAbsent(p.facts + NewsOf(p, id, a), ScopeRepo(p.jobs[id]), BlobOf(p.jobs[id].kind))
  {
    var j := p.jobs[id];
    var news := NewsOf(p, id, a);
    if j.stage.Scan? {
      assert news[0] == Scanned(ScopeRepo(j), BlobOf(j.kind), false, p.now, j.stage.since, Moment(p) + 1);
    } else {
      assert news == [] && p.facts + news == p.facts;
    }
  }

  lemma NotPendingRecorded(p: Plane, id: nat, a: Answer)
    requires id in p.jobs && a == No && (p.jobs[id].stage.PushedBlob? || p.jobs[id].stage.Uploaded?)
    ensures NotPending(p.facts + NewsOf(p, id, a), id, p.jobs[id].repo, BlobOf(p.jobs[id].kind))
  {
    var f := UploadMissing(id, p.jobs[id].repo, BlobOf(p.jobs[id].kind), p.now);
    assert NewsOf(p, id, a)[0] == f;
    assert f in p.facts + NewsOf(p, id, a);
  }

  lemma NotOwnerRecorded(p: Plane, id: nat, a: Answer)
    requires id in p.jobs && a == No && p.jobs[id].stage.PushOwner?
    ensures NotOwner(p.facts + NewsOf(p, id, a), id, p.jobs[id])
  {
    var f := GrantMissing(id, p.jobs[id].repo, p.jobs[id].subject, p.now);
    assert NewsOf(p, id, a)[0] == f;
    assert f in p.facts + NewsOf(p, id, a);
  }

  /** A first answer of the read, and the answers on the way of a first push. */
  lemma DenialReasoned(p: Plane, id: nat, a: Answer)
    requires JobsEarned(p) && Enabled(p, Advance(id, a)) && p.jobs[id].kind.ReadBlob?
    requires AfterDenial(p.jobs[id].stage) || p.jobs[id].stage.CheckRead?
    requires Reasoned(p.facts + NewsOf(p, id, a), id, p.jobs[id])
    ensures Reasoned(p.facts + NewsOf(p, id, a), id, Moved(p, id, a))
  {
    var j := p.jobs[id];
    assert Earned(p.facts, p.limits, id, j);
    if j.stage.CheckRead? && a == No {
      assert NewsOf(p, id, a)[0] == Checked(id, ReadRight(j), false);
    } else if j.stage.RepoExists? && a == Yes {
      AnswerIsAsked(p, id, a);
    } else if j.stage.CheckCreate? && a == No {
      AnswerIsChecked(p, id, a);
    } else if j.stage.PushedBlob? && a == No {
      NotPendingRecorded(p, id, a);
    } else if j.stage.PushOwner? && a == No {
      NotOwnerRecorded(p, id, a);
    }
  }

  lemma BlobReadReasoned(p: Plane, id: nat, a: Answer)
    requires JobsEarned(p) && AbsencesKnown(p) && Enabled(p, Advance(id, a)) && p.jobs[id].kind.ReadBlob?
    requires Reasoned(p.facts + NewsOf(p, id, a), id, p.jobs[id])
    ensures Reasoned(p.facts + NewsOf(p, id, a), id, Moved(p, id, a))
  {
    var j := p.jobs[id];
    if AfterDenial(j.stage) || j.stage.CheckRead? {
      DenialReasoned(p, id, a);
    } else {
      assert Earned(p.facts, p.limits, id, j);
      if a == No && (j.stage.Lookup? || j.stage.Scan?) {
        AbsenceReasoned(p, id, a);
      } else if a == No && j.stage.Uploaded? {
        NotPendingRecorded(p, id, a);
      }
    }
  }

  lemma RepoReadReasoned(p: Plane, id: nat, a: Answer)
    requires JobsEarned(p) && Enabled(p, Advance(id, a)) && p.jobs[id].kind.ReadRepo?
    requires Reasoned(p.facts + NewsOf(p, id, a), id, p.jobs[id])
    ensures Reasoned(p.facts + NewsOf(p, id, a), id, Moved(p, id, a))
  {
    var j := p.jobs[id];
    assert Earned(p.facts, p.limits, id, j);
    if a == No && j.stage.CheckRead? {
      assert NewsOf(p, id, a)[0] == Checked(id, ReadRight(j), false);
    } else if a == No && j.stage.PushOwner? {
      NotOwnerRecorded(p, id, a);
    }
  }

  lemma WriteAdvanceReasoned(p: Plane, id: nat, a: Answer)
    requires JobsEarned(p) && AllReasoned(p) && AbsencesKnown(p) && Enabled(p, Advance(id, a))
    requires !p.jobs[id].kind.ReadBlob? && !p.jobs[id].kind.ReadRepo?
    ensures Reasoned(p.facts + NewsOf(p, id, a), id,
                     Moved(p, id, a))
  {
    var j := p.jobs[id];
    var news := NewsOf(p, id, a);
    assert Earned(p.facts, p.limits, id, j) && Reasoned(p.facts, id, j);
    ReasonsGrow(p.facts, news, id, j);
    if a == No {
      if j.stage.Lookup? || j.stage.Scan? {
        AbsenceReasoned(p, id, a);
      } else if j.stage.MountSource? && j.kind.source.Some? {
        assert news[0] == Checked(id, ReadRight(j), false);
      } else if j.stage.CheckPush? || j.stage.MountTarget? {
        AnswerIsChecked(p, id, a);
      }
    }
  }

  lemma AbsencesStayKnown(p: Plane, s: Step)
    requires AbsencesKnown(p) && Enabled(p, s)
    ensures AbsencesKnown(Apply(p, s))
  {
    var q := Apply(p, s);
    FactsGrow(p, s);
    VerdictsChange(p, s);
    assert forall f :: f in p.facts ==> f in q.facts;
    if q.verdicts != p.verdicts {
      ScanRecorded(p, s.id, s.answer);
    }
  }

  lemma StepKeepsReasons(p: Plane, s: Step)
    requires Inv(p) && AllReasoned(p) && AbsencesKnown(p) && Enabled(p, s)
    ensures AllReasoned(Apply(p, s)) && AbsencesKnown(Apply(p, s))
  {
    var q := Apply(p, s);
    AbsencesStayKnown(p, s);
    forall id <- q.jobs ensures Reasoned(q.facts, id, q.jobs[id]) {
      match s
      case Arrive(_, _, _, _) =>
      case Tick(_) =>
      case Change(_) =>
      case Drop(repo, subject) => ReasonsGrow(p.facts, [GrantDeleted(repo, subject)], id, p.jobs[id]);
      case Advance(mover, a) =>
        if id == mover {
          ReasonsGrow(p.facts, NewsOf(p, id, a), id, p.jobs[id]);
          if p.jobs[id].kind.ReadBlob? {
            BlobReadReasoned(p, id, a);
          } else if p.jobs[id].kind.ReadRepo? {
            RepoReadReasoned(p, id, a);
          } else {
            WriteAdvanceReasoned(p, id, a);
          }
        } else {
          ReasonsGrow(p.facts, NewsOf(p, mover, a), id, p.jobs[id]);
        }
    }
  }

  lemma {:induction false} RunKeepsReasons(p: Plane, steps: seq<Step>, q: Plane)
    requires Inv(p) && AllReasoned(p) && AbsencesKnown(p) && Runs(p, steps, q)
    ensures AllReasoned(q)
    decreases |steps|
  {
    if steps != [] {
      StepKeepsInv(p, steps[0]);
      StepKeepsReasons(p, steps[0]);
      RunKeepsReasons(Apply(p, steps[0]), steps[1..], q);
    }
  }

  /** Over every run: a read answered 404 was denied with neither bridge holding, or its blob was nowhere
      to be found; a read is never answered 403; and a refused push or mount was denied by a check of its
      own, one of exactly the right that the existence of its repository demands. */
  lemma RefusalsHaveReasons(start: Plane, steps: seq<Step>, p: Plane, id: nat)
    requires Initial(start) && Runs(start, steps, p) && id in p.jobs
    ensures Reasoned(p.facts, id, p.jobs[id])
    ensures Pushes(p.jobs[id].kind) && p.jobs[id].stage == Done(Denied) ==> PushDecided(p, id, p.jobs[id].repo, false)
    ensures p.jobs[id].kind.Mount? && p.jobs[id].kind.source.Some? && p.jobs[id].stage == Done(Denied) ==>
              || Checked(id, Right(VGet, OnRepository(p.jobs[id].kind.source.value)), false) in p.facts
              || PushDecided(p, id, p.jobs[id].repo, false)
  {
    RunKeepsReasons(start, steps, p);
    RunKeepsInv(start, steps, p);
    if PushDenied(p.facts, id, p.jobs[id].repo) {
      CheckedIsDecided(p, id, p.jobs[id].repo, false);
    }
  }

  /** What a request did not find in the freshness tables was not there: no upload of the blob, and no
      undeleted grant of the subject, had been recorded within the TTL. */
  lemma MissesAreReal(start: Plane, steps: seq<Step>, p: Plane, i: nat)
    requires Initial(start) && Runs(start, steps, p) && i < |p.facts|
    ensures p.facts[i].UploadMissing? ==>
              !UploadStands(p.facts[..i], p.facts[i].repo, p.facts[i].digest, p.facts[i].at - p.limits.pendingTtl)
    ensures p.facts[i].GrantMissing? ==>
              !GrantStands(p.facts[..i], p.facts[i].repo, p.facts[i].subject, p.facts[i].at - p.limits.grantTtl)
  {
    RunKeepsInv(start, steps, p);
    assert RecordBacked(p.facts, p.limits, i);
  }

  // ---- the end of a push grant ----

  /** Once a read of a subject is allowed its push grant can be deleted. */
  lemma AllowedReadMayDrop(p: Plane, id: nat)
    requires Enabled(p, Advance(id, Yes)) && p.jobs[id].stage.CheckRead?
    ensures Enabled(Apply(p, Advance(id, Yes)), Drop(p.jobs[id].repo, p.jobs[id].subject))
  {
  }

  ghost predicate NoNewGrant(p: Plane, q: Plane, repo: Repo, subject: Subject) {
    |p.facts| <= |q.facts|
    && forall i :: |p.facts| <= i < |q.facts| && q.facts[i].GrantRecorded? ==>
         !(q.facts[i].repo == repo && q.facts[i].subject == subject)
  }

  /** After that, and until the subject pushes again, a denied read is hidden: the grant does not outlive
      the right. */
  lemma DroppedGrantHides(p: Plane, repo: Repo, subject: Subject, steps: seq<Step>, q: Plane, id: nat, a: Answer)
    requires Runs(Apply(p, Drop(repo, subject)), steps, q) && NoNewGrant(p, q, repo, subject)
    requires Enabled(q, Advance(id, a)) && q.jobs[id].stage.PushOwner? && a != Failed
    requires q.jobs[id].repo == repo && q.jobs[id].subject == subject
    ensures Apply(q, Advance(id, a)).jobs[id].stage == Done(Hidden)
  {
    RunOnlyAdds(Apply(p, Drop(repo, subject)), steps, q);
    GrantLogAgrees(q.facts, repo, subject, q.now - q.limits.grantTtl);
    DeletionEndsGrants(q.facts, |p.facts|, repo, subject, q.now - q.limits.grantTtl);
  }

  lemma DeletionEndsGrants(facts: seq<Fact>, k: nat, repo: Repo, subject: Subject, cutoff: int)
    requires k < |facts| && facts[k] == GrantDeleted(repo, subject)
    requires forall i :: k < i < |facts| && facts[i].GrantRecorded? ==>
                           !(facts[i].repo == repo && facts[i].subject == subject)
    ensures !GrantStands(facts, repo, subject, cutoff)
  {
    forall i: nat, w, t | i < |facts| && facts[i] == GrantRecorded(w, repo, subject, t)
      ensures !UndeletedUntil(facts, i, |facts|, repo, subject)
    {
      assert i < k && facts[k] == GrantDeleted(repo, subject);
    }
  }

  lemma {:induction false} RunOnlyAdds(p: Plane, steps: seq<Step>, q: Plane)
    requires Runs(p, steps, q)
    ensures p.facts <= q.facts
    decreases |steps|
  {
    if steps != [] {
      FactsGrow(p, steps[0]);
      RunOnlyAdds(Apply(p, steps[0]), steps[1..], q);
    }
  }

  /** At some moment of the window, of each tag the repository had then, the tag was absent or its manifest
      lacked the digest, then or later in the window. */
  ghost predicate LackedBetween(history: seq<Contents>, since: nat, until: nat, repo: Repo, digest: Digest) {
    since < until <= |history| && BlobScan.LackedByAll(Window(history, since, until, repo), digest)
  }

  /** And a negative scan is about the repository: a blob that stays in the manifest of a tag that stays is
      never scanned absent. */
  lemma AbsencesAreReal(start: Plane, steps: seq<Step>, p: Plane, repo: Repo, digest: Digest)
    requires Initial(start) && Runs(start, steps, p) && ScannedAbsent(p.facts, repo, digest)
    ensures exists since: nat, until: nat :: LackedBetween(p.history, since, until, repo, digest)
  {
    RunKeepsInv(start, steps, p);
    var t: int, since: nat, until: nat :| Scanned(repo, digest, false, t, since, until) in p.facts;
    var k :| 0 <= k < |p.facts| && p.facts[k] == Scanned(repo, digest, false, t, since, until);
    assert Observed(p.history, p.facts[k]);
    BlobScan.AnswersAreTrue(Window(p.history, since, until, repo), digest, false);
    assert LackedBetween(p.history, since, until, repo, digest);
  }

  /** Only a dependency's failure, never a decision, ends a request with 503; and a failure always
      does, except that of the bookkeeping after a manifest has been published. */
  lemma FailClosedIffFailure(p: Plane, id: nat, a: Answer)
    requires Inv(p) && Enabled(p, Advance(id, a))
    ensures Apply(p, Advance(id, a)).jobs[id].stage == Done(FailedClosed)
            <==> && (a == Failed || a == FailedAfterEffect)
                 && !p.jobs[id].stage.RecordGrant? && !p.jobs[id].stage.Register?
  {
    assert Earned(p.facts, p.limits, id, p.jobs[id]);
  }
}
