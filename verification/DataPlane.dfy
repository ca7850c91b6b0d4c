/** The data plane as a step system: requests advance decision by decision, interleaved with each
    other, with the clock, with changes to the repositories, and with the environment that answers
    checks and pushes as it likes. The freshness tables answer as TtlTables proves they do, the
    membership cache as MembershipCache does, and a scan as some schedule of BlobScan does. */
module DataPlane {
  import opened Common
  import opened TtlTables
  import opened MembershipCache
  import BlobScan

  type Digest = string
  type Subject = string

  datatype Repo = Repo(registryId: string, name: string)

  datatype Relation = VGet | VList | VCreate | VUpdate
  datatype Object = OnRepository(repo: Repo) | OnRegistry(registryId: string)
  datatype Right = Right(relation: Relation, object: Object)

  datatype Kind =
    | ReadBlob(digest: Digest)
    | ReadRepo(relation: Relation) // manifests and referrers (v_get), tag lists (v_list)
    | Finalize(digest: Digest)
    | PutManifest(tag: Option<string>, manifest: BlobScan.Manifest) // by tag, or by digest only
    | OtherPush
    | Mount(source: Option<Repo>, digest: Digest)

  datatype Outcome = Forwarded | Hidden | Denied | FailedClosed | Relayed(status: nat)

  datatype Stage =
    | CheckRead | RepoExists | CheckCreate | PushedBlob | PushOwner | Lookup | Scan(since: nat) | Uploaded
    | PushExists | CheckPush(existed: bool) | Engine(existed: bool) | RecordUpload(status: nat)
    | RecordGrant(existed: bool, status: nat) | Register(status: nat)
    | MountSource | MountExists(mayRead: bool) | MountTarget(mayRead: bool, existed: bool)
    | Done(outcome: Outcome)

  datatype Job = Job(kind: Kind, repo: Repo, subject: Subject, stage: Stage)

  /** A dependency's answer; an acknowledgement can get lost after the effect. */
  datatype Answer = Yes | No | Miss | Status(code: nat) | Failed | FailedAfterEffect

  /** What has happened, in order. Every fact of a request carries the request's id. */
  datatype Fact =
    | Checked(id: nat, right: Right, allowed: bool)
    | Found(id: nat, repo: Repo, existed: bool, moment: nat)
    | Scanned(repo: Repo, digest: Digest, answer: bool, at: int, since: nat, until: nat)
    | Answered(id: nat, status: nat)
    | Captured(id: nat, repo: Repo, digest: Digest, at: int)
    | Published(id: nat, repo: Repo, subject: Subject, at: int)
    | UploadRecorded(id: nat, repo: Repo, digest: Digest, at: int)
    | GrantRecorded(id: nat, repo: Repo, subject: Subject, at: int)
    | UploadMissing(id: nat, repo: Repo, digest: Digest, at: int)
    | GrantSeen(id: nat, repo: Repo, subject: Subject, at: int)
    | GrantMissing(id: nat, repo: Repo, subject: Subject, at: int)
    | GrantFailed(id: nat)
    | Registered(id: nat, repo: Repo, subject: Subject)
    | RegisterFailed(id: nat)
    | GrantDeleted(repo: Repo, subject: Subject)
    | ForwardedAt(id: nat, at: int)

  datatype Limits = Limits(cacheTtl: int, pendingTtl: int, grantTtl: int)

  /** The tagged manifests of every repository. */
  type Contents = map<Repo, BlobScan.Content>

  /** `history` has every state the repositories have been in; the last one is the present. */
  datatype Plane = Plane(
    limits: Limits,
    now: int,
    history: seq<Contents>,
    facts: seq<Fact>,
    verdicts: map<(Repo, Digest), Stamp>,
    drops: set<(Repo, Subject)>,
    jobs: map<nat, Job>)

  datatype Step =
    | Arrive(id: nat, kind: Kind, repo: Repo, subject: Subject)
    | Advance(id: nat, answer: Answer)
    | Tick(now: int)
    | Change(contents: Contents)
    | Drop(repo: Repo, subject: Subject)

  function ContentOf(contents: Contents, repo: Repo): BlobScan.Content {
    if repo in contents then contents[repo] else map[]
  }

  /** What the repository went through from one moment up to another. */
  function Window(history: seq<Contents>, since: nat, until: nat, repo: Repo): (w: seq<BlobScan.Content>)
    ensures since <= until <= |history| ==> |w| == until - since
  {
    if since <= until <= |history|
      then seq(until - since, i requires 0 <= i < until - since => ContentOf(history[since + i], repo))
      else []
  }

  /** A repository exists for the data plane while it has a tag. */
  predicate Exists(p: Plane, repo: Repo) {
    p.history != [] && ContentOf(p.history[|p.history| - 1], repo) != map[]
  }

  function UploadLog(facts: seq<Fact>): Log<(Repo, Digest)> {
    if facts == [] then [] else
      UploadLog(facts[..|facts| - 1]) +
      match facts[|facts| - 1] {
        case UploadRecorded(_, repo, digest, at) => [Recorded((repo, digest), at)]
        case _ => []
      }
  }

  function GrantLog(facts: seq<Fact>): Log<(Repo, Subject)> {
    if facts == [] then [] else
      GrantLog(facts[..|facts| - 1]) +
      match facts[|facts| - 1] {
        case GrantRecorded(_, repo, subject, at) => [Recorded((repo, subject), at)]
        case GrantDeleted(repo, subject) => [Deleted((repo, subject))]
        case _ => []
      }
  }

  /** The answer of the pending-blob table. */
  ghost predicate BlobUploaded(p: Plane, repo: Repo, digest: Digest) {
    Since(UploadLog(p.facts), (repo, digest), p.now - p.limits.pendingTtl)
  }

  /** The answer of the push-grant table. */
  ghost predicate PushGranted(p: Plane, repo: Repo, subject: Subject) {
    Since(GrantLog(p.facts), (repo, subject), p.now - p.limits.grantTtl)
  }

  /** The repository whose manifests decide whether the blob may be reached. */
  function ScopeRepo(j: Job): Repo {
    if j.kind.Mount? && j.kind.source.Some? then j.kind.source.value else j.repo
  }

  function BlobOf(k: Kind): Digest {
    if k.ReadBlob? || k.Finalize? || k.Mount? then k.digest else ""
  }

  /** A new repository is created under its registry, an existing one is updated. */
  function PushRight(repo: Repo, existed: bool): Right {
    if existed then Right(VUpdate, OnRepository(repo)) else Right(VCreate, OnRegistry(repo.registryId))
  }

  function ReadRight(j: Job): Right {
    Right(if j.kind.ReadRepo? then j.kind.relation else VGet, OnRepository(ScopeRepo(j)))
  }

  /** The right a request asks for where it stands, if it asks for one. */
  function Question(j: Job): Option<Right> {
    match j.stage
    case CheckRead => Some(ReadRight(j))
    case CheckCreate => Some(PushRight(j.repo, false))
    case CheckPush(existed) => Some(PushRight(j.repo, existed))
    case MountSource => if j.kind.Mount? && j.kind.source.Some? then Some(ReadRight(j)) else None
    case MountTarget(_, existed) => Some(PushRight(j.repo, existed))
    case _ => None
  }

  predicate AsksExistence(stage: Stage) {
    stage.RepoExists? || stage.PushExists? || stage.MountExists?
  }

  predicate Success2xx(status: nat) {
    200 <= status < 300
  }

  function FirstStage(k: Kind): Stage {
    match k
    case ReadBlob(_) => CheckRead
    case ReadRepo(_) => CheckRead
    case Mount(_, _) => MountSource
    case _ => PushExists
  }

  predicate Binary(a: Answer) {
    a == Yes || a == No
  }

  /** Which answers a request can get where it stands. */
  ghost predicate Permitted(p: Plane, j: Job, a: Answer) {
    match j.stage
    case PushedBlob => a == Failed || a == if BlobUploaded(p, j.repo, BlobOf(j.kind)) then Yes else No
    case Uploaded => a == Failed || a == if BlobUploaded(p, j.repo, BlobOf(j.kind)) then Yes else No
    case PushOwner => a == Failed || a == if PushGranted(p, j.repo, j.subject) then Yes else No
    case RepoExists => a == Failed || a == if Exists(p, j.repo) then Yes else No
    case PushExists => a == Failed || a == if Exists(p, j.repo) then Yes else No
    case MountExists(_) => a == Failed || a == if Exists(p, j.repo) then Yes else No
    case Lookup =>
      a == Miss || (Binary(a) && CacheMayAnswer(p, (ScopeRepo(j), BlobOf(j.kind)), a == Yes))
    case Scan(since) =>
      || a == Failed
      || (Binary(a) && BlobScan.Answers(Window(p.history, since, |p.history|, ScopeRepo(j)), BlobOf(j.kind), a == Yes))
    case Engine(_) => a.Status?
    case RecordUpload(_) => a == Yes || a == Failed || a == FailedAfterEffect
    case RecordGrant(_, _) => a == Yes || a == Failed || a == FailedAfterEffect
    case Register(_) => a == Yes || a == Failed || a == FailedAfterEffect
    case Done(_) => false
    case _ => Binary(a) || a == Failed
  }

  /** A hit is the latest verdict for the key, less than the TTL old; a miss is always possible. */
  predicate CacheMayAnswer(p: Plane, key: (Repo, Digest), answer: bool) {
    key in p.verdicts && p.verdicts[key].inRepo == answer && p.now - p.verdicts[key].at < p.limits.cacheTtl
  }

  /** The decisions of the handlers; a scan starts at the present moment. */
  function Next(k: Kind, stage: Stage, a: Answer, moment: nat): Stage {
    match stage
    case CheckRead =>
      if a == Yes then if k.ReadBlob? then Lookup else Done(Forwarded)
      else if a == No then if k.ReadBlob? then RepoExists else PushOwner
      else Done(FailedClosed)
    case RepoExists =>
      if a == Yes then PushOwner else if a == No then CheckCreate else Done(FailedClosed)
    case CheckCreate =>
      if a == Yes then PushedBlob else if a == No then PushOwner else Done(FailedClosed)
    case PushedBlob =>
      if a == Yes then Done(Forwarded) else if a == No then PushOwner else Done(FailedClosed)
    case PushOwner =>
      if a == Yes then if k.ReadBlob? then Lookup else Done(Forwarded)
      else if a == No then Done(Hidden)
      else Done(FailedClosed)
    case Lookup =>
      if a == Yes then Done(Forwarded)
      else if a == No then if k.ReadBlob? then Uploaded else Done(Hidden)
      else Scan(moment)
    case Scan(_) =>
      if a == Yes then Done(Forwarded)
      else if a == No then if k.ReadBlob? then Uploaded else Done(Hidden)
      else Done(FailedClosed)
    case Uploaded =>
      if a == Yes then Done(Forwarded) else if a == No then Done(Hidden) else Done(FailedClosed)
    case PushExists =>
      if Binary(a) then CheckPush(a == Yes) else Done(FailedClosed)
    case CheckPush(e) =>
      if a == Yes then Engine(e) else if a == No then Done(Denied) else Done(FailedClosed)
    case Engine(e) =>
      var code := if a.Status? then a.code else 502;
      if Success2xx(code) && k.Finalize? then RecordUpload(code)
      else if Success2xx(code) && k.PutManifest? then RecordGrant(e, code)
      else Done(Relayed(code))
    case RecordUpload(code) =>
      if a == Yes then Done(Relayed(code)) else Done(FailedClosed)
    case RecordGrant(e, code) =>
      if e then Done(Relayed(code)) else Register(code)
    case Register(code) => Done(Relayed(code))
    case MountSource =>
      if Binary(a) then MountExists(a == Yes) else Done(FailedClosed)
    case MountExists(mayRead) =>
      if Binary(a) then MountTarget(mayRead, a == Yes) else Done(FailedClosed)
    case MountTarget(mayRead, e) =>
      if a == Yes && mayRead then if k.Mount? && k.source.Some? then Lookup else Done(Hidden)
      else if Binary(a) then Done(Denied)
      else Done(FailedClosed)
    case Done(o) => Done(o)
  }

  /** What the step makes happen. */
  function Effects(now: int, moment: nat, id: nat, j: Job, a: Answer): seq<Fact> {
    if Question(j).Some? then
      if Binary(a) then [Checked(id, Question(j).value, a == Yes)] else []
    else if AsksExistence(j.stage) then
      if Binary(a) then [Found(id, j.repo, a == Yes, moment)] else []
    else match j.stage
    case PushedBlob => if a == No then [UploadMissing(id, j.repo, BlobOf(j.kind), now)] else []
    case Uploaded => if a == No then [UploadMissing(id, j.repo, BlobOf(j.kind), now)] else []
    case PushOwner =>
      if a == Yes then [GrantSeen(id, j.repo, j.subject, now)]
      else if a == No then [GrantMissing(id, j.repo, j.subject, now)]
      else []
    case Scan(since) =>
      if Binary(a) then [Scanned(ScopeRepo(j), BlobOf(j.kind), a == Yes, now, since, moment + 1)] else []
    case Engine(_) =>
      if !a.Status? then []
      else if Success2xx(a.code) && j.kind.Finalize? then
        [Captured(id, j.repo, j.kind.digest, now), Answered(id, a.code)]
      else if Success2xx(a.code) && j.kind.PutManifest? then
        [Published(id, j.repo, j.subject, now), Answered(id, a.code)]
      else
        [Answered(id, a.code)]
    case RecordUpload(_) =>
      if a == Failed then [] else [UploadRecorded(id, j.repo, BlobOf(j.kind), now)]
    case RecordGrant(_, _) =>
      (if a == Failed then [] else [GrantRecorded(id, j.repo, j.subject, now)])
      + (if a == Yes then [] else [GrantFailed(id)])
    case Register(_) =>
      (if a == Failed then [] else [Registered(id, j.repo, j.subject)])
      + (if a == Yes then [] else [RegisterFailed(id)])
    case _ => []
  }

  function News(now: int, moment: nat, id: nat, j: Job, a: Answer): seq<Fact> {
    Effects(now, moment, id, j, a) +
    if Next(j.kind, j.stage, a, moment) == Done(Forwarded) then [ForwardedAt(id, now)] else []
  }

  /** The index of the present in the history. */
  function Moment(p: Plane): nat {
    if p.history == [] then 0 else |p.history| - 1
  }

  /** The request after an answer, and what has happened with it. */
  function Moved(p: Plane, id: nat, a: Answer): Job
    requires id in p.jobs
  {
    p.jobs[id].(stage := Next(p.jobs[id].kind, p.jobs[id].stage, a, Moment(p)))
  }

  function NewsOf(p: Plane, id: nat, a: Answer): seq<Fact>
    requires id in p.jobs
  {
    News(p.now, Moment(p), id, p.jobs[id], a)
  }

  /** A published manifest shows under its tag; one put by digest only is not listed. */
  predicate Publishes(j: Job, a: Answer) {
    j.stage.Engine? && a.Status? && Success2xx(a.code) && j.kind.PutManifest? && j.kind.tag.Some?
  }

  function WithTag(contents: Contents, repo: Repo, tag: string, manifest: BlobScan.Manifest): Contents {
    contents[repo := ContentOf(contents, repo)[tag := manifest]]
  }

  ghost predicate Enabled(p: Plane, s: Step) {
    match s
    case Arrive(id, _, _, _) => id !in p.jobs
    case Advance(id, a) => id in p.jobs && Permitted(p, p.jobs[id], a)
    case Tick(now) => p.now <= now
    case Change(_) => true
    case Drop(repo, subject) => (repo, subject) in p.drops
  }

  function Apply(p: Plane, s: Step): Plane {
    match s
    case Arrive(id, kind, repo, subject) =>
      p.(jobs := p.jobs[id := Job(kind, repo, subject, FirstStage(kind))])
    case Advance(id, a) =>
      if id !in p.jobs then p else
      var j := p.jobs[id];
      p.(jobs := p.jobs[id := Moved(p, id, a)],
         facts := p.facts + NewsOf(p, id, a),
         history := if Publishes(j, a) && p.history != []
                    then p.history + [WithTag(p.history[Moment(p)], j.repo, j.kind.tag.value, j.kind.manifest)]
                    else p.history,
         verdicts := if j.stage.Scan? && Binary(a)
                     then p.verdicts[(ScopeRepo(j), BlobOf(j.kind)) := Stamp(a == Yes, p.now)] else p.verdicts,
         drops := if j.stage.CheckRead? && a == Yes then p.drops + {(j.repo, j.subject)} else p.drops)
    case Tick(now) => p.(now := now)
    case Change(contents) => p.(history := p.history + [contents])
    case Drop(repo, subject) => p.(facts := p.facts + [GrantDeleted(repo, subject)])
  }

  ghost predicate Runs(p: Plane, steps: seq<Step>, q: Plane)
    decreases |steps|
  {
    if steps == [] then q == p
    else Enabled(p, steps[0]) && Runs(Apply(p, steps[0]), steps[1..], q)
  }

  function Start(limits: Limits, now: int, contents: Contents): Plane {
    Plane(limits, now, [contents], [], map[], {}, map[])
  }

  /** A scan's answer serves later requests from the cache. */
  lemma ScanIsCached(p: Plane, id: nat, a: Answer)
    requires id in p.jobs && p.jobs[id].stage.Scan? && Binary(a) && 0 < p.limits.cacheTtl
    ensures CacheMayAnswer(Apply(p, Advance(id, a)), (ScopeRepo(p.jobs[id]), BlobOf(p.jobs[id].kind)), a == Yes)
  {
  }

  /** A manifest put by tag is what its tag points at, and nothing else changes. */
  lemma PublishShows(p: Plane, id: nat, a: Answer, repo: Repo, tag: string)
    requires id in p.jobs && Publishes(p.jobs[id], a) && p.history != []
    ensures var before := p.history[Moment(p)];
            var q := Apply(p, Advance(id, a));
            var after := q.history[Moment(q)];
            if repo == p.jobs[id].repo && tag == p.jobs[id].kind.tag.value
            then tag in ContentOf(after, repo) && ContentOf(after, repo)[tag] == p.jobs[id].kind.manifest
            else (tag in ContentOf(after, repo) <==> tag in ContentOf(before, repo))
                 && (tag in ContentOf(after, repo) ==> ContentOf(after, repo)[tag] == ContentOf(before, repo)[tag])
  {
  }
}
