/** The bounded concurrent scan that decides whether a blob belongs to a repository.

    One loop launches a fetch for every listed tag, at most eight at a time; the fetches, the
    caller's cancellation and changes to the repository itself interleave in any order. */
module BlobScan {
  import opened Common

  type Digest = string
  type Tag = string

  const CONCURRENCY := 8

  datatype Manifest = Manifest(config: Digest, layers: seq<Digest>)

  /** The manifests a repository has, by tag. */
  type Content = map<Tag, Manifest>

  predicate Holds(m: Manifest, digest: Digest) {
    m.config == digest || digest in m.layers
  }

  method ManifestHasDigest(m: Manifest, digest: Digest) returns (r: bool)
    ensures r <==> Holds(m, digest)
  {
    if m.config == digest {
      return true;
    }
    for i := 0 to |m.layers|
      invariant digest !in m.layers[..i]
    {
      if m.layers[i] == digest {
        return true;
      }
    }
    return false;
  }

  /** What one fetch came back with. */
  datatype Reading = Skipped | Read(manifest: Manifest) | Gone | Broken(error: Error)

  datatype Task = Unlaunched | Launched | Fetching | Returned(reading: Reading) | Finished(reading: Reading) {
    /** Holds one of the eight slots. */
    predicate Occupies() {
      Launched? || Fetching? || Returned?
    }
    predicate Has(r: Reading) {
      this == Returned(r) || this == Finished(r)
    }
    function Weight(): nat {
      match this
      case Unlaunched => 4
      case Launched => 3
      case Fetching => 2
      case Returned(_) => 1
      case Finished(_) => 0
    }
  }

  /** Where the launching loop is: before a tag's checks, past them, or waiting for the group. */
  datatype Loop = Checking | Launching | Joining | Concluded

  datatype Verdict = Verdict(answer: Result<bool, Error>, cacheable: bool)

  function BlobScopeVerdict(found: bool, failed: Option<Error>, scannedAll: bool): Verdict {
    if found then Verdict(Success(true), true)
    else if failed.Some? then Verdict(Failure(failed.value), false)
    else if !scannedAll then Verdict(Failure(Unavailable), false)
    else Verdict(Success(false), true)
  }

  datatype Scan = Scan(
    digest: Digest,
    tags: seq<Tag>,
    tasks: seq<Task>,
    loop: Loop,
    next: nat,
    slots: nat,
    found: bool,
    failed: Option<Error>,
    cancelled: bool,
    scannedAll: bool,
    past: seq<Content>,
    verdict: Option<Verdict>)
  {
    /** The context of the fetches ends with the caller's or with the first failure. */
    predicate ContextDone() {
      cancelled || failed.Some?
    }
  }

  datatype Move =
    | Check
    | Launch
    | Start(i: nat)
    | Fetch(i: nat)
    | FetchFails(i: nat, error: Error)
    | Release(i: nat)
    | Conclude
    | Cancel
    | Change(content: Content)
  {
    predicate ByEnvironment() {
      Cancel? || Change?
    }
  }

  /** A scan starts from a listing of the repository's tags. */
  ghost predicate Begins(s: Scan, digest: Digest, content: Content) {
    && s == Scan(digest, s.tags, seq(|s.tags|, _ => Unlaunched), Checking,
                 0, 0, false, None, false, true, [content], None)
    && forall t :: t in s.tags <==> t in content
  }

  predicate Enabled(s: Scan, m: Move) {
    match m
    case Check => s.loop == Checking
    case Launch => s.loop == Launching && s.slots < CONCURRENCY && s.next < |s.tasks|
    case Start(i) => i < |s.tasks| && s.tasks[i] == Launched
    case Fetch(i) => i < |s.tasks| && i < |s.tags| && s.tasks[i] == Fetching && s.past != []
    case FetchFails(i, _) => i < |s.tasks| && s.tasks[i] == Fetching
    case Release(i) => i < |s.tasks| && s.tasks[i].Returned? && s.slots > 0
    case Conclude => s.loop == Joining && s.slots == 0
    case Cancel => true
    case Change(_) => true
  }

  function Answer(content: Content, tag: Tag): Reading {
    if tag in content then Read(content[tag]) else Gone
  }

  predicate Matches(r: Reading, digest: Digest) {
    r.Read? && Holds(r.manifest, digest)
  }

  function Apply(s: Scan, m: Move): Scan
    requires Enabled(s, m)
  {
    match m
    case Check =>
      if s.next >= |s.tasks| || s.found then s.(loop := Joining)
      else if s.ContextDone() then s.(loop := Joining, scannedAll := false)
      else s.(loop := Launching)
    case Launch =>
      s.(loop := Checking, next := s.next + 1, slots := s.slots + 1, tasks := s.tasks[s.next := Launched])
    case Start(i) =>
      s.(tasks := s.tasks[i := if s.found then Returned(Skipped) else Fetching])
    case Fetch(i) =>
      var r := Answer(s.past[|s.past| - 1], s.tags[i]);
      s.(tasks := s.tasks[i := Returned(r)], found := s.found || Matches(r, s.digest))
    case FetchFails(i, e) =>
      s.(tasks := s.tasks[i := Returned(Broken(e))])
    case Release(i) =>
      var r := s.tasks[i].reading;
      s.(tasks := s.tasks[i := Finished(r)], slots := s.slots - 1,
         failed := if r.Broken? && s.failed.None? then Some(r.error) else s.failed)
    case Conclude =>
      s.(loop := Concluded, verdict := Some(BlobScopeVerdict(s.found, s.failed, s.scannedAll)))
    case Cancel => s.(cancelled := true)
    case Change(content) => s.(past := s.past + [content])
  }

  /** Performing the moves one after the other leads from s to t. */
  ghost predicate Leads(s: Scan, moves: seq<Move>, t: Scan)
    decreases |moves|
  {
    if moves == [] then t == s
    else Enabled(s, moves[0]) && Leads(Apply(s, moves[0]), moves[1..], t)
  }

  // ---- what every step keeps ----

  function Occupied(tasks: seq<Task>): set<nat> {
    set i: nat | i < |tasks| && tasks[i].Occupies()
  }

  ghost predicate Shape(s: Scan) {
    && |s.tasks| == |s.tags| && s.next <= |s.tasks| && s.past != []
    && (s.loop == Launching ==> s.next < |s.tasks|)
    && (forall i :: 0 <= i < |s.tasks| ==> (s.tasks[i].Unlaunched? <==> i >= s.next))
  }

  ghost predicate Slots(s: Scan) {
    s.slots == |Occupied(s.tasks)| <= CONCURRENCY
  }

  ghost predicate SomeMatch(s: Scan) {
    exists i, r :: 0 <= i < |s.tasks| && s.tasks[i].Has(r) && Matches(r, s.digest)
  }

  ghost predicate FoundIffMatch(s: Scan) {
    && (s.found <==> SomeMatch(s))
    && forall i :: 0 <= i < |s.tasks| && s.tasks[i].Has(Skipped) ==> s.found
  }

  ghost predicate FailureRecorded(s: Scan) {
    && (s.failed.Some? ==> exists i :: 0 <= i < |s.tasks| && s.tasks[i].Has(Broken(s.failed.value)))
    && (s.failed.None? ==> forall i, e :: 0 <= i < |s.tasks| ==> s.tasks[i] != Finished(Broken(e)))
  }

  ghost predicate LoopEndJustified(s: Scan) {
    && (!s.scannedAll ==> s.ContextDone())
    && (s.loop.Joining? || s.loop.Concluded? ==> s.found || !s.scannedAll || s.next == |s.tasks|)
  }

  /** At some moment of the scan the repository answered the tag with r. */
  ghost predicate Observed(past: seq<Content>, tag: Tag, r: Reading) {
    exists k :: 0 <= k < |past| && Answer(past[k], tag) == r
  }

  ghost predicate ReadingsObserved(s: Scan) {
    |s.tasks| <= |s.tags| &&
    forall i, r :: 0 <= i < |s.tasks| && s.tasks[i].Has(r) && (r.Read? || r.Gone?) ==> Observed(s.past, s.tags[i], r)
  }

  ghost predicate VerdictGiven(s: Scan) {
    && (s.verdict.Some? <==> s.loop.Concluded?)
    && (s.verdict.Some? ==> s.slots == 0 && s.verdict.value == BlobScopeVerdict(s.found, s.failed, s.scannedAll))
  }

  ghost predicate Inv(s: Scan) {
    && Shape(s) && Slots(s) && FoundIffMatch(s) && FailureRecorded(s)
    && LoopEndJustified(s) && ReadingsObserved(s) && VerdictGiven(s)
  }

  lemma BeginsInv(s: Scan, digest: Digest, content: Content)
    requires Begins(s, digest, content)
    ensures Inv(s)
  {
    assert Occupied(s.tasks) == {};
  }

  lemma OccupiedUpdate(tasks: seq<Task>, i: nat, t: Task)
    requires i < |tasks|
    ensures |Occupied(tasks[i := t])|
         == |Occupied(tasks)| - (if tasks[i].Occupies() then 1 else 0) + if t.Occupies() then 1 else 0
  {
    var rest := set j: nat | j < |tasks| && j != i && tasks[j].Occupies();
    assert Occupied(tasks) == if tasks[i].Occupies() then rest + {i} else rest;
    var after := tasks[i := t];
    assert Occupied(after) == if t.Occupies() then rest + {i} else rest;
  }

  lemma NoOccupied(tasks: seq<Task>)
    requires |Occupied(tasks)| == 0
    ensures forall i :: 0 <= i < |tasks| ==> !tasks[i].Occupies()
  {
    assert Occupied(tasks) == {};
    assert forall i: nat :: i < |tasks| && tasks[i].Occupies() ==> i in Occupied(tasks);
  }

  /** While a task holds a slot, the group has not been joined. */
  lemma StillRunning(s: Scan, i: nat)
    requires Slots(s) && VerdictGiven(s) && i < |s.tasks| && s.tasks[i].Occupies()
    ensures s.slots > 0 && s.verdict.None?
  {
    assert i in Occupied(s.tasks);
  }

  lemma StepKeepsSlots(s: Scan, m: Move)
    requires Shape(s) && Slots(s) && Enabled(s, m)
    ensures Slots(Apply(s, m))
  {
    if m.Launch? || m.Start? || m.Fetch? || m.FetchFails? || m.Release? {
      var i := if m.Launch? then s.next else m.i;
      var t := Apply(s, m);
      OccupiedUpdate(s.tasks, i, t.tasks[i]);
      assert t.tasks == s.tasks[i := t.tasks[i]];
    }
  }

  lemma StepKeepsShape(s: Scan, m: Move)
    requires Shape(s) && Enabled(s, m)
    ensures Shape(Apply(s, m))
  {
  }

  lemma StepKeepsVerdict(s: Scan, m: Move)
    requires Shape(s) && Slots(s) && VerdictGiven(s) && Enabled(s, m)
    ensures VerdictGiven(Apply(s, m))
  {
    if m.Start? || m.Fetch? || m.FetchFails? || m.Release? {
      StillRunning(s, m.i);
    }
  }

  lemma MatchSurvives(s: Scan, t: Scan, i: nat)
    requires |t.tasks| == |s.tasks| && t.digest == s.digest && i < |s.tasks| && SomeMatch(s)
    requires forall j :: 0 <= j < |s.tasks| && j != i ==> t.tasks[j] == s.tasks[j]
    requires s.tasks[i].Unlaunched? || s.tasks[i].Launched? || s.tasks[i].Fetching?
             || (s.tasks[i].Returned? && t.tasks[i] == Finished(s.tasks[i].reading))
    ensures SomeMatch(t)
  {
    var j, r :| 0 <= j < |s.tasks| && s.tasks[j].Has(r) && Matches(r, s.digest);
    assert t.tasks[j].Has(r);
  }

  lemma StepKeepsFound(s: Scan, m: Move)
    requires Inv(s) && Enabled(s, m)
    ensures FoundIffMatch(Apply(s, m))
  {
    var t := Apply(s, m);
    if m.Launch? || m.Start? || m.Fetch? || m.FetchFails? || m.Release? {
      var i := if m.Launch? then s.next else m.i;
      if SomeMatch(s) {
        MatchSurvives(s, t, i);
      }
      if m.Fetch? {
        assert t.tasks[i].Has(Answer(s.past[|s.past| - 1], s.tags[i]));
      }
      if SomeMatch(t) {
        var j, r :| 0 <= j < |t.tasks| && t.tasks[j].Has(r) && Matches(r, t.digest);
        assert j != i || m.Release? ==> s.tasks[j].Has(r);
      }
    }
  }

  lemma StepKeepsFailure(s: Scan, m: Move)
    requires Inv(s) && Enabled(s, m)
    ensures FailureRecorded(Apply(s, m))
  {
    var t := Apply(s, m);
    if s.failed.Some? {
      var i :| 0 <= i < |s.tasks| && s.tasks[i].Has(Broken(s.failed.value));
      assert t.tasks[i].Has(Broken(s.failed.value));
    } else if t.failed.Some? {
      assert t.tasks[m.i].Has(Broken(t.failed.value));
    }
  }

  lemma StepKeepsLoopEnd(s: Scan, m: Move)
    requires Inv(s) && Enabled(s, m)
    ensures LoopEndJustified(Apply(s, m))
  {
  }

  lemma ObservedSurvives(past: seq<Content>, content: Content, tag: Tag, r: Reading)
    requires Observed(past, tag, r)
    ensures Observed(past + [content], tag, r)
  {
    var k :| 0 <= k < |past| && Answer(past[k], tag) == r;
    assert (past + [content])[k] == past[k];
  }

  lemma StepKeepsObserved(s: Scan, m: Move)
    requires Inv(s) && Enabled(s, m)
    ensures ReadingsObserved(Apply(s, m))
  {
    var t := Apply(s, m);
    forall i, r | 0 <= i < |t.tasks| && t.tasks[i].Has(r) && (r.Read? || r.Gone?)
      ensures Observed(t.past, t.tags[i], r)
    {
      if m == Fetch(i) {
        assert Answer(s.past[|s.past| - 1], s.tags[i]) == r;
      } else {
        assert s.tasks[i].Has(r);
        if m.Change? {
          ObservedSurvives(s.past, m.content, s.tags[i], r);
        }
      }
    }
  }

  lemma StepKeepsInv(s: Scan, m: Move)
    requires Inv(s) && Enabled(s, m)
    ensures Inv(Apply(s, m))
  {
    StepKeepsShape(s, m);
    StepKeepsSlots(s, m);
    StepKeepsVerdict(s, m);
    StepKeepsFound(s, m);
    StepKeepsFailure(s, m);
    StepKeepsLoopEnd(s, m);
    StepKeepsObserved(s, m);
  }

  lemma StepKeepsTags(s: Scan, m: Move)
    requires Enabled(s, m)
    ensures Apply(s, m).digest == s.digest && Apply(s, m).tags == s.tags && s.past <= Apply(s, m).past
  {
  }

  lemma {:induction false} LeadsKeepsInv(s: Scan, moves: seq<Move>, t: Scan)
    requires Inv(s) && Leads(s, moves, t)
    ensures Inv(t) && t.digest == s.digest && t.tags == s.tags && s.past <= t.past
    decreases |moves|
  {
    if moves != [] {
      StepKeepsInv(s, moves[0]);
      StepKeepsTags(s, moves[0]);
      LeadsKeepsInv(Apply(s, moves[0]), moves[1..], t);
    }
  }

  // ---- what a verdict means ----

  /** Never more than eight fetches are under way, whatever the schedule. */
  lemma AtMostEightFetches(s: Scan, digest: Digest, content: Content, moves: seq<Move>, t: Scan)
    requires Begins(s, digest, content) && Leads(s, moves, t)
    ensures |Occupied(t.tasks)| <= 8
  {
    BeginsInv(s, digest, content);
    LeadsKeepsInv(s, moves, t);
  }

  /** And eight there are, when there are tags enough and nothing stops the loop. */
  lemma EightFetchesAtOnce(s: Scan, digest: Digest, content: Content) returns (moves: seq<Move>, t: Scan)
    requires Begins(s, digest, content) && |s.tags| >= 8
    ensures Leads(s, moves, t) && |Occupied(t.tasks)| == 8
  {
    BeginsInv(s, digest, content);
    moves, t := LaunchMore(s, 8);
    LeadsKeepsInv(s, moves, t);
  }

  lemma {:induction false} LaunchMore(s: Scan, n: nat) returns (moves: seq<Move>, t: Scan)
    requires Inv(s) && s.loop.Checking? && !s.found && !s.ContextDone()
    requires s.slots + n <= 8 && s.next + n <= |s.tasks|
    ensures Leads(s, moves, t) && t.slots == s.slots + n
    decreases n
  {
    if n == 0 {
      return [], s;
    }
    var checked := Apply(s, Check);
    StepKeepsInv(s, Check);
    StepKeepsInv(checked, Launch);
    var rest;
    rest, t := LaunchMore(Apply(checked, Launch), n - 1);
    moves := [Check, Launch] + rest;
    assert moves[1..] == [Launch] + rest && moves[1..][1..] == rest;
  }

  /** The answer was true for the tag at some moment of the scan. */
  ghost predicate SeenWith(past: seq<Content>, tag: Tag, digest: Digest) {
    exists k :: 0 <= k < |past| && tag in past[k] && Holds(past[k][tag], digest)
  }

  /** At some moment of the scan the tag was absent or its manifest lacked the digest. */
  ghost predicate SeenWithout(past: seq<Content>, tag: Tag, digest: Digest) {
    exists k :: 0 <= k < |past| && (tag !in past[k] || !Holds(past[k][tag], digest))
  }

  /** A verdict, whatever the schedule and however the repository changed meanwhile:
      true when and only when some fetched manifest has the digest, even if other fetches
      failed; false only after every listed tag was read without a match or had vanished;
      anything else is an error and is not cacheable. */
  lemma VerdictIsRight(s: Scan, digest: Digest, content: Content, moves: seq<Move>, t: Scan)
    requires Begins(s, digest, content) && Leads(s, moves, t) && t.verdict.Some?
    ensures t.verdict.value.cacheable <==> t.verdict.value.answer.Success?
    ensures t.verdict.value.answer == Success(true) <==> SomeMatch(t)
    ensures t.verdict.value.answer == Success(true) ==>
              exists tag :: tag in s.tags && SeenWith(t.past, tag, digest)
    ensures t.verdict.value.answer == Success(false) ==>
              && (forall i :: 0 <= i < |t.tasks| ==>
                    t.tasks[i].Finished? && (t.tasks[i].reading.Read? || t.tasks[i].reading.Gone?))
              && (forall tag <- s.tags :: SeenWithout(t.past, tag, digest))
    ensures t.verdict.value.answer.Failure? ==>
              t.cancelled || exists i :: 0 <= i < |t.tasks| && t.tasks[i].Has(Broken(t.verdict.value.answer.error))
  {
    BeginsInv(s, digest, content);
    LeadsKeepsInv(s, moves, t);
    NoOccupied(t.tasks);
    if SomeMatch(t) {
      MatchWasSeen(t);
    } else if t.verdict.value.answer == Success(false) {
      forall i | 0 <= i < |t.tasks|
        ensures t.tasks[i].Finished? && (t.tasks[i].reading.Read? || t.tasks[i].reading.Gone?)
      {
        assert !t.tasks[i].Has(Skipped) && t.tasks[i].Finished?;
      }
      forall tag <- s.tags ensures SeenWithout(t.past, tag, digest) {
        AbsenceWasSeen(t, tag);
      }
    }
  }

  lemma MatchWasSeen(t: Scan)
    requires ReadingsObserved(t) && SomeMatch(t)
    ensures exists tag :: tag in t.tags && SeenWith(t.past, tag, t.digest)
  {
    var i, r :| 0 <= i < |t.tasks| && t.tasks[i].Has(r) && Matches(r, t.digest);
    var k :| 0 <= k < |t.past| && Answer(t.past[k], t.tags[i]) == r;
    assert t.tags[i] in t.tags && SeenWith(t.past, t.tags[i], t.digest);
  }

  lemma AbsenceWasSeen(t: Scan, tag: Tag)
    requires Shape(t) && ReadingsObserved(t) && !SomeMatch(t) && tag in t.tags
    requires forall i :: 0 <= i < |t.tasks| ==>
               t.tasks[i].Finished? && (t.tasks[i].reading.Read? || t.tasks[i].reading.Gone?)
    ensures SeenWithout(t.past, tag, t.digest)
  {
    var i :| 0 <= i < |t.tags| && t.tags[i] == tag;
    var r := t.tasks[i].reading;
    assert t.tasks[i].Has(r);
    var k :| 0 <= k < |t.past| && Answer(t.past[k], tag) == r;
    assert !Matches(r, t.digest);
    assert tag !in t.past[k] || !Holds(t.past[k][tag], t.digest);
  }

  /** On a repository nobody changes meanwhile, the answer is exactly whether some tag's
      manifest has the digest. */
  lemma QuietVerdictIsExact(s: Scan, digest: Digest, content: Content, moves: seq<Move>, t: Scan)
    requires Begins(s, digest, content) && Leads(s, moves, t) && t.verdict.Some? && t.verdict.value.answer.Success?
    requires forall k :: 0 <= k < |t.past| ==> t.past[k] == content
    ensures t.verdict.value.answer.value <==> exists tag :: tag in content && Holds(content[tag], digest)
  {
    VerdictIsRight(s, digest, content, moves, t);
    if t.verdict.value.answer.value {
      var tag :| tag in s.tags && SeenWith(t.past, tag, digest);
    } else {
      forall tag <- content ensures !Holds(content[tag], digest) {
        assert tag in s.tags;
        assert SeenWithout(t.past, tag, digest);
      }
    }
  }

  // ---- stopping early ----

  /** Once the blob is found, a fetch has failed or the caller is gone, no tag is launched any more except
      one already past its checks; and once the blob is found no fetch starts. */
  lemma {:induction false} ScanStopsEarly(s: Scan, moves: seq<Move>, t: Scan)
    requires Inv(s) && Leads(s, moves, t) && (s.found || s.ContextDone())
    ensures t.next <= s.next + if s.loop.Launching? then 1 else 0
    ensures s.found ==> forall i :: 0 <= i < |t.tasks| && t.tasks[i].Fetching? ==> i < |s.tasks| && s.tasks[i].Fetching?
    decreases |moves|
  {
    if moves != [] {
      StepKeepsInv(s, moves[0]);
      StepStopsEarly(s, moves[0]);
      ScanStopsEarly(Apply(s, moves[0]), moves[1..], t);
    }
  }

  lemma StepStopsEarly(s: Scan, m: Move)
    requires Shape(s) && Enabled(s, m) && (s.found || s.ContextDone())
    ensures var t := Apply(s, m);
            && (t.found || t.ContextDone())
            && t.next + (if t.loop.Launching? then 1 else 0) <= s.next + (if s.loop.Launching? then 1 else 0)
            && (s.found ==> t.found && forall i :: 0 <= i < |t.tasks| && t.tasks[i].Fetching? ==> s.tasks[i].Fetching?)
  {
  }

  /** The first failure is the one that is reported. */
  lemma {:induction false} FirstFailureIsReported(s: Scan, moves: seq<Move>, t: Scan)
    requires Inv(s) && Leads(s, moves, t) && s.failed.Some?
    ensures t.failed == s.failed
    ensures t.verdict.Some? ==>
              t.verdict.value.answer == Failure(s.failed.value) || t.verdict.value.answer == Success(true)
    decreases |moves|
  {
    if moves != [] {
      StepKeepsInv(s, moves[0]);
      FirstFailureIsReported(Apply(s, moves[0]), moves[1..], t);
    }
  }

  // ---- progress ----

  function Total(tasks: seq<Task>): nat {
    if tasks == [] then 0 else tasks[0].Weight() + Total(tasks[1..])
  }

  lemma {:induction false} TotalUpdate(tasks: seq<Task>, i: nat, t: Task)
    requires i < |tasks|
    ensures Total(tasks[i := t]) == Total(tasks) - tasks[i].Weight() + t.Weight()
  {
    if i == 0 {
      assert tasks[0 := t][1..] == tasks[1..];
    } else {
      assert tasks[i := t][1..] == tasks[1..][i - 1 := t];
      TotalUpdate(tasks[1..], i - 1, t);
    }
  }

  /** How many steps the scan can still take. */
  function Remaining(s: Scan): int {
    Total(s.tasks) + 2 * (|s.tasks| - s.next)
    + match s.loop { case Checking => 3 case Launching => 2 case Joining => 1 case Concluded => 0 }
  }

  /** Every step of the scan itself brings it closer to its verdict. */
  lemma StepsDecrease(s: Scan, m: Move)
    requires Shape(s) && Enabled(s, m)
    ensures 0 <= Remaining(Apply(s, m))
    ensures if m.ByEnvironment() then Remaining(Apply(s, m)) == Remaining(s) else Remaining(Apply(s, m)) < Remaining(s)
  {
    StepKeepsShape(s, m);
    if m.Launch? || m.Start? || m.Fetch? || m.FetchFails? || m.Release? {
      var i := if m.Launch? then s.next else m.i;
      var t := Apply(s, m);
      TotalUpdate(s.tasks, i, t.tasks[i]);
      assert t.tasks == s.tasks[i := t.tasks[i]];
    }
  }

  /** Until there is a verdict the scan itself can always take a step: it never deadlocks. */
  lemma NeverStuck(s: Scan)
    requires Inv(s) && s.verdict.None?
    ensures exists m: Move :: Enabled(s, m) && !m.ByEnvironment()
  {
    if s.slots > 0 {
      var i :| i in Occupied(s.tasks);
      assert Enabled(s, Start(i)) || Enabled(s, FetchFails(i, Unavailable)) || Enabled(s, Release(i));
    } else {
      assert Enabled(s, Check) || Enabled(s, Launch) || Enabled(s, Conclude);
    }
  }

  ghost function ScanMoves(moves: seq<Move>): nat {
    if moves == [] then 0 else (if moves[0].ByEnvironment() then 0 else 1) + ScanMoves(moves[1..])
  }

  /** A scan of n tags reaches its verdict within 6n + 3 steps of its own under every schedule
      that keeps letting it move. */
  lemma ScanTerminates(s: Scan, digest: Digest, content: Content, moves: seq<Move>, t: Scan)
    requires Begins(s, digest, content) && Leads(s, moves, t)
    ensures ScanMoves(moves) <= 6 * |s.tags| + 3
    ensures ScanMoves(moves) == 6 * |s.tags| + 3 ==> t.verdict.Some?
    ensures t.verdict.None? ==> exists m: Move :: Enabled(t, m) && !m.ByEnvironment()
  {
    BeginsInv(s, digest, content);
    LeadsKeepsInv(s, moves, t);
    AllUnlaunched(s.tasks);
    MovesBounded(s, moves, t);
    if t.verdict.None? {
      NeverStuck(t);
    }
  }

  lemma {:induction false} AllUnlaunched(tasks: seq<Task>)
    requires forall i :: 0 <= i < |tasks| ==> tasks[i] == Unlaunched
    ensures Total(tasks) == 4 * |tasks|
  {
    if tasks != [] {
      AllUnlaunched(tasks[1..]);
    }
  }

  lemma {:induction false} MovesBounded(s: Scan, moves: seq<Move>, t: Scan)
    requires Inv(s) && Leads(s, moves, t)
    ensures 0 <= Remaining(t) && ScanMoves(moves) + Remaining(t) <= Remaining(s)
    decreases |moves|
  {
    if moves != [] {
      StepKeepsInv(s, moves[0]);
      StepsDecrease(s, moves[0]);
      MovesBounded(Apply(s, moves[0]), moves[1..], t);
    }
  }

  // ---- what a caller learns from an answer ----

  /** A scan that lists the tags of one of these contents and runs while the repository goes through the
      later ones can end with this answer. */
  ghost predicate Answers(contents: seq<Content>, digest: Digest, answer: bool) {
    exists k, s, moves, t :: 0 <= k < |contents| && ScanOver(contents[k..], digest, s, moves, t)
                             && t.verdict.value.answer == Success(answer)
  }

  ghost predicate ScanOver(contents: seq<Content>, digest: Digest, s: Scan, moves: seq<Move>, t: Scan) {
    contents != [] && Begins(s, digest, contents[0]) && Leads(s, moves, t) && t.past == contents && t.verdict.Some?
  }

  /** At some moment some tag's manifest held the digest. */
  ghost predicate HeldBySome(contents: seq<Content>, digest: Digest) {
    exists m, tag :: 0 <= m < |contents| && tag in contents[m] && Holds(contents[m][tag], digest)
  }

  /** At some moment, of each tag there was then: it was absent or its manifest lacked the digest, then or
      later. */
  ghost predicate LackedByAll(contents: seq<Content>, digest: Digest) {
    exists k :: 0 <= k < |contents| && forall tag <- contents[k] :: SeenWithout(contents[k..], tag, digest)
  }

  /** An answer is about the repository: a true one means the digest was in one of its manifests, a false
      one that every tag listed was seen without it. */
  lemma AnswersAreTrue(contents: seq<Content>, digest: Digest, answer: bool)
    requires Answers(contents, digest, answer)
    ensures if answer then HeldBySome(contents, digest) else LackedByAll(contents, digest)
  {
    var k, s, moves, t :| 0 <= k < |contents| && ScanOver(contents[k..], digest, s, moves, t)
                          && t.verdict.value.answer == Success(answer);
    VerdictIsRight(s, digest, contents[k], moves, t);
    if answer {
      var tag :| tag in s.tags && SeenWith(t.past, tag, digest);
      var m :| 0 <= m < |t.past| && tag in t.past[m] && Holds(t.past[m][tag], digest);
      assert contents[k..][m] == contents[k + m];
    } else {
      assert forall tag <- contents[k] :: tag in s.tags;
    }
  }

  /** Nothing has failed and nobody has given up. */
  ghost predicate Clean(s: Scan) {
    && Inv(s) && s.failed.None? && !s.cancelled && s.scannedAll
    && forall i, e :: 0 <= i < |s.tasks| ==> s.tasks[i] != Returned(Broken(e))
  }

  /** A scan whose fetches succeed ends with an answer. */
  lemma {:induction false} CleanScanAnswers(s: Scan) returns (moves: seq<Move>, t: Scan)
    requires Clean(s) && s.verdict.None?
    ensures Leads(s, moves, t) && t.past == s.past && t.verdict.Some? && t.verdict.value.answer.Success?
    decreases Remaining(s)
  {
    var move := CleanMove(s);
    var next := Apply(s, move);
    StepKeepsInv(s, move);
    StepsDecrease(s, move);
    CleanStaysClean(s, move);
    if next.verdict.Some? {
      moves, t := [move], next;
      assert Leads(next, moves[1..], t);
    } else {
      var rest;
      rest, t := CleanScanAnswers(next);
      moves := [move] + rest;
      assert moves[1..] == rest;
    }
  }

  lemma CleanMove(s: Scan) returns (m: Move)
    requires Clean(s) && s.verdict.None?
    ensures Enabled(s, m) && !m.ByEnvironment() && !m.FetchFails?
  {
    if s.slots > 0 {
      var i :| i in Occupied(s.tasks);
      m := if s.tasks[i].Launched? then Start(i) else if s.tasks[i].Fetching? then Fetch(i) else Release(i);
    } else {
      m := if s.loop.Checking? then Check else if s.loop.Launching? then Launch else Conclude;
    }
  }

  lemma CleanStaysClean(s: Scan, m: Move)
    requires Clean(s) && Enabled(s, m) && !m.ByEnvironment() && !m.FetchFails? && Inv(Apply(s, m))
    ensures Clean(Apply(s, m)) && Apply(s, m).past == s.past
    ensures Apply(s, m).verdict.Some? ==> s.verdict == Apply(s, m).verdict || Apply(s, m).verdict.value.answer.Success?
  {
  }

  lemma {:induction false} Listing(content: Content) returns (tags: seq<Tag>)
    ensures forall t :: t in tags <==> t in content
    decreases |content|
  {
    tags := [];
    if content != map[] {
      var tag :| tag in content;
      var fewer := content - {tag};
      assert fewer.Keys == content.Keys - {tag};
      tags := Listing(fewer);
      tags := tags + [tag];
    }
  }

  /** There is always an answer to be had. */
  lemma SomeAnswer(contents: seq<Content>, digest: Digest) returns (answer: bool)
    requires contents != []
    ensures Answers(contents, digest, answer)
  {
    var k := |contents| - 1;
    var tags := Listing(contents[k]);
    var s := Scan(digest, tags, seq(|tags|, _ => Unlaunched), Checking,
                  0, 0, false, None, false, true, [contents[k]], None);
    BeginsInv(s, digest, contents[k]);
    var moves, t := CleanScanAnswers(s);
    assert contents[k..] == [contents[k]];
    assert ScanOver(contents[k..], digest, s, moves, t);
    answer := t.verdict.value.answer.value;
  }
}
