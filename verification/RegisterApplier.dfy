/** Applying one outbox row to the authorisation peer, tuple by tuple and at least once. */
module RegisterApplier {
  import opened Common
  import opened FgaIntents
  import opened RegistryStore
  import opened UseCases
  import opened OutboxOrder
  import opened OutboxFold

  // Status codes of the remote call.
  const OK := 0
  const INVALID_ARGUMENT := 3
  const ALREADY_EXISTS := 6

  /** How the peer treats one call: it serves it (an already satisfied request may be answered
      with a duplicate error), rejects it as malformed, or fails, possibly after applying it, with
      some other status or with none at all. */
  datatype Conduct = Serve(reportsDuplicate: bool) | Reject | Fail(applied: bool, status: Option<nat>)

  /** What arrives: a status, or an error that is none. */
  datatype Answer = Status(code: nat) | NoStatus

  datatype Reply = Applied | Duplicate | Malformed | Failed

  /** How the applier reads an answer. */
  function Classify(a: Answer): Reply {
    match a
    case NoStatus => Failed
    case Status(code) =>
      if code == OK then Applied
      else if code == ALREADY_EXISTS then Duplicate
      else if code == INVALID_ARGUMENT then Malformed
      else Failed
  }

  /** The drainer's verdict on one attempt; Sent and AllDuplicates both mark the row sent. */
  datatype Outcome = Sent | AllDuplicates | Permanent | Transient {
    predicate MarksSent() {
      Sent? || AllDuplicates?
    }
  }

  predicate Holds(peer: set<Tuple>, event: Event, t: Tuple) {
    if event.Register? then t in peer else t !in peer
  }

  function Effect(peer: set<Tuple>, event: Event, t: Tuple): set<Tuple> {
    if event.Register? then peer + {t} else peer - {t}
  }

  function Respond(peer: set<Tuple>, event: Event, t: Tuple, c: Conduct): (set<Tuple>, Answer) {
    match c
    case Serve(dup) =>
      if Holds(peer, event, t) && dup then (peer, Status(ALREADY_EXISTS)) else (Effect(peer, event, t), Status(OK))
    case Reject => (peer, Status(INVALID_ARGUMENT))
    case Fail(applied, status) =>
      (if applied then Effect(peer, event, t) else peer,
       if status.None? || status.value in {OK, INVALID_ARGUMENT, ALREADY_EXISTS} then NoStatus
       else Status(status.value))
  }

  /** The classification never claims an effect that is not there: an answer read as applied or duplicate
      means the tuple is as the event wants it, one read as malformed or duplicate that nothing changed. */
  lemma ClassificationIsSound(peer: set<Tuple>, event: Event, t: Tuple, c: Conduct)
    ensures var (after, answer) := Respond(peer, event, t, c);
            && (Classify(answer).Applied? || Classify(answer).Duplicate? ==> Holds(after, event, t))
            && (Classify(answer).Malformed? || Classify(answer).Duplicate? ==> after == peer)
            && (Classify(answer).Failed? <==> c.Fail?) && (Passes(answer) <==> c.Serve?)
    ensures forall code: nat ::
              && (Classify(Status(code)).Applied? <==> code == 0)
              && (Classify(Status(code)).Duplicate? <==> code == 6)
              && (Classify(Status(code)).Malformed? <==> code == 3)
  {
  }

  /** An answer after which an attempt goes on. */
  predicate Passes(a: Answer) {
    Classify(a).Applied? || Classify(a).Duplicate?
  }

  predicate AllPass(answers: seq<Answer>) {
    forall i :: 0 <= i < |answers| ==> Passes(answers[i])
  }

  predicate AllDuplicate(answers: seq<Answer>) {
    forall i :: 0 <= i < |answers| ==> Classify(answers[i]).Duplicate?
  }

  /** The peer serves at least the next n calls. */
  predicate Serving(conduct: seq<Conduct>, n: nat) {
    n <= |conduct| && forall i :: 0 <= i < n ==> conduct[i].Serve?
  }

  function Rest(conduct: seq<Conduct>, n: nat): seq<Conduct> {
    if n <= |conduct| then conduct[n..] else []
  }

  /** The first n tuples of the row applied on top of the peer's tuples. */
  function EffectAll(peer: set<Tuple>, event: Event, tuples: seq<Tuple>): set<Tuple> {
    if event.Register? then peer + set t | t in tuples else peer - set t | t in tuples
  }

  lemma EffectAllSnoc(peer: set<Tuple>, event: Event, tuples: seq<Tuple>, t: Tuple)
    ensures EffectAll(peer, event, tuples + [t]) == Effect(EffectAll(peer, event, tuples), event, t)
  {
    assert forall x :: x in tuples + [t] <==> x in tuples || x == t;
  }

  /** The peer as this service sees it, with its conduct for the calls to come and the answers it gave. */
  class Peer {
    var tuples: set<Tuple>
    var conduct: seq<Conduct>
    ghost var answers: seq<Answer>

    constructor (tuples: set<Tuple>, conduct: seq<Conduct>)
      ensures this.tuples == tuples && this.conduct == conduct && answers == []
    {
      this.tuples, this.conduct := tuples, conduct;
      answers := [];
    }

    /** One RegisterResource or UnregisterResource call; an exhausted script means an outage. */
    method Call(event: Event, t: Tuple) returns (answer: Answer)
      modifies this
      ensures exists c :: (tuples, answer) == Respond(old(tuples), event, t, c)
      ensures old(conduct) != [] ==> (tuples, answer) == Respond(old(tuples), event, t, old(conduct)[0])
      ensures conduct == Rest(old(conduct), 1) && answers == old(answers) + [answer]
      ensures Classify(answer).Duplicate? ==> tuples == old(tuples) && Holds(old(tuples), event, t)
      ensures Classify(answer).Applied? ==> tuples == Effect(old(tuples), event, t)
      ensures Classify(answer).Malformed? ==> tuples == old(tuples)
    {
      var c := if conduct == [] then Fail(false, None) else conduct[0];
      conduct := if conduct == [] then [] else conduct[1..];
      var (after, reply) := Respond(tuples, event, t, c);
      tuples, answer := after, reply;
      answers := answers + [answer];
      assert (tuples, answer) == Respond(old(tuples), event, t, c);
    }
  }

  /** What an attempt concludes from the answers it was given: it goes on past applied and duplicate ones, and
      only a malformed or a failed one ends it early. */
  ghost predicate Concludes(outcome: Outcome, given: seq<Answer>, n: nat) {
    && |given| <= n
    && (given != [] ==> AllPass(given[..|given| - 1]))
    && (outcome.MarksSent() <==> |given| == n && AllPass(given))
    && (outcome.AllDuplicates? <==> n > 0 && |given| == n && AllDuplicate(given))
    && (outcome.Permanent? <==> given != [] && Classify(given[|given| - 1]).Malformed?)
    && (outcome.Transient? <==> given != [] && Classify(given[|given| - 1]).Failed?)
  }

  lemma RestStep(conduct: seq<Conduct>, i: nat)
    ensures Rest(Rest(conduct, i), 1) == Rest(conduct, i + 1)
    ensures i < |conduct| ==> Rest(conduct, i) != [] && Rest(conduct, i)[0] == conduct[i]
  {
  }

  /** A malformed or failed answer after passing ones is what an attempt ends with. */
  lemma StopsHere(given: seq<Answer>, answer: Answer, n: nat)
    requires |given| < n && AllPass(given)
    ensures Classify(answer).Malformed? ==> Concludes(Permanent, given + [answer], n)
    ensures Classify(answer).Failed? ==> Concludes(Transient, given + [answer], n)
    ensures Passes(answer) ==> AllPass(given + [answer])
    ensures AllDuplicate(given + [answer]) <==> AllDuplicate(given) && Classify(answer).Duplicate?
  {
    var all := given + [answer];
    assert all[..|all| - 1] == given && all[|all| - 1] == answer;
    assert forall i :: 0 <= i < |given| ==> all[i] == given[i];
  }

  /** The call for one tuple of an attempt that began with the peer at `start`. */
  method ApplyTuple(peer: Peer, event: Event, tuples: seq<Tuple>, i: nat, ghost start: set<Tuple>)
    returns (answer: Answer)
    requires i < |tuples| && peer.tuples == EffectAll(start, event, tuples[..i])
    modifies peer
    ensures peer.answers == old(peer.answers) + [answer] && peer.conduct == Rest(old(peer.conduct), 1)
    ensures old(peer.conduct) != [] && old(peer.conduct)[0].Serve? ==> Passes(answer)
    ensures Passes(answer) ==> peer.tuples == EffectAll(start, event, tuples[..i + 1])
    ensures Classify(answer).Malformed? ==> peer.tuples == EffectAll(start, event, tuples[..i])
    ensures || peer.tuples == EffectAll(start, event, tuples[..i])
            || peer.tuples == EffectAll(start, event, tuples[..i + 1])
    ensures Classify(answer).Duplicate? ==> peer.tuples == old(peer.tuples) && Holds(old(peer.tuples), event, tuples[i])
  {
    EffectAllSnoc(start, event, tuples[..i], tuples[i]);
    assert tuples[..i + 1] == tuples[..i] + [tuples[i]];
    answer := peer.Call(event, tuples[i]);
  }

  /** One attempt: every tuple in order, going on past duplicates and stopping at the first
      real error. `applied` counts the tuples whose effect is at the peer afterwards, `given` are the
      answers of this attempt. */
  method ApplyRow(peer: Peer, event: Event, tuples: seq<Tuple>)
    returns (outcome: Outcome, ghost applied: nat, ghost given: seq<Answer>)
    modifies peer
    ensures applied <= |tuples| && peer.tuples == EffectAll(old(peer.tuples), event, tuples[..applied])
    ensures peer.answers == old(peer.answers) + given && peer.conduct == Rest(old(peer.conduct), |given|)
    ensures Concludes(outcome, given, |tuples|)
    ensures Serving(old(peer.conduct), |tuples|) ==> outcome.MarksSent()
    ensures outcome.MarksSent() ==> applied == |tuples|
    ensures outcome.AllDuplicates? ==> peer.tuples == old(peer.tuples)
                                       && forall t <- tuples :: Holds(old(peer.tuples), event, t)
    ensures tuples == [] ==> outcome.Sent?
  {
    var allAlreadyApplied := true;
    given := [];
    ghost var start, conduct := peer.tuples, peer.conduct;
    assert tuples[..0] == [];
    for i := 0 to |tuples|
      invariant peer.tuples == EffectAll(start, event, tuples[..i])
      invariant |given| == i && AllPass(given)
      invariant peer.answers == old(peer.answers) + given && peer.conduct == Rest(conduct, i)
      invariant allAlreadyApplied == AllDuplicate(given)
      invariant allAlreadyApplied ==> peer.tuples == start && forall j :: 0 <= j < i ==> Holds(start, event, tuples[j])
    {
      RestStep(conduct, i);
      var answer := ApplyTuple(peer, event, tuples, i, start);
      StopsHere(given, answer, |tuples|);
      given := given + [answer];
      match Classify(answer) {
        case Applied => allAlreadyApplied := false;
        case Duplicate =>
        case Malformed => return Permanent, i, given;
        case Failed =>
          return Transient, if peer.tuples == EffectAll(start, event, tuples[..i]) then i else i + 1, given;
      }
    }
    assert tuples[..|tuples|] == tuples;
    return if allAlreadyApplied && tuples != [] then AllDuplicates else Sent, |tuples|, given;
  }

  /** Decoding poisons a row without tuples or with an incomplete one before any call is made. */
  predicate Decodes(i: Intent) {
    i.tuples != [] && forall t <- i.tuples :: t.Valid()
  }

  /** Nothing a use-case writes to the outbox is poison. */
  lemma EmittedRowsDecode(r: Request)
    ensures forall i <- Rows(r) :: Decodes(i.intent)
  {
    assert forall i <- IntentsOf(r) :: Decodes(i.intent);
    EmittedIsPart(IntentsOf(r));
  }

  lemma {:induction false} EmittedIsPart(intents: seq<OutboxIntent>)
    ensures forall i <- Emitted(intents) :: i in intents
  {
    if intents != [] {
      EmittedIsPart(intents[1..]);
    }
  }

  lemma PrefixesMerge(peer: set<Tuple>, event: Event, tuples: seq<Tuple>, a: nat, b: nat)
    requires a <= |tuples| && b <= |tuples|
    ensures EffectAll(EffectAll(peer, event, tuples[..a]), event, tuples[..b])
            == EffectAll(peer, event, tuples[..Max(a, b)])
  {
    var longer, shorter := tuples[..Max(a, b)], tuples[..if a < b then a else b];
    assert shorter <= longer;
    assert forall t :: t in longer <==> t in tuples[..a] || t in tuples[..b];
  }

  /** Retrying until the row is marked sent or the attempts run out: at every point the peer has
      a prefix of the row's tuples on top of what it had, and once sent it has all of them. A peer that
      serves every call gets the row sent on the first attempt; a row is given up early only when the
      peer has called it malformed, and then at once. */
  method DrainRow(peer: Peer, event: Event, tuples: seq<Tuple>, attempts: nat)
    returns (sent: bool, ghost applied: nat, ghost tries: nat)
    modifies peer
    ensures applied <= |tuples| && peer.tuples == EffectAll(old(peer.tuples), event, tuples[..applied])
    ensures sent ==> peer.tuples == EffectAll(old(peer.tuples), event, tuples)
    ensures attempts > 0 && Serving(old(peer.conduct), |tuples|) ==>
              sent && tries == 1 && peer.conduct == Rest(old(peer.conduct), |tuples|)
    ensures tries <= attempts
    ensures !sent && tries < attempts ==> peer.answers != [] && Classify(peer.answers[|peer.answers| - 1]).Malformed?
    ensures old(peer.answers) <= peer.answers
    ensures forall i :: |old(peer.answers)| <= i < |peer.answers| - 1 ==> !Classify(peer.answers[i]).Malformed?
  {
    applied, sent, tries := 0, false, 0;
    assert tuples[..0] == [] && tuples[..|tuples|] == tuples;
    var left := attempts;
    while left > 0 && !sent
      invariant applied <= |tuples| && peer.tuples == EffectAll(old(peer.tuples), event, tuples[..applied])
      invariant sent ==> applied == |tuples|
      invariant 0 <= left <= attempts && tries == attempts - left
      invariant old(peer.answers) <= peer.answers
      invariant forall i :: |old(peer.answers)| <= i < |peer.answers| ==> !Classify(peer.answers[i]).Malformed?
      invariant left == attempts ==> !sent && peer.conduct == old(peer.conduct)
      invariant left < attempts && Serving(old(peer.conduct), |tuples|) ==>
                  sent && tries == 1 && peer.conduct == Rest(old(peer.conduct), |tuples|)
    {
      var outcome;
      ghost var more, given;
      ghost var reached := applied;
      outcome, more, given := ApplyRow(peer, event, tuples);
      PrefixesMerge(old(peer.tuples), event, tuples, reached, more);
      applied, tries := Max(reached, more), tries + 1;
      if outcome.Permanent? {
        return false, applied, tries;
      }
      sent := outcome.MarksSent();
      left := left - 1;
    }
  }

  /** A prefix, tuple by tuple: nothing later in the list is at the peer without everything
      before it, when none of it was there to begin with. */
  lemma RegisteredTuplesFormPrefix(peer: set<Tuple>, tuples: seq<Tuple>, applied: nat)
    requires applied <= |tuples| && forall t <- tuples :: t !in peer
    requires forall i, j :: 0 <= i < j < |tuples| ==> tuples[i] != tuples[j]
    ensures forall i :: 0 <= i < |tuples| ==>
              (tuples[i] in EffectAll(peer, Register, tuples[..applied]) <==> i < applied)
  {
    forall i | 0 <= i < |tuples|
      ensures tuples[i] in EffectAll(peer, Register, tuples[..applied]) <==> i < applied
    {
      assert tuples[i] in tuples[..applied] <==> i < applied by {
        if i < applied {
          assert tuples[..applied][i] == tuples[i];
        }
      }
    }
  }

  /** How many calls the rows with id below n take when every one is served. */
  function CallsFor(outbox: map<nat, OutboxRow>, n: nat): nat {
    if n == 0 then 0
    else CallsFor(outbox, n - 1) + if n - 1 in outbox then |outbox[n - 1].intent.intent.tuples| else 0
  }

  lemma {:induction false} CallsGrow(outbox: map<nat, OutboxRow>, m: nat, n: nat)
    requires m <= n
    ensures CallsFor(outbox, m) <= CallsFor(outbox, n)
    decreases n
  {
    if m < n {
      CallsGrow(outbox, m, n - 1);
    }
  }

  /** Draining every visible outbox row, in id order: once all are sent, each tuple the peer did
      not have before is there exactly when the fold of the outbox says so; and a peer that serves every
      call gets them all. */
  method DrainOutbox(peer: Peer, outbox: map<nat, OutboxRow>, n: nat, attempts: nat) returns (done: bool)
    modifies peer
    ensures done ==> forall t :: t !in old(peer.tuples) ==> (t in peer.tuples <==> FoldById(outbox, n, t))
    ensures attempts > 0 && Serving(old(peer.conduct), CallsFor(outbox, n)) ==> done
  {
    for id := 0 to n
      invariant forall t :: t !in old(peer.tuples) ==> (t in peer.tuples <==> FoldById(outbox, id, t))
      invariant attempts > 0 && Serving(old(peer.conduct), CallsFor(outbox, n)) ==>
                  peer.conduct == Rest(old(peer.conduct), CallsFor(outbox, id))
    {
      CallsGrow(outbox, id + 1, n);
      if id in outbox {
        var row := outbox[id].intent;
        var sent;
        ghost var applied, tries;
        sent, applied, tries := DrainRow(peer, row.event, row.intent.tuples, attempts);
        if !sent {
          return false;
        }
      }
    }
    return true;
  }
}
