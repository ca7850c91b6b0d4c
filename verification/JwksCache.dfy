/** The cache of token signing keys: a lifetime taken from the key server, and a throttle that
    lets at most one caller per window fetch the keys again. */
module JwksCache {
  import opened Common

  type Kid = string
  type Key = string

  /** All durations are nanoseconds. */
  const SECOND: int := 1_000_000_000
  const DEFAULT_TTL: int := 300 * SECOND
  const MAX_TTL: int := 3600 * SECOND
  const DEFAULT_MIN_REFRESH: int := 10 * SECOND

  /** What the verifier holds; a time never set is infinitely long ago. */
  datatype Cache = Cache(keys: map<Kid, Key>, fetched: Option<int>, lastRefresh: Option<int>, ttl: int)

  datatype Decision = Serve(key: Key) | Refuse | Fetch

  /** One entry of the key document; an unsupported or broken key has no value. */
  datatype Jwk = Jwk(kid: Kid, key: Option<Key>)

  /** A part of the Cache-Control header; a max-age that does not scan has no value. */
  datatype Directive = MaxAge(secs: Option<int>) | Other

  predicate Within(now: int, since: Option<int>, span: int) {
    since.Some? && now - since.value < span
  }

  predicate Fresh(c: Cache, now: int) {
    Within(now, c.fetched, c.ttl)
  }

  predicate Throttled(c: Cache, now: int, minRefresh: int) {
    Within(now, c.lastRefresh, minRefresh)
  }

  // ---- the sections that run under the lock ----

  function Entered(c: Cache, kid: Kid, now: int, minRefresh: int): (Cache, Decision) {
    if kid in c.keys && Fresh(c, now) then (c, Serve(c.keys[kid]))
    else if Throttled(c, now, minRefresh) then (c, if kid in c.keys then Serve(c.keys[kid]) else Refuse)
    else (c.(lastRefresh := Some(now)), Fetch)
  }

  function Installed(c: Cache, doc: seq<Jwk>, header: seq<Directive>, now: int): Cache {
    var ttl := MaxAgeOf(header);
    c.(keys := KeysOf(doc), fetched := Some(now),
       ttl := if ttl <= 0 then c.ttl else if ttl > MAX_TTL then MAX_TTL else ttl)
  }

  /** Entries without a key id or a usable key are skipped; of several the last one stays. */
  function KeysOf(doc: seq<Jwk>): map<Kid, Key> {
    if doc == [] then map[] else
      var rest := KeysOf(doc[..|doc| - 1]);
      var last := doc[|doc| - 1];
      if last.kid == "" || last.key.None? then rest else rest[last.kid := last.key.value]
  }

  /** Wrap-around of signed 64-bit arithmetic. */
  function Wrap64(x: int): int {
    (x + 0x8000_0000_0000_0000) % 0x1_0000_0000_0000_0000 - 0x8000_0000_0000_0000
  }

  predicate Int64(x: int) {
    -0x8000_0000_0000_0000 <= x < 0x8000_0000_0000_0000
  }

  /** A max-age that counts. */
  predicate Positive(d: Directive) {
    d.MaxAge? && d.secs.Some? && d.secs.value > 0
  }

  predicate FirstPositive(header: seq<Directive>, i: int) {
    0 <= i < |header| && Positive(header[i]) && forall j :: 0 <= j < i ==> !Positive(header[j])
  }

  /** The seconds the header asks for, if it asks for any. */
  function SecondsOf(header: seq<Directive>): Option<int> {
    if header == [] then None
    else if Positive(header[0]) then header[0].secs
    else SecondsOf(header[1..])
  }

  /** The lifetime in nanoseconds as 64-bit arithmetic gives it; 0 if none is asked for. */
  function MaxAgeOf(header: seq<Directive>): int {
    match SecondsOf(header)
    case None => 0
    case Some(secs) => Wrap64(secs * SECOND)
  }

  /** The header asks for the seconds of its first positive max-age, and for none if it has none. */
  lemma {:induction false} SecondsAreFirstPositive(header: seq<Directive>)
    ensures SecondsOf(header).None? <==> forall j :: 0 <= j < |header| ==> !Positive(header[j])
    ensures forall i :: FirstPositive(header, i) ==> SecondsOf(header) == header[i].secs
  {
    if header != [] {
      SecondsAreFirstPositive(header[1..]);
      forall i | FirstPositive(header, i) ensures SecondsOf(header) == header[i].secs {
        if i > 0 {
          assert FirstPositive(header[1..], i - 1);
        }
      }
      assert forall j :: 1 <= j < |header| ==> header[j] == header[1..][j - 1];
    }
  }

  /** The loop that reads the header: the first positive max-age decides, whatever follows it. */
  method ParseMaxAge(header: seq<Directive>) returns (ttl: int)
    ensures (forall j :: 0 <= j < |header| ==> !Positive(header[j])) ==> ttl == 0
    ensures forall i :: FirstPositive(header, i) ==> ttl == Wrap64(header[i].secs.value * SECOND)
    ensures ttl == MaxAgeOf(header)
  {
    SecondsAreFirstPositive(header);
    for i := 0 to |header|
      invariant forall j :: 0 <= j < i ==> !Positive(header[j])
    {
      var part := header[i];
      if part.MaxAge? && part.secs.Some? && part.secs.value > 0 {
        assert FirstPositive(header, i);
        return Wrap64(part.secs.value * SECOND);
      }
    }
    return 0;
  }

  class Verifier {
    var keys: map<Kid, Key>
    var fetched: Option<int>
    var lastRefresh: Option<int>
    var ttl: int
    const minRefresh: int

    constructor ()
      ensures State() == Cache(map[], None, None, 300_000_000_000) && minRefresh == 10_000_000_000
    {
      keys, fetched, lastRefresh, ttl := map[], None, None, DEFAULT_TTL;
      minRefresh := DEFAULT_MIN_REFRESH;
    }

    function State(): Cache
      reads this
    {
      Cache(keys, fetched, lastRefresh, ttl)
    }

    /** The first locked section of a lookup: serve, refuse, or take the slot and go fetch. */
    method Enter(kid: Kid, now: int) returns (d: Decision)
      modifies this`lastRefresh
      ensures (State(), d) == Entered(old(State()), kid, now, minRefresh)
      ensures d.Serve? ==> kid in keys && d.key == keys[kid]
      ensures d.Refuse? ==> kid !in keys
    {
      var ok := kid in keys;
      if ok && fetched.Some? && now - fetched.value < ttl {
        return Serve(keys[kid]);
      }
      if lastRefresh.Some? && now - lastRefresh.value < minRefresh {
        if ok {
          return Serve(keys[kid]);
        }
        return Refuse;
      }
      lastRefresh := Some(now);
      return Fetch;
    }

    /** Rebuilds the keys from a fetched document and adopts its lifetime. */
    method Refresh(doc: seq<Jwk>, header: seq<Directive>, now: int)
      modifies this
      ensures State() == Installed(old(State()), doc, header, now)
    {
      var rebuilt: map<Kid, Key> := map[];
      for i := 0 to |doc|
        invariant rebuilt == KeysOf(doc[..i])
      {
        assert doc[..i + 1][..i] == doc[..i];
        if doc[i].kid != "" && doc[i].key.Some? {
          rebuilt := rebuilt[doc[i].kid := doc[i].key.value];
        }
      }
      assert doc[..|doc|] == doc;
      var maxAge := ParseMaxAge(header);
      if maxAge > MAX_TTL {
        maxAge := MAX_TTL;
      }
      keys, fetched := rebuilt, Some(now);
      if maxAge > 0 {
        ttl := maxAge;
      }
    }

    /** The second locked section: what the cache knows now. */
    method Look(kid: Kid) returns (key: Option<Key>)
      ensures key == Lookup(State(), kid)
    {
      if kid in keys {
        return Some(keys[kid]);
      }
      return None;
    }

    /** A whole lookup. The reply is what the key server answers, if it does, and `others` are the documents
        that other callers install before this one looks again. A caller that fetched gets the key of the
        last document then, and nothing if its own fetch failed. */
    method KeyFor(kid: Kid, now: int, reply: Option<Reply>, others: seq<Reply>) returns (key: Option<Key>)
      modifies this
      ensures kid in old(keys) && (Fresh(old(State()), now) || Throttled(old(State()), now, minRefresh)) ==>
                key == Some(old(keys)[kid]) && State() == old(State())
      ensures kid !in old(keys) && Throttled(old(State()), now, minRefresh) ==>
                key == None && State() == old(State())
      ensures !Throttled(old(State()), now, minRefresh) && !(kid in old(keys) && Fresh(old(State()), now)) ==>
                && lastRefresh == Some(now)
                && if reply.None? then key == None && keys == old(keys) && fetched == old(fetched)
                   else (key.Some? <==> Gives(LastOf(reply.value, others).doc, kid))
                        && (key.Some? ==> GivenBy(LastOf(reply.value, others).doc, kid, key))
                        && fetched == Some(LastOf(reply.value, others).at)
    {
      var d := Enter(kid, now);
      match d
      case Serve(k) => return Some(k);
      case Refuse => return None;
      case Fetch =>
        if reply.None? {
          return None;
        }
        Refresh(reply.value.doc, reply.value.header, reply.value.at);
        for i := 0 to |others|
          invariant lastRefresh == Some(now)
          invariant keys == KeysOf(LastOf(reply.value, others[..i]).doc)
          invariant fetched == Some(LastOf(reply.value, others[..i]).at)
        {
          Refresh(others[i].doc, others[i].header, others[i].at);
        }
        assert others[..|others|] == others;
        key := Look(kid);
        KeysOfDocument(LastOf(reply.value, others).doc, kid);
    }
  }

  /** A document with its header, and when it is installed. */
  datatype Reply = Reply(doc: seq<Jwk>, header: seq<Directive>, at: int)

  function LastOf(own: Reply, others: seq<Reply>): Reply {
    if others == [] then own else others[|others| - 1]
  }

  predicate Gives(doc: seq<Jwk>, kid: Kid) {
    exists i :: 0 <= i < |doc| && Usable(doc[i], kid)
  }

  /** The key is that of the last usable entry of the id. */
  predicate GivenBy(doc: seq<Jwk>, kid: Kid, key: Option<Key>) {
    exists i :: 0 <= i < |doc| && Usable(doc[i], kid) && doc[i].key == key
                && forall j :: i < j < |doc| ==> !Usable(doc[j], kid)
  }

  const INITIAL: Cache := Cache(map[], None, None, DEFAULT_TTL)

  // ---- what the document gives ----

  /** A key id is known after a fetch exactly when the document has a usable entry for it, and
      then with the key of the last such entry. */
  lemma {:induction false} KeysOfDocument(doc: seq<Jwk>, kid: Kid)
    ensures kid in KeysOf(doc) <==> exists i :: 0 <= i < |doc| && Usable(doc[i], kid)
    ensures kid in KeysOf(doc) ==>
              exists i :: 0 <= i < |doc| && Usable(doc[i], kid) && doc[i].key == Some(KeysOf(doc)[kid])
                          && forall j :: i < j < |doc| ==> !Usable(doc[j], kid)
  {
    if doc != [] {
      var n := |doc| - 1;
      KeysOfDocument(doc[..n], kid);
      if Usable(doc[n], kid) {
        assert doc[n].key == Some(KeysOf(doc)[kid]);
      } else if kid in KeysOf(doc) {
        var i :| 0 <= i < n && Usable(doc[..n][i], kid) && doc[..n][i].key == Some(KeysOf(doc[..n])[kid])
                 && forall j :: i < j < n ==> !Usable(doc[..n][j], kid);
        assert Usable(doc[i], kid) && forall j :: i < j < |doc| ==> !Usable(doc[j], kid);
      }
      assert forall i :: 0 <= i < n ==> doc[..n][i] == doc[i];
    }
  }

  predicate Usable(k: Jwk, kid: Kid) {
    k.kid == kid && kid != "" && k.key.Some?
  }

  /** The lifetime the server asked for, clamped: what the code means to adopt. */
  function Clamped(secs: int): int {
    if secs * SECOND > MAX_TTL then MAX_TTL else secs * SECOND
  }

  /** Whatever the header holds, a lifetime that is asked for is adopted, clamped, exactly when the
      product does not overflow to something below the maximum (or overflows to nothing while the
      maximum is in force already); and without one the lifetime stays as it was. */
  lemma LifetimeExactUnlessOverflow(c: Cache, doc: seq<Jwk>, header: seq<Directive>, now: int)
    requires forall i :: 0 <= i < |header| && Positive(header[i]) ==> Int64(header[i].secs.value)
    ensures (forall i :: 0 <= i < |header| ==> !Positive(header[i])) ==> Installed(c, doc, header, now).ttl == c.ttl
    ensures forall i :: FirstPositive(header, i) ==>
              (Installed(c, doc, header, now).ttl == Clamped(header[i].secs.value)
               <==> LifetimeFits(header[i].secs.value, c.ttl))
  {
    SecondsAreFirstPositive(header);
    forall i | FirstPositive(header, i)
      ensures Installed(c, doc, header, now).ttl == Clamped(header[i].secs.value)
              <==> LifetimeFits(header[i].secs.value, c.ttl)
    {
      ProductsThatFit(header[i].secs.value);
    }
  }

  predicate LifetimeFits(secs: int, current: int) {
    || secs <= 9_223_372_036
    || Wrap64(secs * SECOND) >= MAX_TTL
    || (Wrap64(secs * SECOND) <= 0 && current == MAX_TTL)
  }

  lemma ProductsThatFit(secs: int)
    requires 0 < secs
    ensures secs <= 9_223_372_036 ==> Wrap64(secs * SECOND) == secs * SECOND > 0
    ensures Clamped(secs) == if secs < 3600 then secs * 1_000_000_000 else 3600_000_000_000
    ensures secs > 9_223_372_036 ==> Clamped(secs) == MAX_TTL
  {
    if secs <= 9_223_372_036 {
      assert 0 < secs * SECOND < 0x8000_0000_0000_0000;
    } else {
      assert secs * SECOND > MAX_TTL;
    }
  }

  /** An absurdly long max-age can wrap to a lifetime of a fraction of a second. */
  lemma HugeMaxAgeWraps(c: Cache, now: int)
    ensures Installed(c, [], [MaxAge(Some(18_446_744_074))], now).ttl == 290_448_384
  {
    assert SecondsOf([MaxAge(Some(18_446_744_074))]) == Some(18_446_744_074);
  }

  // ---- any number of concurrent callers ----

  datatype Caller =
    | Fetching(kid: Kid, slot: int)
    | Refreshed(kid: Kid, slot: int)
    | Answered(kid: Kid, key: Option<Key>, held: Option<int>)

  /** `slots` are the times at which a caller took the slot for a fetch, in order; `installs` the
      documents that were fetched, with the time of their installation. */
  datatype System = System(
    cache: Cache,
    minRefresh: int,
    now: int,
    callers: map<nat, Caller>,
    slots: seq<int>,
    installs: seq<(map<Kid, Key>, int)>)

  datatype Step =
    | Tick(now: int)
    | Ask(id: nat, kid: Kid)
    | Succeed(id: nat, doc: seq<Jwk>, header: seq<Directive>)
    | Fail(id: nat)
    | Return(id: nat)

  predicate Enabled(s: System, step: Step) {
    match step
    case Tick(now) => s.now <= now
    case Ask(id, _) => id !in s.callers
    case Succeed(id, _, _) => id in s.callers && s.callers[id].Fetching?
    case Fail(id) => id in s.callers && s.callers[id].Fetching?
    case Return(id) => id in s.callers && s.callers[id].Refreshed?
  }

  function Lookup(c: Cache, kid: Kid): Option<Key> {
    if kid in c.keys then Some(c.keys[kid]) else None
  }

  function Apply(s: System, step: Step): System
    requires Enabled(s, step)
  {
    match step
    case Tick(now) => s.(now := now)
    case Ask(id, kid) =>
      var (cache, d) := Entered(s.cache, kid, s.now, s.minRefresh);
      var caller :=
        match d
        case Serve(key) => Answered(kid, Some(key), None)
        case Refuse => Answered(kid, None, None)
        case Fetch => Fetching(kid, s.now);
      s.(cache := cache, callers := s.callers[id := caller],
         slots := if d.Fetch? then s.slots + [s.now] else s.slots)
    case Succeed(id, doc, header) =>
      s.(cache := Installed(s.cache, doc, header, s.now),
         installs := s.installs + [(KeysOf(doc), s.now)],
         callers := s.callers[id := Refreshed(s.callers[id].kid, s.callers[id].slot)])
    case Fail(id) =>
      s.(callers := s.callers[id := Answered(s.callers[id].kid, None, Some(s.callers[id].slot))])
    case Return(id) =>
      var c := s.callers[id];
      s.(callers := s.callers[id := Answered(c.kid, Lookup(s.cache, c.kid), Some(c.slot))])
  }

  ghost predicate Runs(s: System, steps: seq<Step>, t: System)
    decreases |steps|
  {
    if steps == [] then t == s
    else Enabled(s, steps[0]) && Runs(Apply(s, steps[0]), steps[1..], t)
  }

  function Start(minRefresh: int, now: int): System {
    System(INITIAL, minRefresh, now, map[], [], [])
  }

  ghost predicate Spaced(slots: seq<int>, gap: int) {
    forall i :: 0 <= i < |slots| - 1 ==> slots[i] + gap <= slots[i + 1]
  }

  function Last<T>(s: seq<T>): T
    requires s != []
  {
    s[|s| - 1]
  }

  ghost predicate SlotsOk(s: System) {
    && Spaced(s.slots, s.minRefresh)
    && s.cache.lastRefresh == (if s.slots == [] then None else Some(Last(s.slots)))
    && (s.slots != [] ==> Last(s.slots) <= s.now)
  }

  /** The cache holds the last document installed, with a lifetime within its bounds. */
  ghost predicate CacheOk(s: System) {
    && 0 < s.cache.ttl <= MAX_TTL
    && if s.installs == [] then s.cache.fetched.None? && s.cache.keys == map[]
       else s.cache.fetched == Some(Last(s.installs).1) && s.cache.keys == Last(s.installs).0
            && Last(s.installs).1 <= s.now
  }

  ghost predicate HoldersOk(s: System) {
    forall id <- s.callers :: HeldSlot(s.callers[id]).Some? ==> HeldSlot(s.callers[id]).value in s.slots
  }

  ghost predicate Inv(s: System) {
    SlotsOk(s) && CacheOk(s) && HoldersOk(s)
  }

  /** The fetch slot a caller took, if it took one. */
  function HeldSlot(c: Caller): Option<int> {
    match c
    case Fetching(_, slot) => Some(slot)
    case Refreshed(_, slot) => Some(slot)
    case Answered(_, _, held) => held
  }

  lemma StepKeepsSlots(s: System, step: Step)
    requires SlotsOk(s) && Enabled(s, step)
    ensures SlotsOk(Apply(s, step)) && Apply(s, step).minRefresh == s.minRefresh
  {
  }

  lemma StepKeepsCache(s: System, step: Step)
    requires CacheOk(s) && Enabled(s, step)
    ensures CacheOk(Apply(s, step))
  {
  }

  lemma StepKeepsHolders(s: System, step: Step)
    requires HoldersOk(s) && Enabled(s, step)
    ensures HoldersOk(Apply(s, step))
  {
    var t := Apply(s, step);
    assert forall x :: x in s.slots ==> x in t.slots;
    if step.Ask? && Entered(s.cache, step.kid, s.now, s.minRefresh).1.Fetch? {
      assert t.slots[|s.slots|] == s.now;
    }
  }

  lemma StepKeepsInv(s: System, step: Step)
    requires Inv(s) && Enabled(s, step)
    ensures Inv(Apply(s, step)) && Apply(s, step).minRefresh == s.minRefresh
  {
    StepKeepsSlots(s, step);
    StepKeepsCache(s, step);
    StepKeepsHolders(s, step);
  }

  lemma {:induction false} RunKeepsInv(s: System, steps: seq<Step>, t: System)
    requires Inv(s) && Runs(s, steps, t)
    ensures Inv(t) && t.minRefresh == s.minRefresh
    decreases |steps|
  {
    if steps != [] {
      StepKeepsInv(s, steps[0]);
      RunKeepsInv(Apply(s, steps[0]), steps[1..], t);
    }
  }

  lemma {:induction false} SpacedApart(slots: seq<int>, gap: int, i: nat, j: nat)
    requires Spaced(slots, gap) && i <= j < |slots|
    ensures slots[i] + (j - i) * gap <= slots[j]
    decreases j
  {
    if i < j {
      SpacedApart(slots, gap, i, j - 1);
      assert slots[j - 1] + gap <= slots[j - 1 + 1];
      assert (j - i) * gap == (j - 1 - i) * gap + gap;
    }
  }

  /** However many callers ask for whatever key ids, any window of length L sees at most
      L / minRefresh + 1 fetches: slots i to j all within L of each other are that few. */
  lemma FetchesAreBounded(minRefresh: int, now: int, steps: seq<Step>, s: System, i: nat, j: nat, length: nat)
    requires 0 < minRefresh && Runs(Start(minRefresh, now), steps, s)
    requires i <= j < |s.slots| && s.slots[j] - s.slots[i] <= length
    ensures j - i + 1 <= length / minRefresh + 1
  {
    RunKeepsInv(Start(minRefresh, now), steps, s);
    SpacedApart(s.slots, minRefresh, i, j);
    Quotient(j - i, minRefresh, length);
  }

  lemma Quotient(n: int, gap: int, length: nat)
    requires 0 < gap && n * gap <= length
    ensures n <= length / gap
  {
    var q := length / gap;
    assert length < q * gap + gap;
    assert (n - (q + 1)) * gap == n * gap - (q * gap + gap);
    NegativeFactor(n - (q + 1), gap);
  }

  lemma NegativeFactor(a: int, gap: int)
    requires 0 < gap && a * gap < 0
    ensures a < 0
  {
  }

  ghost predicate SlotsUnshared(s: System) {
    forall a <- s.callers, b <- s.callers | a != b ::
      HeldSlot(s.callers[a]).Some? ==> HeldSlot(s.callers[a]) != HeldSlot(s.callers[b])
  }

  lemma {:induction false} Ascending(slots: seq<int>, gap: int, i: nat, j: nat)
    requires 0 < gap && Spaced(slots, gap) && i <= j < |slots|
    ensures slots[i] <= slots[j]
    decreases j
  {
    if i < j {
      Ascending(slots, gap, i, j - 1);
      assert slots[j - 1] + gap <= slots[j - 1 + 1];
    }
  }

  lemma NewSlotIsNew(s: System, kid: Kid)
    requires Inv(s) && 0 < s.minRefresh && Entered(s.cache, kid, s.now, s.minRefresh).1.Fetch?
    ensures s.now !in s.slots
  {
    forall i | 0 <= i < |s.slots| ensures s.slots[i] < s.now {
      Ascending(s.slots, s.minRefresh, i, |s.slots| - 1);
    }
  }

  lemma StepKeepsUnshared(s: System, step: Step)
    requires Inv(s) && 0 < s.minRefresh && SlotsUnshared(s) && Enabled(s, step)
    ensures SlotsUnshared(Apply(s, step))
  {
    if step.Ask? && Entered(s.cache, step.kid, s.now, s.minRefresh).1.Fetch? {
      NewSlotIsNew(s, step.kid);
    }
  }

  lemma {:induction false} RunKeepsUnshared(s: System, steps: seq<Step>, t: System)
    requires Inv(s) && 0 < s.minRefresh && SlotsUnshared(s) && Runs(s, steps, t)
    ensures SlotsUnshared(t)
    decreases |steps|
  {
    if steps != [] {
      StepKeepsInv(s, steps[0]);
      StepKeepsUnshared(s, steps[0]);
      RunKeepsUnshared(Apply(s, steps[0]), steps[1..], t);
    }
  }

  /** However many callers fetch at the same time, each does so in a slot of its own. */
  lemma EveryFetchHasItsOwnSlot(minRefresh: int, now: int, steps: seq<Step>, s: System, a: nat, b: nat)
    requires 0 < minRefresh && Runs(Start(minRefresh, now), steps, s)
    requires a != b && a in s.callers && b in s.callers && HeldSlot(s.callers[a]).Some?
    ensures HeldSlot(s.callers[a]).value in s.slots && HeldSlot(s.callers[a]) != HeldSlot(s.callers[b])
  {
    RunKeepsInv(Start(minRefresh, now), steps, s);
    RunKeepsUnshared(Start(minRefresh, now), steps, s);
  }

  /** In every reachable state, the answer to a key id: served from the cache exactly when the id
      is cached and the cache is fresh or another fetch began less than minRefresh ago; refused
      only if the id is not cached; else the caller takes the slot. */
  lemma KnownKeyIsNeverRefused(minRefresh: int, now: int, steps: seq<Step>, s: System, id: nat, kid: Kid)
    requires Runs(Start(minRefresh, now), steps, s) && id !in s.callers
    ensures var a := Apply(s, Ask(id, kid)).callers[id];
            && (a.Answered? && a.key.Some? <==> kid in s.cache.keys && (Fresh(s.cache, s.now) || RecentSlot(s)))
            && (a.Answered? && a.key.None? <==> kid !in s.cache.keys && RecentSlot(s))
            && (a.Answered? ==> a.key == Lookup(s.cache, kid))
  {
    RunKeepsInv(Start(minRefresh, now), steps, s);
  }

  predicate RecentSlot(s: System) {
    s.slots != [] && s.now - Last(s.slots) < s.minRefresh
  }

  /** Whatever the key server ever sent, and even where the product overflowed, the lifetime is
      positive and at most its maximum in every reachable state. */
  lemma LifetimeBounded(minRefresh: int, now: int, steps: seq<Step>, s: System)
    requires Runs(Start(minRefresh, now), steps, s)
    ensures 0 < s.cache.ttl <= 3600_000_000_000
  {
    RunKeepsInv(Start(minRefresh, now), steps, s);
  }

  /** The lifetime a fresh answer relies on: the last document, installed less than an hour ago. */
  lemma FreshMeansRecentlyFetched(minRefresh: int, now: int, steps: seq<Step>, s: System)
    requires Runs(Start(minRefresh, now), steps, s) && Fresh(s.cache, s.now)
    ensures s.installs != [] && s.cache.keys == Last(s.installs).0
    ensures s.now - Last(s.installs).1 < s.cache.ttl <= 3600_000_000_000
  {
    RunKeepsInv(Start(minRefresh, now), steps, s);
  }

  /** The caller's answer, or what it will look up, is from a document; if it took a slot, from one
      installed no earlier. */
  ghost predicate FromDocument(s: System, c: Caller) {
    match c
    case Fetching(_, slot) => slot <= s.now
    case Refreshed(_, slot) => s.installs != [] && slot <= Last(s.installs).1
    case Answered(kid, key, held) => key.Some? ==> exists i :: Installs(s, i, kid, key.value, held)
  }

  ghost predicate Installs(s: System, i: int, kid: Kid, key: Key, since: Option<int>) {
    && 0 <= i < |s.installs| && kid in s.installs[i].0 && s.installs[i].0[kid] == key
    && (since.Some? ==> since.value <= s.installs[i].1)
  }

  ghost predicate AllFromDocuments(s: System) {
    forall id <- s.callers :: FromDocument(s, s.callers[id])
  }

  lemma FromDocumentStays(s: System, step: Step, c: Caller)
    requires CacheOk(s) && FromDocument(s, c) && Enabled(s, step)
    ensures FromDocument(Apply(s, step), c)
  {
    var t := Apply(s, step);
    if c.Answered? && c.key.Some? {
      var i :| Installs(s, i, c.kid, c.key.value, c.held);
      assert Installs(t, i, c.kid, c.key.value, c.held);
    }
  }

  lemma OwnAnswerFromDocument(s: System, step: Step, id: nat)
    requires CacheOk(s) && AllFromDocuments(s) && Enabled(s, step)
    requires step.Ask? || step.Succeed? || step.Fail? || step.Return?
    requires step.id == id
    ensures FromDocument(Apply(s, step), Apply(s, step).callers[id])
  {
    var t := Apply(s, step);
    var n := |s.installs| - 1;
    if step.Ask? {
      if step.kid in s.cache.keys {
        assert Installs(t, n, step.kid, s.cache.keys[step.kid], None);
      }
    } else if step.Return? {
      assert FromDocument(s, s.callers[id]);
      var c := s.callers[id];
      if c.kid in s.cache.keys {
        assert Installs(t, n, c.kid, s.cache.keys[c.kid], Some(c.slot));
      }
    } else if step.Succeed? {
      assert FromDocument(s, s.callers[id]);
    }
  }

  lemma StepKeepsDocuments(s: System, step: Step)
    requires CacheOk(s) && AllFromDocuments(s) && Enabled(s, step)
    ensures AllFromDocuments(Apply(s, step))
  {
    var t := Apply(s, step);
    forall id <- t.callers ensures FromDocument(t, t.callers[id]) {
      if id in s.callers && t.callers[id] == s.callers[id] {
        FromDocumentStays(s, step, s.callers[id]);
      } else {
        OwnAnswerFromDocument(s, step, id);
      }
    }
  }

  lemma {:induction false} RunKeepsDocuments(s: System, steps: seq<Step>, t: System)
    requires Inv(s) && AllFromDocuments(s) && Runs(s, steps, t)
    ensures AllFromDocuments(t)
    decreases |steps|
  {
    if steps != [] {
      StepKeepsInv(s, steps[0]);
      StepKeepsDocuments(s, steps[0]);
      RunKeepsDocuments(Apply(s, steps[0]), steps[1..], t);
    }
  }

  /** Every key ever given is from a fetched document, and a caller that fetched never gets one from a
      document older than its slot. */
  lemma KeysComeFromDocuments(minRefresh: int, now: int, steps: seq<Step>, s: System, id: nat)
    requires Runs(Start(minRefresh, now), steps, s)
    requires id in s.callers && s.callers[id].Answered? && s.callers[id].key.Some?
    ensures exists i :: Installs(s, i, s.callers[id].kid, s.callers[id].key.value, s.callers[id].held)
  {
    RunKeepsDocuments(Start(minRefresh, now), steps, s);
    assert FromDocument(s, s.callers[id]);
  }

  /** A caller back from its own fetch gets the key of the last document, if that has one; after a failed
      fetch it gets none, cached or not. */
  lemma FetchDecides(minRefresh: int, now: int, steps: seq<Step>, s: System, id: nat)
    requires Runs(Start(minRefresh, now), steps, s) && id in s.callers
    ensures s.callers[id].Refreshed? ==>
              && s.installs != []
              && Apply(s, Return(id)).callers[id].key.Some? == (s.callers[id].kid in Last(s.installs).0)
              && (s.callers[id].kid in Last(s.installs).0 ==>
                    Apply(s, Return(id)).callers[id].key == Some(Last(s.installs).0[s.callers[id].kid]))
    ensures s.callers[id].Fetching? ==>
              Apply(s, Fail(id)).callers[id].key == None && Apply(s, Fail(id)).cache == s.cache
  {
    RunKeepsInv(Start(minRefresh, now), steps, s);
    RunKeepsDocuments(Start(minRefresh, now), steps, s);
    assert FromDocument(s, s.callers[id]);
  }

  /** A known key that has outlived its lifetime is still served exactly while the throttle is
      closed. */
  lemma ExpiredKeyServedIffThrottled(c: Cache, kid: Kid, now: int, minRefresh: int)
    requires kid in c.keys && !Fresh(c, now)
    ensures Entered(c, kid, now, minRefresh).1.Serve? <==> c.lastRefresh.Some? && now - c.lastRefresh.value < minRefresh
  {
  }

  /** So no bound holds on the age of a served key: while fetches keep failing, a key fetched at
      time 0 is served at any later time one likes. */
  lemma KeyServedAtAnyAge(minRefresh: int, kid: Kid, key: Key, age: nat)
    requires 0 < minRefresh && minRefresh <= age && DEFAULT_TTL <= age && kid != ""
    ensures exists steps, s :: Runs(Start(minRefresh, 0), steps, s) && s.now == age
                               && |s.installs| == 1 && s.installs[0].1 == 0
                               && 2 in s.callers && s.callers[2] == Answered(kid, Some(key), None)
  {
    var doc := [Jwk(kid, Some(key))];
    var s3 := FetchedAtZero(minRefresh, kid, key).(now := age);
    var first := [Ask(0, kid), Succeed(0, doc, []), Tick(age)];
    var second := [Ask(1, kid), Fail(1), Ask(2, kid)];
    FetchAtZero(minRefresh, kid, key, age);
    RetryFails(s3, kid);
    Append(Start(minRefresh, 0), first, s3, second, AfterRetry(s3, kid, key));
  }

  /** The next caller takes the slot, its fetch fails, and the one after it is served. */
  function AfterRetry(s: System, kid: Kid, key: Key): System {
    s.(cache := s.cache.(lastRefresh := Some(s.now)), slots := s.slots + [s.now],
       callers := s.callers[1 := Answered(kid, None, Some(s.now))][2 := Answered(kid, Some(key), None)])
  }

  lemma RetryFails(s: System, kid: Kid)
    requires kid in s.cache.keys && !Fresh(s.cache, s.now) && !Throttled(s.cache, s.now, s.minRefresh)
    requires 0 < s.minRefresh && 1 !in s.callers && 2 !in s.callers
    ensures Runs(s, [Ask(1, kid), Fail(1), Ask(2, kid)], AfterRetry(s, kid, s.cache.keys[kid]))
  {
    var steps := [Ask(1, kid), Fail(1), Ask(2, kid)];
    var s1 := s.(cache := s.cache.(lastRefresh := Some(s.now)), slots := s.slots + [s.now],
                 callers := s.callers[1 := Fetching(kid, s.now)]);
    assert s1 == Apply(s, steps[0]);
    var s2 := s1.(callers := s.callers[1 := Answered(kid, None, Some(s.now))]);
    assert s1.callers[1 := Answered(kid, None, Some(s.now))] == s2.callers;
    assert s2 == Apply(s1, steps[1]);
    var s3 := AfterRetry(s, kid, s.cache.keys[kid]);
    assert s3 == Apply(s2, steps[2]);
    assert Runs(s3, steps[3..], s3);
    assert Runs(s2, steps[2..], s3);
    assert Runs(s1, steps[1..], s3);
  }

  function FetchedAtZero(minRefresh: int, kid: Kid, key: Key): System {
    System(Cache(map[kid := key], Some(0), Some(0), DEFAULT_TTL), minRefresh, 0,
           map[0 := Refreshed(kid, 0)], [0], [(map[kid := key], 0)])
  }

  lemma FetchAtZero(minRefresh: int, kid: Kid, key: Key, age: nat)
    requires kid != ""
    ensures Runs(Start(minRefresh, 0), [Ask(0, kid), Succeed(0, [Jwk(kid, Some(key))], []), Tick(age)],
                 FetchedAtZero(minRefresh, kid, key).(now := age))
  {
    var doc := [Jwk(kid, Some(key))];
    assert doc[..0] == [] && KeysOf([]) == map[];
    assert KeysOf(doc) == map[kid := key];
    var steps := [Ask(0, kid), Succeed(0, doc, []), Tick(age)];
    var s0 := Start(minRefresh, 0);
    var s1 := System(Cache(map[], None, Some(0), DEFAULT_TTL), minRefresh, 0, map[0 := Fetching(kid, 0)], [0], []);
    var s2 := FetchedAtZero(minRefresh, kid, key);
    assert s1 == Apply(s0, steps[0]);
    assert s2 == Apply(s1, steps[1]);
    var s3 := Apply(s2, steps[2]);
    assert Runs(s3, steps[3..], s3);
    assert Runs(s2, steps[2..], s3);
    assert Runs(s1, steps[1..], s3);
  }

  lemma {:induction false} Append(s: System, first: seq<Step>, t: System, second: seq<Step>, u: System)
    requires Runs(s, first, t) && Runs(t, second, u)
    ensures Runs(s, first + second, u)
    decreases |first|
  {
    if first == [] {
      assert first + second == second;
    } else {
      Append(Apply(s, first[0]), first[1..], t, second, u);
      assert (first + second)[1..] == first[1..] + second;
    }
  }
}
