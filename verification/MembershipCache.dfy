/** The bounded cache of blob membership verdicts. */
module MembershipCache {
  import opened Common
  import opened FgaIntents

  datatype Entry = Entry(inRepo: bool, expires: int)

  /** A verdict and the time it was stored. */
  datatype Stamp = Stamp(inRepo: bool, at: int)

  /** The key of a verdict: "registry/repo|digest". */
  function BlobCacheKey(registryId: string, repo: string, digest: string): string {
    registryId + "/" + repo + "|" + digest
  }

  /** Two lookups share a key only if they ask the same question: registry ids have no '/',
      digests have no '|'. The repository name may have both. */
  lemma BlobCacheKeyInjective(r1: string, repo1: string, d1: string, r2: string, repo2: string, d2: string)
    requires Slashless(r1) && Slashless(r2) && '|' !in d1 && '|' !in d2
    ensures BlobCacheKey(r1, repo1, d1) == BlobCacheKey(r2, repo2, d2) ==> r1 == r2 && repo1 == repo2 && d1 == d2
  {
    var q1, q2 := repo1 + "|" + d1, repo2 + "|" + d2;
    assert BlobCacheKey(r1, repo1, d1) == RepoObjectId(r1, q1);
    assert BlobCacheKey(r2, repo2, d2) == RepoObjectId(r2, q2);
    if BlobCacheKey(r1, repo1, d1) == BlobCacheKey(r2, repo2, d2) {
      RepoObjectIdInjective(r1, q1, r2, q2);
      assert q1[|repo1| + 1..] == d1 && q2[|repo2| + 1..] == d2;
      LastBarUnique(q1, |repo1| + 1, |repo2| + 1);
      assert q1[..|repo1|] == repo1 && q2[..|repo2|] == repo2;
    }
  }

  lemma LastBarUnique(k: string, n1: nat, n2: nat)
    requires 0 < n1 <= |k| && 0 < n2 <= |k| && k[n1 - 1] == '|' == k[n2 - 1]
    requires '|' !in k[n1..] && '|' !in k[n2..]
    ensures n1 == n2
  {
    assert forall i, n :: 0 <= n <= i < |k| && '|' !in k[n..] ==> k[n..][i - n] == k[i] != '|';
  }

  /** Without the condition on registry ids two different questions can share a key. */
  lemma SlashInRegistryCollides()
    ensures BlobCacheKey("a/b", "c", "d") == BlobCacheKey("a", "b/c", "d")
  {
    assert BlobCacheKey("a/b", "c", "d") == "a/b/c|d" == BlobCacheKey("a", "b/c", "d");
  }

  /** Every entry is the latest verdict for its key, with its deadline. */
  ghost predicate Tracks(entries: map<string, Entry>, latest: map<string, Stamp>, clock: int, ttl: int) {
    && (forall k <- entries :: k in latest && entries[k] == Entry(latest[k].inRepo, latest[k].at + ttl))
    && (forall k <- latest :: latest[k].at <= clock)
  }

  lemma StoreTracks(entries: map<string, Entry>, latest: map<string, Stamp>, clock: int, ttl: int,
                    key: string, inRepo: bool, now: int)
    requires Tracks(entries, latest, clock, ttl) && clock <= now
    ensures Tracks(entries[key := Entry(inRepo, now + ttl)], latest[key := Stamp(inRepo, now)], now, ttl)
  {
  }

  class Cache {
    var entries: map<string, Entry>
    const ttl: int
    const maxSize: nat
    /** Every verdict ever stored last under its key: the map the cache is a bounded part of. */
    ghost var latest: map<string, Stamp>
    ghost var clock: int

    ghost predicate Valid()
      reads this
    {
      |entries| <= Max(1, maxSize) && Tracks(entries, latest, clock, ttl)
    }

    constructor (ttl: int, maxSize: nat, now: int)
      ensures Valid() && entries == map[] && latest == map[] && clock == now
      ensures this.ttl == ttl && this.maxSize == maxSize
    {
      this.ttl, this.maxSize := ttl, maxSize;
      entries := map[];
      latest, clock := map[], now;
    }

    predicate Live(k: string, now: int)
      reads this
    {
      k in entries && now < entries[k].expires
    }

    function LiveKeys(now: int): set<string>
      reads this
    {
      set k | k in entries && now < entries[k].expires
    }

    /** A hit is the latest verdict stored under the key, less than the TTL ago; only an expired
        entry is dropped. */
    method Get(key: string, now: int) returns (inRepo: bool, ok: bool)
      requires Valid() && clock <= now
      modifies this
      ensures Valid() && clock == now && latest == old(latest)
      ensures ok <==> old(Live(key, now))
      ensures ok ==> key in latest && inRepo == latest[key].inRepo && now - latest[key].at < ttl
      ensures entries == if ok then old(entries) else old(entries) - {key}
    {
      clock := now;
      if key !in entries {
        assert entries - {key} == entries;
        return false, false;
      }
      if now >= entries[key].expires {
        entries := entries - {key};
        return false, false;
      }
      return entries[key].inRepo, true;
    }

    /** Stores a verdict, first making room: expired entries go first, then arbitrary ones; a live
        entry is lost only if the live entries alone leave no room. */
    method Set(key: string, inRepo: bool, now: int)
      requires Valid() && clock <= now
      modifies this
      ensures Valid() && clock == now
      ensures latest == old(latest)[key := Stamp(inRepo, now)]
      ensures key in entries && entries[key] == Entry(inRepo, now + ttl)
      ensures forall k <- entries :: k != key ==> k in old(entries) && entries[k] == old(entries)[k]
      ensures |old(LiveKeys(now))| < maxSize ==> old(LiveKeys(now)) <= entries.Keys
    {
      MakeRoom(now);
      Store(key, inRepo, now);
    }

    method Store(key: string, inRepo: bool, now: int)
      requires Valid() && clock <= now && |entries| < Max(1, maxSize)
      modifies this
      ensures Valid() && clock == now
      ensures latest == old(latest)[key := Stamp(inRepo, now)]
      ensures entries == old(entries)[key := Entry(inRepo, now + ttl)]
    {
      SizeWith(entries, key, Entry(inRepo, now + ttl));
      StoreTracks(entries, latest, clock, ttl, key, inRepo, now);
      entries := entries[key := Entry(inRepo, now + ttl)];
      latest, clock := latest[key := Stamp(inRepo, now)], now;
    }

    method MakeRoom(now: int)
      requires Valid()
      modifies this`entries
      ensures Valid() && |entries| < Max(1, maxSize)
      ensures forall k <- entries :: k in old(entries) && entries[k] == old(entries)[k]
      ensures |old(LiveKeys(now))| < maxSize ==> old(LiveKeys(now)) <= entries.Keys
    {
      if |entries| >= maxSize {
        DropExpired(now);
        DropArbitrary();
      }
    }

    method DropExpired(now: int)
      requires Valid()
      modifies this`entries
      ensures Valid()
      ensures entries.Keys == old(LiveKeys(now)) && |entries| <= |old(entries)|
      ensures forall k <- entries :: entries[k] == old(entries)[k]
    {
      var left := entries.Keys;
      while left != {}
        invariant Valid() && left <= old(entries).Keys && |entries| <= |old(entries)|
        invariant forall k :: k in entries <==> k in old(entries) && (k in left || old(Live(k, now)))
        invariant forall k <- entries :: entries[k] == old(entries)[k]
      {
        var k :| k in left;
        left := left - {k};
        if now >= entries[k].expires {
          SizeWithout(entries, k);
          entries := entries - {k};
        }
      }
    }

    method DropArbitrary()
      requires Valid()
      modifies this`entries
      ensures Valid() && |entries| < Max(1, maxSize)
      ensures forall k <- entries :: k in old(entries) && entries[k] == old(entries)[k]
      ensures |old(entries)| < maxSize ==> entries == old(entries)
    {
      var left := entries.Keys;
      while left != {}
        invariant Valid() && left <= entries.Keys
        invariant left == entries.Keys || |entries| < maxSize
        invariant forall k <- entries :: k in old(entries) && entries[k] == old(entries)[k]
        invariant |old(entries)| < maxSize ==> entries == old(entries)
      {
        if |entries| < maxSize {
          break;
        }
        var k :| k in left;
        left := left - {k};
        SizeWithout(entries, k);
        entries := entries - {k};
      }
    }
  }

  lemma SizeWith(entries: map<string, Entry>, k: string, e: Entry)
    ensures |entries| <= |entries[k := e]| <= |entries| + 1
    ensures k in entries ==> |entries[k := e]| == |entries|
  {
    assert entries[k := e].Keys == entries.Keys + {k};
  }

  lemma SizeWithout(entries: map<string, Entry>, k: string)
    requires k in entries
    ensures |entries - {k}| == |entries| - 1
  {
    assert (entries - {k}).Keys == entries.Keys - {k};
  }
}
