/** The durable freshness tables: blobs finalised by a push, and pushers of a repository.

    A row carries the time of its last upsert; a background sweep deletes stale rows at any time. */
module TtlTables {

  /** What was asked of a table. Sweeps are no events: they must not be observable. */
  datatype Event<K> = Recorded(key: K, at: int) | Deleted(key: K)

  type Log<K> = seq<Event<K>>

  /** The key was recorded after the cutoff and has not been deleted since. */
  ghost predicate Since<K(!new)>(log: Log<K>, key: K, cutoff: int) {
    exists i, at :: 0 <= i < |log| && log[i] == Recorded(key, at) && cutoff < at && NotDeletedAfter(log, i, key)
  }

  ghost predicate NotDeletedAfter<K(!new)>(log: Log<K>, i: int, key: K) {
    forall j :: 0 <= j < |log| && i < j ==> log[j] != Deleted(key)
  }

  class Table<K(==, !new)> {
    var rows: map<K, int>
    const ttl: int
    ghost var log: Log<K>
    ghost var clock: int

    ghost predicate Valid()
      reads this
    {
      && (forall i :: 0 <= i < |log| && log[i].Recorded? ==> log[i].at <= clock)
      && (forall k <- rows :: Backed(log, k, rows[k]))
      && (forall i :: 0 <= i < |log| && log[i].Recorded? && NotDeletedAfter(log, i, log[i].key) ==>
            KeptOrStale(log[i].key, log[i].at))
    }

    /** The row is there with at least this time, or the time is too old to matter. */
    ghost predicate KeptOrStale(key: K, at: int)
      reads this
    {
      (key in rows && rows[key] >= at) || at <= clock - ttl
    }

    constructor (ttl: int, now: int)
      ensures Valid() && log == [] && clock == now && this.ttl == ttl
    {
      this.ttl := ttl;
      rows := map[];
      log, clock := [], now;
    }

    /** Inserts the row or refreshes its time. */
    method Record(key: K, now: int)
      requires Valid() && clock <= now
      modifies this
      ensures Valid() && clock == now && log == old(log) + [Recorded(key, now)]
      ensures rows == old(rows)[key := now]
    {
      rows := rows[key := now];
      clock, log := now, log + [Recorded(key, now)];
      SnocBacked(old(log), Recorded(key, now));
      assert log[|log| - 1] == Recorded(key, now) && NotDeletedAfter(log, |log| - 1, key);
      SnocNotDeleted(old(log), Recorded(key, now));
    }

    /** Deletes the row; deleting an absent row is a no-op. */
    method Delete(key: K, now: int)
      requires Valid() && clock <= now
      modifies this
      ensures Valid() && clock == now && log == old(log) + [Deleted(key)]
      ensures rows == old(rows) - {key}
    {
      rows := rows - {key};
      clock, log := now, log + [Deleted(key)];
      SnocBacked(old(log), Deleted(key));
      SnocNotDeleted(old(log), Deleted(key));
    }

    /** Deletes every stale row and returns how many there were. */
    method SweepStale(now: int) returns (n: nat)
      requires Valid() && clock <= now
      modifies this
      ensures Valid() && clock == now && log == old(log)
      ensures rows == map k | k in old(rows) && old(rows)[k] > now - ttl :: old(rows)[k]
      ensures n == |set k | k in old(rows) && old(rows)[k] <= now - ttl|
    {
      var stale := set k | k in rows && rows[k] <= now - ttl;
      n := |stale|;
      rows := rows - stale;
      clock := now;
    }

    /** Whatever was upserted, deleted and swept before, the answer is that of a query over the
        full history. */
    method Fresh(key: K, now: int) returns (r: bool)
      requires Valid() && clock <= now
      modifies this`clock
      ensures Valid() && clock == now
      ensures r <==> Since(log, key, now - ttl)
    {
      clock := now;
      r := key in rows && rows[key] > now - ttl;
    }
  }

  /** Some record of the key at that time has not been deleted since. */
  ghost predicate Backed<K(!new)>(log: Log<K>, key: K, at: int) {
    exists i :: 0 <= i < |log| && log[i] == Recorded(key, at) && NotDeletedAfter(log, i, key)
  }

  lemma SnocBacked<K(!new)>(log: Log<K>, e: Event<K>)
    ensures forall key, at :: Backed(log, key, at) && e != Deleted(key) ==> Backed(log + [e], key, at)
  {
    forall key, at | Backed(log, key, at) && e != Deleted(key) ensures Backed(log + [e], key, at) {
      var i :| 0 <= i < |log| && log[i] == Recorded(key, at) && NotDeletedAfter(log, i, key);
      assert (log + [e])[i] == log[i] && NotDeletedAfter(log + [e], i, key);
    }
  }

  lemma SnocNotDeleted<K(!new)>(log: Log<K>, e: Event<K>)
    ensures forall i, key :: 0 <= i < |log| && NotDeletedAfter(log + [e], i, key) ==>
              NotDeletedAfter(log, i, key) && e != Deleted(key)
  {
    forall i, key | 0 <= i < |log| && NotDeletedAfter(log + [e], i, key)
      ensures NotDeletedAfter(log, i, key) && e != Deleted(key)
    {
      assert forall j :: 0 <= j < |log| ==> (log + [e])[j] == log[j];
      assert (log + [e])[|log|] == e;
    }
  }
}
