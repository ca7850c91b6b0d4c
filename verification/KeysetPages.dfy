/** Keyset pagination: a page is what follows the last key seen, in a list that may change between
    pages. Used by the registry listing, ordered by creation time and id, and by the tag listing,
    ordered by name. */
module KeysetPages {
  import opened Common
  import opened Cursors

  // ---- orders ----

  type Order<!K> = (K, K) -> bool

  ghost predicate Asymmetric<K(!new)>(less: Order<K>) {
    forall a, b :: !(less(a, b) && less(b, a))
  }

  ghost predicate StrictTotal<K(!new)>(less: Order<K>) {
    && Asymmetric(less)
    && (forall a, b, c :: less(a, b) && less(b, c) ==> less(a, c))
    && (forall a, b :: a == b || less(a, b) || less(b, a))
  }

  /** Byte-wise order of strings. */
  predicate Before(a: string, b: string) {
    if b == "" then false
    else if a == "" then true
    else a[0] < b[0] || (a[0] == b[0] && Before(a[1..], b[1..]))
  }

  datatype Key = Key(createdAt: int, id: string)

  /** The row comparison (created_at, id) < (created_at, id). */
  predicate KeyBefore(a: Key, b: Key) {
    a.createdAt < b.createdAt || (a.createdAt == b.createdAt && Before(a.id, b.id))
  }

  predicate ProperPrefix(a: string, b: string) {
    |a| < |b| && b[..|a|] == a
  }

  predicate SmallerAt(a: string, b: string, i: nat) {
    i < |a| && i < |b| && a[..i] == b[..i] && a[i] < b[i]
  }

  /** One string comes before another iff it is a proper prefix of it or smaller where they first differ; and
      registries come oldest first. */
  lemma {:induction false} BeforeIsBytewise(a: string, b: string)
    ensures Before(a, b) <==> ProperPrefix(a, b) || exists i: nat :: SmallerAt(a, b, i)
    ensures forall s: int, t: int :: s < t ==> KeyBefore(Key(s, a), Key(t, b)) && !KeyBefore(Key(t, b), Key(s, a))
  {
    if a != "" && b != "" {
      var x, y := a[1..], b[1..];
      BeforeIsBytewise(x, y);
      assert a == [a[0]] + x && b == [b[0]] + y;
      if a[0] < b[0] {
        assert SmallerAt(a, b, 0);
      } else if a[0] == b[0] {
        assert ProperPrefix(a, b) <==> ProperPrefix(x, y);
        forall i: nat | SmallerAt(x, y, i) ensures SmallerAt(a, b, i + 1) {
          assert a[..i + 1] == [a[0]] + x[..i] && b[..i + 1] == [b[0]] + y[..i];
        }
        forall i: nat | SmallerAt(a, b, i) ensures i > 0 && SmallerAt(x, y, i - 1) {
          assert a[..i][1..] == x[..i - 1] && b[..i][1..] == y[..i - 1];
        }
      } else {
        forall i: nat ensures !SmallerAt(a, b, i) {
          assert i > 0 && i < |a| && i < |b| ==> a[..i][0] != b[..i][0];
        }
      }
    }
  }

  lemma {:induction false} BeforeAsymmetric(a: string, b: string)
    ensures !(Before(a, b) && Before(b, a))
  {
    if a != "" && b != "" {
      BeforeAsymmetric(a[1..], b[1..]);
    }
  }

  lemma {:induction false} BeforeTransitive(a: string, b: string, c: string)
    requires Before(a, b) && Before(b, c)
    ensures Before(a, c)
    decreases |a|
  {
    if a != "" && a[0] == b[0] && b[0] == c[0] {
      BeforeTransitive(a[1..], b[1..], c[1..]);
    }
  }

  lemma {:induction false} BeforeTotal(a: string, b: string)
    ensures a == b || Before(a, b) || Before(b, a)
  {
    if a != "" && b != "" && a[0] == b[0] {
      BeforeTotal(a[1..], b[1..]);
      assert a == [a[0]] + a[1..] && b == [b[0]] + b[1..];
    }
  }

  lemma NamesAreOrdered()
    ensures StrictTotal(Before)
  {
    forall a, b ensures !(Before(a, b) && Before(b, a)) {
      BeforeAsymmetric(a, b);
    }
    forall a, b, c | Before(a, b) && Before(b, c) ensures Before(a, c) {
      BeforeTransitive(a, b, c);
    }
    forall a, b ensures a == b || Before(a, b) || Before(b, a) {
      BeforeTotal(a, b);
    }
  }

  lemma RegistriesAreOrdered()
    ensures StrictTotal(KeyBefore)
  {
    NamesAreOrdered();
  }

  // ---- one page ----

  ghost predicate Sorted<K(!new)>(less: Order<K>, s: seq<K>) {
    forall i, j :: 0 <= i < j < |s| ==> less(s[i], s[j])
  }

  /** What follows the cursor. */
  function After<K(==)>(less: Order<K>, items: seq<K>, cursor: Option<K>): (rest: seq<K>)
    ensures |rest| <= |items|
  {
    if cursor.None? || items == [] then items
    else if less(cursor.value, items[0]) then items
    else After(less, items[1..], cursor)
  }

  datatype Page<K> = Page(keys: seq<K>, next: Option<K>)

  /** At most `size` of what follows, and the last of them as cursor if more remain. */
  function PageOf<K(==)>(less: Order<K>, items: seq<K>, cursor: Option<K>, size: nat): Page<K>
    requires size >= 1
  {
    var rest := After(less, items, cursor);
    if |rest| <= size then Page(rest, None) else Page(rest[..size], Some(rest[size - 1]))
  }

  ghost predicate Follows<K(!new)>(less: Order<K>, cursor: Option<K>, k: K) {
    cursor.None? || less(cursor.value, k)
  }

  lemma {:induction false} AfterIsSuffix<K(!new)>(less: Order<K>, items: seq<K>, cursor: Option<K>)
    requires StrictTotal(less) && Sorted(less, items)
    ensures var rest := After(less, items, cursor);
            && Sorted(less, rest) && (forall k <- rest :: k in items)
            && (forall k <- items :: k in rest <==> Follows(less, cursor, k))
  {
    if cursor.Some? && items != [] && !less(cursor.value, items[0]) {
      AfterIsSuffix(less, items[1..], cursor);
      assert items == [items[0]] + items[1..];
      assert items[0] !in items[1..];
    } else if cursor.Some? && items != [] {
      assert forall i :: 0 < i < |items| ==> less(items[0], items[i]);
    }
  }

  /** A page holds exactly the listed rows between its cursor and the next one. */
  lemma PageHoldsItsRange<K(!new)>(less: Order<K>, items: seq<K>, cursor: Option<K>, size: nat)
    requires StrictTotal(less) && Sorted(less, items) && size >= 1
    ensures var p := PageOf(less, items, cursor, size);
            && Sorted(less, p.keys) && |p.keys| <= size && (p.next.Some? ==> |p.keys| == size)
            && (forall k :: k in p.keys <==> k in items && Follows(less, cursor, k) && !Beyond(less, p.next, k))
            && (p.next.Some? ==> p.keys[|p.keys| - 1] == p.next.value && Follows(less, cursor, p.next.value))
  {
    AfterIsSuffix(less, items, cursor);
    var rest := After(less, items, cursor);
    var p := PageOf(less, items, cursor, size);
    if p.next.Some? {
      forall i | size <= i < |rest| ensures less(p.next.value, rest[i]) {
      }
      forall k | k in items && Follows(less, cursor, k) && !less(p.next.value, k) ensures k in p.keys {
        var i :| 0 <= i < |rest| && rest[i] == k;
        assert i < size;
        assert p.keys[i] == k;
      }
      forall k <- p.keys ensures !less(p.next.value, k) {
        var i :| 0 <= i < size && p.keys[i] == k;
        assert i < size - 1 ==> less(rest[i], rest[size - 1]);
      }
    }
  }

  ghost predicate Beyond<K(!new)>(less: Order<K>, next: Option<K>, k: K) {
    next.Some? && less(next.value, k)
  }

  // ---- whole walks under change ----

  /** One request of a walk: what was there to list when it was served, and its page size. */
  datatype Call<K> = Call(items: seq<K>, size: nat)

  ghost predicate WellFormed<K(!new)>(less: Order<K>, calls: seq<Call<K>>) {
    forall i :: 0 <= i < |calls| ==> Sorted(less, calls[i].items) && calls[i].size >= 1
  }

  /** Everything a client collects that follows the cursors until there is none. */
  ghost function Walk<K(!new)>(less: Order<K>, calls: seq<Call<K>>, cursor: Option<K>): seq<K>
    requires WellFormed(less, calls)
  {
    if calls == [] then [] else
      var p := PageOf(less, calls[0].items, cursor, calls[0].size);
      p.keys + if p.next.None? then [] else Walk(less, calls[1..], p.next)
  }

  /** The walk came to a page without a next cursor. */
  ghost predicate Ends<K(!new)>(less: Order<K>, calls: seq<Call<K>>, cursor: Option<K>)
    requires WellFormed(less, calls)
  {
    calls != [] &&
    var p := PageOf(less, calls[0].items, cursor, calls[0].size);
    p.next.None? || Ends(less, calls[1..], p.next)
  }

  /** However the rows change between the pages, no row is returned twice: the whole walk is
      strictly increasing. */
  lemma {:induction false} WalkIsIncreasing<K(!new)>(less: Order<K>, calls: seq<Call<K>>, cursor: Option<K>)
    requires StrictTotal(less) && WellFormed(less, calls)
    ensures Sorted(less, Walk(less, calls, cursor))
    ensures forall k <- Walk(less, calls, cursor) :: Follows(less, cursor, k)
  {
    if calls != [] {
      var p := PageOf(less, calls[0].items, cursor, calls[0].size);
      PageHoldsItsRange(less, calls[0].items, cursor, calls[0].size);
      if p.next.Some? {
        WalkIsIncreasing(less, calls[1..], p.next);
        SortedConcat(less, p.keys, Walk(less, calls[1..], p.next), p.next.value);
      }
    }
  }

  lemma SortedConcat<K(!new)>(less: Order<K>, a: seq<K>, b: seq<K>, middle: K)
    requires StrictTotal(less) && Sorted(less, a) && Sorted(less, b)
    requires (forall k <- a :: !less(middle, k)) && (forall k <- b :: less(middle, k))
    ensures Sorted(less, a + b)
  {
    forall i, j | 0 <= i < |a| <= j < |a + b| ensures less((a + b)[i], (a + b)[j]) {
      var x, y := a[i], b[j - |a|];
      assert x in a && y in b;
      assert x == middle || less(x, middle);
    }
  }

  /** However the other rows change, a row that is there and matches throughout a walk that comes
      to its end is returned, and (the walk being increasing) exactly once; and nothing is returned
      that was not listed when its page was served. */
  lemma {:induction false} WalkReturnsThePersistent<K(!new)>(less: Order<K>, calls: seq<Call<K>>,
                                                             cursor: Option<K>, k: K)
    requires StrictTotal(less) && WellFormed(less, calls)
    ensures && Ends(less, calls, cursor) && Follows(less, cursor, k)
            && (forall i :: 0 <= i < |calls| ==> k in calls[i].items)
            ==> k in Walk(less, calls, cursor)
    ensures k in Walk(less, calls, cursor) ==> exists i :: 0 <= i < |calls| && k in calls[i].items
  {
    if calls != [] {
      var p := PageOf(less, calls[0].items, cursor, calls[0].size);
      PageHoldsItsRange(less, calls[0].items, cursor, calls[0].size);
      if p.next.Some? {
        var rest := calls[1..];
        WalkReturnsThePersistent(less, rest, p.next, k);
        if k in Walk(less, rest, p.next) {
          var i :| 0 <= i < |rest| && k in rest[i].items;
          assert k in calls[i + 1].items;
        }
      }
    }
  }

  ghost predicate Distinct<K(!new)>(s: seq<K>) {
    forall i, j :: 0 <= i < j < |s| ==> s[i] != s[j]
  }

  /** The registry listing. */
  lemma RegistryWalk(calls: seq<Call<Key>>, k: Key)
    requires WellFormed(KeyBefore, calls) && Ends(KeyBefore, calls, None)
    ensures Distinct(Walk(KeyBefore, calls, None))
    ensures (forall i :: 0 <= i < |calls| ==> k in calls[i].items) ==> k in Walk(KeyBefore, calls, None)
    ensures k in Walk(KeyBefore, calls, None) ==> exists i :: 0 <= i < |calls| && k in calls[i].items
  {
    RegistriesAreOrdered();
    WalkIsIncreasing(KeyBefore, calls, None);
    WalkReturnsThePersistent(KeyBefore, calls, None, k);
    assert forall i, j :: 0 <= i < j < |Walk(KeyBefore, calls, None)| ==>
             KeyBefore(Walk(KeyBefore, calls, None)[i], Walk(KeyBefore, calls, None)[j]);
  }

  /** The tag listing. */
  lemma TagWalk(calls: seq<Call<string>>, tag: string)
    requires WellFormed(Before, calls) && Ends(Before, calls, None)
    ensures Distinct(Walk(Before, calls, None))
    ensures (forall i :: 0 <= i < |calls| ==> tag in calls[i].items) ==> tag in Walk(Before, calls, None)
    ensures tag in Walk(Before, calls, None) ==> exists i :: 0 <= i < |calls| && tag in calls[i].items
  {
    NamesAreOrdered();
    WalkIsIncreasing(Before, calls, None);
    WalkReturnsThePersistent(Before, calls, None, tag);
  }

  function Repeat<K>(call: Call<K>, n: nat): (calls: seq<Call<K>>)
    ensures |calls| == n && forall i :: 0 <= i < n ==> calls[i] == call
  {
    if n == 0 then [] else [call] + Repeat(call, n - 1)
  }

  lemma {:induction false} RepeatIsWellFormed<K(!new)>(less: Order<K>, items: seq<K>, size: nat, n: nat)
    requires Sorted(less, items) && size >= 1
    ensures WellFormed(less, Repeat(Call(items, size), n))
    decreases n
  {
    if n > 0 {
      RepeatIsWellFormed(less, items, size, n - 1);
    }
  }

  /** A page that is not the last, and a walk of the list from there, are a walk of the list. */
  lemma QuietStep<K(!new)>(less: Order<K>, items: seq<K>, size: nat, more: seq<Call<K>>, cursor: Option<K>)
    requires Asymmetric(less) && Sorted(less, items) && size >= 1 && WellFormed(less, more)
    requires |After(less, items, cursor)| > size
    requires var next := Some(After(less, items, cursor)[size - 1]);
             Ends(less, more, next) && Walk(less, more, next) == After(less, items, next)
    ensures WellFormed(less, [Call(items, size)] + more)
    ensures Ends(less, [Call(items, size)] + more, cursor)
    ensures Walk(less, [Call(items, size)] + more, cursor) == After(less, items, cursor)
  {
    var calls := [Call(items, size)] + more;
    var rest := After(less, items, cursor);
    ResumeAfter(less, items, cursor, size);
    assert calls[1..] == more;
    assert rest == rest[..size] + rest[size..];
  }

  /** On a list nobody changes a walk ends, after at most one call per row and one more, and it
      lists everything. */
  lemma {:induction false} QuietWalkEnds<K(!new)>(less: Order<K>, items: seq<K>, size: nat, cursor: Option<K>, n: nat)
    requires Asymmetric(less) && Sorted(less, items) && size >= 1
    requires |After(less, items, cursor)| < n
    ensures WellFormed(less, Repeat(Call(items, size), n)) && Ends(less, Repeat(Call(items, size), n), cursor)
    ensures Walk(less, Repeat(Call(items, size), n), cursor) == After(less, items, cursor)
    decreases n
  {
    RepeatIsWellFormed(less, items, size, n);
    var rest := After(less, items, cursor);
    if |rest| > size {
      ResumeAfter(less, items, cursor, size);
      QuietWalkEnds(less, items, size, Some(rest[size - 1]), n - 1);
      QuietStep(less, items, size, Repeat(Call(items, size), n - 1), cursor);
    }
  }

  /** The next page starts right after this one. */
  lemma ResumeAfter<K(!new)>(less: Order<K>, items: seq<K>, cursor: Option<K>, size: nat)
    requires Asymmetric(less) && Sorted(less, items) && size >= 1 && |After(less, items, cursor)| > size
    ensures var rest := After(less, items, cursor);
            After(less, items, Some(rest[size - 1])) == rest[size..]
  {
    var d := AfterAt(less, items, cursor);
    AfterIndex(less, items, d + size - 1);
    assert items[d..][size - 1] == items[d + size - 1] && items[d..][size..] == items[d + size..];
  }

  lemma {:induction false} AfterAt<K(!new)>(less: Order<K>, items: seq<K>, cursor: Option<K>) returns (d: nat)
    ensures d <= |items| && After(less, items, cursor) == items[d..]
  {
    if cursor.None? || items == [] || less(cursor.value, items[0]) {
      d := 0;
    } else {
      d := AfterAt(less, items[1..], cursor);
      d := d + 1;
    }
  }

  lemma {:induction false} AfterIndex<K(!new)>(less: Order<K>, items: seq<K>, i: nat)
    requires Asymmetric(less) && Sorted(less, items) && i < |items|
    ensures After(less, items, Some(items[i])) == items[i + 1..]
  {
    if i == 0 {
      assert !less(items[0], items[0]);
      if |items| > 1 {
        assert less(items[0], items[1]);
        assert items[1..][0] == items[1];
      }
    } else {
      assert less(items[0], items[i]);
      AfterIndex(less, items[1..], i - 1);
    }
  }
}
