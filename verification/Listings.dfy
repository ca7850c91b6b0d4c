/** The listings that page by key: registries straight from the table, tags from a sorted slice. */
module Listings {
  import opened Common
  import opened Cursors
  import opened KeysetPages

  const DEFAULT_PAGE_SIZE := 50
  const LARGEST_PAGE_SIZE := 1000

  /** The shared page-size rule: zero means the default, anything outside [0..1000] is refused. */
  function ValidPageSize(pageSize: int): (r: Result<nat, Error>)
    ensures r.Success? <==> 0 <= pageSize <= 1000
    ensures r.Success? ==> 1 <= r.value <= 1000 && r.value == if pageSize > 0 then pageSize else 50
    ensures r.Failure? ==> r.error == InvalidArgument
  {
    if pageSize < 0 || pageSize > LARGEST_PAGE_SIZE then Failure(InvalidArgument)
    else Success(if pageSize == 0 then DEFAULT_PAGE_SIZE else pageSize)
  }

  function Keys<T, K>(items: seq<T>, keyOf: T -> K): (keys: seq<K>)
    ensures |keys| == |items| && forall i :: 0 <= i < |items| ==> keys[i] == keyOf(items[i])
  {
    seq(|items|, i requires 0 <= i < |items| => keyOf(items[i]))
  }

  function NameToken(next: Option<string>): string
    requires next.Some? ==> IsBytes(next.value)
  {
    match next
    case None => ""
    case Some(name) => Encode(Padded, name)
  }

  /** The page of a name-sorted slice that a token asks for. */
  method Window<T>(items: seq<T>, keyOf: T -> string, pageSize: int, pageToken: string)
    returns (r: Result<(seq<T>, string), Error>)
    requires forall i :: 0 <= i < |items| ==> IsBytes(keyOf(items[i]))
    ensures r.Failure? <==> ValidPageSize(pageSize).Failure? || Decode(Padded, pageToken).None?
    ensures r.Failure? ==> r.error == InvalidArgument
    ensures r.Success? ==>
              var cursor := if pageToken == "" then None else Decode(Padded, pageToken);
              var page := PageOf(Before, Keys(items, keyOf), cursor, ValidPageSize(pageSize).value);
              && Keys(r.value.0, keyOf) == page.keys
              && (page.next.Some? ==> IsBytes(page.next.value)) && r.value.1 == NameToken(page.next)
              && r.value.0 <= items[|items| - |After(Before, Keys(items, keyOf), cursor)|..]
  {
    var size := ValidPageSize(pageSize);
    if size.Failure? {
      return Failure(size.error);
    }
    var start := 0;
    ghost var cursor: Option<string> := None;
    ghost var keys := Keys(items, keyOf);
    if pageToken != "" {
      var tok := Decode(Padded, pageToken);
      if tok.None? {
        return Failure(InvalidArgument);
      }
      cursor := tok;
      while start < |items| && !Before(tok.value, keyOf(items[start]))
        invariant start <= |items|
        invariant After(Before, keys, cursor) == After(Before, keys[start..], cursor)
      {
        assert keys[start..][1..] == keys[start + 1..];
        start := start + 1;
      }
    }
    assert After(Before, keys, cursor) == keys[start..];
    var end := start + size.value;
    ghost var page := PageOf(Before, keys, cursor, size.value);
    if end >= |items| {
      assert Keys(items[start..], keyOf) == page.keys;
      return Success((items[start..], ""));
    }
    assert Keys(items[start..end], keyOf) == page.keys;
    return Success((items[start..end], Encode(Padded, keyOf(items[end - 1]))));
  }

  /** What a client collects that passes each token back until it gets an empty one. */
  ghost function TokenWalk(calls: seq<Call<string>>, token: string): seq<string>
    requires WellFormed(Before, calls) && NamesUsable(calls)
  {
    if calls == [] then [] else
      var p := PageOf(Before, calls[0].items, CursorOf(token), calls[0].size);
      NextIsListed(calls[0].items, CursorOf(token), calls[0].size);
      p.keys + if NameToken(p.next) == "" then [] else TokenWalk(calls[1..], NameToken(p.next))
  }

  function CursorOf(token: string): Option<string> {
    if token == "" then None else Decode(Padded, token)
  }

  /** Tags are not empty. */
  ghost predicate NamesUsable(calls: seq<Call<string>>) {
    forall i :: 0 <= i < |calls| ==> forall name <- calls[i].items :: name != "" && IsBytes(name)
  }

  lemma NextIsListed(items: seq<string>, cursor: Option<string>, size: nat)
    requires Sorted(Before, items) && size >= 1
    ensures var p := PageOf(Before, items, cursor, size);
            p.next.Some? ==> p.next.value in items
  {
    NamesAreOrdered();
    PageHoldsItsRange(Before, items, cursor, size);
  }

  lemma TokenIsCursor(next: Option<string>)
    requires next.Some? ==> next.value != "" && IsBytes(next.value)
    ensures CursorOf(NameToken(next)) == next
    ensures NameToken(next) == "" <==> next.None?
  {
    if next.Some? {
      DecodeEncode(Padded, next.value);
    }
  }

  /** The encoded tokens lead through the same pages as the names they encode. */
  lemma {:induction false} TokensKeepNames(calls: seq<Call<string>>, token: string)
    requires WellFormed(Before, calls) && NamesUsable(calls)
    ensures TokenWalk(calls, token) == Walk(Before, calls, CursorOf(token))
  {
    if calls != [] {
      var p := PageOf(Before, calls[0].items, CursorOf(token), calls[0].size);
      NextIsListed(calls[0].items, CursorOf(token), calls[0].size);
      TokenIsCursor(p.next);
      if p.next.Some? {
        TokensKeepNames(calls[1..], NameToken(p.next));
      }
    }
  }

  /** The tag listing as a client sees it, by tokens: while tags come and go between the pages, none is
      listed twice, and one that is there throughout a walk that comes to its end is listed. */
  lemma TagsListedOnce(calls: seq<Call<string>>, tag: string)
    requires WellFormed(Before, calls) && NamesUsable(calls)
    ensures Distinct(TokenWalk(calls, ""))
    ensures Ends(Before, calls, None) && (forall i :: 0 <= i < |calls| ==> tag in calls[i].items)
            ==> tag in TokenWalk(calls, "")
    ensures tag in TokenWalk(calls, "") ==> exists i :: 0 <= i < |calls| && tag in calls[i].items
  {
    TokensKeepNames(calls, "");
    NamesAreOrdered();
    WalkIsIncreasing(Before, calls, None);
    WalkReturnsThePersistent(Before, calls, None, tag);
    var walk := Walk(Before, calls, None);
    assert forall i, j :: 0 <= i < j < |walk| ==> Before(walk[i], walk[j]);
  }

  // ---- registries ----

  datatype Row = Row(projectId: string, name: string, key: Key)

  /** An empty project means every project. */
  datatype Query = Query(projectId: string, name: Option<string>, pageSize: int, token: Option<Key>)

  /** A condition of the statement's WHERE clause. */
  datatype Cond = ProjectIs(projectId: string) | NameIs(name: string) | FollowsKey(key: Key)

  predicate Holds(c: Cond, row: Row) {
    match c
    case ProjectIs(p) => row.projectId == p
    case NameIs(n) => row.name == n
    case FollowsKey(k) => KeyBefore(k, row.key)
  }

  predicate AllHold(conds: seq<Cond>, row: Row) {
    forall i :: 0 <= i < |conds| ==> Holds(conds[i], row)
  }

  /** What the query is about: the rows a walk is to return. */
  predicate Wanted(q: Query, row: Row) {
    (q.projectId != "" ==> row.projectId == q.projectId) && (q.name.Some? ==> row.name == q.name.value)
  }

  function RowsWhere(table: seq<Row>, conds: seq<Cond>): seq<Row> {
    if table == [] then []
    else if AllHold(conds, table[0]) then [table[0]] + RowsWhere(table[1..], conds)
    else RowsWhere(table[1..], conds)
  }

  function WantedKeys(table: seq<Row>, q: Query): seq<Key> {
    if table == [] then []
    else if Wanted(q, table[0]) then [table[0].key] + WantedKeys(table[1..], q)
    else WantedKeys(table[1..], q)
  }

  /** The table in the order of its (created_at, id) keys, which are unique. */
  ghost predicate InOrder(table: seq<Row>) {
    forall i, j :: 0 <= i < j < |table| ==> KeyBefore(table[i].key, table[j].key)
  }

  function KeyOf(row: Row): Key {
    row.key
  }

  /** One page of the listing: the query asks for one row more than the page to learn whether
      there is a next one. */
  method ListRegistries(table: seq<Row>, q: Query) returns (out: seq<Row>, next: Option<Key>)
    requires InOrder(table)
    ensures var size := if q.pageSize <= 0 then 50 else q.pageSize;
            var page := PageOf(KeyBefore, WantedKeys(table, q), q.token, size);
            Keys(out, KeyOf) == page.keys && next == page.next
    ensures forall row <- out :: row in table && Wanted(q, row)
  {
    var conds: seq<Cond> := [];
    if q.projectId != "" {
      conds := conds + [ProjectIs(q.projectId)];
    }
    if q.name.Some? {
      conds := conds + [NameIs(q.name.value)];
    }
    if q.token.Some? {
      conds := conds + [FollowsKey(q.token.value)];
    }
    CondsMean(conds, q);
    WhereIsAfter(table, conds, q);
    var pageSize := if q.pageSize <= 0 then DEFAULT_PAGE_SIZE else q.pageSize;
    var rows := RowsWhere(table, conds);
    out, next := Lookahead(rows, pageSize);
    ghost var page := PageOf(KeyBefore, WantedKeys(table, q), q.token, pageSize);
    assert Keys(out, KeyOf) == page.keys;
  }

  /** Reads one row more than the page and drops it again if it is there. */
  method Lookahead(rows: seq<Row>, pageSize: nat) returns (out: seq<Row>, next: Option<Key>)
    requires pageSize >= 1
    ensures if |rows| <= pageSize then out == rows && next == None
            else out == rows[..pageSize] && next == Some(rows[pageSize - 1].key)
  {
    out := [];
    while |out| < |rows| && |out| < pageSize + 1
      invariant |out| <= |rows| && |out| <= pageSize + 1 && out == rows[..|out|]
    {
      out := out + [rows[|out|]];
    }
    next := None;
    if |out| > pageSize {
      next := Some(out[pageSize - 1].key);
      out := out[..pageSize];
    }
  }

  /** The conditions say: wanted, and after the cursor. */
  ghost predicate Mean(conds: seq<Cond>, q: Query) {
    forall row :: AllHold(conds, row) <==> Wanted(q, row) && (q.token.Some? ==> KeyBefore(q.token.value, row.key))
  }

  lemma CondsMean(conds: seq<Cond>, q: Query)
    requires conds == (if q.projectId != "" then [ProjectIs(q.projectId)] else [])
                    + (if q.name.Some? then [NameIs(q.name.value)] else [])
                    + (if q.token.Some? then [FollowsKey(q.token.value)] else [])
    ensures Mean(conds, q)
  {
    var p := if q.projectId != "" then [ProjectIs(q.projectId)] else [];
    var n := if q.name.Some? then [NameIs(q.name.value)] else [];
    var t := if q.token.Some? then [FollowsKey(q.token.value)] else [];
    forall row
      ensures AllHold(conds, row) <==> Wanted(q, row) && (q.token.Some? ==> KeyBefore(q.token.value, row.key))
    {
      AllHoldConcat(p, n, row);
      AllHoldConcat(p + n, t, row);
      assert AllHold(p, row) <==> (q.projectId != "" ==> Holds(ProjectIs(q.projectId), row)) by {
        if q.projectId != "" { assert p[0] == ProjectIs(q.projectId); }
      }
      assert AllHold(n, row) <==> (q.name.Some? ==> Holds(NameIs(q.name.value), row)) by {
        if q.name.Some? { assert n[0] == NameIs(q.name.value); }
      }
      assert AllHold(t, row) <==> (q.token.Some? ==> Holds(FollowsKey(q.token.value), row)) by {
        if q.token.Some? { assert t[0] == FollowsKey(q.token.value); }
      }
    }
  }

  lemma AllHoldConcat(a: seq<Cond>, b: seq<Cond>, row: Row)
    ensures AllHold(a + b, row) <==> AllHold(a, row) && AllHold(b, row)
  {
    var both := a + b;
    assert forall i :: 0 <= i < |a| ==> both[i] == a[i];
    assert forall i :: 0 <= i < |b| ==> both[|a| + i] == b[i];
    assert forall i :: |a| <= i < |both| ==> both[i] == b[i - |a|];
  }

  /** In an ordered table the WHERE clause selects exactly what follows the cursor. */
  lemma {:induction false} WhereIsAfter(table: seq<Row>, conds: seq<Cond>, q: Query)
    requires InOrder(table) && Mean(conds, q)
    ensures Keys(RowsWhere(table, conds), KeyOf) == After(KeyBefore, WantedKeys(table, q), q.token)
    ensures forall row <- RowsWhere(table, conds) :: row in table && Wanted(q, row)
  {
    if table != [] {
      WhereIsAfter(table[1..], conds, q);
      var rest := RowsWhere(table[1..], conds);
      if AllHold(conds, table[0]) {
        assert Keys([table[0]] + rest, KeyOf) == [table[0].key] + Keys(rest, KeyOf);
        AllFollow(table[1..], q, table[0].key);
      }
    }
  }

  /** When the first wanted row follows the cursor, nothing is skipped. */
  lemma {:induction false} AllFollow(table: seq<Row>, q: Query, first: Key)
    requires InOrder(table) && (q.token.Some? ==> KeyBefore(q.token.value, first))
    requires forall i :: 0 <= i < |table| ==> KeyBefore(first, table[i].key)
    ensures After(KeyBefore, WantedKeys(table, q), q.token) == WantedKeys(table, q)
  {
    RegistriesAreOrdered();
    if table != [] {
      AllFollow(table[1..], q, first);
    }
  }

  lemma {:induction false} WantedKeysSorted(table: seq<Row>, q: Query)
    requires InOrder(table)
    ensures Sorted(KeyBefore, WantedKeys(table, q))
    ensures forall k <- WantedKeys(table, q) :: exists i :: 0 <= i < |table| && table[i].key == k && Wanted(q, table[i])
    ensures forall i :: 0 <= i < |table| && Wanted(q, table[i]) ==> table[i].key in WantedKeys(table, q)
  {
    if table != [] {
      WantedKeysSorted(table[1..], q);
      var rest := WantedKeys(table[1..], q);
      forall k <- rest
        ensures exists i :: 0 <= i < |table| && table[i].key == k && Wanted(q, table[i])
        ensures KeyBefore(table[0].key, k)
      {
        var i :| 0 <= i < |table[1..]| && table[1..][i].key == k && Wanted(q, table[1..][i]);
        assert table[i + 1].key == k && Wanted(q, table[i + 1]);
      }
      forall i | 0 <= i < |table| && Wanted(q, table[i]) ensures table[i].key in WantedKeys(table, q) {
        if i > 0 {
          assert table[1..][i - 1] == table[i];
        }
      }
    }
  }

  /** A whole walk over a table that changes between the calls: every registry that is there and
      wanted throughout is returned exactly once. */
  lemma RegistriesListedOnce(tables: seq<seq<Row>>, q: Query, calls: seq<Call<Key>>, k: Key)
    requires |calls| == |tables| && forall i :: 0 <= i < |tables| ==> InOrder(tables[i])
    requires forall i :: 0 <= i < |tables| ==> calls[i].items == WantedKeys(tables[i], q) && calls[i].size >= 1
    ensures WellFormed(KeyBefore, calls)
    ensures Ends(KeyBefore, calls, None) && (forall i :: 0 <= i < |tables| ==> HasWanted(tables[i], q, k))
            ==> k in Walk(KeyBefore, calls, None)
    ensures Distinct(Walk(KeyBefore, calls, None))
  {
    forall i | 0 <= i < |tables|
      ensures Sorted(KeyBefore, calls[i].items) && (HasWanted(tables[i], q, k) ==> k in calls[i].items)
    {
      WantedKeysSorted(tables[i], q);
    }
    RegistriesAreOrdered();
    WalkIsIncreasing(KeyBefore, calls, None);
    WalkReturnsThePersistent(KeyBefore, calls, None, k);
    var walk := Walk(KeyBefore, calls, None);
    assert forall i, j :: 0 <= i < j < |walk| ==> KeyBefore(walk[i], walk[j]);
  }

  ghost predicate HasWanted(table: seq<Row>, q: Query, k: Key) {
    exists i :: 0 <= i < |table| && table[i].key == k && Wanted(q, table[i])
  }
}
