/** The repository listing: pages of what the engine has, united with the durable overlay rows. */
module RepositoryUnion {
  import opened Common
  import opened Cursors
  import opened KeysetPages
  import opened Listings
  import RegistryStore

  type Visibility = RegistryStore.Visibility

  /** A durable row; it survives having no tags. */
  datatype Overlay = Overlay(name: string, description: string, visibility: Visibility, createdAt: int)

  /** A listed repository: overlay fields and projected counts. */
  datatype Repo = Repo(name: string, description: string, visibility: Visibility, createdAt: Option<int>, tagCount: nat)

  /** A fixed state of the namespace: the repositories the engine reports, sorted, with their tag
      counts (zero for a ghost whose tags are gone), and the overlay rows. */
  datatype State = State(names: seq<string>, tags: map<string, nat>, configs: seq<Overlay>) {
    function TagCount(name: string): nat {
      if name in tags then tags[name] else 0
    }

    ghost predicate Valid() {
      && Distinct(names) && |names| <= MAX_INT
      && (forall i, j :: 0 <= i < j < |configs| ==> configs[i].name != configs[j].name)
      && (forall n <- tags :: tags[n] > 0 ==> n in names)
    }
  }

  function OverlayOf(configs: seq<Overlay>, name: string): (o: Option<Overlay>)
    ensures o.Some? ==> o.value in configs && o.value.name == name
    ensures o.None? ==> forall c <- configs :: c.name != name
  {
    if configs == [] then None
    else if configs[0].name == name then Some(configs[0])
    else OverlayOf(configs[1..], name)
  }

  /** A repository as a point read returns it: an overlay row makes it durable, tags alone make it
      ephemeral and private, neither makes it invisible. */
  function MergeRepository(name: string, overlay: Option<Overlay>, projected: Option<nat>): Option<Repo> {
    if overlay.Some? then
      var o := overlay.value;
      Some(Repo(name, o.description, o.visibility, Some(o.createdAt), if projected.Some? then projected.value else 0))
    else if projected.Some? && projected.value > 0 then
      Some(Repo(name, "", RegistryStore.Private, None, projected.value))
    else None
  }

  function Projection(st: State, name: string): Option<nat> {
    if st.TagCount(name) == 0 then None else Some(st.TagCount(name))
  }

  /** What a point read of the name answers. */
  function GetRepository(st: State, name: string): Option<Repo> {
    MergeRepository(name, OverlayOf(st.configs, name), Projection(st, name))
  }

  /** With a row, a point read shows the row's own fields and whatever tags there are; without one it shows
      a private repository with no fields if there are tags, and nothing if there are none. */
  lemma PointReads(st: State, name: string, row: Overlay)
    requires st.Valid()
    ensures row in st.configs && row.name == name ==>
              && GetRepository(st, name).Some?
              && var r := GetRepository(st, name).value;
                 && r.name == name && r.description == row.description && r.visibility == row.visibility
                 && r.createdAt == Some(row.createdAt)
                 && r.tagCount == (if name in st.tags then st.tags[name] else 0)
    ensures (forall c <- st.configs :: c.name != name) ==>
              (GetRepository(st, name).Some? <==> name in st.tags && st.tags[name] > 0)
    ensures (forall c <- st.configs :: c.name != name) && name in st.tags && st.tags[name] > 0 ==>
              var r := GetRepository(st, name).value;
              && r.name == name && r.description == "" && r.visibility == RegistryStore.Private
              && r.createdAt == None && r.tagCount == st.tags[name]
  {
    if row in st.configs && row.name == name {
      var o := OverlayOf(st.configs, name);
      assert o.Some? && o.value in st.configs && o.value.name == name;
      var i :| 0 <= i < |st.configs| && st.configs[i] == row;
      var j :| 0 <= j < |st.configs| && st.configs[j] == o.value;
      assert i == j;
    }
  }

  // ---- the engine's window ----

  /** The names of a namespace: the engine searches by substring, so foreign names are dropped, and
      the rest is sorted. */
  function Namespace(found: seq<string>, prefix: string): seq<string> {
    if found == [] then []
    else if prefix <= found[0] then Insert(found[0][|prefix|..], Namespace(found[1..], prefix))
    else Namespace(found[1..], prefix)
  }

  function Insert(name: string, sorted: seq<string>): seq<string> {
    if sorted == [] || Before(name, sorted[0]) then [name] + sorted
    else [sorted[0]] + Insert(name, sorted[1..])
  }

  lemma {:induction false} InsertSorts(name: string, names: seq<string>)
    requires Sorted(Before, names) && name !in names
    ensures Sorted(Before, Insert(name, names))
    ensures forall n :: n in Insert(name, names) <==> n == name || n in names
  {
    NamesAreOrdered();
    if names != [] && !Before(name, names[0]) {
      var rest := Insert(name, names[1..]);
      assert names == [names[0]] + names[1..];
      InsertSorts(name, names[1..]);
      assert Before(names[0], name);
      forall i | 0 <= i < |rest| ensures Before(names[0], rest[i]) {
        assert rest[i] in rest;
      }
    } else if names != [] {
      forall i | 0 <= i < |names| ensures Before(name, names[i]) {
        assert i > 0 ==> Before(names[0], names[i]);
      }
    }
  }

  /** They come sorted, without repetition, and are exactly those found under the prefix. */
  lemma {:induction false} NamespaceIsSorted(found: seq<string>, prefix: string)
    requires Distinct(found)
    ensures Sorted(Before, Namespace(found, prefix)) && Distinct(Namespace(found, prefix))
    ensures forall n :: n in Namespace(found, prefix) <==> prefix + n in found
  {
    if found != [] {
      var rest := Namespace(found[1..], prefix);
      assert found == [found[0]] + found[1..];
      NamespaceIsSorted(found[1..], prefix);
      if prefix <= found[0] {
        var name := found[0][|prefix|..];
        assert prefix + name == found[0];
        InsertSorts(name, rest);
        forall n ensures n in Namespace(found, prefix) <==> prefix + n in found {
          assert (prefix + n)[|prefix|..] == n;
        }
      } else {
        forall n ensures n in rest <==> prefix + n in found {
          assert (prefix + n)[..|prefix|] == prefix;
        }
      }
      SortedIsDistinct(Namespace(found, prefix));
    }
  }

  lemma SortedIsDistinct(names: seq<string>)
    requires Sorted(Before, names)
    ensures Distinct(names)
  {
    NamesAreOrdered();
  }

  /** A position token; an empty one is the beginning, a broken one an error. */
  function StartOf(pageToken: string): Result<nat, Error> {
    if pageToken == "" then Success(0)
    else
      match DecodeOffset(pageToken)
      case None => Failure(InvalidArgument)
      case Some(off) => if off < 0 then Failure(InvalidArgument) else Success(off)
  }

  function WindowByOffset<T>(items: seq<T>, pageSize: int, pageToken: string): Result<(seq<T>, string), Error> {
    var size := ValidPageSize(pageSize);
    var start := StartOf(pageToken);
    if size.Failure? then Failure(size.error)
    else if start.Failure? then Failure(start.error)
    else Success(WindowAt(items, start.value, size.value))
  }

  /** A page is refused exactly for a size outside [0..1000] or a token that is no position; one past the end
      is empty and the last. */
  lemma RefusedPages<T>(items: seq<T>, pageSize: int, pageToken: string)
    ensures WindowByOffset(items, pageSize, pageToken).Failure?
            <==> || !(0 <= pageSize <= 1000)
                 || (pageToken != "" && (DecodeOffset(pageToken).None? || DecodeOffset(pageToken).value < 0))
    ensures 0 <= pageSize <= 1000 && pageToken != "" && DecodeOffset(pageToken).Some?
            && DecodeOffset(pageToken).value >= |items| ==>
              WindowByOffset(items, pageSize, pageToken) == Success(([], ""))
  {
  }

  function WindowAt<T>(items: seq<T>, start: nat, size: nat): (seq<T>, string) {
    (WindowItems(items, start, size), if start + size >= |items| then "" else EncodeOffset(start + size))
  }

  function WindowItems<T>(items: seq<T>, start: nat, size: nat): seq<T> {
    if start >= |items| then []
    else if start + size >= |items| then items[start..]
    else items[start..start + size]
  }

  /** The tagged repositories among the names: ghosts are dropped. */
  function Tagged(st: State, names: seq<string>): seq<string> {
    if names == [] then []
    else if st.TagCount(names[|names| - 1]) > 0 then Tagged(st, names[..|names| - 1]) + [names[|names| - 1]]
    else Tagged(st, names[..|names| - 1])
  }

  function Rows(st: State, names: seq<string>): (rows: seq<Repo>)
    requires forall n <- names :: GetRepository(st, n).Some?
    ensures |rows| == |names| && forall i :: 0 <= i < |rows| ==> Some(rows[i]) == GetRepository(st, names[i])
  {
    seq(|names|, i requires 0 <= i < |names| => assert names[i] in names; GetRepository(st, names[i]).value)
  }

  /** The names of overlay rows that are not among the given ones. */
  function DurableBesides(configs: seq<Overlay>, names: seq<string>): seq<string> {
    if configs == [] then []
    else if configs[|configs| - 1].name in names then DurableBesides(configs[..|configs| - 1], names)
    else DurableBesides(configs[..|configs| - 1], names) + [configs[|configs| - 1].name]
  }

  /** The names on a page: the window's tagged repositories and, on the first page, every durable
      repository that is not among them. */
  function PageNames(st: State, window: seq<string>, first: bool): seq<string> {
    var tagged := Tagged(st, window);
    tagged + if first then DurableBesides(st.configs, tagged) else []
  }

  lemma {:induction false} TaggedAre(st: State, names: seq<string>, name: string)
    ensures name in Tagged(st, names) <==> name in names && st.TagCount(name) > 0
  {
    if names != [] {
      TaggedAre(st, names[..|names| - 1], name);
      assert names == names[..|names| - 1] + [names[|names| - 1]];
    }
  }

  lemma {:induction false} DurableBesidesAre(configs: seq<Overlay>, names: seq<string>, name: string)
    ensures name in DurableBesides(configs, names) <==> OverlayOf(configs, name).Some? && name !in names
  {
    if configs != [] {
      var n := |configs| - 1;
      DurableBesidesAre(configs[..n], names, name);
      assert configs == configs[..n] + [configs[n]];
      assert OverlayOf(configs, name).Some? <==> exists c <- configs :: c.name == name;
      assert OverlayOf(configs[..n], name).Some? <==> exists c <- configs[..n] :: c.name == name;
    }
  }

  lemma PageNamesAreVisible(st: State, window: seq<string>, first: bool)
    ensures forall n <- PageNames(st, window, first) :: GetRepository(st, n).Some?
  {
    forall n <- PageNames(st, window, first) ensures GetRepository(st, n).Some? {
      TaggedAre(st, window, n);
      DurableBesidesAre(st.configs, Tagged(st, window), n);
    }
  }

  /** One page. Every repository on it is what a point read of its name answers. */
  method ListRepositories(st: State, pageSize: int, pageToken: string) returns (r: Result<(seq<Repo>, string), Error>)
    requires st.Valid()
    ensures r.Failure? <==> WindowByOffset(st.names, pageSize, pageToken).Failure?
    ensures r.Success? ==>
              var window := WindowByOffset(st.names, pageSize, pageToken).value;
              var names := PageNames(st, window.0, pageToken == "");
              && (forall n <- names :: GetRepository(st, n).Some?)
              && r.value == (Rows(st, names), window.1)
  {
    var windowed := WindowByOffset(st.names, pageSize, pageToken);
    if windowed.Failure? {
      return Failure(windowed.error);
    }
    var (window, next) := windowed.value;
    ghost var names := PageNames(st, window, pageToken == "");
    PageNamesAreVisible(st, window, pageToken == "");
    var tagged, rows := EnrichedWindow(st, window);
    if pageToken == "" {
      rows := AppendDurable(st, tagged, rows);
    }
    assert rows == Rows(st, names) by {
      if pageToken == "" {
        assert names == tagged + DurableBesides(st.configs, tagged);
      } else {
        assert names == tagged;
      }
    }
    return Success((rows, next));
  }

  method EnrichedWindow(st: State, window: seq<string>) returns (tagged: seq<string>, rows: seq<Repo>)
    ensures tagged == Tagged(st, window) && (forall n <- tagged :: GetRepository(st, n).Some?)
    ensures rows == Rows(st, tagged)
  {
    tagged := TaggedWindow(st, window);
    forall n <- tagged ensures st.TagCount(n) > 0 {
      TaggedAre(st, window, n);
    }
    var items := new Repo[|tagged|](i requires 0 <= i < |tagged| =>
      Repo(tagged[i], "", RegistryStore.Unspecified, None, st.TagCount(tagged[i])));
    Enrich(st, items, tagged);
    rows := items[..];
  }

  method TaggedWindow(st: State, window: seq<string>) returns (tagged: seq<string>)
    ensures tagged == Tagged(st, window)
  {
    tagged := [];
    for i := 0 to |window|
      invariant tagged == Tagged(st, window[..i])
    {
      assert window[..i + 1][..i] == window[..i];
      if st.TagCount(window[i]) > 0 {
        tagged := tagged + [window[i]];
      }
    }
    assert window[..|window|] == window;
  }

  /** Overwrites the overlay fields of the window's rows in place. */
  method Enrich(st: State, items: array<Repo>, names: seq<string>)
    requires items.Length == |names| && forall n <- names :: st.TagCount(n) > 0
    requires forall i :: 0 <= i < |names| ==>
               items[i] == Repo(names[i], "", RegistryStore.Unspecified, None, st.TagCount(names[i]))
    modifies items
    ensures forall i :: 0 <= i < |names| ==> Some(items[i]) == GetRepository(st, names[i])
  {
    for i := 0 to items.Length
      invariant forall j :: 0 <= j < i ==> Some(items[j]) == GetRepository(st, names[j])
      invariant forall j :: i <= j < |names| ==>
                  items[j] == Repo(names[j], "", RegistryStore.Unspecified, None, st.TagCount(names[j]))
    {
      var row := items[i];
      match OverlayOf(st.configs, row.name) {
        case Some(c) =>
          items[i] := row.(description := c.description, visibility := c.visibility, createdAt := Some(c.createdAt));
        case None =>
          items[i] := row.(visibility := RegistryStore.Private);
      }
    }
  }

  /** Appends the overlay rows that the window does not have, each with its own tag count. */
  method AppendDurable(st: State, tagged: seq<string>, window: seq<Repo>) returns (rows: seq<Repo>)
    requires st.Valid()
    ensures forall n <- DurableBesides(st.configs, tagged) :: GetRepository(st, n).Some?
    ensures rows == window + Rows(st, DurableBesides(st.configs, tagged))
  {
    forall n <- DurableBesides(st.configs, tagged) ensures GetRepository(st, n).Some? {
      DurableBesidesAre(st.configs, tagged, n);
    }
    rows := window;
    for i := 0 to |st.configs|
      invariant forall n <- DurableBesides(st.configs[..i], tagged) :: GetRepository(st, n).Some?
      invariant rows == window + Rows(st, DurableBesides(st.configs[..i], tagged))
    {
      var c := st.configs[i];
      assert st.configs[..i + 1][..i] == st.configs[..i];
      if c.name !in tagged {
        OwnOverlay(st.configs, i);
        var merged := MergeRepository(c.name, Some(c), Projection(st, c.name));
        rows := rows + [merged.value];
      }
    }
    assert st.configs[..|st.configs|] == st.configs;
  }

  lemma {:induction false} OwnOverlay(configs: seq<Overlay>, i: nat)
    requires i < |configs| && forall j, k :: 0 <= j < k < |configs| ==> configs[j].name != configs[k].name
    ensures OverlayOf(configs, configs[i].name) == Some(configs[i])
  {
    if i > 0 {
      OwnOverlay(configs[1..], i - 1);
    }
  }

  // ---- whole walks ----

  /** The names listed by a client that follows the tokens to the end. */
  function Listing(st: State, size: nat, pageToken: string): seq<string>
    requires st.Valid() && size >= 1 && StartOf(pageToken).Success?
    decreases if StartOf(pageToken).value <= |st.names| then |st.names| - StartOf(pageToken).value else 0
  {
    var start := StartOf(pageToken).value;
    var (window, next) := WindowAt(st.names, start, size);
    PageNames(st, window, pageToken == "") +
    if next == "" then [] else
      TokenResumes(st.names, start, size);
      Listing(st, size, next)
  }

  lemma TokenResumes<T>(items: seq<T>, start: nat, size: nat)
    requires |items| <= MAX_INT && size >= 1
    ensures var next := WindowAt(items, start, size).1;
            if start + size < |items| then next != "" && StartOf(next) == Success(start + size) else next == ""
  {
    if start + size < |items| {
      OffsetRoundTrip(start + size);
    }
  }

  function Occurrences(names: seq<string>, name: string): nat {
    if names == [] then 0
    else Occurrences(names[..|names| - 1], name) + if names[|names| - 1] == name then 1 else 0
  }

  lemma {:induction false} OccurrencesConcat(a: seq<string>, b: seq<string>, name: string)
    ensures Occurrences(a + b, name) == Occurrences(a, name) + Occurrences(b, name)
  {
    if b == [] {
      assert a + b == a;
    } else {
      assert (a + b)[..|a + b| - 1] == a + b[..|b| - 1];
      OccurrencesConcat(a, b[..|b| - 1], name);
    }
  }

  lemma {:induction false} OccursOnce(names: seq<string>, name: string)
    requires Distinct(names)
    ensures Occurrences(names, name) == if name in names then 1 else 0
  {
    if names != [] {
      OccursOnce(names[..|names| - 1], name);
      assert names == names[..|names| - 1] + [names[|names| - 1]];
    }
  }

  lemma {:induction false} TaggedOccurrences(st: State, names: seq<string>, name: string)
    ensures Occurrences(Tagged(st, names), name) == if st.TagCount(name) > 0 then Occurrences(names, name) else 0
  {
    if names != [] {
      var n := |names| - 1;
      TaggedOccurrences(st, names[..n], name);
      if st.TagCount(names[n]) > 0 {
        OccurrencesConcat(Tagged(st, names[..n]), [names[n]], name);
        assert Occurrences([names[n]], name) == Occurrences([], name) + if names[n] == name then 1 else 0;
      }
    }
  }

  lemma {:induction false} DurableOccurrences(configs: seq<Overlay>, names: seq<string>, name: string)
    requires forall i, j :: 0 <= i < j < |configs| ==> configs[i].name != configs[j].name
    ensures Occurrences(DurableBesides(configs, names), name)
         == if OverlayOf(configs, name).Some? && name !in names then 1 else 0
  {
    if configs != [] {
      var n := |configs| - 1;
      DurableOccurrences(configs[..n], names, name);
      DurableBesidesAre(configs, names, name);
      DurableBesidesAre(configs[..n], names, name);
      if configs[n].name !in names {
        OccurrencesConcat(DurableBesides(configs[..n], names), [configs[n].name], name);
        assert Occurrences([configs[n].name], name) == Occurrences([], name) + if configs[n].name == name then 1 else 0;
      }
      assert OverlayOf(configs[..n], name).Some? ==> configs[n].name != name;
    }
  }

  function From(names: seq<string>, start: nat): seq<string> {
    if start <= |names| then names[start..] else []
  }

  lemma WindowSplits(names: seq<string>, start: nat, size: nat)
    ensures From(names, start) == WindowItems(names, start, size) + From(names, start + size)
    ensures start + size >= |names| ==> From(names, start + size) == []
  {
    if start + size < |names| {
      assert names[start..] == names[start..start + size] + names[start + size..];
    }
  }

  /** The pages after the first one, by positions instead of tokens. */
  function LaterNames(st: State, start: nat, size: nat): seq<string>
    requires size >= 1
    decreases if start <= |st.names| then |st.names| - start else 0
  {
    Tagged(st, WindowItems(st.names, start, size)) +
    if start + size >= |st.names| then [] else LaterNames(st, start + size, size)
  }

  /** One page and what its token leads to. */
  lemma ListingUnfolds(st: State, size: nat, pageToken: string, start: nat) returns (next: string)
    requires st.Valid() && size >= 1 && pageToken != "" && StartOf(pageToken) == Success(start)
    ensures start + size >= |st.names| ==>
              Listing(st, size, pageToken) == Tagged(st, WindowItems(st.names, start, size))
    ensures start + size < |st.names| ==>
              && next != "" && StartOf(next) == Success(start + size)
              && Listing(st, size, pageToken)
                 == Tagged(st, WindowItems(st.names, start, size)) + Listing(st, size, next)
  {
    next := WindowAt(st.names, start, size).1;
    TokenResumes(st.names, start, size);
    NothingAppended(st, WindowItems(st.names, start, size));
    assert next == "" <==> start + size >= |st.names|;
  }

  /** Tokens neither skip nor repeat a position. */
  lemma {:induction false} TokensKeepPositions(st: State, size: nat, pageToken: string, start: nat)
    requires st.Valid() && size >= 1 && pageToken != "" && StartOf(pageToken) == Success(start)
    ensures Listing(st, size, pageToken) == LaterNames(st, start, size)
    decreases if start <= |st.names| then |st.names| - start else 0
  {
    var next := ListingUnfolds(st, size, pageToken, start);
    if start + size < |st.names| {
      TokensKeepPositions(st, size, next, start + size);
    }
  }

  lemma NothingAppended(st: State, window: seq<string>)
    ensures PageNames(st, window, false) == Tagged(st, window)
  {
  }

  /** After the first page, a listing names each tagged repository that is left exactly once. */
  lemma {:induction false} LaterNamesListTagged(st: State, start: nat, size: nat, name: string)
    requires size >= 1
    ensures Occurrences(LaterNames(st, start, size), name)
         == if st.TagCount(name) > 0 then Occurrences(From(st.names, start), name) else 0
    decreases if start <= |st.names| then |st.names| - start else 0
  {
    var window := WindowItems(st.names, start, size);
    var after := From(st.names, start + size);
    WindowSplits(st.names, start, size);
    if start + size < |st.names| {
      LaterNamesListTagged(st, start + size, size, name);
      TaggedThenRest(st, window, after, LaterNames(st, start + size, size), name);
    } else {
      TaggedThenRest(st, window, after, [], name);
    }
  }

  lemma TaggedThenRest(st: State, window: seq<string>, after: seq<string>, rest: seq<string>, name: string)
    requires Occurrences(rest, name) == if st.TagCount(name) > 0 then Occurrences(after, name) else 0
    ensures Occurrences(Tagged(st, window) + rest, name)
         == if st.TagCount(name) > 0 then Occurrences(window + after, name) else 0
  {
    OccurrencesConcat(Tagged(st, window), rest, name);
    OccurrencesConcat(window, after, name);
    TaggedOccurrences(st, window, name);
  }

  /** How often a walk from the beginning lists a name: a tagged repository once, and a durable one
      once more unless the first window already has it. */
  lemma ListedExactly(st: State, size: nat, name: string)
    requires st.Valid() && size >= 1
    ensures Occurrences(Listing(st, size, ""), name)
         == (if st.TagCount(name) > 0 then 1 else 0)
          + (if OverlayOf(st.configs, name).Some? && name !in Tagged(st, WindowAt(st.names, 0, size).0) then 1 else 0)
  {
    var window := WindowItems(st.names, 0, size);
    var tagged := Tagged(st, window);
    var durable := DurableBesides(st.configs, tagged);
    var rest := if size >= |st.names| then [] else LaterNames(st, size, size);
    ListingIs(st, size);
    OccurrencesConcat(tagged + durable, rest, name);
    OccurrencesConcat(tagged, durable, name);
    DurableOccurrences(st.configs, tagged, name);
    if size < |st.names| {
      LaterNamesListTagged(st, size, size, name);
    }
    FirstAndRest(st, size, rest, name);
  }

  lemma FirstAndRest(st: State, size: nat, rest: seq<string>, name: string)
    requires st.Valid() && size >= 1
    requires Occurrences(rest, name) == if st.TagCount(name) > 0 then Occurrences(From(st.names, size), name) else 0
    ensures Occurrences(Tagged(st, WindowItems(st.names, 0, size)), name) + Occurrences(rest, name)
         == if st.TagCount(name) > 0 then 1 else 0
  {
    var window := WindowItems(st.names, 0, size);
    WindowSplits(st.names, 0, size);
    assert From(st.names, 0) == st.names;
    TaggedOccurrences(st, window, name);
    OccurrencesConcat(window, From(st.names, size), name);
    OccursOnce(st.names, name);
  }

  /** A whole listing: the first window, the durable rest, and the later windows. */
  lemma ListingIs(st: State, size: nat)
    requires st.Valid() && size >= 1
    ensures var tagged := Tagged(st, WindowItems(st.names, 0, size));
            Listing(st, size, "") == (tagged + DurableBesides(st.configs, tagged))
                                   + if size >= |st.names| then [] else LaterNames(st, size, size)
  {
    var (window, next) := WindowAt(st.names, 0, size);
    TokenResumes(st.names, 0, size);
    if next != "" {
      TokensKeepPositions(st, size, next, size);
    }
  }

  lemma {:induction false} OccursIffIn(names: seq<string>, name: string)
    ensures Occurrences(names, name) > 0 <==> name in names
  {
    if names != [] {
      OccursIffIn(names[..|names| - 1], name);
      assert names == names[..|names| - 1] + [names[|names| - 1]];
    }
  }

  /** The union is complete and says nothing else: a name is listed exactly when a point read
      finds it, that is when it has an overlay row or a tag. An ephemeral repository is listed
      exactly once and private; a durable one at least once and at most twice, twice exactly when
      it is tagged but not in the first window. */
  lemma ListingIsTheUnion(st: State, size: nat, name: string)
    requires st.Valid() && size >= 1
    ensures name in Listing(st, size, "") <==> GetRepository(st, name).Some?
    ensures OverlayOf(st.configs, name).None? && st.TagCount(name) > 0 ==>
              && Occurrences(Listing(st, size, ""), name) == 1
              && GetRepository(st, name).value.visibility == RegistryStore.Private
    ensures OverlayOf(st.configs, name).Some? ==>
              && 1 <= Occurrences(Listing(st, size, ""), name) <= 2
              && (Occurrences(Listing(st, size, ""), name) == 2
                  <==> st.TagCount(name) > 0 && name !in WindowAt(st.names, 0, size).0)
  {
    ListedExactly(st, size, name);
    OccursIffIn(Listing(st, size, ""), name);
    TaggedAre(st, WindowAt(st.names, 0, size).0, name);
  }
}
