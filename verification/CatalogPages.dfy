/** The repository catalog: pages of a sorted list, each filtered by one check per name. */
module CatalogPages {
  import opened Common
  import opened Cursors

  const MAX_PAGE_SIZE := 1000

  /** Absent, broken, non-positive and oversized page sizes all mean the maximum. */
  function ParseCatalogPageSize(n: string): (r: nat)
    ensures 1 <= r <= MAX_PAGE_SIZE
  {
    match Atoi(n)
    case None => MAX_PAGE_SIZE
    case Some(v) => if v <= 0 || v > MAX_PAGE_SIZE then MAX_PAGE_SIZE else v
  }

  /** A size in range is taken as written; none at all, zero, a negative or larger one, and text that is
      no number mean the maximum. */
  lemma CatalogPageSizes(v: nat, n: string)
    ensures ParseCatalogPageSize("") == 1000
    ensures ParseCatalogPageSize(Itoa(v)) == if 1 <= v <= 1000 then v else 1000
    ensures ParseCatalogPageSize("-" + Itoa(v)) == 1000
    ensures Atoi(n).None? ==> ParseCatalogPageSize(n) == 1000
    ensures ParseCatalogPageSize(n) != 1000 ==> Atoi(n) == Some(ParseCatalogPageSize(n))
  {
    AtoiItoa(v);
    AtoiSigned(v, n);
    assert Atoi("").None?;
  }

  datatype Window = Window(names: seq<string>, next: nat, more: bool)

  /** Where the page of a cursor begins: out of range means one of the ends. */
  function StartOf(names: seq<string>, last: string): (start: nat)
    ensures start <= |names|
  {
    var off := DecodeCatalogCursor(last);
    if off < 0 then 0 else if off > |names| then |names| else off
  }

  function CatalogWindow(names: seq<string>, last: string, pageSize: nat): Window {
    WindowAt(names, StartOf(names, last), pageSize)
  }

  function WindowAt(names: seq<string>, start: nat, pageSize: nat): Window
    requires start <= |names|
  {
    var rest := names[start..];
    if |rest| > pageSize then Window(rest[..pageSize], start + pageSize, true)
    else Window(rest, start + |rest|, false)
  }

  datatype Link = Link(n: string, last: string)
  datatype Page = Page(visible: seq<string>, next: Option<Link>)

  /** The names of the list that the check allows, in order. */
  function Visible(names: seq<string>, check: string -> Option<bool>): seq<string> {
    if names == [] then [] else
      Visible(names[..|names| - 1], check) +
      if check(names[|names| - 1]) == Some(true) then [names[|names| - 1]] else []
  }

  function LinkOf(w: Window, pageSize: nat): Option<Link> {
    if w.more && |w.names| > 0 then Some(Link(Itoa(pageSize), EncodeCatalogCursor(w.next))) else None
  }

  function Positions(n: nat): set<nat> {
    set i: nat | i < n && InRange(i, n)
  }

  predicate InRange(i: nat, n: nat) {
    i < n
  }

  /** One page: the window's names are checked concurrently, in any order, each filling its own
      flag; then the allowed names are collected in order. Any failed check fails the page. */
  method ServeCatalog(names: seq<string>, check: string -> Option<bool>, n: string, last: string)
    returns (r: Result<Page, Error>)
    ensures var w := CatalogWindow(names, last, ParseCatalogPageSize(n));
            && (r.Failure? <==> exists i :: 0 <= i < |w.names| && check(w.names[i]).None?)
            && (r.Failure? ==> r.error == Unavailable)
            && (r.Success? ==> r.value == Page(Visible(w.names, check), LinkOf(w, ParseCatalogPageSize(n))))
  {
    var pageSize := ParseCatalogPageSize(n);
    var w := CatalogWindow(names, last, pageSize);
    var allowed, failed := CheckWindow(w.names, check);
    if failed {
      return Failure(Unavailable);
    }
    var visible := Collect(w.names, allowed[..], check);
    return Success(Page(visible, LinkOf(w, pageSize)));
  }

  method Collect(names: seq<string>, allowed: seq<bool>, ghost check: string -> Option<bool>)
    returns (visible: seq<string>)
    requires |allowed| == |names| && forall i :: 0 <= i < |names| ==> check(names[i]) == Some(allowed[i])
    ensures visible == Visible(names, check)
  {
    visible := [];
    for i := 0 to |names|
      invariant visible == Visible(names[..i], check)
    {
      assert names[..i + 1][..i] == names[..i];
      if allowed[i] {
        visible := visible + [names[i]];
      }
    }
    assert names[..|names|] == names;
  }

  method CheckWindow(names: seq<string>, check: string -> Option<bool>) returns (allowed: array<bool>, failed: bool)
    ensures allowed.Length == |names|
    ensures failed <==> exists i :: 0 <= i < |names| && check(names[i]).None?
    ensures !failed ==> forall i :: 0 <= i < |names| ==> check(names[i]) == Some(allowed[i])
  {
    allowed := new bool[|names|];
    var pending := Positions(|names|);
    failed := false;
    while pending != {}
      invariant pending <= Positions(|names|)
      invariant failed <==> exists i :: 0 <= i < |names| && i !in pending && check(names[i]).None?
      invariant forall i :: 0 <= i < |names| && i !in pending && check(names[i]).Some? ==>
                  check(names[i]) == Some(allowed[i])
    {
      var i :| i in pending;
      ghost var before := pending;
      pending := pending - {i};
      match check(names[i]) {
        case None => failed := true;
        case Some(answer) => allowed[i] := answer;
      }
      assert before == pending + {i};
    }
  }

  /** Any cursor, garbage included, gives a well-formed slice of the catalog with at most a page of
      checks, and `more` says exactly whether names remain after it. */
  lemma WindowIsSlice(names: seq<string>, last: string, pageSize: nat)
    ensures var w := CatalogWindow(names, last, pageSize);
            var start := StartOf(names, last);
            && w.names == names[start..w.next] && |w.names| <= pageSize
            && (w.more <==> w.next < |names|) && (w.more ==> |w.names| == pageSize)
    ensures Decode(RawUrl, last).None? || DecodeCatalogCursor(last) <= 0 ==> StartOf(names, last) == 0
    ensures DecodeCatalogCursor(last) >= |names| ==> StartOf(names, last) == |names|
    ensures 0 <= DecodeCatalogCursor(last) <= |names| ==> StartOf(names, last) == DecodeCatalogCursor(last)
  {
  }

  lemma LinkResumes(names: seq<string>, w: Window, pageSize: nat)
    requires |names| <= MAX_INT && 1 <= pageSize <= MAX_PAGE_SIZE && w.next <= |names| && LinkOf(w, pageSize).Some?
    ensures var link := LinkOf(w, pageSize).value;
            ParseCatalogPageSize(link.n) == pageSize && StartOf(names, link.last) == w.next
  {
    AtoiItoa(pageSize);
    OffsetRoundTrip(w.next);
  }

  /** The windows a client sees that follows every link. */
  function Walk(names: seq<string>, n: string, last: string): seq<Window>
    requires |names| <= MAX_INT
    decreases |names| - StartOf(names, last)
  {
    var size := ParseCatalogPageSize(n);
    var w := CatalogWindow(names, last, size);
    match LinkOf(w, size)
    case None => [w]
    case Some(link) =>
      LinkResumes(names, w, size);
      [w] + Walk(names, link.n, link.last)
  }

  /** The same walk by positions instead of cursors. */
  function WalkFrom(names: seq<string>, start: nat, size: nat): seq<Window>
    requires start <= |names| && size >= 1
    decreases |names| - start
  {
    var w := WindowAt(names, start, size);
    if w.more then [w] + WalkFrom(names, w.next, size) else [w]
  }

  /** Cursors neither skip nor repeat a position, and the links keep the page size. */
  lemma {:induction false} CursorsKeepPositions(names: seq<string>, n: string, last: string)
    requires |names| <= MAX_INT
    ensures Walk(names, n, last) == WalkFrom(names, StartOf(names, last), ParseCatalogPageSize(n))
    decreases |names| - StartOf(names, last)
  {
    var size := ParseCatalogPageSize(n);
    var w := CatalogWindow(names, last, size);
    var link := LinkOf(w, size);
    if link.Some? {
      LinkResumes(names, w, size);
      CursorsKeepPositions(names, link.value.n, link.value.last);
    }
  }

  function AllVisible(pages: seq<Window>, check: string -> Option<bool>): seq<string> {
    if pages == [] then [] else Visible(pages[0].names, check) + AllVisible(pages[1..], check)
  }

  lemma {:induction false} VisibleConcat(a: seq<string>, b: seq<string>, check: string -> Option<bool>)
    ensures Visible(a + b, check) == Visible(a, check) + Visible(b, check)
  {
    if b == [] {
      assert a + b == a;
    } else {
      var n := |b| - 1;
      assert (a + b)[..|a + b| - 1] == a + b[..n];
      assert (a + b)[|a + b| - 1] == b[n];
      VisibleConcat(a, b[..n], check);
    }
  }

  lemma {:induction false} WalkFromListsTheRest(names: seq<string>, start: nat, size: nat,
                                                check: string -> Option<bool>)
    requires start <= |names| && size >= 1
    ensures AllVisible(WalkFrom(names, start, size), check) == Visible(names[start..], check)
    decreases |names| - start
  {
    var pages := WalkFrom(names, start, size);
    var w := WindowAt(names, start, size);
    if w.more {
      WalkFromListsTheRest(names, w.next, size, check);
      assert pages[1..] == WalkFrom(names, w.next, size);
      VisibleConcat(w.names, names[w.next..], check);
      assert names[start..] == w.names + names[w.next..];
    } else {
      assert AllVisible(pages[1..], check) == [];
    }
  }

  /** From any cursor, following the links ends, and what is listed is the allowed part of the
      rest of the catalog, in order, nothing missing and nothing twice. */
  lemma WalkListsTheRest(names: seq<string>, n: string, last: string, check: string -> Option<bool>)
    requires |names| <= MAX_INT
    ensures AllVisible(Walk(names, n, last), check) == Visible(names[StartOf(names, last)..], check)
  {
    CursorsKeepPositions(names, n, last);
    WalkFromListsTheRest(names, StartOf(names, last), ParseCatalogPageSize(n), check);
  }

  /** A whole walk is one big filter of the whole catalog. */
  lemma WalkIsOneFilter(names: seq<string>, n: string, check: string -> Option<bool>)
    requires |names| <= MAX_INT
    ensures AllVisible(Walk(names, n, ""), check) == Visible(names, check)
  {
    WalkListsTheRest(names, n, "", check);
    assert names[0..] == names;
  }

  lemma {:induction false} WalkFromLength(names: seq<string>, start: nat, size: nat)
    requires start <= |names| && size >= 1
    ensures (|WalkFrom(names, start, size)| - 1) * size <= |names| - start <= |WalkFrom(names, start, size)| * size
    decreases |names| - start
  {
    if start + size < |names| {
      WalkFromLength(names, start + size, size);
      var k := |WalkFrom(names, start + size, size)|;
      assert |WalkFrom(names, start, size)| == k + 1;
      assert (k + 1) * size == k * size + size && k * size == (k - 1) * size + size;
    }
  }

  /** It takes one request per full page and one for the remainder, however little is visible. */
  lemma WalkLength(names: seq<string>, n: string, last: string)
    requires |names| <= MAX_INT
    ensures var left := |names| - StartOf(names, last);
            var size := ParseCatalogPageSize(n);
            (|Walk(names, n, last)| - 1) * size <= left <= |Walk(names, n, last)| * size
  {
    CursorsKeepPositions(names, n, last);
    WalkFromLength(names, StartOf(names, last), ParseCatalogPageSize(n));
  }
}
