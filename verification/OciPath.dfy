/** Request paths of the distribution API: the parser of the data plane, and the printer the
    engine client uses. Percent-encoding is that of section 2.1 of RFC 3986. */
module OciPath {
  import opened Common
  import opened Cursors

  // ---- percent-encoding of one path segment ----

  predicate Kept(c: char) {
    || 'a' <= c <= 'z' || 'A' <= c <= 'Z' || '0' <= c <= '9'
    || c == '-' || c == '_' || c == '.' || c == '~'
    || c == '$' || c == '&' || c == '+' || c == ':' || c == '=' || c == '@'
  }

  function HexDigit(v: nat): (c: char)
    requires v < 16
    ensures HexValue(c) == Some(v) && c != '/'
  {
    if v < 10 then ('0' as int + v) as char else ('A' as int + v - 10) as char
  }

  function HexValue(c: char): (v: Option<nat>)
    ensures v.Some? ==> v.value < 16
  {
    if '0' <= c <= '9' then Some(c as int - '0' as int)
    else if 'a' <= c <= 'f' then Some(c as int - 'a' as int + 10)
    else if 'A' <= c <= 'F' then Some(c as int - 'A' as int + 10)
    else None
  }

  /** Strings stand for their bytes; a character that is none is left alone. */
  function EscapeByte(c: char): string {
    if Kept(c) || c as int >= 256 then [c] else ['%', HexDigit(c as int / 16), HexDigit(c as int % 16)]
  }

  function PathEscape(s: string): string {
    if s == "" then "" else EscapeByte(s[0]) + PathEscape(s[1..])
  }

  function PathUnescape(s: string): Option<string> {
    if s == "" then Some("")
    else if s[0] != '%' then Prepend(s[0], PathUnescape(s[1..]))
    else if |s| < 3 || HexValue(s[1]).None? || HexValue(s[2]).None? then None
    else Prepend(Byte(HexValue(s[1]).value * 16 + HexValue(s[2]).value), PathUnescape(s[3..]))
  }

  function Prepend(c: char, rest: Option<string>): Option<string> {
    match rest
    case None => None
    case Some(s) => Some([c] + s)
  }

  lemma UnescapeByte(c: char, rest: string)
    ensures PathUnescape(EscapeByte(c) + rest) == Prepend(c, PathUnescape(rest))
  {
    var text := EscapeByte(c) + rest;
    if Kept(c) || c as int >= 256 {
      assert text[1..] == rest;
    } else {
      assert text[3..] == rest;
      assert Byte(c as int / 16 * 16 + c as int % 16) == c;
    }
  }

  /** Unescaping undoes escaping, and an escaped segment has no separator. */
  lemma {:induction false} UnescapeEscape(s: string)
    ensures PathUnescape(PathEscape(s)) == Some(s) && '/' !in PathEscape(s)
    ensures PathEscape(s) == "" <==> s == ""
  {
    if s != "" {
      UnescapeEscape(s[1..]);
      UnescapeByte(s[0], PathEscape(s[1..]));
      assert s == [s[0]] + s[1..];
    }
  }

  lemma UnescapeNonEmpty(s: string)
    requires s != "" && PathUnescape(s).Some?
    ensures PathUnescape(s).value != ""
  {
  }

  /** What section 2.1 of RFC 3986 gives for separators and for the escape character itself. */
  lemma EscapeVectors()
    ensures PathEscape("/") == "%2F" && PathEscape("%") == "%25"
    ensures PathEscape("\\") == "%5C" && PathEscape(" ") == "%20"
  {
    assert EscapeByte('/') == "%2F" && EscapeByte('%') == "%25";
    assert EscapeByte('\\') == "%5C" && EscapeByte(' ') == "%20";
  }

  /** Text of kept characters only is its own escape. */
  lemma {:induction false} KeptUnchanged(s: string)
    requires forall i :: 0 <= i < |s| ==> Kept(s[i])
    ensures PathEscape(s) == s
  {
    if s != "" {
      KeptUnchanged(s[1..]);
      assert s == [s[0]] + s[1..];
    }
  }

  // ---- splitting at '/' ----

  function Split(s: string): (segs: seq<string>)
    ensures segs != []
  {
    if s == "" then [""]
    else if s[0] == '/' then [""] + Split(s[1..])
    else
      var rest := Split(s[1..]);
      [[s[0]] + rest[0]] + rest[1..]
  }

  function Join(segs: seq<string>): string {
    if segs == [] then ""
    else if |segs| == 1 then segs[0]
    else segs[0] + "/" + Join(segs[1..])
  }

  predicate NoSlash(segs: seq<string>) {
    forall i :: 0 <= i < |segs| ==> '/' !in segs[i]
  }

  lemma {:induction false} SplitPrefix(seg: string, rest: string)
    requires '/' !in seg
    ensures Split(seg + "/" + rest) == [seg] + Split(rest)
    ensures Split(seg) == [seg]
  {
    var text := seg + "/" + rest;
    if seg == "" {
      assert text[1..] == rest;
    } else {
      SplitPrefix(seg[1..], rest);
      assert text[1..] == seg[1..] + "/" + rest;
      assert [seg[0]] + seg[1..] == seg;
    }
  }

  lemma {:induction false} SplitJoin(segs: seq<string>)
    requires segs != [] && NoSlash(segs)
    ensures Split(Join(segs)) == segs
  {
    if |segs| == 1 {
      SplitPrefix(segs[0], "");
    } else {
      SplitPrefix(segs[0], Join(segs[1..]));
      SplitJoin(segs[1..]);
    }
  }

  lemma {:induction false} JoinSplit(s: string)
    ensures Join(Split(s)) == s && NoSlash(Split(s))
  {
    if s != "" {
      JoinSplit(s[1..]);
      var rest := Split(s[1..]);
      if s[0] == '/' {
        assert ([""] + rest)[1..] == rest;
        assert s == "/" + s[1..];
      } else {
        var first := [s[0]] + rest[0];
        assert ([first] + rest[1..])[1..] == rest[1..];
        assert s == [s[0]] + s[1..];
      }
    }
  }

  lemma {:induction false} JoinConcat(a: seq<string>, b: seq<string>)
    requires a != [] && b != []
    ensures Join(a + b) == Join(a) + "/" + Join(b)
  {
    if |a| > 1 {
      assert (a + b)[1..] == a[1..] + b;
      JoinConcat(a[1..], b);
    } else {
      assert (a + b)[1..] == b;
    }
  }

  // ---- the parser ----

  datatype Route = Invalid | Ping | Catalog | Manifest | Blob | Upload | TagsList | Referrers

  datatype Parsed = Parsed(route: Route, registryId: string, repo: string, reference: string)

  const NOT_RECOGNISED: Parsed := Parsed(Invalid, "", "", "")

  /** What a decoded segment must not be: a step in the directory tree or more than one segment. */
  predicate Traverses(seg: string) {
    seg == "." || seg == ".." || '/' in seg || '\\' in seg
  }

  predicate IsSegment(seg: string) {
    seg != "" && !Traverses(seg)
  }

  /** Split first, decode then: empty pieces are dropped, the first bad one rejects the path. */
  function Segments(raws: seq<string>): Option<seq<string>> {
    if raws == [] then Some([]) else
      var rest := Segments(raws[..|raws| - 1]);
      var last := raws[|raws| - 1];
      if rest.None? || last == "" then rest
      else if PathUnescape(last).None? || Traverses(PathUnescape(last).value) then None
      else Some(rest.value + [PathUnescape(last).value])
  }

  function FinishName(names: seq<string>, route: Route, reference: string, validId: string -> bool): Parsed {
    if |names| < 2 || !validId(names[0]) then NOT_RECOGNISED
    else Parsed(route, names[0], Join(names[1..]), reference)
  }

  function Recognise(segs: seq<string>, validId: string -> bool): Parsed {
    var n := |segs|;
    if segs == ["_catalog"] then Parsed(Catalog, "", "", "")
    else if n >= 3 && segs[n - 2] == "tags" && segs[n - 1] == "list"
      then FinishName(segs[..n - 2], TagsList, "", validId)
    else if n >= 3 && segs[n - 2] == "blobs" && segs[n - 1] == "uploads"
      then FinishName(segs[..n - 2], Upload, "", validId)
    else if n >= 4 && segs[n - 3] == "blobs" && segs[n - 2] == "uploads"
      then FinishName(segs[..n - 3], Upload, "", validId)
    else if n >= 3 && segs[n - 2] == "manifests" then FinishName(segs[..n - 2], Manifest, segs[n - 1], validId)
    else if n >= 3 && segs[n - 2] == "referrers" then FinishName(segs[..n - 2], Referrers, segs[n - 1], validId)
    else if n >= 3 && segs[n - 2] == "blobs" then FinishName(segs[..n - 2], Blob, segs[n - 1], validId)
    else NOT_RECOGNISED
  }

  /** The parse of an escaped path; None is a rejected traversal. Which ids name a registry is for
      `validId` to say. */
  function Parse(path: string, validId: string -> bool): Option<Parsed> {
    if path == "/v2" || path == "/v2/" then Some(Parsed(Ping, "", "", ""))
    else if !("/v2/" <= path) then Some(NOT_RECOGNISED)
    else
      match Segments(Split(path[4..]))
      case None => None
      case Some(segs) => Some(Recognise(segs, validId))
  }

  method ParsePath(path: string, validId: string -> bool) returns (r: Option<Parsed>)
    ensures r == Parse(path, validId)
  {
    if path == "/v2" || path == "/v2/" {
      return Some(Parsed(Ping, "", "", ""));
    }
    if !("/v2/" <= path) {
      return Some(NOT_RECOGNISED);
    }
    var raws := Split(path[4..]);
    var segs: seq<string> := [];
    for i := 0 to |raws|
      invariant Segments(raws[..i]) == Some(segs)
    {
      assert raws[..i + 1][..i] == raws[..i];
      if raws[i] != "" {
        var dec := PathUnescape(raws[i]);
        if dec.None? || Traverses(dec.value) {
          BadStaysBad(raws, i + 1);
          return None;
        }
        segs := segs + [dec.value];
      }
    }
    assert raws[..|raws|] == raws;
    return Some(Recognise(segs, validId));
  }

  lemma {:induction false} BadStaysBad(raws: seq<string>, i: nat)
    requires i <= |raws| && Segments(raws[..i]).None?
    ensures Segments(raws).None?
    decreases |raws| - i
  {
    if i == |raws| {
      assert raws[..i] == raws;
    } else {
      assert raws[..i + 1][..i] == raws[..i];
      BadStaysBad(raws, i + 1);
    }
  }

  // ---- the printer ----

  function Escaped(segs: seq<string>): seq<string> {
    if segs == [] then [] else [PathEscape(segs[0])] + Escaped(segs[1..])
  }

  function RepoPath(fullRepo: string): string {
    Join(Escaped(Split(fullRepo)))
  }

  method PrintRepoPath(fullRepo: string) returns (path: string)
    ensures path == RepoPath(fullRepo)
  {
    var pieces := Split(fullRepo);
    var segs := new string[|pieces|](i requires 0 <= i < |pieces| => pieces[i]);
    assert segs[..] == pieces;
    EscapeInPlace(segs);
    return Join(segs[..]);
  }

  method EscapeInPlace(segs: array<string>)
    modifies segs
    ensures segs[..] == Escaped(old(segs[..]))
  {
    ghost var pieces := segs[..];
    EscapedAt(pieces);
    for i := 0 to segs.Length
      invariant forall j :: 0 <= j < i ==> segs[j] == Escaped(pieces)[j]
      invariant forall j :: i <= j < segs.Length ==> segs[j] == pieces[j]
    {
      segs[i] := PathEscape(segs[i]);
    }
  }

  lemma {:induction false} EscapedAt(segs: seq<string>)
    ensures |Escaped(segs)| == |segs|
    ensures forall i :: 0 <= i < |segs| ==> Escaped(segs)[i] == PathEscape(segs[i])
  {
    if segs != [] {
      EscapedAt(segs[1..]);
    }
  }

  /** What follows the repository in the path of a request. */
  function TailText(p: Parsed): string {
    match p.route
    case Manifest => "manifests" + "/" + PathEscape(p.reference)
    case Blob => "blobs" + "/" + PathEscape(p.reference)
    case Referrers => "referrers" + "/" + PathEscape(p.reference)
    case TagsList => "tags" + "/" + "list"
    case Upload => "blobs" + "/" + "uploads"
    case _ => ""
  }

  /** The path of a parsed request that addresses a repository. */
  function Print(p: Parsed): string {
    "/v2/" + (RepoPath(p.registryId + "/" + p.repo) + "/" + TailText(p))
  }

  // ---- the parser and the printer agree ----

  predicate Addresses(route: Route) {
    route.Manifest? || route.Blob? || route.Upload? || route.TagsList? || route.Referrers?
  }

  /** A request that addresses a repository, all parts being single harmless segments. */
  predicate WellFormed(p: Parsed, validId: string -> bool) {
    && Addresses(p.route) && IsSegment(p.registryId) && validId(p.registryId)
    && (forall i :: 0 <= i < |Split(p.repo)| ==> IsSegment(Split(p.repo)[i]))
    && ReferenceFits(p.route, p.reference)
  }

  /** Manifests, referrers and blobs are named by one segment; a blob is not called "uploads". */
  predicate ReferenceFits(route: Route, reference: string) {
    if route.Manifest? || route.Referrers? then IsSegment(reference)
    else if route.Blob? then IsSegment(reference) && reference != "uploads"
    else reference == ""
  }

  function TailOf(p: Parsed): seq<string> {
    match p.route
    case Manifest => ["manifests", p.reference]
    case Blob => ["blobs", p.reference]
    case Referrers => ["referrers", p.reference]
    case TagsList => ["tags", "list"]
    case Upload => ["blobs", "uploads"]
    case _ => []
  }

  function NameOf(p: Parsed): seq<string> {
    [p.registryId] + Split(p.repo)
  }

  lemma EscapedSnoc(segs: seq<string>)
    requires segs != []
    ensures var n := |segs| - 1; Escaped(segs) == Escaped(segs[..n]) + [PathEscape(segs[n])]
  {
    var n := |segs| - 1;
    assert segs == segs[..n] + [segs[n]];
    EscapedConcat(segs[..n], [segs[n]]);
  }

  lemma {:induction false} EscapedConcat(a: seq<string>, b: seq<string>)
    ensures Escaped(a + b) == Escaped(a) + Escaped(b)
  {
    if a == [] {
      assert a + b == b;
    } else {
      assert (a + b)[1..] == a[1..] + b;
      EscapedConcat(a[1..], b);
    }
  }

  lemma {:induction false} EscapedSegments(segs: seq<string>)
    requires forall i :: 0 <= i < |segs| ==> IsSegment(segs[i])
    ensures NoSlash(Escaped(segs)) && Segments(Escaped(segs)) == Some(segs) && |Escaped(segs)| == |segs|
    decreases |segs|
  {
    if segs != [] {
      var n := |segs| - 1;
      var front := Escaped(segs[..n]);
      EscapedSegments(segs[..n]);
      EscapedSnoc(segs);
      UnescapeEscape(segs[n]);
      assert (front + [PathEscape(segs[n])])[..n] == front;
      assert segs == segs[..n] + [segs[n]];
    }
  }

  predicate FixedWord(w: string) {
    w == "manifests" || w == "blobs" || w == "tags" || w == "referrers" || w == "uploads" || w == "list"
  }

  lemma FixedWordUnchanged(w: string)
    requires FixedWord(w)
    ensures IsSegment(w) && PathEscape(w) == w
  {
    assert forall i :: 0 <= i < |w| ==> 'a' <= w[i] <= 'z';
    KeptUnchanged(w);
  }

  lemma TailIsSegments(p: Parsed, validId: string -> bool)
    requires WellFormed(p, validId)
    ensures |TailOf(p)| == 2 && IsSegment(TailOf(p)[0]) && IsSegment(TailOf(p)[1])
    ensures TailText(p) == Join(Escaped(TailOf(p)))
  {
    var tail := TailOf(p);
    FixedWordUnchanged(tail[0]);
    if p.route.TagsList? || p.route.Upload? {
      FixedWordUnchanged(tail[1]);
    }
    EscapedPair(tail);
    TwoJoined(PathEscape(tail[0]), PathEscape(tail[1]));
  }

  lemma NameIsSegments(p: Parsed, validId: string -> bool)
    requires WellFormed(p, validId)
    ensures AllSegments(NameOf(p))
    ensures RepoPath(p.registryId + "/" + p.repo) == Join(Escaped(NameOf(p)))
  {
    SplitPrefix(p.registryId, p.repo);
  }

  predicate AllSegments(segs: seq<string>) {
    forall i :: 0 <= i < |segs| ==> IsSegment(segs[i])
  }

  lemma AllSegmentsConcat(a: seq<string>, b: seq<string>)
    requires AllSegments(a) && AllSegments(b)
    ensures AllSegments(a + b)
  {
  }

  /** A printed path is the escaped segments of name and tail, one after the other. */
  lemma PrintIsJoin(p: Parsed, validId: string -> bool)
    requires WellFormed(p, validId)
    ensures AllSegments(NameOf(p) + TailOf(p))
    ensures Print(p) == "/v2/" + Join(Escaped(NameOf(p) + TailOf(p)))
  {
    TailIsSegments(p, validId);
    NameIsSegments(p, validId);
    AllSegmentsConcat(NameOf(p), TailOf(p));
    JoinEscaped(NameOf(p), TailOf(p));
  }

  lemma JoinEscaped(name: seq<string>, tail: seq<string>)
    requires name != [] && tail != []
    ensures Join(Escaped(name + tail)) == Join(Escaped(name)) + "/" + Join(Escaped(tail))
  {
    EscapedConcat(name, tail);
    EscapedAt(name);
    EscapedAt(tail);
    JoinConcat(Escaped(name), Escaped(tail));
  }

  lemma EscapedPair(tail: seq<string>)
    requires |tail| == 2
    ensures Escaped(tail) == [PathEscape(tail[0]), PathEscape(tail[1])]
  {
    assert tail[1..] == [tail[1]] && tail[1..][1..] == [];
    assert Escaped(tail[1..]) == [PathEscape(tail[1])] + Escaped([]);
  }

  lemma TwoJoined(a: string, b: string)
    ensures Join([a, b]) == a + "/" + b
  {
    assert [a, b][1..] == [b];
  }

  lemma RecogniseRebuilds(p: Parsed, validId: string -> bool)
    requires WellFormed(p, validId)
    ensures Recognise(NameOf(p) + TailOf(p), validId) == p
  {
    var segs := NameOf(p) + TailOf(p);
    var n := |segs|;
    assert segs[n - 2] == TailOf(p)[0] && segs[n - 1] == TailOf(p)[1];
    assert segs[..n - 2] == NameOf(p);
    assert NameOf(p)[1..] == Split(p.repo);
    JoinSplit(p.repo);
  }

  /** The segments that address a request: its name, then what it asks for; an upload may name a session. */
  ghost predicate Spells(segs: seq<string>, p: Parsed) {
    || segs == NameOf(p) + TailOf(p)
    || (p.route.Upload? && exists session :: segs == NameOf(p) + ["blobs", "uploads", session])
  }

  lemma SpelledIsRecognised(segs: seq<string>, p: Parsed, validId: string -> bool)
    requires WellFormed(p, validId) && Spells(segs, p)
    ensures Recognise(segs, validId) == p
  {
    if segs == NameOf(p) + TailOf(p) {
      RecogniseRebuilds(p, validId);
    } else {
      var session :| segs == NameOf(p) + ["blobs", "uploads", session];
      var n := |segs|;
      assert segs[n - 3] == "blobs" && segs[n - 2] == "uploads" && segs[n - 1] == session;
      assert segs[..n - 3] == NameOf(p);
      assert NameOf(p)[1..] == Split(p.repo);
      JoinSplit(p.repo);
    }
  }

  /** Cutting two or three segments off leaves the name. */
  lemma NameAndTail(segs: seq<string>, cut: nat, p: Parsed, validId: string -> bool)
    requires cut <= |segs| && AllSegments(segs)
    requires FinishName(segs[..|segs| - cut], p.route, p.reference, validId) == p && Addresses(p.route)
    ensures NameOf(p) == segs[..|segs| - cut] && segs == NameOf(p) + segs[|segs| - cut..]
  {
    var names := segs[..|segs| - cut];
    SplitJoin(names[1..]);
    assert names == [names[0]] + names[1..];
  }

  lemma PairSpelled(segs: seq<string>, p: Parsed, validId: string -> bool)
    requires |segs| >= 2 && AllSegments(segs) && Addresses(p.route)
    requires FinishName(segs[..|segs| - 2], p.route, p.reference, validId) == p
    requires TailOf(p) == [segs[|segs| - 2], segs[|segs| - 1]]
    ensures Spells(segs, p)
  {
    NameAndTail(segs, 2, p, validId);
    assert segs[|segs| - 2..] == TailOf(p);
  }

  lemma SessionSpelled(segs: seq<string>, p: Parsed, validId: string -> bool)
    requires |segs| >= 3 && AllSegments(segs) && p.route.Upload?
    requires FinishName(segs[..|segs| - 3], p.route, p.reference, validId) == p
    requires segs[|segs| - 3] == "blobs" && segs[|segs| - 2] == "uploads"
    ensures Spells(segs, p)
  {
    NameAndTail(segs, 3, p, validId);
    assert segs[|segs| - 3..] == ["blobs", "uploads", segs[|segs| - 1]];
  }

  lemma RecognisedIsSpelled(segs: seq<string>, validId: string -> bool)
    requires AllSegments(segs) && Addresses(Recognise(segs, validId).route)
    ensures Spells(segs, Recognise(segs, validId))
  {
    var p := Recognise(segs, validId);
    if segs[|segs| - 2] == "uploads" {
      SessionSpelled(segs, p, validId);
    } else {
      PairSpelled(segs, p, validId);
    }
  }

  /** A path addresses a request exactly when the request is well-formed and the path's decoded segments
      spell it; empty pieces, as a doubled or trailing slash makes them, do not matter. */
  lemma ParseIff(path: string, p: Parsed, validId: string -> bool)
    requires Addresses(p.route)
    ensures Parse(path, validId) == Some(p)
            <==> "/v2/" <= path && WellFormed(p, validId)
                 && Segments(Split(path[4..])).Some? && Spells(Segments(Split(path[4..])).value, p)
  {
    if "/v2/" <= path && Segments(Split(path[4..])).Some? {
      var segs := Segments(Split(path[4..])).value;
      SegmentsAreSegments(Split(path[4..]));
      if path == "/v2/" {
        assert Split("") == [""] && segs == [];
      }
      if Recognise(segs, validId) == p {
        RecognisedIsWellFormed(segs, validId);
        RecognisedIsSpelled(segs, validId);
      }
      if WellFormed(p, validId) && Spells(segs, p) {
        SpelledIsRecognised(segs, p, validId);
      }
    }
  }

  /** The two paths that address no repository. */
  lemma ParseGlobal(path: string, validId: string -> bool)
    ensures Parse(path, validId) == Some(Parsed(Ping, "", "", "")) <==> path == "/v2" || path == "/v2/"
    ensures Parse(path, validId) == Some(Parsed(Catalog, "", "", ""))
            <==> "/v2/" <= path && Segments(Split(path[4..])) == Some(["_catalog"])
  {
    if path == "/v2/" {
      assert Split(path[4..]) == [""] && Segments([""]) == Some([]);
    }
  }

  /** The path of an upload session. */
  function PrintSession(registryId: string, repo: string, session: string): string {
    "/v2/" + (RepoPath(registryId + "/" + repo) + "/" + ("blobs" + "/" + ("uploads" + "/" + PathEscape(session))))
  }

  /** The PATCH and PUT of a chunked upload address the repository they push to, whatever the session. */
  lemma ParseSession(p: Parsed, session: string, validId: string -> bool)
    requires WellFormed(p, validId) && p.route.Upload? && IsSegment(session)
    ensures Parse(PrintSession(p.registryId, p.repo, session), validId) == Some(p)
  {
    var segs := NameOf(p) + ["blobs", "uploads", session];
    SessionIsJoin(p, session, validId);
    ParseJoined(segs, validId);
    SpelledIsRecognised(segs, p, validId);
  }

  lemma SessionTail(session: string)
    requires IsSegment(session)
    ensures AllSegments(["blobs", "uploads", session])
    ensures Join(Escaped(["blobs", "uploads", session])) == "blobs" + "/" + ("uploads" + "/" + PathEscape(session))
  {
    var tail := ["blobs", "uploads", session];
    FixedWordUnchanged(tail[0]);
    FixedWordUnchanged(tail[1]);
    EscapedTriple(tail);
    ThreeJoined(tail[0], tail[1], PathEscape(session));
  }

  lemma SessionIsJoin(p: Parsed, session: string, validId: string -> bool)
    requires WellFormed(p, validId) && IsSegment(session)
    ensures var segs := NameOf(p) + ["blobs", "uploads", session];
            && AllSegments(segs) && PrintSession(p.registryId, p.repo, session) == "/v2/" + Join(Escaped(segs))
  {
    var tail := ["blobs", "uploads", session];
    NameIsSegments(p, validId);
    SessionTail(session);
    AllSegmentsConcat(NameOf(p), tail);
    JoinEscaped(NameOf(p), tail);
  }

  lemma EscapedTriple(tail: seq<string>)
    requires |tail| == 3
    ensures Escaped(tail) == [PathEscape(tail[0]), PathEscape(tail[1]), PathEscape(tail[2])]
  {
    EscapedAt(tail);
  }

  lemma ThreeJoined(a: string, b: string, c: string)
    ensures Join([a, b, c]) == a + "/" + (b + "/" + c)
  {
    assert [a, b, c][1..] == [b, c];
    assert Join([a, b, c]) == a + "/" + Join([b, c]);
    TwoJoined(b, c);
  }

  lemma {:induction false} SplitTrailing(s: string)
    ensures Split(s + "/") == Split(s) + [""]
  {
    if s != "" {
      SplitTrailing(s[1..]);
      assert (s + "/")[1..] == s[1..] + "/";
      var rest := Split(s[1..]);
      assert (rest + [""])[1..] == rest[1..] + [""];
    } else {
      assert ("" + "/")[1..] == "";
    }
  }

  /** A trailing slash changes nothing. */
  lemma TrailingSlash(text: string, validId: string -> bool)
    requires text != ""
    ensures Parse("/v2/" + text + "/", validId) == Parse("/v2/" + text, validId)
  {
    SplitTrailing(text);
    assert ("/v2/" + text + "/")[4..] == text + "/" && ("/v2/" + text)[4..] == text;
    var raws := Split(text);
    assert (raws + [""])[..|raws|] == raws;
  }

  /** What the engine client prints for a registry, repository and reference, the data plane parses
      back to exactly those. */
  lemma ParsePrint(p: Parsed, validId: string -> bool)
    requires WellFormed(p, validId)
    ensures Parse(Print(p), validId) == Some(p)
  {
    PrintIsJoin(p, validId);
    var segs := NameOf(p) + TailOf(p);
    TailIsSegments(p, validId);
    ParseJoined(segs, validId);
    RecogniseRebuilds(p, validId);
  }

  lemma ParseJoined(segs: seq<string>, validId: string -> bool)
    requires |segs| >= 2 && forall i :: 0 <= i < |segs| ==> IsSegment(segs[i])
    ensures Parse("/v2/" + Join(Escaped(segs)), validId) == Some(Recognise(segs, validId))
  {
    EscapedSegments(segs);
    var escaped := Escaped(segs);
    var text := Join(escaped);
    SplitJoin(escaped);
    assert text != "" by {
      assert |escaped| >= 2 && |Split(text)| >= 2;
    }
    assert ("/v2/" + text)[..4] == "/v2/" && ("/v2/" + text)[4..] == text;
  }

  lemma {:induction false} SegmentsAreSegments(raws: seq<string>)
    requires Segments(raws).Some?
    ensures forall i :: 0 <= i < |Segments(raws).value| ==> IsSegment(Segments(raws).value[i])
  {
    if raws != [] {
      var n := |raws| - 1;
      SegmentsAreSegments(raws[..n]);
      if raws[n] != "" {
        UnescapeNonEmpty(raws[n]);
      }
    }
  }

  /** A path is rejected exactly when one of its non-empty pieces does not decode, or decodes to a
      traversal step or to something with a separator in it. */
  lemma {:induction false} RejectedIff(raws: seq<string>)
    ensures Segments(raws).None? <==>
            exists i :: 0 <= i < |raws| && raws[i] != ""
                        && (PathUnescape(raws[i]).None? || Traverses(PathUnescape(raws[i]).value))
  {
    if raws != [] {
      var n := |raws| - 1;
      RejectedIff(raws[..n]);
      assert forall i :: 0 <= i < n ==> raws[..n][i] == raws[i];
    }
  }

  lemma FinishedIsWellFormed(names: seq<string>, route: Route, reference: string, validId: string -> bool)
    requires forall i :: 0 <= i < |names| ==> IsSegment(names[i])
    requires Addresses(route)
    requires ReferenceFits(route, reference)
    ensures var p := FinishName(names, route, reference, validId);
            p != NOT_RECOGNISED ==> WellFormed(p, validId) && Split(p.repo) == names[1..]
  {
    if |names| >= 2 {
      SplitJoin(names[1..]);
    }
  }

  /** Whatever path a client sends, an accepted one names a valid registry, a repository that splits
      back into non-empty segments without traversal steps or separators, and such a reference. */
  lemma AcceptedIsWellFormed(path: string, validId: string -> bool)
    requires Parse(path, validId).Some? && Addresses(Parse(path, validId).value.route)
    ensures WellFormed(Parse(path, validId).value, validId)
  {
    var raws := Split(path[4..]);
    SegmentsAreSegments(raws);
    RecognisedIsWellFormed(Segments(raws).value, validId);
  }

  lemma RecognisedIsWellFormed(segs: seq<string>, validId: string -> bool)
    requires forall i :: 0 <= i < |segs| ==> IsSegment(segs[i])
    requires Addresses(Recognise(segs, validId).route)
    ensures WellFormed(Recognise(segs, validId), validId)
  {
    var n := |segs|;
    if n >= 3 {
      var last := segs[n - 1];
      FinishedIsWellFormed(segs[..n - 2], TagsList, "", validId);
      FinishedIsWellFormed(segs[..n - 2], Upload, "", validId);
      FinishedIsWellFormed(segs[..n - 3], Upload, "", validId);
      FinishedIsWellFormed(segs[..n - 2], Manifest, last, validId);
      FinishedIsWellFormed(segs[..n - 2], Referrers, last, validId);
      if last != "uploads" {
        FinishedIsWellFormed(segs[..n - 2], Blob, last, validId);
      }
    }
  }

  /** So parsing what is printed for a parsed path changes nothing, and the requests that paths can
      express are exactly the well-formed ones. */
  lemma ParsePrintParse(path: string, validId: string -> bool)
    requires Parse(path, validId).Some? && Addresses(Parse(path, validId).value.route)
    ensures var p := Parse(path, validId).value;
            Parse(Print(p), validId) == Some(p)
  {
    AcceptedIsWellFormed(path, validId);
    ParsePrint(Parse(path, validId).value, validId);
  }
}
