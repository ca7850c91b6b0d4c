/** The language of repository names, the `<name>` grammar of the OCI Distribution Specification
    ("Pulling manifests"), and why such names are always addressable. */
module RepositoryNames {
  import opened Common
  import opened OciPath

  predicate Alnum(c: char) {
    'a' <= c <= 'z' || '0' <= c <= '9'
  }

  // ---- the grammar ----

  /** [a-z0-9]+ */
  predicate Word(s: string) {
    s != "" && forall i :: 0 <= i < |s| ==> Alnum(s[i])
  }

  /** [._] or __ or -+ or / */
  predicate Separator(s: string) {
    || s == "." || s == "_" || s == "__" || s == "/"
    || (s != "" && forall i :: 0 <= i < |s| ==> s[i] == '-')
  }

  /** Any number of repetitions of a separator and a word. */
  ghost predicate Repetitions(s: string)
    decreases |s|
  {
    s == "" || exists i: nat, j: nat :: Piece(s, i, j) && Repetitions(s[j..])
  }

  predicate Piece(s: string, i: nat, j: nat) {
    0 < i < j <= |s| && Separator(s[..i]) && Word(s[i..j])
  }

  predicate Start(s: string, k: nat) {
    0 < k <= |s| && Word(s[..k])
  }

  /** A word followed by repetitions of a separator and a word. */
  ghost predicate Name(s: string) {
    exists k: nat :: Start(s, k) && Repetitions(s[k..])
  }

  // ---- the matcher ----

  datatype Mode = ExpectWord | InWord | Underscored | Dashed | Dead

  function Next(m: Mode, c: char): Mode {
    if m != Dead && Alnum(c) then InWord
    else if m == InWord && (c == '.' || c == '/') then ExpectWord
    else if m == InWord && c == '_' then Underscored
    else if m == InWord && c == '-' then Dashed
    else if m == Underscored && c == '_' then ExpectWord
    else if m == Dashed && c == '-' then Dashed
    else Dead
  }

  function Scan(m: Mode, s: string): Mode
    decreases |s|
  {
    if s == "" then m else Scan(Next(m, s[0]), s[1..])
  }

  predicate Matches(s: string) {
    Scan(ExpectWord, s) == InWord
  }

  const MAX_REPO_NAME_LEN := 255

  datatype NameError = Required | Malformed

  function ValidateRepositoryName(value: string): Result<(), NameError> {
    if value == "" then Failure(Required)
    else if |value| > MAX_REPO_NAME_LEN || !Matches(value) then Failure(Malformed)
    else Success(())
  }

  // ---- the matcher accepts exactly the grammar ----

  lemma {:induction false} ScanConcat(m: Mode, a: string, b: string)
    ensures Scan(m, a + b) == Scan(Scan(m, a), b)
    decreases |a|
  {
    if a == "" {
      assert a + b == b;
    } else {
      assert (a + b)[1..] == a[1..] + b;
      ScanConcat(Next(m, a[0]), a[1..], b);
    }
  }

  lemma {:induction false} DeadStaysDead(s: string)
    ensures Scan(Dead, s) == Dead
  {
    if s != "" {
      DeadStaysDead(s[1..]);
    }
  }

  lemma {:induction false} ScanWord(m: Mode, s: string)
    requires m != Dead && Word(s)
    ensures Scan(m, s) == InWord
    decreases |s|
  {
    if |s| > 1 {
      ScanWord(InWord, s[1..]);
    }
  }

  lemma {:induction false} ScanDashes(m: Mode, s: string)
    requires (m == InWord && s != "") || m == Dashed
    requires forall i :: 0 <= i < |s| ==> s[i] == '-'
    ensures Scan(m, s) == Dashed
    decreases |s|
  {
    if s != "" {
      ScanDashes(Dashed, s[1..]);
    }
  }

  lemma ScanSeparator(s: string)
    requires Separator(s)
    ensures Scan(InWord, s) != Dead
  {
    if s[0] == '-' {
      ScanDashes(InWord, s);
    } else if s == "__" {
      assert s[0] == '_' && s[1] == '_' && s[1..][0] == '_' && s[1..][1..] == "";
      assert Scan(Underscored, s[1..]) == Scan(ExpectWord, s[1..][1..]);
    } else {
      assert s[1..] == "";
    }
  }

  lemma ScanPiece(separator: string, word: string)
    requires Separator(separator) && Word(word)
    ensures Scan(InWord, separator + word) == InWord
  {
    ScanSeparator(separator);
    ScanWord(Scan(InWord, separator), word);
    ScanConcat(InWord, separator, word);
  }

  lemma {:induction false} RepetitionsMatch(s: string)
    requires Repetitions(s)
    ensures Scan(InWord, s) == InWord
    decreases |s|
  {
    if s != "" {
      var i: nat, j: nat :| Piece(s, i, j) && Repetitions(s[j..]);
      ScanPiece(s[..i], s[i..j]);
      assert s[..j] == s[..i] + s[i..j];
      ScanConcat(InWord, s[..j], s[j..]);
      assert s == s[..j] + s[j..];
      RepetitionsMatch(s[j..]);
    }
  }

  /** From inside a word: the rest of the word, then repetitions. */
  ghost predicate Rest(s: string) {
    Repetitions(s) || Name(s)
  }

  lemma NameCons(s: string)
    requires s != "" && Alnum(s[0]) && Rest(s[1..])
    ensures Name(s)
  {
    if Repetitions(s[1..]) {
      assert s[..1] == [s[0]];
      assert Start(s, 1);
    } else {
      var k: nat :| Start(s[1..], k) && Repetitions(s[1..][k..]);
      var first := s[..k + 1];
      assert |first| == k + 1 && forall i :: 0 < i < k + 1 ==> first[i] == s[i] == s[1..][..k][i - 1];
      assert s[k + 1..] == s[1..][k..];
      assert Start(s, k + 1);
    }
  }

  lemma SeparatedName(s: string, n: nat)
    requires 0 < n <= |s| && Separator(s[..n]) && Name(s[n..])
    ensures Repetitions(s)
  {
    var k: nat :| Start(s[n..], k) && Repetitions(s[n..][k..]);
    assert s[n..n + k] == s[n..][..k] && s[n + k..] == s[n..][k..];
    assert Piece(s, n, n + k);
  }

  /** What is left to read from a mode that ends well. */
  ghost predicate Promise(m: Mode, s: string) {
    match m
    case ExpectWord => Name(s)
    case InWord => Rest(s)
    case Underscored => Name(s) || (s != "" && s[0] == '_' && Name(s[1..]))
    case Dashed => exists n: nat :: LeadingDashes(s, n) && Name(s[n..])
    case Dead => false
  }

  predicate LeadingDashes(s: string, n: nat) {
    n <= |s| && forall i :: 0 <= i < n ==> s[i] == '-'
  }

  lemma {:induction false} MatchedIsPromised(m: Mode, s: string)
    requires Scan(m, s) == InWord
    ensures Promise(m, s)
    decreases |s|
  {
    if s != "" {
      var m' := Next(m, s[0]);
      DeadStaysDead(s[1..]);
      MatchedIsPromised(m', s[1..]);
      PromiseStep(m, s);
    }
  }

  lemma PromiseStep(m: Mode, s: string)
    requires s != "" && Promise(Next(m, s[0]), s[1..])
    ensures Promise(m, s)
  {
    var c := s[0];
    if m != Dead && Alnum(c) {
      NameCons(s);
      if m == Dashed {
        assert LeadingDashes(s, 0) && s[0..] == s;
      }
    } else if m == InWord && (c == '.' || c == '/') {
      assert s[..1] == [c];
      SeparatedName(s, 1);
    } else if m == InWord && c == '_' {
      UnderscoredRest(s);
    } else if m == InWord {
      DashedRest(s);
    } else if m == Dashed {
      var n: nat :| LeadingDashes(s[1..], n) && Name(s[1..][n..]);
      assert s[n + 1..] == s[1..][n..];
      assert forall i :: 0 < i < n + 1 ==> s[i] == s[1..][i - 1];
      assert LeadingDashes(s, n + 1);
    }
  }

  lemma UnderscoredRest(s: string)
    requires s != "" && s[0] == '_' && Promise(Underscored, s[1..])
    ensures Rest(s)
  {
    if Name(s[1..]) {
      assert s[..1] == "_";
      SeparatedName(s, 1);
    } else {
      assert s[..2] == "__" && s[2..] == s[1..][1..];
      SeparatedName(s, 2);
    }
  }

  lemma DashedRest(s: string)
    requires s != "" && s[0] == '-' && Promise(Dashed, s[1..])
    ensures Rest(s)
  {
    var n: nat :| LeadingDashes(s[1..], n) && Name(s[1..][n..]);
    assert s[n + 1..] == s[1..][n..];
    assert forall i :: 0 < i < n + 1 ==> s[i] == s[1..][i - 1];
    assert Separator(s[..n + 1]);
    SeparatedName(s, n + 1);
  }

  /** The matcher accepts a string exactly when the grammar derives it. */
  lemma MatchesTheGrammar(s: string)
    ensures Matches(s) <==> Name(s)
  {
    if Matches(s) {
      MatchedIsPromised(ExpectWord, s);
    }
    if Name(s) {
      var k: nat :| Start(s, k) && Repetitions(s[k..]);
      ScanWord(ExpectWord, s[..k]);
      RepetitionsMatch(s[k..]);
      ScanConcat(ExpectWord, s[..k], s[k..]);
      assert s == s[..k] + s[k..];
    }
  }

  // ---- names and paths ----

  /** Cutting at a slash: both sides are names, and two names around a slash are one. */
  lemma NamesAroundSlash(a: string, b: string)
    ensures Matches(a + "/" + b) <==> Matches(a) && Matches(b)
  {
    var m := Scan(ExpectWord, a);
    ScanConcat(ExpectWord, a, "/" + b);
    assert a + ("/" + b) == a + "/" + b;
    assert ("/" + b)[1..] == b;
    DeadStaysDead(b);
  }

  /** A name is exactly a path of slash-free names. */
  lemma {:induction false} NameIsPathOfNames(segs: seq<string>)
    requires segs != []
    ensures Matches(Join(segs)) <==> forall i :: 0 <= i < |segs| ==> Matches(segs[i])
  {
    if |segs| > 1 {
      NamesAroundSlash(segs[0], Join(segs[1..]));
      NameIsPathOfNames(segs[1..]);
      assert forall i :: 1 <= i < |segs| ==> segs[i] == segs[1..][i - 1];
    }
  }

  lemma {:induction false} MatchedCharacters(m: Mode, s: string)
    requires Scan(m, s) == InWord
    ensures forall i :: 0 <= i < |s| ==> Kept(s[i]) || s[i] == '/'
    ensures '\\' !in s
    decreases |s|
  {
    if s != "" {
      DeadStaysDead(s[1..]);
      MatchedCharacters(Next(m, s[0]), s[1..]);
    }
  }

  lemma MatchedSegment(seg: string)
    requires Matches(seg) && '/' !in seg
    ensures IsSegment(seg) && PathEscape(seg) == seg
  {
    MatchedCharacters(ExpectWord, seg);
    assert seg != "";
    if seg[0] == '.' {
      DeadStaysDead(seg[1..]);
    }
    KeptUnchanged(seg);
  }

  lemma {:induction false} EscapedNames(segs: seq<string>)
    requires forall i :: 0 <= i < |segs| ==> Matches(segs[i]) && '/' !in segs[i]
    ensures Escaped(segs) == segs
  {
    if segs != [] {
      MatchedSegment(segs[0]);
      EscapedNames(segs[1..]);
    }
  }

  /** A valid name splits at its slashes into slash-free names, none of them a traversal step; and
      any slash-free names joined within the length limit are a valid name again. */
  lemma ValidNameSplits(name: string)
    ensures ValidateRepositoryName(name).Success? <==>
              |name| <= 255 && forall i :: 0 <= i < |Split(name)| ==> Matches(Split(name)[i])
    ensures ValidateRepositoryName(name).Failure? ==>
              ValidateRepositoryName(name).error == if |name| == 0 then Required else Malformed
    ensures ValidateRepositoryName(name).Success? ==>
              forall i :: 0 <= i < |Split(name)| ==> IsSegment(Split(name)[i]) && '/' !in Split(name)[i]
  {
    JoinSplit(name);
    NameIsPathOfNames(Split(name));
    forall i | 0 <= i < |Split(name)| && Matches(Split(name)[i]) ensures IsSegment(Split(name)[i]) {
      MatchedSegment(Split(name)[i]);
    }
  }

  /** The engine client prints a valid name as it is. */
  lemma ValidNamePrintsUnchanged(name: string)
    requires ValidateRepositoryName(name).Success?
    ensures RepoPath(name) == name
  {
    ValidNameSplits(name);
    JoinSplit(name);
    EscapedNames(Split(name));
  }

  /** Every repository the control plane accepts is addressable in the data plane, by every kind of
      request: the path written with the plain name parses to that registry, that name, that route
      and that reference. */
  lemma ValidNameIsAddressable(p: Parsed, validId: string -> bool)
    requires Addresses(p.route) && ReferenceFits(p.route, p.reference)
    requires ValidateRepositoryName(p.repo).Success?
    requires Matches(p.registryId) && '/' !in p.registryId && validId(p.registryId)
    ensures Parse("/v2/" + (p.registryId + "/" + p.repo + "/" + TailText(p)), validId) == Some(p)
  {
    ValidNameSplits(p.repo);
    MatchedSegment(p.registryId);
    ParsePrint(p, validId);
    var full := p.registryId + "/" + p.repo;
    SplitPrefix(p.registryId, p.repo);
    EscapedNames([p.registryId] + Split(p.repo));
    JoinSplit(full);
    assert RepoPath(full) == full;
  }

  /** That includes the requests of an upload session, with or without a trailing slash. */
  lemma ValidNameIsUploadable(registryId: string, name: string, session: string, validId: string -> bool)
    requires ValidateRepositoryName(name).Success? && IsSegment(session)
    requires Matches(registryId) && '/' !in registryId && validId(registryId)
    ensures var text := registryId + "/" + name + "/" + ("blobs" + "/" + ("uploads" + "/" + PathEscape(session)));
            && Parse("/v2/" + text, validId) == Some(Parsed(Upload, registryId, name, ""))
            && Parse("/v2/" + text + "/", validId) == Some(Parsed(Upload, registryId, name, ""))
  {
    var full := registryId + "/" + name;
    var text := full + "/" + ("blobs" + "/" + ("uploads" + "/" + PathEscape(session)));
    ValidNameSplits(name);
    MatchedSegment(registryId);
    SplitPrefix(registryId, name);
    EscapedNames([registryId] + Split(name));
    JoinSplit(full);
    assert RepoPath(full) == full;
    ParseSession(Parsed(Upload, registryId, name, ""), session, validId);
    assert text != "" by {
      assert |text| >= 1;
    }
    TrailingSlash(text, validId);
  }
}
