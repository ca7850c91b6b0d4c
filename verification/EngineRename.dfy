/** The content engine as the control plane drives it, and the two-phase repository rename. */
module EngineRename {
  import opened Common

  type Digest = string
  type Tags = map<string, Digest>

  /** A manifest as far as it refers to others: a referrer names its subject, an index its children. */
  datatype Manifest = Manifest(subject: Option<Digest>, children: seq<Digest>)

  /** A repository: its manifests, tagged or not, and its tags. */
  datatype Repository = Repository(tags: Tags, manifests: map<Digest, Manifest>)

  type Content = map<string, Repository>

  /** What happens to one engine call: whether it takes effect and whether its reply arrives. */
  datatype Fault = Fault(applied: bool, answered: bool)

  function RepositoryOf(content: Content, repo: string): Repository {
    if repo in content then content[repo] else Repository(map[], map[])
  }

  function TagsOf(content: Content, repo: string): Tags {
    RepositoryOf(content, repo).tags
  }

  function ManifestsOf(content: Content, repo: string): map<Digest, Manifest> {
    RepositoryOf(content, repo).manifests
  }

  function PutTag(content: Content, repo: string, tag: string, digest: Digest, manifest: Manifest): Content {
    content[repo := Repository(TagsOf(content, repo)[tag := digest], ManifestsOf(content, repo)[digest := manifest])]
  }

  /** Deleting a manifest by digest drops it and every tag of that repository that points at it. */
  function DropDigest(content: Content, repo: string, digest: Digest): Content {
    content[repo := Repository(Without(TagsOf(content, repo), digest), ManifestsOf(content, repo) - {digest})]
  }

  function Without(tags: Tags, digest: Digest): Tags {
    map t | t in tags && tags[t] != digest :: tags[t]
  }

  /** The engine's content, with every state it went through; `faults(n)` decides call n. */
  class Engine {
    var content: Content
    var calls: nat
    const faults: nat -> Fault
    ghost var history: seq<Content>

    /** Every call is answered. */
    ghost predicate AllAnswered() {
      forall n: nat :: faults(n).answered
    }

    ghost predicate Valid()
      reads this
    {
      history != [] && history[|history| - 1] == content
    }

    constructor (content: Content, faults: nat -> Fault)
      ensures Valid() && this.content == content && this.faults == faults && history == [content]
    {
      this.content, this.faults, calls := content, faults, 0;
      history := [content];
    }

    /** The tags of a repository; a repository the engine does not know has none. */
    method RepoTags(repo: string) returns (r: Result<seq<string>, Error>)
      requires Valid()
      modifies this`calls
      ensures r.Success? ==> forall t :: t in r.value <==> t in TagsOf(content, repo)
      ensures r.Failure? ==> r.error == Unavailable
      ensures AllAnswered() ==> r.Success?
    {
      var fault := faults(calls);
      calls := calls + 1;
      if !fault.answered {
        return Failure(Unavailable);
      }
      var left := TagsOf(content, repo).Keys;
      var tags := [];
      while left != {}
        invariant forall t :: t in TagsOf(content, repo) <==> t in left || t in tags
      {
        var t :| t in left;
        tags, left := tags + [t], left - {t};
      }
      return Success(tags);
    }

    /** The raw manifest of a tag; content is addressed by digest, so the digest goes with it. */
    method RawManifest(repo: string, tag: string) returns (r: Result<(Digest, Manifest), Error>)
      requires Valid()
      modifies this`calls
      ensures r.Success? ==> tag in TagsOf(content, repo) && r.value.0 == TagsOf(content, repo)[tag]
      ensures r.Success? ==> r.value.0 in ManifestsOf(content, repo)
      ensures r.Success? ==> r.value.1 == ManifestsOf(content, repo)[r.value.0]
      ensures r.Failure? ==> r.error == Unavailable
      ensures AllAnswered() && tag in TagsOf(content, repo) && TagsOf(content, repo)[tag] in ManifestsOf(content, repo)
              ==> r.Success?
    {
      var fault := faults(calls);
      calls := calls + 1;
      if !fault.answered || tag !in TagsOf(content, repo) {
        return Failure(Unavailable);
      }
      var digest := TagsOf(content, repo)[tag];
      if digest !in ManifestsOf(content, repo) {
        return Failure(Unavailable);
      }
      return Success((digest, ManifestsOf(content, repo)[digest]));
    }

    /** Publishes a manifest under a tag; a failed reply leaves it open whether it happened. */
    method PutManifest(repo: string, tag: string, digest: Digest, manifest: Manifest)
      returns (r: Result<(), Error>)
      requires Valid()
      modifies this
      ensures Valid()
      ensures content == old(content) || content == PutTag(old(content), repo, tag, digest, manifest)
      ensures r.Success? ==> content == PutTag(old(content), repo, tag, digest, manifest)
      ensures r.Failure? ==> r.error == Unavailable
      ensures history == old(history) + [content]
      ensures AllAnswered() ==> r.Success?
    {
      var fault := faults(calls);
      calls := calls + 1;
      if fault.answered || fault.applied {
        content := PutTag(content, repo, tag, digest, manifest);
      }
      history := history + [content];
      return if fault.answered then Success(()) else Failure(Unavailable);
    }

    /** Resolves the tag's digest and deletes that manifest; an absent tag is a success. */
    method DeleteTag(repo: string, tag: string) returns (r: Result<(), Error>)
      requires Valid()
      modifies this
      ensures Valid()
      ensures if tag in TagsOf(old(content), repo)
              then content == old(content) || content == DropDigest(old(content), repo, TagsOf(old(content), repo)[tag])
              else content == old(content)
      ensures r.Success? && tag in TagsOf(old(content), repo) ==>
                content == DropDigest(old(content), repo, TagsOf(old(content), repo)[tag])
      ensures r.Failure? ==> r.error == Unavailable
      ensures history == old(history) + [content]
      ensures AllAnswered() ==> r.Success?
    {
      var head := faults(calls);
      var delete := faults(calls + 1);
      calls := calls + 2;
      if !head.answered {
        history := history + [content];
        return Failure(Unavailable);
      }
      if tag !in TagsOf(content, repo) {
        history := history + [content];
        return Success(());
      }
      if delete.answered || delete.applied {
        content := DropDigest(content, repo, TagsOf(content, repo)[tag]);
      }
      history := history + [content];
      return if delete.answered then Success(()) else Failure(Unavailable);
    }

    /** History only grows, and every state added since it had `from` entries keeps the tags. */
    ghost predicate Kept(before: seq<Content>, start: Content, from: string, to: string)
      reads this
    {
      && before <= history
      && forall i :: |before| <= i < |history| ==> KeepsTags(start, history[i], from, to)
    }

    /** Copies the manifest of one tag under the same tag of the new name. */
    method CopyTag(from: string, to: string, tag: string, ghost start: Content, ghost done: seq<string>)
      returns (r: Result<(), Error>)
      requires Valid() && from != to
      requires Copying(start, content, from, to, done) && CopiedManifests(start, content, from, to, done)
      modifies this
      ensures Valid() && Kept(old(history), start, from, to)
      ensures Copying(start, content, from, to, done)
      ensures r.Success? ==>
                && Copying(start, content, from, to, done + [tag])
                && CopiedManifests(start, content, from, to, done + [tag])
      ensures r.Failure? ==> r.error == Unavailable
      ensures AllAnswered() && Backed(start, from, tag) ==> r.Success?
    {
      ghost var before := content;
      var raw := RawManifest(from, tag);
      if raw.Failure? {
        return Failure(raw.error);
      }
      r := PutManifest(to, tag, raw.value.0, raw.value.1);
      CopyingKeepsTags(start, content, from, to);
      CopyAddsManifest(start, before, from, to, done, tag);
    }

    /** The copy phase: manifest by manifest, old and new both addressable. */
    method CopyTags(from: string, to: string, tags: seq<string>, ghost start: Content) returns (r: Result<(), Error>)
      requires Valid() && from != to && content == start
      modifies this
      ensures Valid() && Kept(old(history), start, from, to)
      ensures Copying(start, content, from, to, if r.Success? then tags else [])
      ensures r.Success? ==> CopiedManifests(start, content, from, to, tags)
      ensures r.Failure? ==> r.error == Unavailable
      ensures AllAnswered() && (forall t <- tags :: Backed(start, from, t)) ==> r.Success?
    {
      assert forall d :: !TaggedBy(start, from, tags[..0], d);
      for i := 0 to |tags|
        invariant Valid() && Kept(old(history), start, from, to)
        invariant Copying(start, content, from, to, tags[..i])
        invariant CopiedManifests(start, content, from, to, tags[..i])
      {
        var copied := CopyTag(from, to, tags[i], start, tags[..i]);
        assert tags[..i + 1] == tags[..i] + [tags[i]];
        if copied.Failure? {
          return copied;
        }
      }
      assert tags[..|tags|] == tags;
      return Success(());
    }

    /** The delete phase: the old name loses its tags, the new one already has them all. */
    method DeleteTags(from: string, to: string, tags: seq<string>, ghost start: Content) returns (r: Result<(), Error>)
      requires Valid() && from != to && Deleting(start, content, from, to, [])
      modifies this
      ensures Valid() && Kept(old(history), start, from, to)
      ensures Deleting(start, content, from, to, if r.Success? then tags else [])
      ensures old(RemainingManifests(start, content, from)) ==> RemainingManifests(start, content, from)
      ensures ManifestsOf(content, to) == ManifestsOf(old(content), to)
      ensures r.Failure? ==> r.error == Unavailable
      ensures AllAnswered() ==> r.Success?
    {
      assert tags[..0] == [];
      for i := 0 to |tags|
        invariant Valid() && Kept(old(history), start, from, to)
        invariant Deleting(start, content, from, to, tags[..i])
        invariant old(RemainingManifests(start, content, from)) ==> RemainingManifests(start, content, from)
        invariant ManifestsOf(content, to) == ManifestsOf(old(content), to)
      {
        ghost var before := content;
        var deleted := DeleteTag(from, tags[i]);
        if RemainingManifests(start, before, from) && tags[i] in TagsOf(before, from) {
          DropKeepsRemaining(start, before, from, tags[i]);
        }
        DeletingKeepsTags(start, before, content, from, to, tags[..i], tags[i], deleted.Success?);
        assert tags[..i + 1] == tags[..i] + [tags[i]];
        if deleted.Failure? {
          return Failure(deleted.error);
        }
      }
      assert tags[..|tags|] == tags;
      return Success(());
    }

    /** Copies every tag to the new repository, then deletes every tag of the old one.

        Whatever call fails, in every state along the way each tag of the original repository
        still resolves to its original manifest under one of the two names, the old repository
        is untouched until the new one has everything, and no other repository changes. */
    method RenameRepository(registryId: string, oldName: string, newName: string) returns (r: Result<(), Error>)
      requires Valid() && oldName != newName
      modifies this
      ensures Valid() && Kept(old(history), old(content), registryId + "/" + oldName, registryId + "/" + newName)
      ensures r.Success? ==> Moved(old(content), content, registryId + "/" + oldName, registryId + "/" + newName)
      ensures r.Failure? ==> r.error == Unavailable
      ensures AllAnswered() && Consistent(old(content), registryId + "/" + oldName) ==> r.Success?
    {
      var from, to := registryId + "/" + oldName, registryId + "/" + newName;
      DistinctRepos(registryId, oldName, newName);
      ghost var start := content;
      var listed := RepoTags(from);
      if listed.Failure? {
        return Failure(listed.error);
      }
      var copied := CopyTags(from, to, listed.value, start);
      if copied.Failure? {
        return copied; // the old name is intact
      }
      ghost var copies := content;
      var deleted := DeleteTags(from, to, listed.value, start);
      if deleted.Success? {
        AllMoved(start, copies, content, from, to, listed.value);
      }
      return deleted;
    }
  }

  /** The tag points at a manifest that is there. */
  predicate Backed(content: Content, repo: string, tag: string) {
    tag in TagsOf(content, repo) && TagsOf(content, repo)[tag] in ManifestsOf(content, repo)
  }

  predicate Consistent(content: Content, repo: string) {
    forall t <- TagsOf(content, repo) :: Backed(content, repo, t)
  }

  /** Every tag the old name had at the start resolves to its manifest under the old or the new
      name; until the new name has all of them, the old name is exactly as it was. */
  ghost predicate KeepsTags(start: Content, now: Content, from: string, to: string) {
    && (forall t <- TagsOf(start, from) :: Resolves(now, from, t, TagsOf(start, from)[t])
                                           || Resolves(now, to, t, TagsOf(start, from)[t]))
    && (TagsOf(now, from) == TagsOf(start, from) || HasAll(start, now, from, to))
    && Elsewhere(start, now, from, to)
  }

  predicate Resolves(content: Content, repo: string, tag: string, digest: Digest) {
    tag in TagsOf(content, repo) && TagsOf(content, repo)[tag] == digest
  }

  ghost predicate HasAll(start: Content, now: Content, from: string, to: string) {
    forall t <- TagsOf(start, from) :: Resolves(now, to, t, TagsOf(start, from)[t])
  }

  ghost predicate Elsewhere(start: Content, now: Content, from: string, to: string) {
    forall repo :: repo != from && repo != to ==> RepositoryOf(now, repo) == RepositoryOf(start, repo)
  }

  /** What the new name held before and the rename did not overwrite is still there. */
  ghost predicate TargetKept(start: Content, now: Content, from: string, to: string) {
    forall t <- TagsOf(start, to) :: t !in TagsOf(start, from) ==> Resolves(now, to, t, TagsOf(start, to)[t])
  }

  /** Some tag of the repository points at the manifest. */
  ghost predicate IsTagged(content: Content, repo: string, d: Digest) {
    exists t <- TagsOf(content, repo) :: TagsOf(content, repo)[t] == d
  }

  /** Some of these tags points at the manifest. */
  ghost predicate TaggedBy(content: Content, repo: string, tags: seq<string>, d: Digest) {
    exists t <- tags :: Resolves(content, repo, t, d)
  }

  /** The outcome of a successful rename: all tags under the new name, none of them under the old; and
      of the manifests those that had a tag. */
  ghost predicate Moved(start: Content, now: Content, from: string, to: string) {
    && HasAll(start, now, from, to) && TargetKept(start, now, from, to) && Elsewhere(start, now, from, to)
    && (forall t :: t !in TagsOf(now, from))
    && (forall d :: d in ManifestsOf(now, to) <==> d in ManifestsOf(start, to) || IsTagged(start, from, d))
    && (forall d :: d in ManifestsOf(now, from) <==> d in ManifestsOf(start, from) && !IsTagged(start, from, d))
    && (forall d :: IsTagged(start, from, d) ==>
          d in ManifestsOf(start, from) && ManifestsOf(now, to)[d] == ManifestsOf(start, from)[d])
  }

  ghost predicate Copying(start: Content, now: Content, from: string, to: string, done: seq<string>) {
    && TagsOf(now, from) == TagsOf(start, from)
    && (forall t <- done :: t in TagsOf(start, from) ==> Resolves(now, to, t, TagsOf(start, from)[t]))
    && TargetKept(start, now, from, to) && Elsewhere(start, now, from, to)
  }

  ghost predicate Deleting(start: Content, now: Content, from: string, to: string, done: seq<string>) {
    && HasAll(start, now, from, to) && TargetKept(start, now, from, to) && Elsewhere(start, now, from, to)
    && (forall t <- TagsOf(now, from) :: t in TagsOf(start, from))
    && (forall t <- done :: t !in TagsOf(now, from))
  }

  /** The manifests after copying these tags: the old name has its own, the new one has gained those
      the tags point at, unaltered. */
  ghost predicate CopiedManifests(start: Content, now: Content, from: string, to: string, done: seq<string>) {
    && ManifestsOf(now, from) == ManifestsOf(start, from)
    && (forall d :: d in ManifestsOf(now, to) <==> d in ManifestsOf(start, to) || TaggedBy(start, from, done, d))
    && (forall d :: TaggedBy(start, from, done, d) ==>
          d in ManifestsOf(start, from) && ManifestsOf(now, to)[d] == ManifestsOf(start, from)[d])
  }

  /** While tags are deleted the old name keeps the untagged manifests and those still tagged. */
  ghost predicate RemainingManifests(start: Content, now: Content, from: string) {
    && (forall t <- TagsOf(now, from) :: Resolves(start, from, t, TagsOf(now, from)[t]))
    && (forall d :: d in ManifestsOf(now, from) <==>
          d in ManifestsOf(start, from) && (IsTagged(start, from, d) ==> IsTagged(now, from, d)))
  }

  lemma CopyAddsManifest(start: Content, before: Content, from: string, to: string, done: seq<string>, tag: string)
    requires from != to && CopiedManifests(start, before, from, to, done) && TagsOf(before, from) == TagsOf(start, from)
    requires tag in TagsOf(start, from) && TagsOf(start, from)[tag] in ManifestsOf(start, from)
    ensures var d := TagsOf(start, from)[tag];
            CopiedManifests(start, PutTag(before, to, tag, d, ManifestsOf(start, from)[d]), from, to, done + [tag])
  {
    forall d ensures TaggedBy(start, from, done + [tag], d) <==>
                       TaggedBy(start, from, done, d) || d == TagsOf(start, from)[tag] {
      assert Resolves(start, from, tag, TagsOf(start, from)[tag]) && tag in done + [tag];
      assert forall t :: t in done + [tag] <==> t in done || t == tag;
    }
  }

  lemma DropKeepsRemaining(start: Content, before: Content, from: string, tag: string)
    requires RemainingManifests(start, before, from) && tag in TagsOf(before, from)
    ensures RemainingManifests(start, DropDigest(before, from, TagsOf(before, from)[tag]), from)
  {
    var dropped := TagsOf(before, from)[tag];
    var now := DropDigest(before, from, dropped);
    assert Resolves(start, from, tag, dropped) && IsTagged(start, from, dropped);
    forall d | d != dropped ensures IsTagged(now, from, d) <==> IsTagged(before, from, d) {
      assert forall t :: t in TagsOf(before, from) && TagsOf(before, from)[t] == d ==> t in TagsOf(now, from);
    }
  }

  lemma AllMoved(start: Content, copies: Content, now: Content, from: string, to: string, tags: seq<string>)
    requires forall t :: t in tags <==> t in TagsOf(start, from)
    requires CopiedManifests(start, copies, from, to, tags) && ManifestsOf(now, to) == ManifestsOf(copies, to)
    requires Deleting(start, now, from, to, tags) && RemainingManifests(start, now, from)
    ensures Moved(start, now, from, to)
  {
    forall d ensures TaggedBy(start, from, tags, d) <==> IsTagged(start, from, d) {
      assert forall t :: Resolves(start, from, t, d) <==> t in TagsOf(start, from) && TagsOf(start, from)[t] == d;
    }
    assert forall t :: t !in TagsOf(now, from);
    assert forall d :: !IsTagged(now, from, d);
  }

  lemma DistinctRepos(registryId: string, oldName: string, newName: string)
    requires oldName != newName
    ensures registryId + "/" + oldName != registryId + "/" + newName
  {
    var n := |registryId| + 1;
    assert (registryId + "/" + oldName)[n..] == oldName && (registryId + "/" + newName)[n..] == newName;
  }

  lemma CopyingKeepsTags(start: Content, now: Content, from: string, to: string)
    requires TagsOf(now, from) == TagsOf(start, from) && Elsewhere(start, now, from, to)
    ensures KeepsTags(start, now, from, to)
  {
  }

  lemma DeletingKeepsTags(start: Content, before: Content, now: Content, from: string, to: string,
                          done: seq<string>, tag: string, completed: bool)
    requires from != to && Deleting(start, before, from, to, done)
    requires now == before
             || (tag in TagsOf(before, from) && now == DropDigest(before, from, TagsOf(before, from)[tag]))
    requires completed && tag in TagsOf(before, from) ==> now == DropDigest(before, from, TagsOf(before, from)[tag])
    ensures KeepsTags(start, now, from, to) && Deleting(start, now, from, to, done)
    ensures completed ==> Deleting(start, now, from, to, done + [tag])
  {
    assert forall t :: t in TagsOf(now, from) ==> t in TagsOf(before, from);
  }

  /** Deleting one tag removes only that tag exactly when no other tag shares its digest. */
  lemma DeleteTakesSiblings(content: Content, repo: string, tag: string)
    requires tag in TagsOf(content, repo)
    ensures var tags := TagsOf(content, repo);
            TagsOf(DropDigest(content, repo, tags[tag]), repo) == tags - {tag}
            <==> forall other <- tags :: other != tag ==> tags[other] != tags[tag]
  {
    var tags := TagsOf(content, repo);
    var after := Without(tags, tags[tag]);
    if after == tags - {tag} {
      forall other <- tags | other != tag ensures tags[other] != tags[tag] {
        assert other in tags - {tag};
      }
    }
  }

  // ---- what a rename leaves behind ----

  /** A successful rename takes every manifest of the repository along, referrers and the children of
      indexes included, exactly when each has a tag of its own or is in the target already; the others
      stay under the old name, which no longer has a tag. */
  lemma AllManifestsMoveIffTagged(start: Content, now: Content, from: string, to: string)
    requires from != to && Moved(start, now, from, to)
    ensures (forall d <- ManifestsOf(start, from) :: d in ManifestsOf(now, to))
            <==> forall d <- ManifestsOf(start, from) :: IsTagged(start, from, d) || d in ManifestsOf(start, to)
    ensures forall d <- ManifestsOf(start, from) :: !IsTagged(start, from, d) ==> d in ManifestsOf(now, from)
  {
  }

  /** The referrers of a manifest in a repository. */
  ghost predicate Refers(content: Content, repo: string, referrer: Digest, subject: Digest) {
    referrer in ManifestsOf(content, repo) && ManifestsOf(content, repo)[referrer].subject == Some(subject)
  }

  /** Renaming a repository whose one tag points at an index with a child and a referrer moves the index
      only: its referrer is no longer found beside it, and its child is missing. */
  lemma ReferrerStaysBehind(now: Content, from: string, to: string)
    requires from != to
    requires var signed := Repository(map["v1" := "index"],
               map["index" := Manifest(None, ["child"]), "child" := Manifest(None, []),
                   "signature" := Manifest(Some("index"), [])]);
             Moved(map[from := signed], now, from, to)
    ensures Resolves(now, to, "v1", "index") && "index" in ManifestsOf(now, to)
    ensures "child" in ManifestsOf(now, to)["index"].children && "child" !in ManifestsOf(now, to)
    ensures (forall r :: !Refers(now, to, r, "index")) && "signature" in ManifestsOf(now, from)
  {
    var signed := Repository(map["v1" := "index"],
      map["index" := Manifest(None, ["child"]), "child" := Manifest(None, []),
          "signature" := Manifest(Some("index"), [])]);
    var start: Content := map[from := signed];
    OnlyTheIndexIsTagged(start, from, signed);
    assert "v1" in TagsOf(start, from);
    forall r ensures !Refers(now, to, r, "index") {
      assert r in ManifestsOf(now, to) ==> IsTagged(start, from, r);
    }
  }

  lemma OnlyTheIndexIsTagged(start: Content, from: string, signed: Repository)
    requires from in start && start[from] == signed && signed.tags == map["v1" := "index"]
    ensures forall d :: IsTagged(start, from, d) <==> d == "index"
    ensures "child" != "index" && "signature" != "index"
  {
    assert TagsOf(start, from)["v1"] == "index";
    assert |"child"| == 5 && "signature"[0] == 's' && "index"[0] == 'i' && "child"[0] == 'c';
  }
}
