/** Authorisation tuples and the register/unregister intents the outbox carries. */
module FgaIntents {
  import opened Common

  datatype Tuple = Tuple(subject: string, relation: string, target: string) {
    predicate Valid() {
      subject != "" && relation != "" && target != ""
    }
  }

  datatype Event = Register | Unregister

  datatype Intent = Intent(kind: string, resourceId: string, tuples: seq<Tuple>, parentProjectId: string)

  datatype OutboxIntent = OutboxIntent(event: Event, intent: Intent)

  const PUBLIC_WILDCARD := "user:*"
  const TYPE_PROJECT := "project"
  const TYPE_REGISTRY := "registry_registry"
  const TYPE_REPOSITORY := "registry_repository"
  const RELATION_PROJECT := "project"
  const RELATION_OWNER := "owner"
  const RELATION_PARENT := "parent"
  const RELATION_V_GET := "v_get"

  function ObjectRef(objectType: string, objectId: string): string {
    objectType + ":" + objectId
  }

  function RepoObjectId(registryId: string, repo: string): string {
    registryId + "/" + repo
  }

  function ProjectTuple(registryId: string, projectId: string): Tuple {
    Tuple(ObjectRef(TYPE_PROJECT, projectId), RELATION_PROJECT, ObjectRef(TYPE_REGISTRY, registryId))
  }

  function OwnerTuple(subject: string, registryId: string): Tuple {
    Tuple(subject, RELATION_OWNER, ObjectRef(TYPE_REGISTRY, registryId))
  }

  function RepoParentTuple(registryId: string, repo: string): Tuple {
    Tuple(ObjectRef(TYPE_REGISTRY, registryId), RELATION_PARENT,
          ObjectRef(TYPE_REPOSITORY, RepoObjectId(registryId, repo)))
  }

  function RepoOwnerTuple(registryId: string, repo: string, subject: string): Tuple {
    Tuple(subject, RELATION_OWNER, ObjectRef(TYPE_REPOSITORY, RepoObjectId(registryId, repo)))
  }

  function PublicGetTuple(registryId: string, repo: string): Tuple {
    Tuple(PUBLIC_WILDCARD, RELATION_V_GET, ObjectRef(TYPE_REPOSITORY, RepoObjectId(registryId, repo)))
  }

  /** The subject of a control-plane principal; empty for system and unauthenticated callers. */
  function SubjectFromPrincipal(principalType: string, principalId: string): string {
    if principalType == "" || principalId == "" || principalType == "system" then ""
    else principalType + ":" + principalId
  }

  /** The subject of a data-plane principal, typed by its id prefix. */
  function SubjectFromId(principalId: string): string {
    if principalId == "" then ""
    else if "usr" <= principalId then ObjectRef("user", principalId)
    else ObjectRef("service_account", principalId)
  }

  /** As SubjectFromId, except that the configured anonymous principal becomes the wildcard. */
  function SubjectForPrincipalId(principalId: string, anonPrincipalId: string): string {
    if anonPrincipalId != "" && principalId == anonPrincipalId then PUBLIC_WILDCARD
    else SubjectFromId(principalId)
  }

  function RegistryCreated(registryId: string, projectId: string, subject: string): Intent {
    Intent("Registry", registryId,
           [ProjectTuple(registryId, projectId)] + if subject != "" then [OwnerTuple(subject, registryId)] else [],
           projectId)
  }

  function RegistryUpdated(registryId: string, projectId: string): Intent {
    Intent("Registry", registryId, [ProjectTuple(registryId, projectId)], projectId)
  }

  function RegistryDeleted(registryId: string, projectId: string): Intent {
    Intent("Registry", registryId, [ProjectTuple(registryId, projectId)], "")
  }

  /** Parent tuple first, then the creator's owner tuple when there is a subject. */
  function RepoPushed(registryId: string, repo: string, projectId: string, subject: string): Intent {
    Intent("Repository", RepoObjectId(registryId, repo),
           [RepoParentTuple(registryId, repo)] +
           if subject != "" then [RepoOwnerTuple(registryId, repo, subject)] else [],
           projectId)
  }

  function RepoRemoved(registryId: string, repo: string): Intent {
    Intent("Repository", RepoObjectId(registryId, repo), [RepoParentTuple(registryId, repo)], "")
  }

  /** Both the register and the unregister of the anonymous-read grant carry this intent. */
  function RepoPublicGrant(registryId: string, repo: string): Intent {
    Intent("RepositoryPublicGrant", RepoObjectId(registryId, repo), [PublicGetTuple(registryId, repo)], "")
  }

  predicate Slashless(s: string) {
    '/' !in s
  }

  /** The first '/' separates the registry from the repository, which may hold further slashes. */
  lemma RepoObjectIdInjective(registry1: string, repo1: string, registry2: string, repo2: string)
    requires Slashless(registry1) && Slashless(registry2)
    requires RepoObjectId(registry1, repo1) == RepoObjectId(registry2, repo2)
    ensures registry1 == registry2 && repo1 == repo2
  {
    var id1, id2 := RepoObjectId(registry1, repo1), RepoObjectId(registry2, repo2);
    assert id1[|registry1|] == '/' && id2[|registry2|] == '/';
    assert id1[..|registry1|] == registry1 && id2[..|registry2|] == registry2;
    assert id1[|registry1| + 1..] == repo1 && id2[|registry2| + 1..] == repo2;
  }

  /** One public-grant tuple stands for one repository of one registry. */
  lemma PublicGetTupleInjective(registry1: string, repo1: string, registry2: string, repo2: string)
    requires Slashless(registry1) && Slashless(registry2)
    ensures PublicGetTuple(registry1, repo1) == PublicGetTuple(registry2, repo2)
            <==> registry1 == registry2 && repo1 == repo2
  {
    var target1 := PublicGetTuple(registry1, repo1).target;
    var target2 := PublicGetTuple(registry2, repo2).target;
    var n := |TYPE_REPOSITORY| + 1;
    assert target1[n..] == RepoObjectId(registry1, repo1);
    assert target2[n..] == RepoObjectId(registry2, repo2);
    if target1 == target2 {
      RepoObjectIdInjective(registry1, repo1, registry2, repo2);
    }
  }

  /** Both planes name a user or service account by the same subject exactly when its id prefix
      and its type agree. */
  lemma PlanesNameSubjectsAlike(principalType: string, principalId: string)
    requires principalId != "" && (principalType == "user" || principalType == "service_account")
    ensures SubjectFromPrincipal(principalType, principalId) == SubjectFromId(principalId)
            <==> (principalType == "user" <==> "usr" <= principalId)
  {
    assert "user:"[0] == 'u' && "service_account:"[0] == 's';
    assert SubjectFromPrincipal(principalType, principalId)[0] == principalType[0];
    assert SubjectFromId(principalId)[0] == if "usr" <= principalId then 'u' else 's';
  }

  /** Only a caller without identity, and on the control plane a system one, has no subject. */
  lemma WhoHasNoSubject(principalType: string, principalId: string)
    ensures SubjectFromPrincipal(principalType, principalId) == "" <==>
              principalType == "" || principalId == "" || principalType == "system"
    ensures SubjectFromId(principalId) == "" <==> principalId == ""
    ensures principalId != "" ==>
              SubjectFromId(principalId) == (if "usr" <= principalId then "user:" else "service_account:") + principalId
  {
    if principalId != "" {
      assert "user" + ":" == "user:" && "service_account" + ":" == "service_account:";
    }
  }

  /** A caller acts as the public wildcard exactly when anonymous access is configured and
      the caller is that configured principal: no other id can spell "user:*". */
  lemma WildcardOnlyForAnonymous(principalId: string, anonPrincipalId: string)
    ensures SubjectForPrincipalId(principalId, anonPrincipalId) == PUBLIC_WILDCARD
            <==> anonPrincipalId != "" && principalId == anonPrincipalId
  {
    var subject := SubjectFromId(principalId);
    if principalId == "" {
    } else if "usr" <= principalId {
      assert subject[|"user:"|] == principalId[0] == 'u';
    } else {
      assert subject[0] == 's';
    }
  }
}
