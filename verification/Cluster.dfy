/** Deploy and Cleanup: which resources of the cluster a project gains and loses. */
module Cluster {
  import opened Names

  datatype Kind = Ingress | Service | Deployment | NetworkPolicy | ServiceAccount

  datatype Key = Key(kind: Kind, name: string)

  // Each resource carries the project it was last written for.
  type Resources = map<Key, string>

  const KINDS: nat := 5

  // The order in which Deploy creates; Cleanup deletes in the reverse order.
  function DeployAt(i: nat): Kind
    requires i < KINDS
    ensures Position(DeployAt(i)) == i
  {
    match i
    case 0 => ServiceAccount
    case 1 => NetworkPolicy
    case 2 => Deployment
    case 3 => Service
    case 4 => Ingress
  }

  function Position(kind: Kind): nat {
    match kind
    case ServiceAccount => 0
    case NetworkPolicy => 1
    case Deployment => 2
    case Service => 3
    case Ingress => 4
  }

  // The resource of a kind for an application name.
  function KeyFor(kind: Kind, appName: string): Key {
    match kind
    case NetworkPolicy => Key(kind, PolicyName(appName))
    case ServiceAccount => Key(kind, ServiceAccountName(appName))
    case _ => Key(kind, appName)
  }

  // What the CreateOrUpdate functions write: the project name is sanitized once.
  function CreatedKey(kind: Kind, project: string): Key {
    KeyFor(kind, K8sName(project))
  }

  // What the Delete functions remove: Cleanup sanitizes, and each of them sanitizes again.
  function DeletedKey(kind: Kind, project: string): Key {
    KeyFor(kind, K8sName(K8sName(project)))
  }

  // None of the first n calls of Deploy is refused.
  predicate Reaches(n: nat, refused: set<Kind>)
    requires n <= KINDS
  {
    forall i :: 0 <= i < n ==> DeployAt(i) !in refused
  }

  // The key is one that Deploy writes within its first n calls.
  predicate Writes(n: nat, refused: set<Kind>, project: string, key: Key)
    requires n <= KINDS
  {
    && key == CreatedKey(key.kind, project)
    && Position(key.kind) < n
    && Reaches(Position(key.kind) + 1, refused)
  }

  // r' is r with exactly those keys written for the project.
  ghost predicate Deployed(r: Resources, r': Resources, project: string, n: nat, refused: set<Kind>)
    requires n <= KINDS
  {
    forall key ::
      && (key in r' <==> key in r || Writes(n, refused, project, key))
      && (key in r' ==> r'[key] == if Writes(n, refused, project, key) then project else r[key])
  }

  // The key is one that Cleanup deletes with the given refusals, among the kinds at position n or later.
  predicate Deletes(n: nat, refused: set<Kind>, project: string, key: Key) {
    key.kind !in refused && key == DeletedKey(key.kind, project) && n <= Position(key.kind)
  }

  ghost predicate Cleaned(r: Resources, r': Resources, project: string, n: nat, refused: set<Kind>) {
    forall key ::
      && (key in r' <==> key in r && !Deletes(n, refused, project, key))
      && (key in r' ==> r'[key] == r[key])
  }

  class Client {
    var resources: Resources

    constructor ()
      ensures resources == map[]
    {
      resources := map[];
    }

    // Client.Deploy stops at the first call that fails.
    method Deploy(project: string, refused: set<Kind>) returns (ok: bool)
      modifies this
      ensures Deployed(old(resources), resources, project, KINDS, refused)
      ensures ok <==> refused == {}
    {
      var n := 0;
      while n < KINDS
        invariant 0 <= n <= KINDS && Reaches(n, refused)
        invariant Deployed(old(resources), resources, project, n, refused)
      {
        var kind := DeployAt(n);
        if kind in refused {
          StopsAt(n, refused, project);
          return false;
        }
        WriteNext(old(resources), resources, project, n, refused);
        resources := resources[CreatedKey(kind, project) := project];
        n := n + 1;
      }
      assert forall k: Kind :: k == DeployAt(Position(k)) && k !in refused;
      return true;
    }

    // Client.Cleanup attempts every deletion and collects the failures; NotFound is not one.
    method Cleanup(project: string, refused: set<Kind>) returns (errors: seq<Kind>)
      modifies this
      ensures Cleaned(old(resources), resources, project, 0, refused)
      ensures errors == Refusals(0, refused)
    {
      errors := [];
      var n := KINDS;
      while n > 0
        invariant 0 <= n <= KINDS
        invariant Cleaned(old(resources), resources, project, n, refused)
        invariant errors == Refusals(n, refused)
      {
        n := n - 1;
        var kind := DeployAt(n);
        CleanNext(old(resources), resources, project, n, refused);
        RefusedNext(n, refused);
        if kind in refused {
          errors := errors + [kind];
        } else {
          resources := resources - {DeletedKey(kind, project)};
        }
      }
    }
  }

  // A refused kind, once Cleanup has come back to position n.
  function RefusedOf(kind: Kind, n: nat, refused: set<Kind>): seq<Kind> {
    if kind in refused && n <= Position(kind) then [kind] else []
  }

  // In the order in which Cleanup goes through the kinds.
  function Refusals(n: nat, refused: set<Kind>): seq<Kind> {
    RefusedOf(Ingress, n, refused) + RefusedOf(Service, n, refused) + RefusedOf(Deployment, n, refused)
    + RefusedOf(NetworkPolicy, n, refused) + RefusedOf(ServiceAccount, n, refused)
  }

  lemma RefusedNext(n: nat, refused: set<Kind>)
    requires n < KINDS
    ensures Refusals(n, refused)
            == Refusals(n + 1, refused) + if DeployAt(n) in refused then [DeployAt(n)] else []
  {
    var kind := DeployAt(n);
    assert forall k: Kind | k != kind :: RefusedOf(k, n + 1, refused) == RefusedOf(k, n, refused);
  }

  // What a Deploy has written when the call for one kind is the first to be refused.
  lemma DeployOrder(project: string, key: Key)
    requires key == CreatedKey(key.kind, project)
    ensures !Writes(KINDS, {ServiceAccount}, project, key)
    ensures Writes(KINDS, {NetworkPolicy}, project, key) <==> key.kind == ServiceAccount
    ensures Writes(KINDS, {Deployment}, project, key) <==> key.kind in {ServiceAccount, NetworkPolicy}
    ensures Writes(KINDS, {Service}, project, key) <==> key.kind in {ServiceAccount, NetworkPolicy, Deployment}
    ensures Writes(KINDS, {Ingress}, project, key) <==> key.kind != Ingress
  {
    WritesUpTo(ServiceAccount, project, key);
    WritesUpTo(NetworkPolicy, project, key);
    WritesUpTo(Deployment, project, key);
    WritesUpTo(Service, project, key);
    WritesUpTo(Ingress, project, key);
  }

  lemma WritesUpTo(first: Kind, project: string, key: Key)
    requires key == CreatedKey(key.kind, project)
    ensures Writes(KINDS, {first}, project, key) <==> Position(key.kind) < Position(first)
  {
    assert DeployAt(Position(first)) == first;
  }

  lemma StopsAt(n: nat, refused: set<Kind>, project: string)
    requires n < KINDS && DeployAt(n) in refused
    ensures forall key: Key :: Writes(KINDS, refused, project, key) ==> Writes(n, refused, project, key)
  {
  }

  lemma WriteNext(r0: Resources, r: Resources, project: string, n: nat, refused: set<Kind>)
    requires n < KINDS && Reaches(n + 1, refused) && Deployed(r0, r, project, n, refused)
    ensures Deployed(r0, r[CreatedKey(DeployAt(n), project) := project], project, n + 1, refused)
  {
    assert CreatedKey(DeployAt(n), project).kind == DeployAt(n);
    forall key: Key ensures Writes(n + 1, refused, project, key)
                       <==> Writes(n, refused, project, key) || key == CreatedKey(DeployAt(n), project)
    {
      if Position(key.kind) == n { assert key.kind == DeployAt(n); }
    }
  }

  lemma CleanNext(r0: Resources, r: Resources, project: string, n: nat, refused: set<Kind>)
    requires n < KINDS && Cleaned(r0, r, project, n + 1, refused)
    ensures var kind := DeployAt(n);
            Cleaned(r0, if kind in refused then r else r - {DeletedKey(kind, project)}, project, n, refused)
  {
    var kind := DeployAt(n);
    assert DeletedKey(kind, project).kind == kind;
    assert forall k: Kind :: n <= Position(k) <==> k == kind || n + 1 <= Position(k);
  }

  // Cleanup removes what Deploy wrote, kind by kind, exactly when the name fits or the name is suffixed.
  lemma DeletesWhatItCreated(kind: Kind, project: string)
    ensures DeletedKey(kind, project) == CreatedKey(kind, project)
            <==> (kind in {NetworkPolicy, ServiceAccount} || |K8sName(project)| <= MAX_LABEL)
  {
    Idempotent(project);
    SuffixedStable(project, "-sa");
    SuffixedStable(project, "-netpol");
  }

  lemma WritesAll(project: string, key: Key)
    ensures Writes(KINDS, {}, project, key) <==> key == CreatedKey(key.kind, project)
  {
  }

  // Deploy, then a Cleanup, both without refusals, key by key.
  lemma DeployThenCleanup(r0: Resources, r1: Resources, r2: Resources, project: string, key: Key)
    requires Deployed(r0, r1, project, KINDS, {}) && Cleaned(r1, r2, project, 0, {})
    ensures key in r1 <==> key in r0 || key == CreatedKey(key.kind, project)
    ensures key in r2 <==> key in r1 && key != DeletedKey(key.kind, project)
    ensures key in r2 ==> r2[key] == if key == CreatedKey(key.kind, project) then project else r0[key]
  {
    WritesAll(project, key);
  }

  // Deploy, then a Cleanup, both without refusals: all five resources were there; the two suffixed
  // ones are gone, and the three named by the bare label are gone exactly when it fits in 63 bytes.
  // Altogether what is left is what was there or was written, without the deleted keys.
  lemma CleanupUndoesDeploy(r0: Resources, r1: Resources, r2: Resources, project: string)
    requires Deployed(r0, r1, project, KINDS, {}) && Cleaned(r1, r2, project, 0, {})
    ensures forall k: Kind :: CreatedKey(k, project) in r1
    ensures forall k: Kind :: CreatedKey(k, project) !in r2
              <==> (k in {NetworkPolicy, ServiceAccount} || |K8sName(project)| <= MAX_LABEL)
    ensures forall key: Key :: key in r2 <==>
              (key in r0 || key == CreatedKey(key.kind, project)) && key != DeletedKey(key.kind, project)
    ensures forall key: Key | key in r2 :: r2[key] == if key == CreatedKey(key.kind, project) then project else r0[key]
  {
    forall k: Kind ensures CreatedKey(k, project) in r1
                   ensures CreatedKey(k, project) !in r2
                           <==> (k in {NetworkPolicy, ServiceAccount} || |K8sName(project)| <= MAX_LABEL)
    {
      var key := CreatedKey(k, project);
      assert key.kind == k;
      DeployThenCleanup(r0, r1, r2, project, key);
      DeletesWhatItCreated(k, project);
    }
    forall key: Key { DeployThenCleanup(r0, r1, r2, project, key); }
  }

  // Whatever an interrupted Deploy left, a full Cleanup removes it and nothing else, exactly when
  // the name fits in 63 bytes or Deploy had not come to the three resources named by the bare
  // label and no other project owns the ones that are deleted instead.
  lemma CleanupAfterPartialDeploy(r0: Resources, r1: Resources, r2: Resources, project: string,
                                  n: nat, refused: set<Kind>)
    requires n <= KINDS
    requires Deployed(r0, r1, project, n, refused) && Cleaned(r1, r2, project, 0, {})
    ensures (forall key: Key :: key in r2 <==> key in r0 && key != CreatedKey(key.kind, project))
            <==> |K8sName(project)| <= MAX_LABEL
                 || forall k: Kind | k !in {NetworkPolicy, ServiceAccount} ::
                      CreatedKey(k, project) !in r1 && DeletedKey(k, project) !in r0
  {
    if |K8sName(project)| <= MAX_LABEL {
      forall key: Key { DeletesWhatItCreated(key.kind, project); }
    } else {
      LongNameAfterPartialDeploy(r0, r1, r2, project, n, refused);
    }
  }

  lemma LongNameAfterPartialDeploy(r0: Resources, r1: Resources, r2: Resources, project: string,
                                   n: nat, refused: set<Kind>)
    requires n <= KINDS && |K8sName(project)| > MAX_LABEL
    requires Deployed(r0, r1, project, n, refused) && Cleaned(r1, r2, project, 0, {})
    ensures (forall key: Key :: key in r2 <==> key in r0 && key != CreatedKey(key.kind, project))
            <==> forall k: Kind | k !in {NetworkPolicy, ServiceAccount} ::
                   CreatedKey(k, project) !in r1 && DeletedKey(k, project) !in r0
  {
    forall key: Key
      ensures (key in r2 <==> key in r0 && key != CreatedKey(key.kind, project))
              <==> (key.kind in {NetworkPolicy, ServiceAccount}
                    || !((key in r1 && key == CreatedKey(key.kind, project))
                         || (key in r0 && key == DeletedKey(key.kind, project))))
    {
      DeletesWhatItCreated(key.kind, project);
    }
    forall k: Kind ensures CreatedKey(k, project).kind == k == DeletedKey(k, project).kind {}
  }

  // Cleanup of p deletes the resource of the given kind that belongs to q.
  predicate Hits(k: Kind, p: string, q: string) {
    match k
    case NetworkPolicy => Kept(K8sName(p), "-netpol") == Kept(K8sName(q), "-netpol")
    case ServiceAccount => Kept(K8sName(p), "-sa") == Kept(K8sName(q), "-sa")
    case _ => Kept(K8sName(p), "") == K8sName(q)
  }

  // When a deletion of p meets a resource of q, for any two projects: the parts of the two names
  // that the truncation keeps agree.
  lemma ProjectsApart(p: string, q: string, k: Kind, k': Kind)
    ensures DeletedKey(k, p) == CreatedKey(k', q) <==> k == k' && Hits(k, p, q)
  {
    SanitizedTwice(p);
    assert Kept(K8sName(p), "") == K8sName(K8sName(p));
    SuffixedStable(p, "-sa");
    SuffixedStable(p, "-netpol");
    SuffixedCollision(p, q, "-sa");
    SuffixedCollision(p, q, "-netpol");
  }

  // Cleanup of p leaves all five resources of q exactly when their policy names differ, which the
  // first 56 bytes of the two derived names decide.
  lemma SurvivesCleanup(r0: Resources, r1: Resources, r2: Resources, p: string, q: string)
    requires Deployed(r0, r1, q, KINDS, {}) && Cleaned(r1, r2, p, 0, {})
    ensures forall k: Kind :: CreatedKey(k, q) in r2 <==> !Hits(k, p, q)
    ensures (forall k: Kind :: CreatedKey(k, q) in r2 && r2[CreatedKey(k, q)] == q)
            <==> Kept(K8sName(p), "-netpol") != Kept(K8sName(q), "-netpol")
  {
    forall k: Kind ensures CreatedKey(k, q) in r2 <==> !Hits(k, p, q)
                   ensures CreatedKey(k, q) in r2 ==> r2[CreatedKey(k, q)] == q
    {
      assert CreatedKey(k, q).kind == k;
      assert Writes(KINDS, {}, q, CreatedKey(k, q));
      ProjectsApart(p, q, k, k);
    }
    assert Hits(NetworkPolicy, p, q) ==> CreatedKey(NetworkPolicy, q) !in r2;
    LongerKeptDecides(p, q, "-sa");
    LongerKeptDecides(p, q, "");
    K8sNameIsLabel(q);
    BareHitsPolicy(p, q);
  }

  lemma BareHitsPolicy(p: string, q: string)
    ensures Kept(K8sName(p), "") == K8sName(q) ==> Hits(NetworkPolicy, p, q)
  {
    if Kept(K8sName(p), "") == K8sName(q) {
      SanitizedTwice(p);
      assert Kept(K8sName(p), "") == K8sName(K8sName(p));
      SuffixedStable(p, "-netpol");
      SuffixedCollision(p, q, "-netpol");
    }
  }

  // Names of at most 56 bytes keep two projects apart altogether.
  lemma ShortNamesApart(p: string, q: string, k: Kind, k': Kind)
    requires |K8sName(p)| <= 56 && |K8sName(q)| <= 56
    ensures DeletedKey(k, p) == CreatedKey(k', q) <==> k == k' && K8sName(p) == K8sName(q)
  {
    Idempotent(p);
    SuffixedInjective(p, q);
  }

  // Two projects with different names, of 57 and 58 bytes: cleaning up the one takes the other's
  // network policy, and leaves its other four resources.
  lemma LongNamesShareAPolicy()
    ensures var p, q := Repeat('a', 57), Repeat('a', 58);
            K8sName(p) != K8sName(q) && forall k: Kind :: Hits(k, p, q) <==> k == NetworkPolicy
  {
    var p, q := Repeat('a', 57), Repeat('a', 58);
    RepeatIsKept(57, p);
    RepeatIsKept(58, q);
    assert |p| != |q|;
  }

  lemma RepeatIsKept(n: nat, s: string)
    requires 56 <= n <= 60 && s == Repeat('a', n)
    ensures K8sName(s) == s
    ensures Kept(s, "-netpol") == Repeat('a', 56) && Kept(s, "-sa") == s && Kept(s, "") == s
  {
    CleanName(s);
    assert Take(s, 56) == Repeat('a', 56);
  }

  // A project named by 63 zeros: its Cleanup misses its own Deployment, Service and Ingress and
  // takes those of the project named by an "a" and 62 zeros.
  lemma LongNameCleansAnother()
    ensures var p, q := Repeat('0', 63), "a" + Repeat('0', 62);
            K8sName(p) != K8sName(q)
            && forall k: Kind | k !in {NetworkPolicy, ServiceAccount} ::
                 DeletedKey(k, p) == CreatedKey(k, q) != CreatedKey(k, p)
  {
    var p, q := Repeat('0', 63), "a" + Repeat('0', 62);
    ZerosNameTooLong();
    CleanName(q);
    forall k: Kind | k !in {NetworkPolicy, ServiceAccount}
      ensures DeletedKey(k, p) == CreatedKey(k, q) != CreatedKey(k, p)
    {
      BareKeys(k, p);
      BareKeys(k, q);
    }
  }

  lemma BareKeys(k: Kind, project: string)
    requires k !in {NetworkPolicy, ServiceAccount}
    ensures CreatedKey(k, project) == Key(k, K8sName(project))
    ensures DeletedKey(k, project) == Key(k, K8sName(K8sName(project)))
  {
  }
}
