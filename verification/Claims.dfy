/**
 * Who may act when several resources claim one BorgBase repository, or one healthchecks slug:
 * repositoryConflict and olderRepository of internal/controller/repository_controller.go,
 * slugConflict and olderThan of internal/controller/scheduledbackup_controller.go.
 */
module Claims {

  // ----- string order, as Go compares strings

  predicate Less(a: string, b: string) {
    b != [] && (a == [] || a[0] < b[0] || (a[0] == b[0] && Less(a[1..], b[1..])))
  }

  lemma {:induction false} LessTransitive(a: string, b: string, c: string)
    requires Less(a, b) && Less(b, c)
    ensures Less(a, c)
  {
    if a != [] && a[0] == b[0] == c[0] {
      LessTransitive(a[1..], b[1..], c[1..]);
    }
  }

  lemma {:induction false} LessAsymmetric(a: string, b: string)
    requires Less(a, b)
    ensures !Less(b, a) && a != b
  {
    if a != [] && a[0] == b[0] {
      LessAsymmetric(a[1..], b[1..]);
    }
  }

  lemma {:induction false} LessTotal(a: string, b: string)
    ensures Less(a, b) || a == b || Less(b, a)
  {
    if a != [] && b != [] && a[0] == b[0] {
      LessTotal(a[1..], b[1..]);
      assert a == [a[0]] + a[1..] && b == [b[0]] + b[1..];
    }
  }

  /** Where the strings first differ the first one has the smaller character, or it ends there. */
  predicate FirstDiffersAt(a: string, b: string, k: nat) {
    && k <= |a| && k < |b| && a[..k] == b[..k]
    && (k == |a| || a[k] < b[k])
  }

  lemma {:induction false} LessExactly(a: string, b: string)
    ensures Less(a, b) <==> exists k: nat :: k <= |a| && FirstDiffersAt(a, b, k)
  {
    if b != [] {
      if a == [] || a[0] < b[0] {
        assert FirstDiffersAt(a, b, 0);
      } else if a[0] == b[0] {
        LessExactly(a[1..], b[1..]);
        forall k: nat | k < |a| ensures FirstDiffersAt(a[1..], b[1..], k) <==> FirstDiffersAt(a, b, k + 1) {
          SamePrefix(a, b, k);
        }
        if Less(a, b) {
          var k: nat :| k <= |a[1..]| && FirstDiffersAt(a[1..], b[1..], k);
          assert FirstDiffersAt(a, b, k + 1);
        }
        if k: nat :| k <= |a| && FirstDiffersAt(a, b, k) {
          assert k > 0 && FirstDiffersAt(a[1..], b[1..], k - 1);
        }
      }
    }
  }

  lemma SamePrefix(a: string, b: string, k: nat)
    requires a != [] && b != [] && a[0] == b[0]
    ensures k < |a| && k < |b| ==> (a[..k + 1] == b[..k + 1] <==> a[1..][..k] == b[1..][..k])
  {
    if k < |a| && k < |b| {
      assert a[..k + 1] == [a[0]] + a[1..][..k] && b[..k + 1] == [b[0]] + b[1..][..k];
    }
  }

  // ----- Repositories

  datatype Claim = Claim(
    namespace: string,
    name: string,
    created: int,
    deleting: bool,
    recordedID: string,
    existingID: string)

  predicate SameResource(a: Claim, b: Claim) {
    a.namespace == b.namespace && a.name == b.name
  }

  function ManagedID(c: Claim): string {
    if c.recordedID != "" then c.recordedID else c.existingID
  }

  predicate OlderRepository(a: Claim, b: Claim) {
    if a.created != b.created then a.created < b.created
    else if a.namespace != b.namespace then Less(a.namespace, b.namespace)
    else Less(a.name, b.name)
  }

  /** olderRepository is a strict total order of resources. */
  lemma OlderRepositoryOrders(a: Claim, b: Claim, c: Claim)
    ensures !(OlderRepository(a, b) && OlderRepository(b, a))
    ensures SameResource(a, b) && a.created == b.created <==> !OlderRepository(a, b) && !OlderRepository(b, a)
    ensures OlderRepository(a, b) && OlderRepository(b, c) ==> OlderRepository(a, c)
  {
    StringOrder(a.namespace, b.namespace, c.namespace);
    StringOrder(a.name, b.name, c.name);
  }

  lemma StringOrder(a: string, b: string, c: string)
    ensures !(Less(a, b) && Less(b, a)) && (a == b ==> !Less(a, b))
    ensures Less(a, b) || a == b || Less(b, a)
    ensures Less(a, b) && Less(b, c) ==> Less(a, c)
  {
    LessTotal(a, b);
    if Less(a, b) {
      LessAsymmetric(a, b);
      if Less(b, c) {
        LessTransitive(a, b, c);
      }
    }
    if Less(b, a) {
      LessAsymmetric(b, a);
    }
  }

  /** other stands in the way of repo managing the repository with this ID. */
  predicate Rival(other: Claim, repo: Claim, id: string) {
    !other.deleting && !SameResource(other, repo) && ManagedID(other) == id && OlderRepository(other, repo)
  }

  predicate Contested(list: seq<Claim>, repo: Claim, id: string) {
    id != "" && exists i :: 0 <= i < |list| && Rival(list[i], repo, id)
  }

  method RepositoryConflict(list: seq<Claim>, repo: Claim, id: string) returns (other: string)
    ensures other != "" <==> Contested(list, repo, id)
    ensures other != "" <==> id != "" && exists i :: 0 <= i < |list| && Precedes(list[i], repo, id)
    ensures other != "" ==>
      exists i :: 0 <= i < |list| && Rival(list[i], repo, id) && other == list[i].namespace + "/" + list[i].name
  {
    ConflictExactly(list, repo, id);
    if id == "" {
      return "";
    }
    for i := 0 to |list|
      invariant forall k :: 0 <= k < i ==> !Rival(list[k], repo, id)
    {
      if list[i].deleting || (list[i].namespace == repo.namespace && list[i].name == repo.name) {
        continue;
      }
      if ManagedID(list[i]) != id {
        continue;
      }
      if OlderRepository(list[i], repo) {
        assert Rival(list[i], repo, id);
        return list[i].namespace + "/" + list[i].name;
      }
    }
    return "";
  }

  /**
   * A conflict is one with a live resource of another namespace or name that has recorded the repository, or adopts it
   * and has recorded none, and that was created earlier, or at the same time with the smaller namespace, or in the same
   * namespace with the smaller name.
   */
  lemma ConflictExactly(list: seq<Claim>, repo: Claim, id: string)
    ensures Contested(list, repo, id) <==> id != "" && exists i :: 0 <= i < |list| && Precedes(list[i], repo, id)
  {
    if id != "" {
      forall i | 0 <= i < |list| ensures Rival(list[i], repo, id) <==> Precedes(list[i], repo, id) {
        StringOrder(list[i].namespace, repo.namespace, repo.namespace);
      }
    }
  }

  predicate Precedes(other: Claim, repo: Claim, id: string) {
    && !other.deleting && (other.namespace != repo.namespace || other.name != repo.name)
    && (other.recordedID == id || (other.recordedID == "" && other.existingID == id))
    && (|| other.created < repo.created
        || (other.created == repo.created && Less(other.namespace, repo.namespace))
        || (other.created == repo.created && other.namespace == repo.namespace && Less(other.name, repo.name)))
  }

  // ----- a strict total order has one first element

  ghost predicate OrdersStrictly<T(!new)>(s: seq<T>, before: (T, T) -> bool) {
    && (forall i, j {:trigger before(s[i], s[j])} :: 0 <= i < |s| && 0 <= j < |s| && i != j ==>
          (before(s[i], s[j]) <==> !before(s[j], s[i])))
    && (forall i, j, k {:trigger before(s[i], s[j]), before(s[j], s[k])} ::
          0 <= i < |s| && 0 <= j < |s| && 0 <= k < |s| && before(s[i], s[j]) && before(s[j], s[k]) ==>
            before(s[i], s[k]))
    && (forall i :: 0 <= i < |s| ==> !before(s[i], s[i]))
  }

  predicate First<T(!new)>(s: seq<T>, before: (T, T) -> bool, i: int) {
    0 <= i < |s| && forall j :: 0 <= j < |s| ==> !before(s[j], s[i])
  }

  lemma {:induction false} FirstExists<T(!new)>(s: seq<T>, before: (T, T) -> bool) returns (i: int)
    requires s != [] && OrdersStrictly(s, before)
    ensures First(s, before, i)
  {
    var last := |s| - 1;
    if last == 0 {
      i := 0;
    } else {
      var init := s[..last];
      assert OrdersStrictly(init, before);
      i := FirstExists(init, before);
      assert forall j :: 0 <= j < last ==> s[j] == init[j];
      if before(s[last], s[i]) {
        i := last;
      }
    }
  }

  // ----- exactly one claimant acts

  /** Live, distinct resources that claim the repository. */
  predicate Claimants(list: seq<Claim>, id: string) {
    && (forall i :: 0 <= i < |list| ==> !list[i].deleting && ManagedID(list[i]) == id)
    && (forall i, j :: 0 <= i < j < |list| ==> !SameResource(list[i], list[j]))
  }

  lemma ClaimantsOrdered(list: seq<Claim>, id: string)
    requires Claimants(list, id)
    ensures OrdersStrictly(list, OlderRepository)
  {
    forall i, j | 0 <= i < |list| && 0 <= j < |list| && i != j
      ensures OlderRepository(list[i], list[j]) <==> !OlderRepository(list[j], list[i])
    {
      assert !SameResource(list[i], list[j]);
      OlderRepositoryOrders(list[i], list[j], list[j]);
    }
    forall i, j, k | 0 <= i < |list| && 0 <= j < |list| && 0 <= k < |list| && OlderRepository(list[i], list[j])
      && OlderRepository(list[j], list[k])
      ensures OlderRepository(list[i], list[k])
    {
      OlderRepositoryOrders(list[i], list[j], list[k]);
    }
    forall i | 0 <= i < |list| ensures !OlderRepository(list[i], list[i]) {
      OlderRepositoryOrders(list[i], list[i], list[i]);
    }
  }

  /** Of all live claimants of a repository exactly one sees no conflict, and none was created before it. */
  lemma UniqueWinner(list: seq<Claim>, id: string) returns (winner: int)
    requires list != [] && id != "" && Claimants(list, id)
    ensures 0 <= winner < |list|
    ensures forall i :: 0 <= i < |list| ==> list[winner].created <= list[i].created
    ensures forall i :: 0 <= i < |list| ==> (Contested(list, list[i], id) <==> i != winner)
  {
    ClaimantsOrdered(list, id);
    winner := FirstExists(list, OlderRepository);
    forall i | 0 <= i < |list| ensures list[winner].created <= list[i].created {
      assert !OlderRepository(list[i], list[winner]);
    }
    forall i | 0 <= i < |list| ensures Contested(list, list[i], id) <==> i != winner {
      if i != winner {
        assert !OlderRepository(list[i], list[winner]);
        assert Rival(list[winner], list[i], id);
      }
    }
  }

  /** Other resources in the list, and its order, do not matter. */
  lemma ConflictIgnoresOrder(list: seq<Claim>, list': seq<Claim>, repo: Claim, id: string)
    requires forall c: Claim :: !c.deleting && ManagedID(c) == id ==> (c in list <==> c in list')
    ensures Contested(list, repo, id) <==> Contested(list', repo, id)
  {
    if i :| 0 <= i < |list| && Rival(list[i], repo, id) {
      assert list[i] in list';
    }
    if i :| 0 <= i < |list'| && Rival(list'[i], repo, id) {
      assert list'[i] in list;
    }
  }

  // ----- ScheduledBackups in one namespace

  datatype SlugClaim = SlugClaim(name: string, created: int, deleting: bool, enabled: bool, byUUID: bool, slug: string)

  predicate OlderThan(a: SlugClaim, b: SlugClaim) {
    if a.created != b.created then a.created < b.created else Less(a.name, b.name)
  }

  predicate PingsSlug(b: SlugClaim) {
    b.enabled && !b.byUUID
  }

  predicate SlugRival(other: SlugClaim, sb: SlugClaim) {
    other.name != sb.name && !other.deleting && PingsSlug(other) && other.slug == sb.slug && OlderThan(other, sb)
  }

  predicate SlugContested(list: seq<SlugClaim>, sb: SlugClaim) {
    PingsSlug(sb) && exists i :: 0 <= i < |list| && SlugRival(list[i], sb)
  }

  /** The name of the rival; a resource name is never empty. */
  method SlugConflict(list: seq<SlugClaim>, sb: SlugClaim) returns (other: string)
    requires forall i :: 0 <= i < |list| ==> list[i].name != ""
    ensures other != "" <==> SlugContested(list, sb)
    ensures other != "" <==> sb.enabled && !sb.byUUID && exists i :: 0 <= i < |list| && SlugPrecedes(list[i], sb)
    ensures other != "" ==> exists i :: 0 <= i < |list| && SlugRival(list[i], sb) && other == list[i].name
  {
    SlugConflictExactly(list, sb);
    if !sb.enabled || sb.byUUID {
      return "";
    }
    for i := 0 to |list|
      invariant forall k :: 0 <= k < i ==> !SlugRival(list[k], sb)
    {
      if list[i].name == sb.name || list[i].deleting {
        continue;
      }
      if !list[i].enabled || list[i].byUUID || list[i].slug != sb.slug {
        continue;
      }
      if OlderThan(list[i], sb) {
        return list[i].name;
      }
    }
    return "";
  }

  /** A rival is a live backup of another name that reports the slug and is older, or as old with the smaller name. */
  lemma SlugConflictExactly(list: seq<SlugClaim>, sb: SlugClaim)
    ensures SlugContested(list, sb) <==>
      sb.enabled && !sb.byUUID && exists i :: 0 <= i < |list| && SlugPrecedes(list[i], sb)
  {
    forall i | 0 <= i < |list| ensures SlugRival(list[i], sb) <==> SlugPrecedes(list[i], sb) {
    }
  }

  predicate SlugPrecedes(other: SlugClaim, sb: SlugClaim) {
    && other.name != sb.name && !other.deleting && other.enabled && !other.byUUID && other.slug == sb.slug
    && (other.created < sb.created || (other.created == sb.created && Less(other.name, sb.name)))
  }

  /** olderThan is a strict total order of the backups of a namespace. */
  lemma OlderThanOrders(a: SlugClaim, b: SlugClaim, c: SlugClaim)
    ensures !(OlderThan(a, b) && OlderThan(b, a))
    ensures a.name == b.name && a.created == b.created <==> !OlderThan(a, b) && !OlderThan(b, a)
    ensures OlderThan(a, b) && OlderThan(b, c) ==> OlderThan(a, c)
  {
    StringOrder(a.name, b.name, c.name);
  }

  predicate SlugClaimants(list: seq<SlugClaim>, slug: string) {
    && (forall i :: 0 <= i < |list| ==> !list[i].deleting && PingsSlug(list[i]) && list[i].slug == slug)
    && (forall i, j :: 0 <= i < j < |list| ==> list[i].name != list[j].name)
  }

  lemma SlugClaimantsOrdered(list: seq<SlugClaim>, slug: string)
    requires SlugClaimants(list, slug)
    ensures OrdersStrictly(list, OlderThan)
  {
    forall i, j | 0 <= i < |list| && 0 <= j < |list| && i != j
      ensures OlderThan(list[i], list[j]) <==> !OlderThan(list[j], list[i])
    {
      assert list[i].name != list[j].name;
      OlderThanOrders(list[i], list[j], list[j]);
    }
    forall i, j, k | 0 <= i < |list| && 0 <= j < |list| && 0 <= k < |list| && OlderThan(list[i], list[j])
      && OlderThan(list[j], list[k])
      ensures OlderThan(list[i], list[k])
    {
      OlderThanOrders(list[i], list[j], list[k]);
    }
    forall i | 0 <= i < |list| ensures !OlderThan(list[i], list[i]) {
      OlderThanOrders(list[i], list[i], list[i]);
    }
  }

  /** Of all live backups that report one slug exactly one sees no conflict, and none was created before it. */
  lemma UniqueSlugWinner(list: seq<SlugClaim>, slug: string) returns (winner: int)
    requires list != [] && SlugClaimants(list, slug)
    ensures 0 <= winner < |list|
    ensures forall i :: 0 <= i < |list| ==> list[winner].created <= list[i].created
    ensures forall i :: 0 <= i < |list| ==> (SlugContested(list, list[i]) <==> i != winner)
  {
    SlugClaimantsOrdered(list, slug);
    winner := FirstExists(list, OlderThan);
    forall i | 0 <= i < |list| ensures list[winner].created <= list[i].created {
      assert !OlderThan(list[i], list[winner]);
    }
    forall i | 0 <= i < |list| ensures SlugContested(list, list[i]) <==> i != winner {
      if i != winner {
        assert !OlderThan(list[i], list[winner]);
        assert SlugRival(list[winner], list[i]);
      }
    }
  }

  /** Other backups in the list, and its order, do not matter. */
  lemma SlugConflictIgnoresOrder(list: seq<SlugClaim>, list': seq<SlugClaim>, sb: SlugClaim)
    requires forall c: SlugClaim :: !c.deleting && PingsSlug(c) && c.slug == sb.slug ==> (c in list <==> c in list')
    ensures SlugContested(list, sb) <==> SlugContested(list', sb)
  {
    if i :| 0 <= i < |list| && SlugRival(list[i], sb) {
      assert list[i] in list';
    }
    if i :| 0 <= i < |list'| && SlugRival(list'[i], sb) {
      assert list'[i] in list;
    }
  }
}
