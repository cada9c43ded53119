/**
 Backup retention: enforceRetentionPolicy of controllers/mcpserverbackup_controller.go.
 The listing, the library sort and the API server's refusals are parameters; the sort may
 order backups of equal age in any way.
 */
module Retention {
  import opened Wrappers

  // `New` is the empty phase of a resource that has no status yet.
  datatype Phase = New | Pending | Running | Completed | Failed

  datatype Key = Key(namespace: string, name: string)

  datatype Backup = Backup(key: Key, phase: Phase, created: int)

  datatype Policy = Policy(keepLast: Option<int>, maxAge: Option<int>)

  predicate NewestFirst(s: seq<Backup>) {
    forall i, j :: 0 <= i < j < |s| ==> s[i].created >= s[j].created
  }

  predicate DistinctKeys(s: seq<Backup>) {
    forall i, j :: 0 <= i < j < |s| ==> s[i].key != s[j].key
  }

  ghost predicate SortsNewestFirst(sort: seq<Backup> -> seq<Backup>) {
    forall s :: NewestFirst(sort(s)) && multiset(sort(s)) == multiset(s)
  }

  function Keys(s: seq<Backup>): set<Key> {
    set b | b in s :: b.key
  }

  function CompletedOnly(items: seq<Backup>): seq<Backup> {
    if items == [] then []
    else
      var n := |items| - 1;
      CompletedOnly(items[..n]) + if items[n].phase == Completed then [items[n]] else []
  }

  /** How many of the backups are not older than the cutoff. */
  function FreshCount(s: seq<Backup>, cutoff: int): (n: nat)
    ensures n <= |s|
  {
    if s == [] then 0
    else (if s[0].created >= cutoff then 1 else 0) + FreshCount(s[1..], cutoff)
  }

  function KeepBound(n: nat, policy: Policy): (k: nat)
    ensures k <= n
  {
    if policy.keepLast.Some? && 0 < policy.keepLast.value < n then policy.keepLast.value else n
  }

  function AgeBound(s: seq<Backup>, policy: Policy, now: int): (f: nat)
    ensures f <= |s|
  {
    if policy.maxAge.Some? then FreshCount(s, now - policy.maxAge.value) else |s|
  }

  /** How many backups, counted from the newest, the policy keeps. */
  function Kept(s: seq<Backup>, policy: Policy, now: int): (n: nat)
    ensures n <= |s|
  {
    var k, f := KeepBound(|s|, policy), AgeBound(s, policy, now);
    if k <= f then k else f
  }

  /** The deletion order: first what KeepLast drops, then what only MaxAge drops. */
  function DeleteList(s: seq<Backup>, policy: Policy, now: int): seq<Backup> {
    var k := KeepBound(|s|, policy);
    s[k..] + s[Kept(s, policy, now)..k]
  }

  datatype DeleteOutcome = Deleted | NotFound | Refused

  /** The backups of one MCPServer as the API server holds them.  A completed backup carries the
      operator's finalizer, so deleting it only marks it; it stays listed, in phase Completed, until
      its cleanup has worked. */
  class Cluster {
    var live: set<Key>
    var marked: set<Key>

    ghost predicate Valid()
      reads this
    {
      live !! marked
    }

    constructor (keys: set<Key>)
      ensures Valid() && live == keys && marked == {}
    {
      live, marked := keys, {};
    }

    method Delete(key: Key, refuse: bool) returns (o: DeleteOutcome)
      requires Valid()
      modifies this
      ensures Valid()
      ensures o == if refuse then Refused else if key in old(live) + old(marked) then Deleted else NotFound
      ensures live == if refuse then old(live) else old(live) - {key}
      ensures live + marked == old(live) + old(marked)
    {
      if refuse {
        return Refused;
      }
      if key in live {
        live, marked := live - {key}, marked + {key};
        return Deleted;
      }
      o := if key in marked then Deleted else NotFound;
    }

    /** handleDeletion: the cleanup of a marked backup, which is tried again until it works. */
    method HandleDeletion(key: Key, cleanupOk: bool)
      requires Valid()
      modifies this`marked
      ensures Valid()
      ensures marked == if cleanupOk then old(marked) - {key} else old(marked)
    {
      if key in marked && cleanupOk {
        marked := marked - {key};
      }
    }
  }

  method FilterCompleted(items: seq<Backup>) returns (completed: seq<Backup>)
    ensures completed == CompletedOnly(items)
  {
    completed := [];
    for i := 0 to |items|
      invariant completed == CompletedOnly(items[..i])
    {
      assert items[..i + 1][..i] == items[..i];
      if items[i].phase == Completed {
        completed := completed + [items[i]];
      }
    }
    assert items[..|items|] == items;
  }

  /** What the MaxAge loop has added before it looks at position `i`. */
  ghost function Aged(s: seq<Backup>, f: nat, k: nat, i: nat): seq<Backup>
    requires f <= |s| && k <= |s| && i <= |s|
  {
    if f >= k || f >= i then [] else if i <= k then s[f..i] else s[f..k]
  }

  lemma AgedGrows(s: seq<Backup>, f: nat, k: nat, i: nat)
    requires f <= |s| && k <= |s| && i < |s|
    ensures Aged(s, f, k, i + 1) == Aged(s, f, k, i) + if f <= i < k then [s[i]] else []
  {
  }

  ghost predicate HasKey(list: seq<Backup>, key: Key) {
    exists j :: 0 <= j < |list| && list[j].key == key
  }

  /** The duplicate test finds a backup exactly if KeepLast has listed it. */
  lemma ListedAlready(s: seq<Backup>, f: nat, k: nat, i: nat)
    requires DistinctKeys(s) && f <= |s| && k <= |s| && i < |s|
    ensures HasKey(s[k..] + Aged(s, f, k, i), s[i].key) <==> i >= k
  {
    var list := s[k..] + Aged(s, f, k, i);
    if i >= k {
      assert list[i - k] == s[i];
    } else {
      forall j | 0 <= j < |list|
        ensures list[j].key != s[i].key
      {
        var at := if j < |s| - k then k + j else f + (j - (|s| - k));
        assert list[j] == s[at] && at != i;
      }
    }
  }

  method Contains(list: seq<Backup>, key: Key) returns (found: bool)
    ensures found <==> HasKey(list, key)
  {
    found := false;
    for j := 0 to |list|
      invariant !found && forall l :: 0 <= l < j ==> list[l].key != key
    {
      if list[j].key == key {
        found := true;
        break;
      }
    }
  }

  lemma {:induction false} FreshIsPrefix(s: seq<Backup>, cutoff: int)
    requires NewestFirst(s)
    ensures forall i :: 0 <= i < |s| ==> (s[i].created >= cutoff <==> i < FreshCount(s, cutoff))
  {
    if s == [] {
    } else {
      FreshIsPrefix(s[1..], cutoff);
      forall i | 0 < i < |s|
        ensures s[i].created >= cutoff <==> i < FreshCount(s, cutoff)
      {
        assert s[i] == s[1..][i - 1];
        assert s[0].created >= s[i].created;
      }
      assert |s| > 1 ==> s[1..][0] == s[1] && s[0].created >= s[1].created;
    }
  }

  method AddAged(s: seq<Backup>, ghost k: nat, listed: seq<Backup>, cutoff: int) returns (toDelete: seq<Backup>)
    requires NewestFirst(s) && DistinctKeys(s) && k <= |s| && listed == s[k..]
    ensures var f := FreshCount(s, cutoff);
            toDelete == s[k..] + s[if f < k then f else k..k]
  {
    ghost var f := FreshCount(s, cutoff);
    FreshIsPrefix(s, cutoff);
    toDelete := listed;
    for i := 0 to |s|
      invariant toDelete == s[k..] + Aged(s, f, k, i)
    {
      AgedGrows(s, f, k, i);
      if s[i].created < cutoff {
        var found := Contains(toDelete, s[i].key);
        ListedAlready(s, f, k, i);
        if !found {
          toDelete := toDelete + [s[i]];
        }
      }
    }
  }

  method BuildDeleteList(s: seq<Backup>, policy: Policy, now: int) returns (toDelete: seq<Backup>)
    requires NewestFirst(s) && DistinctKeys(s)
    ensures toDelete == DeleteList(s, policy, now)
  {
    toDelete := [];
    if policy.keepLast.Some? && policy.keepLast.value > 0 {
      if |s| > policy.keepLast.value {
        toDelete := toDelete + s[policy.keepLast.value..];
      }
    }
    assert toDelete == s[KeepBound(|s|, policy)..];
    if policy.maxAge.Some? {
      toDelete := AddAged(s, KeepBound(|s|, policy), toDelete, now - policy.maxAge.value);
    }
  }

  lemma KeysAppend(s: seq<Backup>, b: Backup)
    ensures Keys(s + [b]) == Keys(s) + {b.key}
  {
  }

  method DeleteAll(cluster: Cluster, toDelete: seq<Backup>, refuse: nat -> bool) returns (ok: bool)
    requires cluster.Valid()
    modifies cluster
    ensures cluster.Valid() && cluster.live + cluster.marked == old(cluster.live + cluster.marked)
    ensures ok <==> forall n: nat :: n < |toDelete| ==> !refuse(n)
    ensures ok ==> cluster.live == old(cluster.live) - Keys(toDelete)
    ensures !ok ==> exists n: nat :: n < |toDelete| && refuse(n) &&
                      cluster.live == old(cluster.live) - Keys(toDelete[..n])
  {
    for n := 0 to |toDelete|
      invariant cluster.Valid() && cluster.live + cluster.marked == old(cluster.live + cluster.marked)
      invariant cluster.live == old(cluster.live) - Keys(toDelete[..n])
      invariant forall m: nat :: m < n ==> !refuse(m)
    {
      var outcome := cluster.Delete(toDelete[n].key, refuse(n));
      if outcome == Refused {
        return false;
      }
      KeysAppend(toDelete[..n], toDelete[n]);
      assert toDelete[..n + 1] == toDelete[..n] + [toDelete[n]];
    }
    assert toDelete[..|toDelete|] == toDelete;
    ok := true;
  }

  lemma {:induction false} CompletedStayDistinct(items: seq<Backup>)
    requires DistinctKeys(items)
    ensures DistinctKeys(CompletedOnly(items))
    ensures forall b :: b in CompletedOnly(items) <==> b in items && b.phase == Completed
  {
    if items == [] {
    } else {
      var n := |items| - 1;
      CompletedStayDistinct(items[..n]);
      assert items == items[..n] + [items[n]];
    }
  }

  lemma {:induction false} DistinctOccurOnce(s: seq<Backup>, b: Backup)
    requires DistinctKeys(s)
    ensures multiset(s)[b] <= 1
  {
    if s == [] {
    } else {
      var n := |s| - 1;
      DistinctOccurOnce(s[..n], b);
      assert s == s[..n] + [s[n]];
      assert s[n] !in s[..n];
    }
  }

  lemma PermutationsStayDistinct(s: seq<Backup>, t: seq<Backup>)
    requires DistinctKeys(s) && multiset(s) == multiset(t)
    ensures DistinctKeys(t)
  {
    forall i, j | 0 <= i < j < |t|
      ensures t[i].key != t[j].key
    {
      assert t[i] in multiset(s) && t[j] in multiset(s);
      assert t[i] in s && t[j] in s;
      if t[i] == t[j] {
        assert t == t[..j] + ([t[j]] + t[j + 1..]);
        assert t[i] in t[..j];
        assert multiset(t)[t[j]] >= 2;
        DistinctOccurOnce(s, t[j]);
        assert false;
      }
    }
  }

  /** The list of deletions removes everything but the kept prefix, each backup once. */
  lemma DeleteListKeys(s: seq<Backup>, policy: Policy, now: int)
    requires DistinctKeys(s)
    ensures var toDelete := DeleteList(s, policy, now);
            && Keys(toDelete) == Keys(s[Kept(s, policy, now)..])
            && DistinctKeys(toDelete)
            && Keys(toDelete) !! Keys(s[..Kept(s, policy, now)])
            && (forall b :: b in toDelete ==> b in s)
  {
  }

  method EnforceRetentionPolicy(cluster: Cluster, policy: Policy, items: seq<Backup>,
                                sort: seq<Backup> -> seq<Backup>, now: int, refuse: nat -> bool)
    returns (ok: bool)
    requires cluster.Valid() && DistinctKeys(items) && SortsNewestFirst(sort)
    modifies cluster
    ensures cluster.Valid() && cluster.live + cluster.marked == old(cluster.live + cluster.marked)
    ensures policy.keepLast.None? ==> ok && cluster.live == old(cluster.live)
    ensures policy.keepLast.Some? ==>
              var toDelete := DeleteList(sort(CompletedOnly(items)), policy, now);
              ok <==> forall n: nat :: n < |toDelete| ==> !refuse(n)
    ensures policy.keepLast.Some? && ok ==>
              var s := sort(CompletedOnly(items));
              cluster.live == old(cluster.live) - Keys(s[Kept(s, policy, now)..])
    ensures !ok ==>
              var toDelete := DeleteList(sort(CompletedOnly(items)), policy, now);
              exists n: nat :: n < |toDelete| && refuse(n) &&
                cluster.live == old(cluster.live) - Keys(toDelete[..n])
  {
    if policy.keepLast.None? {
      return true;
    }
    var completed := FilterCompleted(items);
    var s := sort(completed);
    assert |s| == |multiset(s)| == |completed|;
    if |completed| == 0 {
      return true;
    }
    CompletedStayDistinct(items);
    PermutationsStayDistinct(completed, s);
    var toDelete := BuildDeleteList(s, policy, now);
    DeleteListKeys(s, policy, now);
    ok := DeleteAll(cluster, toDelete, refuse);
  }

  // ---- What the policy means --------------------------------------------------------------

  lemma DeleteListMembers(s: seq<Backup>, policy: Policy, now: int, i: nat)
    requires Kept(s, policy, now) <= i < |s|
    ensures s[i] in DeleteList(s, policy, now)
  {
    var k, m := KeepBound(|s|, policy), Kept(s, policy, now);
    if i < k {
      assert s[m..k][i - m] == s[i];
    } else {
      assert s[k..][i - k] == s[i];
    }
  }

  lemma DeletedLieBehindKept(s: seq<Backup>, policy: Policy, now: int)
    ensures forall b :: b in DeleteList(s, policy, now) ==> b in s[Kept(s, policy, now)..] && b in s
  {
  }

  /** Only completed backups are deleted, and none of the kept ones is older than a deleted one. */
  lemma OnlyTheOldestCompletedGo(items: seq<Backup>, s: seq<Backup>, policy: Policy, now: int)
    requires DistinctKeys(items) && NewestFirst(s) && multiset(s) == multiset(CompletedOnly(items))
    ensures forall b :: b in DeleteList(s, policy, now) ==> b in items && b.phase == Completed
    ensures forall x, y :: x in s[..Kept(s, policy, now)] && y in DeleteList(s, policy, now) ==>
              x.created >= y.created
  {
    CompletedStayDistinct(items);
    DeletedLieBehindKept(s, policy, now);
    forall b | b in DeleteList(s, policy, now)
      ensures b in items && b.phase == Completed
    {
      assert b in multiset(s);
      assert b in multiset(CompletedOnly(items));
      assert b in CompletedOnly(items);
    }
  }

  /** Which places of `s` the first `n` deletions reach, if `s[k..]` goes first and then `s[m..k]`. */
  predicate Reached(total: nat, m: nat, k: nat, n: nat, i: nat) {
    if k <= i then i < k + n else m <= i < m + n - (total - k)
  }

  lemma DeletedPlaces(s: seq<Backup>, m: nat, k: nat, n: nat, i: nat)
    requires DistinctKeys(s) && m <= k <= |s| && n <= |s| - m && i < |s|
    ensures s[i].key in Keys((s[k..] + s[m..k])[..n]) <==> Reached(|s|, m, k, n, i)
  {
    var l := s[k..] + s[m..k];
    if Reached(|s|, m, k, n, i) {
      assert l[..n][if k <= i then i - k else |s| - k + (i - m)] == s[i];
    }
    if b :| b in l[..n] && b.key == s[i].key {
      var at :| 0 <= at < n && l[..n][at] == b;
      assert l[at] == b;
      assert l[at] == if at < |s| - k then s[k + at] else s[m + (at - (|s| - k))];
    }
  }

  /** A backup is gone after `n` deletions, and an older one is not. */
  ghost predicate OlderOneSurvives(s: seq<Backup>, deleted: set<Key>) {
    exists i, j :: 0 <= i < |s| && 0 <= j < |s| && s[i].key in deleted && s[j].key !in deleted &&
                   s[j].created < s[i].created
  }

  ghost predicate ReachedBeforeOlder(s: seq<Backup>, m: nat, k: nat, n: nat) {
    exists i: nat, j: nat :: i < j < |s| && Reached(|s|, m, k, n, i) && !Reached(|s|, m, k, n, j) &&
                             s[j].created < s[i].created
  }

  lemma ReachedBeforeOlderIff(s: seq<Backup>, m: nat, k: nat, n: nat)
    requires NewestFirst(s) && m <= k <= |s| && n <= |s| - m
    ensures ReachedBeforeOlder(s, m, k, n) <==>
              if n < |s| - k then n > 0 && s[|s| - 1].created < s[k].created
              else |s| - k < n < |s| - m && s[k - 1].created < s[m].created
  {
  }

  lemma PlacesDecide(s: seq<Backup>, deleted: set<Key>, m: nat, k: nat, n: nat)
    requires NewestFirst(s)
    requires forall i :: 0 <= i < |s| ==> (s[i].key in deleted <==> Reached(|s|, m, k, n, i))
    ensures OlderOneSurvives(s, deleted) <==> ReachedBeforeOlder(s, m, k, n)
  {
  }

  lemma AllDeletedPlaces(s: seq<Backup>, m: nat, k: nat, n: nat)
    requires DistinctKeys(s) && m <= k <= |s| && n <= |s| - m
    ensures forall i :: 0 <= i < |s| ==>
              (s[i].key in Keys((s[k..] + s[m..k])[..n]) <==> Reached(|s|, m, k, n, i))
  {
    forall i | 0 <= i < |s|
      ensures s[i].key in Keys((s[k..] + s[m..k])[..n]) <==> Reached(|s|, m, k, n, i)
    {
      DeletedPlaces(s, m, k, n, i);
    }
  }

  lemma TwoPartsInvertIff(s: seq<Backup>, m: nat, k: nat, n: nat)
    requires NewestFirst(s) && DistinctKeys(s) && m <= k <= |s| && n <= |s| - m
    ensures OlderOneSurvives(s, Keys((s[k..] + s[m..k])[..n])) <==>
              if n < |s| - k then n > 0 && s[|s| - 1].created < s[k].created
              else |s| - k < n < |s| - m && s[k - 1].created < s[m].created
  {
    AllDeletedPlaces(s, m, k, n);
    PlacesDecide(s, Keys((s[k..] + s[m..k])[..n]), m, k, n);
    ReachedBeforeOlderIff(s, m, k, n);
  }

  /** The list goes from newer to older twice, so a run that stops at a refused deletion can leave an
      older backup than it deleted: exactly if it stops inside one of the two parts of the list, and
      the ages in that part differ. */
  lemma AbortedRunInvertsIff(s: seq<Backup>, policy: Policy, now: int, n: nat)
    requires NewestFirst(s) && DistinctKeys(s) && n <= |DeleteList(s, policy, now)|
    ensures var k, m := KeepBound(|s|, policy), Kept(s, policy, now);
            OlderOneSurvives(s, Keys(DeleteList(s, policy, now)[..n])) <==>
              if n < |s| - k then n > 0 && s[|s| - 1].created < s[k].created
              else |s| - k < n < |s| - m && s[k - 1].created < s[m].created
  {
    TwoPartsInvertIff(s, Kept(s, policy, now), KeepBound(|s|, policy), n);
  }

  /** A deletion always has a reason: the backup is past MaxAge, or KeepLast newer ones stay. */
  lemma EveryDeletionHasAReason(s: seq<Backup>, policy: Policy, now: int, i: nat)
    requires NewestFirst(s) && i < |s|
    ensures i >= Kept(s, policy, now) <==>
            || (policy.maxAge.Some? && s[i].created < now - policy.maxAge.value)
            || (policy.keepLast.Some? && 0 < policy.keepLast.value <= i)
  {
    if policy.maxAge.Some? {
      FreshIsPrefix(s, now - policy.maxAge.value);
    }
  }

  lemma ListedFromKeptOn(s: seq<Backup>, policy: Policy, now: int, i: nat)
    requires DistinctKeys(s) && i < |s|
    ensures s[i].key in Keys(DeleteList(s, policy, now)) <==> i >= Kept(s, policy, now)
  {
    var m, k := Kept(s, policy, now), KeepBound(|s|, policy);
    DeletedPlaces(s, m, k, |s| - m, i);
    assert DeleteList(s, policy, now)[..|s| - m] == DeleteList(s, policy, now);
  }

  /** A backup that a schedule runs for is a completed backup itself, and a firing may delete it like any
      other: exactly if it is past MaxAge or KeepLast others come before it.  Only among backups of its
      own age does its place depend on the sort. */
  lemma OwnBackupGoesIff(s: seq<Backup>, policy: Policy, now: int, i: nat)
    requires NewestFirst(s) && DistinctKeys(s) && policy.keepLast.Some? && i < |s|
    ensures s[i].key in Keys(DeleteList(s, policy, now)) <==>
            || (policy.maxAge.Some? && s[i].created < now - policy.maxAge.value)
            || 0 < policy.keepLast.value <= i
    ensures FreshCount(s, s[i].created + 1) <= i < FreshCount(s, s[i].created)
  {
    EveryDeletionHasAReason(s, policy, now, i);
    ListedFromKeptOn(s, policy, now, i);
    FreshIsPrefix(s, s[i].created);
    FreshIsPrefix(s, s[i].created + 1);
  }

  lemma {:induction false} FreshCountAppends(s: seq<Backup>, t: seq<Backup>, cutoff: int)
    ensures FreshCount(s + t, cutoff) == FreshCount(s, cutoff) + FreshCount(t, cutoff)
  {
    if s == [] {
      assert s + t == t;
    } else {
      assert (s + t)[1..] == s[1..] + t;
      FreshCountAppends(s[1..], t, cutoff);
    }
  }

  lemma FreshCountWithout(t: seq<Backup>, j: nat, cutoff: int)
    requires j < |t|
    ensures FreshCount(t, cutoff) ==
            FreshCount(t[..j] + t[j + 1..], cutoff) + if t[j].created >= cutoff then 1 else 0
  {
    FreshCountAppends(t[..j], t[j + 1..], cutoff);
    FreshCountAppends(t[..j], t[j..], cutoff);
    assert t == t[..j] + t[j..] && t[j..][1..] == t[j + 1..];
  }

  lemma PartWithoutOne(s: seq<Backup>, t: seq<Backup>, j: nat)
    requires s != [] && j < |t| && t[j] == s[0] && multiset(s) <= multiset(t)
    ensures multiset(s[1..]) <= multiset(t[..j] + t[j + 1..])
  {
    assert t == t[..j] + [t[j]] + t[j + 1..];
    assert s == [s[0]] + s[1..];
    assert multiset(s[1..]) == multiset(s) - multiset{s[0]};
    assert multiset(t[..j] + t[j + 1..]) == multiset(t) - multiset{t[j]};
  }

  lemma {:induction false} FreshCountGrows(s: seq<Backup>, t: seq<Backup>, cutoff: int)
    requires multiset(s) <= multiset(t)
    ensures FreshCount(s, cutoff) <= FreshCount(t, cutoff)
  {
    if s == [] {
    } else {
      assert s[0] in multiset(s) && s[0] in multiset(t);
      var j :| 0 <= j < |t| && t[j] == s[0];
      PartWithoutOne(s, t, j);
      FreshCountGrows(s[1..], t[..j] + t[j + 1..], cutoff);
      FreshCountWithout(t, j, cutoff);
    }
  }

  lemma MultisetSizes(a: multiset<Backup>, b: multiset<Backup>)
    requires a <= b
    ensures |a| <= |b|
  {
    assert b == a + (b - a);
  }

  /** Place by place, part of a list is no newer than the whole. */
  lemma PartIsOlder(s: seq<Backup>, t: seq<Backup>)
    requires NewestFirst(s) && NewestFirst(t) && multiset(s) <= multiset(t)
    ensures |s| <= |t| && forall i :: 0 <= i < |s| ==> s[i].created <= t[i].created
  {
    assert |s| == |multiset(s)| <= |multiset(t)| == |t| by { MultisetSizes(multiset(s), multiset(t)); }
    forall i | 0 <= i < |s|
      ensures s[i].created <= t[i].created
    {
      FreshIsPrefix(s, s[i].created);
      FreshIsPrefix(t, s[i].created);
      FreshCountGrows(s, t, s[i].created);
    }
  }

  /** An unstable sort cannot change the ages: every newest-first order has the same creation times
      at the same places, so the same number of backups, of the same ages, is kept.  Which ones of
      equal age are kept it does decide. */
  lemma TiesDoNotMatter(s: seq<Backup>, t: seq<Backup>, policy: Policy, now: int)
    requires NewestFirst(s) && NewestFirst(t) && multiset(s) == multiset(t)
    ensures |s| == |t| && forall i :: 0 <= i < |s| ==> s[i].created == t[i].created
    ensures Kept(s, policy, now) == Kept(t, policy, now)
  {
    PartIsOlder(s, t);
    PartIsOlder(t, s);
    if policy.maxAge.Some? {
      FreshCountGrows(s, t, now - policy.maxAge.value);
      FreshCountGrows(t, s, now - policy.maxAge.value);
    }
  }

  // ---- Runs in a row ----------------------------------------------------------------------

  // A later listing still shows the backups that an earlier run has marked, as long as their cleanup
  // has not worked, and nothing looks at the mark.

  /** A list that still has all the kept backups of `s` and perhaps some of the others. */
  ghost predicate Between(again: seq<Backup>, s: seq<Backup>, m: nat)
    requires m <= |s|
  {
    multiset(s[..m]) <= multiset(again) <= multiset(s)
  }

  lemma BetweenAges(s: seq<Backup>, again: seq<Backup>, m: nat)
    requires NewestFirst(s) && NewestFirst(again) && m <= |s| && Between(again, s, m)
    ensures m <= |again| <= |s|
    ensures forall i :: 0 <= i < m ==> again[i].created == s[i].created
    ensures forall i :: m <= i < |again| ==> again[i].created <= s[i].created
  {
    PartIsOlder(s[..m], again);
    PartIsOlder(again, s);
    assert forall i :: 0 <= i < m ==> s[..m][i] == s[i];
  }

  /** A run followed by a later one keeps as many, and as old ones, as the later one alone would have
      kept, however many of the marked backups it still finds listed. */
  lemma RunsCompose(s: seq<Backup>, again: seq<Backup>, policy: Policy, now: int, later: int)
    requires NewestFirst(s) && NewestFirst(again) && now <= later
    requires Between(again, s, Kept(s, policy, now))
    ensures var kept := Kept(s, policy, later);
            && Kept(again, policy, later) == kept <= |again|
            && |DeleteList(again, policy, later)| == |again| - kept
            && forall i :: 0 <= i < kept ==> again[i].created == s[i].created
  {
    var m, kept, found := Kept(s, policy, now), Kept(s, policy, later), Kept(again, policy, later);
    BetweenAges(s, again, m);
    if m < |s| {
      EveryDeletionHasAReason(s, policy, now, m);
      EveryDeletionHasAReason(s, policy, later, m);
    }
    if found < |again| {
      EveryDeletionHasAReason(again, policy, later, found);
      EveryDeletionHasAReason(s, policy, later, found);
    }
    if kept < |again| {
      EveryDeletionHasAReason(again, policy, later, kept);
      EveryDeletionHasAReason(s, policy, later, kept);
    }
  }

  /** Once the marked backups are gone, an immediate re-run deletes nothing; until then it deletes as
      many as are left of them, though not necessarily the same ones. */
  lemma RerunDeletesAsManyAsAreLeft(s: seq<Backup>, again: seq<Backup>, policy: Policy, now: int)
    requires NewestFirst(s) && NewestFirst(again) && Between(again, s, Kept(s, policy, now))
    ensures |DeleteList(again, policy, now)| == |again| - Kept(s, policy, now)
    ensures multiset(again) == multiset(s[..Kept(s, policy, now)]) ==> DeleteList(again, policy, now) == []
  {
    RunsCompose(s, again, policy, now, now);
    if multiset(again) == multiset(s[..Kept(s, policy, now)]) {
      assert |again| == |multiset(again)| == |multiset(s[..Kept(s, policy, now)])|;
    }
  }

  /** Two backups created in the same second, of which one is to be kept: if the second run still
      lists both, in the other order, it deletes the one that the first run kept. */
  lemma RerunDeletesTheKeptOne(a: Backup, b: Backup, now: int)
    requires a.created == b.created && a.key != b.key
    ensures var keepOne := Policy(Some(1), None);
            && NewestFirst([a, b]) && NewestFirst([b, a]) && multiset([a, b]) == multiset([b, a])
            && DeleteList([a, b], keepOne, now) == [b] && DeleteList([b, a], keepOne, now) == [a]
            && {a.key, b.key} - Keys(DeleteList([a, b], keepOne, now)) - Keys(DeleteList([b, a], keepOne, now)) == {}
  {
    var keepOne := Policy(Some(1), None);
    assert DeleteList([a, b], keepOne, now) == [b] && DeleteList([b, a], keepOne, now) == [a];
  }

  lemma NewerPlacesNeverGo(s: seq<Backup>, part: seq<Backup>, policy: Policy, earlier: int, now: int, i: nat, j: nat)
    requires NewestFirst(s) && NewestFirst(part) && multiset(part) <= multiset(s) && earlier <= now
    requires Kept(part, policy, earlier) <= i < |part| && j < |s| && part[i] == s[j]
    ensures var m := Kept(s, policy, now);
            m < |s| && s[j].created <= s[m].created
  {
    PartIsOlder(part, s);
    EveryDeletionHasAReason(part, policy, earlier, i);
    EveryDeletionHasAReason(s, policy, now, i);
    EveryDeletionHasAReason(s, policy, now, j);
  }

  /** Whatever part of `s` a run finds listed, now or earlier, it deletes nothing that is newer than the
      newest backup that the policy does not keep. */
  lemma NewerOnesNeverGo(s: seq<Backup>, part: seq<Backup>, policy: Policy, earlier: int, now: int, b: Backup)
    requires NewestFirst(s) && NewestFirst(part) && multiset(part) <= multiset(s) && earlier <= now
    requires b in DeleteList(part, policy, earlier)
    ensures var m := Kept(s, policy, now);
            m < |s| && b.created <= s[m].created
  {
    DeletedLieBehindKept(part, policy, earlier);
    var i :| 0 <= i < |part[Kept(part, policy, earlier)..]| && part[Kept(part, policy, earlier)..][i] == b;
    assert b in multiset(part);
    assert b in multiset(s);
    var j :| 0 <= j < |s| && s[j] == b;
    NewerPlacesNeverGo(s, part, policy, earlier, now, Kept(part, policy, earlier) + i, j);
  }

  /** What a series of runs marks, each over a newest-first listing; without KeepLast, nothing. */
  function MarkedBy(policy: Policy, now: int, lists: seq<seq<Backup>>): set<Key> {
    if lists == [] || policy.keepLast.None? then {}
    else MarkedBy(policy, now, lists[..|lists| - 1]) + Keys(DeleteList(lists[|lists| - 1], policy, now))
  }

  /** Each run finds some of the backups of `s` listed, in any newest-first order. */
  ghost predicate ListingsOf(s: seq<Backup>, lists: seq<seq<Backup>>) {
    forall l :: l in lists ==> NewestFirst(l) && multiset(l) <= multiset(s)
  }

  /** The newest backup that is not kept is strictly older than the last kept one. */
  predicate ClearCut(s: seq<Backup>, m: nat)
    requires m <= |s|
  {
    m == 0 || m == |s| || s[m - 1].created > s[m].created
  }

  lemma {:induction false} OnlyOlderAreMarked(s: seq<Backup>, policy: Policy, now: int, lists: seq<seq<Backup>>, i: nat)
    requires NewestFirst(s) && DistinctKeys(s) && ListingsOf(s, lists) && i < |s|
    requires s[i].key in MarkedBy(policy, now, lists)
    ensures var m := Kept(s, policy, now);
            m < |s| && s[i].created <= s[m].created
  {
    if lists == [] {
      assert false;
    } else {
      var n := |lists| - 1;
      var l := lists[n];
      assert l in lists;
      if s[i].key in MarkedBy(policy, now, lists[..n]) {
        OnlyOlderAreMarked(s, policy, now, lists[..n], i);
      } else {
        var b :| b in DeleteList(l, policy, now) && b.key == s[i].key;
        DeletedLieBehindKept(l, policy, now);
        assert b in multiset(l);
        assert b in multiset(s);
        NewerOnesNeverGo(s, l, policy, now, now, b);
      }
    }
  }

  lemma SwappedListing(s: seq<Backup>, m: nat) returns (swapped: seq<Backup>)
    requires NewestFirst(s) && 0 < m < |s| && !ClearCut(s, m)
    ensures NewestFirst(swapped) && multiset(swapped) == multiset(s) && |swapped| == |s| && swapped[m] == s[m - 1]
  {
    swapped := s[m - 1 := s[m]][m := s[m - 1]];
  }

  lemma SwappedRunMarksKept(s: seq<Backup>, swapped: seq<Backup>, policy: Policy, now: int, m: nat)
    requires NewestFirst(s) && policy.keepLast.Some? && m == Kept(s, policy, now) && 0 < m < |s|
    requires NewestFirst(swapped) && multiset(swapped) == multiset(s) && |swapped| == |s| && swapped[m] == s[m - 1]
    ensures ListingsOf(s, [s, swapped])
    ensures s[m - 1].key in MarkedBy(policy, now, [s, swapped]) && s[m - 1].key in Keys(s[..m])
  {
    TiesDoNotMatter(s, swapped, policy, now);
    assert swapped[m..][0] == s[m - 1];
    assert s[m - 1] in DeleteList(swapped, policy, now) by { DeleteListMembers(swapped, policy, now, m); }
    assert s[..m][m - 1] == s[m - 1];
  }

  /** The kept backups survive every series of runs over any listings, at the same time, exactly if
      the cut between kept and deleted ones falls between two creation times.  Otherwise a second run
      over the same backups, in another order, is enough. */
  lemma KeptSurviveRunsIff(s: seq<Backup>, policy: Policy, now: int)
    requires NewestFirst(s) && DistinctKeys(s)
    ensures (forall lists :: ListingsOf(s, lists) ==>
               MarkedBy(policy, now, lists) !! Keys(s[..Kept(s, policy, now)])) <==>
              policy.keepLast.None? || ClearCut(s, Kept(s, policy, now))
  {
    var m := Kept(s, policy, now);
    if policy.keepLast.None? {
    } else if ClearCut(s, m) {
      forall lists | ListingsOf(s, lists)
        ensures MarkedBy(policy, now, lists) !! Keys(s[..m])
      {
        forall i | 0 <= i < m
          ensures s[i].key !in MarkedBy(policy, now, lists)
        {
          if s[i].key in MarkedBy(policy, now, lists) {
            OnlyOlderAreMarked(s, policy, now, lists, i);
          }
        }
      }
    } else {
      var swapped := SwappedListing(s, m);
      SwappedRunMarksKept(s, swapped, policy, now, m);
    }
  }
}
