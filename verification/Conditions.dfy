/**
 Status conditions: the setters of pkg/services/status_service.go, of the registry controller
 and of the backup controller.  All of them work on a slice in place; all of them turn out to
 be one operation, `Upsert`, on the slice read as a map from condition type to condition.
 */
module Conditions {
  import opened Clock
  import opened Wrappers

  datatype Status = True | False | Unknown

  datatype Condition<T> = Condition(kind: T, status: Status, since: int, reason: string, message: string)

  function Kinds<T>(cs: seq<Condition<T>>): (kinds: seq<T>)
    ensures |kinds| == |cs|
    ensures forall i :: 0 <= i < |cs| ==> kinds[i] == cs[i].kind
  {
    seq(|cs|, i requires 0 <= i < |cs| => cs[i].kind)
  }

  /** The first condition of a type, as GetMCPServerCondition finds it. */
  function Find<T(==)>(cs: seq<Condition<T>>, kind: T): (found: Option<Condition<T>>)
    ensures found.Some? ==> found.value in cs && found.value.kind == kind
    ensures found.None? <==> kind !in Kinds(cs)
  {
    if cs == [] then None
    else if cs[0].kind == kind then Some(cs[0])
    else Find(cs[1..], kind)
  }

  ghost predicate Distinct<T>(s: seq<T>) {
    forall i, j :: 0 <= i < j < |s| ==> s[i] != s[j]
  }

  /** Replace the first condition of the same type, or add the condition at the end. */
  function Upsert<T(==)>(cs: seq<Condition<T>>, c: Condition<T>): seq<Condition<T>> {
    if cs == [] then [c]
    else if cs[0].kind == c.kind then [c] + cs[1..]
    else [cs[0]] + Upsert(cs[1..], c)
  }

  /** The transition time a condition gets when its type is set to `status` at time `now`. */
  function Transition<T(==)>(cs: seq<Condition<T>>, kind: T, status: Status, now: int): int {
    var old' := Find(cs, kind);
    if old'.Some? && old'.value.status == status then old'.value.since else now
  }

  function WithCondition<T(==)>(cs: seq<Condition<T>>, kind: T, status: Status,
                                reason: string, message: string, now: int): seq<Condition<T>> {
    Upsert(cs, Condition(kind, status, Transition(cs, kind, status, now), reason, message))
  }

  lemma {:induction false} FirstMatch<T>(cs: seq<Condition<T>>, i: nat)
    requires i < |cs|
    requires forall j :: 0 <= j < i ==> cs[j].kind != cs[i].kind
    ensures Find(cs, cs[i].kind) == Some(cs[i])
  {
    if i == 0 {
    } else {
      assert forall j :: 0 <= j < i - 1 ==> cs[1..][j] == cs[j + 1];
      FirstMatch(cs[1..], i - 1);
    }
  }

  lemma {:induction false} UpsertAt<T>(cs: seq<Condition<T>>, i: nat, c: Condition<T>)
    requires i < |cs| && cs[i].kind == c.kind
    requires forall j :: 0 <= j < i ==> cs[j].kind != c.kind
    ensures Upsert(cs, c) == cs[i := c]
  {
    if i == 0 {
    } else {
      assert forall j :: 0 <= j < i - 1 ==> cs[1..][j] == cs[j + 1];
      UpsertAt(cs[1..], i - 1, c);
    }
  }

  lemma {:induction false} UpsertAtEnd<T>(cs: seq<Condition<T>>, c: Condition<T>)
    requires forall j :: 0 <= j < |cs| ==> cs[j].kind != c.kind
    ensures Upsert(cs, c) == cs + [c]
  {
    if cs == [] {
    } else {
      UpsertAtEnd(cs[1..], c);
      assert cs == [cs[0]] + cs[1..];
    }
  }

  /** A resource with a Status.Conditions slice. */
  class Resource<T(==)> {
    var conditions: seq<Condition<T>>

    constructor (conditions: seq<Condition<T>>)
      ensures this.conditions == conditions
    {
      this.conditions := conditions;
    }

    /** SetCondition and SetRegistryCondition of the status service, which have the same body. */
    method SetCondition(kind: T, status: Status, reason: string, message: string, now: int)
      modifies this
      ensures conditions == WithCondition(old(conditions), kind, status, reason, message, now)
    {
      var condition := Condition(kind, status, now, reason, message);
      for i := 0 to |conditions|
        invariant conditions == old(conditions)
        invariant forall j :: 0 <= j < i ==> conditions[j].kind != kind
      {
        var existing := conditions[i];
        if existing.kind == kind {
          FirstMatch(conditions, i);
          if existing.status != condition.status {
            UpsertAt(conditions, i, condition);
            conditions := conditions[i := condition];
          } else {
            UpsertAt(conditions, i, existing.(reason := reason, message := message));
            conditions := conditions[i := existing.(reason := reason, message := message)];
          }
          return;
        }
      }
      UpsertAtEnd(conditions, condition);
      conditions := conditions + [condition];
    }

    /** setCondition of the registry controller, written separately in the source. */
    method SetControllerCondition(kind: T, status: Status, reason: string, message: string, now: int)
      modifies this
      ensures conditions == WithCondition(old(conditions), kind, status, reason, message, now)
    {
      var condition := Condition(kind, status, now, reason, message);
      for i := 0 to |conditions|
        invariant conditions == old(conditions)
        invariant forall j :: 0 <= j < i ==> conditions[j].kind != kind
      {
        var existing := conditions[i];
        if existing.kind == kind {
          if existing.status != status {
            condition := condition.(since := now);
          } else {
            condition := condition.(since := existing.since);
          }
          FirstMatch(conditions, i);
          UpsertAt(conditions, i, condition);
          conditions := conditions[i := condition];
          return;
        }
      }
      UpsertAtEnd(conditions, condition);
      conditions := conditions + [condition];
    }

    /** updateConditions of the backup controller: the transition time always moves. */
    method UpdateConditions(condition: Condition<T>)
      modifies this
      ensures conditions == Upsert(old(conditions), condition)
    {
      for i := 0 to |conditions|
        invariant conditions == old(conditions)
        invariant forall j :: 0 <= j < i ==> conditions[j].kind != condition.kind
      {
        if conditions[i].kind == condition.kind {
          UpsertAt(conditions, i, condition);
          conditions := conditions[i := condition];
          return;
        }
      }
      UpsertAtEnd(conditions, condition);
      conditions := conditions + [condition];
    }

    method GetCondition(kind: T) returns (found: Option<Condition<T>>)
      ensures found == Find(conditions, kind)
    {
      for i := 0 to |conditions|
        invariant forall j :: 0 <= j < i ==> conditions[j].kind != kind
      {
        if conditions[i].kind == kind {
          FirstMatch(conditions, i);
          return Some(conditions[i]);
        }
      }
      found := None;
    }
  }

  /** The slice refines a map: setting one type changes that entry and no other. */
  lemma {:induction false} UpsertRefinesMapUpdate<T>(cs: seq<Condition<T>>, c: Condition<T>, kind: T)
    ensures Find(Upsert(cs, c), kind) == if kind == c.kind then Some(c) else Find(cs, kind)
  {
    if cs == [] {
    } else {
      assert ([c] + cs[1..])[1..] == cs[1..];
      if cs[0].kind != c.kind {
        UpsertRefinesMapUpdate(cs[1..], c, kind);
        assert ([cs[0]] + Upsert(cs[1..], c))[1..] == Upsert(cs[1..], c);
      }
    }
  }

  lemma {:induction false} UpsertKeepsKinds<T>(cs: seq<Condition<T>>, c: Condition<T>)
    ensures Kinds(Upsert(cs, c)) == if c.kind in Kinds(cs) then Kinds(cs) else Kinds(cs) + [c.kind]
  {
    if cs == [] {
    } else {
      UpsertKeepsKinds(cs[1..], c);
      assert Kinds(cs) == [cs[0].kind] + Kinds(cs[1..]);
      if cs[0].kind == c.kind {
        assert Kinds([c] + cs[1..]) == [c.kind] + Kinds(cs[1..]);
      } else {
        assert Kinds([cs[0]] + Upsert(cs[1..], c)) == [cs[0].kind] + Kinds(Upsert(cs[1..], c));
      }
    }
  }

  lemma {:induction false} UpsertKeepsOthers<T>(cs: seq<Condition<T>>, c: Condition<T>, i: nat)
    requires i < |cs| && cs[i].kind != c.kind
    ensures i < |Upsert(cs, c)| && Upsert(cs, c)[i] == cs[i]
  {
    if i == 0 {
    } else if cs[0].kind != c.kind {
      UpsertKeepsOthers(cs[1..], c, i - 1);
    }
  }

  /** Setting a condition keeps every type at its place and never duplicates one. */
  lemma UpsertKeepsOrder<T>(cs: seq<Condition<T>>, c: Condition<T>)
    ensures Kinds(Upsert(cs, c)) == if c.kind in Kinds(cs) then Kinds(cs) else Kinds(cs) + [c.kind]
    ensures Distinct(Kinds(cs)) ==> Distinct(Kinds(Upsert(cs, c)))
    ensures forall i :: 0 <= i < |cs| && cs[i].kind != c.kind ==> i < |Upsert(cs, c)| && Upsert(cs, c)[i] == cs[i]
  {
    UpsertKeepsKinds(cs, c);
    forall i | 0 <= i < |cs| && cs[i].kind != c.kind
      ensures i < |Upsert(cs, c)| && Upsert(cs, c)[i] == cs[i]
    {
      UpsertKeepsOthers(cs, c, i);
    }
  }

  /** The transition time moves exactly when the status changes or the type is new. */
  lemma TransitionMovesOnChange<T>(cs: seq<Condition<T>>, kind: T, status: Status,
                                       reason: string, message: string, now: int, other: T)
    ensures var after, before := WithCondition(cs, kind, status, reason, message, now), Find(cs, kind);
            && Find(after, kind) ==
               Some(Condition(kind, status,
                              if before.Some? && before.value.status == status then before.value.since else now,
                              reason, message))
            && (other != kind ==> Find(after, other) == Find(cs, other))
  {
    var c := Condition(kind, status, Transition(cs, kind, status, now), reason, message);
    UpsertRefinesMapUpdate(cs, c, kind);
    UpsertRefinesMapUpdate(cs, c, other);
  }

  /** The conditions as they are read back after a write. */
  function Cut<T>(cs: seq<Condition<T>>): seq<Condition<T>> {
    seq(|cs|, i requires 0 <= i < |cs| => cs[i].(since := Whole(cs[i].since)))
  }

  /** Storing keeps every condition and cuts its transition time. */
  lemma {:induction false} CutFinds<T>(cs: seq<Condition<T>>, kind: T)
    ensures Find(Cut(cs), kind) ==
            if Find(cs, kind).None? then None
            else Some(Find(cs, kind).value.(since := Whole(Find(cs, kind).value.since)))
  {
    if cs == [] {
    } else {
      CutFinds(cs[1..], kind);
      assert Cut(cs)[1..] == Cut(cs[1..]);
    }
  }
}
