/** Routine assignment on the admin's user page. The routines list is held in
    a shared query cache; assigning or unassigning a user first updates the
    cached list optimistically and keeps the previous list as a snapshot,
    which an error restores. The assign modal lists the routines sorted by
    name in place and tracks the routine being assigned. User ids are
    strings; name order is plain code-point order. */
module Routines {
  import opened Common

  datatype RoutineLevel = Beginner | Intermediate | Advanced

  datatype Routine = Routine(
    id: int,
    name: string,
    description: string,
    level: RoutineLevel,
    duration: int,
    icon: string,
    users: seq<string>,
    sedeId: int)

  // ---------------------------------------------------------------------------
  // List transformations

  /** The optimistic assign: the user is appended to the users of the routine
      with the given id, and nothing else changes. The append does not check
      for a user already present. */
  function AssignUser(routines: seq<Routine>, routineId: int, userId: string): (r: seq<Routine>)
    ensures |r| == |routines|
    ensures forall i :: 0 <= i < |r| && routines[i].id != routineId ==> r[i] == routines[i]
    ensures forall i :: 0 <= i < |r| && routines[i].id == routineId ==>
      r[i] == routines[i].(users := routines[i].users + [userId])
  {
    seq(|routines|, i requires 0 <= i < |routines| =>
      if routines[i].id == routineId then routines[i].(users := routines[i].users + [userId]) else routines[i])
  }

  /** Every occurrence of a user id removed from a list of users. */
  function WithoutUser(users: seq<string>, userId: string): (r: seq<string>)
    ensures userId !in r
    ensures forall u :: u in r <==> u in users && u != userId
  {
    Filter(users, (u: string) => u != userId)
  }

  /** The optimistic unassign: every occurrence of the user is removed from
      the users of the routine with the given id, and nothing else changes. */
  function UnassignUser(routines: seq<Routine>, routineId: int, userId: string): (r: seq<Routine>)
    ensures |r| == |routines|
    ensures forall i :: 0 <= i < |r| && routines[i].id != routineId ==> r[i] == routines[i]
    ensures forall i :: 0 <= i < |r| && routines[i].id == routineId ==>
      r[i] == routines[i].(users := WithoutUser(routines[i].users, userId))
  {
    seq(|routines|, i requires 0 <= i < |routines| =>
      if routines[i].id == routineId then routines[i].(users := WithoutUser(routines[i].users, userId)) else routines[i])
  }

  /** `userRoutines`: the routines the user is assigned to, in list order. */
  function UserRoutines(routines: seq<Routine>, userId: string): seq<Routine> {
    Filter(routines, (r: Routine) => userId in r.users)
  }

  /** The modal offers the assign button only for routines the user is not in. */
  predicate ShowsAssignButton(routine: Routine, userId: string) {
    userId !in routine.users
  }

  /** After an optimistic assign, the routine lists the user, so its button
      is gone; after an unassign, the routine does not list the user. */
  lemma AssignAndUnassignMembership(routines: seq<Routine>, routineId: int, userId: string, i: nat)
    requires i < |routines| && routines[i].id == routineId
    ensures userId in AssignUser(routines, routineId, userId)[i].users
    ensures !ShowsAssignButton(AssignUser(routines, routineId, userId)[i], userId)
    ensures userId !in UnassignUser(routines, routineId, userId)[i].users
    ensures ShowsAssignButton(UnassignUser(routines, routineId, userId)[i], userId)
  {
  }

  /** Appending a user and then removing every occurrence of it is the same as
      only removing it; when the user was not assigned, the two cancel out. */
  lemma {:induction false} UnassignUndoesAssign(routines: seq<Routine>, routineId: int, userId: string)
    ensures UnassignUser(AssignUser(routines, routineId, userId), routineId, userId)
      == UnassignUser(routines, routineId, userId)
    ensures (forall i :: 0 <= i < |routines| && routines[i].id == routineId ==> userId !in routines[i].users) ==>
      UnassignUser(AssignUser(routines, routineId, userId), routineId, userId) == routines
  {
    var keep := (u: string) => u != userId;
    forall i | 0 <= i < |routines| && routines[i].id == routineId
      ensures WithoutUser(routines[i].users + [userId], userId) == WithoutUser(routines[i].users, userId)
    {
      FilterAppend(routines[i].users, [userId], keep);
    }
    forall i | 0 <= i < |routines| && routines[i].id == routineId && userId !in routines[i].users
      ensures WithoutUser(routines[i].users, userId) == routines[i].users
    {
      FilterAll(routines[i].users, keep);
    }
  }

  /** The user's routines after an unassign are their routines before it,
      without the unassigned routine; the list length never changes. */
  lemma {:induction false} UnassignDropsFromUserRoutines(routines: seq<Routine>, routineId: int, userId: string)
    ensures forall r :: r in UserRoutines(UnassignUser(routines, routineId, userId), userId) ==>
      r.id != routineId && r in UserRoutines(routines, userId)
  {
    var after := UnassignUser(routines, routineId, userId);
    forall r | r in UserRoutines(after, userId)
      ensures r.id != routineId && r in UserRoutines(routines, userId)
    {
      var i :| 0 <= i < |after| && after[i] == r;
      assert routines[i] in routines;
    }
  }

  /** The card shows its "no routines" message exactly when the user has no
      routine, and the list of them otherwise. */
  datatype CardBody = NoRoutinesMessage | RoutineList(routines: seq<Routine>)

  function CardBodyFor(routines: seq<Routine>, userId: string): (body: CardBody)
    ensures body.NoRoutinesMessage? <==> forall i :: 0 <= i < |routines| ==> userId !in routines[i].users
    ensures body.RoutineList? ==> body.routines == UserRoutines(routines, userId)
  {
    var own := UserRoutines(routines, userId);
    if |own| == 0 then NoRoutinesMessage
    else
      assert own[0] in routines;
      RoutineList(own)
  }

  // ---------------------------------------------------------------------------
  // The shared cache and its optimistic updates

  /** The cached routines list; None until the query has data. */
  class RoutinesCache {
    var data: Option<seq<Routine>>

    constructor (data: Option<seq<Routine>>)
      ensures this.data == data
    {
      this.data := data;
    }

    /** `onMutate` of the assign mutation: the snapshot is the list before the
        update, and a missing list is updated as the empty one. */
    method OnMutateAssign(routineId: int, userId: string) returns (prevRoutines: Option<seq<Routine>>)
      modifies this
      ensures prevRoutines == old(data)
      ensures data == Some(AssignUser(old(data).GetOr([]), routineId, userId))
    {
      prevRoutines := data;
      data := Some(AssignUser(data.GetOr([]), routineId, userId));
    }

    /** `onMutate` of the unassign mutation. */
    method OnMutateUnassign(routineId: int, userId: string) returns (prevRoutines: Option<seq<Routine>>)
      modifies this
      ensures prevRoutines == old(data)
      ensures data == Some(UnassignUser(old(data).GetOr([]), routineId, userId))
    {
      prevRoutines := data;
      data := Some(UnassignUser(data.GetOr([]), routineId, userId));
    }

    /** `onError`: the snapshot is written back when there is one. */
    method OnError(prevRoutines: Option<seq<Routine>>)
      modifies this
      ensures prevRoutines.Some? ==> data == prevRoutines
      ensures prevRoutines.None? ==> data == old(data)
    {
      if prevRoutines.Some? {
        data := prevRoutines;
      }
    }
  }

  /** A failed assign on a cache holding a list leaves the list as it was; on
      an empty cache the optimistic update leaves an empty list behind. */
  method FailedAssign(initial: Option<seq<Routine>>, routineId: int, userId: string)
    returns (optimistic: Option<seq<Routine>>, final: Option<seq<Routine>>)
    ensures optimistic.Some? && |optimistic.value| == |initial.GetOr([])|
    ensures initial.Some? ==> final == initial
    ensures initial.None? ==> final == Some([])
  {
    var cache := new RoutinesCache(initial);
    var snapshot := cache.OnMutateAssign(routineId, userId);
    optimistic := cache.data;
    cache.OnError(snapshot);
    final := cache.data;
  }

  /** In the single-cache model: while an unassign is pending, the user's
      routines computed from the cache no longer include the routine, and a
      failed unassign on a cache holding a list leaves the list as it was. */
  method FailedUnassign(initial: seq<Routine>, routineId: int, userId: string)
    returns (optimistic: seq<Routine>, final: Option<seq<Routine>>)
    ensures |optimistic| == |initial|
    ensures forall r :: r in UserRoutines(optimistic, userId) ==> r.id != routineId
    ensures final == Some(initial)
  {
    var cache := new RoutinesCache(Some(initial));
    var snapshot := cache.OnMutateUnassign(routineId, userId);
    optimistic := cache.data.value;
    UnassignDropsFromUserRoutines(initial, routineId, userId);
    cache.OnError(snapshot);
    final := cache.data;
  }

  // ---------------------------------------------------------------------------
  // The assign modal

  /** The routine whose assignment is in flight. */
  class RoutinesModal {
    var assigningRoutineId: Option<int>

    constructor ()
      ensures assigningRoutineId == None
    {
      assigningRoutineId := None;
    }

    /** `handleAssignRoutine`: the routine's id is recorded as in flight. */
    method HandleAssignRoutine(routine: Routine)
      modifies this
      ensures assigningRoutineId == Some(routine.id)
    {
      assigningRoutineId := Some(routine.id);
    }

    /** `onSettled`: nothing is in flight any more. */
    method OnSettled()
      modifies this
      ensures assigningRoutineId == None
    {
      assigningRoutineId := None;
    }

    /** The "Asignando..." state of a routine's button. */
    predicate IsCurrentRoutineAssigning(isAssigning: bool, routine: Routine)
      reads this
    {
      isAssigning && assigningRoutineId == Some(routine.id)
    }
  }

  /** While one routine's assignment is pending, only that routine's button
      reads "Asignando..."; once settled, none does. */
  method AssignLifecycle(routine: Routine, other: Routine) returns (busyDuring: bool, otherBusy: bool, busyAfter: bool)
    requires other.id != routine.id
    ensures busyDuring && !otherBusy && !busyAfter
  {
    var modal := new RoutinesModal();
    modal.HandleAssignRoutine(routine);
    busyDuring := modal.IsCurrentRoutineAssigning(true, routine);
    otherBusy := modal.IsCurrentRoutineAssigning(true, other);
    modal.OnSettled();
    busyAfter := modal.IsCurrentRoutineAssigning(true, routine);
  }

  // ---------------------------------------------------------------------------
  // Sorting by name

  /** Code-point lexicographic order on strings. */
  predicate NameLe(a: string, b: string) {
    if a == [] then true
    else if b == [] then false
    else if a[0] < b[0] then true
    else if a[0] == b[0] then NameLe(a[1..], b[1..])
    else false
  }

  lemma {:induction false} NameLeTotal(a: string, b: string)
    ensures NameLe(a, b) || NameLe(b, a)
  {
    if a != [] && b != [] && a[0] == b[0] {
      NameLeTotal(a[1..], b[1..]);
    }
  }

  lemma {:induction false} NameLeTransitive(a: string, b: string, c: string)
    requires NameLe(a, b) && NameLe(b, c)
    ensures NameLe(a, c)
  {
    if a != [] && b != [] && c != [] && a[0] == b[0] && b[0] == c[0] {
      NameLeTransitive(a[1..], b[1..], c[1..]);
    }
  }

  lemma {:induction false} NameLeAntisymmetric(a: string, b: string)
    requires NameLe(a, b) && NameLe(b, a)
    ensures a == b
  {
    if a != [] && b != [] {
      NameLeAntisymmetric(a[1..], b[1..]);
      assert a == [a[0]] + a[1..] && b == [b[0]] + b[1..];
    }
  }

  predicate SortedByName(s: seq<Routine>) {
    forall p, q :: 0 <= p < q < |s| ==> NameLe(s[p].name, s[q].name)
  }

  /** While the element at `j` moves left through the prefix `s[..i + 1]`:
      every pair not involving `j` is in order, and the element at `j` is
      not after anything to its right. */
  predicate Inserting(s: seq<Routine>, i: nat, j: nat) {
    && j <= i < |s|
    && (forall p, q :: 0 <= p < q <= i && p != j && q != j ==> NameLe(s[p].name, s[q].name))
    && (forall q :: j < q <= i ==> NameLe(s[j].name, s[q].name))
  }

  /** `routines.sort((a, b) => a.name.localeCompare(b.name))`, in place. */
  method SortByName(a: array<Routine>)
    modifies a
    ensures SortedByName(a[..])
    ensures multiset(a[..]) == multiset(old(a[..]))
  {
    for i := 0 to a.Length
      invariant SortedByName(a[..i])
      invariant multiset(a[..]) == multiset(old(a[..]))
    {
      InsertIntoPrefix(a, i);
    }
    assert a[..a.Length] == a[..];
  }

  /** One insertion step: the element at `i` moves left past every larger
      name, so the prefix up to `i` becomes sorted. */
  method InsertIntoPrefix(a: array<Routine>, i: nat)
    requires i < a.Length && SortedByName(a[..i])
    modifies a
    ensures SortedByName(a[..i + 1])
    ensures multiset(a[..]) == multiset(old(a[..]))
  {
    var j: nat := i;
    StartInserting(a[..], i);
    while j > 0 && !NameLe(a[j - 1].name, a[j].name)
      invariant Inserting(a[..], i, j)
      invariant multiset(a[..]) == multiset(old(a[..]))
    {
      ghost var before := a[..];
      SwapStep(before, i, j);
      SwapKeepsMultiset(before, j);
      a[j - 1], a[j] := a[j], a[j - 1];
      assert a[..] == before[j - 1 := before[j]][j := before[j - 1]];
      j := j - 1;
    }
    InsertionDone(a[..], i, j);
    assert a[..][..i + 1] == a[..i + 1];
  }

  /** Swapping the moving element with a larger left neighbour keeps the
      insertion invariant one place to the left. */
  lemma SwapStep(s: seq<Routine>, i: nat, j: nat)
    requires Inserting(s, i, j) && j > 0 && !NameLe(s[j - 1].name, s[j].name)
    ensures Inserting(s[j - 1 := s[j]][j := s[j - 1]], i, j - 1)
  {
    NameLeTotal(s[j - 1].name, s[j].name);
  }

  /** A sorted prefix is the start of an insertion of the next element. */
  lemma StartInserting(s: seq<Routine>, i: nat)
    requires i < |s| && SortedByName(s[..i])
    ensures Inserting(s, i, i)
  {
    forall p, q | 0 <= p < q < i ensures NameLe(s[p].name, s[q].name) {
      assert s[..i][p] == s[p] && s[..i][q] == s[q];
    }
  }

  lemma SwapKeepsMultiset(s: seq<Routine>, j: nat)
    requires 0 < j < |s|
    ensures multiset(s[j - 1 := s[j]][j := s[j - 1]]) == multiset(s)
  {
  }

  /** The element settled at `j` closes the sorted prefix. */
  lemma InsertionDone(s: seq<Routine>, i: nat, j: nat)
    requires Inserting(s, i, j)
    requires j > 0 ==> NameLe(s[j - 1].name, s[j].name)
    ensures SortedByName(s[..i + 1])
  {
    forall p | 0 <= p < j
      ensures NameLe(s[p].name, s[j].name)
    {
      if p < j - 1 {
        NameLeTransitive(s[p].name, s[j - 1].name, s[j].name);
      }
    }
  }

  /** Sorting the modal's list by name keeps the same routines, so the same
      routines are offered. */
  method SortedModalList(routines: seq<Routine>) returns (sorted: seq<Routine>)
    ensures SortedByName(sorted)
    ensures multiset(sorted) == multiset(routines)
  {
    var a := new Routine[|routines|](i requires 0 <= i < |routines| => routines[i]);
    assert a[..] == routines;
    SortByName(a);
    sorted := a[..];
  }
}
