/** The workout-history card: a session's status label, and the grouping of
    its recorded sets by exercise. The JavaScript `Map` the grouping builds
    keeps insertion order; it is modelled as the sequence of its keys in that
    order together with a Dafny map from each key to its group. */
module HistorySessionCard {
  import opened Common

  datatype SessionStatus = Completed | Partial | NotDone

  /** `STATUS_LABELS`, a label for each of the three statuses. */
  function StatusLabel(status: SessionStatus): string {
    match status
    case Completed => "Completada"
    case Partial => "Parcial"
    case NotDone => "No realizada"
  }

  /** The three labels are different, so the badge tells the statuses apart. */
  lemma StatusLabelsDistinct(a: SessionStatus, b: SessionStatus)
    ensures StatusLabel(a) == StatusLabel(b) <==> a == b
  {
  }

  /** The exercise a recorded set refers to. */
  datatype ExerciseInfo = ExerciseInfo(id: int, name: string)

  /** One recorded set of a session. */
  datatype WorkoutSetRecord = WorkoutSetRecord(
    exerciseId: int,
    exercise: ExerciseInfo,
    setNumber: int,
    reps: int,
    weight: Option<real>,
    comment: Option<string>)

  datatype WorkoutSession = WorkoutSession(status: SessionStatus, performances: Option<seq<WorkoutSetRecord>>)

  /** The value stored under one exercise id. */
  datatype Group = Group(exercise: ExerciseInfo, sets: seq<WorkoutSetRecord>)

  // ---------------------------------------------------------------------------
  // Reference definitions

  /** The index of the first record with the given exercise id, or `|p|`. */
  function FirstIndex(p: seq<WorkoutSetRecord>, id: int): (k: nat)
    ensures k <= |p|
    ensures k < |p| ==> p[k].exerciseId == id
    ensures forall j :: 0 <= j < k ==> p[j].exerciseId != id
  {
    if p == [] then 0
    else if p[0].exerciseId == id then 0
    else 1 + FirstIndex(p[1..], id)
  }

  /** The distinct exercise ids, in the order of their first occurrence. */
  function Keys(p: seq<WorkoutSetRecord>): seq<int> {
    if p == [] then []
    else
      var k := Keys(p[..|p| - 1]);
      if p[|p| - 1].exerciseId in k then k else k + [p[|p| - 1].exerciseId]
  }

  /** The records with the given exercise id, in input order. */
  function SetsOf(p: seq<WorkoutSetRecord>, id: int): seq<WorkoutSetRecord> {
    Filter(p, (r: WorkoutSetRecord) => r.exerciseId == id)
  }

  /** The total number of sets of the groups with the given keys. */
  function SumSets(p: seq<WorkoutSetRecord>, keys: seq<int>): nat {
    if keys == [] then 0 else |SetsOf(p, keys[0])| + SumSets(p, keys[1..])
  }

  // ---------------------------------------------------------------------------
  // The grouping

  /** What the grouping holds after reading the records `p`: one group per
      distinct exercise id, keyed in first-occurrence order, holding every set
      with that id in input order and the exercise of the first set with it. */
  ghost predicate GroupedAs(p: seq<WorkoutSetRecord>, keys: seq<int>, groups: map<int, Group>) {
    && keys == Keys(p)
    && (forall id :: id in groups <==> id in keys)
    && forall id :: id in groups ==>
      && groups[id].sets == SetsOf(p, id)
      && FirstIndex(p, id) < |p|
      && groups[id].exercise == p[FirstIndex(p, id)].exercise
  }

  /** `groupPerformancesByExercise`. */
  method GroupPerformancesByExercise(performances: seq<WorkoutSetRecord>)
    returns (keys: seq<int>, groups: map<int, Group>)
    ensures GroupedAs(performances, keys, groups)
  {
    keys := [];
    groups := map[];
    for i := 0 to |performances|
      invariant GroupedAs(performances[..i], keys, groups)
    {
      var keys', groups' := AddPerformance(keys, groups, performances[i]);
      assert performances[..i + 1] == performances[..i] + [performances[i]];
      GroupStep(performances[..i], performances[i], keys, groups, keys', groups');
      keys, groups := keys', groups';
    }
    assert performances[..|performances|] == performances;
  }

  /** One iteration of the loop: a group is created for a new id, and the
      performance is pushed onto the sets of its group. */
  method AddPerformance(keys: seq<int>, groups: map<int, Group>, performance: WorkoutSetRecord)
    returns (keys': seq<int>, groups': map<int, Group>)
    ensures performance.exerciseId !in groups ==>
      keys' == keys + [performance.exerciseId]
      && groups' == groups[performance.exerciseId := Group(performance.exercise, [performance])]
    ensures performance.exerciseId in groups ==>
      var group := groups[performance.exerciseId];
      keys' == keys && groups' == groups[performance.exerciseId := group.(sets := group.sets + [performance])]
  {
    var id := performance.exerciseId;
    keys', groups' := keys, groups;
    if id !in groups' {
      groups' := groups'[id := Group(performance.exercise, [])];
      keys' := keys' + [id];
    }
    var group := groups'[id];
    groups' := groups'[id := group.(sets := group.sets + [performance])];
    assert id !in groups ==> group.sets + [performance] == [performance];
  }

  /** One iteration of the loop keeps the grouping invariant. */
  lemma GroupStep(p: seq<WorkoutSetRecord>, r: WorkoutSetRecord,
                  keys: seq<int>, groups: map<int, Group>, keys': seq<int>, groups': map<int, Group>)
    requires GroupedAs(p, keys, groups)
    requires r.exerciseId !in groups ==>
      keys' == keys + [r.exerciseId] && groups' == groups[r.exerciseId := Group(r.exercise, [r])]
    requires r.exerciseId in groups ==>
      keys' == keys && groups' == groups[r.exerciseId := groups[r.exerciseId].(sets := groups[r.exerciseId].sets + [r])]
    ensures GroupedAs(p + [r], keys', groups')
  {
    var q := p + [r];
    assert q[..|q| - 1] == p;
    SetsOfSnoc(p, r);
    KeysAreOccurringIds(p);
    FirstIndexSnoc(p, r);
    if r.exerciseId !in groups {
      NoneWithId(p, r.exerciseId);
    }
    forall id | id in groups'
      ensures groups'[id].exercise == q[FirstIndex(q, id)].exercise
    {
      if id in groups {
        assert q[FirstIndex(q, id)] == p[FirstIndex(p, id)];
      }
    }
  }

  /** Appending a record extends only the group of its own id. */
  lemma SetsOfSnoc(p: seq<WorkoutSetRecord>, r: WorkoutSetRecord)
    ensures forall id :: SetsOf(p + [r], id) == SetsOf(p, id) + (if r.exerciseId == id then [r] else [])
  {
    forall id ensures SetsOf(p + [r], id) == SetsOf(p, id) + (if r.exerciseId == id then [r] else []) {
      FilterAppend(p, [r], (x: WorkoutSetRecord) => x.exerciseId == id);
    }
  }

  /** No record with the id means an empty group. */
  lemma NoneWithId(p: seq<WorkoutSetRecord>, id: int)
    requires forall j :: 0 <= j < |p| ==> p[j].exerciseId != id
    ensures SetsOf(p, id) == []
  {
    if p != [] {
      NoneWithId(p[1..], id);
    }
  }

  /** The card groups the session's sets, or shows no groups when the session
      carries no performances. */
  method ExerciseGroups(session: WorkoutSession) returns (keys: seq<int>, groups: map<int, Group>)
    ensures session.performances.None? ==> keys == [] && groups == map[]
    ensures session.performances.Some? ==> GroupedAs(session.performances.value, keys, groups)
  {
    if session.performances.Some? {
      keys, groups := GroupPerformancesByExercise(session.performances.value);
    } else {
      keys, groups := [], map[];
    }
  }

  // ---------------------------------------------------------------------------
  // Properties of the reference definitions

  /** Adding a record keeps the first occurrence of every id already present,
      and makes the record the first occurrence of its own id if it is new. */
  lemma FirstIndexSnoc(p: seq<WorkoutSetRecord>, r: WorkoutSetRecord)
    ensures forall id :: FirstIndex(p, id) < |p| ==> FirstIndex(p + [r], id) == FirstIndex(p, id)
    ensures forall id :: FirstIndex(p, id) == |p| ==>
      FirstIndex(p + [r], id) == if r.exerciseId == id then |p| else |p| + 1
  {
    forall id ensures FirstIndex(p, id) < |p| ==> FirstIndex(p + [r], id) == FirstIndex(p, id)
      ensures FirstIndex(p, id) == |p| ==> FirstIndex(p + [r], id) == if r.exerciseId == id then |p| else |p| + 1
    {
      FirstIndexSnocOne(p, r, id);
    }
  }

  lemma FirstIndexSnocOne(p: seq<WorkoutSetRecord>, r: WorkoutSetRecord, id: int)
    ensures FirstIndex(p, id) < |p| ==> FirstIndex(p + [r], id) == FirstIndex(p, id)
    ensures FirstIndex(p, id) == |p| ==> FirstIndex(p + [r], id) == if r.exerciseId == id then |p| else |p| + 1
  {
    var q := p + [r];
    var k, k' := FirstIndex(p, id), FirstIndex(q, id);
    if k' < |p| {
      assert q[k'] == p[k'];
    }
    if k < |p| {
      assert q[k] == p[k];
    } else if r.exerciseId == id {
      assert q[|p|] == r;
    }
  }

  /** The keys are exactly the ids that occur. */
  lemma {:induction false} KeysAreOccurringIds(p: seq<WorkoutSetRecord>)
    ensures forall id :: id in Keys(p) <==> FirstIndex(p, id) < |p|
  {
    if p != [] {
      var q, r := p[..|p| - 1], p[|p| - 1];
      assert p == q + [r];
      KeysAreOccurringIds(q);
      FirstIndexSnoc(q, r);
      forall id ensures id in Keys(p) <==> FirstIndex(p, id) < |p| {
        if FirstIndex(q, id) == |q| && r.exerciseId in Keys(q) {
          assert r.exerciseId != id;
        }
      }
    }
  }

  /** The keys are distinct and ordered by first occurrence. */
  lemma {:induction false} KeysAreFirstOccurrences(p: seq<WorkoutSetRecord>)
    ensures InFirstOccurrenceOrder(p, Keys(p))
  {
    if p != [] {
      var q, r := p[..|p| - 1], p[|p| - 1];
      assert p == q + [r];
      KeysAreFirstOccurrences(q);
      KeysKeepFirstIndex(q, r);
      SameFirstIndices(q, q + [r], Keys(q));
      if r.exerciseId !in Keys(q) {
        KeysAreOccurringIds(q);
        FirstIndexSnoc(q, r);
        NewKeyComesLast(q + [r], Keys(q), r.exerciseId);
      }
    }
  }

  /** Distinct ids, listed in the order of their first records. */
  ghost predicate InFirstOccurrenceOrder(p: seq<WorkoutSetRecord>, k: seq<int>) {
    forall a, b :: 0 <= a < b < |k| ==> k[a] != k[b] && FirstIndex(p, k[a]) < FirstIndex(p, k[b])
  }

  /** Appending a record does not move the first record of a known id. */
  lemma KeysKeepFirstIndex(q: seq<WorkoutSetRecord>, r: WorkoutSetRecord)
    ensures forall a :: 0 <= a < |Keys(q)| ==>
      FirstIndex(q + [r], Keys(q)[a]) == FirstIndex(q, Keys(q)[a]) < |q|
  {
    KeysAreOccurringIds(q);
    FirstIndexSnoc(q, r);
    forall a | 0 <= a < |Keys(q)|
      ensures FirstIndex(q + [r], Keys(q)[a]) == FirstIndex(q, Keys(q)[a]) < |q|
    {
      assert Keys(q)[a] in Keys(q);
    }
  }

  lemma SameFirstIndices(q: seq<WorkoutSetRecord>, p: seq<WorkoutSetRecord>, k: seq<int>)
    requires InFirstOccurrenceOrder(q, k)
    requires forall a :: 0 <= a < |k| ==> FirstIndex(p, k[a]) == FirstIndex(q, k[a])
    ensures InFirstOccurrenceOrder(p, k)
  {
  }

  lemma NewKeyComesLast(p: seq<WorkoutSetRecord>, k: seq<int>, id: int)
    requires InFirstOccurrenceOrder(p, k)
    requires forall a :: 0 <= a < |k| ==> FirstIndex(p, k[a]) < FirstIndex(p, id)
    ensures InFirstOccurrenceOrder(p, k + [id])
  {
    var k' := k + [id];
    forall a, b | 0 <= a < b < |k'| ensures k'[a] != k'[b] && FirstIndex(p, k'[a]) < FirstIndex(p, k'[b]) {
      if b < |k| {
        assert k'[a] == k[a] && k'[b] == k[b];
      } else {
        assert k'[a] == k[a] && k'[b] == id;
      }
    }
  }

  /** Every record lands in the group of its own exercise id. */
  lemma RecordInItsGroup(p: seq<WorkoutSetRecord>, i: nat)
    requires i < |p|
    ensures p[i].exerciseId in Keys(p)
    ensures p[i] in SetsOf(p, p[i].exerciseId)
  {
    KeysAreOccurringIds(p);
    assert FirstIndex(p, p[i].exerciseId) <= i;
  }

  /** Adding a record adds one set to exactly one of a list of distinct keys,
      if its id is among them. */
  lemma {:induction false} SumSetsSnoc(p: seq<WorkoutSetRecord>, r: WorkoutSetRecord, keys: seq<int>)
    requires forall a, b :: 0 <= a < b < |keys| ==> keys[a] != keys[b]
    ensures SumSets(p + [r], keys) == SumSets(p, keys) + if r.exerciseId in keys then 1 else 0
  {
    if keys != [] {
      SetsOfSnoc(p, r);
      SumSetsSnoc(p, r, keys[1..]);
      assert r.exerciseId in keys <==> r.exerciseId == keys[0] || r.exerciseId in keys[1..];
    }
  }

  lemma {:induction false} SumSetsAppendKey(p: seq<WorkoutSetRecord>, keys: seq<int>, id: int)
    ensures SumSets(p, keys + [id]) == SumSets(p, keys) + |SetsOf(p, id)|
  {
    if keys != [] {
      assert (keys + [id])[1..] == keys[1..] + [id];
      SumSetsAppendKey(p, keys[1..], id);
    }
  }

  /** The groups hold every set exactly once: their sizes add up to the number
      of recorded sets, so no set is lost or shown twice. */
  lemma {:induction false} TotalSetCount(p: seq<WorkoutSetRecord>)
    ensures SumSets(p, Keys(p)) == |p|
  {
    if p != [] {
      var q, r := p[..|p| - 1], p[|p| - 1];
      assert p == q + [r];
      TotalSetCount(q);
      KeysAreFirstOccurrences(q);
      KeysAreOccurringIds(q);
      SumSetsSnoc(q, r, Keys(q));
      if r.exerciseId !in Keys(q) {
        SumSetsAppendKey(p, Keys(q), r.exerciseId);
        SetsOfSnoc(q, r);
        NoneWithId(q, r.exerciseId);
      }
    }
  }
}
