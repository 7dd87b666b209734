/** Completing a routine: before the performances are sent, the entries that
    are not marked completed or have an empty weight or reps field are
    dropped, and the two fields of the rest are converted with `Number`
    (modelled by `Parse`, None standing for NaN). */
module CompleteRoutine {
  import opened Common
  import opened Numbers

  datatype PerformanceInput = PerformanceInput(exerciseId: int, completed: bool, weight: string, reps: string)

  datatype CleanPerformance = CleanPerformance(exerciseId: int, weight: Option<real>, reps: Option<real>)

  /** `ex.completed && ex.weight && ex.reps`: the empty string is falsy. */
  predicate Kept(p: PerformanceInput) {
    p.completed && p.weight != "" && p.reps != ""
  }

  function Clean(p: PerformanceInput): CleanPerformance {
    CleanPerformance(p.exerciseId, Parse(p.weight), Parse(p.reps))
  }

  /** `cleanPerformances`, one entry at a time. */
  function CleanPerformances(performances: seq<PerformanceInput>): (r: seq<CleanPerformance>)
    ensures |r| <= |performances|
  {
    if performances == [] then []
    else
      (if Kept(performances[0]) then [Clean(performances[0])] else []) + CleanPerformances(performances[1..])
  }

  /** The same list written as the source's filter followed by its map. */
  function FilterThenMap(performances: seq<PerformanceInput>): seq<CleanPerformance> {
    CleanEach(Filter(performances, Kept))
  }

  function CleanEach(kept: seq<PerformanceInput>): seq<CleanPerformance> {
    seq(|kept|, i requires 0 <= i < |kept| => Clean(kept[i]))
  }

  /** The one-pass definition is the filter followed by the map. */
  lemma {:induction false} CleanIsFilterThenMap(performances: seq<PerformanceInput>)
    ensures CleanPerformances(performances) == FilterThenMap(performances)
  {
    if performances != [] {
      CleanIsFilterThenMap(performances[1..]);
      FilterThenMapCons(performances);
    }
  }

  lemma FilterThenMapCons(performances: seq<PerformanceInput>)
    requires performances != []
    ensures FilterThenMap(performances)
      == (if Kept(performances[0]) then [Clean(performances[0])] else []) + FilterThenMap(performances[1..])
  {
    if Kept(performances[0]) {
      CleanEachCons(performances[0], Filter(performances[1..], Kept));
    }
  }

  lemma CleanEachCons(p: PerformanceInput, rest: seq<PerformanceInput>)
    ensures CleanEach([p] + rest) == [Clean(p)] + CleanEach(rest)
  {
    var k := [p] + rest;
    forall i | 0 < i < |k| ensures k[i] == rest[i - 1] { }
  }

  /** Cleaning works entry by entry, so the surviving entries keep their
      relative order. */
  lemma {:induction false} CleanAppend(a: seq<PerformanceInput>, b: seq<PerformanceInput>)
    ensures CleanPerformances(a + b) == CleanPerformances(a) + CleanPerformances(b)
  {
    if a == [] {
      assert a + b == b;
    } else {
      assert (a + b)[0] == a[0];
      assert (a + b)[1..] == a[1..] + b;
      CleanAppend(a[1..], b);
      var head := if Kept(a[0]) then [Clean(a[0])] else [];
      assert CleanPerformances(a + b) == head + CleanPerformances(a[1..] + b);
      assert CleanPerformances(a) == head + CleanPerformances(a[1..]);
    }
  }

  /** Exactly the completed entries with both fields filled in survive, each
      with its own exercise id and the parsed values of its two fields. */
  lemma CleanKeepsExactlyTheFilledIn(performances: seq<PerformanceInput>)
    ensures forall c :: c in CleanPerformances(performances) ==>
      exists j :: 0 <= j < |performances| && Kept(performances[j]) && c == Clean(performances[j])
    ensures forall j :: 0 <= j < |performances| && Kept(performances[j]) ==>
      Clean(performances[j]) in CleanPerformances(performances)
    ensures |CleanPerformances(performances)| == |Filter(performances, Kept)|
  {
    CleanIsFilterThenMap(performances);
    var kept := Filter(performances, Kept);
    var r := CleanEach(kept);
    forall j | 0 <= j < |performances| && Kept(performances[j])
      ensures Clean(performances[j]) in r
    {
      var k :| 0 <= k < |kept| && kept[k] == performances[j];
      assert r[k] == Clean(kept[k]);
    }
    forall c | c in r
      ensures exists j :: 0 <= j < |performances| && Kept(performances[j]) && c == Clean(performances[j])
    {
      var k :| 0 <= k < |r| && r[k] == c;
      assert kept[k] in performances && Kept(kept[k]);
      var j :| 0 <= j < |performances| && performances[j] == kept[k];
    }
  }

  /** An entry not completed, or with an empty field, contributes nothing. */
  lemma DroppedEntry(p: PerformanceInput, rest: seq<PerformanceInput>)
    requires !p.completed || p.weight == "" || p.reps == ""
    ensures CleanPerformances([p] + rest) == CleanPerformances(rest)
  {
    assert ([p] + rest)[1..] == rest;
  }

  /** A completed entry with whole-number fields is sent with those numbers. */
  lemma WholeNumbersAreSent(exerciseId: int, weight: int, reps: int)
    ensures CleanPerformances([PerformanceInput(exerciseId, true, IntToString(weight), IntToString(reps))])
      == [CleanPerformance(exerciseId, Some(weight as real), Some(reps as real))]
  {
    ParseIntToString(weight);
    ParseIntToString(reps);
    NonEmptyIntToString(weight);
    NonEmptyIntToString(reps);
  }

  lemma NonEmptyIntToString(n: int)
    ensures IntToString(n) != ""
  {
  }
}
