/** The workout-session form schema. A set's weight may be left empty or be a
    number of at least 0; its reps may be left empty or be a whole number of
    at least 1. An exercise needs at least one set and may carry a comment; a
    session may have no exercises and may carry notes. Each failed rule
    yields the form's own message. `Number` is modelled by `Parse`. */
module WorkoutForm {
  import opened Common
  import opened Numbers

  datatype SetEntry = SetEntry(weight: string, reps: string)
  datatype ExerciseEntry = ExerciseEntry(exerciseId: int, sets: seq<SetEntry>, comment: Option<string>)
  datatype WorkoutSessionForm = WorkoutSessionForm(notes: Option<string>, exercises: seq<ExerciseEntry>)

  const WEIGHT_MESSAGE: string := "El peso debe ser 0 o mayor"
  const REPS_MESSAGE: string := "Las reps deben ser un entero >= 1"
  const SETS_MESSAGE: string := "Debe haber al menos una serie"

  predicate IsInteger(x: real) {
    x.Floor as real == x
  }

  /** The weight rule. */
  predicate ValidWeight(v: string) {
    v == "" || (Parse(v).Some? && Parse(v).value >= 0.0)
  }

  /** The reps rule. */
  predicate ValidReps(v: string) {
    v == "" || (Parse(v).Some? && Parse(v).value >= 1.0 && IsInteger(Parse(v).value))
  }

  /** The messages of a set entry, in field order. */
  function SetEntryIssues(s: SetEntry): (issues: seq<string>)
    ensures WEIGHT_MESSAGE in issues <==> !ValidWeight(s.weight)
    ensures REPS_MESSAGE in issues <==> !ValidReps(s.reps)
    ensures |issues| <= 2
  {
    (if ValidWeight(s.weight) then [] else [WEIGHT_MESSAGE])
      + (if ValidReps(s.reps) then [] else [REPS_MESSAGE])
  }

  /** The messages of an exercise entry: the sets rule first, then those of
      each set in order. */
  function ExerciseEntryIssues(e: ExerciseEntry): (issues: seq<string>)
    ensures SETS_MESSAGE in issues <==> e.sets == []
  {
    (if |e.sets| >= 1 then [] else [SETS_MESSAGE]) + SetsIssues(e.sets)
  }

  function SetsIssues(sets: seq<SetEntry>): (issues: seq<string>)
    ensures SETS_MESSAGE !in issues
    ensures issues == [] <==> forall i :: 0 <= i < |sets| ==> ValidWeight(sets[i].weight) && ValidReps(sets[i].reps)
  {
    if sets == [] then [] else SetEntryIssues(sets[0]) + SetsIssues(sets[1..])
  }

  function SessionIssues(f: WorkoutSessionForm): seq<string> {
    ExercisesIssues(f.exercises)
  }

  function ExercisesIssues(exercises: seq<ExerciseEntry>): (issues: seq<string>)
    ensures issues == [] <==> forall i :: 0 <= i < |exercises| ==> ExerciseEntryIssues(exercises[i]) == []
  {
    if exercises == [] then [] else ExerciseEntryIssues(exercises[0]) + ExercisesIssues(exercises[1..])
  }

  /** The form is accepted exactly when every exercise has at least one set
      and every set passes both field rules; notes and comments play no part,
      and an empty session is accepted. */
  lemma AcceptanceRules(f: WorkoutSessionForm)
    ensures SessionIssues(f) == [] <==>
      forall i :: 0 <= i < |f.exercises| ==>
        && f.exercises[i].sets != []
        && forall k :: 0 <= k < |f.exercises[i].sets| ==>
             ValidWeight(f.exercises[i].sets[k].weight) && ValidReps(f.exercises[i].sets[k].reps)
    ensures SessionIssues(f) == SessionIssues(f.(notes := None))
    ensures SessionIssues(WorkoutSessionForm(f.notes, [])) == []
  {
  }

  /** An exercise with no sets is refused with the sets message, whatever its
      comment. */
  lemma ExerciseNeedsASet(exerciseId: int, comment: Option<string>)
    ensures ExerciseEntryIssues(ExerciseEntry(exerciseId, [], comment)) == [SETS_MESSAGE]
  {
  }

  /** Empty fields are always accepted. */
  lemma EmptyFieldsAccepted()
    ensures SetEntryIssues(SetEntry("", "")) == []
  {
  }

  /** A whole number written out is a valid weight exactly when it is at least
      0, and valid reps exactly when it is at least 1. */
  lemma WholeNumberFields(n: int)
    ensures ValidWeight(IntToString(n)) <==> n >= 0
    ensures ValidReps(IntToString(n)) <==> n >= 1
  {
    ParseIntToString(n);
    assert (n as real).Floor == n;
  }

  /** A decimal with one nonzero digit after the point is a valid weight but
      never valid reps. */
  lemma DecimalFields(w: nat, f: nat)
    requires 1 <= f < 10
    ensures ValidWeight(NatToString(w) + "." + [DigitChar(f)])
    ensures !ValidReps(NatToString(w) + "." + [DigitChar(f)])
  {
    ParseDecimal(NatToString(w), [DigitChar(f)]);
    NatToStringValue(w);
    assert DigitsValue([DigitChar(f)]) == f by {
      assert [DigitChar(f)][..0] == [];
    }
    OneDecimalIsFractional(w, f);
  }

  lemma OneDecimalIsFractional(w: nat, f: nat)
    requires 1 <= f < 10
    ensures DecimalValue(w, f, 1).Floor == w
    ensures !IsInteger(DecimalValue(w, f, 1))
  {
    assert Pow10(1) == 10;
    var v := w as real + f as real / 10.0;
    assert DecimalValue(w, f, 1) == v;
    assert w as real < v < w as real + 1.0;
  }

  /** In the model, where only plain decimals parse, text that does not start
      with a digit or a minus sign is neither a valid weight nor valid reps. */
  lemma NonNumericRefused(s: string)
    requires s != [] && !IsDigit(s[0]) && s[0] != '-'
    ensures !ValidWeight(s) && !ValidReps(s)
  {
    var k := IndexFrom(s, '.', 0);
    if k > 0 {
      assert !IsDigit(s[..k][0]);
    }
    assert ParseUnsigned(s) == None;
  }
}
