/** The member's classes page: the fetched classes of the selected sede are
    split into those with free places, shown in the main table, and the full
    ones, shown in a separate section when there are any. Dates are integers. */
module ClassesPage {
  import opened Common

  datatype GymClass = GymClass(
    id: int,
    name: string,
    description: string,
    date: int,
    time: string,
    capacity: int,
    enrolled: int,
    sedeId: int,
    createdById: string,
    users: seq<string>,
    isBoostedForPoints: bool)

  predicate HasRoom(c: GymClass) {
    c.enrolled < c.capacity
  }

  predicate IsFull(c: GymClass) {
    c.enrolled >= c.capacity
  }

  /** `available`: the classes with fewer enrolled members than places. */
  function Available(classes: seq<GymClass>): seq<GymClass> {
    Filter(classes, HasRoom)
  }

  /** `full`: the classes without a free place. */
  function Full(classes: seq<GymClass>): seq<GymClass> {
    Filter(classes, IsFull)
  }

  /** The two lists partition the classes: each holds exactly the classes on
      its side of the capacity test, in the fetched order, and every class is
      in exactly one of them. */
  lemma {:induction false} AvailableFullPartition(classes: seq<GymClass>, more: seq<GymClass>)
    ensures forall c :: c in Available(classes) <==> c in classes && c.enrolled < c.capacity
    ensures forall c :: c in Full(classes) <==> c in classes && c.enrolled >= c.capacity
    ensures |Available(classes)| + |Full(classes)| == |classes|
    ensures multiset(Available(classes)) + multiset(Full(classes)) == multiset(classes)
    ensures Available(classes + more) == Available(classes) + Available(more)
    ensures Full(classes + more) == Full(classes) + Full(more)
  {
    FilterSplit(classes, HasRoom, IsFull);
    FilterAppend(classes, more, HasRoom);
    FilterAppend(classes, more, IsFull);
  }

  /** What the page renders once loading is over. */
  datatype PageView = PageView(tableClasses: seq<GymClass>, fullSection: Option<seq<GymClass>>)

  /** Missing data shows an empty table and no full section; otherwise the
      table shows the available classes and the full section appears exactly
      when some class is full. */
  function ClassesPageView(classes: Option<seq<GymClass>>): (v: PageView)
    ensures classes.None? ==> v == PageView([], None)
    ensures classes.Some? ==> v.tableClasses == Available(classes.value)
    ensures classes.Some? ==>
      (v.fullSection.Some? <==> exists i :: 0 <= i < |classes.value| && IsFull(classes.value[i]))
    ensures v.fullSection.Some? ==> v.fullSection.value == Full(classes.value) && v.fullSection.value != []
  {
    match classes
    case None => PageView([], None)
    case Some(cs) =>
      var full := Full(cs);
      if |full| > 0 then
        assert full[0] in cs;
        PageView(Available(cs), Some(full))
      else PageView(Available(cs), None)
  }
}
