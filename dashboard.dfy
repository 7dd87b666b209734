/** The admin dashboard: the validated `view` URL parameter and the view
    state it drives, and the three key figures computed from backend lists by
    first-maximum searches. A query whose function throws shows "—"; the
    busiest-hour query throws when an item has no hours, which is modelled as
    a None result. */
module Dashboard {
  import opened Common
  import opened Numbers

  // ---------------------------------------------------------------------------
  // Views

  datatype ViewKey = Members | Classes | Hours | Routines

  function ViewName(v: ViewKey): string {
    match v
    case Members => "members"
    case Classes => "classes"
    case Hours => "hours"
    case Routines => "routines"
  }

  const DEFAULT_VIEW: ViewKey := Members
  const VIEW_OPTIONS: seq<ViewKey> := [Members, Classes, Hours, Routines]

  /** `getValidView`: the view a parameter names, or the default view for a
      missing, empty or unknown parameter. */
  function GetValidView(value: Option<string>): (v: ViewKey)
    ensures v in VIEW_OPTIONS
    ensures value.Some? && (exists w :: w in VIEW_OPTIONS && ViewName(w) == value.value) ==> ViewName(v) == value.value
    ensures (value.None? || forall w :: w in VIEW_OPTIONS ==> ViewName(w) != value.value) ==> v == DEFAULT_VIEW
  {
    if value.Some? && value.value != "" then
      if value.value == "members" then Members
      else if value.value == "classes" then Classes
      else if value.value == "hours" then Hours
      else if value.value == "routines" then Routines
      else DEFAULT_VIEW
    else DEFAULT_VIEW
  }

  /** Validating a view's own name gives that view back, so validation is
      idempotent. */
  lemma ValidViewRoundTrip(v: ViewKey, value: Option<string>)
    ensures GetValidView(Some(ViewName(v))) == v
    ensures GetValidView(Some(ViewName(GetValidView(value)))) == GetValidView(value)
  {
  }

  /** The view names are distinct. */
  lemma ViewNamesDistinct(v: ViewKey, w: ViewKey)
    ensures ViewName(v) == ViewName(w) <==> v == w
  {
  }

  /** The view the dashboard shows and the `view` URL parameter. */
  class DashboardState {
    var activeView: ViewKey
    var urlView: Option<string>

    /** The state starts from the validated parameter. */
    constructor (urlView: Option<string>)
      ensures this.urlView == urlView && activeView == GetValidView(urlView)
    {
      this.urlView := urlView;
      activeView := GetValidView(urlView);
    }

    /** The effect run when the URL changes: an invalid parameter is replaced
        by its validated value first; a valid one becomes the active view. */
    method SyncFromUrl()
      modifies this
      ensures var next := GetValidView(old(urlView));
        if old(urlView) != Some(ViewName(next))
        then urlView == Some(ViewName(next)) && activeView == old(activeView)
        else urlView == old(urlView) && activeView == next
    {
      var rawView := urlView;
      var nextView := GetValidView(rawView);
      if rawView != Some(ViewName(nextView)) {
        urlView := Some(ViewName(nextView));
        return;
      }
      if activeView != nextView {
        activeView := nextView;
      }
    }

    /** `handleViewChange`: choosing the current view does nothing, any other
        view becomes active and is written to the URL. */
    method HandleViewChange(nextView: ViewKey)
      modifies this
      ensures old(activeView) == nextView ==> activeView == old(activeView) && urlView == old(urlView)
      ensures old(activeView) != nextView ==> activeView == nextView && urlView == Some(ViewName(nextView))
    {
      if activeView == nextView {
        return;
      }
      activeView := nextView;
      urlView := Some(ViewName(nextView));
    }
  }

  /** Opening the dashboard with any parameter and letting the effect run on
      the URL it rewrites ends with the validated view both shown and in the
      URL. */
  method OpenDashboard(url: Option<string>) returns (view: ViewKey, finalUrl: Option<string>)
    ensures view == GetValidView(url)
    ensures finalUrl == Some(ViewName(view))
  {
    var dashboard := new DashboardState(url);
    dashboard.SyncFromUrl();
    ValidViewRoundTrip(GetValidView(url), url);
    dashboard.SyncFromUrl();
    view, finalUrl := dashboard.activeView, dashboard.urlView;
  }

  // ---------------------------------------------------------------------------
  // First maximum

  /** `k` is the index the source's loops end with: the first index holding
      the largest key. */
  predicate IsFirstMax(keys: seq<int>, k: int) {
    && 0 <= k < |keys|
    && (forall j :: 0 <= j < |keys| ==> keys[j] <= keys[k])
    && (forall j :: 0 <= j < k ==> keys[j] < keys[k])
  }

  /** There is only one first maximum. */
  lemma FirstMaxIsUnique(keys: seq<int>, k1: int, k2: int)
    requires IsFirstMax(keys, k1) && IsFirstMax(keys, k2)
    ensures k1 == k2
  {
    assert keys[k1] == keys[k2];
  }

  /** `let max = items[0]; for (i = 1 ...) if (key(items[i]) > key(max)) max = items[i]`. */
  method FirstMaxIndex(keys: seq<int>) returns (k: nat)
    requires keys != []
    ensures IsFirstMax(keys, k)
  {
    k := 0;
    for i := 1 to |keys|
      invariant IsFirstMax(keys[..i], k)
    {
      if keys[i] > keys[k] {
        k := i;
      }
    }
    assert keys[..|keys|] == keys;
  }

  // ---------------------------------------------------------------------------
  // Key figures

  datatype HourTotal = HourTotal(hour: int, total: int)
  datatype BusiestHourItem = BusiestHourItem(sedeId: int, hours: seq<HourTotal>)
  datatype RoutineUsersCount = RoutineUsersCount(name: string, usersCount: int, sedeId: int)
  datatype ClassEnrollItem = ClassEnrollItem(name: string, enrollCount: int, sedeId: int)

  function ItemsOfSede(items: seq<BusiestHourItem>, sedeId: int): seq<BusiestHourItem> {
    Filter(items, (item: BusiestHourItem) => item.sedeId == sedeId)
  }

  function FirstHourTotals(items: seq<BusiestHourItem>): (totals: seq<int>)
    requires forall i :: 0 <= i < |items| ==> items[i].hours != []
    ensures |totals| == |items|
  {
    seq(|items|, i requires 0 <= i < |items| => items[i].hours[0].total)
  }

  /** The busiest-hour figure: "Sin clases" without classes in the sede, a
      failed query when an item of the sede has no hours, and otherwise the
      first hour of the first item whose first hour has the largest total,
      shown as "h:00". */
  method BusiestHour(items: seq<BusiestHourItem>, sedeId: int) returns (text: Option<string>)
    ensures var own := ItemsOfSede(items, sedeId);
      && (own == [] ==> text == Some("Sin clases"))
      && (own != [] && (exists i :: 0 <= i < |own| && own[i].hours == []) ==> text == None)
      && (own != [] && (forall i :: 0 <= i < |own| ==> own[i].hours != []) ==>
            exists k :: IsFirstMax(FirstHourTotals(own), k)
              && text == Some(IntToString(own[k].hours[0].hour) + ":00"))
  {
    var own := ItemsOfSede(items, sedeId);
    if |own| == 0 {
      return Some("Sin clases");
    }
    if exists i :: 0 <= i < |own| && own[i].hours == [] {
      return None;
    }
    var k := FirstMaxIndex(FirstHourTotals(own));
    text := Some(IntToString(own[k].hours[0].hour) + ":00");
  }

  /** The top-routine figure: "Sin rutinas" without routines in the sede, the
      name of the first routine with the most users, or "Sin asignaciones"
      when that most is not positive. */
  method TopRoutine(items: seq<RoutineUsersCount>, sedeId: int) returns (text: string)
    ensures var own := Filter(items, (r: RoutineUsersCount) => r.sedeId == sedeId);
      var counts := seq(|own|, i requires 0 <= i < |own| => own[i].usersCount);
      && (own == [] ==> text == "Sin rutinas")
      && (own != [] ==> exists k ::
            IsFirstMax(counts, k) && text == if counts[k] > 0 then own[k].name else "Sin asignaciones")
  {
    var own := Filter(items, (r: RoutineUsersCount) => r.sedeId == sedeId);
    if |own| == 0 {
      return "Sin rutinas";
    }
    var k := FirstMaxIndex(seq(|own|, i requires 0 <= i < |own| => own[i].usersCount));
    text := if own[k].usersCount > 0 then own[k].name else "Sin asignaciones";
  }

  /** The top-class figure: "Sin clases" without classes in the sede, the name
      of the first class with the most enrolments, or "Sin inscriptos" when
      that most is not positive. */
  method TopClass(items: seq<ClassEnrollItem>, sedeId: int) returns (text: string)
    ensures var own := Filter(items, (c: ClassEnrollItem) => c.sedeId == sedeId);
      var counts := seq(|own|, i requires 0 <= i < |own| => own[i].enrollCount);
      && (own == [] ==> text == "Sin clases")
      && (own != [] ==> exists k ::
            IsFirstMax(counts, k) && text == if counts[k] > 0 then own[k].name else "Sin inscriptos")
  {
    var own := Filter(items, (c: ClassEnrollItem) => c.sedeId == sedeId);
    if |own| == 0 {
      return "Sin clases";
    }
    var k := FirstMaxIndex(seq(|own|, i requires 0 <= i < |own| => own[i].enrollCount));
    text := if own[k].enrollCount > 0 then own[k].name else "Sin inscriptos";
  }

  /** "Sin asignaciones" (or "Sin inscriptos") is shown exactly when no item
      of the sede has a positive count. */
  lemma NoPositiveCount(counts: seq<int>, k: int)
    requires IsFirstMax(counts, k)
    ensures counts[k] <= 0 <==> forall j :: 0 <= j < |counts| ==> counts[j] <= 0
  {
  }

  /** The figure a card shows: the query's value, or "—" while it has none or
      after it failed. */
  function Shown(text: Option<string>): (s: string)
    ensures text.Some? ==> s == text.value
    ensures text.None? ==> s == "—"
  {
    text.GetOr("—")
  }
}
