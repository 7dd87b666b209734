/** The sede (gym branch) switcher. When the list of sedes is known, an effect
    picks the selected sede: a regular user is locked to the sede recorded in
    their account metadata; an admin keeps a selection that still exists, and
    otherwise gets their own sede or the first one. Picking a sede from the
    menu selects exactly that sede. The metadata value arrives already passed
    through `Number`, as an `Option<real>` where None stands for NaN. */
module SedesSwitcher {
  import opened Common

  datatype Sede = Sede(id: int, name: string, address: string, latitude: real, longitude: real)

  /** `sedes.find(sede => sede.id === userSedeId)`, or nothing for NaN. */
  function FindSede(sedes: seq<Sede>, userSedeId: Option<real>): (r: Option<Sede>)
    ensures r.Some? <==> userSedeId.Some? && exists i :: 0 <= i < |sedes| && sedes[i].id as real == userSedeId.value
    ensures r.Some? ==> exists i ::
      && 0 <= i < |sedes| && r.value == sedes[i] && sedes[i].id as real == userSedeId.value
      && forall j :: 0 <= j < i ==> sedes[j].id as real != userSedeId.value
  {
    match userSedeId
    case None => None
    case Some(v) =>
      if sedes == [] then None
      else if sedes[0].id as real == v then Some(sedes[0])
      else
        var r := FindSede(sedes[1..], userSedeId);
        assert forall i :: 0 < i < |sedes| ==> sedes[i] == sedes[1..][i - 1];
        r
  }

  /** `sedes.some(sede => sede.id === selectedSede?.id)`; no selection never
      matches. */
  predicate SelectionExists(sedes: seq<Sede>, selected: Option<Sede>) {
    selected.Some? && exists i :: 0 <= i < |sedes| && sedes[i].id == selected.value.id
  }

  /** The selection the effect leaves behind. */
  function AutoSelection(isAdmin: bool, sedes: Option<seq<Sede>>, userSedeId: Option<real>, selected: Option<Sede>): Option<Sede> {
    if sedes.None? || sedes.value == [] then selected
    else
      var userSede := FindSede(sedes.value, userSedeId);
      if !isAdmin then
        (if userSede.Some? && (selected.None? || selected.value.id != userSede.value.id) then userSede else selected)
      else if SelectionExists(sedes.value, selected) then selected
      else if userSede.Some? then userSede
      else Some(sedes.value[0])
  }

  /** The rule, case by case: nothing changes without sedes; a regular user is
      moved to their sede when it is found, and is otherwise left alone; an
      admin keeps an existing selection, and a stale one is replaced by their
      sede if found and else by the first sede. */
  lemma AutoSelectionRules(isAdmin: bool, sedes: Option<seq<Sede>>, userSedeId: Option<real>, selected: Option<Sede>)
    ensures var r := AutoSelection(isAdmin, sedes, userSedeId, selected);
      sedes.None? || sedes.value == [] ==> r == selected
    ensures sedes.Some? && sedes.value != [] && !isAdmin ==>
      var r := AutoSelection(isAdmin, sedes, userSedeId, selected);
      var u := FindSede(sedes.value, userSedeId);
      && (u.None? ==> r == selected)
      && (u.Some? ==> r.Some? && r.value.id == u.value.id)
    ensures sedes.Some? && sedes.value != [] && isAdmin ==>
      var r := AutoSelection(isAdmin, sedes, userSedeId, selected);
      var u := FindSede(sedes.value, userSedeId);
      && (SelectionExists(sedes.value, selected) ==> r == selected)
      && (!SelectionExists(sedes.value, selected) ==> r == if u.Some? then u else Some(sedes.value[0]))
  {
  }

  /** After the rule runs for an admin with a non-empty list, the selected
      sede's id belongs to the list. */
  lemma AdminSelectionIsListed(sedes: seq<Sede>, userSedeId: Option<real>, selected: Option<Sede>)
    requires sedes != []
    ensures SelectionExists(sedes, AutoSelection(true, Some(sedes), userSedeId, selected))
  {
    var u := FindSede(sedes, userSedeId);
    if !SelectionExists(sedes, selected) && u.Some? {
      var i :| 0 <= i < |sedes| && u.value == sedes[i] && sedes[i].id as real == userSedeId.value;
      assert sedes[i].id == u.value.id;
    }
  }

  /** A regular user whose sede is listed always ends up on a sede with that
      id, whatever was selected before. */
  lemma UserIsLockedToOwnSede(sedes: seq<Sede>, userSedeId: real, selected: Option<Sede>, i: nat)
    requires i < |sedes| && sedes[i].id as real == userSedeId
    ensures var r := AutoSelection(false, Some(sedes), Some(userSedeId), selected);
      r.Some? && r.value.id as real == userSedeId
  {
  }

  /** The effect re-runs when the selection it wrote changes; running it again
      changes nothing more, so the selection settles after one write. */
  lemma AutoSelectionIsStable(isAdmin: bool, sedes: Option<seq<Sede>>, userSedeId: Option<real>, selected: Option<Sede>)
    ensures var once := AutoSelection(isAdmin, sedes, userSedeId, selected);
      AutoSelection(isAdmin, sedes, userSedeId, once) == once
  {
    if sedes.Some? && sedes.value != [] && isAdmin {
      AdminSelectionIsListed(sedes.value, userSedeId, selected);
    }
  }

  /** The switcher's selected sede, shared through the application store. */
  class SedesSwitcher {
    var selectedSede: Option<Sede>

    constructor (initial: Option<Sede>)
      ensures selectedSede == initial
    {
      selectedSede := initial;
    }

    /** The effect run when the sedes, the user's metadata or the selection
        changes. */
    method AutoSelect(isAdmin: bool, sedes: Option<seq<Sede>>, userSedeId: Option<real>)
      modifies this
      ensures selectedSede == AutoSelection(isAdmin, sedes, userSedeId, old(selectedSede))
    {
      if sedes.None? || |sedes.value| == 0 {
        return;
      }
      var userSede := FindSede(sedes.value, userSedeId);
      if !isAdmin {
        if userSede.Some? && (selectedSede.None? || selectedSede.value.id != userSede.value.id) {
          selectedSede := userSede;
        }
        return;
      }
      var persistedSedeExists := SelectionExists(sedes.value, selectedSede);
      if persistedSedeExists {
        return;
      }
      if userSede.Some? {
        selectedSede := userSede;
        return;
      }
      selectedSede := Some(sedes.value[0]);
    }

    /** `handleSedeSelect`: a sede picked from the menu becomes the selection. */
    method HandleSedeSelect(sede: Sede)
      modifies this
      ensures selectedSede == Some(sede)
    {
      selectedSede := Some(sede);
    }
  }

  /** An admin's list arrives with some sede selected: the effect ends on a
      listed sede and the run it triggers leaves it in place. */
  method AdminLoadsSedes(sedes: seq<Sede>, userSedeId: Option<real>, previous: Sede)
    returns (first: Option<Sede>, second: Option<Sede>)
    requires sedes != []
    ensures SelectionExists(sedes, first)
    ensures second == first
  {
    var switcher := new SedesSwitcher(Some(previous));
    switcher.AutoSelect(true, Some(sedes), userSedeId);
    first := switcher.selectedSede;
    switcher.AutoSelect(true, Some(sedes), userSedeId);
    second := switcher.selectedSede;
    AdminSelectionIsListed(sedes, userSedeId, Some(previous));
    AutoSelectionIsStable(true, Some(sedes), userSedeId, Some(previous));
  }
}
