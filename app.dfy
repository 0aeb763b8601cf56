/**
 * The root component: the route, the plant in focus and the history as
 * fields, updated by the handlers the screens are given, and the storage
 * slot the history is written back to whenever it changes. The text format
 * of the slot is abstract: a `serialize` and a `parse` supplied at start.
 */
module AppShell {
  import opened PlantTypes
  import opened HistoryStore
  import opened Layout
  import opened Navigation

  class App {
    var route: AppRoute
    var selectedPlant: Option<PlantInfo>
    var history: seq<PlantInfo>
    /** The saved-history storage slot, absent until something is written. */
    var slot: Option<string>
    /** Whether the start-up load and the first save have run. */
    ghost var mounted: bool

    const parse: string -> Option<seq<PlantInfo>>
    const serialize: seq<PlantInfo> -> string

    function State(): AppState
      reads this
    {
      AppState(route, selectedPlant, history)
    }

    /** The screen state is consistent and, once mounted, the slot holds the whole history. */
    ghost predicate Valid()
      reads this
    {
      Consistent(State()) && (mounted ==> slot == Some(serialize(history)))
    }

    /** First render: home, nothing selected, empty history; the slot holds what an earlier session saved. */
    constructor (saved: Option<string>, parse: string -> Option<seq<PlantInfo>>,
                 serialize: seq<PlantInfo> -> string)
      ensures Valid() && !mounted
      ensures State() == Init() && slot == saved
      ensures this.parse == parse && this.serialize == serialize
    {
      route := HOME;
      selectedPlant := None;
      history := [];
      slot := saved;
      mounted := false;
      this.parse := parse;
      this.serialize := serialize;
    }

    /**
     * The start-up effects: load the saved history when there is non-empty
     * saved text that parses (a parse failure is only logged), then write the
     * current history back to the slot.
     */
    method Mount()
      requires Valid() && !mounted
      modifies this
      ensures Valid() && mounted
      ensures history == Loaded(old(slot), parse, old(history))
      ensures route == old(route) && selectedPlant == old(selectedPlant)
      ensures slot == Some(serialize(history))
    {
      if slot.Some? && slot.value != "" {
        match parse(slot.value)
        case Some(h) => history := h;
        case None =>
      }
      slot := Some(serialize(history));
      mounted := true;
    }

    /**
     * A recognition finished: stamp the record with the two clock readings,
     * put it in front of the history (cut to capacity), save, focus it and
     * open the detail route.
     */
    method HandlePlantIdentified(info: PlantInfo, idClock: int, tsClock: int)
      requires Valid()
      modifies this
      ensures Valid() && mounted == old(mounted)
      ensures State() == Dispatch(old(State()), Identified(info, idClock, tsClock))
      ensures history[0] == Stamp(info, idClock, tsClock) && selectedPlant == Some(history[0])
      ensures history == Append(old(history), history[0]) && route == DETAIL
      ensures slot == Some(serialize(history))
    {
      var newPlant := Stamp(info, idClock, tsClock);
      history := Append(history, newPlant);
      slot := Some(serialize(history));
      selectedPlant := Some(newPlant);
      route := DETAIL;
    }

    /** A history entry was chosen: focus it and open the detail route; the history and slot stay. */
    method NavigateToDetail(plant: PlantInfo)
      requires Valid()
      modifies this
      ensures Valid() && mounted == old(mounted)
      ensures State() == Dispatch(old(State()), Select(plant))
      ensures route == DETAIL && selectedPlant == Some(plant)
      ensures history == old(history) && slot == old(slot)
    {
      selectedPlant := Some(plant);
      route := DETAIL;
    }

    /** A bar button was tapped: the route becomes that entry's route and nothing else changes. */
    method TapNavItem(i: nat)
      requires Valid() && i < |NavItems|
      modifies this
      ensures Valid() && mounted == old(mounted)
      ensures State() == Dispatch(old(State()), NavTap(NavItems[i].id))
      ensures route == NavItems[i].id && route in NavTargets
      ensures selectedPlant == old(selectedPlant) && history == old(history) && slot == old(slot)
    {
      NavTableShape();
      route := NavItems[i].id;
    }

    /** A close or back button: the route becomes home and nothing else changes. */
    method GoHomeButton()
      requires Valid()
      modifies this
      ensures Valid() && mounted == old(mounted)
      ensures State() == Dispatch(old(State()), GoHome)
      ensures route == HOME
      ensures selectedPlant == old(selectedPlant) && history == old(history) && slot == old(slot)
    {
      route := HOME;
    }
  }
}
