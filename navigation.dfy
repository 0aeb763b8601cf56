/**
 * The application's screen state: the current route, the plant in focus
 * and the history. `Render` is the route switch choosing what is on screen,
 * `Offered` the actions that screen gives the user, and `Dispatch` what each
 * action or a finished identification does to the state.
 */
module Navigation {
  import opened PlantTypes
  import opened HistoryStore
  import opened Layout

  datatype AppState = AppState(route: AppRoute, selected: Option<PlantInfo>, history: seq<PlantInfo>)

  /**
   * The state on first render: nothing selected, and the empty browse screen
   * inside the bar, which is a consistent state.
   */
  function Init(): (s: AppState)
    ensures s.selected.None? && Consistent(s)
    ensures Render(s) == View(HomeScreen([]), Some(HOME))
  {
    AppState(HOME, None, [])
  }

  /** What fills the screen. */
  datatype Screen =
    | HomeScreen(entries: seq<PlantInfo>)  // the browse screen listing the history
    | IdentifyScreen                       // the camera screen
    | DetailScreen(plant: PlantInfo)       // one plant's details
    | MissingPlant                         // detail route with nothing selected
    | ComingSoon                           // placeholder for unfinished screens

  /** A screen, inside the navigation bar with the given active route or on its own. */
  datatype View = View(screen: Screen, navBar: Option<AppRoute>)

  /** The route switch: which screen the state shows, and whether the bar is around it. */
  function Render(s: AppState): (v: View)
    ensures v.navBar.Some? <==> s.route in {HOME, ENCYCLOPEDIA, PROFILE}
    ensures v.navBar.Some? ==> v.navBar.value == s.route
    ensures v.screen.HomeScreen? <==> s.route in {HOME, HISTORY}
    ensures v.screen.HomeScreen? ==> v.screen.entries == s.history
    ensures v.screen.IdentifyScreen? <==> s.route == IDENTIFY
    ensures v.screen.DetailScreen? <==> s.route == DETAIL && s.selected.Some?
    ensures v.screen.DetailScreen? ==> Some(v.screen.plant) == s.selected
    ensures v.screen.MissingPlant? <==> s.route == DETAIL && s.selected.None?
    ensures v.screen.ComingSoon? <==> s.route in {ENCYCLOPEDIA, PROFILE}
  {
    match s.route
    case HOME => View(HomeScreen(s.history), Some(HOME))
    case IDENTIFY => View(IdentifyScreen, None)
    case DETAIL =>
      if s.selected.Some? then View(DetailScreen(s.selected.value), None)
      else View(MissingPlant, None)
    case ENCYCLOPEDIA => View(ComingSoon, Some(ENCYCLOPEDIA))
    case PROFILE => View(ComingSoon, Some(PROFILE))
    case HISTORY => View(HomeScreen(s.history), None)
  }

  /** What can change the state. */
  datatype Event =
    | NavTap(target: AppRoute)                              // a bar button
    | GoHome                                                // a close or back button
    | Select(plant: PlantInfo)                              // a history entry on the browse screen
    | Identified(info: PlantInfo, idClock: int, tsClock: int) // a recognition finished

  /** The taps the bar's buttons offer: one to each of the bar's targets, and no other. */
  function BarTaps(active: AppRoute): (r: set<Event>)
    ensures forall e :: e in r <==> e.NavTap? && e.target in NavTargets
  {
    AtMostOneHighlighted(active);
    EveryTargetHasButton(active);
    set b | b in Buttons(NavItems, active) :: NavTap(b.target)
  }

  /** The entries of the browse screen, each of which can be chosen. */
  function Selections(entries: seq<PlantInfo>): (r: set<Event>)
    ensures forall e :: e in r <==> e.Select? && e.plant in entries
  {
    set p | p in entries :: Select(p)
  }

  /** The actions a view gives the user. */
  function Offered(v: View): (r: set<Event>)
    ensures forall e :: e in r && e.NavTap? ==> v.navBar.Some? && e.target in NavTargets
    ensures GoHome in r <==> !v.screen.HomeScreen?
    ensures forall e :: e in r ==> !e.Identified?
    ensures v.navBar.Some? ==> forall t :: t in NavTargets ==> NavTap(t) in r
    ensures forall p :: Select(p) in r <==> v.screen.HomeScreen? && p in v.screen.entries
  {
    (if v.navBar.Some? then BarTaps(v.navBar.value) else {}) + match v.screen
      case HomeScreen(entries) => Selections(entries)
      case _ => {GoHome}
  }

  /**
   * An event can happen when the screen offers it; a finished recognition
   * can arrive at any time, as the request is never cancelled.
   */
  predicate Admissible(s: AppState, e: Event)
  {
    e.Identified? || e in Offered(Render(s))
  }

  /** The effect of one event on the state. */
  function Dispatch(s: AppState, e: Event): (t: AppState)
    ensures t.history != s.history ==> e.Identified? && |t.history| <= Capacity
    ensures t.selected != s.selected ==> (e.Select? || e.Identified?) && t.selected.Some?
    ensures e.GoHome? ==> t.route == HOME
    ensures e.NavTap? ==> t == s.(route := e.target)
    ensures e.Select? || e.Identified? ==> t.route == DETAIL
  {
    match e
    case NavTap(target) => s.(route := target)
    case GoHome => s.(route := HOME)
    case Select(p) => AppState(DETAIL, Some(p), s.history)
    case Identified(info, idClock, tsClock) =>
      var rec := Stamp(info, idClock, tsClock);
      AppState(DETAIL, Some(rec), Append(s.history, rec))
  }

  /** The state after a run of events, skipping those the screen did not offer. */
  function RunEvents(s: AppState, es: seq<Event>): AppState
    decreases |es|
  {
    if es == [] then s
    else RunEvents(if Admissible(s, es[0]) then Dispatch(s, es[0]) else s, es[1..])
  }

  /** The route is never HISTORY, and the detail route always has a plant. */
  predicate Consistent(s: AppState)
  {
    s.route != HISTORY && (s.route == DETAIL ==> s.selected.Some?)
  }

  lemma DispatchKeepsConsistent(s: AppState, e: Event)
    requires Consistent(s) && Admissible(s, e)
    ensures Consistent(Dispatch(s, e))
  {
    if e.NavTap? {
      assert e.target in NavTargets;
    }
  }

  /**
   * Along every run from the initial state neither the history route nor the
   * detail route without a plant is ever reached: the fallback view for a
   * missing plant and the bare browse screen are never shown.
   */
  lemma {:induction false} RunStaysConsistent(s: AppState, es: seq<Event>)
    requires Consistent(s)
    ensures Consistent(RunEvents(s, es))
    ensures Render(RunEvents(s, es)).screen != MissingPlant
    ensures Render(RunEvents(s, es)).screen.HomeScreen? ==> Render(RunEvents(s, es)).navBar == Some(HOME)
    decreases |es|
  {
    if es != [] {
      var next := if Admissible(s, es[0]) then Dispatch(s, es[0]) else s;
      if Admissible(s, es[0]) {
        DispatchKeepsConsistent(s, es[0]);
      }
      RunStaysConsistent(next, es[1..]);
    }
  }

  /**
   * Every screen but the browse screen offers a way home, and the screens a
   * user can leave for home are left in one step: close and back buttons, the
   * missing-plant fallback's one button and the placeholders' back button.
   * The fallback offers nothing else.
   */
  lemma HomeIsOneStepAway(s: AppState, h: seq<PlantInfo>)
    ensures !Render(s).screen.HomeScreen? ==>
              GoHome in Offered(Render(s)) && Dispatch(s, GoHome).route == HOME
    ensures Offered(Render(AppState(DETAIL, None, h))) == {GoHome}
  {
  }

  /**
   * Selecting a history entry focuses it and opens the detail route without
   * touching the history; a bar tap only changes the route.
   */
  lemma SelectAndTapKeepHistory(s: AppState, p: PlantInfo, i: nat)
    requires i < |NavItems|
    ensures Dispatch(s, Select(p)) == AppState(DETAIL, Some(p), s.history)
    ensures Dispatch(s, NavTap(NavItems[i].id)).history == s.history
    ensures Dispatch(s, NavTap(NavItems[i].id)).selected == s.selected
    ensures Dispatch(s, NavTap(NavItems[i].id)).route in NavTargets
  {
  }

  /**
   * A finished identification puts the stamped record at the front of the
   * history, focuses it, keeps the history within capacity, and keeps the
   * older records in order.
   */
  lemma IdentifiedRecordIsStored(s: AppState, info: PlantInfo, idClock: int, tsClock: int)
    ensures var t := Dispatch(s, Identified(info, idClock, tsClock));
      && t.history[0] == Stamp(info, idClock, tsClock)
      && t.selected == Some(t.history[0])
      && |t.history| == Min(|s.history| + 1, Capacity)
      && t.history[1..] == s.history[..Min(|s.history|, Capacity - 1)]
  {
  }
}
