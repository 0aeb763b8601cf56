/**
 * The bottom navigation bar: a fixed table of four entries, one button per
 * entry, the entry whose route is the active one highlighted, and a tap
 * that hands the entry's route to the route setter.
 */
module Layout {
  import opened PlantTypes

  datatype NavItem = NavItem(id: AppRoute, title: string, icon: string)

  const NavItems: seq<NavItem> := [
    NavItem(HOME, "探索", "explore"),
    NavItem(IDENTIFY, "識別", "qr_code_scanner"),
    NavItem(ENCYCLOPEDIA, "百科", "menu_book"),
    NavItem(PROFILE, "我的", "person")
  ]

  /** The routes the bar can lead to. */
  const NavTargets: set<AppRoute> := {HOME, IDENTIFY, ENCYCLOPEDIA, PROFILE}

  /** One rendered button: where a tap leads and whether it is highlighted. */
  datatype NavButton = NavButton(target: AppRoute, highlighted: bool)

  /** The buttons of the bar, one per entry and in the entries' order. */
  function Buttons(items: seq<NavItem>, active: AppRoute): (r: seq<NavButton>)
    ensures |r| == |items|
    ensures forall i :: 0 <= i < |r| ==>
              r[i].target == items[i].id && (r[i].highlighted <==> items[i].id == active)
  {
    if items == [] then []
    else [NavButton(items[0].id, items[0].id == active)] + Buttons(items[1..], active)
  }

  /** How many buttons are highlighted. */
  function HighlightCount(bs: seq<NavButton>): nat
  {
    if bs == [] then 0 else (if bs[0].highlighted then 1 else 0) + HighlightCount(bs[1..])
  }

  predicate DistinctIds(items: seq<NavItem>)
  {
    forall i, j :: 0 <= i < j < |items| ==> items[i].id != items[j].id
  }

  predicate HasId(items: seq<NavItem>, r: AppRoute)
  {
    exists i :: 0 <= i < |items| && items[i].id == r
  }

  /** With distinct ids, one button is highlighted if the active route has one, else none. */
  lemma {:induction false} HighlightCountDistinct(items: seq<NavItem>, active: AppRoute)
    requires DistinctIds(items)
    ensures HighlightCount(Buttons(items, active)) == if HasId(items, active) then 1 else 0
  {
    if items != [] {
      var bs := Buttons(items, active);
      assert bs[1..] == Buttons(items[1..], active);
      assert DistinctIds(items[1..]) by {
        forall i, j | 0 <= i < j < |items[1..]| ensures items[1..][i].id != items[1..][j].id {
          assert items[1..][i] == items[i + 1] && items[1..][j] == items[j + 1];
        }
      }
      HighlightCountDistinct(items[1..], active);
      if items[0].id == active {
        // the rest of the bar cannot hold the active route again
        forall k | 0 <= k < |items[1..]| ensures items[1..][k].id != active {
          assert items[1..][k] == items[k + 1];
        }
      } else {
        if HasId(items, active) {
          var k :| 0 <= k < |items| && items[k].id == active;
          assert items[1..][k - 1] == items[k];
        }
        if HasId(items[1..], active) {
          var k :| 0 <= k < |items[1..]| && items[1..][k].id == active;
          assert items[k + 1] == items[1..][k];
        }
      }
    }
  }

  /**
   * The table has four entries, in the order home, identify, encyclopedia,
   * profile; their routes are distinct and are exactly the bar's targets.
   */
  lemma NavTableShape()
    ensures |NavItems| == 4
    ensures NavItems[0].id == HOME && NavItems[1].id == IDENTIFY
    ensures NavItems[2].id == ENCYCLOPEDIA && NavItems[3].id == PROFILE
    ensures DistinctIds(NavItems)
    ensures forall r :: HasId(NavItems, r) <==> r in NavTargets
  {
    forall r | r in NavTargets ensures HasId(NavItems, r) {
      var k := if r == HOME then 0 else if r == IDENTIFY then 1 else if r == ENCYCLOPEDIA then 2 else 3;
      assert NavItems[k].id == r;
    }
  }

  /** Every bar target has its button, highlighted exactly when it is the active route. */
  lemma EveryTargetHasButton(active: AppRoute)
    ensures forall t :: t in NavTargets ==> NavButton(t, t == active) in Buttons(NavItems, active)
  {
    var bs := Buttons(NavItems, active);
    assert bs[0] == NavButton(HOME, HOME == active);
    assert bs[1] == NavButton(IDENTIFY, IDENTIFY == active);
    assert bs[2] == NavButton(ENCYCLOPEDIA, ENCYCLOPEDIA == active);
    assert bs[3] == NavButton(PROFILE, PROFILE == active);
  }

  /**
   * On any active route at most one button is highlighted, and exactly one
   * when the active route is one of the bar's targets. Detail and history
   * are never bar targets.
   */
  lemma AtMostOneHighlighted(active: AppRoute)
    ensures HighlightCount(Buttons(NavItems, active)) == if active in NavTargets then 1 else 0
    ensures forall b :: b in Buttons(NavItems, active) ==> b.target in NavTargets
    ensures DETAIL !in NavTargets && HISTORY !in NavTargets
  {
    NavTableShape();
    HighlightCountDistinct(NavItems, active);
  }
}
