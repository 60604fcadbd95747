/** The view toggle and the carousel behind it: `updateCarouselFocusTargets`,
    `handleViewToggle`, `initializeToggle` and `handleViewToggleV2`. */
module Carousel {
  import opened Seqs
  import opened Model

  function LaunchTabSetter(t: int): LaunchButton -> LaunchButton {
    (b: LaunchButton) => b.(tabIndex := t)
  }

  /** Sets `tabIndex` on every button of a card and changes nothing else. */
  function SetCardTabIndex(c: Card, t: int): (r: Card)
    ensures CardHasTabIndex(r, t)
    ensures r.appId == c.appId && r.appName == c.appName && r.animateEnter == c.animateEnter
    ensures r.favorite == c.favorite.(tabIndex := t)
    ensures |r.launches| == |c.launches|
    ensures forall i :: 0 <= i < |c.launches| ==> r.launches[i] == c.launches[i].(tabIndex := t)
  {
    var launches := Map(c.launches, LaunchTabSetter(t));
    assert forall b :: b in launches ==> b.tabIndex == t by {
      forall b | b in launches
        ensures b.tabIndex == t
      {
        var i :| 0 <= i < |launches| && launches[i] == b;
      }
    }
    c.(favorite := c.favorite.(tabIndex := t), launches := launches)
  }

  function CardTabSetter(t: int): Card -> Card {
    (c: Card) => SetCardTabIndex(c, t)
  }

  /** Sets the tab index of every button of every card to `t`. */
  function WithTabIndex(cards: seq<Card>, t: int): (r: seq<Card>)
    ensures |r| == |cards|
    ensures forall i :: 0 <= i < |cards| ==> r[i] == SetCardTabIndex(cards[i], t)
    ensures forall c :: c in r ==> CardHasTabIndex(c, t)
  {
    Map(cards, CardTabSetter(t))
  }

  lemma SetCardTabIndexFixes(c: Card, t: int)
    requires CardHasTabIndex(c, t)
    ensures SetCardTabIndex(c, t) == c
  {
    var r := SetCardTabIndex(c, t);
    forall i | 0 <= i < |c.launches|
      ensures r.launches[i] == c.launches[i]
    {
      assert c.launches[i] in c.launches;
    }
  }

  /** Setting a tab index every button already has changes nothing. */
  lemma WithTabIndexFixes(cards: seq<Card>, t: int)
    requires forall c :: c in cards ==> CardHasTabIndex(c, t)
    ensures WithTabIndex(cards, t) == cards
  {
    forall i | 0 <= i < |cards|
      ensures WithTabIndex(cards, t)[i] == cards[i]
    {
      SetCardTabIndexFixes(cards[i], t);
    }
  }

  /** The last tab index set wins. */
  lemma WithTabIndexTwice(cards: seq<Card>, t1: int, t2: int)
    ensures WithTabIndex(WithTabIndex(cards, t1), t2) == WithTabIndex(cards, t2)
  {
    forall i | 0 <= i < |cards|
      ensures WithTabIndex(WithTabIndex(cards, t1), t2)[i] == WithTabIndex(cards, t2)[i]
    {
      var c := cards[i];
      var a := SetCardTabIndex(SetCardTabIndex(c, t1), t2);
      var b := SetCardTabIndex(c, t2);
      assert a.launches == b.launches;
    }
  }

  /** One carousel child after `updateCarouselFocusTargets`. */
  function FocusPanel(p: Panel): (r: Panel)
    ensures r.selected == p.selected
    ensures FocusAgrees(r)
    ensures r.cards == WithTabIndex(p.cards, TabIndexFor(p.selected))
  {
    p.(cards := WithTabIndex(p.cards, TabIndexFor(p.selected)))
  }

  /** Out-of-view buttons leave the tab order, in-view buttons join it;
      nothing but tab indices changes, and a screen whose tab indices
      already agree with the selection is left as it is. */
  function UpdateCarouselFocusTargets(sc: Screen): (r: Screen)
    ensures FocusAgrees(r.allPanel) && FocusAgrees(r.favoritesPanel)
    ensures r.selectedOption == sc.selectedOption && r.markedOptions == sc.markedOptions
    ensures r.noFavoriteMessage == sc.noFavoriteMessage && r.cached == sc.cached
    ensures forall v :: PanelOf(r, v).selected == PanelOf(sc, v).selected
    ensures forall v :: PanelOf(r, v).cards == WithTabIndex(PanelOf(sc, v).cards, TabIndexFor(PanelOf(sc, v).selected))
    ensures FocusAgrees(sc.allPanel) && FocusAgrees(sc.favoritesPanel) ==> r == sc
  {
    if FocusAgrees(sc.allPanel) && FocusAgrees(sc.favoritesPanel) then
      WithTabIndexFixes(sc.allPanel.cards, TabIndexFor(sc.allPanel.selected));
      WithTabIndexFixes(sc.favoritesPanel.cards, TabIndexFor(sc.favoritesPanel.selected));
      sc.(allPanel := FocusPanel(sc.allPanel), favoritesPanel := FocusPanel(sc.favoritesPanel))
    else
      sc.(allPanel := FocusPanel(sc.allPanel), favoritesPanel := FocusPanel(sc.favoritesPanel))
  }

  /** The selection moves to the other option, in the toggle and in the
      carousel, and the tab order follows it. Measured widths, the slider's
      custom properties and the scroll reset are not modelled. */
  function HandleViewToggle(sc: Screen): (r: Screen)
    ensures r.selectedOption == sc.selectedOption.Other()
    ensures r.markedOptions == {r.selectedOption}
    ensures PanelOf(r, r.selectedOption).selected && !PanelOf(r, sc.selectedOption).selected
    ensures Coherent(r)
    ensures r.noFavoriteMessage == sc.noFavoriteMessage && r.cached == sc.cached
    ensures forall v :: PanelOf(r, v).cards == WithTabIndex(PanelOf(sc, v).cards, TabIndexFor(PanelOf(r, v).selected))
  {
    var leaving := sc.selectedOption;
    var entering := leaving.Other();
    var marked := sc.markedOptions - {leaving} + {entering};
    assert marked == {entering} by {
      forall v | v in marked
        ensures v == entering
      {
      }
    }
    var toggled := sc.(selectedOption := entering, markedOptions := marked);
    var left := WithPanel(toggled, leaving, PanelOf(toggled, leaving).(selected := false));
    var entered := WithPanel(left, entering, PanelOf(left, entering).(selected := true));
    UpdateCarouselFocusTargets(entered)
  }

  /** Toggling twice from a coherent screen restores it exactly. */
  lemma ToggleTwice(sc: Screen)
    requires Coherent(sc)
    ensures HandleViewToggle(HandleViewToggle(sc)) == sc
  {
    var once := HandleViewToggle(sc);
    var twice := HandleViewToggle(once);
    PanelRestored(sc, once, twice, AllView);
    PanelRestored(sc, once, twice, FavoritesView);
  }

  lemma PanelRestored(sc: Screen, once: Screen, twice: Screen, v: View)
    requires FocusAgrees(PanelOf(sc, v))
    requires PanelOf(once, v).cards == WithTabIndex(PanelOf(sc, v).cards, TabIndexFor(PanelOf(once, v).selected))
    requires PanelOf(twice, v).cards == WithTabIndex(PanelOf(once, v).cards, TabIndexFor(PanelOf(twice, v).selected))
    requires PanelOf(twice, v).selected == PanelOf(sc, v).selected
    ensures PanelOf(twice, v) == PanelOf(sc, v)
  {
    var t := TabIndexFor(PanelOf(sc, v).selected);
    WithTabIndexTwice(PanelOf(sc, v).cards, TabIndexFor(PanelOf(once, v).selected), t);
    WithTabIndexFixes(PanelOf(sc, v).cards, t);
  }

  /** The page as loaded: no toggle option but the current one is marked
      selected, and the other panel is not marked selected. */
  predicate Pristine(sc: Screen) {
    sc.markedOptions <= {sc.selectedOption} && !PanelOf(sc, sc.selectedOption.Other()).selected
  }

  /** Marks the current option selected, then flips to the other view when
      there are no favorites. */
  function InitializeToggle(sc: Screen, s: Settings): (r: Screen)
    ensures r.selectedOption == if |s.favorites| == 0 then sc.selectedOption.Other() else sc.selectedOption
    ensures Pristine(sc) ==> Coherent(r)
    ensures r.noFavoriteMessage == sc.noFavoriteMessage && r.cached == sc.cached
    ensures forall v :: PanelOf(r, v).cards == WithTabIndex(PanelOf(sc, v).cards, TabIndexFor(PanelOf(r, v).selected))
  {
    var current := sc.selectedOption;
    var marked := sc.(markedOptions := sc.markedOptions + {current});
    var shown := WithPanel(marked, current, PanelOf(marked, current).(selected := true));
    if |s.favorites| == 0 then
      HandleViewToggle(shown)
    else
      UpdateCarouselFocusTargets(shown)
  }

  /** The newer toggle element swaps `left` and `right` and ignores any other
      value of its `data-select`. */
  function HandleViewToggleV2(select: string): (r: string)
    ensures select == "left" ==> r == "right"
    ensures select == "right" ==> r == "left"
    ensures select != "left" && select != "right" ==> r == select
  {
    if select == "left" then "right"
    else if select == "right" then "left"
    else select
  }

  /** The V2 toggle is an involution on every value of `data-select`. */
  lemma ToggleV2Twice(select: string)
    ensures HandleViewToggleV2(HandleViewToggleV2(select)) == select
  {
  }
}
