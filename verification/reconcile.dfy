/** What the renderer does when the favorites change: `updateAllEnvironments`,
    `updateFavoriteEnvironments` (its final list, once every exit animation
    has ended), `updateNoFavoriteMessage` and the `onFavoritesChange`
    dispatch. Members ending in `AsWritten` keep two behaviours of the source
    that the corrected members next to them do not (see README, Findings). */
module Reconcile {
  import opened Seqs
  import opened Model
  import opened Render
  import opened Carousel

  /** The in-place update of one favorite button, as the source does it:
      action and class follow the new favorites, the tooltip does not. */
  function RefreshButtonAsWritten(b: FavoriteButton, favorites: seq<string>): (r: FavoriteButton)
    ensures ActionMatches(r, favorites)
    ensures r.appId == b.appId && r.title == b.title && r.tabIndex == b.tabIndex
    ensures ActionMatches(b, favorites) ==> r == b
    ensures ClassAgrees(b) ==> ClassAgrees(r)
  {
    if b.action == AddFavorite && IsFavorite(favorites, b.appId) then
      b.(action := RemoveFavorite, classes := b.classes - {AddFavoriteClass} + {RemoveFavoriteClass})
    else if b.action == RemoveFavorite && !IsFavorite(favorites, b.appId) then
      b.(action := AddFavorite, classes := b.classes - {RemoveFavoriteClass} + {AddFavoriteClass})
    else
      b
  }

  /** A button whose affordance agreed with its action and whose action no
      longer matches the favorites is left with the wrong tooltip. */
  lemma AsWrittenTitleGoesStale(b: FavoriteButton, favorites: seq<string>)
    requires AffordanceAgrees(b) && !ActionMatches(b, favorites)
    ensures !AffordanceAgrees(RefreshButtonAsWritten(b, favorites))
  {
    assert AddFavoriteTitle != RemoveFavoriteTitle by {
      assert AddFavoriteTitle[0] != RemoveFavoriteTitle[0];
    }
  }

  /** The concrete case: the card of "A" rendered while nothing is a
      favorite, updated in place after "A" becomes one. */
  lemma StaleTitleExample()
    ensures var b := RefreshButtonAsWritten(FavoriteButtonFor("A", []), ["A"]);
            b.action == RemoveFavorite && b.title == AddFavoriteTitle
  {
  }

  /** The in-place update of one favorite button, with the tooltip flipped
      together with the action and class. */
  function RefreshButton(b: FavoriteButton, favorites: seq<string>): (r: FavoriteButton)
    ensures ActionMatches(r, favorites)
    ensures r.appId == b.appId && r.tabIndex == b.tabIndex
    ensures ActionMatches(b, favorites) ==> r == b
    ensures AffordanceAgrees(b) ==> AffordanceAgrees(r)
  {
    if b.action == AddFavorite && IsFavorite(favorites, b.appId) then
      b.(action := RemoveFavorite,
         classes := b.classes - {AddFavoriteClass} + {RemoveFavoriteClass},
         title := RemoveFavoriteTitle)
    else if b.action == RemoveFavorite && !IsFavorite(favorites, b.appId) then
      b.(action := AddFavorite,
         classes := b.classes - {RemoveFavoriteClass} + {AddFavoriteClass},
         title := AddFavoriteTitle)
    else
      b
  }

  function CardRefresher(favorites: seq<string>): Card -> Card {
    (c: Card) => c.(favorite := RefreshButton(c.favorite, favorites))
  }

  function CardRefresherAsWritten(favorites: seq<string>): Card -> Card {
    (c: Card) => c.(favorite := RefreshButtonAsWritten(c.favorite, favorites))
  }

  /** The All list after a change: same cards in the same order, only the
      favorite buttons touched, each now matching the new favorites, and a
      button that already matched left as it was. */
  function UpdateAllEnvironments(cards: seq<Card>, s: Settings): (r: seq<Card>)
    ensures |r| == |cards|
    ensures forall i :: 0 <= i < |cards| ==> r[i] == cards[i].(favorite := r[i].favorite)
    ensures forall i :: 0 <= i < |cards| ==>
      && r[i].favorite.appId == cards[i].favorite.appId
      && r[i].favorite.tabIndex == cards[i].favorite.tabIndex
      && ActionMatches(r[i].favorite, s.favorites)
    ensures forall i :: 0 <= i < |cards| && ActionMatches(cards[i].favorite, s.favorites) ==> r[i] == cards[i]
    ensures forall i :: 0 <= i < |cards| && AffordanceAgrees(cards[i].favorite) ==> AffordanceAgrees(r[i].favorite)
  {
    Map(cards, CardRefresher(s.favorites))
  }

  function UpdateAllEnvironmentsAsWritten(cards: seq<Card>, s: Settings): (r: seq<Card>)
    ensures |r| == |cards|
    ensures forall i :: 0 <= i < |cards| ==> r[i] == cards[i].(favorite := r[i].favorite)
    ensures forall i :: 0 <= i < |cards| ==>
      && r[i].favorite.appId == cards[i].favorite.appId
      && r[i].favorite.title == cards[i].favorite.title
      && r[i].favorite.tabIndex == cards[i].favorite.tabIndex
      && ActionMatches(r[i].favorite, s.favorites)
    ensures forall i :: 0 <= i < |cards| && ActionMatches(cards[i].favorite, s.favorites) ==> r[i] == cards[i]
    ensures forall i :: 0 <= i < |cards| && ClassAgrees(cards[i].favorite) ==> ClassAgrees(r[i].favorite)
  {
    Map(cards, CardRefresherAsWritten(s.favorites))
  }

  /** Updating twice with the same settings is updating once. */
  lemma UpdateAllIdempotent(cards: seq<Card>, s: Settings)
    ensures UpdateAllEnvironments(UpdateAllEnvironments(cards, s), s) == UpdateAllEnvironments(cards, s)
  {
  }

  /** Updating a rendered card in place gives the card a re-render under the
      new settings would give. */
  lemma RefreshMatchesRender(e: Environment, s1: Settings, s2: Settings, animateEnter: bool, t: int)
    ensures CardRefresher(s2.favorites)(SetCardTabIndex(RenderEnvironment(e, s1, animateEnter), t))
         == SetCardTabIndex(RenderEnvironment(e, s2, animateEnter), t)
  {
    var c1 := RenderEnvironment(e, s1, animateEnter);
    var c2 := RenderEnvironment(e, s2, animateEnter);
    assert c1.launches == c2.launches;
    var b1 := c1.favorite;
    var b2 := c2.favorite;
    var base := {ButtonClass, FavoriteButtonClass};
    assert ButtonClass != AddFavoriteClass && ButtonClass != RemoveFavoriteClass by {
      assert |ButtonClass| < |AddFavoriteClass| && |ButtonClass| < |RemoveFavoriteClass|;
    }
    assert FavoriteButtonClass != AddFavoriteClass && FavoriteButtonClass != RemoveFavoriteClass by {
      assert |FavoriteButtonClass| < |AddFavoriteClass| && |FavoriteButtonClass| < |RemoveFavoriteClass|;
    }
    assert AddFavoriteClass != RemoveFavoriteClass by {
      assert AddFavoriteClass[8] != RemoveFavoriteClass[8];
    }
    assert RefreshButton(b1, s2.favorites) == b2;
  }

  /** The whole All list: updating in place equals re-rendering. */
  lemma UpdateAllMatchesRerender(envs: seq<Environment>, s1: Settings, s2: Settings, animateEnter: bool, t: int)
    ensures UpdateAllEnvironments(WithTabIndex(RenderAllEnvironments(envs, s1, animateEnter), t), s2)
         == WithTabIndex(RenderAllEnvironments(envs, s2, animateEnter), t)
  {
    var lhs := UpdateAllEnvironments(WithTabIndex(RenderAllEnvironments(envs, s1, animateEnter), t), s2);
    var rhs := WithTabIndex(RenderAllEnvironments(envs, s2, animateEnter), t);
    forall i | 0 <= i < |envs|
      ensures lhs[i] == rhs[i]
    {
      RefreshMatchesRender(envs[i], s1, s2, animateEnter, t);
    }
  }

  /** A card `updateFavoriteEnvironments` animates out: its button offers
      removal but its app is no longer a favorite. */
  predicate IsUnfavorited(c: Card, favorites: seq<string>) {
    c.favorite.action == RemoveFavorite && !IsFavorite(favorites, c.favorite.appId)
  }

  function StillShown(favorites: seq<string>): Card -> bool {
    (c: Card) => !IsUnfavorited(c, favorites)
  }

  /** The Favorites list once every exit animation has ended. */
  function UpdateFavoriteEnvironments(cards: seq<Card>, s: Settings): (r: seq<Card>)
    ensures |r| <= |cards|
    ensures forall c :: c in r <==> c in cards && !IsUnfavorited(c, s.favorites)
  {
    Filter(cards, StillShown(s.favorites))
  }

  /** Exactly the unfavorited cards are removed; the others stay, in their
      order, and nothing is added or duplicated. */
  lemma FavoritesRemoval(cards: seq<Card>, s: Settings) returns (idx: seq<int>)
    ensures Increasing(idx)
    ensures |idx| == |UpdateFavoriteEnvironments(cards, s)|
    ensures forall k :: 0 <= k < |idx| ==>
      && 0 <= idx[k] < |cards|
      && UpdateFavoriteEnvironments(cards, s)[k] == cards[idx[k]]
    ensures forall i :: 0 <= i < |cards| ==> (!IsUnfavorited(cards[i], s.favorites) <==> i in idx)
  {
    idx := FilterSelects(cards, StillShown(s.favorites));
  }

  /** While only removals happen, removing the unfavorited cards from the
      shown Favorites list leaves exactly the list a re-render would show. */
  lemma {:induction false} RemovalMatchesProjection(envs: seq<Environment>, s1: Settings, s2: Settings, animateEnter: bool, t: int)
    requires forall e :: e in envs && IsFavorite(s2.favorites, e.appId) ==> IsFavorite(s1.favorites, e.appId)
    ensures UpdateFavoriteEnvironments(WithTabIndex(RenderFavoriteEnvironments(envs, s1, animateEnter), t), s2)
         == WithTabIndex(RenderFavoriteEnvironments(envs, s2, animateEnter), t)
    decreases |envs|
  {
    if |envs| > 0 {
      var e := envs[0];
      var tail := envs[1..];
      assert envs == [e] + tail;
      RemovalMatchesProjection(tail, s1, s2, animateEnter, t);
      var h1 := Filter([e], FavoriteIn(s1));
      var h2 := Filter([e], FavoriteIn(s2));
      FilterAppend([e], tail, FavoriteIn(s1));
      FilterAppend([e], tail, FavoriteIn(s2));
      MapAppend(h1, Filter(tail, FavoriteIn(s1)), Renderer(s1, animateEnter));
      MapAppend(h2, Filter(tail, FavoriteIn(s2)), Renderer(s2, animateEnter));
      var c1 := RenderAllEnvironments(h1, s1, animateEnter);
      var c2 := RenderAllEnvironments(h2, s2, animateEnter);
      MapAppend(c1, RenderFavoriteEnvironments(tail, s1, animateEnter), CardTabSetter(t));
      MapAppend(c2, RenderFavoriteEnvironments(tail, s2, animateEnter), CardTabSetter(t));
      FilterAppend(WithTabIndex(c1, t), WithTabIndex(RenderFavoriteEnvironments(tail, s1, animateEnter), t), StillShown(s2.favorites));
      if IsFavorite(s1.favorites, e.appId) {
        assert h1 == [e];
        if IsFavorite(s2.favorites, e.appId) {
          assert h2 == [e];
          assert RenderEnvironment(e, s1, animateEnter) == RenderEnvironment(e, s2, animateEnter);
        } else {
          assert h2 == [];
        }
      } else {
        assert h1 == [] && h2 == [];
      }
    }
  }

  /** `updateNoFavoriteMessage`: the message is shown exactly when there are
      no favorites. */
  function UpdateNoFavoriteMessage(s: Settings): (shown: bool)
    ensures shown <==> |s.favorites| == 0
  {
    !(|s.favorites| > 0)
  }

  /** `onFavoritesChange` as written: in the Favorites view the message is
      only updated once the promise of `updateFavoriteEnvironments`
      resolves, which happens on the first removal and never when nothing is
      removed; the All list is updated with the stale-tooltip refresh. */
  function OnFavoritesChangeAsWritten(sc: Screen, s: Settings): (r: Screen)
    ensures r.selectedOption == sc.selectedOption && r.markedOptions == sc.markedOptions && r.cached == sc.cached
    ensures sc.selectedOption == FavoritesView ==>
      r.noFavoriteMessage == if |r.favoritesPanel.cards| < |sc.favoritesPanel.cards| then |s.favorites| == 0 else sc.noFavoriteMessage
    ensures sc.selectedOption == AllView ==> (r.noFavoriteMessage <==> |s.favorites| == 0)
    ensures r.allPanel.selected == sc.allPanel.selected && r.favoritesPanel.selected == sc.favoritesPanel.selected
    ensures |r.allPanel.cards| == |sc.allPanel.cards|
    ensures forall i :: 0 <= i < |r.allPanel.cards| ==>
      && r.allPanel.cards[i].appId == sc.allPanel.cards[i].appId
      && ActionMatches(r.allPanel.cards[i].favorite, s.favorites)
    ensures sc.selectedOption == FavoritesView ==>
      forall c :: c in r.favoritesPanel.cards <==> c in sc.favoritesPanel.cards && !IsUnfavorited(c, s.favorites)
    ensures sc.selectedOption == AllView && !sc.favoritesPanel.selected ==>
      r.favoritesPanel.cards == WithTabIndex(RenderFavoriteEnvironments(sc.cached, s, false), Unreachable)
    ensures Coherent(sc) ==> Coherent(r)
  {
    var all := sc.allPanel.(cards := UpdateAllEnvironmentsAsWritten(sc.allPanel.cards, s));
    if sc.selectedOption == FavoritesView then
      var kept := UpdateFavoriteEnvironments(sc.favoritesPanel.cards, s);
      var resolved := |kept| < |sc.favoritesPanel.cards|;
      var r := sc.(allPanel := all,
                   favoritesPanel := sc.favoritesPanel.(cards := kept),
                   noFavoriteMessage := if resolved then UpdateNoFavoriteMessage(s) else sc.noFavoriteMessage);
      AsWrittenKeepsFocus(sc.allPanel, s);
      r
    else
      UpdateCarouselFocusTargets(
        sc.(allPanel := all,
            favoritesPanel := sc.favoritesPanel.(cards := RenderFavoriteEnvironments(sc.cached, s, false)),
            noFavoriteMessage := UpdateNoFavoriteMessage(s)))
  }

  lemma AsWrittenKeepsFocus(p: Panel, s: Settings)
    ensures FocusAgrees(p) ==> FocusAgrees(p.(cards := UpdateAllEnvironmentsAsWritten(p.cards, s)))
  {
    var q := p.(cards := UpdateAllEnvironmentsAsWritten(p.cards, s));
    if FocusAgrees(p) {
      forall c | c in q.cards
        ensures CardHasTabIndex(c, TabIndexFor(q.selected))
      {
        var i :| 0 <= i < |q.cards| && q.cards[i] == c;
        assert p.cards[i] in p.cards;
      }
    }
  }

  /** Favorites view shown, the only favorite names no environment, and it is
      removed: no card leaves, so the message stays hidden although there are
      no favorites any more. */
  lemma MessageStuckWithoutRemoval()
    ensures var sc := Screen(FavoritesView, {FavoritesView}, Panel(false, []), Panel(true, []), false, []);
            var r := OnFavoritesChangeAsWritten(sc, Settings([]));
            !r.noFavoriteMessage && r.favoritesPanel.cards == []
  {
  }

  /** `onFavoritesChange`: the All list is updated in place; in the
      Favorites view the unfavorited cards leave the Favorites list,
      otherwise that list is re-rendered (without enter animation) from the
      cached environments and the tab order re-applied; in both cases the
      message ends up shown exactly when there are no favorites. */
  function OnFavoritesChange(sc: Screen, s: Settings): (r: Screen)
    ensures r.selectedOption == sc.selectedOption && r.markedOptions == sc.markedOptions && r.cached == sc.cached
    ensures r.noFavoriteMessage <==> |s.favorites| == 0
    ensures r.allPanel.selected == sc.allPanel.selected && r.favoritesPanel.selected == sc.favoritesPanel.selected
    ensures |r.allPanel.cards| == |sc.allPanel.cards|
    ensures forall i :: 0 <= i < |r.allPanel.cards| ==>
      && r.allPanel.cards[i].appId == sc.allPanel.cards[i].appId
      && ActionMatches(r.allPanel.cards[i].favorite, s.favorites)
    ensures sc.selectedOption == FavoritesView ==>
      forall c :: c in r.favoritesPanel.cards <==> c in sc.favoritesPanel.cards && !IsUnfavorited(c, s.favorites)
    ensures sc.selectedOption == AllView && !sc.favoritesPanel.selected ==>
      r.favoritesPanel.cards == WithTabIndex(RenderFavoriteEnvironments(sc.cached, s, false), Unreachable)
    ensures Coherent(sc) ==> Coherent(r)
  {
    var all := sc.allPanel.(cards := UpdateAllEnvironments(sc.allPanel.cards, s));
    if sc.selectedOption == FavoritesView then
      var r := sc.(allPanel := all,
                   favoritesPanel := sc.favoritesPanel.(cards := UpdateFavoriteEnvironments(sc.favoritesPanel.cards, s)),
                   noFavoriteMessage := UpdateNoFavoriteMessage(s));
      assert FocusAgrees(sc.allPanel) ==> FocusAgrees(r.allPanel) by {
        if FocusAgrees(sc.allPanel) {
          forall c | c in r.allPanel.cards
            ensures CardHasTabIndex(c, TabIndexFor(r.allPanel.selected))
          {
            var i :| 0 <= i < |r.allPanel.cards| && r.allPanel.cards[i] == c;
            assert sc.allPanel.cards[i] in sc.allPanel.cards;
          }
        }
      }
      r
    else
      UpdateCarouselFocusTargets(
        sc.(allPanel := all,
            favoritesPanel := sc.favoritesPanel.(cards := RenderFavoriteEnvironments(sc.cached, s, false)),
            noFavoriteMessage := UpdateNoFavoriteMessage(s)))
  }
}
