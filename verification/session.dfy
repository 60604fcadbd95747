/** The session as a whole: the `onEnvironmentsAvailable` handler that
    renders both lists once, and the invariant that keeps both lists, the
    message and the tab order in step with the settings across the events
    that follow. */
module Session {
  import opened Model
  import opened Render
  import opened Carousel
  import opened Reconcile

  /** The Favorites panel shows the rendered projection of the cached
      environments, with the panel's tab order applied. */
  predicate FavoritesShown(sc: Screen, s: Settings, animateEnter: bool) {
    sc.favoritesPanel.cards
      == WithTabIndex(RenderFavoriteEnvironments(sc.cached, s, animateEnter), TabIndexFor(sc.favoritesPanel.selected))
  }

  /** The screen shows what the settings say: both lists as rendered from
      the cached environments (the Favorites one with or without enter
      animation), the message exactly when there are no favorites, one view
      selected and only its buttons in the tab order. */
  ghost predicate Synced(sc: Screen, s: Settings) {
    && Coherent(sc)
    && (sc.noFavoriteMessage <==> |s.favorites| == 0)
    && sc.allPanel.cards == WithTabIndex(RenderAllEnvironments(sc.cached, s, true), TabIndexFor(sc.allPanel.selected))
    && (FavoritesShown(sc, s, true) || FavoritesShown(sc, s, false))
  }

  /** `onEnvironmentsAvailable`: cache the environments, render both lists
      with enter animation, set the message and initialise the toggle. */
  function OnEnvironmentsAvailable(sc: Screen, envs: seq<Environment>, s: Settings): (r: Screen)
    ensures r.cached == envs
    ensures r.noFavoriteMessage <==> |s.favorites| == 0
    ensures r.selectedOption == if |s.favorites| == 0 then sc.selectedOption.Other() else sc.selectedOption
    ensures Pristine(sc) ==> Synced(r, s)
  {
    var loaded := sc.(cached := envs,
                      allPanel := sc.allPanel.(cards := RenderAllEnvironments(envs, s, true)),
                      favoritesPanel := sc.favoritesPanel.(cards := RenderFavoriteEnvironments(envs, s, true)),
                      noFavoriteMessage := UpdateNoFavoriteMessage(s));
    var r := InitializeToggle(loaded, s);
    assert PanelOf(r, AllView).cards == r.allPanel.cards;
    assert PanelOf(r, FavoritesView).cards == r.favoritesPanel.cards;
    r
  }

  /** Switching views keeps the screen in step with the settings. */
  lemma ToggleKeepsSync(sc: Screen, s: Settings)
    requires Synced(sc, s)
    ensures Synced(HandleViewToggle(sc), s)
  {
    var r := HandleViewToggle(sc);
    assert PanelOf(r, AllView).cards == r.allPanel.cards;
    assert PanelOf(r, FavoritesView).cards == r.favoritesPanel.cards;
    WithTabIndexTwice(RenderAllEnvironments(sc.cached, s, true),
                      TabIndexFor(sc.allPanel.selected), TabIndexFor(r.allPanel.selected));
    if FavoritesShown(sc, s, true) {
      WithTabIndexTwice(RenderFavoriteEnvironments(sc.cached, s, true),
                        TabIndexFor(sc.favoritesPanel.selected), TabIndexFor(r.favoritesPanel.selected));
    } else {
      WithTabIndexTwice(RenderFavoriteEnvironments(sc.cached, s, false),
                        TabIndexFor(sc.favoritesPanel.selected), TabIndexFor(r.favoritesPanel.selected));
    }
  }

  /** Every cached environment that is a favorite under `s2` was one under `s1`. */
  predicate OnlyRemovals(envs: seq<Environment>, s1: Settings, s2: Settings) {
    forall e :: e in envs && IsFavorite(s2.favorites, e.appId) ==> IsFavorite(s1.favorites, e.appId)
  }

  /** A favorites change keeps the screen in step with the new settings,
      whenever the All view is selected, and in the Favorites view as long
      as the change only removes favorites. */
  lemma ChangeKeepsSync(sc: Screen, s1: Settings, s2: Settings)
    requires Synced(sc, s1)
    requires sc.selectedOption == AllView || OnlyRemovals(sc.cached, s1, s2)
    ensures Synced(OnFavoritesChange(sc, s2), s2)
  {
    var r := OnFavoritesChange(sc, s2);
    var tAll := TabIndexFor(sc.allPanel.selected);
    var tFav := TabIndexFor(sc.favoritesPanel.selected);
    UpdateAllMatchesRerender(sc.cached, s1, s2, true, tAll);
    if sc.selectedOption == FavoritesView {
      if FavoritesShown(sc, s1, true) {
        RemovalMatchesProjection(sc.cached, s1, s2, true, tFav);
        assert FavoritesShown(r, s2, true);
      } else {
        RemovalMatchesProjection(sc.cached, s1, s2, false, tFav);
        assert FavoritesShown(r, s2, false);
      }
    } else {
      WithTabIndexTwice(RenderAllEnvironments(sc.cached, s2, true), tAll, tAll);
      assert PanelOf(r, AllView).cards == r.allPanel.cards;
      assert FavoritesShown(r, s2, false);
    }
  }

  /** While the Favorites view is shown, the change handler only removes
      cards from the Favorites list and never inserts one, so an environment
      that becomes a favorite gets no card in that view. */
  lemma VisibleAdditionNotShown(sc: Screen, s1: Settings, s2: Settings, e: Environment)
    requires Synced(sc, s1)
    requires sc.selectedOption == FavoritesView
    requires e in sc.cached && IsFavorite(s2.favorites, e.appId) && !IsFavorite(s1.favorites, e.appId)
    ensures forall c :: c in OnFavoritesChange(sc, s2).favoritesPanel.cards ==> c.appId != e.appId
  {
    var a := FavoritesShown(sc, s1, true);
    NoCardForNonFavorite(sc.favoritesPanel.cards, sc.cached, s1, a, TabIndexFor(sc.favoritesPanel.selected), e.appId);
  }

  lemma NoCardForNonFavorite(cards: seq<Card>, envs: seq<Environment>, s: Settings, animateEnter: bool, t: int, appId: string)
    requires cards == WithTabIndex(RenderFavoriteEnvironments(envs, s, animateEnter), t)
    requires !IsFavorite(s.favorites, appId)
    ensures forall c :: c in cards ==> c.appId != appId
  {
    var shown := RenderFavoriteEnvironments(envs, s, animateEnter);
    forall c | c in cards
      ensures c.appId != appId
    {
      var i :| 0 <= i < |cards| && cards[i] == c;
      assert shown[i] in shown;
    }
  }
}
