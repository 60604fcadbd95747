/** `renderEnvironment`, `renderAllEnvironments` and
    `renderFavoriteEnvironments`, with cards as records instead of HTML. */
module Render {
  import opened Seqs
  import opened Model

  /** A launch button copies its instance's data attributes verbatim. */
  predicate LaunchMatches(b: LaunchButton, i: Instance) {
    b.kind == i.kind && b.url == i.url && b.username == i.username && b.password == i.password
  }

  function LaunchButtonFor(i: Instance): (b: LaunchButton)
    ensures LaunchMatches(b, i) && b.tabIndex == Reachable
  {
    LaunchButton(i.kind, i.url, i.username, i.password, Reachable)
  }

  function FavoriteButtonFor(appId: string, favorites: seq<string>): (b: FavoriteButton)
    ensures b.appId == appId && b.tabIndex == Reachable
    ensures ActionMatches(b, favorites)
    ensures AffordanceAgrees(b)
  {
    var action := ActionFor(IsFavorite(favorites, appId));
    FavoriteButton(appId, action, {ButtonClass, FavoriteButtonClass, ClassFor(action)}, TitleFor(action), Reachable)
  }

  /** The card of one environment under the given settings. */
  function RenderEnvironment(e: Environment, s: Settings, animateEnter: bool): (c: Card)
    ensures c.appId == e.appId && c.appName == e.appName && c.animateEnter == animateEnter
    ensures c.favorite.appId == e.appId
    ensures c.favorite.action == RemoveFavorite <==> IsFavorite(s.favorites, e.appId)
    ensures AffordanceAgrees(c.favorite)
    ensures CardHasTabIndex(c, Reachable)
    ensures |c.launches| == |e.instances|
    ensures forall i :: 0 <= i < |e.instances| ==> LaunchMatches(c.launches[i], e.instances[i])
  {
    Card(e.appId, e.appName, animateEnter, FavoriteButtonFor(e.appId, s.favorites), Map(e.instances, LaunchButtonFor))
  }

  function Renderer(s: Settings, animateEnter: bool): Environment -> Card {
    (e: Environment) => RenderEnvironment(e, s, animateEnter)
  }

  /** The filter test of `renderFavoriteEnvironments`. */
  function FavoriteIn(s: Settings): Environment -> bool {
    (e: Environment) => IsFavorite(s.favorites, e.appId)
  }

  function RenderAllEnvironments(envs: seq<Environment>, s: Settings, animateEnter: bool): (r: seq<Card>)
    ensures |r| == |envs|
    ensures forall i :: 0 <= i < |envs| ==> r[i] == RenderEnvironment(envs[i], s, animateEnter)
  {
    Map(envs, Renderer(s, animateEnter))
  }

  function RenderFavoriteEnvironments(envs: seq<Environment>, s: Settings, animateEnter: bool): (r: seq<Card>)
    ensures |r| <= |envs|
    ensures forall c :: c in r ==> IsFavorite(s.favorites, c.appId) && c.favorite.action == RemoveFavorite
    ensures forall e :: e in envs && IsFavorite(s.favorites, e.appId) ==> RenderEnvironment(e, s, animateEnter) in r
  {
    var kept := Filter(envs, FavoriteIn(s));
    var r := RenderAllEnvironments(kept, s, animateEnter);
    assert forall e :: e in kept ==> RenderEnvironment(e, s, animateEnter) in r by {
      forall e | e in kept
        ensures RenderEnvironment(e, s, animateEnter) in r
      {
        var i :| 0 <= i < |kept| && kept[i] == e;
        assert r[i] == RenderEnvironment(e, s, animateEnter);
      }
    }
    assert forall c :: c in r ==> IsFavorite(s.favorites, c.appId) by {
      forall c | c in r
        ensures IsFavorite(s.favorites, c.appId)
      {
        var i :| 0 <= i < |r| && r[i] == c;
        assert kept[i] in kept;
      }
    }
    r
  }

  /** `r` is the cards of exactly the favorite environments, in registry
      order: `idx` are the positions of the environments whose `appId` is a
      favorite, increasing, and card `k` is the card of the environment at
      `idx[k]`. */
  ghost predicate ProjectsFavorites(r: seq<Card>, envs: seq<Environment>, s: Settings, animateEnter: bool, idx: seq<int>) {
    && Increasing(idx)
    && |idx| == |r|
    && (forall k :: 0 <= k < |idx| ==> 0 <= idx[k] < |envs| && r[k] == RenderEnvironment(envs[idx[k]], s, animateEnter))
    && (forall i :: 0 <= i < |envs| ==> (IsFavorite(s.favorites, envs[i].appId) <==> i in idx))
  }

  /** The rendered Favorites list is such a projection. */
  lemma FavoritesProjection(envs: seq<Environment>, s: Settings, animateEnter: bool) returns (idx: seq<int>)
    ensures ProjectsFavorites(RenderFavoriteEnvironments(envs, s, animateEnter), envs, s, animateEnter, idx)
  {
    idx := FilterSelects(envs, FavoriteIn(s));
  }

  /** Conversely, any such projection is the rendered Favorites list. */
  lemma ProjectionIsUnique(envs: seq<Environment>, s: Settings, animateEnter: bool, r: seq<Card>, idx: seq<int>)
    requires ProjectsFavorites(r, envs, s, animateEnter, idx)
    ensures r == RenderFavoriteEnvironments(envs, s, animateEnter)
  {
    var picked := seq(|idx|, k requires 0 <= k < |idx| => envs[idx[k]]);
    assert IsSelection(picked, envs, FavoriteIn(s), idx);
    SelectionIsFilter(picked, envs, FavoriteIn(s), idx);
    assert r == RenderAllEnvironments(picked, s, animateEnter);
  }
}
