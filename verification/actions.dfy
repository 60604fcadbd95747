/** The URL constant the launch handler uses (urls.js). */
module Urls {
  const TrialAdminPortalUrl := "https://aka.ms/switchboard-trial-admin-portal"
}

/** `handleEnvironmentActions`: what a click inside a list asks for. The IPC
    messages and the automation call become the `Intent` returned. */
module Actions {
  import opened Model
  import opened Render
  import Urls

  /** The closest button to the click target, if any. */
  datatype ClickTarget =
    | NoButton
    | FavoriteTarget(favorite: FavoriteButton)
    | LaunchTarget(launch: LaunchButton)

  datatype Intent =
    | NoIntent
    | Launch(url: string, username: string, password: string)
    | AddFavoriteIntent(appId: string)
    | RemoveFavoriteIntent(appId: string)

  /** Holding shift sends the launch to the trial admin portal instead. */
  function LaunchUrl(b: LaunchButton, shiftKey: bool): (url: string)
    ensures shiftKey ==> url == Urls.TrialAdminPortalUrl
    ensures !shiftKey ==> url == b.url
  {
    if shiftKey then Urls.TrialAdminPortalUrl else b.url
  }

  function HandleEnvironmentActions(target: ClickTarget, shiftKey: bool): (r: Intent)
    ensures target.NoButton? <==> r.NoIntent?
    ensures target.LaunchTarget? ==>
      r == Launch(LaunchUrl(target.launch, shiftKey), target.launch.username, target.launch.password)
    ensures target.FavoriteTarget? ==>
      && (r.AddFavoriteIntent? || r.RemoveFavoriteIntent?)
      && r.appId == target.favorite.appId
      && (r.RemoveFavoriteIntent? <==> target.favorite.action == RemoveFavorite)
  {
    match target
    case NoButton => NoIntent
    case LaunchTarget(b) => Launch(LaunchUrl(b, shiftKey), b.username, b.password)
    case FavoriteTarget(b) =>
      match b.action
      case AddFavorite => AddFavoriteIntent(b.appId)
      case RemoveFavorite => RemoveFavoriteIntent(b.appId)
  }

  /** Clicking the star of a card rendered under `s` asks to remove the app
      from the favorites exactly when it is one, and to add it otherwise;
      shift makes no difference. */
  lemma FavoriteClickToggles(e: Environment, s: Settings, animateEnter: bool, shiftKey: bool)
    ensures HandleEnvironmentActions(FavoriteTarget(RenderEnvironment(e, s, animateEnter).favorite), shiftKey)
         == if IsFavorite(s.favorites, e.appId) then RemoveFavoriteIntent(e.appId) else AddFavoriteIntent(e.appId)
  {
  }

  /** Clicking a launch button of a rendered card launches that instance's
      URL, or the trial admin portal with shift held, always with that
      instance's own credentials. */
  lemma LaunchClickUsesInstance(e: Environment, s: Settings, animateEnter: bool, i: int, shiftKey: bool)
    requires 0 <= i < |e.instances|
    ensures HandleEnvironmentActions(LaunchTarget(RenderEnvironment(e, s, animateEnter).launches[i]), shiftKey)
         == Launch(if shiftKey then Urls.TrialAdminPortalUrl else e.instances[i].url,
                   e.instances[i].username, e.instances[i].password)
  {
  }
}
