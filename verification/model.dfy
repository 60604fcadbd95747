/** The records the renderer works on: the environments it is given, the
    user settings, and the cards, panels and toggle it draws. Where the
    source keeps state in DOM attributes (`data-action`, `classList`,
    `title`, `tabIndex`, `data-selected`), the corresponding field holds it. */
module Model {

  /** One launchable tier of an environment. `kind` is the source's `type`. */
  datatype Instance = Instance(kind: string, url: string, username: string, password: string)

  datatype Environment = Environment(appId: string, appName: string, instances: seq<Instance>)

  /** `userSettings`; `favorites` is an array used as a set (`includes`). */
  datatype Settings = Settings(favorites: seq<string>)

  predicate IsFavorite(favorites: seq<string>, appId: string) {
    appId in favorites
  }

  /** The two options of the view toggle and the two panels of the carousel. */
  datatype View = AllView | FavoritesView {
    function Other(): View {
      if AllView? then FavoritesView else AllView
    }
  }

  /** The `data-action` of a card's favorite button. */
  datatype FavoriteAction = AddFavorite | RemoveFavorite

  const ButtonClass := "button"
  const FavoriteButtonClass := "button--favorite"
  const AddFavoriteClass := "button--add-favorite"
  const RemoveFavoriteClass := "button--remove-favorite"
  const AddFavoriteTitle := "Add to favorites"
  const RemoveFavoriteTitle := "Remove from favorites"

  /** `tabIndex` values: the default of a freshly rendered button is 0. */
  const Reachable := 0
  const Unreachable := -1

  function ActionFor(isFavorite: bool): FavoriteAction {
    if isFavorite then RemoveFavorite else AddFavorite
  }

  function ClassFor(action: FavoriteAction): string {
    match action
    case AddFavorite => AddFavoriteClass
    case RemoveFavorite => RemoveFavoriteClass
  }

  function TitleFor(action: FavoriteAction): string {
    match action
    case AddFavorite => AddFavoriteTitle
    case RemoveFavorite => RemoveFavoriteTitle
  }

  datatype FavoriteButton = FavoriteButton(
    appId: string,
    action: FavoriteAction,
    classes: set<string>,
    title: string,
    tabIndex: int)

  datatype LaunchButton = LaunchButton(
    kind: string,
    url: string,
    username: string,
    password: string,
    tabIndex: int)

  /** A rendered `.js-card`: `animateEnter` is the `card--animation-enter` class. */
  datatype Card = Card(
    appId: string,
    appName: string,
    animateEnter: bool,
    favorite: FavoriteButton,
    launches: seq<LaunchButton>)

  /** A carousel child: whether it carries `data-selected`, and its cards. */
  datatype Panel = Panel(selected: bool, cards: seq<Card>)

  /** Everything the coordinator reads and writes: the toggle's
      `data-selected-option`, the set of toggle options carrying
      `data-selected`, the two carousel panels, whether the no-favorites
      message is shown, and the session's cached environments. */
  datatype Screen = Screen(
    selectedOption: View,
    markedOptions: set<View>,
    allPanel: Panel,
    favoritesPanel: Panel,
    noFavoriteMessage: bool,
    cached: seq<Environment>)

  /** The button's class list shows its action and not the opposite one. */
  predicate ClassAgrees(b: FavoriteButton) {
    match b.action
    case AddFavorite => AddFavoriteClass in b.classes && RemoveFavoriteClass !in b.classes
    case RemoveFavorite => RemoveFavoriteClass in b.classes && AddFavoriteClass !in b.classes
  }

  /** Class list and tooltip both agree with the button's action. */
  predicate AffordanceAgrees(b: FavoriteButton) {
    ClassAgrees(b) && b.title == TitleFor(b.action)
  }

  /** The button offers to remove exactly when its app is a favorite. */
  predicate ActionMatches(b: FavoriteButton, favorites: seq<string>) {
    (b.action == RemoveFavorite) == IsFavorite(favorites, b.appId)
  }

  predicate CardHasTabIndex(c: Card, t: int) {
    c.favorite.tabIndex == t && forall b :: b in c.launches ==> b.tabIndex == t
  }

  function TabIndexFor(selected: bool): int {
    if selected then Reachable else Unreachable
  }

  /** Every button of a panel is reachable exactly when the panel is selected. */
  predicate FocusAgrees(p: Panel) {
    forall c :: c in p.cards ==> CardHasTabIndex(c, TabIndexFor(p.selected))
  }

  function PanelOf(sc: Screen, v: View): Panel {
    match v
    case AllView => sc.allPanel
    case FavoritesView => sc.favoritesPanel
  }

  function WithPanel(sc: Screen, v: View, p: Panel): (r: Screen)
    ensures PanelOf(r, v) == p && PanelOf(r, v.Other()) == PanelOf(sc, v.Other())
  {
    match v
    case AllView => sc.(allPanel := p)
    case FavoritesView => sc.(favoritesPanel := p)
  }

  /** Exactly one view is selected, in the toggle and in the carousel alike,
      and only the selected panel's buttons are in the tab order. */
  ghost predicate Coherent(sc: Screen) {
    && sc.markedOptions == {sc.selectedOption}
    && PanelOf(sc, sc.selectedOption).selected
    && !PanelOf(sc, sc.selectedOption.Other()).selected
    && FocusAgrees(sc.allPanel)
    && FocusAgrees(sc.favoritesPanel)
  }
}
