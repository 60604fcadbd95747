# Switchboard renderer: favorites and view-state coordination

A Dafny model of the part of the Switchboard desktop launcher's renderer
(`renderer.js`) that keeps its two environment lists in step with the user's
favorites: the All list (one card per environment), the Favorites list (the
cards of the favorite environments), the "no favorites" message, the
two-option view toggle with its carousel and tab order, and the choice of
what a click inside a list asks for.

The DOM is replaced by records. A card is a `Card` with its `appId`, its
star button (`FavoriteButton`: `data-action`, class list, `title`,
`tabIndex`) and one `LaunchButton` per instance. A `Panel` is a carousel
child (its `data-selected` flag and its cards). A `Screen` holds both panels,
the toggle's `data-selected-option`, the toggle options carrying
`data-selected`, the message flag and the session's cached environments.
Each handler is a pure function from the screen and its payload to the new
screen.

Modules:

- `Seqs`: `Map`, `Filter` and an index-based characterisation of an
  order-preserving filter, proved equivalent to `Filter` in both directions.
- `Model`: the records and the agreement predicates (`ActionMatches`,
  `AffordanceAgrees`, `FocusAgrees`, `Coherent`).
- `Render`: `renderEnvironment`, `renderAllEnvironments`,
  `renderFavoriteEnvironments`.
- `Carousel`: `updateCarouselFocusTargets`, `handleViewToggle`,
  `initializeToggle`, `handleViewToggleV2`.
- `Reconcile`: `updateAllEnvironments`, `updateFavoriteEnvironments`,
  `updateNoFavoriteMessage`, the `onFavoritesChange` dispatch.
- `Session`: the `onEnvironmentsAvailable` handler and the invariant
  `Synced` (both lists, the message and the tab order agree with the
  settings). Loading establishes it. With the corrected change handler
  (see Findings), toggling and favorites changes keep it, in the Favorites
  view for changes that only remove favorites. The handler as written
  breaks it whenever a star flips, because the star's title goes stale.
- `Urls`, `Actions`: `handleEnvironmentActions` as a function from the
  clicked button and the shift key to an `Intent` (launch, add favorite,
  remove favorite, nothing).

The favorites are a sequence of ids used as a set, just as the source
calls `favorites.includes(...)` and `favorites.length`.
`updateFavoriteEnvironments` is modelled by the list it leaves once every
exit animation has ended. The timing of the animations is not modelled.

`updateFavoriteEnvironments` resolves its promise on the first removal and
never resolves if nothing is removed (renderer.js:149-164). The message
update at renderer.js:63 waits for that promise.

Two behaviours of the source look unintended (see Findings). The members
ending in `AsWritten` model the code as written. The corrected members next
to them (`RefreshButton`, `UpdateAllEnvironments`, `OnFavoritesChange`) model
the evidently intended behaviour. The `Session` invariant is stated about
the corrected members. Rows of the table below that describe a corrected
member start with "corrected:".

## Model

| member | source | states |
|---|---|---|
| `Render.RenderEnvironment` | renderer.js:175-211 | The card carries the environment's `appId` and name. Its star button offers removal exactly when the `appId` is a favorite. Its class and title agree with that action. There is one launch button per instance, in order, carrying that instance's type, url, username and password. Every button starts at tab index 0. |
| `Render.RenderAllEnvironments` | renderer.js:117-119 | One card per environment, in registry order, each rendered under the given settings. |
| `Render.RenderFavoriteEnvironments` | renderer.js:121-125 | Every card in the Favorites list belongs to a favorite and offers removal. Every favorite environment's card is in the list, and the list is no longer than the registry. |
| `Render.FavoritesProjection` | renderer.js:121-125 | The Favorites list is the cards of exactly the environments whose `appId` is a favorite, at strictly increasing registry positions. So it keeps registry order, adds nothing and duplicates nothing. |
| `Render.ProjectionIsUnique` | renderer.js:121-125 | Conversely, any card list with that description is the rendered Favorites list, so the projection is fully determined. |
| `Carousel.UpdateCarouselFocusTargets` | renderer.js:104-115 | Afterwards, every button of the selected panel has tab index 0 and every button of the other panel has -1. Nothing else changes. A screen whose tab indices already agree is left unchanged. |
| `Carousel.HandleViewToggle` | renderer.js:250-277 | Selects the other option. Exactly that option is marked in the toggle, and only its panel is marked in the carousel. The tab order follows the selection. Cards, message and cache are unchanged except for tab indices. |
| `Carousel.ToggleTwice` | renderer.js:250-277 | From a coherent screen, toggling twice restores the exact screen, tab indices included. |
| `Carousel.InitializeToggle` | renderer.js:87-96 | Flips to the other view exactly when there are no favorites. From the page as loaded, it leaves exactly one view selected and the tab order matching it. |
| `Carousel.HandleViewToggleV2` | renderer.js:242-248 | `left` becomes `right`, `right` becomes `left`, and any other value is unchanged. |
| `Carousel.ToggleV2Twice` | renderer.js:242-248 | The V2 toggle applied twice is the identity for every value. |
| `Reconcile.RefreshButtonAsWritten` | renderer.js:131-145 | The in-place update as written: the action matches membership afterwards, a matching button is untouched, and the class follows the action. The title is never changed. |
| `Reconcile.AsWrittenTitleGoesStale` | renderer.js:131-145 | Every button it flips is left with a title that contradicts its action. |
| `Reconcile.StaleTitleExample` | renderer.js:183-186 | The concrete case: the star for "A" rendered with no favorites, then updated after "A" becomes a favorite. It offers removal but is titled "Add to favorites". |
| `Reconcile.RefreshButton` | renderer.js:131-145 | corrected: The corrected in-place update. The action matches membership, a matching button is untouched, and a button whose class and title agreed with its action still does. |
| `Reconcile.UpdateAllEnvironments` | renderer.js:127-146 | corrected: The All list keeps its number and order of cards, and only star buttons change. Each star's action matches the new favorites. Stars that already matched are untouched. Agreement of class and title is preserved; the source keeps only class agreement. |
| `Reconcile.UpdateAllEnvironmentsAsWritten` | renderer.js:127-146 | The All list as written: it keeps its number and order of cards, and only star buttons change. Each star's action matches the new favorites, and stars that already matched are untouched. Titles never change, and a star whose class agreed with its action still does. |
| `Reconcile.UpdateAllIdempotent` | renderer.js:127-146 | corrected: Updating twice with the same settings equals updating once. |
| `Reconcile.RefreshMatchesRender` | renderer.js:127-146 | corrected: Updating a rendered card in place gives exactly the card that re-rendering under the new settings gives. |
| `Reconcile.UpdateAllMatchesRerender` | renderer.js:127-146 | corrected: For the whole All list, the in-place update equals a full re-render under the new settings, whatever the tab index. |
| `Reconcile.UpdateFavoriteEnvironments` | renderer.js:148-165 | A card stays exactly when it was there and is not unfavorited. A card is unfavorited when its star offers removal for an app that is no longer a favorite. The list never grows. |
| `Reconcile.FavoritesRemoval` | renderer.js:148-165 | Exactly the unfavorited cards are removed. The survivors keep their relative order, and nothing is inserted or duplicated. |
| `Reconcile.RemovalMatchesProjection` | renderer.js:61-63 | When the change only removes favorites, removing cards from the shown Favorites list leaves the projection under the new settings. |
| `Reconcile.UpdateNoFavoriteMessage` | renderer.js:167-173 | The message is shown exactly when the favorites are empty. |
| `Reconcile.OnFavoritesChangeAsWritten` | renderer.js:58-69 | The handler as written. The All list keeps its cards, and every star's action matches the new favorites. In the Favorites view exactly the unfavorited cards leave, and the message is updated only if some card was removed; otherwise it keeps its old value. Otherwise the Favorites list is the new projection without enter animation, out of the tab order, and the message is shown exactly when there are no favorites. A coherent screen stays coherent. |
| `Reconcile.MessageStuckWithoutRemoval` | renderer.js:61-63 | The concrete case: Favorites view, the only favorite names no environment, and it is removed. The message stays hidden while the Favorites list is empty. |
| `Reconcile.OnFavoritesChange` | renderer.js:58-69 | corrected: The All list keeps its cards, and every star matches the new favorites. In the Favorites view, exactly the unfavorited cards leave. Otherwise the Favorites list is the new projection without enter animation, out of the tab order. The message is shown exactly when there are no favorites. A coherent screen stays coherent. |
| `Session.OnEnvironmentsAvailable` | renderer.js:43-56 | Caches the environments and sets the message exactly when there are no favorites. It flips the view exactly when there are no favorites. From the page as loaded, both lists, the message and the tab order are in step with the settings. |
| `Session.ToggleKeepsSync` | renderer.js:250-277 | Switching views keeps both lists, the message and the tab order in step with the settings. |
| `Session.ChangeKeepsSync` | renderer.js:58-69 | corrected: A favorites change under the corrected handler brings everything in step with the new settings. This holds always when the All view is selected, and in the Favorites view when the change only removes favorites. |
| `Session.VisibleAdditionNotShown` | renderer.js:61-63 | corrected: Under the corrected handler, which changes the Favorites list as the source does, an environment that becomes a favorite while the Favorites view is shown gets no card in that view. |
| `Actions.LaunchUrl` | renderer.js:228-231 | With shift held the URL is the trial admin portal. Without shift it is the button's own URL. |
| `Actions.HandleEnvironmentActions` | renderer.js:214-240 | No button means no intent. A launch button launches with the chosen URL and the button's own username and password. A star asks to add or remove its own `appId`, removing exactly when its action is removal. |
| `Actions.FavoriteClickToggles` | renderer.js:235-239 | Clicking the star of a rendered card asks to remove the app exactly when it is a favorite, and to add it otherwise. |
| `Actions.LaunchClickUsesInstance` | renderer.js:228-234 | Clicking a rendered launch button launches that instance's URL, or the trial admin portal with shift held. It always uses that instance's username and password. |

## Left out

- IPC wiring (`ipcRenderer.send`, `on`, `once`), the sign-in status flow (renderer.js:28-38), download notifications (renderer.js:71-77) and start-up (renderer.js:80-84). Handlers are modelled as functions of their payloads, and outgoing messages as returned `Intent`s.
- HTML markup and DOM queries. Lists are sequences of card records. The card's name heading and the star's SVG are not modelled.
- Actions.LaunchClickUsesInstance: assumes the url, username and password survive the markup unchanged. The source interpolates them unescaped into quoted attributes (renderer.js:199-203) and reads them back at renderer.js:228, so a value containing `"` or an entity such as `&amp;` comes back altered. Likewise an `appId` containing `"` makes the selector built at renderer.js:154 invalid, and `querySelector` throws.
- Animation timing: `animationend`, `setTimeout`, `card--animate-exit`, `button--launching` and `initializeCarousel`. The Favorites-view removal is modelled by its final list.
- Measured widths, the slider's CSS custom properties, the scroll reset and the `toolbar--with-scroll` class in `handleViewToggle`, plus the `IntersectionObserver` in `createObserver`. These depend on browser layout.
- `createMenu`, `handleMainMenuClick`, the update check, `signInDynamicsUCApp` and `initializeChromium`. Their modules are not part of this model.
- main.js (window lifecycle), helpers/metadata.js (fetch through a hidden window), components/sign-in-form.js (a UI component) and the other constants of urls.js.
- The favorites store in the main process that receives `addFavorite`/`removeFavorite` is not part of this model. The change handler takes the new settings as given.
- Reconcile.UpdateFavoriteEnvironments: it removes the card that owns each stale button. The source looks the card up with `querySelector` by `appId` (renderer.js:154), which finds the same card only when `appId`s are distinct. With a duplicated `appId` the source animates only the first such card.
- Carousel.InitializeToggle and Session.OnEnvironmentsAvailable: coherence is proved from the page as loaded (`Pristine`: no toggle option but the current one marked, and the other panel unmarked). index.html, which fixes that state, is not part of this model.
- Toggle options and carousel views are identified by the two-valued `View`. Other `data-option` values cannot be represented.

## Findings

| source | as written | input that shows it | evidently intended | confidence | as-written member | corrected member |
|---|---|---|---|---|---|---|
| renderer.js:131-145 | `updateAllEnvironments` flips `data-action` and the class but not `title` | card for "A" rendered with favorites `[]`, then favorites become `["A"]`: the star removes, but its tooltip says "Add to favorites" | the tooltip flips with the action, as at renderer.js:186 | not executed; medium | `Reconcile.RefreshButtonAsWritten`, `Reconcile.AsWrittenTitleGoesStale`, `Reconcile.StaleTitleExample`, `Reconcile.UpdateAllEnvironmentsAsWritten` | `Reconcile.RefreshButton`, `Reconcile.UpdateAllEnvironments`, `Reconcile.UpdateAllIdempotent`, `Reconcile.RefreshMatchesRender`, `Reconcile.UpdateAllMatchesRerender` |
| renderer.js:61-63 | the message update waits for a promise that only a removal resolves (renderer.js:148-165) | Favorites view, favorites `["Z"]` where no environment is "Z", change to `[]`: no card leaves, the message stays hidden over an empty list | the message is updated after every change | not executed; medium | `Reconcile.OnFavoritesChangeAsWritten`, `Reconcile.MessageStuckWithoutRemoval` | `Reconcile.OnFavoritesChange`, `Session.ChangeKeepsSync` |
