# Cabin landing page: client-side state, modelled in Dafny

The landing page of the StayTrack cabin-rental site keeps three pieces of
client-side state that change step by step:

- the page component's state in `landing-page.tsx`: the list of liked cabin ids
  (flipped by `toggleLike`), the index of the testimonial on show (advanced by an
  interval timer, set by an indicator click) and the selected category;
- the theme provider in `context/DarkModeContext.tsx`: a flag `isDarkMode`,
  mirrored onto the root element's class list as exactly one of `dark` and
  `light`, negated by `toggleDarkMode`, read by consumers through `useDarkMode`;
- the persisted-state hook in `hooks/useLocalStorageState.tsx`: a value read
  lazily from `localStorage` and written back, serialised, after every change.

Files:

- `wrappers.dfy` — `Option` and `Result`.
- `local_storage_state.dfy` — module `LocalStorage`: the boolean JSON encoding,
  the lazy initialiser as a function, `localStorage` as a class holding a
  `map<string, string>`, and the hook as a class whose methods write through.
- `dark_mode_context.dfy` — module `DarkMode`: the theme effect as a function on
  `set<string>` and as a method on the root element's class list, the provider
  as a class over the hook and the root element, and `useDarkMode`.
- `landing_page.dfy` — module `LandingPage`: the liked-list updater (`filter`
  or append) and the carousel updater as functions with lemmas, and the
  component's state as a class with `ToggleLike`, `Tick`, `Select` and
  `SelectCategory`.

Real time becomes a discrete `Tick`; whether a window exists (server render or
browser) and the system colour-scheme preference are parameters.

Two behaviours of the stored-value read, as the code has them:

- `JSON.parse` (hooks/useLocalStorageState.tsx:10) is called without a `try`,
  so malformed stored text throws; there is no fallback. The model makes
  well-formed stored text a precondition (`StoredWellFormed`).
- The stored text is tested for truthiness, and an empty string is falsy, so an
  empty stored entry yields the initial state just as a missing one does.

## Model

| member | source | states |
|---|---|---|
| `LocalStorage.Stringify` | hooks/useLocalStorageState.tsx:15 | a boolean serialises to the non-empty text "true" or "false" |
| `LocalStorage.Parse` | hooks/useLocalStorageState.tsx:10 | parsing a boolean text gives the boolean whose serialisation it is |
| `LocalStorage.ParseStringify` | hooks/useLocalStorageState.tsx:10-15 | parse(stringify(b)) == b for both booleans |
| `LocalStorage.GetItem` | hooks/useLocalStorageState.tsx:9 | getItem answers the entry for the key, or null exactly when there is none |
| `LocalStorage.InitialValue` | hooks/useLocalStorageState.tsx:6-11 | no window gives initialState; an absent or empty stored text gives initialState; otherwise the value whose serialisation is stored |
| `LocalStorage.ReloadReadsBack` | hooks/useLocalStorageState.tsx:6-17 | after writing stringify(b) under the key, the initialiser reads back b whatever the initial state |
| `LocalStorage.Storage.SetItem` | hooks/useLocalStorageState.tsx:15 | the entry for the key becomes the text; every other key keeps its presence and its text |
| `LocalStorage.LocalStorageState.constructor` | hooks/useLocalStorageState.tsx:5-17 | the value is the lazy initial value; with a window the storage then holds its serialisation under the key, without one storage is untouched |
| `LocalStorage.LocalStorageState.SetValue` | hooks/useLocalStorageState.tsx:13-17 | the value becomes v; with a window only the key's entry changes, to stringify(v); without one storage is untouched |
| `LocalStorage.ReloadReadsCurrent` | hooks/useLocalStorageState.tsx:6-17 | in every valid state with a window the stored text is well formed and a reload reads back the current value |
| `LocalStorage.ReloadAfterChange` | hooks/useLocalStorageState.tsx:6-17 | a reload right after a change reads back the value just set |
| `DarkMode.ThemeClasses` | context/DarkModeContext.tsx:23-31 | after the effect, `dark` is present iff the flag is true, `light` iff it is false, and every other class is as before |
| `DarkMode.ThemeExclusive` | context/DarkModeContext.tsx:23-31 | after applying either flag exactly one of `dark` and `light` is present |
| `DarkMode.ThemeOverrides` | context/DarkModeContext.tsx:23-31 | the class list depends only on the last flag applied |
| `DarkMode.ThemeIdempotent` | context/DarkModeContext.tsx:23-31 | applying the same flag twice equals applying it once |
| `DarkMode.RootElement.Add` | context/DarkModeContext.tsx:25-28 | classList.add puts the class in the list and changes nothing else |
| `DarkMode.RootElement.Remove` | context/DarkModeContext.tsx:26-29 | classList.remove takes the class out of the list and changes nothing else |
| `DarkMode.RootElement.ApplyTheme` | context/DarkModeContext.tsx:23-31 | the add/remove sequence leaves the class list equal to ThemeClasses of the old list, with exactly one theme class |
| `DarkMode.DefaultPreference` | context/DarkModeContext.tsx:18-20 | the default is the system dark preference with a window, false without |
| `DarkMode.InitialFlag` | context/DarkModeContext.tsx:18-21 | the provider's initial flag: false with no window, the system preference when nothing truthy is stored, the stored boolean otherwise |
| `DarkMode.UseDarkMode` | context/DarkModeContext.tsx:40-44 | fails with the "used outside of DarkModeProvider" error exactly when there is no provider, else returns the provider's value |
| `DarkMode.DarkModeProvider.Context` | context/DarkModeContext.tsx:37 | the context value carries the current flag, and useDarkMode under the provider returns exactly that flag |
| `DarkMode.DarkModeProvider.constructor` | context/DarkModeContext.tsx:17-31 | the flag is the hook's initial value from the default; storage and class list are then brought in line with it |
| `DarkMode.DarkModeProvider.ToggleDarkMode` | context/DarkModeContext.tsx:33-35 | the flag is negated, its serialisation stored under "isDarkMode" (with a window), and the class list re-themed |
| `DarkMode.ToggleTwice` | context/DarkModeContext.tsx:33-35 | two toggles restore the flag, the class list and the storage |
| `LandingPage.RemoveAll` | landing-page.tsx:138 | the filtered list lacks the id, keeps membership of every other id, is no longer, and is strictly shorter when the id was there |
| `LandingPage.Toggle` | landing-page.tsx:136-140 | the updater puts the id in the list exactly when it was absent; a present id shortens the list, an absent one lengthens it by one |
| `LandingPage.RemoveAllSpec` | landing-page.tsx:137-138 | the filtered list is a subsequence of the old one and holds every other id as often as before |
| `LandingPage.RemoveAllUnique` | landing-page.tsx:138 | any subsequence with those multiplicities is the filtered list |
| `LandingPage.RemoveAllNoDuplicates` | landing-page.tsx:138 | filtering keeps a duplicate-free list duplicate-free |
| `LandingPage.ToggleAbsent` | landing-page.tsx:139 | toggling an absent id appends it at the end and leaves the existing prefix unchanged |
| `LandingPage.TogglePresent` | landing-page.tsx:137-138 | toggling a present id removes every occurrence, keeps the rest in relative order and with their multiplicities |
| `LandingPage.ToggleFlipsMembership` | landing-page.tsx:135-141 | the toggled id's membership flips; every other id's membership is unchanged |
| `LandingPage.ToggleTwiceAbsent` | landing-page.tsx:135-141 | toggling the same absent id twice gives back the original list exactly |
| `LandingPage.ToggleTwicePresent` | landing-page.tsx:135-141 | toggling a present id twice moves it to the end: same ids, filtered list plus the id |
| `LandingPage.ToggleNoDuplicates` | landing-page.tsx:135-141 | a duplicate-free liked list stays duplicate-free after a toggle |
| `LandingPage.Advance` | landing-page.tsx:130 | a tick gives an index below 3, the next index or 0 after the last |
| `LandingPage.TicksAdvanceBy` | landing-page.tsx:128-133 | k ticks from a valid index i give (i + k) mod 3 |
| `LandingPage.FullCycle` | landing-page.tsx:130 | three ticks from any valid index return to it |
| `LandingPage.LandingPageState.constructor` | landing-page.tsx:35-37 | the liked list starts empty, the index at 0, the category at "all" |
| `LandingPage.LandingPageState.IsLiked` | landing-page.tsx:316 | a cabin is liked exactly when some position of the liked list holds its id (also line 487) |
| `LandingPage.LandingPageState.ToggleLike` | landing-page.tsx:135-141 | the liked list becomes Toggle of the old one, the id's liked flag flips, others' stay, no duplicates arise, nothing else changes |
| `LandingPage.LandingPageState.Tick` | landing-page.tsx:128-133 | the index becomes Advance of the old one and stays valid; nothing else changes |
| `LandingPage.LandingPageState.Select` | landing-page.tsx:737-740 | clicking indicator i (one of the three) sets the index to i; nothing else changes |
| `LandingPage.LandingPageState.SelectCategory` | landing-page.tsx:436-442 | the selected category becomes the clicked id; liked list and index unchanged |
| `LandingPage.LikeTwiceFromStart` | landing-page.tsx:135-141 | from the initial state, liking cabin 5 twice leaves the list empty |
| `LandingPage.CarouselRound` | landing-page.tsx:130 | from 0, three ticks return to 0, and selecting indicator 2 then leaves the index at 2 |

## Left out

- All markup, animation, scroll-linked transforms, images and icons: presentation only.
- The `setInterval` schedule (4000 ms) and its cleanup on unmount: time is a discrete `Tick`, and a torn-down component receives no ticks.
- `window.matchMedia`: the system preference is the boolean parameter `prefersDark`.
- General JSON: only the two boolean texts are modelled.
- `LocalStorage.InitialValue`: a truthy stored text other than exactly "true" or "false" is excluded by precondition. For such text the source would throw (malformed JSON), yield a non-boolean (other JSON such as `1` or `null`), or yield a boolean from padded text (`" true"`, `"false\n"`); the model represents none of the three.
- Storage failures: `localStorage.getItem` (hooks/useLocalStorageState.tsx:9) and `setItem` (line 15) can throw, for instance when storage is blocked or the quota is exceeded, and the source catches neither. In the model a window always comes with working storage.
- A changing key: the write-back effect also reruns when `key` changes (hooks/useLocalStorageState.tsx:17), writing the current value under the new key. The model holds the key constant, as the only caller passes the constant `"isDarkMode"` (context/DarkModeContext.tsx:20).
- Effects during server rendering: the theme effect is modelled as running whenever the flag is set; React skips effects on the server, which the model does not distinguish.
- React's re-render scheduling: each setter and the effects it triggers are one atomic method here (the hook's write-back runs before the theme effect, in declaration order).
- `searchQuery` (landing-page.tsx:34, :246-247): the search box's controlled value, used for nothing else.
- `DarkMode.DarkModeProvider.Context`: the context value in the source also carries `toggleDarkMode` (context/DarkModeContext.tsx:6-9, :37); here that operation is the provider's `ToggleDarkMode` method, not a field of the value, because a Dafny datatype cannot hold a method that changes the heap.
- Cabin ids are JavaScript numbers and Dafny `int`s here. The two differ on NaN, which `includes` (landing-page.tsx:137) finds but `filter` with `!==` (line 138) never removes; the only ids ever passed are the integer literals 1 to 3 (lines 57, 69, 81, 311, 482).
- `components/DarkModeToggle.tsx` (two icons chosen by the flag) and `app/layout.tsx` (metadata and provider wiring).
