# Anime catalogue front-end: the bookkeeping behind the pages

This project models, in Dafny, the logic of three page scripts of a
browser front-end for an anime catalogue, and proves properties about that
logic. The scripts are `scripts/script.js` (catalogue page),
`scripts/history.js` (bookmarks page) and `scripts/Watching.js` (player
page). The logic modelled is:

- the bookmark list: a JSON array of anime ids under the `bookmarks` key,
  toggled by append-or-remove-first-occurrence;
- the watch-progress record: one `{episode, time}` record per anime under
  `anime_${animeId}_progress`;
- paged list fetching: pages `1..pageLimit`, concatenated in page order,
  aborted by the first failing page;
- the genre-id table: eight fixed slots filled by matching lower-cased
  genre titles;
- the bookmarks page: one `info/{id}` fetch per stored id, in stored order,
  skipping the ids that fail;
- the player page: the episode id taken from an episode url, the episode
  list, the default stream, the quality buttons, and what the page starts
  on load.

Two abstractions stand in for the browser:

- `localStorage` is a `map<string, Value>`. Each key holds the value its
  JSON text parses to.
- `fetch` is a total function `Network = Request -> Response`. A
  `Response` carries `ok` and the parsed body.

`Js.Value` is the JavaScript value domain these scripts touch. It covers
undefined, null, booleans, numbers, strings, arrays and objects. Property
access (`Js.Get`) throws on null and undefined. Truthiness (`Js.Truthy`)
follows JavaScript's rules. Each thrown exception becomes an `Err` of
`Js.Result`.

Modules follow the scripts. `Js` is the value and runtime model.
`Bookmarks` holds the list logic that `script.js` and `history.js` both
duplicate. `Script`, `History` and `Watching` hold one page script each.

Four facts about the code shape the model:

- Progress is keyed by anime only. Any save overwrites the one record,
  whatever the episode.
- The default stream is `sources[0]`, not the highest quality.
- Bookmarks are a list that can hold duplicates, not a set.
- An empty `episodeUrl` or `id` query parameter is falsy, so it triggers
  nothing.

## Model

| member | source | states |
|---|---|---|
| Bookmarks.IndexOf | scripts/script.js:188 | `indexOf` gives -1 exactly when the id is absent; otherwise it gives the first position holding the id |
| Bookmarks.RemoveAt | scripts/script.js:191 | `splice(i, 1)` drops position `i` only: the entries before it stay in place and the ones after it move down by one |
| Bookmarks.Toggle | scripts/script.js:188-199 | An absent id is appended at the end. A present id loses exactly one copy, and the length drops by one. Membership of the id flips when the list held at most one copy |
| Bookmarks.IndexOfFirst | scripts/script.js:188 | A position holding the id with no earlier copy is the position `indexOf` returns |
| Bookmarks.ToggleRemovesFirst | scripts/script.js:188-191 | The copy a toggle removes is the first one: the toggled list is the list with its first occurrence of the id cut out, whatever copies follow |
| Bookmarks.ToggleKeepsOthers | scripts/script.js:188-196 | Every other id keeps its membership and its relative order: dropping the toggled id before and after the toggle gives the same list |
| Bookmarks.ToggleMultiset | scripts/script.js:188-196 | As a bag, a toggle adds or removes exactly one copy of the id and changes nothing else |
| Bookmarks.ToggleNoDuplicates | scripts/script.js:188-196 | A duplicate-free list stays duplicate-free after a toggle |
| Bookmarks.ToggleTwiceAbsent | scripts/script.js:188-196 | Toggling an absent id twice restores the list exactly |
| Bookmarks.ToggleTwicePresent | scripts/script.js:188-196 | Toggling a once-stored id twice restores membership but moves the id to the end: the other ids in order, then the id |
| Bookmarks.Read | scripts/script.js:187 | A missing `bookmarks` key reads as the empty list, and so does a stored falsy value other than the text "undefined", which makes `JSON.parse` throw. A stored array of strings reads as that list. Reading fails exactly when the stored value is "undefined" or a truthy value other than an array of strings |
| Bookmarks.Write | scripts/script.js:200 | Persisting the list touches only the `bookmarks` key |
| Bookmarks.ReadWrite | scripts/history.js:57-68 | The list that is written is the list that is read back |
| Bookmarks.ToggleStored | scripts/history.js:57-68 | A toggle fails exactly when the stored list cannot be read, and then nothing is written. Otherwise exactly the toggled list is persisted, `added` holds iff the id was absent, and every other key is unchanged |
| Script.ProgressKeyInjective | scripts/script.js:177 | Different anime never share a progress key |
| Script.ProgressRecord | scripts/script.js:173-177 | The stored record is an object with only `episode` and `time`, and it holds no undefined anywhere. A field is present iff its value is not undefined, as `JSON.stringify` omits undefined. Reading a field back gives the value passed, normalised as its JSON text reads back |
| Script.ProgressRecordJson | scripts/script.js:173-177 | A record whose values JSON can hold exactly reads back as `{episode, time}` with exactly those values |
| Js.StringifiedJson | scripts/script.js:177 | A value with no undefined inside is unchanged by its JSON round trip |
| Script.SaveWatchProgress | scripts/script.js:172-178 | A save writes the anime's one progress key and leaves every other key as it was |
| Script.GetWatchProgress | scripts/script.js:180-183 | An absent progress key yields null |
| Script.GetAfterSave | scripts/script.js:172-183 | Reading right after a save returns the stored record. For values JSON can hold exactly, that is `{episode, time}` with the values passed |
| Script.SaveKeepsOtherAnime | scripts/script.js:172-183 | Saving progress for one anime leaves every other anime's reading unchanged |
| Script.SaveOverwrites | scripts/script.js:172-178 | There is one record per anime: a later save, for any episode, replaces the earlier one |
| Script.ProgressAndBookmarksIndependent | scripts/script.js:172-200 | Saving progress does not change the bookmark list, and toggling a bookmark does not change any progress reading |
| Script.PageOverridesParams | scripts/script.js:49-51 | Each page request carries the loop's `page`, which overrides a caller-supplied `page`; every other parameter is kept; different pages give different requests |
| Script.PageResults | scripts/script.js:52-57 | A page contributes results iff its response is ok and its body is not null. A non-ok response throws the network error, and a null body throws on `.results`. An array of results is spread, and any other value is added as one element, as `concat` does |
| Script.FetchRoute | scripts/script.js:47-60 | Pages are requested in order 1, 2, .... A `pageLimit` below 1 gives `[]` with no request. Success holds iff every page 1..pageLimit succeeds, and the result is those pages' results joined in page order. On failure, the run stops at the first failing page with that page's error and returns no partial result |
| Script.GatheredPrefix | scripts/script.js:57 | The results of the first k pages come first, unchanged, in the results of n >= k pages |
| Script.SlotFor | scripts/script.js:28-35 | A lower-cased title selects a slot iff it equals that slot's fixed name, with "slice of life" selecting `sliceOfLife` |
| Script.LowerCaseChars | scripts/script.js:27 | Lower-casing keeps the length, lowers every ASCII capital and the Kelvin sign (to `k`), keeps every other character, and leaves no ASCII capital |
| Script.LastSelecting | scripts/script.js:26-36 | Reference definition: the index of the last genre entry that selects a slot, or -1 when none does |
| Script.ApplyGenreSlot | scripts/script.js:27-35 | One `forEach` step sets exactly the slot its title selects, to that entry's `id`, and changes no other slot |
| Script.GenresLastWins | scripts/script.js:25-36 | When every entry has a string title there is no error. A slot ends up holding the id of the last entry selecting it. A slot that no entry selects keeps its value |
| Script.GenresStopAtFirstFailure | scripts/script.js:26-27 | The first entry without a string title stops the loop with its error. The slots set by earlier entries stay set |
| Script.GenresFailIff | scripts/script.js:26-36 | The `forEach` over the genre list runs to the end exactly when every entry has a string title |
| Script.FetchGenres | scripts/script.js:16-45 | A non-ok response leaves the table unchanged and reports a fetch error. A non-array body leaves the table unchanged and reports "Failed to load genres.". An array body gives the table the `forEach` leaves, reported as loaded iff the loop ran to the end, and otherwise as the error that stopped it |
| Script.GenresAtLoad | scripts/script.js:5-36 | From the all-null initial table, a loaded list of titled entries leaves each slot holding the id of the last entry selecting it, or null when none does |
| Script.ToggleBookmark | scripts/script.js:185-202 | The stored list becomes the toggled list, and every other storage key is kept. The icon is marked iff the id was absent. The popup reads "<id> has been added!" or "<id> has been removed!" to match |
| Script.LoadBookmarks | scripts/script.js:204-215 | There is one mark per card, and a card is marked iff its id is in the stored list. With no `bookmarks` key, no card is marked |
| Script.LoadAfterToggle | scripts/script.js:185-214 | On a duplicate-free list, re-marking the cards after a click agrees with it: cards for the clicked id show the click's mark, and every other card keeps its earlier mark |
| Script.LoadAfterToggleDuplicate | scripts/script.js:185-214 | With the clicked id stored at least twice, the click unmarks its icon and pops up "removed", yet re-marking marks every card for that id again |
| History.FetchRoute | scripts/history.js:3-13 | A single request that throws iff the response is not ok. Otherwise it returns the parsed body unchanged |
| History.Renderable | scripts/history.js:35-44 | When the card template renders, every property read succeeds, `id`, `image` and `title` convert to text, so do `type` and `releaseDate` when truthy, and a truthy `genres` is an array whose items convert to text |
| History.PlainRenderable | scripts/history.js:35-44 | For data with no own `toString` key anywhere, the card renders iff the body is neither null nor undefined and `genres` is falsy or an array |
| History.Fetched | scripts/history.js:33-48 | An id gets a card iff its `info/{id}` fetch is ok and its card can be rendered. The card is the fetched body |
| History.DisplayBookmarkedAnime | scripts/history.js:26-53 | An unreadable list throws before any fetch. An empty list shows "No bookmarked anime." with no fetch. Otherwise there is one `info/{id}` request per stored id in stored order, and the view lists the cards shown and the ids skipped |
| History.ShownOrSkipped | scripts/history.js:31-49 | Every stored id is either shown or skipped. The skipped ids are exactly the stored ids whose fetch fails, so a failure does not stop the loop |
| History.ShownInOrder | scripts/history.js:32-45 | Cards follow stored order: the cards for `a + b` are the cards for `a`, then those for `b` |
| History.AllShown | scripts/history.js:32-45 | When every fetch succeeds there is exactly one card per id, each the fetched anime of that id, and nothing is skipped |
| History.ToggleBookmark | scripts/history.js:55-70 | The toggled list is persisted, and no other key changes. The page then re-renders from the new list, with one request per id of the new list in order. An unreadable list writes and renders nothing |
| Watching.Split | scripts/Watching.js:38 | `split('/')` yields at least one piece, and no piece holds the separator |
| Watching.JoinSplit | scripts/Watching.js:38 | Joining the pieces of a split gives back the url |
| Watching.SplitJoin | scripts/Watching.js:38 | Splitting joined separator-free pieces gives back the pieces |
| Watching.LastPiece | scripts/Watching.js:38 | The last piece of a split is a suffix of the string, and it is preceded by a separator whenever the string holds one |
| Watching.EpisodeId | scripts/Watching.js:38 | The episode id is a suffix of the url with no `/`, and it follows the last `/` when there is one. It is the whole url when there is no `/`, and empty when the url ends in `/` |
| Watching.Cards | scripts/Watching.js:26-30 | Building cards succeeds iff every episode can be read and its `url` and `number` convert to text. It then gives exactly one card per episode, in input order, with that episode's number and url |
| Watching.DisplayEpisodes | scripts/Watching.js:18-34 | "No episodes available" is shown iff `episodes` is falsy or has length 0. A listed view requires a non-empty array and has one card per episode in order, and it autoplays `episodes[0].url` |
| Watching.FetchAnimeInfo | scripts/Watching.js:3-16 | A non-ok response leaves the container untouched. A null body throws on `data.episodes` and also leaves it untouched. Otherwise the body's `episodes` is displayed, so an array or string body, whose `episodes` is undefined, shows "No episodes available" |
| Watching.ShowAnime | scripts/Watching.js:3-33 | With no episode list shown, the player is unchanged. Otherwise `episodes[0]` is watched |
| Watching.PlainListable | scripts/Watching.js:26-28 | For data with no own `toString` key anywhere, an episode lists and a source labels iff it is neither null nor undefined |
| Watching.ButtonsFor | scripts/Watching.js:103-108 | Buttons are built one per source, in order, until the first source that is null or undefined or whose `quality` does not convert to text. Each button is labelled with and bound to its own source |
| Watching.CreateQualityButtons | scripts/Watching.js:99-109 | Old buttons are dropped. An array of sources whose `quality` converts to text gives exactly one button per source, in input order. A non-array gives no buttons and an error |
| Watching.SetVideoSource | scripts/Watching.js:42-66 | A non-ok response, or a missing or empty `sources`, changes nothing, and so does an unreadable `sources[0]` or `sources[0].url`, or a `sources[0].url` that the log line cannot turn into text. Past those guards the buttons are rebuilt: an array of labelled sources gives one button each and `sources[0].url` plays. A truthy non-array `sources` clears the buttons and plays nothing. A later source that cannot be labelled leaves the buttons built before it and plays nothing. The buttons change only to what `createQualityButtons` built, and the player changes only to `sources[0].url` after the button loop completes |
| Watching.WatchEpisode | scripts/Watching.js:36-40 | A string url loads the source of its extracted episode id. Any other value throws and changes nothing |
| Watching.OnLoad | scripts/Watching.js:111-128 | A present, non-empty `episodeUrl` loads its extracted id. Anime info is fetched iff `id` is present and non-empty |

## Left out

- HLS and video-element playback (`setPlayerSource`, scripts/Watching.js:68-97). It wraps an external player library and its event callbacks. The model records only the url handed to the player.
- HTML templating and DOM mutation are modelled by their outcome only. Examples are the cards, containers and classes. The model leaves out popup timers, scrolling and the 300 ms debounced search. These are presentation and timing.
- The search display path (scripts/script.js:103-127) is left out. It reads `.results` off the already-flattened array returned by `fetchRoute`.
- The re-fetch branch of `displayGenreAnime` (scripts/script.js:89-101) is left out. It never re-reads the refreshed id.
- The HTML pages and `Anime.js` / `scripts/Anime.js` are not part of this model. They render info and navigate.
- `displayBookmarkedAnime()` at the end of script.js's `toggleBookmark` (scripts/script.js:201) is left out. The function is defined in history.js, so whether the call resolves depends on which scripts a page loads, and the HTML is not part of this model. It runs after the write in any case.
- JSON text is not modelled. Storage holds parsed values (a progress record is normalised by `Js.Stringified` as its text would read back), and JSON.parse syntax errors on hand-edited storage are not modelled, except the text "undefined".
- A `fetch` rejection and a response body that is not JSON are folded into `ok == false`. At every call site modelled, both throw before any effect.
- The network is a function of the request, so two identical requests in one run get the same response. This matters only for duplicate ids on the bookmarks page.
- Bookmarks.Read: a stored truthy value that is not an array of strings reads as the `Unsupported` error. The browser would instead go on with string `includes`, `for...of` over characters, and so on. No script in this model ever writes such a value.
- Script.ToLower lowers ASCII capitals and the Kelvin sign (U+212A), the only character outside A-Z that `toLowerCase` maps to an ASCII letter. Other non-ASCII letters are kept as they are, whereas `toLowerCase` maps them to other non-ASCII text (for example U+0130 to `i` plus a combining dot). Either way the result holds a non-ASCII character and matches no slot name, so slot selection is unaffected.
- Script.FetchRoute takes `pageLimit` as an integer. A fractional `pageLimit` is not modelled. Query-string encoding and parameter order are abstracted into a map.
- Js.Get reads `length` of a string as its number of code points. JavaScript counts UTF-16 units. This only affects the non-array `episodes`/`sources` paths.
- Watching.OnLoad: `URLSearchParams` decoding and repeated keys are abstracted into a map. The two loads it starts are asynchronous and may interleave. The model records what is started, not the interleaving.
- History.ToggleBookmark: each run of `displayBookmarkedAnime` is treated as atomic. In scripts/history.js:69 the re-render is started without being awaited, and the page-load run (scripts/history.js:72-74) may still be waiting on a fetch (scripts/history.js:34). Two runs can then interleave. For example, with `[x, y]` stored, a click on `x` while `y`'s fetch is pending makes the new run clear the container and fetch `y`, and both runs append a card for `y`. The model does not show such doubled cards.
- Script.LoadAfterToggle: proved only for a duplicate-free list. With the clicked id stored twice, the icon and the re-marked cards disagree, as Script.LoadAfterToggleDuplicate states.
- Text conversion is modelled by `Js.Printable`: a parsed object with its own `toString` key throws, because JSON cannot make that key callable, and every other parsed value converts.
- Console logging and the text of engine-generated error messages are not modelled.
