/** The logic of scripts/script.js, the catalogue page: the per-anime
    watch-progress record, paged list fetching, the genre-id table, and the
    bookmark toggle and card marking. */
module Script {
  import opened Js
  import Bookmarks

  const ApiBase: string := "https://animetize-api-wgiz.onrender.com"

  // ---------------------------------------------------------------------
  // Watch progress: one record per anime under `anime_${animeId}_progress`
  // ---------------------------------------------------------------------

  function ProgressKey(animeId: string): string {
    "anime_" + animeId + "_progress"
  }

  /** Different anime never share a progress key. */
  lemma ProgressKeyInjective(a: string, b: string)
    ensures ProgressKey(a) == ProgressKey(b) ==> a == b
  {
    if ProgressKey(a) == ProgressKey(b) {
      var k := ProgressKey(a);
      assert |a| == |b|;
      assert a == k[6..6 + |a|];
      assert b == ProgressKey(b)[6..6 + |b|];
    }
  }

  /** No progress key is the bookmark key. */
  lemma ProgressKeyIsNotBookmarks(animeId: string)
    ensures ProgressKey(animeId) != Bookmarks.Key
  {
  }

  /** `{ episode, time }` as it reads back from its JSON text: a property
      whose value is undefined is omitted, and nested values are normalised
      the same way. */
  function ProgressRecord(episode: Value, time: Value): (r: Value)
    ensures r.Obj? && r.fields.Keys <= {"episode", "time"} && JsonValue(r)
    ensures "episode" in r.fields <==> !episode.Undefined?
    ensures "time" in r.fields <==> !time.Undefined?
    ensures Get(r, "episode") == Ok(Stringified(episode)) && Get(r, "time") == Ok(Stringified(time))
  {
    Stringified(Obj(map["episode" := episode, "time" := time]))
  }

  /** Values that JSON can hold read back exactly as they were saved. */
  lemma ProgressRecordJson(episode: Value, time: Value)
    requires JsonValue(episode) && JsonValue(time)
    ensures ProgressRecord(episode, time) == Obj(map["episode" := episode, "time" := time])
  {
    StringifiedJson(Obj(map["episode" := episode, "time" := time]));
  }

  /** `saveWatchProgress(animeId, episode, time)`: overwrites the one record
      of `animeId`, whatever episode it held, and no other key. */
  function SaveWatchProgress(store: Store, animeId: string, episode: Value, time: Value): (r: Store)
    ensures r.Keys == store.Keys + {ProgressKey(animeId)}
    ensures forall k :: k in store && k != ProgressKey(animeId) ==> r[k] == store[k]
  {
    store[ProgressKey(animeId) := ProgressRecord(episode, time)]
  }

  /** `getWatchProgress(animeId)`: the parsed record, or null when the key
      is absent. (The text "undefined" would make JSON.parse throw.) */
  function GetWatchProgress(store: Store, animeId: string): (r: Result<Value>)
    ensures ProgressKey(animeId) !in store ==> r == Ok(Null)
  {
    var key := ProgressKey(animeId);
    if key !in store then Ok(Null)
    else if store[key].Undefined? then Err(SyntaxError)
    else Ok(store[key])
  }

  /** Reading right after saving returns `{episode, time}`. */
  lemma GetAfterSave(store: Store, animeId: string, episode: Value, time: Value)
    ensures GetWatchProgress(SaveWatchProgress(store, animeId, episode, time), animeId)
      == Ok(ProgressRecord(episode, time))
    ensures JsonValue(episode) && JsonValue(time) ==>
      GetWatchProgress(SaveWatchProgress(store, animeId, episode, time), animeId)
        == Ok(Obj(map["episode" := episode, "time" := time]))
  {
    if JsonValue(episode) && JsonValue(time) {
      ProgressRecordJson(episode, time);
    }
  }

  /** Saving progress for one anime leaves every other anime's record as it was. */
  lemma SaveKeepsOtherAnime(store: Store, animeId: string, other: string, episode: Value, time: Value)
    requires other != animeId
    ensures GetWatchProgress(SaveWatchProgress(store, animeId, episode, time), other)
      == GetWatchProgress(store, other)
  {
    ProgressKeyInjective(animeId, other);
  }

  /** One record per anime: a later save, for any episode, replaces the earlier one. */
  lemma SaveOverwrites(store: Store, animeId: string, e1: Value, t1: Value, e2: Value, t2: Value)
    ensures SaveWatchProgress(SaveWatchProgress(store, animeId, e1, t1), animeId, e2, t2)
      == SaveWatchProgress(store, animeId, e2, t2)
  {
  }

  /** Progress and bookmarks live under different keys: saving progress
      does not change the bookmark list, and toggling a bookmark does not
      change any progress record. */
  lemma ProgressAndBookmarksIndependent(store: Store, animeId: string, episode: Value, time: Value, id: string)
    ensures Bookmarks.Read(SaveWatchProgress(store, animeId, episode, time)) == Bookmarks.Read(store)
    ensures Bookmarks.ToggleStored(store, id).Ok? ==>
      GetWatchProgress(Bookmarks.ToggleStored(store, id).value.store, animeId) == GetWatchProgress(store, animeId)
  {
    ProgressKeyIsNotBookmarks(animeId);
  }

  // ---------------------------------------------------------------------
  // fetchRoute(route, params, pageLimit): pages 1..pageLimit, concatenated
  // ---------------------------------------------------------------------

  /** The request for one page: `{ ...params, page }`. */
  function PageRequest(route: string, params: map<string, string>, page: nat): Request {
    Request(ApiBase, route, params["page" := Decimal(page)])
  }

  /** The loop's `page` replaces any `page` the caller put in `params`;
      every other parameter is kept; distinct pages are distinct requests. */
  lemma PageOverridesParams(route: string, params: map<string, string>, page: nat, other: nat)
    ensures var r := PageRequest(route, params, page);
      && r.base == ApiBase && r.path == route
      && r.query.Keys == params.Keys + {"page"}
      && r.query["page"] == Decimal(page)
      && (forall k :: k in params && k != "page" ==> r.query[k] == params[k])
    ensures page != other ==> PageRequest(route, params, page) != PageRequest(route, params, other)
  {
    if page != other {
      DecimalInjective(page, other);
    }
  }

  /** What one response adds to `results`: `results.concat(data.results)`
      spreads an array and appends any other value as one element; reading
      `results` of a null body throws. */
  function PageResults(response: Response): (r: Result<seq<Value>>)
    ensures r.Ok? <==> response.ok && !response.body.Null? && !response.body.Undefined?
    ensures !response.ok ==> r == Err(NetworkError)
    ensures response.ok && (response.body.Null? || response.body.Undefined?) ==> r == Err(TypeError)
    ensures r.Ok? ==> var results := Get(response.body, "results").value;
      r.value == if results.Arr? then results.items else [results]
  {
    if !response.ok then Err(NetworkError)
    else
      match Get(response.body, "results")
      case Err(e) => Err(e)
      case Ok(Arr(xs)) => Ok(xs)
      case Ok(v) => Ok([v])
  }

  function PageOutcome(net: Network, route: string, params: map<string, string>, page: nat): Result<seq<Value>> {
    PageResults(net(PageRequest(route, params, page)))
  }

  /** Pages 1..n all succeed. */
  predicate PagesOk(net: Network, route: string, params: map<string, string>, n: nat) {
    forall p :: 1 <= p <= n ==> PageOutcome(net, route, params, p).Ok?
  }

  /** Reference definition: the results of pages 1..n joined in page order. */
  function Gathered(net: Network, route: string, params: map<string, string>, n: nat): seq<Value>
    requires PagesOk(net, route, params, n)
  {
    if n == 0 then [] else Gathered(net, route, params, n - 1) + PageOutcome(net, route, params, n).value
  }

  /** The number of pages the loop `for (page = 1; page <= pageLimit; page++)` visits. */
  function PageCount(pageLimit: int): nat {
    if pageLimit < 1 then 0 else pageLimit
  }

  /** `fetchRoute(route, params, pageLimit)`: requests pages 1, 2, ... in
      order; the first failing page ends the run with an error and no
      results; otherwise the results of all pages, in page order. */
  method FetchRoute(net: Network, route: string, params: map<string, string>, pageLimit: int)
    returns (requested: seq<Request>, r: Result<seq<Value>>)
    ensures forall i :: 0 <= i < |requested| ==> requested[i] == PageRequest(route, params, i + 1)
    ensures pageLimit < 1 ==> requested == [] && r == Ok([])
    ensures r.Ok? <==> PagesOk(net, route, params, PageCount(pageLimit))
    ensures r.Ok? ==> |requested| == PageCount(pageLimit) && r.value == Gathered(net, route, params, PageCount(pageLimit))
    ensures r.Err? ==>
      && 1 <= |requested| <= pageLimit
      && PagesOk(net, route, params, |requested| - 1)
      && PageOutcome(net, route, params, |requested|) == Err(r.error)
  {
    requested := [];
    var results: seq<Value> := [];
    var page := 1;
    while page <= pageLimit
      invariant 1 <= page <= PageCount(pageLimit) + 1
      invariant |requested| == page - 1
      invariant forall i :: 0 <= i < |requested| ==> requested[i] == PageRequest(route, params, i + 1)
      invariant PagesOk(net, route, params, page - 1)
      invariant results == Gathered(net, route, params, page - 1)
    {
      var request := PageRequest(route, params, page);
      requested := requested + [request];
      var outcome := PageResults(net(request));
      assert outcome == PageOutcome(net, route, params, page);
      if outcome.Err? {
        r := Err(outcome.error);
        return;
      }
      assert PagesOk(net, route, params, page);
      results := results + outcome.value;
      page := page + 1;
    }
    r := Ok(results);
  }

  /** The results of the first k pages come first, unchanged, in the
      results of n >= k pages: concatenation follows request order. */
  lemma {:induction false} GatheredPrefix(net: Network, route: string, params: map<string, string>, k: nat, n: nat)
    requires k <= n && PagesOk(net, route, params, n)
    ensures PagesOk(net, route, params, k)
    ensures Gathered(net, route, params, k) <= Gathered(net, route, params, n)
  {
    if k < n {
      GatheredPrefix(net, route, params, k, n - 1);
    }
  }

  // ---------------------------------------------------------------------
  // fetchGenres: eight fixed slots filled by lower-cased title
  // ---------------------------------------------------------------------

  datatype Slot = Action | Adventure | Comedy | Drama | Sports | Isekai | Thriller | SliceOfLife

  /** The lower-case title that fills each slot. */
  function SlotTitle(slot: Slot): string {
    match slot
    case Action => "action"
    case Adventure => "adventure"
    case Comedy => "comedy"
    case Drama => "drama"
    case Sports => "sports"
    case Isekai => "isekai"
    case Thriller => "thriller"
    case SliceOfLife => "slice of life"
  }

  /** The slot a lower-cased title selects, if any. */
  function SlotFor(title: string): (r: Option<Slot>)
    ensures forall slot :: r == Some(slot) <==> title == SlotTitle(slot)
  {
    if title == "action" then Some(Action)
    else if title == "adventure" then Some(Adventure)
    else if title == "comedy" then Some(Comedy)
    else if title == "drama" then Some(Drama)
    else if title == "sports" then Some(Sports)
    else if title == "isekai" then Some(Isekai)
    else if title == "thriller" then Some(Thriller)
    else if title == "slice of life" then Some(SliceOfLife)
    else None
  }

  /** KELVIN SIGN, the one character outside A-Z that lower-cases to an
      ASCII letter. */
  const Kelvin: char := '\U{212A}'

  function LowerChar(c: char): char {
    if c == Kelvin then 'k'
    else if 'A' <= c <= 'Z' then (c as int + 32) as char
    else c
  }

  /** `toLowerCase()` as far as it can produce an ASCII letter: upper-case
      ASCII letters and the Kelvin sign are lowered; every other character
      is kept. */
  function ToLower(s: string): (r: string)
    ensures |r| == |s|
  {
    seq(|s|, i requires 0 <= i < |s| => LowerChar(s[i]))
  }

  /** Character by character: ASCII capitals move down by 32, the Kelvin
      sign becomes `k`, everything else is kept, and no capital remains. */
  lemma LowerCaseChars(s: string)
    ensures var r := ToLower(s);
      && (forall i :: 0 <= i < |s| && 'A' <= s[i] <= 'Z' ==> r[i] as int == s[i] as int + 32)
      && (forall i :: 0 <= i < |s| && s[i] == Kelvin ==> r[i] == 'k')
      && (forall i :: 0 <= i < |s| && !('A' <= s[i] <= 'Z') && s[i] != Kelvin ==> r[i] == s[i])
      && (forall i :: 0 <= i < |r| ==> !('A' <= r[i] <= 'Z'))
  {
  }

  /** Regression example for the Kelvin branch of `LowerChar`: a title
      spelled with the Kelvin sign still fills the `isekai` slot. */
  lemma KelvinTitleSelectsIsekai()
    ensures SlotFor(ToLower("ISE" + [Kelvin] + "AI")) == Some(Isekai)
  {
    assert ToLower("ISE" + [Kelvin] + "AI") == "isekai";
  }

  /** The genre-id table `genreIds`, one entry per slot. */
  type GenreIds = map<Slot, Value>

  const NoGenreIds: GenreIds := map[
    Action := Null, Adventure := Null, Comedy := Null, Drama := Null,
    Sports := Null, Isekai := Null, Thriller := Null, SliceOfLife := Null]

  /** `genre.title.toLowerCase()`: throws unless `genre` has a string title. */
  function GenreTitle(genre: Value): Result<string> {
    match Get(genre, "title")
    case Err(e) => Err(e)
    case Ok(Str(s)) => Ok(ToLower(s))
    case Ok(_) => Err(TypeError)
  }

  /** `genre` is a well-formed entry that selects `slot`. */
  predicate Selects(genre: Value, slot: Slot) {
    GenreTitle(genre) == Ok(SlotTitle(slot))
  }

  /** `genre.id` of an entry whose title could be read. */
  function GenreId(genre: Value): Value
    requires GenreTitle(genre).Ok?
  {
    Get(genre, "id").value
  }

  /** One `forEach` step: set the selected slot, if any. */
  function ApplyGenre(ids: GenreIds, genre: Value): Result<GenreIds> {
    match GenreTitle(genre)
    case Err(e) => Err(e)
    case Ok(title) =>
      match SlotFor(title)
      case None => Ok(ids)
      case Some(slot) => Ok(ids[slot := GenreId(genre)])
  }

  /** The table after `data.forEach(...)`, and the error that stopped it
      early, if any. Slots set before the error keep their new ids. */
  datatype GenreRun = GenreRun(ids: GenreIds, failure: Option<Error>)

  function ApplyGenres(ids: GenreIds, genres: seq<Value>): GenreRun
    decreases |genres|
  {
    if |genres| == 0 then GenreRun(ids, None)
    else
      var before := ApplyGenres(ids, genres[..|genres| - 1]);
      if before.failure.Some? then before
      else
        match ApplyGenre(before.ids, genres[|genres| - 1])
        case Err(e) => GenreRun(before.ids, Some(e))
        case Ok(next) => GenreRun(next, None)
  }

  /** Reference definition: the index of the last entry that selects
      `slot`, or -1 when none does. */
  function LastSelecting(genres: seq<Value>, slot: Slot): (j: int)
    ensures -1 <= j < |genres|
    ensures 0 <= j ==> Selects(genres[j], slot)
    ensures forall k :: j < k < |genres| ==> !Selects(genres[k], slot)
  {
    if |genres| == 0 then -1
    else
      var n := |genres| - 1;
      if Selects(genres[n], slot) then n
      else
        var front := genres[..n];
        assert forall k :: 0 <= k < n ==> front[k] == genres[k];
        LastSelecting(front, slot)
  }

  /** One step on a well-formed entry sets exactly the slot it selects. */
  lemma ApplyGenreSlot(ids: GenreIds, genre: Value, slot: Slot)
    requires GenreTitle(genre).Ok?
    ensures ApplyGenre(ids, genre).Ok?
    ensures Selects(genre, slot) ==>
      slot in ApplyGenre(ids, genre).value && ApplyGenre(ids, genre).value[slot] == GenreId(genre)
    ensures !Selects(genre, slot) ==>
      (slot in ApplyGenre(ids, genre).value <==> slot in ids)
      && (slot in ids ==> ApplyGenre(ids, genre).value[slot] == ids[slot])
  {
  }

  /** When every entry has a string title: no error, a slot holds the id of
      the LAST entry that selects it, and a slot no entry selects keeps its
      value. */
  lemma {:induction false} GenresLastWins(ids: GenreIds, genres: seq<Value>, slot: Slot)
    requires forall i :: 0 <= i < |genres| ==> GenreTitle(genres[i]).Ok?
    ensures ApplyGenres(ids, genres).failure == None
    ensures var j := LastSelecting(genres, slot);
      0 <= j ==> slot in ApplyGenres(ids, genres).ids && ApplyGenres(ids, genres).ids[slot] == GenreId(genres[j])
    ensures LastSelecting(genres, slot) == -1 ==>
      (slot in ApplyGenres(ids, genres).ids <==> slot in ids)
      && (slot in ids ==> ApplyGenres(ids, genres).ids[slot] == ids[slot])
  {
    if |genres| != 0 {
      var n := |genres| - 1;
      var front := genres[..n];
      assert forall i :: 0 <= i < n ==> front[i] == genres[i];
      GenresLastWins(ids, front, slot);
      var before := ApplyGenres(ids, front);
      ApplyGenreSlot(before.ids, genres[n], slot);
    }
  }

  /** The first entry without a string title stops the loop with its error;
      the slots set by the entries before it stay set. */
  lemma {:induction false} GenresStopAtFirstFailure(ids: GenreIds, genres: seq<Value>, k: nat)
    requires k < |genres| && GenreTitle(genres[k]).Err?
    requires forall i :: 0 <= i < k ==> GenreTitle(genres[i]).Ok?
    ensures ApplyGenres(ids, genres) == GenreRun(ApplyGenres(ids, genres[..k]).ids, Some(GenreTitle(genres[k]).error))
  {
    var n := |genres| - 1;
    if k == n {
      var front := genres[..k];
      assert forall i :: 0 <= i < k ==> front[i] == genres[i];
      GenresLastWins(ids, front, Action);
      assert ApplyGenres(ids, front).failure == None;
      assert ApplyGenre(ApplyGenres(ids, front).ids, genres[k]) == Err(GenreTitle(genres[k]).error);
    } else {
      var front := genres[..n];
      assert front[..k] == genres[..k];
      GenresStopAtFirstFailure(ids, front, k);
    }
  }

  /** The position of the first entry without a string title, or -1. */
  function FirstUntitled(genres: seq<Value>): (k: int)
    ensures -1 <= k < |genres|
    ensures forall i :: 0 <= i < |genres| && (k == -1 || i < k) ==> GenreTitle(genres[i]).Ok?
    ensures 0 <= k ==> GenreTitle(genres[k]).Err?
  {
    if |genres| == 0 then -1
    else
      var k := FirstUntitled(genres[..|genres| - 1]);
      if k != -1 then k
      else if GenreTitle(genres[|genres| - 1]).Err? then |genres| - 1
      else -1
  }

  /** The loop runs to the end exactly when every entry has a string title. */
  lemma GenresFailIff(ids: GenreIds, genres: seq<Value>)
    ensures ApplyGenres(ids, genres).failure == None <==>
      forall i :: 0 <= i < |genres| ==> GenreTitle(genres[i]).Ok?
  {
    var k := FirstUntitled(genres);
    if k == -1 {
      GenresLastWins(ids, genres, Action);
    } else {
      GenresStopAtFirstFailure(ids, genres, k);
    }
  }

  /** The one request `fetchGenres` makes. */
  const GenreListRequest: Request := Request(ApiBase, "genre/list", map[])

  /** What `fetchGenres` reports. */
  datatype GenreStatus =
    | Loaded
    | InvalidGenres          // "Failed to load genres."
    | GenresFailed(error: Error)   // "Error fetching genres: ..."

  datatype GenreOutcome = GenreOutcome(ids: GenreIds, status: GenreStatus)

  /** `fetchGenres()` applied to the table `ids`. */
  function FetchGenres(net: Network, ids: GenreIds): (r: GenreOutcome)
    ensures !net(GenreListRequest).ok ==> r == GenreOutcome(ids, GenresFailed(NetworkError))
    ensures net(GenreListRequest).ok && !net(GenreListRequest).body.Arr? ==> r == GenreOutcome(ids, InvalidGenres)
    ensures r.status.Loaded? ==> net(GenreListRequest).ok && net(GenreListRequest).body.Arr?
    ensures net(GenreListRequest).ok && net(GenreListRequest).body.Arr? ==>
      var run := ApplyGenres(ids, net(GenreListRequest).body.items);
      && r.ids == run.ids
      && (r.status == Loaded <==> run.failure == None)
      && (run.failure.Some? ==> r.status == GenresFailed(run.failure.value))
  {
    var response := net(GenreListRequest);
    if !response.ok then GenreOutcome(ids, GenresFailed(NetworkError))
    else
      match response.body
      case Arr(genres) =>
        var run := ApplyGenres(ids, genres);
        GenreOutcome(run.ids, if run.failure.Some? then GenresFailed(run.failure.value) else Loaded)
      case _ => GenreOutcome(ids, InvalidGenres)
  }

  /** The page's one genre fetch, from the all-null table: when the list
      loads and every entry has a string title, each slot ends up holding
      the id of the last entry selecting it, or null when none does. */
  lemma GenresAtLoad(net: Network, slot: Slot)
    requires net(GenreListRequest).ok && net(GenreListRequest).body.Arr?
    requires var genres := net(GenreListRequest).body.items;
      forall i :: 0 <= i < |genres| ==> GenreTitle(genres[i]).Ok?
    ensures var genres := net(GenreListRequest).body.items;
      var r := FetchGenres(net, NoGenreIds);
      var j := LastSelecting(genres, slot);
      && r.status == Loaded
      && slot in r.ids
      && r.ids[slot] == (if j == -1 then Null else GenreId(genres[j]))
  {
    GenresLastWins(NoGenreIds, net(GenreListRequest).body.items, slot);
  }

  // ---------------------------------------------------------------------
  // Bookmarks on the catalogue page
  // ---------------------------------------------------------------------

  /** The visible effect of a toggle: the stored list, whether the clicked
      icon is now marked, and the popup text. */
  datatype BookmarkClick = BookmarkClick(store: Store, marked: bool, popup: string)

  /** `toggleBookmark(event, animeId)`. */
  function ToggleBookmark(store: Store, animeId: string): (r: Result<BookmarkClick>)
    ensures r.Err? <==> Bookmarks.Read(store).Err?
    ensures r.Ok? ==> Bookmarks.Read(r.value.store) == Ok(Bookmarks.Toggle(Bookmarks.Read(store).value, animeId))
    ensures r.Ok? ==> (r.value.marked <==> animeId !in Bookmarks.Read(store).value)
    ensures r.Ok? && r.value.marked ==> r.value.popup == animeId + " has been added!"
    ensures r.Ok? && !r.value.marked ==> r.value.popup == animeId + " has been removed!"
    ensures r.Ok? ==> forall k :: k != Bookmarks.Key ==> (k in r.value.store <==> k in store)
    ensures r.Ok? ==> forall k :: k in store && k != Bookmarks.Key ==> r.value.store[k] == store[k]
  {
    match Bookmarks.ToggleStored(store, animeId)
    case Err(e) => Err(e)
    case Ok(t) =>
      Ok(BookmarkClick(t.store, t.added, animeId + (if t.added then " has been added!" else " has been removed!")))
  }

  /** `loadBookmarks()`: for the cards with these `data-anime-id`s, whether
      each card's icon is marked. */
  function LoadBookmarks(store: Store, cardIds: seq<string>): (r: Result<seq<bool>>)
    ensures r.Err? <==> Bookmarks.Read(store).Err?
    ensures r.Ok? ==> |r.value| == |cardIds|
    ensures r.Ok? ==> forall i :: 0 <= i < |cardIds| ==> (r.value[i] <==> cardIds[i] in Bookmarks.Read(store).value)
    ensures Bookmarks.Key !in store ==> r.Ok? && forall i :: 0 <= i < |cardIds| ==> !r.value[i]
  {
    match Bookmarks.Read(store)
    case Err(e) => Err(e)
    case Ok(list) => Ok(seq(|cardIds|, i requires 0 <= i < |cardIds| => cardIds[i] in list))
  }

  /** After a click on a bookmark icon, re-marking the cards agrees with the
      click: a card showing the clicked anime is marked exactly when the
      click marked it (on a duplicate-free list), and every other card's
      mark is as it was before the click. */
  lemma LoadAfterToggle(store: Store, animeId: string, cardIds: seq<string>)
    requires ToggleBookmark(store, animeId).Ok?
    requires Bookmarks.NoDuplicates(Bookmarks.Read(store).value)
    ensures var click := ToggleBookmark(store, animeId).value;
      var marks := LoadBookmarks(click.store, cardIds).value;
      var before := LoadBookmarks(store, cardIds).value;
      && LoadBookmarks(click.store, cardIds).Ok?
      && (forall i :: 0 <= i < |cardIds| && cardIds[i] == animeId ==> marks[i] == click.marked)
      && (forall i :: 0 <= i < |cardIds| && cardIds[i] != animeId ==> marks[i] == before[i])
  {
  }

  /** With the clicked id stored twice, the click unmarks its icon and says
      "removed", yet the list still holds the other copy, so re-marking the
      cards marks that id again. */
  lemma LoadAfterToggleDuplicate(store: Store, animeId: string, cardIds: seq<string>)
    requires ToggleBookmark(store, animeId).Ok?
    requires Bookmarks.Count(Bookmarks.Read(store).value, animeId) >= 2
    ensures var click := ToggleBookmark(store, animeId).value;
      && !click.marked
      && click.popup == animeId + " has been removed!"
      && LoadBookmarks(click.store, cardIds).Ok?
      && forall i :: 0 <= i < |cardIds| && cardIds[i] == animeId ==> LoadBookmarks(click.store, cardIds).value[i]
  {
    var list := Bookmarks.Read(store).value;
    Bookmarks.CountPositive(list, animeId);
    Bookmarks.CountPositive(Bookmarks.Toggle(list, animeId), animeId);
  }
}
