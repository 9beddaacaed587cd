/** The logic of scripts/history.js, the bookmarks page: one `info/{id}`
    fetch per stored id, in stored order, skipping the ids that fail, and
    the page's own copy of the bookmark toggle, which re-renders the list. */
module History {
  import opened Js
  import Bookmarks

  const ApiBase: string := "https://animetize-api-wgiz.onrender.com"

  /** `fetchRoute(route, params)` of this page: a single request whose
      parsed body is returned as it is; a non-ok response throws. */
  function FetchRoute(net: Network, route: string, params: map<string, string>): (r: Result<Value>)
    ensures r.Ok? <==> net(Request(ApiBase, route, params)).ok
    ensures r.Ok? ==> r.value == net(Request(ApiBase, route, params)).body
    ensures r.Err? ==> r.error == NetworkError
  {
    var response := net(Request(ApiBase, route, params));
    if response.ok then Ok(response.body) else Err(NetworkError)
  }

  function InfoRequest(animeId: string): Request {
    Request(ApiBase, "info/" + animeId, map[])
  }

  /** The card template evaluates `anime.id`, `anime.image`, `anime.title`,
      `anime.type || 'TV'`, `anime.releaseDate || ''` and, when `genres` is
      truthy, `anime.genres.join(', ')`, turning each into text. Reading a
      property of null or undefined throws, only an array has `join`, and
      text conversion throws for a value that is not `Printable`. */
  predicate Renderable(anime: Value): (ok: bool)
    ensures ok ==> forall key :: Get(anime, key).Ok?
    ensures ok ==> forall key :: key in {"id", "image", "title"} ==> Printable(Get(anime, key).value)
    ensures ok ==> forall key :: key in {"type", "releaseDate"} && Truthy(Get(anime, key).value) ==>
      Printable(Get(anime, key).value)
    ensures ok ==> Truthy(Get(anime, "genres").value) ==>
      Get(anime, "genres").value.Arr? && Printable(Get(anime, "genres").value)
  {
    && !anime.Undefined?
    && !anime.Null?
    && Printable(Get(anime, "id").value)
    && Printable(Get(anime, "image").value)
    && Printable(Get(anime, "title").value)
    && (Truthy(Get(anime, "type").value) ==> Printable(Get(anime, "type").value))
    && (Truthy(Get(anime, "releaseDate").value) ==> Printable(Get(anime, "releaseDate").value))
    && var genres := Get(anime, "genres").value;
       !Truthy(genres) || (genres.Arr? && Printable(genres))
  }

  /** For plain data the only way a fetched body fails to render is a null
      or undefined body, or a truthy `genres` that is not an array. */
  lemma PlainRenderable(anime: Value)
    requires Plain(anime)
    ensures Renderable(anime) <==>
      !anime.Undefined? && !anime.Null? && (!Truthy(Get(anime, "genres").value) || Get(anime, "genres").value.Arr?)
  {
    if anime.Obj? {
      forall key | key in anime.fields
        ensures Printable(anime.fields[key])
      {
        PlainPrintable(anime.fields[key]);
      }
    }
  }

  /** The anime one loop iteration shows, or the error its `catch` reports. */
  function Fetched(net: Network, animeId: string): (r: Result<Value>)
    ensures r.Ok? ==> Renderable(r.value) && net(InfoRequest(animeId)).ok && r.value == net(InfoRequest(animeId)).body
    ensures net(InfoRequest(animeId)).ok && Renderable(net(InfoRequest(animeId)).body) ==> r.Ok?
  {
    match FetchRoute(net, "info/" + animeId, map[])
    case Err(e) => Err(e)
    case Ok(anime) => if Renderable(anime) then Ok(anime) else Err(TypeError)
  }

  /** Reference definitions: the cards appended and the ids skipped when
      the loop runs over `ids`, in order. */
  function Shown(net: Network, ids: seq<string>): seq<Value> {
    if |ids| == 0 then []
    else
      var last := Fetched(net, ids[|ids| - 1]);
      Shown(net, ids[..|ids| - 1]) + (if last.Ok? then [last.value] else [])
  }

  function Skipped(net: Network, ids: seq<string>): seq<string> {
    if |ids| == 0 then []
    else
      var last := Fetched(net, ids[|ids| - 1]);
      Skipped(net, ids[..|ids| - 1]) + (if last.Ok? then [] else [ids[|ids| - 1]])
  }

  /** The page after `displayBookmarkedAnime()`. */
  datatype BookmarkView =
    | Unreadable(error: Error)                          // thrown before the container is touched
    | NoBookmarks                                       // "No bookmarked anime."
    | Listed(cards: seq<Value>, skipped: seq<string>)   // container cleared, then cards appended

  /** `displayBookmarkedAnime()`: the requests issued and the resulting view. */
  method DisplayBookmarkedAnime(store: Store, net: Network) returns (requested: seq<Request>, view: BookmarkView)
    ensures Bookmarks.Read(store).Err? ==> requested == [] && view == Unreadable(Bookmarks.Read(store).error)
    ensures Bookmarks.Read(store) == Ok([]) ==> requested == [] && view == NoBookmarks
    ensures Bookmarks.Read(store).Ok? && Bookmarks.Read(store).value != [] ==>
      var ids := Bookmarks.Read(store).value;
      && |requested| == |ids|
      && (forall i :: 0 <= i < |ids| ==> requested[i] == InfoRequest(ids[i]))
      && view == Listed(Shown(net, ids), Skipped(net, ids))
  {
    var read := Bookmarks.Read(store);
    if read.Err? {
      return [], Unreadable(read.error);
    }
    var ids := read.value;
    if |ids| == 0 {
      return [], NoBookmarks;
    }
    requested := [];
    var cards: seq<Value> := [];
    var skipped: seq<string> := [];
    var i := 0;
    while i < |ids|
      invariant 0 <= i <= |ids|
      invariant |requested| == i
      invariant forall k :: 0 <= k < i ==> requested[k] == InfoRequest(ids[k])
      invariant cards == Shown(net, ids[..i])
      invariant skipped == Skipped(net, ids[..i])
    {
      var animeId := ids[i];
      requested := requested + [InfoRequest(animeId)];
      var fetched := Fetched(net, animeId);
      assert ids[..i + 1][..i] == ids[..i];
      if fetched.Ok? {
        cards := cards + [fetched.value];
      } else {
        skipped := skipped + [animeId];
      }
      i := i + 1;
    }
    assert ids[..i] == ids;
    view := Listed(cards, skipped);
  }

  /** Every stored id either gets a card or is skipped: a failure skips
      that one id and the loop goes on with the rest. */
  lemma {:induction false} ShownOrSkipped(net: Network, ids: seq<string>)
    ensures |Shown(net, ids)| + |Skipped(net, ids)| == |ids|
    ensures forall x :: x in Skipped(net, ids) <==> x in ids && Fetched(net, x).Err?
  {
    if |ids| != 0 {
      var front := ids[..|ids| - 1];
      ShownOrSkipped(net, front);
      assert ids == front + [ids[|ids| - 1]];
    }
  }

  /** Cards follow the stored order: the cards for `a + b` are those for
      `a` followed by those for `b`. */
  lemma {:induction false} ShownInOrder(net: Network, a: seq<string>, b: seq<string>)
    ensures Shown(net, a + b) == Shown(net, a) + Shown(net, b)
    decreases |b|
  {
    if |b| == 0 {
      assert a + b == a;
    } else {
      var n := |b| - 1;
      assert (a + b)[..|a + b| - 1] == a + b[..n];
      ShownInOrder(net, a, b[..n]);
    }
  }

  /** When every fetch succeeds, there is one card per stored id, each the
      fetched anime of that id, and nothing is skipped. */
  lemma {:induction false} AllShown(net: Network, ids: seq<string>)
    requires forall i :: 0 <= i < |ids| ==> Fetched(net, ids[i]).Ok?
    ensures |Shown(net, ids)| == |ids|
    ensures forall i :: 0 <= i < |ids| ==> Shown(net, ids)[i] == Fetched(net, ids[i]).value
    ensures Skipped(net, ids) == []
  {
    if |ids| != 0 {
      var front := ids[..|ids| - 1];
      AllShown(net, front);
    }
  }

  /** `toggleBookmark(event, animeId)` of this page: toggles the stored list
      and, when the write happened, re-renders the list from the new store. */
  method ToggleBookmark(store: Store, net: Network, animeId: string)
    returns (r: Result<Bookmarks.Toggled>, requested: seq<Request>, view: Option<BookmarkView>)
    ensures r.Err? <==> Bookmarks.Read(store).Err?
    ensures r.Err? ==> requested == [] && view == None
    ensures r.Ok? ==>
      var list := Bookmarks.Toggle(Bookmarks.Read(store).value, animeId);
      && Bookmarks.Read(r.value.store) == Ok(list)
      && (r.value.added <==> animeId !in Bookmarks.Read(store).value)
      && (forall k :: k != Bookmarks.Key ==> (k in r.value.store <==> k in store))
      && (forall k :: k in store && k != Bookmarks.Key ==> r.value.store[k] == store[k])
      && |requested| == |list|
      && (forall i :: 0 <= i < |list| ==> requested[i] == InfoRequest(list[i]))
      && view == Some(if list == [] then NoBookmarks else Listed(Shown(net, list), Skipped(net, list)))
  {
    r := Bookmarks.ToggleStored(store, animeId);
    if r.Err? {
      return r, [], None;
    }
    var shown;
    requested, shown := DisplayBookmarkedAnime(r.value.store, net);
    view := Some(shown);
  }
}
