/** The logic of scripts/Watching.js, the player page: the episode id taken
    from an episode url, the episode list, the choice of the stream that
    plays, the quality buttons, and what the page starts on load. */
module Watching {
  import opened Js

  const ApiBase: string := "https://animetize-api.vercel.app"
  const Server: string := "gogocdn"

  // ---------------------------------------------------------------------
  // url.split('/').pop()
  // ---------------------------------------------------------------------

  /** `s.split(sep)` for a one-character separator. */
  function Split(s: string, sep: char): (parts: seq<string>)
    ensures |parts| >= 1
    ensures forall i :: 0 <= i < |parts| ==> sep !in parts[i]
    decreases |s|
  {
    if |s| == 0 then [""]
    else
      var rest := Split(s[1..], sep);
      if s[0] == sep then [""] + rest
      else [[s[0]] + rest[0]] + rest[1..]
  }

  /** `parts.join(sep)`, the inverse of `Split`. */
  function Join(parts: seq<string>, sep: char): string
    requires |parts| >= 1
  {
    if |parts| == 1 then parts[0] else parts[0] + [sep] + Join(parts[1..], sep)
  }

  /** Joining the pieces of a split gives back the string. */
  lemma {:induction false} JoinSplit(s: string, sep: char)
    ensures Join(Split(s, sep), sep) == s
    decreases |s|
  {
    if |s| != 0 {
      var rest := Split(s[1..], sep);
      JoinSplit(s[1..], sep);
      if s[0] == sep {
        assert ([""] + rest)[1..] == rest;
      } else {
        var parts := [[s[0]] + rest[0]] + rest[1..];
        if |rest| == 1 {
          assert parts == [[s[0]] + rest[0]];
        } else {
          assert parts[1..] == rest[1..];
          assert Join(rest, sep) == rest[0] + [sep] + Join(rest[1..], sep);
        }
        assert s == [s[0]] + s[1..];
      }
    }
  }

  /** Splitting joined pieces that hold no separator gives back the pieces. */
  lemma {:induction false} SplitJoin(parts: seq<string>, sep: char)
    requires |parts| >= 1
    requires forall i :: 0 <= i < |parts| ==> sep !in parts[i]
    ensures Split(Join(parts, sep), sep) == parts
    decreases |parts|
  {
    if |parts| == 1 {
      SplitPlain(parts[0], sep);
    } else {
      SplitJoin(parts[1..], sep);
      SplitAfterPlain(parts[0], Join(parts[1..], sep), sep);
    }
  }

  lemma {:induction false} SplitPlain(s: string, sep: char)
    requires sep !in s
    ensures Split(s, sep) == [s]
    decreases |s|
  {
    if |s| != 0 {
      SplitPlain(s[1..], sep);
      assert s == [s[0]] + s[1..];
    }
  }

  lemma {:induction false} SplitAfterPlain(a: string, b: string, sep: char)
    requires sep !in a
    ensures Split(a + [sep] + b, sep) == [a] + Split(b, sep)
    decreases |a|
  {
    var s := a + [sep] + b;
    if |a| == 0 {
      assert s[1..] == b;
    } else {
      assert s[1..] == a[1..] + [sep] + b;
      SplitAfterPlain(a[1..], b, sep);
      assert a == [a[0]] + a[1..];
    }
  }

  function Last(parts: seq<string>): string
    requires |parts| >= 1
  {
    parts[|parts| - 1]
  }

  /** The last piece of a split is the text after the last separator
      (the whole string when there is none). */
  lemma {:induction false} LastPiece(s: string, sep: char)
    ensures var p := Last(Split(s, sep));
      && |p| <= |s|
      && s[|s| - |p|..] == p
      && (sep in s ==> |p| < |s| && s[|s| - |p| - 1] == sep)
    decreases |s|
  {
    if |s| != 0 {
      var tail := s[1..];
      LastPiece(tail, sep);
      var rest := Split(tail, sep);
      var q := Last(rest);
      assert s[|s| - |q|..] == tail[|tail| - |q|..];
      SplitSingle(tail, sep);
      if s[0] == sep {
        assert Last(Split(s, sep)) == q;
        if sep !in tail {
          SplitPlain(tail, sep);
          assert s[|s| - |q| - 1] == s[0];
        } else {
          assert s[|s| - |q| - 1] == tail[|tail| - |q| - 1];
        }
      } else if sep !in tail {
        SplitPlain(tail, sep);
        assert Last(Split(s, sep)) == [s[0]] + tail;
        assert s == [s[0]] + tail;
      } else {
        assert Last(Split(s, sep)) == q;
        assert s[|s| - |q| - 1] == tail[|tail| - |q| - 1];
      }
    }
  }

  /** Without a separator, the last (only) piece is the whole string. */
  lemma NoSeparatorWhole(s: string, sep: char)
    ensures sep !in s ==> Last(Split(s, sep)) == s
  {
    if sep !in s {
      SplitPlain(s, sep);
    }
  }

  /** A split has one piece exactly when there is no separator. */
  lemma {:induction false} SplitSingle(s: string, sep: char)
    ensures |Split(s, sep)| == 1 <==> sep !in s
    decreases |s|
  {
    if |s| != 0 {
      SplitSingle(s[1..], sep);
      assert s == [s[0]] + s[1..];
    }
  }

  /** `url.split('/').pop()`: the text after the last '/'. It holds no '/';
      it is the whole url when the url holds no '/', and empty when the url
      ends in '/'. */
  function EpisodeId(url: string): (id: string)
    ensures '/' !in id
    ensures |id| <= |url| && url[|url| - |id|..] == id
    ensures '/' in url ==> |id| < |url| && url[|url| - |id| - 1] == '/'
    ensures '/' !in url ==> id == url
    ensures |url| > 0 && url[|url| - 1] == '/' ==> id == ""
  {
    LastPiece(url, '/');
    NoSeparatorWhole(url, '/');
    Last(Split(url, '/'))
  }

  // ---------------------------------------------------------------------
  // displayEpisodes(episodes)
  // ---------------------------------------------------------------------

  /** One episode card: its label shows `ep.number`, its click watches `ep.url`. */
  datatype EpisodeCard = EpisodeCard(number: Value, url: Value)

  /** Reading a property of `v` throws only for null or undefined. */
  predicate Readable(v: Value) {
    !v.Undefined? && !v.Null?
  }

  /** The card template reads `ep.url` and `ep.number` and turns both into
      text. */
  predicate Listable(ep: Value) {
    Readable(ep) && Printable(Get(ep, "url").value) && Printable(Get(ep, "number").value)
  }

  /** For plain data, an episode fails to list only when it is null or
      undefined, and a source fails to label likewise. */
  lemma PlainListable(v: Value)
    requires Plain(v)
    ensures Listable(v) <==> Readable(v)
    ensures Labelled(v) <==> Readable(v)
  {
    if v.Obj? {
      forall key | key in v.fields
        ensures Printable(v.fields[key])
      {
        PlainPrintable(v.fields[key]);
      }
    }
  }

  /** `button.textContent = source.quality` reads `quality` and turns it
      into text (null becomes the empty text). */
  predicate Labelled(source: Value) {
    Readable(source) && Printable(Get(source, "quality").value)
  }

  function CardOf(ep: Value): EpisodeCard
    requires Readable(ep)
  {
    EpisodeCard(Get(ep, "number").value, Get(ep, "url").value)
  }

  /** `episodes.map(ep => card)`: one card per episode, or the error of the
      first episode that cannot be read. */
  function Cards(episodes: seq<Value>): (r: Result<seq<EpisodeCard>>)
    ensures r.Ok? <==> forall i :: 0 <= i < |episodes| ==> Listable(episodes[i])
    ensures r.Ok? ==> |r.value| == |episodes|
    ensures r.Ok? ==> forall i :: 0 <= i < |episodes| ==> Listable(episodes[i]) && r.value[i] == CardOf(episodes[i])
    ensures r.Err? ==> r.error == TypeError
  {
    if |episodes| == 0 then Ok([])
    else if !Listable(episodes[0]) then Err(TypeError)
    else
      match Cards(episodes[1..])
      case Err(e) => Err(e)
      case Ok(rest) => Ok([CardOf(episodes[0])] + rest)
  }

  /** The episode container after `displayEpisodes`. */
  datatype EpisodeView =
    | NoEpisodes                                              // "No episodes available"
    | EpisodeList(cards: seq<EpisodeCard>, autoplay: Value)   // and `watchEpisode(autoplay)`
    | EpisodesUntouched(error: Error)                         // thrown before the container changed

  /** `displayEpisodes(episodes)`. */
  function DisplayEpisodes(episodes: Value): (r: EpisodeView)
    ensures r == NoEpisodes <==> !Truthy(episodes) || Get(episodes, "length") == Ok(Num(0.0))
    ensures r.EpisodeList? ==>
      && episodes.Arr? && |episodes.items| > 0
      && |r.cards| == |episodes.items|
      && (forall i :: 0 <= i < |episodes.items| ==> Listable(episodes.items[i]) && r.cards[i] == CardOf(episodes.items[i]))
      && r.autoplay == r.cards[0].url
    ensures episodes.Arr? && |episodes.items| > 0 && (forall i :: 0 <= i < |episodes.items| ==> Listable(episodes.items[i]))
      ==> r.EpisodeList?
  {
    if !Truthy(episodes) || Get(episodes, "length") == Ok(Num(0.0)) then NoEpisodes
    else if !episodes.Arr? then EpisodesUntouched(TypeError)
    else
      match Cards(episodes.items)
      case Err(e) => EpisodesUntouched(e)
      case Ok(cards) => EpisodeList(cards, Get(episodes.items[0], "url").value)
  }

  function InfoRequest(animeId: string): Request {
    Request(ApiBase, "info/" + animeId, map[])
  }

  /** `fetchAnimeInfo(animeId)`: a failed fetch, or a body whose `episodes`
      cannot be read, leaves the container as it was. */
  function FetchAnimeInfo(net: Network, animeId: string): (r: EpisodeView)
    ensures !net(InfoRequest(animeId)).ok ==> r == EpisodesUntouched(NetworkError)
    ensures net(InfoRequest(animeId)).ok && Get(net(InfoRequest(animeId)).body, "episodes").Ok? ==>
      r == DisplayEpisodes(Get(net(InfoRequest(animeId)).body, "episodes").value)
    ensures net(InfoRequest(animeId)).ok && (net(InfoRequest(animeId)).body.Null? || net(InfoRequest(animeId)).body.Undefined?) ==>
      r == EpisodesUntouched(TypeError)
    ensures var body := net(InfoRequest(animeId)).body;
      net(InfoRequest(animeId)).ok && !body.Obj? && !body.Null? && !body.Undefined? ==> r == NoEpisodes
  {
    var response := net(InfoRequest(animeId));
    if !response.ok then EpisodesUntouched(NetworkError)
    else
      match Get(response.body, "episodes")
      case Err(e) => EpisodesUntouched(e)
      case Ok(episodes) => DisplayEpisodes(episodes)
  }

  // ---------------------------------------------------------------------
  // setVideoSource / createQualityButtons
  // ---------------------------------------------------------------------

  /** A quality button: labelled with `source.quality`, and on click plays
      the `url` of that same source. */
  datatype Button = Button(text: Value, source: Value)

  /** The player area: the quality buttons shown and the url last handed
      to the player (None before any). */
  datatype Player = Player(buttons: seq<Button>, playing: Option<Value>)

  function ButtonOf(source: Value): Button
    requires Readable(source)
  {
    Button(Get(source, "quality").value, source)
  }

  /** The buttons `sources.forEach` appends before it finishes or throws. */
  datatype ButtonRun = ButtonRun(buttons: seq<Button>, failure: Option<Error>)

  function ButtonsFor(sources: seq<Value>): (r: ButtonRun)
    ensures |r.buttons| <= |sources|
    ensures forall i :: 0 <= i < |r.buttons| ==> Labelled(sources[i]) && r.buttons[i] == ButtonOf(sources[i])
    ensures r.failure == None <==> forall i :: 0 <= i < |sources| ==> Labelled(sources[i])
    ensures r.failure == None ==> |r.buttons| == |sources|
    ensures r.failure != None ==> |r.buttons| < |sources| && !Labelled(sources[|r.buttons|])
  {
    if |sources| == 0 then ButtonRun([], None)
    else if !Labelled(sources[0]) then ButtonRun([], Some(TypeError))
    else
      var rest := ButtonsFor(sources[1..]);
      ButtonRun([ButtonOf(sources[0])] + rest.buttons, rest.failure)
  }

  /** `createQualityButtons(sources)`: old buttons are cleared first; then
      one button per source, in order, each labelled with and bound to its
      own source. Only an array has `forEach`. */
  function CreateQualityButtons(sources: Value): (r: ButtonRun)
    ensures !sources.Arr? ==> r == ButtonRun([], Some(TypeError))
    ensures sources.Arr? && (forall i :: 0 <= i < |sources.items| ==> Labelled(sources.items[i])) ==>
      && r.failure == None
      && |r.buttons| == |sources.items|
      && forall i :: 0 <= i < |sources.items| ==> r.buttons[i] == Button(Get(sources.items[i], "quality").value, sources.items[i])
  {
    match sources
    case Arr(items) => ButtonsFor(items)
    case _ => ButtonRun([], Some(TypeError))
  }

  function WatchRequest(episodeId: string): Request {
    Request(ApiBase, "watch/" + episodeId, map["server" := Server])
  }

  /** `sources` is missing or empty: `!sources || sources.length === 0`. */
  predicate NoSources(sources: Value) {
    !Truthy(sources) || Get(sources, "length") == Ok(Num(0.0))
  }

  /** `setVideoSource(episodeId)`: on success the buttons are rebuilt and
      the player gets `sources[0].url` (the first source, whatever its
      quality); a failed fetch, a missing or empty `sources`, or a
      `sources[0].url` that cannot be read or turned into text changes
      nothing; a failure inside the button loop leaves the buttons built so
      far and does not touch the player. */
  function SetVideoSource(player: Player, net: Network, episodeId: string): (r: Player)
    ensures !net(WatchRequest(episodeId)).ok ==> r == player
    ensures net(WatchRequest(episodeId)).ok ==>
      var sources := Get(net(WatchRequest(episodeId)).body, "sources");
      && (sources.Err? || NoSources(sources.value) ==> r == player)
      && (sources.Ok? && sources.value.Arr? && |sources.value.items| > 0
          && (forall i :: 0 <= i < |sources.value.items| ==> Labelled(sources.value.items[i]))
          && Printable(Get(sources.value.items[0], "url").value)
          ==> r == Player(CreateQualityButtons(sources.value).buttons,
                          Some(Get(sources.value.items[0], "url").value)))
    ensures r.playing != player.playing ==>
      && net(WatchRequest(episodeId)).ok
      && Get(net(WatchRequest(episodeId)).body, "sources").Ok?
      && var sources := Get(net(WatchRequest(episodeId)).body, "sources").value;
         sources.Arr? && |sources.items| > 0 && Get(sources.items[0], "url").Ok?
         && Printable(Get(sources.items[0], "url").value)
         && CreateQualityButtons(sources).failure == None
         && r.playing == Some(Get(sources.items[0], "url").value)
    ensures r.buttons != player.buttons ==>
      && net(WatchRequest(episodeId)).ok
      && Get(net(WatchRequest(episodeId)).body, "sources").Ok?
      && At(Get(net(WatchRequest(episodeId)).body, "sources").value, 0).Ok?
      && Get(At(Get(net(WatchRequest(episodeId)).body, "sources").value, 0).value, "url").Ok?
      && Printable(Get(At(Get(net(WatchRequest(episodeId)).body, "sources").value, 0).value, "url").value)
      && r.buttons == CreateQualityButtons(Get(net(WatchRequest(episodeId)).body, "sources").value).buttons
    ensures net(WatchRequest(episodeId)).ok ==>
      var sources := Get(net(WatchRequest(episodeId)).body, "sources");
      sources.Ok? && !NoSources(sources.value) && At(sources.value, 0).Ok? && Get(At(sources.value, 0).value, "url").Ok?
      && Printable(Get(At(sources.value, 0).value, "url").value) ==>
        && r.buttons == CreateQualityButtons(sources.value).buttons
        && r.playing == if CreateQualityButtons(sources.value).failure == None
                        then Some(Get(At(sources.value, 0).value, "url").value) else player.playing
    ensures net(WatchRequest(episodeId)).ok ==>
      var sources := Get(net(WatchRequest(episodeId)).body, "sources");
      sources.Ok? && !NoSources(sources.value)
      && (At(sources.value, 0).Err? || Get(At(sources.value, 0).value, "url").Err?
          || !Printable(Get(At(sources.value, 0).value, "url").value)) ==>
        r == player
  {
    var response := net(WatchRequest(episodeId));
    if !response.ok then player
    else
      match Get(response.body, "sources")
      case Err(_) => player
      case Ok(sources) =>
        if NoSources(sources) then player
        else
          match At(sources, 0)
          case Err(_) => player
          case Ok(first) =>
            match Get(first, "url")
            case Err(_) => player
            case Ok(url) =>
              if !Printable(url) then player   // the log line's `${sources[0].url}` throws
              else
                var run := CreateQualityButtons(sources);
                if run.failure.Some? then Player(run.buttons, player.playing)
                else Player(run.buttons, Some(url))
  }

  /** `watchEpisode(url)`: `url.split` throws unless `url` is a string. */
  function WatchEpisode(player: Player, net: Network, url: Value): (r: Player)
    ensures !url.Str? ==> r == player
    ensures url.Str? ==> r == SetVideoSource(player, net, EpisodeId(url.s))
  {
    match url
    case Str(s) => SetVideoSource(player, net, EpisodeId(s))
    case _ => player
  }

  /** Opening an anime: `fetchAnimeInfo` shows its episode list and, from
      inside `displayEpisodes`, watches `episodes[0]`; with no episode list
      shown, nothing is played and the player is as it was. */
  function ShowAnime(player: Player, net: Network, animeId: string): (r: (EpisodeView, Player))
    ensures r.0 == FetchAnimeInfo(net, animeId)
    ensures !r.0.EpisodeList? ==> r.1 == player
    ensures r.0.EpisodeList? ==>
      && net(InfoRequest(animeId)).ok
      && var episodes := Get(net(InfoRequest(animeId)).body, "episodes").value;
         && episodes.Arr? && |episodes.items| > 0
         && r.1 == WatchEpisode(player, net, Get(episodes.items[0], "url").value)
  {
    var view := FetchAnimeInfo(net, animeId);
    if view.EpisodeList? then (view, WatchEpisode(player, net, view.autoplay)) else (view, player)
  }

  // ---------------------------------------------------------------------
  // DOMContentLoaded
  // ---------------------------------------------------------------------

  /** What the page starts on load: the episode whose video is loaded and
      the anime whose info is fetched (the video request is issued first). */
  datatype LoadPlan = LoadPlan(episode: Option<string>, anime: Option<string>)

  /** `URLSearchParams.get(key)` tested for truthiness: null when absent,
      and the empty string is falsy too. */
  predicate Given(query: map<string, string>, key: string) {
    key in query && query[key] != ""
  }

  function OnLoad(query: map<string, string>): (r: LoadPlan)
    ensures r.episode.Some? <==> Given(query, "episodeUrl")
    ensures r.episode.Some? ==> '/' !in r.episode.value && r.episode.value == EpisodeId(query["episodeUrl"])
    ensures r.anime.Some? <==> Given(query, "id")
    ensures r.anime.Some? ==> r.anime.value == query["id"]
  {
    LoadPlan(
      if Given(query, "episodeUrl") then Some(EpisodeId(query["episodeUrl"])) else None,
      if Given(query, "id") then Some(query["id"]) else None)
  }
}
