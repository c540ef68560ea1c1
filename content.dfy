/** The content service: it turns the releases API's response into the cards
    the pages show, and decides between the API and the legacy JSON file.

    HTTP requests are parameters: each is a `Fetch`, either the parsed body
    or a failure. JSON `null` and missing fields are `None`. An expression
    that would throw a `TypeError` inside the `map` operator (reading a field
    of a `null` item or of a `null` platform) makes the API observable fail,
    exactly as an HTTP error does. */
module Content {
  import opened Records
  import opened Text

  /** One entry of an item's `platforms` array. */
  datatype Platform = Platform(name: Option<string>, url: Option<string>)

  /** One entry of the API's `items` array. */
  datatype ApiItem = ApiItem(
    id: Option<string>,
    title: Option<string>,
    artist: Option<string>,
    featuredArtists: Option<seq<string>>,
    thumbUrl: Option<string>,
    imageUrl: Option<string>,
    imageKey: Option<string>,
    platforms: Option<seq<Option<Platform>>>)

  /** The API's response body `{count?, items?}`. */
  datatype ApiBody = ApiBody(count: Option<int>, items: Option<seq<Option<ApiItem>>>)

  datatype CardLinks = CardLinks(
    spotify: Option<string>,
    appleMusic: Option<string>,
    youtubeMusic: Option<string>,
    allPlatforms: Option<string>)

  /** The card shape the pages expect. */
  datatype ReleaseCard = ReleaseCard(
    id: Option<string>,
    title: Option<string>,
    artist: string,
    featuredArtists: seq<string>,
    coverArt: string,
    links: CardLinks)

  /** A releases document as a page receives it: `{singles?, releases?}`.
      `releases` is the array the home page sorts in place. */
  datatype Doc = Doc(singles: Option<seq<ReleaseCard>>, releases: Option<array<Release>>)

  /** The outcome of an observable: its value, or an error. */
  datatype Fetch<T> = Loaded(value: T) | Failed

  /** The artist name the normaliser assumes when the API gives none. */
  const DefaultArtist: string := "Solo Wit Luv"

  /** How a link's platform is recognised from its lower-cased name. */
  datatype NameRule = Equals(word: string) | Includes(word: string)

  const SpotifyRule: NameRule := Equals("spotify")
  const AppleRule: NameRule := Includes("apple")
  const YouTubeRule: NameRule := Includes("youtube")
  const AllRule: NameRule := Includes("all")

  /** `p.name?.toLowerCase() === w` or `p.name?.toLowerCase().includes(w)`;
      a platform without a name never matches. */
  predicate Matches(p: Platform, rule: NameRule) {
    p.name.Some? &&
    match rule
    case Equals(w) => Lower(p.name.value) == w
    case Includes(w) => Contains(Lower(p.name.value), w)
  }

  /** The outcome of `platforms.find(...)`: the index found, none found, or a
      `TypeError` from a `null` entry reached before any match. */
  datatype Search = Hit(index: nat) | Miss | Crash

  /** `find` from position `i` on. */
  function FindFrom(ps: seq<Option<Platform>>, rule: NameRule, i: nat): (r: Search)
    requires i <= |ps|
    ensures r.Hit? ==> i <= r.index < |ps| && ps[r.index].Some? && Matches(ps[r.index].value, rule)
    ensures r.Hit? ==> forall j :: i <= j < r.index ==> ps[j].Some? && !Matches(ps[j].value, rule)
    ensures r.Miss? ==> forall j :: i <= j < |ps| ==> ps[j].Some? && !Matches(ps[j].value, rule)
    ensures r.Crash? ==> exists j :: i <= j < |ps| && ps[j].None?
                                   && forall m :: i <= m < j ==> ps[m].Some? && !Matches(ps[m].value, rule)
    decreases |ps| - i
  {
    if i == |ps| then Miss
    else if ps[i].None? then Crash
    else if Matches(ps[i].value, rule) then Hit(i)
    else FindFrom(ps, rule, i + 1)
  }

  /** `it.platforms?.find(rule)?.url`. */
  function Link(platforms: Option<seq<Option<Platform>>>, rule: NameRule): (r: Fetch<Option<string>>)
    ensures platforms.None? ==> r == Loaded(None)
    ensures platforms.Some? ==> match FindFrom(platforms.value, rule, 0)
      case Hit(i) => r == Loaded(platforms.value[i].value.url)
      case Miss => r == Loaded(None)
      case Crash => r.Failed?
  {
    if platforms.None? then Loaded(None)
    else match FindFrom(platforms.value, rule, 0)
      case Hit(i) => Loaded(platforms.value[i].value.url)
      case Miss => Loaded(None)
      case Crash => Failed
  }

  /** The card for one item, or the error its normalisation throws. */
  function Card(item: Option<ApiItem>): (r: Fetch<ReleaseCard>)
    ensures item.None? ==> r.Failed?
    ensures item.Some? ==> (r.Failed? <==>
      Link(item.value.platforms, SpotifyRule).Failed? || Link(item.value.platforms, AppleRule).Failed?
      || Link(item.value.platforms, YouTubeRule).Failed? || Link(item.value.platforms, AllRule).Failed?)
    ensures r.Loaded? ==> r.value.id == item.value.id && r.value.title == item.value.title
    ensures r.Loaded? && item.value.artist.Some? ==> r.value.artist == item.value.artist.value
    ensures r.Loaded? && item.value.artist.None? ==> r.value.artist == DefaultArtist
    ensures r.Loaded? ==> r.value.featuredArtists == if item.value.featuredArtists.Some? then item.value.featuredArtists.value else []
    ensures r.Loaded? && Truthy(item.value.thumbUrl) ==> r.value.coverArt == item.value.thumbUrl.value
    ensures r.Loaded? && !Truthy(item.value.thumbUrl) && Truthy(item.value.imageUrl) ==> r.value.coverArt == item.value.imageUrl.value
    ensures r.Loaded? && !Truthy(item.value.thumbUrl) && !Truthy(item.value.imageUrl) && Truthy(item.value.imageKey) ==>
      r.value.coverArt == item.value.imageKey.value
    ensures r.Loaded? && !Truthy(item.value.thumbUrl) && !Truthy(item.value.imageUrl) && !Truthy(item.value.imageKey) ==>
      r.value.coverArt == ""
    ensures r.Loaded? ==> r.value.links == CardLinks(
      Link(item.value.platforms, SpotifyRule).value, Link(item.value.platforms, AppleRule).value,
      Link(item.value.platforms, YouTubeRule).value, Link(item.value.platforms, AllRule).value)
  {
    if item.None? then Failed
    else
      var it := item.value;
      var spotify := Link(it.platforms, SpotifyRule);
      var apple := Link(it.platforms, AppleRule);
      var youtube := Link(it.platforms, YouTubeRule);
      var all := Link(it.platforms, AllRule);
      if spotify.Failed? || apple.Failed? || youtube.Failed? || all.Failed? then Failed
      else Loaded(ReleaseCard(
        it.id,
        it.title,
        if it.artist.Some? then it.artist.value else DefaultArtist,
        if it.featuredArtists.Some? then it.featuredArtists.value else [],
        OrElse(Or(Or(it.thumbUrl, it.imageUrl), it.imageKey), ""),
        CardLinks(spotify.value, apple.value, youtube.value, all.value)))
  }

  /** `items.map(...)`: one card per item, in order, or the first error. */
  function Cards(items: seq<Option<ApiItem>>): (r: Fetch<seq<ReleaseCard>>)
    ensures r.Loaded? ==> |r.value| == |items|
    ensures r.Loaded? ==> forall i :: 0 <= i < |items| ==> Card(items[i]) == Loaded(r.value[i])
    ensures r.Failed? <==> exists i :: 0 <= i < |items| && Card(items[i]).Failed?
    decreases |items|
  {
    if items == [] then Loaded([])
    else
      match Card(items[0])
      case Failed => Failed
      case Loaded(c) =>
        match Cards(items[1..])
        case Failed =>
          assert forall i :: 1 <= i < |items| ==> items[1..][i - 1] == items[i];
          Failed
        case Loaded(cs) =>
          assert forall i :: 1 <= i < |items| ==> items[1..][i - 1] == items[i];
          Loaded([c] + cs)
  }

  /** The API path's `map`: `{singles}` built from `api?.items ?? []`. */
  function Normalise(api: Option<ApiBody>): (r: Fetch<Doc>)
    ensures api.None? || api.value.items.None? ==> r == Loaded(Doc(Some([]), None))
    ensures api.Some? && api.value.items.Some? ==> match Cards(api.value.items.value)
      case Loaded(cs) => r == Loaded(Doc(Some(cs), None))
      case Failed => r.Failed?
    ensures r.Loaded? ==> r.value.releases.None? && r.value.singles.Some?
  {
    var items := if api.None? || api.value.items.None? then [] else api.value.items.value;
    match Cards(items)
    case Failed => Failed
    case Loaded(cs) => Loaded(Doc(Some(cs), None))
  }

  /** `map(res => res ?? {singles: []})`. */
  function NullGuard(res: Fetch<Option<Doc>>): (r: Fetch<Option<Doc>>)
    ensures res.Failed? ==> r.Failed?
    ensures res == Loaded(None) ==> r == Loaded(Some(Doc(Some([]), None)))
    ensures res.Loaded? && res.value.Some? ==> r == res
  {
    match res
    case Loaded(None) => Loaded(Some(Doc(Some([]), None)))
    case _ => res
  }

  /** `getReleases()` with the API flag `useApi`, the API request `api` and
      the legacy file request `legacy`. */
  function GetReleases(useApi: bool, api: Fetch<Option<ApiBody>>, legacy: Fetch<Option<Doc>>): (r: Fetch<Option<Doc>>)
    ensures !useApi ==> r == legacy
    ensures useApi ==> r != Loaded(None)
    ensures useApi && api.Loaded? && Normalise(api.value).Loaded? ==> r == Loaded(Some(Normalise(api.value).value))
    ensures useApi && (api.Failed? || Normalise(api.value).Failed?) ==>
      (legacy.Failed? ==> r.Failed?)
      && (legacy == Loaded(None) ==> r == Loaded(Some(Doc(Some([]), None))))
      && (legacy.Loaded? && legacy.value.Some? ==> r == legacy)
  {
    if !useApi then legacy
    else
      var fromApi: Fetch<Option<Doc>> :=
        match api
        case Failed => Failed
        case Loaded(body) =>
          match Normalise(body)
          case Failed => Failed
          case Loaded(doc) => Loaded(Some(doc));
      NullGuard(if fromApi.Failed? then legacy else fromApi)
  }

  /** The normalised list has the API's items' length and order, whatever the
      response: an item's card sits at the item's index. */
  lemma {:induction false} CardsPreserveOrder(items: seq<Option<ApiItem>>, i: nat)
    requires Cards(items).Loaded? && i < |items|
    ensures items[i].Some?
    ensures Cards(items).value[i].id == items[i].value.id
    ensures Cards(items).value[i].title == items[i].value.title
  {
    assert Card(items[i]) == Loaded(Cards(items).value[i]);
  }

  /** A card carries a link only when some platform's name matched that
      link's rule. */
  lemma CardLinkNeedsMatch(item: Option<ApiItem>)
    requires Card(item).Loaded?
    ensures Card(item).value.links.spotify.Some? ==> MatchedSome(item.value.platforms, SpotifyRule)
    ensures Card(item).value.links.appleMusic.Some? ==> MatchedSome(item.value.platforms, AppleRule)
    ensures Card(item).value.links.youtubeMusic.Some? ==> MatchedSome(item.value.platforms, YouTubeRule)
    ensures Card(item).value.links.allPlatforms.Some? ==> MatchedSome(item.value.platforms, AllRule)
  {
    if Card(item).value.links.spotify.Some? {
      LinkNeedsMatch(item.value.platforms, SpotifyRule);
    }
    if Card(item).value.links.appleMusic.Some? {
      LinkNeedsMatch(item.value.platforms, AppleRule);
    }
    if Card(item).value.links.youtubeMusic.Some? {
      LinkNeedsMatch(item.value.platforms, YouTubeRule);
    }
    if Card(item).value.links.allPlatforms.Some? {
      LinkNeedsMatch(item.value.platforms, AllRule);
    }
  }

  ghost predicate MatchedSome(platforms: Option<seq<Option<Platform>>>, rule: NameRule) {
    platforms.Some? && exists j :: 0 <= j < |platforms.value| && platforms.value[j].Some? && Matches(platforms.value[j].value, rule)
  }

  lemma LinkNeedsMatch(platforms: Option<seq<Option<Platform>>>, rule: NameRule)
    requires Link(platforms, rule).Loaded? && Link(platforms, rule).value.Some?
    ensures MatchedSome(platforms, rule)
  {
    var i := FindFrom(platforms.value, rule, 0).index;
    assert platforms.value[i].Some? && Matches(platforms.value[i].value, rule);
  }

  /** A platform called "Apple Music" is recognised as Apple Music and not as Spotify. */
  lemma AppleMusicRecognised(url: Option<string>)
    ensures Matches(Platform(Some("Apple Music"), url), AppleRule)
    ensures !Matches(Platform(Some("Apple Music"), url), SpotifyRule)
  {
    var lowered := Lower("Apple Music");
    assert lowered[0..5] == "apple";
    assert StartsAt(lowered, 0, "apple");
    assert |lowered| != |"spotify"|;
  }
}
