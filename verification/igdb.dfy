/** The IGDB metadata resolver and the pure parts of its API client: the
    platform table, the support test, the assembly of a resolved result
    from the client's answers, the logo priority rule, image URL expansion,
    query escaping, id-list joining, the zero-result and empty-input rules
    and the access-token validity test. The HTTP exchanges themselves are
    inputs. */
module Igdb {
  import opened Wrappers
  import opened Models
  import opened Text
  import opened Seqs

  /** Our platform names and the IGDB platform ids they stand for. */
  const PlatformIDs: map<string, int> := map[
    "nes" := 18, "snes" := 19, "n64" := 4, "gamecube" := 21, "wii" := 5,
    "ps1" := 7, "ps2" := 8, "genesis" := 29, "saturn" := 32, "dreamcast" := 23,
    "gba" := 24, "nds" := 20, "3ds" := 37, "psp" := 38]

  /** No two platform names share an IGDB id. */
  lemma PlatformIDsInjective()
    ensures forall a, b :: a in PlatformIDs && b in PlatformIDs && a != b ==> PlatformIDs[a] != PlatformIDs[b]
  {
  }

  const ResolverName := "igdb"

  /** Supports: emulated games whose lower-cased platform has an IGDB id. */
  predicate Supports(source: string, platform: string) {
    source == "emulated" && Lower(platform) in PlatformIDs
  }

  // ---------------------------------------------------------------------
  // API records

  datatype IgdbGame = IgdbGame(
    id: int,
    name: string,
    summary: string,
    releaseDate: int,
    developers: seq<int>,
    genres: seq<int>,
    cover: int,
    screenshots: seq<int>,
    artworks: seq<int>)

  /** A cover or a screenshot. */
  datatype Image = Image(id: int, url: string, game: int)

  /** An artwork or a logo; logos are the artworks of type 5 (white),
      6 (black) or 7 (colour). */
  datatype Artwork = Artwork(id: int, url: string, game: int, artworkType: int)

  datatype Genre = Genre(id: int, name: string)

  datatype Company = Company(id: int, name: string)

  // ---------------------------------------------------------------------
  // Client: token and result selection

  datatype Client = Client(clientID: string, clientSecret: string, accessToken: string, expiresAt: int)

  function NewClient(clientID: string, clientSecret: string): (c: Client)
    ensures c.accessToken == "" && c.clientID == clientID && c.clientSecret == clientSecret
  {
    Client(clientID, clientSecret, "", 0)
  }

  /** The token endpoint's decoded answer (OAuth 2.0 client credentials,
      section 4.4 of RFC 6749); an error carries the message. */
  datatype TokenReply = TokenReply(accessToken: string, expiresIn: int)

  predicate TokenValid(c: Client, now: int) {
    c.accessToken != "" && now < c.expiresAt
  }

  /** The outcome of authenticate: the client afterwards, the error if any,
      and whether a token request was issued. */
  datatype Auth = Auth(client: Client, error: Option<string>, requested: bool)

  function Authenticate(c: Client, now: int, token: Result<TokenReply>): (a: Auth)
    ensures TokenValid(c, now) ==> a == Auth(c, None, false)
    ensures !TokenValid(c, now) ==> a.requested
    ensures !TokenValid(c, now) && token.Ok? ==>
      a.error.None? && a.client == c.(accessToken := token.value.accessToken, expiresAt := now + token.value.expiresIn)
    ensures !TokenValid(c, now) && token.Err? ==> a.error == Some(token.msg) && a.client == c
  {
    if TokenValid(c, now) then Auth(c, None, false)
    else
      match token
      case Ok(t) => Auth(c.(accessToken := t.accessToken, expiresAt := now + t.expiresIn), None, true)
      case Err(m) => Auth(c, Some(m), true)
  }

  /** A client call: the client afterwards, the result, and whether any
      request (token or query) went out. */
  datatype Call<T> = Call(client: Client, result: Result<T>, requested: bool)

  /** An authenticated query whose decoded answer is `reply`. */
  function Query<T>(c: Client, now: int, token: Result<TokenReply>, reply: Result<seq<T>>): (r: Call<seq<T>>)
    ensures r.requested
    ensures r.client == Authenticate(c, now, token).client
    ensures Authenticate(c, now, token).error.Some? ==> r.result == Err(Authenticate(c, now, token).error.value)
    ensures Authenticate(c, now, token).error.None? ==> r.result == reply
  {
    var a := Authenticate(c, now, token);
    if a.error.Some? then Call(a.client, Err(a.error.value), true) else Call(a.client, reply, true)
  }

  /** The first result, or `missing` when there is none. */
  function First<T>(call: Call<seq<T>>, missing: string): (r: Call<T>)
    ensures r.client == call.client && r.requested == call.requested
    ensures call.result.Err? ==> r.result == Err(call.result.msg)
    ensures call.result.Ok? && call.result.value == [] ==> r.result == Err(missing)
    ensures call.result.Ok? && call.result.value != [] ==> r.result == Ok(call.result.value[0])
  {
    match call.result
    case Err(m) => Call(call.client, Err(m), call.requested)
    case Ok(xs) => if xs == [] then Call(call.client, Err(missing), call.requested) else Call(call.client, Ok(xs[0]), call.requested)
  }

  function SearchGame(c: Client, now: int, token: Result<TokenReply>, reply: Result<seq<IgdbGame>>,
                      name: string, platformID: int): (r: Call<IgdbGame>)
    ensures reply == Ok([]) && Authenticate(c, now, token).error.None? ==>
      r.result == Err("no game found for '" + name + "' on platform " + IntToString(platformID))
    ensures Authenticate(c, now, token).error.None? && reply.Ok? && reply.value != [] ==> r.result == Ok(reply.value[0])
  {
    First(Query(c, now, token, reply), "no game found for '" + name + "' on platform " + IntToString(platformID))
  }

  function GetGameByID(c: Client, now: int, token: Result<TokenReply>, reply: Result<seq<IgdbGame>>, gameID: int): (r: Call<IgdbGame>)
    ensures reply == Ok([]) && Authenticate(c, now, token).error.None? ==>
      r.result == Err("game not found with ID " + IntToString(gameID))
    ensures Authenticate(c, now, token).error.None? && reply.Ok? && reply.value != [] ==> r.result == Ok(reply.value[0])
  {
    First(Query(c, now, token, reply), "game not found with ID " + IntToString(gameID))
  }

  function GetCover(c: Client, now: int, token: Result<TokenReply>, reply: Result<seq<Image>>, coverID: int): (r: Call<Image>)
    ensures reply == Ok([]) && Authenticate(c, now, token).error.None? ==>
      r.result == Err("cover not found with ID " + IntToString(coverID))
    ensures Authenticate(c, now, token).error.None? && reply.Ok? && reply.value != [] ==> r.result == Ok(reply.value[0])
  {
    First(Query(c, now, token, reply), "cover not found with ID " + IntToString(coverID))
  }

  /** A lookup by a list of ids: an empty list answers nothing at once,
      without authenticating. */
  function ByIDs<T>(c: Client, now: int, token: Result<TokenReply>, reply: Result<seq<T>>, ids: seq<int>): (r: Call<seq<T>>)
    ensures ids == [] ==> r == Call(c, Ok([]), false)
    ensures ids != [] ==> r == Query(c, now, token, reply)
  {
    if ids == [] then Call(c, Ok([]), false) else Query(c, now, token, reply)
  }

  function GetCompanies(c: Client, now: int, token: Result<TokenReply>, reply: Result<seq<Company>>, ids: seq<int>): (r: Call<seq<Company>>)
    ensures ids == [] ==> r == Call(c, Ok([]), false)
    ensures ids != [] ==> r.requested
    ensures ids != [] ==> r.client == Authenticate(c, now, token).client
    ensures ids != [] && Authenticate(c, now, token).error.Some? ==> r.result == Err(Authenticate(c, now, token).error.value)
    ensures ids != [] && Authenticate(c, now, token).error.None? ==> r.result == reply
  {
    ByIDs(c, now, token, reply, ids)
  }

  function GetGenres(c: Client, now: int, token: Result<TokenReply>, reply: Result<seq<Genre>>, ids: seq<int>): (r: Call<seq<Genre>>)
    ensures ids == [] ==> r == Call(c, Ok([]), false)
    ensures ids != [] ==> r.requested
    ensures ids != [] ==> r.client == Authenticate(c, now, token).client
    ensures ids != [] && Authenticate(c, now, token).error.Some? ==> r.result == Err(Authenticate(c, now, token).error.value)
    ensures ids != [] && Authenticate(c, now, token).error.None? ==> r.result == reply
  {
    ByIDs(c, now, token, reply, ids)
  }

  /** A token obtained at `now` stays in use, with no new token request,
      for every call strictly before now + expires_in. */
  lemma TokenReused(c: Client, now: int, later: int, t: TokenReply, token2: Result<TokenReply>)
    requires !TokenValid(c, now) && t.accessToken != "" && now <= later < now + t.expiresIn
    ensures var c1 := Authenticate(c, now, Ok(t)).client;
      Authenticate(c1, later, token2) == Auth(c1, None, false)
  {
  }

  // ---------------------------------------------------------------------
  // Query helpers

  predicate Unsafe(ch: char) {
    ch == '"' || ch == '\\'
  }

  /** escapeQuery: drops every '"' and '\\'. */
  function EscapeQuery(s: string): (r: string)
    ensures |r| <= |s|
    ensures forall k :: 0 <= k < |r| ==> !Unsafe(r[k])
    ensures forall ch :: ch in r <==> ch in s && !Unsafe(ch)
  {
    if s == [] then []
    else if Unsafe(s[0]) then EscapeQuery(s[1..])
    else [s[0]] + EscapeQuery(s[1..])
  }

  /** Escaping works character by character, so it keeps the order of the
      characters it keeps. */
  lemma {:induction false} EscapeQueryAppend(a: string, b: string)
    ensures EscapeQuery(a + b) == EscapeQuery(a) + EscapeQuery(b)
    decreases |a|
  {
    if a == [] {
      assert a + b == b;
    } else {
      assert (a + b)[0] == a[0];
      assert (a + b)[1..] == a[1..] + b;
      EscapeQueryAppend(a[1..], b);
    }
  }

  /** A string without '"' or '\\' is left as it is. */
  lemma {:induction false} EscapeQueryKeepsClean(s: string)
    requires forall k :: 0 <= k < |s| ==> !Unsafe(s[k])
    ensures EscapeQuery(s) == s
    decreases |s|
  {
    if s != [] {
      assert !Unsafe(s[0]);
      EscapeQueryKeepsClean(s[1..]);
    }
  }

  lemma EscapeQueryIdempotent(s: string)
    ensures EscapeQuery(EscapeQuery(s)) == EscapeQuery(s)
  {
    EscapeQueryKeepsClean(EscapeQuery(s));
  }

  /** joinInts: the decimal renderings, separated by single commas. */
  method JoinInts(nums: seq<int>) returns (result: string)
    ensures nums == [] ==> result == ""
    ensures nums != [] ==> result == Join(Map(nums, IntToString), ',')
  {
    result := "";
    var i := 0;
    while i < |nums|
      invariant 0 <= i <= |nums|
      invariant i == 0 ==> result == ""
      invariant i > 0 ==> result == Join(Map(nums[..i], IntToString), ',')
    {
      var parts := Map(nums[..i], IntToString);
      MapSnoc(nums, i, IntToString);
      if i > 0 {
        JoinSnoc(parts, IntToString(nums[i]), ',');
        result := result + ",";
      } else {
        assert parts + [IntToString(nums[i])] == [IntToString(nums[i])];
      }
      result := result + IntToString(nums[i]);
      i := i + 1;
    }
    assert nums[..|nums|] == nums;
  }

  /** Splitting a joined id list on ',' gives one decimal per id, and each
      parses back to its id. */
  lemma JoinIntsRoundTrip(nums: seq<int>)
    requires nums != []
    requires forall k :: 0 <= k < |nums| ==> Int64Min <= nums[k] <= Int64Max
    ensures Split(Join(Map(nums, IntToString), ','), ',') == Map(nums, IntToString)
    ensures forall k :: 0 <= k < |nums| ==> ParseInt64(Split(Join(Map(nums, IntToString), ','), ',')[k]) == Some(nums[k])
  {
    var parts := Map(nums, IntToString);
    SplitJoin(parts, ',');
    forall k | 0 <= k < |nums| ensures ParseInt64(parts[k]) == Some(nums[k]) {
      ParseFormatInt64(nums[k]);
    }
  }

  // ---------------------------------------------------------------------
  // Image URLs

  /** expandImageURL: "https:" before a leading "//", the first "t_thumb"
      becomes "t_720p", and a trailing ".jpg" becomes ".png". */
  function ExpandImageURL(url: string): (r: string)
    ensures r == PngSuffix(ReplaceFirst(WithScheme(url), "t_thumb", "t_720p"))
    ensures !HasSuffix(r, ".jpg")
    ensures HasPrefix(url, "//") ==> HasPrefix(r, "https://")
    ensures !HasPrefix(url, "//") && !Contains(url, "t_thumb") && !HasSuffix(url, ".jpg") ==> r == url
  {
    var withScheme := WithScheme(url);
    PrefixSurvivesReplace(withScheme, url);
    PngSuffix(ReplaceFirst(withScheme, "t_thumb", "t_720p"))
  }

  /** "https:" before a protocol-relative URL. */
  function WithScheme(url: string): (r: string)
    ensures HasPrefix(url, "//") ==> r == "https:" + url
    ensures !HasPrefix(url, "//") ==> r == url
  {
    if HasPrefix(url, "//") then "https:" + url else url
  }

  /** A final ".jpg" becomes ".png"; any other string is kept. */
  function PngSuffix(s: string): (r: string)
    ensures !HasSuffix(r, ".jpg")
    ensures HasSuffix(s, ".jpg") ==> HasSuffix(r, ".png") && r[..|r| - 4] == s[..|s| - 4]
    ensures !HasSuffix(s, ".jpg") ==> r == s
  {
    if HasSuffix(s, ".jpg") then
      var r := s[..|s| - 4] + ".png";
      assert r[|r| - 4..] == ".png";
      r
    else s
  }

  /** Replacing "t_thumb" after "https:" keeps the "https://" prefix. */
  lemma PrefixSurvivesReplace(withScheme: string, url: string)
    requires withScheme == (if HasPrefix(url, "//") then "https:" + url else url)
    ensures HasPrefix(url, "//") ==> HasPrefix(ReplaceFirst(withScheme, "t_thumb", "t_720p"), "https://")
  {
    if HasPrefix(url, "//") {
      var s := withScheme;
      assert s[..8] == "https://" by {
        assert s[..6] == "https:" && s[6..8] == url[..2];
      }
      assert s[1] == 't' && s[2] == 't' && s[3] == 'p' && s[7] == '/' by {
        assert s[1] == s[..8][1] && s[2] == s[..8][2] && s[3] == s[..8][3] && s[7] == s[..8][7];
      }
      forall i | 0 <= i < 8 ensures !OccursAt(s, "t_thumb", i) {
        if i + 7 <= |s| {
          assert s[i..i + 7][0] == s[i] && s[i..i + 7][1] == s[i + 1];
          assert s[i] == s[..8][i];
          assert i + 1 < 8 ==> s[i + 1] == s[..8][i + 1];
        }
      }
      match IndexOf(s, "t_thumb")
      case Some(i) =>
        var sized := s[..i] + "t_720p" + s[i + 7..];
        assert i >= 8;
        assert sized[..8] == s[..8];
      case None =>
    }
  }

  // ---------------------------------------------------------------------
  // Logos

  /** The last logo of each preferred type seen so far, by index. */
  datatype LogoPicks = LogoPicks(color: Option<nat>, white: Option<nat>, black: Option<nat>)

  /** The loop over the logos: each one of type 7, 5 or 6 replaces the pick
      for its type; other types are ignored. */
  function ScanLogos(logos: seq<Artwork>): (p: LogoPicks)
    decreases |logos|
  {
    if logos == [] then LogoPicks(None, None, None)
    else
      var p := ScanLogos(logos[..|logos| - 1]);
      var i := |logos| - 1;
      match logos[i].artworkType
      case 7 => p.(color := Some(i))
      case 5 => p.(white := Some(i))
      case 6 => p.(black := Some(i))
      case _ => p
  }

  /** The index of the last logo of type t. */
  predicate IsLastOfType(logos: seq<Artwork>, t: int, r: Option<nat>) {
    (r.Some? ==> r.value < |logos| && logos[r.value].artworkType == t &&
                 forall j :: r.value < j < |logos| ==> logos[j].artworkType != t) &&
    (r.None? ==> forall j :: 0 <= j < |logos| ==> logos[j].artworkType != t)
  }

  lemma {:induction false} ScanLogosLast(logos: seq<Artwork>)
    ensures IsLastOfType(logos, 7, ScanLogos(logos).color)
    ensures IsLastOfType(logos, 5, ScanLogos(logos).white)
    ensures IsLastOfType(logos, 6, ScanLogos(logos).black)
    decreases |logos|
  {
    if logos != [] {
      var init := logos[..|logos| - 1];
      ScanLogosLast(init);
      assert forall j :: 0 <= j < |init| ==> init[j] == logos[j];
    }
  }

  /** The chosen logo: colour, else white, else black. */
  function SelectLogo(logos: seq<Artwork>): (r: Option<Artwork>)
    ensures r.Some? ==> r.value in logos && r.value.artworkType in {5, 6, 7}
    ensures r.None? <==> forall j :: 0 <= j < |logos| ==> logos[j].artworkType !in {5, 6, 7}
  {
    var p := ScanLogos(logos);
    ScanLogosLast(logos);
    if p.color.Some? then Some(logos[p.color.value])
    else if p.white.Some? then Some(logos[p.white.value])
    else if p.black.Some? then Some(logos[p.black.value])
    else None
  }

  /** Priority: a colour logo beats every white or black one, and among the
      logos of the winning type the last listed one is chosen. */
  lemma LogoPriority(logos: seq<Artwork>, k: nat)
    requires k < |logos|
    requires logos[k].artworkType == 7 || (logos[k].artworkType == 5 && forall j :: 0 <= j < |logos| ==> logos[j].artworkType != 7)
             || (logos[k].artworkType == 6 && forall j :: 0 <= j < |logos| ==> logos[j].artworkType != 7 && logos[j].artworkType != 5)
    requires forall j :: k < j < |logos| ==> logos[j].artworkType != logos[k].artworkType
    ensures SelectLogo(logos) == Some(logos[k])
  {
    ScanLogosLast(logos);
  }

  // ---------------------------------------------------------------------
  // Resolve

  /** The client's answers, as functions of the request arguments: search
      by (name, platform id), genres by id list, cover by id, screenshots,
      artworks and logos by game id. */
  datatype Api = Api(
    search: (string, int) -> Result<IgdbGame>,
    genres: seq<int> -> Result<seq<Genre>>,
    cover: int -> Result<Image>,
    screenshots: int -> Result<seq<Image>>,
    artworks: int -> Result<seq<Artwork>>,
    logos: int -> Result<seq<Artwork>>)

  function GenreNames(gs: seq<Genre>): (r: seq<string>)
    ensures |r| == |gs|
    ensures forall k :: 0 <= k < |gs| ==> r[k] == gs[k].name
  {
    if gs == [] then [] else [gs[0].name] + GenreNames(gs[1..])
  }

  function Genres(g: IgdbGame, api: Api): seq<string> {
    if |g.genres| > 0 && api.genres(g.genres).Ok? then GenreNames(api.genres(g.genres).value) else []
  }

  predicate HasCover(g: IgdbGame, api: Api) {
    g.cover > 0 && api.cover(g.cover).Ok? && api.cover(g.cover).value.url != ""
  }

  predicate HasScreenshot(g: IgdbGame, api: Api) {
    |g.screenshots| > 0 && api.screenshots(g.id).Ok? && |api.screenshots(g.id).value| > 0
  }

  predicate HasArtwork(g: IgdbGame, api: Api) {
    |g.artworks| > 0 && api.artworks(g.id).Ok? && |api.artworks(g.id).value| > 0
  }

  predicate HasLogo(g: IgdbGame, api: Api) {
    api.logos(g.id).Ok? && SelectLogo(api.logos(g.id).value).Some?
  }

  const ArtKinds: set<string> := {"cover", "screenshot", "artwork", "logo"}

  /** The unexpanded URL each kind of art would show, if any. */
  function CoverURL(g: IgdbGame, api: Api): (r: Option<string>)
    ensures r.Some? <==> HasCover(g, api)
  {
    if HasCover(g, api) then Some(api.cover(g.cover).value.url) else None
  }

  function ScreenshotURL(g: IgdbGame, api: Api): (r: Option<string>)
    ensures r.Some? <==> HasScreenshot(g, api)
  {
    if HasScreenshot(g, api) then Some(api.screenshots(g.id).value[0].url) else None
  }

  function ArtworkURL(g: IgdbGame, api: Api): (r: Option<string>)
    ensures r.Some? <==> HasArtwork(g, api)
  {
    if HasArtwork(g, api) then Some(api.artworks(g.id).value[0].url) else None
  }

  function LogoURL(g: IgdbGame, api: Api): (r: Option<string>)
    ensures r.Some? <==> HasLogo(g, api)
  {
    if HasLogo(g, api) then Some(SelectLogo(api.logos(g.id).value).value.url) else None
  }

  /** Records the expanded URL under `kind` when there is one. */
  function Put(m: map<string, string>, kind: string, url: Option<string>): (r: map<string, string>)
    ensures r.Keys == m.Keys + (if url.Some? then {kind} else {})
    ensures forall x :: x in m && x != kind ==> r[x] == m[x]
    ensures url.Some? ==> r[kind] == ExpandImageURL(url.value)
  {
    if url.Some? then m[kind := ExpandImageURL(url.value)] else m
  }

  lemma ArtKindsDistinct()
    ensures "cover" != "screenshot" && "cover" != "artwork" && "cover" != "logo"
    ensures "screenshot" != "artwork" && "screenshot" != "logo" && "artwork" != "logo"
  {
    assert "cover"[0] != "screenshot"[0] && "cover"[0] != "artwork"[0] && "cover"[0] != "logo"[0];
    assert "screenshot"[0] != "artwork"[0] && "screenshot"[0] != "logo"[0] && "artwork"[0] != "logo"[0];
  }

  /** The art URLs: each kind is present exactly when its lookup succeeded
      with something to show, and holds the expanded URL of the cover, the
      first screenshot, the first artwork or the chosen logo. */
  function ArtURLs(g: IgdbGame, api: Api): (m: map<string, string>)
    ensures m.Keys <= ArtKinds
    ensures "cover" in m <==> HasCover(g, api)
    ensures "screenshot" in m <==> HasScreenshot(g, api)
    ensures "artwork" in m <==> HasArtwork(g, api)
    ensures "logo" in m <==> HasLogo(g, api)
    ensures HasCover(g, api) ==> m["cover"] == ExpandImageURL(api.cover(g.cover).value.url)
    ensures HasScreenshot(g, api) ==> m["screenshot"] == ExpandImageURL(api.screenshots(g.id).value[0].url)
    ensures HasArtwork(g, api) ==> m["artwork"] == ExpandImageURL(api.artworks(g.id).value[0].url)
    ensures HasLogo(g, api) ==> m["logo"] == ExpandImageURL(SelectLogo(api.logos(g.id).value).value.url)
  {
    ArtKindsDistinct();
    var m1 := Put(map[], "cover", CoverURL(g, api));
    var m2 := Put(m1, "screenshot", ScreenshotURL(g, api));
    var m3 := Put(m2, "artwork", ArtworkURL(g, api));
    Put(m3, "logo", LogoURL(g, api))
  }

  /** The result assembled from the game found. */
  function Assemble(req: FetchRequest, g: IgdbGame, api: Api): (r: ResolvedMetadata)
    ensures r.gameMetadata.name == g.name && r.gameMetadata.description == g.summary
    ensures r.gameMetadata.releaseDate.Some? <==> g.releaseDate > 0
    ensures r.gameMetadata.releaseDate.Some? ==> r.gameMetadata.releaseDate.value == g.releaseDate
    ensures r.gameMetadata.developer == "" && r.gameMetadata.publisher == ""
    ensures r.platformMetadata.Keys == {req.platform} && r.platformMetadata[req.platform].platform == req.platform
    ensures r.artURLs.Keys <= ArtKinds
  {
    ResolvedMetadata(
      GameMetadata(g.name, g.summary, if g.releaseDate > 0 then Some(g.releaseDate) else None, "", "", Genres(g, api)),
      map[req.platform := PlatformMetadata(req.platform, None, "", "")],
      ArtURLs(g, api))
  }

  function Resolve(req: FetchRequest, api: Api): (r: Result<ResolvedMetadata>)
    ensures Lower(req.platform) !in PlatformIDs ==> r == Err("unsupported platform: " + req.platform)
  {
    var key := Lower(req.platform);
    if key !in PlatformIDs then Err("unsupported platform: " + req.platform)
    else
      match api.search(req.name, PlatformIDs[key])
      case Err(m) => Err("failed to search game: " + m)
      case Ok(g) => Ok(Assemble(req, g, api))
  }

  /** Resolve fails exactly when the platform is unknown or the search
      fails; the genre, cover, screenshot, artwork and logo lookups never
      make it fail. */
  lemma ResolveFailsOnlyEarly(req: FetchRequest, api: Api, other: Api)
    requires other.search == api.search
    ensures Resolve(req, api).Err? <==>
      Lower(req.platform) !in PlatformIDs || api.search(req.name, PlatformIDs[Lower(req.platform)]).Err?
    ensures Resolve(req, api).Err? <==> Resolve(req, other).Err?
  {
  }

  /** A supported request that the search answers resolves to that game. */
  lemma SupportedResolves(req: FetchRequest, api: Api, g: IgdbGame)
    requires Supports(req.source, req.platform)
    requires api.search(req.name, PlatformIDs[Lower(req.platform)]) == Ok(g)
    ensures Resolve(req, api) == Ok(Assemble(req, g, api))
    ensures Resolve(req, api).value.gameMetadata.name == g.name
  {
  }
}
