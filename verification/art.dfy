/** The art composer: downloading art with content-type sniffing, choosing
    the background and logo of a composed 460x215 header, downloading every
    art type of a game, and the on-disk art cache. HTTP replies, image
    decoding and logo scaling are inputs; pixels are not modelled, only the
    sizes and positions the composer computes. */
module Art {
  import opened Wrappers
  import opened Models
  import opened Text

  // ---------------------------------------------------------------------
  // Downloads and format detection

  /** What one HTTP GET produced: a request that could not be built, a
      transport failure, or a response whose body read may have failed. */
  datatype HttpReply =
    | InvalidRequest(msg: string)
    | RequestFailed(msg: string)
    | HttpResponse(status: int, contentType: string, body: Result<Bytes>)

  /** The result of the format detection as written: a format name, or the
      index-out-of-range panic. */
  datatype Sniff = Sniffed(format: string) | IndexOutOfRange

  predicate TypedByHeader(contentType: string) {
    contentType == "image/png" || contentType == "image/jpeg" || contentType == "image/jpg"
  }

  /** The detection in downloadImageBytes as written: the Content-Type
      header decides; otherwise the magic bytes 0x89 0x50 mean png and
      0xFF 0xD8 jpeg. The second byte is read whenever the first matches,
      even when the body has a single byte. */
  function SniffAsWritten(contentType: string, data: Bytes): (r: Sniff)
    ensures r.IndexOutOfRange? <==>
              !TypedByHeader(contentType) && |data| == 1 && (data[0] == 0x89 || data[0] == 0xFF)
  {
    if contentType == "image/png" then Sniffed("png")
    else if contentType == "image/jpeg" || contentType == "image/jpg" then Sniffed("jpeg")
    else if |data| > 0 then
      if data[0] == 0x89 && |data| < 2 then IndexOutOfRange
      else if data[0] == 0x89 && data[1] == 0x50 then Sniffed("png")
      else if data[0] == 0xFF && |data| < 2 then IndexOutOfRange
      else if data[0] == 0xFF && data[1] == 0xD8 then Sniffed("jpeg")
      else Sniffed("")
    else Sniffed("")
  }

  /** A one-byte body starting like a PNG signature, served without an
      image content type, makes the detection read past the end. */
  lemma SniffOneByteBody()
    ensures SniffAsWritten("application/octet-stream", [0x89]) == IndexOutOfRange
    ensures SniffAsWritten("", [0xFF]) == IndexOutOfRange
  {
  }

  /** The detection with the length check the magic-byte test needs. */
  function DetectFormat(contentType: string, data: Bytes): (r: string)
    ensures r == "png" || r == "jpeg" || r == ""
    ensures r == "png" <==>
              contentType == "image/png"
              || (!TypedByHeader(contentType) && |data| >= 2 && data[0] == 0x89 && data[1] == 0x50)
    ensures r == "jpeg" <==>
              contentType == "image/jpeg" || contentType == "image/jpg"
              || (!TypedByHeader(contentType) && |data| >= 2 && data[0] == 0xFF && data[1] == 0xD8)
  {
    if contentType == "image/png" then "png"
    else if contentType == "image/jpeg" || contentType == "image/jpg" then "jpeg"
    else if |data| >= 2 && data[0] == 0x89 && data[1] == 0x50 then "png"
    else if |data| >= 2 && data[0] == 0xFF && data[1] == 0xD8 then "jpeg"
    else ""
  }

  /** Wherever the code as written does not panic, the corrected detection
      answers the same; where it panics, the corrected one answers "". */
  lemma DetectFormatAgrees(contentType: string, data: Bytes)
    ensures SniffAsWritten(contentType, data).Sniffed? ==>
              SniffAsWritten(contentType, data).format == DetectFormat(contentType, data)
    ensures SniffAsWritten(contentType, data).IndexOutOfRange? ==> DetectFormat(contentType, data) == ""
  {
  }

  /** downloadImageBytes: any status but 200 is an error; otherwise the
      body and its detected format. */
  function DownloadImageBytes(reply: HttpReply): (r: Result<(Bytes, string)>)
    ensures r.Ok? <==> reply.HttpResponse? && reply.status == 200 && reply.body.Ok?
    ensures r.Ok? ==> r.value.0 == reply.body.value && r.value.1 == DetectFormat(reply.contentType, reply.body.value)
    ensures reply.HttpResponse? && reply.status != 200 ==>
              r == Err("image download returned status " + IntToString(reply.status))
  {
    match reply
    case InvalidRequest(e) => Err("failed to create request: " + e)
    case RequestFailed(e) => Err("failed to download image: " + e)
    case HttpResponse(status, contentType, body) =>
      if status != 200 then Err("image download returned status " + IntToString(status))
      else match body
        case Err(e) => Err("failed to read image data: " + e)
        case Ok(data) => Ok((data, DetectFormat(contentType, data)))
  }

  /** An image, known by its size. */
  datatype Image = Image(width: int, height: int)

  /** downloadImage: the bytes, then the decoder; a decode error names the
      detected format. */
  function DownloadImage(reply: HttpReply, decode: Bytes -> Result<Image>): (r: Result<Image>)
    ensures r.Ok? <==> DownloadImageBytes(reply).Ok? && decode(DownloadImageBytes(reply).value.0).Ok?
    ensures r.Ok? ==> r.value == decode(DownloadImageBytes(reply).value.0).value
  {
    match DownloadImageBytes(reply)
    case Err(e) => Err(e)
    case Ok((data, format)) =>
      match decode(data)
      case Err(e) => Err("failed to decode " + format + " image: " + e)
      case Ok(img) => Ok(img)
  }

  // ---------------------------------------------------------------------
  // Header composition

  const HeaderWidth := 460
  const HeaderHeight := 215

  /** int(float32(460) * .6): the logo is scaled to fit 276 pixels wide
      (the comment in the source says 50%, the code uses 60%). */
  const MaxLogoWidth := 276

  /** Go's integer division, which truncates toward zero. */
  function GoDiv(a: int, b: int): (q: int)
    requires b > 0
    ensures a >= 0 ==> q == a / b
    ensures a < 0 ==> q == -((-a) / b)
  {
    if a >= 0 then a / b else -((-a) / b)
  }

  /** Where a w x h logo is drawn on the header. */
  datatype Placed = Placed(x: int, y: int, width: int, height: int)

  function Center(w: int, h: int): Placed {
    Placed(GoDiv(HeaderWidth - w, 2), GoDiv(HeaderHeight - h, 2), w, h)
  }

  /** The margins left and right of the logo (and above and below it) differ
      by at most one pixel, for any size; a logo that fits lies inside the
      header. */
  lemma CenterBalanced(w: int, h: int)
    ensures var p := Center(w, h);
            -1 <= (HeaderWidth - (p.x + w)) - p.x <= 1 && -1 <= (HeaderHeight - (p.y + h)) - p.y <= 1
    ensures 0 <= w <= HeaderWidth && 0 <= h <= HeaderHeight ==>
              var p := Center(w, h);
              0 <= p.x && p.x + w <= HeaderWidth && 0 <= p.y && p.y + h <= HeaderHeight
  {
  }

  /** Truncation, not flooring: a logo three pixels too wide overhangs one
      pixel on the left and two on the right. */
  lemma CenterOversized()
    ensures Center(HeaderWidth + 3, HeaderHeight).x == -1
  {
  }

  /** The result of trying the background candidates: the image and which
      candidate it came from, and every URL a download was attempted for. */
  datatype Background = Background(chosen: Option<(Image, string)>, attempts: seq<string>)

  type Fetch = string -> HttpReply

  predicate Usable(url: string, fetch: Fetch, decode: Bytes -> Result<Image>) {
    url != "" && DownloadImage(fetch(url), decode).Ok?
  }

  /** The index of the first candidate whose URL is non-empty and whose
      download succeeds. */
  function FirstUsable(cands: seq<(string, string)>, fetch: Fetch, decode: Bytes -> Result<Image>): (k: Option<nat>)
    ensures k.None? <==> forall j :: 0 <= j < |cands| ==> !Usable(cands[j].1, fetch, decode)
    ensures k.Some? ==> k.value < |cands| && Usable(cands[k.value].1, fetch, decode)
    ensures k.Some? ==> forall j :: 0 <= j < k.value ==> !Usable(cands[j].1, fetch, decode)
  {
    if cands == [] then None
    else if Usable(cands[0].1, fetch, decode) then Some(0)
    else
      var rest := FirstUsable(cands[1..], fetch, decode);
      assert forall j :: 0 < j < |cands| ==> cands[j] == cands[1..][j - 1];
      if rest.None? then None else Some(rest.value + 1)
  }

  /** Candidates in order, named: empty URLs are skipped without a download,
      failed downloads are passed over, and the first success wins. */
  function FirstBackground(cands: seq<(string, string)>, fetch: Fetch, decode: Bytes -> Result<Image>): (r: Background)
    ensures "" !in r.attempts && |r.attempts| <= |cands|
    ensures r.chosen.None? <==> FirstUsable(cands, fetch, decode).None?
    ensures r.chosen.Some? ==>
              var k := FirstUsable(cands, fetch, decode).value;
              && r.chosen.value == (DownloadImage(fetch(cands[k].1), decode).value, cands[k].0)
              && |r.attempts| > 0 && r.attempts[|r.attempts| - 1] == cands[k].1
  {
    if cands == [] then Background(None, [])
    else
      var (name, url) := cands[0];
      var rest := FirstBackground(cands[1..], fetch, decode);
      if url == "" then rest
      else
        match DownloadImage(fetch(url), decode)
        case Ok(img) => Background(Some((img, name)), [url])
        case Err(_) => Background(rest.chosen, [url] + rest.attempts)
  }

  /** ComposeHeader's candidates: screenshot, then artwork, then cover. */
  function BackgroundCandidates(screenshotURL: string, coverURL: string, artworkURL: string): seq<(string, string)> {
    [("screenshot", screenshotURL), ("artwork", artworkURL), ("cover", coverURL)]
  }

  /** The composed header: which background was used and where the logo,
      if any, was drawn. */
  datatype Header = Header(background: Image, backgroundSource: string, logo: Option<Placed>)

  datatype Composed = Composed(result: Result<Header>, attempts: seq<string>)

  /** What scalePreserveAspect promises of the scaled logo: it fits in
      MaxLogoWidth x HeaderHeight (the smaller of the two scales, truncated,
      and at least one pixel each way). */
  predicate InLogoBox(img: Image) {
    0 <= img.width <= MaxLogoWidth && 0 <= img.height <= HeaderHeight
  }

  /** ComposeHeader. `fitLogo` is the aspect-preserving scale to at most
      MaxLogoWidth x HeaderHeight; when it keeps that promise the logo is
      at most MaxLogoWidth wide and lies inside the header. */
  function ComposeHeader(screenshotURL: string, logoURL: string, coverURL: string, artworkURL: string,
                         fetch: Fetch, decode: Bytes -> Result<Image>, fitLogo: Image -> Image): (c: Composed)
    ensures var bg := FirstBackground(BackgroundCandidates(screenshotURL, coverURL, artworkURL), fetch, decode);
            && (c.result.Err? <==> bg.chosen.None?)
            && (c.result.Err? ==> c == Composed(Err("no background image available for header composition"), bg.attempts))
            && (c.result.Ok? ==> c.result.value.background == bg.chosen.value.0
                                 && c.result.value.backgroundSource == bg.chosen.value.1)
    ensures c.result.Ok? ==>
              && (c.result.value.logo.Some? <==> Usable(logoURL, fetch, decode))
              && (logoURL != "" <==> |c.attempts| > 0 && c.attempts[|c.attempts| - 1] == logoURL
                                     && c.attempts[..|c.attempts| - 1] ==
                                        FirstBackground(BackgroundCandidates(screenshotURL, coverURL, artworkURL), fetch, decode).attempts)
    ensures c.result.Ok? && c.result.value.logo.Some? ==>
              var fitted := fitLogo(DownloadImage(fetch(logoURL), decode).value);
              c.result.value.logo.value == Center(fitted.width, fitted.height)
    ensures c.result.Ok? && c.result.value.logo.Some? &&
            InLogoBox(fitLogo(DownloadImage(fetch(logoURL), decode).value)) ==>
              var p := c.result.value.logo.value;
              p.width <= MaxLogoWidth && 0 <= p.x && p.x + p.width <= HeaderWidth &&
              0 <= p.y && p.y + p.height <= HeaderHeight
  {
    var bg := FirstBackground(BackgroundCandidates(screenshotURL, coverURL, artworkURL), fetch, decode);
    match bg.chosen
    case None => Composed(Err("no background image available for header composition"), bg.attempts)
    case Some((img, source)) =>
      if logoURL == "" then
        Composed(Ok(Header(img, source, None)), bg.attempts)
      else
        var attempts := bg.attempts + [logoURL];
        assert attempts[..|attempts| - 1] == bg.attempts;
        match DownloadImage(fetch(logoURL), decode)
        case Err(_) => Composed(Ok(Header(img, source, None)), attempts)
        case Ok(logo) =>
          var fitted := fitLogo(logo);
          CenterBalanced(fitted.width, fitted.height);
          Composed(Ok(Header(img, source, Some(Center(fitted.width, fitted.height)))), attempts)
  }

  /** A usable screenshot is always the background, and then neither the
      artwork nor the cover is downloaded. */
  lemma ScreenshotFirst(screenshotURL: string, logoURL: string, coverURL: string, artworkURL: string,
                        fetch: Fetch, decode: Bytes -> Result<Image>, fitLogo: Image -> Image)
    requires Usable(screenshotURL, fetch, decode)
    ensures var c := ComposeHeader(screenshotURL, logoURL, coverURL, artworkURL, fetch, decode, fitLogo);
            && c.result.Ok? && c.result.value.backgroundSource == "screenshot"
            && c.attempts == [screenshotURL] + (if logoURL != "" then [logoURL] else [])
  {
  }

  /** A logo that fails to download never fails the header. */
  lemma LogoNeverFails(screenshotURL: string, logoURL: string, coverURL: string, artworkURL: string,
                       fetch: Fetch, decode: Bytes -> Result<Image>, fitLogo: Image -> Image)
    ensures var c := ComposeHeader(screenshotURL, logoURL, coverURL, artworkURL, fetch, decode, fitLogo);
            var d := ComposeHeader(screenshotURL, "", coverURL, artworkURL, fetch, decode, fitLogo);
            c.result.Ok? <==> d.result.Ok?
  {
  }

  // ---------------------------------------------------------------------
  // Downloading every art type

  const ArtTypes := ["screenshot", "logo", "cover", "artwork"]

  /** Art types in `types` with a non-empty URL whose download succeeded. */
  function DownloadTypes(types: seq<string>, artURLs: map<string, string>, fetch: Fetch): (r: map<string, Bytes>)
    ensures forall t :: t in r <==>
              t in types && t in artURLs && artURLs[t] != "" && DownloadImageBytes(fetch(artURLs[t])).Ok?
    ensures forall t :: t in r ==> r[t] == DownloadImageBytes(fetch(artURLs[t])).value.0
  {
    if types == [] then map[]
    else
      var t := types[0];
      var rest := DownloadTypes(types[1..], artURLs, fetch);
      if t in artURLs && artURLs[t] != "" && DownloadImageBytes(fetch(artURLs[t])).Ok? then
        rest[t := DownloadImageBytes(fetch(artURLs[t])).value.0]
      else rest
  }

  /** DownloadAllArt: the four known art types, each present exactly when
      its URL is non-empty and its download succeeds. Other keys of the
      URL map are ignored. Downloads run concurrently, but each writes its
      own key, so the result does not depend on their order. */
  function DownloadAllArt(artURLs: map<string, string>, fetch: Fetch): (r: map<string, Bytes>)
    ensures r.Keys <= set t | t in ArtTypes
    ensures forall t :: t in r <==>
              t in ArtTypes && t in artURLs && artURLs[t] != "" && DownloadImageBytes(fetch(artURLs[t])).Ok?
    ensures forall t :: t in r ==> r[t] == DownloadImageBytes(fetch(artURLs[t])).value.0
  {
    DownloadTypes(ArtTypes, artURLs, fetch)
  }

  // ---------------------------------------------------------------------
  // The art cache

  /** The file system under the cache directory: path to contents. */
  type Files = map<string, Bytes>

  /** GetCachedArt and HasCachedArt: cacheDir/source/instanceID/artType.png. */
  function CachePath(cacheDir: string, source: string, instanceID: string, artType: string): (p: string)
    ensures HasSuffix(p, artType + ".png")
  {
    var leaf := artType + ".png";
    JoinPathLast([cacheDir, source, instanceID], leaf);
    assert [cacheDir, source, instanceID] + [leaf] == [cacheDir, source, instanceID, leaf];
    var p := JoinPath([cacheDir, source, instanceID, leaf]);
    assert p[|p| - |leaf|..] == leaf;
    p
  }

  /** CacheArt builds the same path in two steps: the directory first, then
      the file name inside it. */
  lemma CacheArtPathAgrees(cacheDir: string, source: string, instanceID: string, artType: string)
    ensures JoinPath([JoinPath([cacheDir, source, instanceID]), artType + ".png"]) ==
            CachePath(cacheDir, source, instanceID, artType)
  {
    var dir := JoinPath([cacheDir, source, instanceID]);
    var leaf := artType + ".png";
    JoinPathLast([dir], leaf);
    JoinPathOne(dir);
    assert [dir] + [leaf] == [dir, leaf];
    JoinPathLast([cacheDir, source, instanceID], leaf);
    assert [cacheDir, source, instanceID] + [leaf] == [cacheDir, source, instanceID, leaf];
  }

  datatype Written = Written(files: Files, err: Option<string>)

  /** CacheArt: a failed MkdirAll or WriteFile is an error and leaves the
      cache as it was; otherwise the data is stored at the art's path. */
  function CacheArt(files: Files, cacheDir: string, source: string, instanceID: string, artType: string,
                    data: Bytes, mkdirErr: Option<string>, writeErr: Option<string>): (w: Written)
    ensures w.err.None? <==> mkdirErr.None? && writeErr.None?
    ensures mkdirErr.Some? ==> w == Written(files, Some("failed to create art cache directory: " + mkdirErr.value))
    ensures mkdirErr.None? && writeErr.Some? ==> w == Written(files, Some("failed to write art cache: " + writeErr.value))
    ensures w.err.None? ==> w.files == files[CachePath(cacheDir, source, instanceID, artType) := data]
  {
    if mkdirErr.Some? then Written(files, Some("failed to create art cache directory: " + mkdirErr.value))
    else if writeErr.Some? then Written(files, Some("failed to write art cache: " + writeErr.value))
    else
      CacheArtPathAgrees(cacheDir, source, instanceID, artType);
      var path := JoinPath([JoinPath([cacheDir, source, instanceID]), artType + ".png"]);
      Written(files[path := data], None)
  }

  /** GetCachedArt: the cached bytes, or the error of reading a missing file. */
  function GetCachedArt(files: Files, cacheDir: string, source: string, instanceID: string, artType: string): (r: Result<Bytes>)
    ensures r.Ok? <==> CachePath(cacheDir, source, instanceID, artType) in files
    ensures r.Ok? ==> r.value == files[CachePath(cacheDir, source, instanceID, artType)]
  {
    var path := CachePath(cacheDir, source, instanceID, artType);
    if path in files then Ok(files[path]) else Err("open " + path + ": no such file or directory")
  }

  /** HasCachedArt: whether the art's file exists. */
  function HasCachedArt(files: Files, cacheDir: string, source: string, instanceID: string, artType: string): (b: bool)
    ensures b <==> CachePath(cacheDir, source, instanceID, artType) in files
  {
    CachePath(cacheDir, source, instanceID, artType) in files
  }

  /** What CacheArt stores, GetCachedArt returns and HasCachedArt sees. */
  lemma CacheRoundTrip(files: Files, cacheDir: string, source: string, instanceID: string, artType: string, data: Bytes)
    ensures var w := CacheArt(files, cacheDir, source, instanceID, artType, data, None, None);
            && GetCachedArt(w.files, cacheDir, source, instanceID, artType) == Ok(data)
            && HasCachedArt(w.files, cacheDir, source, instanceID, artType)
  {
  }

  /** Has and Get agree on every cache. */
  lemma HasIffGet(files: Files, cacheDir: string, source: string, instanceID: string, artType: string)
    ensures HasCachedArt(files, cacheDir, source, instanceID, artType) <==>
            GetCachedArt(files, cacheDir, source, instanceID, artType).Ok?
  {
  }
}
