/** The HTTP route that serves game art: URLs of the form
    `<route>/art/<instanceID>/<artType>` and the handler that splits the
    path back into its parts and asks the instance's source for the image. */
module ArtRoutes {
  import opened Wrappers
  import opened Models
  import opened Text

  /** GetArtURL: an unset route is an error. */
  function GetArtURL(route: string, instanceID: string, artType: string): (r: Result<string>)
    ensures r.Err? <==> route == ""
    ensures r.Ok? ==> HasPrefix(r.value, route + "/art/")
    ensures r.Ok? ==> r.value == route + "/art/" + instanceID + "/" + artType
  {
    if route == "" then Err("service route not configured")
    else
      var u := route + "/art/" + instanceID + "/" + artType;
      assert u[..|route + "/art/"|] == route + "/art/";
      Ok(u)
  }

  /** The path parsing of ServeHTTP: drop one leading '/', split on '/', and
      take the second and third segments; fewer than three segments is a
      bad request. The first segment is not checked and later ones are
      ignored. */
  function ParseArtPath(path: string): (r: Result<(string, string)>)
    ensures r.Err? <==> |Split(TrimPrefix(path, "/"), '/')| < 3
    ensures r.Ok? ==> '/' !in r.value.0 && '/' !in r.value.1
    ensures r.Ok? ==> var parts := Split(TrimPrefix(path, "/"), '/');
      r.value == (parts[1], parts[2])
  {
    var parts := Split(TrimPrefix(path, "/"), '/');
    if |parts| < 3 then Err("Invalid URL") else Ok((parts[1], parts[2]))
  }

  /** Any '/'-free first segment works: "/<any>/<id>/<type>" parses to
      (id, type). */
  lemma ParseAnyPrefix(first: string, instanceID: string, artType: string)
    requires '/' !in first && '/' !in instanceID && '/' !in artType
    ensures ParseArtPath("/" + first + "/" + instanceID + "/" + artType) == Ok((instanceID, artType))
  {
    var path := "/" + first + "/" + instanceID + "/" + artType;
    var parts := [first, instanceID, artType];
    assert Join(parts[2..], '/') == artType;
    assert Join(parts[1..], '/') == instanceID + "/" + artType;
    assert Join(parts, '/') == first + "/" + instanceID + "/" + artType;
    assert HasPrefix(path, "/");
    assert TrimPrefix(path, "/") == Join(parts, '/');
    SplitJoin(parts, '/');
  }

  /** The handler recovers the id and art type from any URL GetArtURL
      builds, once the route prefix is stripped, when neither contains '/'. */
  lemma ArtURLRoundTrip(route: string, instanceID: string, artType: string)
    requires route != ""
    requires '/' !in instanceID && '/' !in artType
    ensures GetArtURL(route, instanceID, artType).Ok?
    ensures ParseArtPath(TrimPrefix(GetArtURL(route, instanceID, artType).value, route)) == Ok((instanceID, artType))
  {
    var u := GetArtURL(route, instanceID, artType).value;
    var tail := "/art/" + instanceID + "/" + artType;
    assert u == route + tail;
    assert HasPrefix(u, route);
    assert TrimPrefix(u, route) == tail;
    assert tail == "/" + "art" + "/" + instanceID + "/" + artType;
    ParseAnyPrefix("art", instanceID, artType);
  }

  /** A path with fewer than three segments is rejected. */
  lemma ShortPathRejected(first: string, second: string)
    requires '/' !in first && '/' !in second
    ensures ParseArtPath("/" + first + "/" + second).Err?
  {
    var parts := [first, second];
    assert Join(parts[1..], '/') == second;
    assert TrimPrefix("/" + first + "/" + second, "/") == Join(parts, '/');
    SplitJoin(parts, '/');
  }

  /** What the instance lookup and the source's GetGameArt answered. */
  datatype Lookup = LookupFailed | NotFound | Found(instance: GameInstance)

  type ArtFn = (string, string) -> Result<(Bytes, string)>

  datatype Response = Response(status: int, contentType: string, body: Bytes)

  /** ServeHTTP: 400 for a short path, 500 when the instance lookup fails or
      its source is not registered, 404 for a missing instance or art, and
      otherwise 200 with the source's content type and data. */
  function ServeArt(path: string, lookup: string -> Lookup, sources: map<string, ArtFn>): (r: Response)
    ensures ParseArtPath(path).Err? ==> r.status == 400
    ensures r.status == 200 <==>
              && ParseArtPath(path).Ok?
              && lookup(ParseArtPath(path).value.0).Found?
              && lookup(ParseArtPath(path).value.0).instance.source in sources
              && sources[lookup(ParseArtPath(path).value.0).instance.source](
                   ParseArtPath(path).value.0, ParseArtPath(path).value.1).Ok?
    ensures r.status == 200 ==>
              var id := ParseArtPath(path).value.0;
              var art := sources[lookup(id).instance.source](id, ParseArtPath(path).value.1).value;
              r.body == art.0 && r.contentType == art.1
    ensures ParseArtPath(path).Ok? ==>
              var id := ParseArtPath(path).value.0;
              && (lookup(id).LookupFailed? ==> r.status == 500)
              && (lookup(id).NotFound? ==> r.status == 404)
              && (lookup(id).Found? && lookup(id).instance.source !in sources ==> r.status == 500)
              && ((lookup(id).Found? && lookup(id).instance.source in sources
                   && sources[lookup(id).instance.source](id, ParseArtPath(path).value.1).Err?) ==> r.status == 404)
    ensures r.status in {200, 400, 404, 500}
  {
    match ParseArtPath(path)
    case Err(_) => Response(400, "text/plain; charset=utf-8", [])
    case Ok((id, artType)) =>
      match lookup(id)
      case LookupFailed => Response(500, "text/plain; charset=utf-8", [])
      case NotFound => Response(404, "text/plain; charset=utf-8", [])
      case Found(inst) =>
        if inst.source !in sources then Response(500, "text/plain; charset=utf-8", [])
        else match sources[inst.source](id, artType)
          case Err(_) => Response(404, "text/plain; charset=utf-8", [])
          case Ok((data, ct)) => Response(200, ct, data)
  }

  /** The error statuses read the other way: a 500 means the instance
      lookup failed or the instance's source is not registered, and a 404
      means the instance or its art is missing. */
  lemma ServeArtErrorCauses(path: string, lookup: string -> Lookup, sources: map<string, ArtFn>)
    ensures var r := ServeArt(path, lookup, sources);
            r.status == 500 <==>
              && ParseArtPath(path).Ok?
              && (|| lookup(ParseArtPath(path).value.0).LookupFailed?
                  || (lookup(ParseArtPath(path).value.0).Found?
                      && lookup(ParseArtPath(path).value.0).instance.source !in sources))
    ensures var r := ServeArt(path, lookup, sources);
            r.status == 404 <==>
              && ParseArtPath(path).Ok?
              && (|| lookup(ParseArtPath(path).value.0).NotFound?
                  || (lookup(ParseArtPath(path).value.0).Found?
                      && lookup(ParseArtPath(path).value.0).instance.source in sources
                      && sources[lookup(ParseArtPath(path).value.0).instance.source](
                           ParseArtPath(path).value.0, ParseArtPath(path).value.1).Err?))
  {
  }
}
