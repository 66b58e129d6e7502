/** The request URLs of the data service. The HTTP GET that each URL is handed to is
    not modelled. */
module GraveyardData {
  import opened Wrappers

  const BaseUrl: string := "https://wipperfuerth.pgconnect.de/api/v1/webgis"
  const FriedhofIdQuery: string := "?friedhofId="

  /** `url += '?friedhofId=' + friedhofId` when `friedhofId != null`; the id is
      appended as it is, with no encoding. */
  function WithFriedhofId(url: string, friedhofId: Option<string>): string {
    match friedhofId
    case None => url
    case Some(id) => url + FriedhofIdQuery + id
  }

  function AllGraveyards(): (url: string)
    ensures BaseUrl <= url && url[|BaseUrl|..] == "/friedhof"
  {
    BaseUrl + "/friedhof"
  }

  function AllAvailableGraveyards(friedhofId: Option<string>): (url: string)
    ensures friedhofId.None? ==> url == BaseUrl + "/grab"
    ensures friedhofId.Some? ==> url == BaseUrl + "/grab?friedhofId=" + friedhofId.value
  {
    WithFriedhofId(BaseUrl + "/grab", friedhofId)
  }

  function AllAvailableGravePlots(friedhofId: Option<string>): (url: string)
    ensures friedhofId.None? ==> url == BaseUrl + "/grabstelle"
    ensures friedhofId.Some? ==> url == BaseUrl + "/grabstelle?friedhofId=" + friedhofId.value
  {
    WithFriedhofId(BaseUrl + "/grabstelle", friedhofId)
  }

  function AllUnassignedGravePlots(): (url: string)
    ensures BaseUrl <= url && url[|BaseUrl|..] == "/grabstelle/unverknuepft"
  {
    BaseUrl + "/grabstelle/unverknuepft"
  }

  /** The four requests the service can make. */
  datatype Request =
    | Graveyards
    | AvailableGraveyards(friedhofId: Option<string>)
    | AvailableGravePlots(friedhofId: Option<string>)
    | UnassignedGravePlots

  function UrlOf(r: Request): string {
    match r
    case Graveyards => AllGraveyards()
    case AvailableGraveyards(id) => AllAvailableGraveyards(id)
    case AvailableGravePlots(id) => AllAvailableGravePlots(id)
    case UnassignedGravePlots => AllUnassignedGravePlots()
  }

  /** Reads back which request a URL stands for. */
  function ParseUrl(url: string): Option<Request> {
    if !(BaseUrl <= url) then None
    else
      var path := url[|BaseUrl|..];
      if path == "/friedhof" then Some(Graveyards)
      else if path == "/grabstelle/unverknuepft" then Some(UnassignedGravePlots)
      else if path == "/grab" then Some(AvailableGraveyards(None))
      else if path == "/grabstelle" then Some(AvailableGravePlots(None))
      else if "/grab" + FriedhofIdQuery <= path then
        Some(AvailableGraveyards(Some(path[|"/grab" + FriedhofIdQuery|..])))
      else if "/grabstelle" + FriedhofIdQuery <= path then
        Some(AvailableGravePlots(Some(path[|"/grabstelle" + FriedhofIdQuery|..])))
      else None
  }

  /** The path the service appends to the base URL reads back as its request. */
  lemma PathOfUrl(path: string)
    ensures ParseUrl(BaseUrl + path) ==
              if path == "/friedhof" then Some(Graveyards)
              else if path == "/grabstelle/unverknuepft" then Some(UnassignedGravePlots)
              else if path == "/grab" then Some(AvailableGraveyards(None))
              else if path == "/grabstelle" then Some(AvailableGravePlots(None))
              else if "/grab" + FriedhofIdQuery <= path then
                Some(AvailableGraveyards(Some(path[|"/grab" + FriedhofIdQuery|..])))
              else if "/grabstelle" + FriedhofIdQuery <= path then
                Some(AvailableGravePlots(Some(path[|"/grabstelle" + FriedhofIdQuery|..])))
              else None
  {
    assert (BaseUrl + path)[..|BaseUrl|] == BaseUrl;
    assert (BaseUrl + path)[|BaseUrl|..] == path;
  }

  /** A `/grab` query URL is none of the fixed paths and carries the id after the query. */
  lemma GrabQueryPath(id: string)
    ensures ParseUrl(BaseUrl + ("/grab" + FriedhofIdQuery + id)) == Some(AvailableGraveyards(Some(id)))
  {
    var path := "/grab" + FriedhofIdQuery + id;
    PathOfUrl(path);
    assert path[5] == '?' && |path| >= 17;
    assert path[..17] == "/grab" + FriedhofIdQuery;
    assert path[17..] == id;
  }

  /** A `/grabstelle` query URL is none of the fixed paths, not a `/grab` query, and
      carries the id after the query. */
  lemma GrabstelleQueryPath(id: string)
    ensures ParseUrl(BaseUrl + ("/grabstelle" + FriedhofIdQuery + id)) == Some(AvailableGravePlots(Some(id)))
  {
    var path := "/grabstelle" + FriedhofIdQuery + id;
    PathOfUrl(path);
    assert path[5] == 's' && path[11] == '?' && |path| >= 23;
    assert path[..23] == "/grabstelle" + FriedhofIdQuery;
    assert path[23..] == id;
  }

  /** Every URL the service builds names its endpoint and its id exactly, so no
      two different requests share a URL. */
  lemma ParseUrlOfUrl(r: Request)
    ensures ParseUrl(UrlOf(r)) == Some(r)
  {
    match r
    case Graveyards =>
      PathOfUrl("/friedhof");
    case UnassignedGravePlots =>
      PathOfUrl("/grabstelle/unverknuepft");
    case AvailableGraveyards(None) =>
      PathOfUrl("/grab");
    case AvailableGravePlots(None) =>
      PathOfUrl("/grabstelle");
    case AvailableGraveyards(Some(id)) =>
      assert UrlOf(r) == BaseUrl + ("/grab" + FriedhofIdQuery + id);
      GrabQueryPath(id);
    case AvailableGravePlots(Some(id)) =>
      assert UrlOf(r) == BaseUrl + ("/grabstelle" + FriedhofIdQuery + id);
      GrabstelleQueryPath(id);
  }

  lemma UrlOfInjective(r1: Request, r2: Request)
    requires UrlOf(r1) == UrlOf(r2)
    ensures r1 == r2
  {
    ParseUrlOfUrl(r1);
    ParseUrlOfUrl(r2);
  }
}
