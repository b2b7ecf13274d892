/**
 * GitHub Releases support of the updater (updater.php): which release asset
 * is downloaded, the asset API endpoint used when a token is configured, and
 * the authentication headers added to outgoing requests to GitHub.
 */
module Github {
  import opened Php
  import opened Sources
  import opened Urls

  /** A release asset as decoded from the GitHub API; absent properties are None. */
  datatype Asset = Asset(name: Option<string>, id: Option<int>, browserDownloadUrl: Option<string>)

  /** The fields of a decoded GitHub release the updater reads. */
  datatype Release = Release(
    tagName: Option<string>,
    htmlUrl: Option<string>,
    body: Option<string>,
    assets: seq<Asset>,
    zipballUrl: Option<string>)

  // ---------------------------------------------------------------------
  // Asset selection
  // ---------------------------------------------------------------------

  /**
   * get_github_asset_name(): the configured asset name, else slug.zip, else
   * real_slug.zip, else none; each candidate is skipped when PHP's empty()
   * holds for it.
   */
  function GetGithubAssetName(c: Config): (r: Option<string>)
    ensures !EmptyOpt(c.githubAssetName) ==> r == c.githubAssetName
    ensures EmptyOpt(c.githubAssetName) && !EmptyStr(c.slug) ==> r == Some(c.slug + ".zip")
    ensures EmptyOpt(c.githubAssetName) && EmptyStr(c.slug) && !EmptyOpt(c.realSlug) ==> r == Some(c.realSlug.value + ".zip")
    ensures r.None? <==> EmptyOpt(c.githubAssetName) && EmptyStr(c.slug) && EmptyOpt(c.realSlug)
    ensures r.Some? ==> !EmptyStr(r.value)
  {
    if !EmptyOpt(c.githubAssetName) then c.githubAssetName
    else if !EmptyStr(c.slug) then Some(c.slug + ".zip")
    else if !EmptyOpt(c.realSlug) then Some(c.realSlug.value + ".zip")
    else None
  }

  /** The lower-cased wanted name, or "" (falsy) when there is none. */
  function WantedLower(c: Config): string {
    match GetGithubAssetName(c)
    case Some(w) => ToLower(w)
    case None => ""
  }

  /** An asset of the first pass: a non-empty name equal to the wanted name, ignoring ASCII case. */
  predicate NamedMatch(a: Asset, wantedLc: string) {
    !EmptyOpt(a.name) && ToLower(a.name.value) == wantedLc
  }

  /** An asset of the second pass: a non-empty name whose lower-cased form ends in ".zip". */
  predicate ZipAsset(a: Asset) {
    !EmptyOpt(a.name) && EndsWith(ToLower(a.name.value), ".zip")
  }

  /** Index of the first asset of the first pass, if any. */
  function FirstNamed(assets: seq<Asset>, wantedLc: string): (r: Option<nat>)
    ensures r.Some? ==> r.value < |assets| && NamedMatch(assets[r.value], wantedLc)
    ensures r.Some? ==> forall j :: 0 <= j < r.value ==> !NamedMatch(assets[j], wantedLc)
    ensures r.None? ==> forall j :: 0 <= j < |assets| ==> !NamedMatch(assets[j], wantedLc)
  {
    if assets == [] then None
    else if NamedMatch(assets[0], wantedLc) then Some(0)
    else match FirstNamed(assets[1..], wantedLc)
      case Some(i) => Some(i + 1)
      case None => None
  }

  /** Index of the first asset of the second pass, if any. */
  function FirstZip(assets: seq<Asset>): (r: Option<nat>)
    ensures r.Some? ==> r.value < |assets| && ZipAsset(assets[r.value])
    ensures r.Some? ==> forall j :: 0 <= j < r.value ==> !ZipAsset(assets[j])
    ensures r.None? ==> forall j :: 0 <= j < |assets| ==> !ZipAsset(assets[j])
  {
    if assets == [] then None
    else if ZipAsset(assets[0]) then Some(0)
    else match FirstZip(assets[1..])
      case Some(i) => Some(i + 1)
      case None => None
  }

  /**
   * The asset the resolver downloads: the first by name when a wanted name
   * exists and matches, otherwise the first .zip asset.
   */
  function SelectedAsset(c: Config, assets: seq<Asset>): Option<nat> {
    var named := if EmptyStr(WantedLower(c)) then None else FirstNamed(assets, WantedLower(c));
    if named.Some? then named else FirstZip(assets)
  }

  /** PHP's empty() on an integer id: absent or zero. */
  predicate EmptyId(id: Option<int>) {
    id.None? || id.value == 0
  }

  /** The asset endpoint of the GitHub API that streams the binary. */
  function AssetApiUrl(path: string, id: int): string {
    "https://api.github.com/repos/" + path + "/releases/assets/" + IntToString(id)
  }

  /** The URL returned for a selected asset: the API endpoint with a token and an id, else the browser URL or "". */
  function AssetDownloadUrl(a: Asset, path: string, useApi: bool): string {
    if useApi && !EmptyId(a.id) then AssetApiUrl(path, a.id.value)
    else a.browserDownloadUrl.GetOr("")
  }

  /** What github_release_download_url() returns: the selected asset's URL, else the zipball URL or "". */
  function ReleaseDownloadUrl(c: Config, repoUrl: string, release: Release): string {
    match SelectedAsset(c, release.assets)
    case Some(i) => AssetDownloadUrl(release.assets[i], RepoPath(repoUrl), !EmptyStr(Token(c)))
    case None => release.zipballUrl.GetOr("")
  }

  /**
   * github_release_download_url(): a first pass over the assets looking for
   * the wanted name, then a second pass for the first .zip asset, each
   * returning at its first hit; the zipball URL when neither finds one.
   */
  method GithubReleaseDownloadUrl(c: Config, repoUrl: string, release: Release) returns (url: string)
    ensures url == ReleaseDownloadUrl(c, repoUrl, release)
  {
    var path := RepoPath(repoUrl);
    var useApiAssets := !EmptyStr(Token(c));
    var wantedLc := WantedLower(c);
    var assets := release.assets;
    if assets != [] {
      var named := None;
      if !EmptyStr(wantedLc) {
        named := ScanNamed(assets, wantedLc);
      }
      if named.Some? {
        var asset := assets[named.value];
        SelectedUrl(c, repoUrl, release, named.value);
        if useApiAssets && !EmptyId(asset.id) {
          return AssetApiUrl(path, asset.id.value);
        }
        return asset.browserDownloadUrl.GetOr("");
      }
      NoNamedMatch(c, assets);
      var zip := ScanZip(assets);
      if zip.Some? {
        var asset := assets[zip.value];
        SelectedUrl(c, repoUrl, release, zip.value);
        if useApiAssets && !EmptyId(asset.id) {
          return AssetApiUrl(path, asset.id.value);
        }
        return asset.browserDownloadUrl.GetOr("");
      }
    }
    return release.zipballUrl.GetOr("");
  }

  /** The first pass of github_release_download_url(): the index of the first asset matching the wanted name. */
  method ScanNamed(assets: seq<Asset>, wantedLc: string) returns (r: Option<nat>)
    ensures r == FirstNamed(assets, wantedLc)
  {
    var i := 0;
    while i < |assets|
      invariant 0 <= i <= |assets|
      invariant forall j :: 0 <= j < i ==> !NamedMatch(assets[j], wantedLc)
    {
      var asset := assets[i];
      if !EmptyOpt(asset.name) {
        if NamedMatch(asset, wantedLc) {
          FirstNamedAt(assets, wantedLc, i);
          return Some(i);
        }
      }
      i := i + 1;
    }
    return None;
  }

  /** The second pass of github_release_download_url(): the index of the first .zip asset. */
  method ScanZip(assets: seq<Asset>) returns (r: Option<nat>)
    ensures r == FirstZip(assets)
  {
    var k := 0;
    while k < |assets|
      invariant 0 <= k <= |assets|
      invariant forall j :: 0 <= j < k ==> !ZipAsset(assets[j])
    {
      if ZipAsset(assets[k]) {
        FirstZipAt(assets, k);
        return Some(k);
      }
      k := k + 1;
    }
    return None;
  }

  lemma FirstNamedAt(assets: seq<Asset>, w: string, i: nat)
    requires i < |assets| && NamedMatch(assets[i], w)
    requires forall j :: 0 <= j < i ==> !NamedMatch(assets[j], w)
    ensures FirstNamed(assets, w) == Some(i)
  {
  }

  lemma FirstZipAt(assets: seq<Asset>, i: nat)
    requires i < |assets| && ZipAsset(assets[i])
    requires forall j :: 0 <= j < i ==> !ZipAsset(assets[j])
    ensures FirstZip(assets) == Some(i)
  {
  }

  /** Without a usable name match the second pass decides. */
  lemma NoNamedMatch(c: Config, assets: seq<Asset>)
    requires EmptyStr(WantedLower(c)) || FirstNamed(assets, WantedLower(c)).None?
    ensures SelectedAsset(c, assets) == FirstZip(assets)
  {
  }

  lemma SelectedUrl(c: Config, repoUrl: string, release: Release, i: nat)
    requires i < |release.assets|
    requires SelectedAsset(c, release.assets) == Some(i)
    ensures ReleaseDownloadUrl(c, repoUrl, release) == AssetDownloadUrl(release.assets[i], RepoPath(repoUrl), !EmptyStr(Token(c)))
  {
  }

  /**
   * The selection rule stated without the scanning functions: an asset is
   * selected exactly when it is the first name match, or there is no name
   * match and it is the first .zip asset.
   */
  lemma SelectedAssetIff(c: Config, assets: seq<Asset>, i: nat)
    requires i < |assets|
    ensures SelectedAsset(c, assets) == Some(i) <==>
      var w := WantedLower(c);
      || (!EmptyStr(w) && NamedMatch(assets[i], w) && forall j :: 0 <= j < i ==> !NamedMatch(assets[j], w))
      || ((EmptyStr(w) || forall j :: 0 <= j < |assets| ==> !NamedMatch(assets[j], w))
          && ZipAsset(assets[i]) && forall j :: 0 <= j < i ==> !ZipAsset(assets[j]))
  {
    var w := WantedLower(c);
    if !EmptyStr(w) && FirstNamed(assets, w).Some? {
      var n := FirstNamed(assets, w).value;
      if NamedMatch(assets[i], w) && forall j :: 0 <= j < i ==> !NamedMatch(assets[j], w) {
        assert !(i > n) && !(i < n);
      }
    } else if FirstZip(assets).Some? {
      var z := FirstZip(assets).value;
      if ZipAsset(assets[i]) && forall j :: 0 <= j < i ==> !ZipAsset(assets[j]) {
        assert !(i > z) && !(i < z);
      }
    }
  }

  /** Without any name match and any .zip asset the zipball URL (or "") is returned. */
  lemma ZipballFallback(c: Config, repoUrl: string, release: Release)
    requires forall j :: 0 <= j < |release.assets| ==> !ZipAsset(release.assets[j])
    requires EmptyStr(WantedLower(c)) || forall j :: 0 <= j < |release.assets| ==> !NamedMatch(release.assets[j], WantedLower(c))
    ensures ReleaseDownloadUrl(c, repoUrl, release) == release.zipballUrl.GetOr("")
  {
  }

  /** Without a token the resolver never builds an API URL: it returns a browser URL, the zipball URL or "". */
  lemma NoTokenNoApiUrl(c: Config, repoUrl: string, release: Release)
    requires EmptyStr(Token(c))
    ensures var url := ReleaseDownloadUrl(c, repoUrl, release);
      || url == ""
      || url == release.zipballUrl.GetOr("")
      || exists j :: 0 <= j < |release.assets| && release.assets[j].browserDownloadUrl == Some(url)
  {
    match SelectedAsset(c, release.assets)
    case Some(i) =>
      var a := release.assets[i];
      if a.browserDownloadUrl.Some? {
        assert release.assets[i].browserDownloadUrl == Some(ReleaseDownloadUrl(c, repoUrl, release));
      }
    case None =>
  }

  /** With a token, a selected asset that has an id is fetched from its API endpoint. */
  lemma TokenSelectsApiUrl(c: Config, repoUrl: string, release: Release, i: nat)
    requires !EmptyStr(Token(c))
    requires SelectedAsset(c, release.assets) == Some(i)
    requires !EmptyId(release.assets[i].id)
    ensures ReleaseDownloadUrl(c, repoUrl, release) == AssetApiUrl(RepoPath(repoUrl), release.assets[i].id.value)
  {
  }

  /** Distinct asset ids give distinct API endpoints. */
  lemma AssetApiUrlInjective(path: string, id1: int, id2: int)
    requires AssetApiUrl(path, id1) == AssetApiUrl(path, id2)
    ensures id1 == id2
  {
    var p := "https://api.github.com/repos/" + path + "/releases/assets/";
    assert AssetApiUrl(path, id1)[|p|..] == IntToString(id1);
    assert AssetApiUrl(path, id2)[|p|..] == IntToString(id2);
    IntToStringInjective(id1, id2);
  }

  // ---------------------------------------------------------------------
  // Authentication headers
  // ---------------------------------------------------------------------

  /**
   * The request arguments handed to the http_request_args filter: the
   * headers entry (absent when None) and the other entries, which the
   * updater never touches.
   */
  datatype RequestArgs = RequestArgs(headers: Option<map<string, string>>, other: map<string, string>)

  /** A URL of the release-asset endpoint, which needs an octet-stream Accept header. */
  predicate IsAssetApiUrl(url: string) {
    Contains(url, "api.github.com/repos/") && Contains(url, "/releases/assets/")
  }

  /**
   * The headers after authentication: Authorization is "token <t>",
   * User-Agent keeps its value or becomes "WordPress-UUPD", Accept becomes
   * "application/octet-stream" on asset API URLs, and every other header and
   * argument is kept.
   */
  predicate Authorized(args: RequestArgs, url: string, token: string, r: RequestArgs) {
    var h := args.headers.GetOr(map[]);
    && r.other == args.other
    && r.headers.Some?
    && var rh := r.headers.value;
    && "Authorization" in rh && rh["Authorization"] == "token " + token
    && "User-Agent" in rh
    && rh["User-Agent"] == (if "User-Agent" in h then h["User-Agent"] else "WordPress-UUPD")
    && (IsAssetApiUrl(url) ==> "Accept" in rh && rh["Accept"] == "application/octet-stream")
    && (!IsAssetApiUrl(url) ==> ("Accept" in rh <==> "Accept" in h) && ("Accept" in h ==> rh["Accept"] == h["Accept"]))
    && (forall k :: k in h && k != "Authorization" && k != "User-Agent" && k != "Accept" ==> k in rh && rh[k] == h[k])
    && (forall k :: k in rh && k != "Authorization" && k != "User-Agent" && k != "Accept" ==> k in h)
  }

  /** add_github_auth_headers_for_download(): a falsy token leaves the arguments as they are. */
  method AddGithubAuthHeadersForDownload(args: RequestArgs, url: string, token: string) returns (r: RequestArgs)
    ensures EmptyStr(token) ==> r == args
    ensures !EmptyStr(token) ==> Authorized(args, url, token, r)
  {
    if EmptyStr(token) {
      return args;
    }
    var headers := args.headers.GetOr(map[]);
    headers := headers["Authorization" := "token " + token];
    headers := headers["User-Agent" := if "User-Agent" in headers then headers["User-Agent"] else "WordPress-UUPD"];
    if Contains(url, "api.github.com/repos/") && Contains(url, "/releases/assets/") {
      headers := headers["Accept" := "application/octet-stream"];
    }
    r := args.(headers := Some(headers));
  }

  /** filter_http_request_args(): only URLs containing "github.com/" or "api.github.com/" are touched. */
  method FilterHttpRequestArgs(args: RequestArgs, url: string, c: Config) returns (r: RequestArgs)
    ensures !Contains(url, "github.com/") ==> r == args
    ensures EmptyStr(Token(c)) ==> r == args
    ensures Contains(url, "github.com/") && !EmptyStr(Token(c)) ==> Authorized(args, url, Token(c), r)
  {
    if !Contains(url, "github.com/") && !Contains(url, "api.github.com/") {
      return args;
    }
    GithubHostTest(url);
    r := AddGithubAuthHeadersForDownload(args, url, Token(c));
  }

  /** The "api.github.com/" test of the filter is subsumed by its "github.com/" test. */
  lemma GithubHostTest(url: string)
    ensures Contains(url, "api.github.com/") ==> Contains(url, "github.com/")
  {
    if Contains(url, "api.github.com/") {
      ContainsWeaken(url, "api.github.com/", "api.", "github.com/", "");
    }
  }

  /**
   * The filter's test is a substring test: a URL on another host whose text
   * holds "github.com/", such as one on notgithub.com, passes it, and so the
   * token is attached to a request to that host.
   */
  lemma LookalikeHostPassesFilter(rest: string)
    requires forall j :: 0 <= j < |rest| ==> PathChar(rest[j])
    ensures var url := "https://notgithub.com/" + rest;
      && ParseUrl(url).host == "notgithub.com"
      && Contains(url, "github.com/")
      && !GithubHost(url)
  {
    LookalikeHost(rest);
    LookalikeContains(rest);
    LookalikeNotGithub();
  }

  lemma LookalikeHost(rest: string)
    requires forall j :: 0 <= j < |rest| ==> PathChar(rest[j])
    ensures ParseUrl("https://notgithub.com/" + rest).host == "notgithub.com"
  {
    var path := "/" + rest;
    assert "https://notgithub.com/" + rest == "https" + "://" + "notgithub.com" + path + "";
    assert forall j :: 0 <= j < |"notgithub.com"| ==> HostChar("notgithub.com"[j]);
    forall j | 0 <= j < |path| ensures PathChar(path[j]) {
      if j > 0 {
        assert path[j] == rest[j - 1];
      }
    }
    ParseUrlOf("https", "notgithub.com", path, "");
  }

  lemma LookalikeContains(rest: string)
    ensures Contains("https://notgithub.com/" + rest, "github.com/")
  {
    assert "https://notgithub.com/" + rest == "https://not" + "github.com/" + rest;
    ContainsInfix("https://not", "github.com/", rest);
  }

  lemma LookalikeNotGithub()
    ensures ToLower("notgithub.com") == "notgithub.com"
  {
    var t := "notgithub.com";
    assert forall i :: 0 <= i < |t| ==> LowerChar(t[i]) == t[i];
  }

  /** A request URL whose host is github.com or api.github.com, in any case. */
  predicate GithubHost(url: string) {
    var h := ToLower(ParseUrl(url).host);
    h == "github.com" || h == "api.github.com"
  }

  /** The filter with a host test in place of the substring test: no other host ever receives the token. */
  method FilterHttpRequestArgsByHost(args: RequestArgs, url: string, c: Config) returns (r: RequestArgs)
    ensures !GithubHost(url) ==> r == args
    ensures EmptyStr(Token(c)) ==> r == args
    ensures GithubHost(url) && !EmptyStr(Token(c)) ==> Authorized(args, url, Token(c), r)
  {
    if !GithubHost(url) {
      return args;
    }
    r := AddGithubAuthHeadersForDownload(args, url, Token(c));
  }

  /** Authenticating arguments that are already authenticated with the same token changes nothing. */
  lemma AuthorizedIdempotent(args: RequestArgs, url: string, token: string, r: RequestArgs, r2: RequestArgs)
    requires Authorized(args, url, token, r)
    requires Authorized(r, url, token, r2)
    ensures r2 == r
  {
    var rh, rh2 := r.headers.value, r2.headers.value;
    assert rh2.Keys == rh.Keys;
    assert forall k :: k in rh ==> rh2[k] == rh[k];
    assert rh2 == rh;
  }

  /** A request to an asset API endpoint built by the resolver is authenticated and asks for the binary. */
  lemma AssetApiUrlAuthorized(path: string, id: int)
    ensures Contains(AssetApiUrl(path, id), "github.com/")
    ensures IsAssetApiUrl(AssetApiUrl(path, id))
  {
    var u := AssetApiUrl(path, id);
    ApiUrlHasRepos(path, IntToString(id));
    ContainsWeaken(u, "api.github.com/repos/", "api.", "github.com/", "repos/");
    ContainsInfix("https://api.github.com/repos/" + path, "/releases/assets/", IntToString(id));
  }

  lemma ApiUrlHasRepos(path: string, n: string)
    ensures Contains("https://api.github.com/repos/" + path + "/releases/assets/" + n, "api.github.com/repos/")
  {
    var t := path + "/releases/assets/" + n;
    ConcatAssoc3("https://api.github.com/repos/", path, "/releases/assets/", n);
    assert "https://api.github.com/repos/" == "https://" + "api.github.com/repos/";
    ContainsInfix("https://", "api.github.com/repos/", t);
  }
}
