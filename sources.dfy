/**
 * The updater's configuration and the choice of update source: JSON
 * metadata endpoint or GitHub Releases, the GitHub API URL for the latest
 * release, and the JSON-mode request URL (updater.php).
 */
module Sources {
  import opened Php
  import opened Urls

  /**
   * The configuration array the updater is constructed with. Filters are
   * identity, so the constructor only supplies defaults: those are applied
   * where the code reads a key with `??` (Server, Prefix, Token below).
   */
  datatype Config = Config(
    slug: string,
    name: string,
    version: string,
    key: Option<string>,
    server: Option<string>,
    pluginFile: Option<string>,
    realSlug: Option<string>,
    mode: Option<string>,
    allowPrerelease: bool,
    cachePrefix: Option<string>,
    githubToken: Option<string>,
    githubAssetName: Option<string>,
    icons: map<string, string>,
    banners: map<string, string>,
    screenshots: map<string, string>,
    screenshot: string)

  /** `$config['server'] ?? ''`. */
  function Server(c: Config): string {
    c.server.GetOr("")
  }

  /** `$config['cache_prefix'] ?? 'upd_'`. */
  function Prefix(c: Config): string {
    c.cachePrefix.GetOr("upd_")
  }

  /** `$config['github_token'] ?? ''` (the token override filter is identity). */
  function Token(c: Config): string {
    c.githubToken.GetOr("")
  }

  /** The slug WordPress knows a theme by: `real_slug ?? slug`. */
  function WpSlug(c: Config): string {
    c.realSlug.GetOr(c.slug)
  }

  datatype Mode = Auto | Json | GithubRelease

  /** get_mode(): trimmed, lower-cased, and anything unknown means auto. */
  function GetMode(raw: Option<string>): Mode {
    var m := ToLower(Trim(raw.GetOr("auto")));
    if m == "json" then Json
    else if m == "github_release" then GithubRelease
    else Auto
  }

  /** is_github_repo_root_url(): host github.com and a path of exactly owner/repo. */
  predicate IsGithubRepoRootUrl(url: string) {
    var u := Trim(url);
    if u == "" then false
    else
      var parts := ParseUrl(u);
      if EmptyStr(parts.host) then false
      else if ToLower(parts.host) != "github.com" then false
      else
        var path := TrimSlashes(parts.path);
        path != "" && |Explode(path, '/')| == 2
  }

  /** should_use_github_release_mode(). */
  predicate ShouldUseGithubReleaseMode(c: Config) {
    match GetMode(c.mode)
    case Json => false
    case GithubRelease => true
    case Auto => IsGithubRepoRootUrl(Server(c))
  }

  /** The "owner/repo" path of a repository URL: trailing slashes dropped, then the path with its slashes trimmed. */
  function RepoPath(repoUrl: string): string {
    TrimSlashes(ParseUrl(RTrimSlash(repoUrl)).path)
  }

  /** github_latest_release_api_url(): the owner/repo path moved under api.github.com. */
  function GithubLatestReleaseApiUrl(repoUrl: string): string {
    "https://api.github.com/repos/" + RepoPath(repoUrl) + "/releases/latest"
  }

  /** The query fetch_remote appends to a non-.json server URL. */
  function MetadataQuery(slug: string, key: string, homeHost: string, encode: string -> string): string {
    "action=get_metadata&slug=" + encode(slug) + "&key=" + encode(key) + "&domain=" + encode(homeHost)
  }

  /**
   * The JSON-mode request URL of fetch_remote(): a server URL ending in
   * ".json" is used as it is; any other gets the metadata query, joined with
   * '&' when the server URL already holds a '?' and with '?' otherwise.
   * `encode` stands for rawurlencode().
   */
  function JsonRequestUrl(server: string, slug: string, key: string, homeHost: string, encode: string -> string): (url: string)
    ensures EndsWith(server, ".json") ==> url == server
    ensures !EndsWith(server, ".json") ==>
      var base := Untrailingslashit(server);
      && StartsWith(url, base) && |url| > |base|
      && url[|base|] == (if Contains(server, "?") then '&' else '?')
      && url[|base| + 1..] == MetadataQuery(slug, key, homeHost, encode)
  {
    if EndsWith(server, ".json") then server
    else
      Untrailingslashit(server) + [if Contains(server, "?") then '&' else '?']
        + MetadataQuery(slug, key, homeHost, encode)
  }

  // ---------------------------------------------------------------------
  // Mode selection
  // ---------------------------------------------------------------------

  /** An explicit mode is honoured whatever the server URL looks like. */
  lemma ExplicitModeHonoured(c: Config)
    requires c.mode.Some?
    ensures ToLower(Trim(c.mode.value)) == "github_release" ==> ShouldUseGithubReleaseMode(c)
    ensures ToLower(Trim(c.mode.value)) == "json" ==> !ShouldUseGithubReleaseMode(c)
  {
  }

  /** Any mode string other than json/github_release (after trim and lower-casing) behaves as auto. */
  lemma UnknownModeIsAuto(c: Config)
    requires c.mode.None? || ToLower(Trim(c.mode.value)) !in {"json", "github_release"}
    ensures ShouldUseGithubReleaseMode(c) == IsGithubRepoRootUrl(Server(c))
  {
  }

  /** trim($path, '/') of "/owner/repo" or "/owner/repo/" is "owner/repo". */
  lemma TrimSlashesRepoPath(owner: string, repo: string, slash: string)
    requires owner != [] && repo != [] && '/' !in owner && '/' !in repo
    requires slash == "" || slash == "/"
    ensures TrimSlashes("/" + owner + "/" + repo + slash) == owner + "/" + repo
  {
    var q := owner + "/" + repo;
    assert "/" + owner + "/" + repo + slash == "/" + (q + slash);
    assert (q + slash)[0] == owner[0];
    LTrimOneSlash(q + slash);
    LastOfConcat(owner + "/", repo);
    RTrimAtMostOne(q, slash);
  }

  lemma LTrimOneSlash(x: string)
    requires x != [] && x[0] != '/'
    ensures LTrim("/" + x, {'/'}) == x
  {
    assert ("/" + x)[1..] == x;
  }

  lemma RTrimAtMostOne(q: string, slash: string)
    requires q != [] && q[|q| - 1] != '/'
    requires slash == "" || slash == "/"
    ensures RTrim(q + slash, {'/'}) == q
  {
    if slash == "/" {
      assert (q + slash)[..|q|] == q;
    } else {
      assert q + slash == q;
    }
  }

  /** A host whose lower-case form is github.com holds none of '/', '?', '#'. */
  lemma GithubHostChars(host: string)
    requires ToLower(host) == "github.com"
    ensures forall j :: 0 <= j < |host| ==> HostChar(host[j])
  {
    forall j | 0 <= j < |host| ensures HostChar(host[j]) {
      assert ToLower(host)[j] == LowerChar(host[j]);
      assert "github.com"[j] != '/' && "github.com"[j] != '?' && "github.com"[j] != '#';
    }
  }

  predicate Segment(s: string) {
    s != [] && forall j :: 0 <= j < |s| ==> s[j] != '/' && PathChar(s[j])
  }

  lemma SegmentNoSlash(s: string)
    requires Segment(s)
    ensures '/' !in s
  {
    assert forall j :: 0 <= j < |s| ==> s[j] != '/';
  }

  /** A well-formed repository root URL, optionally with one trailing slash. */
  function RepoRootUrl(scheme: string, host: string, owner: string, repo: string, slash: string): string {
    scheme + "://" + host + "/" + owner + "/" + repo + slash
  }

  predicate WellFormedRoot(scheme: string, host: string, owner: string, repo: string, slash: string) {
    && scheme != [] && ':' !in scheme && scheme[0] !in Whitespace
    && (forall j :: 0 <= j < |host| ==> HostChar(host[j]))
    && Segment(owner) && Segment(repo) && repo[|repo| - 1] !in Whitespace
    && (slash == "" || slash == "/")
  }

  lemma RepoRootUrlParts(scheme: string, host: string, owner: string, repo: string, slash: string)
    requires WellFormedRoot(scheme, host, owner, repo, slash)
    ensures Trim(RepoRootUrl(scheme, host, owner, repo, slash)) == RepoRootUrl(scheme, host, owner, repo, slash)
    ensures ParseUrl(RepoRootUrl(scheme, host, owner, repo, slash)) == UrlParts(host, "/" + owner + "/" + repo + slash)
    ensures TrimSlashes("/" + owner + "/" + repo + slash) == owner + "/" + repo
  {
    RootUrlTrimmed(scheme, host, owner, repo, slash);
    RootUrlParsed(scheme, host, owner, repo, slash);
    TrimSlashesRepoPath(owner, repo, slash);
  }

  lemma RootUrlParsed(scheme: string, host: string, owner: string, repo: string, slash: string)
    requires WellFormedRoot(scheme, host, owner, repo, slash)
    ensures ParseUrl(RepoRootUrl(scheme, host, owner, repo, slash)) == UrlParts(host, "/" + owner + "/" + repo + slash)
  {
    RootUrlRegroup(scheme, host, owner, repo, slash);
    RootPathChars(owner, repo, slash);
    ParseUrlOf(scheme, host, "/" + owner + "/" + repo + slash, "");
  }

  lemma RootUrlRegroup(scheme: string, host: string, owner: string, repo: string, slash: string)
    ensures RepoRootUrl(scheme, host, owner, repo, slash) == scheme + "://" + host + ("/" + owner + "/" + repo + slash) + ""
  {
  }

  /** A root URL starts with its scheme and ends with the repository name or a slash: trim() keeps it. */
  lemma RootUrlTrimmed(scheme: string, host: string, owner: string, repo: string, slash: string)
    requires scheme != [] && scheme[0] !in Whitespace
    requires repo != [] && repo[|repo| - 1] !in Whitespace
    requires slash == "" || slash == "/"
    ensures Trim(RepoRootUrl(scheme, host, owner, repo, slash)) == RepoRootUrl(scheme, host, owner, repo, slash)
  {
    var u := RepoRootUrl(scheme, host, owner, repo, slash);
    var front := scheme + "://" + host + "/" + owner + "/";
    assert u == scheme + ("://" + host + "/" + owner + "/" + repo + slash);
    assert u[0] == scheme[0];
    assert u == front + (repo + slash);
    LastOfConcat(front, repo + slash);
    if slash == "" {
      assert repo + slash == repo;
    } else {
      LastOfConcat(repo, slash);
    }
    TrimNoop(u);
  }

  /** The path of a root URL: a '/' and then only path characters. */
  lemma RootPathChars(owner: string, repo: string, slash: string)
    requires Segment(owner) && Segment(repo)
    requires slash == "" || slash == "/"
    ensures var path := "/" + owner + "/" + repo + slash;
      path[0] == '/' && forall j :: 0 <= j < |path| ==> PathChar(path[j])
  {
    var path := "/" + owner + "/" + repo + slash;
    forall j | 0 <= j < |path| ensures PathChar(path[j]) {
      if 1 <= j < 1 + |owner| {
        assert path[j] == owner[j - 1];
      } else if 2 + |owner| <= j < 2 + |owner| + |repo| {
        assert path[j] == repo[j - 2 - |owner|];
      }
    }
  }

  /** is_github_repo_root_url() of an already-trimmed URL, read off its parts. */
  lemma RootFromParts(u: string, parts: UrlParts, trimmed: string)
    requires u != "" && Trim(u) == u && ParseUrl(u) == parts && TrimSlashes(parts.path) == trimmed
    ensures IsGithubRepoRootUrl(u) <==>
      !EmptyStr(parts.host) && ToLower(parts.host) == "github.com" && trimmed != "" && |Explode(trimmed, '/')| == 2
  {
  }

  /** `https://github.com/owner/repo` and `https://github.com/owner/repo/` select GitHub Releases mode. */
  lemma RepoRootDetected(scheme: string, host: string, owner: string, repo: string, slash: string)
    requires WellFormedRoot(scheme, host, owner, repo, slash)
    requires ToLower(host) == "github.com"
    ensures IsGithubRepoRootUrl(RepoRootUrl(scheme, host, owner, repo, slash))
  {
    var u := RepoRootUrl(scheme, host, owner, repo, slash);
    var parts := UrlParts(host, "/" + owner + "/" + repo + slash);
    RepoRootUrlParts(scheme, host, owner, repo, slash);
    var trimmed := owner + "/" + repo;
    assert '/' !in owner && '/' !in repo by {
      assert forall j :: 0 <= j < |owner| ==> owner[j] != '/';
      assert forall j :: 0 <= j < |repo| ==> repo[j] != '/';
    }
    ExplodeTwo(owner, repo, '/');
    assert trimmed == owner + ['/'] + repo;
    assert host != "" && host != "0" by { assert |ToLower(host)| == 10; }
    RootFromParts(u, parts, trimmed);
  }

  /** A host other than github.com (e.g. raw.githubusercontent.com) never selects GitHub mode in auto. */
  lemma OtherHostNotRoot(scheme: string, host: string, owner: string, repo: string, slash: string)
    requires WellFormedRoot(scheme, host, owner, repo, slash)
    requires ToLower(host) != "github.com"
    ensures !IsGithubRepoRootUrl(RepoRootUrl(scheme, host, owner, repo, slash))
  {
    var u := RepoRootUrl(scheme, host, owner, repo, slash);
    RepoRootUrlParts(scheme, host, owner, repo, slash);
    RootFromParts(u, UrlParts(host, "/" + owner + "/" + repo + slash), owner + "/" + repo);
  }

  /** A deeper path such as `…/owner/repo/releases` is not a repository root. */
  lemma DeeperPathNotRoot(scheme: string, host: string, owner: string, repo: string, extra: string)
    requires WellFormedRoot(scheme, host, owner, repo, "")
    requires extra != [] && extra[|extra| - 1] != '/' && extra[|extra| - 1] !in Whitespace
    requires forall j :: 0 <= j < |extra| ==> PathChar(extra[j])
    ensures !IsGithubRepoRootUrl(RepoRootUrl(scheme, host, owner, repo, "/" + extra))
  {
    var u := RepoRootUrl(scheme, host, owner, repo, "/" + extra);
    var path := "/" + owner + "/" + repo + "/" + extra;
    var inner := owner + "/" + repo + "/" + extra;
    DeeperPathParts(scheme, host, owner, repo, extra);
    SegmentNoSlash(owner);
    SegmentNoSlash(repo);
    ExplodeThreeOrMore(owner, repo, extra, '/');
    RootFromParts(u, UrlParts(host, path), inner);
  }

  predicate PathChars(s: string) {
    forall j :: 0 <= j < |s| ==> PathChar(s[j])
  }

  lemma PathCharsAppend(a: string, b: string)
    requires PathChars(a) && PathChars(b)
    ensures PathChars(a + b)
  {
    forall j | 0 <= j < |a + b| ensures PathChar((a + b)[j]) {
      if j >= |a| {
        assert (a + b)[j] == b[j - |a|];
      }
    }
  }

  /** `scheme://host` followed by a plain path is its own trim and splits into that host and path. */
  lemma UrlOfPath(scheme: string, host: string, path: string)
    requires scheme != [] && ':' !in scheme && scheme[0] !in Whitespace
    requires forall j :: 0 <= j < |host| ==> HostChar(host[j])
    requires path != [] && path[0] == '/' && PathChars(path) && path[|path| - 1] !in Whitespace
    ensures var u := scheme + "://" + host + path;
      u != "" && Trim(u) == u && ParseUrl(u) == UrlParts(host, path)
  {
    var u := scheme + "://" + host + path;
    assert u[0] == scheme[0];
    LastOfConcat(scheme + "://" + host, path);
    TrimNoop(u);
    assert u == scheme + "://" + host + path + "";
    ParseUrlOf(scheme, host, path, "");
  }

  /** trim($path, '/') of "/" + inner is inner when inner neither starts nor ends with '/'. */
  lemma TrimSlashesLeading(inner: string)
    requires inner != [] && inner[0] != '/' && inner[|inner| - 1] != '/'
    ensures TrimSlashes("/" + inner) == inner
  {
    assert ("/" + inner)[1..] == inner;
  }

  lemma DeeperUrlShape(scheme: string, host: string, owner: string, repo: string, extra: string)
    ensures RepoRootUrl(scheme, host, owner, repo, "/" + extra)
      == scheme + "://" + host + ("/" + (owner + "/" + repo + "/" + extra))
    ensures "/" + (owner + "/" + repo + "/" + extra) == "/" + owner + "/" + repo + "/" + extra
  {
  }

  lemma DeeperPathParts(scheme: string, host: string, owner: string, repo: string, extra: string)
    requires WellFormedRoot(scheme, host, owner, repo, "")
    requires extra != [] && extra[|extra| - 1] != '/' && extra[|extra| - 1] !in Whitespace
    requires forall j :: 0 <= j < |extra| ==> PathChar(extra[j])
    ensures var u := RepoRootUrl(scheme, host, owner, repo, "/" + extra);
      && u != "" && Trim(u) == u
      && ParseUrl(u) == UrlParts(host, "/" + owner + "/" + repo + "/" + extra)
      && TrimSlashes("/" + owner + "/" + repo + "/" + extra) == owner + "/" + repo + "/" + extra
  {
    var inner := owner + "/" + repo + "/" + extra;
    assert PathChars(inner) by {
      assert PathChars(owner) && PathChars("/") && PathChars(repo) && PathChars(extra);
      PathCharsAppend(owner, "/");
      PathCharsAppend(owner + "/", repo);
      PathCharsAppend(owner + "/" + repo, "/");
      PathCharsAppend(owner + "/" + repo + "/", extra);
    }
    PathCharsAppend("/", inner);
    var path := "/" + inner;
    DeeperUrlShape(scheme, host, owner, repo, extra);
    LastOfConcat(owner + "/" + repo + "/", extra);
    LastOfConcat("/", inner);
    assert inner[0] == owner[0] && owner[0] != '/';
    assert inner[|inner| - 1] == extra[|extra| - 1];
    UrlOfPath(scheme, host, path);
    TrimSlashesLeading(inner);
  }

  /** rtrim($url, '/') removes one trailing slash from a URL that does not otherwise end in one. */
  lemma RTrimOneSlash(x: string, slash: string)
    requires x != [] && x[|x| - 1] != '/'
    requires slash == "" || slash == "/"
    ensures RTrimSlash(x + slash) == x
  {
    if slash == "/" {
      assert (x + slash)[..|x|] == x;
    } else {
      assert x + slash == x;
    }
  }

  /** rtrim($url, '/') of a root URL with a trailing slash is the root URL without it. */
  lemma RTrimRoot(scheme: string, host: string, owner: string, repo: string, slash: string)
    requires WellFormedRoot(scheme, host, owner, repo, slash)
    ensures RTrimSlash(RepoRootUrl(scheme, host, owner, repo, slash)) == RepoRootUrl(scheme, host, owner, repo, "")
  {
    var bare := RepoRootUrl(scheme, host, owner, repo, "");
    assert RepoRootUrl(scheme, host, owner, repo, slash) == bare + slash;
    LastOfConcat(scheme + "://" + host + "/" + owner + "/", repo);
    RTrimOneSlash(bare, slash);
  }

  /** The bare root URL's path trims to `owner/repo`. */
  lemma BareRootPath(scheme: string, host: string, owner: string, repo: string)
    requires WellFormedRoot(scheme, host, owner, repo, "")
    ensures ParseUrl(RepoRootUrl(scheme, host, owner, repo, "")).path == "/" + owner + "/" + repo
    ensures TrimSlashes("/" + owner + "/" + repo) == owner + "/" + repo
  {
    RepoRootUrlParts(scheme, host, owner, repo, "");
    assert "/" + owner + "/" + repo + "" == "/" + owner + "/" + repo;
  }

  /** The API URL for a repository root is `https://api.github.com/repos/{owner}/{repo}/releases/latest`. */
  /** The repository path of every spelling of a repository root URL is "owner/repo". */
  lemma RepoPathOfRepoRoot(scheme: string, host: string, owner: string, repo: string, slash: string)
    requires WellFormedRoot(scheme, host, owner, repo, slash)
    ensures RepoPath(RepoRootUrl(scheme, host, owner, repo, slash)) == owner + "/" + repo
  {
    assert WellFormedRoot(scheme, host, owner, repo, "");
    RTrimRoot(scheme, host, owner, repo, slash);
    BareRootPath(scheme, host, owner, repo);
    RepoPathFromParts(RepoRootUrl(scheme, host, owner, repo, slash), RepoRootUrl(scheme, host, owner, repo, ""),
      "/" + owner + "/" + repo, owner + "/" + repo);
  }

  lemma RepoPathFromParts(u: string, bare: string, path: string, trimmed: string)
    requires RTrimSlash(u) == bare && ParseUrl(bare).path == path && TrimSlashes(path) == trimmed
    ensures RepoPath(u) == trimmed
  {
  }

  /** The latest-release endpoint of a repository root URL (updater.php's documented example). */
  lemma ApiUrlOfRepoRoot(scheme: string, host: string, owner: string, repo: string, slash: string)
    requires WellFormedRoot(scheme, host, owner, repo, slash)
    ensures GithubLatestReleaseApiUrl(RepoRootUrl(scheme, host, owner, repo, slash))
      == "https://api.github.com/repos/" + owner + "/" + repo + "/releases/latest"
  {
    RepoPathOfRepoRoot(scheme, host, owner, repo, slash);
    ApiUrlOfPath(RepoRootUrl(scheme, host, owner, repo, slash), owner, repo);
  }

  lemma ApiUrlOfPath(u: string, owner: string, repo: string)
    requires RepoPath(u) == owner + "/" + repo
    ensures GithubLatestReleaseApiUrl(u) == "https://api.github.com/repos/" + owner + "/" + repo + "/releases/latest"
  {
    ConcatMiddle("https://api.github.com/repos/", owner, "/", repo, "/releases/latest");
  }
}
