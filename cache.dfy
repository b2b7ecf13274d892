/**
 * The updater's use of WordPress transients (updater.php): the keys it
 * writes, fetch_remote() and its cached outcomes, the metadata loading the
 * plugin and theme update flows share, and the manual-check invalidation.
 *
 * The transient store is a key-to-entry map; each entry records the lifetime
 * it was written with, which the updater never checks itself. The network is
 * a function from request to outcome, and json_decode(), md5(),
 * rawurlencode(), time() and the home host are parameters (Env).
 */
module Cache {
  import opened Php
  import opened Sources
  import opened Github
  import opened Metadata

  /** 6 * HOUR_IN_SECONDS: the lifetime of every transient the updater writes (the TTL filters are identity). */
  const Ttl: int := 6 * 3600

  /** What the updater stores: metadata, an error time stamp, or a decoded release payload (None for null). */
  datatype Value = MetaValue(meta: Meta) | Stamp(time: int) | Payload(release: Option<Release>)

  datatype Entry = Entry(value: Value, ttl: int)

  /** The site's transients. */
  class TransientStore {
    var entries: map<string, Entry>

    constructor()
      ensures entries == map[]
    {
      entries := map[];
    }

    /** set_transient(). */
    method Set(key: string, value: Value, ttl: int)
      modifies this
      ensures entries == old(entries)[key := Entry(value, ttl)]
    {
      entries := entries[key := Entry(value, ttl)];
    }

    /** delete_transient(). */
    method Delete(key: string)
      modifies this
      ensures entries == old(entries) - {key}
    {
      entries := entries - {key};
    }
  }

  /** PHP truthiness of a stored value. */
  predicate Truthy(v: Value) {
    match v
    case MetaValue(_) => true
    case Stamp(t) => t != 0
    case Payload(r) => r.Some?
  }

  /** get_transient() as the flows test it: false, a falsy value, or an object whose properties are read. */
  datatype Read = Missing | Falsy | Obj(meta: Meta)

  /**
   * The metadata key as the flows read it. A truthy value that is not
   * metadata has none of the properties read, so it reads as metadata
   * without properties.
   */
  function ReadMeta(entries: map<string, Entry>, key: string): Read {
    if key !in entries then Missing
    else match entries[key].value
      case MetaValue(m) => Obj(m)
      case Stamp(t) => if t != 0 then Obj(NoMeta) else Falsy
      case Payload(r) => if r.Some? then Obj(NoMeta) else Falsy
  }

  /** `get_transient($error_key)` is truthy. */
  predicate ErrorFlagged(entries: map<string, Entry>, key: string) {
    key in entries && Truthy(entries[key].value)
  }

  /**
   * The release key as GitHub mode reads it: None when missing, else the
   * release payload it holds; any other value has no tag_name and reads as
   * a payload without a release.
   */
  function ReadRelease(entries: map<string, Entry>, key: string): Option<Option<Release>> {
    if key !in entries then None
    else match entries[key].value
      case Payload(r) => Some(r)
      case _ => Some(None)
  }

  // ---------------------------------------------------------------------
  // Keys
  // ---------------------------------------------------------------------

  /** `{prefix}{slug}`: the cached metadata. */
  function SuccessKey(c: Config): string {
    Prefix(c) + c.slug
  }

  /** `{prefix}{slug}_error`: the failure flag. */
  function ErrorKey(c: Config): string {
    SuccessKey(c) + "_error"
  }

  /** `uupd_github_release_{slug}_{md5(repo)}`: the cached release payload. */
  function ReleaseKey(c: Config, md5: string -> string): string {
    "uupd_github_release_" + c.slug + "_" + md5(RTrimSlash(Server(c)))
  }

  /** The release key of older versions, `uupd_github_release_{md5(repo)}`. */
  function LegacyReleaseKey(c: Config, md5: string -> string): string {
    "uupd_github_release_" + md5(RTrimSlash(Server(c)))
  }

  /** The metadata key and the failure flag never coincide. */
  lemma KeysDistinct(c: Config)
    ensures SuccessKey(c) != ErrorKey(c)
  {
    assert |ErrorKey(c)| == |SuccessKey(c)| + 6;
  }

  // ---------------------------------------------------------------------
  // The environment
  // ---------------------------------------------------------------------

  datatype Request = Request(url: string, headers: map<string, string>)

  /** What wp_remote_get() yields: a WP_Error, or a response with status code and body. */
  datatype HttpOutcome = TransportError(message: string) | Response(code: int, body: string)

  /**
   * The outside world of one call: time(), the site's host, rawurlencode(),
   * md5(), the network, and json_decode() of a metadata and of a release
   * body (None when the result is falsy).
   */
  datatype Env = Env(
    now: int,
    homeHost: string,
    encode: string -> string,
    md5: string -> string,
    net: Request -> HttpOutcome,
    decodeMeta: string -> Option<Meta>,
    decodeRelease: string -> Option<Release>)

  /** The requests made and the transients left by a step. */
  datatype Step = Step(requests: seq<Request>, entries: map<string, Entry>)

  // ---------------------------------------------------------------------
  // fetch_remote()
  // ---------------------------------------------------------------------

  /** The JSON-mode metadata request. */
  function MetadataRequest(c: Config, env: Env): Request {
    Request(JsonRequestUrl(Server(c), c.slug, c.key.GetOr(""), env.homeHost, env.encode),
      map["Accept" := "application/json"])
  }

  /** The metadata a response yields: only a 200 response whose body decodes to something truthy. */
  function Decoded(outcome: HttpOutcome, decode: string -> Option<Meta>): Option<Meta> {
    match outcome
    case TransportError(_) => None
    case Response(code, body) => if code == 200 then decode(body) else None
  }

  /** The transients after a fetch: success caches the metadata and clears the flag, failure sets the flag. */
  function AfterFetch(entries: map<string, Entry>, c: Config, fetched: Option<Meta>, now: int): map<string, Entry> {
    match fetched
    case Some(m) => entries[SuccessKey(c) := Entry(MetaValue(m), Ttl)] - {ErrorKey(c)}
    case None => entries[ErrorKey(c) := Entry(Stamp(now), Ttl)]
  }

  /** fetch_remote(): without a server nothing is requested and the failure is cached. */
  function Fetch(entries: map<string, Entry>, c: Config, env: Env): Step {
    if EmptyOpt(c.server) then Step([], AfterFetch(entries, c, None, env.now))
    else
      var req := MetadataRequest(c, env);
      Step([req], AfterFetch(entries, c, Decoded(env.net(req), env.decodeMeta), env.now))
  }

  /**
   * fetch_remote(): the failure paths (no server, transport error, non-200
   * status, undecodable body) each write the failure flag and return; the
   * success path caches the metadata and deletes the flag.
   */
  method FetchRemote(store: TransientStore, c: Config, env: Env) returns (requests: seq<Request>)
    modifies store
    ensures Step(requests, store.entries) == Fetch(old(store.entries), c, env)
  {
    var slugPlain := c.slug;
    if EmptyOpt(c.server) {
      store.Set(ErrorKey(c), Stamp(env.now), Ttl);
      return [];
    }
    var url := JsonRequestUrl(c.server.value, slugPlain, c.key.GetOr(""), env.homeHost, env.encode);
    var failureCacheKey := ErrorKey(c);
    var req := Request(url, map["Accept" := "application/json"]);
    requests := [req];
    var resp := env.net(req);
    if resp.TransportError? {
      store.Set(failureCacheKey, Stamp(env.now), Ttl);
      return;
    }
    if resp.code != 200 {
      store.Set(failureCacheKey, Stamp(env.now), Ttl);
      return;
    }
    var meta := env.decodeMeta(resp.body);
    if meta.None? {
      store.Set(failureCacheKey, Stamp(env.now), Ttl);
      return;
    }
    store.Set(SuccessKey(c), MetaValue(meta.value), Ttl);
    store.Delete(failureCacheKey);
  }

  /** A failed fetch writes the failure flag and nothing else. */
  lemma FetchFailureWritesOnlyErrorKey(entries: map<string, Entry>, c: Config, now: int, k: string)
    ensures var after := AfterFetch(entries, c, None, now);
      && ErrorKey(c) in after && after[ErrorKey(c)] == Entry(Stamp(now), Ttl)
      && (k != ErrorKey(c) ==> (k in after <==> k in entries) && (k in entries ==> after[k] == entries[k]))
  {
  }

  /** A successful fetch caches the metadata, deletes the failure flag, and changes nothing else. */
  lemma FetchSuccessWritesKeyAndClearsError(entries: map<string, Entry>, c: Config, m: Meta, now: int, k: string)
    ensures var after := AfterFetch(entries, c, Some(m), now);
      && ReadMeta(after, SuccessKey(c)) == Obj(m) && ErrorKey(c) !in after
      && (k != SuccessKey(c) && k != ErrorKey(c) ==> (k in after <==> k in entries) && (k in entries ==> after[k] == entries[k]))
  {
    KeysDistinct(c);
  }

  /** Metadata is cached only from a 200 response whose body decodes. */
  lemma DecodedOnlyFrom200(outcome: HttpOutcome, decode: string -> Option<Meta>)
    ensures Decoded(outcome, decode).Some? <==> outcome.Response? && outcome.code == 200 && decode(outcome.body).Some?
  {
  }

  // ---------------------------------------------------------------------
  // Metadata loading shared by plugin_update() and theme_update()
  // ---------------------------------------------------------------------

  /** The GitHub API request for the latest release; the token, when truthy, is sent as Authorization. */
  function GithubRequest(c: Config): Request {
    var headers := map["Accept" := "application/vnd.github.v3+json", "User-Agent" := "WordPress-UUPD"];
    Request(GithubLatestReleaseApiUrl(RTrimSlash(Server(c))),
      if EmptyStr(Token(c)) then headers else headers["Authorization" := "token " + Token(c)])
  }

  /** The configured visual assets filled into metadata. */
  function GithubMetaFill(c: Config, m: Meta): Meta {
    WithVisualAssets(m, VisualAssetsOf(c))
  }

  /** The metadata GitHub mode caches for a release payload, with the visual assets filled in. */
  function GithubMeta(c: Config, payload: Option<Release>): Meta {
    GithubMetaFill(c, ReleaseMeta(c, RTrimSlash(Server(c)), payload))
  }

  /** The outcome of loading: the metadata to compare with (None: bail), the requests made, the transients left. */
  datatype Load = Load(meta: Option<Meta>, requests: seq<Request>, entries: map<string, Entry>)

  /** The entries after GitHub mode built metadata. */
  function CacheGithubMeta(entries: map<string, Entry>, c: Config, m: Meta): map<string, Entry> {
    entries[SuccessKey(c) := Entry(MetaValue(m), Ttl)] - {ErrorKey(c)}
  }

  /**
   * GitHub Releases mode: a cached release payload is used as it is;
   * otherwise the latest release is requested, and a 200 response caches
   * its decoded body while any other outcome sets the failure flag and
   * bails. Metadata built from the payload is cached and the flag cleared.
   */
  function LoadGithub(entries: map<string, Entry>, c: Config, env: Env): Load {
    match ReadRelease(entries, ReleaseKey(c, env.md5))
    case Some(payload) =>
      var m := GithubMeta(c, payload);
      Load(Some(m), [], CacheGithubMeta(entries, c, m))
    case None =>
      var req := GithubRequest(c);
      var outcome := env.net(req);
      if outcome.Response? && outcome.code == 200 then
        var payload := env.decodeRelease(outcome.body);
        var m := GithubMeta(c, payload);
        Load(Some(m), [req], CacheGithubMeta(entries[ReleaseKey(c, env.md5) := Entry(Payload(payload), Ttl)], c, m))
      else
        Load(None, [req], entries[ErrorKey(c) := Entry(Stamp(env.now), Ttl)])
  }

  /** JSON mode: fetch_remote(), then the cached metadata, if any, gets the visual assets and is cached again. */
  function LoadJson(entries: map<string, Entry>, c: Config, env: Env): Load {
    var f := Fetch(entries, c, env);
    match ReadMeta(f.entries, SuccessKey(c))
    case Obj(m) =>
      var filled := WithVisualAssets(m, VisualAssetsOf(c));
      Load(Some(filled), f.requests, f.entries[SuccessKey(c) := Entry(MetaValue(filled), Ttl)])
    case _ => Load(None, f.requests, f.entries)
  }

  /**
   * The metadata step of both update flows: cached metadata is used as it
   * is; with none cached, a set failure flag skips the check; otherwise the
   * metadata is loaded in the mode the configuration selects.
   */
  function LoadMetaSpec(entries: map<string, Entry>, c: Config, env: Env): Load {
    match ReadMeta(entries, SuccessKey(c))
    case Obj(m) => Load(Some(m), [], entries)
    case Falsy => Load(None, [], entries)
    case Missing =>
      if ErrorFlagged(entries, ErrorKey(c)) then Load(None, [], entries)
      else if ShouldUseGithubReleaseMode(c) then LoadGithub(entries, c, env)
      else LoadJson(entries, c, env)
  }

  /** GitHub mode of the metadata step (updater.php:548-627). */
  method LoadFromGithub(store: TransientStore, c: Config, env: Env) returns (meta: Option<Meta>, requests: seq<Request>)
    modifies store
    ensures Load(meta, requests, store.entries) == LoadGithub(old(store.entries), c, env)
  {
    var repoUrl := RTrimSlash(Server(c));
    var cacheKey := ReleaseKey(c, env.md5);
    var cached := ReadRelease(store.entries, cacheKey);
    var release: Option<Release>;
    requests := [];
    if cached.None? {
      var req := GithubRequest(c);
      requests := [req];
      var response := env.net(req);
      if response.Response? && response.code == 200 {
        release := env.decodeRelease(response.body);
        store.Set(cacheKey, Payload(release), Ttl);
      } else {
        store.Set(ErrorKey(c), Stamp(env.now), Ttl);
        return None, requests;
      }
    } else {
      release := cached.value;
    }
    var m: Meta;
    if release.Some? && release.value.tagName.Some? {
      var zipUrl := GithubReleaseDownloadUrl(c, repoUrl, release.value);
      m := NoMeta.(version := Some(LTrim(release.value.tagName.value, {'v'})),
                   downloadUrl := Some(zipUrl),
                   homepage := Some(release.value.htmlUrl.GetOr(repoUrl)),
                   sections := Some(map["changelog" := release.value.body.GetOr("")]));
    } else {
      m := NoMeta.(version := Some(c.version),
                   downloadUrl := Some(""),
                   homepage := Some(repoUrl),
                   sections := Some(map["changelog" := ""]));
    }
    assert m == ReleaseMeta(c, repoUrl, release);
    m := ApplyVisualAssetsToMeta(m, VisualAssetsOf(c));
    store.Set(SuccessKey(c), MetaValue(m), Ttl);
    store.Delete(ErrorKey(c));
    return Some(m), requests;
  }

  /** JSON mode of the metadata step (updater.php:630-642). */
  method LoadFromServer(store: TransientStore, c: Config, env: Env) returns (meta: Option<Meta>, requests: seq<Request>)
    modifies store
    ensures Load(meta, requests, store.entries) == LoadJson(old(store.entries), c, env)
  {
    requests := FetchRemote(store, c, env);
    var read := ReadMeta(store.entries, SuccessKey(c));
    if read.Obj? {
      var m := ApplyVisualAssetsToMeta(read.meta, VisualAssetsOf(c));
      store.Set(SuccessKey(c), MetaValue(m), Ttl);
      return Some(m), requests;
    }
    return None, requests;
  }

  /** The metadata step of plugin_update() and theme_update() (updater.php:534-655, 727-840). */
  method LoadMeta(store: TransientStore, c: Config, env: Env) returns (meta: Option<Meta>, requests: seq<Request>)
    modifies store
    ensures Load(meta, requests, store.entries) == LoadMetaSpec(old(store.entries), c, env)
  {
    var cacheId := SuccessKey(c);
    var errorKey := ErrorKey(c);
    var read := ReadMeta(store.entries, cacheId);
    if read.Missing? && ErrorFlagged(store.entries, errorKey) {
      return None, [];
    }
    if read.Missing? {
      if ShouldUseGithubReleaseMode(c) {
        meta, requests := LoadFromGithub(store, c, env);
      } else {
        meta, requests := LoadFromServer(store, c, env);
      }
      return;
    }
    if read.Falsy? {
      return None, [];
    }
    return Some(read.meta), [];
  }

  /** With no cached metadata and the failure flag set, nothing is requested and nothing changes. */
  lemma ErrorFlagSkipsFetch(entries: map<string, Entry>, c: Config, env: Env)
    requires ReadMeta(entries, SuccessKey(c)).Missing? && ErrorFlagged(entries, ErrorKey(c))
    ensures LoadMetaSpec(entries, c, env) == Load(None, [], entries)
  {
  }

  /** Cached metadata is used without any request. */
  lemma CachedMetaUsed(entries: map<string, Entry>, c: Config, env: Env, m: Meta)
    requires ReadMeta(entries, SuccessKey(c)) == Obj(m)
    ensures LoadMetaSpec(entries, c, env) == Load(Some(m), [], entries)
  {
  }

  /** The metadata fetch_remote() obtains, if any. */
  function Fetched(c: Config, env: Env): Option<Meta> {
    if EmptyOpt(c.server) then None else Decoded(env.net(MetadataRequest(c, env)), env.decodeMeta)
  }

  /** The effect of fetch_remote() in terms of the metadata it obtains. */
  lemma FetchOf(entries: map<string, Entry>, c: Config, env: Env)
    ensures Fetch(entries, c, env).entries == AfterFetch(entries, c, Fetched(c, env), env.now)
    ensures Fetch(entries, c, env).requests == (if EmptyOpt(c.server) then [] else [MetadataRequest(c, env)])
  {
  }

  /** JSON mode with nothing cached: the fetched metadata, with the visual assets filled in, is what is cached. */
  lemma LoadJsonOf(entries: map<string, Entry>, c: Config, env: Env)
    requires ReadMeta(entries, SuccessKey(c)).Missing?
    ensures var l := LoadJson(entries, c, env);
      && l.requests == Fetch(entries, c, env).requests
      && (Fetched(c, env).None? ==> l.meta.None? && l.entries == AfterFetch(entries, c, None, env.now))
      && (Fetched(c, env).Some? ==>
           var filled := WithVisualAssets(Fetched(c, env).value, VisualAssetsOf(c));
           l.meta == Some(filled) && l.entries == AfterFetch(entries, c, Some(filled), env.now))
  {
    FetchOf(entries, c, env);
    KeysDistinct(c);
    var f := Fetched(c, env);
    if f.Some? {
      AfterFetchRecache(entries, c, f.value, WithVisualAssets(f.value, VisualAssetsOf(c)), env.now);
    } else {
      assert ReadMeta(AfterFetch(entries, c, None, env.now), SuccessKey(c)) == ReadMeta(entries, SuccessKey(c));
    }
  }

  /** Caching metadata again after a successful fetch is the same as having fetched it. */
  lemma AfterFetchRecache(entries: map<string, Entry>, c: Config, m: Meta, m2: Meta, now: int)
    ensures ReadMeta(AfterFetch(entries, c, Some(m), now), SuccessKey(c)) == Obj(m)
    ensures AfterFetch(entries, c, Some(m), now)[SuccessKey(c) := Entry(MetaValue(m2), Ttl)] == AfterFetch(entries, c, Some(m2), now)
  {
    KeysDistinct(c);
  }

  /** Every path that ends without metadata leaves the transients as they were or writes only the failure flag. */
  lemma FailureWritesOnlyErrorKey(entries: map<string, Entry>, c: Config, env: Env)
    requires LoadMetaSpec(entries, c, env).meta.None?
    ensures var after := LoadMetaSpec(entries, c, env).entries;
      after == entries || after == entries[ErrorKey(c) := Entry(Stamp(env.now), Ttl)]
  {
    if ReadMeta(entries, SuccessKey(c)).Missing? && !ErrorFlagged(entries, ErrorKey(c)) {
      if ShouldUseGithubReleaseMode(c) {
        GithubBranch(entries, c, env);
        GithubFailure(entries, c, env);
      } else {
        JsonBranch(entries, c, env);
        LoadJsonOf(entries, c, env);
      }
    } else {
      CacheBranch(entries, c, env);
    }
  }

  /** GitHub mode without metadata: the fetch failed and only the failure flag was written. */
  lemma GithubFailure(entries: map<string, Entry>, c: Config, env: Env)
    requires LoadGithub(entries, c, env).meta.None?
    ensures LoadGithub(entries, c, env).entries == entries[ErrorKey(c) := Entry(Stamp(env.now), Ttl)]
  {
  }

  /** With cached metadata, or none and the failure flag set, the step neither requests nor writes. */
  lemma CacheBranch(entries: map<string, Entry>, c: Config, env: Env)
    requires !(ReadMeta(entries, SuccessKey(c)).Missing? && !ErrorFlagged(entries, ErrorKey(c)))
    ensures var l := LoadMetaSpec(entries, c, env);
      && l.requests == [] && l.entries == entries
      && l.meta == (if ReadMeta(entries, SuccessKey(c)).Obj? then Some(ReadMeta(entries, SuccessKey(c)).meta) else None)
  {
  }

  /** With no cached metadata and no failure flag, JSON mode decides the metadata step. */
  lemma JsonBranch(entries: map<string, Entry>, c: Config, env: Env)
    requires ReadMeta(entries, SuccessKey(c)).Missing? && !ErrorFlagged(entries, ErrorKey(c))
    requires !ShouldUseGithubReleaseMode(c)
    ensures LoadMetaSpec(entries, c, env) == LoadJson(entries, c, env)
  {
  }

  /**
   * Every path that loads metadata either uses the cached metadata without
   * change or caches the metadata it returns and deletes the failure flag.
   */
  lemma SuccessWritesKeyAndClearsError(entries: map<string, Entry>, c: Config, env: Env)
    requires LoadMetaSpec(entries, c, env).meta.Some?
    ensures var l := LoadMetaSpec(entries, c, env);
      || (l.entries == entries && ReadMeta(entries, SuccessKey(c)) == Obj(l.meta.value))
      || (ReadMeta(l.entries, SuccessKey(c)) == Obj(l.meta.value) && ErrorKey(c) !in l.entries)
  {
    if ReadMeta(entries, SuccessKey(c)).Missing? && !ErrorFlagged(entries, ErrorKey(c)) {
      if ShouldUseGithubReleaseMode(c) {
        GithubBranch(entries, c, env);
        GithubSuccessCached(entries, c, env);
      } else {
        JsonBranch(entries, c, env);
        JsonSuccessCached(entries, c, env);
      }
    } else {
      CacheBranch(entries, c, env);
    }
  }

  lemma JsonSuccessCached(entries: map<string, Entry>, c: Config, env: Env)
    requires ReadMeta(entries, SuccessKey(c)).Missing?
    requires LoadJson(entries, c, env).meta.Some?
    ensures var l := LoadJson(entries, c, env);
      ReadMeta(l.entries, SuccessKey(c)) == Obj(l.meta.value) && ErrorKey(c) !in l.entries
  {
    LoadJsonOf(entries, c, env);
    var m := LoadJson(entries, c, env).meta.value;
    AfterFetchRecache(entries, c, m, m, env.now);
    KeysDistinct(c);
  }

  lemma GithubSuccessCached(entries: map<string, Entry>, c: Config, env: Env)
    requires LoadGithub(entries, c, env).meta.Some?
    ensures var l := LoadGithub(entries, c, env);
      ReadMeta(l.entries, SuccessKey(c)) == Obj(l.meta.value) && ErrorKey(c) !in l.entries
  {
    var rk := ReleaseKey(c, env.md5);
    if ReadRelease(entries, rk).Some? {
      CachedReleaseBranch(entries, c, env);
      var m := GithubMeta(c, ReadRelease(entries, rk).value);
      CachedMetaReads(entries, c, m);
    } else {
      FetchedReleaseBranch(entries, c, env);
      var p := env.decodeRelease(env.net(GithubRequest(c)).body);
      CachedMetaReads(entries[rk := Entry(Payload(p), Ttl)], c, GithubMeta(c, p));
    }
  }

  /** A cached release payload is reused and its metadata cached. */
  lemma CachedReleaseBranch(entries: map<string, Entry>, c: Config, env: Env)
    requires ReadRelease(entries, ReleaseKey(c, env.md5)).Some?
    ensures var m := GithubMeta(c, ReadRelease(entries, ReleaseKey(c, env.md5)).value);
      LoadGithub(entries, c, env) == Load(Some(m), [], CacheGithubMeta(entries, c, m))
  {
  }

  /** Caching GitHub metadata: it reads back, the failure flag is gone, and every other key is kept. */
  lemma CachedMetaReads(entries: map<string, Entry>, c: Config, m: Meta)
    ensures var after := CacheGithubMeta(entries, c, m);
      && ReadMeta(after, SuccessKey(c)) == Obj(m) && ErrorKey(c) !in after
      && forall k :: k != SuccessKey(c) && k != ErrorKey(c) ==> (k in after <==> k in entries) && (k in entries ==> after[k] == entries[k])
  {
    KeysDistinct(c);
  }

  /** Loading writes no key other than the metadata key, the failure flag and the release key. */
  lemma OnlyFlowKeysChange(entries: map<string, Entry>, c: Config, env: Env, k: string)
    requires k != SuccessKey(c) && k != ErrorKey(c) && k != ReleaseKey(c, env.md5)
    ensures var after := LoadMetaSpec(entries, c, env).entries;
      (k in after <==> k in entries) && (k in entries ==> after[k] == entries[k])
  {
    if ReadMeta(entries, SuccessKey(c)).Missing? && !ErrorFlagged(entries, ErrorKey(c)) {
      if ShouldUseGithubReleaseMode(c) {
        GithubBranch(entries, c, env);
        GithubKeysOnly(entries, c, env, k);
      } else {
        JsonBranch(entries, c, env);
        LoadJsonOf(entries, c, env);
      }
    } else {
      CacheBranch(entries, c, env);
    }
  }

  lemma GithubKeysOnly(entries: map<string, Entry>, c: Config, env: Env, k: string)
    requires k != SuccessKey(c) && k != ErrorKey(c) && k != ReleaseKey(c, env.md5)
    ensures var after := LoadGithub(entries, c, env).entries;
      (k in after <==> k in entries) && (k in entries ==> after[k] == entries[k])
  {
    var rk := ReleaseKey(c, env.md5);
    if ReadRelease(entries, rk).Some? {
      CachedReleaseBranch(entries, c, env);
      CachedMetaReads(entries, c, GithubMeta(c, ReadRelease(entries, rk).value));
    } else if env.net(GithubRequest(c)).Response? && env.net(GithubRequest(c)).code == 200 {
      FetchedReleaseBranch(entries, c, env);
      var p := env.decodeRelease(env.net(GithubRequest(c)).body);
      CachedMetaReads(entries[rk := Entry(Payload(p), Ttl)], c, GithubMeta(c, p));
    } else {
      FailedReleaseBranch(entries, c, env);
    }
  }

  /** A failed API request writes the failure flag and bails. */
  lemma FailedReleaseBranch(entries: map<string, Entry>, c: Config, env: Env)
    requires ReadRelease(entries, ReleaseKey(c, env.md5)).None?
    requires !(env.net(GithubRequest(c)).Response? && env.net(GithubRequest(c)).code == 200)
    ensures LoadGithub(entries, c, env) == Load(None, [GithubRequest(c)], entries[ErrorKey(c) := Entry(Stamp(env.now), Ttl)])
  {
  }

  /** In GitHub mode a cached release payload is used without requesting the API again. */
  lemma CachedReleaseReused(entries: map<string, Entry>, c: Config, env: Env)
    requires ReadMeta(entries, SuccessKey(c)).Missing? && !ErrorFlagged(entries, ErrorKey(c))
    requires ShouldUseGithubReleaseMode(c)
    requires ReadRelease(entries, ReleaseKey(c, env.md5)).Some?
    ensures LoadMetaSpec(entries, c, env).requests == []
    ensures LoadMetaSpec(entries, c, env).meta == Some(GithubMeta(c, ReadRelease(entries, ReleaseKey(c, env.md5)).value))
  {
    GithubBranch(entries, c, env);
  }

  /**
   * A 200 response from the GitHub API whose payload has no tag_name is
   * still cached, and so is metadata offering the configured installed
   * version with no download URL.
   */
  lemma UntaggedReleaseCached(entries: map<string, Entry>, c: Config, env: Env)
    requires ReadMeta(entries, SuccessKey(c)).Missing? && !ErrorFlagged(entries, ErrorKey(c))
    requires ShouldUseGithubReleaseMode(c)
    requires ReadRelease(entries, ReleaseKey(c, env.md5)).None?
    requires ReleaseKey(c, env.md5) != SuccessKey(c) && ReleaseKey(c, env.md5) != ErrorKey(c)
    requires env.net(GithubRequest(c)).Response? && env.net(GithubRequest(c)).code == 200
    requires var p := env.decodeRelease(env.net(GithubRequest(c)).body); p.None? || p.value.tagName.None?
    ensures var l := LoadMetaSpec(entries, c, env);
      && l.requests == [GithubRequest(c)]
      && l.meta.Some? && l.meta.value.version == Some(c.version) && l.meta.value.downloadUrl == Some("")
      && ReadMeta(l.entries, SuccessKey(c)) == Obj(l.meta.value)
      && ReadRelease(l.entries, ReleaseKey(c, env.md5)).Some?
  {
    GithubBranch(entries, c, env);
    UntaggedGithub(entries, c, env);
  }

  /** With no cached metadata and no failure flag, GitHub mode decides the metadata step. */
  lemma GithubBranch(entries: map<string, Entry>, c: Config, env: Env)
    requires ReadMeta(entries, SuccessKey(c)).Missing? && !ErrorFlagged(entries, ErrorKey(c))
    requires ShouldUseGithubReleaseMode(c)
    ensures LoadMetaSpec(entries, c, env) == LoadGithub(entries, c, env)
  {
  }

  lemma UntaggedGithub(entries: map<string, Entry>, c: Config, env: Env)
    requires ReadRelease(entries, ReleaseKey(c, env.md5)).None?
    requires ReleaseKey(c, env.md5) != SuccessKey(c) && ReleaseKey(c, env.md5) != ErrorKey(c)
    requires env.net(GithubRequest(c)).Response? && env.net(GithubRequest(c)).code == 200
    requires var p := env.decodeRelease(env.net(GithubRequest(c)).body); p.None? || p.value.tagName.None?
    ensures var l := LoadGithub(entries, c, env);
      && l.requests == [GithubRequest(c)]
      && l.meta.Some? && l.meta.value.version == Some(c.version) && l.meta.value.downloadUrl == Some("")
      && ReadMeta(l.entries, SuccessKey(c)) == Obj(l.meta.value)
      && ReadRelease(l.entries, ReleaseKey(c, env.md5)).Some?
  {
    var p := env.decodeRelease(env.net(GithubRequest(c)).body);
    var rk := ReleaseKey(c, env.md5);
    FetchedReleaseBranch(entries, c, env);
    UntaggedReleaseMeta(c, RTrimSlash(Server(c)), p);
    UntaggedFilled(c, ReleaseMeta(c, RTrimSlash(Server(c)), p));
    CachedReleaseReads(entries, c, rk, p, GithubMeta(c, p));
  }

  /** A release fetched with status 200 is cached with the metadata built from it. */
  lemma FetchedReleaseBranch(entries: map<string, Entry>, c: Config, env: Env)
    requires ReadRelease(entries, ReleaseKey(c, env.md5)).None?
    requires env.net(GithubRequest(c)).Response? && env.net(GithubRequest(c)).code == 200
    ensures var p := env.decodeRelease(env.net(GithubRequest(c)).body);
      var m := GithubMeta(c, p);
      LoadGithub(entries, c, env)
        == Load(Some(m), [GithubRequest(c)], CacheGithubMeta(entries[ReleaseKey(c, env.md5) := Entry(Payload(p), Ttl)], c, m))
  {
  }

  /** Filling the visual assets keeps the version and the download URL. */
  lemma UntaggedFilled(c: Config, m: Meta)
    ensures GithubMetaFill(c, m).version == m.version && GithubMetaFill(c, m).downloadUrl == m.downloadUrl
  {
  }

  /** After caching a fetched release and its metadata, both read back. */
  lemma CachedReleaseReads(entries: map<string, Entry>, c: Config, rk: string, p: Option<Release>, m: Meta)
    requires rk != SuccessKey(c) && rk != ErrorKey(c)
    ensures var after := CacheGithubMeta(entries[rk := Entry(Payload(p), Ttl)], c, m);
      ReadMeta(after, SuccessKey(c)) == Obj(m) && ReadRelease(after, rk) == Some(p)
  {
    KeysDistinct(c);
  }

  /** The GitHub API request carries Authorization exactly when the token is truthy. */
  lemma GithubRequestAuth(c: Config)
    ensures "Authorization" in GithubRequest(c).headers <==> !EmptyStr(Token(c))
    ensures !EmptyStr(Token(c)) ==> GithubRequest(c).headers["Authorization"] == "token " + Token(c)
  {
  }

  /** At most one request is made, to the GitHub API in GitHub mode and to the metadata server otherwise. */
  lemma AtMostOneRequest(entries: map<string, Entry>, c: Config, env: Env)
    ensures var rs := LoadMetaSpec(entries, c, env).requests;
      && |rs| <= 1
      && (|rs| == 1 ==> rs[0] == (if ShouldUseGithubReleaseMode(c) then GithubRequest(c) else MetadataRequest(c, env)))
  {
    if ReadMeta(entries, SuccessKey(c)).Missing? && !ErrorFlagged(entries, ErrorKey(c)) {
      if ShouldUseGithubReleaseMode(c) {
        GithubBranch(entries, c, env);
        GithubOneRequest(entries, c, env);
      } else {
        JsonBranch(entries, c, env);
        LoadJsonOf(entries, c, env);
      }
    } else {
      CacheBranch(entries, c, env);
    }
  }

  lemma GithubOneRequest(entries: map<string, Entry>, c: Config, env: Env)
    ensures var rs := LoadGithub(entries, c, env).requests;
      rs == [] || rs == [GithubRequest(c)]
  {
  }

  // ---------------------------------------------------------------------
  // Manual check
  // ---------------------------------------------------------------------

  /**
   * The slug the manual-check action compares with the configured one:
   * `$_REQUEST['slug']` (which WordPress holds slashed) unslashed and passed
   * through sanitize_key(), or '' when the request has none.
   */
  function RequestedSlug(request: Option<string>): string {
    match request
    case Some(v) => SanitizeKey(StripSlashes(v))
    case None => ""
  }

  /** The row link sends the configured slug; WordPress slashes it, the action unslashes and sanitizes it. */
  lemma RequestedSlugOfLink(slug: string)
    ensures RequestedSlug(Some(AddSlashes(slug))) == SanitizeKey(slug)
    ensures RequestedSlug(Some(AddSlashes(slug))) == slug <==> forall i :: 0 <= i < |slug| ==> IsKeyChar(slug[i])
  {
    StripAddSlashes(slug);
    SanitizeKeyFixedIff(slug);
  }

  /**
   * The keys the manual-check action deletes: nothing when the requested
   * slug differs from the configured one; the metadata key and the failure
   * flag; and, when the server URL contains "github.com", the release key and
   * its legacy form.
   */
  function ManualCheckKeys(c: Config, request: Option<string>, md5: string -> string): set<string> {
    if RequestedSlug(request) != c.slug then {}
    else if c.server.Some? && Contains(c.server.value, "github.com") then
      {SuccessKey(c), ErrorKey(c), ReleaseKey(c, md5), LegacyReleaseKey(c, md5)}
    else {SuccessKey(c), ErrorKey(c)}
  }

  /** The uupd_manual_check action of register() (the nonce and capability checks belong to WordPress). */
  method ManualCheck(store: TransientStore, c: Config, request: Option<string>, md5: string -> string)
    modifies store
    ensures store.entries == old(store.entries) - ManualCheckKeys(c, request, md5)
  {
    var requestSlug := if request.Some? then SanitizeKey(StripSlashes(request.value)) else "";
    if requestSlug != c.slug {
      return;
    }
    var prefix := Prefix(c);
    store.Delete(prefix + c.slug);
    store.Delete(prefix + c.slug + "_error");
    if c.server.Some? && Contains(c.server.value, "github.com") {
      var repoUrl := RTrimSlash(c.server.value);
      store.Delete("uupd_github_release_" + c.slug + "_" + md5(repoUrl));
      store.Delete("uupd_github_release_" + md5(repoUrl));
    }
  }

  /**
   * After a manual check from the row link of a slug sanitize_key() leaves
   * alone, the next update check loads fresh metadata: it makes a request
   * unless JSON mode has no server; in GitHub mode this holds when the
   * server URL contains "github.com".
   */
  lemma ManualCheckForcesFetch(entries: map<string, Entry>, c: Config, env: Env)
    requires forall i :: 0 <= i < |c.slug| ==> IsKeyChar(c.slug[i])
    requires !ShouldUseGithubReleaseMode(c) ==> !EmptyOpt(c.server)
    requires ShouldUseGithubReleaseMode(c) ==> c.server.Some? && Contains(c.server.value, "github.com")
    ensures LoadMetaSpec(entries - ManualCheckKeys(c, Some(AddSlashes(c.slug)), env.md5), c, env).requests != []
  {
    RequestedSlugOfLink(c.slug);
    var keys := ManualCheckKeys(c, Some(AddSlashes(c.slug)), env.md5);
    if ShouldUseGithubReleaseMode(c) {
      assert ReleaseKey(c, env.md5) in keys;
    }
    FetchAfterDelete(entries, c, env, keys);
  }

  /**
   * Once the metadata key and the failure flag are deleted, the next step
   * requests: in JSON mode when a server is set, in GitHub mode when the
   * release key is gone too.
   */
  lemma FetchAfterDelete(entries: map<string, Entry>, c: Config, env: Env, keys: set<string>)
    requires SuccessKey(c) in keys && ErrorKey(c) in keys
    requires !ShouldUseGithubReleaseMode(c) ==> !EmptyOpt(c.server)
    requires ShouldUseGithubReleaseMode(c) ==> ReleaseKey(c, env.md5) in keys
    ensures LoadMetaSpec(entries - keys, c, env).requests != []
  {
    var after := entries - keys;
    if ShouldUseGithubReleaseMode(c) {
      GithubBranch(after, c, env);
      GithubRequests(after, c, env);
    } else {
      JsonBranch(after, c, env);
      LoadJsonOf(after, c, env);
      FetchOf(after, c, env);
    }
  }

  /** Without a cached release GitHub mode asks the API. */
  lemma GithubRequests(entries: map<string, Entry>, c: Config, env: Env)
    requires ReadRelease(entries, ReleaseKey(c, env.md5)).None?
    ensures LoadGithub(entries, c, env).requests == [GithubRequest(c)]
  {
  }

  /**
   * The manual check tests the server URL for "github.com" case-sensitively,
   * while GitHub mode is also chosen for an explicit github_release mode and
   * for a host spelled "GitHub.com". In such a configuration a cached release
   * payload survives the manual check from the row link, and the next update
   * check makes no request at all.
   */
  lemma ManualCheckKeepsStaleRelease(entries: map<string, Entry>, c: Config, env: Env)
    requires forall i :: 0 <= i < |c.slug| ==> IsKeyChar(c.slug[i])
    requires ShouldUseGithubReleaseMode(c)
    requires c.server.None? || !Contains(c.server.value, "github.com")
    requires ReadRelease(entries, ReleaseKey(c, env.md5)).Some?
    requires ReleaseKey(c, env.md5) != SuccessKey(c) && ReleaseKey(c, env.md5) != ErrorKey(c)
    ensures LoadMetaSpec(entries - ManualCheckKeys(c, Some(AddSlashes(c.slug)), env.md5), c, env).requests == []
  {
    RequestedSlugOfLink(c.slug);
    var keys := ManualCheckKeys(c, Some(AddSlashes(c.slug)), env.md5);
    var after := entries - keys;
    assert keys == {SuccessKey(c), ErrorKey(c)};
    assert ReadRelease(after, ReleaseKey(c, env.md5)) == ReadRelease(entries, ReleaseKey(c, env.md5));
    GithubBranch(after, c, env);
    GithubCachedRequests(after, c, env);
  }

  /** With a cached release GitHub mode makes no request. */
  lemma GithubCachedRequests(entries: map<string, Entry>, c: Config, env: Env)
    requires ReadRelease(entries, ReleaseKey(c, env.md5)).Some?
    ensures LoadGithub(entries, c, env).requests == []
  {
  }

  /** The manual check with the release keys cleared whenever GitHub mode is in use. */
  function ManualCheckKeysIntended(c: Config, request: Option<string>, md5: string -> string): set<string> {
    if RequestedSlug(request) != c.slug then {}
    else if ShouldUseGithubReleaseMode(c) || (c.server.Some? && Contains(c.server.value, "github.com")) then
      {SuccessKey(c), ErrorKey(c), ReleaseKey(c, md5), LegacyReleaseKey(c, md5)}
    else {SuccessKey(c), ErrorKey(c)}
  }

  /** With the intended keys the next update check always requests fresh metadata (given a server in JSON mode). */
  lemma ManualCheckIntendedForcesFetch(entries: map<string, Entry>, c: Config, env: Env)
    requires forall i :: 0 <= i < |c.slug| ==> IsKeyChar(c.slug[i])
    requires !ShouldUseGithubReleaseMode(c) ==> !EmptyOpt(c.server)
    ensures LoadMetaSpec(entries - ManualCheckKeysIntended(c, Some(AddSlashes(c.slug)), env.md5), c, env).requests != []
  {
    RequestedSlugOfLink(c.slug);
    FetchAfterDelete(entries, c, env, ManualCheckKeysIntended(c, Some(AddSlashes(c.slug)), env.md5));
  }

  /**
   * sanitize_key() can only produce key characters, so for a configured
   * slug with any other character (an upper-case letter, a '.') the manual
   * check never matches: it deletes nothing, whatever the request carries.
   */
  lemma ManualCheckIgnoresUnsanitizedSlug(c: Config, request: Option<string>, md5: string -> string)
    requires exists i :: 0 <= i < |c.slug| && !IsKeyChar(c.slug[i])
    ensures ManualCheckKeys(c, request, md5) == {}
  {
    var i :| 0 <= i < |c.slug| && !IsKeyChar(c.slug[i]);
    var r := RequestedSlug(request);
    assert r != c.slug;
  }

  /**
   * The manual check comparing against the sanitized configured slug, so
   * that the row link of any slug matches; otherwise as written.
   */
  function ManualCheckKeysSanitized(c: Config, request: Option<string>, md5: string -> string): set<string> {
    if RequestedSlug(request) != SanitizeKey(c.slug) then {}
    else if c.server.Some? && Contains(c.server.value, "github.com") then
      {SuccessKey(c), ErrorKey(c), ReleaseKey(c, md5), LegacyReleaseKey(c, md5)}
    else {SuccessKey(c), ErrorKey(c)}
  }

  /** With the sanitized comparison the row link of every slug forces a fresh request. */
  lemma ManualCheckSanitizedForcesFetch(entries: map<string, Entry>, c: Config, env: Env)
    requires !ShouldUseGithubReleaseMode(c) ==> !EmptyOpt(c.server)
    requires ShouldUseGithubReleaseMode(c) ==> c.server.Some? && Contains(c.server.value, "github.com")
    ensures LoadMetaSpec(entries - ManualCheckKeysSanitized(c, Some(AddSlashes(c.slug)), env.md5), c, env).requests != []
  {
    RequestedSlugOfLink(c.slug);
    var keys := ManualCheckKeysSanitized(c, Some(AddSlashes(c.slug)), env.md5);
    if ShouldUseGithubReleaseMode(c) {
      assert ReleaseKey(c, env.md5) in keys;
    }
    FetchAfterDelete(entries, c, env, keys);
  }
}
