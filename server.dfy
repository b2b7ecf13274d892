/**
 * The two endpoints of the companion update server (simple-update-server):
 * `action=get_metadata`, which answers the updater's metadata request from
 * the `update` post whose slug matches and issues a signed, expiring
 * download link, and `action=download`, which checks such a link before
 * redirecting or serving the file.
 *
 * The post lookup, the clock, the HMAC and the attachment lookup are
 * parameters; post meta values are strings, a missing one reads as "".
 */
module Server {
  import opened Php
  import opened Urls
  import opened Versions

  /** UUPD_Server::TOKEN_EXPIRY: a signed link lasts an hour. */
  const TokenExpiry := 3600

  /** The meta of one `update` post: get_post_meta($id, $k, true) is "" when unset. */
  type Post = map<string, string>

  function PostField(p: Post, k: string): string {
    if k in p then p[k] else ""
  }

  /** `$_GET[$k] ?? ''` (sanitize_text_field is taken as identity). */
  function Param(get: map<string, string>, k: string): string {
    if k in get then get[k] else ""
  }

  /** PHP's `$a ?: $b` on strings: "" and "0" are falsy. */
  function Elvis(a: string, b: string): (r: string)
    ensures !EmptyStr(a) ==> r == a
    ensures EmptyStr(a) ==> r == b
  {
    if EmptyStr(a) then b else a
  }

  // ---------------------------------------------------------------------
  // intval()
  // ---------------------------------------------------------------------

  /** The whitespace PHP skips before a numeric string. */
  const NumericWhitespace: set<char> := {' ', '\t', '\n', '\r', '\U{0B}', '\U{0C}'}

  /** The value of the run of digits at the start of s (0 when there is none). */
  function LeadValue(s: string): nat {
    DigitsValue(s[..LeadDigits(s)])
  }

  /**
   * intval() of a string: leading whitespace, an optional sign, then the
   * longest run of digits; a string with no leading digits is 0.
   */
  function Intval(s: string): int {
    if s != [] && s[0] in NumericWhitespace then Intval(s[1..]) else SignedValue(s)
  }

  /** intval() after the leading whitespace: an optional sign, then the leading digits. */
  function SignedValue(t: string): int {
    if t != [] && t[0] == '-' then -(LeadValue(t[1..]) as int)
    else if t != [] && t[0] == '+' then LeadValue(t[1..])
    else LeadValue(t)
  }

  /** A rendered digit string reads back as its value, whatever non-digit follows. */
  lemma LeadValueOfNatToString(n: nat)
    ensures LeadValue(NatToString(n)) == n
  {
    var r := NatToString(n);
    LeadDigitsOf(r, "");
    assert r + "" == r;
    assert r[..|r|] == r;
    DigitsValueOfNatToString(n);
  }

  /** intval() reads back every integer the server renders into a link. */
  lemma IntvalOfIntToString(n: int)
    ensures Intval(IntToString(n)) == n
  {
    if n < 0 {
      IntvalOfNegativeInt(n);
    } else {
      IntvalOfNatural(n);
    }
  }

  lemma IntvalOfNegativeInt(n: int)
    requires n < 0
    ensures Intval(IntToString(n)) == n
  {
    NegativeToString(n);
    IntvalOfNegative(-n);
  }

  lemma NegativeToString(n: int)
    requires n < 0
    ensures IntToString(n) == "-" + NatToString(-n)
  {
  }

  lemma IntvalOfNegative(m: nat)
    ensures Intval("-" + NatToString(m)) == -(m as int)
  {
    IntvalOfNegated(NatToString(m));
    LeadValueOfNatToString(m);
  }

  lemma IntvalOfNatural(m: nat)
    ensures Intval(NatToString(m)) == m
  {
    IntvalOfDigits(NatToString(m));
    LeadValueOfNatToString(m);
  }

  /** No whitespace or sign before the digits: intval() reads the leading digits. */
  lemma IntvalOfDigits(r: string)
    requires r != [] && IsDigit(r[0])
    ensures Intval(r) == LeadValue(r)
  {
    var c := r[0];
    assert c !in NumericWhitespace by {
      assert '0' <= c <= '9';
    }
    UnsignedValue(r);
  }

  lemma UnsignedValue(t: string)
    requires t != [] && '0' <= t[0] <= '9'
    ensures SignedValue(t) == LeadValue(t)
  {
  }

  /** A '-' before the digits negates them. */
  lemma IntvalOfNegated(r: string)
    ensures Intval("-" + r) == -(LeadValue(r) as int)
  {
    var t := "-" + r;
    assert t[0] == '-' && t[1..] == r;
    assert '-' !in NumericWhitespace;
  }

  // ---------------------------------------------------------------------
  // Signed links
  // ---------------------------------------------------------------------

  /** The string the link token signs: `{$slug}|{$file_id}|{$expires}`. */
  function TokenData(slug: string, fileId: string, expires: int): string {
    slug + "|" + fileId + "|" + IntToString(expires)
  }

  /** The query a signed link carries, as add_query_arg() receives it; a null domain is dropped. */
  function LinkParams(slug: string, expires: int, token: string, key: string, domain: Option<string>): seq<(string, string)> {
    [("action", "download"), ("slug", slug), ("expires", IntToString(expires)), ("token", token), ("key", key)]
      + (if domain.Some? then [("domain", domain.value)] else [])
  }

  /**
   * One parameter as add_query_arg() renders it: `k=v`, or the bare name
   * `k` when the value is empty (its final replacement drops an '=' that is
   * followed by '&' or by the end).
   */
  function Assignment(k: string, v: string): (r: string)
    ensures v == "" ==> r == k
    ensures v != "" ==> r == k + "=" + v
  {
    if v == "" then k else k + "=" + v
  }

  /** The parameters joined by '&' (add_query_arg() does not encode the values). */
  function QueryString(params: seq<(string, string)>): string {
    if params == [] then ""
    else if |params| == 1 then Assignment(params[0].0, params[0].1)
    else Assignment(params[0].0, params[0].1) + "&" + QueryString(params[1..])
  }

  /** The request a client sends back for a query: each name read as its last value. */
  function QueryMap(params: seq<(string, string)>): map<string, string> {
    if params == [] then map[]
    else QueryMap(params[..|params| - 1])[params[|params| - 1].0 := params[|params| - 1].1]
  }

  /**
   * The domain reported in the link: the request's non-empty `domain`, else
   * the host of a non-empty referer (null when it has none), else HTTP_HOST.
   */
  function Domain(get: map<string, string>, referer: Option<string>, httpHost: Option<string>): Option<string> {
    if !EmptyStr(Param(get, "domain")) then Some(Param(get, "domain"))
    else if referer.Some? && !EmptyStr(referer.value) then
      (var h := ParseUrl(referer.value).host; if h == "" then None else Some(h))
    else Some(httpHost.GetOr(""))
  }

  // ---------------------------------------------------------------------
  // output_metadata()
  // ---------------------------------------------------------------------

  /** The plain fields copied from post meta, each `?: ''`. */
  const MetaFieldNames: seq<string> :=
    ["slug", "version", "tested", "homepage", "changelog_html", "last_updated", "min_wp_version", "min_php_version"]

  /** The endpoint's JSON answer. */
  datatype MetadataReply =
    | JsonError(message: string, status: int)
    | Json(fields: map<string, string>, icons: map<string, string>, banners: map<string, string>, downloadUrl: string)

  /** The plain fields of the answer. */
  function BaseFields(p: Post): map<string, string> {
    map f | f in MetaFieldNames :: Elvis(PostField(p, f), "")
  }

  /** 1x is the 128px icon, else the 256px one; 2x is the 256px icon. */
  function Icons(p: Post): map<string, string> {
    map["1x" := Elvis(PostField(p, "icon_128_url"), PostField(p, "icon_256_url")),
        "2x" := PostField(p, "icon_256_url")]
  }

  /** low is the 773px banner, else the 1544px one; high is the 1544px banner. */
  function Banners(p: Post): map<string, string> {
    map["low" := Elvis(PostField(p, "banner_773_url"), PostField(p, "banner_1544_url")),
        "high" := PostField(p, "banner_1544_url")]
  }

  /** download_url: the remote URL, else a signed link to the local file, else "". */
  function DownloadUrl(p: Post, slug: string, key: string, domain: Option<string>, siteUrl: string,
                       now: int, hmac: string -> string): string {
    var remote := PostField(p, "remote_url");
    var fileId := PostField(p, "file_id");
    if !EmptyStr(remote) then remote
    else if !EmptyStr(fileId) then
      var expires := now + TokenExpiry;
      siteUrl + "?" + QueryString(LinkParams(slug, expires, hmac(TokenData(slug, fileId, expires)), key, domain))
    else ""
  }

  /** The answer of output_metadata() for one request. */
  function MetadataReplyOf(get: map<string, string>, referer: Option<string>, httpHost: Option<string>,
                           siteUrl: string, now: int, lookup: string -> Option<Post>, hmac: string -> string): MetadataReply {
    var slug := Param(get, "slug");
    match lookup(slug)
    case None => JsonError("Invalid slug", 404)
    case Some(p) =>
      Json(BaseFields(p), Icons(p), Banners(p),
        DownloadUrl(p, slug, Param(get, "key"), Domain(get, referer, httpHost), siteUrl, now, hmac))
  }

  /**
   * output_metadata(): looks the slug up, copies the plain fields one by
   * one, sets the image fallbacks, then chooses the download URL.
   */
  method OutputMetadata(get: map<string, string>, referer: Option<string>, httpHost: Option<string>,
                        siteUrl: string, now: int, lookup: string -> Option<Post>, hmac: string -> string)
    returns (reply: MetadataReply)
    ensures reply == MetadataReplyOf(get, referer, httpHost, siteUrl, now, lookup, hmac)
  {
    var slug := Param(get, "slug");
    var key := Param(get, "key");
    var domain := Domain(get, referer, httpHost);
    var posts := lookup(slug);
    if posts.None? {
      return JsonError("Invalid slug", 404);
    }
    var p := posts.value;
    var fields := CopyFields(p);
    var icons := map["1x" := Elvis(PostField(p, "icon_128_url"), PostField(p, "icon_256_url")),
                     "2x" := PostField(p, "icon_256_url")];
    var banners := map["low" := Elvis(PostField(p, "banner_773_url"), PostField(p, "banner_1544_url")),
                       "high" := PostField(p, "banner_1544_url")];
    var downloadUrl := ChooseDownloadUrl(p, slug, key, domain, siteUrl, now, hmac);
    reply := Json(fields, icons, banners, downloadUrl);
  }

  /** The loop of output_metadata() over the plain field names. */
  method CopyFields(p: Post) returns (fields: map<string, string>)
    ensures fields == BaseFields(p)
  {
    fields := map[];
    var i := 0;
    while i < |MetaFieldNames|
      invariant 0 <= i <= |MetaFieldNames|
      invariant fields.Keys == set j | 0 <= j < i :: MetaFieldNames[j]
      invariant forall f :: f in fields ==> fields[f] == Elvis(PostField(p, f), "")
    {
      var f := MetaFieldNames[i];
      fields := fields[f := Elvis(PostField(p, f), "")];
      i := i + 1;
    }
    AllFieldsCopied(p, fields);
  }

  /** The download_url branch of output_metadata(). */
  method ChooseDownloadUrl(p: Post, slug: string, key: string, domain: Option<string>, siteUrl: string,
                           now: int, hmac: string -> string) returns (downloadUrl: string)
    ensures downloadUrl == DownloadUrl(p, slug, key, domain, siteUrl, now, hmac)
  {
    var remote := PostField(p, "remote_url");
    if !EmptyStr(remote) {
      downloadUrl := remote;
    } else {
      var fileId := PostField(p, "file_id");
      if !EmptyStr(fileId) {
        var expires := now + TokenExpiry;
        var token := hmac(TokenData(slug, fileId, expires));
        downloadUrl := siteUrl + "?" + QueryString(LinkParams(slug, expires, token, key, domain));
      } else {
        downloadUrl := "";
      }
    }
  }

  /** Once every field name was visited, the copied fields are the plain fields of the answer. */
  lemma AllFieldsCopied(p: Post, fields: map<string, string>)
    requires fields.Keys == set j | 0 <= j < |MetaFieldNames| :: MetaFieldNames[j]
    requires forall f :: f in fields ==> fields[f] == Elvis(PostField(p, f), "")
    ensures fields == BaseFields(p)
  {
    forall f | f in BaseFields(p) ensures f in fields {
      var j :| 0 <= j < |MetaFieldNames| && MetaFieldNames[j] == f;
    }
  }

  // ---------------------------------------------------------------------
  // serve_download()
  // ---------------------------------------------------------------------

  /** How a download request ends. */
  datatype DownloadOutcome =
    | Expired         // 403 "Download link expired"
    | InvalidSlug     // 404 "Invalid slug"
    | Redirect(url: string)
    | NoFile          // 404 "No file available"
    | InvalidToken    // 403 "Invalid token"
    | FileNotFound    // 404 "File not found"
    | Serve(file: string)

  /** `intval($_GET['expires'] ?? 0)`. */
  function ExpiresOf(get: map<string, string>): int {
    if "expires" in get then Intval(get["expires"]) else 0
  }

  /**
   * serve_download(): the guards in the source's order: expiry, slug
   * lookup, remote redirect, local file id, token, then the attachment
   * (`attached` stands for get_attached_file() plus file_exists()).
   */
  function ServeDownload(get: map<string, string>, now: int, lookup: string -> Option<Post>,
                         hmac: string -> string, attached: string -> Option<string>): DownloadOutcome {
    var slug := Param(get, "slug");
    var expires := ExpiresOf(get);
    if now > expires then Expired
    else match lookup(slug)
      case None => InvalidSlug
      case Some(p) =>
        var fileId := PostField(p, "file_id");
        var remote := PostField(p, "remote_url");
        if !EmptyStr(remote) then Redirect(remote)
        else if EmptyStr(fileId) then NoFile
        else if hmac(TokenData(slug, fileId, expires)) != Param(get, "token") then InvalidToken
        else match attached(fileId)
          case None => FileNotFound
          case Some(f) => Serve(f)
  }

  // ---------------------------------------------------------------------
  // Properties
  // ---------------------------------------------------------------------

  /** The opening of a signed link: the site URL, the action, the slug, the expiry and the token's name. */
  function LinkHead(siteUrl: string, slug: string, expires: int): string {
    siteUrl + "?" + ("action=download&" + (Assignment("slug", slug) + "&" + ("expires=" + IntToString(expires) + "&" + "token")))
  }

  /** The download URL priority: remote URL, then a signed link expiring an hour from now, then nothing. */
  lemma DownloadUrlPriority(p: Post, slug: string, key: string, domain: Option<string>, siteUrl: string,
                            now: int, hmac: string -> string)
    ensures var u := DownloadUrl(p, slug, key, domain, siteUrl, now, hmac);
      && (!EmptyStr(PostField(p, "remote_url")) ==> u == PostField(p, "remote_url"))
      && (EmptyStr(PostField(p, "remote_url")) && !EmptyStr(PostField(p, "file_id")) ==>
            StartsWith(u, LinkHead(siteUrl, slug, now + TokenExpiry)))
      && (EmptyStr(PostField(p, "remote_url")) && EmptyStr(PostField(p, "file_id")) ==> u == "")
  {
    var remote := PostField(p, "remote_url");
    var fileId := PostField(p, "file_id");
    if EmptyStr(remote) && !EmptyStr(fileId) {
      var expires := now + TokenExpiry;
      var token := hmac(TokenData(slug, fileId, expires));
      LinkQueryStringStart(slug, expires, token, key, domain);
      StartsWithPrepend(siteUrl + "?", QueryString(LinkParams(slug, expires, token, key, domain)),
        "action=download&" + (Assignment("slug", slug) + "&" + ("expires=" + IntToString(expires) + "&" + "token")));
    }
  }

  lemma StartsWithPrepend(a: string, q: string, h: string)
    requires StartsWith(q, h)
    ensures StartsWith(a + q, a + h)
  {
    assert (a + q)[..|a + h|] == a + q[..|h|];
  }

  lemma StartsWithAppend(x: string, y: string)
    ensures StartsWith(x + y, x)
  {
    assert (x + y)[..|x|] == x;
  }

  /**
   * The rendered query of a signed link opens with its action, slug, expiry
   * and the token's name; an empty slug is rendered as the bare name.
   */
  lemma LinkQueryStringStart(slug: string, expires: int, token: string, key: string, domain: Option<string>)
    ensures StartsWith(QueryString(LinkParams(slug, expires, token, key, domain)),
      "action=download&" + (Assignment("slug", slug) + "&" + ("expires=" + IntToString(expires) + "&" + "token")))
  {
    var ps := LinkParams(slug, expires, token, key, domain);
    LinkParamsHead(slug, expires, token, key, domain);
    QueryStringCons(ps[3..]);
    var q3 := QueryString(ps[3..]);
    assert StartsWith(q3, "token") by {
      TokenAssignmentStart(token, QueryString(ps[3..][1..]));
    }
    QueryStringCons(ps[2..]);
    var l2 := "expires=" + IntToString(expires) + "&";
    assert QueryString(ps[2..]) == l2 + q3;
    StartsWithPrepend(l2, q3, "token");
    QueryStringCons(ps[1..]);
    var l1 := Assignment("slug", slug) + "&";
    assert QueryString(ps[1..]) == l1 + QueryString(ps[2..]);
    StartsWithPrepend(l1, QueryString(ps[2..]), l2 + "token");
    QueryStringCons(ps);
    assert QueryString(ps) == "action=download&" + QueryString(ps[1..]);
    StartsWithPrepend("action=download&", QueryString(ps[1..]), l1 + (l2 + "token"));
  }

  lemma TokenAssignmentStart(token: string, rest: string)
    ensures StartsWith(Assignment("token", token) + "&" + rest, "token")
  {
    var a := Assignment("token", token);
    assert a[..5] == "token";
    StartsWithAppend(a, "&" + rest);
    assert (a + "&" + rest)[..5] == a[..5];
  }

  /** An empty key or domain is rendered as the bare name, without '='. */
  lemma EmptyValuesRenderedBare(slug: string, expires: int, token: string)
    ensures EndsWith(QueryString(LinkParams(slug, expires, token, "", None)), "&key")
    ensures EndsWith(QueryString(LinkParams(slug, expires, token, "", Some(""))), "&key&domain")
  {
    var ps := [("action", "download"), ("slug", slug), ("expires", IntToString(expires)), ("token", token)];
    assert LinkParams(slug, expires, token, "", None) == ps + [("key", "")];
    assert LinkParams(slug, expires, token, "", Some("")) == ps + [("key", "")] + [("domain", "")];
    assert "&" + "key" == "&key" && "&" + "key" + ("&" + "domain") == "&key&domain";
    BareTail(ps, "key", "domain");
  }

  lemma BareTail(ps: seq<(string, string)>, n1: string, n2: string)
    requires ps != []
    ensures EndsWith(QueryString(ps + [(n1, "")]), "&" + n1)
    ensures EndsWith(QueryString(ps + [(n1, "")] + [(n2, "")]), "&" + n1 + ("&" + n2))
  {
    var q := QueryString(ps);
    SnocBare(ps, n1);
    EndsWithAppend(q, "&" + n1);
    SnocBare(ps + [(n1, "")], n2);
    ConcatAssocLit(q, "&" + n1, "&" + n2);
    EndsWithAppend(q, "&" + n1 + ("&" + n2));
  }

  /** A parameter with an empty value adds '&' and its bare name. */
  lemma SnocBare(ps: seq<(string, string)>, name: string)
    requires ps != []
    ensures QueryString(ps + [(name, "")]) == QueryString(ps) + ("&" + name)
  {
    QueryStringSnoc(ps, (name, ""));
  }

  lemma ConcatAssocLit(q: string, x: string, y: string)
    ensures q + x + y == q + (x + y)
  {
  }

  /** Adding a parameter at the end adds '&' and its rendering. */
  lemma {:induction false} QueryStringSnoc(ps: seq<(string, string)>, p: (string, string))
    requires ps != []
    ensures QueryString(ps + [p]) == QueryString(ps) + "&" + Assignment(p.0, p.1)
    decreases |ps|
  {
    if |ps| == 1 {
      assert ps + [p] == [ps[0], p];
      assert [ps[0], p][1..] == [p];
    } else {
      assert (ps + [p])[1..] == ps[1..] + [p];
      QueryStringSnoc(ps[1..], p);
      ConcatAssoc3(Assignment(ps[0].0, ps[0].1) + "&", QueryString(ps[1..]), "&", Assignment(p.0, p.1));
    }
  }

  lemma EndsWithAppend(x: string, y: string)
    ensures EndsWith(x + y, y)
  {
    assert (x + y)[|x + y| - |y|..] == y;
  }

  /** The first four parameters of a signed link, and the suffixes after each. */
  lemma LinkParamsHead(slug: string, expires: int, token: string, key: string, domain: Option<string>)
    ensures var ps := LinkParams(slug, expires, token, key, domain);
      && |ps| >= 5
      && ps[0] == ("action", "download") && ps[1] == ("slug", slug)
      && ps[2] == ("expires", IntToString(expires)) && ps[3] == ("token", token)
      && ps[1..][1..] == ps[2..] && ps[2..][1..] == ps[3..]
      && ps[1..][0] == ps[1] && ps[2..][0] == ps[2] && ps[3..][0] == ps[3]
  {
  }

  /** A query of two or more parameters is its first pair, '&', and the rest. */
  lemma QueryStringCons(ps: seq<(string, string)>)
    requires |ps| >= 2
    ensures QueryString(ps) == Assignment(ps[0].0, ps[0].1) + "&" + QueryString(ps[1..])
  {
  }

  /** The image fallbacks of the answer. */
  lemma ImageFallbacks(p: Post)
    ensures Icons(p)["1x"] == (if EmptyStr(PostField(p, "icon_128_url")) then PostField(p, "icon_256_url") else PostField(p, "icon_128_url"))
    ensures Icons(p)["2x"] == PostField(p, "icon_256_url")
    ensures Banners(p)["low"] == (if EmptyStr(PostField(p, "banner_773_url")) then PostField(p, "banner_1544_url") else PostField(p, "banner_773_url"))
    ensures Banners(p)["high"] == PostField(p, "banner_1544_url")
  {
  }

  /** Every plain field is present; "0" is answered as "" because `?:` treats it as false. */
  lemma BaseFieldsOf(p: Post)
    ensures BaseFields(p).Keys == set f | f in MetaFieldNames
    ensures forall f :: f in MetaFieldNames ==>
      (BaseFields(p)[f] == "" <==> EmptyStr(PostField(p, f)))
  {
  }

  /** An expired link is refused before the slug, the file or the token are looked at. */
  lemma ExpiryFirst(get: map<string, string>, now: int, lookup: string -> Option<Post>,
                    hmac: string -> string, attached: string -> Option<string>)
    requires now > ExpiresOf(get)
    ensures ServeDownload(get, now, lookup, hmac, attached) == Expired
  {
  }

  /** A request without `expires` is always expired once the clock is past zero. */
  lemma MissingExpiryExpired(get: map<string, string>, now: int, lookup: string -> Option<Post>,
                             hmac: string -> string, attached: string -> Option<string>)
    requires "expires" !in get && now > 0
    ensures ServeDownload(get, now, lookup, hmac, attached) == Expired
  {
  }

  /** With a remote URL the request is redirected whatever its token says. */
  lemma RemoteSkipsToken(get: map<string, string>, token: string, now: int, lookup: string -> Option<Post>,
                         hmac: string -> string, attached: string -> Option<string>)
    requires now <= ExpiresOf(get)
    requires lookup(Param(get, "slug")).Some?
    requires !EmptyStr(PostField(lookup(Param(get, "slug")).value, "remote_url"))
    ensures ServeDownload(get, now, lookup, hmac, attached) == Redirect(PostField(lookup(Param(get, "slug")).value, "remote_url"))
    ensures ServeDownload(get["token" := token], now, lookup, hmac, attached) == ServeDownload(get, now, lookup, hmac, attached)
  {
  }

  /**
   * A file is served exactly when the link is unexpired, the slug is known,
   * there is no remote URL, the post has a file, the token is the HMAC of
   * slug, file id and expiry, and the attachment exists.
   */
  lemma ServeIff(get: map<string, string>, now: int, lookup: string -> Option<Post>,
                 hmac: string -> string, attached: string -> Option<string>)
    ensures ServeDownload(get, now, lookup, hmac, attached).Serve? <==>
      && now <= ExpiresOf(get)
      && lookup(Param(get, "slug")).Some?
      && var p := lookup(Param(get, "slug")).value;
      && EmptyStr(PostField(p, "remote_url"))
      && !EmptyStr(PostField(p, "file_id"))
      && Param(get, "token") == hmac(TokenData(Param(get, "slug"), PostField(p, "file_id"), ExpiresOf(get)))
      && attached(PostField(p, "file_id")).Some?
  {
  }

  /** Both endpoints answer 404 for a slug no `update` post carries. */
  lemma UnknownSlug404(get: map<string, string>, referer: Option<string>, httpHost: Option<string>, siteUrl: string,
                       now: int, lookup: string -> Option<Post>, hmac: string -> string, attached: string -> Option<string>)
    requires lookup(Param(get, "slug")).None?
    ensures MetadataReplyOf(get, referer, httpHost, siteUrl, now, lookup, hmac) == JsonError("Invalid slug", 404)
    ensures now <= ExpiresOf(get) ==> ServeDownload(get, now, lookup, hmac, attached) == InvalidSlug
  {
  }

  lemma QueryMapSnoc(ps: seq<(string, string)>, k: string, v: string)
    ensures QueryMap(ps + [(k, v)]) == QueryMap(ps)[k := v]
  {
    assert (ps + [(k, v)])[..|ps|] == ps;
  }

  /** The query a signed link carries, read back from the client's request. */
  lemma LinkQueryMap(slug: string, expires: int, token: string, key: string, domain: Option<string>)
    ensures var q := QueryMap(LinkParams(slug, expires, token, key, domain));
      && Param(q, "slug") == slug
      && "expires" in q && q["expires"] == IntToString(expires)
      && Param(q, "token") == token
  {
    var a, sl, e, t, k := ("action", "download"), ("slug", slug), ("expires", IntToString(expires)), ("token", token), ("key", key);
    assert LinkParams(slug, expires, token, key, None) == [a, sl, e, t, k];
    QueryMapFive(a, sl, e, t, k);
    var qb := QueryMap([a, sl, e, t, k]);
    assert qb["slug"] == slug && qb["expires"] == IntToString(expires) && qb["token"] == token;
    if domain.Some? {
      assert LinkParams(slug, expires, token, key, domain) == [a, sl, e, t, k] + [("domain", domain.value)];
      QueryMapSnoc([a, sl, e, t, k], "domain", domain.value);
    }
  }

  lemma QueryMapFive(a: (string, string), b: (string, string), c: (string, string), d: (string, string), e: (string, string))
    ensures QueryMap([a, b, c, d, e]) == map[a.0 := a.1][b.0 := b.1][c.0 := c.1][d.0 := d.1][e.0 := e.1]
  {
    QueryMapSnoc([], a.0, a.1);
    assert [] + [a] == [a];
    QueryMapSnoc([a], b.0, b.1);
    assert [a] + [b] == [a, b];
    QueryMapSnoc([a, b], c.0, c.1);
    assert [a, b] + [c] == [a, b, c];
    QueryMapSnoc([a, b, c], d.0, d.1);
    assert [a, b, c] + [d] == [a, b, c, d];
    QueryMapSnoc([a, b, c, d], e.0, e.1);
    assert [a, b, c, d] + [e] == [a, b, c, d, e];
  }

  /**
   * The link round trip: a link issued at `issued` for a post with a file
   * and no remote URL passes the expiry and token checks at any time up to
   * an hour later, as long as the slug still finds a post with the same file
   * id and no remote URL; the outcome is then decided by the attachment alone.
   */
  lemma SignedLinkRoundTrip(slug: string, key: string, domain: Option<string>, fileId: string, issued: int, now: int,
                            lookup: string -> Option<Post>, hmac: string -> string, attached: string -> Option<string>)
    requires !EmptyStr(fileId)
    requires now <= issued + TokenExpiry
    requires lookup(slug).Some?
    requires PostField(lookup(slug).value, "file_id") == fileId
    requires EmptyStr(PostField(lookup(slug).value, "remote_url"))
    ensures var expires := issued + TokenExpiry;
      var get := QueryMap(LinkParams(slug, expires, hmac(TokenData(slug, fileId, expires)), key, domain));
      ServeDownload(get, now, lookup, hmac, attached) ==
        (if attached(fileId).Some? then Serve(attached(fileId).value) else FileNotFound)
  {
    var expires := issued + TokenExpiry;
    var token := hmac(TokenData(slug, fileId, expires));
    LinkQueryMap(slug, expires, token, key, domain);
    IntvalOfIntToString(expires);
  }

  /** The same link a second past its hour is refused as expired. */
  lemma SignedLinkExpires(slug: string, key: string, domain: Option<string>, token: string, issued: int, now: int,
                          lookup: string -> Option<Post>, hmac: string -> string, attached: string -> Option<string>)
    requires now > issued + TokenExpiry
    ensures var get := QueryMap(LinkParams(slug, issued + TokenExpiry, token, key, domain));
      ServeDownload(get, now, lookup, hmac, attached) == Expired
  {
    LinkQueryMap(slug, issued + TokenExpiry, token, key, domain);
    IntvalOfIntToString(issued + TokenExpiry);
  }
}
