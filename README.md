# UUPD update resolution, modelled in Dafny

UUPD ("Universal Updater Drop-in") lets a WordPress plugin or theme take its
updates from a private metadata server or from GitHub Releases. This project
models three parts of it and proves properties about them.

1. The update-resolution engine of `updater.php` (class `UUPD_Updater_V1`):
   - choosing the mode (JSON server or GitHub Releases) and building the request URL;
   - the GitHub asset resolver and the GitHub auth headers;
   - `normalize_version()`, and the update gate that compares versions;
   - the visual-asset gap filling;
   - the transient cache with its failure flag, `fetch_remote()`, and the manual-check invalidation;
   - `plugin_update()` / `theme_update()`, which write the update transient, and `plugin_info()` / `theme_info()`.
2. The metadata endpoint of the companion server
   (`simple-update-server/simple-update-server.php`, `output_metadata()`). It
   builds the JSON answer and issues signed, expiring download links.
3. That server's download gate (`serve_download()`), with its checks in the
   order the source makes them.

Modules (one file each):

| module | file | content |
|---|---|---|
| `Php` | `php.dfy` | the PHP string builtins the code relies on, PHP `empty()`/truthiness, decimal rendering |
| `Urls` | `urls.dfy` | a minimal `wp_parse_url()` (host and path) |
| `Sources` | `sources.dfy` | the configuration, mode selection, the repository-root test, request URLs |
| `Versions` | `versions.dfy` | `normalize_version()` step by step, `version_compare()` on the shapes it emits, the update gate |
| `Github` | `github.dfy` | asset selection (`github_release_download_url()`), auth headers |
| `Metadata` | `metadata.dfy` | the metadata object, visual assets, metadata built from a release, popup records |
| `Cache` | `cache.dfy` | the transient store (a class), `fetch_remote()`, the shared metadata step, the manual check |
| `Engine` | `engine.dfy` | the update transient (a class), `plugin_update()`, `theme_update()`, `plugin_info()`, `theme_info()` |
| `Server` | `server.dfy` | `output_metadata()`, `serve_download()`, `intval()`, the signed-link round trip |

How the outside world is modelled:
- The network is a function from request to an outcome, either a transport error or a status code with a body. Each flow returns the requests it made, so "no request" can be observed.
- `json_decode()`, `md5()`, `rawurlencode()`, HMAC-SHA256 with `AUTH_KEY`, `time()`, `home_url()`'s host and the post lookup are parameters.
- Every WordPress filter is the identity, and every action is a no-op.
- PHP's `version_compare()` is specified on the version shapes `normalize_version()` emits: `x.y.z` and `x.y.z-(alpha|beta|rc|dev).n`, with every numeric part read as an unbounded natural (PHP saturates parts at `PHP_INT_MAX`; see "## Left out"). On any other string it is a parameter `fallback`.

Two properties of the code that a reader might not expect:
- One might expect normalising a version twice to give the same result as normalising it once; it does not. `"v 1.0"` becomes `" 1.0"`, and that becomes `"1.0.0"` (`Versions.NormalizeNotIdempotent`). Idempotence holds once a result has an emitted shape (`Versions.NormalizeIdempotentOnShapes`).
- The last step of `normalize_version()` can never match after the step before it (`Versions.PadBareTagAfterCanonical`).

## Model

| member | source | states |
|---|---|---|
| `Php.LTrim` | updater.php:422 | `ltrim()`: the result is a suffix; the characters removed are all in the mask; the result does not start with one |
| `Php.RTrim` | updater.php:1070 | `rtrim()`: the result is a prefix; the characters removed are all in the mask; the result does not end with one |
| `Php.ToLower` | updater.php:998 | `strtolower()` keeps the length and maps each character on its own |
| `Php.EndsWithIff` | updater.php:1128-1141 | `ends_with()` holds exactly when the haystack is some prefix followed by the needle; an empty needle always matches |
| `Php.IntToStringInjective` | updater.php:1103 | the decimal rendering of an integer determines the integer |
| `Php.StripAddSlashes` | updater.php:1186 | `wp_unslash()` undoes the slashing WordPress applies to request data: the slug read back is the slug sent |
| `Php.SanitizeKeyFixedIff` | updater.php:1186 | `sanitize_key()` leaves a slug unchanged exactly when it consists of `a-z`, `0-9`, `_` and `-`; anything it returns consists of those characters only |
| `Php.ContainsInfix` | updater.php:1030 | `strpos() !== false` finds a needle wherever it occurs |
| `Php.ExplodeTwo` | updater.php:991-993 | `explode()` gives exactly two pieces when the separator occurs exactly once |
| `Php.ExplodeThreeOrMore` | updater.php:991-993 | a second separator gives a third piece |
| `Urls.ParseUrlOf` | updater.php:982 | the URL splitter recovers host and path from `scheme://host/path` followed by a query or fragment |
| `Sources.JsonRequestUrl` | updater.php:343-359 | a server URL ending in `.json` is used as it is; any other URL is untrailingslashed, then gets `?` (or `&` when it already holds a `?`) and the metadata query |
| `Sources.ExplicitModeHonoured` | updater.php:996-1011 | an explicit mode, after trimming and lower-casing, is honoured whatever the server URL looks like |
| `Sources.UnknownModeIsAuto` | updater.php:996-1011 | an unknown or unset mode behaves as auto: GitHub mode exactly when the server is a repository root URL |
| `Sources.RepoRootDetected` | updater.php:978-994 | `https://github.com/owner/repo`, with or without a trailing slash and with any case of host, is a repository root |
| `Sources.OtherHostNotRoot` | updater.php:986 | a host other than github.com is never a repository root |
| `Sources.DeeperPathNotRoot` | updater.php:988-993 | a path of more than two segments is never a repository root |
| `Sources.TrimSlashesRepoPath` | updater.php:988 | `trim($path, '/')` of `/owner/repo` or `/owner/repo/` is `owner/repo` |
| `Sources.RepoPathOfRepoRoot` | updater.php:1070-1071 | every spelling of a repository root has the repository path `owner/repo` |
| `Sources.ApiUrlOfRepoRoot` | updater.php:1064-1073 | the latest-release endpoint of a repository root is `https://api.github.com/repos/owner/repo/releases/latest` |
| `Versions.ParseCoreOf` | updater.php:437 | the `\d+\.\d+\.\d+` prefix is read back component by component |
| `Versions.StripBuildOf` | updater.php:419 | build metadata from the first `+` to the end is deleted |
| `Versions.CanonicalTagOf` | updater.php:437-452 | a core, an optional separator, a prerelease word in any case and an optional ordinal are rewritten to `core-tag.n`, with the tag's synonyms mapped and `n = 0` when there is no ordinal |
| `Versions.PadBareTagAfterCanonical` | updater.php:455 | the final padding step is dead code: after the tag rewrite no string ends in a bare tag |
| `Versions.NormalizeFixesShape` | updater.php:415-458 | every shape the normaliser emits is a fixed point of the normaliser |
| `Versions.NormalizePadsTwo` | updater.php:428-429 | `x.y` becomes `x.y.0` |
| `Versions.NormalizePadsOne` | updater.php:430-431 | `x` becomes `x.0.0` |
| `Versions.NormalizeIgnoresDecoration` | updater.php:416-422 | leading `v`/`V` characters and `+build` do not change the result |
| `Versions.NormalizeSpelledTag` | updater.php:416-452 | a spelled-out prerelease, with `.`, `-`, `_` or no separator before the word and before the ordinal (for example `1.2.0_Beta_2`), normalises to `core-tag.n` |
| `Versions.NormalizeIgnoresWhitespace` | updater.php:416 | whitespace around a version does not change the result |
| `Versions.NormalizeNotIdempotent` | updater.php:416-422 | a counterexample: normalising `"v " + x.y` twice differs from normalising it once |
| `Versions.NormalizeIdempotentOnShapes` | updater.php:415-458 | normalising an emitted shape again changes nothing |
| `Versions.ParseFormatVersion` | updater.php:451 | formatting a version and reading it back gives the version |
| `Versions.CompareZeroIff` | updater.php:671 | exactly one of <, ==, > holds, and == is equality of versions |
| `Versions.CompareAntisymmetric` | updater.php:671 | swapping the operands negates the comparison |
| `Versions.CompareTransitive` | updater.php:671 | the comparison is transitive |
| `Versions.ReleaseAbovePrerelease` | updater.php:671 | a release ranks above any prerelease of the same numeric version |
| `Versions.VersionCompare` | updater.php:671 | `version_compare()` on emitted shapes is the version order (numbers, then dev < alpha < beta < rc < release, then ordinal); on other strings it is the fallback |
| `Versions.TaggedShapeIff` | updater.php:670 | on an emitted shape the gate's regex sees a prerelease exactly when the shape has a tag |
| `Versions.NoUpdateToSameVersion` | updater.php:669-672 | a version is never offered as an update to itself |
| `Versions.StableChannelSkipsPrereleases` | updater.php:670 | on the stable channel a remote whose normalised version has a tag is never offered |
| `Versions.UpdateOfferedIff` | updater.php:658-672 | for versions of emitted shape, an update is offered exactly when the remote is newer and, on the stable channel, untagged |
| `Versions.UpdateOfferedOnFormatted` | updater.php:658-672 | the same rule on canonically written versions |
| `Versions.BetaOfferedOnlyWithPrereleases` | updater.php:660-672 | with 1.1.0 installed, 1.2.0-beta.1 is offered exactly when prereleases are allowed |
| `Github.GetGithubAssetName` | updater.php:1046-1062 | the configured asset name, else `slug.zip`, else `real_slug.zip`, else none; each candidate skipped when `empty()` holds for it; a result is never empty |
| `Github.FirstNamed` | updater.php:1098-1110 | the index of the first asset whose non-empty name equals the wanted name, ignoring case, with no such asset before it |
| `Github.FirstZip` | updater.php:1112-1119 | the index of the first asset whose non-empty name ends in `.zip`, ignoring case |
| `Github.ScanNamed` | updater.php:1098-1110 | the first loop stops at the asset the name match specifies, or finds none |
| `Github.ScanZip` | updater.php:1112-1119 | the second loop stops at the first `.zip` asset, or finds none |
| `Github.GithubReleaseDownloadUrl` | updater.php:1080-1123 | the two loops over the assets return the specified URL: the selected asset's API endpoint with a token and an id, else its browser URL, else the zipball URL or "" |
| `Github.SelectedAssetIff` | updater.php:1096-1120 | an asset is selected exactly when it is the first name match, or there is no name match and it is the first `.zip` asset |
| `Github.ZipballFallback` | updater.php:1122 | with no name match and no `.zip` asset the zipball URL (or "") is returned |
| `Github.NoTokenNoApiUrl` | updater.php:1091-1115 | without a token no API URL is returned |
| `Github.TokenSelectsApiUrl` | updater.php:1102-1115 | with a token, a selected asset with an id is fetched from `api.github.com/repos/{path}/releases/assets/{id}` |
| `Github.AssetApiUrlInjective` | updater.php:1103 | distinct asset ids give distinct API endpoints |
| `Github.AddGithubAuthHeadersForDownload` | updater.php:1013-1035 | a falsy token leaves the arguments unchanged; otherwise Authorization is `token <t>`, User-Agent is kept or defaulted, Accept becomes octet-stream for asset endpoints only, and every other header and argument is unchanged |
| `Github.FilterHttpRequestArgs` | updater.php:296-306 | only URLs containing `github.com/` are touched, and then they are authenticated as above |
| `Github.LookalikeHostPassesFilter` | updater.php:301 | a URL on the host `notgithub.com` passes the filter's substring test, though its host is not GitHub's |
| `Github.FilterHttpRequestArgsByHost` | updater.php:296-306 | with a host test in place of the substring test, only github.com and api.github.com requests are authenticated; every other request is unchanged |
| `Github.GithubHostTest` | updater.php:301 | the filter's `api.github.com/` test is subsumed by its `github.com/` test |
| `Github.AuthorizedIdempotent` | updater.php:1025-1032 | authenticating already-authenticated arguments with the same token changes nothing |
| `Github.AssetApiUrlAuthorized` | updater.php:1025-1031 | a request to an asset endpoint built by the resolver is authenticated and asks for the binary |
| `Metadata.ApplyVisualAssetsToMeta` | updater.php:497-519 | the four fill steps compute the gap-filled metadata |
| `Metadata.MetadataWins` | updater.php:505-516 | a non-empty image property is kept; an empty one takes the configured value when that is not empty; every other property stays as it was |
| `Metadata.FilledUnlessBothEmpty` | updater.php:505-516 | after filling, an image property is empty exactly when both the metadata's and the configured value were empty |
| `Metadata.VisualAssetsIdempotent` | updater.php:505-516 | filling twice is filling once |
| `Metadata.TaggedReleaseMeta` | updater.php:599-609 | a tagged release offers its tag without leading `v`s and the resolver's download URL |
| `Metadata.UntaggedReleaseMeta` | updater.php:611-618 | a release without tag_name yields the configured version, no download URL, and the repository URL |
| `Metadata.ThemeChangelog` | updater.php:943-955 | changelog_html, else `sections['changelog']`, else "" |
| `Metadata.ThemeInformationOf` | updater.php:957-967 | the theme popup is named by the WordPress slug and takes its requirement from min_wp_version only |
| `Cache.TransientStore.Set` | updater.php:410 | set_transient() writes one key |
| `Cache.TransientStore.Delete` | updater.php:411 | delete_transient() removes one key |
| `Cache.KeysDistinct` | updater.php:533-534 | the metadata key and the failure flag never coincide |
| `Cache.FetchRemote` | updater.php:329-413 | with no server, a transport error, a non-200 status or an undecodable body, the failure flag is written; otherwise the metadata is cached and the flag deleted; at most one request is made |
| `Cache.FetchFailureWritesOnlyErrorKey` | updater.php:334-403 | a failed fetch writes the failure flag and nothing else |
| `Cache.FetchSuccessWritesKeyAndClearsError` | updater.php:409-411 | a successful fetch caches the metadata, deletes the flag, and changes nothing else |
| `Cache.DecodedOnlyFrom200` | updater.php:372-404 | metadata is cached only from a 200 response whose body decodes to something truthy |
| `Cache.LoadFromGithub` | updater.php:549-630 | GitHub mode: a cached release is reused, else the API is asked once; a 200 caches the payload, anything else writes the failure flag and bails; the metadata built is gap-filled and cached, and the failure flag is cleared |
| `Cache.LoadFromServer` | updater.php:633-646 | JSON mode: fetch_remote(), then gap-fill and re-cache any truthy cached metadata |
| `Cache.LoadMeta` | updater.php:538-656 | the shared metadata step follows its specification: cached metadata is used, a failure flag skips the check, otherwise the selected mode loads |
| `Cache.ErrorFlagSkipsFetch` | updater.php:542-545 | with nothing cached and the failure flag set, nothing is requested and nothing changes |
| `Cache.CachedMetaUsed` | updater.php:539-548 | cached metadata is used without any request |
| `Cache.LoadJsonOf` | updater.php:635-645 | JSON mode with nothing cached: the fetched metadata, gap-filled, is what is cached and returned |
| `Cache.FailureWritesOnlyErrorKey` | updater.php:542-656 | every path that ends without metadata leaves the store alone or writes only the failure flag |
| `Cache.SuccessWritesKeyAndClearsError` | updater.php:622-645 | every path with metadata either used the cache unchanged, or cached what it returns and deleted the failure flag |
| `Cache.OnlyFlowKeysChange` | updater.php:529-656 | no key other than the metadata key, the failure flag and the release key is written |
| `Cache.CachedReleaseReused` | updater.php:554-556 | a cached release payload is used without asking the API again |
| `Cache.UntaggedReleaseCached` | updater.php:578-625 | a 200 from the API with no tag_name is still cached, and so is metadata offering the configured version |
| `Cache.GithubRequestAuth` | updater.php:566-573 | the API request carries Authorization exactly when the token is truthy |
| `Cache.AtMostOneRequest` | updater.php:548-649 | at most one request is made: to the API in GitHub mode, to the metadata server otherwise |
| `Cache.ManualCheck` | updater.php:1184-1220 | deletes exactly the manual-check keys: none when the unslashed, `sanitize_key()`d request slug differs from the configured slug; otherwise the metadata key and the flag, and the two release keys when the server contains `github.com` |
| `Cache.RequestedSlugOfLink` | updater.php:1186-1189 | a request carrying the configured slug reads back as its `sanitize_key()`, which matches the slug exactly when the slug is made of key characters |
| `Cache.ManualCheckForcesFetch` | updater.php:1184-1220 | for a slug made of key characters, after the manual check the next update check makes a request, in GitHub mode only when the server contains `github.com` |
| `Cache.ManualCheckIgnoresUnsanitizedSlug` | updater.php:1186-1190 | for a configured slug with any other character (an upper-case letter, a `.`) the manual check deletes nothing, whatever the request carries |
| `Cache.ManualCheckSanitizedForcesFetch` | updater.php:1184-1220 | comparing with the sanitized configured slug, the manual check from the row link of any slug forces a request |
| `Cache.ManualCheckKeepsStaleRelease` | updater.php:1205-1220 | in GitHub mode with a server that does not contain `github.com`, a cached release survives the manual check and no request follows |
| `Cache.ManualCheckIntendedForcesFetch` | updater.php:1205-1220 | with the release keys cleared whenever GitHub mode is in use, the next check always makes a request |
| `Engine.UpdateTransient.constructor` | updater.php:525 | a transient starts with its checked list and no entries |
| `Engine.PluginUpdate` | updater.php:524-712 | without a checked list nothing changes; otherwise the metadata step runs, and with metadata the plugin is either offered (response written, no_update entry removed) or recorded as up to date (no_update written, response unchanged), as the gate decides |
| `Engine.RecordPluginDecision` | updater.php:669-711 | the decision writes exactly the response entry and removes the no_update entry, or writes exactly the no_update entry |
| `Engine.ThemeUpdate` | updater.php:715-882 | as plugin_update(), keyed by the WordPress theme slug, with the theme entry's version and package |
| `Engine.RecordThemeDecision` | updater.php:842-881 | the theme decision writes exactly one of the two entries, as the gate decides |
| `Engine.SameVersionNotOffered` | updater.php:659-672 | metadata offering the installed version never gives an update |
| `Engine.StableChannelNotOffered` | updater.php:660-670 | on the stable channel a tagged remote version is never offered |
| `Engine.UntaggedReleaseNotOffered` | updater.php:611-672 | a release without tag_name never offers an update over the configured version |
| `Engine.InfoAgreesWithOffer` | updater.php:905-924 | the details popup shows the same version, package and sections as the offered update |
| `Engine.NoUpdateHasNoPackage` | updater.php:674-680 | an up-to-date entry names the installed version and carries no package |
| `Engine.ThemeKeysAsymmetry` | updater.php:721-743 | the theme entry follows real_slug while every cache key follows slug |
| `Engine.PluginInfo` | updater.php:885-925 | another action or slug, or no truthy cached metadata, leaves the result alone; otherwise the popup record, with the sections copied one by one |
| `Engine.ThemeInfo` | updater.php:928-968 | the theme slug asked for must be the WordPress slug; the record is given exactly when truthy metadata is cached under the configured slug |
| `Server.Elvis` | simple-update-server/simple-update-server.php:184 | `?:` on strings: "" and "0" give the fallback |
| `Server.IntvalOfIntToString` | simple-update-server/simple-update-server.php:206-229 | `intval()` reads back every integer the server renders into a link |
| `Server.OutputMetadata` | simple-update-server/simple-update-server.php:160-224 | the field loop, the image fallbacks and the download URL choice compute the specified answer; an unknown slug gives a 404 error |
| `Server.CopyFields` | simple-update-server/simple-update-server.php:182-185 | the loop over the eight field names builds exactly the specified plain fields |
| `Server.ChooseDownloadUrl` | simple-update-server/simple-update-server.php:197-221 | the download URL branch computes the specified URL |
| `Server.DownloadUrlPriority` | simple-update-server/simple-update-server.php:197-221 | a truthy remote URL wins; else a truthy file id gives a signed link under the site URL with `expires = now + 3600`; else "" |
| `Server.EmptyValuesRenderedBare` | simple-update-server/simple-update-server.php:209-216 | an empty key or domain appears in the signed link as the bare name, without `=`, as `add_query_arg()` renders it |
| `Server.LinkQueryStringStart` | simple-update-server/simple-update-server.php:209-216 | a signed link's query opens with action, slug (the bare name when the slug is empty), expiry and the token's name, in that order |
| `Server.LinkQueryMap` | simple-update-server/simple-update-server.php:209-230 | a signed link's query gives back the slug, the expiry and the token it was built with |
| `Server.ImageFallbacks` | simple-update-server/simple-update-server.php:187-195 | `1x` is the 128px icon else the 256px one, `2x` the 256px icon; `low` is the 773px banner else the 1544px one, `high` the 1544px banner |
| `Server.BaseFieldsOf` | simple-update-server/simple-update-server.php:182-185 | all eight plain fields are present, and a field is "" exactly when its meta value is falsy |
| `Server.ExpiryFirst` | simple-update-server/simple-update-server.php:232-235 | an expired request is refused with 403 before the slug, the file or the token are looked at |
| `Server.MissingExpiryExpired` | simple-update-server/simple-update-server.php:229-233 | a request without `expires` is expired once the clock is past zero |
| `Server.RemoteSkipsToken` | simple-update-server/simple-update-server.php:249-255 | with a remote URL the request is redirected whatever its token says |
| `Server.ServeIff` | simple-update-server/simple-update-server.php:227-282 | a file is served exactly when the link is unexpired, the slug known, no remote URL is set, the post has a file, the token is the HMAC of slug, file id and expiry, and the attachment exists |
| `Server.UnknownSlug404` | simple-update-server/simple-update-server.php:176-245 | both endpoints answer 404 for a slug no `update` post carries (the download endpoint once the link is unexpired) |
| `Server.SignedLinkRoundTrip` | simple-update-server/simple-update-server.php:204-272 | a link issued at time t passes the expiry and token checks at any time up to t + 3600, while the slug still finds a post with the same file id and no remote URL |
| `Server.SignedLinkExpires` | simple-update-server/simple-update-server.php:206-235 | the same link is refused as expired after t + 3600 |

## Left out

- WordPress hook machinery: `add_filter`, `apply_filters_per_slug`, `do_action` and the failure-event actions. Filters are the identity; actions and `log()` do nothing.
- HTTP transport, `json_decode()`, `md5()`, `hash_hmac()`, `rawurlencode()`, `time()` and `home_url()`: parameters, as described above. The 15-second timeouts are not modelled.
- Transient expiry: each entry records its lifetime (six hours), but the store never expires entries, and neither does the updater's own code.
- `wp_parse_url()`: host and path only. Ports, user info and IPv6 hosts are not modelled.
- JSON values: `json_decode()` yields a metadata object or a release object, or something falsy. Non-object JSON, numeric version values and arrays given where objects are expected are not modelled. Whether a dictionary came as an object or an array is tracked only where PHP's `empty()` depends on it. `Metadata.ReleaseMeta` treats a non-object release payload as one without tag_name.
- `Metadata.ApplyVisualAssetsToMeta`: works on values rather than mutating the PHP object in place. The flows always reassign the result, so no aliasing is observable.
- `Engine.ThemeUpdate`: the response entry is an array and the no_update entry an object in the source. The model does not tell them apart.
- `Engine.ThemeInfo`: sections that are neither an array nor an object are treated as absent.
- `Versions.VersionCompare`: exact only on the shapes `normalize_version()` emits. PHP's algorithm on other strings is the `fallback` parameter.
- `Versions.VersionCompare`: numeric parts are unbounded naturals. PHP reads each part with `strtol`, which saturates at `PHP_INT_MAX`, so two versions whose differing parts are both at least 9223372036854775807 compare equal in PHP and unequal here. `Versions.UpdateOfferedIff` and the gate inherit this.
- `Server.Intval`: leading whitespace, a sign and leading digits. The exponent form (`"1e3"`) and saturation at the integer bounds are not modelled.
- `Server.OutputMetadata`: `sanitize_text_field()` and `esc_url_raw()` are the identity. WordPress's slashing of `$_GET` is not modelled either: both endpoints read `slug`, `key` and `domain` without `wp_unslash()`, so in the source a value holding `'`, `"` or `\` reaches the link and the token data with added backslashes, while the model uses the value as sent. The JSON encoding of the answer is not modelled.
- `Server.LinkQueryMap`: the client's request is its query's name/value pairs. `add_query_arg()` does not encode values, so a slug, key or domain holding `&`, `=` or `#` would not come back intact, and a slug that does not come back breaks the token check; parsing a rendered URL is not modelled.
- `Server.ChooseDownloadUrl`: `add_query_arg()`'s final `=(&|$)` replacement is modelled for empty values (rendered as the bare name). Three further steps are not modelled, so the model's link differs from the source's when the last value (`domain`, or `key` when there is no domain) or any value is unusual: the `trim()` of `?` from both ends of the query and the `rtrim()` of `?` from the whole link, which strip trailing `?`s from the last value (a domain `x?` ends the source's link in `&domain=x`, the model's in `&domain=x?`); the `=(&|$)` replacement on a non-empty value that itself ends in `=`, which loses that `=`; and the final `str_replace()` of `?#` by `#`, which changes any value holding `?#`.
- `Cache.ManualCheck`: `wp_unslash()` is `stripslashes()` on a string and `sanitize_key()` is ASCII lower-casing followed by dropping everything outside `[a-z0-9_-]`; non-scalar request values and the `sanitize_key` filter are not modelled.
- `Server.ServeDownload`: answers from `wp_die()`, the redirect and the file-serving headers, `readfile()` and `filesize()` are I/O. Attachment lookup plus `file_exists()` is the `attached` parameter.
- Host-layer checks: nonce and capability checks, the redirect after the manual check, `wp_update_plugins()`/`wp_update_themes()`, and `wp_get_theme()` (its version is the `installed` parameter of `Engine.ThemeUpdate`).
- The server plugin's admin UI and storage (`register_cpt`, `render_meta_box`, `enqueue_media`, `save_meta`), and `uupd_randomize_media_filename`, which uses random generation. The test theme's settings page is configuration glue.

## Findings

| source | as written | input that shows it | evidently intended | confidence | as-written member | corrected member |
|---|---|---|---|---|---|---|
| updater.php:1186-1189 | the manual check compares the `sanitize_key()`d request slug with the configured slug as configured | a configured slug `My.Plugin`: its row link sends `My.Plugin`, which reads back as `myplugin` and never matches, so nothing is deleted | the manual check clears the caches of the plugin whose row link was followed | low, not executed | `Cache.ManualCheckIgnoresUnsanitizedSlug` | `Cache.ManualCheckSanitizedForcesFetch` |
| updater.php:301 | the auth filter tests the URL for the substring `github.com/` | a request to `https://notgithub.com/x` (or any URL naming `github.com/` in its path or query) while a token is configured gets `Authorization: token <t>` | only requests to GitHub's hosts carry the token | medium, not executed | `Github.LookalikeHostPassesFilter` | `Github.FilterHttpRequestArgsByHost` |
| updater.php:1211 | the manual check clears the cached GitHub release only when the server URL contains `github.com`, compared case-sensitively | `mode => 'github_release'` with server `https://GitHub.com/owner/repo`, or auto mode with that server (the root-URL test lower-cases the host), while a release payload is cached | a manual check in GitHub mode forces a fresh request to the API | medium, not executed | `Cache.ManualCheckKeepsStaleRelease` | `Cache.ManualCheckIntendedForcesFetch` |
