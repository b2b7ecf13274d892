/**
 * The update metadata object the updater caches and reads (updater.php):
 * its fields, the gap filling with the configured icons, banners and
 * screenshots, the metadata built from a GitHub release payload, and the
 * information records shown in the plugin and theme details popups.
 */
module Metadata {
  import opened Php
  import opened Sources
  import opened Github

  /**
   * A decoded JSON value that can be a list or a dictionary. json_decode()
   * yields a PHP object for a JSON object and an array for a JSON array; the
   * flag records which, because PHP's empty() is false for every object,
   * even one without properties.
   */
  datatype Dict = Dict(entries: map<string, string>, isObject: bool)

  /** PHP's empty() on an optional array-or-object property. */
  predicate EmptyDict(d: Option<Dict>) {
    d.None? || (!d.value.isObject && d.value.entries == map[])
  }

  /** `(array) ($d ?? [])`: the entries, or none. */
  function Entries(d: Option<Dict>): map<string, string> {
    match d
    case Some(x) => x.entries
    case None => map[]
  }

  /** The properties of a metadata object the updater reads; unset properties are None. */
  datatype Meta = Meta(
    version: Option<string>,
    downloadUrl: Option<string>,
    homepage: Option<string>,
    sections: Option<map<string, string>>,
    icons: Option<Dict>,
    banners: Option<Dict>,
    screenshots: Option<Dict>,
    screenshot: Option<string>,
    tested: Option<string>,
    requiresWp: Option<string>,
    minWpVersion: Option<string>,
    requiresPhp: Option<string>,
    author: Option<string>,
    authorHomepage: Option<string>,
    lastUpdated: Option<string>,
    changelogHtml: Option<string>)

  /** A metadata object without properties. */
  const NoMeta := Meta(None, None, None, None, None, None, None, None, None, None, None, None, None, None, None, None)

  /** `$meta->requires ?? $meta->min_wp_version ?? ''`. */
  function Requires(m: Meta): string {
    match m.requiresWp
    case Some(r) => r
    case None => m.minWpVersion.GetOr("")
  }

  // ---------------------------------------------------------------------
  // Visual assets
  // ---------------------------------------------------------------------

  /** resolve_visual_assets(): the configured images (the filters are identity). */
  datatype VisualAssets = VisualAssets(
    icons: map<string, string>,
    banners: map<string, string>,
    screenshots: map<string, string>,
    screenshot: string)

  function VisualAssetsOf(c: Config): VisualAssets {
    VisualAssets(c.icons, c.banners, c.screenshots, c.screenshot)
  }

  /** A dictionary property after gap filling: the configured array replaces it only when it is empty. */
  function FillDict(mine: Option<Dict>, theirs: map<string, string>): Option<Dict> {
    if EmptyDict(mine) && theirs != map[] then Some(Dict(theirs, false)) else mine
  }

  /** A string property after gap filling. */
  function FillStr(mine: Option<string>, theirs: string): Option<string> {
    if EmptyOpt(mine) && !EmptyStr(theirs) then Some(theirs) else mine
  }

  /** The metadata after apply_visual_assets_to_meta(). */
  function WithVisualAssets(m: Meta, va: VisualAssets): Meta {
    m.(icons := FillDict(m.icons, va.icons),
       banners := FillDict(m.banners, va.banners),
       screenshots := FillDict(m.screenshots, va.screenshots),
       screenshot := FillStr(m.screenshot, va.screenshot))
  }

  /**
   * apply_visual_assets_to_meta(): each of icons, banners, screenshots and
   * screenshot is set from the configuration when the metadata's own value
   * is empty and the configured one is not.
   */
  method ApplyVisualAssetsToMeta(meta: Meta, va: VisualAssets) returns (m: Meta)
    ensures m == WithVisualAssets(meta, va)
  {
    m := meta;
    if EmptyDict(m.icons) && va.icons != map[] {
      m := m.(icons := Some(Dict(va.icons, false)));
    }
    if EmptyDict(m.banners) && va.banners != map[] {
      m := m.(banners := Some(Dict(va.banners, false)));
    }
    if EmptyDict(m.screenshots) && va.screenshots != map[] {
      m := m.(screenshots := Some(Dict(va.screenshots, false)));
    }
    if EmptyOpt(m.screenshot) && !EmptyStr(va.screenshot) {
      m := m.(screenshot := Some(va.screenshot));
    }
  }

  /**
   * Metadata wins: a non-empty image property of the metadata is kept, an
   * empty one takes the configured value when that is not empty, and every
   * other property is untouched.
   */
  lemma MetadataWins(m: Meta, va: VisualAssets)
    ensures var r := WithVisualAssets(m, va);
      && (!EmptyDict(m.icons) ==> r.icons == m.icons)
      && (!EmptyDict(m.banners) ==> r.banners == m.banners)
      && (!EmptyDict(m.screenshots) ==> r.screenshots == m.screenshots)
      && (!EmptyOpt(m.screenshot) ==> r.screenshot == m.screenshot)
      && (EmptyDict(m.icons) && va.icons != map[] ==> Entries(r.icons) == va.icons)
      && (EmptyDict(m.banners) && va.banners != map[] ==> Entries(r.banners) == va.banners)
      && (EmptyDict(m.screenshots) && va.screenshots != map[] ==> Entries(r.screenshots) == va.screenshots)
      && (EmptyOpt(m.screenshot) && !EmptyStr(va.screenshot) ==> r.screenshot == Some(va.screenshot))
      && r.(icons := m.icons, banners := m.banners, screenshots := m.screenshots, screenshot := m.screenshot) == m
  {
  }

  /** After gap filling an image property is empty only if both sources were empty. */
  lemma FilledUnlessBothEmpty(m: Meta, va: VisualAssets)
    ensures var r := WithVisualAssets(m, va);
      && (EmptyDict(r.icons) <==> EmptyDict(m.icons) && va.icons == map[])
      && (EmptyDict(r.banners) <==> EmptyDict(m.banners) && va.banners == map[])
      && (EmptyDict(r.screenshots) <==> EmptyDict(m.screenshots) && va.screenshots == map[])
      && (EmptyOpt(r.screenshot) <==> EmptyOpt(m.screenshot) && EmptyStr(va.screenshot))
  {
  }

  /** Gap filling twice is gap filling once (the flows apply it again to cached metadata). */
  lemma VisualAssetsIdempotent(m: Meta, va: VisualAssets)
    ensures WithVisualAssets(WithVisualAssets(m, va), va) == WithVisualAssets(m, va)
  {
  }

  // ---------------------------------------------------------------------
  // Metadata from a GitHub release
  // ---------------------------------------------------------------------

  /**
   * The metadata GitHub Releases mode builds from the cached release payload
   * (None when the payload is null or not a release): with a tag_name, the
   * tag without its leading 'v's, the resolved download URL, the release page
   * and its body as changelog; without one, the configured installed version,
   * an empty download URL and the repository URL.
   */
  function ReleaseMeta(c: Config, repoUrl: string, release: Option<Release>): Meta {
    if release.Some? && release.value.tagName.Some? then
      var r := release.value;
      NoMeta.(version := Some(LTrim(r.tagName.value, {'v'})),
              downloadUrl := Some(ReleaseDownloadUrl(c, repoUrl, r)),
              homepage := Some(r.htmlUrl.GetOr(repoUrl)),
              sections := Some(map["changelog" := r.body.GetOr("")]))
    else
      NoMeta.(version := Some(c.version),
              downloadUrl := Some(""),
              homepage := Some(repoUrl),
              sections := Some(map["changelog" := ""]))
  }

  /** A tagged release offers its tag (leading 'v's removed) and the resolver's download URL. */
  lemma TaggedReleaseMeta(c: Config, repoUrl: string, r: Release, prefix: string, tag: string)
    requires r.tagName == Some(prefix + tag)
    requires forall i :: 0 <= i < |prefix| ==> prefix[i] == 'v'
    requires tag == [] || tag[0] != 'v'
    ensures ReleaseMeta(c, repoUrl, Some(r)).version == Some(tag)
    ensures ReleaseMeta(c, repoUrl, Some(r)).downloadUrl == Some(ReleaseDownloadUrl(c, repoUrl, r))
  {
    LTrimPrefix(prefix, tag, {'v'});
  }

  /**
   * A release payload without a tag_name still yields metadata: the
   * installed version as configured and no download URL.
   */
  lemma UntaggedReleaseMeta(c: Config, repoUrl: string, release: Option<Release>)
    requires release.None? || release.value.tagName.None?
    ensures ReleaseMeta(c, repoUrl, release).version == Some(c.version)
    ensures ReleaseMeta(c, repoUrl, release).downloadUrl == Some("")
    ensures ReleaseMeta(c, repoUrl, release).homepage == Some(repoUrl)
  {
  }

  // ---------------------------------------------------------------------
  // Details popups
  // ---------------------------------------------------------------------

  /** The object plugin_info() returns for the details popup. */
  datatype PluginInformation = PluginInformation(
    name: string,
    title: string,
    slug: string,
    version: string,
    author: string,
    authorHomepage: string,
    requiresWp: string,
    tested: string,
    requiresPhp: string,
    lastUpdated: string,
    downloadLink: string,
    homepage: string,
    sections: map<string, string>,
    icons: map<string, string>,
    banners: map<string, string>,
    screenshots: map<string, string>)

  /** The popup record of plugin_info() for cached metadata, with the sections copied over. */
  function PluginInformationOf(c: Config, m: Meta, sections: map<string, string>): PluginInformation {
    PluginInformation(c.name, c.name, c.slug, m.version.GetOr(""), m.author.GetOr(""),
      m.authorHomepage.GetOr(""), Requires(m), m.tested.GetOr(""), m.requiresPhp.GetOr(""),
      m.lastUpdated.GetOr(""), m.downloadUrl.GetOr(""), m.homepage.GetOr(""), sections,
      Entries(m.icons), Entries(m.banners), Entries(m.screenshots))
  }

  /** The object theme_info() returns for the details popup. */
  datatype ThemeInformation = ThemeInformation(
    name: string,
    slug: string,
    version: string,
    tested: string,
    requiresWp: string,
    sections: map<string, string>,
    downloadLink: string,
    icons: map<string, string>,
    banners: map<string, string>)

  /** The changelog of the theme popup: changelog_html, else sections['changelog'], else "". */
  function ThemeChangelog(m: Meta): (r: string)
    ensures m.changelogHtml.Some? ==> r == m.changelogHtml.value
    ensures m.changelogHtml.None? && m.sections.Some? && "changelog" in m.sections.value ==> r == m.sections.value["changelog"]
    ensures m.changelogHtml.None? && (m.sections.None? || "changelog" !in m.sections.value) ==> r == ""
  {
    if m.changelogHtml.Some? then m.changelogHtml.value
    else if m.sections.Some? then
      (if "changelog" in m.sections.value then m.sections.value["changelog"] else "")
    else ""
  }

  /**
   * The popup record of theme_info(): named by WordPress's theme slug, with
   * the requirement taken from min_wp_version only (unlike plugin_info()).
   */
  function ThemeInformationOf(c: Config, m: Meta): (r: ThemeInformation)
    ensures r.slug == WpSlug(c) && r.name == c.name
    ensures r.requiresWp == m.minWpVersion.GetOr("")
    ensures r.sections == map["changelog" := ThemeChangelog(m)]
    ensures r.version == m.version.GetOr("") && r.downloadLink == m.downloadUrl.GetOr("")
  {
    ThemeInformation(c.name, WpSlug(c), m.version.GetOr(""), m.tested.GetOr(""),
      m.minWpVersion.GetOr(""), map["changelog" := ThemeChangelog(m)], m.downloadUrl.GetOr(""),
      Entries(m.icons), Entries(m.banners))
  }
}
