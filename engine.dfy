/**
 * The update flows of updater.php: plugin_update() and theme_update(),
 * which decide from the cached metadata whether WordPress's update
 * transient offers an update, and plugin_info() and theme_info(), which
 * answer the details popup from the same cached metadata.
 */
module Engine {
  import opened Php
  import opened Sources
  import opened Versions
  import opened Metadata
  import opened Cache

  /** An entry the plugin flow writes under `response` (offer) or `no_update`. */
  datatype PluginRecord = PluginRecord(
    id: string,
    name: Option<string>,
    slug: string,
    plugin: string,
    newVersion: string,
    package: string,
    url: string,
    tested: string,
    requiresWp: string,
    requiresPhp: string,
    sections: Option<map<string, string>>,
    icons: map<string, string>,
    banners: map<string, string>)

  /** An entry the theme flow writes under `response` (offer) or `no_update`. */
  datatype ThemeRecord = ThemeRecord(
    theme: string,
    url: string,
    requiresWp: string,
    requiresPhp: string,
    screenshot: string,
    tested: string,
    newVersion: string,
    package: string)

  datatype Record = PluginEntry(plugin: PluginRecord) | ThemeEntry(theme: ThemeRecord)

  /** WordPress's update_plugins / update_themes site transient. */
  class UpdateTransient {
    var checked: Option<map<string, string>>
    var response: map<string, Record>
    var noUpdate: map<string, Record>

    constructor(checked: Option<map<string, string>>)
      ensures this.checked == checked && response == map[] && noUpdate == map[]
    {
      this.checked := checked;
      response := map[];
      noUpdate := map[];
    }
  }

  /** `$meta->version ?? '0.0.0'`: the version an update would install. */
  function RemoteVersion(m: Meta): string {
    m.version.GetOr("0.0.0")
  }

  /** The eligibility rule of both flows on the installed version and the metadata. */
  predicate Offered(c: Config, current: string, m: Meta, fallback: (string, string) -> int) {
    UpdateOffered(current, RemoteVersion(m), c.allowPrerelease, fallback)
  }

  // ---------------------------------------------------------------------
  // plugin_update()
  // ---------------------------------------------------------------------

  function PluginFile(c: Config): string {
    c.pluginFile.GetOr("")
  }

  /** `$trans->checked[$file] ?? $c['version']`. */
  function PluginCurrent(c: Config, checked: map<string, string>): string {
    if PluginFile(c) in checked then checked[PluginFile(c)] else c.version
  }

  /** The `response` entry offering the update. */
  function PluginOffer(c: Config, m: Meta): PluginRecord {
    PluginRecord(PluginFile(c), Some(c.name), c.slug, PluginFile(c), m.version.GetOr(c.version),
      m.downloadUrl.GetOr(""), m.homepage.GetOr(""), m.tested.GetOr(""), Requires(m),
      m.requiresPhp.GetOr(""), Some(m.sections.GetOr(map[])), Entries(m.icons), Entries(m.banners))
  }

  /** The `no_update` entry: the installed version and no package. */
  function PluginNoUpdate(c: Config, m: Meta, current: string): PluginRecord {
    PluginRecord(PluginFile(c), None, c.slug, PluginFile(c), current, "", m.homepage.GetOr(""),
      m.tested.GetOr(""), Requires(m), m.requiresPhp.GetOr(""), None, Entries(m.icons), Entries(m.banners))
  }

  /**
   * plugin_update(): a transient without a checked list is left alone;
   * otherwise the metadata step runs, and with metadata the plugin is either
   * offered (response written, no_update entry removed) or recorded as up
   * to date (no_update written, response untouched).
   */
  method PluginUpdate(trans: UpdateTransient, store: TransientStore, c: Config, env: Env, fallback: (string, string) -> int)
    returns (requests: seq<Request>)
    modifies trans, store
    ensures trans.checked == old(trans.checked)
    ensures old(trans.checked).None? ==>
      requests == [] && store.entries == old(store.entries)
      && trans.response == old(trans.response) && trans.noUpdate == old(trans.noUpdate)
    ensures old(trans.checked).Some? ==>
      var l := LoadMetaSpec(old(store.entries), c, env);
      && requests == l.requests && store.entries == l.entries
      && (l.meta.None? ==> trans.response == old(trans.response) && trans.noUpdate == old(trans.noUpdate))
      && (l.meta.Some? && Offered(c, PluginCurrent(c, old(trans.checked).value), l.meta.value, fallback) ==>
            && trans.response == old(trans.response)[PluginFile(c) := PluginEntry(PluginOffer(c, l.meta.value))]
            && trans.noUpdate == old(trans.noUpdate) - {PluginFile(c)})
      && (l.meta.Some? && !Offered(c, PluginCurrent(c, old(trans.checked).value), l.meta.value, fallback) ==>
            && trans.response == old(trans.response)
            && trans.noUpdate == old(trans.noUpdate)[PluginFile(c) :=
                 PluginEntry(PluginNoUpdate(c, l.meta.value, PluginCurrent(c, old(trans.checked).value)))])
  {
    if trans.checked.None? {
      return [];
    }
    var file := PluginFile(c);
    var current := if file in trans.checked.value then trans.checked.value[file] else c.version;
    var meta;
    meta, requests := LoadMeta(store, c, env);
    if meta.None? {
      return;
    }
    var offered := Offered(c, current, meta.value, fallback);
    RecordPluginDecision(trans, c, current, meta.value, offered);
  }

  /** The comparison step of plugin_update() once metadata is at hand (updater.php:657-711). */
  method RecordPluginDecision(trans: UpdateTransient, c: Config, current: string, m: Meta, offered: bool)
    modifies trans
    ensures trans.checked == old(trans.checked)
    ensures offered ==>
      && trans.response == old(trans.response)[PluginFile(c) := PluginEntry(PluginOffer(c, m))]
      && trans.noUpdate == old(trans.noUpdate) - {PluginFile(c)}
    ensures !offered ==>
      && trans.response == old(trans.response)
      && trans.noUpdate == old(trans.noUpdate)[PluginFile(c) := PluginEntry(PluginNoUpdate(c, m, current))]
  {
    var file := PluginFile(c);
    if !offered {
      trans.noUpdate := trans.noUpdate[file := PluginEntry(PluginNoUpdate(c, m, current))];
      return;
    }
    trans.response := trans.response[file := PluginEntry(PluginOffer(c, m))];
    trans.noUpdate := trans.noUpdate - {file};
  }

  // ---------------------------------------------------------------------
  // theme_update()
  // ---------------------------------------------------------------------

  /**
   * `$trans->checked[$slug] ?? wp_get_theme($slug)->get('Version')`, keyed by
   * WordPress's theme slug; `installed` stands for what wp_get_theme() reports.
   */
  function ThemeCurrent(c: Config, checked: map<string, string>, installed: string): string {
    if WpSlug(c) in checked then checked[WpSlug(c)] else installed
  }

  /** `$base_info` merged with the version and package of the entry. */
  function ThemeEntryOf(c: Config, m: Meta, newVersion: string, package: string): ThemeRecord {
    ThemeRecord(WpSlug(c), m.homepage.GetOr(""), Requires(m), m.requiresPhp.GetOr(""),
      m.screenshot.GetOr(""), m.tested.GetOr(""), newVersion, package)
  }

  /**
   * theme_update(): as plugin_update(), with the entries keyed by
   * WordPress's theme slug (real_slug when set) while the cache keys use the
   * configured slug.
   */
  method ThemeUpdate(trans: UpdateTransient, store: TransientStore, c: Config, env: Env,
                     fallback: (string, string) -> int, installed: string)
    returns (requests: seq<Request>)
    modifies trans, store
    ensures trans.checked == old(trans.checked)
    ensures old(trans.checked).None? ==>
      requests == [] && store.entries == old(store.entries)
      && trans.response == old(trans.response) && trans.noUpdate == old(trans.noUpdate)
    ensures old(trans.checked).Some? ==>
      var l := LoadMetaSpec(old(store.entries), c, env);
      var current := ThemeCurrent(c, old(trans.checked).value, installed);
      && requests == l.requests && store.entries == l.entries
      && (l.meta.None? ==> trans.response == old(trans.response) && trans.noUpdate == old(trans.noUpdate))
      && (l.meta.Some? && Offered(c, current, l.meta.value, fallback) ==>
            && trans.response == old(trans.response)[WpSlug(c) :=
                 ThemeEntry(ThemeEntryOf(c, l.meta.value, l.meta.value.version.GetOr(current), l.meta.value.downloadUrl.GetOr("")))]
            && trans.noUpdate == old(trans.noUpdate) - {WpSlug(c)})
      && (l.meta.Some? && !Offered(c, current, l.meta.value, fallback) ==>
            && trans.response == old(trans.response)
            && trans.noUpdate == old(trans.noUpdate)[WpSlug(c) := ThemeEntry(ThemeEntryOf(c, l.meta.value, current, ""))])
  {
    if trans.checked.None? {
      return [];
    }
    var slug := WpSlug(c);
    var current := if slug in trans.checked.value then trans.checked.value[slug] else installed;
    var meta;
    meta, requests := LoadMeta(store, c, env);
    if meta.None? {
      return;
    }
    var offered := Offered(c, current, meta.value, fallback);
    RecordThemeDecision(trans, c, current, meta.value, offered);
  }

  /** The comparison step of theme_update() once metadata is at hand (updater.php:842-881). */
  method RecordThemeDecision(trans: UpdateTransient, c: Config, current: string, m: Meta, offered: bool)
    modifies trans
    ensures trans.checked == old(trans.checked)
    ensures offered ==>
      && trans.response == old(trans.response)[WpSlug(c) :=
           ThemeEntry(ThemeEntryOf(c, m, m.version.GetOr(current), m.downloadUrl.GetOr("")))]
      && trans.noUpdate == old(trans.noUpdate) - {WpSlug(c)}
    ensures !offered ==>
      && trans.response == old(trans.response)
      && trans.noUpdate == old(trans.noUpdate)[WpSlug(c) := ThemeEntry(ThemeEntryOf(c, m, current, ""))]
  {
    var slug := WpSlug(c);
    if !offered {
      trans.noUpdate := trans.noUpdate[slug := ThemeEntry(ThemeEntryOf(c, m, current, ""))];
      return;
    }
    trans.response := trans.response[slug := ThemeEntry(ThemeEntryOf(c, m, m.version.GetOr(current), m.downloadUrl.GetOr("")))];
    trans.noUpdate := trans.noUpdate - {slug};
  }

  // ---------------------------------------------------------------------
  // Properties of the decision
  // ---------------------------------------------------------------------

  /** Metadata offering the installed version never produces an update. */
  lemma SameVersionNotOffered(c: Config, current: string, m: Meta, fallback: (string, string) -> int)
    requires forall s :: fallback(s, s) == 0
    requires m.version == Some(current)
    ensures !Offered(c, current, m, fallback)
  {
    NoUpdateToSameVersion(current, c.allowPrerelease, fallback);
  }

  /** On the stable channel a remote version that normalises to a tagged prerelease is never offered. */
  lemma StableChannelNotOffered(c: Config, current: string, m: Meta, fallback: (string, string) -> int)
    requires !c.allowPrerelease
    requires ParseShape(NormalizeVersion(RemoteVersion(m))).Some?
    requires ParseShape(NormalizeVersion(RemoteVersion(m))).value.pre.Some?
    ensures !Offered(c, current, m, fallback)
  {
    StableChannelSkipsPrereleases(current, RemoteVersion(m), fallback);
  }

  /**
   * A GitHub release without tag_name never offers an update to a plugin
   * whose installed version is the configured one: the metadata it yields
   * offers that same version.
   */
  lemma UntaggedReleaseNotOffered(entries: map<string, Entry>, c: Config, env: Env, fallback: (string, string) -> int)
    requires forall s :: fallback(s, s) == 0
    requires ReadMeta(entries, SuccessKey(c)).Missing? && !ErrorFlagged(entries, ErrorKey(c))
    requires ShouldUseGithubReleaseMode(c)
    requires ReadRelease(entries, ReleaseKey(c, env.md5)).None?
    requires ReleaseKey(c, env.md5) != SuccessKey(c) && ReleaseKey(c, env.md5) != ErrorKey(c)
    requires env.net(GithubRequest(c)).Response? && env.net(GithubRequest(c)).code == 200
    requires var p := env.decodeRelease(env.net(GithubRequest(c)).body); p.None? || p.value.tagName.None?
    ensures LoadMetaSpec(entries, c, env).meta.Some?
    ensures !Offered(c, c.version, LoadMetaSpec(entries, c, env).meta.value, fallback)
  {
    UntaggedReleaseCached(entries, c, env);
    SameVersionNotOffered(c, c.version, LoadMetaSpec(entries, c, env).meta.value, fallback);
  }

  /** What the details popup shows agrees with the update offered from the same metadata. */
  lemma InfoAgreesWithOffer(c: Config, m: Meta)
    requires m.version.Some?
    ensures PluginInformationOf(c, m, m.sections.GetOr(map[])).version == PluginOffer(c, m).newVersion
    ensures PluginInformationOf(c, m, m.sections.GetOr(map[])).downloadLink == PluginOffer(c, m).package
    ensures PluginInformationOf(c, m, m.sections.GetOr(map[])).sections == PluginOffer(c, m).sections.value
    ensures ThemeInformationOf(c, m).version == ThemeEntryOf(c, m, m.version.value, m.downloadUrl.GetOr("")).newVersion
  {
  }

  /** An up-to-date entry never carries a package, and it names the installed version. */
  lemma NoUpdateHasNoPackage(c: Config, m: Meta, current: string)
    ensures PluginNoUpdate(c, m, current).package == "" && PluginNoUpdate(c, m, current).newVersion == current
    ensures ThemeEntryOf(c, m, current, "").package == ""
  {
  }

  /**
   * The theme flow's entry key follows real_slug while its cache keys follow
   * slug: two configurations that differ only in real_slug share every
   * cache key.
   */
  lemma ThemeKeysAsymmetry(c: Config, realSlug: string, md5: string -> string)
    ensures WpSlug(c.(realSlug := Some(realSlug))) == realSlug
    ensures SuccessKey(c.(realSlug := Some(realSlug))) == SuccessKey(c)
    ensures ErrorKey(c.(realSlug := Some(realSlug))) == ErrorKey(c)
    ensures ReleaseKey(c.(realSlug := Some(realSlug)), md5) == ReleaseKey(c, md5)
  {
  }

  // ---------------------------------------------------------------------
  // plugin_info() and theme_info()
  // ---------------------------------------------------------------------

  /**
   * plugin_info(): None stands for returning `$res` unchanged (another
   * action or slug, or no truthy cached metadata); otherwise the popup record
   * with the metadata's sections copied one by one.
   */
  method PluginInfo(store: TransientStore, c: Config, action: string, argsSlug: string) returns (r: Option<PluginInformation>)
    ensures action != "plugin_information" || argsSlug != c.slug ==> r.None?
    ensures action == "plugin_information" && argsSlug == c.slug ==>
      match ReadMeta(store.entries, SuccessKey(c))
      case Obj(m) => r == Some(PluginInformationOf(c, m, m.sections.GetOr(map[])))
      case _ => r.None?
  {
    if action != "plugin_information" || argsSlug != c.slug {
      return None;
    }
    var read := ReadMeta(store.entries, Prefix(c) + c.slug);
    if !read.Obj? {
      return None;
    }
    var m := read.meta;
    var sections: map<string, string> := map[];
    if m.sections.Some? {
      var source := m.sections.value;
      var remaining := source.Keys;
      while remaining != {}
        invariant remaining <= source.Keys
        invariant sections.Keys == source.Keys - remaining
        invariant forall k :: k in sections ==> sections[k] == source[k]
        decreases remaining
      {
        var key :| key in remaining;
        sections := sections[key := source[key]];
        remaining := remaining - {key};
      }
      assert sections == source;
    }
    return Some(PluginInformationOf(c, m, sections));
  }

  /**
   * theme_info(): None stands for returning `$res` unchanged; the slug
   * asked for must be WordPress's theme slug, while the metadata is read
   * under the configured slug.
   */
  function ThemeInfo(store: TransientStore, c: Config, action: string, argsSlug: string): (r: Option<ThemeInformation>)
    reads store
    ensures action != "theme_information" || argsSlug != WpSlug(c) ==> r.None?
    ensures action == "theme_information" && argsSlug == WpSlug(c) ==>
      (r.Some? <==> ReadMeta(store.entries, SuccessKey(c)).Obj?)
    ensures r.Some? ==>
      ReadMeta(store.entries, SuccessKey(c)).Obj? && r.value == ThemeInformationOf(c, ReadMeta(store.entries, SuccessKey(c)).meta)
  {
    if action != "theme_information" || argsSlug != WpSlug(c) then None
    else match ReadMeta(store.entries, Prefix(c) + c.slug)
      case Obj(m) => Some(ThemeInformationOf(c, m))
      case _ => None
  }
}
