/**
 * Deployment-base joining for asset paths (apps/web-tdesign/src/preferences.ts).
 */
module Preferences {

  import opened Common

  /** `import.meta.env.BASE_URL || '/'`: an unset or empty base is the root. */
  function EffectiveBase(baseUrl: Option<string>): (base: string)
    ensures base != ""
    ensures baseUrl.Some? && baseUrl.value != "" ==> base == baseUrl.value
    ensures baseUrl.None? || baseUrl.value == "" ==> base == "/"
  {
    if baseUrl.Some? && baseUrl.value != "" then baseUrl.value else "/"
  }

  /** `path.replace(/^\//, '')`: at most one leading slash removed. */
  function StripLeadingSlash(path: string): (r: string)
    ensures path == r || path == "/" + r
    ensures |r| < |path| <==> StartsWith(path, "/")
  {
    if |path| > 0 && path[0] == '/' then path[1..] else path
  }

  /**
   * withBase: the effective base followed by `path` without its leading
   * slash, if it had one.
   */
  function WithBase(baseUrl: Option<string>, path: string): (r: string)
    ensures StartsWith(r, EffectiveBase(baseUrl))
    ensures |r| == |EffectiveBase(baseUrl)| + |path| - (if |path| > 0 && path[0] == '/' then 1 else 0)
    ensures r[|EffectiveBase(baseUrl)|..] == if |path| > 0 && path[0] == '/' then path[1..] else path
  {
    var base := EffectiveBase(baseUrl);
    assert (base + StripLeadingSlash(path))[..|base|] == base;
    base + StripLeadingSlash(path)
  }

  /** A path with one extra leading slash joins to the same URL. */
  lemma SlashInsensitive(baseUrl: Option<string>, x: string)
    requires |x| == 0 || x[0] != '/'
    ensures WithBase(baseUrl, "/" + x) == WithBase(baseUrl, x)
  {
    assert ("/" + x)[1..] == x;
  }

  /** Only one slash is removed: `//x` keeps the second one. */
  lemma OnlyOneSlashStripped(baseUrl: Option<string>, x: string)
    ensures WithBase(baseUrl, "//" + x) == EffectiveBase(baseUrl) + "/" + x
  {
    assert ("//" + x)[1..] == "/" + x;
  }

  /** Two paths join to the same URL exactly when they agree once a leading slash is dropped. */
  lemma WithBaseInjective(baseUrl: Option<string>, p: string, q: string)
    ensures WithBase(baseUrl, p) == WithBase(baseUrl, q) <==> StripLeadingSlash(p) == StripLeadingSlash(q)
  {
    var base := EffectiveBase(baseUrl);
    if WithBase(baseUrl, p) == WithBase(baseUrl, q) {
      assert StripLeadingSlash(p) == WithBase(baseUrl, p)[|base|..];
      assert StripLeadingSlash(q) == WithBase(baseUrl, q)[|base|..];
    }
  }
}
