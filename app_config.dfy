/**
 * Runtime application configuration (packages/effects/hooks/src/use-app-config.ts):
 * choosing between the injected global configuration and the build
 * environment, and resolving the API URL per host from a JSON map.
 */
module AppConfig {

  import opened Common

  /** The JavaScript values the configuration and `JSON.parse` can produce. */
  datatype JsValue =
    | Undefined
    | Null
    | Bool(b: bool)
    | Num(n: int)
    | Str(s: string)
    | Arr(items: seq<JsValue>)
    | Obj(fields: map<string, JsValue>)

  /** JavaScript truthiness. */
  predicate Truthy(v: JsValue)
  {
    match v
    case Undefined => false
    case Null => false
    case Bool(b) => b
    case Num(n) => n != 0
    case Str(s) => s != ""
    case Arr(_) => true
    case Obj(_) => true
  }

  /** `v == null`: what `??` replaces. */
  predicate Nullish(v: JsValue)
  {
    v.Undefined? || v.Null?
  }

  /** `typeof v === 'object'` (true of `null` and of arrays too). */
  predicate TypeofObject(v: JsValue)
  {
    v.Null? || v.Arr? || v.Obj?
  }

  /** Reading property `key` of `v`: an own property of an object, `undefined` otherwise. */
  function Property(v: JsValue, key: string): JsValue
  {
    if v.Obj? && key in v.fields then v.fields[key] else Undefined
  }

  /** What the code reads of `window.location`. */
  datatype Location = Location(host: string, hostname: string)

  /**
   * The browser environment: no `window` at all, or one whose `location` may
   * be missing and whose `_VBEN_ADMIN_PRO_APP_CONF_` is the injected global
   * configuration (`Undefined` when nothing was injected).
   */
  datatype Browser = NoWindow | Window(location: Option<Location>, appConf: JsValue)

  /** A map entry the lookup accepts: a non-empty string under a non-empty key. */
  predicate AcceptedEntry(map': map<string, JsValue>, key: Option<string>)
  {
    key.Some? && key.value != "" && key.value in map' && map'[key.value].Str? && map'[key.value].s != ""
  }

  /** The object `rawMap` parses to, when it is a non-empty string parsing to a plain (non-array) object. */
  predicate ParsesToObject(rawMap: JsValue, jsonParse: string -> Option<JsValue>)
  {
    rawMap.Str? && rawMap.s != "" && jsonParse(rawMap.s).Some? && jsonParse(rawMap.s).value.Obj?
  }

  /**
   * resolveApiURL: the entry for the current `host`, else the entry for its
   * `hostname`, in the JSON object `rawMap`; an entry counts only when it is
   * a non-empty string. Everything else yields `defaultURL`. `jsonParse`
   * stands for `JSON.parse`, None meaning that it throws.
   */
  function ResolveApiURL(defaultURL: JsValue, rawMap: JsValue, browser: Browser,
                         jsonParse: string -> Option<JsValue>): (r: JsValue)
    ensures !rawMap.Str? || rawMap.s == "" || browser.NoWindow? ==> r == defaultURL
    ensures !ParsesToObject(rawMap, jsonParse) ==> r == defaultURL
    ensures ParsesToObject(rawMap, jsonParse) && browser.Window? ==>
      var m := jsonParse(rawMap.s).value.fields;
      var loc := browser.location;
      var host := if loc.Some? then Some(loc.value.host) else None;
      var hostname := if loc.Some? then Some(loc.value.hostname) else None;
      && (AcceptedEntry(m, host) ==> r == m[host.value])
      && (!AcceptedEntry(m, host) && AcceptedEntry(m, hostname) ==> r == m[hostname.value])
      && (!AcceptedEntry(m, host) && !AcceptedEntry(m, hostname) ==> r == defaultURL)
    ensures r == defaultURL || (r.Str? && r.s != "")
  {
    if !Truthy(rawMap) || !rawMap.Str? then defaultURL
    else if browser.NoWindow? then defaultURL
    else
      var host := if browser.location.Some? then Str(browser.location.value.host) else Undefined;
      var hostname := if browser.location.Some? then Str(browser.location.value.hostname) else Undefined;
      match jsonParse(rawMap.s)
      case None => defaultURL
      case Some(parsed) =>
        if !Truthy(parsed) || !TypeofObject(parsed) || parsed.Arr? then defaultURL
        else
          var byHost := if Truthy(host) then Property(parsed, host.s) else Undefined;
          if byHost.Str? && Truthy(byHost) then byHost
          else
            var byHostname := if Truthy(hostname) then Property(parsed, hostname.s) else Undefined;
            if byHostname.Str? && Truthy(byHostname) then byHostname
            else defaultURL
  }

  datatype DingDing = DingDing(clientId: JsValue, corpId: JsValue)

  datatype AuthConfig = AuthConfig(dingding: Option<DingDing>)

  datatype ApplicationConfig = ApplicationConfig(apiURL: JsValue, auth: AuthConfig)

  /**
   * `runtimeConfig ?? env`, where the runtime configuration is the injected
   * global in production and `null` otherwise. Reading the global without a
   * `window` throws a ReferenceError, shown as None.
   */
  function ConfigSource(env: JsValue, isProduction: bool, browser: Browser): (config: Option<JsValue>)
    ensures config.None? <==> isProduction && browser.NoWindow?
    ensures !isProduction ==> config == Some(env)
    ensures isProduction && browser.Window? && Nullish(browser.appConf) ==> config == Some(env)
    ensures isProduction && browser.Window? && !Nullish(browser.appConf) ==> config == Some(browser.appConf)
  {
    if isProduction && browser.NoWindow? then None
    else
      var runtimeConfig := if isProduction then browser.appConf else Null;
      Some(if Nullish(runtimeConfig) then env else runtimeConfig)
  }

  /**
   * useAppConfig: the API URL resolved from the chosen configuration, and a
   * DingTalk block exactly when both of its ids are set; None when the
   * configuration cannot be read at all.
   */
  function UseAppConfig(env: JsValue, isProduction: bool, browser: Browser,
                        jsonParse: string -> Option<JsValue>): (r: Option<ApplicationConfig>)
    ensures r.None? <==> isProduction && browser.NoWindow?
    ensures r.Some? ==>
      var config := ConfigSource(env, isProduction, browser).value;
      var apiUrl := Property(config, "VITE_GLOB_API_URL");
      r.value.apiURL == ResolveApiURL(if apiUrl.Undefined? then Str("") else apiUrl,
                                      Property(config, "VITE_GLOB_API_URL_MAP"), browser, jsonParse)
    ensures r.Some? ==>
      var config := ConfigSource(env, isProduction, browser).value;
      var corpId := Property(config, "VITE_GLOB_AUTH_DINGDING_CORP_ID");
      var clientId := Property(config, "VITE_GLOB_AUTH_DINGDING_CLIENT_ID");
      && (r.value.auth.dingding.Some? <==> Truthy(corpId) && Truthy(clientId))
      && (r.value.auth.dingding.Some? ==> r.value.auth.dingding.value == DingDing(clientId, corpId))
    ensures r.Some? && Nullish(ConfigSource(env, isProduction, browser).value) ==>
      r.value.apiURL == Str("") && r.value.auth.dingding.None?
  {
    match ConfigSource(env, isProduction, browser)
    case None => None
    case Some(config) =>
      var source := if Nullish(config) then Obj(map[]) else config;
      var apiUrlField := Property(source, "VITE_GLOB_API_URL");
      var apiUrl := if apiUrlField.Undefined? then Str("") else apiUrlField;
      var apiUrlMap := Property(source, "VITE_GLOB_API_URL_MAP");
      var corpId := Property(source, "VITE_GLOB_AUTH_DINGDING_CORP_ID");
      var clientId := Property(source, "VITE_GLOB_AUTH_DINGDING_CLIENT_ID");
      var apiURL := ResolveApiURL(apiUrl, apiUrlMap, browser, jsonParse);
      var auth := if Truthy(corpId) && Truthy(clientId)
                  then AuthConfig(Some(DingDing(clientId, corpId)))
                  else AuthConfig(None);
      Some(ApplicationConfig(apiURL, auth))
  }

  /** Outside production the injected global is never consulted. */
  lemma NonProductionIgnoresGlobal(env: JsValue, location: Option<Location>, global1: JsValue, global2: JsValue,
                                   jsonParse: string -> Option<JsValue>)
    ensures UseAppConfig(env, false, Window(location, global1), jsonParse)
         == UseAppConfig(env, false, Window(location, global2), jsonParse)
  {
  }

  /** In production a present global replaces the build environment entirely. */
  lemma ProductionGlobalWins(env1: JsValue, env2: JsValue, location: Option<Location>, globalConfig: JsValue,
                             jsonParse: string -> Option<JsValue>)
    requires !Nullish(globalConfig)
    ensures UseAppConfig(env1, true, Window(location, globalConfig), jsonParse)
         == UseAppConfig(env2, true, Window(location, globalConfig), jsonParse)
  {
  }

  /** In production a missing global falls back to the build environment. */
  lemma ProductionNullishGlobalFallsBack(env: JsValue, location: Option<Location>, globalConfig: JsValue,
                                         jsonParse: string -> Option<JsValue>)
    requires Nullish(globalConfig)
    ensures UseAppConfig(env, true, Window(location, globalConfig), jsonParse)
         == UseAppConfig(env, false, Window(location, globalConfig), jsonParse)
  {
  }
}
