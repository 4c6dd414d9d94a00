/**
 * The WhatWeb request records a scan leaves for one target, and the fixed
 * table saying which plugin value feeds which output column
 * (`PLUGIN_FIELD_KEYS` in parse.py).
 */
module Records {

  datatype Option<T> = None | Some(value: T)

  /**
   * One decoded JSON record, i.e. one HTTP request/response of the scan.
   * `httpStatus` is the status in its `str()` form. `plugins` maps a plugin
   * name to its values by kind ("string", "module", ...); a record without a
   * "plugins" key is given the empty map, in which every lookup fails alike.
   */
  datatype Record = Record(
    target: string,
    httpStatus: string,
    plugins: map<string, map<string, seq<string>>>)

  /** The registrable domain and public suffix of a URL, as a public-suffix-list split gives them. */
  datatype TldParts = TldParts(domain: string, suffix: string)

  /** Which value kind to read from a plugin, and the output column it goes to. */
  datatype FieldSpec = FieldSpec(kind: string, outputKey: string)

  const ParkedDomain := "Parked-Domain"
  const WwwAuthenticate := "WWW-Authenticate"

  const PluginFieldKeys: map<string, FieldSpec> := map[
    "HTTPServer" := FieldSpec("string", "server"),
    "IP" := FieldSpec("string", "ip_address"),
    "RedirectLocation" := FieldSpec("string", "redirects_to"),
    "X-Powered-By" := FieldSpec("string", "powered_by"),
    "PoweredBy" := FieldSpec("string", "powered_by"),
    ParkedDomain := FieldSpec("string", "is_parked"),
    WwwAuthenticate := FieldSpec("module", "is_auth")
  ]

  /**
   * `rec['plugins'][field][PLUGIN_FIELD_KEYS[field]['key']][0]`, evaluated
   * step by step; any step that would raise gives `None` (the bare `except`).
   */
  function PluginValue(rec: Record, field: string): (v: Option<string>)
    ensures v.Some? <==>
              && field in PluginFieldKeys
              && field in rec.plugins
              && PluginFieldKeys[field].kind in rec.plugins[field]
              && rec.plugins[field][PluginFieldKeys[field].kind] != []
    ensures v.Some? ==> v.value == rec.plugins[field][PluginFieldKeys[field].kind][0]
  {
    if field !in rec.plugins then None
    else if field !in PluginFieldKeys then None
    else
      var values := rec.plugins[field];
      var kind := PluginFieldKeys[field].kind;
      if kind !in values then None
      else if |values[kind]| == 0 then None
      else Some(values[kind][0])
  }

  /** Python truthiness of a looked-up value: present and not the empty string. */
  predicate Truthy(v: Option<string>) {
    v.Some? && v.value != ""
  }
}
