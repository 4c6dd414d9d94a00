/**
 * `extract_url_data_from_json`: from the chain of records of one target and
 * the user's comma-separated plugin names to the map of output columns.
 *
 * `ExtractUrlData` is the loop of the source; `Extracted` is what it
 * computes, stated column by column, and the lemmas below say what that
 * means: which status wins, that the last write to a column wins, that
 * failed lookups change nothing, and that only the first and last record of
 * a redirect chain matter.
 */
module Extractor {
  import opened Strings
  import opened Records
  import opened Status

  /** The status and notes a plugin imposes. */
  datatype Verdict = Verdict(status: string, notes: string)

  /** What processing one plugin field does. */
  datatype Effect =
    | Skip                                   // the lookup raised and was swallowed
    | Override(verdict: Verdict)             // Parked-Domain / WWW-Authenticate with a truthy value
    | Write(column: string, value: string)   // any other successful lookup

  /** What processing one plugin field does to the output: the `try` body of the field loop. */
  function FieldEffect(rec: Record, field: string): (e: Effect)
    ensures e == Skip <==> PluginValue(rec, field).None?
    ensures e.Override? ==>
              && PluginValue(rec, field) == Some(e.verdict.notes) && e.verdict.notes != ""
              && (field == ParkedDomain || field == WwwAuthenticate)
              && e.verdict.status == (if field == ParkedDomain then "Parked" else "Auth Required")
    ensures e.Write? ==>
              && PluginValue(rec, field) == Some(e.value)
              && e.column == PluginFieldKeys[field].outputKey
              && (field == ParkedDomain || field == WwwAuthenticate ==> e.value == "")
  {
    match PluginValue(rec, field)
    case None => Skip
    case Some(value) =>
      if field == ParkedDomain && value != "" then Override(Verdict("Parked", value))
      else if field == WwwAuthenticate && value != "" then Override(Verdict("Auth Required", value))
      else Write(PluginFieldKeys[field].outputKey, value)
  }

  predicate WritesColumn(e: Effect, column: string) {
    e.Write? && e.column == column
  }

  /** The columns written by processing `fields` in order; a later write replaces an earlier one. */
  function PluginWrites(rec: Record, fields: seq<string>): map<string, string>
    decreases |fields|
  {
    if fields == [] then map[]
    else
      var prior := PluginWrites(rec, fields[..|fields| - 1]);
      match FieldEffect(rec, fields[|fields| - 1])
      case Write(column, value) => prior[column := value]
      case _ => prior
  }

  /** The verdict of the last overriding field among `fields`, if any. */
  function PluginOverride(rec: Record, fields: seq<string>): Option<Verdict>
    decreases |fields|
  {
    if fields == [] then None
    else
      match FieldEffect(rec, fields[|fields| - 1])
      case Override(verdict) => Some(verdict)
      case _ => PluginOverride(rec, fields[..|fields| - 1])
  }

  /** `map(str.strip, plugin_fields.split(','))`. */
  function UserFields(pluginFields: string): (names: seq<string>)
    ensures |names| == |Split(pluginFields, ',')|
  {
    var names := Split(pluginFields, ',');
    seq(|names|, i requires 0 <= i < |names| => Strip(names[i]))
  }

  /**
   * The user's names are trimmed: one per comma-separated part, none holding
   * a comma, none starting or ending with whitespace.
   */
  lemma UserFieldsTrimmed(pluginFields: string)
    ensures var names := UserFields(pluginFields);
            forall i :: 0 <= i < |names| ==>
              && ',' !in names[i]
              && (names[i] == [] || (names[i][0] !in Whitespace && names[i][|names[i]| - 1] !in Whitespace))
  {
    var parts := Split(pluginFields, ',');
    var names := UserFields(pluginFields);
    JoinSplit(pluginFields, ',');
    forall i | 0 <= i < |names|
      ensures ',' !in names[i]
    {
      assert names[i] == Strip(parts[i]);
      var a, b :| 0 <= a <= b <= |parts[i]| && names[i] == parts[i][a..b];
      assert ',' !in parts[i];
    }
  }

  /** The user's fields with the two status-setting plugins appended last. */
  function ProcessedFields(pluginFields: string): (fields: seq<string>)
    ensures |fields| == |UserFields(pluginFields)| + 2
    ensures fields[..|fields| - 2] == UserFields(pluginFields)
    ensures fields[|fields| - 2] == ParkedDomain && fields[|fields| - 1] == WwwAuthenticate
  {
    UserFields(pluginFields) + [ParkedDomain, WwwAuthenticate]
  }

  /** The `redirects_to` column a redirect chain sets before plugins are read. */
  function RedirectColumn(chain: seq<Record>): (column: map<string, string>)
    requires |chain| > 0
    ensures column.Keys <= {"redirects_to"}
    ensures "redirects_to" in column <==> |chain| > 1
    ensures "redirects_to" in column ==> column["redirects_to"] == RedirectTarget(chain)
  {
    if |chain| > 1 then map["redirects_to" := RedirectTarget(chain)] else map[]
  }

  function OverrideOr(override: Option<Verdict>, otherwise: Verdict): Verdict {
    if override.Some? then override.value else otherwise
  }

  /** The status and notes of a chain: a plugin override if one applies, else the chain's status. */
  function FinalVerdict(chain: seq<Record>, pluginFields: string, tldOf: string -> TldParts): Verdict
    requires |chain| > 0
  {
    OverrideOr(PluginOverride(chain[0], ProcessedFields(pluginFields)),
               Verdict(ChainStatus(chain, tldOf(chain[0].target)), ""))
  }

  /** The output columns of a chain. */
  function Extracted(chain: seq<Record>, pluginFields: string, tldOf: string -> TldParts): (data: map<string, string>)
    requires |chain| > 0
    ensures data.Keys == {"target", "status", "notes"} + RedirectColumn(chain).Keys
                         + PluginWrites(chain[0], ProcessedFields(pluginFields)).Keys
    ensures data["target"] == chain[0].target
  {
    var verdict := FinalVerdict(chain, pluginFields, tldOf);
    (RedirectColumn(chain) + PluginWrites(chain[0], ProcessedFields(pluginFields)))
      ["target" := chain[0].target]["status" := verdict.status]["notes" := verdict.notes]
  }

  /**
   * The loop of `extract_url_data_from_json`. `tldOf` stands for the
   * public-suffix split of a URL.
   */
  method ExtractUrlData(chain: seq<Record>, pluginFields: string, tldOf: string -> TldParts)
    returns (data: map<string, string>)
    requires |chain| > 0
    ensures data == Extracted(chain, pluginFields, tldOf)
  {
    var fields := UserFields(pluginFields);
    data := map[];
    var rec := chain[0];
    var target := rec.target;
    var tld := tldOf(target);
    var status := BaseStatus(rec.httpStatus);
    var notes := "";
    if |chain| > 1 {
      var redirectsTo := RedirectTarget(chain);
      status := RedirectStatus(rec.httpStatus, chain[|chain| - 1].httpStatus, redirectsTo, tld);
      data := data["redirects_to" := redirectsTo];
    }
    assert status == ChainStatus(chain, tld);
    fields := fields + [ParkedDomain, WwwAuthenticate];
    ghost var chainVerdict := Verdict(status, notes);
    var i := 0;
    assert fields[..0] == [];
    assert PluginWrites(rec, fields[..0]) == map[] && PluginOverride(rec, fields[..0]) == None;
    assert data == RedirectColumn(chain) + PluginWrites(rec, fields[..0]);
    while i < |fields|
      invariant 0 <= i <= |fields|
      invariant data == RedirectColumn(chain) + PluginWrites(rec, fields[..i])
      invariant Verdict(status, notes) == OverrideOr(PluginOverride(rec, fields[..i]), chainVerdict)
    {
      var field := fields[i];
      ghost var before := PluginWrites(rec, fields[..i]);
      PrefixStep(rec, fields, i);
      match PluginValue(rec, field) {
        case None =>
          assert FieldEffect(rec, field) == Skip;
          assert PluginWrites(rec, fields[..i + 1]) == before;
        case Some(value) =>
          if field == ParkedDomain && value != "" {
            assert FieldEffect(rec, field) == Override(Verdict("Parked", value));
            status, notes := "Parked", value;
          } else if field == WwwAuthenticate && value != "" {
            assert FieldEffect(rec, field) == Override(Verdict("Auth Required", value));
            status, notes := "Auth Required", value;
          } else {
            assert FieldEffect(rec, field) == Write(PluginFieldKeys[field].outputKey, value);
            var column := PluginFieldKeys[field].outputKey;
            UpdateAfterUnion(RedirectColumn(chain), before, column, value);
            data := data[column := value];
          }
      }
      assert data == RedirectColumn(chain) + PluginWrites(rec, fields[..i + 1]);
      i := i + 1;
    }
    assert fields[..i] == fields;
    data := data["target" := target]["status" := status]["notes" := notes];
  }

  lemma UpdateAfterUnion(base: map<string, string>, writes: map<string, string>, k: string, v: string)
    ensures (base + writes)[k := v] == base + writes[k := v]
  {
  }

  /** Processing one more field extends the writes and the override by that field's effect. */
  lemma PrefixStep(rec: Record, fields: seq<string>, i: int)
    requires 0 <= i < |fields|
    ensures var e := FieldEffect(rec, fields[i]);
            var writes := PluginWrites(rec, fields[..i]);
            PluginWrites(rec, fields[..i + 1]) == (if e.Write? then writes[e.column := e.value] else writes)
    ensures var e := FieldEffect(rec, fields[i]);
            PluginOverride(rec, fields[..i + 1]) ==
              (if e.Override? then Some(e.verdict) else PluginOverride(rec, fields[..i]))
  {
    assert fields[..i + 1][..i] == fields[..i];
  }

  /** Only Parked-Domain and WWW-Authenticate with a truthy value can override the status. */
  lemma {:induction false} OverrideNeedsSpecialField(rec: Record, fields: seq<string>)
    requires !Truthy(PluginValue(rec, ParkedDomain)) && !Truthy(PluginValue(rec, WwwAuthenticate))
    ensures PluginOverride(rec, fields) == None
    decreases |fields|
  {
    if fields != [] {
      OverrideNeedsSpecialField(rec, fields[..|fields| - 1]);
    }
  }

  /**
   * Precedence of the plugin overrides: WWW-Authenticate is processed last,
   * so "Auth Required" beats "Parked", whatever the user listed.
   */
  lemma OverridePrecedence(rec: Record, user: seq<string>)
    ensures var auth := PluginValue(rec, WwwAuthenticate);
            var parked := PluginValue(rec, ParkedDomain);
            PluginOverride(rec, user + [ParkedDomain, WwwAuthenticate]) ==
              if Truthy(auth) then Some(Verdict("Auth Required", auth.value))
              else if Truthy(parked) then Some(Verdict("Parked", parked.value))
              else None
  {
    var fields := user + [ParkedDomain, WwwAuthenticate];
    assert fields[..|fields| - 1] == user + [ParkedDomain];
    assert (user + [ParkedDomain])[..|user|] == user;
    if !Truthy(PluginValue(rec, ParkedDomain)) && !Truthy(PluginValue(rec, WwwAuthenticate)) {
      OverrideNeedsSpecialField(rec, user);
    }
  }

  /**
   * The status and notes of the output: WWW-Authenticate, then Parked-Domain,
   * then the status of the chain (20x / 40x / redirect rules).
   */
  lemma StatusPrecedence(chain: seq<Record>, pluginFields: string, tldOf: string -> TldParts)
    requires |chain| > 0
    ensures var data := Extracted(chain, pluginFields, tldOf);
            var auth := PluginValue(chain[0], WwwAuthenticate);
            var parked := PluginValue(chain[0], ParkedDomain);
            if Truthy(auth) then data["status"] == "Auth Required" && data["notes"] == auth.value
            else if Truthy(parked) then data["status"] == "Parked" && data["notes"] == parked.value
            else data["status"] == ChainStatus(chain, tldOf(chain[0].target)) && data["notes"] == ""
  {
    OverridePrecedence(chain[0], UserFields(pluginFields));
  }

  /** A write that no later field repeats on the same column is the column's value. */
  lemma {:induction false} LastWriteWins(rec: Record, fields: seq<string>, i: int)
    requires 0 <= i < |fields| && FieldEffect(rec, fields[i]).Write?
    requires forall j :: i < j < |fields| ==>
               !WritesColumn(FieldEffect(rec, fields[j]), FieldEffect(rec, fields[i]).column)
    ensures var e := FieldEffect(rec, fields[i]);
            e.column in PluginWrites(rec, fields) && PluginWrites(rec, fields)[e.column] == e.value
    decreases |fields|
  {
    if i < |fields| - 1 {
      var prefix := fields[..|fields| - 1];
      assert prefix[i] == fields[i];
      forall j | i < j < |prefix|
        ensures !WritesColumn(FieldEffect(rec, prefix[j]), FieldEffect(rec, fields[i]).column)
      {
        assert prefix[j] == fields[j];
      }
      LastWriteWins(rec, prefix, i);
    }
  }

  /** Every written column has a last writer, and holds that writer's value. */
  lemma {:induction false} WrittenByLastWriter(rec: Record, fields: seq<string>, column: string)
    requires column in PluginWrites(rec, fields)
    ensures exists i :: 0 <= i < |fields| &&
              FieldEffect(rec, fields[i]) == Write(column, PluginWrites(rec, fields)[column]) &&
              forall j :: i < j < |fields| ==> !WritesColumn(FieldEffect(rec, fields[j]), column)
    decreases |fields|
  {
    assert fields != [];
    var last := |fields| - 1;
    var prefix := fields[..last];
    var e := FieldEffect(rec, fields[last]);
    assert fields[..last + 1] == fields;
    PrefixStep(rec, fields, last);
    if WritesColumn(e, column) {
      assert e == Write(column, PluginWrites(rec, fields)[column]);
    } else {
      assert column in PluginWrites(rec, prefix);
      assert PluginWrites(rec, prefix)[column] == PluginWrites(rec, fields)[column];
      WrittenByLastWriter(rec, prefix, column);
      var i :| 0 <= i < |prefix| &&
        FieldEffect(rec, prefix[i]) == Write(column, PluginWrites(rec, prefix)[column]) &&
        forall j :: i < j < |prefix| ==> !WritesColumn(FieldEffect(rec, prefix[j]), column);
      LastWriterExtends(rec, prefix, fields, column, i);
    }
  }

  /** A last writer of the prefix stays the last writer when the final field does not write the column. */
  lemma LastWriterExtends(rec: Record, prefix: seq<string>, fields: seq<string>, column: string, i: int)
    requires |fields| > 0 && prefix == fields[..|fields| - 1] && 0 <= i < |prefix|
    requires !WritesColumn(FieldEffect(rec, fields[|fields| - 1]), column)
    requires forall j :: i < j < |prefix| ==> !WritesColumn(FieldEffect(rec, prefix[j]), column)
    ensures forall j :: i < j < |fields| ==> !WritesColumn(FieldEffect(rec, fields[j]), column)
  {
    forall j | i < j < |fields|
      ensures !WritesColumn(FieldEffect(rec, fields[j]), column)
    {
      if j < |prefix| { assert fields[j] == prefix[j]; }
    }
  }

  /** A field whose lookup fails can be removed from the list without changing anything. */
  lemma {:induction false} SkippedFieldIrrelevant(rec: Record, before: seq<string>, field: string, after: seq<string>)
    requires FieldEffect(rec, field) == Skip
    ensures PluginWrites(rec, before + [field] + after) == PluginWrites(rec, before + after)
    ensures PluginOverride(rec, before + [field] + after) == PluginOverride(rec, before + after)
    decreases |after|
  {
    var with := before + [field] + after;
    var without := before + after;
    if after == [] {
      assert with[..|with| - 1] == without;
    } else {
      var shorter := after[..|after| - 1];
      SkippedFieldIrrelevant(rec, before, field, shorter);
      assert with[..|with| - 1] == before + [field] + shorter;
      assert without[..|without| - 1] == before + shorter;
      assert with[|with| - 1] == without[|without| - 1];
    }
  }

  /** Every way a lookup can fail makes the field contribute nothing. */
  lemma FailedLookupSkips(rec: Record, field: string)
    requires || field !in PluginFieldKeys
             || field !in rec.plugins
             || PluginFieldKeys[field].kind !in rec.plugins[field]
             || rec.plugins[field][PluginFieldKeys[field].kind] == []
    ensures FieldEffect(rec, field) == Skip
  {
  }

  /** Plugins only write the columns of the table, never target, status or notes. */
  lemma {:induction false} WrittenColumnsFromTable(rec: Record, fields: seq<string>)
    ensures PluginWrites(rec, fields).Keys <=
              {"server", "ip_address", "redirects_to", "powered_by", "is_parked", "is_auth"}
    decreases |fields|
  {
    if fields != [] {
      WrittenColumnsFromTable(rec, fields[..|fields| - 1]);
    }
  }

  /** Of a redirect chain only the first and the last record matter. */
  lemma OnlyEndpointsMatter(chain: seq<Record>, pluginFields: string, tldOf: string -> TldParts)
    requires |chain| > 1
    ensures Extracted(chain, pluginFields, tldOf) ==
            Extracted([chain[0], chain[|chain| - 1]], pluginFields, tldOf)
  {
  }

  /**
   * `redirects_to` of a redirect chain is the last target without trailing
   * slashes, unless a requested RedirectLocation plugin value replaces it;
   * a single record has no `redirects_to` unless that plugin gives one.
   */
  lemma RedirectsToColumn(chain: seq<Record>, pluginFields: string, tldOf: string -> TldParts)
    requires |chain| > 0
    ensures var data := Extracted(chain, pluginFields, tldOf);
            var writes := PluginWrites(chain[0], ProcessedFields(pluginFields));
            if "redirects_to" in writes then data["redirects_to"] == writes["redirects_to"]
            else if |chain| > 1 then data["redirects_to"] == TrimEnd(chain[|chain| - 1].target, {'/'})
            else "redirects_to" !in data
  {
  }

  /** Without plugin data nothing is written and nothing overrides the status. */
  lemma {:induction false} NoPluginData(rec: Record, fields: seq<string>)
    requires rec.plugins == map[]
    ensures PluginWrites(rec, fields) == map[] && PluginOverride(rec, fields) == None
    decreases |fields|
  {
    if fields != [] {
      NoPluginData(rec, fields[..|fields| - 1]);
    }
  }

  /** Every status is one of a fixed set of status templates, built from the first and last status. */
  lemma StatusIsTemplate(chain: seq<Record>, pluginFields: string, tldOf: string -> TldParts)
    requires |chain| > 0
    ensures var first := chain[0].httpStatus;
            var last := chain[|chain| - 1].httpStatus;
            Extracted(chain, pluginFields, tldOf)["status"] in
              {"Valid", "Parked", "Auth Required", first, "Forbidden - " + first,
               "Forbidden - " + last, "Redirect - " + first}
  {
    StatusPrecedence(chain, pluginFields, tldOf);
  }

  /**
   * A redirect from any first target to the bare HTTPS address of its
   * registrable domain, with or without "www." and with a trailing slash,
   * that answers 20x is "Valid", whatever other plugin data the first record
   * carries (a RedirectLocation value included), unless a special plugin
   * overrides it; without a requested RedirectLocation value, `redirects_to`
   * is that address without the slash.
   */
  lemma HttpsUpgradeIsValid(first: Record, last: Record, pluginFields: string, tldOf: string -> TldParts, www: bool)
    requires !Truthy(PluginValue(first, ParkedDomain)) && !Truthy(PluginValue(first, WwwAuthenticate))
    requires tldOf(first.target).suffix != [] && tldOf(first.target).suffix[|tldOf(first.target).suffix| - 1] != '/'
    requires last.target == (if www then "https://www." else "https://") +
                            tldOf(first.target).domain + "." + tldOf(first.target).suffix + "/"
    requires "20" <= last.httpStatus
    ensures var data := Extracted([first, last], pluginFields, tldOf);
            var tld := tldOf(first.target);
            && data["status"] == "Valid"
            && ("redirects_to" !in PluginWrites(first, ProcessedFields(pluginFields)) ==>
                  data["redirects_to"] == (if www then "https://www." else "https://") + tld.domain + "." + tld.suffix)
  {
    var chain := [first, last];
    var tld := tldOf(first.target);
    var address := (if www then "https://www." else "https://") + tld.domain + "." + tld.suffix;
    assert address[|address| - 1] == tld.suffix[|tld.suffix| - 1];
    assert last.target[..|last.target| - 1] == address;
    assert RedirectTarget(chain) == address;
    StatusPrecedence(chain, pluginFields, tldOf);
  }

  /** A redirect chain that ends in a 40x response is "Forbidden - <last status>" unless a plugin overrides it. */
  lemma RedirectToForbidden(chain: seq<Record>, pluginFields: string, tldOf: string -> TldParts)
    requires |chain| > 1 && "40" <= chain[|chain| - 1].httpStatus
    requires !Truthy(PluginValue(chain[0], ParkedDomain)) && !Truthy(PluginValue(chain[0], WwwAuthenticate))
    ensures Extracted(chain, pluginFields, tldOf)["status"] == "Forbidden - " + chain[|chain| - 1].httpStatus
  {
    StatusPrecedence(chain, pluginFields, tldOf);
    RedirectForbiddenWins(chain, tldOf(chain[0].target));
  }

  /**
   * A first record whose Parked-Domain string is "true" makes the target
   * "Parked" with notes "true", whatever its other plugins, unless
   * WWW-Authenticate is truthy.
   */
  lemma ParkedDomainExample(chain: seq<Record>, pluginFields: string, tldOf: string -> TldParts)
    requires |chain| > 0
    requires PluginValue(chain[0], ParkedDomain) == Some("true")
    requires !Truthy(PluginValue(chain[0], WwwAuthenticate))
    ensures var data := Extracted(chain, pluginFields, tldOf);
            data["status"] == "Parked" && data["notes"] == "true"
  {
    StatusPrecedence(chain, pluginFields, tldOf);
  }
}
