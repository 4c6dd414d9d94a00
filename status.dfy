/**
 * The status strings of parse.py: the failure classifier used when a log is
 * not JSON, and the 20x / 40x / redirect rules of `extract_url_data_from_json`.
 */
module Status {
  import opened Strings
  import opened Records

  /** One rule of the failure classifier: a substring and the status it selects. */
  datatype FailureRule = FailureRule(needle: string, status: string)

  /** The classifier's rules in the order they are tried. */
  const FailureRules: seq<FailureRule> := [
    FailureRule("Connection refused", "Server Error"),
    FailureRule("Hostname not known", "Server Not Found"),
    FailureRule("ERROR: SSL_connect", "Server Error - SSL_connect"),
    FailureRule("Timed out", "Server Error - Timed Out")
  ]

  const CatchAll := "Server Error - Catch All"

  /** The status of a log whose text is a tool error message rather than JSON. */
  function ClassifyFailure(text: string): (status: string)
    ensures status == CatchAll || exists k :: 0 <= k < |FailureRules| && status == FailureRules[k].status
  {
    assert FailureRules[0].status == "Server Error" && FailureRules[1].status == "Server Not Found";
    assert FailureRules[2].status == "Server Error - SSL_connect" && FailureRules[3].status == "Server Error - Timed Out";
    if Contains(text, "Connection refused") then "Server Error"
    else if Contains(text, "Hostname not known") then "Server Not Found"
    else if Contains(text, "ERROR: SSL_connect") then "Server Error - SSL_connect"
    else if Contains(text, "Timed out") then "Server Error - Timed Out"
    else CatchAll
  }

  /** Rule `k` decides the status exactly when its substring occurs and no earlier rule's does. */
  lemma FailureFirstMatch(text: string, k: int)
    requires 0 <= k < |FailureRules|
    ensures ClassifyFailure(text) == FailureRules[k].status <==>
              Contains(text, FailureRules[k].needle) &&
              forall j :: 0 <= j < k ==> !Contains(text, FailureRules[j].needle)
  {
  }

  /** The catch-all status is given exactly when no rule's substring occurs. */
  lemma FailureCatchAll(text: string)
    ensures ClassifyFailure(text) == CatchAll <==>
              forall j :: 0 <= j < |FailureRules| ==> !Contains(text, FailureRules[j].needle)
  {
  }

  /** No failure status holds a comma, so a failure line cannot gain a column from it. */
  lemma FailureStatusHasNoComma(text: string)
    ensures ',' !in ClassifyFailure(text)
  {
    var status := ClassifyFailure(text);
    assert status in {"Server Error", "Server Not Found", "Server Error - SSL_connect",
                      "Server Error - Timed Out", CatchAll};
    assert ',' !in "Server Error" && ',' !in "Server Not Found";
    assert ',' !in "Server Error - SSL_connect" && ',' !in "Server Error - Timed Out";
    assert ',' !in CatchAll;
  }

  /** A status cannot start with both "20" and "40". */
  lemma PrefixesExclusive(s: string)
    ensures !("20" <= s && "40" <= s)
  {
    assert "20"[0] != "40"[0];
    if "20" <= s {
      assert s[0] == "20"[0];
    }
  }

  /** The status of one response: "Valid" for 20x, "Forbidden - <status>" for 40x, else the raw status. */
  function BaseStatus(httpStatus: string): (status: string)
    ensures "20" <= httpStatus ==> status == "Valid"
    ensures "40" <= httpStatus ==> status == "Forbidden - " + httpStatus
    ensures status == "Valid" || status == "Forbidden - " + httpStatus || status == httpStatus
  {
    PrefixesExclusive(httpStatus);
    if "20" <= httpStatus then "Valid"
    else if "40" <= httpStatus then "Forbidden - " + httpStatus
    else httpStatus
  }

  /** Whether `redirectsTo` is the bare HTTPS address of the registrable domain, with or without "www.". */
  predicate IsHttpsUpgrade(redirectsTo: string, tld: TldParts)
    ensures IsHttpsUpgrade(redirectsTo, tld) ==>
              "https://" <= redirectsTo && |redirectsTo| >= 9 + |tld.suffix| &&
              redirectsTo[|redirectsTo| - |tld.suffix| - 1..] == "." + tld.suffix
  {
    || redirectsTo == "https://www." + tld.domain + "." + tld.suffix
    || redirectsTo == "https://" + tld.domain + "." + tld.suffix
  }

  /**
   * The status of a redirect chain from the first and last responses: the
   * 20x rule first, then the 40x rule, which overrides it.
   */
  function RedirectStatus(firstStatus: string, lastStatus: string, redirectsTo: string, tld: TldParts): (status: string)
    ensures "40" <= lastStatus ==> status == "Forbidden - " + lastStatus
    ensures "20" <= lastStatus ==> (status == "Valid" <==> IsHttpsUpgrade(redirectsTo, tld))
    ensures "20" <= lastStatus && !IsHttpsUpgrade(redirectsTo, tld) ==> status == "Redirect - " + firstStatus
    ensures !("20" <= lastStatus) && !("40" <= lastStatus) ==> status == firstStatus
  {
    PrefixesExclusive(lastStatus);
    var afterSuccess :=
      if "20" <= lastStatus then
        (if IsHttpsUpgrade(redirectsTo, tld) then "Valid" else "Redirect - " + firstStatus)
      else firstStatus;
    if "40" <= lastStatus then "Forbidden - " + lastStatus else afterSuccess
  }

  /** `chain[-1]['target'].rstrip('/')`. */
  function RedirectTarget(chain: seq<Record>): (redirectsTo: string)
    requires |chain| > 0
    ensures redirectsTo <= chain[|chain| - 1].target
    ensures redirectsTo == [] || redirectsTo[|redirectsTo| - 1] != '/'
    ensures var last := chain[|chain| - 1].target;
            forall i :: |redirectsTo| <= i < |last| ==> last[i] == '/'
  {
    TrimEnd(chain[|chain| - 1].target, {'/'})
  }

  /** The status a chain gets before any plugin is consulted. */
  function ChainStatus(chain: seq<Record>, tld: TldParts): (status: string)
    requires |chain| > 0
    ensures var first, last := chain[0].httpStatus, chain[|chain| - 1].httpStatus;
            status in {"Valid", first, "Forbidden - " + first, "Forbidden - " + last, "Redirect - " + first}
  {
    if |chain| > 1 then
      RedirectStatus(chain[0].httpStatus, chain[|chain| - 1].httpStatus, RedirectTarget(chain), tld)
    else
      BaseStatus(chain[0].httpStatus)
  }

  /** A chain of one record is classified by its status prefix alone. */
  lemma SingleRecordStatus(chain: seq<Record>, tld: TldParts)
    requires |chain| == 1
    ensures "20" <= chain[0].httpStatus ==> ChainStatus(chain, tld) == "Valid"
    ensures "40" <= chain[0].httpStatus ==> ChainStatus(chain, tld) == "Forbidden - " + chain[0].httpStatus
    ensures !("20" <= chain[0].httpStatus) && !("40" <= chain[0].httpStatus) ==>
              ChainStatus(chain, tld) == chain[0].httpStatus
  {
    PrefixesExclusive(chain[0].httpStatus);
  }

  /** `str(n)` for a three-digit status code. */
  function CodeString(n: nat): (s: string)
    requires 100 <= n < 1000
  {
    [Digit(n / 100), Digit(n / 10 % 10), Digit(n % 10)]
  }

  /** The decimal digit character of `d`. */
  function Digit(d: nat): char
    requires d < 10
  {
    ('0' as int + d) as char
  }

  /**
   * On numeric codes the prefix tests select 200-209 and 400-409 only: codes
   * such as 226 or 429 are reported raw.
   */
  lemma StatusOfCode(n: nat)
    requires 100 <= n < 1000
    ensures BaseStatus(CodeString(n)) ==
              if 200 <= n < 210 then "Valid"
              else if 400 <= n < 410 then "Forbidden - " + CodeString(n)
              else CodeString(n)
  {
    var s := CodeString(n);
    assert "20" <= s <==> s[0] == '2' && s[1] == '0';
    assert "40" <= s <==> s[0] == '4' && s[1] == '0';
    assert s[0] == '2' <==> n / 100 == 2;
    assert s[0] == '4' <==> n / 100 == 4;
    assert s[1] == '0' <==> n / 10 % 10 == 0;
  }

  /** For a redirect that ends in 40x the status ignores the first response and the domain match. */
  lemma RedirectForbiddenWins(chain: seq<Record>, tld: TldParts)
    requires |chain| > 1 && "40" <= chain[|chain| - 1].httpStatus
    ensures ChainStatus(chain, tld) == "Forbidden - " + chain[|chain| - 1].httpStatus
  {
  }
}
