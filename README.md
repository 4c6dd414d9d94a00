# whatweb-parser, modelled in Dafny

whatweb-parser turns WhatWeb scan logs into a CSV summary. Each log file holds the
WhatWeb JSON records for one scanned target, one record per line. There is one record
per HTTP request, so a redirect chain gives several. The core of the program is
`parse.py`, and it is modelled here as follows:

- `Strings`: the Python 2 string builtins the parser relies on. These are
  `rstrip`/`strip` (ASCII whitespace), `split` with an explicit separator, `in` on
  strings, and joining fields with a comma, which is all the `%`-format of a row does.
- `Records`: a decoded record, the fixed `PLUGIN_FIELD_KEYS` table, and the guarded
  plugin lookup `rec['plugins'][field][kind][0]`. In the source that lookup runs in a
  `try` block whose bare `except` swallows every failure.
- `Status`: the status strings. This covers the classifier for logs that are not JSON
  ("Connection refused" → `Server Error`, …, otherwise `Server Error - Catch All`), the
  20x/40x rule for one response, and the redirect rule: the HTTPS-upgrade check first,
  then a 40x override.
- `Extractor`: `extract_url_data_from_json`. `ExtractUrlData` is the source's
  imperative loop over the plugin fields. It is proved equal to `Extracted`, which
  states the output column by column. The lemmas then cover:
  - status precedence: Auth Required > Parked > redirect > plain status;
  - last write wins on a column;
  - tolerance of failed lookups;
  - only the first and last record of a chain matter.
- `Report`: `parse_and_extract_data` together with the failure branch of
  `parse_json_log_output`. It returns the line(s) one log file contributes: a 2-column
  failure line or a 7-column data row. Missing columns are filled in by a loop, and
  the lemmas show how the rows split back into columns.

Three behaviours of the code are worth knowing:

- Status prefixes. The code tests `startswith('20')` and `startswith('40')`, so among
  three-digit codes only 200–209 and 400–409 are caught, and 226 or 429 stay raw
  (`Status.StatusOfCode`).
- Requested fields are processed as a list in the user's order, so a name given twice
  is processed twice, and `Parked-Domain` and `WWW-Authenticate` are always appended last.
- The failure target is split on `' '` only, so a tab or newline does not end it.

## Model

| member | source | states |
|---|---|---|
| `Strings.TrimEnd` | parse.py:114 | `rstrip`: the result is a prefix of the input, does not end in a stripped character, and everything removed is a stripped character (whitespace for the log text, `/` for the redirect target) |
| `Strings.TrimStart` | parse.py:159 | left half of `strip`: the result is a suffix of the input, does not start with a stripped character, and only stripped characters were removed |
| `Strings.Strip` | parse.py:159 | `strip()`: the result is a slice of the input, everything cut off on either side is whitespace, and the result neither starts nor ends with whitespace |
| `Strings.ContainsOccurrence` | parse.py:124-131 | `needle in text` holds exactly when the needle is the slice of the text between some two positions |
| `Strings.Split` | parse.py:123 | `split(sep)` never returns an empty list (so `[0]` always exists); its parts are pinned down by `JoinSplit` and `SplitJoin` |
| `Strings.SplitWithoutSeparator` | parse.py:159 | a text without the separator splits into itself alone, so a single plugin name is one field |
| `Strings.JoinEnds` | parse.py:246 | a row of several joined fields starts with the first field and a separator and ends with a separator and the last field |
| `Strings.JoinSplit` | parse.py:159 | the parts of `split(',')` hold no separator and join back to the original text |
| `Strings.FirstToken` | parse.py:123 | `split(' ')[0]` is a prefix of the text without a space, and it stops at the first space or at the end |
| `Strings.SplitJoin` | parse.py:246 | splitting a comma-joined row gives back exactly its fields, provided none holds a comma |
| `Records.PluginValue` | parse.py:203 | a plugin field yields a value exactly when the field is in the table, the plugin is present, it has the table's value kind and that list is non-empty; the value is the first element |
| `Status.ClassifyFailure` | parse.py:124-133 | the failure status is always one of the five fixed strings |
| `Status.FailureFirstMatch` | parse.py:124-131 | rule k ("Connection refused", "Hostname not known", "ERROR: SSL_connect", "Timed out", in that order) decides the status exactly when its substring occurs and no earlier rule's does |
| `Status.FailureCatchAll` | parse.py:132-133 | `Server Error - Catch All` is given exactly when none of the four substrings occurs |
| `Status.FailureStatusHasNoComma` | parse.py:134-138 | no failure status contains a comma |
| `Status.BaseStatus` | parse.py:170-175 | a status starting with "20" becomes `Valid`, one starting with "40" becomes `Forbidden - <status>`, and the result is always one of those two or the raw status |
| `Status.IsHttpsUpgrade` | parse.py:185-186 | an address accepted as the HTTPS upgrade starts with `https://` and ends in `.` followed by the public suffix |
| `Status.RedirectTarget` | parse.py:179 | `rstrip('/')` of the last target: a prefix of it, not ending in `/`, with only slashes removed |
| `Status.ChainStatus` | parse.py:170-193 | before plugins, a chain's status is one of `Valid`, the first status, `Forbidden - <first>`, `Forbidden - <last>`, `Redirect - <first>` |
| `Status.SingleRecordStatus` | parse.py:170-175 | a one-record chain is `Valid` if its status starts with "20", `Forbidden - <status>` if it starts with "40", else the raw status |
| `Status.StatusOfCode` | parse.py:170-175 | on three-digit codes, only 200–209 give `Valid` and only 400–409 give `Forbidden - <code>`; every other code is kept raw |
| `Status.RedirectStatus` | parse.py:180-193 | if the last status starts with "40" the result is `Forbidden - <last>`, whatever else holds; if it starts with "20" the result is `Valid` exactly when the redirect is the bare HTTPS address (`https://www.D.S` or `https://D.S`) and otherwise `Redirect - <first>`; in every other case it is the first status |
| `Status.RedirectForbiddenWins` | parse.py:191-193 | a chain ending in 40x has status `Forbidden - <last status>` whatever the first status and the domain match |
| `Extractor.FieldEffect` | parse.py:203-214 | a field does nothing exactly when its lookup fails; it overrides only for Parked-Domain (`Parked`) or WWW-Authenticate (`Auth Required`) with a non-empty value, the notes being that value; otherwise it writes its looked-up value to the table's output column, and a special field writes only when its value is empty |
| `Extractor.UserFields` | parse.py:159 | one name per comma-separated part of the user's list |
| `Extractor.UserFieldsTrimmed` | parse.py:159 | every user name is comma-free and neither starts nor ends with whitespace |
| `Extractor.ProcessedFields` | parse.py:159-200 | the user's names come first, in their order, and Parked-Domain then WWW-Authenticate come last |
| `Extractor.RedirectColumn` | parse.py:177-196 | before plugins, `redirects_to` is set exactly for a chain of more than one record, to the right-stripped last target, and no other column is set |
| `Extractor.Extracted` | parse.py:160-224 | the output has exactly the keys target, status and notes, plus `redirects_to` for a redirect chain, plus the plugin-written columns; target is the first record's target |
| `Extractor.ExtractUrlData` | parse.py:142-224 | the loop over the user's fields followed by Parked-Domain and WWW-Authenticate computes exactly `Extracted` |
| `Extractor.OverrideNeedsSpecialField` | parse.py:205-212 | without a truthy Parked-Domain or WWW-Authenticate value, no field overrides the status, whatever the field list |
| `Extractor.OverridePrecedence` | parse.py:200-212 | because the two special fields are appended last, the override is `Auth Required` when WWW-Authenticate is truthy, else `Parked` when Parked-Domain is truthy, else none, whatever the user listed |
| `Extractor.StatusPrecedence` | parse.py:170-222 | the output status and notes are `Auth Required`/its value, else `Parked`/its value, else the chain's 20x/40x/redirect status with empty notes |
| `Extractor.LastWriteWins` | parse.py:213-214 | a plugin write that no later field repeats on the same column is that column's value (e.g. `PoweredBy` after `X-Powered-By`) |
| `Extractor.WrittenByLastWriter` | parse.py:213-214 | every written column has a last writer among the fields, and it holds that writer's value |
| `Extractor.SkippedFieldIrrelevant` | parse.py:202-216 | a field whose lookup fails can be removed from the list without changing any column or the override |
| `Extractor.FailedLookupSkips` | parse.py:202-216 | an unknown name, a missing plugin, a missing kind or an empty value list each make the field contribute nothing |
| `Extractor.WrittenColumnsFromTable` | parse.py:35-64 | plugins only write the table's output columns, never target, status or notes |
| `Extractor.OnlyEndpointsMatter` | parse.py:177-196 | the output of a redirect chain equals that of the chain made of its first and last records |
| `Extractor.RedirectsToColumn` | parse.py:178-196 | `redirects_to` is a requested RedirectLocation value if there is one, else the last target without trailing slashes for a redirect chain, else absent |
| `Extractor.NoPluginData` | parse.py:201-216 | a record without plugin data writes no column and overrides nothing |
| `Extractor.StatusIsTemplate` | parse.py:170-222 | the status is always one of `Valid`, `Parked`, `Auth Required`, the first status, `Forbidden - <first or last>`, `Redirect - <first>` |
| `Extractor.HttpsUpgradeIsValid` | parse.py:183-187 | a redirect to `https://D.S/` or `https://www.D.S/` answering 20x is `Valid` whatever other plugin data the first record has (a RedirectLocation value included), provided neither special plugin value is truthy; when no RedirectLocation value is written, `redirects_to` is that address without the slash |
| `Extractor.RedirectToForbidden` | parse.py:191-193 | a chain ending in 40x is `Forbidden - <last status>` unless a plugin overrides it |
| `Extractor.ParkedDomainExample` | parse.py:205-208 | a Parked-Domain string value "true" gives status `Parked` and notes "true" whatever the record's other plugins, unless WWW-Authenticate is truthy |
| `Report.FailureRow` | parse.py:123-138 | a failure line starts with the first token of the right-stripped text and a comma, and nothing after that comma holds a comma, so the status is always the last column |
| `Report.FormatRow` | parse.py:246 | the `%`-format over a map holding every expected column equals the comma join of the seven column values |
| `Report.DataRow` | parse.py:234-246 | a data row starts with the target and a comma and ends with a comma and the notes |
| `Report.RowValues` | parse.py:234 | a data row always has the seven expected columns |
| `Report.FillMissingColumns` | parse.py:241-243 | after the loop, every expected key is present, existing values are kept, and only the missing expected keys were added, each as "" |
| `Report.ParseAndExtractData` | parse.py:226-246 | a log that is not JSON gives exactly its failure line and no data row; a decoded non-empty chain gives exactly its 7-column data row; an empty chain gives nothing |
| `Report.DataRowColumns` | parse.py:234-246 | a data row splits into exactly 7 fields in the order target, status, ip_address, server, powered_by, redirects_to, notes; each is the extracted value or "", provided no value holds a comma |
| `Report.ExtraColumnsDropped` | parse.py:246 | keys outside the seven, such as `is_parked` and `is_auth`, never affect the row |
| `Report.FailureRowColumns` | parse.py:114-138 | a failure line splits into exactly 2 fields: the first token of the right-stripped text and its classification, provided that token holds no comma |
| `Report.ConnectionRefusedRow` | parse.py:123-138 | the text "whatweb: Connection refused" gives the line `whatweb:,Server Error` |
| `Report.EmptyFileRow` | parse.py:114-138 | an empty log gives the line `,Server Error - Catch All` |

## Left out

- File reading, `glob` discovery, `argparse`, `sys.exit`, console messages and the CSV header line (parse.py:66-100, 112-113, 118, 248-261). These are I/O and command-line glue.
- Appending to the output file. The lines are returned, in order, without the trailing newline.
- JSON decoding with `simplejson` (parse.py:116). The decoder's outcome is an input: `Report.LogContents` is either the decoded records or the raw text of a log that is not JSON.
- Records that are not JSON objects, or that lack `target` or `http_status`. The source raises an uncaught exception on them, and the model takes records as well-formed. A record without `plugins` is represented by an empty plugin map, which behaves the same way because every lookup fails.
- `http_status` values are taken in their `str()` form, and plugin values as strings. Truthiness is "non-empty".
- The public-suffix split `tldextract.extract` (parse.py:164). It relies on external data and is the parameter `tldOf`.
- Python 2 byte strings are modelled as sequences of characters, without encodings.
- Extractor.ExtractUrlData: requires a non-empty chain. The source raises `IndexError` on an empty one, and its only caller checks `len(json_blobs)` first.
- Report.DataRowColumns: the 7-column shape holds only when no value contains a comma. The source does no quoting, so a comma in a value shifts the columns. A newline in a value likewise splits the line.
- Report.FailureRowColumns: the 2-column shape holds only when the first token contains no comma. The token is split on `' '` only, so a newline inside it likewise splits the line.
