/**
 * `parse_and_extract_data` together with the failure branch of
 * `parse_json_log_output`: one log file's contents become the CSV line(s)
 * appended for it. Lines are returned instead of appended to the output
 * file, and carry no trailing newline.
 */
module Report {
  import opened Strings
  import opened Records
  import opened Status
  import opened Extractor

  /** A log file's contents after JSON decoding: every line decoded, or not. */
  datatype LogContents =
    | Decoded(records: seq<Record>)   // one record per line, in file order
    | NotJson(text: string)           // the raw contents, some line of which is not JSON

  /** The seven columns of a data row, in order. */
  const ExpectedKeys: seq<string> := ["target", "status", "ip_address", "server", "powered_by", "redirects_to", "notes"]

  /** The line written for a log that is not JSON: `<first token>,<status>`. */
  function FailureRow(contents: string): (line: string)
    ensures var token := FirstToken(TrimEnd(contents, Whitespace));
            token + [','] <= line && ',' !in line[|token| + 1..]
  {
    var text := TrimEnd(contents, Whitespace);
    FailureStatusHasNoComma(text);
    FirstToken(text) + "," + ClassifyFailure(text)
  }

  /** The value a column is printed with once missing columns are defaulted. */
  function ColumnValue(data: map<string, string>, key: string): string {
    if key in data then data[key] else ""
  }

  /** The seven fields of the data row of `data`. */
  function RowValues(data: map<string, string>): (values: seq<string>)
    ensures |values| == |ExpectedKeys|
  {
    seq(|ExpectedKeys|, i requires 0 <= i < |ExpectedKeys| => ColumnValue(data, ExpectedKeys[i]))
  }

  /** The line written for a successfully decoded chain. */
  function DataRow(chain: seq<Record>, pluginFields: string, tldOf: string -> TldParts): (row: string)
    requires |chain| > 0
    ensures chain[0].target + [','] <= row
    ensures var notes := Extracted(chain, pluginFields, tldOf)["notes"];
            |row| > |notes| && row[|row| - |notes| - 1..] == [','] + notes
  {
    JoinEnds(RowValues(Extracted(chain, pluginFields, tldOf)), ',');
    Join(RowValues(Extracted(chain, pluginFields, tldOf)), ',')
  }

  /** The loop that adds every missing expected column with the empty string. */
  method FillMissingColumns(data: map<string, string>) returns (full: map<string, string>)
    ensures forall k :: k in full <==> k in data || k in ExpectedKeys
    ensures forall k :: k in data ==> full[k] == data[k]
    ensures forall k :: k in ExpectedKeys && k !in data ==> full[k] == ""
  {
    full := data;
    for i := 0 to |ExpectedKeys|
      invariant forall k :: k in full <==> k in data || k in ExpectedKeys[..i]
      invariant forall k :: k in data ==> full[k] == data[k]
      invariant forall k :: k in ExpectedKeys[..i] && k !in data ==> full[k] == ""
    {
      var key := ExpectedKeys[i];
      assert ExpectedKeys[..i + 1] == ExpectedKeys[..i] + [key];
      if key !in full {
        full := full[key := ""];
      }
    }
    assert ExpectedKeys[..|ExpectedKeys|] == ExpectedKeys;
  }

  /** The `%`-format of a data row over a map that has every expected column. */
  function FormatRow(full: map<string, string>): (row: string)
    requires forall k :: k in ExpectedKeys ==> k in full
    ensures row == Join(RowValues(full), ',')
  {
    assert seq(|ExpectedKeys|, i requires 0 <= i < |ExpectedKeys| => full[ExpectedKeys[i]]) == RowValues(full);
    Join(seq(|ExpectedKeys|, i requires 0 <= i < |ExpectedKeys| => full[ExpectedKeys[i]]), ',')
  }

  /**
   * The lines one log file contributes: a two-column line when it is not
   * JSON, a seven-column line for a decoded chain, nothing for an empty one.
   */
  method ParseAndExtractData(contents: LogContents, pluginFields: string, tldOf: string -> TldParts)
    returns (lines: seq<string>)
    ensures contents.NotJson? ==> lines == [FailureRow(contents.text)]
    ensures contents.Decoded? && contents.records != [] ==>
              lines == [DataRow(contents.records, pluginFields, tldOf)]
    ensures contents.Decoded? && contents.records == [] ==> lines == []
  {
    var blobs: seq<Record> := [];
    lines := [];
    match contents {
      case NotJson(text) =>
        lines := lines + [FailureRow(text)];
      case Decoded(records) =>
        blobs := records;
    }
    if |blobs| > 0 {
      var data := ExtractUrlData(blobs, pluginFields, tldOf);
      var full := FillMissingColumns(data);
      assert seq(|ExpectedKeys|, i requires 0 <= i < |ExpectedKeys| => full[ExpectedKeys[i]]) == RowValues(data);
      lines := lines + [FormatRow(full)];
    }
  }

  /**
   * A data row has exactly the seven expected columns, in order, each the
   * extracted value or "", provided no value holds a comma (no quoting).
   */
  lemma DataRowColumns(chain: seq<Record>, pluginFields: string, tldOf: string -> TldParts)
    requires |chain| > 0
    requires forall i :: 0 <= i < |ExpectedKeys| ==> ',' !in RowValues(Extracted(chain, pluginFields, tldOf))[i]
    ensures var data := Extracted(chain, pluginFields, tldOf);
            var columns := Split(DataRow(chain, pluginFields, tldOf), ',');
            && |columns| == 7
            && columns[0] == chain[0].target
            && columns[1] == data["status"]
            && columns[6] == data["notes"]
            && forall i :: 0 <= i < 7 ==> columns[i] == ColumnValue(data, ExpectedKeys[i])
  {
    SplitJoin(RowValues(Extracted(chain, pluginFields, tldOf)), ',');
  }

  /** Columns outside the seven, such as `is_parked` and `is_auth`, never reach the row. */
  lemma ExtraColumnsDropped(data: map<string, string>, extra: set<string>)
    requires forall k :: k in extra ==> k !in ExpectedKeys
    ensures RowValues(data - extra) == RowValues(data)
  {
  }

  /**
   * A failure line has exactly two columns, the first token of the
   * right-stripped text and its classification, provided that token holds no comma.
   */
  lemma FailureRowColumns(contents: string)
    requires ',' !in FirstToken(TrimEnd(contents, Whitespace))
    ensures var text := TrimEnd(contents, Whitespace);
            Split(FailureRow(contents), ',') == [FirstToken(text), ClassifyFailure(text)]
  {
    var text := TrimEnd(contents, Whitespace);
    var status := ClassifyFailure(text);
    FailureStatusHasNoComma(text);
    assert FailureRow(contents) == Join([FirstToken(text), status], ',');
    SplitJoin([FirstToken(text), status], ',');
  }

  /** "whatweb: Connection refused" gives the line "whatweb:,Server Error". */
  lemma ConnectionRefusedRow()
    ensures FailureRow("whatweb: Connection refused") == "whatweb:" + "," + "Server Error"
  {
    var text := "whatweb: Connection refused";
    assert TrimEnd(text, Whitespace) == text;
    ConnectionRefusedParts(text);
  }

  lemma ConnectionRefusedParts(text: string)
    requires text == "whatweb: Connection refused"
    ensures FirstToken(text) == "whatweb:"
    ensures ClassifyFailure(text) == "Server Error"
  {
    ConnectionRefusedToken(text);
    var prefix, needle := "whatweb: ", "Connection refused";
    assert text == prefix + needle;
    assert text[|prefix|..] == needle;
    assert Contains(text, needle);
  }

  lemma ConnectionRefusedToken(text: string)
    requires text == "whatweb: Connection refused"
    ensures FirstToken(text) == "whatweb:"
  {
    var token := FirstToken(text);
    assert text[8] == ' ';
    assert forall i :: 0 <= i < 8 ==> text[i] != ' ';
    assert |token| == 8;
    assert token == text[..8];
  }

  /** An empty log file gives the line ",Server Error - Catch All". */
  lemma EmptyFileRow()
    ensures FailureRow("") == "," + CatchAll
  {
    var text := TrimEnd("", Whitespace);
    assert text == "";
    assert FirstToken(text) == "";
    assert ClassifyFailure(text) == CatchAll;
    assert "" + "," + CatchAll == "," + CatchAll;
  }
}
