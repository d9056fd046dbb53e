/**
 The naive CSV reading both components apply to the published sheet export,
 and the App's reading of the reference plate list.
 */
module Csv {
  import opened Optional
  import opened Text
  import opened Records
  import opened Seqs
  import opened Sheet

  /** `text.split("\n").map(r => r.split(","))`: no quoting, no escapes. */
  function Cells(text: string): (rows: seq<seq<string>>)
    ensures |rows| == |Split(text, '\n')| && |rows| >= 1
    ensures forall i :: 0 <= i < |rows| ==> |rows[i]| >= 1
  {
    var lines := Split(text, '\n');
    seq(|lines|, i requires 0 <= i < |lines| => Split(lines[i], ','))
  }

  /** `headers[i]` used as an object key: past the header row it is `undefined`, stored as the key "undefined". */
  function HeaderAt(headers: seq<string>, i: nat): string
  {
    if i < |headers| then headers[i] else "undefined"
  }

  function Entries(headers: seq<string>, fields: seq<string>): (e: Row)
    ensures |e| == |fields|
    ensures forall i :: 0 <= i < |fields| ==> e[i] == (HeaderAt(headers, i), fields[i])
  {
    seq(|fields|, i requires 0 <= i < |fields| => (HeaderAt(headers, i), fields[i]))
  }

  /** `Object.fromEntries(r.map((v, i) => [headers[i], v]))`: a repeated key keeps its first place and its last value. */
  function Record(headers: seq<string>, fields: seq<string>): (row: Row)
    ensures WellFormed(row)
  {
    MergeKeeps([], Entries(headers, fields));
    Merge([], Entries(headers, fields))
  }

  /** The sheet as both components parse it: the first line names the columns, every later line is one record. */
  function ParseSheet(text: string): (rows: seq<Row>)
    ensures |rows| == |Split(text, '\n')| - 1
    ensures forall i :: 0 <= i < |rows| ==> WellFormed(rows[i])
  {
    var cells := Cells(text);
    seq(|cells| - 1, i requires 0 <= i < |cells| - 1 => Record(cells[0], cells[i + 1]))
  }

  /** With distinct headers, field `j` of a line is the record's value under header `j`. */
  lemma RecordField(headers: seq<string>, fields: seq<string>, j: nat)
    requires forall a, b :: 0 <= a < b < |headers| ==> headers[a] != headers[b]
    requires j < |fields| && j < |headers|
    requires |fields| <= |headers| || "undefined" !in headers
    ensures Get(Record(headers, fields), headers[j]) == Some(fields[j])
  {
    var e := Entries(headers, fields);
    forall l | j < l < |e| ensures e[l].0 != e[j].0 {
      if l >= |headers| {
        assert headers[j] in headers;
      }
    }
    MergeGetLast([], e, j);
  }

  /** A line with more fields than headers files the extra fields under "undefined", the last one winning. */
  lemma RecordOverflow(headers: seq<string>, fields: seq<string>)
    requires |fields| > |headers|
    ensures Get(Record(headers, fields), "undefined") == Some(fields[|fields| - 1])
  {
    MergeGetLast([], Entries(headers, fields), |fields| - 1);
  }

  /** Each record of the parsed sheet is the line after the header read against the header. */
  lemma ParseSheetField(text: string, i: nat, j: nat)
    requires i < |ParseSheet(text)|
    requires var h := Cells(text)[0]; forall a, b :: 0 <= a < b < |h| ==> h[a] != h[b]
    requires var h := Cells(text)[0];
      j < |Cells(text)[i + 1]| && j < |h| && (|Cells(text)[i + 1]| <= |h| || "undefined" !in h)
    ensures Get(ParseSheet(text)[i], Cells(text)[0][j]) == Some(Cells(text)[i + 1][j])
  {
    var cells := Cells(text);
    assert ParseSheet(text)[i] == Record(cells[0], cells[i + 1]);
    RecordField(cells[0], cells[i + 1], j);
  }

  /** The App's first-column reading, `r[0]?.trim().replace(/\s+/g, "").toLowerCase()`. */
  function FirstColumnPlate(field: string): (p: string)
    ensures NoSpace(p) && NoUpper(p)
  {
    Lower(RemoveSpaces(Trim(field)))
  }

  /** The first field of every line after the header. */
  function FirstFields(text: string): (fs: seq<string>)
    ensures |fs| == |Split(text, '\n')| - 1
    ensures forall i :: 0 <= i < |fs| ==> fs[i] == Cells(text)[i + 1][0]
  {
    var cells := Cells(text);
    seq(|cells| - 1, i requires 0 <= i < |cells| - 1 => cells[i + 1][0])
  }

  predicate NonEmpty(p: string)
  {
    p != ""
  }

  /** The reference plate list: the first column of every line after the header, normalised, empty ones dropped. */
  function ParsePlateList(text: string): (plates: seq<string>)
    ensures forall i :: 0 <= i < |plates| ==> plates[i] != "" && NoSpace(plates[i]) && NoUpper(plates[i])
  {
    var fs := FirstFields(text);
    var firsts := seq(|fs|, i requires 0 <= i < |fs| => FirstColumnPlate(fs[i]));
    Filter(firsts, NonEmpty)
  }

  /** `normalizePlate` applied to each of `fields`. */
  function PlateKeys(fields: seq<string>): (ks: seq<string>)
    ensures |ks| == |fields|
    ensures forall i :: 0 <= i < |fields| ==> ks[i] == NormalizePlate(Some(fields[i]))
  {
    seq(|fields|, i requires 0 <= i < |fields| => NormalizePlate(Some(fields[i])))
  }

  /** The list holds exactly the non-empty `normalizePlate` keys of the first fields, so lookups by `normalizePlate` can match. */
  lemma PlateListIsNormalized(text: string)
    ensures ParsePlateList(text) == Filter(PlateKeys(FirstFields(text)), NonEmpty)
  {
    var fs := FirstFields(text);
    var firsts := seq(|fs|, i requires 0 <= i < |fs| => FirstColumnPlate(fs[i]));
    forall i | 0 <= i < |fs| ensures firsts[i] == PlateKeys(fs)[i] {
      LowerRemoveSpacesCommute(Trim(fs[i]));
    }
    assert firsts == PlateKeys(fs);
  }
}
