/** The CSV text the program writes: the table header and one line per
    row, `timestamp,address,value` (src/main.rs:77, 82-83, 105, 111). */
module Csv {
  import opened Strings
  import opened Decimal

  datatype Option<T> = None | Some(value: T)

  /** One output record: the block time, the address label and the value. */
  datatype Row = Row(timestamp: nat, address: string, value: nat)

  /** `table_header`, which already ends in a newline. */
  const TableHeader: string := "timestamp,address,value\n"

  /** What `write!(w, "{}\n", table_header)` appends. */
  const HeaderWrite: string := TableHeader + "\n"

  /** The header write is two lines: the column names, then an empty line. */
  lemma HeaderWriteLines()
    ensures Split(HeaderWrite, '\n') == ["timestamp,address,value", "", ""]
  {
    var names := "timestamp,address,value";
    assert forall k :: 0 <= k < |names| ==> names[k] != '\n';
    assert HeaderWrite == names + ['\n'] + "\n";
    SplitAfter(names, "\n", '\n');
    assert "\n" == "" + ['\n'] + "";
    SplitAfter("", "", '\n');
  }

  /** What `write!(w, "{},{},{}\n", time_stamp, address, value)` appends. */
  function FormatRow(row: Row): (line: string)
    ensures |line| >= 5 && line[|line| - 1] == '\n'
  {
    NatToStr(row.timestamp) + "," + row.address + "," + NatToStr(row.value) + "\n"
  }

  /** Read a line back: it must end in a newline, and what precedes the
      newline is read by `ParseBody`. */
  function ParseRow(line: string): Option<Row>
  {
    if |line| == 0 || line[|line| - 1] != '\n' then None
    else ParseBody(line[..|line| - 1])
  }

  /** The timestamp runs to the first comma, the value from the last comma
      on, and the label is what lies between, commas included. */
  function ParseBody(body: string): Option<Row>
  {
    ParseBetween(body, IndexOf(body, ','), LastIndexOf(body, ','))
  }

  /** The fields around commas at `i` and `j`: digits, a label, digits. */
  function ParseBetween(body: string, i: nat, j: int): Option<Row>
    requires i <= |body| && -1 <= j < |body|
  {
    if i < j && IsDigits(body[..i]) && IsDigits(body[j + 1..]) then
      Some(Row(DigitsValue(body[..i]), body[i + 1..j], DigitsValue(body[j + 1..])))
    else None
  }

  /** No digit is a comma. */
  lemma DigitsHaveNoComma(s: string)
    requires IsDigits(s)
    ensures forall k :: 0 <= k < |s| ==> s[k] != ','
  {
  }

  /** The first comma of `t,a,v` is the one right after the digits `t`. */
  lemma FirstCommaAfterDigits(t: string, a: string, v: string)
    requires IsDigits(t)
    ensures IndexOf(t + "," + a + "," + v, ',') == |t|
  {
    DigitsHaveNoComma(t);
    IndexOfSkip(t, ",", ',');
    IndexOfPrefix(t + ",", a, ',');
    IndexOfPrefix(t + "," + a, ",", ',');
    IndexOfPrefix(t + "," + a + ",", v, ',');
  }

  /** The last comma of `t,a,v` is the one right before the digits `v`. */
  lemma LastCommaBeforeDigits(t: string, a: string, v: string)
    requires IsDigits(v)
    ensures LastIndexOf(t + "," + a + "," + v, ',') == |t| + 1 + |a|
  {
    DigitsHaveNoComma(v);
    LastIndexOfSkip(t + "," + a + ",", v, ',');
  }

  /** The three fields of `t,a,v` sit where the two outer commas put them. */
  lemma FieldSlices(t: string, a: string, v: string)
    ensures var body := t + "," + a + "," + v;
      body[..|t|] == t && body[|t| + 1..|t| + 1 + |a|] == a && body[|t| + 1 + |a| + 1..] == v
  {
  }

  /** `ParseRow` of a line is `ParseBody` of the line without its newline. */
  lemma ParseRowBody(body: string)
    ensures ParseRow(body + "\n") == ParseBody(body)
  {
    assert (body + "\n")[..|body|] == body;
  }

  /** `ParseBody` of a body whose outer commas are at `i` and `j` and whose
      outer fields are digits. */
  lemma ParseBodyAt(body: string, i: nat, j: nat)
    requires i < j < |body|
    requires IndexOf(body, ',') == i && LastIndexOf(body, ',') == j
    requires IsDigits(body[..i]) && IsDigits(body[j + 1..])
    ensures ParseBody(body) == Some(Row(DigitsValue(body[..i]), body[i + 1..j], DigitsValue(body[j + 1..])))
  {
    assert ParseBody(body) == ParseBetween(body, i, j);
  }

  /** A line `t,a,v` with digit strings `t` and `v` reads back as those
      numbers around the label `a`, whatever `a` holds. */
  lemma ParseFields(t: string, a: string, v: string)
    requires IsDigits(t) && IsDigits(v)
    ensures ParseRow(t + "," + a + "," + v + "\n") == Some(Row(DigitsValue(t), a, DigitsValue(v)))
  {
    var body := t + "," + a + "," + v;
    FirstCommaAfterDigits(t, a, v);
    LastCommaBeforeDigits(t, a, v);
    var i, j := |t|, |t| + 1 + |a|;
    FieldSlices(t, a, v);
    ParseBodyAt(body, i, j);
    ParseRowBody(body);
    var r := ParseRow(body + "\n");
    assert r.Some? && r.value.address == a;
    assert r.value.timestamp == DigitsValue(t);
    assert r.value.value == DigitsValue(v);
  }

  /** Every line the program writes reads back as the row it came from,
      whatever the label holds: the numeric fields never contain a comma. */
  lemma ParseFormatRow(row: Row)
    ensures ParseRow(FormatRow(row)) == Some(row)
  {
    ParseFields(NatToStr(row.timestamp), row.address, NatToStr(row.value));
    NatToStrRoundTrip(row.timestamp);
    NatToStrRoundTrip(row.value);
  }

  /** Distinct rows give distinct lines. */
  lemma FormatRowInjective(r1: Row, r2: Row)
    requires FormatRow(r1) == FormatRow(r2)
    ensures r1 == r2
  {
    ParseFormatRow(r1);
    ParseFormatRow(r2);
  }
}
