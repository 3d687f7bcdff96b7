/**
 * The admin panel's `convertToCSV`: a header line of the first record's keys,
 * then one line per record with its values in header order. A record is its
 * key/value list in `Object.keys` order.
 */
module CsvExport {
  import opened Text

  /**
   * The JavaScript values a record holds, as far as the export tells them
   * apart: strings, `null`, a missing key (`undefined`), and any other scalar
   * written as the text `String(value)` gives it.
   */
  datatype JsValue = JsString(s: string) | JsNull | JsUndefined | JsScalar(text: string)

  type Record = seq<(string, JsValue)>

  /** `record[key]`: the value of the first entry with that key, `undefined` when there is none. */
  function Get(r: Record, key: string): (v: JsValue)
    ensures key !in Keys(r) ==> v == JsUndefined
    ensures forall i :: 0 <= i < |r| && r[i].0 == key && key !in Keys(r[..i]) ==> v == r[i].1
  {
    if |r| == 0 then JsUndefined
    else if r[0].0 == key then r[0].1
    else
      var v := Get(r[1..], key);
      assert forall i :: 1 <= i < |r| ==> r[1..][..i - 1] == r[..i][1..];
      v
  }

  /**
   * One cell as `Array.prototype.join` writes the mapped value: a string in
   * double quotes with nothing escaped, `null` and `undefined` as nothing,
   * any other value as its text.
   */
  function Cell(v: JsValue): string {
    match v
    case JsString(s) => "\"" + s + "\""
    case JsNull => ""
    case JsUndefined => ""
    case JsScalar(text) => text
  }

  /** The cells of one record, one per header key, in header order. */
  function Cells(r: Record, headers: seq<string>): (cs: seq<string>)
    ensures |cs| == |headers|
    ensures forall j :: 0 <= j < |headers| ==> cs[j] == Cell(Get(r, headers[j]))
  {
    seq(|headers|, j requires 0 <= j < |headers| => Cell(Get(r, headers[j])))
  }

  /** The data lines, one per record. */
  function Rows(data: seq<Record>, headers: seq<string>): (lines: seq<string>)
    ensures |lines| == |data|
    ensures forall i :: 0 <= i < |data| ==> lines[i] == Join(Cells(data[i], headers), ',')
  {
    seq(|data|, i requires 0 <= i < |data| => Join(Cells(data[i], headers), ','))
  }

  /** `convertToCSV(data)`. */
  function ConvertToCsv(data: seq<Record>): (csv: string)
    ensures |data| == 0 ==> csv == ""
  {
    if |data| == 0 then ""
    else
      var headers := Keys(data[0]);
      Join([Join(headers, ',')] + Rows(data, headers), '\n')
  }

  /** No key and no cell of any record holds the character `c`. */
  predicate FreeOf(data: seq<Record>, c: char) {
    (forall i, k :: 0 <= i < |data| && 0 <= k < |data[i]| ==> NoChar(data[i][k].0, c))
    && (forall i, k :: 0 <= i < |data| && 0 <= k < |data[i]| ==> NoChar(Cell(data[i][k].1), c))
  }

  /** A value read through `Get` is one of the record's cells, or the empty `undefined` one. */
  lemma {:induction false} GetIsEntry(r: Record, key: string)
    ensures Get(r, key) == JsUndefined || exists k :: 0 <= k < |r| && Get(r, key) == r[k].1
  {
    if |r| > 0 && r[0].0 == key {
      assert Get(r, key) == r[0].1;
    } else if |r| > 0 {
      GetIsEntry(r[1..], key);
      if Get(r[1..], key) != JsUndefined {
        var k :| 0 <= k < |r[1..]| && Get(r[1..], key) == r[1..][k].1;
        assert Get(r, key) == r[k + 1].1;
      }
    }
  }

  /** A line built from cells free of `c`, joined by another character, is free of `c`. */
  lemma {:induction false} JoinFreeOf(parts: seq<string>, sep: char, c: char)
    requires sep != c
    requires NoneHasChar(parts, c)
    ensures NoChar(Join(parts, sep), c)
  {
    if |parts| > 1 {
      JoinFreeOf(parts[1..], sep, c);
      assert NoChar(parts[0] + [sep], c);
    }
  }

  /** The cells of a record are free of `c` when its keys and cell texts are. */
  lemma CellsFreeOf(data: seq<Record>, i: int, headers: seq<string>, c: char)
    requires 0 <= i < |data|
    requires FreeOf(data, c)
    ensures NoneHasChar(Cells(data[i], headers), c)
  {
    var cs := Cells(data[i], headers);
    forall j | 0 <= j < |cs| ensures NoChar(cs[j], c) {
      GetIsEntry(data[i], headers[j]);
    }
  }

  /** The data lines are free of `c` when the records are. */
  lemma RowsFreeOf(data: seq<Record>, headers: seq<string>, c: char)
    requires c != ','
    requires FreeOf(data, c)
    ensures NoneHasChar(Rows(data, headers), c)
  {
    var rows := Rows(data, headers);
    forall n | 0 <= n < |rows| ensures NoChar(rows[n], c) {
      CellsFreeOf(data, n, headers, c);
      JoinFreeOf(Cells(data[n], headers), ',', c);
    }
  }

  /** The header line is free of `c` when the keys are. */
  lemma HeaderFreeOf(data: seq<Record>, c: char)
    requires |data| > 0 && c != ','
    requires FreeOf(data, c)
    ensures NoChar(Join(Keys(data[0]), ','), c)
  {
    var headers := Keys(data[0]);
    forall k | 0 <= k < |headers| ensures NoChar(headers[k], c) {
      assert headers[k] == data[0][k].0;
    }
    JoinFreeOf(headers, ',', c);
  }

  /** The header line and the data lines are free of `c` when the records are. */
  lemma LinesFreeOf(data: seq<Record>, c: char)
    requires |data| > 0 && c != ','
    requires FreeOf(data, c)
    ensures NoneHasChar([Join(Keys(data[0]), ',')] + Rows(data, Keys(data[0])), c)
  {
    HeaderFreeOf(data, c);
    RowsFreeOf(data, Keys(data[0]), c);
    NoneHasCharCons(Join(Keys(data[0]), ','), Rows(data, Keys(data[0])), c);
  }

  /**
   * Read back as lines, the export is the header line followed by one line
   * per record: `n` records give `n + 1` lines, provided no key or cell
   * holds a newline.
   */
  lemma CsvLines(data: seq<Record>)
    requires |data| > 0
    requires FreeOf(data, '\n')
    ensures Split(ConvertToCsv(data), '\n') == [Join(Keys(data[0]), ',')] + Rows(data, Keys(data[0]))
    ensures |Split(ConvertToCsv(data), '\n')| == |data| + 1
  {
    LinesFreeOf(data, '\n');
    SplitJoin([Join(Keys(data[0]), ',')] + Rows(data, Keys(data[0])), '\n');
  }

  /**
   * Each data line splits on ',' into exactly the record's values for the
   * header keys, in header order, provided no key or cell holds a comma
   * (a string value holding one would, unescaped, add a column).
   */
  lemma RowColumns(data: seq<Record>, i: int)
    requires 0 <= i < |data| && |Keys(data[0])| > 0
    requires FreeOf(data, ',')
    ensures Split(Rows(data, Keys(data[0]))[i], ',') == Cells(data[i], Keys(data[0]))
    ensures |Split(Rows(data, Keys(data[0]))[i], ',')| == |data[0]|
  {
    CellsFreeOf(data, i, Keys(data[0]), ',');
    SplitJoin(Cells(data[i], Keys(data[0])), ',');
  }

  /** The first record's own line lists its values in its own key order. */
  lemma FirstRowInOrder(data: seq<Record>, k: int)
    requires |data| > 0 && 0 <= k < |data[0]|
    requires forall a, b :: 0 <= a < b < |data[0]| ==> data[0][a].0 != data[0][b].0
    ensures Cells(data[0], Keys(data[0]))[k] == Cell(data[0][k].1)
  {
    var r := data[0];
    forall a | 0 <= a < k ensures Keys(r[..k])[a] != r[k].0 {
      assert Keys(r[..k])[a] == r[a].0;
    }
    assert r[k].0 !in Keys(r[..k]);
  }

  /**
   * Quotes inside a string value are not escaped: the cell holds exactly two
   * more double quotes than the value (an escaping writer would double them).
   */
  lemma StringCellQuotes(s: string)
    ensures CountChar(Cell(JsString(s)), '"') == CountChar(s, '"') + 2
  {
    CountCharAppend("\"", s, '"');
    CountCharAppend("\"" + s, "\"", '"');
    assert CountChar("\"", '"') == 1 by {
      assert "\""[..0] == "";
    }
  }
}
