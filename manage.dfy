/**
 * The source-text transforms of the management CLI (manage.py): adding and
 * removing a component's import line in app.js, splicing a route template
 * into api_routes.py, generating a model class, and parsing the `add-model`
 * field specification. Files are modelled by their contents; reading and
 * writing them is left to the caller.
 */
module Manage {
  import opened Wrappers
  import opened Text

  // ---------------------------------------------------------------------------
  // app.js imports (update_main_app)
  // ---------------------------------------------------------------------------

  /**
   * The import statement for component `name`; `title` is the component name
   * already capitalised the way `str.title()` does it.
   */
  function ImportLine(title: string, name: string): string {
    "import { render" + title + " } from " + "'./components/" + name + ".js';"
  }

  /** One past the last line starting with "import", or 0 when there is none. */
  function ImportIndex(lines: seq<string>): (p: nat)
    ensures p <= |lines|
    ensures p > 0 ==> StartsWith(lines[p - 1], "import")
    ensures forall i :: p <= i < |lines| ==> !StartsWith(lines[i], "import")
  {
    if |lines| == 0 then 0
    else if StartsWith(lines[|lines| - 1], "import") then |lines|
    else ImportIndex(lines[..|lines| - 1])
  }

  /** The content with `line` inserted as a line of its own at the import index. */
  function WithImport(content: string, line: string): string {
    var lines := Split(content, '\n');
    var p := ImportIndex(lines);
    Join(lines[..p] + [line] + lines[p..], '\n')
  }

  /** The 'add' action: nothing happens when the line already occurs anywhere. */
  method AddImport(content: string, line: string) returns (r: string)
    ensures Contains(content, line) ==> r == content
    ensures !Contains(content, line) ==> r == WithImport(content, line)
  {
    if Contains(content, line) {
      return content;
    }
    var lines := Split(content, '\n');
    var importIndex := 0;
    for i := 0 to |lines|
      invariant importIndex == ImportIndex(lines[..i])
    {
      assert lines[..i + 1][..i] == lines[..i];
      if StartsWith(lines[i], "import") {
        importIndex := i + 1;
      }
    }
    assert lines[..|lines|] == lines;
    lines := lines[..importIndex] + [line] + lines[importIndex..];
    r := Join(lines, '\n');
  }

  /**
   * Read back as lines, the new content is the old lines with `line` placed
   * right after the last import line: one line more, the others in order.
   */
  lemma InsertedAfterLastImport(content: string, line: string)
    requires NoChar(line, '\n')
    ensures var lines := Split(content, '\n');
            var p := ImportIndex(lines);
            Split(WithImport(content, line), '\n') == lines[..p] + [line] + lines[p..]
    ensures |Split(WithImport(content, line), '\n')| == |Split(content, '\n')| + 1
  {
    var lines := Split(content, '\n');
    var p := ImportIndex(lines);
    var ls := lines[..p] + [line] + lines[p..];
    SplitHasNoSeparator(content, '\n');
    forall i | 0 <= i < |ls| ensures NoChar(ls[i], '\n') {
      if i < p {
        assert ls[i] == lines[i];
      } else if i > p {
        assert ls[i] == lines[i - 1];
      }
    }
    SplitJoin(ls, '\n');
  }

  /** The 'remove' action: each occurrence with its newline, then each bare one. */
  function RemoveLine(content: string, line: string): string
    requires |line| > 0
  {
    ReplaceAll(ReplaceAll(content, line + "\n", ""), line, "")
  }

  /** Removing a line that does not occur leaves the content as it was. */
  lemma RemoveAbsent(content: string, line: string)
    requires |line| > 0
    requires !Contains(content, line)
    ensures RemoveLine(content, line) == content
  {
    NotContainsLonger(content, line, "\n");
    ReplaceAbsent(content, line + "\n", "");
    ReplaceAbsent(content, line, "");
  }

  /** The text of the lines before a split point, each ended by its newline. */
  function Head(xs: seq<string>): string {
    if |xs| == 0 then "" else Join(xs, '\n') + "\n"
  }

  lemma JoinCons(line: string, ys: seq<string>)
    requires |ys| >= 1
    ensures Join([line] + ys, '\n') == (line + "\n") + Join(ys, '\n')
  {
    assert ([line] + ys)[1..] == ys;
  }

  /** Joining lines split at some point gives the head's text followed by the rest. */
  lemma JoinHead(xs: seq<string>, ys: seq<string>)
    requires |ys| >= 1
    ensures Join(xs + ys, '\n') == Head(xs) + Join(ys, '\n')
  {
    if |xs| == 0 {
      assert xs + ys == ys;
    } else {
      JoinConcat(xs, ys, '\n');
    }
  }

  /** Joining lines around an inserted one puts the line and a newline between the two halves. */
  lemma JoinAround(xs: seq<string>, line: string, ys: seq<string>)
    requires |ys| >= 1
    ensures Join(xs + [line] + ys, '\n') == Head(xs) + (line + "\n") + Join(ys, '\n')
  {
    assert xs + [line] + ys == xs + ([line] + ys);
    JoinHead(xs, [line] + ys);
    JoinCons(line, ys);
    ConcatAssoc(Head(xs), line + "\n", Join(ys, '\n'));
  }

  /**
   * When some line follows the insertion point, the new content is the old
   * content cut in two, with the line and a newline in between; the first
   * half is empty or ends in a newline.
   */
  lemma ImportSplice(content: string, line: string) returns (a: string, b: string)
    requires ImportIndex(Split(content, '\n')) < |Split(content, '\n')|
    ensures content == a + b
    ensures WithImport(content, line) == a + (line + "\n") + b
    ensures |a| == 0 || a[|a| - 1] == '\n'
  {
    var lines := Split(content, '\n');
    var p := ImportIndex(lines);
    JoinSplit(content, '\n');
    CutAndRejoin(lines, p);
    JoinHead(lines[..p], lines[p..]);
    JoinAround(lines[..p], line, lines[p..]);
    a := Head(lines[..p]);
    b := Join(lines[p..], '\n');
  }

  /** A slice that ends inside `a` is the same slice of `a` whatever follows. */
  lemma SliceInPrefix(a: string, rest: string, i: int, k: int)
    requires 0 <= i && 0 <= k && i + k <= |a|
    ensures (a + rest)[i..i + k] == a[i..i + k]
  {
  }

  /**
   * In that spliced content the first occurrence of the line with its
   * newline is the inserted one.
   */
  lemma SpliceIsFirstMatch(a: string, b: string, line: string)
    requires NoChar(line, '\n')
    requires !Contains(a + b, line)
    requires |a| == 0 || a[|a| - 1] == '\n'
    ensures NoMatchBefore(a + (line + "\n") + b, line + "\n", |a|)
  {
    var pat := line + "\n";
    var s := a + pat + b;
    assert pat[..|line|] == line;
    forall i | 0 <= i < |a| ensures !MatchAt(s, pat, i) {
      if i + |pat| <= |a| {
        assert !MatchAt(a + b, line, i);
        assert s[i..i + |pat|][..|line|] == s[i..i + |line|];
        SliceInPrefix(a, pat + b, i, |line|);
        SliceInPrefix(a, b, i, |line|);
      } else if i + |pat| <= |s| {
        var j := |a| - 1 - i;
        assert s[i..i + |pat|][j] == '\n';
        assert pat[j] == line[j];
      }
    }
  }

  /**
   * Removing undoes adding whenever some line follows the insertion point:
   * the inserted line is taken out together with the newline after it.
   */
  lemma RemoveUndoesAdd(content: string, line: string)
    requires |line| > 0 && NoChar(line, '\n')
    requires !Contains(content, line)
    requires ImportIndex(Split(content, '\n')) < |Split(content, '\n')|
    ensures RemoveLine(WithImport(content, line), line) == content
  {
    var a, b := ImportSplice(content, line);
    var pat := line + "\n";
    SpliceIsFirstMatch(a, b, line);
    assert a + b + "" == content;
    NotContainsPart(a, b, "", line);
    NotContainsLonger(b, line, "\n");
    ReplaceLeftmost(a, pat, b, "");
    ReplaceAbsent(b, pat, "");
    assert ReplaceAll(WithImport(content, line), pat, "") == content;
    ReplaceAbsent(content, line, "");
  }

  // ---------------------------------------------------------------------------
  // api_routes.py endpoints (add_api_endpoint)
  // ---------------------------------------------------------------------------

  /** The Python function name of an endpoint: every '-' becomes '_'. */
  function HandlerName(endpoint: string): (r: string)
    ensures NoChar(r, '-')
  {
    ReplaceRemovesChar(endpoint, '-', '_');
    ReplaceAll(endpoint, "-", "_")
  }

  /** An endpoint name without dashes is its own handler name. */
  lemma HandlerNameOfPlainName(endpoint: string)
    requires NoChar(endpoint, '-')
    ensures HandlerName(endpoint) == endpoint
  {
    assert !Contains(endpoint, "-") by {
      forall i | 0 <= i <= |endpoint| ensures !MatchAt(endpoint, "-", i) {
        if i + 1 <= |endpoint| {
          assert endpoint[i..i + 1][0] == endpoint[i];
        }
      }
    }
    ReplaceAbsent(endpoint, "-", "_");
  }

  /** The route template for `endpoint`, answering `httpMethod` requests. */
  function EndpointCode(endpoint: string, httpMethod: string): string {
    "\n    @app.route(" + "'/api/" + endpoint + "', " + "methods=['" + httpMethod + "'])\n"
    + "    def " + HandlerName(endpoint) + "():\n"
    + "        " + "\"\"\"Handle " + endpoint + " requests\"\"\"\n"
    + "        " + "db = " + "next(get_db())\n"
    + "        \n"
    + "        try:\n"
    + "            " + "# Add your " + "logic here\n"
    + "            " + "data = {" + "\"message\": " + "\"Hello from " + endpoint + "!\"}\n"
    + "            " + "return " + "jsonify(data)\n"
    + "            \n"
    + "        " + "except " + "Exception as e:\n"
    + "            " + "return " + "jsonify({" + "\"error\": " + "str(e)}), 500\n"
  }


  /**
   * The new routes file: the code goes before every "return app", or at the
   * end when there is none.
   */
  function AddEndpoint(content: string, code: string): string {
    if Contains(content, "return app") then ReplaceAll(content, "return app", code + "\n    return app")
    else content + code
  }

  /** Without a "return app" the code is appended. */
  lemma EndpointAppended(content: string, code: string)
    requires !Contains(content, "return app")
    ensures AddEndpoint(content, code) == content + code
  {
  }

  /**
   * With exactly one "return app", the code lands right before it and
   * everything else is kept.
   */
  lemma EndpointBeforeReturn(before: string, after: string, code: string)
    requires NoMatchBefore(before + "return app" + after, "return app", |before|)
    requires !Contains(after, "return app")
    ensures AddEndpoint(before + "return app" + after, code) == before + code + "\n    return app" + after
  {
    var s := before + "return app" + after;
    assert s[|before|..|before| + |"return app"|] == "return app";
    assert MatchAt(s, "return app", |before|);
    ReplaceLeftmost(before, "return app", after, code + "\n    return app");
    ConcatAssoc(before, code, "\n    return app");
    ReplaceAbsent(after, "return app", code + "\n    return app");
  }

  // ---------------------------------------------------------------------------
  // models.py classes (create_database_model)
  // ---------------------------------------------------------------------------

  /** The model's fields in dictionary order: (name, type) pairs. */
  type Fields = seq<(string, string)>

  predicate IsColumnType(kind: string) {
    kind == "string" || kind == "integer" || kind == "float" || kind == "boolean" || kind == "datetime"
  }

  /**
   * The arguments of the SQLAlchemy `Column` for each known field type.
   * Here and below the fixed text is written as short literals joined by
   * `+`; the verifier reasons about short literals far more cheaply.
   */
  function ColumnArgs(kind: string): string
    requires IsColumnType(kind)
  {
    if kind == "string" then "String(255), " + "nullable=True"
    else if kind == "integer" then "Integer, " + "nullable=True"
    else if kind == "float" then "Float, " + "nullable=True"
    else if kind == "boolean" then "Boolean, " + "default=False"
    else "DateTime, " + "default=" + "datetime.utcnow"
  }

  /** The column line a field adds; fields of other types add nothing. */
  function ColumnText(name: string, kind: string): string {
    if IsColumnType(kind) then "    " + name + " = Column(" + ColumnArgs(kind) + ")\n" else ""
  }

  function ColumnLines(fields: Fields): string {
    if |fields| == 0 then ""
    else ColumnLines(fields[..|fields| - 1]) + ColumnText(fields[|fields| - 1].0, fields[|fields| - 1].1)
  }

  function DictLine(name: string): string {
    "            " + "'" + name + "': self." + name + ",\n"
  }

  function DictLines(fields: Fields): string {
    if |fields| == 0 then ""
    else DictLines(fields[..|fields| - 1]) + DictLine(fields[|fields| - 1].0)
  }

  /** The class header; `lowerName` is the model name in lower case. */
  function ModelHeader(modelName: string, lowerName: string): string {
    "\nclass " + modelName + "(Base):\n"
    + "    " + "\"\"\"Generated " + "model for " + modelName + "\"\"\"\n"
    + "    " + "__tablename__ " + "= '" + lowerName + "s'\n"
    + "    \n"
    + "    " + "id = Column(" + "Integer, " + "primary_key" + "=True)\n"
  }

  /** The fixed lines between the columns and the `to_dict` entries. */
  function ToDictHead(): string {
    "    " + "created_at = " + "Column(" + "DateTime, " + "default=" + "datetime.utcnow)\n"
    + "    \n"
    + "    " + "def to_dict" + "(self):\n"
    + "        " + "return {\n"
    + "            " + "'id': " + "self.id,\n"
  }

  /** The fixed lines that close `to_dict`. */
  function ModelFooter(): string {
    "            " + "'created_at': " + "self." + "created_at" + ".isoformat() " + "if self." + "created_at " + "else None\n"
    + "        }\n"
  }

  /** The loop over `fields.items()`: one column line per known-type field. */
  method AppendColumns(code0: string, fields: Fields) returns (code: string)
    ensures code == code0 + ColumnLines(fields)
  {
    code := code0;
    for i := 0 to |fields|
      invariant code == code0 + ColumnLines(fields[..i])
    {
      assert fields[..i + 1][..i] == fields[..i];
      var (name, kind) := fields[i];
      ConcatAssoc(code0, ColumnLines(fields[..i]), ColumnText(name, kind));
      code := code + ColumnText(name, kind);
    }
    assert fields[..|fields|] == fields;
  }

  /** The loop over `fields.keys()`: one `to_dict` entry per field. */
  method AppendDictEntries(code0: string, fields: Fields) returns (code: string)
    ensures code == code0 + DictLines(fields)
  {
    code := code0;
    for i := 0 to |fields|
      invariant code == code0 + DictLines(fields[..i])
    {
      assert fields[..i + 1][..i] == fields[..i];
      ConcatAssoc(code0, DictLines(fields[..i]), DictLine(fields[i].0));
      code := code + DictLine(fields[i].0);
    }
    assert fields[..|fields|] == fields;
  }

  /** One `model_code += text` step. */
  function Emit(code: string, text: string): (r: string)
    ensures r == code + text
  {
    code + text
  }

  /** The generated class, grown section by section as the CLI does. */
  method ModelCode(modelName: string, lowerName: string, fields: Fields) returns (code: string)
    ensures code == ModelHeader(modelName, lowerName) + ColumnLines(fields) + ToDictHead() + DictLines(fields) + ModelFooter()
  {
    code := ModelHeader(modelName, lowerName);
    code := AppendColumns(code, fields);
    code := Emit(code, ToDictHead());
    code := AppendDictEntries(code, fields);
    code := Emit(code, ModelFooter());
  }

  /** The fields that get a column, in their order. */
  function ColumnFields(fields: Fields): (r: Fields)
    ensures forall f :: f in r <==> f in fields && IsColumnType(f.1)
  {
    if |fields| == 0 then []
    else
      var last := fields[|fields| - 1];
      ColumnFields(fields[..|fields| - 1]) + (if IsColumnType(last.1) then [last] else [])
  }

  /**
   * Fields of an unknown type contribute nothing: the column section is that
   * of the known-type fields alone.
   */
  lemma {:induction false} UnknownTypesSkipped(fields: Fields)
    ensures ColumnLines(fields) == ColumnLines(ColumnFields(fields))
  {
    if |fields| > 0 {
      var init := fields[..|fields| - 1];
      var last := fields[|fields| - 1];
      UnknownTypesSkipped(init);
      var known := ColumnFields(init);
      if IsColumnType(last.1) {
        assert ColumnFields(fields) == known + [last];
        assert (known + [last])[..|known|] == known;
        assert (known + [last])[|known|] == last;
      } else {
        assert ColumnFields(fields) == known + [];
        assert known + [] == known;
        assert ColumnText(last.0, last.1) == "";
        assert ColumnLines(init) + "" == ColumnLines(init);
      }
    }
  }

  /** The line of a known-type field declares it as a column. */
  lemma ColumnTextDeclares(name: string, kind: string)
    requires IsColumnType(kind)
    ensures MatchAt(ColumnText(name, kind), "    " + name + " = Column(", 0)
  {
    var pat := "    " + name + " = Column(";
    var text := ColumnText(name, kind);
    ConcatAssoc(pat, ColumnArgs(kind), ")\n");
    assert text == pat + (ColumnArgs(kind) + ")\n");
    assert text[..|pat|] == pat;
  }

  /** Every field of a known type has its Column line. */
  lemma {:induction false} KnownFieldHasColumn(fields: Fields, k: int)
    requires 0 <= k < |fields| && IsColumnType(fields[k].1)
    ensures Contains(ColumnLines(fields), "    " + fields[k].0 + " = Column(")
    decreases |fields|
  {
    var init := fields[..|fields| - 1];
    var last := fields[|fields| - 1];
    var pat := "    " + fields[k].0 + " = Column(";
    var text := ColumnText(last.0, last.1);
    assert ColumnLines(fields) == ColumnLines(init) + text;
    if k == |fields| - 1 {
      ColumnTextDeclares(last.0, last.1);
      assert MatchAt(text, pat, 0);
      ContainsAfter(ColumnLines(init), text, pat);
    } else {
      assert init[k] == fields[k];
      KnownFieldHasColumn(init, k);
      ContainsBefore(ColumnLines(init), text, pat);
    }
  }

  /** Every field, whatever its type, is listed by `to_dict`. */
  lemma {:induction false} EveryFieldInToDict(fields: Fields, k: int)
    requires 0 <= k < |fields|
    ensures Contains(DictLines(fields), "'" + fields[k].0 + "': self." + fields[k].0)
    decreases |fields|
  {
    var init := fields[..|fields| - 1];
    var name := fields[|fields| - 1].0;
    var pat := "'" + fields[k].0 + "': self." + fields[k].0;
    var line := DictLine(name);
    assert DictLines(fields) == DictLines(init) + line;
    if k == |fields| - 1 {
      DictLineNames(name);
      ContainsAfter(DictLines(init), line, pat);
    } else {
      assert init[k] == fields[k];
      EveryFieldInToDict(init, k);
      ContainsBefore(DictLines(init), line, pat);
    }
  }

  /** The entry of a field maps its name to its attribute. */
  lemma DictLineNames(name: string)
    ensures MatchAt(DictLine(name), "'" + name + "': self." + name, 12)
  {
    var pat := "'" + name + "': self." + name;
    var line := DictLine(name);
    assert line == "            " + pat + ",\n";
    assert line[12..12 + |pat|] == pat;
  }

  // ---------------------------------------------------------------------------
  // The add-model field specification (main)
  // ---------------------------------------------------------------------------

  /** The specification used when none is given on the command line. */
  const DefaultSpec: string := "name:string"

  /** A comma-separated piece that does not split into exactly name and type. */
  datatype SpecError = MalformedField(part: string)

  predicate UniqueKeys(fields: Fields) {
    forall i, j :: 0 <= i < j < |fields| ==> fields[i].0 != fields[j].0
  }

  /** Dictionary lookup. */
  function Lookup(fields: Fields, key: string): (r: Option<string>)
    ensures r.Some? <==> key in Keys(fields)
  {
    if |fields| == 0 then None
    else if fields[0].0 == key then Some(fields[0].1)
    else Lookup(fields[1..], key)
  }

  /**
   * `fields[key] = value`: a new key goes last, an existing key keeps its
   * place and takes the new value; every other entry stays as it was.
   */
  function PutField(fields: Fields, key: string, value: string): (r: Fields)
    ensures Keys(r) == if key in Keys(fields) then Keys(fields) else Keys(fields) + [key]
    ensures key !in Keys(fields) ==> r == fields + [(key, value)]
  {
    if |fields| == 0 then [(key, value)]
    else if fields[0].0 == key then
      assert ([(key, value)] + fields[1..])[1..] == fields[1..];
      [(key, value)] + fields[1..]
    else
      var rest := PutField(fields[1..], key, value);
      KeysCons(fields[0], fields[1..]);
      KeysCons(fields[0], rest);
      assert fields == [fields[0]] + fields[1..];
      [fields[0]] + rest
  }

  /** The assignment keeps the keys distinct. */
  lemma PutFieldKeepsUnique(fields: Fields, key: string, value: string)
    requires UniqueKeys(fields)
    ensures UniqueKeys(PutField(fields, key, value))
  {
    var r := PutField(fields, key, value);
    if key in Keys(fields) {
      forall i, j | 0 <= i < j < |r| ensures r[i].0 != r[j].0 {
        assert r[i].0 == Keys(r)[i] == Keys(fields)[i] == fields[i].0;
        assert r[j].0 == Keys(r)[j] == Keys(fields)[j] == fields[j].0;
      }
    } else {
      forall i, j | 0 <= i < j < |r| ensures r[i].0 != r[j].0 {
        if j == |fields| {
          assert r[j].0 == key;
          assert r[i].0 == Keys(fields)[i];
        } else {
          assert r[i] == fields[i] && r[j] == fields[j];
        }
      }
    }
  }

  /** After the assignment the key reads back its new value and no other key changes. */
  lemma {:induction false} PutFieldLookup(fields: Fields, key: string, value: string, other: string)
    ensures Lookup(PutField(fields, key, value), key) == Some(value)
    ensures other != key ==> Lookup(PutField(fields, key, value), other) == Lookup(fields, other)
  {
    if |fields| > 0 && fields[0].0 != key {
      var rest := PutField(fields[1..], key, value);
      assert ([fields[0]] + rest)[1..] == rest;
      PutFieldLookup(fields[1..], key, value, other);
    } else if |fields| > 0 {
      assert ([(key, value)] + fields[1..])[1..] == fields[1..];
    }
  }

  /**
   * The name and type of one piece, stripped, when splitting it on ':' gives
   * exactly two parts (the unpacking `field_name, field_type = ...`).
   */
  function ParsePair(part: string): Option<(string, string)> {
    var pieces := Split(part, ':');
    if |pieces| == 2 then Some((Strip(pieces[0]), Strip(pieces[1]))) else None
  }

  /** The dictionary built from the pieces, stopping at the first bad one. */
  function ParseParts(parts: seq<string>): (r: Result<Fields, SpecError>)
    ensures r.Ok? ==> UniqueKeys(r.value)
  {
    if |parts| == 0 then Ok([])
    else
      var prev := ParseParts(parts[..|parts| - 1]);
      if prev.Err? then prev
      else match ParsePair(parts[|parts| - 1])
        case None => Err(MalformedField(parts[|parts| - 1]))
        case Some(pair) =>
          PutFieldKeepsUnique(prev.value, pair.0, pair.1);
          Ok(PutField(prev.value, pair.0, pair.1))
  }

  /** Every piece names a field and its type. */
  predicate WellFormed(parts: seq<string>) {
    |parts| == 0 || (WellFormed(parts[..|parts| - 1]) && ParsePair(parts[|parts| - 1]).Some?)
  }

  /** Parsing succeeds exactly when every piece is a well-formed pair. */
  lemma {:induction false} ParseOkIffWellFormed(parts: seq<string>)
    ensures ParseParts(parts).Ok? <==> WellFormed(parts)
  {
    if |parts| > 0 {
      ParseOkIffWellFormed(parts[..|parts| - 1]);
    }
  }

  /**
   * A failure names the first malformed piece: the one at index `i`, with
   * every piece before it well formed.
   */
  lemma {:induction false} ParseReportsFirstMalformed(parts: seq<string>) returns (i: nat)
    requires ParseParts(parts).Err?
    ensures i < |parts|
    ensures ParseParts(parts).error == MalformedField(parts[i])
    ensures ParsePair(parts[i]).None?
    ensures WellFormed(parts[..i])
  {
    var init := parts[..|parts| - 1];
    if ParseParts(init).Err? {
      i := ParseReportsFirstMalformed(init);
      assert init[..i] == parts[..i];
      assert init[i] == parts[i];
    } else {
      i := |parts| - 1;
      ParseOkIffWellFormed(init);
      assert parts[..i] == init;
    }
  }

  /** Once a prefix fails, every longer prefix fails with the same error. */
  lemma {:induction false} FailureSticks(parts: seq<string>, i: nat)
    requires i <= |parts|
    requires ParseParts(parts[..i]).Err?
    ensures ParseParts(parts) == ParseParts(parts[..i])
    decreases |parts| - i
  {
    if i < |parts| {
      assert parts[..i + 1][..i] == parts[..i];
      FailureSticks(parts, i + 1);
    } else {
      assert parts[..i] == parts;
    }
  }

  /** One more well-formed piece adds its field to the prefix's dictionary. */
  lemma ParseStep(parts: seq<string>, i: nat, pair: (string, string))
    requires i < |parts| && ParseParts(parts[..i]).Ok?
    requires ParsePair(parts[i]) == Some(pair)
    ensures ParseParts(parts[..i + 1]) == Ok(PutField(ParseParts(parts[..i]).value, pair.0, pair.1))
  {
    assert parts[..i + 1][..i] == parts[..i];
  }

  /** A malformed piece after a well-formed prefix is the error of the whole parse. */
  lemma ParseStopsAt(parts: seq<string>, i: nat)
    requires i < |parts| && ParseParts(parts[..i]).Ok?
    requires ParsePair(parts[i]).None?
    ensures ParseParts(parts) == Err(MalformedField(parts[i]))
  {
    assert parts[..i + 1][..i] == parts[..i];
    FailureSticks(parts, i + 1);
  }

  /** The `add-model` parsing loop over the text of the field specification. */
  method ParseFieldSpec(spec: string) returns (r: Result<Fields, SpecError>)
    ensures r == ParseParts(Split(spec, ','))
  {
    var parts := Split(spec, ',');
    var fields: Fields := [];
    var i := 0;
    while i < |parts|
      invariant 0 <= i <= |parts|
      invariant ParseParts(parts[..i]) == Ok(fields)
    {
      var pair := ParsePair(parts[i]);
      if pair.None? {
        ParseStopsAt(parts, i);
        return Err(MalformedField(parts[i]));
      }
      ParseStep(parts, i, pair.value);
      fields := PutField(fields, pair.value.0, pair.value.1);
      i := i + 1;
    }
    assert parts[..i] == parts;
    return Ok(fields);
  }

  /** A name whose parts contain no separator and need no stripping. */
  predicate CleanPart(s: string) {
    NoChar(s, ',') && NoChar(s, ':') && Strip(s) == s
  }

  /** Every name and type of `fields` is clean. */
  predicate AllClean(fields: Fields) {
    forall i :: 0 <= i < |fields| ==> CleanPart(fields[i].0) && CleanPart(fields[i].1)
  }

  function SpecPart(field: (string, string)): string {
    field.0 + ":" + field.1
  }

  /** The specification text that describes `fields`. */
  function SpecParts(fields: Fields): (r: seq<string>)
    ensures |r| == |fields|
    ensures forall i :: 0 <= i < |fields| ==> r[i] == SpecPart(fields[i])
  {
    if |fields| == 0 then [] else SpecParts(fields[..|fields| - 1]) + [SpecPart(fields[|fields| - 1])]
  }

  /** A piece written from colon-free parts splits back into those parts. */
  lemma SpecPartSplits(field: (string, string))
    requires NoChar(field.0, ':') && NoChar(field.1, ':')
    ensures Split(SpecPart(field), ':') == [field.0, field.1]
  {
    assert SpecPart(field) == field.0 + [':'] + field.1;
    SplitCons(field.0, ':', field.1);
    SplitNoSeparator(field.1, ':');
  }

  lemma SpecPartNoComma(field: (string, string))
    requires NoChar(field.0, ',') && NoChar(field.1, ',')
    ensures NoChar(SpecPart(field), ',')
  {
  }

  /** A piece written from clean parts parses back into them. */
  lemma SpecPartParses(field: (string, string))
    requires CleanPart(field.0) && CleanPart(field.1)
    ensures ParsePair(SpecPart(field)) == Some(field)
  {
    SpecPartSplits(field);
  }

  /**
   * Writing distinct, clean fields as `name:type,...` and parsing the text
   * gives the same fields back, in the same order.
   */
  lemma {:induction false} SpecRoundTrip(fields: Fields)
    requires |fields| >= 1
    requires UniqueKeys(fields)
    requires AllClean(fields)
    ensures ParseParts(Split(Join(SpecParts(fields), ','), ',')) == Ok(fields)
  {
    var parts := SpecParts(fields);
    forall i | 0 <= i < |parts| ensures NoChar(parts[i], ',') {
      SpecPartNoComma(fields[i]);
    }
    SplitJoin(parts, ',');
    PartsRoundTrip(fields);
  }

  /** One clean field, written out, parses back to a dictionary of that field alone. */
  lemma SingleFieldParses(f: (string, string))
    requires CleanPart(f.0) && CleanPart(f.1)
    ensures ParseParts(Split(SpecPart(f), ',')) == Ok([f])
  {
    SpecPartNoComma(f);
    SplitNoSeparator(SpecPart(f), ',');
    SpecPartParses(f);
    assert [SpecPart(f)][..0] == [];
  }

  /** The field the default specification describes. */
  const DefaultField: (string, string) := ("name", "string")

  /** A piece with no comma, no colon and no surrounding whitespace is clean. */
  lemma LiteralClean(s: string)
    requires NoChar(s, ',') && NoChar(s, ':')
    requires |s| == 0 || (!IsSpace(s[0]) && !IsSpace(s[|s| - 1]))
    ensures CleanPart(s)
  {
    StripClean(s);
  }

  lemma DefaultNameClean()
    ensures CleanPart(DefaultField.0)
  {
    LiteralClean("name");
  }

  lemma DefaultTypeClean()
    ensures CleanPart(DefaultField.1)
  {
    LiteralClean("string");
  }

  lemma DefaultSpecWritesField()
    ensures DefaultSpec == SpecPart(DefaultField)
  {
  }

  /** Without an argument the model gets one string field called `name`. */
  lemma DefaultSpecParses()
    ensures ParseParts(Split(DefaultSpec, ',')) == Ok([DefaultField])
  {
    DefaultNameClean();
    DefaultTypeClean();
    DefaultSpecWritesField();
    SingleFieldParses(DefaultField);
  }

  /** Dropping the last field keeps the keys unique. */
  lemma InitKeysUnique(fields: Fields)
    requires UniqueKeys(fields) && |fields| > 0
    ensures UniqueKeys(fields[..|fields| - 1])
  {
    var init := fields[..|fields| - 1];
    forall i, j | 0 <= i < j < |init| ensures init[i].0 != init[j].0 {
      assert init[i] == fields[i] && init[j] == fields[j];
    }
  }

  /** The last key of a uniquely keyed list does not occur before it. */
  lemma LastKeyFresh(fields: Fields)
    requires UniqueKeys(fields) && |fields| > 0
    ensures fields[|fields| - 1].0 !in Keys(fields[..|fields| - 1])
  {
    var init := fields[..|fields| - 1];
    forall i | 0 <= i < |init| ensures Keys(init)[i] != fields[|fields| - 1].0 {
      assert init[i] == fields[i];
    }
  }

  /** Parsing one more piece adds the field it names to what the prefix gave. */
  lemma ParsePartsSnoc(parts: seq<string>, pair: (string, string))
    requires |parts| > 0 && ParseParts(parts[..|parts| - 1]).Ok?
    requires ParsePair(parts[|parts| - 1]) == Some(pair)
    ensures ParseParts(parts) == Ok(PutField(ParseParts(parts[..|parts| - 1]).value, pair.0, pair.1))
  {
  }

  lemma InitPlusLast(fields: Fields)
    requires |fields| > 0
    ensures fields[..|fields| - 1] + [fields[|fields| - 1]] == fields
  {
  }

  /** The fields before the last one are clean when all of them are. */
  lemma InitClean(fields: Fields)
    requires |fields| > 0 && AllClean(fields)
    ensures AllClean(fields[..|fields| - 1])
  {
    var init := fields[..|fields| - 1];
    forall i | 0 <= i < |init| ensures CleanPart(init[i].0) && CleanPart(init[i].1) {
      assert init[i] == fields[i];
    }
  }

  lemma {:induction false} PartsRoundTrip(fields: Fields)
    requires UniqueKeys(fields)
    requires AllClean(fields)
    ensures ParseParts(SpecParts(fields)) == Ok(fields)
  {
    if |fields| > 0 {
      var init := fields[..|fields| - 1];
      var last := fields[|fields| - 1];
      InitKeysUnique(fields);
      LastKeyFresh(fields);
      InitClean(fields);
      PartsRoundTrip(init);
      SpecPartParses(last);
      var parts := SpecParts(fields);
      assert parts[..|parts| - 1] == SpecParts(init);
      ParsePartsSnoc(parts, last);
      InitPlusLast(fields);
    }
  }
}
