/**
 * The fixture definition (conf.go): the records the loader builds, the
 * normalisation of one YAML cell (`UnmarshalYAML`), and the loader itself over
 * a map from file path to file text. The JSON configuration arrives decoded
 * (`Conf`), and YAML text arrives parsed into a `Node` by the `syntax`
 * collaborator; what yaml.v2 does when it decodes a node into a Go value is
 * written out in the `As...` functions.
 */
module Conf {
  import opened Wrappers
  import opened Text

  /** `fixrCellDef`. The zero record stands for a YAML null. */
  datatype CellDef = CellDef(isParameter: bool, notNil: bool, value: string, column: string)

  const Zero := CellDef(false, false, "", "")

  /** One seed row: field name to cell. */
  type Row = map<string, CellDef>

  /** `fixrSchemaDef`: a schema's name and the texts of its table and function DDL files. */
  datatype SchemaDef = SchemaDef(name: string, tables: seq<string>, functions: seq<string>)

  /** `fixrDataDef`: the rows of one data file and the table they go to. */
  datatype DataDef = DataDef(schema: string, table: string, rows: seq<Row>)

  /** `fixrDef`. */
  datatype Def = Def(schemas: seq<SchemaDef>, data: seq<DataDef>)

  /** One entry of the configuration's `schemas` list. */
  datatype SchemaConf = SchemaConf(name: string, tables: seq<string>, functions: seq<string>)

  /** `fixrConf` after JSON decoding: the root directory, the schemas, the data identifiers. */
  datatype Conf = Conf(path: string, schemas: seq<SchemaConf>, data: seq<string>)

  /**
   * A YAML node. A scalar carries its text as written and, when the YAML
   * resolver reads it as a boolean (`true`, `false`, `yes`, ...), that boolean.
   */
  datatype Node =
    | Null
    | Scalar(text: string, boolean: Option<bool>)
    | Mapping(entries: map<string, Node>)
    | Sequence(items: seq<Node>)

  /** yaml.v2 decoding a node into a Go `string`: a scalar gives its text, a null gives "". */
  function AsString(n: Node): Option<string>
  {
    match n
    case Null => Some("")
    case Scalar(text, _) => Some(text)
    case _ => None
  }

  /** yaml.v2 decoding a node into a `*bool`: a null leaves it nil, a boolean scalar sets it. */
  function AsBoolPointer(n: Node): Option<Option<bool>>
  {
    match n
    case Null => Some(None)
    case Scalar(_, Some(b)) => Some(Some(b))
    case _ => None
  }

  /** The anonymous struct `UnmarshalYAML` decodes into: `value`, `column`, optional `param`. */
  datatype CellShape = CellShape(value: string, column: string, param: Option<bool>)

  /** yaml.v2 decoding a node into that struct; keys other than the three are ignored. */
  function AsCellShape(n: Node): Option<CellShape>
  {
    match n
    case Null => Some(CellShape("", "", None))
    case Mapping(e) =>
      var v := if "value" in e then AsString(e["value"]) else Some("");
      var c := if "column" in e then AsString(e["column"]) else Some("");
      var p := if "param" in e then AsBoolPointer(e["param"]) else Some(None);
      if v.Some? && c.Some? && p.Some? then Some(CellShape(v.value, c.value, p.value)) else None
    case _ => None
  }

  /** What `UnmarshalYAML` makes of receiver `d` and `node`, or None when it returns an error. */
  function Normalized(d: CellDef, node: Node): Option<CellDef>
  {
    match AsString(node)
    case Some(text) => Some(d.(value := text, isParameter := true, notNil := true))
    case None =>
      match AsCellShape(node)
      case None => None
      case Some(shape) =>
        Some(CellDef(
          isParameter := if shape.param.Some? then shape.param.value else true,
          notNil := true,
          value := shape.value,
          column := shape.column))
  }

  /**
   * `fixrCellDef.UnmarshalYAML`: first tries the node as a string, then as the
   * `{value, column, param}` struct, assigning the receiver's fields branch by branch.
   */
  method UnmarshalYaml(d: CellDef, node: Node) returns (r: CellDef, ok: bool)
    ensures ok <==> !node.Sequence? && (node.Mapping? ==> AsCellShape(node).Some?)
    ensures !ok ==> r == d
    ensures ok ==> r.notNil
    ensures node.Scalar? ==> r.value == node.text && r.isParameter && r.column == d.column
    ensures node.Mapping? && ok ==>
              var shape := AsCellShape(node).value;
              && r.value == shape.value
              && r.column == shape.column
              && (shape.param.None? ==> r.isParameter)
              && (shape.param.Some? ==> r.isParameter == shape.param.value)
    ensures (if ok then Some(r) else None) == Normalized(d, node)
  {
    r := d;
    var toStr := AsString(node);
    if toStr.Some? {
      r := r.(value := toStr.value);
      r := r.(isParameter := true);
    } else {
      var toStruct := AsCellShape(node);
      if toStruct.None? {
        return r, false;
      }
      r := r.(column := toStruct.value.column);
      r := r.(value := toStruct.value.value);
      if toStruct.value.param.None? {
        r := r.(isParameter := true);
      } else {
        r := r.(isParameter := toStruct.value.param.value);
      }
    }
    r := r.(notNil := true);
    ok := true;
  }

  /**
   * How yaml.v2 fills one map value of a row: a null never reaches `UnmarshalYAML`
   * and leaves the zero record; any other node goes through it on a fresh record.
   */
  function DecodeCell(n: Node): (c: Option<CellDef>)
    ensures n.Null? ==> c == Some(Zero)
    ensures n.Scalar? ==> c == Some(CellDef(true, true, n.text, ""))
    ensures c.Some? ==> (c.value.notNil <==> !n.Null?)
  {
    if n.Null? then Some(Zero) else Normalized(Zero, n)
  }

  /** Decoding one sequence item into a row: a null item gives an empty row. */
  function DecodeRow(n: Node): (r: Option<Row>)
    ensures r.Some? && n.Mapping? ==>
              && r.value.Keys == n.entries.Keys
              && forall k :: k in r.value ==> Some(r.value[k]) == DecodeCell(n.entries[k])
    ensures r.Some? && n.Mapping? ==> forall k :: k in r.value ==> (r.value[k].notNil <==> !n.entries[k].Null?)
    ensures n.Mapping? ==> (r.Some? <==> forall k :: k in n.entries ==> DecodeCell(n.entries[k]).Some?)
  {
    match n
    case Null => Some(map[])
    case Mapping(e) =>
      if forall k :: k in e ==> DecodeCell(e[k]).Some? then
        Some(map k | k in e :: DecodeCell(e[k]).value)
      else None
    case _ => None
  }

  /** yaml.v2 decoding a document into `[]map[string]fixrCellDef`. */
  function DecodeRows(doc: Node): (r: Option<seq<Row>>)
    ensures r.Some? && doc.Sequence? ==>
              |r.value| == |doc.items| && forall i :: 0 <= i < |doc.items| ==> DecodeRow(doc.items[i]) == Some(r.value[i])
  {
    match doc
    case Null => Some([])
    case Sequence(items) =>
      if forall i :: 0 <= i < |items| ==> DecodeRow(items[i]).Some? then
        Some(seq(|items|, i requires 0 <= i < |items| => DecodeRow(items[i]).value))
      else None
    case _ => None
  }

  /** Parsing then decoding a data file's text; None is the error `yaml.Unmarshal` returns. */
  function Rows(syntax: string -> Option<Node>, text: string): Option<seq<Row>>
  {
    match syntax(text)
    case None => None
    case Some(doc) => DecodeRows(doc)
  }

  datatype LoadError =
    | Unreadable(path: string)        // a file `ioutil.ReadFile` cannot read
    | IndexPanic(identifier: string)  // `pieces[1]` on an identifier without a "."; a run-time panic in Go
    | Undecodable(identifier: string) // `yaml.Unmarshal` failed on the identifier's data file

  function TablePath(root: string, schema: string, table: string): string
  {
    root + "/schema/" + schema + "/tables/" + table + ".sql"
  }

  function FunctionPath(root: string, schema: string, fn: string): string
  {
    root + "/schema/" + schema + "/functions/" + fn + ".sql"
  }

  function DataPath(root: string, identifier: string): string
  {
    root + "/data/" + identifier + ".yml"
  }

  function TablePaths(root: string, s: SchemaConf): seq<string>
  {
    seq(|s.tables|, k requires 0 <= k < |s.tables| => TablePath(root, s.name, s.tables[k]))
  }

  function FunctionPaths(root: string, s: SchemaConf): seq<string>
  {
    seq(|s.functions|, k requires 0 <= k < |s.functions| => FunctionPath(root, s.name, s.functions[k]))
  }

  /** The texts read so far ahead of the outcome of reading the rest. */
  function Prepend(done: seq<string>, r: Result<seq<string>, string>): Result<seq<string>, string>
  {
    match r
    case Ok(rest) => Ok(done + rest)
    case Err(p) => Err(p)
  }

  lemma PrependPrepend(done: seq<string>, text: string, r: Result<seq<string>, string>)
    ensures Prepend(done, Prepend([text], r)) == Prepend(done + [text], r)
  {
    if r.Ok? {
      assert done + ([text] + r.value) == (done + [text]) + r.value;
    }
  }

  /** Reads the files in order; the first one missing stops the reading. */
  function ReadAll(paths: seq<string>, files: map<string, string>): Result<seq<string>, string>
    decreases |paths|
  {
    if paths == [] then Ok([])
    else if paths[0] !in files then Err(paths[0])
    else Prepend([files[paths[0]]], ReadAll(paths[1..], files))
  }

  /** `p` is the first path of `paths` that is not in `files`. */
  ghost predicate FirstMissing(paths: seq<string>, files: map<string, string>, p: string)
  {
    p !in files && exists k :: 0 <= k < |paths| && paths[k] == p && forall j :: 0 <= j < k ==> paths[j] in files
  }

  /** Reading succeeds exactly when every file is there, gives their texts in order, and otherwise names the first missing one. */
  lemma {:induction false} ReadAllSpec(paths: seq<string>, files: map<string, string>)
    ensures ReadAll(paths, files).Ok? <==> forall k :: 0 <= k < |paths| ==> paths[k] in files
    ensures ReadAll(paths, files).Ok? ==>
              |ReadAll(paths, files).value| == |paths| &&
              forall k :: 0 <= k < |paths| ==> ReadAll(paths, files).value[k] == files[paths[k]]
    ensures ReadAll(paths, files).Err? ==> FirstMissing(paths, files, ReadAll(paths, files).error)
    decreases |paths|
  {
    if paths != [] && paths[0] in files {
      var tail := paths[1..];
      ReadAllSpec(tail, files);
      assert forall k :: 1 <= k < |paths| ==> paths[k] == tail[k - 1];
      match ReadAll(tail, files)
      case Ok(texts) =>
        assert ReadAll(paths, files) == Ok([files[paths[0]]] + texts);
      case Err(p) =>
        assert ReadAll(paths, files) == Err(p);
        var k :| 0 <= k < |tail| && tail[k] == p && forall j :: 0 <= j < k ==> tail[j] in files;
        assert paths[k + 1] == p;
        assert forall j :: 0 <= j < k + 1 ==> paths[j] in files by {
          forall j | 0 <= j < k + 1 ensures paths[j] in files {
            if j > 0 { assert paths[j] == tail[j - 1]; }
          }
        }
    }
  }

  /** `d` holds schema `s` with the text of every table and function file, in listed order. */
  ghost predicate SchemaLoaded(root: string, s: SchemaConf, files: map<string, string>, d: SchemaDef)
  {
    && d.name == s.name
    && |d.tables| == |s.tables|
    && (forall k :: 0 <= k < |s.tables| ==>
          TablePath(root, s.name, s.tables[k]) in files && d.tables[k] == files[TablePath(root, s.name, s.tables[k])])
    && |d.functions| == |s.functions|
    && (forall k :: 0 <= k < |s.functions| ==>
          FunctionPath(root, s.name, s.functions[k]) in files && d.functions[k] == files[FunctionPath(root, s.name, s.functions[k])])
  }

  /** The first missing path of a concatenation lies in its first part, or in the second when the first is all there. */
  lemma FirstMissingAppend(a: seq<string>, b: seq<string>, files: map<string, string>, p: string)
    requires FirstMissing(a, files, p) || ((forall k :: 0 <= k < |a| ==> a[k] in files) && FirstMissing(b, files, p))
    ensures FirstMissing(a + b, files, p)
  {
    if FirstMissing(a, files, p) {
      var k :| 0 <= k < |a| && a[k] == p && forall j :: 0 <= j < k ==> a[j] in files;
      assert (a + b)[k] == p;
      assert forall j :: 0 <= j < k ==> (a + b)[j] == a[j];
    } else {
      var k :| 0 <= k < |b| && b[k] == p && forall j :: 0 <= j < k ==> b[j] in files;
      assert (a + b)[|a| + k] == p;
      assert forall j :: 0 <= j < |a| + k ==> (a + b)[j] == if j < |a| then a[j] else b[j - |a|];
    }
  }

  /** One iteration of the schema loop: the table files, then the function files. */
  function ReadSchema(root: string, s: SchemaConf, files: map<string, string>): Result<SchemaDef, string>
  {
    match ReadAll(TablePaths(root, s), files)
    case Err(p) => Err(p)
    case Ok(tables) =>
      match ReadAll(FunctionPaths(root, s), files)
      case Err(p) => Err(p)
      case Ok(functions) => Ok(SchemaDef(s.name, tables, functions))
  }

  /** A schema is read completely, or the first file of it that is missing is reported. */
  lemma ReadSchemaSpec(root: string, s: SchemaConf, files: map<string, string>)
    ensures ReadSchema(root, s, files).Ok? ==> SchemaLoaded(root, s, files, ReadSchema(root, s, files).value)
    ensures ReadSchema(root, s, files).Err? ==>
              FirstMissing(TablePaths(root, s) + FunctionPaths(root, s), files, ReadSchema(root, s, files).error)
  {
    var ts := TablePaths(root, s);
    var fs := FunctionPaths(root, s);
    ReadAllSpec(ts, files);
    ReadAllSpec(fs, files);
    if ReadSchema(root, s, files).Err? {
      FirstMissingAppend(ts, fs, files, ReadSchema(root, s, files).error);
    } else {
      assert forall k :: 0 <= k < |ts| ==> ts[k] == TablePath(root, s.name, s.tables[k]);
      assert forall k :: 0 <= k < |fs| ==> fs[k] == FunctionPath(root, s.name, s.functions[k]);
    }
  }

  /** The schema half of `load`: schemas in order, each with its tables, then its functions. */
  function LoadSchemas(root: string, schemas: seq<SchemaConf>, files: map<string, string>): (seq<SchemaDef>, Option<LoadError>)
    decreases |schemas|
  {
    if schemas == [] then ([], None)
    else
      match ReadSchema(root, schemas[0], files)
      case Err(p) => ([], Some(Unreadable(p)))
      case Ok(d) =>
        var rest := LoadSchemas(root, schemas[1..], files);
        ([d] + rest.0, rest.1)
  }

  /**
   * The schemas loaded are complete and in order; the load stops only at a schema
   * with a missing file, and reports the first missing file of that schema.
   */
  lemma {:induction false} LoadSchemasSpec(root: string, schemas: seq<SchemaConf>, files: map<string, string>)
    ensures var (done, e) := LoadSchemas(root, schemas, files);
            && |done| <= |schemas|
            && (forall i :: 0 <= i < |done| ==> SchemaLoaded(root, schemas[i], files, done[i]))
            && (e.None? <==> |done| == |schemas|)
            && (e.Some? ==>
                  e.value.Unreadable? &&
                  FirstMissing(TablePaths(root, schemas[|done|]) + FunctionPaths(root, schemas[|done|]), files, e.value.path))
    decreases |schemas|
  {
    if schemas != [] {
      ReadSchemaSpec(root, schemas[0], files);
      LoadSchemasSpec(root, schemas[1..], files);
    }
  }

  /**
   * `schema` is the text of `identifier` before its first ".", `table` the text from
   * there to the next "." or the end; a further suffix only names the file.
   */
  ghost predicate IdentifierNames(identifier: string, schema: string, table: string)
  {
    && '.' !in schema
    && '.' !in table
    && (identifier == schema + "." + table || StartsWith(identifier, schema + "." + table + "."))
  }

  /** `d` holds the rows of data file `identifier`, addressed to the table it names. */
  ghost predicate DataLoaded(root: string, identifier: string, files: map<string, string>,
                             syntax: string -> Option<Node>, d: DataDef)
  {
    && DataPath(root, identifier) in files
    && IdentifierNames(identifier, d.schema, d.table)
    && Rows(syntax, files[DataPath(root, identifier)]) == Some(d.rows)
  }

  /** Split's first piece is the text before the first separator, or all of it. */
  lemma {:induction false} SplitFirstPiece(s: string, sep: char)
    ensures var a := Split(s, sep)[0];
            |a| <= |s| && s[..|a|] == a && sep !in a && (|a| < |s| ==> s[|a|] == sep)
    decreases |s|
  {
    if s != [] && s[0] != sep {
      SplitFirstPiece(s[1..], sep);
      var r := Split(s[1..], sep)[0];
      assert Split(s, sep)[0] == [s[0]] + r;
      assert s[..|r| + 1] == [s[0]] + s[1..][..|r|];
      if |r| + 1 < |s| {
        assert s[|r| + 1] == s[1..][|r|];
      }
    }
  }

  lemma Reassemble(s: string, a: string, sep: char)
    requires |a| < |s| && s[..|a|] == a && s[|a|] == sep
    ensures s == a + [sep] + s[|a| + 1..]
  {
  }

  /** Split's first piece is free of the separator and, when there are more, followed by it. */
  lemma SplitFront(s: string, sep: char)
    ensures sep !in Split(s, sep)[0]
    ensures |Split(s, sep)| == 1 ==> s == Split(s, sep)[0]
    ensures |Split(s, sep)| >= 2 ==>
              var n := |Split(s, sep)[0]|;
              n < |s| && s == Split(s, sep)[0] + [sep] + s[n + 1..] && Split(s[n + 1..], sep) == Split(s, sep)[1..]
  {
    SplitFirstPiece(s, sep);
    SplitHasSecond(s, sep);
    var pieces := Split(s, sep);
    var a := pieces[0];
    if |pieces| == 1 {
      SplitWithoutSeparator(s, sep);
    } else {
      Reassemble(s, a, sep);
      SplitAtFirst(a, sep, s[|a| + 1..]);
    }
  }

  /** An identifier with a "." names its schema and table by its first two pieces. */
  lemma SplitNamesIdentifier(identifier: string)
    requires '.' in identifier
    ensures |Split(identifier, '.')| >= 2
    ensures IdentifierNames(identifier, Split(identifier, '.')[0], Split(identifier, '.')[1])
  {
    SplitHasSecond(identifier, '.');
    SplitFront(identifier, '.');
    var pieces := Split(identifier, '.');
    var a := pieces[0];
    var t := identifier[|a| + 1..];
    SplitFront(t, '.');
    var b := Split(t, '.')[0];
    assert b == pieces[1];
    if |Split(t, '.')| == 1 {
      assert identifier == a + "." + b;
    } else {
      DottedFront(a, b, t[|b| + 1..]);
    }
  }

  lemma DottedFront(a: string, b: string, u: string)
    ensures StartsWith(a + "." + (b + "." + u), a + "." + b + ".")
  {
    assert a + "." + (b + "." + u) == (a + "." + b + ".") + u;
  }

  /** One iteration of the data loop: read the file, split the identifier, decode the rows. */
  function LoadOne(root: string, identifier: string, files: map<string, string>,
                   syntax: string -> Option<Node>): Result<DataDef, LoadError>
  {
    var path := DataPath(root, identifier);
    if path !in files then Err(Unreadable(path))
    else
      var pieces := Split(identifier, '.');
      if |pieces| < 2 then Err(IndexPanic(identifier))
      else
        match Rows(syntax, files[path])
        case None => Err(Undecodable(identifier))
        case Some(rows) => Ok(DataDef(pieces[0], pieces[1], rows))
  }

  /**
   * A data file loads exactly when it is readable, its identifier has a "." and its
   * text decodes; the errors are checked in that order.
   */
  lemma LoadOneSpec(root: string, identifier: string, files: map<string, string>, syntax: string -> Option<Node>)
    ensures var r := LoadOne(root, identifier, files, syntax);
            var path := DataPath(root, identifier);
            && (r.Ok? <==> path in files && '.' in identifier && Rows(syntax, files[path]).Some?)
            && (r.Ok? ==> DataLoaded(root, identifier, files, syntax, r.value))
            && (path !in files ==> r == Err(Unreadable(path)))
            && (path in files && '.' !in identifier ==> r == Err(IndexPanic(identifier)))
            && (r.Err? && path in files && '.' in identifier ==> r == Err(Undecodable(identifier)))
  {
    SplitHasSecond(identifier, '.');
    if '.' in identifier {
      SplitNamesIdentifier(identifier);
    }
  }

  /** The data half of `load`: data files in order. */
  function LoadData(root: string, identifiers: seq<string>, files: map<string, string>,
                    syntax: string -> Option<Node>): (seq<DataDef>, Option<LoadError>)
    decreases |identifiers|
  {
    if identifiers == [] then ([], None)
    else
      match LoadOne(root, identifiers[0], files, syntax)
      case Err(e) => ([], Some(e))
      case Ok(d) =>
        var rest := LoadData(root, identifiers[1..], files, syntax);
        ([d] + rest.0, rest.1)
  }

  /** The data sets loaded are complete and in order; the load stops at the first data file that fails. */
  lemma {:induction false} LoadDataSpec(root: string, identifiers: seq<string>, files: map<string, string>,
                                        syntax: string -> Option<Node>)
    ensures var (done, e) := LoadData(root, identifiers, files, syntax);
            && |done| <= |identifiers|
            && (forall i :: 0 <= i < |done| ==> DataLoaded(root, identifiers[i], files, syntax, done[i]))
            && (e.None? <==> |done| == |identifiers|)
            && (e.Some? ==> LoadOne(root, identifiers[|done|], files, syntax) == Err(e.value))
    decreases |identifiers|
  {
    if identifiers != [] {
      LoadOneSpec(root, identifiers[0], files, syntax);
      LoadDataSpec(root, identifiers[1..], files, syntax);
    }
  }

  /** What `load` returns: the definition built so far and the error that stopped it, if any. */
  function LoadResult(c: Conf, files: map<string, string>, syntax: string -> Option<Node>): (r: (Def, Option<LoadError>))
  {
    var (schemas, e) := LoadSchemas(c.path, c.schemas, files);
    if e.Some? then (Def(schemas, []), e)
    else
      var (data, e') := LoadData(c.path, c.data, files, syntax);
      (Def(schemas, data), e')
  }

  /** Every table and function file of every schema is readable. */
  ghost predicate SchemaFilesPresent(root: string, schemas: seq<SchemaConf>, files: map<string, string>)
  {
    && (forall i, k :: 0 <= i < |schemas| && 0 <= k < |schemas[i].tables| ==>
          TablePath(root, schemas[i].name, schemas[i].tables[k]) in files)
    && (forall i, k :: 0 <= i < |schemas| && 0 <= k < |schemas[i].functions| ==>
          FunctionPath(root, schemas[i].name, schemas[i].functions[k]) in files)
  }

  /** Every data file is readable, has a "." in its identifier, and decodes. */
  ghost predicate DataFilesUsable(root: string, identifiers: seq<string>, files: map<string, string>,
                                  syntax: string -> Option<Node>)
  {
    forall i :: 0 <= i < |identifiers| ==>
      DataPath(root, identifiers[i]) in files && '.' in identifiers[i] &&
      Rows(syntax, files[DataPath(root, identifiers[i])]).Some?
  }

  /** Every file `load` needs is readable, every identifier has a ".", every data file decodes. */
  ghost predicate Loadable(c: Conf, files: map<string, string>, syntax: string -> Option<Node>)
  {
    SchemaFilesPresent(c.path, c.schemas, files) && DataFilesUsable(c.path, c.data, files, syntax)
  }

  lemma IdentifierHasDot(identifier: string, schema: string, table: string)
    requires IdentifierNames(identifier, schema, table)
    ensures '.' in identifier
  {
    var full := schema + "." + table;
    assert full[|schema|] == '.';
    if identifier != full {
      assert identifier[..|full + "."|][|schema|] == '.';
    }
    assert identifier[|schema|] == '.';
  }

  /** The schema half of `load` finishes exactly when every file it reads is there. */
  lemma LoadSchemasSucceedsIff(root: string, schemas: seq<SchemaConf>, files: map<string, string>)
    ensures LoadSchemas(root, schemas, files).1.None? <==> SchemaFilesPresent(root, schemas, files)
  {
    LoadSchemasSpec(root, schemas, files);
    var (done, e) := LoadSchemas(root, schemas, files);
    if e.None? {
      forall i, k | 0 <= i < |schemas| && 0 <= k < |schemas[i].tables|
        ensures TablePath(root, schemas[i].name, schemas[i].tables[k]) in files
      {
        assert SchemaLoaded(root, schemas[i], files, done[i]);
      }
      forall i, k | 0 <= i < |schemas| && 0 <= k < |schemas[i].functions|
        ensures FunctionPath(root, schemas[i].name, schemas[i].functions[k]) in files
      {
        assert SchemaLoaded(root, schemas[i], files, done[i]);
      }
    } else {
      var s := schemas[|done|];
      var ps := TablePaths(root, s) + FunctionPaths(root, s);
      var p := e.value.path;
      var k :| 0 <= k < |ps| && ps[k] == p;
      if k < |s.tables| {
        assert ps[k] == TablePath(root, s.name, s.tables[k]);
      } else {
        assert ps[k] == FunctionPath(root, s.name, s.functions[k - |s.tables|]);
      }
    }
  }

  /** The data half of `load` finishes exactly when every data file is usable. */
  lemma LoadDataSucceedsIff(root: string, identifiers: seq<string>, files: map<string, string>,
                            syntax: string -> Option<Node>)
    ensures LoadData(root, identifiers, files, syntax).1.None? <==> DataFilesUsable(root, identifiers, files, syntax)
  {
    LoadDataSpec(root, identifiers, files, syntax);
    var (done, e) := LoadData(root, identifiers, files, syntax);
    if e.None? {
      forall i | 0 <= i < |identifiers|
        ensures DataPath(root, identifiers[i]) in files && '.' in identifiers[i]
        ensures Rows(syntax, files[DataPath(root, identifiers[i])]).Some?
      {
        assert DataLoaded(root, identifiers[i], files, syntax, done[i]);
        IdentifierHasDot(identifiers[i], done[i].schema, done[i].table);
      }
    } else {
      LoadOneSpec(root, identifiers[|done|], files, syntax);
    }
  }

  /**
   * `load` succeeds exactly when everything it needs is there; it then keeps the
   * configuration's order throughout. On failure the schemas and data sets built
   * before the failure are all complete, and a schema failure leaves no data.
   */
  lemma LoadCharacterized(c: Conf, files: map<string, string>, syntax: string -> Option<Node>)
    ensures var (def, err) := LoadResult(c, files, syntax);
            && (err.None? <==> Loadable(c, files, syntax))
            && (err.None? ==> |def.schemas| == |c.schemas| && |def.data| == |c.data|)
            && |def.schemas| <= |c.schemas| && |def.data| <= |c.data|
            && (forall i :: 0 <= i < |def.schemas| ==> SchemaLoaded(c.path, c.schemas[i], files, def.schemas[i]))
            && (forall i :: 0 <= i < |def.data| ==> DataLoaded(c.path, c.data[i], files, syntax, def.data[i]))
            && (|def.schemas| < |c.schemas| ==> def.data == [])
  {
    LoadSchemasSpec(c.path, c.schemas, files);
    LoadDataSpec(c.path, c.data, files, syntax);
    LoadSchemasSucceedsIff(c.path, c.schemas, files);
    LoadDataSucceedsIff(c.path, c.data, files, syntax);
  }

  /**
   * The body of `load`'s schema loop: reads the table files, then the function
   * files, of one schema; `missing` is the path that could not be read.
   */
  method LoadSchema(root: string, schema: SchemaConf, files: map<string, string>)
    returns (schemaDef: SchemaDef, missing: Option<string>)
    ensures ReadSchema(root, schema, files) == if missing.None? then Ok(schemaDef) else Err(missing.value)
  {
    schemaDef := SchemaDef(schema.name, [], []);
    ghost var ts := TablePaths(root, schema);
    assert ts[0..] == ts;
    assert forall rest: seq<string> :: [] + rest == rest;
    for j := 0 to |schema.tables|
      invariant schemaDef.name == schema.name && schemaDef.functions == []
      invariant ReadAll(ts, files) == Prepend(schemaDef.tables, ReadAll(ts[j..], files))
    {
      var path := TablePath(root, schema.name, schema.tables[j]);
      assert ts[j..][0] == path && ts[j..][1..] == ts[j + 1..];
      PrependPrepend(schemaDef.tables, if path in files then files[path] else "", ReadAll(ts[j + 1..], files));
      if path !in files {
        return schemaDef, Some(path);
      }
      schemaDef := schemaDef.(tables := schemaDef.tables + [files[path]]);
    }
    assert ts[|schema.tables|..] == [] && schemaDef.tables + [] == schemaDef.tables;
    ghost var fs := FunctionPaths(root, schema);
    assert fs[0..] == fs;
    assert forall rest: seq<string> :: [] + rest == rest;
    for j := 0 to |schema.functions|
      invariant schemaDef.name == schema.name && ReadAll(ts, files) == Ok(schemaDef.tables)
      invariant ReadAll(fs, files) == Prepend(schemaDef.functions, ReadAll(fs[j..], files))
    {
      var path := FunctionPath(root, schema.name, schema.functions[j]);
      assert fs[j..][0] == path && fs[j..][1..] == fs[j + 1..];
      PrependPrepend(schemaDef.functions, if path in files then files[path] else "", ReadAll(fs[j + 1..], files));
      if path !in files {
        return schemaDef, Some(path);
      }
      schemaDef := schemaDef.(functions := schemaDef.functions + [files[path]]);
    }
    assert fs[|schema.functions|..] == [] && schemaDef.functions + [] == schemaDef.functions;
    missing := None;
  }

  lemma LoadSchemasStep(root: string, schemas: seq<SchemaConf>, i: nat, files: map<string, string>)
    requires i < |schemas|
    ensures LoadSchemas(root, schemas[i..], files) ==
              match ReadSchema(root, schemas[i], files)
              case Err(p) => ([], Some(Unreadable(p)))
              case Ok(d) => ([d] + LoadSchemas(root, schemas[i + 1..], files).0, LoadSchemas(root, schemas[i + 1..], files).1)
  {
    assert schemas[i..][0] == schemas[i] && schemas[i..][1..] == schemas[i + 1..];
  }

  lemma LoadDataStep(root: string, identifiers: seq<string>, i: nat, files: map<string, string>,
                     syntax: string -> Option<Node>)
    requires i < |identifiers|
    ensures LoadData(root, identifiers[i..], files, syntax) ==
              match LoadOne(root, identifiers[i], files, syntax)
              case Err(e) => ([], Some(e))
              case Ok(d) =>
                ([d] + LoadData(root, identifiers[i + 1..], files, syntax).0, LoadData(root, identifiers[i + 1..], files, syntax).1)
  {
    assert identifiers[i..][0] == identifiers[i] && identifiers[i..][1..] == identifiers[i + 1..];
  }

  /**
   * The body of `load`'s data loop: reads the file, takes schema and table from the
   * identifier's first two "."-separated pieces, decodes the rows.
   */
  method LoadDataFile(root: string, d: string, files: map<string, string>, syntax: string -> Option<Node>)
    returns (r: Result<DataDef, LoadError>)
    ensures r == LoadOne(root, d, files, syntax)
  {
    var path := DataPath(root, d);
    if path !in files {
      return Err(Unreadable(path));
    }
    var rowsDef := files[path];
    var pieces := Split(d, '.');
    if |pieces| < 2 {
      return Err(IndexPanic(d));
    }
    var dataDef := DataDef(pieces[0], pieces[1], []);
    var rows := Rows(syntax, rowsDef);
    if rows.None? {
      return Err(Undecodable(d));
    }
    dataDef := dataDef.(rows := rows.value);
    return Ok(dataDef);
  }

  /** `load`'s schema loop: one schema at a time, stopping at the first file it cannot read. */
  method LoadSchemaLoop(root: string, schemas: seq<SchemaConf>, files: map<string, string>)
    returns (done: seq<SchemaDef>, err: Option<LoadError>)
    ensures (done, err) == LoadSchemas(root, schemas, files)
  {
    done := [];
    assert schemas[0..] == schemas;
    for i := 0 to |schemas|
      invariant LoadSchemas(root, schemas, files).0 == done + LoadSchemas(root, schemas[i..], files).0
      invariant LoadSchemas(root, schemas, files).1 == LoadSchemas(root, schemas[i..], files).1
    {
      LoadSchemasStep(root, schemas, i, files);
      var schemaDef, missing := LoadSchema(root, schemas[i], files);
      if missing.Some? {
        assert done + [] == done;
        return done, Some(Unreadable(missing.value));
      }
      ghost var rest := LoadSchemas(root, schemas[i + 1..], files).0;
      assert done + ([schemaDef] + rest) == (done + [schemaDef]) + rest;
      done := done + [schemaDef];
    }
    assert schemas[|schemas|..] == [] && done + [] == done;
    err := None;
  }

  /** `load`'s data loop: one data file at a time, stopping at the first that fails. */
  method LoadDataLoop(root: string, identifiers: seq<string>, files: map<string, string>, syntax: string -> Option<Node>)
    returns (done: seq<DataDef>, err: Option<LoadError>)
    ensures (done, err) == LoadData(root, identifiers, files, syntax)
  {
    done := [];
    assert identifiers[0..] == identifiers;
    for i := 0 to |identifiers|
      invariant LoadData(root, identifiers, files, syntax).0 == done + LoadData(root, identifiers[i..], files, syntax).0
      invariant LoadData(root, identifiers, files, syntax).1 == LoadData(root, identifiers[i..], files, syntax).1
    {
      LoadDataStep(root, identifiers, i, files, syntax);
      var loaded := LoadDataFile(root, identifiers[i], files, syntax);
      if loaded.Err? {
        assert done + [] == done;
        return done, Some(loaded.error);
      }
      ghost var rest := LoadData(root, identifiers[i + 1..], files, syntax).0;
      assert done + ([loaded.value] + rest) == (done + [loaded.value]) + rest;
      done := done + [loaded.value];
    }
    assert identifiers[|identifiers|..] == [] && done + [] == done;
    err := None;
  }

  /**
   * `fixrConf.load`: the schemas (tables, then functions of each), then the data
   * files, returning at the first failure together with what was built so far.
   */
  method Load(c: Conf, files: map<string, string>, syntax: string -> Option<Node>) returns (def: Def, err: Option<LoadError>)
    ensures (def, err) == LoadResult(c, files, syntax)
  {
    var schemas, data := [], [];
    schemas, err := LoadSchemaLoop(c.path, c.schemas, files);
    if err.Some? {
      return Def(schemas, []), err;
    }
    data, err := LoadDataLoop(c.path, c.data, files, syntax);
    def := Def(schemas, data);
  }
}
