# fixrupr in Dafny

fixrupr sets up and tears down MySQL fixture databases. A configuration lists
schemas, each with table and function DDL files, and data files of seed rows.
`SetUp` creates every schema under a per-run prefix (`z_<host>_<seconds>`),
records each one in a provenance table, runs its DDL, and inserts the rows of
each data file with one multi-row `INSERT`. `TearDown` drops the schemas
again. A separate package, prefixr, rewrites `{{pf:name}}` placeholders in
queries into prefixed schema names.

The model has these modules:

- `Errors` (error.go) is the `dbError` record and `newDbError`.
- `Text` holds the Go string utilities the core relies on: string order and
  `sort.Strings`, `strings.Join`, `strings.Split` on one character,
  `strings.Replace` of every occurrence, and `%d`.
- `Conf` (conf.go) covers the definition records, YAML cell normalisation
  (`UnmarshalYAML`), and `fixrConf.load` over a map from file paths to file
  texts.
- `Insert` (db.go) covers `getInsertFields`, `generateInsert`, and the
  statement text and parameters `load` sends.
- `Db` (db.go and fixrupr.go) covers the connection, the runner class `Fixr`
  with `schema`, `exec`, `table`, `function`, `load`, `create`, `insert` and
  `drop`, and fixrupr.go's `SetUp`, `TearDown` and `GetPrefix`.
  - The connection is a class that logs every `Exec` call. It answers each
    call through a `verdict` function of the statements issued before it and
    of the statement itself. The test suite's mock is the verdict that never
    fails.
  - Each lifecycle method is proved against a specification function:
    - `CreatePlan`, `InsertPlan` and `SchemaPlan` list the statements in
      order.
    - `FailFast` runs a plan until its first failure.
    - `DropFrom` is drop's best-effort run, in which the last error wins.
  - Lemmas relate these functions to the log: which statements were issued,
    when a run succeeds, and which error is returned.
- `Prefixr` (prefixr/prefixr.go) covers the three placeholder passes. Each
  pass is a hand-written leftmost, shortest-match scanner. The module also
  proves a theorem about every query built from text and placeholders.
- `Fixrupr` (fixrupr.go) covers `getPrefix`, with the host name lookup and
  the clock as parameters.

Where the code and its tests or documentation disagree, the model follows
the code:

- db.go declares its methods on `fixr` (db.go:16), while fixrupr.go declares
  `Fixr` (fixrupr.go:19). The model has one class, `Db.Fixr`.
- The provenance statements hard-code `zombie.schemas` (db.go:60, db.go:79).
  db_test.go:46 and db_test.go:103 expect a table named after `schemaName`.
  The model keeps `zombie.schemas`. It also keeps `schemaName` as a field
  that nothing reads.
- When the provenance update fails, `drop` builds its `dbError` with an empty
  parameter list, although the statement was sent two arguments (db.go:63).
  The model does the same.
- `load` (conf.go:46-101) returns the definition built so far together with
  the error that stopped it. The model returns both.
- An identifier without a `.` makes `pieces[1]` panic (conf.go:88). The
  model turns this into the error `IndexPanic`.
- In prefixr.go, the method `Prefixr.Prefix` delegates to the package
  function `Prefix`. In Dafny, a member of datatype `Prefixr` cannot name the
  module's `Prefix`, so the delegation runs the other way: the datatype
  member holds the three passes and the module function calls it.
  `PrefixrDelegates` states that the two agree.

## Model

| member | source | states |
|---|---|---|
| Errors.NewDbError | error.go:9-11 | the record keeps the query, the parameters (same length and order) and the cause as given; its `Error()` is the cause's message |
| Errors.DbError.Error | error.go:13-17 | the message is the cause's message only, never the query or parameters |
| Text.LessTransitive | db.go:171 | Go's string order, used by `sort.Strings`, is transitive |
| Text.LessTotal | db.go:171 | any two different strings are ordered one way or the other |
| Text.InsertSorted | db.go:171 | the insertion step of the sort keeps a sequence sorted and adds exactly one copy of the new element |
| Text.SortedSet | db.go:164-171 | the ascending listing of a finite set of strings is strictly sorted and lists exactly that set |
| Text.StrictlySortedUnique | db.go:168-171 | two strictly sorted listings of one set are equal, so the column list does not depend on map iteration order |
| Text.Split | conf.go:85 | splitting gives at least one piece |
| Text.SplitWithoutSeparator | conf.go:85 | a string without `.` is its own single piece |
| Text.SplitAtFirst | conf.go:85-88 | the first piece is everything before the first separator, and the rest is split again |
| Text.SplitHasSecond | conf.go:85-88 | there is a second piece exactly when the separator occurs |
| Text.JoinSplit | conf.go:85 | joining the pieces with the separator gives back the identifier |
| Text.ReplaceAllAbsent | db.go:108 | DDL without `{{schema}}` is sent unchanged |
| Text.ReplaceAllAtFront | db.go:108 | an occurrence of the placeholder is replaced and the scan goes on after it |
| Text.ReplaceAllCopies | db.go:108 | text without the placeholder's first character is copied as it is |
| Text.Digits | fixrupr.go:99 | `%d` of a natural number is a non-empty string of digits |
| Text.DigitsRoundTrip | fixrupr.go:99 | reading the digits back gives the number |
| Text.DecimalRoundTrip | fixrupr.go:99 | reading `%d` of any integer back, minus sign included, gives the integer |
| Conf.UnmarshalYaml | conf.go:119-150 | it fails exactly on a sequence or a mapping whose `value`, `column` or `param` has the wrong type, and then leaves the receiver alone; a scalar sets the value and `isParameter` and keeps the column; a mapping copies `value` and `column`, and `isParameter` is `param` when given and true otherwise; every success sets `notNil` |
| Conf.DecodeCell | conf.go:119-150 | a YAML null leaves the zero record; a scalar becomes `(isParameter, notNil, value, column) = (true, true, text, "")`; `notNil` holds exactly when the node is not null |
| Conf.DecodeRow | conf.go:36-37 | a row has the mapping's keys, each decoded as a cell; `notNil` marks exactly the non-null cells; decoding succeeds exactly when every cell decodes |
| Conf.DecodeRows | conf.go:91 | a decoded document has one row per item, each the decoding of its item |
| Conf.ReadAllSpec | conf.go:60-74 | reading a list of files succeeds exactly when all are present, gives their texts in listed order, and otherwise reports the first missing path |
| Conf.FirstMissingAppend | conf.go:60-74 | the first missing file of the tables-then-functions list lies in the tables when one is missing there, and otherwise in the functions |
| Conf.ReadSchemaSpec | conf.go:59-76 | a schema is read with every table text and then every function text in listed order, from `<path>/schema/<name>/tables/<t>.sql` and `<path>/schema/<name>/functions/<f>.sql`, or the first missing of those files is reported |
| Conf.LoadSchema | conf.go:59-76 | the loop body builds the schema record that `ReadSchema` specifies, or returns the path it could not read |
| Conf.LoadSchemaLoop | conf.go:58-77 | the schema loop returns the schemas and the error `LoadSchemas` specifies |
| Conf.LoadSchemasSpec | conf.go:58-77 | the schemas loaded are complete and in configuration order; loading stops at the first schema with a missing file and reports that file |
| Conf.LoadSchemasSucceedsIff | conf.go:58-77 | the schema half succeeds exactly when every table and function file of every schema is present |
| Conf.SplitFront | conf.go:85 | the first piece holds no separator; with two or more pieces the identifier is the first piece, the separator and the rest, and the rest splits into the remaining pieces |
| Conf.SplitFirstPiece | conf.go:85 | the first piece of a split is the input up to the first separator, or all of it when there is none |
| Conf.SplitNamesIdentifier | conf.go:85-89 | an identifier with a `.` names as schema its first piece and as table its second, with any suffix ignored |
| Conf.IdentifierHasDot | conf.go:85-89 | an identifier that names a schema and a table contains a `.` |
| Conf.LoadDataFile | conf.go:80-97 | one iteration of the data loop gives what `LoadOne` specifies |
| Conf.LoadOneSpec | conf.go:80-97 | a data file loads exactly when `<path>/data/<id>.yml` is present, the identifier has a `.` and the text decodes; otherwise the error is, in that order, an unreadable file, the index panic, or a decoding error |
| Conf.LoadDataLoop | conf.go:79-98 | the data loop returns the data sets and the error `LoadData` specifies |
| Conf.LoadDataSpec | conf.go:79-98 | the data sets loaded are complete and in configuration order; loading stops at the first data file that fails, with that file's error |
| Conf.LoadDataSucceedsIff | conf.go:79-98 | the data half succeeds exactly when every data file is present, named with a `.`, and decodable |
| Conf.Load | conf.go:46-101 | `load` returns the definition and error that `LoadResult` specifies |
| Conf.LoadCharacterized | conf.go:46-101 | `load` succeeds exactly when every file it needs is usable, and then has one entry per configured schema and data file; every entry it returns is complete; no data is loaded when a schema failed |
| Insert.QuoteInjective | db.go:165 | quoting column names with backticks keeps different names different |
| Insert.ColumnsMembers | db.go:154-162 | a column is listed exactly when some field of some row goes to it, through its `column` override or its own name |
| Insert.SortStrings | db.go:171 | `sort.Strings` returns a sorted permutation of its input |
| Insert.GetInsertFields | db.go:148-173 | the fields are the quoted destination columns of all rows, each once, strictly ascending by quoted name, so they depend only on the set of columns |
| Insert.QuotedOrderDiffers | db.go:164-171 | sorting the quoted names differs from sorting the bare ones: `a` comes before `a-b`, but `` `a-b` `` comes before `` `a` `` |
| Insert.Render | db.go:189-204 | an absent column or a cell with `notNil` false gives `?` with a nil parameter; a `notNil` parameter cell gives `?` with its value; any other cell is inlined verbatim and binds nothing |
| Insert.RowValues | db.go:189-205 | a row has exactly one value entry per field |
| Insert.GenerateInsert | db.go:176-208 | each row's values and its parameters follow the sorted fields, one rendered column at a time |
| Insert.IndexStep | db.go:180-187 | each field of a row with distinct destinations is indexed under its quoted destination |
| Insert.ColumnIsCell | db.go:180-190 | the index finds a column exactly when some cell of the row goes to it, and finds that cell |
| Insert.PlaceholdersMatchParams | db.go:189-205 | a row binds exactly one parameter per `?` in its value list, when no inline cell is spelled `?` |
| Insert.InsertPlaceholdersMatchParams | db.go:122-140 | the whole statement binds exactly as many parameters as its value lists hold `?` |
| Insert.PlaceholdersAppend | db.go:128 | placeholder counts add up over concatenated rows |
| Insert.RowGroups | db.go:125-129 | the statement has one parenthesised value group per row |
| Insert.BuildInsert | db.go:122-138 | ``insert into `<prefix>_<schema>`.`<table>` (<fields joined by ",">) VALUES (<row>),(<row>)…``, with the parameters concatenated row by row |
| Db.FailFastFrom | db.go:16-39 | a stop-at-first-failure run ends within the plan, and at its end when nothing failed |
| Db.FailFastSpec | db.go:16-50 | a run without an error got every statement of the plan answered with success; a run with an error stopped right after the first failing statement and wraps that statement's query, arguments and cause |
| Db.FailFastSucceedsIff | db.go:16-50 | a run succeeds exactly when the database accepts every statement of the plan |
| Db.FailFastAppend | db.go:16-50 | running two plans one after the other is running the first and, only when it did not fail, the second after it |
| Db.Conn.Exec | db.go:11-13 | `Exec` appends the statement to the log and returns the verdict on it |
| Db.Fixr.Schema | db.go:74-94 | `schema` sends the provenance insert with `[name, prefix, hostname]` (hostname `<unknown>` when the lookup fails), then `` create schema `<prefix>_<name>` `` only when the insert succeeded; its error wraps the failing statement |
| Db.Fixr.Exec | db.go:107-114 | `exec` sends the DDL with every `{{schema}}` replaced by `<prefix>_<schema>` and no arguments, and wraps a failure with empty parameters |
| Db.Fixr.Table | db.go:97-99 | `table` is `exec` |
| Db.Fixr.Function | db.go:102-104 | `function` is `exec` |
| Db.Fixr.Tables | db.go:23-28 | the table loop runs the tables' DDL in order, stopping at the first failure |
| Db.Fixr.Functions | db.go:30-35 | the function loop runs the functions' DDL in order, stopping at the first failure |
| Db.Fixr.CreateSchema | db.go:17-36 | one schema's statements: `schema`, then its tables, then its functions, stopping at the first failure |
| Db.Fixr.Create | db.go:16-39 | `create` performs `CreatePlan` over the schemas in order, stopping at the first failure |
| Db.CreatePlanLength | db.go:16-39 | `create` plans 2 + \|tables\| + \|functions\| statements per schema |
| Db.Fixr.Load | db.go:117-145 | a data set without rows sends nothing and returns nil; otherwise `load` sends one insert with the statement and parameters of `BuildInsert`, and a failure wraps both |
| Db.Fixr.Insert | db.go:42-50 | `insert` performs one insert per non-empty data set, in order, stopping at the first failure |
| Db.InsertPlanLength | db.go:42-50 | `insert` plans exactly as many statements as there are data sets with rows |
| Db.Fixr.SetUp | fixrupr.go:62-72 | `SetUp` performs the `create` plan and then, only if that succeeded, the `insert` plan; its error is the first failure |
| Db.DropOneSpec | db.go:55-65 | per schema, `drop` sends the drop statement and, only when it succeeded, the provenance update; the error of either wraps the failing query with empty parameters |
| Db.DropOneAnswered | db.go:55-65 | an iteration of `drop` in which nothing failed sent exactly the drop statement and the provenance update |
| Db.DropPlan | db.go:53-71 | the statements of a drop without failures: 2 per schema |
| Db.DropExtends | db.go:53-71 | `drop` sends between one and two statements per schema, after the earlier log |
| Db.DropIssuesAll | db.go:53-71 | `drop` sends every schema's drop statement, whatever failed before |
| Db.DropSucceedsIff | db.go:53-71 | `drop` returns nil exactly when the database accepts every statement it sent |
| Db.DropWithoutFailure | db.go:53-71 | when nothing fails, `drop` sends exactly the drop plan: for each schema in order, the drop and then the update |
| Db.DropLastError | db.go:53-71 | the error `drop` returns comes from the last statement that failed |
| Db.Fixr.Drop | db.go:53-71 | `drop` leaves the log and returns the error that `DropFrom` specifies |
| Db.Fixr.TearDown | fixrupr.go:75-79 | `TearDown` returns exactly the result of `drop` |
| Db.Fixr.GetPrefix | fixrupr.go:81-83 | the getter returns the stored prefix unchanged |
| Prefixr.FindClose | prefixr/prefixr.go:56 | the lazy scan for a placeholder's body ends where the closing literal starts |
| Prefixr.FindCloseSpec | prefixr/prefixr.go:56-70 | the scan finds the shortest non-empty body without a newline that is followed by the closing literal, and finds none exactly when there is none, as `.+?` does |
| Prefixr.MatchAtSpec | prefixr/prefixr.go:56-70 | a match starts at a position exactly when the opening literal does and a body follows it; the body taken is the shortest |
| Prefixr.Step | prefixr/prefixr.go:57-59 | each step of a pass consumes at least one character |
| Prefixr.PassMatch | prefixr/prefixr.go:57-59 | a match at the front becomes its identifier, and the pass goes on after the match |
| Prefixr.PassSkip | prefixr/prefixr.go:57-70 | text in which no match starts is copied unchanged |
| Prefixr.PassSkipChar | prefixr/prefixr.go:57-70 | text without the first character of the opening literal is copied unchanged |
| Prefixr.FindCloseAt | prefixr/prefixr.go:56-70 | a body free of newlines and of the closing literal's first character is found as a whole |
| Prefixr.PassPlaceholder | prefixr/prefixr.go:56-70 | a placeholder at the front becomes `` `prefix_name` ``, or `` `name` `` for the empty prefix |
| Prefixr.IdentifierNoBrace | prefixr/prefixr.go:51-54 | a rewritten identifier holds no `{` when the prefix and name hold none |
| Prefixr.QuotedPassSkips | prefixr/prefixr.go:61-65 | the pre-quoted pass leaves text without `{` alone, identifiers from the first pass and plain text with backticks alike, unless a final backtick is followed by `{` |
| Prefixr.InnerPassSkipsBare | prefixr/prefixr.go:56-59 | the first pass leaves bare placeholders alone |
| Prefixr.InnerPassSkipsQuoted | prefixr/prefixr.go:56-59 | the first pass leaves pre-quoted placeholders alone |
| Prefixr.PassPiece | prefixr/prefixr.go:56-70 | each pass rewrites a placeholder of its own form and leaves text, other forms and earlier identifiers alone |
| Prefixr.PassStage | prefixr/prefixr.go:56-70 | each pass, in its turn, rewrites exactly the placeholders of its own form |
| Prefixr.PrefixTemplate | prefixr/prefixr.go:49-70 | on every template query (text without `{`, backticks allowed; names without braces, backticks or newlines; no bare placeholder or empty text right after a placeholder or after text ending in a backtick), `Prefix` replaces `{{pf:name}}`, `` `{{pf:name}}` `` and ``{{pf:`name`}}`` alike by `` `prefix_name` `` (`` `name` `` for the empty prefix), with no doubled backticks, and leaves the text unchanged |
| Prefixr.PassUnmatched | prefixr/prefixr.go:57-70 | a pass leaves a query unchanged when its pattern matches at no position, even where the opening literal occurs |
| Prefixr.InnerMatchIsBare | prefixr/prefixr.go:56-67 | wherever ``{{pf:`…`}}`` matches, `{{pf:…}}` matches too |
| Prefixr.QuotedMatchIsBare | prefixr/prefixr.go:61-67 | wherever `` `{{pf:…}}` `` matches, `{{pf:…}}` matches one character on |
| Prefixr.PrefixWithoutPlaceholders | prefixr/prefixr.go:49-70 | a query in which `{{pf:…}}` matches nowhere, such as `{{pf:abc` or one whose body would hold a newline, is returned unchanged for every prefix |
| Prefixr.PrefixrTemplate | prefixr/prefixr.go:30-32 | a `Prefixr` rewrites template queries with the prefix it holds |
| Prefixr.ExampleShapeTemplate | prefixr/prefixr_test.go:22 | text, bare, text, pre-quoted, text, backtick-inside and text pieces form a template query when the texts and names are plain and the first text does not end in a backtick |
| Prefixr.ExampleShapeTarget | prefixr/prefixr_test.go:27 | on that shape the intended result is the texts with the three prefixed identifiers between them |
| Prefixr.ExampleTemplate | prefixr/prefixr_test.go:22 | the test query is a template query for every prefix without `{` |
| Prefixr.ExampleRewrite | prefixr/prefixr_test.go:21-32 | the test query becomes its texts with `` `prefix_blog` ``, `` `prefix_reporing` `` and `` `prefix_schemas` `` between them (no underscore for the empty prefix), for every prefix without `{`, `this-is-my-prefix` and the empty one included |
| Prefixr.TextThenBare | prefixr/prefixr.go:49-70 | text before a bare placeholder, backticks included, is kept and the placeholder rewritten, unless the text ends in a backtick |
| Prefixr.QuotedTextRewrite | prefixr/prefixr.go:49-70 | ``SELECT `id` FROM {{pf:blog}}`` becomes ``SELECT `id` FROM `` followed by the blog identifier |
| Prefixr.PrefixrDelegates | prefixr/prefixr.go:30-32 | `Prefixr{p}.Prefix(q)` equals `Prefix(p, q)` |
| Fixrupr.SanitizedSpec | fixrupr.go:92-93 | sanitizing keeps the length and safe characters, and turns every character outside `[0-9a-zA-Z$_]` into `_` |
| Fixrupr.SanitizedSafe | fixrupr.go:92-93 | a name of safe characters only is kept |
| Fixrupr.SanitizedIdempotent | fixrupr.go:92-93 | sanitizing a second time changes nothing |
| Fixrupr.HostPartSpec | fixrupr.go:91-97 | the host part of a name has min(19, length) characters, all safe, each the name's character or `_` in its place |
| Fixrupr.FallbackHost | fixrupr.go:86-89 | a failed lookup gives the prefix of the host `localhost` |
| Fixrupr.NewPrefixSafe | fixrupr.go:99 | the prefix starts with `z_` and, from 1970 on, consists of safe identifier characters only |
| Fixrupr.NewPrefixTime | fixrupr.go:99 | the Unix time can be read back from the end of the prefix |
| Fixrupr.PrefixForSafe | fixrupr.go:99 | for any host name, the prefix starts with `z_` and, from 1970 on, consists of safe identifier characters only |
| Fixrupr.PrefixForTime | fixrupr.go:99 | for any host name, the Unix time can be read back after `z_`, the host part and `_` |
| Fixrupr.PrefixPerSecond | fixrupr.go:85-100 | runs on one host at different seconds get different prefixes |

## Left out

- File system and decoding. `ioutil.ReadFile` is a map from paths to texts. The YAML library is a `syntax` function from text to nodes, together with its conversion of nodes into Go values (`AsString`, `AsBoolPointer`, `AsCellShape`). Converting scalars to strings, such as `1` to `"1"`, happens in that library.
- `loadConfig` (conf.go:103-117) and `New` (fixrupr.go:30-58) are not modelled. They read JSON and open the database, and the model starts from the decoded configuration and a connection.
- The `database/sql` driver is the connection class: a statement log plus a verdict function of the history.
- `os.Hostname` is a field of the runner (`Fixr.host`) for `schema`, and a parameter for `getPrefix`. `time.Now` is a parameter.
- `fmt.Println` in conf.go:94 is debug output and is not modelled.
- `sort.Strings` is modelled as an insertion sort proved against its result (sorted, a permutation), not as Go's algorithm.
- `getInsertFields` walks a Go map in unspecified order. The model picks the next entry with `:|`, so its proof holds whatever the order.
- Insert.GenerateInsert, Insert.BuildInsert, Db.Fixr.Load, Db.Fixr.Insert, Db.Fixr.SetUp: these require that no two fields of one row go to the same column. When two do, which cell Go's `columns` map keeps depends on iteration order (db.go:180-187).
- Go strings are UTF-8 bytes, and the model's strings are sequences of characters. getPrefix's regular expression replaces whole runes. After that every character is ASCII, so its byte-length cut agrees with the model's character cut. Placeholder bodies sliced by bytes in prefixr.go are whole characters, because the literals around them are ASCII.
- Go's general regular expression engine is not modelled. Each of the fixed patterns is a hand-written scanner.
- Prefixr.ExampleRewrite: states the test query's rewrite with the expected text written as its parts (the texts and `Identifier` of each name); the equality with the single string literals at prefixr_test.go:27 and :31, and the test query as one literal, are not stated, because comparing literals of that length is beyond what the verifier does quickly.
- Prefixr.PrefixTemplate, Prefixr.PrefixrTemplate: proved for template queries only. A backtick right before a bare placeholder, whether it ends a text or closes an identifier made by the first pass, is read by the second pattern (prefixr.go:61) as the start of `` `{{pf:``, and that match then runs to the next `}}` followed by a backtick. With the prefix `p`, the three passes turn ``{{pf:`a`}}{{pf:b}}{{pf:`c`}}`` into `` `p_a`p_b`p_c` `` and ``x`{{pf:a}} JOIN `{{pf:b}}` `` into ``x`p_a}} JOIN `{{pf:b` ``. Queries of those shapes are outside the template theorem, and so are text with `{`, placeholder names with braces, backticks or newlines, and a prefix with `{`. Empty text right after a placeholder is also excluded, only to keep the condition local.
- Some loops of the source are split into helper methods so that each proof stays small: `LoadSchema`/`LoadSchemaLoop`/`LoadDataFile`/`LoadDataLoop` in conf.go, and `CreateSchema`/`Tables`/`Functions` in `create`. The statements they issue and their order are those of the source.
- The test files (gocheck suites, temporary file helpers) are not modelled.
