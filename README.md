# compass-import-export core, modelled in Dafny

This project models the logic at the centre of the Compass import/export
plugin and proves properties of it. It covers four pieces.

- **The import job's store module** (`Import`, in `import_module.dfy`):
  - the initial state and the reducer, which moves a job through `UNSPECIFIED`, `STARTED`, `COMPLETED`, `CANCELED` and `FAILED` and keeps the progress, written count, error, preview fields, stream handles and option flags;
  - the `onProgress` action creator;
  - the `cancelImport` command.
  Most reducer branches build a new record, so the reducer is the pure function `Reduce` on an `ImportState` datatype. Two branches are different: `TOGGLE_INCLUDE_FIELD` and `SET_FIELD_TYPE` change the preview's field records in place, and the old and new state share those records. So field records are a class (`FieldRecord`). The method `Dispatch` computes the new state and makes those in-place changes through `ToggleRecords` and `TypeRecords`. `cancelImport` is the method `CancelImport`: it unpipes the source stream (a `Stream` object) and returns the actions it dispatches.
- **The BSON/CSV value codec**, as its tests state it (`BsonCsv`, in `bson_csv.dfy`, with `DecimalText` for integer text):
  - how a typed value becomes a CSV cell;
  - how nested plain objects become dot-path columns (`Serialize`);
  - the `fromString` readers for booleans, strings, numbers and object ids.
  Documents are ordered entry lists, and the extended-JSON encoder used for arrays is a function parameter.
- **The export dialog's field-selection handlers** (`ExportSelectFields`), over a map from field name to a 0/1 bit. Each handler copies its input map, updates the copy step by step and hands on the copy. The models are methods on map values, so the caller's map never changes.
- **`getShellJS`**, as its tests state it (`ShellJs`): the mongo-shell text of an export query, built from a namespace and already-rendered filter and projection text.

`Wrappers` holds the `Option` type.

The source of the codec and of `getShellJS` is not part of this model. Only their test files are, so those two models follow the asserted behaviour.

Two behaviours of the reducer are worth stating plainly, because a reader might expect otherwise:

- The reducer accepts STARTED in any status (src/modules/import.js:229-238).
- After a cancel, a late PROGRESS still sets `progress` and `docsWritten`, and a late FINISHED still sets `docsWritten`. Only the status is latched (src/modules/import.js:240-259).
- FAILED keeps `source` and `dest` (src/modules/import.js:221-227). Closing the dialog cancels first (src/components/import-modal/import-modal.jsx:77-80), and the cancel guard then finds both streams (src/modules/import.js:399-407), so a failed job that is closed ends CANCELED.

## Model

| member | source | states |
|---|---|---|
| Import.Reduce | src/modules/import.js:134-294 | the reducer, one case per action type, on state values; its one-step lemmas below, one per action type, give each branch's writes and frame, and the run lemmas prove the failure-has-error invariant, the latched terminal status and the progress cap over every sequence of actions |
| Import.InitialStateIsIdle | src/modules/import.js:54-72 | `INITIAL_STATE` is closed, UNSPECIFIED, without error, progress 0, nothing written, no fields; it satisfies the failure-has-error invariant, is not terminal, and gives `cancelImport` nothing to cancel |
| Import.OnProgress | src/modules/import.js:79-84 | the progress action never carries more than 100; values at or below 100 pass through unchanged, larger ones become 100; the written count is copied and the error is null |
| Import.ProgressStaysCapped | src/modules/import.js:79-84 | if the state's progress is at most 100 and every progress action in a run carries at most 100, the progress after the run is at most 100 (OPEN, STARTED and FILE_SELECTED reset it to 0) |
| Import.ReachableProgressCapped | src/modules/import.js:79-84 | from the initial state, any run whose progress actions are built by `onProgress` never shows more than 100 |
| Import.Values | src/modules/import.js:156-181 | the contents of the field-record list, one value per record in order |
| Import.Toggled | src/modules/import.js:156-167 | TOGGLE_INCLUDE_FIELD on record contents: same length and order; matching paths have `checked` flipped; every other record is unchanged |
| Import.Typed | src/modules/import.js:169-181 | SET_FIELD_TYPE on record contents: same length and order; matching paths become checked with the new type; every other record is unchanged |
| Import.ToggledAsListed | src/modules/import.js:156-167 | TOGGLE_INCLUDE_FIELD as the map over the list runs it: a record whose path matches is flipped once per listing, so it ends flipped exactly when it is listed an odd number of times; other records are unchanged |
| Import.ToggledAsListedDistinct | src/modules/import.js:156-167 | when every record is listed once, the in-place toggle is exactly `Toggled` of the contents |
| Import.ToggleRecords | src/modules/import.js:156-167 | mutating the shared records in place, for any list (records listed more than once included), leaves their contents equal to `ToggledAsListed` of the old contents |
| Import.TypeRecords | src/modules/import.js:169-181 | mutating the shared records in place leaves their contents equal to `Typed` of the old contents, even when a record is listed twice |
| Import.Dispatch | src/modules/import.js:134-294 | for any state and action, the new state is the reducer's result; the two field actions keep the state value and change the shared records as `ToggledAsListed`/`Typed` say; every other action leaves the records untouched |
| Import.FieldActionsKeepState | src/modules/import.js:156-181 | TOGGLE_INCLUDE_FIELD and SET_FIELD_TYPE return the state value unchanged: the same record objects (changed in place by `Dispatch`) and every other field kept |
| Import.FieldActionsProperties | src/modules/import.js:156-181 | toggling the same path twice restores every record; setting the same type twice equals setting it once; non-matching records and all paths are preserved |
| Import.FinishedLatchesTerminal | src/modules/import.js:248-259 | FINISHED sets COMPLETED exactly when there is no error and the job is not canceled; otherwise the status is left as it was; it always sets the written count, clears both streams, and changes nothing else |
| Import.CanceledBranch | src/modules/import.js:261-268 | CANCELED sets status CANCELED and clears both streams; nothing else changes |
| Import.FailedBranch | src/modules/import.js:221-227 | FAILED records the error and sets status FAILED; the streams and everything else are kept |
| Import.StartedBranch | src/modules/import.js:229-238 | STARTED clears the error, resets progress to 0, sets status STARTED and stores the new streams; nothing else changes |
| Import.FileSelectedBranch | src/modules/import.js:206-219 | FILE_SELECTED records the file's name, type, stats and multiline flag; it resets status, progress and written count and clears both streams; every other field (error, fields, open flag, step, delimiter, options, preview values, size estimate) is kept |
| Import.OpenCloseUnrecognized | src/modules/import.js:273-293 | OPEN yields the initial state with the dialog open; CLOSE changes only the open flag; an unknown action returns the state unchanged |
| Import.ProgressBranch | src/modules/import.js:240-246 | PROGRESS changes only the percentage and the written count; the status and the error are untouched, and the action's own error is ignored |
| Import.GuessBranch | src/modules/import.js:135-140 | SET_GUESSTIMATED_TOTAL records the estimate; nothing else changes |
| Import.DelimiterBranch | src/modules/import.js:142-147 | SET_DELIMITER records the delimiter; nothing else changes |
| Import.StepBranch | src/modules/import.js:149-154 | SET_STEP moves to the given step; nothing else changes |
| Import.PreviewBranch | src/modules/import.js:183-190 | SET_PREVIEW replaces the fields and values and marks the preview loaded; nothing else changes |
| Import.StopOnErrorsBranch | src/modules/import.js:192-197 | SET_STOP_ON_ERRORS records the flag; nothing else changes |
| Import.IgnoreBlanksBranch | src/modules/import.js:199-204 | SET_IGNORE_BLANKS records the flag; nothing else changes |
| Import.FileTypeBranch | src/modules/import.js:287-292 | FILE_TYPE_SELECTED records the file type; nothing else changes |
| Import.FailureHasErrorPreserved | src/modules/import.js:134-294 | "status FAILED implies an error is recorded" holds after every sequence of actions from a state where it holds |
| Import.ReachableFailureHasError | src/modules/import.js:54-72 | every state reachable from the initial state that has FAILED also holds an error |
| Import.TerminalStateIsLatched | src/modules/import.js:248-259 | from CANCELED, or FAILED with its error, no sequence of actions without STARTED, FILE_SELECTED or OPEN ever leads to COMPLETED: the job stays CANCELED or FAILED with an error |
| Import.CanceledSurvivesLateEvents | src/modules/import.js:240-268 | a canceled job stays exactly CANCELED under any late progress, finish or size-estimate events, and a late finish still sets the written count |
| Import.CancelDispatch | src/modules/import.js:399-407 | the actions `cancelImport` dispatches: none exactly when the source or the destination stream is missing, otherwise the single CANCELED |
| Import.CancelImport | src/modules/import.js:394-409 | dispatches nothing unless both a source and a destination stream are present; otherwise unpipes the source and dispatches exactly one CANCELED |
| Import.CancelGuard | src/modules/import.js:394-409 | without both streams the state is unchanged; with both, the job becomes CANCELED; a second cancel then dispatches nothing |
| Import.FailedThenCancel | src/modules/import.js:221-227 | a FAILED job keeps both streams, so the cancel guard still dispatches CANCELED and the job ends CANCELED |
| Import.CancelThenLateFinish | src/modules/import.js:248-268 | a FINISHED that arrives after a user cancel leaves the job CANCELED, and the written count is that of the finish |
| Import.Stream.Unpipe | src/modules/import.js:404 | after unpiping, the source no longer feeds the pipeline |
| DecimalText.ParsePrintedInt | src/utils/bson-csv.spec.js:27-29 | the decimal text of every integer reads back as that integer |
| BsonCsv.ObjectIdToString | src/utils/bson-csv.spec.js:119-124 | `ObjectId.toString()` writes two lower-case hex digits per byte, so 24 characters for an id; `ObjectIdRoundTrip` and `ObjectIdStringRoundTrip` show it inverse to `fromString` |
| BsonCsv.ObjectIdFromString | src/utils/bson-csv.spec.js:119-124 | `ObjectId.fromString` accepts exactly 24-character hexadecimal strings |
| BsonCsv.ObjectIdRoundTrip | src/utils/bson-csv.spec.js:119-124 | every 12-byte object id survives `toString` followed by `fromString` |
| BsonCsv.ObjectIdStringRoundTrip | src/utils/bson-csv.spec.js:119-124 | `fromString` then `toString` gives back the hex text lower-cased, so lower-case hex text such as the test's comes back unchanged |
| BsonCsv.ScalarText | src/utils/bson-csv.spec.js:35-68 | the cell text of a scalar value; the lemmas below pin the asserted cells (null, undefined, booleans, numbers, Longs, regular expressions), show that number, Long and boolean cells read back, and that a regular expression's text determines it |
| BsonCsv.NullUndefinedDistinct | src/utils/bson-csv.spec.js:48-61 | `null` and `undefined` become "null" and "undefined"; the two differ from each other and from the blank cell |
| BsonCsv.ScalarCellsPinned | src/utils/bson-csv.spec.js:105-115 | booleans become "true"/"false"; also the number 925000 (lines 35-47), Long 245 (lines 127-131) and both regular expressions (lines 62-68, 139-149) get the asserted text |
| BsonCsv.RegExpTextInjective | src/utils/bson-csv.spec.js:139-149 | the `/pattern/flags` text of a regular expression determines its pattern and flags |
| BsonCsv.BooleanFromString | src/utils/bson-csv.spec.js:14-24 | `Boolean.fromString`; `BooleanFromStringGrammar` states its grammar in both directions and the asserted inputs |
| BsonCsv.BooleanFromStringGrammar | src/utils/bson-csv.spec.js:14-24 | `Boolean.fromString` is true exactly for case-insensitive "true", and false exactly for "" or case-insensitive "false"; the asserted inputs give their asserted values |
| BsonCsv.BooleanRoundTrip | src/utils/bson-csv.spec.js:105-115 | the cell of a boolean reads back as that boolean |
| BsonCsv.StringFromString | src/utils/bson-csv.spec.js:9-11 | `String.fromString` returns a string unchanged, and a number's text reads back as that number |
| BsonCsv.NumberFromString | src/utils/bson-csv.spec.js:27-29 | `Number.fromString` gives a number exactly when the text is integral decimal text |
| BsonCsv.NumberRoundTrip | src/utils/bson-csv.spec.js:127-131 | the cell of a number or Long reads back as that number |
| BsonCsv.NativeReadersPinned | src/utils/bson-csv.spec.js:27-29 | `Number.fromString("1")` is 1 and `String.fromString(1)` is "1" |
| BsonCsv.Serialize | src/utils/bson-csv.spec.js:35-102 | `serialize(doc)`, the flat row; `KeysAreLeafPaths` characterises its keys against the document's leaf paths, the per-entry lemmas give each key's cell, and the two pinned documents give exactly the asserted rows |
| BsonCsv.Prefixed | src/utils/bson-csv.spec.js:85-102 | a nested object's columns get its key and a dot in front, with cells and order kept |
| BsonCsv.KeysAreLeafPaths | src/utils/bson-csv.spec.js:85-102 | a key is in the serialized row exactly when it is the dot-joined path of a leaf of the document (a scalar, an array or an empty object) |
| BsonCsv.EntryOwnsItsColumns | src/utils/bson-csv.spec.js:85-102 | with distinct dot-free top-level keys, a key at or below a top-level entry gets exactly the cell that entry's own columns give it |
| BsonCsv.ScalarEntryCell | src/utils/bson-csv.spec.js:35-47 | a top-level scalar keeps its key and gets its scalar text; a string value is written unchanged |
| BsonCsv.ArrayEntryCell | src/utils/bson-csv.spec.js:69-83 | an array gives exactly one column: its key holds the extended-JSON text, and no dot path below that key exists |
| BsonCsv.NestedEntryCells | src/utils/bson-csv.spec.js:85-102 | a nested plain object flattens recursively: `key.q` is present exactly when `q` is in the object's own row, with the same cell |
| BsonCsv.DotNotationExample | src/utils/bson-csv.spec.js:85-102 | the test's plain-object document produces exactly the asserted four-column row |
| BsonCsv.TransferRow | src/utils/bson-csv.spec.js:35-47 | the test's house-sale document produces exactly the asserted row: strings unchanged, the price as "925000" |
| ExportSelectFields.XorOne | src/components/export-select-fields/export-select-fields.jsx:35 | `b ^ 1` on a bit is `1 - b` |
| ExportSelectFields.IsEveryFieldChecked | src/components/export-select-fields/export-select-fields.jsx:62-66 | holds exactly when every field's bit is 1, and so holds for no fields |
| ExportSelectFields.Flipped | src/components/export-select-fields/export-select-fields.jsx:33-37 | flipping a field gives it `1 - v` (1 when it was absent) and leaves every other key and bit unchanged |
| ExportSelectFields.FieldCheckboxChange | src/components/export-select-fields/export-select-fields.jsx:33-37 | the checkbox handler hands on the flipped copy |
| ExportSelectFields.AllSetTo | src/components/export-select-fields/export-select-fields.jsx:39-49 | the same keys, every bit set to the one value |
| ExportSelectFields.HeaderCheckboxChange | src/components/export-select-fields/export-select-fields.jsx:39-49 | the key-by-key loop hands on every field set to 0 when all were checked, and to 1 otherwise |
| ExportSelectFields.HeaderToggleOutcome | src/components/export-select-fields/export-select-fields.jsx:39-49 | after the header toggle the keys are the same; all bits are 0 if all were checked; otherwise all are checked; a non-empty fully checked selection ends up not fully checked |
| ExportSelectFields.WithField | src/components/export-select-fields/export-select-fields.jsx:51-59 | adding a name gives a map containing it; a new name is checked and every existing field keeps its bit |
| ExportSelectFields.AddFieldSubmit | src/components/export-select-fields/export-select-fields.jsx:51-59 | a key press other than Enter hands on nothing; Enter hands on the map with the field added |
| ExportSelectFields.FlipTwice | src/components/export-select-fields/export-select-fields.jsx:33-37 | flipping a listed field twice restores the selection |
| ExportSelectFields.AddExistingFieldIsNoOp | src/components/export-select-fields/export-select-fields.jsx:53-55 | adding a name that is already listed changes nothing |
| ShellJs.GetShellJS | src/utils/get-shell-js.spec.js:4-47 | the shell text of a query; the lemmas below give its shape with a filter only, with a projection, with a limit, and with a limit and a skip, and the four asserted texts |
| ShellJs.CollectionName | src/utils/get-shell-js.spec.js:5-8 | the collection part of a namespace; `CollectionNameIsTail` and `NamespaceSplit` establish what it returns |
| ShellJs.CollectionNameIsTail | src/utils/get-shell-js.spec.js:5-8 | the collection part is a tail of the namespace, and empty for a namespace without a '.' |
| ShellJs.NamespaceSplit | src/utils/get-shell-js.spec.js:5-8 | a namespace `db.coll` whose database part has no dot splits into `db` and `coll` (the collection is everything after the first dot) |
| ShellJs.PeopleNamespace | src/utils/get-shell-js.spec.js:5-8 | "test.people" names the collection "people" |
| ShellJs.FilterOnly | src/utils/get-shell-js.spec.js:4-10 | with only a filter the text is `db.<coll>.find(` plus a newline, the indented filter, a newline and `)`, with nothing after it |
| ShellJs.WithProjection | src/utils/get-shell-js.spec.js:11-21 | a projection follows the filter after a comma, on its own indented line |
| ShellJs.LimitOnly | src/utils/get-shell-js.spec.js:22-34 | for any query, a limit alone appends `.limit(n)` after the find call's closing parenthesis |
| ShellJs.LimitPrecedesSkip | src/utils/get-shell-js.spec.js:35-47 | with both a limit and a skip, the text ends with `.limit(n)` then `.skip(m)`, appended to the rendering without them |
| ShellJs.SimpleQueryPinned | src/utils/get-shell-js.spec.js:4-10 | the simple query renders exactly as asserted |
| ShellJs.ProjectionQueryPinned | src/utils/get-shell-js.spec.js:11-21 | the query with a projection renders exactly as asserted |
| ShellJs.LimitQueryPinned | src/utils/get-shell-js.spec.js:22-34 | a limit of 100 appends `.limit(100)` exactly as asserted (the test's title says "skip") |
| ShellJs.LimitSkipQueryPinned | src/utils/get-shell-js.spec.js:35-47 | limit 100 and skip 1 render as `.limit(100).skip(1)` exactly as asserted (the test's title says "limit") |

## Left out

- The `startImport` stream pipeline, `loadPreviewDocs`, `selectImportFileName`, and the `setDelimiter` / `selectImportFileType` commands are left out. They do file-system checks, MIME lookup and Node stream plumbing. Only the actions they dispatch are modelled.
- The progress percentage and the import-size estimate are left out: they are floating-point arithmetic over byte counts. Progress is a `real` here, so `Math.min` with NaN is not modelled.
- Import.Reduce: the step constants module is not part of this model. The first step is the name "OPTIONS", and the other steps are whatever strings `SET_STEP` carries.
- Event emission to the app registry, the reducer wiring, the logger, and all rendering, focus and scroll handling are not modelled.
- BsonCsv: the module's source is not part of this model. It follows the assertions in its test file. No source lines decide the cases the tests leave open:
  - `Boolean.fromString` returns "no value" for text outside its grammar, so "0" and "1" get none;
  - an empty nested object becomes one extended-JSON column;
  - when two columns collide, the later one wins.
- BsonCsv: the text of the extended-JSON blob is an opaque encoder parameter. Dates are left out, and so are doubles (the `Double` precision test is about IEEE doubles).
- BsonCsv.NumberFromString: numbers are integers. Non-integral JavaScript numbers and the full numeric grammar of `Number(...)` are left out; `Number.fromString` accepts an optional '-' followed by digits.
- BsonCsv.NumberRoundTrip: JavaScript numbers are doubles. Integers beyond 2^53, which do not read back exactly, and the exponent form JavaScript prints from 1e21 up are not modelled; `ScalarText` writes every integer and Long in full decimal digits.
- BsonCsv.ObjectIdFromString: only the 24-hex-digit form is modelled. The raw 12-byte string form that the BSON library also accepts is left out.
- BsonCsv.Serialize: JavaScript's object key order (integer-like keys first) is not modelled. Entries keep their document order.
- BsonCsv.EntryOwnsItsColumns: requires distinct top-level keys without dots. With dotted keys, columns may collide.
- BsonCsv.ScalarEntryCell: requires distinct top-level keys without dots, for the same reason.
- BsonCsv.ArrayEntryCell: requires distinct top-level keys without dots, for the same reason.
- BsonCsv.NestedEntryCells: requires distinct top-level keys without dots, for the same reason.
- ExportSelectFields: values are bits. A field stored with some other number, where `^ 1` would flip the low bit, is outside the model. The position of a newly added key in the object's key order is also not modelled.
- ShellJs.GetShellJS: the source of `getShellJS` is not part of this model. The object-literal rendering of the filter and projection is a library call, so they are inputs already rendered as text. A present limit or skip is always written; whether the source skips a zero is left open by its tests.
