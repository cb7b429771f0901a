/**
 * The import job's store module: its initial state, the reducer that moves
 * the job through UNSPECIFIED -> STARTED -> COMPLETED / CANCELED / FAILED,
 * the progress action creator, and the cancel command's guard.
 *
 * Most reducer branches build a fresh record from the old one. The two field
 * actions instead change the preview's field records in place, and the
 * records are shared by the old and the new state; they are a class here and
 * `Dispatch` does that mutation.
 */
module Import {
  import opened Wrappers

  datatype Status = Unspecified | Started | Canceled | Completed | Failed

  /** A stream of the running pipeline (the file reader or the collection writer). */
  class Stream {
    /** Whether the stream still feeds the stages after it. */
    var piped: bool

    constructor ()
      ensures piped
    {
      piped := true;
    }

    /** `unpipe()`: detach everything downstream, so no further records flow. */
    method Unpipe()
      modifies this
      ensures !piped
    {
      piped := false;
    }
  }

  /** One field of the import preview: its dotted path, whether it is imported, and its target BSON type. */
  class FieldRecord {
    var path: string
    var checked: bool
    var bsonType: string

    constructor (path: string, checked: bool, bsonType: string)
      ensures this.path == path && this.checked == checked && this.bsonType == bsonType
    {
      this.path := path;
      this.checked := checked;
      this.bsonType := bsonType;
    }
  }

  /** The contents of a field record at one moment. */
  datatype FieldValue = FieldValue(path: string, checked: bool, bsonType: string)

  ghost function Records(fields: seq<FieldRecord>): set<FieldRecord>
  {
    set f | f in fields
  }

  function Values(fields: seq<FieldRecord>): (r: seq<FieldValue>)
    reads Records(fields)
    ensures |r| == |fields|
    ensures forall i :: 0 <= i < |fields| ==>
              r[i] == FieldValue(fields[i].path, fields[i].checked, fields[i].bsonType)
  {
    if fields == [] then []
    else [FieldValue(fields[0].path, fields[0].checked, fields[0].bsonType)] + Values(fields[1..])
  }

  /** No record object is listed twice (the preview builds one record per path). */
  predicate DistinctRecords(fields: seq<FieldRecord>)
  {
    forall i, j :: 0 <= i < j < |fields| ==> fields[i] != fields[j]
  }

  datatype FileStats = FileStats(size: nat, mimeType: string)

  datatype ImportError = ImportError(message: string)

  datatype ImportState = ImportState(
    isOpen: bool,
    step: string,
    progress: real,
    error: Option<ImportError>,
    fileName: string,
    fileType: Option<string>,
    fileIsMultilineJSON: bool,
    useHeaderLines: bool,
    status: Status,
    fileStats: Option<FileStats>,
    docsWritten: nat,
    guesstimatedDocsTotal: nat,
    delimiter: string,
    stopOnErrors: bool,
    ignoreBlanks: bool,
    fields: seq<FieldRecord>,
    values: seq<seq<string>>,
    previewLoaded: bool,
    source: Option<Stream>,
    dest: Option<Stream>)

  /** The name of the dialog's first page (the step constants module is not part of this model). */
  const OptionsStep: string := "OPTIONS"

  /** `INITIAL_STATE`; `fileType`, `source` and `dest` are absent from it. */
  const InitialState: ImportState := ImportState(
    isOpen := false, step := OptionsStep, progress := 0.0, error := None,
    fileName := "", fileType := None, fileIsMultilineJSON := false, useHeaderLines := true,
    status := Unspecified, fileStats := None, docsWritten := 0, guesstimatedDocsTotal := 0,
    delimiter := ",", stopOnErrors := false, ignoreBlanks := true,
    fields := [], values := [], previewLoaded := false, source := None, dest := None)

  /** The initial state is an idle job: closed, nothing written, no error, and no import to cancel. */
  lemma InitialStateIsIdle()
    ensures InitialState.status == Unspecified && InitialState.error.None? && !InitialState.isOpen
    ensures InitialState.progress == 0.0 && InitialState.docsWritten == 0 && InitialState.fields == []
    ensures CancelDispatch(InitialState) == [] && FailureHasError(InitialState) && !Terminal(InitialState)
  {
  }

  /** The actions the reducer knows, one per action type, and any other action. */
  datatype Action =
    | SetGuesstimatedTotal(guesstimatedDocsTotal: nat)
    | SetDelimiter(delimiter: string)
    | SetStep(step: string)
    | ToggleIncludeField(path: string)
    | SetFieldType(path: string, bsonType: string)
    | SetPreview(fields: seq<FieldRecord>, values: seq<seq<string>>)
    | SetStopOnErrors(stopOnErrors: bool)
    | SetIgnoreBlanks(ignoreBlanks: bool)
    | FileSelected(fileName: string, fileType: string, fileStats: Option<FileStats>, fileIsMultilineJSON: bool)
    | Fail(failure: ImportError)                                   // FAILED
    | Start(source: Option<Stream>, dest: Option<Stream>)           // STARTED
    | Progress(progress: real, error: Option<ImportError>, docsWritten: nat)
    | Finished(docsWritten: nat)
    | Cancel                                                       // CANCELED
    | Open
    | Close
    | FileTypeSelected(fileType: string)
    | Unrecognized(actionType: string)                             // any type other than the seventeen above

  /** `onProgress`: the progress action, with the percentage capped at 100. */
  function OnProgress(progress: real, docsWritten: nat): (a: Action)
    ensures a.Progress? && a.error.None? && a.docsWritten == docsWritten
    ensures a.progress <= 100.0
    ensures progress <= 100.0 ==> a.progress == progress
    ensures progress > 100.0 ==> a.progress == 100.0
  {
    Progress(if progress < 100.0 then progress else 100.0, None, docsWritten)
  }

  /**
   * The reducer, on state values. For the two field actions the state value
   * is unchanged (the new state lists the same record objects); the records
   * themselves are changed by `Dispatch`.
   */
  function Reduce(s: ImportState, a: Action): ImportState
  {
    match a
    case SetGuesstimatedTotal(n) => s.(guesstimatedDocsTotal := n)
    case SetDelimiter(d) => s.(delimiter := d)
    case SetStep(step) => s.(step := step)
    case ToggleIncludeField(_) => s
    case SetFieldType(_, _) => s
    case SetPreview(fields, values) => s.(values := values, fields := fields, previewLoaded := true)
    case SetStopOnErrors(b) => s.(stopOnErrors := b)
    case SetIgnoreBlanks(b) => s.(ignoreBlanks := b)
    case FileSelected(name, fileType, stats, multiline) =>
      s.(fileName := name, fileType := Some(fileType), fileStats := stats, fileIsMultilineJSON := multiline,
         status := Unspecified, progress := 0.0, docsWritten := 0, source := None, dest := None)
    case Fail(e) => s.(error := Some(e), status := Failed)
    case Start(source, dest) =>
      s.(error := None, progress := 0.0, status := Started, source := source, dest := dest)
    case Progress(p, _, n) => s.(progress := p, docsWritten := n)
    case Finished(n) =>
      var isComplete := !(s.error.Some? || s.status == Canceled);
      s.(status := if isComplete then Completed else s.status, docsWritten := n, source := None, dest := None)
    case Cancel => s.(status := Canceled, source := None, dest := None)
    case Open => InitialState.(isOpen := true)
    case Close => s.(isOpen := false)
    case FileTypeSelected(t) => s.(fileType := Some(t))
    case Unrecognized(_) => s
  }

  /** The state after the actions, in order. */
  function ReduceAll(s: ImportState, acts: seq<Action>): ImportState
    decreases |acts|
  {
    if acts == [] then s else ReduceAll(Reduce(s, acts[0]), acts[1..])
  }

  // ---------------------------------------------------------------------------
  // The field actions, on record contents

  function Toggled(vs: seq<FieldValue>, path: string): (r: seq<FieldValue>)
    ensures |r| == |vs|
    ensures forall i :: 0 <= i < |vs| ==>
              r[i] == if vs[i].path == path then vs[i].(checked := !vs[i].checked) else vs[i]
  {
    seq(|vs|, i requires 0 <= i < |vs| => if vs[i].path == path then vs[i].(checked := !vs[i].checked) else vs[i])
  }

  function Typed(vs: seq<FieldValue>, path: string, bsonType: string): (r: seq<FieldValue>)
    ensures |r| == |vs|
    ensures forall i :: 0 <= i < |vs| ==>
              r[i] == if vs[i].path == path then vs[i].(checked := true, bsonType := bsonType) else vs[i]
  {
    seq(|vs|, i requires 0 <= i < |vs| =>
      if vs[i].path == path then vs[i].(checked := true, bsonType := bsonType) else vs[i])
  }

  /**
   * TOGGLE_INCLUDE_FIELD as it runs over the list: each listing of a record
   * whose path matches flips that record once, so a record listed an even
   * number of times ends up unchanged.
   */
  function ToggledAsListed(vs: seq<FieldValue>, fields: seq<FieldRecord>, path: string): (r: seq<FieldValue>)
    requires |vs| == |fields|
    ensures |r| == |vs|
    ensures forall i :: 0 <= i < |vs| ==>
              r[i] == if vs[i].path == path && Odd(multiset(fields)[fields[i]])
                      then vs[i].(checked := !vs[i].checked) else vs[i]
  {
    seq(|vs|, i requires 0 <= i < |vs| =>
      if vs[i].path == path && Odd(multiset(fields)[fields[i]]) then vs[i].(checked := !vs[i].checked) else vs[i])
  }

  predicate Odd(n: nat)
  {
    n % 2 == 1
  }

  /** With every record listed once, the in-place toggle is `Toggled` of the contents. */
  lemma ToggledAsListedDistinct(vs: seq<FieldValue>, fields: seq<FieldRecord>, path: string)
    requires |vs| == |fields| && DistinctRecords(fields)
    ensures ToggledAsListed(vs, fields, path) == Toggled(vs, path)
  {
    forall i | 0 <= i < |fields| ensures multiset(fields)[fields[i]] == 1 {
      ListedOnce(fields, i);
    }
  }

  /** In a list without repeats, each record is listed exactly once. */
  lemma {:induction false} ListedOnce(fields: seq<FieldRecord>, i: int)
    requires DistinctRecords(fields) && 0 <= i < |fields|
    ensures multiset(fields)[fields[i]] == 1
  {
    var x, last := fields[i], |fields| - 1;
    assert fields == fields[..last] + [fields[last]];
    if i < last {
      assert DistinctRecords(fields[..last]) by {
        forall p, q | 0 <= p < q < last ensures fields[..last][p] != fields[..last][q] {
          assert fields[..last][p] == fields[p] && fields[..last][q] == fields[q];
        }
      }
      ListedOnce(fields[..last], i);
      assert fields[..last][i] == x;
    } else {
      assert x !in fields[..last] by {
        forall p | 0 <= p < last ensures fields[..last][p] != x {
          assert fields[..last][p] == fields[p];
        }
      }
    }
  }

  /** TOGGLE_INCLUDE_FIELD on the records: flip `checked` on every listed record whose path matches. */
  method ToggleRecords(fields: seq<FieldRecord>, path: string)
    modifies Records(fields)
    ensures Values(fields) == ToggledAsListed(old(Values(fields)), fields, path)
  {
    var i := 0;
    while i < |fields|
      invariant 0 <= i <= |fields|
      invariant forall j :: 0 <= j < |fields| ==>
                  fields[j].path == old(fields[j].path) && fields[j].bsonType == old(fields[j].bsonType)
      invariant forall j :: 0 <= j < |fields| ==>
                  fields[j].checked == if old(fields[j].path) == path && Odd(multiset(fields[..i])[fields[j]])
                                       then !old(fields[j].checked) else old(fields[j].checked)
    {
      var rec := fields[i];
      ListedOnceMore(fields, i);
      if rec.path == path {
        rec.checked := !rec.checked;
      }
      i := i + 1;
    }
    assert fields[..i] == fields;
    ghost var before, after := old(Values(fields)), Values(fields);
    forall j | 0 <= j < |fields| ensures after[j] == ToggledAsListed(before, fields, path)[j] {
    }
  }

  /** Taking one more listing into account changes the parity of that record's count, and only of it. */
  lemma ListedOnceMore(fields: seq<FieldRecord>, i: int)
    requires 0 <= i < |fields|
    ensures forall j :: 0 <= j < |fields| ==>
              Odd(multiset(fields[..i + 1])[fields[j]])
              == if fields[j] == fields[i] then !Odd(multiset(fields[..i])[fields[j]]) else Odd(multiset(fields[..i])[fields[j]])
  {
    assert fields[..i + 1] == fields[..i] + [fields[i]];
  }

  /** SET_FIELD_TYPE on the records: check every record whose path matches and set its type. */
  method TypeRecords(fields: seq<FieldRecord>, path: string, bsonType: string)
    modifies Records(fields)
    ensures Values(fields) == Typed(old(Values(fields)), path, bsonType)
  {
    var i := 0;
    while i < |fields|
      invariant 0 <= i <= |fields|
      invariant forall j :: 0 <= j < |fields| ==> fields[j].path == old(fields[j].path)
      invariant forall j :: 0 <= j < |fields| ==>
                  if old(fields[j].path) == path && exists k :: 0 <= k < i && fields[k] == fields[j]
                  then fields[j].checked && fields[j].bsonType == bsonType
                  else fields[j].checked == old(fields[j].checked) && fields[j].bsonType == old(fields[j].bsonType)
    {
      if fields[i].path == path {
        fields[i].checked := true;
        fields[i].bsonType := bsonType;
      }
      i := i + 1;
    }
  }

  /** The reducer as it runs: the new state, and the in-place changes to the shared field records. */
  method Dispatch(s: ImportState, a: Action) returns (next: ImportState)
    modifies Records(s.fields)
    ensures next == Reduce(s, a)
    ensures a.ToggleIncludeField? || a.SetFieldType? ==> next == s
    ensures a.ToggleIncludeField? ==> Values(s.fields) == ToggledAsListed(old(Values(s.fields)), s.fields, a.path)
    ensures a.SetFieldType? ==> Values(s.fields) == Typed(old(Values(s.fields)), a.path, a.bsonType)
    ensures !a.ToggleIncludeField? && !a.SetFieldType? ==> unchanged(Records(s.fields))
  {
    match a {
      case ToggleIncludeField(path) => ToggleRecords(s.fields, path);
      case SetFieldType(path, bsonType) => TypeRecords(s.fields, path, bsonType);
      case _ =>
    }
    next := Reduce(s, a);
  }

  // ---------------------------------------------------------------------------
  // Cancel

  /** The actions `cancelImport` dispatches: none without both streams, otherwise one CANCELED. */
  function CancelDispatch(s: ImportState): (r: seq<Action>)
    ensures r == [] || r == [Cancel]
    ensures r == [] <==> s.source.None? || s.dest.None?
  {
    if s.source.None? || s.dest.None? then [] else [Cancel]
  }

  /** `cancelImport`: a no-op without an active import; otherwise unpipe the source and dispatch CANCELED. */
  method CancelImport(s: ImportState) returns (dispatched: seq<Action>)
    modifies if s.source.Some? && s.dest.Some? then {s.source.value} else {}
    ensures dispatched == CancelDispatch(s)
    ensures s.source.Some? && s.dest.Some? ==> !s.source.value.piped
  {
    if s.source.None? || s.dest.None? {
      return [];
    }
    s.source.value.Unpipe();
    dispatched := [Cancel];
  }

  // ---------------------------------------------------------------------------
  // Properties of single reducer steps

  /** FINISHED completes the job only without an error and without a cancel; otherwise the status stays. */
  lemma FinishedLatchesTerminal(s: ImportState, n: nat)
    ensures var r := Reduce(s, Finished(n));
            && (s.error.None? && s.status != Canceled ==> r.status == Completed)
            && (s.error.Some? || s.status == Canceled ==> r.status == s.status)
            && r.docsWritten == n && r.source.None? && r.dest.None?
            && r.(status := s.status, docsWritten := s.docsWritten, source := s.source, dest := s.dest) == s
  {
  }

  /** CANCELED sets the status and drops both streams. */
  lemma CanceledBranch(s: ImportState)
    ensures var r := Reduce(s, Cancel);
            r.status == Canceled && r.source.None? && r.dest.None?
            && r.(status := s.status, source := s.source, dest := s.dest) == s
  {
  }

  /** FAILED records the error and keeps the streams. */
  lemma FailedBranch(s: ImportState, e: ImportError)
    ensures var r := Reduce(s, Fail(e));
            r.status == Failed && r.error == Some(e) && r.source == s.source && r.dest == s.dest
            && r.(status := s.status, error := s.error) == s
  {
  }

  /** STARTED clears the error, resets progress, and holds the new streams. */
  lemma StartedBranch(s: ImportState, src: Option<Stream>, dst: Option<Stream>)
    ensures var r := Reduce(s, Start(src, dst));
            r.status == Started && r.error.None? && r.progress == 0.0 && r.source == src && r.dest == dst
            && r.(status := s.status, error := s.error, progress := s.progress, source := s.source, dest := s.dest) == s
  {
  }

  /** FILE_SELECTED records the file and resets the job, keeping any earlier error. */
  lemma FileSelectedBranch(s: ImportState, name: string, fileType: string, stats: Option<FileStats>, multiline: bool)
    ensures var r := Reduce(s, FileSelected(name, fileType, stats, multiline));
            && r.status == Unspecified && r.progress == 0.0 && r.docsWritten == 0
            && r.source.None? && r.dest.None?
            && r.fileName == name && r.fileType == Some(fileType) && r.fileStats == stats
            && r.fileIsMultilineJSON == multiline && r.error == s.error
            && r.fields == s.fields && r.isOpen == s.isOpen
            && r.(fileName := s.fileName, fileType := s.fileType, fileStats := s.fileStats,
                  fileIsMultilineJSON := s.fileIsMultilineJSON, status := s.status, progress := s.progress,
                  docsWritten := s.docsWritten, source := s.source, dest := s.dest) == s
  {
  }

  /** OPEN starts over from the initial state; CLOSE only closes; an unknown action changes nothing. */
  lemma OpenCloseUnrecognized(s: ImportState, t: string)
    ensures Reduce(s, Open) == InitialState.(isOpen := true)
    ensures Reduce(s, Open).status == Unspecified && Reduce(s, Open).source.None?
    ensures !Reduce(s, Close).isOpen && Reduce(s, Close).(isOpen := s.isOpen) == s
    ensures Reduce(s, Unrecognized(t)) == s
  {
  }

  /** PROGRESS moves only the percentage and the written count; the status is untouched, even after a cancel. */
  lemma ProgressBranch(s: ImportState, p: real, e: Option<ImportError>, n: nat)
    ensures var r := Reduce(s, Progress(p, e, n));
            r.progress == p && r.docsWritten == n && r.status == s.status && r.error == s.error
            && r.(progress := s.progress, docsWritten := s.docsWritten) == s
  {
  }

  /** SET_GUESSTIMATED_TOTAL records the estimate and nothing else. */
  lemma GuessBranch(s: ImportState, n: nat)
    ensures var r := Reduce(s, SetGuesstimatedTotal(n));
            r.guesstimatedDocsTotal == n && r.(guesstimatedDocsTotal := s.guesstimatedDocsTotal) == s
  {
  }

  /** SET_DELIMITER records the delimiter and nothing else. */
  lemma DelimiterBranch(s: ImportState, d: string)
    ensures var r := Reduce(s, SetDelimiter(d));
            r.delimiter == d && r.(delimiter := s.delimiter) == s
  {
  }

  /** SET_STEP moves the dialog to the step and changes nothing else. */
  lemma StepBranch(s: ImportState, step: string)
    ensures var r := Reduce(s, SetStep(step));
            r.step == step && r.(step := s.step) == s
  {
  }

  /** SET_PREVIEW replaces the preview's fields and values and marks the preview loaded. */
  lemma PreviewBranch(s: ImportState, fs: seq<FieldRecord>, vs: seq<seq<string>>)
    ensures var r := Reduce(s, SetPreview(fs, vs));
            r.fields == fs && r.values == vs && r.previewLoaded
            && r.(fields := s.fields, values := s.values, previewLoaded := s.previewLoaded) == s
  {
  }

  /** SET_STOP_ON_ERRORS records the flag and nothing else. */
  lemma StopOnErrorsBranch(s: ImportState, b: bool)
    ensures var r := Reduce(s, SetStopOnErrors(b));
            r.stopOnErrors == b && r.(stopOnErrors := s.stopOnErrors) == s
  {
  }

  /** SET_IGNORE_BLANKS records the flag and nothing else. */
  lemma IgnoreBlanksBranch(s: ImportState, b: bool)
    ensures var r := Reduce(s, SetIgnoreBlanks(b));
            r.ignoreBlanks == b && r.(ignoreBlanks := s.ignoreBlanks) == s
  {
  }

  /** FILE_TYPE_SELECTED records the file type and nothing else. */
  lemma FileTypeBranch(s: ImportState, t: string)
    ensures var r := Reduce(s, FileTypeSelected(t));
            r.fileType == Some(t) && r.(fileType := s.fileType) == s
  {
  }

  /** The two field actions keep the whole state value: the same record objects, every other field as it was. */
  lemma FieldActionsKeepState(s: ImportState, path: string, bsonType: string)
    ensures Reduce(s, ToggleIncludeField(path)) == s
    ensures Reduce(s, SetFieldType(path, bsonType)) == s
  {
  }

  /** Toggling twice restores every record; the field actions keep the list's length, order and other records. */
  lemma FieldActionsProperties(vs: seq<FieldValue>, path: string, bsonType: string)
    ensures Toggled(Toggled(vs, path), path) == vs
    ensures Typed(Typed(vs, path, bsonType), path, bsonType) == Typed(vs, path, bsonType)
    ensures forall i :: 0 <= i < |vs| && vs[i].path != path ==> Toggled(vs, path)[i] == vs[i] && Typed(vs, path, bsonType)[i] == vs[i]
    ensures forall i :: 0 <= i < |vs| ==> Toggled(vs, path)[i].path == vs[i].path && Typed(vs, path, bsonType)[i].path == vs[i].path
  {
  }

  // ---------------------------------------------------------------------------
  // Properties of runs

  /** Only FAILED sets the FAILED status, and it always brings an error. */
  predicate FailureHasError(s: ImportState)
  {
    s.status == Failed ==> s.error.Some?
  }

  /** One reducer step keeps the invariant. */
  lemma FailureHasErrorStep(s: ImportState, a: Action)
    requires FailureHasError(s)
    ensures FailureHasError(Reduce(s, a))
  {
  }

  lemma {:induction false} FailureHasErrorPreserved(s: ImportState, acts: seq<Action>)
    requires FailureHasError(s)
    ensures FailureHasError(ReduceAll(s, acts))
    decreases |acts|
  {
    if acts != [] {
      FailureHasErrorStep(s, acts[0]);
      FailureHasErrorPreserved(Reduce(s, acts[0]), acts[1..]);
    }
  }

  /** Every state reachable from the initial state has an error whenever it has failed. */
  lemma ReachableFailureHasError(acts: seq<Action>)
    ensures FailureHasError(ReduceAll(InitialState, acts))
  {
    FailureHasErrorPreserved(InitialState, acts);
  }

  /** Actions that start a new job or reset the dialog. */
  predicate Restarts(a: Action)
  {
    a.Start? || a.FileSelected? || a.Open?
  }

  /** Canceled, or failed with its error recorded. */
  predicate Terminal(s: ImportState)
  {
    s.status == Canceled || (s.status == Failed && s.error.Some?)
  }

  /** One step that is not a restart keeps a terminal job terminal. */
  lemma TerminalStep(s: ImportState, a: Action)
    requires Terminal(s) && !Restarts(a)
    ensures Terminal(Reduce(s, a))
  {
  }

  /**
   * Once canceled or failed, no later action short of a restart makes the job COMPLETED:
   * a late FINISHED keeps the latched state.
   */
  lemma {:induction false} TerminalStateIsLatched(s: ImportState, acts: seq<Action>)
    requires Terminal(s)
    requires forall i :: 0 <= i < |acts| ==> !Restarts(acts[i])
    ensures var r := ReduceAll(s, acts);
            r.status == Canceled || (r.status == Failed && r.error.Some?)
    decreases |acts|
  {
    if acts != [] {
      TerminalStep(s, acts[0]);
      TerminalStateIsLatched(Reduce(s, acts[0]), acts[1..]);
    }
  }

  /** Events a pipeline may still deliver after a cancel: progress, finish, a new size estimate. */
  predicate LateEvent(a: Action)
  {
    a.Progress? || a.Finished? || a.SetGuesstimatedTotal?
  }

  lemma LateEventStep(s: ImportState, a: Action)
    requires s.status == Canceled && LateEvent(a)
    ensures Reduce(s, a).status == Canceled
    ensures a.Finished? ==> Reduce(s, a).docsWritten == a.docsWritten
  {
    match a {
      case Progress(_, _, _) =>
      case Finished(_) =>
      case SetGuesstimatedTotal(_) =>
    }
  }

  /** A canceled job stays exactly CANCELED under late events, while its written count follows them. */
  lemma {:induction false} CanceledSurvivesLateEvents(s: ImportState, acts: seq<Action>)
    requires s.status == Canceled
    requires forall i :: 0 <= i < |acts| ==> LateEvent(acts[i])
    ensures ReduceAll(s, acts).status == Canceled
    ensures acts != [] && acts[|acts| - 1].Finished? ==> ReduceAll(s, acts).docsWritten == acts[|acts| - 1].docsWritten
    decreases |acts|
  {
    if acts != [] {
      LateEventStep(s, acts[0]);
      CanceledSurvivesLateEvents(Reduce(s, acts[0]), acts[1..]);
      if |acts| == 1 {
        assert ReduceAll(s, acts) == Reduce(s, acts[0]);
      } else {
        assert acts[1..][|acts[1..]| - 1] == acts[|acts| - 1];
      }
    }
  }

  /** The cancel guard: without both streams nothing happens; otherwise one CANCELED, and a second cancel is a no-op. */
  lemma CancelGuard(s: ImportState)
    ensures var r := ReduceAll(s, CancelDispatch(s));
            && (s.source.None? || s.dest.None? ==> CancelDispatch(s) == [] && r == s)
            && (s.source.Some? && s.dest.Some? ==> CancelDispatch(s) == [Cancel] && r.status == Canceled)
            && CancelDispatch(r) == []
  {
    if s.source.Some? && s.dest.Some? {
      assert ReduceAll(s, [Cancel]) == ReduceAll(Reduce(s, Cancel), []);
    }
  }

  /** A failed job keeps its streams, so closing the dialog (which cancels first) turns it into CANCELED. */
  lemma FailedThenCancel(s: ImportState, e: ImportError)
    requires s.source.Some? && s.dest.Some?
    ensures var f := Reduce(s, Fail(e));
            CancelDispatch(f) == [Cancel] && ReduceAll(f, CancelDispatch(f)).status == Canceled
  {
    var f := Reduce(s, Fail(e));
    assert ReduceAll(f, [Cancel]) == ReduceAll(Reduce(f, Cancel), []);
  }

  /** A finish that arrives after a user cancel leaves the job CANCELED (the count still moves). */
  lemma CancelThenLateFinish(s: ImportState, n: nat)
    requires s.source.Some? && s.dest.Some?
    ensures ReduceAll(s, CancelDispatch(s) + [Finished(n)]).status == Canceled
    ensures ReduceAll(s, CancelDispatch(s) + [Finished(n)]).docsWritten == n
  {
    var acts := CancelDispatch(s) + [Finished(n)];
    assert acts == [Cancel, Finished(n)];
    assert ReduceAll(s, acts) == ReduceAll(Reduce(s, Cancel), [Finished(n)]);
    assert ReduceAll(Reduce(s, Cancel), [Finished(n)]) == Reduce(Reduce(s, Cancel), Finished(n));
  }

  /** One step keeps the percentage capped unless it is a progress action above 100. */
  lemma ProgressStep(s: ImportState, a: Action)
    requires s.progress <= 100.0
    requires a.Progress? ==> a.progress <= 100.0
    ensures Reduce(s, a).progress <= 100.0
  {
    if a.Open? {
      assert InitialState.progress == 0.0;
    }
  }

  /** Progress actions made by `onProgress` keep the percentage at or below 100 for the whole run. */
  lemma {:induction false} ProgressStaysCapped(s: ImportState, acts: seq<Action>)
    requires s.progress <= 100.0
    requires forall i :: 0 <= i < |acts| && acts[i].Progress? ==> acts[i].progress <= 100.0
    ensures ReduceAll(s, acts).progress <= 100.0
    decreases |acts|
  {
    if acts != [] {
      ProgressStep(s, acts[0]);
      ProgressStaysCapped(Reduce(s, acts[0]), acts[1..]);
    }
  }

  /** From the initial state, a run whose progress actions come from `onProgress` never shows more than 100. */
  lemma ReachableProgressCapped(acts: seq<Action>, percents: seq<real>, counts: seq<nat>)
    requires |percents| == |counts| == |acts|
    requires forall i :: 0 <= i < |acts| && acts[i].Progress? ==> acts[i] == OnProgress(percents[i], counts[i])
    ensures ReduceAll(InitialState, acts).progress <= 100.0
  {
    ProgressStaysCapped(InitialState, acts);
  }
}
