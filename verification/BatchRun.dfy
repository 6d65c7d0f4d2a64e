/**
  The resumable batch import as a state machine over the event loop: timer ticks, pause and
  resume, abort, and the password prompt with its background scan.
 */
module BatchRun {
  import opened Text
  import opened Transactions
  import opened Dedupe

  type Path = string

  datatype FileResult = FileResult(file: Path, ok: bool, txns: nat)

  /** A parsed file: its rows, bank name and opening balance. */
  datatype Parse = Parse(rows: seq<Transaction>, bank: string, opening: Option<int>)

  /** What parsing the next file turns out to be. */
  datatype FileOutcome = Parsed(p: Parse) | Failed | NeedsPassword

  datatype Progress = Progress(
    remaining: seq<Path>,
    intake: Intake,
    loaded: nat,
    errors: nat,
    results: seq<FileResult>,
    firstBank: string,
    firstOpening: Option<int>,
    paused: bool,
    aborted: bool)

  /** A background password scan: the file, and whether a batch was running when the password was confirmed. */
  datatype Scan = Scan(file: Path, inBatch: bool)

  /**
    The part of the application the batch touches. `lost` and `detached` record, for the
    statements below, files whose prompt was overwritten and files settled outside the batch.
   */
  datatype App = App(
    batch: Option<Progress>,
    pending: Option<Path>,
    promptVisible: bool,
    scans: seq<Scan>,
    timers: nat,
    finished: Option<Progress>,
    monitor: seq<FileResult>,
    lost: multiset<Path>,
    detached: multiset<Path>)

  // ---- Recording a file ----

  function RecordSuccess(hash: HashFn, bp: Progress, file: Path, p: Parse): Progress {
    bp.(intake := TakeFile(hash, bp.intake, p.rows),
        loaded := bp.loaded + 1,
        results := bp.results + [FileResult(file, true, NonOpening(p.rows))],
        firstBank := if bp.firstBank == [] then p.bank else bp.firstBank,
        firstOpening := Or(bp.firstOpening, p.opening))
  }

  function RecordFailure(bp: Progress, file: Path): Progress {
    bp.(errors := bp.errors + 1, results := bp.results + [FileResult(file, false, 0)])
  }

  // ---- The steps ----

  datatype BatchStep = Finish | WaitPaused | ProcessNext

  /** Abort takes priority over pause. */
  function NextStep(aborted: bool, paused: bool): BatchStep {
    if aborted then Finish else if paused then WaitPaused else ProcessNext
  }

  /** Ends the batch. The monitor table is refreshed only when some transaction is loaded. */
  function FinishBatch(a: App): App {
    match a.batch
    case None => a
    case Some(bp) =>
      a.(batch := None, finished := Some(bp), monitor := if bp.intake.rows == [] then a.monitor else bp.results)
  }

  function Held(pending: Option<Path>): multiset<Path> {
    if pending.Some? then multiset{pending.value} else multiset{}
  }

  /** Opens the password prompt for `file`; a prompt still open for another file is overwritten. */
  function OpenPrompt(a: App, file: Path): App {
    a.(pending := Some(file), promptVisible := true, lost := a.lost + Held(a.pending))
  }

  /** Processes at most one file; `o` is how it turns out. */
  function ContinueBatch(hash: HashFn, a: App, o: FileOutcome): App {
    if a.batch.None? then a
    else
      var bp := a.batch.value;
      match NextStep(bp.aborted, bp.paused)
      case Finish => FinishBatch(a)
      case WaitPaused => a
      case ProcessNext =>
        if bp.remaining == [] then FinishBatch(a)
        else
          var file, rest := bp.remaining[0], bp.(remaining := bp.remaining[1..]);
          match o
          case Parsed(p) => a.(batch := Some(RecordSuccess(hash, rest, file, p)), timers := a.timers + 1)
          case Failed => a.(batch := Some(RecordFailure(rest, file)), timers := a.timers + 1)
          case NeedsPassword => OpenPrompt(a.(batch := Some(rest)), file)
  }

  /** How a confirmed password turns out: wrong, enough to read the file at once, or needing the background scan. */
  datatype Unlock = WrongPassword | Unlocked(p: Parse) | NeedsScan

  datatype ScanOutcome = ScanOk(p: Parse) | ScanWrongPassword | ScanFailed

  datatype Event =
    | Tick
    | TogglePause
    | Abort
    | Confirm(u: Unlock)
    | Cancel
    | ScanDone(k: nat, s: ScanOutcome)

  /** Which events the user interface and the event loop can deliver. */
  predicate Enabled(a: App, e: Event) {
    match e
    case Tick => a.timers > 0
    case Confirm(_) => a.promptVisible
    case Cancel => a.promptVisible
    case ScanDone(k, _) => k < |a.scans|
    case _ => true
  }

  function SettleOutside(a: App, file: Path): App {
    a.(detached := a.detached + multiset{file})
  }

  /** Loading a file outside the batch clears whatever prompt was pending. */
  function LoadOutside(a: App, file: Path): App {
    SettleOutside(a, file).(pending := None, lost := a.lost + Held(a.pending))
  }

  function ConfirmStep(hash: HashFn, a: App, u: Unlock, o: FileOutcome): App {
    if a.pending.None? then a.(promptVisible := false)
    else
      var file, closed := a.pending.value, a.(pending := None, promptVisible := false);
      match u
      case WrongPassword => a
      case NeedsScan => closed.(scans := a.scans + [Scan(file, a.batch.Some?)])
      case Unlocked(p) =>
        if a.batch.Some?
        then ContinueBatch(hash, closed.(batch := Some(RecordSuccess(hash, a.batch.value, file, p))), o)
        else LoadOutside(closed, file)
  }

  function CancelStep(hash: HashFn, a: App, o: FileOutcome): App {
    var closed := a.(pending := None, promptVisible := false);
    if a.batch.Some?
    then ContinueBatch(hash,
        closed.(batch := Some(RecordFailure(a.batch.value, if a.pending.Some? then a.pending.value else ""))), o)
    else closed.(detached := a.detached + Held(a.pending))
  }

  /** Settles a finished scan that has already been taken off the list. */
  function SettleScan(hash: HashFn, b: App, scan: Scan, s: ScanOutcome, o: FileOutcome): App {
    match s
    case ScanWrongPassword => OpenPrompt(b, scan.file)
    case ScanOk(p) =>
      if !scan.inBatch then LoadOutside(b, scan.file)
      else if b.batch.Some?
      then ContinueBatch(hash, b.(batch := Some(RecordSuccess(hash, b.batch.value, scan.file, p))), o)
      else SettleOutside(b, scan.file)
    case ScanFailed =>
      if scan.inBatch && b.batch.Some?
      then ContinueBatch(hash, b.(batch := Some(RecordFailure(b.batch.value, scan.file))), o)
      else SettleOutside(b, scan.file)
  }

  function ScanStep(hash: HashFn, a: App, k: nat, s: ScanOutcome, o: FileOutcome): App
    requires k < |a.scans|
  {
    SettleScan(hash, a.(scans := a.scans[..k] + a.scans[k + 1..]), a.scans[k], s, o)
  }

  /** One event; `o` is how the next file turns out if this event gets to process one. */
  function Step(hash: HashFn, a: App, e: Event, o: FileOutcome): App
    requires Enabled(a, e)
  {
    match e
    case Tick => ContinueBatch(hash, a.(timers := a.timers - 1), o)
    case TogglePause =>
      if a.batch.None? then a
      else
        var bp := a.batch.value.(paused := !a.batch.value.paused);
        var b := a.(batch := Some(bp));
        if bp.paused then b else ContinueBatch(hash, b, o)
    case Abort =>
      if a.batch.None? then a
      else FinishBatch(a.(batch := Some(a.batch.value.(aborted := true))))
    case Confirm(u) => ConfirmStep(hash, a, u, o)
    case Cancel => CancelStep(hash, a, o)
    case ScanDone(k, s) => ScanStep(hash, a, k, s, o)
  }

  /** The state in which a batch over `paths` begins, from the session's rows and the persisted fingerprints. */
  function Begin(paths: seq<Path>, session: seq<Transaction>, persisted: set<string>): App {
    App(Some(Progress(paths, Intake(session, 0, persisted), 0, 0, [], "", None, false, false)),
        None, false, [], 0, None, [], multiset{}, multiset{})
  }

  function StartBatch(hash: HashFn, paths: seq<Path>, session: seq<Transaction>, persisted: set<string>,
      o: FileOutcome): App {
    ContinueBatch(hash, Begin(paths, session, persisted), o)
  }

  // ---- The same steps on mutable state ----

  /** The application object whose handlers run on the event loop. */
  class Session {
    const hash: HashFn
    var batch: Option<Progress>
    var pending: Option<Path>
    var promptVisible: bool
    var scans: seq<Scan>
    var timers: nat
    var finished: Option<Progress>
    var monitor: seq<FileResult>
    ghost var lost: multiset<Path>
    ghost var detached: multiset<Path>

    ghost function State(): App
      reads this
    {
      App(batch, pending, promptVisible, scans, timers, finished, monitor, lost, detached)
    }

    constructor Start(hash: HashFn, paths: seq<Path>, session: seq<Transaction>, persisted: set<string>, o: FileOutcome)
      ensures this.hash == hash
      ensures State() == StartBatch(hash, paths, session, persisted, o)
    {
      this.hash := hash;
      batch := Some(Progress(paths, Intake(session, 0, persisted), 0, 0, [], "", None, false, false));
      pending, promptVisible, scans, timers, finished, monitor := None, false, [], 0, None, [];
      lost, detached := multiset{}, multiset{};
      new;
      Continue(o);
    }

    method Finish()
      modifies this
      ensures State() == FinishBatch(old(State()))
    {
      if batch.None? { return; }
      var bp := batch.value;
      batch := None;
      finished := Some(bp);
      if bp.intake.rows == [] { return; }
      monitor := bp.results;
    }

    method Prompt(file: Path)
      modifies this
      ensures State() == OpenPrompt(old(State()), file)
    {
      lost := lost + Held(pending);
      pending := Some(file);
      promptVisible := true;
    }

    method Record(file: Path, p: Parse)
      requires batch.Some?
      modifies this`batch
      ensures batch == Some(RecordSuccess(hash, old(batch.value), file, p))
    {
      batch := Some(RecordSuccess(hash, batch.value, file, p));
    }

    method Fail(file: Path)
      requires batch.Some?
      modifies this`batch
      ensures batch == Some(RecordFailure(old(batch.value), file))
    {
      batch := Some(RecordFailure(batch.value, file));
    }

    method Continue(o: FileOutcome)
      modifies this
      ensures State() == ContinueBatch(hash, old(State()), o)
    {
      if batch.None? { return; }
      var step := NextStep(batch.value.aborted, batch.value.paused);
      if step == BatchStep.Finish {
        Finish();
        return;
      }
      if step == WaitPaused { return; }
      if batch.value.remaining == [] {
        Finish();
        return;
      }
      var file := batch.value.remaining[0];
      batch := Some(batch.value.(remaining := batch.value.remaining[1..]));
      match o {
        case Parsed(p) => Record(file, p);
        case Failed => Fail(file);
        case NeedsPassword =>
          Prompt(file);
          return;
      }
      timers := timers + 1;
    }

    method RecordAndContinue(file: Path, p: Parse, o: FileOutcome)
      requires batch.Some?
      modifies this
      ensures State() == ContinueBatch(hash,
          old(State()).(batch := Some(RecordSuccess(hash, old(batch.value), file, p))), o)
    {
      Record(file, p);
      assert State() == old(State()).(batch := Some(RecordSuccess(hash, old(batch.value), file, p)));
      Continue(o);
    }

    method FailAndContinue(file: Path, o: FileOutcome)
      requires batch.Some?
      modifies this
      ensures State() == ContinueBatch(hash, old(State()).(batch := Some(RecordFailure(old(batch.value), file))), o)
    {
      Fail(file);
      assert State() == old(State()).(batch := Some(RecordFailure(old(batch.value), file)));
      Continue(o);
    }

    method OnTick(o: FileOutcome)
      requires timers > 0
      modifies this
      ensures State() == Step(hash, old(State()), Tick, o)
    {
      timers := timers - 1;
      assert State() == old(State()).(timers := old(timers) - 1);
      Continue(o);
    }

    method OnPause(o: FileOutcome)
      modifies this
      ensures State() == Step(hash, old(State()), TogglePause, o)
    {
      if batch.None? { return; }
      batch := Some(batch.value.(paused := !batch.value.paused));
      if !batch.value.paused { Continue(o); }
    }

    method OnAbort()
      modifies this
      ensures forall o :: State() == Step(hash, old(State()), Abort, o)
    {
      if batch.None? { return; }
      batch := Some(batch.value.(aborted := true));
      Finish();
    }

    method OnConfirm(u: Unlock, o: FileOutcome)
      requires promptVisible
      modifies this
      ensures State() == Step(hash, old(State()), Confirm(u), o)
    {
      if pending.None? {
        promptVisible := false;
        return;
      }
      var file, inBatch := pending.value, batch.Some?;
      if u.WrongPassword? { return; }
      promptVisible := false;
      pending := None;
      if u.NeedsScan? {
        scans := scans + [Scan(file, inBatch)];
      } else if inBatch {
        RecordAndContinue(file, u.p, o);
      } else {
        detached := detached + multiset{file};
      }
    }

    method OnCancel(o: FileOutcome)
      requires promptVisible
      modifies this
      ensures State() == Step(hash, old(State()), Cancel, o)
    {
      promptVisible := false;
      var name := if pending.Some? then pending.value else "";
      ghost var held := Held(pending);
      pending := None;
      if batch.Some? {
        FailAndContinue(name, o);
      } else {
        detached := detached + held;
      }
    }

    method Settle(scan: Scan, s: ScanOutcome, o: FileOutcome)
      modifies this
      ensures State() == SettleScan(hash, old(State()), scan, s, o)
    {
      match s {
        case ScanWrongPassword => Prompt(scan.file);
        case ScanOk(p) =>
          if !scan.inBatch {
            lost := lost + Held(pending);
            pending := None;
            detached := detached + multiset{scan.file};
          } else if batch.Some? {
            RecordAndContinue(scan.file, p, o);
          } else {
            detached := detached + multiset{scan.file};
          }
        case ScanFailed =>
          if scan.inBatch && batch.Some? {
            FailAndContinue(scan.file, o);
          } else {
            detached := detached + multiset{scan.file};
          }
      }
    }

    method OnScanDone(k: nat, s: ScanOutcome, o: FileOutcome)
      requires k < |scans|
      modifies this
      ensures State() == Step(hash, old(State()), ScanDone(k, s), o)
    {
      var scan := scans[k];
      scans := scans[..k] + scans[k + 1..];
      assert State() == old(State()).(scans := scans);
      Settle(scan, s, o);
    }
  }
}
