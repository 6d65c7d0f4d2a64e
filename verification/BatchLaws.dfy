/** What holds in every run of a batch import. */
module BatchLaws {
  import opened Text
  import opened Transactions
  import opened Duplicates
  import opened Classifier
  import opened Dedupe
  import opened BatchRun

  // ---- Where each queued file is ----

  /** How often `f` is listed among the results. */
  ghost function Listed(results: seq<FileResult>, f: Path): nat {
    if results == [] then 0
    else Listed(results[..|results| - 1], f) + (if results[|results| - 1].file == f then 1 else 0)
  }

  lemma ListedSnoc(results: seq<FileResult>, r: FileResult, f: Path)
    ensures Listed(results + [r], f) == Listed(results, f) + (if r.file == f then 1 else 0)
  {
    assert (results + [r])[..|results|] == results;
  }

  ghost function Queued(q: seq<Path>, f: Path): nat {
    if q == [] then 0 else (if q[0] == f then 1 else 0) + Queued(q[1..], f)
  }

  ghost function Scanning(scans: seq<Scan>, f: Path): nat {
    if scans == [] then 0 else (if scans[0].file == f then 1 else 0) + Scanning(scans[1..], f)
  }

  lemma {:induction false} ScanningRemove(scans: seq<Scan>, k: nat, f: Path)
    requires k < |scans|
    ensures Scanning(scans, f) == Scanning(scans[..k] + scans[k + 1..], f) + (if scans[k].file == f then 1 else 0)
  {
    var rest := scans[..k] + scans[k + 1..];
    if k == 0 {
      assert rest == scans[1..];
    } else {
      ScanningRemove(scans[1..], k - 1, f);
      assert rest[1..] == scans[1..][..k - 1] + scans[1..][k..];
    }
  }

  lemma {:induction false} ScanningSnoc(scans: seq<Scan>, s: Scan, f: Path)
    ensures Scanning(scans + [s], f) == Scanning(scans, f) + (if s.file == f then 1 else 0)
  {
    if scans == [] {
      assert (scans + [s])[1..] == [];
    } else {
      ScanningSnoc(scans[1..], s, f);
      assert (scans + [s])[1..] == scans[1..] + [s];
    }
  }

  ghost function Holding(pending: Option<Path>, f: Path): nat {
    if pending == Some(f) then 1 else 0
  }

  /** The batch that is running, or the one that has finished. */
  ghost function Current(a: App): Option<Progress> {
    Or(a.batch, a.finished)
  }

  /** How often `f` is in a batch's own places: its results and its queue. */
  ghost function Inside(bp: Progress, f: Path): nat {
    Listed(bp.results, f) + Queued(bp.remaining, f)
  }

  /** ... and in the places outside it. */
  ghost function Outside(a: App, f: Path): nat {
    Holding(a.pending, f) + Scanning(a.scans, f) + a.lost[f] + a.detached[f]
  }

  /**
    How many of the places a file can be in hold `f`: results, queue, prompt, scans, overwritten at
    the prompt, settled outside.
   */
  ghost function Places(a: App, f: Path): nat
    requires Current(a).Some?
  {
    Inside(Current(a).value, f) + Outside(a, f)
  }

  /** The control state is coherent. */
  ghost predicate Coherent(a: App) {
    && (a.batch.Some? <==> a.finished.None?)
    && (a.batch.Some? ==>
        !a.batch.value.aborted && (a.promptVisible <==> a.pending.Some?) && a.detached == multiset{} && a.monitor == [])
    && (a.batch.Some? ==> forall k :: 0 <= k < |a.scans| ==> a.scans[k].inBatch)
    && (a.finished.Some? ==> a.monitor == if a.finished.value.intake.rows == [] then [] else a.finished.value.results)
  }

  lemma RecordLists(hash: HashFn, bp: Progress, file: Path, p: Parse, f: Path)
    ensures Listed(RecordSuccess(hash, bp, file, p).results, f) == Listed(bp.results, f) + (if file == f then 1 else 0)
    ensures Listed(RecordFailure(bp, file).results, f) == Listed(bp.results, f) + (if file == f then 1 else 0)
  {
    ListedSnoc(bp.results, FileResult(file, true, NonOpening(p.rows)), f);
    ListedSnoc(bp.results, FileResult(file, false, 0), f);
  }

  lemma FinishConserves(a: App, f: Path)
    requires Coherent(a) && a.batch.Some?
    ensures Coherent(FinishBatch(a))
    ensures Places(FinishBatch(a), f) == Places(a, f)
  {
  }

  lemma PromptConserves(a: App, file: Path, f: Path)
    requires Coherent(a)
    ensures Coherent(OpenPrompt(a, file))
    ensures Places(OpenPrompt(a, file), f) == Places(a, f) + (if file == f then 1 else 0)
  {
  }

  lemma ProgressConserves(a: App, bp: Progress, timers: nat, f: Path)
    requires Coherent(a) && a.batch.Some? && !bp.aborted
    requires Inside(bp, f) == Inside(a.batch.value, f)
    ensures Coherent(a.(batch := Some(bp), timers := timers))
    ensures Places(a.(batch := Some(bp), timers := timers), f) == Places(a, f)
  {
  }

  lemma NextFileConserves(hash: HashFn, bp: Progress, p: Parse, f: Path)
    requires bp.remaining != []
    ensures var file, rest := bp.remaining[0], bp.(remaining := bp.remaining[1..]);
      && Inside(RecordSuccess(hash, rest, file, p), f) == Inside(bp, f)
      && Inside(RecordFailure(rest, file), f) == Inside(bp, f)
      && Inside(rest, f) + (if file == f then 1 else 0) == Inside(bp, f)
  {
    RecordLists(hash, bp.(remaining := bp.remaining[1..]), bp.remaining[0], p, f);
  }

  lemma ProcessConserves(hash: HashFn, a: App, o: FileOutcome, f: Path)
    requires Coherent(a) && a.batch.Some? && !a.batch.value.paused && a.batch.value.remaining != []
    ensures Coherent(ContinueBatch(hash, a, o))
    ensures Places(ContinueBatch(hash, a, o), f) == Places(a, f)
  {
    var bp := a.batch.value;
    var file, rest := bp.remaining[0], bp.(remaining := bp.remaining[1..]);
    match o {
      case Parsed(p) =>
        NextFileConserves(hash, bp, p, f);
        ProgressConserves(a, RecordSuccess(hash, rest, file, p), a.timers + 1, f);
      case Failed =>
        NextFileConserves(hash, bp, Parse([], "", None), f);
        ProgressConserves(a, RecordFailure(rest, file), a.timers + 1, f);
      case NeedsPassword =>
        NextFileConserves(hash, bp, Parse([], "", None), f);
        PromptConserves(a.(batch := Some(rest)), file, f);
    }
  }

  lemma ContinueConserves(hash: HashFn, a: App, o: FileOutcome, f: Path)
    requires Coherent(a)
    ensures Coherent(ContinueBatch(hash, a, o))
    ensures Places(ContinueBatch(hash, a, o), f) == Places(a, f)
  {
    if a.batch.Some? && !a.batch.value.paused && a.batch.value.remaining != [] {
      ProcessConserves(hash, a, o, f);
    } else if a.batch.Some? && !a.batch.value.paused {
      FinishConserves(a, f);
    }
  }

  lemma ConfirmConserves(hash: HashFn, a: App, u: Unlock, o: FileOutcome, f: Path)
    requires Coherent(a)
    ensures Coherent(ConfirmStep(hash, a, u, o))
    ensures Places(ConfirmStep(hash, a, u, o), f) == Places(a, f)
  {
    if a.pending.Some? {
      var file, closed := a.pending.value, a.(pending := None, promptVisible := false);
      if u.NeedsScan? {
        ScanningSnoc(a.scans, Scan(file, a.batch.Some?), f);
      } else if u.Unlocked? && a.batch.Some? {
        RecordLists(hash, a.batch.value, file, u.p, f);
        ContinueConserves(hash, closed.(batch := Some(RecordSuccess(hash, a.batch.value, file, u.p))), o, f);
      }
    }
  }

  lemma CancelConserves(hash: HashFn, a: App, o: FileOutcome, f: Path)
    requires Coherent(a) && a.promptVisible
    ensures Coherent(CancelStep(hash, a, o))
    ensures Places(CancelStep(hash, a, o), f) == Places(a, f)
  {
    if a.batch.Some? {
      var file := a.pending.value;
      RecordLists(hash, a.batch.value, file, Parse([], "", None), f);
      ContinueConserves(hash,
          a.(pending := None, promptVisible := false, batch := Some(RecordFailure(a.batch.value, file))), o, f);
    }
  }

  lemma SettleOkConserves(hash: HashFn, b: App, scan: Scan, p: Parse, o: FileOutcome, f: Path)
    requires Coherent(b) && b.batch.Some? && scan.inBatch
    ensures Coherent(SettleScan(hash, b, scan, ScanOk(p), o))
    ensures Places(SettleScan(hash, b, scan, ScanOk(p), o), f) == Places(b, f) + (if scan.file == f then 1 else 0)
  {
    RecordLists(hash, b.batch.value, scan.file, p, f);
    ContinueConserves(hash, b.(batch := Some(RecordSuccess(hash, b.batch.value, scan.file, p))), o, f);
  }

  lemma SettleFailedConserves(hash: HashFn, b: App, scan: Scan, o: FileOutcome, f: Path)
    requires Coherent(b) && b.batch.Some? && scan.inBatch
    ensures Coherent(SettleScan(hash, b, scan, ScanFailed, o))
    ensures Places(SettleScan(hash, b, scan, ScanFailed, o), f) == Places(b, f) + (if scan.file == f then 1 else 0)
  {
    RecordLists(hash, b.batch.value, scan.file, Parse([], "", None), f);
    ContinueConserves(hash, b.(batch := Some(RecordFailure(b.batch.value, scan.file))), o, f);
  }

  lemma SettleOutsideConserves(hash: HashFn, b: App, scan: Scan, s: ScanOutcome, o: FileOutcome, f: Path)
    requires Coherent(b) && (b.batch.Some? ==> s.ScanWrongPassword?)
    ensures Coherent(SettleScan(hash, b, scan, s, o))
    ensures Places(SettleScan(hash, b, scan, s, o), f) == Places(b, f) + (if scan.file == f then 1 else 0)
  {
  }

  /** A scan taken off the list is settled in exactly one place. */
  lemma SettleConserves(hash: HashFn, b: App, scan: Scan, s: ScanOutcome, o: FileOutcome, f: Path)
    requires Coherent(b) && (b.batch.Some? ==> scan.inBatch)
    ensures Coherent(SettleScan(hash, b, scan, s, o))
    ensures Places(SettleScan(hash, b, scan, s, o), f) == Places(b, f) + (if scan.file == f then 1 else 0)
  {
    if b.batch.Some? && s.ScanOk? {
      SettleOkConserves(hash, b, scan, s.p, o, f);
    } else if b.batch.Some? && s.ScanFailed? {
      SettleFailedConserves(hash, b, scan, o, f);
    } else {
      SettleOutsideConserves(hash, b, scan, s, o, f);
    }
  }

  lemma ScanConserves(hash: HashFn, a: App, k: nat, s: ScanOutcome, o: FileOutcome, f: Path)
    requires Coherent(a) && k < |a.scans|
    ensures Coherent(ScanStep(hash, a, k, s, o))
    ensures Places(ScanStep(hash, a, k, s, o), f) == Places(a, f)
  {
    ScanningRemove(a.scans, k, f);
    SettleConserves(hash, a.(scans := a.scans[..k] + a.scans[k + 1..]), a.scans[k], s, o, f);
  }

  /** No event moves a file anywhere but from one place to another. */
  lemma StepConserves(hash: HashFn, a: App, e: Event, o: FileOutcome, f: Path)
    requires Coherent(a) && Enabled(a, e)
    ensures Coherent(Step(hash, a, e, o))
    ensures Places(Step(hash, a, e, o), f) == Places(a, f)
  {
    match e {
      case Tick => ContinueConserves(hash, a.(timers := a.timers - 1), o, f);
      case TogglePause =>
        if a.batch.Some? {
          ContinueConserves(hash, a.(batch := Some(a.batch.value.(paused := !a.batch.value.paused))), o, f);
        }
      case Abort =>
      case Confirm(u) => ConfirmConserves(hash, a, u, o, f);
      case Cancel => CancelConserves(hash, a, o, f);
      case ScanDone(k, s) => ScanConserves(hash, a, k, s, o, f);
    }
  }

  // ---- The batch's own books ----

  ghost function OkCount(results: seq<FileResult>): nat {
    if results == [] then 0 else OkCount(results[..|results| - 1]) + (if results[|results| - 1].ok then 1 else 0)
  }

  ghost function RawCount(results: seq<FileResult>): nat {
    if results == [] then 0 else RawCount(results[..|results| - 1]) + results[|results| - 1].txns
  }

  /** What the batch started from. */
  datatype Origin = Origin(paths: seq<Path>, session: seq<Transaction>, persisted: set<string>)

  ghost function IntakeAtStart(z: Origin): Intake {
    Intake(z.session, 0, z.persisted)
  }

  /** The intake is that of a fresh start that took in exactly `files`, one per loaded result. */
  ghost predicate TookFiles(hash: HashFn, z: Origin, bp: Progress, files: seq<seq<Transaction>>) {
    && bp.intake == TakeFiles(hash, IntakeAtStart(z), files)
    && RawCount(bp.results) == RawRows(files)
    && bp.loaded == |files|
  }

  ghost predicate Balanced(hash: HashFn, z: Origin, bp: Progress) {
    && bp.loaded + bp.errors == |bp.results|
    && bp.loaded == OkCount(bp.results)
    && exists files :: TookFiles(hash, z, bp, files)
  }

  /**
    In balanced books raw rows are rows kept plus rows skipped, and every real row kept is new
    against the session and the persisted fingerprints.
   */
  lemma BalancedMeaning(hash: HashFn, z: Origin, bp: Progress)
    requires Balanced(hash, z, bp)
    ensures RawCount(bp.results) == (NonOpening(bp.intake.rows) - NonOpening(z.session)) + bp.intake.skipped
    ensures |z.session| <= |bp.intake.rows| && bp.intake.rows[..|z.session|] == z.session
    ensures forall t :: t in bp.intake.rows[|z.session|..] && !t.isOpeningBalance ==>
        HashRow(hash, t) !in Hashes(hash, z.session) + z.persisted
  {
    var files :| TookFiles(hash, z, bp, files);
    TakeFilesMeaning(hash, IntakeAtStart(z), files);
  }

  lemma CountsSnoc(results: seq<FileResult>, r: FileResult)
    ensures OkCount(results + [r]) == OkCount(results) + (if r.ok then 1 else 0)
    ensures RawCount(results + [r]) == RawCount(results) + r.txns
  {
    assert (results + [r])[..|results|] == results;
  }

  lemma RecordKeepsBalance(hash: HashFn, z: Origin, bp: Progress, file: Path, p: Parse)
    requires Balanced(hash, z, bp)
    ensures Balanced(hash, z, RecordSuccess(hash, bp, file, p))
    ensures Balanced(hash, z, RecordFailure(bp, file))
  {
    CountsSnoc(bp.results, FileResult(file, true, NonOpening(p.rows)));
    CountsSnoc(bp.results, FileResult(file, false, 0));
    var files :| TookFiles(hash, z, bp, files);
    assert (files + [p.rows])[..|files|] == files;
    assert TookFiles(hash, z, RecordSuccess(hash, bp, file, p), files + [p.rows]);
    assert TookFiles(hash, z, RecordFailure(bp, file), files);
  }

  ghost predicate BooksInOrder(hash: HashFn, z: Origin, a: App) {
    Current(a).Some? && Balanced(hash, z, Current(a).value)
  }

  /** The same books, whatever the queue and the control flags. */
  ghost predicate SameBooks(p: Progress, q: Progress) {
    p.loaded == q.loaded && p.errors == q.errors && p.results == q.results && p.intake == q.intake
  }

  lemma SameBooksBalance(hash: HashFn, z: Origin, p: Progress, q: Progress)
    requires Balanced(hash, z, p) && SameBooks(p, q)
    ensures Balanced(hash, z, q)
  {
    var files :| TookFiles(hash, z, p, files);
    assert TookFiles(hash, z, q, files);
  }

  /** The books of `q` are those of `p` with at most one more file recorded. */
  ghost predicate OneMore(hash: HashFn, p: Progress, q: Progress) {
    || SameBooks(p, q)
    || (exists file, parse :: SameBooks(RecordSuccess(hash, p, file, parse), q))
    || (exists file :: SameBooks(RecordFailure(p, file), q))
  }

  lemma OneMoreBalances(hash: HashFn, z: Origin, p: Progress, q: Progress)
    requires Balanced(hash, z, p) && OneMore(hash, p, q)
    ensures Balanced(hash, z, q)
  {
    if SameBooks(p, q) {
      SameBooksBalance(hash, z, p, q);
    } else if file, parse :| SameBooks(RecordSuccess(hash, p, file, parse), q) {
      RecordKeepsBalance(hash, z, p, file, parse);
      SameBooksBalance(hash, z, RecordSuccess(hash, p, file, parse), q);
    } else {
      var file :| SameBooks(RecordFailure(p, file), q);
      RecordKeepsBalance(hash, z, p, file, Parse([], "", None));
      SameBooksBalance(hash, z, RecordFailure(p, file), q);
    }
  }

  lemma ContinueRecordsOne(hash: HashFn, a: App, o: FileOutcome)
    requires Coherent(a)
    ensures Current(ContinueBatch(hash, a, o)).Some?
    ensures OneMore(hash, Current(a).value, Current(ContinueBatch(hash, a, o)).value)
  {
    if a.batch.Some? && !a.batch.value.paused && a.batch.value.remaining != [] {
      var bp, file := a.batch.value, a.batch.value.remaining[0];
      var q := Current(ContinueBatch(hash, a, o)).value;
      match o {
        case Parsed(p) => assert SameBooks(RecordSuccess(hash, bp, file, p), q);
        case Failed => assert SameBooks(RecordFailure(bp, file), q);
        case NeedsPassword => assert SameBooks(bp, q);
      }
    }
  }

  lemma ContinueKeepsBooks(hash: HashFn, z: Origin, a: App, o: FileOutcome)
    requires Coherent(a) && BooksInOrder(hash, z, a)
    ensures BooksInOrder(hash, z, ContinueBatch(hash, a, o))
  {
    ContinueRecordsOne(hash, a, o);
    OneMoreBalances(hash, z, Current(a).value, Current(ContinueBatch(hash, a, o)).value);
  }

  /** A settled file is recorded, and then perhaps one more processed. */
  lemma SettledKeepsBooks(hash: HashFn, z: Origin, bp: Progress, m: Progress, file: Path, p: Parse, b: App,
      o: FileOutcome)
    requires Balanced(hash, z, bp)
    requires m == RecordSuccess(hash, bp, file, p) || m == RecordFailure(bp, file)
    requires Coherent(b) && b.batch == Some(m)
    ensures BooksInOrder(hash, z, ContinueBatch(hash, b, o))
  {
    RecordKeepsBalance(hash, z, bp, file, p);
    ContinueKeepsBooks(hash, z, b, o);
  }

  lemma ConfirmKeepsBooks(hash: HashFn, z: Origin, a: App, u: Unlock, o: FileOutcome)
    requires Coherent(a) && BooksInOrder(hash, z, a)
    ensures BooksInOrder(hash, z, ConfirmStep(hash, a, u, o))
  {
    if a.pending.Some? && u.Unlocked? && a.batch.Some? {
      var m := RecordSuccess(hash, a.batch.value, a.pending.value, u.p);
      SettledKeepsBooks(hash, z, a.batch.value, m, a.pending.value, u.p,
          a.(pending := None, promptVisible := false, batch := Some(m)), o);
    }
  }

  lemma CancelKeepsBooks(hash: HashFn, z: Origin, a: App, o: FileOutcome)
    requires Coherent(a) && BooksInOrder(hash, z, a) && a.promptVisible
    ensures BooksInOrder(hash, z, CancelStep(hash, a, o))
  {
    if a.batch.Some? {
      var m := RecordFailure(a.batch.value, a.pending.value);
      SettledKeepsBooks(hash, z, a.batch.value, m, a.pending.value, Parse([], "", None),
          a.(pending := None, promptVisible := false, batch := Some(m)), o);
    }
  }

  lemma ScanKeepsBooks(hash: HashFn, z: Origin, b: App, scan: Scan, s: ScanOutcome, o: FileOutcome)
    requires Coherent(b) && BooksInOrder(hash, z, b) && (b.batch.Some? ==> scan.inBatch)
    ensures BooksInOrder(hash, z, SettleScan(hash, b, scan, s, o))
  {
    if b.batch.Some? {
      var bp, file := b.batch.value, scan.file;
      match s {
        case ScanWrongPassword =>
        case ScanOk(p) =>
          var m := RecordSuccess(hash, bp, file, p);
          SettledKeepsBooks(hash, z, bp, m, file, p, b.(batch := Some(m)), o);
        case ScanFailed =>
          var m := RecordFailure(bp, file);
          SettledKeepsBooks(hash, z, bp, m, file, Parse([], "", None), b.(batch := Some(m)), o);
      }
    }
  }

  lemma StepKeepsBooks(hash: HashFn, z: Origin, a: App, e: Event, o: FileOutcome)
    requires Coherent(a) && BooksInOrder(hash, z, a) && Enabled(a, e)
    ensures BooksInOrder(hash, z, Step(hash, a, e, o))
  {
    match e {
      case Tick => ContinueKeepsBooks(hash, z, a.(timers := a.timers - 1), o);
      case TogglePause =>
        if a.batch.Some? {
          var bp := a.batch.value;
          SameBooksBalance(hash, z, bp, bp.(paused := !bp.paused));
          ContinueKeepsBooks(hash, z, a.(batch := Some(bp.(paused := !bp.paused))), o);
        }
      case Abort =>
        if a.batch.Some? { SameBooksBalance(hash, z, a.batch.value, a.batch.value.(aborted := true)); }
      case Confirm(u) => ConfirmKeepsBooks(hash, z, a, u, o);
      case Cancel => CancelKeepsBooks(hash, z, a, o);
      case ScanDone(k, s) => ScanKeepsBooks(hash, z, a.(scans := a.scans[..k] + a.scans[k + 1..]), a.scans[k], s, o);
    }
  }

  // ---- Runs ----

  /** What happened at one moment: the event, and how the next file turned out if it was reached. */
  datatype Moment = Moment(e: Event, o: FileOutcome)

  /** `b` is the state after moment `m` in state `a`. */
  ghost predicate Next(hash: HashFn, a: App, m: Moment, b: App) {
    Enabled(a, m.e) && b == Step(hash, a, m.e, m.o)
  }

  ghost predicate StepsAt(hash: HashFn, moments: seq<Moment>, states: seq<App>, k: nat)
    requires k < |moments| && |states| == |moments| + 1
  {
    Next(hash, states[k], moments[k], states[k + 1])
  }

  /** From the first state on, each moment takes one state to the next. */
  ghost predicate Follows(hash: HashFn, moments: seq<Moment>, states: seq<App>) {
    && |states| == |moments| + 1
    && forall k :: 0 <= k < |moments| ==> StepsAt(hash, moments, states, k)
  }

  ghost predicate IsRun(hash: HashFn, z: Origin, o: FileOutcome, moments: seq<Moment>, states: seq<App>) {
    Follows(hash, moments, states) && states[0] == StartBatch(hash, z.paths, z.session, z.persisted, o)
  }

  lemma {:induction false} FollowConserves(hash: HashFn, moments: seq<Moment>, states: seq<App>, k: nat, f: Path)
    requires Follows(hash, moments, states) && k < |states| && Coherent(states[0])
    ensures Coherent(states[k])
    ensures Places(states[k], f) == Places(states[0], f)
  {
    if k > 0 {
      FollowConserves(hash, moments, states, k - 1, f);
      assert StepsAt(hash, moments, states, k - 1);
      StepConserves(hash, states[k - 1], moments[k - 1].e, moments[k - 1].o, f);
    }
  }

  lemma BeginIsCoherent(hash: HashFn, z: Origin, f: Path)
    ensures var a := Begin(z.paths, z.session, z.persisted);
      Coherent(a) && BooksInOrder(hash, z, a) && Places(a, f) == Queued(z.paths, f)
  {
    assert TookFiles(hash, z, Begin(z.paths, z.session, z.persisted).batch.value, []);
  }

  /**
    In every state of every run each queued file is in exactly one place: a result, the queue,
    the prompt, a scan, overwritten at the prompt, or settled outside the batch.
   */
  lemma FilesAreConserved(hash: HashFn, z: Origin, o: FileOutcome, moments: seq<Moment>, states: seq<App>, k: nat,
      f: Path)
    requires IsRun(hash, z, o, moments, states) && k < |states|
    ensures Coherent(states[k])
    ensures Places(states[k], f) == Queued(z.paths, f)
  {
    BeginIsCoherent(hash, z, f);
    ContinueConserves(hash, Begin(z.paths, z.session, z.persisted), o, f);
    FollowConserves(hash, moments, states, k, f);
  }

  lemma {:induction false} BooksInOrderAlways(hash: HashFn, z: Origin, o: FileOutcome, moments: seq<Moment>,
      states: seq<App>, k: nat)
    requires IsRun(hash, z, o, moments, states) && k < |states|
    ensures BooksInOrder(hash, z, states[k])
  {
    if k == 0 {
      BeginIsCoherent(hash, z, "");
      ContinueKeepsBooks(hash, z, Begin(z.paths, z.session, z.persisted), o);
    } else {
      BooksInOrderAlways(hash, z, o, moments, states, k - 1);
      FilesAreConserved(hash, z, o, moments, states, k - 1, "");
      assert StepsAt(hash, moments, states, k - 1);
      StepKeepsBooks(hash, z, states[k - 1], moments[k - 1].e, moments[k - 1].o);
    }
  }

  /**
    In every state of every run loaded plus errors is the number of results, raw rows are rows
    kept plus rows skipped, and every real row kept is new against the session and the
    persisted fingerprints the batch started from.
   */
  lemma BooksBalance(hash: HashFn, z: Origin, o: FileOutcome, moments: seq<Moment>, states: seq<App>, k: nat)
    requires IsRun(hash, z, o, moments, states) && k < |states|
    ensures Current(states[k]).Some?
    ensures var bp := Current(states[k]).value;
      && bp.loaded + bp.errors == |bp.results|
      && bp.loaded == OkCount(bp.results)
      && RawCount(bp.results) == (NonOpening(bp.intake.rows) - NonOpening(z.session)) + bp.intake.skipped
      && |z.session| <= |bp.intake.rows| && bp.intake.rows[..|z.session|] == z.session
      && forall t :: t in bp.intake.rows[|z.session|..] && !t.isOpeningBalance ==>
          HashRow(hash, t) !in Hashes(hash, z.session) + z.persisted
  {
    BooksInOrderAlways(hash, z, o, moments, states, k);
    BalancedMeaning(hash, z, Current(states[k]).value);
  }

  /**
    A second batch over files the first one took in adds no real row, in any run: `first` and
    `second` are states of two runs, the second started from the first one's rows
    (post-processed, fingerprints kept) and at least its persisted fingerprints.
   */
  lemma SecondBatchAddsNothing(hash: HashFn, z1: Origin, first: App, z2: Origin, second: App,
                               files: seq<seq<Transaction>>, again: seq<seq<Transaction>>)
    requires BooksInOrder(hash, z1, first) && TookFiles(hash, z1, Current(first).value, files)
    requires BooksInOrder(hash, z2, second) && TookFiles(hash, z2, Current(second).value, again)
    requires SameFingerprints(hash, Current(first).value.intake.rows, z2.session) && z1.persisted <= z2.persisted
    requires forall f :: f in again ==> f in files
    ensures NonOpening(Current(second).value.intake.rows) == NonOpening(z2.session)
    ensures Current(second).value.intake.skipped == RawCount(Current(second).value.results)
  {
    RerunAddsNothing(hash, IntakeAtStart(z1), files, IntakeAtStart(z2), again);
  }

  /** Vendor normalisation: whatever the names become, only vendor and account head change. */
  ghost predicate Renamed(a: seq<Transaction>, b: seq<Transaction>) {
    |a| == |b| && forall i :: 0 <= i < |a| ==> b[i] == a[i].(vendor := b[i].vendor, accountHead := b[i].accountHead)
  }

  /**
    What the finish of a batch does to the rows, auto-classification and then vendor normalisation,
    keeps every fingerprint.
   */
  lemma FinishKeepsFingerprints(hash: HashFn, eng: Engines, dup: DupEnv, cfg: Settings, dedup: bool,
                                s: seq<Transaction>, r: seq<Transaction>)
    requires Renamed(ClassifyAll(eng, dup, cfg, dedup, s), r)
    ensures SameFingerprints(hash, s, r)
  {
    if s != [] { ClassifyAllFrame(eng, dup, cfg, dedup, s, 0); }
    forall i: nat | i < |s| ensures i < |r| && HashRow(hash, r[i]) == HashRow(hash, s[i]) {
      ClassifyAllFrame(eng, dup, cfg, dedup, s, i);
      FingerprintOfImported(hash, s[i], ClassifyAll(eng, dup, cfg, dedup, s)[i]);
      FingerprintOfImported(hash, r[i], ClassifyAll(eng, dup, cfg, dedup, s)[i]);
    }
    SameRowHashes(hash, s, r);
  }

  lemma FingerprintOfImported(hash: HashFn, t: Transaction, u: Transaction)
    requires ImportedOf(t) == ImportedOf(u)
    ensures HashRow(hash, t) == HashRow(hash, u)
  {
  }

  lemma SameRowHashes(hash: HashFn, s: seq<Transaction>, r: seq<Transaction>)
    requires |s| == |r| && forall i :: 0 <= i < |s| ==> HashRow(hash, r[i]) == HashRow(hash, s[i])
    ensures Hashes(hash, s) == Hashes(hash, r)
  {
    forall h ensures h in Hashes(hash, s) <==> h in Hashes(hash, r) {
      if h in Hashes(hash, s) {
        var i: nat :| i < |s| && HashRow(hash, s[i]) == h;
        assert r[i] in r;
      }
      if h in Hashes(hash, r) {
        var i: nat :| i < |r| && HashRow(hash, r[i]) == h;
        assert s[i] in s;
      }
    }
  }

  /**
    The same with nothing assumed about the finish: the second batch starts from the first one's
    rows as auto-classification and any vendor normalisation leave them.
   */
  lemma SecondBatchAfterFinish(hash: HashFn, z1: Origin, first: App, z2: Origin, second: App,
                               files: seq<seq<Transaction>>, again: seq<seq<Transaction>>,
                               eng: Engines, dup: DupEnv, cfg: Settings, dedup: bool)
    requires BooksInOrder(hash, z1, first) && TookFiles(hash, z1, Current(first).value, files)
    requires BooksInOrder(hash, z2, second) && TookFiles(hash, z2, Current(second).value, again)
    requires Renamed(ClassifyAll(eng, dup, cfg, dedup, Current(first).value.intake.rows), z2.session)
    requires z1.persisted <= z2.persisted && forall f :: f in again ==> f in files
    ensures NonOpening(Current(second).value.intake.rows) == NonOpening(z2.session)
    ensures Current(second).value.intake.skipped == RawCount(Current(second).value.results)
  {
    FinishKeepsFingerprints(hash, eng, dup, cfg, dedup, Current(first).value.intake.rows, z2.session);
    SecondBatchAddsNothing(hash, z1, first, z2, second, files, again);
  }

  /**
    After the batch has finished no event changes its outcome, and a stale tick changes nothing but
    the timer count.
   */
  lemma FinishedIsFinal(hash: HashFn, a: App, e: Event, o: FileOutcome)
    requires a.batch.None? && Enabled(a, e)
    ensures Step(hash, a, e, o).batch.None? && Step(hash, a, e, o).finished == a.finished
        && Step(hash, a, e, o).monitor == a.monitor
    ensures e == Tick ==> Step(hash, a, e, o) == a.(timers := a.timers - 1)
  {
  }

  /** A tick on a running, unpaused batch takes exactly one file off the queue, or ends a batch with an empty queue. */
  lemma TickMakesProgress(hash: HashFn, a: App, o: FileOutcome)
    requires a.batch.Some? && a.timers > 0 && !a.batch.value.paused && !a.batch.value.aborted
    ensures var b := Step(hash, a, Tick, o);
      if a.batch.value.remaining == [] then b.batch.None? && b.finished == a.batch
      else b.batch.Some? && b.batch.value.remaining == a.batch.value.remaining[1..]
  {
  }

  // ---- No file is lost when Resume waits its turn ----

  /** Ticks, prompts and scans outstanding. */
  ghost function Busy(a: App): nat {
    a.timers + (if a.pending.Some? then 1 else 0) + |a.scans|
  }

  /** Resuming now overtakes something: a prompt, a scan, or a tick that still has a file to process. */
  predicate Overtakes(a: App)
    requires a.batch.Some?
  {
    a.pending.Some? || a.scans != [] || (a.timers > 0 && a.batch.value.remaining != [])
  }

  /** Resume is only pressed when it overtakes nothing. */
  ghost predicate Calm(a: App, e: Event) {
    e == TogglePause && a.batch.Some? && a.batch.value.paused ==> !Overtakes(a)
  }

  /**
    One continuation at a time: a running batch has exactly one tick, prompt or scan to wake it,
    nothing was overwritten, and a batch that ended by itself left no file behind.
   */
  ghost predicate OneThread(a: App) {
    && Busy(a) <= 1
    && a.lost == multiset{}
    && (a.batch.Some? && !a.batch.value.paused ==> Busy(a) == 1)
    && (a.finished.Some? && !a.finished.value.aborted ==>
         a.pending.None? && a.scans == [] && a.detached == multiset{} && a.finished.value.remaining == [])
  }

  lemma ContinueOneThread(hash: HashFn, a: App, o: FileOutcome)
    requires Coherent(a) && a.batch.Some? && Busy(a) == 0 && a.lost == multiset{}
    ensures OneThread(ContinueBatch(hash, a, o))
  {
  }

  lemma FinishOneThread(hash: HashFn, a: App, o: FileOutcome)
    requires Coherent(a) && a.batch.Some? && !a.batch.value.paused && a.batch.value.remaining == []
    requires a.pending.None? && a.scans == [] && a.timers <= 1 && a.lost == multiset{}
    ensures OneThread(ContinueBatch(hash, a, o))
  {
  }

  lemma CalmAnswer(hash: HashFn, a: App, e: Event, o: FileOutcome)
    requires Coherent(a) && OneThread(a) && Enabled(a, e) && (e.Confirm? || e.Cancel?) && a.batch.Some?
    ensures OneThread(Step(hash, a, e, o))
  {
    var bp, file, closed := a.batch.value, a.pending.value, a.(pending := None, promptVisible := false);
    if e.Cancel? {
      ContinueOneThread(hash, closed.(batch := Some(RecordFailure(bp, file))), o);
    } else if e.u.Unlocked? {
      ContinueOneThread(hash, closed.(batch := Some(RecordSuccess(hash, bp, file, e.u.p))), o);
    }
  }

  lemma CalmOutside(hash: HashFn, a: App, e: Event, o: FileOutcome)
    requires Coherent(a) && OneThread(a) && Enabled(a, e) && a.batch.None?
    ensures OneThread(Step(hash, a, e, o))
  {
    if e.ScanDone? { CalmOutsideScan(hash, a, e.k, e.s, o); }
  }

  lemma CalmOutsideScan(hash: HashFn, a: App, k: nat, s: ScanOutcome, o: FileOutcome)
    requires Coherent(a) && OneThread(a) && k < |a.scans| && a.batch.None?
    ensures OneThread(ScanStep(hash, a, k, s, o))
  {
    assert a.scans[..k] + a.scans[k + 1..] == [];
    assert Held(a.pending) == multiset{};
  }

  lemma CalmControl(hash: HashFn, a: App, e: Event, o: FileOutcome)
    requires Coherent(a) && OneThread(a) && Enabled(a, e) && Calm(a, e) && (e.Tick? || e.TogglePause? || e.Abort?)
        && a.batch.Some?
    ensures OneThread(Step(hash, a, e, o))
  {
    if e.Tick? {
      ContinueOneThread(hash, a.(timers := a.timers - 1), o);
    } else if e.TogglePause? && a.batch.value.paused {
      var b := a.(batch := Some(a.batch.value.(paused := false)));
      if Busy(a) == 0 {
        ContinueOneThread(hash, b, o);
      } else {
        FinishOneThread(hash, b, o);
      }
    }
  }

  lemma CalmStep(hash: HashFn, a: App, e: Event, o: FileOutcome)
    requires Coherent(a) && OneThread(a) && Enabled(a, e) && Calm(a, e)
    ensures OneThread(Step(hash, a, e, o))
  {
    if a.batch.None? {
      CalmOutside(hash, a, e, o);
    } else {
      match e {
        case ScanDone(k, s) => CalmScan(hash, a, k, s, o);
        case Confirm(_) => CalmAnswer(hash, a, e, o);
        case Cancel => CalmAnswer(hash, a, e, o);
        case _ => CalmControl(hash, a, e, o);
      }
    }
  }

  lemma CalmScan(hash: HashFn, a: App, k: nat, s: ScanOutcome, o: FileOutcome)
    requires Coherent(a) && OneThread(a) && a.batch.Some? && k < |a.scans|
    ensures OneThread(ScanStep(hash, a, k, s, o))
  {
    var bp, b := a.batch.value, a.(scans := a.scans[..k] + a.scans[k + 1..]);
    assert b.scans == [];
    if s.ScanOk? {
      ContinueOneThread(hash, b.(batch := Some(RecordSuccess(hash, bp, a.scans[k].file, s.p))), o);
    } else if s.ScanFailed? {
      ContinueOneThread(hash, b.(batch := Some(RecordFailure(bp, a.scans[k].file))), o);
    }
  }

  lemma CalmStart(hash: HashFn, z: Origin, o: FileOutcome)
    ensures OneThread(StartBatch(hash, z.paths, z.session, z.persisted, o))
  {
    BeginIsCoherent(hash, z, "");
    ContinueOneThread(hash, Begin(z.paths, z.session, z.persisted), o);
  }

  lemma {:induction false} CalmFollow(hash: HashFn, moments: seq<Moment>, states: seq<App>, k: nat)
    requires Follows(hash, moments, states) && k < |states| && Coherent(states[0]) && OneThread(states[0])
    requires forall i :: 0 <= i < |moments| ==> Calm(states[i], moments[i].e)
    ensures OneThread(states[k])
  {
    if k > 0 {
      var a, m := states[k - 1], moments[k - 1];
      CalmFollow(hash, moments, states, k - 1);
      assert Coherent(a) by { FollowConserves(hash, moments, states, k - 1, ""); }
      assert StepsAt(hash, moments, states, k - 1);
      CalmStep(hash, a, m.e, m.o);
    }
  }

  /**
    In a run where every Resume is calm, no file is ever lost and a running, unpaused batch
    always has exactly one continuation.
   */
  lemma CalmRunsLoseNothing(hash: HashFn, z: Origin, o: FileOutcome, moments: seq<Moment>, states: seq<App>, k: nat)
    requires IsRun(hash, z, o, moments, states) && k < |states|
    requires forall i :: 0 <= i < |moments| ==> Calm(states[i], moments[i].e)
    ensures OneThread(states[k])
  {
    CalmStart(hash, z, o);
    assert Coherent(states[0]) by { FilesAreConserved(hash, z, o, moments, states, 0, ""); }
    CalmFollow(hash, moments, states, k);
  }

  lemma NothingLeftBehind(a: App, f: Path)
    requires Coherent(a) && OneThread(a) && a.finished.Some? && !a.finished.value.aborted
    ensures Listed(a.finished.value.results, f) == Places(a, f)
  {
  }

  /** A calm run that ends without an abort lists every queued file exactly as often as it was queued. */
  lemma CalmRunsListEveryFile(hash: HashFn, z: Origin, o: FileOutcome, moments: seq<Moment>, states: seq<App>, k: nat,
      f: Path)
    requires IsRun(hash, z, o, moments, states) && k < |states|
    requires forall i :: 0 <= i < |moments| ==> Calm(states[i], moments[i].e)
    requires states[k].finished.Some? && !states[k].finished.value.aborted
    ensures Listed(states[k].finished.value.results, f) == Queued(z.paths, f)
  {
    CalmRunsLoseNothing(hash, z, o, moments, states, k);
    FilesAreConserved(hash, z, o, moments, states, k, f);
    NothingLeftBehind(states[k], f);
  }

  // ---- Exactly when Resume drops a file ----

  /** A continuation that begins with Resume and is calm from then on. */
  ghost predicate ContinuesWithResume(hash: HashFn, a: App, moments: seq<Moment>, states: seq<App>) {
    && Follows(hash, moments, states) && states[0] == a
    && moments != [] && moments[0].e == TogglePause
    && forall i :: 1 <= i < |moments| ==> Calm(states[i], moments[i].e)
  }

  /** The batch has ended by itself, and some file it held in state `a` is missing from its results. */
  ghost predicate EndsWithout(a: App, last: App)
    requires Current(a).Some?
  {
    && last.finished.Some? && !last.finished.value.aborted
    && exists f :: Listed(last.finished.value.results, f) < Places(a, f)
  }

  lemma Prepend(hash: HashFn, a: App, m: Moment, moments: seq<Moment>, states: seq<App>)
    requires Follows(hash, moments, states) && Next(hash, a, m, states[0])
    ensures Follows(hash, [m] + moments, [a] + states)
  {
    var ms, ss := [m] + moments, [a] + states;
    forall k | 0 <= k < |ms| ensures StepsAt(hash, ms, ss, k) {
      if k > 0 {
        assert StepsAt(hash, moments, states, k - 1);
        assert ms[k] == moments[k - 1] && ss[k] == states[k - 1] && ss[k + 1] == states[k];
      }
    }
  }

  /** Ticks alone, with every further file failing, end a running batch and leave prompt and scans open. */
  lemma TickToTheEnd(hash: HashFn, a: App) returns (moments: seq<Moment>, states: seq<App>)
    requires Coherent(a) && a.batch.Some? && !a.batch.value.paused && a.timers > 0
    ensures Follows(hash, moments, states) && states[0] == a
    ensures forall i :: 0 <= i < |moments| ==> moments[i].e == Tick
    ensures var last := states[|moments|];
      last.finished.Some? && !last.finished.value.aborted && last.pending == a.pending && last.scans == a.scans
    decreases |a.batch.value.remaining|
  {
    var m, b := Moment(Tick, Failed), Step(hash, a, Tick, Failed);
    FailingTick(hash, a);
    moments, states := [], [b];
    if a.batch.value.remaining != [] {
      moments, states := TickToTheEnd(hash, b);
    }
    Prepend(hash, a, m, moments, states);
    moments, states := [m] + moments, [a] + states;
  }

  /** A tick whose file fails ends the batch or leaves it running with one file less; prompt and scans stay. */
  lemma FailingTick(hash: HashFn, a: App)
    requires Coherent(a) && a.batch.Some? && !a.batch.value.paused && a.timers > 0
    ensures var b := Step(hash, a, Tick, Failed);
      && Coherent(b) && b.pending == a.pending && b.scans == a.scans
      && (a.batch.value.remaining == [] ==> b.finished.Some? && !b.finished.value.aborted)
      && (a.batch.value.remaining != [] ==>
           b.batch.Some? && !b.batch.value.paused && b.timers > 0
               && b.batch.value.remaining == a.batch.value.remaining[1..])
  {
    StepConserves(hash, a, Tick, Failed, "");
  }

  lemma SomethingLeftBehind(last: App)
    requires Coherent(last) && last.finished.Some? && (last.pending.Some? || last.scans != [])
    ensures exists f :: Listed(last.finished.value.results, f) < Places(last, f)
  {
    var f := if last.pending.Some? then last.pending.value else last.scans[0].file;
    assert Holding(last.pending, f) + Scanning(last.scans, f) > 0;
    assert Listed(last.finished.value.results, f) < Places(last, f);
  }

  /** Resume while something is overtaken, ticks to the end, and the prompt or scan is still open. */
  lemma OvertakingDrops(hash: HashFn, a: App) returns (moments: seq<Moment>, states: seq<App>)
    requires Coherent(a) && a.batch.Some? && a.batch.value.paused && Overtakes(a)
    ensures ContinuesWithResume(hash, a, moments, states)
    ensures EndsWithout(a, states[|moments|])
  {
    var m := Moment(TogglePause, if a.pending.Some? || a.scans != [] then Failed else NeedsPassword);
    var b := Step(hash, a, TogglePause, m.o);
    StepConserves(hash, a, TogglePause, m.o, "");
    moments, states := [], [b];
    if b.batch.Some? {
      moments, states := TickToTheEnd(hash, b);
    }
    Prepend(hash, a, m, moments, states);
    moments, states := [m] + moments, [a] + states;
    var last := states[|moments|];
    assert last.pending.Some? || last.scans != [];
    FollowConserves(hash, moments, states, |moments|, "");
    SomethingLeftBehind(last);
    var f :| Listed(last.finished.value.results, f) < Places(last, f);
    FollowConserves(hash, moments, states, |moments|, f);
  }

  /**
    Exactly when Resume is dangerous: from a paused state of a calm run, some continuation ends
    by itself without listing a file the batch held if and only if Resume overtakes a prompt, a
    scan, or a tick with a file to process.
   */
  lemma ResumeDropsAFileIff(hash: HashFn, a: App)
    requires Coherent(a) && OneThread(a) && a.batch.Some? && a.batch.value.paused
    ensures Overtakes(a) <==>
      exists moments, states :: ContinuesWithResume(hash, a, moments, states) && EndsWithout(a, states[|moments|])
  {
    if Overtakes(a) {
      var moments, states := OvertakingDrops(hash, a);
    } else {
      forall moments, states | ContinuesWithResume(hash, a, moments, states)
        ensures !EndsWithout(a, states[|moments|])
      {
        ResumeDropsNothing(hash, a, moments, states);
      }
    }
  }

  lemma ResumeDropsNothing(hash: HashFn, a: App, moments: seq<Moment>, states: seq<App>)
    requires Coherent(a) && OneThread(a) && a.batch.Some? && a.batch.value.paused && !Overtakes(a)
    requires ContinuesWithResume(hash, a, moments, states)
    ensures !EndsWithout(a, states[|moments|])
  {
    var last := states[|moments|];
    CalmFollow(hash, moments, states, |moments|);
    forall f ensures last.finished.Some? && !last.finished.value.aborted ==>
        Listed(last.finished.value.results, f) == Places(a, f) {
      FollowConserves(hash, moments, states, |moments|, f);
      if last.finished.Some? && !last.finished.value.aborted { NothingLeftBehind(last, f); }
    }
  }

  /** One file, its prompt open: Pause and Resume end the batch, unaborted, without the file. */
  lemma ResumeDuringPromptEndsTheBatch(hash: HashFn, x: Path)
    ensures
      var z := Origin([x], [], {});
      var a0 := StartBatch(hash, z.paths, z.session, z.persisted, NeedsPassword);
      var a1 := Step(hash, a0, TogglePause, Failed);
      var a2 := Step(hash, a1, TogglePause, Failed);
      && IsRun(hash, z, NeedsPassword, [Moment(TogglePause, Failed), Moment(TogglePause, Failed)], [a0, a1, a2])
      && a2.finished.Some? && !a2.finished.value.aborted && a2.finished.value.results == [] && a2.pending == Some(x)
  {
  }

  /**
    Two files: Pause and Resume before the first tick arrives, a password prompt for the second, and
    the stale tick ends the batch without it.
   */
  lemma StaleTickEndsTheBatch(hash: HashFn, x: Path, y: Path)
    ensures
      var z := Origin([x, y], [], {});
      var a0 := StartBatch(hash, z.paths, z.session, z.persisted, Failed);
      var a1 := Step(hash, a0, TogglePause, Failed);
      var a2 := Step(hash, a1, TogglePause, NeedsPassword);
      var a3 := Step(hash, a2, Tick, Failed);
      && IsRun(hash, z, Failed, [Moment(TogglePause, Failed), Moment(TogglePause, NeedsPassword), Moment(Tick, Failed)],
          [a0, a1, a2, a3])
      && a3.finished.Some? && !a3.finished.value.aborted
      && a3.finished.value.results == [FileResult(x, false, 0)] && a3.pending == Some(y)
  {
  }

  /**
    Pressing Pause and Resume while a prompt is open loses the prompted file when the next one needs
    a password too.
   */
  lemma ResumeDuringPromptLosesAFile(hash: HashFn, x: Path, y: Path)
    ensures
      var z := Origin([x, y], [], {});
      var a0 := StartBatch(hash, z.paths, z.session, z.persisted, NeedsPassword);
      var a1 := Step(hash, a0, TogglePause, Failed);
      var a2 := Step(hash, a1, TogglePause, NeedsPassword);
      && IsRun(hash, z, NeedsPassword, [Moment(TogglePause, Failed), Moment(TogglePause, NeedsPassword)], [a0, a1, a2])
      && a2.lost == multiset{x} && a2.pending == Some(y) && a2.batch.value.remaining == []
          && a2.batch.value.results == []
  {
  }

  /**
    The event after Resume can overwrite a prompt: a prompt or scan is outstanding and a file is
    left to process, or a tick is and two files are.
   */
  predicate PromptAtRisk(a: App)
    requires a.batch.Some?
  {
    || ((a.pending.Some? || a.scans != []) && |a.batch.value.remaining| >= 1)
    || (a.timers > 0 && |a.batch.value.remaining| >= 2)
  }

  lemma PromptStays(hash: HashFn, a: App, o: FileOutcome, e: Event, next: FileOutcome)
    requires Coherent(a) && OneThread(a) && a.batch.Some? && a.batch.value.paused && !PromptAtRisk(a)
    requires Enabled(Step(hash, a, TogglePause, o), e)
    ensures Step(hash, Step(hash, a, TogglePause, o), e, next).lost == multiset{}
  {
    var b := Step(hash, a, TogglePause, o);
    assert b.lost == multiset{};
    assert b.pending.Some? ==> b.scans == [];
    NothingOverwritten(hash, b, e, next);
  }

  /** An event overwrites no prompt when none is open, or when nothing else is outstanding. */
  lemma NothingOverwritten(hash: HashFn, b: App, e: Event, o: FileOutcome)
    requires Enabled(b, e) && b.lost == multiset{}
    requires b.pending.Some? ==>
        b.scans == [] && (b.batch.Some? ==> !b.batch.value.paused && (b.timers == 0 || b.batch.value.remaining == []))
    ensures Step(hash, b, e, o).lost == multiset{}
  {
    match e {
      case Tick => ContinueOverwritesNothing(hash, b.(timers := b.timers - 1), o);
      case ScanDone(k, s) => ScanOverwritesNothing(hash, b, k, s, o);
      case _ =>
    }
  }

  lemma ContinueOverwritesNothing(hash: HashFn, b: App, o: FileOutcome)
    requires b.lost == multiset{}
    requires b.pending.Some? && b.batch.Some? ==> b.batch.value.remaining == []
    ensures ContinueBatch(hash, b, o).lost == multiset{}
  {
    assert Held(None) == multiset{};
  }

  lemma ScanOverwritesNothing(hash: HashFn, b: App, k: nat, s: ScanOutcome, o: FileOutcome)
    requires k < |b.scans| && b.lost == multiset{} && b.pending.None?
    ensures ScanStep(hash, b, k, s, o).lost == multiset{}
  {
    assert Held(None) == multiset{};
  }

  /** A stale tick, a wrong scanned password or the resumption itself meets an open prompt. */
  lemma PromptGoes(hash: HashFn, a: App) returns (e: Event, next: FileOutcome)
    requires Coherent(a) && OneThread(a) && a.batch.Some? && a.batch.value.paused && PromptAtRisk(a)
    ensures Enabled(Step(hash, a, TogglePause, NeedsPassword), e)
    ensures Step(hash, Step(hash, a, TogglePause, NeedsPassword), e, next).lost != multiset{}
  {
    next := NeedsPassword;
    e := if a.pending.Some? then Abort else if a.scans != [] then ScanDone(0, ScanWrongPassword) else Tick;
    var b := Step(hash, a, TogglePause, NeedsPassword);
    var file := if a.pending.Some? then a.pending.value else a.batch.value.remaining[0];
    assert file in Step(hash, b, e, next).lost;
  }

  /**
    The sharper half of the same danger: no outcome of Resume and no event right after it
    overwrites an open prompt if and only if nothing outstanding can meet another file.
   */
  lemma PromptStaysIff(hash: HashFn, a: App)
    requires Coherent(a) && OneThread(a) && a.batch.Some? && a.batch.value.paused
    ensures !PromptAtRisk(a) <==>
      forall o, e, next :: Enabled(Step(hash, a, TogglePause, o), e) ==>
        Step(hash, Step(hash, a, TogglePause, o), e, next).lost == multiset{}
  {
    if PromptAtRisk(a) {
      var e, next := PromptGoes(hash, a);
    } else {
      forall o, e, next | Enabled(Step(hash, a, TogglePause, o), e)
        ensures Step(hash, Step(hash, a, TogglePause, o), e, next).lost == multiset{}
      {
        PromptStays(hash, a, o, e, next);
      }
    }
  }

  /** A batch whose only file fails ends with a result that the monitor does not show. */
  lemma MonitorMissesAFailedBatch(hash: HashFn, x: Path)
    ensures
      var z := Origin([x], [], {});
      var a0 := StartBatch(hash, z.paths, z.session, z.persisted, Failed);
      var a1 := Step(hash, a0, Tick, Failed);
      && IsRun(hash, z, Failed, [Moment(Tick, Failed)], [a0, a1])
      && a1.finished.Some? && a1.finished.value.results == [FileResult(x, false, 0)] && a1.monitor == []
  {
  }

  /**
    The Batch Monitor lists a finished batch's results exactly when some transaction is loaded or
    there was nothing to list.
   */
  lemma MonitorShowsResults(hash: HashFn, z: Origin, o: FileOutcome, moments: seq<Moment>, states: seq<App>, k: nat)
    requires IsRun(hash, z, o, moments, states) && k < |states| && states[k].finished.Some?
    ensures states[k].monitor == states[k].finished.value.results <==>
      states[k].finished.value.intake.rows != [] || states[k].finished.value.results == []
  {
    FilesAreConserved(hash, z, o, moments, states, k, "");
  }
}
