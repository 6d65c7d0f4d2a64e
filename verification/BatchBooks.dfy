/** What a batch import has on its books after any run, file by file. */
module BatchBooks {
  import opened Text
  import opened Transactions
  import opened Dedupe
  import opened BatchRun
  import opened BatchLaws

  // ---- What each event enters ----

  /** A file on the books: read, with what was in it, or failed. */
  datatype Entry = Read(file: Path, p: Parse) | Bad(file: Path)

  /** The next file of a running batch, if this is the moment to process it and it needs no password. */
  function NextEntry(bp: Progress, o: FileOutcome): seq<Entry> {
    if bp.aborted || bp.paused || bp.remaining == [] then []
    else
      match o
      case Parsed(p) => [Read(bp.remaining[0], p)]
      case Failed => [Bad(bp.remaining[0])]
      case NeedsPassword => []
  }

  /** The file an answered prompt or a finished scan settles in the batch. */
  function Settled(a: App, e: Event): seq<Entry>
    requires Enabled(a, e)
  {
    match e
    case Confirm(u) => if a.pending.Some? && u.Unlocked? then [Read(a.pending.value, u.p)] else []
    case Cancel => [Bad(if a.pending.Some? then a.pending.value else "")]
    case ScanDone(k, s) =>
      if !a.scans[k].inBatch || s.ScanWrongPassword? then []
      else if s.ScanOk? then [Read(a.scans[k].file, s.p)] else [Bad(a.scans[k].file)]
    case _ => []
  }

  /** Whether an event goes on to the next file. */
  function GoesOn(a: App, e: Event): bool
    requires Enabled(a, e)
  {
    match e
    case Tick => true
    case TogglePause => a.batch.Some? && a.batch.value.paused
    case Abort => false
    case _ => Settled(a, e) != []
  }

  /** Everything an event enters. */
  function Entered(a: App, e: Event, o: FileOutcome): seq<Entry>
    requires Enabled(a, e)
  {
    if a.batch.None? then []
    else
      var bp := if e.TogglePause? then a.batch.value.(paused := !a.batch.value.paused) else a.batch.value;
      Settled(a, e) + (if GoesOn(a, e) then NextEntry(bp, o) else [])
  }

  // ---- Books, computed from the entries alone ----

  /** The books a batch shows and hands on. */
  datatype Books = Books(intake: Intake, loaded: nat, errors: nat, results: seq<FileResult>,
                         firstBank: string, firstOpening: Option<int>)

  function BooksOf(bp: Progress): Books {
    Books(bp.intake, bp.loaded, bp.errors, bp.results, bp.firstBank, bp.firstOpening)
  }

  function ReadFiles(es: seq<Entry>): seq<Parse> {
    if es == [] then []
    else
      var front, last := ReadFiles(es[..|es| - 1]), es[|es| - 1];
      if last.Read? then front + [last.p] else front
  }

  function Rows(ps: seq<Parse>): seq<seq<Transaction>> {
    seq(|ps|, i requires 0 <= i < |ps| => ps[i].rows)
  }

  function Results(es: seq<Entry>): seq<FileResult> {
    seq(|es|, i requires 0 <= i < |es| =>
      match es[i]
      case Read(file, p) => FileResult(file, true, NonOpening(p.rows))
      case Bad(file) => FileResult(file, false, 0))
  }

  /** `x` is the opening balance of the earliest file that has one. */
  ghost predicate EarliestOpening(ps: seq<Parse>, x: Option<int>) {
    if x.None? then forall i :: 0 <= i < |ps| ==> ps[i].opening.None?
    else exists i :: 0 <= i < |ps| && ps[i].opening == x && forall j :: 0 <= j < i ==> ps[j].opening.None?
  }

  /** `b` is the bank of the earliest file that names one. */
  ghost predicate EarliestBank(ps: seq<Parse>, b: string) {
    if b == "" then forall i :: 0 <= i < |ps| ==> ps[i].bank == ""
    else exists i :: 0 <= i < |ps| && ps[i].bank == b && forall j :: 0 <= j < i ==> ps[j].bank == ""
  }

  /** The books are those of `es`, entered in order from a fresh start. */
  ghost predicate BooksOfEntries(hash: HashFn, z: Origin, b: Books, es: seq<Entry>) {
    var ps := ReadFiles(es);
    && b.intake == TakeFiles(hash, IntakeAtStart(z), Rows(ps))
    && b.results == Results(es)
    && b.loaded == |ps| && b.errors == |es| - |ps|
    && EarliestBank(ps, b.firstBank) && EarliestOpening(ps, b.firstOpening)
  }

  // ---- Entering one ----

  function Post(hash: HashFn, bp: Progress, en: Entry): Progress {
    match en
    case Read(file, p) => RecordSuccess(hash, bp, file, p)
    case Bad(file) => RecordFailure(bp, file)
  }

  lemma ReadFilesSnoc(es: seq<Entry>, en: Entry)
    ensures ReadFiles(es + [en]) == if en.Read? then ReadFiles(es) + [en.p] else ReadFiles(es)
  {
    assert (es + [en])[..|es|] == es;
  }

  lemma TakeOneMore(hash: HashFn, x: Intake, ps: seq<Parse>, p: Parse)
    ensures TakeFiles(hash, x, Rows(ps + [p])) == TakeFile(hash, TakeFiles(hash, x, Rows(ps)), p.rows)
  {
    assert Rows(ps + [p])[..|ps|] == Rows(ps);
  }

  lemma EarliestSnoc(ps: seq<Parse>, p: Parse, b: string, x: Option<int>)
    requires EarliestBank(ps, b) && EarliestOpening(ps, x)
    ensures EarliestBank(ps + [p], if b == "" then p.bank else b)
    ensures EarliestOpening(ps + [p], if x.None? then p.opening else x)
  {
    var qs := ps + [p];
    assert qs[|ps|] == p;
    assert forall i :: 0 <= i < |ps| ==> qs[i] == ps[i];
    if b != "" {
      var i :| 0 <= i < |ps| && ps[i].bank == b && forall j :: 0 <= j < i ==> ps[j].bank == "";
      assert qs[i].bank == b;
    }
    if x.Some? {
      var i :| 0 <= i < |ps| && ps[i].opening == x && forall j :: 0 <= j < i ==> ps[j].opening.None?;
      assert qs[i].opening == x;
    }
  }

  lemma ResultsSnoc(es: seq<Entry>, en: Entry, r: FileResult)
    requires r == if en.Read? then FileResult(en.file, true, NonOpening(en.p.rows)) else FileResult(en.file, false, 0)
    ensures Results(es + [en]) == Results(es) + [r]
  {
  }

  lemma ReadEnters(hash: HashFn, z: Origin, bp: Progress, es: seq<Entry>, file: Path, p: Parse)
    requires BooksOfEntries(hash, z, BooksOf(bp), es)
    ensures BooksOfEntries(hash, z, BooksOf(RecordSuccess(hash, bp, file, p)), es + [Read(file, p)])
  {
    ReadFilesSnoc(es, Read(file, p));
    ResultsSnoc(es, Read(file, p), FileResult(file, true, NonOpening(p.rows)));
    TakeOneMore(hash, IntakeAtStart(z), ReadFiles(es), p);
    EarliestSnoc(ReadFiles(es), p, bp.firstBank, bp.firstOpening);
  }

  lemma BadEnters(hash: HashFn, z: Origin, bp: Progress, es: seq<Entry>, file: Path)
    requires BooksOfEntries(hash, z, BooksOf(bp), es)
    ensures BooksOfEntries(hash, z, BooksOf(RecordFailure(bp, file)), es + [Bad(file)])
  {
    ReadFilesSnoc(es, Bad(file));
    ResultsSnoc(es, Bad(file), FileResult(file, false, 0));
  }

  /** Recording a file is entering it: the first bank and opening balance stay once they are set. */
  lemma PostEnters(hash: HashFn, z: Origin, bp: Progress, es: seq<Entry>, en: Entry)
    requires BooksOfEntries(hash, z, BooksOf(bp), es)
    ensures BooksOfEntries(hash, z, BooksOf(Post(hash, bp, en)), es + [en])
  {
    match en {
      case Read(file, p) => ReadEnters(hash, z, bp, es, file, p);
      case Bad(file) => BadEnters(hash, z, bp, es, file);
    }
  }

  function PostAll(hash: HashFn, bp: Progress, es: seq<Entry>): Progress {
    if es == [] then bp else Post(hash, PostAll(hash, bp, es[..|es| - 1]), es[|es| - 1])
  }

  lemma {:induction false} PostAllEnters(hash: HashFn, z: Origin, bp: Progress, es: seq<Entry>, more: seq<Entry>)
    requires BooksOfEntries(hash, z, BooksOf(bp), es)
    ensures BooksOfEntries(hash, z, BooksOf(PostAll(hash, bp, more)), es + more)
    decreases |more|
  {
    if more == [] {
      assert es + more == es;
    } else {
      var front, last := more[..|more| - 1], more[|more| - 1];
      PostAllEnters(hash, z, bp, es, front);
      PostEnters(hash, z, PostAll(hash, bp, front), es + front, last);
      assert es + front + [last] == es + more;
    }
  }

  // ---- Every event enters what it says ----

  /** A posting touches the books alone, and reads nothing else. */
  lemma PostReadsBooks(hash: HashFn, p: Progress, q: Progress, en: Entry)
    requires BooksOf(p) == BooksOf(q)
    ensures BooksOf(Post(hash, p, en)) == BooksOf(Post(hash, q, en))
  {
  }

  lemma ContinueEnters(hash: HashFn, a: App, o: FileOutcome)
    requires Coherent(a) && a.batch.Some?
    ensures Current(ContinueBatch(hash, a, o)).Some?
    ensures BooksOf(Current(ContinueBatch(hash, a, o)).value) ==
      BooksOf(PostAll(hash, a.batch.value, NextEntry(a.batch.value, o)))
  {
    var bp := a.batch.value;
    var es := NextEntry(bp, o);
    if es != [] {
      assert es[..0] == [] && PostAll(hash, bp, es) == Post(hash, bp, es[0]);
      PostReadsBooks(hash, bp, bp.(remaining := bp.remaining[1..]), es[0]);
    }
  }

  lemma PostTwo(hash: HashFn, bp: Progress, en: Entry, more: seq<Entry>)
    requires |more| <= 1
    ensures PostAll(hash, bp, [en] + more) == PostAll(hash, Post(hash, bp, en), more)
  {
    var es := [en] + more;
    assert [en][..0] == [] && PostAll(hash, bp, [en]) == Post(hash, bp, en);
    if more == [] {
      assert es == [en];
    } else {
      assert es[..1] == [en] && more[..0] == [];
    }
  }

  /** A file is settled and the batch goes on. */
  lemma SettleEnters(hash: HashFn, a: App, bp: Progress, en: Entry, o: FileOutcome)
    requires Coherent(a) && a.batch == Some(Post(hash, bp, en)) && !bp.aborted
    ensures Current(ContinueBatch(hash, a, o)).Some?
    ensures BooksOf(Current(ContinueBatch(hash, a, o)).value) == BooksOf(PostAll(hash, bp, [en] + NextEntry(bp, o)))
  {
    ContinueEnters(hash, a, o);
    assert NextEntry(Post(hash, bp, en), o) == NextEntry(bp, o);
    PostTwo(hash, bp, en, NextEntry(bp, o));
  }

  lemma AnswerEnters(hash: HashFn, a: App, e: Event, o: FileOutcome)
    requires Coherent(a) && Enabled(a, e) && a.batch.Some? && (e.Confirm? || e.Cancel?)
    ensures Current(Step(hash, a, e, o)).Some?
    ensures BooksOf(Current(Step(hash, a, e, o)).value) == BooksOf(PostAll(hash, a.batch.value, Entered(a, e, o)))
  {
    var bp, closed := a.batch.value, a.(pending := None, promptVisible := false);
    var es := Settled(a, e);
    if es != [] {
      SettleEnters(hash, closed.(batch := Some(Post(hash, bp, es[0]))), bp, es[0], o);
      assert es == [es[0]];
    } else {
      assert Entered(a, e, o) == [];
    }
  }

  lemma ScanEnters(hash: HashFn, a: App, k: nat, s: ScanOutcome, o: FileOutcome)
    requires Coherent(a) && a.batch.Some? && k < |a.scans|
    ensures Current(ScanStep(hash, a, k, s, o)).Some?
    ensures BooksOf(Current(ScanStep(hash, a, k, s, o)).value) ==
      BooksOf(PostAll(hash, a.batch.value, Entered(a, ScanDone(k, s), o)))
  {
    var bp, b := a.batch.value, a.(scans := a.scans[..k] + a.scans[k + 1..]);
    var es := Settled(a, ScanDone(k, s));
    if es != [] {
      SettleEnters(hash, b.(batch := Some(Post(hash, bp, es[0]))), bp, es[0], o);
      assert es == [es[0]];
    } else {
      assert Entered(a, ScanDone(k, s), o) == [];
    }
  }

  lemma TickEnters(hash: HashFn, a: App, o: FileOutcome)
    requires Coherent(a) && a.timers > 0 && a.batch.Some?
    ensures Current(Step(hash, a, Tick, o)).Some?
    ensures BooksOf(Current(Step(hash, a, Tick, o)).value) == BooksOf(PostAll(hash, a.batch.value, Entered(a, Tick, o)))
  {
    ContinueEnters(hash, a.(timers := a.timers - 1), o);
    assert [] + NextEntry(a.batch.value, o) == NextEntry(a.batch.value, o);
  }

  lemma PauseEnters(hash: HashFn, a: App, o: FileOutcome)
    requires Coherent(a) && a.batch.Some?
    ensures Current(Step(hash, a, TogglePause, o)).Some?
    ensures BooksOf(Current(Step(hash, a, TogglePause, o)).value) ==
      BooksOf(PostAll(hash, a.batch.value, Entered(a, TogglePause, o)))
  {
    var bp := a.batch.value;
    var q := bp.(paused := false);
    if bp.paused {
      assert [] + NextEntry(q, o) == NextEntry(q, o);
      ContinueEnters(hash, a.(batch := Some(q)), o);
      SamePostings(hash, bp, q, NextEntry(q, o));
    } else {
      assert Entered(a, TogglePause, o) == [];
    }
  }

  lemma AbortEnters(hash: HashFn, a: App, o: FileOutcome)
    requires Coherent(a) && a.batch.Some?
    ensures Current(Step(hash, a, Abort, o)).Some?
    ensures BooksOf(Current(Step(hash, a, Abort, o)).value) ==
      BooksOf(PostAll(hash, a.batch.value, Entered(a, Abort, o)))
  {
    assert Entered(a, Abort, o) == [];
  }

  lemma {:induction false} SamePostings(hash: HashFn, p: Progress, q: Progress, es: seq<Entry>)
    requires BooksOf(p) == BooksOf(q)
    ensures BooksOf(PostAll(hash, p, es)) == BooksOf(PostAll(hash, q, es))
    decreases |es|
  {
    if es != [] {
      var front := es[..|es| - 1];
      SamePostings(hash, p, q, front);
      PostReadsBooks(hash, PostAll(hash, p, front), PostAll(hash, q, front), es[|es| - 1]);
    }
  }

  lemma StepEnters(hash: HashFn, a: App, e: Event, o: FileOutcome)
    requires Coherent(a) && Enabled(a, e)
    ensures Current(Step(hash, a, e, o)).Some?
    ensures BooksOf(Current(Step(hash, a, e, o)).value) == BooksOf(PostAll(hash, Current(a).value, Entered(a, e, o)))
  {
    if a.batch.None? {
      FinishedIsFinal(hash, a, e, o);
    } else {
      match e {
        case Confirm(_) => AnswerEnters(hash, a, e, o);
        case Cancel => AnswerEnters(hash, a, e, o);
        case ScanDone(k, s) => ScanEnters(hash, a, k, s, o);
        case Tick => TickEnters(hash, a, o);
        case TogglePause => PauseEnters(hash, a, o);
        case Abort => AbortEnters(hash, a, o);
      }
    }
  }

  // ---- Every run ----

  /** Everything entered up to state `k` of a run. */
  ghost function EnteredBy(
    hash: HashFn, z: Origin, o: FileOutcome, moments: seq<Moment>, states: seq<App>, k: nat): seq<Entry>
    requires Follows(hash, moments, states) && k < |states|
  {
    if k == 0 then NextEntry(Begin(z.paths, z.session, z.persisted).batch.value, o)
    else
      assert StepsAt(hash, moments, states, k - 1);
      EnteredBy(hash, z, o, moments, states, k - 1) + Entered(states[k - 1], moments[k - 1].e, moments[k - 1].o)
  }

  lemma StartBooks(hash: HashFn, z: Origin, o: FileOutcome)
    ensures var a := StartBatch(hash, z.paths, z.session, z.persisted, o);
      && Current(a).Some?
      && BooksOfEntries(
        hash, z, BooksOf(Current(a).value), NextEntry(Begin(z.paths, z.session, z.persisted).batch.value, o))
  {
    var a := Begin(z.paths, z.session, z.persisted);
    var bp := a.batch.value;
    BeginIsCoherent(hash, z, "");
    ContinueEnters(hash, a, o);
    assert Rows([]) == [] && Results([]) == [];
    PostAllEnters(hash, z, bp, [], NextEntry(bp, o));
    assert [] + NextEntry(bp, o) == NextEntry(bp, o);
  }

  lemma NextBooks(hash: HashFn, z: Origin, a: App, m: Moment, es: seq<Entry>)
    requires Coherent(a) && Enabled(a, m.e) && BooksOfEntries(hash, z, BooksOf(Current(a).value), es)
    ensures var b := Step(hash, a, m.e, m.o);
      Current(b).Some? && BooksOfEntries(hash, z, BooksOf(Current(b).value), es + Entered(a, m.e, m.o))
  {
    StepEnters(hash, a, m.e, m.o);
    PostAllEnters(hash, z, Current(a).value, es, Entered(a, m.e, m.o));
  }

  /**
    In every state of every run the books are exactly those of the files entered so far, in the
    order they were entered: the results list them, the rows are theirs after dedupe, and the bank
    and opening balance are those of the earliest file that has one.
   */
  lemma {:induction false} BooksAreOfEntries(hash: HashFn, z: Origin, o: FileOutcome, moments: seq<Moment>,
      states: seq<App>, k: nat)
    requires BatchLaws.IsRun(hash, z, o, moments, states) && k < |states|
    ensures Current(states[k]).Some?
    ensures BooksOfEntries(hash, z, BooksOf(Current(states[k]).value), EnteredBy(hash, z, o, moments, states, k))
  {
    if k == 0 {
      StartBooks(hash, z, o);
    } else {
      BooksAreOfEntries(hash, z, o, moments, states, k - 1);
      assert Coherent(states[k - 1]) by { FilesAreConserved(hash, z, o, moments, states, k - 1, ""); }
      assert StepsAt(hash, moments, states, k - 1);
      NextBooks(hash, z, states[k - 1], moments[k - 1], EnteredBy(hash, z, o, moments, states, k - 1));
    }
  }

  /** Once a run has an opening balance or a bank, no event changes it. */
  lemma FirstOnesStay(hash: HashFn, a: App, e: Event, o: FileOutcome)
    requires Coherent(a) && Enabled(a, e)
    ensures Current(Step(hash, a, e, o)).Some?
    ensures var p, q := Current(a).value, Current(Step(hash, a, e, o)).value;
      && (p.firstOpening.Some? ==> q.firstOpening == p.firstOpening)
      && (p.firstBank != "" ==> q.firstBank == p.firstBank)
  {
    StepEnters(hash, a, e, o);
    PostingsKeepFirst(hash, Current(a).value, Entered(a, e, o));
  }

  lemma {:induction false} PostingsKeepFirst(hash: HashFn, bp: Progress, es: seq<Entry>)
    ensures bp.firstOpening.Some? ==> PostAll(hash, bp, es).firstOpening == bp.firstOpening
    ensures bp.firstBank != "" ==> PostAll(hash, bp, es).firstBank == bp.firstBank
    decreases |es|
  {
    if es != [] { PostingsKeepFirst(hash, bp, es[..|es| - 1]); }
  }

  /** Two files, 1000.00 and 2500.00 at their opening: the batch ends with the first. */
  lemma FirstOpeningWins(hash: HashFn, x: Path, y: Path, p: Parse, q: Parse)
    requires p.opening == Some(100000) && q.opening == Some(250000)
    ensures
      var a0 := StartBatch(hash, [x, y], [], {}, Parsed(p));
      var a1 := Step(hash, a0, Tick, Parsed(q));
      var a2 := Step(hash, a1, Tick, Failed);
      a2.finished.Some? && a2.finished.value.firstOpening == Some(100000) && |a2.finished.value.results| == 2
  {
  }

  /** An aborted batch ends at once, paused or not. */
  lemma AbortBeatsPause(hash: HashFn, a: App, o: FileOutcome)
    requires a.batch.Some? && a.batch.value.aborted
    ensures ContinueBatch(hash, a, o).batch.None? && ContinueBatch(hash, a, o).finished == a.batch
  {
  }
}
