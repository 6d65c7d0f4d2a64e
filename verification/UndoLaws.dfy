/** What a run of saves, undos, deletes, added rows and suspense marks leaves behind. */
module UndoLaws {
  import opened Text
  import opened Decimal
  import opened Transactions
  import opened Classifier
  import opened UndoStack

  // ---- The acts that still count ----

  ghost predicate UniqueIds(s: seq<Transaction>) {
    forall i, j :: 0 <= i < j < |s| ==> s[i].id != s[j].id
  }

  /** A save that has not been undone, or a suspense mark that no undo has overwritten. */
  datatype Act = Saved(id: string, form: Form) | Suspended(id: string)

  ghost function Replay(acts: seq<Act>, id: string, f: Fields): Fields {
    if acts == [] then f
    else
      var before, last := Replay(acts[..|acts| - 1], id, f), acts[|acts| - 1];
      if last.id != id then before
      else
        match last
        case Saved(_, form) => SaveFields(form, before)
        case Suspended(_) => SuspendFields(before)
  }

  /** The row of the latest save. */
  ghost function LastSaved(acts: seq<Act>): Option<string> {
    if acts == [] then None
    else if acts[|acts| - 1].Saved? then Some(acts[|acts| - 1].id)
    else LastSaved(acts[..|acts| - 1])
  }

  /** Without the latest save, and without the marks put on that row since. */
  ghost function Retract(acts: seq<Act>, id: string): seq<Act>
    requires LastSaved(acts) == Some(id)
  {
    var front, last := acts[..|acts| - 1], acts[|acts| - 1];
    if last.Saved? then front
    else if last.id == id then Retract(front, id)
    else Retract(front, id) + [last]
  }

  /** Without anything done to row `id`. */
  ghost function Forget(acts: seq<Act>, id: string): seq<Act> {
    if acts == [] then []
    else
      var front, last := Forget(acts[..|acts| - 1], id), acts[|acts| - 1];
      if last.id == id then front else front + [last]
  }

  /** The fields every row came with, and the acts that still count. */
  datatype Ledger = Ledger(origins: map<string, Fields>, acts: seq<Act>)

  ghost function Note(l: Ledger, e: Edits, op: Op): Ledger {
    match op
    case Save(at, form) => if At(e, at).Some? then l.(acts := l.acts + [Saved(e.txns[at.value].id, form)]) else l
    case Undo => if LastSaved(l.acts).Some? then l.(acts := Retract(l.acts, LastSaved(l.acts).value)) else l
    case Delete(_) => l
    case Add(row) =>
      var t := NewRow(e.txns, row);
      Ledger(l.origins[t.id := FieldsOf(t)], Forget(l.acts, t.id))
    case MarkSuspense(at) => if At(e, at).Some? then l.(acts := l.acts + [Suspended(e.txns[at.value].id)]) else l
  }

  /** One undo entry per save that counts, holding the row's fields before that save. */
  ghost predicate StackMatches(m: map<string, Fields>, acts: seq<Act>, stack: seq<UndoEntry>) {
    if acts == [] then stack == []
    else
      var front, last := acts[..|acts| - 1], acts[|acts| - 1];
      match last
      case Suspended(_) => StackMatches(m, front, stack)
      case Saved(id, _) =>
        && stack != [] && id in m
        && stack[|stack| - 1] == UndoEntry(id, Replay(front, id, m[id]))
        && StackMatches(m, front, stack[..|stack| - 1])
  }

  ghost predicate RowsMatch(l: Ledger, s: seq<Transaction>) {
    forall i :: 0 <= i < |s| ==> RowMatches(l, s[i])
  }

  ghost predicate RowMatches(l: Ledger, t: Transaction) {
    t.id in l.origins && FieldsOf(t) == Replay(l.acts, t.id, l.origins[t.id])
  }

  ghost predicate Consistent(l: Ledger, e: Edits) {
    UniqueIds(e.txns) && StackMatches(l.origins, l.acts, e.stack) && RowsMatch(l, e.txns)
  }

  lemma ReplaySnoc(acts: seq<Act>, a: Act, id: string, f: Fields)
    ensures Replay(acts + [a], id, f) ==
      if a.id != id then Replay(acts, id, f)
      else if a.Saved? then SaveFields(a.form, Replay(acts, id, f)) else SuspendFields(Replay(acts, id, f))
  {
    assert (acts + [a])[..|acts|] == acts;
  }

  // ---- Each action keeps the ledger ----

  lemma ActKeeps(l: Ledger, e: Edits, i: nat, a: Act, t: Transaction)
    requires Consistent(l, e) && i < |e.txns| && a.id == e.txns[i].id == t.id
    requires FieldsOf(t) ==
      if a.Saved? then SaveFields(a.form, FieldsOf(e.txns[i])) else SuspendFields(FieldsOf(e.txns[i]))
    ensures UniqueIds(e.txns[i := t]) && RowsMatch(l.(acts := l.acts + [a]), e.txns[i := t])
  {
    var s := e.txns[i := t];
    forall j | 0 <= j < |s| ensures RowMatches(l.(acts := l.acts + [a]), s[j]) {
      assert RowMatches(l, e.txns[j]);
      ReplaySnoc(l.acts, a, s[j].id, l.origins[s[j].id]);
    }
  }

  lemma SaveKeeps(l: Ledger, e: Edits, i: nat, form: Form)
    requires Consistent(l, e) && i < |e.txns|
    ensures Consistent(Note(l, e, Save(Some(i), form)), Do(e, Save(Some(i), form)))
  {
    var t := e.txns[i];
    var a := Saved(t.id, form);
    ActKeeps(l, e, i, a, SaveRow(form, t));
    assert RowMatches(l, t);
    assert (l.acts + [a])[..|l.acts|] == l.acts;
    var stack := e.stack + [UndoEntry(t.id, FieldsOf(t))];
    assert stack[..|stack| - 1] == e.stack;
    assert StackMatches(l.origins, l.acts + [a], stack);
  }

  lemma SuspenseKeeps(l: Ledger, e: Edits, i: nat)
    requires Consistent(l, e) && i < |e.txns|
    ensures Consistent(Note(l, e, MarkSuspense(Some(i))), Do(e, MarkSuspense(Some(i))))
  {
    var a := Suspended(e.txns[i].id);
    ActKeeps(l, e, i, a, e.txns[i].(status := Suspense));
    assert (l.acts + [a])[..|l.acts|] == l.acts;
  }

  /** The top undo entry is the latest save's, and taking both away leaves stack and acts matched. */
  lemma {:induction false} StackTop(m: map<string, Fields>, acts: seq<Act>, stack: seq<UndoEntry>)
    requires StackMatches(m, acts, stack)
    ensures stack == [] <==> LastSaved(acts).None?
    ensures stack != [] ==>
      var id := stack[|stack| - 1].id;
      && LastSaved(acts) == Some(id) && id in m
      && stack[|stack| - 1].fields == Replay(Retract(acts, id), id, m[id])
      && StackMatches(m, Retract(acts, id), stack[..|stack| - 1])
    decreases |acts|
  {
    if acts != [] && acts[|acts| - 1].Suspended? {
      var front, last := acts[..|acts| - 1], acts[|acts| - 1];
      StackTop(m, front, stack);
      if stack != [] {
        var id := stack[|stack| - 1].id;
        var r := Retract(front, id);
        ReplaySnoc(r, last, id, m[id]);
        assert (r + [last])[..|r|] == r;
      }
    }
  }

  lemma {:induction false} RetractSparesOthers(acts: seq<Act>, id: string, x: string, f: Fields)
    requires LastSaved(acts) == Some(id) && x != id
    ensures Replay(Retract(acts, id), x, f) == Replay(acts, x, f)
    decreases |acts|
  {
    var front, last := acts[..|acts| - 1], acts[|acts| - 1];
    if last.Suspended? {
      RetractSparesOthers(front, id, x, f);
      ReplaySnoc(Retract(front, id), last, x, f);
    }
  }

  lemma UndoKeeps(l: Ledger, e: Edits)
    requires Consistent(l, e)
    ensures Consistent(Note(l, e, Undo), Do(e, Undo))
  {
    StackTop(l.origins, l.acts, e.stack);
    if e.stack != [] {
      var entry := e.stack[|e.stack| - 1];
      var p, d, n := FirstWithId(e.txns, entry.id), Do(e, Undo), Note(l, e, Undo);
      assert forall j :: 0 <= j < |d.txns| ==> d.txns[j].id == e.txns[j].id;
      forall j | 0 <= j < |d.txns| ensures RowMatches(n, d.txns[j]) {
        assert RowMatches(l, e.txns[j]);
        if j != p {
          assert e.txns[j].id != entry.id;
          RetractSparesOthers(l.acts, entry.id, e.txns[j].id, l.origins[e.txns[j].id]);
        }
      }
    }
  }

  lemma DeleteKeeps(l: Ledger, e: Edits, i: nat)
    requires Consistent(l, e) && i < |e.txns|
    ensures Consistent(l, Do(e, Delete(Some(i))))
  {
    var d := Do(e, Delete(Some(i)));
    assert forall j :: 0 <= j < |d.txns| ==> d.txns[j] == e.txns[if j < i then j else j + 1];
  }

  /** The id of the next added row is in no row and no undo entry. */
  predicate AddIsSafe(e: Edits) {
    && (forall i :: 0 <= i < |e.txns| ==> e.txns[i].id != ManualId(|e.txns|))
    && (forall k :: 0 <= k < |e.stack| ==> e.stack[k].id != ManualId(|e.txns|))
  }

  lemma {:induction false} ForgetSparesOthers(acts: seq<Act>, id: string, x: string, f: Fields)
    ensures Replay(Forget(acts, id), x, f) == if x == id then f else Replay(acts, x, f)
    decreases |acts|
  {
    if acts != [] {
      var front, last := acts[..|acts| - 1], acts[|acts| - 1];
      ForgetSparesOthers(front, id, x, f);
      ReplaySnoc(Forget(front, id), last, x, f);
    }
  }

  lemma {:induction false} ForgetKeepsStack(m: map<string, Fields>, acts: seq<Act>, stack: seq<UndoEntry>, id: string,
      f: Fields)
    requires StackMatches(m, acts, stack) && forall k :: 0 <= k < |stack| ==> stack[k].id != id
    ensures StackMatches(m[id := f], Forget(acts, id), stack)
    decreases |acts|
  {
    if acts != [] {
      var front, last := acts[..|acts| - 1], acts[|acts| - 1];
      var kept := Forget(front, id);
      assert (kept + [last])[..|kept|] == kept;
      if last.Saved? {
        ForgetKeepsStack(m, front, stack[..|stack| - 1], id, f);
        assert stack[|stack| - 1].id == last.id;
        ForgetSparesOthers(front, id, last.id, m[last.id]);
      } else {
        ForgetKeepsStack(m, front, stack, id, f);
      }
    }
  }

  lemma AddKeeps(l: Ledger, e: Edits, row: Transaction)
    requires Consistent(l, e) && AddIsSafe(e)
    ensures Consistent(Note(l, e, Add(row)), Do(e, Add(row)))
  {
    var t, n := NewRow(e.txns, row), Note(l, e, Add(row));
    ForgetKeepsStack(l.origins, l.acts, e.stack, t.id, FieldsOf(t));
    var s := AddManual(e.txns, row);
    forall j | 0 <= j < |s| ensures RowMatches(n, s[j]) {
      if j < |e.txns| { assert RowMatches(l, e.txns[j]); }
      ForgetSparesOthers(l.acts, t.id, s[j].id, n.origins[s[j].id]);
    }
  }

  lemma DoKeeps(l: Ledger, e: Edits, op: Op)
    requires Consistent(l, e) && (op.Add? ==> AddIsSafe(e))
    ensures Consistent(Note(l, e, op), Do(e, op))
  {
    match op {
      case Save(at, form) => if At(e, at).Some? { SaveKeeps(l, e, at.value, form); }
      case Undo => UndoKeeps(l, e);
      case Delete(at) => if At(e, at).Some? { DeleteKeeps(l, e, at.value); }
      case Add(row) => AddKeeps(l, e, row);
      case MarkSuspense(at) => if At(e, at).Some? { SuspenseKeeps(l, e, at.value); }
    }
  }

  // ---- Whole runs ----

  function DoAll(e: Edits, ops: seq<Op>): Edits {
    if ops == [] then e else Do(DoAll(e, ops[..|ops| - 1]), ops[|ops| - 1])
  }

  ghost function NoteAll(l: Ledger, e: Edits, ops: seq<Op>): Ledger {
    if ops == [] then l
    else
      var front := ops[..|ops| - 1];
      Note(NoteAll(l, e, front), DoAll(e, front), ops[|ops| - 1])
  }

  /** Every row added on the way has an id that no row and no undo entry has at that moment. */
  predicate AddsAreSafe(e: Edits, ops: seq<Op>) {
    ops == [] ||
    (AddsAreSafe(e, ops[..|ops| - 1]) && (ops[|ops| - 1].Add? ==> AddIsSafe(DoAll(e, ops[..|ops| - 1]))))
  }

  /** No row added on the way gets the id `id`. */
  predicate NeverAdds(e: Edits, ops: seq<Op>, id: string) {
    ops == [] ||
    (NeverAdds(e, ops[..|ops| - 1], id) && (ops[|ops| - 1].Add? ==> ManualId(|DoAll(e, ops[..|ops| - 1]).txns|) != id))
  }

  /** The ledger of a session just loaded. */
  ghost function Opening(s: seq<Transaction>): Ledger
    requires UniqueIds(s)
  {
    Ledger(map i | 0 <= i < |s| :: s[i].id := FieldsOf(s[i]), [])
  }

  lemma {:induction false} AllConsistent(s: seq<Transaction>, ops: seq<Op>)
    requires UniqueIds(s) && AddsAreSafe(Edits(s, []), ops)
    ensures Consistent(NoteAll(Opening(s), Edits(s, []), ops), DoAll(Edits(s, []), ops))
    decreases |ops|
  {
    if ops != [] {
      var front := ops[..|ops| - 1];
      AllConsistent(s, front);
      DoKeeps(NoteAll(Opening(s), Edits(s, []), front), DoAll(Edits(s, []), front), ops[|ops| - 1]);
    }
  }

  lemma {:induction false} OriginsStay(l: Ledger, e: Edits, ops: seq<Op>, id: string)
    requires id in l.origins && NeverAdds(e, ops, id)
    ensures id in NoteAll(l, e, ops).origins && NoteAll(l, e, ops).origins[id] == l.origins[id]
    decreases |ops|
  {
    if ops != [] { OriginsStay(l, e, ops[..|ops| - 1], id); }
  }

  /**
    After any interleaving of saves, undos, deletes, added rows and suspense marks, every row's
    fields are a replay, on the fields it came with, of just the acts that still count.
   */
  lemma UndoIsReplay(s: seq<Transaction>, ops: seq<Op>, j: nat)
    requires UniqueIds(s) && AddsAreSafe(Edits(s, []), ops) && j < |DoAll(Edits(s, []), ops).txns|
    ensures var l, t := NoteAll(Opening(s), Edits(s, []), ops), DoAll(Edits(s, []), ops).txns[j];
      t.id in l.origins && FieldsOf(t) == Replay(l.acts, t.id, l.origins[t.id])
  {
    AllConsistent(s, ops);
    assert RowMatches(NoteAll(Opening(s), Edits(s, []), ops), DoAll(Edits(s, []), ops).txns[j]);
  }

  /** For a row the session started with, and whose id no added row takes, those are the fields it started with. */
  lemma LoadedRowIsReplay(s: seq<Transaction>, ops: seq<Op>, i: nat, j: nat)
    requires UniqueIds(s) && AddsAreSafe(Edits(s, []), ops)
    requires i < |s| && j < |DoAll(Edits(s, []), ops).txns| && DoAll(Edits(s, []), ops).txns[j].id == s[i].id
    requires NeverAdds(Edits(s, []), ops, s[i].id)
    ensures FieldsOf(DoAll(Edits(s, []), ops).txns[j]) ==
        Replay(NoteAll(Opening(s), Edits(s, []), ops).acts, s[i].id, FieldsOf(s[i]))
  {
    UndoIsReplay(s, ops, j);
    assert Opening(s).origins[s[i].id] == FieldsOf(s[i]);
    OriginsStay(Opening(s), Edits(s, []), ops, s[i].id);
  }

  // ---- When an undo overwrites a suspense mark ----

  /** Without the latest save alone. */
  ghost function WithoutLastSave(acts: seq<Act>): seq<Act> {
    if acts == [] then []
    else if acts[|acts| - 1].Saved? then acts[..|acts| - 1]
    else WithoutLastSave(acts[..|acts| - 1]) + [acts[|acts| - 1]]
  }

  /** The row of the latest save has been marked since. */
  ghost predicate MarkedSince(acts: seq<Act>, id: string) {
    acts != [] && acts[|acts| - 1].Suspended? && (acts[|acts| - 1].id == id || MarkedSince(acts[..|acts| - 1], id))
  }

  lemma {:induction false} MarksSinceSave(acts: seq<Act>, id: string, f: Fields)
    requires LastSaved(acts) == Some(id)
    ensures var r := Replay(Retract(acts, id), id, f);
      Replay(WithoutLastSave(acts), id, f) == if MarkedSince(acts, id) then SuspendFields(r) else r
    ensures Replay(acts, id, f).status == if MarkedSince(acts, id) then Suspense else Classified
    decreases |acts|
  {
    var front, last := acts[..|acts| - 1], acts[|acts| - 1];
    if last.Suspended? {
      MarksSinceSave(front, id, f);
      ReplaySnoc(Retract(front, id), last, id, f);
      ReplaySnoc(WithoutLastSave(front), last, id, f);
    }
  }

  /**
    An undo takes back the latest save and nothing else if and only if that row is not a suspense
    row now, or already was one before the save: otherwise the mark put on it since is lost.
   */
  lemma UndoTakesBackOnlyTheSaveIff(l: Ledger, e: Edits)
    requires Consistent(l, e) && e.stack != [] && FirstWithId(e.txns, e.stack[|e.stack| - 1].id) < |e.txns|
    ensures var entry := e.stack[|e.stack| - 1];
      var p := FirstWithId(e.txns, entry.id);
      && entry.id in l.origins
      && (FieldsOf(Do(e, Undo).txns[p]) == Replay(WithoutLastSave(l.acts), entry.id, l.origins[entry.id])
          <==> e.txns[p].status != Suspense || entry.fields.status == Suspense)
  {
    StackTop(l.origins, l.acts, e.stack);
    var entry := e.stack[|e.stack| - 1];
    MarksSinceSave(l.acts, entry.id, l.origins[entry.id]);
    assert RowMatches(l, e.txns[FirstWithId(e.txns, entry.id)]);
    assert FieldsOf(Do(e, Undo).txns[FirstWithId(e.txns, entry.id)]) == entry.fields;
  }

  /** A session that loses a mark: save a row, mark it as suspense, undo the save. */
  lemma SuspenseMarkIsLost(t: Transaction, form: Form)
    requires t.status != Suspense
    ensures
      var marked := Do(Do(Edits([t], []), Save(Some(0), form)), MarkSuspense(Some(0)));
      var undone := Do(marked, Undo);
      && |marked.txns| == 1 && marked.txns[0].status == Suspense
      && undone.txns == [t.(source := "user")] && undone.txns[0].status == t.status
  {
    var e, entry := Edits([t], []), UndoEntry(t.id, FieldsOf(t));
    var u := SaveRow(form, t);
    var saved := Do(e, Save(Some(0), form));
    assert saved == Edits([u], [entry]);
    var marked := Do(saved, MarkSuspense(Some(0)));
    assert marked == Edits([u.(status := Suspense)], [entry]);
    UndoOfOne(u.(status := Suspense), entry);
    assert Restore(u.(status := Suspense), FieldsOf(t)) == t.(source := "user");
  }

  lemma UndoOfOne(u: Transaction, entry: UndoEntry)
    requires u.id == entry.id
    ensures Do(Edits([u], [entry]), Undo).txns == [Restore(u, entry.fields)]
  {
    assert FirstWithId([u], entry.id) == 0;
  }

  // ---- What undo does not restore ----

  /** Saving never changes an id, so the undo looks where it would have looked before. */
  lemma SaveKeepsIds(e: Edits, i: nat, form: Form, id: string)
    requires i < |e.txns|
    ensures FirstWithId(Do(e, Save(Some(i), form)).txns, id) == FirstWithId(e.txns, id)
  {
    var d := Do(e, Save(Some(i), form));
    assert forall j :: 0 <= j < |e.txns| ==> d.txns[j].id == e.txns[j].id;
    SameFirst(d.txns, e.txns, id);
  }

  lemma {:induction false} SameFirst(s: seq<Transaction>, r: seq<Transaction>, id: string)
    requires |s| == |r| && forall j :: 0 <= j < |s| ==> s[j].id == r[j].id
    ensures FirstWithId(s, id) == FirstWithId(r, id)
  {
    if s != [] { SameFirst(s[1..], r[1..], id); }
  }

  /** A save and the undo of it, for every session: the remembered fields go to the first row with that id. */
  lemma SaveThenUndo(e: Edits, i: nat, form: Form)
    requires i < |e.txns|
    ensures var k, u := FirstWithId(e.txns, e.txns[i].id), Do(Do(e, Save(Some(i), form)), Undo);
      && k <= i && u.stack == e.stack && |u.txns| == |e.txns|
      && u.txns[k] == Restore(if k == i then SaveRow(form, e.txns[i]) else e.txns[k], FieldsOf(e.txns[i]))
      && (k != i ==> u.txns[i] == SaveRow(form, e.txns[i]))
      && forall j :: 0 <= j < |e.txns| && j != i && j != k ==> u.txns[j] == e.txns[j]
  {
    var d := Do(e, Save(Some(i), form));
    assert d.stack[..|e.stack|] == e.stack;
    SaveKeepsIds(e, i, form, e.txns[i].id);
  }

  /** Undo takes back every possible save of a row exactly when no earlier row has the same id. */
  lemma UndoTakesBackIff(e: Edits, i: nat)
    requires i < |e.txns|
    ensures (forall form :: FieldsOf(Do(Do(e, Save(Some(i), form)), Undo).txns[i]) == FieldsOf(e.txns[i]))
      <==> forall j :: 0 <= j < i ==> e.txns[j].id != e.txns[i].id
  {
    var k := FirstWithId(e.txns, e.txns[i].id);
    forall form ensures k == i ==> FieldsOf(Do(Do(e, Save(Some(i), form)), Undo).txns[i]) == FieldsOf(e.txns[i]) {
      SaveThenUndo(e, i, form);
    }
    if k != i {
      var form := Form(e.txns[i].vendor + "x", "", "", false);
      SaveThenUndo(e, i, form);
      assert FieldsOf(Do(Do(e, Save(Some(i), form)), Undo).txns[i]).vendor == form.vendor;
      assert |form.vendor| != |e.txns[i].vendor|;
    }
  }

  /** Where undo takes a save back, it gives the whole session back exactly when the row was already the user's. */
  lemma UndoAfterSave(e: Edits, i: nat, form: Form)
    requires i < |e.txns| && forall j :: 0 <= j < i ==> e.txns[j].id != e.txns[i].id
    ensures Do(Do(e, Save(Some(i), form)), Undo) == e <==> e.txns[i].source == "user"
    ensures Do(Do(e, Save(Some(i), form)), Undo) == e.(txns := e.txns[i := e.txns[i].(source := "user")])
  {
    var t := e.txns[i];
    SaveThenUndo(e, i, form);
    assert Restore(SaveRow(form, t), FieldsOf(t)) == t.(source := "user");
    var u := Do(Do(e, Save(Some(i), form)), Undo);
    assert u.txns == e.txns[i := t.(source := "user")];
    if u == e { assert u.txns[i] == t; }
    if t.source == "user" { assert e.txns[i := t] == e.txns; }
  }

  /** The undone row stays locked against auto-classification, whatever it was before. */
  lemma UndoneRowStaysLocked(e: Edits, i: nat, form: Form)
    requires i < |e.txns|
    ensures i < |Do(Do(e, Save(Some(i), form)), Undo).txns|
    ensures Locked(Do(Do(e, Save(Some(i), form)), Undo).txns[i])
  {
    SaveThenUndo(e, i, form);
  }

  // ---- Where ids stop being unique ----

  lemma AddKeepsUniqueIds(s: seq<Transaction>, t: Transaction)
    requires UniqueIds(s)
    ensures UniqueIds(AddManual(s, t)) <==> forall i :: 0 <= i < |s| ==> s[i].id != ManualId(|s|)
  {
    var r := AddManual(s, t);
    assert forall i :: 0 <= i < |s| ==> r[i] == s[i];
    assert r[|s|].id == ManualId(|s|);
  }

  /** Where two rows share an id, undoing a save of the second overwrites the first and leaves the second saved. */
  lemma UndoHitsTheFirst(x: Transaction, y: Transaction, form: Form)
    requires x.id == y.id
    ensures Do(Do(Edits([x, y], []), Save(Some(1), form)), Undo).txns == [Restore(x, FieldsOf(y)), SaveRow(form, y)]
  {
    SaveThenUndo(Edits([x, y], []), 1, form);
  }

  /** Adding, deleting the first row and adding again repeats an id, and an undo then restores the wrong row. */
  lemma RepeatedIdUndoesWrongRow(a: Transaction, b: Transaction, c: Transaction, form: Form)
    ensures
      var rows := AddManual(Do(Edits(AddManual([a], b), []), Delete(Some(0))).txns, c);
      var e := Do(Do(Edits(rows, []), Save(Some(1), form)), Undo);
      && |rows| == 2 && rows[0].id == rows[1].id
      && e.txns == [Restore(rows[0], FieldsOf(rows[1])), SaveRow(form, rows[1])]
  {
    var s1 := AddManual([a], b);
    var s2 := Do(Edits(s1, []), Delete(Some(0))).txns;
    assert s2 == [s1[1]];
    var rows := AddManual(s2, c);
    assert rows == [rows[0], rows[1]];
    assert rows[0].id == ManualId(1) && rows[1].id == ManualId(1);
    UndoHitsTheFirst(rows[0], rows[1], form);
  }

  // ---- When an added row is safe ----

  function Times(step: Edits -> Edits, e: Edits, n: nat): Edits {
    if n == 0 then e else step(Times(step, e, n - 1))
  }

  function UndoTimes(e: Edits, n: nat): Edits {
    Times(d => Do(d, Undo), e, n)
  }

  ghost predicate FirstOfItsId(s: seq<Transaction>, i: nat)
    requires i < |s|
  {
    forall j :: 0 <= j < i ==> s[j].id != s[i].id
  }

  /**
    What the undo of `entry` does to row `i`: nothing unless the row is the first with that id,
    which gets the fields.
   */
  ghost predicate RowUndone(entry: UndoEntry, s: seq<Transaction>, r: seq<Transaction>, i: nat)
    requires i < |s| == |r|
  {
    && r[i].id == s[i].id
    && (entry.id != s[i].id ==> r[i] == s[i])
    && (entry.id == s[i].id && FirstOfItsId(s, i) ==> FieldsOf(r[i]) == entry.fields)
  }

  ghost predicate Undoes(e: Edits, d: Edits) {
    e.stack != [] ==>
      && d.stack == e.stack[..|e.stack| - 1] && |d.txns| == |e.txns|
      && RowsUndone(e.stack[|e.stack| - 1], e.txns, d.txns)
  }

  ghost predicate RowsUndone(entry: UndoEntry, s: seq<Transaction>, r: seq<Transaction>)
    requires |s| == |r|
  {
    forall i :: 0 <= i < |s| ==> RowUndone(entry, s, r, i)
  }

  lemma UndoDoes(e: Edits)
    ensures Undoes(e, Do(e, Undo))
  {
    if e.stack != [] {
      var k := FirstWithId(e.txns, e.stack[|e.stack| - 1].id);
    }
  }

  lemma {:induction false} TimesShape(step: Edits -> Edits, e: Edits, n: nat)
    requires n <= |e.stack| && forall d :: Undoes(d, step(d))
    ensures Times(step, e, n).stack == e.stack[..|e.stack| - n] && |Times(step, e, n).txns| == |e.txns|
    ensures forall i :: 0 <= i < |e.txns| ==> Times(step, e, n).txns[i].id == e.txns[i].id
  {
    if n > 0 {
      TimesShape(step, e, n - 1);
      var u := Times(step, e, n - 1);
      assert Undoes(u, step(u));
      assert u.stack[..|u.stack| - 1] == e.stack[..|e.stack| - n];
      forall i | 0 <= i < |e.txns| ensures step(u).txns[i].id == e.txns[i].id {
        assert RowUndone(u.stack[|u.stack| - 1], u.txns, step(u).txns, i);
      }
    }
  }

  lemma {:induction false} Untouched(step: Edits -> Edits, e: Edits, n: nat, i: nat)
    requires n <= |e.stack| && i < |e.txns| && forall d :: Undoes(d, step(d))
    requires forall k :: |e.stack| - n <= k < |e.stack| ==> e.stack[k].id != e.txns[i].id
    ensures |Times(step, e, n).txns| == |e.txns| && Times(step, e, n).txns[i] == e.txns[i]
  {
    TimesShape(step, e, n);
    if n > 0 {
      TimesShape(step, e, n - 1);
      Untouched(step, e, n - 1, i);
      var u := Times(step, e, n - 1);
      assert Undoes(u, step(u));
      assert u.stack[|u.stack| - 1] == e.stack[|e.stack| - n];
      assert RowUndone(u.stack[|u.stack| - 1], u.txns, step(u).txns, i);
    }
  }

  /** The entry at `q` reaches row `i` when it is undone, if none above it has that row's id. */
  lemma Reached(step: Edits -> Edits, d: Edits, i: nat, q: nat)
    requires i < |d.txns| && q < |d.stack| && d.stack[q].id == d.txns[i].id && forall e :: Undoes(e, step(e))
    requires forall j :: 0 <= j < i ==> d.txns[j].id != d.txns[i].id
    requires forall j :: q < j < |d.stack| ==> d.stack[j].id != d.txns[i].id
    ensures |Times(step, d, |d.stack| - q).txns| == |d.txns|
        && FieldsOf(Times(step, d, |d.stack| - q).txns[i]) == d.stack[q].fields
  {
    var n := |d.stack| - q;
    TimesShape(step, d, n - 1);
    var u := Times(step, d, n - 1);
    assert Undoes(u, step(u));
    assert u.stack[|u.stack| - 1] == d.stack[q];
    assert FirstOfItsId(u.txns, i) && u.txns[i].id == d.txns[i].id;
    assert RowUndone(u.stack[|u.stack| - 1], u.txns, step(u).txns, i);
  }

  lemma UntouchedByUndos(e: Edits, n: nat, i: nat)
    requires n <= |e.stack| && i < |e.txns| && forall k :: |e.stack| - n <= k < |e.stack| ==>
        e.stack[k].id != e.txns[i].id
    ensures |UndoTimes(e, n).txns| == |e.txns| && UndoTimes(e, n).txns[i] == e.txns[i]
  {
    var step := (d: Edits) => Do(d, Undo);
    forall d ensures Undoes(d, step(d)) { UndoDoes(d); }
    Untouched(step, e, n, i);
  }

  lemma EntryReachesRow(d: Edits, i: nat, q: nat)
    requires i < |d.txns| && q < |d.stack| && d.stack[q].id == d.txns[i].id
    requires forall j :: 0 <= j < i ==> d.txns[j].id != d.txns[i].id
    requires forall j :: q < j < |d.stack| ==> d.stack[j].id != d.txns[i].id
    ensures |UndoTimes(d, |d.stack| - q).txns| == |d.txns|
        && FieldsOf(UndoTimes(d, |d.stack| - q).txns[i]) == d.stack[q].fields
  {
    var step := (e: Edits) => Do(e, Undo);
    forall e ensures Undoes(e, step(e)) { UndoDoes(e); }
    Reached(step, d, i, q);
  }

  /** Undos already on the stack never change the fields of the row added now, whatever it is. */
  ghost predicate NewRowKept(e: Edits) {
    forall row, n: nat :: n <= |e.stack| ==> KeptAfter(e, row, n)
  }

  ghost predicate KeptAfter(e: Edits, row: Transaction, n: nat) {
    var s := UndoTimes(Do(e, Add(row)), n).txns;
    |e.txns| < |s| && FieldsOf(s[|e.txns|]) == FieldsOf(NewRow(e.txns, row))
  }

  /** Every save of the row added now can be taken back. */
  ghost predicate NewRowUndoable(e: Edits) {
    forall row, form :: UndoableAfter(e, row, form)
  }

  ghost predicate UndoableAfter(e: Edits, row: Transaction, form: Form) {
    var d := Do(e, Add(row));
    var u := Do(Do(d, Save(Some(|e.txns|), form)), Undo).txns;
    |e.txns| < |u| && FieldsOf(u[|e.txns|]) == FieldsOf(d.txns[|e.txns|])
  }

  lemma OneRowUndoableIff(e: Edits, row: Transaction)
    ensures (forall form :: UndoableAfter(e, row, form)) <==> forall i :: 0 <= i < |e.txns| ==>
        e.txns[i].id != ManualId(|e.txns|)
  {
    var d, n := Do(e, Add(row)), |e.txns|;
    UndoTakesBackIff(d, n);
    assert forall i :: 0 <= i < n ==> d.txns[i] == e.txns[i];
    forall form ensures UndoableAfter(e, row, form) <==>
        FieldsOf(Do(Do(d, Save(Some(n), form)), Undo).txns[n]) == FieldsOf(d.txns[n]) {
      SaveThenUndo(d, n, form);
    }
  }

  lemma NewRowUndoableIff(e: Edits)
    ensures NewRowUndoable(e) <==> forall i :: 0 <= i < |e.txns| ==> e.txns[i].id != ManualId(|e.txns|)
  {
    if NewRowUndoable(e) { OneRowUndoableIff(e, NewTransaction("")); }
    if forall i :: 0 <= i < |e.txns| ==> e.txns[i].id != ManualId(|e.txns|) {
      forall row, form ensures UndoableAfter(e, row, form) { OneRowUndoableIff(e, row); }
    }
  }

  /** The undo entry nearest the top that carries the id of the new row. */
  lemma {:induction false} TopmostEntry(stack: seq<UndoEntry>, id: string, k: nat) returns (q: nat)
    requires k < |stack| && stack[k].id == id
    ensures q < |stack| && stack[q].id == id && forall j :: q < j < |stack| ==> stack[j].id != id
    decreases |stack| - k
  {
    q := k;
    if j: nat :| k < j < |stack| && stack[j].id == id {
      q := TopmostEntry(stack, id, j);
    }
  }

  /** An old entry with the new row's id puts its fields on the new row. */
  lemma OldEntryHitsNewRow(e: Edits, q: nat)
    requires forall i :: 0 <= i < |e.txns| ==> e.txns[i].id != ManualId(|e.txns|)
    requires q < |e.stack| && e.stack[q].id == ManualId(|e.txns|)
    requires forall j :: q < j < |e.stack| ==> e.stack[j].id != ManualId(|e.txns|)
    ensures !NewRowKept(e)
  {
    var row := NewTransaction("").(vendor := e.stack[q].fields.vendor + "x");
    var n := |e.stack| - q;
    EntryReachesRow(Do(e, Add(row)), |e.txns|, q);
    assert FieldsOf(UndoTimes(Do(e, Add(row)), n).txns[|e.txns|]).vendor == e.stack[q].fields.vendor;
    assert |row.vendor| != |e.stack[q].fields.vendor|;
    assert !KeptAfter(e, row, n);
  }

  /**
    Exactly when adding a row is safe: saves of the new row can be taken back, and no undo already
    on the stack reaches it, if and only if no row and no undo entry has the id made from the row count.
   */
  lemma AddIsSafeIff(e: Edits)
    ensures AddIsSafe(e) <==> NewRowUndoable(e) && NewRowKept(e)
  {
    NewRowUndoableIff(e);
    if AddIsSafe(e) {
      forall row, n: nat | n <= |e.stack| ensures KeptAfter(e, row, n) {
        var d := Do(e, Add(row));
        assert d.txns[|e.txns|].id == ManualId(|e.txns|);
        UntouchedByUndos(d, n, |e.txns|);
      }
    } else if NewRowUndoable(e) {
      var k :| 0 <= k < |e.stack| && e.stack[k].id == ManualId(|e.txns|);
      var q := TopmostEntry(e.stack, ManualId(|e.txns|), k);
      OldEntryHitsNewRow(e, q);
    }
  }

  // ---- A save in the row's own fields ----

  /**
    A save takes what the form gives, makes the row the user's, and trusts it fully only when a rule
    is learnt from it.
   */
  lemma SavedRow(e: Edits, i: nat, form: Form)
    requires i < |e.txns|
    ensures var t, u := e.txns[i], Do(e, Save(Some(i), form)).txns[i];
      && u.vendor == (if form.vendor != "" then form.vendor else t.vendor)
      && u.accountHead == (if form.head != "" then form.head else t.accountHead)
      && (form.kind == "Payment" ==> u.txnType == Payment) && (form.kind == "Receipt" ==> u.txnType == Receipt)
      && (form.kind == "Contra" ==> u.txnType == Contra)
      && (form.kind !in {"Payment", "Receipt", "Contra"} ==> u.txnType == t.txnType)
      && u.confidence == (if form.learn then 1.0 else 0.75)
      && u.status == Classified && u.source == "user" && ImportedOf(u) == ImportedOf(t)
  {
  }

  /** An undo gives the row back the five fields it had when its save began. */
  lemma UndoneRow(e: Edits, i: nat, form: Form)
    requires i < |e.txns| && forall j :: 0 <= j < i ==> e.txns[j].id != e.txns[i].id
    ensures var t, u := e.txns[i], Do(Do(e, Save(Some(i), form)), Undo).txns[i];
      && u.vendor == t.vendor && u.accountHead == t.accountHead && u.txnType == t.txnType
      && u.status == t.status && u.confidence == t.confidence && u.source == "user" && ImportedOf(u) == ImportedOf(t)
  {
    UndoAfterSave(e, i, form);
  }

  /** An added row keeps what was typed, and is the user's, added by hand and certain. */
  lemma AddedRow(e: Edits, row: Transaction)
    ensures var s := Do(e, Add(row)).txns;
      && |s| == |e.txns| + 1 && s[..|e.txns|] == e.txns
      && s[|e.txns|] == row.(id := "manual-" + Digits(|e.txns|), status := Manual, source := "user", confidence := 1.0)
  {
  }

  /** A delete takes exactly its row out; those before it stay, those after it move up by one. */
  lemma DeletedRow(e: Edits, i: nat, k: nat)
    requires i < |e.txns| && k < |e.txns| - 1
    ensures var s := Do(e, Delete(Some(i))).txns;
      |s| == |e.txns| - 1 && s[k] == e.txns[if k < i then k else k + 1]
  {
  }

  /** Parking changes the status of its row and nothing else, and leaves no undo entry. */
  lemma ParkedRow(e: Edits, i: nat, k: nat)
    requires i < |e.txns| && k < |e.txns|
    ensures var d := Do(e, MarkSuspense(Some(i)));
      |d.txns| == |e.txns| && d.stack == e.stack
      && d.txns[k] == if k == i then e.txns[i].(status := Suspense) else e.txns[k]
  {
  }
}
