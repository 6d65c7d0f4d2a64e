/** Saving, undoing and deleting rows: the edit handlers and their undo stack. */
module UndoStack {
  import opened Text
  import opened Decimal
  import opened Transactions
  import opened Classifier

  /** What the edit form sends; blank fields keep the row's own value. */
  datatype Form = Form(vendor: string, head: string, kind: string, learn: bool)

  /** The five fields an undo entry remembers. */
  datatype Fields = Fields(vendor: string, head: string, txnType: VoucherType, status: Status, confidence: real)

  datatype UndoEntry = UndoEntry(id: string, fields: Fields)

  datatype Edits = Edits(txns: seq<Transaction>, stack: seq<UndoEntry>)

  function FieldsOf(t: Transaction): Fields {
    Fields(t.vendor, t.accountHead, t.txnType, t.status, t.confidence)
  }

  function Restore(t: Transaction, f: Fields): Transaction {
    t.(vendor := f.vendor, accountHead := f.head, txnType := f.txnType, status := f.status, confidence := f.confidence)
  }

  function SaveFields(form: Form, f: Fields): Fields {
    Fields(KeepIfBlank(form.vendor, f.vendor), KeepIfBlank(form.head, f.head),
           ParseVoucherType(form.kind, f.txnType), Classified, if form.learn then 1.0 else 0.75)
  }

  function SaveRow(form: Form, t: Transaction): Transaction {
    Restore(t, SaveFields(form, FieldsOf(t))).(source := "user")
  }

  function FirstWithId(s: seq<Transaction>, id: string): (k: nat)
    ensures k <= |s|
    ensures k < |s| ==> s[k].id == id
    ensures forall i :: 0 <= i < k ==> s[i].id != id
  {
    if s == [] || s[0].id == id then 0 else 1 + FirstWithId(s[1..], id)
  }

  /** The fields of a row marked as suspense. */
  function SuspendFields(f: Fields): Fields {
    f.(status := Suspense)
  }

  function ManualId(n: nat): string {
    "manual-" + Digits(n)
  }

  /** A row added by hand is named after the number of rows there are. */
  function NewRow(s: seq<Transaction>, t: Transaction): Transaction {
    t.(id := ManualId(|s|), status := Manual, source := "user", confidence := 1.0)
  }

  function AddManual(s: seq<Transaction>, t: Transaction): seq<Transaction> {
    s + [NewRow(s, t)]
  }

  /** One user action; positions are those of the full list, `None` when the clicked row resolves to nothing. */
  datatype Op =
    | Save(at: Option<nat>, form: Form)
    | Undo
    | Delete(at: Option<nat>)
    | Add(row: Transaction)
    | MarkSuspense(at: Option<nat>)

  function At(e: Edits, at: Option<nat>): Option<nat> {
    if at.Some? && at.value < |e.txns| then at else None
  }

  function Do(e: Edits, op: Op): Edits {
    match op
    case Save(at, form) =>
      (match At(e, at)
       case None => e
       case Some(i) =>
         var t := e.txns[i];
         Edits(e.txns[i := SaveRow(form, t)], e.stack + [UndoEntry(t.id, FieldsOf(t))]))
    case Undo =>
      if e.stack == [] then e
      else
        var entry, rest := e.stack[|e.stack| - 1], e.stack[..|e.stack| - 1];
        var k := FirstWithId(e.txns, entry.id);
        Edits(if k < |e.txns| then e.txns[k := Restore(e.txns[k], entry.fields)] else e.txns, rest)
    case Delete(at) =>
      (match At(e, at)
       case None => e
       case Some(i) => e.(txns := e.txns[..i] + e.txns[i + 1..]))
    case Add(row) => e.(txns := AddManual(e.txns, row))
    case MarkSuspense(at) =>
      (match At(e, at)
       case None => e
       case Some(i) => e.(txns := e.txns[i := e.txns[i].(status := Suspense)]))
  }

  /** The field-by-field writes of a save. */
  method SaveInto(form: Form, row: Transaction) returns (t: Transaction)
    ensures t == SaveRow(form, row)
  {
    t := row;
    if form.vendor != "" { t := t.(vendor := form.vendor); }
    assert t == row.(vendor := KeepIfBlank(form.vendor, row.vendor));
    if form.head != "" { t := t.(accountHead := form.head); }
    assert t == row.(vendor := t.vendor, accountHead := KeepIfBlank(form.head, row.accountHead));
    if form.kind != "" { t := t.(txnType := ParseVoucherType(form.kind, t.txnType)); }
    assert t == row.(vendor := t.vendor, accountHead := t.accountHead,
        txnType := ParseVoucherType(form.kind, row.txnType));
    t := t.(status := Classified);
    t := t.(confidence := if form.learn then 1.0 else 0.75);
    t := t.(source := "user");
  }

  /** The handlers, on the session they change. */
  class EditSession {
    var txns: seq<Transaction>
    var undoStack: seq<UndoEntry>

    ghost function State(): Edits
      reads this
    {
      Edits(txns, undoStack)
    }

    constructor (rows: seq<Transaction>)
      ensures State() == Edits(rows, [])
    {
      txns, undoStack := rows, [];
    }

    method OnSave(at: Option<nat>, form: Form)
      modifies this
      ensures State() == Do(old(State()), Save(at, form))
    {
      if at.None? || at.value >= |txns| { return; }
      var t := txns[at.value];
      undoStack := undoStack + [UndoEntry(t.id, FieldsOf(t))];
      var saved := SaveInto(form, t);
      txns := txns[at.value := saved];
    }

    method OnUndo()
      modifies this
      ensures State() == Do(old(State()), Undo)
    {
      if undoStack == [] { return; }
      var entry := undoStack[|undoStack| - 1];
      undoStack := undoStack[..|undoStack| - 1];
      var pos := FirstWithId(txns, entry.id);
      if pos < |txns| {
        txns := txns[pos := Restore(txns[pos], entry.fields)];
      }
    }

    method OnDelete(at: Option<nat>)
      modifies this`txns
      ensures State() == Do(old(State()), Delete(at))
    {
      if at.None? || at.value >= |txns| { return; }
      txns := txns[..at.value] + txns[at.value + 1..];
    }

    method OnAdd(row: Transaction)
      modifies this`txns
      ensures State() == Do(old(State()), Add(row))
    {
      txns := txns + [NewRow(txns, row)];
    }

    method OnMarkSuspense(at: Option<nat>)
      modifies this`txns
      ensures State() == Do(old(State()), MarkSuspense(at))
    {
      if at.None? || at.value >= |txns| { return; }
      txns := txns[at.value := txns[at.value].(status := Suspense)];
    }
  }
}
