/** The bank transaction that every part of the program works on. Money is in paise, exactly. */
module Transactions {
  import opened Text

  datatype Status = Unreviewed | Classified | Manual | Suspense | NeedsReview

  datatype VoucherType = Unknown | Payment | Receipt | Contra | Journal | Sales | Purchase

  datatype Transaction = Transaction(
    id: string,
    date: string,
    narration: string,
    reference: string,
    debit: Option<int>,
    credit: Option<int>,
    balance: Option<int>,
    vendor: string,
    accountHead: string,
    txnType: VoucherType,
    confidence: real,
    status: Status,
    source: string,
    tags: seq<string>,
    bankName: string,
    isOpeningBalance: bool,
    dupFlag: bool,
    gstRate: Option<real>,
    gstAmount: Option<int>,
    gstType: Option<string>)

  /** The fields an import fills in and no classification may touch. */
  datatype Imported = Imported(
    id: string, date: string, narration: string, reference: string,
    debit: Option<int>, credit: Option<int>, balance: Option<int>,
    bankName: string, isOpeningBalance: bool)

  function ImportedOf(t: Transaction): Imported {
    Imported(t.id, t.date, t.narration, t.reference, t.debit, t.credit, t.balance, t.bankName, t.isOpeningBalance)
  }

  function Or<T>(a: Option<T>, b: Option<T>): Option<T> {
    if a.Some? then a else b
  }

  function GetOr<T>(a: Option<T>, d: T): T {
    if a.Some? then a.value else d
  }

  /** A fresh, unclassified row. */
  function NewTransaction(id: string): Transaction {
    Transaction(id, "", "", "", None, None, None, "", "", Unknown, 0.0, Unreviewed, "", [], "", false, false, None,
        None, None)
  }

  function AddTag(tags: seq<string>, tag: string): seq<string> {
    if tag in tags then tags else tags + [tag]
  }
}
