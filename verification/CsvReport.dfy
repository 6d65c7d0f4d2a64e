/**
  The reconciliation report as CSV, and a decoder for the quoting rules of section 2 of
  RFC 4180 (with a line feed as line end) that takes it back to its records.
 */
module CsvReport {
  import opened Text
  import opened Lists
  import opened Decimal
  import opened Matcher
  import opened Reconciliation

  type Record = seq<string>

  // ---- Printing ----

  function DoubledChar(c: char): string {
    if c == '"' then ['"', '"'] else [c]
  }

  function Doubled(s: string): string {
    if s == [] then [] else DoubledChar(s[0]) + Doubled(s[1..])
  }

  function CsvField(s: string): string {
    ['"'] + Doubled(s) + ['"']
  }

  function QuotedFields(r: Record): seq<string> {
    seq(|r|, i requires 0 <= i < |r| => CsvField(r[i]))
  }

  function Line(r: Record): string {
    Join(QuotedFields(r), ',')
  }

  function StatusText(s: MatchStatus): string {
    match s
    case Matched => "Matched"
    case Likely => "Likely"
    case Possible => "Possible"
    case Unmatched => "Unmatched"
  }

  const HEADER: Record :=
    ["Match Status", "Bank Date", "Bank Amount", "Bank Narration", "Voucher Date",
     "Voucher Amount", "Voucher Narration", "Voucher No", "Confidence"]

  function MatchRecord(q: Problem, m: MatchPair): Record
    requires m.bankIdx < |q.bank| && m.voucherIdx < |q.vouchers| && m.score >= 0
  {
    var b, v := q.bank[m.bankIdx], q.vouchers[m.voucherIdx];
    [StatusText(m.status), b.date, PlainAmount(b.amount), b.narration,
     v.date, PlainAmount(v.amount), v.narration, v.voucherNo, Digits(m.score) + "%"]
  }

  function UnmatchedBankRecord(b: BankEntry): Record {
    ["UNMATCHED-BANK", b.date, PlainAmount(b.amount), b.narration, "", "", "", "", "0%"]
  }

  function MissingRecord(v: Voucher): Record {
    ["MISSING-IN-BANK", "", "", "", v.date, PlainAmount(v.amount), v.narration, v.voucherNo, "0%"]
  }

  /** Indices inside the two ledgers: the source indexes with them unchecked. */
  predicate IndicesInRange(q: Problem, r: ReconReport) {
    && (forall i :: 0 <= i < |r.matches| ==>
          r.matches[i].bankIdx < |q.bank| && r.matches[i].voucherIdx < |q.vouchers| && r.matches[i].score >= 0)
    && (forall i :: 0 <= i < |r.unmatchedBank| ==> r.unmatchedBank[i] < |q.bank|)
    && (forall i :: 0 <= i < |r.unmatchedVouchers| ==> r.unmatchedVouchers[i] < |q.vouchers|)
  }

  function MatchRecords(q: Problem, r: ReconReport): seq<Record>
    requires IndicesInRange(q, r)
  {
    seq(|r.matches|, i requires 0 <= i < |r.matches| => MatchRecord(q, r.matches[i]))
  }

  function BankRecords(q: Problem, r: ReconReport): seq<Record>
    requires IndicesInRange(q, r)
  {
    seq(|r.unmatchedBank|, i requires 0 <= i < |r.unmatchedBank| => UnmatchedBankRecord(q.bank[r.unmatchedBank[i]]))
  }

  function VoucherRecords(q: Problem, r: ReconReport): seq<Record>
    requires IndicesInRange(q, r)
  {
    seq(|r.unmatchedVouchers|,
        i requires 0 <= i < |r.unmatchedVouchers| => MissingRecord(q.vouchers[r.unmatchedVouchers[i]]))
  }

  /** The records of a report: one per match, then one per left-over row, then one per left-over voucher. */
  function Records(q: Problem, r: ReconReport): seq<Record>
    requires IndicesInRange(q, r)
  {
    MatchRecords(q, r) + BankRecords(q, r) + VoucherRecords(q, r)
  }

  function Lines(rs: seq<Record>): seq<string> {
    seq(|rs|, i requires 0 <= i < |rs| => Line(rs[i]))
  }

  // ---- Decoding ----

  /** Where the decoder is inside a field. */
  datatype Mode = FieldStart | Plain | Quoted | QuoteInQuoted

  /**
    Decodes `s` with `field` read so far in the current record `rec`, after the finished
    records `done`. A quote inside an unquoted field, text after a closing quote, and a
    missing closing quote have no decoding.
   */
  function Decode(s: string, mode: Mode, field: string, rec: Record, done: seq<Record>): Option<seq<Record>>
    decreases |s|
  {
    if s == [] then
      if mode == Quoted then None else Some(done + [rec + [field]])
    else
      var c, rest := s[0], s[1..];
      if mode == Quoted then
        if c == '"' then Decode(rest, QuoteInQuoted, field, rec, done)
        else Decode(rest, Quoted, field + [c], rec, done)
      else if c == ',' then Decode(rest, FieldStart, [], rec + [field], done)
      else if c == '\n' then Decode(rest, FieldStart, [], [], done + [rec + [field]])
      else if mode == QuoteInQuoted then
        if c == '"' then Decode(rest, Quoted, field + [c], rec, done) else None
      else if c == '"' then
        if mode == FieldStart then Decode(rest, Quoted, field, rec, done) else None
      else Decode(rest, Plain, field + [c], rec, done)
  }

  function DecodeCsv(s: string): Option<seq<Record>> {
    Decode(s, FieldStart, [], [], [])
  }

  // ---- Printing, then decoding ----

  /** Inside quotes, one character as it is printed is read back as that character. */
  lemma QuotedChar(c: char, more: string, field: string, rec: Record, done: seq<Record>)
    ensures Decode(DoubledChar(c) + more, Quoted, field, rec, done) == Decode(more, Quoted, field + [c], rec, done)
  {
    var s := DoubledChar(c) + more;
    if c == '"' {
      var second := ['"'] + more;
      assert s[1..] == second && second[1..] == more;
      assert Decode(s, Quoted, field, rec, done) == Decode(second, QuoteInQuoted, field, rec, done);
    } else {
      assert s[1..] == more;
    }
  }

  lemma QuotedEnd(tail: string, field: string, rec: Record, done: seq<Record>)
    ensures Decode(['"'] + tail, Quoted, field, rec, done) == Decode(tail, QuoteInQuoted, field, rec, done)
  {
    assert (['"'] + tail)[1..] == tail;
  }

  lemma DoubledSplit(f: string, end: string)
    requires f != []
    ensures Doubled(f) + end == DoubledChar(f[0]) + (Doubled(f[1..]) + end)
  {
  }

  /** The reader takes one printed character. */
  ghost predicate Takes<R(!new)>(read: (string, string) -> R, c: char, more: string, got: string) {
    read(DoubledChar(c) + more, got) == read(more, got + [c])
  }

  /** A reader that takes one printed character at a time takes a whole printed text. */
  lemma {:induction false} ReadDoubled<R(!new)>(read: (string, string) -> R, f: string, end: string, field: string)
    requires forall c, more, got :: Takes(read, c, more, got)
    ensures read(Doubled(f) + end, field) == read(end, field + f)
  {
    if f == [] {
      assert Doubled(f) + end == end && field + f == field;
    } else {
      DoubledSplit(f, end);
      FirstThenRest(field, f);
      assert Takes(read, f[0], Doubled(f[1..]) + end, field);
      ReadDoubled(read, f[1..], end, field + [f[0]]);
    }
  }

  lemma FirstThenRest(field: string, f: string)
    requires f != []
    ensures field + [f[0]] + f[1..] == field + f
  {
  }

  /** Inside quotes, a doubled text is read back as the text. */
  lemma DecodeDoubled(f: string, tail: string, field: string, rec: Record, done: seq<Record>)
    ensures Decode(Doubled(f) + (['"'] + tail), Quoted, field, rec, done)
         == Decode(tail, QuoteInQuoted, field + f, rec, done)
  {
    var read := (s: string, got: string) => Decode(s, Quoted, got, rec, done);
    forall c: char, more: string, got: string ensures Takes(read, c, more, got) {
      QuotedChar(c, more, got, rec, done);
    }
    ReadDoubled(read, f, ['"'] + tail, field);
    QuotedEnd(tail, field + f, rec, done);
  }

  /** A printed field, read from its start, is the field. */
  lemma DecodeField(f: string, tail: string, rec: Record, done: seq<Record>)
    ensures Decode(CsvField(f) + tail, FieldStart, [], rec, done) == Decode(tail, QuoteInQuoted, f, rec, done)
  {
    var inner := Doubled(f) + (['"'] + tail);
    assert CsvField(f) + tail == ['"'] + inner;
    assert (['"'] + inner)[1..] == inner;
    DecodeDoubled(f, tail, [], rec, done);
    assert [] + f == f;
  }

  /** A printed line, up to its end, is its record; `rec` holds the fields before. */
  lemma {:induction false} DecodeLine(r: Record, tail: string, rec: Record, done: seq<Record>)
    requires r != []
    ensures Decode(Line(r) + tail, FieldStart, [], rec, done)
         == Decode(tail, QuoteInQuoted, r[|r| - 1], rec + r[..|r| - 1], done)
    decreases |r|
  {
    if |r| == 1 {
      assert Line(r) == CsvField(r[0]);
      DecodeField(r[0], tail, rec, done);
      assert rec + r[..0] == rec;
    } else {
      var rest := r[1..];
      assert QuotedFields(r)[1..] == QuotedFields(rest);
      var more := [','] + (Line(rest) + tail);
      assert Line(r) + tail == CsvField(r[0]) + more;
      DecodeField(r[0], more, rec, done);
      assert more[1..] == Line(rest) + tail;
      DecodeLine(rest, tail, rec + [r[0]], done);
      assert rec + [r[0]] + rest[..|rest| - 1] == rec + r[..|r| - 1];
    }
  }

  lemma WholeRecord(r: Record)
    requires r != []
    ensures [] + r[..|r| - 1] + [r[|r| - 1]] == r
  {
  }

  /** Printed lines, joined by line feeds, are their records. */
  lemma {:induction false} DecodeLines(rs: seq<Record>, done: seq<Record>)
    requires rs != [] && forall i :: 0 <= i < |rs| ==> rs[i] != []
    ensures Decode(Join(Lines(rs), '\n'), FieldStart, [], [], done) == Some(done + rs)
    decreases |rs|
  {
    var r := rs[0];
    WholeRecord(r);
    if |rs| == 1 {
      assert Join(Lines(rs), '\n') == Line(r) + [];
      DecodeLine(r, [], [], done);
      assert done + [r] == done + rs;
    } else {
      var rest := rs[1..];
      assert Lines(rs)[1..] == Lines(rest);
      var more := ['\n'] + Join(Lines(rest), '\n');
      assert Join(Lines(rs), '\n') == Line(r) + more;
      DecodeLine(r, more, [], done);
      assert more[1..] == Join(Lines(rest), '\n');
      DecodeLines(rest, done + [r]);
      assert done + [r] + rest == done + rs;
    }
  }

  // ---- The report printer ----

  /** The header is printed unquoted. */
  const HEADER_LINE: string := Join(HEADER, ',')

  predicate Unremarkable(s: string) {
    forall i :: 0 <= i < |s| ==> s[i] !in {'"', ',', '\n'}
  }

  /** An unquoted field without quotes, commas or line feeds is read back as it is. */
  lemma {:induction false} DecodePlain(f: string, tail: string, field: string, rec: Record, done: seq<Record>)
    requires Unremarkable(f) && tail != [] && tail[0] in {',', '\n'}
    ensures Decode(f + tail, Plain, field, rec, done) == Decode(tail, Plain, field + f, rec, done)
    ensures field == [] ==> Decode(f + tail, FieldStart, [], rec, done) == Decode(tail, Plain, f, rec, done)
    decreases |f|
  {
    if f == [] {
      assert f + tail == tail && field + f == field;
    } else {
      assert field == [] ==> field + f == f;
      DecodePlain(f[1..], tail, field + [f[0]], rec, done);
      assert (f + tail)[1..] == f[1..] + tail;
      assert field + [f[0]] + f[1..] == field + f;
    }
  }

  lemma {:induction false} DecodePlainLine(r: Record, tail: string, rec: Record, done: seq<Record>)
    requires r != [] && forall i :: 0 <= i < |r| ==> Unremarkable(r[i])
    ensures Decode(Join(r, ',') + (['\n'] + tail), FieldStart, [], rec, done)
         == Decode(tail, FieldStart, [], [], done + [rec + r])
    decreases |r|
  {
    var end := ['\n'] + tail;
    assert end[1..] == tail;
    if |r| == 1 {
      DecodePlain(r[0], end, [], rec, done);
      assert rec + [r[0]] == rec + r;
    } else {
      var more := [','] + (Join(r[1..], ',') + end);
      assert Join(r, ',') + end == r[0] + more;
      assert more[1..] == Join(r[1..], ',') + end;
      DecodePlain(r[0], more, [], rec, done);
      DecodePlainLine(r[1..], tail, rec + [r[0]], done);
      assert rec + [r[0]] + r[1..] == rec + r;
    }
  }

  lemma {:induction false} DecodeLastField(f: string, field: string, rec: Record, done: seq<Record>)
    requires Unremarkable(f)
    ensures Decode(f, Plain, field, rec, done) == Some(done + [rec + [field + f]])
    ensures field == [] ==> Decode(f, FieldStart, [], rec, done) == Some(done + [rec + [f]])
    decreases |f|
  {
    if f == [] {
      assert field + f == field;
    } else {
      DecodeLastField(f[1..], field + [f[0]], rec, done);
      assert field + [f[0]] + f[1..] == field + f;
      assert field == [] ==> field + f == f;
    }
  }

  /** The header on its own, with nothing after it. */
  lemma {:induction false} DecodeLastPlainLine(r: Record, rec: Record, done: seq<Record>)
    requires r != [] && forall i :: 0 <= i < |r| ==> Unremarkable(r[i])
    ensures Decode(Join(r, ','), FieldStart, [], rec, done) == Some(done + [rec + r])
    decreases |r|
  {
    if |r| == 1 {
      DecodeLastField(r[0], [], rec, done);
      assert rec + [r[0]] == rec + r;
    } else {
      var more := [','] + Join(r[1..], ',');
      assert Join(r, ',') == r[0] + more;
      assert more[1..] == Join(r[1..], ',');
      DecodePlain(r[0], more, [], rec, done);
      DecodeLastPlainLine(r[1..], rec + [r[0]], done);
      assert rec + [r[0]] + r[1..] == rec + r;
    }
  }

  /** The whole text of a report. */
  function ReportText(rs: seq<Record>): string {
    Join([HEADER_LINE] + Lines(rs), '\n')
  }

  lemma HeaderIsPlain()
    ensures HEADER != [] && forall i :: 0 <= i < |HEADER| ==> Unremarkable(HEADER[i])
  {
  }

  /** A plain header line, then printed lines. */
  lemma HeadedDecodes(header: Record, rs: seq<Record>)
    requires header != [] && forall i :: 0 <= i < |header| ==> Unremarkable(header[i])
    requires rs != [] && forall i :: 0 <= i < |rs| ==> rs[i] != []
    ensures Decode(Join([Join(header, ',')] + Lines(rs), '\n'), FieldStart, [], [], []) == Some([header] + rs)
  {
    var body := Join(Lines(rs), '\n');
    JoinFirst(Join(header, ','), Lines(rs));
    DecodePlainLine(header, body, [], []);
    OnlyRecord(header);
    DecodeLines(rs, [header]);
  }

  lemma JoinFirst(first: string, rest: seq<string>)
    requires rest != []
    ensures Join([first] + rest, '\n') == first + (['\n'] + Join(rest, '\n'))
  {
    assert ([first] + rest)[1..] == rest;
    assert first + ['\n'] + Join(rest, '\n') == first + (['\n'] + Join(rest, '\n'));
  }

  lemma OnlyRecord(r: Record)
    ensures [] + [[] + r] == [r]
  {
    assert [] + r == r;
  }

  lemma HeaderAloneDecodes(header: Record)
    requires header != [] && forall i :: 0 <= i < |header| ==> Unremarkable(header[i])
    ensures Decode(Join(header, ','), FieldStart, [], [], []) == Some([header])
  {
    DecodeLastPlainLine(header, [], []);
    assert [] + header == header && [] + [header] == [header];
  }

  /** Decoding a report gives the header and then exactly its records, whatever the field texts contain. */
  lemma ReportDecodes(rs: seq<Record>)
    requires forall i :: 0 <= i < |rs| ==> rs[i] != []
    ensures DecodeCsv(ReportText(rs)) == Some([HEADER] + rs)
  {
    HeaderIsPlain();
    if rs == [] {
      HeaderAloneDecodes(HEADER);
      assert ReportText(rs) == Join(HEADER, ',') && [HEADER] + rs == [HEADER];
    } else {
      HeadedDecodes(HEADER, rs);
    }
  }

  lemma LinesAppend(xs: seq<Record>, ys: seq<Record>)
    ensures Lines(xs + ys) == Lines(xs) + Lines(ys)
  {
  }

  method PushLines(lines: seq<string>, rs: seq<Record>) returns (out: seq<string>)
    ensures out == lines + Lines(rs)
  {
    out := lines;
    for i := 0 to |rs|
      invariant out == lines + Lines(rs[..i])
    {
      assert Lines(rs[..i + 1]) == Lines(rs[..i]) + [Line(rs[i])];
      out := out + [Line(rs[i])];
    }
    assert rs[..|rs|] == rs;
  }

  lemma NineFields(q: Problem, r: ReconReport)
    requires IndicesInRange(q, r)
    ensures forall i :: 0 <= i < |Records(q, r)| ==> |Records(q, r)[i]| == 9
  {
    assert forall i :: 0 <= i < |MatchRecords(q, r)| ==> |MatchRecords(q, r)[i]| == 9;
    assert forall i :: 0 <= i < |BankRecords(q, r)| ==> |BankRecords(q, r)[i]| == 9;
    assert forall i :: 0 <= i < |VoucherRecords(q, r)| ==> |VoucherRecords(q, r)[i]| == 9;
  }

  method PrintRecords(header: string, ms: seq<Record>, bs: seq<Record>, vs: seq<Record>) returns (csv: string)
    ensures csv == Join([header] + Lines(ms + bs + vs), '\n')
  {
    var lines := [header];
    lines := PushLines(lines, ms);
    lines := PushLines(lines, bs);
    lines := PushLines(lines, vs);
    LinesAppend(ms, bs);
    LinesAppend(ms + bs, vs);
    assert lines == [header] + Lines(ms + bs + vs);
    csv := Join(lines, '\n');
  }

  /** Pushes one line per record and joins them; the text decodes back to the header and the nine-field records. */
  method ReportToCsv(q: Problem, r: ReconReport) returns (csv: string)
    requires IndicesInRange(q, r)
    ensures DecodeCsv(csv) == Some([HEADER] + Records(q, r))
    ensures forall i :: 0 <= i < |Records(q, r)| ==> |Records(q, r)[i]| == 9
  {
    csv := PrintRecords(HEADER_LINE, MatchRecords(q, r), BankRecords(q, r), VoucherRecords(q, r));
    NineFields(q, r);
    ReportDecodes(Records(q, r));
  }

  /** Two reports that print alike have the same records: nothing in a field can imitate another field or line. */
  lemma PrintingIsInjective(xs: seq<Record>, ys: seq<Record>)
    requires forall i :: 0 <= i < |xs| ==> xs[i] != []
    requires forall i :: 0 <= i < |ys| ==> ys[i] != []
    requires ReportText(xs) == ReportText(ys)
    ensures xs == ys
  {
    ReportDecodes(xs);
    ReportDecodes(ys);
    assert ([HEADER] + xs)[1..] == xs && ([HEADER] + ys)[1..] == ys;
  }

  /** The report of a reconciliation always has its indices in range, so it can be printed. */
  lemma ReportCanBePrinted(q: Problem, r: ReconReport)
    requires IsReport(q, r)
    ensures IndicesInRange(q, r)
    ensures |Records(q, r)| == |q.bank| + |q.vouchers| - |r.matches|
  {
    forall i | 0 <= i < |r.matches|
      ensures r.matches[i].bankIdx < |q.bank| && r.matches[i].voucherIdx < |q.vouchers| && r.matches[i].score >= 0
    {
      ReportedMatch(q, r, i);
    }
    assert forall i :: 0 <= i < |r.unmatchedBank| ==> r.unmatchedBank[i] in r.unmatchedBank;
    assert forall i :: 0 <= i < |r.unmatchedVouchers| ==> r.unmatchedVouchers[i] in r.unmatchedVouchers;
    OutcomePartitions(TableOf(q), Pairs(r), r.unmatchedBank, r.unmatchedVouchers);
  }

  // ---- What stands under which name ----

  /** The record holds `value` in a column of that name. */
  ghost predicate Under(r: Record, name: string, value: string) {
    exists i :: 0 <= i < |r| == |HEADER| && HEADER[i] == name && r[i] == value
  }

  /** The text reads as the amount. */
  predicate Shows(text: string, paise: int) {
    ReadNumber(text).Some? && ReadNumber(text).value.InPaise() == paise as real
  }

  /** A match's record holds, under each name of the header, what the name says. */
  lemma MatchColumns(q: Problem, m: MatchPair)
    requires m.bankIdx < |q.bank| && m.voucherIdx < |q.vouchers| && m.score >= 0
    ensures var b, v, r := q.bank[m.bankIdx], q.vouchers[m.voucherIdx], MatchRecord(q, m);
      && Under(r, "Bank Date", b.date) && Under(r, "Bank Narration", b.narration)
      && Under(r, "Voucher Date", v.date) && Under(r, "Voucher Narration", v.narration)
      && Under(r, "Voucher No", v.voucherNo)
      && (exists x :: Under(r, "Bank Amount", x) && Shows(x, b.amount))
      && (exists x :: Under(r, "Voucher Amount", x) && Shows(x, v.amount))
      && (exists n :: AllDigits(n) && Value(n) == m.score && Under(r, "Confidence", n + "%"))
  {
    var b, v, r := q.bank[m.bankIdx], q.vouchers[m.voucherIdx], MatchRecord(q, m);
    assert HEADER[1] == "Bank Date" && r[1] == b.date;
    assert HEADER[2] == "Bank Amount" && r[2] == PlainAmount(b.amount);
    assert HEADER[3] == "Bank Narration" && r[3] == b.narration;
    assert HEADER[4] == "Voucher Date" && r[4] == v.date;
    assert HEADER[5] == "Voucher Amount" && r[5] == PlainAmount(v.amount);
    assert HEADER[6] == "Voucher Narration" && r[6] == v.narration;
    assert HEADER[7] == "Voucher No" && r[7] == v.voucherNo;
    assert HEADER[8] == "Confidence" && r[8] == Digits(m.score) + "%";
    PlainAmountReads(b.amount);
    PlainAmountReads(v.amount);
    assert Under(r, "Bank Amount", PlainAmount(b.amount)) && Under(r, "Voucher Amount", PlainAmount(v.amount));
    DigitsValue(m.score);
    assert Under(r, "Confidence", Digits(m.score) + "%");
  }

  /** The first column tells the tiers and the two kinds of left-over rows apart. */
  lemma StatusColumns(q: Problem, m: MatchPair, b: BankEntry, v: Voucher)
    requires m.bankIdx < |q.bank| && m.voucherIdx < |q.vouchers| && m.score >= 0 && m.status != Unmatched
    ensures MatchRecord(q, m)[0] ==
      if m.status == Matched then "Matched" else if m.status == Likely then "Likely" else "Possible"
    ensures UnmatchedBankRecord(b)[0] == "UNMATCHED-BANK" && MissingRecord(v)[0] == "MISSING-IN-BANK"
    ensures HEADER[0] == "Match Status"
  {
  }

  /**
    A left-over bank row fills the bank's columns, a left-over voucher the voucher's, and each
    leaves the others blank.
   */
  lemma LeftOverColumns(b: BankEntry, v: Voucher)
    ensures var r := UnmatchedBankRecord(b);
      && Under(r, "Bank Date", b.date) && Under(r, "Bank Narration", b.narration)
      && (exists x :: Under(r, "Bank Amount", x) && Shows(x, b.amount))
      && Under(r, "Voucher Date", "") && Under(r, "Voucher Amount", "") && Under(r, "Voucher Narration", "")
      && Under(r, "Voucher No", "") && Under(r, "Confidence", "0%")
    ensures var r := MissingRecord(v);
      && Under(r, "Voucher Date", v.date) && Under(r, "Voucher Narration", v.narration)
      && Under(r, "Voucher No", v.voucherNo)
      && (exists x :: Under(r, "Voucher Amount", x) && Shows(x, v.amount))
      && Under(r, "Bank Date", "") && Under(r, "Bank Amount", "") && Under(r, "Bank Narration", "")
      && Under(r, "Confidence", "0%")
  {
    var r, w := UnmatchedBankRecord(b), MissingRecord(v);
    assert HEADER[1] == "Bank Date" && r[1] == b.date && w[1] == "";
    assert HEADER[2] == "Bank Amount" && r[2] == PlainAmount(b.amount) && w[2] == "";
    assert HEADER[3] == "Bank Narration" && r[3] == b.narration && w[3] == "";
    assert HEADER[4] == "Voucher Date" && r[4] == "" && w[4] == v.date;
    assert HEADER[5] == "Voucher Amount" && r[5] == "" && w[5] == PlainAmount(v.amount);
    assert HEADER[6] == "Voucher Narration" && r[6] == "" && w[6] == v.narration;
    assert HEADER[7] == "Voucher No" && r[7] == "" && w[7] == v.voucherNo;
    assert HEADER[8] == "Confidence" && r[8] == "0%" && w[8] == "0%";
    PlainAmountReads(b.amount);
    PlainAmountReads(v.amount);
    assert Under(r, "Bank Amount", PlainAmount(b.amount)) && Under(w, "Voucher Amount", PlainAmount(v.amount));
  }

  /**
    Line by line: first the matches, then the bank rows left over, then the vouchers left over, each
    in the report's order.
   */
  lemma RecordAt(q: Problem, r: ReconReport, i: nat)
    requires IndicesInRange(q, r) && i < |Records(q, r)|
    ensures var m, b := |r.matches|, |r.unmatchedBank|;
      |Records(q, r)| == m + b + |r.unmatchedVouchers| &&
      Records(q, r)[i] ==
        if i < m then MatchRecord(q, r.matches[i])
        else if i < m + b then UnmatchedBankRecord(q.bank[r.unmatchedBank[i - m]])
        else MissingRecord(q.vouchers[r.unmatchedVouchers[i - m - b]])
  {
  }
}
