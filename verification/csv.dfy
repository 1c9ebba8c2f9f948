/** The CSV export: a header line, then one line per expense with its
    short date, amount, category and description, every cell quoted and
    quotes inside the description doubled (section 2 of RFC 4180). A reader
    for that format shows that the export keeps every cell intact. */
module Csv {
  import opened Wrappers
  import opened Text
  import opened Calendar
  import opened ExpenseModel

  // ---------------------------------------------------------------------
  // Cells

  const MonthAbbreviations: seq<string> :=
    ["Jan", "Feb", "Mar", "Apr", "May", "Jun", "Jul", "Aug", "Sep", "Oct", "Nov", "Dec"]

  function YearText(y: int): (s: string)
    ensures '"' !in s
  {
    if y >= 0 then NoQuoteInDigits(NatToDigits(y)); NatToDigits(y)
    else NoQuoteInDigits(NatToDigits(-y)); "-" + NatToDigits(-y)
  }

  /** The `en-US` short date of a day, as in `Mar 1, 2024`. */
  function DateCell(d: Day): (s: string)
    requires ValidDay(d)
    ensures '"' !in s
  {
    NoQuoteInDigits(NatToDigits(d.day));
    MonthAbbreviations[d.month - 1] + " " + NatToDigits(d.day) + ", " + YearText(d.year)
  }

  lemma NoQuoteInDigits(s: string)
    requires AllDigits(s)
    ensures '"' !in s
  {
  }

  /** The fractional part of a number's shortest decimal spelling, for a
      number of hundredths `f`: nothing for a whole number, otherwise a point
      and one or two digits with no trailing zero. */
  function FractionText(f: nat): (s: string)
    requires f < 100
    ensures f == 0 <==> s == ""
    ensures s != "" ==> && 2 <= |s| <= 3 && s[0] == '.' && AllDigits(s[1..]) && s[|s| - 1] != '0'
                        && DigitsToNat(s[1..]) * Pow10(3 - |s|) == f
  {
    if f == 0 then ""
    else if f % 10 == 0 then
      var s := "." + [DigitChar(f / 10)];
      assert s[1..] == [DigitChar(f / 10)];
      assert DigitsToNat(s[1..]) == f / 10 by {
        assert s[1..][..0] == [];
      }
      s
    else
      var s := "." + FixedDigits(f, 2);
      assert s[1..] == FixedDigits(f, 2);
      FixedDigitsRoundTrip(f, 2);
      s
  }

  /** How an amount appears in the export: the number's `toString`, so 12.50
      is written `12.5` and 12.00 is written `12`. */
  function AmountCell(cents: int): (s: string)
    ensures '"' !in s
  {
    var a := if cents < 0 then -cents else cents;
    NoQuoteInDigits(NatToDigits(a / 100));
    var frac := FractionText(a % 100);
    assert '"' !in frac by {
      if frac != "" { NoQuoteInDigits(frac[1..]); assert frac == [frac[0]] + frac[1..]; }
    }
    (if cents < 0 then "-" else "") + NatToDigits(a / 100) + frac
  }

  /** Reads an amount cell back into cents: an optional minus sign, the
      whole digits, then optionally a point and one or two digits. */
  function ReadAmount(s: string): Option<int> {
    if |s| > 0 && s[0] == '-' then
      match ReadUnsigned(s[1..])
      case None => None
      case Some(v) => Some(-v)
    else ReadUnsigned(s)
  }

  predicate IsWhole(s: string) {
    |s| > 0 && AllDigits(s)
  }

  function ReadUnsigned(s: string): Option<int> {
    if |s| >= 3 && s[|s| - 3] == '.' && IsWhole(s[..|s| - 3]) && AllDigits(s[|s| - 2..]) then
      Some(DigitsToNat(s[..|s| - 3]) * 100 + DigitsToNat(s[|s| - 2..]))
    else if |s| >= 2 && s[|s| - 2] == '.' && IsWhole(s[..|s| - 2]) && IsDigit(s[|s| - 1]) then
      Some(DigitsToNat(s[..|s| - 2]) * 100 + DigitValue(s[|s| - 1]) * 10)
    else if IsWhole(s) then Some(DigitsToNat(s) * 100)
    else None
  }

  /** The amount cell spells its amount: reading it back gives the cents. */
  lemma AmountCellRoundTrip(cents: int)
    ensures ReadAmount(AmountCell(cents)) == Some(cents)
  {
    if cents < 0 {
      NegativeCellRoundTrip(cents);
    } else {
      var body := NatToDigits(cents / 100) + FractionText(cents % 100);
      UnsignedCellRoundTrip(cents);
      AmountCellNonNegative(cents);
      SignedRead(body, cents);
    }
  }

  lemma NegativeCellRoundTrip(cents: int)
    requires cents < 0
    ensures ReadAmount(AmountCell(cents)) == Some(cents)
  {
    var a := -cents;
    var body := NatToDigits(a / 100) + FractionText(a % 100);
    UnsignedCellRoundTrip(a);
    assert ReadUnsigned(body) == Some(a);
    AmountCellNegative(cents);
    assert AmountCell(cents) == "-" + body;
    SignedRead(body, a);
    assert ReadAmount("-" + body) == Some(-a);
  }

  lemma AmountCellNegative(cents: int)
    requires cents < 0
    ensures AmountCell(cents) == "-" + (NatToDigits((-cents) / 100) + FractionText((-cents) % 100))
  {
  }

  lemma AmountCellNonNegative(cents: nat)
    ensures AmountCell(cents) == NatToDigits(cents / 100) + FractionText(cents % 100)
  {
    assert "" + NatToDigits(cents / 100) + FractionText(cents % 100)
           == NatToDigits(cents / 100) + FractionText(cents % 100);
  }

  /** A minus sign in front negates what the rest reads as. */
  lemma SignedRead(body: string, v: int)
    requires body != [] && IsDigit(body[0]) && ReadUnsigned(body) == Some(v)
    ensures ReadAmount(body) == Some(v)
    ensures ReadAmount("-" + body) == Some(-v)
  {
    assert ("-" + body)[1..] == body;
  }

  lemma UnsignedCellRoundTrip(a: nat)
    ensures ReadUnsigned(NatToDigits(a / 100) + FractionText(a % 100)) == Some(a)
    ensures IsDigit((NatToDigits(a / 100) + FractionText(a % 100))[0])
  {
    var q, f := a / 100, a % 100;
    assert a == q * 100 + f;
    var w := NatToDigits(q);
    var frac := FractionText(f);
    NatToDigitsRoundTrip(q);
    assert (w + frac)[0] == w[0];
    FractionValue(f);
    if frac == "" {
      WholeHasNoPoint(w, q);
    } else if |frac| == 2 {
      OneDigitFraction(w, frac, q, f);
    } else {
      TwoDigitFraction(w, frac, q, f);
    }
  }

  /** The value of the fraction text in hundredths, by its length. */
  lemma FractionValue(f: nat)
    requires f < 100
    ensures var s := FractionText(f);
            && (s == "" ==> f == 0)
            && (|s| == 2 ==> s[0] == '.' && IsDigit(s[1]) && DigitValue(s[1]) * 10 == f)
            && (|s| == 3 ==> s[0] == '.' && AllDigits(s[1..]) && DigitsToNat(s[1..]) == f)
  {
    var s := FractionText(f);
    if |s| == 2 {
      SingleDigit(s[1..]);
      assert s[1..][0] == s[1];
    }
  }

  lemma SingleDigit(s: string)
    requires |s| == 1 && AllDigits(s)
    ensures DigitsToNat(s) == DigitValue(s[0])
  {
    assert s[..0] == [];
  }

  lemma WholeHasNoPoint(w: string, q: int)
    requires IsWhole(w) && DigitsToNat(w) == q
    ensures ReadUnsigned(w + "") == Some(q * 100)
  {
    assert w + "" == w;
    if |w| >= 3 { assert IsDigit(w[|w| - 3]); }
    if |w| >= 2 { assert IsDigit(w[|w| - 2]); }
  }

  lemma OneDigitFraction(w: string, frac: string, q: int, f: int)
    requires IsWhole(w) && DigitsToNat(w) == q
    requires |frac| == 2 && frac[0] == '.' && IsDigit(frac[1]) && DigitValue(frac[1]) * 10 == f
    ensures ReadUnsigned(w + frac) == Some(q * 100 + f)
  {
    var s := w + frac;
    if |s| >= 3 { assert s[|s| - 3] == w[|w| - 1]; assert IsDigit(w[|w| - 1]); }
    assert s[..|s| - 2] == w;
    assert s[|s| - 1] == frac[1];
  }

  lemma TwoDigitFraction(w: string, frac: string, q: int, f: int)
    requires IsWhole(w) && DigitsToNat(w) == q
    requires |frac| == 3 && frac[0] == '.' && AllDigits(frac[1..]) && DigitsToNat(frac[1..]) == f
    ensures ReadUnsigned(w + frac) == Some(q * 100 + f)
  {
    var s := w + frac;
    assert s[..|s| - 3] == w;
    assert s[|s| - 2..] == frac[1..];
  }

  /** Doubles every quote character. */
  function EscapeQuotes(s: string): (r: string)
    ensures '"' !in s ==> r == s
  {
    if s == [] then ""
    else (if s[0] == '"' then "\"\"" else [s[0]]) + EscapeQuotes(s[1..])
  }

  function Quote(cell: string): string {
    "\"" + cell + "\""
  }

  function QuoteAll(cells: seq<string>): (r: seq<string>)
    ensures |r| == |cells|
    ensures forall i :: 0 <= i < |cells| ==> r[i] == Quote(cells[i])
  {
    if cells == [] then [] else [Quote(cells[0])] + QuoteAll(cells[1..])
  }

  function EscapeAll(cells: seq<string>): (r: seq<string>)
    ensures |r| == |cells|
    ensures forall i :: 0 <= i < |cells| ==> r[i] == EscapeQuotes(cells[i])
  {
    if cells == [] then [] else [EscapeQuotes(cells[0])] + EscapeAll(cells[1..])
  }

  // ---------------------------------------------------------------------
  // The document

  /** The header line: the four column names joined by commas, unquoted. */
  const Header: string := "Date,Amount,Category,Description"

  lemma HeaderJoinsColumnNames()
    ensures Header == Join(["Date", "Amount", "Category", "Description"], ",")
  {
    JoinFour("Date", "Amount", "Category", "Description", ",");
    HeaderSpelled();
  }

  lemma HeaderSpelled()
    ensures Header == "Date" + "," + "Amount" + "," + "Category" + "," + "Description"
  {
  }

  /** The cells of an expense's line as the export builds them; only the
      description is escaped. */
  function RowCells(e: Expense): seq<string> {
    [DateCell(e.date.day), AmountCell(e.amount), CategoryName(e.category), EscapeQuotes(e.description)]
  }

  /** What a reader of the export should recover for an expense. */
  function RowValues(e: Expense): seq<string> {
    [DateCell(e.date.day), AmountCell(e.amount), CategoryName(e.category), e.description]
  }

  function RowLine(e: Expense): string {
    Join(QuoteAll(RowCells(e)), ",")
  }

  function RowLines(es: seq<Expense>): (r: seq<string>)
    ensures |r| == |es|
    ensures forall i :: 0 <= i < |es| ==> r[i] == RowLine(es[i])
  {
    if es == [] then [] else [RowLine(es[0])] + RowLines(es[1..])
  }

  /** The exported file, or `None` when there is nothing to export. */
  function ExportCsv(es: seq<Expense>): (r: Option<string>)
    ensures r.None? <==> es == []
  {
    if es == [] then None else Some(Join([Header] + RowLines(es), "\n"))
  }

  // ---------------------------------------------------------------------
  // Reading it back

  /** Reads a quoted cell's contents after its opening quote, turning a
      doubled quote into one; returns the contents and what follows the
      closing quote. */
  function ParseQuoted(s: string): (r: Option<(string, string)>)
    ensures r.Some? ==> |r.value.1| < |s|
  {
    if s == [] then None
    else if s[0] == '"' then
      if |s| >= 2 && s[1] == '"' then
        match ParseQuoted(s[2..])
        case None => None
        case Some((cell, rest)) => Some(("\"" + cell, rest))
      else Some(("", s[1..]))
    else
      match ParseQuoted(s[1..])
      case None => None
      case Some((cell, rest)) => Some(([s[0]] + cell, rest))
  }

  /** Reads a comma-separated run of quoted cells. */
  function ParseCells(s: string): (r: Option<(seq<string>, string)>)
    ensures r.Some? ==> |r.value.1| < |s|
    decreases |s|
  {
    if s == [] || s[0] != '"' then None
    else
      match ParseQuoted(s[1..])
      case None => None
      case Some((cell, rest)) =>
        if rest != [] && rest[0] == ',' then
          match ParseCells(rest[1..])
          case None => None
          case Some((cells, rest')) => Some(([cell] + cells, rest'))
        else Some(([cell], rest))
  }

  /** Reads newline-separated records of quoted cells. */
  function ParseRecords(s: string): (r: Option<seq<seq<string>>>)
    decreases |s|
  {
    match ParseCells(s)
    case None => None
    case Some((cells, rest)) =>
      if rest == [] then Some([cells])
      else if rest[0] == '\n' then
        match ParseRecords(rest[1..])
        case None => None
        case Some(records) => Some([cells] + records)
      else None
  }

  /** Reads an exported file: the header, then the records. */
  function ParseCsv(doc: string): Option<seq<seq<string>>> {
    if doc == Header then Some([])
    else if |doc| > |Header| && doc[..|Header| + 1] == Header + "\n" then ParseRecords(doc[|Header| + 1..])
    else None
  }

  lemma {:induction false} ParseQuotedEscaped(x: string, rest: string)
    requires rest == [] || rest[0] != '"'
    ensures ParseQuoted(EscapeQuotes(x) + "\"" + rest) == Some((x, rest))
  {
    if x == [] {
      assert EscapeQuotes(x) + "\"" + rest == "\"" + rest;
      ParseQuotedClose(rest);
    } else {
      ParseQuotedEscaped(x[1..], rest);
      var tail := EscapeQuotes(x[1..]) + "\"" + rest;
      var lead := if x[0] == '"' then "\"\"" else [x[0]];
      assert EscapeQuotes(x) == lead + EscapeQuotes(x[1..]);
      assert EscapeQuotes(x) + "\"" + rest == lead + tail;
      assert [x[0]] + x[1..] == x;
      ParseQuotedStep(x[0], tail, x[1..], rest);
    }
  }

  /** A lone quote not followed by another ends the cell. */
  lemma ParseQuotedClose(rest: string)
    requires rest == [] || rest[0] != '"'
    ensures ParseQuoted("\"" + rest) == Some(("", rest))
  {
    assert ("\"" + rest)[1..] == rest;
  }

  /** One character of an escaped cell, doubled if it is a quote, is read
      back as that character. */
  lemma ParseQuotedStep(c: char, tail: string, cell: string, rest: string)
    requires ParseQuoted(tail) == Some((cell, rest))
    ensures ParseQuoted((if c == '"' then "\"\"" else [c]) + tail) == Some(([c] + cell, rest))
  {
    var s := (if c == '"' then "\"\"" else [c]) + tail;
    if c == '"' {
      assert s[2..] == tail;
    } else {
      assert s[1..] == tail;
    }
  }

  /** A single quoted cell followed by a line end or the end of the text. */
  lemma ParseCellsLast(c: string, rest: string)
    requires rest == [] || rest[0] == '\n'
    ensures ParseCells(Quote(EscapeQuotes(c)) + rest) == Some(([c], rest))
  {
    var s := Quote(EscapeQuotes(c)) + rest;
    assert s[1..] == EscapeQuotes(c) + "\"" + rest;
    ParseQuotedEscaped(c, rest);
  }

  /** A quoted cell followed by a comma and further cells. */
  lemma ParseCellsNext(c: string, more: string, cells: seq<string>, rest: string)
    requires ParseCells(more) == Some((cells, rest))
    ensures ParseCells(Quote(EscapeQuotes(c)) + "," + more) == Some(([c] + cells, rest))
  {
    var after := "," + more;
    var s := Quote(EscapeQuotes(c)) + after;
    assert s == Quote(EscapeQuotes(c)) + "," + more;
    assert s[1..] == EscapeQuotes(c) + "\"" + after;
    ParseQuotedEscaped(c, after);
    assert ParseQuoted(s[1..]) == Some((c, after));
    assert after[1..] == more;
  }

  lemma {:induction false} ParseCellsEncoded(cells: seq<string>, rest: string)
    requires |cells| >= 1
    requires rest == [] || rest[0] == '\n'
    ensures ParseCells(Join(QuoteAll(EscapeAll(cells)), ",") + rest) == Some((cells, rest))
  {
    var qs := QuoteAll(EscapeAll(cells));
    if |cells| == 1 {
      ParseCellsLast(cells[0], rest);
      assert [cells[0]] == cells;
    } else {
      var tailJoin := Join(qs[1..], ",");
      var more := tailJoin + rest;
      assert qs[0] == Quote(EscapeQuotes(cells[0]));
      assert Join(qs, ",") == qs[0] + "," + tailJoin;
      assert Join(qs, ",") + rest == qs[0] + "," + more;
      assert EscapeAll(cells[1..]) == EscapeAll(cells)[1..];
      assert qs[1..] == QuoteAll(EscapeAll(cells[1..]));
      ParseCellsEncoded(cells[1..], rest);
      ParseCellsNext(cells[0], more, cells[1..], rest);
      assert [cells[0]] + cells[1..] == cells;
    }
  }

  /** A line of the export is its row's values, escaped and quoted. */
  lemma RowLineEncodes(e: Expense)
    ensures RowLine(e) == Join(QuoteAll(EscapeAll(RowValues(e))), ",")
  {
    EscapeAllButLast(DateCell(e.date.day), AmountCell(e.amount), CategoryName(e.category), e.description);
  }

  /** Escaping changes only the one cell that may hold quotes. */
  lemma EscapeAllButLast(a: string, b: string, c: string, d: string)
    requires '"' !in a && '"' !in b && '"' !in c
    ensures EscapeAll([a, b, c, d]) == [a, b, c, EscapeQuotes(d)]
  {
    var r := EscapeAll([a, b, c, d]);
    assert r[0] == a && r[1] == b && r[2] == c && r[3] == EscapeQuotes(d);
  }

  lemma {:induction false} ParseRecordsEncoded(es: seq<Expense>)
    requires es != []
    ensures ParseRecords(Join(RowLines(es), "\n")) == Some(RowValuesAll(es))
  {
    var lines := RowLines(es);
    RowLineEncodes(es[0]);
    if |es| == 1 {
      assert Join(lines, "\n") == RowLine(es[0]) + "";
      ParseCellsEncoded(RowValues(es[0]), "");
      assert RowValuesAll(es) == [RowValues(es[0])];
    } else {
      var rest := "\n" + Join(lines[1..], "\n");
      assert Join(lines, "\n") == RowLine(es[0]) + rest;
      ParseCellsEncoded(RowValues(es[0]), rest);
      assert rest[1..] == Join(lines[1..], "\n");
      assert lines[1..] == RowLines(es[1..]);
      ParseRecordsEncoded(es[1..]);
      assert RowValuesAll(es) == [RowValues(es[0])] + RowValuesAll(es[1..]);
    }
  }

  function RowValuesAll(es: seq<Expense>): (r: seq<seq<string>>)
    ensures |r| == |es|
    ensures forall i :: 0 <= i < |es| ==> r[i] == RowValues(es[i])
  {
    if es == [] then [] else [RowValues(es[0])] + RowValuesAll(es[1..])
  }

  /** Reading an export back gives one record per expense, in order, with
      its date, amount, category and exact description, whatever quotes,
      commas or line breaks the description holds. */
  lemma ExportRoundTrip(es: seq<Expense>)
    requires es != []
    ensures ParseCsv(ExportCsv(es).value) == Some(RowValuesAll(es))
  {
    var body := Join(RowLines(es), "\n");
    var doc := ExportCsv(es).value;
    ExportSplitsAtHeader(es);
    assert doc[..|Header| + 1] == Header + "\n";
    assert doc[|Header| + 1..] == body;
    ParseRecordsEncoded(es);
  }

  lemma ExportSplitsAtHeader(es: seq<Expense>)
    requires es != []
    ensures ExportCsv(es).value == Header + "\n" + Join(RowLines(es), "\n")
  {
    var lines := RowLines(es);
    assert ([Header] + lines)[0] == Header;
    assert ([Header] + lines)[1..] == lines;
  }

  /** The header, a line break, then the record's line. */
  lemma ExportShape(e: Expense)
    ensures ExportCsv([e]) == Some(Header + "\n" + RowLine(e))
  {
    ExportSplitsAtHeader([e]);
    assert RowLines([e]) == [RowLine(e)];
  }

  /** A record's line: its four cells quoted and separated by commas. */
  lemma RowLineShape(e: Expense)
    ensures RowLine(e) == Quote(DateCell(e.date.day)) + "," + Quote(AmountCell(e.amount)) + ","
                          + Quote(CategoryName(e.category)) + "," + Quote(EscapeQuotes(e.description))
  {
    JoinFourQuoted(DateCell(e.date.day), AmountCell(e.amount), CategoryName(e.category), EscapeQuotes(e.description));
  }

  lemma JoinFourQuoted(a: string, b: string, c: string, d: string)
    ensures Join(QuoteAll([a, b, c, d]), ",") == Quote(a) + "," + Quote(b) + "," + Quote(c) + "," + Quote(d)
  {
    assert QuoteAll([a, b, c, d]) == [Quote(a), Quote(b), Quote(c), Quote(d)];
    JoinFour(Quote(a), Quote(b), Quote(c), Quote(d), ",");
  }
}
