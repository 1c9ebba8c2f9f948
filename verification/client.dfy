/** The browser client's pure helpers: the filter parameters it sends, the
    amount guard and payload of the expense form, the error text it shows,
    the monthly budget and its warning, the theme toggle, and the CSV export
    of every record. Browser storage is passed in and returned as values. */
module Client {
  import opened Wrappers
  import opened Text
  import opened Calendar
  import opened ExpenseModel
  import opened Queries
  import opened Http
  import opened Routes
  import opened Csv

  // ---------------------------------------------------------------------
  // Filters

  /** The three filter controls become query parameters only when set; the
      category control's `'all'` is not sent. */
  function ActiveFilters(category: string, startDate: string, endDate: string): (q: ListQuery)
    ensures q.category.Some? <==> category != "" && category != "all"
    ensures q.startDate.Some? <==> startDate != ""
    ensures q.endDate.Some? <==> endDate != ""
    ensures q.category.Some? ==> q.category.value == category
    ensures q.startDate.Some? ==> q.startDate.value == startDate
    ensures q.endDate.Some? ==> q.endDate.value == endDate
  {
    ListQuery(
      if category != "" && category != "all" then Some(category) else None,
      if startDate != "" then Some(startDate) else None,
      if endDate != "" then Some(endDate) else None)
  }

  /** Leaving a control out on the client selects the same records as
      sending it: the server applies the same "set and not `'all'`" rule. */
  lemma ActiveFiltersAgreeWithServer(category: string, startDate: string, endDate: string)
    ensures BuildFilter(ActiveFilters(category, startDate, endDate))
            == BuildFilter(ListQuery(Some(category), Some(startDate), Some(endDate)))
  {
  }

  // ---------------------------------------------------------------------
  // The expense form

  const InvalidAmountMessage: string := "Please enter a valid amount"

  /** The amount guard: the parsed field must be a number above zero.
      `None` is a field that does not parse. */
  function AmountGuard(amount: Option<int>): (r: Result<int, string>)
    ensures r.Success? <==> amount.Some? && amount.value > 0
    ensures r.Success? ==> r.value == amount.value
    ensures r.Failure? ==> r.error == InvalidAmountMessage
  {
    if amount.None? || amount.value <= 0 then Failure(InvalidAmountMessage)
    else Success(amount.value)
  }

  /** The JSON body the form sends. */
  datatype Payload = Payload(amount: int, category: string, description: string, date: string)

  /** Builds the request body: the guarded amount, the chosen category, the
      trimmed description, and the date field or else today's `YYYY-MM-DD`. */
  function SubmitPayload(amount: Option<int>, category: string, description: string,
                         dateField: string, today: Day): (r: Result<Payload, string>)
    requires IsoWritable(today)
    ensures r.Success? <==> AmountGuard(amount).Success?
    ensures r.Failure? ==> r.error == InvalidAmountMessage
    ensures r.Success? ==>
              && r.value.amount == amount.value && r.value.amount > 0
              && r.value.category == category
              && IsTrimmed(r.value.description) && r.value.description == Trim(description)
              && (dateField != "" ==> r.value.date == dateField)
              && (dateField == "" ==> ParseIsoDay(r.value.date) == Some(today))
  {
    match AmountGuard(amount)
    case Failure(msg) => Failure(msg)
    case Success(a) =>
      FormatThenParseIsoDay(today);
      Success(Payload(a, category, Trim(description), if dateField != "" then dateField else FormatIsoDay(today)))
  }

  /** What the create route receives from a payload whose date parses:
      a date-only string is read as midnight of that day. */
  function PayloadBody(p: Payload): CreateBody
    requires ParseIsoDay(p.date).Some?
  {
    CreateBody(Some(p.amount), Some(p.category), Some(p.description),
               DateOf(Instant(ParseIsoDay(p.date).value, 0)))
  }

  /** A payload that passed the amount guard and names a category is
      created exactly as the form shows it: the route's presence check and
      the schema both accept it, and the stored description is the one the
      client trimmed. */
  lemma GuardedPayloadIsCreated(store: Store, amount: Option<int>, c: Category, description: string,
                                dateField: string, today: Day, newId: string, now: Time)
    requires IsoWritable(today)
    requires dateField == "" || ParseIsoDay(dateField).Some?
    requires SubmitPayload(amount, CategoryName(c), description, dateField, today).Success?
    ensures var p := SubmitPayload(amount, CategoryName(c), description, dateField, today).value;
            var o := CreateExpense(store, PayloadBody(p), newId, now);
            && o.response.status == 201
            && o.response.body.expense.amount == p.amount
            && o.response.body.expense.category == c
            && o.response.body.expense.description == p.description
            && o.response.body.expense.date == Instant(ParseIsoDay(p.date).value, 0)
  {
    var p := SubmitPayload(amount, CategoryName(c), description, dateField, today).value;
    TrimIdempotent(description);
    PayloadIsCreated(store, p, c, newId, now);
  }

  /** A payload with a positive amount, a category's name and a trimmed
      description is stored as it stands. */
  lemma PayloadIsCreated(store: Store, p: Payload, c: Category, newId: string, now: Time)
    requires p.amount > 0 && p.category == CategoryName(c) && Trim(p.description) == p.description
    requires ParseIsoDay(p.date).Some?
    ensures var o := CreateExpense(store, PayloadBody(p), newId, now);
            && o.response.status == 201
            && o.response.body.expense.amount == p.amount
            && o.response.body.expense.category == c
            && o.response.body.expense.description == p.description
            && o.response.body.expense.date == Instant(ParseIsoDay(p.date).value, 0)
  {
    CategoryNameRoundTrip(c);
    var o := CreateExpense(store, PayloadBody(p), newId, now);
    assert CategoryName(o.response.body.expense.category) == CategoryName(c);
    CategoryNameInjective(o.response.body.expense.category, c);
  }

  lemma CategoryNameInjective(a: Category, b: Category)
    requires CategoryName(a) == CategoryName(b)
    ensures a == b
  {
    CategoryNameRoundTrip(a);
    CategoryNameRoundTrip(b);
  }

  /** The message a failed create or update shows: `details`, else `error`,
      else a fixed fallback. */
  function FailureText(body: Body, fallback: string): (t: string)
    ensures t != "" || fallback == ""
    ensures body.ErrorJson? && Truthy(body.details) ==> t == body.details.value
    ensures body.ErrorJson? && !Truthy(body.details) && body.error != "" ==> t == body.error
    ensures !body.ErrorJson? || (!Truthy(body.details) && body.error == "") ==> t == fallback
  {
    if body.ErrorJson? && body.details.Some? && body.details.value != "" then body.details.value
    else if body.ErrorJson? && body.error != "" then body.error
    else fallback
  }

  /** A rejected form shows the schema's messages joined by `', '`; a
      malformed identifier shows the cast error's text. */
  lemma FailureTextOfRejections(messages: seq<string>, castMessage: string, fallback: string)
    requires Join(messages, ", ") != ""
    ensures FailureText(ErrorResponse(ValidationFailure(messages)).body, fallback) == Join(messages, ", ")
    ensures FailureText(ErrorResponse(CastFailure(castMessage)).body, fallback) == InvalidId
  {
  }

  // ---------------------------------------------------------------------
  // Budget

  /** The default monthly budget: $2000, in cents. */
  const DefaultBudget: int := 200000

  /** What the budget key holds: nothing (or an empty string), or a string
      that `parseFloat` reads as `parsed` (`None` for NaN). */
  datatype StoredBudget = NotStored | Stored(parsed: Option<int>)

  const InvalidBudgetMessage: string := "Please enter a valid budget amount"

  /** Saving the budget field: a value that does not parse or is negative is
      refused; anything else, including 0, is stored. */
  function SaveBudget(field: Option<int>): (r: Result<StoredBudget, string>)
    ensures r.Success? <==> field.Some? && field.value >= 0
    ensures r.Success? ==> r.value == Stored(field)
    ensures r.Failure? ==> r.error == InvalidBudgetMessage
  {
    if field.None? || field.value < 0 then Failure(InvalidBudgetMessage)
    else Success(Stored(field))
  }

  /** The value the budget field shows on load: a stored string is shown as
      it parses (NaN as `None`), with the default only when nothing is stored. */
  function LoadBudget(s: StoredBudget): (r: Option<int>)
    ensures s.NotStored? ==> r == Some(DefaultBudget)
    ensures s.Stored? ==> r == s.parsed
  {
    match s
    case NotStored => Some(DefaultBudget)
    case Stored(p) => p
  }

  /** The budget the warning compares against: `parseFloat(saved) ||
      DEFAULT_BUDGET`, so a stored 0 or an unreadable value means the default. */
  function WarningBudget(s: StoredBudget): (b: int)
    ensures b == DefaultBudget <==> s.NotStored? || s.parsed.None? || s.parsed.value in {0, DefaultBudget}
    ensures b != DefaultBudget ==> Some(b) == LoadBudget(s)
  {
    if s.Stored? && s.parsed.Some? && s.parsed.value != 0 then s.parsed.value else DefaultBudget
  }

  datatype BudgetStatus = Exceeded | Approaching | Within

  /** The warning for a month's total: exceeded at or above the budget,
      approaching at or above 90% of it, within otherwise. */
  function BudgetWarning(monthlyTotal: int, s: StoredBudget): (w: BudgetStatus)
    ensures w == Exceeded <==> monthlyTotal >= WarningBudget(s)
    ensures w == Approaching <==> monthlyTotal < WarningBudget(s) && 10 * monthlyTotal >= 9 * WarningBudget(s)
    ensures w == Within <==> monthlyTotal < WarningBudget(s) && 10 * monthlyTotal < 9 * WarningBudget(s)
  {
    var budget := WarningBudget(s);
    if monthlyTotal >= budget then Exceeded
    else if 10 * monthlyTotal >= 9 * budget then Approaching
    else Within
  }

  function Severity(w: BudgetStatus): nat {
    match w
    case Within => 0
    case Approaching => 1
    case Exceeded => 2
  }

  /** Spending more never makes the warning milder, for a non-negative budget. */
  lemma BudgetWarningMonotone(t1: int, t2: int, s: StoredBudget)
    requires t1 <= t2
    ensures Severity(BudgetWarning(t1, s)) <= Severity(BudgetWarning(t2, s))
  {
  }

  /** A saved budget of 0 is displayed as 0 but warned about as if the
      default were set. */
  lemma ZeroBudgetShownButNotUsed()
    ensures SaveBudget(Some(0)) == Success(Stored(Some(0)))
    ensures LoadBudget(Stored(Some(0))) == Some(0)
    ensures BudgetWarning(0, Stored(Some(0))) == Within
    ensures BudgetWarning(DefaultBudget, Stored(Some(0))) == Exceeded
  {
  }

  /** A saved positive budget is what the warning then uses. */
  lemma SavedBudgetIsUsed(v: int, total: int)
    requires v > 0
    ensures SaveBudget(Some(v)).Success?
    ensures BudgetWarning(total, SaveBudget(Some(v)).value) == Exceeded <==> total >= v
    ensures LoadBudget(SaveBudget(Some(v)).value) == Some(v)
  {
  }

  // ---------------------------------------------------------------------
  // Theme

  const Light: string := "light"
  const Dark: string := "dark"

  /** The next theme from the page's current one (`None` when unset): only
      `'light'`, or an unset or empty theme, turns dark. */
  function ToggleTheme(current: Option<string>): (next: string)
    ensures next == Light || next == Dark
    ensures next == Dark <==> current.None? || current.value in {"", Light}
  {
    var theme := if current.Some? && current.value != "" then current.value else Light;
    if theme == Light then Dark else Light
  }

  /** The notice shown after toggling. */
  function ThemeNotice(next: string): (t: string)
    requires next == Light || next == Dark
    ensures next == Dark ==> t == "Dark mode enabled"
    ensures next == Light ==> t == "Light mode enabled"
  {
    [if next == Dark then 'D' else 'L'] + next[1..] + " mode enabled"
  }

  /** Toggling twice from either theme returns to it. */
  lemma ToggleThemeInvolution(theme: string)
    requires theme == Light || theme == Dark
    ensures ToggleTheme(Some(ToggleTheme(Some(theme)))) == theme
  {
  }

  // ---------------------------------------------------------------------
  // CSV export of everything

  /** The export fetches the unfiltered list, newest first. */
  const NoFilters: ListQuery := ListQuery(None, None, None)

  function ExportStore(store: Store): (r: Option<string>)
    ensures r.None? <==> store == []
  {
    var listed := ListExpenses(store, NoFilters).body.expenses;
    SelectAll(store, (e: Expense) => Matches(BuildFilter(NoFilters).value, e));
    ExportCsv(listed)
  }

  lemma {:induction false} SelectAll(es: Store, keep: Expense -> bool)
    requires forall e :: e in es ==> keep(e)
    ensures Select(es, keep) == es
  {
    if es != [] {
      assert es[0] in es;
      assert forall e :: e in es[1..] ==> e in es;
      SelectAll(es[1..], keep);
      assert Select(es, keep) == [es[0]] + Select(es[1..], keep);
      assert es == [es[0]] + es[1..];
    }
  }

  /** The exported file holds every stored record exactly once, newest
      first, and reading it back gives each record's cells. */
  lemma ExportHoldsEveryRecord(store: Store)
    requires store != []
    ensures var listed := ListExpenses(store, NoFilters).body.expenses;
            && NewestFirst(listed)
            && multiset(listed) == multiset(store)
            && ParseCsv(ExportStore(store).value) == Some(RowValuesAll(listed))
  {
    var listed := ListExpenses(store, NoFilters).body.expenses;
    SelectAll(store, (e: Expense) => Matches(BuildFilter(NoFilters).value, e));
    assert listed != [] by {
      assert |multiset(listed)| == |multiset(store)| > 0;
    }
    ExportRoundTrip(listed);
  }
}
