/** The expense routes over an abstract store: list with filters, stats,
    get, create, update and delete. Each handler returns the store after the
    request and the response sent; errors it passes on go through the error
    middleware. */
module Routes {
  import opened Wrappers
  import opened Text
  import opened Calendar
  import opened ExpenseModel
  import opened Queries
  import opened Stats
  import opened Http

  // ---------------------------------------------------------------------
  // The store

  predicate IsHexDigit(c: char) {
    ('0' <= c <= '9') || ('a' <= c <= 'f') || ('A' <= c <= 'F')
  }

  /** A string the store accepts as a record identifier: 24 hexadecimal digits. */
  predicate IsObjectId(s: string) {
    |s| == 24 && forall k :: 0 <= k < |s| ==> IsHexDigit(s[k])
  }

  predicate DistinctIds(store: Store) {
    forall i, j :: 0 <= i < j < |store| ==> store[i].id != store[j].id
  }

  /** What the store keeps true of its records. */
  predicate WellFormedStore(store: Store) {
    && DistinctIds(store)
    && forall e :: e in store ==> ValidExpense(e) && IsObjectId(e.id)
  }

  predicate HasId(store: Store, id: string) {
    exists e :: e in store && e.id == id
  }

  /** Position of the first record with identifier `id`. */
  function FindIndex(store: Store, id: string): (r: Option<nat>)
    ensures r.Some? ==> r.value < |store| && store[r.value].id == id
    ensures r.Some? ==> forall j :: 0 <= j < r.value ==> store[j].id != id
    ensures r.None? <==> !HasId(store, id)
  {
    if store == [] then None
    else if store[0].id == id then Some(0)
    else
      match FindIndex(store[1..], id)
      case None =>
        assert forall e :: e in store ==> e == store[0] || e in store[1..];
        None
      case Some(i) =>
        assert store[1..][i] in store;
        Some(i + 1)
  }

  /** The store after a request and the response to it. */
  datatype Outcome = Outcome(store: Store, response: Response)

  const NotFound: Response := Response(404, ErrorJson("Expense not found", None, None))

  function Truthy(v: Option<string>): bool {
    v.Some? && v.value != ""
  }

  // ---------------------------------------------------------------------
  // GET /api/expenses?category&startDate&endDate

  /** Query parameters; `None` for an absent one. */
  datatype ListQuery = ListQuery(category: Option<string>, startDate: Option<string>, endDate: Option<string>)

  /** The `find` filter: an exact category name and inclusive date bounds. */
  datatype Filter = Filter(category: Option<string>, from: Option<Instant>, to: Option<Instant>)

  predicate Matches(f: Filter, e: Expense) {
    && (f.category.Some? ==> CategoryName(e.category) == f.category.value)
    && (f.from.Some? ==> AtOrBefore(f.from.value, e.date))
    && (f.to.Some? ==> AtOrBefore(e.date, f.to.value))
  }

  /** Builds the filter. A category of `'all'` or an empty one does not
      constrain; `startDate` is midnight of its day; `endDate` is extended
      to 23:59:59.999 of its day. A date that does not parse cannot be cast
      by the store, which throws a cast error. */
  function BuildFilter(q: ListQuery): (r: Result<Filter, AppError>)
    ensures r.Failure? <==> (Truthy(q.startDate) && ParseIsoDay(q.startDate.value).None?)
                            || (Truthy(q.endDate) && ParseIsoDay(q.endDate.value).None?)
    ensures r.Failure? ==> r.error.name == "CastError"
    ensures r.Success? ==>
              && (r.value.category.Some? <==> Truthy(q.category) && q.category.value != "all")
              && (r.value.category.Some? ==> r.value.category == q.category)
              && (r.value.from.Some? <==> Truthy(q.startDate))
              && (r.value.to.Some? <==> Truthy(q.endDate))
              && (r.value.from.Some? ==> r.value.from.value == Instant(ParseIsoDay(q.startDate.value).value, 0))
              && (r.value.to.Some? ==> r.value.to.value == Instant(ParseIsoDay(q.endDate.value).value, EndOfDayMs))
  {
    var category := if Truthy(q.category) && q.category.value != "all" then q.category else None;
    var from := if Truthy(q.startDate) then Some(ParseIsoDay(q.startDate.value)) else None;
    var to := if Truthy(q.endDate) then Some(ParseIsoDay(q.endDate.value)) else None;
    if (from.Some? && from.value.None?) || (to.Some? && to.value.None?) then
      Failure(CastFailure("Cast to date failed"))
    else
      Success(Filter(
        category,
        if from.Some? then Some(Instant(from.value.value, 0)) else None,
        if to.Some? then Some(Instant(to.value.value, EndOfDayMs)) else None))
  }

  /** The matching records, newest first. */
  function FindSorted(store: Store, f: Filter): (r: Store)
    ensures NewestFirst(r)
    ensures forall e :: multiset(r)[e] == if Matches(f, e) then multiset(store)[e] else 0
    ensures forall e :: e in r <==> e in store && Matches(f, e)
  {
    var sel := Select(store, (e: Expense) => Matches(f, e));
    var r := SortNewestFirst(sel);
    SameMultisetSameMembers(r, sel);
    r
  }

  lemma SameMultisetSameMembers(a: Store, b: Store)
    requires multiset(a) == multiset(b)
    ensures forall e :: e in a <==> e in b
  {
    forall e ensures e in a <==> e in b {
      assert e in a <==> e in multiset(a);
      assert e in b <==> e in multiset(b);
    }
  }

  /** A date that does not parse is answered as a malformed identifier;
      otherwise the matching records are listed newest first. */
  function ListExpenses(store: Store, q: ListQuery): (r: Response)
    ensures BuildFilter(q).Failure? ==> r == Response(400, ErrorJson(InvalidId, None, None))
    ensures BuildFilter(q).Success? ==>
              && r.status == 200 && r.body.ExpenseListJson? && NewestFirst(r.body.expenses)
              && (forall e :: e in r.body.expenses <==> e in store && Matches(BuildFilter(q).value, e))
              && forall e :: multiset(r.body.expenses)[e]
                             == if Matches(BuildFilter(q).value, e) then multiset(store)[e] else 0
  {
    match BuildFilter(q)
    case Failure(err) => ErrorResponse(err)
    case Success(f) => Response(200, ExpenseListJson(FindSorted(store, f)))
  }

  /** A one-day range with a category returns exactly that category's
      records of that whole day, newest first. */
  lemma ListOneDay(store: Store, c: Category, d: Day)
    requires IsoWritable(d)
    ensures var q := ListQuery(Some(CategoryName(c)), Some(FormatIsoDay(d)), Some(FormatIsoDay(d)));
            var r := ListExpenses(store, q);
            && r.status == 200 && r.body.ExpenseListJson? && NewestFirst(r.body.expenses)
            && forall e :: e in r.body.expenses <==> e in store && e.category == c && e.date.day == d
  {
    FormatThenParseIsoDay(d);
    var q := ListQuery(Some(CategoryName(c)), Some(FormatIsoDay(d)), Some(FormatIsoDay(d)));
    var f := BuildFilter(q).value;
    forall e: Expense ensures Matches(f, e) <==> e.category == c && e.date.day == d {
      WholeDayRange(e.date, d);
      CategoryNameRoundTrip(c);
      CategoryNameRoundTrip(e.category);
    }
  }

  /** Without a category, `'all'` and an empty category select the same records. */
  lemma AllCategoryIsNoFilter(q: ListQuery)
    ensures BuildFilter(q.(category := Some("all"))) == BuildFilter(q.(category := None))
    ensures BuildFilter(q.(category := Some(""))) == BuildFilter(q.(category := None))
  {
  }

  // ---------------------------------------------------------------------
  // GET /api/expenses/stats?month&year

  function GetStats(store: Store, q: StatsQuery, now: Time): (r: Response)
    ensures r.status == 200 && r.body.StatsJson?
    ensures r.body.snapshot.totalExpenses == Total(store)
    ensures r.body.snapshot == ComputeStats(store, q, now)
  {
    Response(200, StatsJson(ComputeStats(store, q, now)))
  }

  // ---------------------------------------------------------------------
  // GET /api/expenses/:id

  function GetExpense(store: Store, id: string): (r: Response)
    ensures !IsObjectId(id) ==> r == Response(400, ErrorJson(InvalidId, None, None))
    ensures IsObjectId(id) && !HasId(store, id) ==> r == NotFound
    ensures IsObjectId(id) && HasId(store, id) ==>
              r.status == 200 && r.body.ExpenseJson? && r.body.expense in store && r.body.expense.id == id
  {
    if !IsObjectId(id) then ErrorResponse(CastFailure("Cast to ObjectId failed"))
    else
      match FindIndex(store, id)
      case None => NotFound
      case Some(i) => Response(200, ExpenseJson(store[i]))
  }

  // ---------------------------------------------------------------------
  // POST /api/expenses

  /** A request's `date` field as `new Date(date)` reads it: left out, an
      instant, or text it cannot read (an Invalid Date). */
  datatype DateField = NoDate | DateOf(time: Time) | InvalidDate

  /** The date a record gets: the field's instant, else `fallback`. */
  function DateOr(d: DateField, fallback: Time): Time {
    if d.DateOf? then d.time else fallback
  }

  /** The request body; `None` for an undefined field. A falsy `date`
      (undefined or empty) is `NoDate`. */
  datatype CreateBody = CreateBody(amount: Option<int>, category: Option<string>,
                                   description: Option<string>, date: DateField)

  /** The message the store reports for a date it cannot cast. */
  const DateCastMessage: string := "Cast to date failed for value \"Invalid Date\" (type Date) at path \"date\""

  const RequiredMessage: string := "Amount and category are required"

  /** `!amount || !category`: an absent or zero amount, an absent or empty category. */
  predicate CreatePresenceFails(body: CreateBody) {
    body.amount.None? || body.amount.value == 0 || !Truthy(body.category)
  }

  /** The document the route constructs: `description || ''`, `date` or now. */
  function CreateInput(body: CreateBody, now: Time): ExpenseInput {
    ExpenseInput(body.amount, body.category,
                 Some(if Truthy(body.description) then body.description.value else ""),
                 Some(DateOr(body.date, now)))
  }

  /** Creates a record under the store-issued identifier `newId`. */
  function CreateExpense(store: Store, body: CreateBody, newId: string, now: Time): (r: Outcome)
    ensures CreatePresenceFails(body) ==>
              r == Outcome(store, Response(400, ErrorJson(ValidationFailed, Some(RequiredMessage), None)))
    ensures !CreatePresenceFails(body) && body.date.InvalidDate? ==>
              && r.store == store
              && r.response.status == 400
              && r.response.body.ErrorJson? && r.response.body.error == ValidationFailed
    ensures r.response.status == 201 <==>
              && !CreatePresenceFails(body) && !body.date.InvalidDate?
              && Validate(CreateInput(body, now), newId, now).Success?
    ensures r.response.status != 201 ==> r.store == store && r.response.status == 400
    ensures r.response.status == 201 ==>
              && r.response.body.ExpenseJson?
              && ValidExpense(r.response.body.expense)
              && r.store == store + [r.response.body.expense]
              && r.response.body.expense.id == newId
              && Some(r.response.body.expense.amount) == body.amount
              && Some(CategoryName(r.response.body.expense.category)) == body.category
              && r.response.body.expense.description == Trim(body.description.GetOr(""))
              && r.response.body.expense.date == DateOr(body.date, now)
  {
    if CreatePresenceFails(body) then
      Outcome(store, Response(400, ErrorJson(ValidationFailed, Some(RequiredMessage), None)))
    else if body.date.InvalidDate? then
      var messages := [DateCastMessage] + AmountErrors(body.amount) + CategoryErrors(body.category);
      Outcome(store, ErrorResponse(ValidationFailure(messages)))
    else
      match Validate(CreateInput(body, now), newId, now)
      case Failure(messages) => Outcome(store, ErrorResponse(ValidationFailure(messages)))
      case Success(e) => Outcome(store + [e], Response(201, ExpenseJson(e)))
  }

  /** The route refuses an amount of 0 although the schema alone accepts it. */
  lemma CreateRejectsZeroAmount(store: Store, category: Category, newId: string, now: Time)
    ensures var body := CreateBody(Some(0), Some(CategoryName(category)), None, NoDate);
            && CreateExpense(store, body, newId, now).response
               == Response(400, ErrorJson(ValidationFailed, Some(RequiredMessage), None))
            && Validate(CreateInput(body, now), newId, now).Success?
  {
    CategoryNameRoundTrip(category);
  }

  /** An invalid category that passes the presence check is reported by the
      schema through the error middleware. */
  lemma CreateReportsInvalidCategory(store: Store, amount: int, s: string, newId: string, now: Time)
    requires amount > 0 && s != "" && ParseCategory(s).None?
    ensures CreateExpense(store, CreateBody(Some(amount), Some(s), None, NoDate), newId, now).response
            == Response(400, ErrorJson(ValidationFailed, Some(InvalidCategory(s)), None))
  {
  }

  /** Creating keeps the store well formed when the identifier is fresh, and
      the new record can then be fetched by its identifier. */
  lemma CreateThenGet(store: Store, body: CreateBody, newId: string, now: Time)
    requires WellFormedStore(store) && IsObjectId(newId) && !HasId(store, newId)
    requires CreateExpense(store, body, newId, now).response.status == 201
    ensures var o := CreateExpense(store, body, newId, now);
            && WellFormedStore(o.store)
            && GetExpense(o.store, newId) == Response(200, ExpenseJson(o.response.body.expense))
  {
    var o := CreateExpense(store, body, newId, now);
    AppendFresh(store, o.response.body.expense);
  }

  /** Appending a valid record under a fresh identifier keeps the store well
      formed, and a lookup of that identifier finds the new record. */
  lemma AppendFresh(store: Store, e: Expense)
    requires WellFormedStore(store) && ValidExpense(e) && IsObjectId(e.id) && !HasId(store, e.id)
    ensures WellFormedStore(store + [e])
    ensures GetExpense(store + [e], e.id) == Response(200, ExpenseJson(e))
  {
    var s := store + [e];
    assert forall x :: x in s ==> x in store || x == e;
    forall j | 0 <= j < |s| && j != |store| ensures s[j].id != e.id {
      assert s[j] == store[j] && store[j] in store;
    }
    FindIndexFirst(s, e.id, |store|);
  }

  /** In a store without duplicate identifiers, the record found is the one
      at the only position holding that identifier. */
  lemma FindIndexFirst(store: Store, id: string, i: nat)
    requires i < |store| && store[i].id == id
    requires forall j :: 0 <= j < |store| && j != i ==> store[j].id != id
    ensures FindIndex(store, id) == Some(i)
  {
    assert store[i] in store;
  }

  // ---------------------------------------------------------------------
  // PUT /api/expenses/:id

  /** The request body of an update; `None` or `NoDate` for a key that is
      undefined. Any defined `date`, the empty string included, goes through
      `new Date`. */
  datatype UpdateBody = UpdateBody(amount: Option<int>, category: Option<string>,
                                   description: Option<string>, date: DateField)

  /** Casting the update: an Invalid Date cannot be cast to the `date` path. */
  function CastUpdate(b: UpdateBody): (r: Option<ExpenseUpdate>)
    ensures r.None? <==> b.date.InvalidDate?
    ensures r.Some? ==> && r.value.amount == b.amount && r.value.category == b.category
                        && r.value.description == b.description
                        && (r.value.date.Some? <==> b.date.DateOf?)
                        && (r.value.date.Some? ==> r.value.date.value == b.date.time)
  {
    match b.date
    case InvalidDate => None
    case NoDate => Some(ExpenseUpdate(b.amount, b.category, b.description, None))
    case DateOf(t) => Some(ExpenseUpdate(b.amount, b.category, b.description, Some(t)))
  }

  /** The identifier and the update are cast first (either failure is a
      cast error), then the present fields are validated, then the record
      is looked up and updated. */
  function UpdateExpense(store: Store, id: string, b: UpdateBody): (r: Outcome)
    ensures r.response.status != 200 ==> r.store == store
    ensures !IsObjectId(id) || b.date.InvalidDate? ==> r.response == Response(400, ErrorJson(InvalidId, None, None))
    ensures IsObjectId(id) && CastUpdate(b).Some? && UpdateErrors(CastUpdate(b).value) != [] ==>
              r.response == ErrorResponse(ValidationFailure(UpdateErrors(CastUpdate(b).value)))
    ensures IsObjectId(id) && CastUpdate(b).Some? && UpdateErrors(CastUpdate(b).value) == [] && !HasId(store, id) ==>
              r.response == NotFound
    ensures r.response.status == 200 <==>
              IsObjectId(id) && CastUpdate(b).Some? && UpdateErrors(CastUpdate(b).value) == [] && HasId(store, id)
  {
    if !IsObjectId(id) then
      Outcome(store, ErrorResponse(CastFailure("Cast to ObjectId failed")))
    else if CastUpdate(b).None? then
      Outcome(store, ErrorResponse(CastFailure("Cast to date failed")))
    else
      var u := CastUpdate(b).value;
      if UpdateErrors(u) != [] then
        Outcome(store, ErrorResponse(ValidationFailure(UpdateErrors(u))))
      else
        match FindIndex(store, id)
        case None => Outcome(store, NotFound)
        case Some(i) =>
          var e := ApplyUpdate(store[i], u).value;
          Outcome(store[i := e], Response(200, ExpenseJson(e)))
  }

  /** A successful update rewrites only the addressed record: fields absent
      from the request keep their values (an amount of 0 is present), every
      other record is untouched, and the store stays well formed. */
  lemma UpdateChangesOnlyTarget(store: Store, id: string, b: UpdateBody)
    requires WellFormedStore(store)
    requires UpdateExpense(store, id, b).response.status == 200
    ensures var o := UpdateExpense(store, id, b);
            var i := FindIndex(store, id).value;
            var u := CastUpdate(b).value;
            && |o.store| == |store|
            && (forall j :: 0 <= j < |store| && j != i ==> o.store[j] == store[j])
            && Success(o.store[i]) == ApplyUpdate(store[i], u)
            && o.response.body == ExpenseJson(o.store[i])
            && o.store[i].amount == u.amount.GetOr(store[i].amount)
            && WellFormedStore(o.store)
  {
    var i := FindIndex(store, id).value;
    var u := CastUpdate(b).value;
    var e := ApplyUpdate(store[i], u).value;
    assert UpdateExpense(store, id, b).store == store[i := e];
    assert store[i] in store;
    UpdatePreservesValidity(store[i], u);
    forall x | x in store[i := e] ensures ValidExpense(x) && IsObjectId(x.id) {
      var j :| 0 <= j < |store| && store[i := e][j] == x;
      if j != i { assert store[j] in store; }
    }
  }

  // ---------------------------------------------------------------------
  // DELETE /api/expenses/:id

  const DeletedMessage: string := "Expense deleted successfully"

  function DeleteExpense(store: Store, id: string): (r: Outcome)
    ensures !IsObjectId(id) ==> r == Outcome(store, Response(400, ErrorJson(InvalidId, None, None)))
    ensures IsObjectId(id) && !HasId(store, id) ==> r == Outcome(store, NotFound)
    ensures IsObjectId(id) && HasId(store, id) ==>
              && r.response.status == 200
              && r.response.body.DeletedJson?
              && r.response.body.confirmation == DeletedMessage
              && r.response.body.expense.id == id
              && multiset(r.store) + multiset{r.response.body.expense} == multiset(store)
  {
    if !IsObjectId(id) then
      Outcome(store, ErrorResponse(CastFailure("Cast to ObjectId failed")))
    else
      match FindIndex(store, id)
      case None => Outcome(store, NotFound)
      case Some(i) =>
        assert store == store[..i] + [store[i]] + store[i + 1..];
        Outcome(store[..i] + store[i + 1..], Response(200, DeletedJson(DeletedMessage, store[i])))
  }

  /** After a delete, the identifier is gone: a second delete and a get both
      answer 404, and the store stays well formed. */
  lemma DeleteTwiceIsNotFound(store: Store, id: string)
    requires WellFormedStore(store)
    requires DeleteExpense(store, id).response.status == 200
    ensures var after := DeleteExpense(store, id).store;
            && WellFormedStore(after)
            && DeleteExpense(after, id) == Outcome(after, NotFound)
            && GetExpense(after, id) == NotFound
  {
    var i := FindIndex(store, id).value;
    var after := DeleteExpense(store, id).store;
    assert after == store[..i] + store[i + 1..];
    forall j | 0 <= j < |after|
      ensures after[j] == store[if j < i then j else j + 1]
    {
    }
    forall x | x in after ensures x in store && x.id != id {
      var j :| 0 <= j < |after| && after[j] == x;
      var k := if j < i then j else j + 1;
      assert store[k] == x;
    }
    assert !HasId(after, id);
    forall j, k | 0 <= j < k < |after| ensures after[j].id != after[k].id {
      var j' := if j < i then j else j + 1;
      var k' := if k < i then k else k + 1;
      assert after[j] == store[j'] && after[k] == store[k'];
    }
  }
}
