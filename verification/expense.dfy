/** The Expense record and its schema: the closed category set, the field
    constraints and defaults, and the validation messages a rejected record
    produces. Amounts are integer cents. */
module ExpenseModel {
  import opened Wrappers
  import opened Text
  import opened Calendar

  datatype Category = Food | Travel | Shopping | Bills | Other

  /** The `CATEGORIES` list, in its declared order. */
  const Categories: seq<Category> := [Food, Travel, Shopping, Bills, Other]

  lemma CategoriesListsEachOnce(c: Category)
    ensures c in Categories
    ensures multiset(Categories)[c] == 1
  {
  }

  function CategoryName(c: Category): string {
    match c
    case Food => "Food"
    case Travel => "Travel"
    case Shopping => "Shopping"
    case Bills => "Bills"
    case Other => "Other"
  }

  /** The category a string names, if it is one of the five names exactly
      (the enum check is case-sensitive). */
  function ParseCategory(s: string): (r: Option<Category>)
    ensures r.Some? ==> CategoryName(r.value) == s
    ensures r.None? ==> forall c: Category :: CategoryName(c) != s
  {
    if s == "Food" then Some(Food)
    else if s == "Travel" then Some(Travel)
    else if s == "Shopping" then Some(Shopping)
    else if s == "Bills" then Some(Bills)
    else if s == "Other" then Some(Other)
    else None
  }

  lemma CategoryNameRoundTrip(c: Category)
    ensures ParseCategory(CategoryName(c)) == Some(c)
  {
  }

  /** A stored expense. `id` is the store-assigned identifier. */
  datatype Expense = Expense(id: string, amount: int, category: Category, description: string, date: Time)

  /** What the schema guarantees of every stored record. */
  predicate ValidExpense(e: Expense) {
    e.amount >= 0 && IsTrimmed(e.description)
  }

  /** The user-supplied fields of a record about to be constructed; `None`
      is a field left undefined. */
  datatype ExpenseInput = ExpenseInput(amount: Option<int>, category: Option<string>,
                                       description: Option<string>, date: Option<Time>)

  const AmountRequired: string := "Amount is required"
  const AmountNegative: string := "Amount cannot be negative"
  const CategoryRequired: string := "Category is required"

  /** The enum message template `'{VALUE} is not a valid category'`. */
  function InvalidCategory(value: string): string {
    value + " is not a valid category"
  }

  /** The message the `amount` path reports on a new record, if any:
      `required` runs before `min`, and a path reports its first failure. */
  function AmountErrors(amount: Option<int>): (ms: seq<string>)
    ensures amount.None? ==> ms == [AmountRequired]
    ensures amount.Some? && amount.value < 0 ==> ms == [AmountNegative]
    ensures ms == [] <==> amount.Some? && amount.value >= 0
  {
    match amount
    case None => [AmountRequired]
    case Some(a) => if a < 0 then [AmountNegative] else []
  }

  /** The message the `category` path reports on a new record, if any. A
      required string is missing when undefined or empty. */
  function CategoryErrors(category: Option<string>): (ms: seq<string>)
    ensures category.None? || category == Some("") ==> ms == [CategoryRequired]
    ensures category.Some? && category.value != "" && ParseCategory(category.value).None?
            ==> ms == [InvalidCategory(category.value)]
    ensures ms == [] <==> category.Some? && ParseCategory(category.value).Some?
  {
    match category
    case None => [CategoryRequired]
    case Some(s) =>
      if s == "" then [CategoryRequired]
      else if ParseCategory(s).None? then [InvalidCategory(s)]
      else []
  }

  /** Constructing and validating a new document: defaults are applied
      (description `''`, date now), the description is trimmed, and either
      the record or the messages of every failing path, in schema order, are
      returned. */
  function Validate(input: ExpenseInput, id: string, now: Time): (r: Result<Expense, seq<string>>)
    ensures r.Success? <==> AmountErrors(input.amount) == [] && CategoryErrors(input.category) == []
    ensures r.Failure? ==> r.error == AmountErrors(input.amount) + CategoryErrors(input.category)
    ensures r.Success? ==> && ValidExpense(r.value)
                           && r.value.id == id
                           && Some(r.value.amount) == input.amount
                           && Some(CategoryName(r.value.category)) == input.category
                           && r.value.description == Trim(input.description.GetOr(""))
                           && r.value.date == input.date.GetOr(now)
  {
    var errors := AmountErrors(input.amount) + CategoryErrors(input.category);
    if errors != [] then
      Failure(errors)
    else
      Success(Expense(id, input.amount.value, ParseCategory(input.category.value).value,
                      Trim(input.description.GetOr("")), input.date.GetOr(now)))
  }

  /** A negative amount together with an unknown category reports both. */
  lemma ValidationReportsEachField(a: int, s: string, desc: Option<string>, date: Option<Time>, id: string, now: Time)
    requires a < 0 && s != "" && ParseCategory(s).None?
    ensures Validate(ExpenseInput(Some(a), Some(s), desc, date), id, now)
            == Failure([AmountNegative, InvalidCategory(s)])
  {
    assert AmountErrors(Some(a)) == [AmountNegative];
    assert CategoryErrors(Some(s)) == [InvalidCategory(s)];
    assert [AmountNegative] + [InvalidCategory(s)] == [AmountNegative, InvalidCategory(s)];
  }

  /** A partial update: `Some` marks a key present in the request body
      (`!== undefined`), whatever its value. */
  datatype ExpenseUpdate = ExpenseUpdate(amount: Option<int>, category: Option<string>,
                                         description: Option<string>, date: Option<Time>)

  /** Update validators run only on the paths being set, each with its
      whole chain: a set amount can fail `min`, and a set category can fail
      `required` (the empty string) or the enum. A path left out of the
      update is not validated. */
  function UpdateErrors(u: ExpenseUpdate): (ms: seq<string>)
    ensures u.amount.Some? && u.amount.value < 0 ==> |ms| >= 1 && ms[0] == AmountNegative
    ensures u.category == Some("") ==> |ms| >= 1 && ms[|ms| - 1] == CategoryRequired
    ensures u.category.Some? && u.category.value != "" && ParseCategory(u.category.value).None?
            ==> |ms| >= 1 && ms[|ms| - 1] == InvalidCategory(u.category.value)
    ensures |ms| == (if u.amount.Some? && u.amount.value < 0 then 1 else 0)
                    + (if u.category.Some? && ParseCategory(u.category.value).None? then 1 else 0)
    ensures AmountRequired !in ms
    ensures ms == [] <==> (u.amount.Some? ==> u.amount.value >= 0)
                          && (u.category.Some? ==> ParseCategory(u.category.value).Some?)
  {
    (if u.amount.Some? then AmountErrors(u.amount) else [])
    + (if u.category.Some? then CategoryErrors(u.category) else [])
  }

  /** Applies the present fields of `u` to `e` (the description through the
      schema's trim setter); absent fields keep their stored value. */
  function ApplyUpdate(e: Expense, u: ExpenseUpdate): (r: Result<Expense, seq<string>>)
    ensures r.Success? <==> UpdateErrors(u) == []
    ensures r.Failure? ==> r.error == UpdateErrors(u)
    ensures r.Success? ==> && r.value.id == e.id
                           && r.value.amount == u.amount.GetOr(e.amount)
                           && CategoryName(r.value.category) == u.category.GetOr(CategoryName(e.category))
                           && (u.description.None? ==> r.value.description == e.description)
                           && (u.description.Some? ==> r.value.description == Trim(u.description.value))
                           && r.value.date == u.date.GetOr(e.date)
  {
    if UpdateErrors(u) != [] then
      Failure(UpdateErrors(u))
    else
      Success(Expense(
        e.id,
        u.amount.GetOr(e.amount),
        if u.category.Some? then ParseCategory(u.category.value).value else e.category,
        if u.description.Some? then Trim(u.description.value) else e.description,
        u.date.GetOr(e.date)))
  }

  const NoChange: ExpenseUpdate := ExpenseUpdate(None, None, None, None)

  /** An update with no keys leaves the record as it is. */
  lemma EmptyUpdateIsIdentity(e: Expense)
    ensures ApplyUpdate(e, NoChange) == Success(e)
  {
  }

  /** Updating keeps a valid record valid, and an amount of 0 counts as
      supplied. */
  lemma UpdatePreservesValidity(e: Expense, u: ExpenseUpdate)
    requires ValidExpense(e)
    requires ApplyUpdate(e, u).Success?
    ensures ValidExpense(ApplyUpdate(e, u).value)
  {
  }

  /** Applying the same update twice has the effect of applying it once. */
  lemma UpdateIdempotent(e: Expense, u: ExpenseUpdate)
    requires ApplyUpdate(e, u).Success?
    ensures ApplyUpdate(ApplyUpdate(e, u).value, u) == ApplyUpdate(e, u)
  {
    if u.description.Some? {
      TrimIdempotent(u.description.value);
    }
  }
}
