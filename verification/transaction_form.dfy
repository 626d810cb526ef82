/**
 * The transaction form of the Transactions page: the category list offered
 * for each type, submitting (validation and the record sent to the
 * backend), resetting, loading a record for editing, switching the type,
 * the category suggestion and how its answer is normalised, and the rows
 * of the CSV export.
 *
 * `parseFloat`, the clock, number-to-string conversion and date formatting
 * are parameters; whether the backend accepted a save is a parameter too.
 */
module TransactionForm {
  import opened Wrappers
  import opened Strings
  import opened Numbers
  import opened Ledger
  import opened Retry

  const ExpenseCategories: seq<string> := ["Food", "Transport", "Entertainment", "Shopping", "Utilities", "Other"]
  const IncomeCategories: seq<string> := ["Salary", "Freelance", "Investment", "Gift", "Other"]

  /** `type === 'expense' ? expenseCategories : incomeCategories`. */
  function CategoriesFor(k: Kind): seq<string> {
    if k == Expense then ExpenseCategories else IncomeCategories
  }

  /**
   * The expense list is offered exactly for the expense type; both lists are
   * non-empty, start with a non-empty name, and offer `'Other'`.
   */
  lemma CategoryLists(k: Kind)
    ensures CategoriesFor(k) == ExpenseCategories <==> k == Expense
    ensures |CategoriesFor(k)| > 0 && CategoriesFor(k)[0] != []
    ensures "Other" in CategoriesFor(k)
    ensures CategoriesFor(k)[0] == if k == Expense then "Food" else "Salary"
  {
    assert ExpenseCategories[0] != IncomeCategories[0];
    assert ExpenseCategories[5] == "Other" && IncomeCategories[4] == "Other";
  }

  /** The form's state: the two text inputs, the type and category selects, the record being edited, the error line. */
  datatype Form = Form(description: string, amount: string, kind: Kind, category: string,
                       editingId: Option<string>, error: string)

  /** The form as the page first shows it. */
  const InitialForm: Form := Form("", "", Expense, "Other", None, "")

  /** The category select shows an entry of the list for the selected type. */
  ghost predicate ValidCategory(f: Form) {
    f.category in CategoriesFor(f.kind)
  }

  /** `resetForm`: empty inputs, the expense type with its first category, no record being edited, no error. */
  function Reset(): (r: Form)
    ensures r.description == [] && r.amount == [] && r.editingId.None? && r.error == []
    ensures r.kind == Expense && r.category == ExpenseCategories[0]
  {
    Form("", "", Expense, if ExpenseCategories[0] != [] then ExpenseCategories[0] else "Other", None, "")
  }

  /**
   * Both the first form and a reset one show a category of the list; they
   * differ only in which one (`'Other'` first, `'Food'` after a reset).
   */
  lemma ResetValid()
    ensures ValidCategory(InitialForm) && ValidCategory(Reset())
    ensures Reset() == InitialForm.(category := "Food")
  {
    CategoryLists(Expense);
  }

  const FillBoth: string := "Please fill in both description and amount."
  const SaveFailed: string := "Failed to save transaction. Please try again."

  /** The record `handleSubmit` sends: the description goes in `note`. */
  datatype Record = Record(note: string, amount: Num, kind: Kind, category: string, date: string, user: string)

  /** An update of the record being edited, or a new record. */
  datatype SaveRequest = Add(record: Record) | Update(id: string, record: Record)

  datatype Submitted = Submitted(form: Form, request: Option<SaveRequest>)

  /** The category actually sent: an empty selection becomes `'Other'`. */
  function SentCategory(category: string): (r: string)
    ensures r != []
    ensures category != [] ==> r == category
  {
    if category != [] then category else "Other"
  }

  /**
   * `handleSubmit`: an empty description or amount only sets the error.
   * Otherwise the record is sent, as an update when a record is being
   * edited; a successful save resets the form, a failed one keeps it and
   * sets the error.
   */
  function Submit(f: Form, user: string, now: string, parse: string -> Num, saved: bool): (r: Submitted)
    ensures r.request.None? <==> f.description == [] || f.amount == []
    ensures r.request.None? ==> r.form == f.(error := FillBoth)
    ensures r.request.Some? ==>
              && r.request.value.record == Record(f.description, parse(f.amount), f.kind, SentCategory(f.category), now, user)
              && (r.request.value.Update? <==> f.editingId.Some? && f.editingId.value != [])
              && (r.request.value.Update? ==> r.request.value.id == f.editingId.value)
              && r.form == if saved then Reset() else f.(error := SaveFailed)
  {
    if f.description == [] || f.amount == [] then Submitted(f.(error := FillBoth), None)
    else
      var rec := Record(f.description, parse(f.amount), f.kind, SentCategory(f.category), now, user);
      var req := if f.editingId.Some? && f.editingId.value != [] then Update(f.editingId.value, rec) else Add(rec);
      Submitted(if saved then Reset() else f.(error := SaveFailed), Some(req))
  }

  /** What `handleEdit` leaves: the form, and whether the handler threw part-way. */
  datatype Edited = Edited(form: Form, threw: bool)

  /** The text loaded into the description input: note, else description, else empty. */
  function EditText(t: Txn): string {
    OrDefault(t.note, OrDefault(t.description, ""))
  }

  /**
   * `handleEdit`: the record's id, text, amount and type go into the form,
   * and its category, or the type's first category when it has none. For a
   * record without an amount, `amount.toString()` throws after the id and
   * the text were set: those two updates stay, the rest of the form is as
   * it was.
   */
  function Edit(f: Form, t: Txn, show: int -> string): (r: Edited)
    ensures r.threw <==> t.amount.None?
    ensures r.form.editingId == Some(t.id) && r.form.description == EditText(t)
    ensures r.threw ==> r.form == f.(editingId := Some(t.id), description := EditText(t))
    ensures !r.threw ==>
              && r.form.amount == show(t.amount.value)
              && r.form.kind == t.kind
              && (t.category.Some? && t.category.value != [] ==> r.form.category == t.category.value)
              && (t.category.None? || t.category.value == [] ==> r.form.category == CategoriesFor(t.kind)[0])
              && r.form.error == f.error
  {
    var partial := f.(editingId := Some(t.id), description := EditText(t));
    if t.amount.None? then Edited(partial, true)
    else
      var cats := CategoriesFor(t.kind);
      CategoryLists(t.kind);
      Edited(partial.(amount := show(t.amount.value), kind := t.kind,
                      category := OrDefault(t.category, OrDefault(Some(cats[0]), "Other"))), false)
  }

  /**
   * Editing a record and saving it sends an update of that record with its
   * own note, type and category (the type's first category when it had
   * none), and the amount read back from its text.
   */
  lemma EditThenSubmit(f: Form, t: Txn, show: int -> string, user: string, now: string, parse: string -> Num, saved: bool)
    requires t.amount.Some? && t.id != [] && t.note.Some? && t.note.value != [] && show(t.amount.value) != []
    ensures !Edit(f, t, show).threw
    ensures var g := Edit(f, t, show).form;
            Submit(g, user, now, parse, saved).request
            == Some(Update(t.id, Record(t.note.value, parse(show(t.amount.value)), t.kind,
                                        OrDefault(t.category, CategoriesFor(t.kind)[0]), now, user)))
  {
    CategoryLists(t.kind);
  }

  /** The type select's `onChange`: the new type, with the first category of its list. */
  function ChangeType(f: Form, k: Kind): (r: Form)
    ensures r.kind == k && r.category == CategoriesFor(k)[0]
    ensures r.(kind := f.kind, category := f.category) == f
  {
    CategoryLists(k);
    f.(kind := k, category := if CategoriesFor(k)[0] != [] then CategoriesFor(k)[0] else "Other")
  }

  /** A type change always leaves a category the new list offers. */
  lemma ChangeTypeValid(f: Form, k: Kind)
    ensures ValidCategory(ChangeType(f, k))
  {
    CategoryLists(k);
  }

  /** Submitting keeps a valid category: the form is kept or reset. */
  lemma SubmitValid(f: Form, user: string, now: string, parse: string -> Num, saved: bool)
    requires ValidCategory(f)
    ensures ValidCategory(Submit(f, user, now, parse, saved).form)
  {
    ResetValid();
  }

  // ---------------------------------------------------------------------------
  // Category suggestion
  // ---------------------------------------------------------------------------

  /** The position of the first category whose lower-case form occurs in `hay`. */
  function FirstContained(hay: string, cats: seq<string>, from: nat): (r: Option<nat>)
    requires from <= |cats|
    ensures r.Some? ==> from <= r.value < |cats| && Contains(hay, ToLower(cats[r.value]))
    ensures r.Some? ==> forall j :: from <= j < r.value ==> !Contains(hay, ToLower(cats[j]))
    ensures r.None? ==> forall j :: from <= j < |cats| ==> !Contains(hay, ToLower(cats[j]))
    decreases |cats| - from
  {
    if from == |cats| then None
    else if Contains(hay, ToLower(cats[from])) then Some(from)
    else FirstContained(hay, cats, from + 1)
  }

  /**
   * The suggested text made into a category of the list `cats` in force:
   * trimmed, kept when it is one of them, else the first category it
   * mentions ignoring case, else `'Other'`.
   */
  function Normalize(text: string, cats: seq<string>): (r: string)
    ensures r in cats || r == "Other"
    ensures Trim(text) in cats ==> r == Trim(text)
  {
    var s := Trim(text);
    if s in cats then s
    else
      match FirstContained(ToLower(s), cats, 0)
      case Some(i) => if cats[i] != [] then cats[i] else "Other"
      case None => "Other"
  }

  /** Text that is no category but mentions one takes the first category, in list order, it mentions. */
  lemma NormalizeFirstMention(text: string, cats: seq<string>, i: nat)
    requires Trim(text) !in cats && i < |cats| && cats[i] != []
    requires Contains(ToLower(Trim(text)), ToLower(cats[i]))
    requires forall j :: 0 <= j < i ==> !Contains(ToLower(Trim(text)), ToLower(cats[j]))
    ensures Normalize(text, cats) == cats[i]
  {
    var r := FirstContained(ToLower(Trim(text)), cats, 0);
    assert r.Some?;
    assert !(r.value < i) && !(r.value > i);
  }

  /** Text that is no category and mentions none becomes `'Other'`. */
  lemma NormalizeNoMention(text: string, cats: seq<string>)
    requires Trim(text) !in cats
    requires forall j :: 0 <= j < |cats| ==> !Contains(ToLower(Trim(text)), ToLower(cats[j]))
    ensures Normalize(text, cats) == "Other"
  {
    var r := FirstContained(ToLower(Trim(text)), cats, 0);
    if r.Some? {
      assert false;
    }
  }

  /** No category name begins or ends with white space. */
  lemma CategoriesUntrimmed(k: Kind, c: string)
    requires c in CategoriesFor(k)
    ensures Trim(c) == c
  {
    var cats := CategoriesFor(k);
    var i :| 0 <= i < |cats| && cats[i] == c;
    assert c != [] && c[0] in "FTESUOSFIG" && c[|c| - 1] in "dtrgserny";
    TrimNoSpace(c);
  }

  /** A category already written exactly is its own normal form. */
  lemma NormalizeExact(c: string, cats: seq<string>)
    requires c in cats && Trim(c) == c
    ensures Normalize(c, cats) == c
  {
  }

  /**
   * With the form's lists, a normalised answer is always a category of the
   * list, and normalising it again changes nothing.
   */
  lemma NormalizeIdempotent(text: string, k: Kind)
    ensures Normalize(text, CategoriesFor(k)) in CategoriesFor(k)
    ensures Normalize(Normalize(text, CategoriesFor(k)), CategoriesFor(k)) == Normalize(text, CategoriesFor(k))
  {
    var cats := CategoriesFor(k);
    CategoryLists(k);
    var r := Normalize(text, cats);
    CategoriesUntrimmed(k, r);
    NormalizeExact(r, cats);
  }

  /** Which request the suggestion sends: the system instruction lists the current categories. */
  datatype SuggestRequest = SuggestRequest(systemPrompt: string, userQuery: string)

  function SystemPrompt(cats: seq<string>): string {
    "You are a transaction categorization bot. Your only job is to return a single category from this list: ["
      + Join(cats, ", ") + "]. Do not add any other text, just the single best category name."
  }

  /** The request for the form's description and type. */
  function RequestFor(f: Form): SuggestRequest {
    SuggestRequest(SystemPrompt(CategoriesFor(f.kind)), "Description: \"" + f.description + "\"")
  }

  datatype Suggested = Suggested(form: Form, request: Option<SuggestRequest>, outcome: Option<Outcome>)

  /**
   * What the answer does to the form: only a successful reply with a
   * non-empty text changes it, and then only its category, to that text
   * normalised against the current type's list.
   */
  function ApplySuggestion(f: Form, last: Reply): (r: Form)
    ensures r.(category := f.category) == f
    ensures IsOk(last) && last.body.Text? && last.body.text != [] ==>
              r.category == Normalize(last.body.text, CategoriesFor(f.kind))
    ensures !(IsOk(last) && last.body.Text? && last.body.text != []) ==> r == f
  {
    if IsOk(last) && last.body.Text? && last.body.text != [] then
      f.(category := Normalize(last.body.text, CategoriesFor(f.kind)))
    else f
  }

  /**
   * `handleSuggestCategory`: nothing happens for a blank description or a
   * missing API key. Otherwise the request, whose instruction lists the
   * current type's categories, goes through the retry loop and its last
   * reply is applied to the form.
   */
  function Suggest(f: Form, apiKey: string, server: nat -> Reply): (r: Suggested)
    ensures r.request.None? <==> Trim(f.description) == [] || apiKey == []
    ensures r.request.None? ==> r.outcome.None? && r.form == f
    ensures r.request.Some? ==>
              && r.request.value == RequestFor(f)
              && r.outcome == Some(Run(server))
              && r.form == ApplySuggestion(f, Run(server).last)
  {
    if Trim(f.description) == [] || apiKey == [] then Suggested(f, None, None)
    else
      var o := Run(server);
      Suggested(ApplySuggestion(f, o.last),
                Some(RequestFor(f)),
                Some(o))
  }

  /** A description that is empty or only white space asks for nothing and changes nothing. */
  lemma BlankNoSuggestion(f: Form, apiKey: string, server: nat -> Reply)
    requires IsBlank(f.description)
    ensures Suggest(f, apiKey, server).request.None? && Suggest(f, apiKey, server).form == f
  {
  }

  /** Applying an answer keeps a valid category valid, and changes nothing but the category. */
  lemma ApplySuggestionValid(f: Form, last: Reply)
    requires ValidCategory(f)
    ensures ValidCategory(ApplySuggestion(f, last))
  {
    if IsOk(last) && last.body.Text? && last.body.text != [] {
      NormalizeIdempotent(last.body.text, f.kind);
    }
  }

  /** A suggestion keeps the category one the list offers. */
  lemma SuggestValid(f: Form, apiKey: string, server: nat -> Reply)
    requires ValidCategory(f)
    ensures ValidCategory(Suggest(f, apiKey, server).form)
  {
    if Trim(f.description) != [] && apiKey != [] {
      ApplySuggestionValid(f, Run(server).last);
    }
  }

  // ---------------------------------------------------------------------------
  // CSV export
  // ---------------------------------------------------------------------------

  /** The description column: note, else description, else `'N/A'`, with every comma made a semicolon. */
  function CsvDescription(t: Txn): (r: string)
    ensures ',' !in r
    ensures var text := OrDefault(t.note, OrDefault(t.description, "N/A"));
            |r| == |text| && forall i :: 0 <= i < |text| ==> r[i] == if text[i] == ',' then ';' else text[i]
  {
    var r := ReplaceAll(OrDefault(t.note, OrDefault(t.description, "N/A")), ',', ';');
    assert forall i :: 0 <= i < |r| ==> r[i] != ',';
    r
  }

  /** The five fields of a transaction's CSV line. */
  function CsvFields(t: Txn, showDate: Date -> string, show: int -> string): (r: seq<string>)
    ensures |r| == 5 && r[1] == CsvDescription(t)
  {
    [showDate(t.date), CsvDescription(t), OrDefault(t.category, "N/A"), KindName(t.kind), show(t.amount.GetOr(0))]
  }

  /** One line of the CSV export, newline included. */
  function CsvRow(t: Txn, showDate: Date -> string, show: int -> string): string {
    Join(CsvFields(t, showDate, show), ",") + "\n"
  }

  /**
   * Reading a line back: when the date, category, type and amount texts
   * hold no comma, splitting the line at commas gives the five fields,
   * the description among them unchanged apart from its commas.
   */
  lemma CsvRowReadBack(t: Txn, showDate: Date -> string, show: int -> string)
    requires ',' !in showDate(t.date) && ',' !in OrDefault(t.category, "N/A")
    requires ',' !in KindName(t.kind) && ',' !in show(t.amount.GetOr(0))
    ensures var row := CsvRow(t, showDate, show);
            row[|row| - 1] == '\n' && Split(row[..|row| - 1], ',') == CsvFields(t, showDate, show)
  {
    var fields := CsvFields(t, showDate, show);
    var row := CsvRow(t, showDate, show);
    assert row[..|row| - 1] == Join(fields, [',']);
    SplitJoin(fields, ',');
  }
}
