/** The add-expense server action: validate the submitted form, resolve the
    owner, and write one record. */
module AddExpense {
  import opened Results
  import opened JsText
  import opened JsNumber
  import opened Categories
  import opened Dates
  import opened Store

  /** The four form entries; None is an entry the form did not carry. */
  datatype FormData = FormData(text: Option<string>, amount: Option<string>, category: Option<string>, date: Option<string>)

  /** A form that passed every check, in the shape the record is written in. */
  datatype Checked = Checked(text: string, amount: real, category: string, date: CivilDate)

  /** What the action echoes back: the stored fields, the date as an ISO string. */
  datatype RecordData = RecordData(text: string, amount: real, category: string, date: string)

  datatype AddResult = Added(data: RecordData) | Failed(error: string)

  /** The check that refused a form, in the order the checks run. */
  datatype Rejection = MissingField | AmountOutOfRange | DescriptionTooLong | InvalidCategory | InvalidDate

  datatype Validated = Accepted(checked: Checked) | Rejected(reason: Rejection)

  const UnexpectedError := "An unexpected error occurred while "
    + "adding the expense record."

  /** The message the action returns for each refusal. */
  function Message(reason: Rejection): string {
    match reason
    case MissingField => "Text, amount, category, or date is " + "missing"
    case AmountOutOfRange => "Amount must be a positive number less " + "than 1,000,000"
    case DescriptionTooLong => "Description must be less than 500 " + "characters"
    case InvalidCategory => "Invalid category selected"
    case InvalidDate => InvalidDateFormat
  }

  /** Different refusals return different messages, so the caller can tell
      which check failed from the error text alone. */
  lemma MessagesDistinct(a: Rejection, b: Rejection)
    requires a != b
    ensures Message(a) != Message(b)
  {
    assert Message(MissingField)[0] == 'T' && Message(AmountOutOfRange)[0] == 'A';
    assert Message(DescriptionTooLong)[0] == 'D' && Message(InvalidCategory)[0] == 'I';
    assert Message(InvalidDate)[0] == 'I' && Message(InvalidCategory)[8] == 'c';
    assert Message(InvalidDate)[8] == 'd';
  }

  /** An entry that is falsy: absent or the empty string. */
  predicate Blank(v: Option<string>) {
    v.None? || v.value == ""
  }

  predicate AnyMissing(form: FormData) {
    Blank(form.text) || Blank(form.amount) || Blank(form.category) || Blank(form.date)
  }

  /** The amount check: NaN, zero, negatives and anything above one million
      (the infinities included) are refused. */
  predicate AmountAccepted(n: JsNum) {
    n.Finite? && 0.0 < n.value <= 1000000.0
  }

  /** The validation chain, in the order the action runs it. `parsedAmount`
      is what JavaScript's `parseFloat` makes of the amount entry; it is only
      consulted once every entry is present. */
  function ValidateExpense(form: FormData, parsedAmount: JsNum): (r: Validated)
    ensures r.Accepted? ==>
      && !AnyMissing(form)
      && r.checked.text == Trim(form.text.value)
      && r.checked.category == Trim(form.category.value)
      && parsedAmount == Finite(r.checked.amount)
      && NormaliseDate(form.date.value) == Ok(r.checked.date)
    ensures r.Accepted? ==>
      && 0.0 < r.checked.amount <= 1000000.0
      && Utf16Length(r.checked.text) <= 500
      && IsCategory(r.checked.category)
      && IsCalendarDate(r.checked.date) && InTimeRange(r.checked.date)
    ensures r == Rejected(MissingField) <==> AnyMissing(form)
  {
    if AnyMissing(form) then Rejected(MissingField)
    else
      var text := Trim(form.text.value);
      var amount := parsedAmount;
      var category := Trim(form.category.value);
      if !AmountAccepted(amount) then Rejected(AmountOutOfRange)
      else if Utf16Length(text) > 500 then Rejected(DescriptionTooLong)
      else if !IsCategory(category) then Rejected(InvalidCategory)
      else match NormaliseDate(form.date.value)
        case Err(_) => Rejected(InvalidDate)
        case Ok(d) => Accepted(Checked(text, amount.value, category, d))
  }

  /** The record a validated form becomes, for the given owner and id. */
  function ToRecord(c: Checked, id: nat, owner: User): Record {
    Record(id, c.text, c.amount, c.category, c.date, owner.id)
  }

  /** Each check speaks only when every earlier one passed, and then it
      alone decides whether the action fails with its message. */
  lemma ValidationOrder(form: FormData, parsedAmount: JsNum)
    ensures AnyMissing(form) ==> ValidateExpense(form, parsedAmount) == Rejected(MissingField)
    ensures !AnyMissing(form) ==>
      (ValidateExpense(form, parsedAmount) == Rejected(AmountOutOfRange) <==> !AmountAccepted(parsedAmount))
    ensures !AnyMissing(form) && AmountAccepted(parsedAmount) ==>
      (ValidateExpense(form, parsedAmount) == Rejected(DescriptionTooLong) <==> Utf16Length(Trim(form.text.value)) > 500)
    ensures !AnyMissing(form) && AmountAccepted(parsedAmount) && Utf16Length(Trim(form.text.value)) <= 500 ==>
      (ValidateExpense(form, parsedAmount) == Rejected(InvalidCategory) <==> !IsCategory(Trim(form.category.value)))
    ensures !AnyMissing(form) && AmountAccepted(parsedAmount) && Utf16Length(Trim(form.text.value)) <= 500
            && IsCategory(Trim(form.category.value)) ==>
      (ValidateExpense(form, parsedAmount) == Rejected(InvalidDate) <==> NormaliseDate(form.date.value).Err?)
  {
    var r := ValidateExpense(form, parsedAmount);
    if !AnyMissing(form) {
      var text, category := Trim(form.text.value), Trim(form.category.value);
      if AmountAccepted(parsedAmount) && Utf16Length(text) <= 500 && IsCategory(category) {
        match NormaliseDate(form.date.value)
        case Err(_) => assert r == Rejected(InvalidDate);
        case Ok(d) => assert r == Accepted(Checked(text, parsedAmount.value, category, d));
      }
    }
  }

  /** A form that passes every check is accepted, with the trimmed text and
      category, the parsed amount and the normalised date. */
  lemma AllChecksPassAccepted(form: FormData, parsedAmount: JsNum)
    requires !AnyMissing(form) && AmountAccepted(parsedAmount)
    requires Utf16Length(Trim(form.text.value)) <= 500 && IsCategory(Trim(form.category.value))
    requires NormaliseDate(form.date.value).Ok?
    ensures ValidateExpense(form, parsedAmount) ==
      Accepted(Checked(Trim(form.text.value), parsedAmount.value, Trim(form.category.value),
                       NormaliseDate(form.date.value).value))
  {
    ValidationOrder(form, parsedAmount);
    var r := ValidateExpense(form, parsedAmount);
    assert r.Accepted?;
    var c := r.checked;
    assert c == Checked(c.text, c.amount, c.category, c.date);
  }

  /** The emptiness check runs before trimming, so a description made only
      of white space is accepted and stored as the empty string. */
  lemma BlankDescriptionAccepted(form: FormData, parsedAmount: JsNum)
    requires form.text.Some? && form.text.value != [] && AllSpace(form.text.value)
    requires !Blank(form.amount) && AmountAccepted(parsedAmount)
    requires !Blank(form.category) && IsCategory(Trim(form.category.value))
    requires !Blank(form.date) && NormaliseDate(form.date.value).Ok?
    ensures ValidateExpense(form, parsedAmount).Accepted?
    ensures ValidateExpense(form, parsedAmount).checked.text == ""
  {
    TrimEmptyIffAllSpace(form.text.value);
    AllChecksPassAccepted(form, parsedAmount);
  }

  /** A category with white space around it is accepted as the bare name. */
  lemma PaddedCategoryAccepted(form: FormData, parsedAmount: JsNum, lead: string, name: string, trail: string)
    requires form.category == Some(lead + name + trail)
    requires AllSpace(lead) && AllSpace(trail) && IsCategory(name)
    requires !Blank(form.text) && Utf16Length(Trim(form.text.value)) <= 500
    requires !Blank(form.amount) && AmountAccepted(parsedAmount)
    requires !Blank(form.date) && NormaliseDate(form.date.value).Ok?
    ensures ValidateExpense(form, parsedAmount).Accepted?
    ensures ValidateExpense(form, parsedAmount).checked.category == name
  {
    PaddedNameTrims(lead, name, trail);
    AllChecksPassAccepted(form, parsedAmount);
  }

  lemma PaddedNameTrims(lead: string, name: string, trail: string)
    requires AllSpace(lead) && AllSpace(trail) && IsCategory(name)
    ensures Trim(lead + name + trail) == name && lead + name + trail != []
  {
    CategoryIsTrimmed(name);
    TrimPadded(lead, name, trail);
  }

  /** `db.record.create`: appends the validated record for the owner under a
      fresh id and echoes its fields, the date as an ISO timestamp at noon UTC. */
  method InsertRecord(db: Database, c: Checked, owner: User) returns (data: RecordData)
    requires db.Valid() && owner in db.users
    requires AcceptableRecord(ToRecord(c, db.nextRecordId, owner))
    modifies db
    ensures db.Valid()
    ensures db.users == old(db.users) && db.nextUserId == old(db.nextUserId)
    ensures db.records == old(db.records) + [ToRecord(c, old(db.nextRecordId), owner)]
    ensures db.nextRecordId == old(db.nextRecordId) + 1
    ensures data == RecordData(c.text, c.amount, c.category, IsoNoon(c.date))
  {
    var created := ToRecord(c, db.nextRecordId, owner);
    AppendRecordKeepsConsistent(db.users, db.records, db.nextUserId, db.nextRecordId, created);
    db.records, db.nextRecordId := db.records + [created], db.nextRecordId + 1;
    data := RecordData(created.text, created.amount, created.category, IsoNoon(created.date));
  }

  /** Runs the action against the store. `authUserId` is what the session
      reports; `createFails` stands for the insert throwing. Validation
      happens before the session is consulted; on success exactly one record
      is appended and its fields are echoed with the date at noon UTC. */
  method AddExpenseRecord(db: Database, form: FormData, parsedAmount: JsNum,
                          authUserId: Option<string>, createFails: bool) returns (r: AddResult)
    requires db.Valid()
    modifies db
    ensures db.Valid()
    ensures db.users == old(db.users) && db.nextUserId == old(db.nextUserId)
    ensures ValidateExpense(form, parsedAmount).Rejected? ==>
      r == Failed(Message(ValidateExpense(form, parsedAmount).reason)) && unchanged(db)
    ensures ValidateExpense(form, parsedAmount).Accepted? && ResolveOwner(old(db.users), authUserId).Err? ==>
      r == Failed(ResolveOwner(old(db.users), authUserId).error) && unchanged(db)
    ensures ValidateExpense(form, parsedAmount).Accepted? && ResolveOwner(old(db.users), authUserId).Ok? && createFails ==>
      r == Failed(UnexpectedError) && unchanged(db)
    ensures ValidateExpense(form, parsedAmount).Accepted? && ResolveOwner(old(db.users), authUserId).Ok? && !createFails ==>
      var c := ValidateExpense(form, parsedAmount).checked;
      && db.records == old(db.records) + [ToRecord(c, old(db.nextRecordId), ResolveOwner(old(db.users), authUserId).value)]
      && db.nextRecordId == old(db.nextRecordId) + 1
      && r == Added(RecordData(c.text, c.amount, c.category, IsoNoon(c.date)))
  {
    var checked := ValidateExpense(form, parsedAmount);
    if checked.Rejected? {
      return Failed(Message(checked.reason));
    }
    var owner := ResolveOwner(db.users, authUserId);
    if owner.Err? {
      return Failed(owner.error);
    }
    if createFails {
      return Failed(UnexpectedError);
    }
    var data := InsertRecord(db, checked.checked, owner.value);
    r := Added(data);
  }
}
