/**
 * The maintenance-record dialog (`MaintenanceRecordForm`): a set of text inputs, four
 * switches that show or hide the optional groups, a prefill step run whenever the dialog
 * opens, a validation that reports the first failing check, and a submit that builds the
 * payload handed to the page's `onSave`. The component's state hooks are the fields of
 * `Form`; `onSave` is modelled by the call `HandleSubmit` returns.
 */
module RecordForm {
  import opened Wrappers
  import opened Text
  import opened Dates
  import opened Forms

  /**
   * `MaintenanceRecord` as the frontend receives it. `cost` is the text `toString` gives
   * for the stored number; a missing or null optional field is `None`.
   */
  datatype RecordView = RecordView(
    id: int,
    assetId: int,
    serviceType: string,
    serviceDate: string,
    description: Option<string>,
    cost: Option<string>,
    performedBy: Option<string>,
    nextDate: Option<string>,
    nextNotes: Option<string>)

  /** The four switches of the "Optional Fields" row. */
  datatype Group = DescriptionGroup | CostGroup | PerformedByGroup | NextGroup

  /** A snapshot of the dialog's state hooks, `formError` aside. */
  datatype FormFields = FormFields(
    serviceType: string,
    serviceDate: string,
    description: string,
    cost: string,
    performedBy: string,
    nextDate: string,
    nextNotes: string,
    showDescription: bool,
    showCost: bool,
    showPerformedBy: bool,
    showNext: bool)

  /**
   * The payload `handleSubmit` builds; `None` is a key left `undefined`, which JSON drops.
   * `cost` is the text that `parseFloat` would turn into the number sent.
   */
  datatype Payload = Payload(
    serviceType: string,
    serviceDate: string,
    description: Option<string>,
    cost: Option<string>,
    performedBy: Option<string>,
    nextDate: Field<string>,
    nextNotes: Option<string>)

  /** `onSave(createPayload)` with the `asset_id` added, or `onSave(updatePayload, record.id)`. */
  datatype SaveCall = SaveNew(payload: Payload, assetId: int) | SaveExisting(payload: Payload, recordId: int)

  const ServiceTypeRequired := "Service type is required."
  const ServiceDateRequired := "Service date is required."
  const ServiceDateFormat := "Service date must be in YYYY-MM-DD format."
  const CostNotNumber := "Cost must be a valid number."
  const NextDateFormat := "Next maintenance date must be in YYYY-MM-DD format."
  const NextDateEarlier := "Next maintenance date cannot be earlier than the service date."

  // ---------------------------------------------------------------- prefill and switches

  /** Every field empty and every switch off: the initial state and the reset on opening. */
  function Cleared(): FormFields {
    FormFields("", "", "", "", "", "", "", false, false, false, false)
  }

  /**
   * The fields copied from a record when the dialog opens in edit mode: a text group is shown
   * when its value is a non-empty string, the cost when it is present at all (so 0 shows),
   * the next-maintenance group when its date or its notes is a non-empty string.
   */
  function Prefilled(r: RecordView): FormFields {
    FormFields(
      r.serviceType, r.serviceDate,
      OrEmpty(r.description), OrEmpty(r.cost), OrEmpty(r.performedBy),
      OrEmpty(r.nextDate), OrEmpty(r.nextNotes),
      Truthy(r.description), r.cost.Some?, Truthy(r.performedBy),
      Truthy(r.nextDate) || Truthy(r.nextNotes))
  }

  /** What the opening effect sets: the record's values in edit mode with a record, else a reset. */
  function Opened(mode: Mode, record: Option<RecordView>): FormFields {
    if mode == EditMode && record.Some? then Prefilled(record.value) else Cleared()
  }

  /** A switch's `onChange`: the flag follows the switch, and switching off empties the group. */
  function Switched(f: FormFields, g: Group, on: bool): FormFields {
    match g
    case DescriptionGroup => f.(showDescription := on, description := if on then f.description else "")
    case CostGroup => f.(showCost := on, cost := if on then f.cost else "")
    case PerformedByGroup => f.(showPerformedBy := on, performedBy := if on then f.performedBy else "")
    case NextGroup =>
      f.(showNext := on, nextDate := if on then f.nextDate else "", nextNotes := if on then f.nextNotes else "")
  }

  /** Every hidden group holds empty text: the inputs of a hidden group are not rendered. */
  predicate Tidy(f: FormFields) {
    && (!f.showDescription ==> f.description == "")
    && (!f.showCost ==> f.cost == "")
    && (!f.showPerformedBy ==> f.performedBy == "")
    && (!f.showNext ==> f.nextDate == "" && f.nextNotes == "")
  }

  /** Opening the dialog leaves it tidy, whatever the record holds. */
  lemma OpenedIsTidy(mode: Mode, record: Option<RecordView>)
    ensures Tidy(Opened(mode, record))
  {
  }

  /** Flipping a switch keeps the dialog tidy, and switching a group off drops it from the payload. */
  lemma SwitchKeepsTidy(f: FormFields, g: Group, on: bool)
    requires Tidy(f)
    ensures Tidy(Switched(f, g, on))
    ensures !on ==> match g
      case DescriptionGroup => PayloadOf(Switched(f, g, on)) == PayloadOf(f).(description := None)
      case CostGroup => PayloadOf(Switched(f, g, on)) == PayloadOf(f).(cost := None)
      case PerformedByGroup => PayloadOf(Switched(f, g, on)) == PayloadOf(f).(performedBy := None)
      case NextGroup => PayloadOf(Switched(f, g, on)) == PayloadOf(f).(nextDate := Null, nextNotes := None)
  {
  }

  /** Prefill shows exactly the groups the record holds a non-empty value for, and the cost when it has one. */
  lemma PrefillShows(r: RecordView)
    requires Clean(r.description) && Clean(r.performedBy) && Clean(r.nextDate) && Clean(r.nextNotes)
    ensures var f := Prefilled(r);
      && (f.showDescription <==> r.description.Some?)
      && (f.showCost <==> r.cost.Some?)
      && (f.showPerformedBy <==> r.performedBy.Some?)
      && (f.showNext <==> r.nextDate.Some? || r.nextNotes.Some?)
  {
  }

  /**
   * Submitting the prefilled dialog unchanged sends the record's own values back when they are
   * already trimmed and non-blank: a missing next date goes out as `null`, the other missing
   * fields are left out.
   */
  lemma PrefillThenSubmit(r: RecordView)
    requires Clean(r.description) && Clean(r.performedBy) && Clean(r.nextDate) && Clean(r.nextNotes)
    requires r.cost.Some? ==> !IsBlank(r.cost.value)
    ensures PayloadOf(Prefilled(r)) ==
      Payload(Trim(r.serviceType), r.serviceDate, r.description, r.cost, r.performedBy,
        if r.nextDate.Some? then Given(r.nextDate.value) else Null, r.nextNotes)
  {
    var f := Prefilled(r);
    EmptyIsBlank();
    CleanSurvives(r.description);
    CleanSurvives(r.performedBy);
    assert Kept(f.showNext, f.nextNotes) == r.nextNotes by {
      if r.nextNotes.None? {
        assert f.nextNotes == "";
      } else {
        assert f.showNext && f.nextNotes == r.nextNotes.value;
      }
    }
    var next: Field<string> := if f.showNext && !IsBlank(f.nextDate) then Given(Trim(f.nextDate)) else Null;
    assert next == if r.nextDate.Some? then Given(r.nextDate.value) else Null by {
      if r.nextDate.None? {
        assert f.nextDate == "";
      }
    }
  }

  // ---------------------------------------------------------------- validation

  /** `nDate < sDate` on two `new Date(..)` values: false as soon as either date is invalid. */
  predicate EarlierDate(next: string, service: string) {
    match (ParseIsoDate(next), ParseIsoDate(service))
    case (Some(n), Some(s)) => Before(n, s)
    case _ => false
  }

  /** The checks of `validateForm`, in the order it runs them. */
  function Checks(f: FormFields): seq<Check> {
    [ Check(IsBlank(f.serviceType), ServiceTypeRequired),
      Check(f.serviceDate == "", ServiceDateRequired),
      Check(f.serviceDate != "" && !MatchesDatePattern(f.serviceDate), ServiceDateFormat),
      Check(f.showCost && !IsBlank(f.cost) && ParseFloatIsNaN(f.cost), CostNotNumber),
      Check(f.showNext && !IsBlank(f.nextDate) && !MatchesDatePattern(f.nextDate), NextDateFormat),
      Check(f.showNext && f.serviceDate != "" && !IsBlank(f.nextDate) && EarlierDate(f.nextDate, f.serviceDate),
        NextDateEarlier) ]
  }

  /** What `validateForm` reports. */
  function FirstFailure(f: FormFields): Option<string> {
    FirstFailing(Checks(f))
  }

  /**
   * The checks taken together, independent of their order: a form passes exactly when the
   * service type is not blank, the service date has the YYYY-MM-DD shape and, for each shown
   * group that is not blank, the cost parses as a number and the next date has the same shape
   * and is not earlier than the service date.
   */
  lemma PassesIff(f: FormFields)
    ensures FirstFailure(f).None? <==>
      && !IsBlank(f.serviceType)
      && MatchesDatePattern(f.serviceDate)
      && (f.showCost && !IsBlank(f.cost) ==> !ParseFloatIsNaN(f.cost))
      && (f.showNext && !IsBlank(f.nextDate) ==>
            MatchesDatePattern(f.nextDate) && !EarlierDate(f.nextDate, f.serviceDate))
  {
    FirstFailureInOrder(f);
  }

  /** `validateForm` as the chain of tests it is: the first test that holds returns its message. */
  lemma FirstFailureInOrder(f: FormFields)
    ensures FirstFailure(f) ==
      if IsBlank(f.serviceType) then Some(ServiceTypeRequired)
      else if f.serviceDate == "" then Some(ServiceDateRequired)
      else if !MatchesDatePattern(f.serviceDate) then Some(ServiceDateFormat)
      else if f.showCost && !IsBlank(f.cost) && ParseFloatIsNaN(f.cost) then Some(CostNotNumber)
      else if f.showNext && !IsBlank(f.nextDate) && !MatchesDatePattern(f.nextDate) then Some(NextDateFormat)
      else if f.showNext && !IsBlank(f.nextDate) && EarlierDate(f.nextDate, f.serviceDate) then Some(NextDateEarlier)
      else None
  {
    var cs := Checks(f);
    FirstOfSix(cs[0], cs[1], cs[2], cs[3], cs[4], cs[5]);
  }

  /** A blank service type is what gets reported, whatever else is wrong with the form. */
  lemma BlankServiceTypeFirst(f: FormFields)
    requires IsBlank(f.serviceType)
    ensures FirstFailure(f) == Some(ServiceTypeRequired)
  {
    assert Checks(f)[0].fails;
  }

  /** While the next-maintenance group is hidden, its date cannot make the form fail. */
  lemma HiddenNextDateIgnored(f: FormFields, d: string)
    requires !f.showNext
    ensures FirstFailure(f.(nextDate := d)) == FirstFailure(f)
  {
    assert Checks(f.(nextDate := d)) == Checks(f);
  }

  /** No date is earlier than itself. */
  lemma NotEarlierThanItself(d: string)
    ensures !EarlierDate(d, d)
  {
    if ParseIsoDate(d).Some? {
      var x := ParseIsoDate(d).value;
      assert !Before(x, x);
    }
  }

  /** A well-formed next date equal to the service date passes: the order check is strict. */
  lemma EqualDatesPass(f: FormFields)
    requires f.showNext && f.nextDate == f.serviceDate && MatchesDatePattern(f.serviceDate)
    ensures FirstFailure(f) == FirstFailure(f.(showNext := false))
  {
    NotEarlierThanItself(f.serviceDate);
    assert Checks(f) == Checks(f.(showNext := false));
  }

  /** "2024-13-01" has the YYYY-MM-DD shape but no calendar date. */
  lemma ThirteenthMonth()
    ensures MatchesDatePattern("2024-13-01") && ParseIsoDate("2024-13-01").None?
  {
    var s := "2024-13-01";
    assert s[0..4] == "2024" && s[5..7] == "13" && s[8..10] == "01";
    assert DigitsAt(s, 0, 4) && DigitsAt(s, 5, 2) && DigitsAt(s, 8, 2);
    assert s[5..7] == "13";
    assert DigitsValue("13") == 13 by {
      assert "13"[..1] == "1";
    }
  }

  /**
   * The shape check does not check the calendar: with a thirteenth month the dialog passes,
   * and the date parser then finds no such date.
   */
  lemma ShapeIsNotCalendar(f: FormFields)
    requires !IsBlank(f.serviceType) && f.serviceDate == "2024-13-01" && !f.showCost && !f.showNext
    ensures FirstFailure(f).None? && ParseIsoDate(f.serviceDate).None?
  {
    ThirteenthMonth();
    PassesIff(f);
  }

  // ---------------------------------------------------------------- payload

  /** The payload `handleSubmit` builds from the dialog's fields. */
  function PayloadOf(f: FormFields): Payload {
    Payload(
      Trim(f.serviceType),
      f.serviceDate,
      Kept(f.showDescription, f.description),
      if f.showCost && !IsBlank(f.cost) then Some(f.cost) else None,
      Kept(f.showPerformedBy, f.performedBy),
      if f.showNext && !IsBlank(f.nextDate) then Given(Trim(f.nextDate)) else Null,
      Kept(f.showNext, f.nextNotes))
  }

  /**
   * The payload rules: the service type is trimmed and the service date is sent as entered;
   * an optional text is sent trimmed and non-blank, or left out when its switch is off or it is
   * blank; the next date is never left out, it is `null` in those cases.
   */
  lemma PayloadRules(f: FormFields)
    ensures var p := PayloadOf(f);
      && p.serviceType == Trim(f.serviceType) && p.serviceDate == f.serviceDate
      && (p.description.None? <==> !f.showDescription || IsBlank(f.description))
      && (p.performedBy.None? <==> !f.showPerformedBy || IsBlank(f.performedBy))
      && (p.nextNotes.None? <==> !f.showNext || IsBlank(f.nextNotes))
      && (p.cost.None? <==> !f.showCost || IsBlank(f.cost))
      && !p.nextDate.Absent?
      && (p.nextDate.Null? <==> !f.showNext || IsBlank(f.nextDate))
    ensures var p := PayloadOf(f);
      Clean(p.description) && Clean(p.performedBy) && Clean(p.nextNotes)
    ensures var p := PayloadOf(f);
      p.nextDate.Given? ==> Clean(Some(p.nextDate.value))
  {
    KeptIsTrimmed(f.showDescription, f.description);
    KeptIsTrimmed(f.showPerformedBy, f.performedBy);
    KeptIsTrimmed(f.showNext, f.nextNotes);
    KeptIsTrimmed(f.showNext, f.nextDate);
  }

  // ---------------------------------------------------------------- the dialog

  class Form {
    var serviceType: string
    var serviceDate: string
    var description: string
    var cost: string
    var performedBy: string
    var nextDate: string
    var nextNotes: string
    var showDescription: bool
    var showCost: bool
    var showPerformedBy: bool
    var showNext: bool
    var formError: Option<string>

    function Snapshot(): FormFields
      reads this
    {
      FormFields(serviceType, serviceDate, description, cost, performedBy, nextDate, nextNotes,
        showDescription, showCost, showPerformedBy, showNext)
    }

    /** The `useState` initial values. */
    constructor ()
      ensures Snapshot() == Cleared() && formError == None
    {
      serviceType, serviceDate, description, cost, performedBy, nextDate, nextNotes := "", "", "", "", "", "", "";
      showDescription, showCost, showPerformedBy, showNext := false, false, false, false;
      formError := None;
    }

    /** Every input's state hook set at once. */
    method SetFields(f: FormFields)
      modifies this
      ensures Snapshot() == f && formError == old(formError)
    {
      serviceType := f.serviceType;
      serviceDate := f.serviceDate;
      description := f.description;
      cost := f.cost;
      performedBy := f.performedBy;
      nextDate := f.nextDate;
      nextNotes := f.nextNotes;
      showDescription := f.showDescription;
      showCost := f.showCost;
      showPerformedBy := f.showPerformedBy;
      showNext := f.showNext;
    }

    /** The effect run when `open`, `mode` or `record` change: it acts only while the dialog is open. */
    method OnOpen(open: bool, mode: Mode, record: Option<RecordView>)
      modifies this
      ensures open ==> Snapshot() == Opened(mode, record) && formError == None
      ensures !open ==> Snapshot() == old(Snapshot()) && formError == old(formError)
    {
      if open {
        if mode == EditMode && record.Some? {
          SetFields(Prefilled(record.value));
        } else {
          SetFields(Cleared());
        }
        formError := None;
      }
    }

    /** The `onChange` of one of the four switches. */
    method Switch(g: Group, on: bool)
      modifies this
      ensures Snapshot() == Switched(old(Snapshot()), g, on) && formError == old(formError)
    {
      match g {
        case DescriptionGroup =>
          showDescription := on;
          if !on { description := ""; }
        case CostGroup =>
          showCost := on;
          if !on { cost := ""; }
        case PerformedByGroup =>
          showPerformedBy := on;
          if !on { performedBy := ""; }
        case NextGroup =>
          showNext := on;
          if !on {
            nextDate := "";
            nextNotes := "";
          }
      }
    }

    /** `validateForm`: sets `formError` to the first failing check's message, or clears it. */
    method ValidateForm() returns (ok: bool)
      modifies this
      ensures Snapshot() == old(Snapshot())
      ensures formError == FirstFailure(Snapshot())
      ensures ok <==> formError.None?
    {
      FirstFailureInOrder(Snapshot());
      if IsBlank(serviceType) {
        formError := Some(ServiceTypeRequired);
        return false;
      }
      if serviceDate == "" {
        formError := Some(ServiceDateRequired);
        return false;
      }
      if serviceDate != "" && !MatchesDatePattern(serviceDate) {
        formError := Some(ServiceDateFormat);
        return false;
      }
      if showCost && !IsBlank(cost) && ParseFloatIsNaN(cost) {
        formError := Some(CostNotNumber);
        return false;
      }
      if showNext && !IsBlank(nextDate) && !MatchesDatePattern(nextDate) {
        formError := Some(NextDateFormat);
        return false;
      }
      if showNext && serviceDate != "" && !IsBlank(nextDate) {
        if EarlierDate(nextDate, serviceDate) {
          formError := Some(NextDateEarlier);
          return false;
        }
      }
      formError := None;
      return true;
    }

    /**
     * `handleSubmit`: validates, and only on success builds the payload and calls `onSave`,
     * with the asset id in create mode and with the record's id in edit mode; edit mode with
     * no record calls nothing.
     */
    method HandleSubmit(mode: Mode, record: Option<RecordView>, assetId: int) returns (call: Option<SaveCall>)
      modifies this
      ensures Snapshot() == old(Snapshot())
      ensures formError == FirstFailure(Snapshot())
      ensures call.Some? <==> FirstFailure(Snapshot()).None? && (mode == CreateMode || record.Some?)
      ensures call.Some? && mode == CreateMode ==> call.value == SaveNew(PayloadOf(Snapshot()), assetId)
      ensures call.Some? && mode == EditMode ==> call.value == SaveExisting(PayloadOf(Snapshot()), record.value.id)
    {
      var ok := ValidateForm();
      if !ok {
        return None;
      }
      var payload := Payload(
        Trim(serviceType),
        serviceDate,
        Kept(showDescription, description),
        if showCost && !IsBlank(cost) then Some(cost) else None,
        Kept(showPerformedBy, performedBy),
        if showNext && !IsBlank(nextDate) then Given(Trim(nextDate)) else Null,
        Kept(showNext, nextNotes));
      if mode == CreateMode {
        call := Some(SaveNew(payload, assetId));
      } else if record.Some? {
        call := Some(SaveExisting(payload, record.value.id));
      } else {
        call := None;
      }
    }
  }
}
