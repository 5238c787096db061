/**
 * The kiosk "Period Attendance" form: the date, level and section fields, ten
 * period rows of faculty, time-in and time-out, and the required-field check
 * on submission.
 */
module Attendance {

  /** One period row. */
  datatype Period = Period(faculty: string, timeIn: string, timeOut: string)

  /** The fields of a period row that the inputs edit. */
  datatype PeriodField = Faculty | TimeIn | TimeOut

  /** The form fields, named as the inputs' `name` attributes. */
  datatype FormField = Date | Level | Section

  const PeriodCount: nat := 10

  const EmptyPeriod: Period := Period("", "", "")

  /** Reads one field of a period row. */
  function FieldOf(p: Period, field: PeriodField): string {
    match field
    case Faculty => p.faculty
    case TimeIn => p.timeIn
    case TimeOut => p.timeOut
  }

  /** `period[field] = value`: the named field takes the value and the other two keep theirs. */
  function WithField(p: Period, field: PeriodField, value: string): (r: Period)
    ensures FieldOf(r, field) == value
    ensures forall other :: other != field ==> FieldOf(r, other) == FieldOf(p, other)
  {
    match field
    case Faculty => p.(faculty := value)
    case TimeIn => p.(timeIn := value)
    case TimeOut => p.(timeOut := value)
  }

  /** A row is determined by its three fields. */
  lemma PeriodByFields(p: Period, q: Period)
    requires forall field :: FieldOf(p, field) == FieldOf(q, field)
    ensures p == q
  {
    assert FieldOf(p, Faculty) == FieldOf(q, Faculty);
    assert FieldOf(p, TimeIn) == FieldOf(q, TimeIn);
    assert FieldOf(p, TimeOut) == FieldOf(q, TimeOut);
  }

  /** Writing a field back with the value it already has leaves the row as it was. */
  lemma WithSameValueIsIdentity(p: Period, field: PeriodField)
    ensures WithField(p, field, FieldOf(p, field)) == p
  {
    PeriodByFields(WithField(p, field, FieldOf(p, field)), p);
  }

  /** Of two writes to the same field, the later one wins. */
  lemma LaterWriteWins(p: Period, field: PeriodField, v1: string, v2: string)
    ensures WithField(WithField(p, field, v1), field, v2) == WithField(p, field, v2)
  {
    PeriodByFields(WithField(WithField(p, field, v1), field, v2), WithField(p, field, v2));
  }

  /** The submission check: date, level and section must all be non-empty; the periods are not checked. */
  predicate RequiredFieldsPresent(date: string, level: string, section: string) {
    date != "" && level != "" && section != ""
  }

  /** The state of the form. */
  class PeriodAttendance {
    var date: string
    var level: string
    var section: string
    var periods: array<Period>

    /** Ten period rows. */
    predicate Valid()
      reads this
    {
      periods.Length == PeriodCount
    }

    /** The initial state: empty fields and ten empty period rows. */
    constructor ()
      ensures Valid() && fresh(periods)
      ensures date == "" && level == "" && section == ""
      ensures forall i :: 0 <= i < periods.Length ==> periods[i] == EmptyPeriod
    {
      date, level, section := "", "", "";
      periods := new Period[PeriodCount](_ => EmptyPeriod);
    }

    /** `handleChange`: the named form field takes the value; the other two and the periods keep theirs. */
    method HandleChange(name: FormField, value: string)
      modifies this`date, this`level, this`section
      ensures date == (if name == Date then value else old(date))
      ensures level == (if name == Level then value else old(level))
      ensures section == (if name == Section then value else old(section))
    {
      match name
      case Date => date := value;
      case Level => level := value;
      case Section => section := value;
    }

    /**
     * `handlePeriodChange`: the named field of row `index` takes the value;
     * the number of rows, the other rows and the row's other fields keep theirs.
     */
    method HandlePeriodChange(index: int, field: PeriodField, value: string)
      requires Valid() && 0 <= index < PeriodCount
      modifies periods
      ensures Valid()
      ensures periods[..] == old(periods[..])[index := WithField(old(periods[index]), field, value)]
      ensures FieldOf(periods[index], field) == value
      ensures forall other :: other != field ==> FieldOf(periods[index], other) == FieldOf(old(periods[index]), other)
    {
      periods[index] := WithField(periods[index], field, value);
    }

    /** `handleSubmit`: accepted iff date, level and section are all filled in, whatever the periods hold. */
    method HandleSubmit() returns (accepted: bool)
      ensures accepted <==> date != "" && level != "" && section != ""
    {
      accepted := RequiredFieldsPresent(date, level, section);
    }
  }
}
