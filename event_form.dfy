/**
 * The event form's schema: length bounds on the text fields, anchored digit
 * patterns for the date and the two times (with no range check), an
 * optional image, and the rule that the start time comes before the end
 * time, compared as strings and reported on the end time.
 */
module EventForm {
  import opened Wrappers
  import opened Text
  import opened JsNumbers
  import opened Validation

  datatype EventInput = EventInput(
    title: string,
    description: string,
    date: string,
    startTime: string,
    endTime: string,
    kind: string,
    location: string,
    imageUrl: Option<string>)

  const ORDER_MESSAGE: string := "L'heure de fin doit être après l'heure de début"
  const TIME_MESSAGE: string := "Format d'heure invalide"

  predicate DigitsAt(s: string, from: nat, to: nat)
    requires from <= to <= |s|
  {
    forall i :: from <= i < to ==> IsDigit(s[i])
  }

  /** `/^\d{4}-\d{2}-\d{2}$/`. */
  predicate DatePattern(s: string) {
    |s| == 10 && DigitsAt(s, 0, 4) && s[4] == '-' && DigitsAt(s, 5, 7) && s[7] == '-' && DigitsAt(s, 8, 10)
  }

  /** `/^\d{2}:\d{2}$/`. */
  predicate TimePattern(s: string) {
    |s| == 5 && DigitsAt(s, 0, 2) && s[2] == ':' && DigitsAt(s, 3, 5)
  }

  /** The issues of `eventSchema`: the fields in declaration order, then the ordering rule. */
  function EventIssues(e: EventInput): (issues: seq<Issue>)
    ensures |issues| <= 8
    ensures forall x :: x in issues ==>
      x.path in {"title", "description", "date", "start_time", "end_time", "type", "location"}
  {
    MinLength("title", e.title, 3, "Le titre est obligatoire") +
    MinLength("description", e.description, 10, "La description doit être plus détaillée") +
    Check("date", DatePattern(e.date), "Format de date invalide") +
    Check("start_time", TimePattern(e.startTime), TIME_MESSAGE) +
    Check("end_time", TimePattern(e.endTime), TIME_MESSAGE) +
    MinLength("type", e.kind, 2, "Le type est obligatoire") +
    MinLength("location", e.location, 2, "Le lieu est obligatoire") +
    Check("end_time", LexLess(e.startTime, e.endTime), ORDER_MESSAGE)
  }

  predicate FieldsValid(e: EventInput) {
    |e.title| >= 3 && |e.description| >= 10 && DatePattern(e.date) &&
    TimePattern(e.startTime) && TimePattern(e.endTime) && |e.kind| >= 2 && |e.location| >= 2
  }

  /** The form is accepted exactly when every field bound holds and the start time sorts before the end time. */
  lemma EventAcceptedIff(e: EventInput)
    ensures EventIssues(e) == [] <==> FieldsValid(e) && LexLess(e.startTime, e.endTime)
    ensures forall im :: EventIssues(e.(imageUrl := im)) == EventIssues(e)
  {
  }

  /** With every field well formed, a start not before the end yields exactly one issue, on `end_time`. */
  lemma OrderIssueOnEndTime(e: EventInput)
    requires FieldsValid(e) && !LexLess(e.startTime, e.endTime)
    ensures EventIssues(e) == [Issue("end_time", ORDER_MESSAGE)]
  {
  }

  lemma {:induction false} LexLessIrreflexive(s: string)
    ensures !LexLess(s, s)
    decreases |s|
  {
    if s != [] {
      LexLessIrreflexive(s[1..]);
    }
  }

  /** Equal start and end times are refused. */
  lemma EqualTimesRejected(e: EventInput)
    requires e.startTime == e.endTime
    ensures EventIssues(e) != []
  {
    LexLessIrreflexive(e.startTime);
  }

  /** The date pattern checks no range: month 13 and day 45 pass. */
  lemma DateRangeUnchecked()
    ensures DatePattern("2024-13-45")
  {
  }

  function Hours(t: string): nat
    requires TimePattern(t)
  {
    10 * DigitValue(t[0]) + DigitValue(t[1])
  }

  function Minutes(t: string): nat
    requires TimePattern(t)
  {
    10 * DigitValue(t[3]) + DigitValue(t[4])
  }

  /** Comparing two equal-length strings, a differing first character decides and an equal one passes on. */
  lemma LexLessStep(a: string, b: string)
    requires a != [] && b != []
    ensures LexLess(a, b) == if a[0] != b[0] then a[0] < b[0] else LexLess(a[1..], b[1..])
  {
  }

  /** Two digits compare as their values. */
  lemma DigitOrder(c: char, d: char)
    requires IsDigit(c) && IsDigit(d)
    ensures c < d <==> DigitValue(c) < DigitValue(d)
    ensures c == d <==> DigitValue(c) == DigitValue(d)
  {
  }

  /** On `HH:MM` strings, the string order is the order of the hours, then of the minutes, as numbers. */
  lemma TimeOrderIsNumeric(a: string, b: string)
    requires TimePattern(a) && TimePattern(b)
    ensures LexLess(a, b) <==> Hours(a) < Hours(b) || (Hours(a) == Hours(b) && Minutes(a) < Minutes(b))
  {
    assert a[1..][1..][1..][1..][1..] == [] && b[1..][1..][1..][1..][1..] == [];
    LexLessStep(a, b);
    LexLessStep(a[1..], b[1..]);
    LexLessStep(a[1..][1..], b[1..][1..]);
    LexLessStep(a[1..][1..][1..], b[1..][1..][1..]);
    LexLessStep(a[1..][1..][1..][1..], b[1..][1..][1..][1..]);
    DigitOrder(a[0], b[0]);
    DigitOrder(a[1], b[1]);
    DigitOrder(a[3], b[3]);
    DigitOrder(a[4], b[4]);
  }

  /** For clock times (minutes below 60) the string order is the order of the minutes since midnight. */
  lemma ClockOrder(a: string, b: string)
    requires TimePattern(a) && TimePattern(b) && Minutes(a) < 60 && Minutes(b) < 60
    ensures LexLess(a, b) <==> Hours(a) * 60 + Minutes(a) < Hours(b) * 60 + Minutes(b)
  {
    TimeOrderIsNumeric(a, b);
  }
}
