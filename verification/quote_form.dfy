/** The product pages' quote form submit handler. Every field marked
    `required` is checked for a non-blank trimmed value and gets its `error`
    class set or cleared accordingly; then the first email input, when it
    exists and is not blank, is checked against the email pattern on its
    untrimmed value and marked on failure. A form that passed both shows the
    success message and is reset; otherwise the error message is shown and
    the values stay. Message texts and timers are abstracted to an outcome. */
module QuoteForm {
  import opened JsText
  import opened EmailPattern

  /** A form control: its current and default value, whether it carries the
      `required` attribute, whether it is an `input[type="email"]`, and
      whether it carries the `error` class. */
  datatype Field = Field(value: string, defaultValue: string, required: bool,
                         isEmail: bool, error: bool)

  /** Which message the handler shows. */
  datatype Outcome = ShowSuccess | ShowError

  /** The form after a submit and the message shown. */
  datatype Submission = Submission(fields: seq<Field>, outcome: Outcome)

  /** `!value.trim()`: the value is empty once trimmed. */
  predicate Blank(value: string)
    ensures Blank(value) <==> AllWhitespace(value)
  {
    |Trim(value)| == 0
  }

  /** The first email input of the form, or `|fields|` when there is none. */
  function EmailIndex(fields: seq<Field>): (i: nat)
    ensures i <= |fields|
    ensures forall k :: 0 <= k < i ==> !fields[k].isEmail
    ensures i < |fields| ==> fields[i].isEmail
  {
    if |fields| == 0 then 0
    else if fields[0].isEmail then 0
    else 1 + EmailIndex(fields[1..])
  }

  /** Every required field has a non-blank value. */
  predicate RequiredFilled(fields: seq<Field>)
  {
    forall i :: 0 <= i < |fields| && fields[i].required ==> !Blank(fields[i].value)
  }

  /** The email rule: there is no email input, or it is blank, or its
      untrimmed value matches the regular expression. */
  predicate EmailAcceptable(fields: seq<Field>)
  {
    var e := EmailIndex(fields);
    e == |fields| || Blank(fields[e].value) || RegexMatches(fields[e].value)
  }

  /** The required-field pass: each required field's `error` class is set
      exactly when its value is blank; other fields are untouched. */
  function MarkRequired(fields: seq<Field>): (r: seq<Field>)
    ensures |r| == |fields|
    ensures forall i :: 0 <= i < |fields| ==>
              r[i].value == fields[i].value && r[i].defaultValue == fields[i].defaultValue &&
              r[i].required == fields[i].required && r[i].isEmail == fields[i].isEmail
    ensures forall i :: 0 <= i < |fields| && fields[i].required ==>
              (r[i].error <==> Blank(fields[i].value))
    ensures forall i :: 0 <= i < |fields| && !fields[i].required ==> r[i] == fields[i]
  {
    seq(|fields|, i requires 0 <= i < |fields| =>
      if fields[i].required then fields[i].(error := Blank(fields[i].value)) else fields[i])
  }

  /** `quoteForm.reset()`: every value goes back to its default; classes stay. */
  function Reset(fields: seq<Field>): (r: seq<Field>)
    ensures |r| == |fields|
    ensures forall i :: 0 <= i < |fields| ==> r[i] == fields[i].(value := fields[i].defaultValue)
  {
    seq(|fields|, i requires 0 <= i < |fields| => fields[i].(value := fields[i].defaultValue))
  }

  /** The email check fails: the first email input exists, is not blank,
      and its untrimmed value does not match the pattern. */
  predicate EmailRejected(fields: seq<Field>)
  {
    var e := EmailIndex(fields);
    e < |fields| && !Blank(fields[e].value) && !EmailPatternTest(fields[e].value)
  }

  /** Both passes over the error classes: the required pass, then the email
      input marked when the email check fails. */
  function MarkErrors(fields: seq<Field>): (r: seq<Field>)
    ensures |r| == |fields|
    ensures forall i :: 0 <= i < |fields| ==> r[i].(error := fields[i].error) == fields[i]
    ensures forall i :: 0 <= i < |fields| && i != EmailIndex(fields) ==>
              r[i].error == (if fields[i].required then Blank(fields[i].value) else fields[i].error)
    ensures var e := EmailIndex(fields);
            e < |fields| ==>
              r[e].error ==
                ((!Blank(fields[e].value) && !RegexMatches(fields[e].value)) ||
                 (if fields[e].required then Blank(fields[e].value) else fields[e].error))
  {
    var marked := MarkRequired(fields);
    var e := EmailIndex(fields);
    if e < |fields| then
      EmailPatternTestIsRegex(fields[e].value);
      if EmailRejected(fields) then marked[e := marked[e].(error := true)] else marked
    else marked
  }

  /** The submit handler. */
  function Submit(fields: seq<Field>): (r: Submission)
    ensures |r.fields| == |fields|
    // The verdict: success exactly when every required field is filled and
    // the email rule holds.
    ensures r.outcome == ShowSuccess <==> RequiredFilled(fields) && EmailAcceptable(fields)
    // Success resets the values; an error leaves them as they were. Nothing
    // but values and error classes changes.
    ensures forall i :: 0 <= i < |fields| ==>
              r.fields[i].value ==
                (if r.outcome == ShowSuccess then fields[i].defaultValue else fields[i].value)
    ensures forall i :: 0 <= i < |fields| ==>
              r.fields[i].(value := fields[i].value, error := fields[i].error) == fields[i]
    // Error classes: a required field other than the email input is marked
    // exactly when blank; other non-email fields keep their class.
    ensures forall i :: 0 <= i < |fields| && i != EmailIndex(fields) ==>
              r.fields[i].error == (if fields[i].required then Blank(fields[i].value) else fields[i].error)
    // The email input is marked when its non-blank value fails the pattern,
    // and otherwise as the required pass left it.
    ensures var e := EmailIndex(fields);
            e < |fields| ==>
              r.fields[e].error ==
                ((!Blank(fields[e].value) && !RegexMatches(fields[e].value)) ||
                 (if fields[e].required then Blank(fields[e].value) else fields[e].error))
  {
    var checked := MarkErrors(fields);
    var e := EmailIndex(fields);
    assert EmailAcceptable(fields) <==> !EmailRejected(fields) by {
      if e < |fields| {
        EmailPatternTestIsRegex(fields[e].value);
      }
    }
    if RequiredFilled(fields) && !EmailRejected(fields) then Submission(Reset(checked), ShowSuccess)
    else Submission(checked, ShowError)
  }

  /** The email check only ever turns a passing form into a failing one: a
      form with a blank required field fails whatever its email says, and a
      form without an email input is judged on its required fields alone. */
  lemma EmailCheckOnlyRejects(fields: seq<Field>)
    ensures !RequiredFilled(fields) ==> Submit(fields).outcome == ShowError
    ensures EmailIndex(fields) == |fields| ==>
              (Submit(fields).outcome == ShowSuccess <==> RequiredFilled(fields))
  {
  }

  /** An otherwise valid email address led by a no-break space makes the
      form fail even though the required check, which trims, accepts it.
      Only a form with `novalidate` lets such a value reach the handler. */
  lemma PaddedEmailFails()
    ensures var f := [Field("\U{00A0}a@b.co", "", true, true, false)];
            Submit(f).outcome == ShowError && Submit(f).fields[0].error
  {
    var v := "\U{00A0}a@b.co";
    var f := [Field(v, "", true, true, false)];
    assert !IsWhitespace(v[1]);
    assert !Blank(v);
    PaddedValueRejected();
    EmailPatternTestIsRegex(v);
    assert EmailIndex(f) == 0;
  }

  /** An address without a dot in its domain, valid as an HTML e-mail
      address and so never blocked before the handler, makes the form fail
      and marks the field. */
  lemma DotlessEmailFails()
    ensures var f := [Field("a@b", "", true, true, false)];
            Submit(f).outcome == ShowError && Submit(f).fields[0].error
  {
    var f := [Field("a@b", "", true, true, false)];
    assert !IsWhitespace("a@b"[0]);
    assert !Blank("a@b");
    assert EmailIndex(f) == 0;
  }

  /** An email input without `required` keeps an `error` class left from an
      earlier failed submit even when its new value passes: only the
      required pass ever clears the class. */
  lemma OptionalEmailKeepsStaleError(fields: seq<Field>)
    requires EmailIndex(fields) < |fields|
    requires !fields[EmailIndex(fields)].required && fields[EmailIndex(fields)].error
    ensures Submit(fields).fields[EmailIndex(fields)].error
  {
  }
}
