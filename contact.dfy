/**
 * The contact form: field validation (required fields, the e-mail pattern), the
 * submission through the e-mail relay with its success and failure outcomes, and
 * the field-change handler.
 */
module Contact {
  import opened Optional
  import opened JsText

  datatype FormData = FormData(name: string, email: string, message: string)

  /** The error messages; a field without an error has none (`undefined`). */
  datatype Errors = Errors(name: Option<string>, email: Option<string>, message: Option<string>)

  datatype SubmitStatus = Idle | Success | Error

  /** The three inputs of the form, by their `name` attribute. */
  datatype Field = Name | Email | Message

  const NameRequired := "Name is required"
  const EmailRequired := "Email is required"
  const EmailInvalid := "Please enter a valid email address"
  const MessageRequired := "Message is required"
  const EmptyForm := FormData("", "", "")
  const NoErrors := Errors(None, None, None)

  // ---------------------------------------------------------------------------
  // The e-mail pattern

  /** The class `[^\s@]`. */
  predicate IsAddressChar(c: char) {
    !IsWhitespace(c) && c != '@'
  }

  /**
   * The regular expression `^[^\s@]+@[^\s@]+\.[^\s@]+$`, as the split it asks
   * for: an `@` at `at` and a `.` at `dot`, each of the three runs around them
   * non-empty, and every character but the `@` in the class `[^\s@]`.
   */
  ghost predicate MatchesEmailPattern(s: string) {
    exists at, dot ::
      0 < at && at + 1 < dot && dot + 1 < |s| && s[at] == '@' && s[dot] == '.' &&
      forall k :: 0 <= k < |s| && k != at ==> IsAddressChar(s[k])
  }

  /**
   * The same test, checked directly: no whitespace, exactly one `@`, something
   * before it, and after it a domain with a `.` that is neither its first nor its
   * last character.
   */
  predicate IsValidEmail(s: string) {
    (forall k :: 0 <= k < |s| ==> !IsWhitespace(s[k])) &&
    var at := LastIndexOf(s, '@');
    at > 0 && '@' !in s[..at] &&
    var domain := s[at + 1..];
    |domain| >= 2 && '.' in domain[1..|domain| - 1]
  }

  lemma ValidEmailMatches(s: string)
    requires IsValidEmail(s)
    ensures MatchesEmailPattern(s)
  {
    var at := LastIndexOf(s, '@');
    var domain := s[at + 1..];
    var inner := domain[1..|domain| - 1];
    var p :| 0 <= p < |inner| && inner[p] == '.';
    var dot := at + 2 + p;
    assert s[dot] == '.';
    forall k | 0 <= k < |s| && k != at ensures IsAddressChar(s[k]) {
      if k < at {
        assert s[..at][k] == s[k];
      }
    }
  }

  lemma MatchesIsValidEmail(s: string)
    requires MatchesEmailPattern(s)
    ensures IsValidEmail(s)
  {
    var at, dot :| 0 < at && at + 1 < dot && dot + 1 < |s| && s[at] == '@' && s[dot] == '.' &&
      forall k :: 0 <= k < |s| && k != at ==> IsAddressChar(s[k]);
    assert !IsAddressChar(s[at]);
    assert LastIndexOf(s, '@') == at;
    var domain := s[at + 1..];
    assert domain[1..|domain| - 1][dot - at - 2] == '.';
  }

  /** The direct test accepts exactly the strings the regular expression matches. */
  lemma EmailPatternIff(s: string)
    ensures IsValidEmail(s) <==> MatchesEmailPattern(s)
  {
    if IsValidEmail(s) {
      ValidEmailMatches(s);
    }
    if MatchesEmailPattern(s) {
      MatchesIsValidEmail(s);
    }
  }

  // ---------------------------------------------------------------------------
  // Validation

  /**
   * The errors `validateForm` records: a required-field error for a name or
   * message that is blank (trims to nothing, see `TrimEmptyIffBlank`); for the
   * e-mail, a required error when it is blank and otherwise an invalid-address
   * error when the untrimmed value does not match the pattern.
   */
  function Validate(form: FormData): (errors: Errors)
    ensures errors.email.Some? <==> !IsValidEmail(form.email)
  {
    BlankIsNotValidEmail(form.email);
    Errors(
      name := if IsBlank(form.name) then Some(NameRequired) else None,
      email :=
        if IsBlank(form.email) then Some(EmailRequired)
        else if !IsValidEmail(form.email) then Some(EmailInvalid)
        else None,
      message := if IsBlank(form.message) then Some(MessageRequired) else None)
  }

  /** A blank address never passes the e-mail test: it needs an `@` after some non-whitespace text. */
  lemma BlankIsNotValidEmail(s: string)
    ensures IsBlank(s) ==> !IsValidEmail(s)
  {
    if IsBlank(s) && |s| > 0 {
      assert IsWhitespace(s[0]);
    }
  }

  /** `Object.keys(errors).length === 0`: no field has an error. */
  predicate HasNoErrors(errors: Errors) {
    errors.name.None? && errors.email.None? && errors.message.None?
  }

  /**
   * The errors stated against `trim()` as the component tests them: the name and
   * message errors are set exactly when the value trims to nothing; the e-mail
   * error is the required error exactly when it trims to nothing, and otherwise
   * the invalid-address error exactly when it fails the direct test.
   */
  lemma ValidateErrors(form: FormData)
    ensures var errors := Validate(form);
      (errors.name == Some(NameRequired) <==> Trim(form.name) == []) &&
      (errors.name.None? <==> Trim(form.name) != []) &&
      (errors.email == Some(EmailRequired) <==> Trim(form.email) == []) &&
      (errors.email == Some(EmailInvalid) <==> Trim(form.email) != [] && !IsValidEmail(form.email)) &&
      (errors.email.None? <==> Trim(form.email) != [] && IsValidEmail(form.email)) &&
      (errors.message == Some(MessageRequired) <==> Trim(form.message) == []) &&
      (errors.message.None? <==> Trim(form.message) != [])
  {
    TrimEmptyIffBlank(form.name);
    TrimEmptyIffBlank(form.email);
    TrimEmptyIffBlank(form.message);
  }

  /** The e-mail error, stated against the regular expression itself. */
  lemma EmailErrorAgainstPattern(form: FormData)
    ensures Validate(form).email == Some(EmailInvalid) <==> !IsBlank(form.email) && !MatchesEmailPattern(form.email)
    ensures Validate(form).email.None? <==> !IsBlank(form.email) && MatchesEmailPattern(form.email)
  {
    ValidateErrors(form);
    EmailPatternIff(form.email);
  }

  /** A form passes validation exactly when name and message are not blank and the e-mail matches the pattern. */
  lemma ValidIff(form: FormData)
    ensures HasNoErrors(Validate(form)) <==>
      !IsBlank(form.name) && MatchesEmailPattern(form.email) && !IsBlank(form.message)
  {
    ValidateErrors(form);
    EmailPatternIff(form.email);
    if MatchesEmailPattern(form.email) {
      var at, dot :| 0 < at && at + 1 < dot && dot + 1 < |form.email| && form.email[at] == '@' &&
        form.email[dot] == '.' && forall k :: 0 <= k < |form.email| && k != at ==> IsAddressChar(form.email[k]);
      assert !IsWhitespace(form.email[at]);
    }
  }

  /**
   * Whitespace before or after an otherwise present address makes it invalid:
   * the pattern applies to the untrimmed value.
   */
  lemma SurroundingSpaceIsInvalid(form: FormData)
    requires |form.email| > 0 && !IsBlank(form.email)
    requires IsWhitespace(form.email[0]) || IsWhitespace(form.email[|form.email| - 1])
    ensures Validate(form).email == Some(EmailInvalid)
  {
    ValidateErrors(form);
    EmailPatternIff(form.email);
  }

  // ---------------------------------------------------------------------------
  // Field access

  function Get(form: FormData, field: Field): string {
    match field
    case Name => form.name
    case Email => form.email
    case Message => form.message
  }

  /** `{ ...form, [field]: value }`: the one field replaced. */
  function With(form: FormData, field: Field, value: string): (r: FormData)
    ensures Get(r, field) == value
    ensures forall other :: other != field ==> Get(r, other) == Get(form, other)
  {
    match field
    case Name => form.(name := value)
    case Email => form.(email := value)
    case Message => form.(message := value)
  }

  function ErrorOf(errors: Errors, field: Field): Option<string> {
    match field
    case Name => errors.name
    case Email => errors.email
    case Message => errors.message
  }

  /** `{ ...errors, [field]: undefined }`: the one error cleared. */
  function Cleared(errors: Errors, field: Field): (r: Errors)
    ensures ErrorOf(r, field).None?
    ensures forall other :: other != field ==> ErrorOf(r, other) == ErrorOf(errors, other)
  {
    match field
    case Name => errors.(name := None)
    case Email => errors.(email := None)
    case Message => errors.(message := None)
  }

  // ---------------------------------------------------------------------------
  // The component's state

  class ContactForm {
    var formData: FormData
    var errors: Errors
    var isSubmitting: bool
    var submitStatus: SubmitStatus

    constructor ()
      ensures formData == EmptyForm && errors == NoErrors
      ensures !isSubmitting && submitStatus == Idle
    {
      formData := EmptyForm;
      errors := NoErrors;
      isSubmitting := false;
      submitStatus := Idle;
    }

    /** `validateForm`: records the errors of the current values and says whether there are none. */
    method ValidateForm() returns (valid: bool)
      modifies this`errors
      ensures errors == Validate(formData)
      ensures valid <==> HasNoErrors(errors)
    {
      TrimEmptyIffBlank(formData.name);
      TrimEmptyIffBlank(formData.email);
      TrimEmptyIffBlank(formData.message);
      var newErrors := NoErrors;
      if Trim(formData.name) == [] {
        newErrors := newErrors.(name := Some(NameRequired));
      }
      if Trim(formData.email) == [] {
        newErrors := newErrors.(email := Some(EmailRequired));
      } else if !IsValidEmail(formData.email) {
        newErrors := newErrors.(email := Some(EmailInvalid));
      }
      if Trim(formData.message) == [] {
        newErrors := newErrors.(message := Some(MessageRequired));
      }
      errors := newErrors;
      valid := HasNoErrors(newErrors);
    }

    /**
     * The part of `handleSubmit` before the send: an invalid form stops here with
     * nothing sent and the submission state untouched; a valid one starts
     * submitting with the status reset, and its values are what is sent.
     */
    method BeginSubmit() returns (payload: Option<FormData>)
      modifies this`errors, this`isSubmitting, this`submitStatus
      ensures errors == Validate(old(formData))
      ensures if HasNoErrors(errors) then payload == Some(old(formData)) && isSubmitting && submitStatus == Idle
              else payload == None && isSubmitting == old(isSubmitting) && submitStatus == old(submitStatus)
    {
      var valid := ValidateForm();
      if !valid {
        return None;
      }
      isSubmitting, submitStatus := true, Idle;
      payload := Some(formData);
    }

    /**
     * The part of `handleSubmit` after the send: on delivery the status is success
     * and the fields are emptied; on failure the status is error and the fields
     * are kept. Either way submitting is over.
     */
    method FinishSubmit(delivered: bool)
      modifies this`formData, this`isSubmitting, this`submitStatus
      ensures !isSubmitting
      ensures delivered ==> submitStatus == Success && formData == EmptyForm
      ensures !delivered ==> submitStatus == Error && formData == old(formData)
    {
      if delivered {
        submitStatus := Success;
        formData := EmptyForm;
      } else {
        submitStatus := Error;
      }
      isSubmitting := false;
    }

    /** `handleSubmit`, with the relay's outcome as the parameter `delivered`. */
    method HandleSubmit(delivered: bool) returns (sent: Option<FormData>)
      modifies this
      ensures errors == Validate(old(formData))
      ensures sent.Some? <==> HasNoErrors(errors)
      ensures sent.None? ==>
        formData == old(formData) && isSubmitting == old(isSubmitting) && submitStatus == old(submitStatus)
      ensures sent.Some? ==> sent.value == old(formData) && !isSubmitting
      ensures sent.Some? && delivered ==> submitStatus == Success && formData == EmptyForm
      ensures sent.Some? && !delivered ==> submitStatus == Error && formData == old(formData)
    {
      sent := BeginSubmit();
      if sent.Some? {
        FinishSubmit(delivered);
      }
    }

    /** `handleChange`: the named field takes the new value and loses its error, if it had one. */
    method HandleChange(field: Field, value: string)
      modifies this`formData, this`errors
      ensures formData == With(old(formData), field, value)
      ensures errors == if ErrorOf(old(errors), field).Some? then Cleared(old(errors), field) else old(errors)
    {
      formData := With(formData, field, value);
      if ErrorOf(errors, field).Some? {
        errors := Cleared(errors, field);
      }
    }
  }
}
