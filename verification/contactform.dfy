/** The contact form in the site footer: four fields, a validator that
    attaches a message to each bad field, typing that clears the field's
    message, and a submit that resets the form once it has gone through. */
module ContactForm {
  import opened Wrappers
  import opened JsString

  datatype Field = FirstName | LastName | Email | Message

  datatype FormData = FormData(firstName: string, lastName: string, email: string, message: string) {
    function Get(f: Field): string {
      match f
      case FirstName => firstName
      case LastName => lastName
      case Email => email
      case Message => message
    }

    function Set(f: Field, v: string): (r: FormData)
      ensures r.Get(f) == v
      ensures forall g :: g != f ==> r.Get(g) == Get(g)
    {
      match f
      case FirstName => this.(firstName := v)
      case LastName => this.(lastName := v)
      case Email => this.(email := v)
      case Message => this.(message := v)
    }
  }

  const EmptyForm := FormData("", "", "", "")

  /** One optional message per field; `None` is a key that is absent or
      holds `undefined`. */
  datatype FormErrors = FormErrors(firstName: Option<string>, lastName: Option<string>, email: Option<string>, message: Option<string>) {
    function Get(f: Field): Option<string> {
      match f
      case FirstName => firstName
      case LastName => lastName
      case Email => email
      case Message => message
    }

    function Clear(f: Field): (r: FormErrors)
      ensures r.Get(f).None?
      ensures forall g :: g != f ==> r.Get(g) == Get(g)
    {
      match f
      case FirstName => this.(firstName := None)
      case LastName => this.(lastName := None)
      case Email => this.(email := None)
      case Message => this.(message := None)
    }
  }

  const NoErrors := FormErrors(None, None, None, None)

  const FirstNameRequired := "First name is required"
  const LastNameRequired := "Last name is required"
  const EmailRequired := "Email is required"
  const EmailInvalid := "Email is invalid"
  const MessageRequired := "Message is required"

  // ---------------------------------------------------------------------
  // The e-mail pattern `\S+@\S+\.\S+`, searched anywhere in the text

  /** No white space in `s[lo..hi]`. */
  predicate SpaceFree(s: string, lo: nat, hi: nat)
    requires lo <= hi <= |s|
  {
    forall k :: lo <= k < hi ==> !IsSpace(s[k])
  }

  /** With `@` at `a`, a `.` at `d` ends a non-empty run of non-space
      after the `@` and has a non-space character after it. */
  predicate DotAt(s: string, a: nat, d: nat) {
    a + 1 < d && d + 1 < |s| && s[d] == '.' && !IsSpace(s[d + 1]) && SpaceFree(s, a + 1, d)
  }

  /** An `@` at `a` with a non-space character before it and a fitting dot
      after it. */
  predicate AtSignAt(s: string, a: nat) {
    0 < a < |s| && s[a] == '@' && !IsSpace(s[a - 1]) && exists d :: a + 1 < d < |s| && DotAt(s, a, d)
  }

  /** `/\S+@\S+\.\S+/.test(s)`: some `@` fits. Each `\S+` matches as
      little as it can, so one character each side is enough. */
  predicate EmailPattern(s: string) {
    exists a :: 0 < a < |s| && AtSignAt(s, a)
  }

  /** Whether some dot fits the `@` at `a`: walk the run of non-space after
      it; a white-space character ends every candidate. */
  method FindDot(s: string, a: nat) returns (found: bool)
    requires a < |s|
    ensures found <==> exists d :: a + 1 < d < |s| && DotAt(s, a, d)
  {
    var d := a + 1;
    while d < |s| && !IsSpace(s[d])
      invariant a + 1 <= d <= |s|
      invariant SpaceFree(s, a + 1, d)
      invariant forall e :: a + 1 < e < d ==> !DotAt(s, a, e)
    {
      if a + 1 < d && d + 1 < |s| && s[d] == '.' && !IsSpace(s[d + 1]) {
        assert DotAt(s, a, d);
        return true;
      }
      d := d + 1;
    }
    forall e | d <= e < |s| ensures !DotAt(s, a, e) {
      if d < e && d < |s| {
        assert IsSpace(s[d]);
      }
    }
    found := false;
  }

  /** The regular-expression test: try every `@`. */
  method MatchesEmail(s: string) returns (matched: bool)
    ensures matched <==> EmailPattern(s)
  {
    var a := 1;
    while a < |s|
      invariant 1 <= a
      invariant forall b :: 0 < b < a && b < |s| ==> !AtSignAt(s, b)
    {
      if s[a] == '@' && !IsSpace(s[a - 1]) {
        var dot := FindDot(s, a);
        if dot {
          assert AtSignAt(s, a);
          return true;
        }
      }
      a := a + 1;
    }
    matched := false;
  }

  /** A matching address is never blank. */
  lemma EmailNotBlank(s: string)
    ensures EmailPattern(s) ==> !AllSpace(s)
  {
    if EmailPattern(s) {
      var a :| 0 < a < |s| && AtSignAt(s, a);
      assert !IsSpace(s[a]);
    }
  }

  lemma EmailExample()
    ensures EmailPattern("a@b.c")
    ensures !EmailPattern("a@b")
  {
    assert DotAt("a@b.c", 1, 3);
    assert AtSignAt("a@b.c", 1);
  }

  // ---------------------------------------------------------------------
  // validateForm

  /** `validateForm`: a message for each blank field (white space only), and
      `'Email is invalid'` for a non-blank address the pattern rejects. */
  function Validate(d: FormData): (e: FormErrors)
    ensures e.firstName.Some? <==> AllSpace(d.firstName)
    ensures e.firstName.Some? ==> e.firstName.value == FirstNameRequired
    ensures e.lastName.Some? <==> AllSpace(d.lastName)
    ensures e.lastName.Some? ==> e.lastName.value == LastNameRequired
    ensures e.email == Some(EmailRequired) <==> AllSpace(d.email)
    ensures e.email == Some(EmailInvalid) <==> !AllSpace(d.email) && !EmailPattern(d.email)
    ensures e.email.None? <==> EmailPattern(d.email)
    ensures e.message.Some? <==> AllSpace(d.message)
    ensures e.message.Some? ==> e.message.value == MessageRequired
  {
    BlankIffAllSpace(d.firstName);
    BlankIffAllSpace(d.lastName);
    BlankIffAllSpace(d.email);
    BlankIffAllSpace(d.message);
    EmailNotBlank(d.email);
    FormErrors(
      if Trim(d.firstName) == [] then Some(FirstNameRequired) else None,
      if Trim(d.lastName) == [] then Some(LastNameRequired) else None,
      if Trim(d.email) == [] then Some(EmailRequired)
      else if !EmailPattern(d.email) then Some(EmailInvalid)
      else None,
      if Trim(d.message) == [] then Some(MessageRequired) else None)
  }

  /** `Object.keys(newErrors).length === 0`. */
  predicate IsValid(d: FormData) {
    Validate(d) == NoErrors
  }

  /** The form passes exactly when the three text fields have some
      non-space character and the address matches the pattern. */
  lemma ValidIff(d: FormData)
    ensures IsValid(d) <==> !AllSpace(d.firstName) && !AllSpace(d.lastName) && EmailPattern(d.email) && !AllSpace(d.message)
  {
  }

  /** The empty form fails on every field. */
  lemma EmptyFormInvalid()
    ensures Validate(EmptyForm) == FormErrors(Some(FirstNameRequired), Some(LastNameRequired), Some(EmailRequired), Some(MessageRequired))
  {
    assert AllSpace(EmptyForm.email);
  }

  // ---------------------------------------------------------------------
  // The component's state and its handlers

  datatype Form = Form(data: FormData, errors: FormErrors, submitting: bool)

  const InitialForm := Form(EmptyForm, NoErrors, false)

  /** `handleInputChange`: store the value, and clear the field's message
      if it has one. */
  function HandleInputChange(f: Form, field: Field, value: string): (r: Form)
    ensures r.data.Get(field) == value
    ensures r.errors.Get(field).None?
    ensures forall g :: g != field ==> r.data.Get(g) == f.data.Get(g) && r.errors.Get(g) == f.errors.Get(g)
    ensures r.submitting == f.submitting
  {
    var data := f.data.Set(field, value);
    if f.errors.Get(field).Some? then Form(data, f.errors.Clear(field), f.submitting)
    else Form(data, f.errors, f.submitting)
  }

  /** `handleSubmit` up to its `await`: validate, and stop on a bad form;
      the flag says whether the submission goes ahead. */
  function SubmitStart(f: Form): (r: (Form, bool))
    ensures r.0.errors == Validate(f.data) && r.0.data == f.data
    ensures r.1 <==> IsValid(f.data)
    ensures r.0.submitting == (r.1 || f.submitting)
  {
    var errors := Validate(f.data);
    if errors == NoErrors then (Form(f.data, errors, true), true)
    else (Form(f.data, errors, f.submitting), false)
  }

  /** The rest of `handleSubmit` after the simulated delay: the fields are
      emptied and the button is released. */
  function SubmitComplete(f: Form): (r: Form)
    ensures r.data == EmptyForm && !r.submitting && r.errors == f.errors
  {
    Form(EmptyForm, f.errors, false)
  }

  /** A valid submission ends with an empty form and no messages; an
      invalid one keeps what was typed. */
  lemma SubmitOutcome(f: Form)
    ensures IsValid(f.data) ==> SubmitComplete(SubmitStart(f).0) == InitialForm
    ensures !IsValid(f.data) ==> SubmitStart(f).0.data == f.data && exists g: Field :: SubmitStart(f).0.errors.Get(g).Some?
  {
    if !IsValid(f.data) {
      var e := Validate(f.data);
      assert e != NoErrors;
      if e.firstName.Some? { assert e.Get(FirstName).Some?; }
      else if e.lastName.Some? { assert e.Get(LastName).Some?; }
      else if e.email.Some? { assert e.Get(Email).Some?; }
      else { assert e.Get(Message).Some?; }
    }
  }

  /** After a failed submit, fixing one field removes only that field's
      message; the others stay until the next submit. */
  lemma TypingClearsOnlyItsMessage(f: Form, field: Field, value: string, other: Field)
    requires !IsValid(f.data) && other != field
    ensures var r := HandleInputChange(SubmitStart(f).0, field, value);
      r.errors.Get(field).None? && r.errors.Get(other) == Validate(f.data).Get(other)
  {
  }
}
