/** The registration page: password strength meter, per-field validation on
    blur and input, the confirm-password check, the phone formatter, the
    checks run on submit, and the simulated username availability check. */
module Register {
  import opened Wrappers
  import opened Text
  import opened FieldMarks

  // ---------------------------------------------------------------------
  // Password strength

  /** The four character classes the strength checker searches for. */
  datatype CharClass = Lower | Upper | Digit | Other

  /** [a-z], [A-Z], [0-9] and [^a-zA-Z0-9]. */
  predicate InClass(c: char, k: CharClass) {
    match k
    case Lower => IsAsciiLower(c)
    case Upper => IsAsciiUpper(c)
    case Digit => IsDigit(c)
    case Other => !IsAsciiLetter(c) && !IsDigit(c)
  }

  /** password.match(/[class]/) is truthy. */
  function Matches(s: string, k: CharClass): (r: bool)
    ensures r <==> exists i :: 0 <= i < |s| && InClass(s[i], k)
  {
    if s == [] then false
    else if InClass(s[0], k) then true
    else
      var r := Matches(s[1..], k);
      assert r ==> exists i :: 0 <= i < |s| && InClass(s[i], k) by {
        if r {
          var i :| 0 <= i < |s[1..]| && InClass(s[1..][i], k);
          assert InClass(s[i + 1], k);
        }
      }
      r
  }

  function Point(b: bool): nat {
    if b then 1 else 0
  }

  /** The score: one point for each of the five criteria, in the order the
      handler tests them. */
  function Score(password: string): nat {
    Point(Utf16Length(password) >= 6) + Point(Matches(password, Lower)) + Point(Matches(password, Upper))
      + Point(Matches(password, Digit)) + Point(Matches(password, Other))
  }

  /** The input handler's score. */
  method PasswordStrength(password: string) returns (strength: nat)
    ensures strength == Score(password)
    ensures strength <= 5
  {
    strength := 0;
    if Utf16Length(password) >= 6 { strength := strength + 1; }
    if Matches(password, Lower) { strength := strength + 1; }
    if Matches(password, Upper) { strength := strength + 1; }
    if Matches(password, Digit) { strength := strength + 1; }
    if Matches(password, Other) { strength := strength + 1; }
  }

  /** Full strength needs all five criteria: at least six characters with a
      lower-case letter, an upper-case letter, a digit and another character;
      a password shorter than six characters scores at most four. */
  lemma {:induction false} FullStrength(password: string)
    ensures Score(password) == 5 <==>
      && Utf16Length(password) >= 6 && Matches(password, Lower) && Matches(password, Upper)
      && Matches(password, Digit) && Matches(password, Other)
    ensures Utf16Length(password) < 6 ==> Score(password) <= 4
  {
  }

  datatype Level = Weak | Medium | Strong

  /** The bar's width in percent, its colour class and its caption. */
  datatype Meter = Meter(widthPercent: nat, level: Level, caption: string)

  function StrengthMeter(strength: nat): (m: Meter)
    requires strength <= 5
    ensures m.widthPercent == if strength <= 1 then 20 else 20 * strength
    ensures m.level == Weak <==> strength <= 2
    ensures m.level == Medium <==> strength == 3
    ensures m.level == Strong <==> strength >= 4
  {
    match strength
    case 0 => Meter(20, Weak, "חלשה מאוד")
    case 1 => Meter(20, Weak, "חלשה מאוד")
    case 2 => Meter(40, Weak, "חלשה")
    case 3 => Meter(60, Medium, "בינונית")
    case 4 => Meter(80, Strong, "חזקה")
    case 5 => Meter(100, Strong, "מעולה")
  }

  // ---------------------------------------------------------------------
  // Field validation

  /** /^[a-zA-Z0-9_]+$/.test(value) */
  predicate WordOnly(value: string) {
    |value| > 0 && forall i :: 0 <= i < |value| ==> IsWordChar(value[i])
  }

  /** A character [^\s@] accepts. */
  predicate EmailChar(c: char) {
    c !in JsWhitespace && c != '@'
  }

  predicate EmailChars(s: string) {
    forall i :: 0 <= i < |s| ==> EmailChar(s[i])
  }

  /** /^[^\s@]+@[^\s@]+\.[^\s@]+$/ read as a grammar: a non-empty local part,
      '@' at index i, a non-empty domain, '.' at index j, and a non-empty
      suffix, none of them holding white space or '@'. */
  predicate EmailSplitAt(s: string, i: int, j: int) {
    && 0 < i && i + 1 < j && j + 1 < |s|
    && s[i] == '@' && s[j] == '.'
    && EmailChars(s[..i]) && EmailChars(s[i + 1..j]) && EmailChars(s[j + 1..])
  }

  /** The check as it can be computed: one '@', not first, no white space,
      and a '.' after the '@' that is neither next to it nor last. */
  predicate EmailValid(s: string) {
    var at := IndexOf(s, '@');
    && at > 0
    && (forall k :: 0 <= k < |s| ==> s[k] !in JsWhitespace && (s[k] == '@' ==> k == at))
    && exists j | at + 2 <= j < |s| - 1 :: s[j] == '.'
  }

  /** The computed check accepts exactly the strings the regular expression matches. */
  lemma {:induction false} EmailValidMatchesGrammar(s: string)
    ensures EmailValid(s) <==> exists i, j :: EmailSplitAt(s, i, j)
  {
    if EmailValid(s) {
      var at := IndexOf(s, '@');
      var j :| at + 2 <= j < |s| - 1 && s[j] == '.';
      assert EmailChars(s[..at]);
      assert EmailChars(s[at + 1..j]);
      assert EmailChars(s[j + 1..]);
      assert EmailSplitAt(s, at, j);
    }
    if exists i, j :: EmailSplitAt(s, i, j) {
      var i, j :| EmailSplitAt(s, i, j);
      forall k | 0 <= k < |s| ensures s[k] !in JsWhitespace && (s[k] == '@' ==> k == i) {
        if k < i {
          assert s[k] == s[..i][k];
        } else if i < k < j {
          assert s[k] == s[i + 1..j][k - i - 1];
        } else if j < k {
          assert s[k] == s[j + 1..][k - j - 1];
        }
      }
      assert '@' !in s[..i] by {
        forall k | 0 <= k < i ensures s[..i][k] != '@' {
          assert EmailChar(s[..i][k]);
        }
      }
      assert IndexOf(s, '@') == i;
    }
  }

  /** The validators attached to fields on blur. */
  datatype Validator = FirstName | LastName | Username | Email

  predicate Accepts(v: Validator, value: string) {
    match v
    case FirstName => Utf16Length(Trim(value, JsWhitespace)) >= 2
    case LastName => Utf16Length(Trim(value, JsWhitespace)) >= 2
    case Username => Utf16Length(value) >= 3 && WordOnly(value)
    case Email => EmailValid(value)
  }

  /** A validated field: its value, its classes, and the text of the
      .invalid-feedback element beside it, when there is one. */
  datatype Field = Field(value: string, classes: Classes, feedback: Option<string>)

  /** Blur: mark the field valid or invalid; an invalid field's feedback
      element, when present, gets the validator's message. */
  function OnBlur(f: Field, v: Validator, message: string): (g: Field)
    ensures g.value == f.value
    ensures Accepts(v, f.value) ==> g.classes == MarkedValid && g.feedback == f.feedback
    ensures !Accepts(v, f.value) ==> g.classes == MarkedInvalid
    ensures !Accepts(v, f.value) ==> g.feedback == if f.feedback.Some? && message != "" then Some(message) else f.feedback
  {
    if Accepts(v, f.value) then f.(classes := MarkedValid)
    else
      var feedback := if message != "" && f.feedback.Some? then Some(message) else f.feedback;
      f.(classes := MarkedInvalid, feedback := feedback)
  }

  /** Input: only a field already marked invalid is re-checked, and only
      towards valid. */
  function OnInput(f: Field, v: Validator): (g: Field)
    ensures g.value == f.value && g.feedback == f.feedback
    ensures f.classes.invalid && Accepts(v, f.value) ==> g.classes == MarkedValid
    ensures !(f.classes.invalid && Accepts(v, f.value)) ==> g == f
  {
    if f.classes.invalid && Accepts(v, f.value) then f.(classes := MarkedValid) else f
  }

  /** Typing never marks a field invalid. */
  lemma {:induction false} InputNeverInvalidates(f: Field, v: Validator)
    requires !f.classes.invalid
    ensures !OnInput(f, v).classes.invalid
  {
  }

  /** The confirm field's input handler: valid when it equals a non-empty
      password, invalid when it is non-empty and differs, untouched otherwise. */
  function OnConfirmInput(c: Classes, password: string, confirm: string): (r: Classes)
    ensures r == MarkedValid <==> (password == confirm && Utf16Length(password) > 0) || (c == MarkedValid && confirm == [])
    ensures |confirm| > 0 && confirm != password ==> r == MarkedInvalid
    ensures confirm == [] ==> r == c
  {
    if password == confirm && Utf16Length(password) > 0 then MarkedValid
    else if |confirm| > 0 then MarkedInvalid
    else c
  }

  // ---------------------------------------------------------------------
  // Phone formatting

  /** value.replace(/\D/g, '') */
  function DigitsOnly(s: string): (r: string)
    ensures |r| <= |s|
    ensures forall i :: 0 <= i < |r| ==> IsDigit(r[i])
  {
    if s == [] then [] else (if IsDigit(s[0]) then [s[0]] else []) + DigitsOnly(s[1..])
  }

  lemma {:induction false} DigitsOnlyAppend(a: string, b: string)
    ensures DigitsOnly(a + b) == DigitsOnly(a) + DigitsOnly(b)
  {
    if a != [] {
      var head: string := if IsDigit(a[0]) then [a[0]] else [];
      assert (a + b)[0] == a[0];
      assert (a + b)[1..] == a[1..] + b;
      assert DigitsOnly(a + b) == head + DigitsOnly(a[1..] + b);
      DigitsOnlyAppend(a[1..], b);
      assert DigitsOnly(a) == head + DigitsOnly(a[1..]);
    } else {
      assert a + b == b;
    }
  }

  predicate AllDigits(s: string) {
    forall i :: 0 <= i < |s| ==> IsDigit(s[i])
  }

  lemma {:induction false} DigitsOnlyOfDigits(s: string)
    requires AllDigits(s)
    ensures DigitsOnly(s) == s
  {
    if s != [] {
      DigitsOnlyOfDigits(s[1..]);
    }
  }

  lemma {:induction false} DashHasNoDigit()
    ensures DigitsOnly("-") == []
  {
    assert !IsDigit('-');
    assert "-"[1..] == [];
  }

  /** A dash contributes no digit. */
  lemma {:induction false} DigitsOnlyDash(a: string, b: string)
    requires AllDigits(b)
    ensures DigitsOnly(a + "-" + b) == DigitsOnly(a) + b
  {
    DigitsOnlyAppend(a + "-", b);
    DigitsOnlyAppend(a, "-");
    DashHasNoDigit();
    DigitsOnlyOfDigits(b);
  }

  function Min(a: int, b: int): int {
    if a <= b then a else b
  }

  /** The phone field's value after an input event. */
  function PhoneFormat(raw: string): string {
    var v := DigitsOnly(raw);
    if |v| <= 3 then v
    else if |v| <= 6 then v[..3] + "-" + v[3..]
    else v[..3] + "-" + v[3..6] + "-" + v[6..Min(10, |v|)]
  }

  /** The input handler: strip non-digits, insert the dashes, and mark the
      field 'formatted' when it is not empty. */
  method OnPhoneInput(raw: string) returns (value: string, formatted: bool)
    ensures value == PhoneFormat(raw)
    ensures formatted <==> |DigitsOnly(raw)| > 0
  {
    value := DigitsOnly(raw);
    if |value| > 0 {
      if |value| <= 3 {
        value := value;
      } else if |value| <= 6 {
        value := value[..3] + "-" + value[3..];
      } else {
        value := value[..3] + "-" + value[3..6] + "-" + value[6..Min(10, |value|)];
      }
    }
    formatted := |value| > 0;
  }

  /** Dropping the dashes from the output gives the first (at most ten)
      digits of the input. */
  lemma {:induction false} PhoneFormatKeepsDigits(raw: string)
    ensures DigitsOnly(PhoneFormat(raw)) == DigitsOnly(raw)[..Min(10, |DigitsOnly(raw)|)]
  {
    var v := DigitsOnly(raw);
    assert AllDigits(v);
    if |v| <= 3 {
      DigitsOnlyOfDigits(v);
      assert v[..|v|] == v;
    } else if |v| <= 6 {
      DigitsOnlyDash(v[..3], v[3..]);
      DigitsOnlyOfDigits(v[..3]);
      assert v[..3] + v[3..] == v[..|v|];
    } else {
      DashesBetweenRuns(v);
    }
  }

  lemma {:induction false} DashesBetweenRuns(v: string)
    requires AllDigits(v) && |v| > 6
    ensures DigitsOnly(v[..3] + "-" + v[3..6] + "-" + v[6..Min(10, |v|)]) == v[..Min(10, |v|)]
  {
    var m := Min(10, |v|);
    DigitsOnlyDash(v[..3] + "-" + v[3..6], v[6..m]);
    DigitsOnlyDash(v[..3], v[3..6]);
    DigitsOnlyOfDigits(v[..3]);
    assert v[..3] + v[3..6] + v[6..m] == v[..m];
  }

  /** The output holds only digits and dashes, the dashes stand after the
      third and the sixth digit when there are that many, and nowhere else. */
  lemma {:induction false} PhoneFormatLayout(raw: string)
    ensures forall i :: 0 <= i < |PhoneFormat(raw)| ==>
      (PhoneFormat(raw)[i] == '-' <==> (i == 3 || i == 7)) && (IsDigit(PhoneFormat(raw)[i]) <==> !(i == 3 || i == 7))
    ensures |PhoneFormat(raw)| == Min(10, |DigitsOnly(raw)|)
      + (if |DigitsOnly(raw)| > 3 then 1 else 0) + (if |DigitsOnly(raw)| > 6 then 1 else 0)
  {
    var v := DigitsOnly(raw);
    if |v| > 6 {
      TwoDashesLayout(v);
    } else if |v| > 3 {
      OneDashLayout(v);
    }
  }

  lemma {:induction false} OneDashLayout(v: string)
    requires AllDigits(v) && 3 < |v| <= 6
    ensures var r := v[..3] + "-" + v[3..];
      && |r| == |v| + 1
      && forall i :: 0 <= i < |r| ==> (r[i] == '-' <==> i == 3) && (IsDigit(r[i]) <==> i != 3)
  {
    var r := v[..3] + "-" + v[3..];
    forall i | 0 <= i < |r| ensures (r[i] == '-' <==> i == 3) && (IsDigit(r[i]) <==> i != 3) {
      if i < 3 {
        assert r[i] == v[i];
      } else if i > 3 {
        assert r[i] == v[i - 1];
      }
    }
  }

  lemma {:induction false} TwoDashesLayout(v: string)
    requires AllDigits(v) && |v| > 6
    ensures var r := v[..3] + "-" + v[3..6] + "-" + v[6..Min(10, |v|)];
      && |r| == Min(10, |v|) + 2
      && forall i :: 0 <= i < |r| ==>
        (r[i] == '-' <==> (i == 3 || i == 7)) && (IsDigit(r[i]) <==> !(i == 3 || i == 7))
  {
    var r := v[..3] + "-" + v[3..6] + "-" + v[6..Min(10, |v|)];
    forall i | 0 <= i < |r|
      ensures (r[i] == '-' <==> (i == 3 || i == 7)) && (IsDigit(r[i]) <==> !(i == 3 || i == 7))
    {
      if i < 3 {
        assert r[i] == v[i];
      } else if 3 < i < 7 {
        assert r[i] == v[i - 1];
      } else if i > 7 {
        assert r[i] == v[i - 2];
      }
    }
  }

  /** Formatting an already formatted value changes nothing. */
  lemma {:induction false} PhoneFormatIdempotent(raw: string)
    ensures PhoneFormat(PhoneFormat(raw)) == PhoneFormat(raw)
  {
    PhoneFormatKeepsDigits(raw);
    var v := DigitsOnly(raw);
    var w := DigitsOnly(PhoneFormat(raw));
    assert w == v[..Min(10, |v|)];
    if |v| > 6 {
      assert w[..3] == v[..3] && w[3..6] == v[3..6] && w[6..Min(10, |w|)] == v[6..Min(10, |v|)];
    } else if |v| > 3 {
      assert w == v;
    }
  }

  // ---------------------------------------------------------------------
  // Submit

  /** A [required] element: the text of the label before it and its value. */
  datatype RequiredField = RequiredField(labelText: string, value: string)

  datatype RegisterForm = RegisterForm(
    required: seq<RequiredField>, password: string, confirmPassword: string,
    username: string, email: string, termsAccepted: bool)

  /** The messages pushed onto `errors`, in the order the checks run. */
  datatype RegisterError =
    | MissingField(labelText: string)
    | PasswordTooShort
    | PasswordMismatch
    | BadUsername
    | BadEmail
    | TermsNotAccepted

  /** The position of each check in the submit handler. */
  function Rank(e: RegisterError): nat {
    match e
    case MissingField(_) => 0
    case PasswordTooShort => 1
    case PasswordMismatch => 2
    case BadUsername => 3
    case BadEmail => 4
    case TermsNotAccepted => 5
  }

  predicate Blank(value: string) {
    Trim(value, JsWhitespace) == []
  }

  /** The 'required' messages for the blank fields, in document order. */
  function MissingFields(fields: seq<RequiredField>): (errs: seq<RegisterError>)
    ensures |errs| <= |fields|
    ensures forall e :: e in errs ==> e.MissingField?
  {
    if fields == [] then []
    else
      var last := fields[|fields| - 1];
      MissingFields(fields[..|fields| - 1]) + (if Blank(last.value) then [MissingField(last.labelText)] else [])
  }

  /** Every required field that is blank has its message. */
  lemma {:induction false} MissingFieldsComplete(fields: seq<RequiredField>, k: nat)
    requires k < |fields| && Blank(fields[k].value)
    ensures MissingField(fields[k].labelText) in MissingFields(fields)
  {
    if k < |fields| - 1 {
      MissingFieldsComplete(fields[..|fields| - 1], k);
    }
  }

  /** Every 'required' message names a blank required field. */
  lemma {:induction false} MissingFieldsSound(fields: seq<RequiredField>)
    ensures forall e :: e in MissingFields(fields) ==>
      exists k :: 0 <= k < |fields| && Blank(fields[k].value) && e == MissingField(fields[k].labelText)
  {
    if fields != [] {
      var init := fields[..|fields| - 1];
      MissingFieldsSound(init);
      assert forall k :: 0 <= k < |init| ==> init[k] == fields[k];
    }
  }

  /** errors.push(e) when the check fails. */
  function PushIf(errs: seq<RegisterError>, fails: bool, e: RegisterError): (r: seq<RegisterError>)
    ensures forall x :: x in r <==> x in errs || (fails && x == e)
  {
    if fails then errs + [e] else errs
  }

  /** The messages of every check, in the order the handler runs them. */
  function SubmitErrors(form: RegisterForm): seq<RegisterError> {
    var afterRequired := MissingFields(form.required);
    var afterLength := PushIf(afterRequired, Utf16Length(form.password) < 6, PasswordTooShort);
    var afterMatch := PushIf(afterLength, form.password != form.confirmPassword, PasswordMismatch);
    var afterUsername := PushIf(afterMatch, !WordOnly(form.username), BadUsername);
    var afterEmail := PushIf(afterUsername, !EmailValid(form.email), BadEmail);
    PushIf(afterEmail, !form.termsAccepted, TermsNotAccepted)
  }

  /** The forEach over the [required] elements: one message per blank
      field, in document order, and each blank field gets 'is-invalid'
      (`marked[k]`). */
  method CheckRequired(fields: seq<RequiredField>) returns (errors: seq<RegisterError>, marked: seq<bool>)
    ensures errors == MissingFields(fields)
    ensures |marked| == |fields|
    ensures forall k :: 0 <= k < |fields| ==> (marked[k] <==> Blank(fields[k].value))
  {
    errors := [];
    marked := [];
    var i := 0;
    assert fields[..0] == [];
    while i < |fields|
      invariant 0 <= i <= |fields|
      invariant errors == MissingFields(fields[..i])
      invariant |marked| == i
      invariant forall k :: 0 <= k < i ==> (marked[k] <==> Blank(fields[k].value))
    {
      var field := fields[i];
      assert MissingFields(fields[..i + 1])
          == PushIf(MissingFields(fields[..i]), Blank(field.value), MissingField(field.labelText)) by {
        assert fields[..i + 1][..i] == fields[..i];
      }
      if Blank(field.value) {
        errors := errors + [MissingField(field.labelText)];
      }
      marked := marked + [Blank(field.value)];
      i := i + 1;
    }
    assert fields[..i] == fields;
  }

  /** The controls the submit handler adds 'is-invalid' to: each required
      control found blank, and the password, confirmation, username and
      e-mail controls whose check fails. The terms box is never marked, and
      'is-valid' is not removed. */
  datatype InvalidMarks = InvalidMarks(required: seq<bool>, password: bool, confirm: bool, username: bool, email: bool)

  /** The submit handler's checks; the form is submitted iff `isValid`.
      A control is marked invalid exactly when its check fails, and so
      exactly when its message is in the list. */
  method ValidateOnSubmit(form: RegisterForm) returns (errors: seq<RegisterError>, isValid: bool, marks: InvalidMarks)
    ensures errors == SubmitErrors(form)
    ensures isValid <==> errors == []
    ensures |marks.required| == |form.required|
    ensures forall k :: 0 <= k < |form.required| ==> (marks.required[k] <==> Blank(form.required[k].value))
    ensures forall k :: 0 <= k < |form.required| && marks.required[k] ==>
      MissingField(form.required[k].labelText) in errors
    ensures marks.password <==> Utf16Length(form.password) < 6
    ensures marks.confirm <==> form.password != form.confirmPassword
    ensures marks.username <==> !WordOnly(form.username)
    ensures marks.email <==> !EmailValid(form.email)
    ensures marks.password <==> PasswordTooShort in errors
    ensures marks.confirm <==> PasswordMismatch in errors
    ensures marks.username <==> BadUsername in errors
    ensures marks.email <==> BadEmail in errors
  {
    var required;
    errors, required := CheckRequired(form.required);
    isValid := errors == [];
    marks := InvalidMarks(required, false, false, false, false);
    if Utf16Length(form.password) < 6 {
      marks := marks.(password := true);
      errors := errors + [PasswordTooShort];
      isValid := false;
    }
    if form.password != form.confirmPassword {
      marks := marks.(confirm := true);
      errors := errors + [PasswordMismatch];
      isValid := false;
    }
    if !WordOnly(form.username) {
      marks := marks.(username := true);
      errors := errors + [BadUsername];
      isValid := false;
    }
    if !EmailValid(form.email) {
      marks := marks.(email := true);
      errors := errors + [BadEmail];
      isValid := false;
    }
    if !form.termsAccepted {
      errors := errors + [TermsNotAccepted];
      isValid := false;
    }
    SubmitErrorsContent(form, PasswordTooShort);
    SubmitErrorsContent(form, PasswordMismatch);
    SubmitErrorsContent(form, BadUsername);
    SubmitErrorsContent(form, BadEmail);
    BlankFieldsListed(form);
  }

  /** Every blank required field has its message in the submit list. */
  lemma {:induction false} BlankFieldsListed(form: RegisterForm)
    ensures forall k :: 0 <= k < |form.required| && Blank(form.required[k].value) ==>
      MissingField(form.required[k].labelText) in SubmitErrors(form)
  {
    SubmitErrorsMembers(form);
    ErrorsBeforeTermsContent(form);
    forall k | 0 <= k < |form.required| && Blank(form.required[k].value)
      ensures MissingField(form.required[k].labelText) in MissingFields(form.required)
    {
      MissingFieldsComplete(form.required, k);
    }
  }

  /** The messages before the terms check. */
  function ErrorsBeforeTerms(form: RegisterForm): seq<RegisterError> {
    var afterRequired := MissingFields(form.required);
    var afterLength := PushIf(afterRequired, Utf16Length(form.password) < 6, PasswordTooShort);
    var afterMatch := PushIf(afterLength, form.password != form.confirmPassword, PasswordMismatch);
    var afterUsername := PushIf(afterMatch, !WordOnly(form.username), BadUsername);
    PushIf(afterUsername, !EmailValid(form.email), BadEmail)
  }

  /** The messages of the password, username and e-mail checks appear
      exactly when those checks fail, besides the 'required' messages. */
  lemma {:induction false} ErrorsBeforeTermsContent(form: RegisterForm)
    ensures forall x :: x in ErrorsBeforeTerms(form) <==>
      x in MissingFields(form.required)
      || (x == PasswordTooShort && Utf16Length(form.password) < 6)
      || (x == PasswordMismatch && form.password != form.confirmPassword)
      || (x == BadUsername && !WordOnly(form.username))
      || (x == BadEmail && !EmailValid(form.email))
  {
  }

  /** The terms check comes last. */
  lemma {:induction false} SubmitErrorsMembers(form: RegisterForm)
    ensures forall x :: x in SubmitErrors(form) <==>
      x in ErrorsBeforeTerms(form) || (x == TermsNotAccepted && !form.termsAccepted)
  {
    assert SubmitErrors(form) == PushIf(ErrorsBeforeTerms(form), !form.termsAccepted, TermsNotAccepted);
  }

  /** Each later check (length, match, username, e-mail, terms) contributes
      its message exactly when it fails. */
  lemma {:induction false} SubmitErrorsContent(form: RegisterForm, x: RegisterError)
    requires !x.MissingField?
    ensures x in SubmitErrors(form) <==>
      || (x == PasswordTooShort && Utf16Length(form.password) < 6)
      || (x == PasswordMismatch && form.password != form.confirmPassword)
      || (x == BadUsername && !WordOnly(form.username))
      || (x == BadEmail && !EmailValid(form.email))
      || (x == TermsNotAccepted && !form.termsAccepted)
  {
    SubmitErrorsMembers(form);
    ErrorsBeforeTermsContent(form);
    assert x !in MissingFields(form.required);
  }

  /** The only 'required' messages are those of the blank required fields. */
  lemma {:induction false} SubmitErrorsRequiredOnly(form: RegisterForm)
    ensures forall e :: e in SubmitErrors(form) && e.MissingField? ==> e in MissingFields(form.required)
  {
    SubmitErrorsMembers(form);
    ErrorsBeforeTermsContent(form);
  }

  /** Messages in order: 'required' messages only, or ranks strictly
      increasing otherwise. */
  predicate InCheckOrder(errs: seq<RegisterError>) {
    forall i, j :: 0 <= i < j < |errs| ==>
      Rank(errs[i]) < Rank(errs[j]) || (errs[i].MissingField? && errs[j].MissingField?)
  }

  lemma {:induction false} PushIfKeepsOrder(errs: seq<RegisterError>, fails: bool, e: RegisterError)
    requires InCheckOrder(errs)
    requires !e.MissingField? && forall x :: x in errs ==> Rank(x) < Rank(e)
    ensures InCheckOrder(PushIf(errs, fails, e))
  {
    if fails {
      var r := errs + [e];
      forall i, j | 0 <= i < j < |r|
        ensures Rank(r[i]) < Rank(r[j]) || (r[i].MissingField? && r[j].MissingField?)
      {
        if j == |errs| {
          assert r[i] in errs;
        }
      }
    }
  }

  /** The messages come out in the order the checks run, and only a
      'required' message can repeat. */
  lemma {:induction false} SubmitErrorsOrdered(form: RegisterForm)
    ensures InCheckOrder(SubmitErrors(form))
  {
    var e0 := MissingFields(form.required);
    var e1 := PushIf(e0, Utf16Length(form.password) < 6, PasswordTooShort);
    var e2 := PushIf(e1, form.password != form.confirmPassword, PasswordMismatch);
    var e3 := PushIf(e2, !WordOnly(form.username), BadUsername);
    var e4 := PushIf(e3, !EmailValid(form.email), BadEmail);
    PushIfKeepsOrder(e0, Utf16Length(form.password) < 6, PasswordTooShort);
    PushIfKeepsOrder(e1, form.password != form.confirmPassword, PasswordMismatch);
    PushIfKeepsOrder(e2, !WordOnly(form.username), BadUsername);
    PushIfKeepsOrder(e3, !EmailValid(form.email), BadEmail);
    PushIfKeepsOrder(e4, !form.termsAccepted, TermsNotAccepted);
  }

  /** The form is submitted iff no required field is blank and every later
      check passes. */
  lemma {:induction false} SubmitAcceptedIff(form: RegisterForm)
    ensures SubmitErrors(form) == [] <==>
      && (forall k :: 0 <= k < |form.required| ==> !Blank(form.required[k].value))
      && Utf16Length(form.password) >= 6 && form.password == form.confirmPassword
      && WordOnly(form.username) && EmailValid(form.email) && form.termsAccepted
  {
    SubmitErrorsContent(form, PasswordTooShort);
    SubmitErrorsContent(form, PasswordMismatch);
    SubmitErrorsContent(form, BadUsername);
    SubmitErrorsContent(form, BadEmail);
    SubmitErrorsContent(form, TermsNotAccepted);
    SubmitErrorsRequiredOnly(form);
    if SubmitErrors(form) == [] {
      forall k | 0 <= k < |form.required| ensures !Blank(form.required[k].value) {
        if Blank(form.required[k].value) {
          MissingFieldsComplete(form.required, k);
        }
      }
    } else if MissingFields(form.required) != [] {
      MissingFieldsSound(form.required);
      var e := MissingFields(form.required)[0];
      assert e in MissingFields(form.required);
    }
  }

  /** The submit check on the username is weaker than the blur check: a
      two-character username is rejected on blur and accepted on submit. */
  lemma {:induction false} ShortUsernameQuirk()
    ensures !Accepts(Username, "ab") && WordOnly("ab")
  {
  }

  // ---------------------------------------------------------------------
  // Simulated availability check

  const TakenUsernames: seq<string> := ["admin", "user", "test", "basketball", "player"]

  /** The availability check is scheduled only for a username the blur
      validator would accept. */
  function AvailabilityCheckFor(username: string): (target: Option<string>)
    ensures target.Some? <==> Accepts(Username, username)
    ensures target.Some? ==> target.value == username
  {
    if Utf16Length(username) >= 3 && WordOnly(username) then Some(username) else None
  }

  /** The check's verdict: taken names are compared after lower-casing. */
  predicate IsTaken(username: string) {
    ToLower(username) in TakenUsernames
  }

  /** The field after the check. The verdict is on `username`, the value
      captured when the check was scheduled; the field is the one on the page
      when the check lands, whatever it holds by then. A taken name marks it
      invalid with the "taken" message, any other name marks it valid. */
  function AfterAvailabilityCheck(f: Field, username: string, takenMessage: string): (g: Field)
    ensures g.value == f.value
    ensures IsTaken(username) ==> g.classes == MarkedInvalid && g.feedback == (if f.feedback.Some? then Some(takenMessage) else None)
    ensures !IsTaken(username) ==> g.classes == MarkedValid && g.feedback == f.feedback
  {
    if IsTaken(username) then
      f.(classes := MarkedInvalid, feedback := if f.feedback.Some? then Some(takenMessage) else None)
    else f.(classes := MarkedValid)
  }

  /** When nothing was typed between scheduling and landing, the verdict is
      the one for the field's own value. */
  lemma {:induction false} AvailabilityCheckOnCurrentValue(f: Field, takenMessage: string)
    ensures AfterAvailabilityCheck(f, f.value, takenMessage).classes
            == (if IsTaken(f.value) then MarkedInvalid else MarkedValid)
  {
  }

  /** A check scheduled for "admin" that lands after "!" was typed marks the
      field, now holding the free name "admin!", as taken. */
  lemma {:induction false} StaleAvailabilityCheck(f: Field, takenMessage: string)
    requires f.value == "admin!"
    ensures AvailabilityCheckFor("admin") == Some("admin")
    ensures !IsTaken(f.value)
    ensures AfterAvailabilityCheck(f, "admin", takenMessage).classes == MarkedInvalid
  {
    var scheduled := "admin";
    assert WordOnly(scheduled) by {
      forall i | 0 <= i < |scheduled| ensures IsWordChar(scheduled[i]) {
      }
    }
    assert ToLower(scheduled) == scheduled by {
      assert ToLower(scheduled)[0] == 'a';
    }
    assert ToLower(f.value) !in TakenUsernames by {
      assert |ToLower(f.value)| == 6;
    }
  }

  /** The comparison ignores the case of ASCII letters: a name and its
      lower-cased form get the same verdict. */
  lemma {:induction false} TakenIgnoresCase(username: string)
    ensures IsTaken(username) <==> IsTaken(ToLower(username))
  {
    ToLowerIdempotent(username);
  }

  /** "Admin" is taken; a name that only contains a taken one is not. */
  lemma {:induction false} TakenExamples()
    ensures IsTaken("Admin") && !IsTaken("admin1")
  {
    assert ToLower("Admin") == "admin" by {
      assert ToLower("Admin")[0] == 'a';
    }
    assert ToLower("admin1") !in TakenUsernames by {
      assert |ToLower("admin1")| == 6;
    }
  }
}
