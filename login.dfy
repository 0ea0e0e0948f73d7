/** The login page: submit validation of the username and password, the
    feedback message under a field, real-time marking while typing, the
    remember-me entry in local storage, clearing the form, the Enter and
    Escape shortcuts, the demo-account fill and the password visibility
    toggle. */
module Login {
  import opened Wrappers
  import opened Text
  import opened FieldMarks

  /** The local-storage key of the remembered username. */
  const RememberKey := "rememberedUsername"

  const UsernameRequired := "שם משתמש הוא שדה חובה"
  const UsernameTooShort := "שם משתמש חייב להכיל לפחות 2 תווים"
  const PasswordRequired := "סיסמה היא שדה חובה"
  const PasswordTooShort := "הסיסמה חייבת להכיל לפחות 3 תווים"

  /** The outcome of one field's submit check. */
  datatype Verdict = Missing | TooShort | Accepted

  /** The username is trimmed before it is checked. */
  function UsernameVerdict(value: string): Verdict {
    var username := Trim(value, JsWhitespace);
    if username == [] then Missing
    else if Utf16Length(username) < 2 then TooShort
    else Accepted
  }

  /** The password is checked as typed, white space included. */
  function PasswordVerdict(value: string): Verdict {
    if value == [] then Missing
    else if Utf16Length(value) < 3 then TooShort
    else Accepted
  }

  /** A blank before one character still leaves the username too short,
      while a password of three blanks is accepted. */
  lemma {:induction false} TrimmedOnlyForUsername()
    ensures UsernameVerdict(" a") == TooShort
    ensures PasswordVerdict("   ") == Accepted
  {
    assert ' ' in JsWhitespace && 'a' !in JsWhitespace;
    assert " a"[0] == ' ' && " a"[1..] == "a";
    assert TrimStart("a", JsWhitespace) == "a";
    assert TrimStart(" a", JsWhitespace) == "a";
    assert TrimEnd("a", JsWhitespace) == "a";
    assert Trim(" a", JsWhitespace) == "a";
  }

  /** The classes a submit check leaves on its field. */
  function SubmitClasses(v: Verdict): Classes {
    if v == Accepted then MarkedValid else MarkedInvalid
  }

  /** showFieldError: the first .invalid-feedback element of the field's
      container is removed and one with the new message is appended. */
  function WithError(feedback: seq<string>, message: string): (r: seq<string>)
    ensures |feedback| <= 1 ==> r == [message]
    ensures |r| == if feedback == [] then 1 else |feedback|
    ensures r[|r| - 1] == message
  {
    (if feedback == [] then [] else feedback[1..]) + [message]
  }

  /** The feedback elements after a submit check. */
  function SubmitFeedback(feedback: seq<string>, v: Verdict, missing: string, tooShort: string): seq<string> {
    match v
    case Missing => WithError(feedback, missing)
    case TooShort => WithError(feedback, tooShort)
    case Accepted => feedback
  }

  /** The real-time rule: at least `threshold` characters marks valid, a
      shorter non-empty value marks invalid, an empty one removes both. */
  function LiveClasses(length: nat, threshold: nat): (c: Classes)
    requires threshold > 0
    ensures c.valid <==> length >= threshold
    ensures c.invalid <==> 0 < length < threshold
    ensures !(c.valid && c.invalid)
  {
    if length >= threshold then MarkedValid
    else if length > 0 then MarkedInvalid
    else Unmarked
  }

  /** Real-time marking agrees with the submit check exactly when the
      value is not empty: an empty value is left unmarked by typing where
      submit marks it invalid. */
  lemma {:induction false} LiveAgreesWithSubmit(username: string, password: string)
    ensures LiveClasses(Utf16Length(Trim(username, JsWhitespace)), 2) == SubmitClasses(UsernameVerdict(username))
        <==> UsernameVerdict(username) != Missing
    ensures LiveClasses(Utf16Length(password), 3) == SubmitClasses(PasswordVerdict(password))
        <==> PasswordVerdict(password) != Missing
    ensures UsernameVerdict(username) == Missing ==> LiveClasses(Utf16Length(Trim(username, JsWhitespace)), 2) == Unmarked
    ensures PasswordVerdict(password) == Missing ==> LiveClasses(Utf16Length(password), 3) == Unmarked
  {
  }

  /** What the validation listener touches: both fields' classes and
      feedback elements and the submit button's loading state. */
  datatype FormMarks = FormMarks(
    usernameClasses: Classes, passwordClasses: Classes,
    usernameFeedback: seq<string>, passwordFeedback: seq<string>, loading: bool)

  /** One field after its submit check: its classes and its feedback
      elements follow the verdict. */
  predicate FieldChecked(v: Verdict, classes: Classes, feedbackBefore: seq<string>, feedbackAfter: seq<string>,
                         missing: string, tooShort: string) {
    classes == SubmitClasses(v) && feedbackAfter == SubmitFeedback(feedbackBefore, v, missing, tooShort)
  }

  /** The validation listener's outcome, given the two verdicts:
      submission is prevented iff one check fails, each field's classes and
      feedback follow its verdict, and the button shows loading iff the
      submit goes ahead (or it already did). */
  predicate Validated(nameVerdict: Verdict, passVerdict: Verdict, before: FormMarks, after: FormMarks, prevented: bool) {
    && (prevented <==> nameVerdict != Accepted || passVerdict != Accepted)
    && FieldChecked(nameVerdict, after.usernameClasses, before.usernameFeedback, after.usernameFeedback,
                    UsernameRequired, UsernameTooShort)
    && FieldChecked(passVerdict, after.passwordClasses, before.passwordFeedback, after.passwordFeedback,
                    PasswordRequired, PasswordTooShort)
    && (after.loading <==> before.loading || !prevented)
  }

  /** The page state: the two inputs and their classes, the feedback
      elements in each input's container, the remember-me box, the password
      field's type, the submit button's loading state and local storage. */
  class LoginPage {
    var username: string
    var password: string
    var usernameClasses: Classes
    var passwordClasses: Classes
    var usernameFeedback: seq<string>
    var passwordFeedback: seq<string>
    var rememberChecked: bool
    var passwordVisible: bool
    var loading: bool
    var storage: map<string, string>

    /** The handlers never leave more than one feedback element per field. */
    ghost predicate Valid()
      reads this
    {
      |usernameFeedback| <= 1 && |passwordFeedback| <= 1
    }

    function Marks(): FormMarks
      reads this
    {
      FormMarks(usernameClasses, passwordClasses, usernameFeedback, passwordFeedback, loading)
    }

    /** Page load: a remembered non-empty username fills the field and
        checks the box. */
    constructor (storage: map<string, string>)
      ensures Valid()
      ensures this.storage == storage && password == [] && !loading && !passwordVisible
      ensures usernameClasses == Unmarked && passwordClasses == Unmarked
      ensures usernameFeedback == [] && passwordFeedback == []
      ensures RememberKey in storage && storage[RememberKey] != [] ==>
        username == storage[RememberKey] && rememberChecked
      ensures !(RememberKey in storage && storage[RememberKey] != []) ==>
        username == [] && !rememberChecked
    {
      this.storage := storage;
      username := [];
      password := [];
      usernameClasses := Unmarked;
      passwordClasses := Unmarked;
      usernameFeedback := [];
      passwordFeedback := [];
      rememberChecked := false;
      passwordVisible := false;
      loading := false;
      if RememberKey in storage && storage[RememberKey] != [] {
        username := storage[RememberKey];
        rememberChecked := true;
      }
    }

    /** The two submit listeners in registration order: validation, which
        may cancel the default action, then remember-me, which runs either
        way. */
    method Submit() returns (prevented: bool)
      requires Valid()
      modifies this
      ensures Valid()
      ensures Validated(UsernameVerdict(old(username)), PasswordVerdict(old(password)), old(Marks()), Marks(), prevented)
      ensures rememberChecked ==> storage == old(storage)[RememberKey := Trim(old(username), JsWhitespace)]
      ensures !rememberChecked ==> storage == old(storage) - {RememberKey}
      ensures username == old(username) && password == old(password)
      ensures rememberChecked == old(rememberChecked) && passwordVisible == old(passwordVisible)
    {
      ghost var name, pass := username, password;
      prevented := ValidateOnSubmit();
      assert username == name && password == pass;
      ghost var marks := Marks();
      RememberOnSubmit();
      assert Marks() == marks;
    }

    /** The validation listener. */
    method ValidateOnSubmit() returns (prevented: bool)
      requires Valid()
      modifies this`usernameClasses, this`passwordClasses, this`usernameFeedback, this`passwordFeedback, this`loading
      ensures Valid()
      ensures Validated(UsernameVerdict(username), PasswordVerdict(password), old(Marks()), Marks(), prevented)
    {
      ghost var before := Marks();
      var nameVerdict := CheckUsernameOnSubmit();
      ghost var nameClasses, nameFeedback := usernameClasses, usernameFeedback;
      var passVerdict := CheckPasswordOnSubmit();
      assert usernameClasses == nameClasses && usernameFeedback == nameFeedback;
      var isValid := nameVerdict == Accepted && passVerdict == Accepted;
      prevented := !isValid;
      if isValid {
        loading := true;
      }
      assert Validated(nameVerdict, passVerdict, before, Marks(), prevented);
    }

    /** The username block of the validation listener. */
    method CheckUsernameOnSubmit() returns (v: Verdict)
      requires Valid()
      modifies this`usernameClasses, this`usernameFeedback, this`passwordFeedback
      ensures Valid() && passwordFeedback == old(passwordFeedback)
      ensures v == UsernameVerdict(username)
      ensures FieldChecked(v, usernameClasses, old(usernameFeedback), usernameFeedback,
                           UsernameRequired, UsernameTooShort)
    {
      usernameClasses := Unmarked;
      var name := Trim(username, JsWhitespace);
      if name == [] {
        usernameClasses := usernameClasses.(invalid := true);
        ShowFieldError(true, UsernameRequired);
        v := Missing;
      } else if Utf16Length(name) < 2 {
        usernameClasses := usernameClasses.(invalid := true);
        ShowFieldError(true, UsernameTooShort);
        v := TooShort;
      } else {
        usernameClasses := usernameClasses.(valid := true);
        v := Accepted;
      }
    }

    /** The password block of the validation listener. */
    method CheckPasswordOnSubmit() returns (v: Verdict)
      requires Valid()
      modifies this`passwordClasses, this`usernameFeedback, this`passwordFeedback
      ensures Valid() && usernameFeedback == old(usernameFeedback)
      ensures v == PasswordVerdict(password)
      ensures FieldChecked(v, passwordClasses, old(passwordFeedback), passwordFeedback,
                           PasswordRequired, PasswordTooShort)
    {
      passwordClasses := Unmarked;
      if password == [] {
        passwordClasses := passwordClasses.(invalid := true);
        ShowFieldError(false, PasswordRequired);
        v := Missing;
      } else if Utf16Length(password) < 3 {
        passwordClasses := passwordClasses.(invalid := true);
        ShowFieldError(false, PasswordTooShort);
        v := TooShort;
      } else {
        passwordClasses := passwordClasses.(valid := true);
        v := Accepted;
      }
    }

    /** The remember-me listener: store the trimmed username when the box
        is checked, drop the entry otherwise. */
    method RememberOnSubmit()
      modifies this`storage
      ensures rememberChecked ==> storage == old(storage)[RememberKey := Trim(username, JsWhitespace)]
      ensures !rememberChecked ==> storage == old(storage) - {RememberKey}
    {
      if rememberChecked {
        storage := storage[RememberKey := Trim(username, JsWhitespace)];
      } else {
        storage := storage - {RememberKey};
      }
    }

    /** showFieldError on the username field (`onUsername`) or the password
        field: afterwards the field's container holds exactly one feedback
        element, carrying the message. */
    method ShowFieldError(onUsername: bool, message: string)
      requires Valid()
      modifies this`usernameFeedback, this`passwordFeedback
      ensures Valid()
      ensures onUsername ==>
        (usernameFeedback == WithError(old(usernameFeedback), message) == [message]
         && passwordFeedback == old(passwordFeedback))
      ensures !onUsername ==>
        (passwordFeedback == WithError(old(passwordFeedback), message) == [message]
         && usernameFeedback == old(usernameFeedback))
    {
      if onUsername {
        var remaining := if usernameFeedback != [] then usernameFeedback[1..] else usernameFeedback;
        usernameFeedback := remaining + [message];
      } else {
        var remaining := if passwordFeedback != [] then passwordFeedback[1..] else passwordFeedback;
        passwordFeedback := remaining + [message];
      }
    }

    /** Input on the username field: the trimmed length against 2. */
    method UsernameInput(value: string)
      modifies this`username, this`usernameClasses
      ensures username == value
      ensures usernameClasses == LiveClasses(Utf16Length(Trim(value, JsWhitespace)), 2)
    {
      username := value;
      var trimmed := Trim(value, JsWhitespace);
      if Utf16Length(trimmed) >= 2 {
        usernameClasses := usernameClasses.(invalid := false).(valid := true);
      } else if Utf16Length(trimmed) > 0 {
        usernameClasses := usernameClasses.(valid := false).(invalid := true);
      } else {
        usernameClasses := Unmarked;
      }
    }

    /** Input on the password field: the raw length against 3. */
    method PasswordInput(value: string)
      modifies this`password, this`passwordClasses
      ensures password == value
      ensures passwordClasses == LiveClasses(Utf16Length(value), 3)
    {
      password := value;
      if Utf16Length(value) >= 3 {
        passwordClasses := passwordClasses.(invalid := false).(valid := true);
      } else if Utf16Length(value) > 0 {
        passwordClasses := passwordClasses.(valid := false).(invalid := true);
      } else {
        passwordClasses := Unmarked;
      }
    }

    /** clearForm: empty inputs, unchecked box, no classes, no feedback. */
    method ClearForm()
      modifies this
      ensures Valid()
      ensures username == [] && password == [] && !rememberChecked
      ensures usernameClasses == Unmarked && passwordClasses == Unmarked
      ensures usernameFeedback == [] && passwordFeedback == []
      ensures storage == old(storage) && loading == old(loading) && passwordVisible == old(passwordVisible)
    {
      username := [];
      password := [];
      rememberChecked := false;
      usernameClasses := Unmarked;
      passwordClasses := Unmarked;
      usernameFeedback := [];
      passwordFeedback := [];
    }

    /** The keyboard shortcuts. Enter in either input submits the form
        natively when the browser's constraint check (`formValid`) passes;
        that bypasses both submit listeners, so `nativeSubmit` reports it
        and nothing else changes. Escape clears the form. */
    method KeyDown(key: string, inField: bool, formValid: bool) returns (nativeSubmit: bool)
      requires Valid()
      modifies this
      ensures Valid()
      ensures nativeSubmit <==> key == "Enter" && inField && formValid
      ensures key == "Escape" ==>
        (&& username == [] && password == [] && !rememberChecked
         && usernameClasses == Unmarked && passwordClasses == Unmarked
         && usernameFeedback == [] && passwordFeedback == [] && storage == old(storage))
      ensures key != "Escape" ==> unchanged(this)
    {
      nativeSubmit := false;
      if key == "Enter" && inField {
        if formValid {
          nativeSubmit := true;
        }
      }
      if key == "Escape" {
        ClearForm();
      }
    }

    /** A click on the demo card fills the admin account only when it lands
        in the first column. */
    method DemoCardClick(inFirstColumn: bool)
      modifies this`username, this`password
      ensures inFirstColumn ==> username == "admin" && password == "admin123"
      ensures !inFirstColumn ==> username == old(username) && password == old(password)
    {
      if inFirstColumn {
        username := "admin";
        password := "admin123";
      }
    }

    /** The eye button switches the password field between hidden and shown. */
    method TogglePassword()
      modifies this`passwordVisible
      ensures passwordVisible == !old(passwordVisible)
    {
      if !passwordVisible {
        passwordVisible := true;
      } else {
        passwordVisible := false;
      }
    }
  }

  /** With the box checked, a submit followed by a reload brings back the
      trimmed username and the checked box; an empty trimmed name is stored
      but not restored. */
  method RememberRoundTrip(name: string, pass: string, storage: map<string, string>)
    returns (restored: string, checked: bool)
    ensures Trim(name, JsWhitespace) != [] ==> restored == Trim(name, JsWhitespace) && checked
    ensures Trim(name, JsWhitespace) == [] ==> restored == [] && !checked
  {
    var page := new LoginPage(storage);
    page.username := name;
    page.password := pass;
    page.rememberChecked := true;
    var _ := page.Submit();
    var reloaded := new LoginPage(page.storage);
    restored := reloaded.username;
    checked := reloaded.rememberChecked;
  }
}
