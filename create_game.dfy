/** The create-game form: the live preview, the quick time and location
    buttons, per-field validation through the browser's constraint check,
    the not-in-the-past date check, the submit and validate-all passes,
    template population, the form-data snapshot, the keyboard shortcuts and
    the reset. */
module CreateGame {
  import opened Wrappers
  import opened Text
  import opened FieldMarks
  import opened GameFilter

  /** The six inputs the form script looks up by id. */
  datatype FieldName = Title | Date | Time | Location | Description | MaxPlayers

  const AllFields: set<FieldName> := {Title, Date, Time, Location, Description, MaxPlayers}

  /** The values of the six inputs; None when the element is missing. */
  datatype Inputs = Inputs(
    title: Option<string>, date: Option<string>, time: Option<string>,
    location: Option<string>, description: Option<string>, maxPlayers: Option<string>)

  function Get(inputs: Inputs, f: FieldName): Option<string> {
    match f
    case Title => inputs.title
    case Date => inputs.date
    case Time => inputs.time
    case Location => inputs.location
    case Description => inputs.description
    case MaxPlayers => inputs.maxPlayers
  }

  lemma {:induction false} InAllFields(f: FieldName)
    ensures f in AllFields
  {
    match f
    case Title =>
    case Date =>
    case Time =>
    case Location =>
    case Description =>
    case MaxPlayers =>
  }

  /** Assigning an input's value; a missing element stays missing. */
  function Put(inputs: Inputs, f: FieldName, v: string): (r: Inputs)
    ensures Get(r, f) == if Get(inputs, f).Some? then Some(v) else None
    ensures forall g :: g != f ==> Get(r, g) == Get(inputs, g)
  {
    if Get(inputs, f).None? then inputs
    else match f
      case Title => inputs.(title := Some(v))
      case Date => inputs.(date := Some(v))
      case Time => inputs.(time := Some(v))
      case Location => inputs.(location := Some(v))
      case Description => inputs.(description := Some(v))
      case MaxPlayers => inputs.(maxPlayers := Some(v))
  }

  /** `input?.value` is truthy: the element exists and its value is not empty. */
  predicate Truthy(v: Option<string>) {
    v.Some? && v.value != []
  }

  /** `input?.value || fallback` */
  function OrElse(v: Option<string>, fallback: string): string {
    if Truthy(v) then v.value else fallback
  }

  const TitlePlaceholder := "כותרת המשחק תופיע כאן"
  const DatePlaceholder := "תאריך יופיע כאן"
  const TimePlaceholder := "שעה תופיע כאן"
  const LocationPlaceholder := "מיקום יופיע כאן"
  const DescriptionPlaceholder := "תיאור המשחק יופיע כאן..."
  const DefaultMaxPlayers := "10"
  const DateInPastMessage := "התאריך חייב להיות בעתיד"

  /** A preview text: literal text, or a date the browser renders with
      toLocaleDateString, which this model leaves abstract. */
  datatype PreviewText = Plain(text: string) | LocaleDate(iso: string)

  datatype Preview = Preview(
    title: PreviewText, date: PreviewText, time: PreviewText,
    location: PreviewText, description: PreviewText, maxPlayers: PreviewText)

  /** What updatePreview writes into the six preview elements. */
  function PreviewOf(inputs: Inputs): Preview {
    Preview(
      Plain(OrElse(inputs.title, TitlePlaceholder)),
      if Truthy(inputs.date) then LocaleDate(inputs.date.value) else Plain(DatePlaceholder),
      Plain(OrElse(inputs.time, TimePlaceholder)),
      Plain(OrElse(inputs.location, LocationPlaceholder)),
      Plain(OrElse(inputs.description, DescriptionPlaceholder)),
      Plain(OrElse(inputs.maxPlayers, DefaultMaxPlayers)))
  }

  /** Each preview element shows its input's value, or its fixed
      placeholder when the input is missing or empty; the date is shown
      through the browser's date formatting. */
  lemma {:induction false} PreviewShowsValueOrPlaceholder(inputs: Inputs)
    ensures var p := PreviewOf(inputs);
      && p.title == (if Truthy(inputs.title) then Plain(inputs.title.value) else Plain(TitlePlaceholder))
      && p.date == (if Truthy(inputs.date) then LocaleDate(inputs.date.value) else Plain(DatePlaceholder))
      && p.time == (if Truthy(inputs.time) then Plain(inputs.time.value) else Plain(TimePlaceholder))
      && p.location == (if Truthy(inputs.location) then Plain(inputs.location.value) else Plain(LocationPlaceholder))
      && p.description == (if Truthy(inputs.description) then Plain(inputs.description.value) else Plain(DescriptionPlaceholder))
      && p.maxPlayers == (if Truthy(inputs.maxPlayers) then Plain(inputs.maxPlayers.value) else Plain(DefaultMaxPlayers))
  {
  }

  /** getFormData's result. */
  datatype FormData = FormData(
    title: string, date: string, time: string,
    location: string, description: string, maxPlayers: string)

  function GetFormData(inputs: Inputs): FormData {
    FormData(
      OrElse(inputs.title, ""), OrElse(inputs.date, ""), OrElse(inputs.time, ""),
      OrElse(inputs.location, ""), OrElse(inputs.description, ""),
      OrElse(inputs.maxPlayers, DefaultMaxPlayers))
  }

  /** Missing and empty inputs both read as '', except max players, which
      reads as '10'; a present non-empty value is passed through. */
  lemma {:induction false} FormDataDefaults(inputs: Inputs)
    ensures GetFormData(inputs).title == (if inputs.title.Some? then inputs.title.value else "")
    ensures GetFormData(inputs).date == (if inputs.date.Some? then inputs.date.value else "")
    ensures GetFormData(inputs).maxPlayers != []
    ensures GetFormData(inputs).maxPlayers == (if Truthy(inputs.maxPlayers) then inputs.maxPlayers.value else "10")
  {
  }

  /** A template object; None for an undefined or null property. */
  datatype Template = Template(title: Option<string>, location: Option<string>, description: Option<string>, time: Option<string>)

  /** populateFromTemplate's assignments. */
  function Populate(inputs: Inputs, t: Template): Inputs {
    var a := if Truthy(t.title) then Put(inputs, Title, t.title.value) else inputs;
    var b := if Truthy(t.location) then Put(a, Location, t.location.value) else a;
    var c := if Truthy(t.description) then Put(b, Description, t.description.value) else b;
    if Truthy(t.time) then Put(c, Time, t.time.value) else c
  }

  /** Only inputs whose template value is truthy are overwritten, missing
      elements stay missing, and the date and max players are never touched. */
  lemma {:induction false} PopulateOverwritesOnlyTruthy(inputs: Inputs, t: Template)
    ensures var r := Populate(inputs, t);
      && r.date == inputs.date && r.maxPlayers == inputs.maxPlayers
      && r.title == (if Truthy(t.title) && inputs.title.Some? then t.title else inputs.title)
      && r.location == (if Truthy(t.location) && inputs.location.Some? then t.location else inputs.location)
      && r.description == (if Truthy(t.description) && inputs.description.Some? then t.description else inputs.description)
      && r.time == (if Truthy(t.time) && inputs.time.Some? then t.time else inputs.time)
  {
  }

  /** The local midnight starting the day of `now` (setHours(0, 0, 0, 0)). */
  function Midnight(now: int): int {
    now - now % MsPerDay
  }

  /** The date check: the selected date may not lie before today's
      midnight; an unparseable date compares false and passes. */
  predicate DateNotPast(selected: Option<int>, now: int) {
    selected.None? || !(selected.value < Midnight(now))
  }

  /** Any instant of today passes, even one earlier than now; the instant
      before midnight does not. */
  lemma {:induction false} DateCheckBoundary(now: int, t: int)
    requires CalendarDay(t) == CalendarDay(now)
    ensures DateNotPast(Some(t), now)
    ensures !DateNotPast(Some(Midnight(now) - 1), now)
    ensures DateNotPast(None, now)
  {
  }

  /** The form. The native constraint check of each input (`required`,
      `min`, `pattern` and so on) is an opaque input `native`; the date
      input's custom validity message, set by the date check, is state. */
  class CreateGameForm {
    var inputs: Inputs
    var preview: Preview
    var classes: map<FieldName, Classes>
    var dateCustomError: string
    var minDate: string
    var loading: bool
    const requiredFields: seq<FieldName>
    /** data-time of each quick time button, and its btn-primary flag. */
    const timeButtons: seq<Option<string>>
    const timePrimary: array<bool>
    /** data-location of each quick location button, and its btn-info flag. */
    const locationButtons: seq<Option<string>>
    const locationInfo: array<bool>
    /** `new Date(value)` on the date input's value. */
    const parseDate: string -> Option<int>

    ghost predicate Valid()
      reads this
    {
      && timePrimary.Length == |timeButtons|
      && locationInfo.Length == |locationButtons|
      && timePrimary != locationInfo
      && classes.Keys == AllFields
      && preview == PreviewOf(inputs)
    }

    /** field.checkValidity() */
    function CheckValidity(f: FieldName, native: FieldName -> bool): bool
      reads this`dateCustomError
    {
      native(f) && (f != Date || dateCustomError == [])
    }

    /** The classes validateField leaves on a present element. */
    function MarkFor(f: FieldName, native: FieldName -> bool): Classes
      reads this`dateCustomError
    {
      if CheckValidity(f, native) then MarkedValid else MarkedInvalid
    }

    /** The first n required elements exist and pass their constraint check. */
    predicate PassUpTo(n: nat, native: FieldName -> bool)
      requires n <= |requiredFields|
      reads this`inputs, this`dateCustomError
    {
      forall k :: 0 <= k < n ==>
        Get(inputs, requiredFields[k]).Some? && CheckValidity(requiredFields[k], native)
    }

    /** Every required element exists and passes its constraint check. */
    predicate RequiredPass(native: FieldName -> bool)
      reads this`inputs, this`dateCustomError
    {
      PassUpTo(|requiredFields|, native)
    }

    /** The date check passes, or there is no date input. */
    predicate DatePass(now: int)
      reads this`inputs
    {
      inputs.date.Some? ==> DateNotPast(parseDate(inputs.date.value), now)
    }

    /** initializeForm: `min` is today's date, an empty date defaults to
        tomorrow's date, and the preview is filled. */
    constructor (inputs: Inputs, requiredFields: seq<FieldName>,
                 timeButtons: seq<Option<string>>, locationButtons: seq<Option<string>>,
                 parseDate: string -> Option<int>, todayIso: string, tomorrowIso: string)
      ensures Valid() && fresh(timePrimary) && fresh(locationInfo)
      ensures this.requiredFields == requiredFields && this.timeButtons == timeButtons
      ensures this.locationButtons == locationButtons && this.parseDate == parseDate
      ensures inputs.date.Some? && inputs.date.value == [] ==> this.inputs == inputs.(date := Some(tomorrowIso))
      ensures !(inputs.date.Some? && inputs.date.value == []) ==> this.inputs == inputs
      ensures inputs.date.Some? ==> minDate == todayIso
      ensures forall f :: f in AllFields ==> classes[f] == Unmarked
      ensures dateCustomError == [] && !loading
    {
      this.inputs := inputs;
      this.requiredFields := requiredFields;
      this.timeButtons := timeButtons;
      this.locationButtons := locationButtons;
      this.parseDate := parseDate;
      timePrimary := new bool[|timeButtons|](_ => false);
      locationInfo := new bool[|locationButtons|](_ => false);
      classes := map f | f in AllFields :: Unmarked;
      dateCustomError := [];
      loading := false;
      minDate := [];
      new;
      if inputs.date.Some? {
        minDate := todayIso;
        if inputs.date.value == [] {
          this.inputs := inputs.(date := Some(tomorrowIso));
        }
      }
      preview := PreviewOf(this.inputs);
    }

    /** updatePreview */
    method UpdatePreview()
      modifies this`preview
      ensures preview == PreviewOf(inputs)
    {
      preview := PreviewOf(inputs);
    }

    /** validateField: a missing element is invalid and unmarked; otherwise
        the element is marked by its constraint check. */
    method ValidateField(f: FieldName, native: FieldName -> bool) returns (ok: bool)
      requires Valid()
      modifies this`classes
      ensures Valid()
      ensures ok <==> Get(inputs, f).Some? && CheckValidity(f, native)
      ensures Get(inputs, f).None? ==> classes == old(classes)
      ensures Get(inputs, f).Some? ==>
        classes == old(classes)[f := if ok then MarkedValid else MarkedInvalid]
    {
      if Get(inputs, f).None? {
        return false;
      }
      if native(f) && (f != Date || dateCustomError == []) {
        classes := classes[f := classes[f].(invalid := false).(valid := true)];
        ok := true;
      } else {
        classes := classes[f := classes[f].(valid := false).(invalid := true)];
        ok := false;
      }
    }

    /** validateDate: set or clear the custom message, then mark the date
        input. Without a date input the check passes. */
    method ValidateDate(now: int, native: FieldName -> bool) returns (ok: bool)
      requires Valid()
      modifies this`classes, this`dateCustomError
      ensures Valid()
      ensures inputs.date.None? ==> ok && classes == old(classes) && dateCustomError == old(dateCustomError)
      ensures inputs.date.Some? ==>
        && (ok <==> DateNotPast(parseDate(inputs.date.value), now))
        && dateCustomError == (if ok then "" else DateInPastMessage)
        && classes == old(classes)[Date := if ok && native(Date) then MarkedValid else MarkedInvalid]
    {
      if inputs.date.None? {
        return true;
      }
      var selected := parseDate(inputs.date.value);
      var today := Midnight(now);
      if selected.Some? && selected.value < today {
        dateCustomError := DateInPastMessage;
        var _ := ValidateField(Date, native);
        ok := false;
      } else {
        dateCustomError := "";
        var _ := ValidateField(Date, native);
        ok := true;
      }
    }

    /** The forEach over the [required] elements, shared by the submit
        handler and validateAll: every element is marked, and the pass
        fails if any element fails. */
    method ValidateRequired(native: FieldName -> bool) returns (allValid: bool)
      requires Valid()
      modifies this`classes
      ensures Valid()
      ensures allValid <==> RequiredPass(native)
      ensures forall f :: f in AllFields ==>
        classes[f] == (if f in requiredFields && Get(inputs, f).Some? then MarkFor(f, native) else old(classes)[f])
    {
      allValid := true;
      var i := 0;
      while i < |requiredFields|
        invariant 0 <= i <= |requiredFields|
        invariant Valid()
        invariant allValid <==> PassUpTo(i, native)
        invariant classes == MarkedUpTo(i, native, old(classes))
      {
        var ok := ValidateField(requiredFields[i], native);
        if !ok {
          allValid := false;
        }
        i := i + 1;
      }
      assert requiredFields[..i] == requiredFields;
      forall f | f in AllFields
        ensures classes[f] == (if f in requiredFields && Get(inputs, f).Some? then MarkFor(f, native) else old(classes)[f])
      {
        MarkedUpToField(i, native, old(classes), f);
      }
    }

    /** The classes after the first n required elements were validated,
        starting from `base`. */
    ghost function MarkedUpTo(n: nat, native: FieldName -> bool, base: map<FieldName, Classes>): map<FieldName, Classes>
      requires n <= |requiredFields|
      reads this`inputs, this`dateCustomError
    {
      if n == 0 then base
      else
        var f := requiredFields[n - 1];
        var m := MarkedUpTo(n - 1, native, base);
        if Get(inputs, f).Some? then m[f := MarkFor(f, native)] else m
    }

    /** An element among the first n required ones that exists carries its
        mark; every other element keeps its classes. */
    lemma {:induction false} MarkedUpToField(n: nat, native: FieldName -> bool, base: map<FieldName, Classes>, f: FieldName)
      requires n <= |requiredFields| && f in base
      ensures f in MarkedUpTo(n, native, base)
      ensures MarkedUpTo(n, native, base)[f] ==
        (if f in requiredFields[..n] && Get(inputs, f).Some? then MarkFor(f, native) else base[f])
    {
      if n > 0 {
        MarkedUpToField(n - 1, native, base, f);
        assert requiredFields[..n] == requiredFields[..n - 1] + [requiredFields[n - 1]];
      }
    }

    /** handleFormSubmit: the required pass, then the date check; an
        invalid form is not submitted, a valid one shows the loading state. */
    method HandleFormSubmit(now: int, native: FieldName -> bool) returns (prevented: bool)
      requires Valid()
      modifies this`classes, this`dateCustomError, this`loading
      ensures Valid()
      ensures prevented <==> !(old(RequiredPass(native)) && DatePass(now))
      ensures loading <==> old(loading) || !prevented
      ensures inputs.date.Some? ==> dateCustomError == (if DatePass(now) then "" else DateInPastMessage)
      ensures inputs.date.None? ==> dateCustomError == old(dateCustomError)
      ensures forall f :: f in AllFields && f != Date ==>
        classes[f] == (if f in requiredFields && Get(inputs, f).Some?
          then (if native(f) then MarkedValid else MarkedInvalid) else old(classes)[f])
      ensures inputs.date.Some? ==>
        classes[Date] == (if DatePass(now) && native(Date) then MarkedValid else MarkedInvalid)
      ensures inputs.date.None? ==> classes[Date] == old(classes)[Date]
    {
      var isValid := ValidateRequired(native);
      var dateOk := ValidateDate(now, native);
      if !dateOk {
        isValid := false;
      }
      prevented := !isValid;
      if isValid {
        loading := true;
      }
    }

    /** validateAll: the same two checks, reporting instead of blocking. */
    method ValidateAll(now: int, native: FieldName -> bool) returns (isValid: bool)
      requires Valid()
      modifies this`classes, this`dateCustomError
      ensures Valid()
      ensures isValid <==> old(RequiredPass(native)) && DatePass(now)
      ensures inputs.date.Some? ==> dateCustomError == (if DatePass(now) then "" else DateInPastMessage)
      ensures inputs.date.None? ==> dateCustomError == old(dateCustomError)
      ensures forall f :: f in AllFields && f != Date ==>
        classes[f] == (if f in requiredFields && Get(inputs, f).Some?
          then (if native(f) then MarkedValid else MarkedInvalid) else old(classes)[f])
      ensures inputs.date.Some? ==>
        classes[Date] == (if DatePass(now) && native(Date) then MarkedValid else MarkedInvalid)
      ensures inputs.date.None? ==> classes[Date] == old(classes)[Date]
    {
      isValid := ValidateRequired(native);
      var dateOk := ValidateDate(now, native);
      if !dateOk {
        isValid := false;
      }
    }

    /** A quick time button: with a data-time and a time input, the input
        takes the time, the preview follows, the input is validated and
        exactly this button is highlighted; otherwise nothing changes. */
    method HandleTimeButtonClick(k: nat, native: FieldName -> bool)
      requires Valid() && k < |timeButtons|
      modifies this`inputs, this`preview, this`classes, timePrimary
      ensures Valid()
      ensures Truthy(timeButtons[k]) && old(inputs).time.Some? ==>
        && inputs == old(inputs).(time := timeButtons[k])
        && (forall j :: 0 <= j < timePrimary.Length ==> timePrimary[j] == (j == k))
        && classes == old(classes)[Time := if CheckValidity(Time, native) then MarkedValid else MarkedInvalid]
      ensures !(Truthy(timeButtons[k]) && old(inputs).time.Some?) ==>
        inputs == old(inputs) && classes == old(classes) && timePrimary[..] == old(timePrimary[..])
    {
      var time := timeButtons[k];
      if inputs.time.Some? && Truthy(time) {
        inputs := inputs.(time := time);
        UpdatePreview();
        var _ := ValidateField(Time, native);
        HighlightOnly(timePrimary, k);
      }
    }

    /** A quick location button, the same way with btn-info. */
    method HandleLocationButtonClick(k: nat, native: FieldName -> bool)
      requires Valid() && k < |locationButtons|
      modifies this`inputs, this`preview, this`classes, locationInfo
      ensures Valid()
      ensures Truthy(locationButtons[k]) && old(inputs).location.Some? ==>
        && inputs == old(inputs).(location := locationButtons[k])
        && (forall j :: 0 <= j < locationInfo.Length ==> locationInfo[j] == (j == k))
        && classes == old(classes)[Location := if CheckValidity(Location, native) then MarkedValid else MarkedInvalid]
      ensures !(Truthy(locationButtons[k]) && old(inputs).location.Some?) ==>
        inputs == old(inputs) && classes == old(classes) && locationInfo[..] == old(locationInfo[..])
    {
      var location := locationButtons[k];
      if inputs.location.Some? && Truthy(location) {
        inputs := inputs.(location := location);
        UpdatePreview();
        var _ := ValidateField(Location, native);
        HighlightOnly(locationInfo, k);
      }
    }

    /** Typing into an input: the preview follows; a required input with a
        non-blank value is validated; a date change runs the date check. */
    method Input(f: FieldName, v: string, now: int, native: FieldName -> bool)
      requires Valid()
      modifies this`inputs, this`preview, this`classes, this`dateCustomError
      ensures Valid()
      ensures inputs == Put(old(inputs), f, v)
      ensures preview == PreviewOf(inputs)
      ensures f != Date ==> dateCustomError == old(dateCustomError)
      ensures f != Date ==>
        classes == (if f in requiredFields && Trim(v, JsWhitespace) != [] && Get(old(inputs), f).Some?
          then old(classes)[f := if native(f) then MarkedValid else MarkedInvalid] else old(classes))
      ensures f == Date && old(inputs).date.Some? ==>
        && dateCustomError == (if DatePass(now) then "" else DateInPastMessage)
        && classes == old(classes)[Date := if DatePass(now) && native(Date) then MarkedValid else MarkedInvalid]
      ensures f == Date && old(inputs).date.None? ==>
        classes == old(classes) && dateCustomError == old(dateCustomError)
    {
      inputs := Put(inputs, f, v);
      UpdatePreview();
      if f in requiredFields && Trim(v, JsWhitespace) != [] {
        var _ := ValidateField(f, native);
      }
      if f == Date {
        var _ := ValidateDate(now, native);
      }
    }

    /** The keyboard shortcuts: Ctrl or Cmd with Enter requests a submit;
        Escape empties the focused input or textarea and refreshes the
        preview. `focused` is the focused one of the six inputs, if any. */
    method KeyDown(key: string, ctrlOrMeta: bool, focused: Option<FieldName>) returns (requestSubmit: bool)
      requires Valid()
      modifies this`inputs, this`preview
      ensures Valid()
      ensures requestSubmit <==> ctrlOrMeta && key == "Enter"
      ensures key == "Escape" && focused.Some? ==> inputs == Put(old(inputs), focused.value, "")
      ensures !(key == "Escape" && focused.Some?) ==> inputs == old(inputs)
    {
      requestSubmit := false;
      if ctrlOrMeta && key == "Enter" {
        requestSubmit := true;
      }
      if key == "Escape" && focused.Some? {
        inputs := Put(inputs, focused.value, "");
        UpdatePreview();
      }
    }

    /** populateFromTemplate */
    method PopulateFromTemplate(t: Template)
      requires Valid()
      modifies this`inputs, this`preview
      ensures Valid()
      ensures inputs == Populate(old(inputs), t)
    {
      ghost var before := inputs;
      PopulateOverwritesOnlyTruthy(before, t);
      if Truthy(t.title) && inputs.title.Some? {
        inputs := inputs.(title := t.title);
      }
      if Truthy(t.location) && inputs.location.Some? {
        inputs := inputs.(location := t.location);
      }
      if Truthy(t.description) && inputs.description.Some? {
        inputs := inputs.(description := t.description);
      }
      if Truthy(t.time) && inputs.time.Some? {
        inputs := inputs.(time := t.time);
      }
      UpdatePreview();
    }

    /** resetForm: the inputs return to their default values, the required
        inputs lose their marks and no quick button stays highlighted. */
    method ResetForm(defaults: Inputs)
      requires Valid()
      modifies this`inputs, this`preview, this`classes, timePrimary, locationInfo
      ensures Valid()
      ensures inputs == defaults
      ensures forall f :: f in AllFields ==> classes[f] == (if f in requiredFields then Unmarked else old(classes)[f])
      ensures forall j :: 0 <= j < timePrimary.Length ==> !timePrimary[j]
      ensures forall j :: 0 <= j < locationInfo.Length ==> !locationInfo[j]
    {
      inputs := defaults;
      UpdatePreview();
      var i := 0;
      while i < |requiredFields|
        invariant 0 <= i <= |requiredFields|
        invariant Valid() && inputs == defaults
        invariant forall f :: f in AllFields ==> classes[f] == (if f in requiredFields[..i] then Unmarked else old(classes)[f])
      {
        InAllFields(requiredFields[i]);
        classes := classes[requiredFields[i] := Unmarked];
        assert requiredFields[..i + 1] == requiredFields[..i] + [requiredFields[i]];
        i := i + 1;
      }
      assert requiredFields[..i] == requiredFields;
      ClearAll(timePrimary);
      ClearAll(locationInfo);
    }
  }

  /** Remove the class from every button, then add it to button k. */
  method HighlightOnly(flags: array<bool>, k: nat)
    requires k < flags.Length
    modifies flags
    ensures forall j :: 0 <= j < flags.Length ==> flags[j] == (j == k)
  {
    ClearAll(flags);
    flags[k] := true;
  }

  method ClearAll(flags: array<bool>)
    modifies flags
    ensures forall j :: 0 <= j < flags.Length ==> !flags[j]
  {
    var i := 0;
    while i < flags.Length
      invariant 0 <= i <= flags.Length
      invariant forall j :: 0 <= j < i ==> !flags[j]
    {
      flags[i] := false;
      i := i + 1;
    }
  }
}
