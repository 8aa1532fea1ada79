/**
 The contact form store: five text fields, which of them the user has
 touched, the error shown for each touched field and whether the whole
 form is valid. Every transition builds the next state from the previous
 one.
 */
module Form {
  import opened Formats

  datatype Field = FirstName | LastName | Email | Phone | TimeSlot

  /** The fields in the order the form object declares them. */
  const FieldOrder: seq<Field> := [FirstName, LastName, Email, Phone, TimeSlot]

  datatype FormData = FormData(firstName: string, lastName: string, email: string, phone: string, timeSlot: string)

  datatype Touched = Touched(firstName: bool, lastName: bool, email: bool, phone: bool, timeSlot: bool)

  datatype Option<T> = None | Some(value: T)

  /** The reasons a field is refused; `Message` gives the text shown. */
  datatype FieldError = Required | TooShort | TooLong | InvalidEmail | InvalidPhone | NoSlotChosen

  datatype Validation = Validation(errors: map<Field, FieldError>, isValid: bool)

  datatype FormState = FormState(
    data: FormData,
    errors: map<Field, FieldError>,
    isValid: bool,
    isSubmitting: bool,
    touched: Touched)

  lemma FieldOrderCovers(f: Field)
    ensures f in FieldOrder
  {
  }

  function Value(d: FormData, f: Field): string {
    match f
    case FirstName => d.firstName
    case LastName => d.lastName
    case Email => d.email
    case Phone => d.phone
    case TimeSlot => d.timeSlot
  }

  /** `{ ...d, [f]: v }`: field `f` becomes `v`, the others stay. */
  function WithValue(d: FormData, f: Field, v: string): (r: FormData)
    ensures Value(r, f) == v
    ensures forall g :: g != f ==> Value(r, g) == Value(d, g)
  {
    match f
    case FirstName => d.(firstName := v)
    case LastName => d.(lastName := v)
    case Email => d.(email := v)
    case Phone => d.(phone := v)
    case TimeSlot => d.(timeSlot := v)
  }

  function IsTouched(t: Touched, f: Field): bool {
    match f
    case FirstName => t.firstName
    case LastName => t.lastName
    case Email => t.email
    case Phone => t.phone
    case TimeSlot => t.timeSlot
  }

  /** `{ ...t, [f]: true }`: field `f` is now touched, the others stay. */
  function Touch(t: Touched, f: Field): (r: Touched)
    ensures IsTouched(r, f)
    ensures forall g :: g != f ==> IsTouched(r, g) == IsTouched(t, g)
  {
    match f
    case FirstName => t.(firstName := true)
    case LastName => t.(lastName := true)
    case Email => t.(email := true)
    case Phone => t.(phone := true)
    case TimeSlot => t.(timeSlot := true)
  }

  const EmptyData: FormData := FormData("", "", "", "", "")
  const NoneTouched: Touched := Touched(false, false, false, false, false)
  const AllTouched: Touched := Touched(true, true, true, true, true)

  /** The text displayed for each error. */
  function Message(e: FieldError): string {
    match e
    case Required => "Ce champ est requis"
    case TooShort => "Minimum 2 caractères"
    case TooLong => "Maximum 50 caractères"
    case InvalidEmail => "Email invalide"
    case InvalidPhone => "Format de téléphone invalide (ex: (XXX) XXX-XXXX)"
    case NoSlotChosen => "Veuillez sélectionner un créneau"
  }

  /** Each kind of error has its own text. */
  lemma MessagesDistinct(a: FieldError, b: FieldError)
    requires a != b
    ensures Message(a) != Message(b)
  {
  }

  /**
   What each field accepts, stated without the regular expressions: a name
   of 2 to 50 characters, an address `A@B.C`, a phone number as the
   left-to-right scan reads it, any chosen slot.
   */
  ghost predicate Acceptable(f: Field, v: string) {
    match f
    case FirstName => 2 <= |v| <= 50
    case LastName => 2 <= |v| <= 50
    case Email => EmailShape(v)
    case Phone => PhoneShape(v)
    case TimeSlot => v != ""
  }

  /** The error for one field's value, or `None` when the value is accepted. */
  function ValidateField(f: Field, v: string): (r: Option<FieldError>)
    ensures r.None? <==> Acceptable(f, v)
    ensures f != TimeSlot ==> (r == Some(Required) <==> v == "")
    ensures (f == FirstName || f == LastName) ==>
      (r == Some(TooShort) <==> |v| == 1) && (r == Some(TooLong) <==> |v| > 50)
    ensures f == Email ==> (r == Some(InvalidEmail) <==> v != "" && !EmailShape(v))
    ensures f == Phone ==> (r == Some(InvalidPhone) <==> v != "" && !PhoneShape(v))
    ensures f == TimeSlot ==> (r.Some? <==> v == "") && (r.Some? ==> r.value == NoSlotChosen)
  {
    EmailPatternIff(v);
    PhonePatternIff(v);
    match f
    case FirstName | LastName =>
      if v == "" then Some(Required)
      else if |v| < 2 then Some(TooShort)
      else if |v| > 50 then Some(TooLong)
      else None
    case Email =>
      if v == "" then Some(Required)
      else if !IsEmail(v) then Some(InvalidEmail)
      else None
    case Phone =>
      if v == "" then Some(Required)
      else if !IsPhone(v) then Some(InvalidPhone)
      else None
    case TimeSlot =>
      if v == "" then Some(NoSlotChosen)
      else None
  }

  /**
   Walks `fields` in order and records the error of every touched field
   that has one.
   */
  function Collect(fields: seq<Field>, d: FormData, t: Touched): (errors: map<Field, FieldError>)
    ensures forall f :: f in errors <==> f in fields && IsTouched(t, f) && !Acceptable(f, Value(d, f))
    ensures forall f :: f in errors ==> Some(errors[f]) == ValidateField(f, Value(d, f))
  {
    if |fields| == 0 then map[]
    else
      var n := |fields| - 1;
      var front := Collect(fields[..n], d, t);
      var f := fields[n];
      assert fields == fields[..n] + [f];
      if IsTouched(t, f) then
        match ValidateField(f, Value(d, f))
        case Some(e) => front[f := e]
        case None => front
      else front
  }

  /** The errors of the touched fields, keyed by field. */
  function ValidateForm(d: FormData, t: Touched): (errors: map<Field, FieldError>)
    ensures forall f :: f in errors <==> IsTouched(t, f) && !Acceptable(f, Value(d, f))
    ensures forall f :: f in errors ==> Some(errors[f]) == ValidateField(f, Value(d, f))
  {
    forall f: Field ensures f in FieldOrder {
      FieldOrderCovers(f);
    }
    Collect(FieldOrder, d, t)
  }

  /** The form is valid when no field, touched or not, has an error. */
  function HasErrors(d: FormData): (b: bool)
    ensures !b <==> forall f :: Acceptable(f, Value(d, f))
  {
    if exists f :: f in FieldOrder && ValidateField(f, Value(d, f)).Some? then
      true
    else
      forall f: Field ensures f in FieldOrder {
        FieldOrderCovers(f);
      }
      false
  }

  /** The errors of every field, and whether there are none. */
  function ValidateAllFields(d: FormData): (r: Validation)
    ensures forall f :: f in r.errors <==> !Acceptable(f, Value(d, f))
    ensures forall f :: f in r.errors ==> Some(r.errors[f]) == ValidateField(f, Value(d, f))
    ensures r.isValid <==> r.errors == map[]
  {
    var errors := ValidateForm(d, AllTouched);
    var ok := !HasErrors(d);
    assert ok <==> errors == map[] by {
      if !ok {
        var f :| !Acceptable(f, Value(d, f));
        assert f in errors;
      }
    }
    Validation(errors, ok)
  }

  /** The state the store starts in and returns to on reset. */
  function Initial(): (s: FormState)
    ensures s.errors == map[] && !s.isValid && !s.isSubmitting
    ensures forall f :: Value(s.data, f) == "" && !IsTouched(s.touched, f)
  {
    FormState(EmptyData, map[], false, false, NoneTouched)
  }

  /** `reset`: back to the initial state. */
  function Reset(s: FormState): (r: FormState)
    ensures r == Initial()
    ensures Consistent(r)
  {
    InitialConsistent();
    FormState(EmptyData, map[], false, false, NoneTouched)
  }

  /**
   What every state the store reaches satisfies: the errors shown are
   those of the touched fields, and `isValid` says whether every field,
   touched or not, is accepted.
   */
  ghost predicate Consistent(s: FormState) {
    && (forall f :: f in s.errors <==> IsTouched(s.touched, f) && !Acceptable(f, Value(s.data, f)))
    && (forall f :: f in s.errors ==> Some(s.errors[f]) == ValidateField(f, Value(s.data, f)))
    && (s.isValid <==> forall f :: Acceptable(f, Value(s.data, f)))
  }

  lemma InitialConsistent()
    ensures Consistent(Initial())
  {
    assert !Acceptable(TimeSlot, Value(EmptyData, TimeSlot));
  }

  /**
   `updateField`: stores `v` in field `f`, marks `f` touched, shows the
   errors of the touched fields and recomputes `isValid` from all fields.
   */
  function UpdateField(s: FormState, f: Field, v: string): (r: FormState)
    ensures Value(r.data, f) == v && IsTouched(r.touched, f)
    ensures forall g :: g != f ==> Value(r.data, g) == Value(s.data, g) && IsTouched(r.touched, g) == IsTouched(s.touched, g)
    ensures r.isSubmitting == s.isSubmitting
    ensures r.isValid ==> r.errors == map[]
    ensures Consistent(r)
  {
    var data := WithValue(s.data, f, v);
    var touched := Touch(s.touched, f);
    var all := ValidateAllFields(data);
    s.(data := data, errors := ValidateForm(data, touched), isValid := all.isValid, touched := touched)
  }

  /** `setSubmitting`: only the submitting flag changes. */
  function SetSubmitting(s: FormState, submitting: bool): (r: FormState)
    ensures r.isSubmitting == submitting
    ensures r.(isSubmitting := s.isSubmitting) == s
    ensures Consistent(s) ==> Consistent(r)
  {
    s.(isSubmitting := submitting)
  }

  /**
   The store's `validateAllFields`: every field becomes touched and shows
   its error; the form is valid exactly when no error is shown.
   */
  function ValidateAll(s: FormState): (r: FormState)
    ensures r.data == s.data && r.isSubmitting == s.isSubmitting
    ensures forall f :: IsTouched(r.touched, f)
    ensures forall f :: f in r.errors <==> !Acceptable(f, Value(r.data, f))
    ensures r.isValid <==> r.errors == map[]
    ensures Consistent(r)
  {
    var all := ValidateAllFields(s.data);
    s.(errors := all.errors, isValid := all.isValid, touched := AllTouched)
  }

  /** Writing a field the value it already holds changes nothing. */
  lemma WithValueSame(d: FormData, f: Field)
    ensures WithValue(d, f, Value(d, f)) == d
  {
    match f
    case FirstName =>
    case LastName =>
    case Email =>
    case Phone =>
    case TimeSlot =>
  }

  /** Touching a touched field changes nothing. */
  lemma TouchSame(t: Touched, f: Field)
    requires IsTouched(t, f)
    ensures Touch(t, f) == t
  {
    match f
    case FirstName =>
    case LastName =>
    case Email =>
    case Phone =>
    case TimeSlot =>
  }

  /** Typing the same value twice into a field leaves the state as typing it once. */
  lemma UpdateFieldIdempotent(s: FormState, f: Field, v: string)
    ensures UpdateField(UpdateField(s, f, v), f, v) == UpdateField(s, f, v)
  {
    var once := UpdateField(s, f, v);
    WithValueSame(once.data, f);
    TouchSame(once.touched, f);
  }

  /**
   Once every field is touched, the form is valid exactly when it shows
   no error; before that, an empty error list can hide invalid fields.
   */
  lemma ValidWhenNoErrorShown(s: FormState)
    requires Consistent(s)
    requires forall f :: IsTouched(s.touched, f)
    ensures s.isValid <==> s.errors == map[]
  {
    if !s.isValid {
      var f :| !Acceptable(f, Value(s.data, f));
      assert f in s.errors;
    }
  }

  /**
   Typing a correct first name into a fresh form shows no error, yet the
   form is not valid: the untouched fields still count.
   */
  lemma FirstKeystrokeSilentButInvalid()
    ensures UpdateField(Initial(), FirstName, "Jo").errors == map[]
    ensures !UpdateField(Initial(), FirstName, "Jo").isValid
  {
    var r := UpdateField(Initial(), FirstName, "Jo");
    assert !Acceptable(TimeSlot, Value(r.data, TimeSlot));
  }
}
