/** The new-course form of a teacher (the `CreateCourse` component): entry
    admission by session token and stored role, the field-update rule with
    per-field error clearing, and the validator run before submission. */
module NewCourseForm {
  import opened Wrappers
  import opened JsStrings
  import opened JsNumbers

  /** The names of the form's inputs. */
  datatype Field = Title | Description | Category | Level | Price | Image

  /** The form state `course`; `price` holds a number, every other field a string. */
  datatype NewCourse = NewCourse(
    title: string,
    description: string,
    category: string,
    level: string,
    price: JsNumber,
    image: string)

  /** The state the form starts from. */
  const InitialCourse := NewCourse("", "", "", "beginner", Finite(0.0), "")

  /** The entries of the error map. `Cleared` is the empty string `handleChange`
      writes over an error once its field is edited. */
  datatype Message =
    | TitleRequired | TitleTooShort | DescriptionRequired | DescriptionTooShort
    | CategoryRequired | PriceNegative | Cleared

  /** The text shown under an input; only `Cleared` is empty, hence falsy. */
  function MessageText(m: Message): (t: string)
    ensures t == "" <==> m == Cleared
  {
    match m
    case TitleRequired => "Kurs nomi talab qilinadi"
    case TitleTooShort => "Kurs nomi kamida 3 ta belgidan iborat bo'lishi kerak"
    case DescriptionRequired => "Kurs tavsifi talab qilinadi"
    case DescriptionTooShort => "Kurs tavsifi kamida 10 ta belgidan iborat bo'lishi kerak"
    case CategoryRequired => "Kategoriya talab qilinadi"
    case PriceNegative => "Narx manfiy bo'lishi mumkin emas"
    case Cleared => ""
  }

  /** A blank title is missing; otherwise a title of fewer than 3 UTF-16 code
      units (counted before trimming) is too short. */
  function TitleError(title: string): (r: Option<Message>)
    ensures r == Some(TitleRequired) <==> IsBlank(title)
    ensures r == Some(TitleTooShort) <==> !IsBlank(title) && Utf16Length(title) < 3
    ensures r == None <==> !IsBlank(title) && Utf16Length(title) >= 3
  {
    if Trim(title) == "" then Some(TitleRequired)
    else if Utf16Length(title) < 3 then Some(TitleTooShort)
    else None
  }

  /** A blank description is missing; otherwise one of fewer than 10 UTF-16 code
      units (counted before trimming) is too short. */
  function DescriptionError(description: string): (r: Option<Message>)
    ensures r == Some(DescriptionRequired) <==> IsBlank(description)
    ensures r == Some(DescriptionTooShort) <==> !IsBlank(description) && Utf16Length(description) < 10
    ensures r == None <==> !IsBlank(description) && Utf16Length(description) >= 10
  {
    if Trim(description) == "" then Some(DescriptionRequired)
    else if Utf16Length(description) < 10 then Some(DescriptionTooShort)
    else None
  }

  /** `length` counts code units: two emoji make a title of length 4, which is
      long enough, while a two-letter title is too short. */
  lemma TitleLengthInCodeUnits()
    ensures TitleError("\U{1F600}\U{1F600}") == None
    ensures TitleError("ab") == Some(TitleTooShort)
  {
    assert Utf16Length("\U{1F600}\U{1F600}") == 4;
    assert !IsWhitespace("\U{1F600}\U{1F600}"[0]) && !IsWhitespace("ab"[0]);
  }

  /** The error a field's current value earns; level and image are never checked,
      a category is required, and a price is rejected only when it is below 0. */
  function FieldError(c: NewCourse, f: Field): (r: Option<Message>)
    ensures f == Category ==> (r.Some? <==> c.category == "")
    ensures f == Price ==> (r.Some? <==> IsNegative(c.price))
    ensures f == Level || f == Image ==> r == None
  {
    match f
    case Title => TitleError(c.title)
    case Description => DescriptionError(c.description)
    case Category => if c.category == "" then Some(CategoryRequired) else None
    case Price => if IsNegative(c.price) then Some(PriceNegative) else None
    case Level => None
    case Image => None
  }

  /** Records a field's error, if it has one. */
  function Record(m: map<Field, Message>, f: Field, e: Option<Message>): map<Field, Message> {
    if e.Some? then m[f := e.value] else m
  }

  /** Recording field `f` after the fields of `m` leaves `m`'s entries in place
      and adds `f`'s error, if any. */
  lemma RecordEntries(m: map<Field, Message>, f: Field, e: Option<Message>, g: Field)
    requires f !in m
    ensures g in Record(m, f, e) <==> g in m || (g == f && e.Some?)
    ensures g in Record(m, f, e) ==> Record(m, f, e)[g] == if g == f then e.value else m[g]
  {
  }

  /** The error map `validateForm` builds, checking title, description,
      category and price in turn: it holds one entry per failing field, and
      that entry is the field's own error. */
  function FormErrors(c: NewCourse): (r: map<Field, Message>)
    ensures forall f :: f in r <==> FieldError(c, f).Some?
    ensures forall f :: f in r ==> r[f] == FieldError(c, f).value
  {
    var m1 := Record(map[], Title, FieldError(c, Title));
    var m2 := Record(m1, Description, FieldError(c, Description));
    var m3 := Record(m2, Category, FieldError(c, Category));
    var m4 := Record(m3, Price, FieldError(c, Price));
    FormErrorsEntries(c, m1, m2, m3, m4);
    m4
  }

  lemma FormErrorsEntries(c: NewCourse, m1: map<Field, Message>, m2: map<Field, Message>,
                          m3: map<Field, Message>, m4: map<Field, Message>)
    requires m1 == Record(map[], Title, FieldError(c, Title))
    requires m2 == Record(m1, Description, FieldError(c, Description))
    requires m3 == Record(m2, Category, FieldError(c, Category))
    requires m4 == Record(m3, Price, FieldError(c, Price))
    ensures forall f :: f in m4 <==> FieldError(c, f).Some?
    ensures forall f :: f in m4 ==> m4[f] == FieldError(c, f).value
  {
    forall f ensures f in m4 <==> FieldError(c, f).Some?
      ensures f in m4 ==> m4[f] == FieldError(c, f).value
    {
      RecordEntries(map[], Title, FieldError(c, Title), f);
      RecordEntries(m1, Description, FieldError(c, Description), f);
      RecordEntries(m2, Category, FieldError(c, Category), f);
      RecordEntries(m3, Price, FieldError(c, Price), f);
    }
  }

  /** The form is accepted exactly when the title is non-blank with at least 3
      code units, the description non-blank with at least 10, the category is
      chosen and the price is not negative. */
  lemma FormAcceptedIff(c: NewCourse)
    ensures FormErrors(c) == map[] <==>
      && !IsBlank(c.title) && Utf16Length(c.title) >= 3
      && !IsBlank(c.description) && Utf16Length(c.description) >= 10
      && c.category != ""
      && !IsNegative(c.price)
  {
    var e := FormErrors(c);
    if e == map[] {
      assert Title !in e && Description !in e && Category !in e && Price !in e;
    } else {
      var f :| f in e;
      assert FieldError(c, f).Some?;
    }
  }

  /** An empty price field reads as 0, which the validator accepts. */
  lemma EmptyPriceAccepted(c: NewCourse)
    ensures Price !in FormErrors(c.(price := ToNumber("")))
  {
  }

  /** The result of the page's entry check. */
  datatype Access = LoginRequired | Denied | Allowed

  /** The roles that may create a course. */
  const CreatorRoles: set<string> := {"teacher", "admin"}

  /** The entry check: without a truthy `token` or `accessToken` in storage the
      visitor is sent to log in; otherwise a truthy stored role outside
      `CreatorRoles` is turned back, and an absent or empty role is let through. */
  function CreateAccess(token: Option<string>, accessToken: Option<string>, userRole: Option<string>): (r: Access)
    ensures r == LoginRequired <==> !Truthy(token) && !Truthy(accessToken)
    ensures r == Denied <==>
      (Truthy(token) || Truthy(accessToken)) && Truthy(userRole) && userRole.value !in CreatorRoles
    ensures r == Allowed <==>
      (Truthy(token) || Truthy(accessToken)) && (!Truthy(userRole) || userRole.value in CreatorRoles)
  {
    if !Truthy(token) && !Truthy(accessToken) then LoginRequired
    else if Truthy(userRole) && userRole.value !in CreatorRoles then Denied
    else Allowed
  }

  /** The form component's state: the course being written and the error map shown under the inputs. */
  class CreateCourseForm {
    var course: NewCourse
    var errors: map<Field, Message>

    constructor ()
      ensures course == InitialCourse && errors == map[]
    {
      course := InitialCourse;
      errors := map[];
    }

    /** `handleChange`: stores the input's value under its name, as a number for
        the price and as the string itself otherwise, and blanks the field's
        error if it had a non-empty one; every other field and error is kept. */
    method HandleChange(name: Field, value: string)
      modifies this
      ensures name == Title ==> course == old(course).(title := value)
      ensures name == Description ==> course == old(course).(description := value)
      ensures name == Category ==> course == old(course).(category := value)
      ensures name == Level ==> course == old(course).(level := value)
      ensures name == Price ==> course == old(course).(price := ToNumber(value))
      ensures name == Image ==> course == old(course).(image := value)
      ensures errors == if name in old(errors) && MessageText(old(errors)[name]) != ""
                        then old(errors)[name := Cleared] else old(errors)
      ensures name in errors <==> name in old(errors)
      ensures name in errors ==> errors[name] == Cleared
    {
      match name {
        case Title => course := course.(title := value);
        case Description => course := course.(description := value);
        case Category => course := course.(category := value);
        case Level => course := course.(level := value);
        case Price => course := course.(price := ToNumber(value));
        case Image => course := course.(image := value);
      }
      if name in errors && MessageText(errors[name]) != "" {
        errors := errors[name := Cleared];
      }
    }

    /** `validateForm`: builds the error map field by field, commits it, and
        reports whether it is empty. */
    method ValidateForm() returns (ok: bool)
      modifies this`errors
      ensures errors == FormErrors(course)
      ensures ok <==> errors == map[]
    {
      var newErrors: map<Field, Message> := map[];
      ghost var before := newErrors;
      if Trim(course.title) == "" {
        newErrors := newErrors[Title := TitleRequired];
      } else if Utf16Length(course.title) < 3 {
        newErrors := newErrors[Title := TitleTooShort];
      }
      assert newErrors == Record(before, Title, FieldError(course, Title));
      before := newErrors;
      if Trim(course.description) == "" {
        newErrors := newErrors[Description := DescriptionRequired];
      } else if Utf16Length(course.description) < 10 {
        newErrors := newErrors[Description := DescriptionTooShort];
      }
      assert newErrors == Record(before, Description, FieldError(course, Description));
      before := newErrors;
      if course.category == "" {
        newErrors := newErrors[Category := CategoryRequired];
      }
      assert newErrors == Record(before, Category, FieldError(course, Category));
      before := newErrors;
      if IsNegative(course.price) {
        newErrors := newErrors[Price := PriceNegative];
      }
      assert newErrors == Record(before, Price, FieldError(course, Price));
      errors := newErrors;
      ok := |newErrors| == 0;
    }
  }
}
