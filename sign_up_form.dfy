/** The validation rules of the sign-up form. */
module SignUpForm {
  import opened Common
  import opened Text
  import opened Posts
  import opened Store

  datatype Form = Form(
    email: Option<string>,
    password: Option<string>,
    confirmPassword: Option<string>,
    majorName: Option<string>,
    profilePicture: Option<Upload>)

  /** The rule a field breaks. */
  datatype Rule =
    | EmailRequired
    | EmailFormat
    | PasswordRequired
    | ConfirmRequired
    | ConfirmMatches
    | MajorRequired
    | MajorTooLong
    | MajorTooShort

  const MajorMaxLength: int := 50
  const MajorMinLength: int := 2

  /** `[EmailAddress]`: no value passes; otherwise there is exactly one '@'
      and it is neither the first nor the last character. */
  predicate EmailAddress(s: Option<string>) {
    s.None? ||
    (var local := BeforeFirst(s.value, '@');
     0 < |local| < |s.value| - 1 && '@' !in s.value[|local| + 1..])
  }

  /** `[StringLength(50)]` and `[MinLength(2)]`; no value passes both. */
  predicate NotTooLong(s: Option<string>) {
    s.None? || |s.value| <= MajorMaxLength
  }

  predicate NotTooShort(s: Option<string>) {
    s.None? || |s.value| >= MajorMinLength
  }

  const AllRules: set<Rule> := {EmailRequired, EmailFormat, PasswordRequired, ConfirmRequired,
                                ConfirmMatches, MajorRequired, MajorTooLong, MajorTooShort}

  /** Whether `f` breaks rule `r`. */
  predicate Breaks(f: Form, r: Rule) {
    match r
    case EmailRequired => !Required(f.email)
    case EmailFormat => !EmailAddress(f.email)
    case PasswordRequired => !Required(f.password)
    case ConfirmRequired => !Required(f.confirmPassword)
    case ConfirmMatches => f.confirmPassword != f.password
    case MajorRequired => !Required(f.majorName)
    case MajorTooLong => !NotTooLong(f.majorName)
    case MajorTooShort => !NotTooShort(f.majorName)
  }

  /** Every rule the form breaks; each attribute is judged on its own. */
  function Broken(f: Form): (rules: set<Rule>)
    ensures EmailRequired in rules <==> !Required(f.email)
    ensures EmailFormat in rules <==> !EmailAddress(f.email)
    ensures PasswordRequired in rules <==> !Required(f.password)
    ensures ConfirmRequired in rules <==> !Required(f.confirmPassword)
    ensures ConfirmMatches in rules <==> f.confirmPassword != f.password
    ensures MajorRequired in rules <==> !Required(f.majorName)
    ensures MajorTooLong in rules <==> !NotTooLong(f.majorName)
    ensures MajorTooShort in rules <==> !NotTooShort(f.majorName)
  {
    set r | r in AllRules && Breaks(f, r)
  }

  predicate Valid(f: Form) {
    Broken(f) == {}
  }

  /** A valid form has an e-mail address with one '@' inside it, a
      password confirmed by an equal one, and a major of 2 to 50
      characters; the picture is optional. */
  lemma ValidMeans(f: Form)
    ensures Valid(f) <==>
              (f.email.Some? && Required(f.email) && EmailAddress(f.email)
               && Required(f.password) && f.confirmPassword == f.password
               && f.majorName.Some? && Required(f.majorName)
               && MajorMinLength <= |f.majorName.value| <= MajorMaxLength)
  {
    if !Valid(f) {
      var r :| r in Broken(f);
    }
  }

  /** The picture never decides validity. */
  lemma PictureOptional(f: Form, picture: Option<Upload>)
    ensures Valid(f.(profilePicture := picture)) == Valid(f)
  {
    assert Broken(f.(profilePicture := picture)) == Broken(f);
  }
}
