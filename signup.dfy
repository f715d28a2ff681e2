/**
  The sign-up form's validation schema, one rule per field, and the record
  the form sends once the schema accepts it.
*/
module Signup {
  import opened Wrappers
  import opened Text
  import opened Files
  import CompanySetup

  /** The values the form collects; a text input never touched may be missing, and `file` is the chosen file list. */
  datatype SignupForm = SignupForm(
    fullname: Option<string>,
    email: Option<string>,
    phoneNumber: Option<string>,
    password: Option<string>,
    role: Option<string>,
    file: Option<seq<FileInfo>>)

  /** `fullname`: required. */
  predicate FullnameOk(fullname: Option<string>) {
    Given(fullname)
  }

  /** `email`: required and well formed; the format test is the validation library's and is taken as a parameter. */
  predicate EmailOk(email: Option<string>, wellFormed: string -> bool) {
    Given(email) && wellFormed(email.value)
  }

  /**
    The pattern `[0-9]{lo,hi}` matched against all of `s`: a digit is consumed
    while at most `hi` remain allowed, and the match ends when `s` does, once
    at least `lo` digits were consumed.
  */
  predicate MatchDigits(s: string, lo: nat, hi: nat)
    decreases |s|
  {
    if s == [] then lo == 0
    else hi > 0 && IsDigit(s[0]) && MatchDigits(s[1..], if lo > 0 then lo - 1 else 0, hi - 1)
  }

  /** The pattern matches exactly the digit strings whose length is between the bounds. */
  lemma {:induction false} MatchDigitsExactly(s: string, lo: nat, hi: nat)
    ensures MatchDigits(s, lo, hi) <==> lo <= |s| <= hi && AllDigits(s)
    decreases |s|
  {
    if s != [] {
      if hi > 0 { MatchDigitsExactly(s[1..], if lo > 0 then lo - 1 else 0, hi - 1); }
      if AllDigits(s) {
        assert AllDigits(s[1..]);
      } else if IsDigit(s[0]) {
        assert !AllDigits(s[1..]);
      }
    }
  }

  /** `phoneNumber`: required, and the whole text matches `^[0-9]{10,11}$`. */
  predicate PhoneOk(phone: Option<string>) {
    Given(phone) && MatchDigits(phone.value, 10, 11)
  }

  /** `password`: required and at least six characters long. */
  predicate PasswordOk(password: Option<string>) {
    Given(password) && |password.value| >= 6
  }

  /** The roles a user may choose. */
  const Roles: seq<string> := ["student", "recruiter"]

  /** `role`: required and one of the roles. */
  predicate RoleOk(role: Option<string>) {
    Given(role) && role.value in Roles
  }

  /** The MIME types an avatar may have. */
  const AvatarTypes: seq<string> := ["image/jpeg", "image/png", "image/jpg"]

  /** `file`: a non-empty list whose first file has an avatar type. */
  predicate FileOk(file: Option<seq<FileInfo>>) {
    file.Some? && |file.value| > 0 && file.value[0].mimeType in AvatarTypes
  }

  /** The schema accepts the form when every field's rule does. */
  predicate SchemaAccepts(form: SignupForm, wellFormed: string -> bool) {
    && FullnameOk(form.fullname)
    && EmailOk(form.email, wellFormed)
    && PhoneOk(form.phoneNumber)
    && PasswordOk(form.password)
    && RoleOk(form.role)
    && FileOk(form.file)
  }

  /** Each rule in plain terms: a phone number is ten or eleven ASCII digits, a password six or more characters, a role one of the two. */
  lemma FieldRules(form: SignupForm)
    ensures PhoneOk(form.phoneNumber) <==>
      form.phoneNumber.Some? && 10 <= |form.phoneNumber.value| <= 11 && AllDigits(form.phoneNumber.value)
    ensures PasswordOk(form.password) <==> form.password.Some? && |form.password.value| >= 6
    ensures RoleOk(form.role) <==> form.role == Some("student") || form.role == Some("recruiter")
  {
    if form.phoneNumber.Some? {
      MatchDigitsExactly(form.phoneNumber.value, 10, 11);
    }
  }

  /** What the form sends: the five texts and only the first chosen file. */
  datatype Registration = Registration(
    fullname: string,
    email: string,
    phoneNumber: string,
    password: string,
    role: string,
    file: FileInfo)

  /** `onSubmit`, reached only once the schema accepts the form. */
  function Submission(form: SignupForm, wellFormed: string -> bool): (r: Registration)
    requires SchemaAccepts(form, wellFormed)
    ensures Some(r.fullname) == form.fullname && Some(r.email) == form.email
    ensures r.fullname != "" && r.email != ""
    ensures Some(r.password) == form.password && Some(r.phoneNumber) == form.phoneNumber
    ensures r.role in Roles && Some(r.role) == form.role
    ensures 10 <= |r.phoneNumber| <= 11 && AllDigits(r.phoneNumber)
    ensures |r.password| >= 6 && wellFormed(r.email)
    ensures r.file == form.file.value[0] && r.file.mimeType in AvatarTypes
  {
    MatchDigitsExactly(form.phoneNumber.value, 10, 11);
    Registration(
      form.fullname.value, form.email.value, form.phoneNumber.value,
      form.password.value, form.role.value, form.file.value[0])
  }

  /** A WebP image is accepted as a company logo but not as an avatar. */
  lemma WebpOnlyForLogos(image: FileInfo)
    requires image.mimeType == "image/webp"
    ensures CompanySetup.LogoAccepted(Some(image))
    ensures !FileOk(Some([image]))
  {
    assert CompanySetup.LogoTypes[3] == image.mimeType;
    assert forall k :: 0 <= k < |AvatarTypes| ==> AvatarTypes[k][6] != 'w';
  }
}
