/**
  The recruiter's company settings form: its text fields and logo, the
  validation that builds an error per failing field, the change handlers,
  and the initialisation from the company loaded from the store.
*/
module CompanySetup {
  import opened Wrappers
  import opened Text
  import opened Files

  /** The form's fields, which are also the keys of its error map (`file` is the logo). */
  datatype CompanyField = Name | Description | Website | Location | File

  /** What the form holds: four texts and the chosen logo, if any. */
  datatype CompanyInput = CompanyInput(
    name: string,
    description: string,
    website: string,
    location: string,
    file: Option<FileInfo>)

  /** The empty form the component starts with. */
  const Blank: CompanyInput := CompanyInput("", "", "", "", None)

  /** The MIME types a logo may have. */
  const LogoTypes: seq<string> := ["image/png", "image/jpeg", "image/jpg", "image/webp"]

  const NameRequired := "Tên công ty không được để trống."
  const DescriptionRequired := "Mô tả không được để trống."
  const WebsiteRequired := "Website không được để trống."
  const LocationRequired := "Vị trí không được để trống."
  const LogoRequired := "Vui lòng tải lên logo công ty."
  const LogoWrongType := "Chỉ chấp nhận định dạng ảnh (PNG, JPG, JPEG, WEBP)."

  /** The text of a text field. */
  function TextOf(input: CompanyInput, f: CompanyField): string
    requires f != File
  {
    match f
    case Name => input.name
    case Description => input.description
    case Website => input.website
    case Location => input.location
  }

  /** A logo is chosen and its type is one of the allowed image types. */
  predicate LogoAccepted(file: Option<FileInfo>) {
    file.Some? && file.value.mimeType in LogoTypes
  }

  /** The form can be submitted: no text field is blank once trimmed, and the logo is accepted. */
  predicate Acceptable(input: CompanyInput) {
    && Trim(input.name) != []
    && Trim(input.description) != []
    && Trim(input.website) != []
    && Trim(input.location) != []
    && LogoAccepted(input.file)
  }

  /**
    `validate`: one error per failing field, built up field by field. A text
    field fails when it is blank; the logo fails when it is missing or, with a
    different message, when its type is not allowed. The form is valid when
    there is no error at all.
  */
  method Validate(input: CompanyInput) returns (errors: map<CompanyField, string>, ok: bool)
    ensures Name in errors <==> Trim(input.name) == []
    ensures Description in errors <==> Trim(input.description) == []
    ensures Website in errors <==> Trim(input.website) == []
    ensures Location in errors <==> Trim(input.location) == []
    ensures Name in errors ==> errors[Name] == NameRequired
    ensures Description in errors ==> errors[Description] == DescriptionRequired
    ensures Website in errors ==> errors[Website] == WebsiteRequired
    ensures Location in errors ==> errors[Location] == LocationRequired
    ensures File in errors <==> !LogoAccepted(input.file)
    ensures File in errors ==> errors[File] == if input.file.None? then LogoRequired else LogoWrongType
    ensures ok <==> errors == map[]
    ensures ok <==> Acceptable(input)
  {
    var nameBlank, descriptionBlank, websiteBlank, locationBlank :=
      Trim(input.name) == [], Trim(input.description) == [], Trim(input.website) == [], Trim(input.location) == [];
    errors := map[];
    if nameBlank {
      errors := errors[Name := NameRequired];
    }
    if descriptionBlank {
      errors := errors[Description := DescriptionRequired];
    }
    if websiteBlank {
      errors := errors[Website := WebsiteRequired];
    }
    if locationBlank {
      errors := errors[Location := LocationRequired];
    }
    if input.file.None? {
      errors := errors[File := LogoRequired];
    } else if input.file.value.mimeType !in LogoTypes {
      errors := errors[File := LogoWrongType];
    }
    ok := |errors.Keys| == 0;
    assert ok <==> errors == map[] by {
      if !ok {
        assert errors != map[];
      }
    }
  }

  /**
    Trimming empties exactly the texts made of white space only, so the form
    is acceptable exactly when every text field holds a character that is not
    white space and the logo is accepted.
  */
  lemma AcceptableMeans(input: CompanyInput)
    ensures Acceptable(input) <==>
      && !IsBlank(input.name) && !IsBlank(input.description)
      && !IsBlank(input.website) && !IsBlank(input.location)
      && LogoAccepted(input.file)
  {
    TrimEmptyIffBlank(input.name);
    TrimEmptyIffBlank(input.description);
    TrimEmptyIffBlank(input.website);
    TrimEmptyIffBlank(input.location);
  }

  /** `{ ...input, [name]: value }` for a text field. */
  function WithText(input: CompanyInput, f: CompanyField, value: string): (r: CompanyInput)
    requires f != File
    ensures TextOf(r, f) == value
    ensures forall g :: g != File && g != f ==> TextOf(r, g) == TextOf(input, g)
    ensures r.file == input.file
  {
    match f
    case Name => input.(name := value)
    case Description => input.(description := value)
    case Website => input.(website := value)
    case Location => input.(location := value)
  }

  /** The company as the store holds it: any of its texts may be missing. */
  datatype CompanyRecord = CompanyRecord(
    name: Option<string>,
    description: Option<string>,
    website: Option<string>,
    location: Option<string>)

  /** The form filled from a loaded company: a missing text becomes "", and no logo is chosen. */
  function FromCompany(c: CompanyRecord): (r: CompanyInput)
    ensures r.file == None && !Acceptable(r)
    ensures forall f :: f != File && CompanyText(c, f).None? ==> TextOf(r, f) == ""
  {
    CompanyInput(c.name.GetOr(""), c.description.GetOr(""), c.website.GetOr(""), c.location.GetOr(""), None)
  }

  /** The text of a field of a stored company. */
  function CompanyText(c: CompanyRecord, f: CompanyField): Option<string>
    requires f != File
  {
    match f
    case Name => c.name
    case Description => c.description
    case Website => c.website
    case Location => c.location
  }

  /** The form component: its input, the errors last shown, and the forms sent to the server. */
  class CompanySetupForm {
    var input: CompanyInput
    var errors: map<CompanyField, string>
    var sent: seq<CompanyInput>

    /** Mounting: an empty form, no errors shown, nothing sent. */
    constructor ()
      ensures input == Blank && errors == map[] && sent == []
    {
      input := Blank;
      errors := map[];
      sent := [];
    }

    /** Typing into the text field `f`: only that field changes. */
    method ChangeEventHandler(f: CompanyField, value: string)
      requires f != File
      modifies this
      ensures input == WithText(old(input), f, value)
      ensures errors == old(errors) && sent == old(sent)
    {
      input := WithText(input, f, value);
    }

    /** Choosing files for the logo: the first one, or none when the list is empty. */
    method ChangeFileHandler(files: seq<FileInfo>)
      modifies this
      ensures input == old(input).(file := if |files| > 0 then Some(files[0]) else None)
      ensures errors == old(errors) && sent == old(sent)
    {
      var file := if |files| > 0 then Some(files[0]) else None;
      input := input.(file := file);
    }

    /** The loaded company arrives: the form is refilled from it, and cannot be submitted until a logo is chosen. */
    method LoadCompany(c: CompanyRecord)
      modifies this
      ensures input == FromCompany(c) && !Acceptable(input)
      ensures errors == old(errors) && sent == old(sent)
    {
      input := FromCompany(c);
    }

    /** Submitting: the errors are shown, and the form is sent only when there are none. */
    method SubmitHandler() returns (didSend: bool)
      modifies this
      ensures didSend <==> Acceptable(input)
      ensures input == old(input)
      ensures Name in errors <==> Trim(input.name) == []
      ensures Description in errors <==> Trim(input.description) == []
      ensures Website in errors <==> Trim(input.website) == []
      ensures Location in errors <==> Trim(input.location) == []
      ensures Name in errors ==> errors[Name] == NameRequired
      ensures Description in errors ==> errors[Description] == DescriptionRequired
      ensures Website in errors ==> errors[Website] == WebsiteRequired
      ensures Location in errors ==> errors[Location] == LocationRequired
      ensures File in errors <==> !LogoAccepted(input.file)
      ensures File in errors ==> errors[File] == if input.file.None? then LogoRequired else LogoWrongType
      ensures (errors == map[]) <==> didSend
      ensures sent == old(sent) + (if didSend then [input] else [])
    {
      var ok;
      errors, ok := Validate(input);
      didSend := ok;
      if ok {
        sent := sent + [input];
      }
    }
  }

  /** A form just loaded from the store sends nothing when submitted. */
  method LoadThenSubmit(form: CompanySetupForm, c: CompanyRecord) returns (didSend: bool)
    modifies form
    ensures !didSend && form.sent == old(form.sent) && File in form.errors
  {
    form.LoadCompany(c);
    didSend := form.SubmitHandler();
  }
}
