/**
 * The validators shared by the registration and account forms: the `\S+@\S+\.\S+` email
 * test, the phone test, the attachment check, the six registrant rules, and the way a form
 * clears one field's error when that field is edited.
 */
module Validation {
  import opened Wrappers
  import opened JsText
  import JsNumber

  /** An `errors` state object: a message per field key. The source clears a message by setting it to "". */
  type Errors<K> = map<K, string>

  /** `if (errors[name]) setErrors(prev => ({ ...prev, [name]: '' }))`: a non-empty message for `name` becomes "". */
  function ClearFieldError<K>(errors: Errors<K>, name: K): (r: Errors<K>)
    ensures r.Keys == errors.Keys
    ensures name in r ==> r[name] == ""
    ensures forall k :: k in errors && k != name ==> r[k] == errors[k]
  {
    if name in errors && errors[name] != "" then errors[name := ""] else errors
  }

  // ---- email: /\S+@\S+\.\S+/ matched, unanchored, on the untrimmed text ----

  /** The pattern matches with its '@' at `p` and its '.' at `q`. */
  predicate EmailMatchAt(s: string, p: nat, q: nat) {
    1 <= p && p + 2 <= q && q + 1 < |s| && s[p] == '@' && s[q] == '.'
    && forall k :: p - 1 <= k <= q + 1 ==> !IsSpace(s[k])
  }

  predicate IsEmail(s: string): (r: bool)
    ensures r ==> |s| >= 5 && '@' in s && '.' in s
  {
    exists p: nat, q: nat :: p < |s| && q < |s| && EmailMatchAt(s, p, q)
  }

  /** Every "local@domain.tld" without white space passes. */
  lemma EmailOfParts(local: string, domain: string, tld: string)
    requires local != [] && domain != [] && tld != []
    requires forall i :: 0 <= i < |local| ==> !IsSpace(local[i])
    requires forall i :: 0 <= i < |domain| ==> !IsSpace(domain[i])
    requires forall i :: 0 <= i < |tld| ==> !IsSpace(tld[i])
    ensures IsEmail(local + "@" + domain + "." + tld)
  {
    var s := local + "@" + domain + "." + tld;
    var p, q := |local|, |local| + 1 + |domain|;
    forall k | p - 1 <= k <= q + 1 ensures !IsSpace(s[k]) {
      if k < p { assert s[k] == local[k]; }
      else if p < k < q { assert s[k] == domain[k - p - 1]; }
      else if k == q + 1 { assert s[k] == tld[0]; }
    }
    assert EmailMatchAt(s, p, q);
  }

  /** A passing address holds an '@' with a '.' at least two characters after it. */
  lemma EmailHasAtThenDot(s: string)
    requires IsEmail(s)
    ensures exists p, q :: 0 < p < q - 1 && q < |s| - 1 && s[p] == '@' && s[q] == '.'
  {
    var p: nat, q: nat :| p < |s| && q < |s| && EmailMatchAt(s, p, q);
  }

  /** The test is unanchored and ignores what surrounds the match: "Jean a@b.c" passes, "a@b." does not. */
  lemma EmailExamples()
    ensures IsEmail("Jean a@b.c")
    ensures !IsEmail("a@b.")
  {
    assert EmailMatchAt("Jean a@b.c", 6, 8);
  }

  // ---- phone: /^(?:\+\d{1,3}\s?)?\d{9,10}$/ matched against the text with all white space removed ----

  /** The optional group matches as '+', `k` digits and `sp` white-space characters, and 9 or 10 digits follow. */
  predicate PlusGroupAt(t: string, k: nat, sp: nat) {
    1 <= k <= 3 && sp <= 1 && 1 + k + sp <= |t| && t[0] == '+'
    && JsNumber.AllDigits(t[1..1 + k]) && (sp == 1 ==> IsSpace(t[1 + k]))
    && JsNumber.AllDigits(t[1 + k + sp..]) && 9 <= |t| - (1 + k + sp) <= 10
  }

  predicate MatchesPhonePattern(t: string) {
    (JsNumber.AllDigits(t) && 9 <= |t| <= 10)
    || exists k: nat, sp: nat :: k <= 3 && sp <= 1 && PlusGroupAt(t, k, sp)
  }

  /** The phone rule: with white space removed, 9 or 10 digits, or '+' and 10 to 13 digits. */
  predicate IsPhone(phone: string): (r: bool)
    ensures var t := StripSpaces(phone);
      r <==> ((JsNumber.AllDigits(t) && 9 <= |t| <= 10)
              || (|t| > 0 && t[0] == '+' && JsNumber.AllDigits(t[1..]) && 10 <= |t| - 1 <= 13))
  {
    PhonePatternWithoutSpaces(StripSpaces(phone));
    MatchesPhonePattern(StripSpaces(phone))
  }

  /**
   * Once white space is removed the `\s?` can never match, and the pattern means:
   * 9 or 10 digits, or '+' followed by 10 to 13 digits.
   */
  lemma PhonePatternWithoutSpaces(t: string)
    requires forall i :: 0 <= i < |t| ==> !IsSpace(t[i])
    ensures MatchesPhonePattern(t) <==>
      (JsNumber.AllDigits(t) && 9 <= |t| <= 10)
      || (|t| > 0 && t[0] == '+' && JsNumber.AllDigits(t[1..]) && 10 <= |t| - 1 <= 13)
  {
    if |t| > 0 && t[0] == '+' && JsNumber.AllDigits(t[1..]) && 10 <= |t| - 1 <= 13 {
      var k := if |t| - 1 >= 12 then |t| - 11 else |t| - 10;
      assert t[1..1 + k] == t[1..][..k];
      assert t[1 + k..] == t[1..][k..];
      assert PlusGroupAt(t, k, 0);
    }
    if exists k: nat, sp: nat :: k <= 3 && sp <= 1 && PlusGroupAt(t, k, sp) {
      var k: nat, sp: nat :| k <= 3 && sp <= 1 && PlusGroupAt(t, k, sp);
      assert sp == 0;
      assert t[1..] == t[1..1 + k] + t[1 + k..];
    }
  }

  // ---- attachment ----

  datatype FileInfo = FileInfo(name: string, mimeType: string, size: nat)

  const MaxAttachmentSize: nat := 5 * 1024 * 1024
  const AcceptedTypes: seq<string> := ["application/pdf", "image/jpeg", "image/png"]
  const BadFormatMessage := "Format de fichier non valide. Veuillez télécharger un PDF ou une image (JPEG, PNG)."
  const TooLargeMessage := "Le fichier est trop volumineux. La taille maximale est de 5MB."

  /** The message `handleFileChange`/`handleDrop` store under "file", or `None` when the file is accepted. */
  function AttachmentError(f: FileInfo): (r: Option<string>)
    ensures r.None? <==> (f.mimeType in AcceptedTypes && f.size <= 5242880)
    ensures f.mimeType !in AcceptedTypes ==> r == Some(BadFormatMessage)
    ensures f.mimeType in AcceptedTypes && f.size > 5242880 ==> r == Some(TooLargeMessage)
  {
    if f.mimeType !in AcceptedTypes then Some(BadFormatMessage)
    else if f.size > MaxAttachmentSize then Some(TooLargeMessage)
    else None
  }

  /** White space typed anywhere in a number never changes the phone rule's verdict. */
  lemma PhoneIgnoresSpace(a: string, c: char, b: string)
    requires IsSpace(c)
    ensures IsPhone(a + [c] + b) == IsPhone(a + b)
  {
    StripSpacesAppend(a + [c], b);
    StripSpacesAppend(a, [c]);
    StripSpacesAppend(a, b);
    assert StripSpaces([c]) == [] by { assert [c][1..] == []; }
    assert StripSpaces(a + [c] + b) == StripSpaces(a + b);
  }

  /** A '+' must be followed by at least ten digits. */
  lemma PhonePlusTooShort()
    ensures !IsPhone("+612345678")
  {
    var t := "+612345678";
    StripSpacesNone(t);
    assert |t| == 10 && !JsNumber.IsDigit(t[0]);
  }

  // ---- the six registrant rules of both registration forms ----

  /** The forms' `value.trim() === ''` test: true exactly for blank text. */
  method TrimsToEmpty(s: string) returns (b: bool)
    ensures b <==> IsBlank(s)
  {
    TrimEmptyIffBlank(s);
    b := Trim(s) == "";
  }

  /** The keys of a registration form's `errors` object: its input names, plus "sections" and "file". */
  datatype RegField = LastName | FirstName | Email | Phone | Message | Sections | File | IncludeLicense

  /** The key as the source writes it. */
  function RegFieldName(f: RegField): string {
    match f
    case LastName => "lastName"
    case FirstName => "firstName"
    case Email => "email"
    case Phone => "phone"
    case Message => "message"
    case Sections => "sections"
    case File => "file"
    case IncludeLicense => "includeLicense"
  }

  /** The text fields of a registration form. */
  datatype Registrant = Registrant(lastName: string, firstName: string, email: string, phone: string, message: string)

  /** The text inputs that go through `handleChange`. */
  predicate IsTextField(f: RegField) {
    f.LastName? || f.FirstName? || f.Email? || f.Phone? || f.Message?
  }

  /** `setFormData(prev => ({ ...prev, [name]: value }))` for a text input. */
  function WithText(r: Registrant, f: RegField, value: string): Registrant
    requires IsTextField(f)
  {
    match f
    case LastName => r.(lastName := value)
    case FirstName => r.(firstName := value)
    case Email => r.(email := value)
    case Phone => r.(phone := value)
    case Message => r.(message := value)
  }

  /** The blank form. */
  const EmptyRegistrant := Registrant("", "", "", "", "")

  /** The displayed file name that goes with an attachment. */
  function FileNameOf(file: Option<FileInfo>): string {
    if file.Some? then file.value.name else ""
  }

  const LastNameRequired := "Le nom est requis"
  const FirstNameRequired := "Le prénom est requis"
  const SectionsRequired := "Veuillez sélectionner au moins une section"
  const EmailRequired := "L'email est requis"
  const EmailInvalid := "Adresse email invalide"
  const PhoneRequired := "Le numéro de téléphone est requis"
  const PhoneInvalid := "Numéro de téléphone invalide"
  const FileRequired := "Veuillez joindre un document requis (carte d'identité, certificat médical, etc.)"

  predicate RegistrantValid(r: Registrant, selectionCount: nat, hasFile: bool) {
    && !IsBlank(r.lastName)
    && !IsBlank(r.firstName)
    && selectionCount > 0
    && !IsBlank(r.email) && IsEmail(r.email)
    && !IsBlank(r.phone) && IsPhone(r.phone)
    && hasFile
  }

  /**
   * The `errors` object `validateForm` leaves behind: exactly one message for each failing rule,
   * none for the others. Email and phone say "required" when blank and "invalid" otherwise.
   */
  predicate ReportsRegistrantErrors(errors: Errors<RegField>, r: Registrant, selectionCount: nat, hasFile: bool) {
    && errors.Keys <= {LastName, FirstName, Sections, Email, Phone, File}
    && (LastName in errors <==> IsBlank(r.lastName))
    && (LastName in errors ==> errors[LastName] == LastNameRequired)
    && (FirstName in errors <==> IsBlank(r.firstName))
    && (FirstName in errors ==> errors[FirstName] == FirstNameRequired)
    && (Sections in errors <==> selectionCount == 0)
    && (Sections in errors ==> errors[Sections] == SectionsRequired)
    && (Email in errors <==> IsBlank(r.email) || !IsEmail(r.email))
    && (Email in errors ==> errors[Email] == if IsBlank(r.email) then EmailRequired else EmailInvalid)
    && (Phone in errors <==> IsBlank(r.phone) || !IsPhone(r.phone))
    && (Phone in errors ==> errors[Phone] == if IsBlank(r.phone) then PhoneRequired else PhoneInvalid)
    && (File in errors <==> !hasFile)
    && (File in errors ==> errors[File] == FileRequired)
  }

  /** `validateForm` of both registration forms: one error per failing rule, valid iff there is none. */
  method ValidateRegistrant(r: Registrant, selectionCount: nat, hasFile: bool) returns (errors: Errors<RegField>, ok: bool)
    ensures ReportsRegistrantErrors(errors, r, selectionCount, hasFile)
    ensures ok <==> errors == map[]
    ensures ok <==> RegistrantValid(r, selectionCount, hasFile)
  {
    var lastBlank := TrimsToEmpty(r.lastName);
    var firstBlank := TrimsToEmpty(r.firstName);
    var emailBlank := TrimsToEmpty(r.email);
    var phoneBlank := TrimsToEmpty(r.phone);
    var emailOk, phoneOk := IsEmail(r.email), IsPhone(r.phone);
    errors := map[];
    if lastBlank {
      errors := errors[LastName := LastNameRequired];
    }
    if firstBlank {
      errors := errors[FirstName := FirstNameRequired];
    }
    if selectionCount == 0 {
      errors := errors[Sections := SectionsRequired];
    }
    if emailBlank {
      errors := errors[Email := EmailRequired];
    } else if !emailOk {
      errors := errors[Email := EmailInvalid];
    }
    if phoneBlank {
      errors := errors[Phone := PhoneRequired];
    } else if !phoneOk {
      errors := errors[Phone := PhoneInvalid];
    }
    if !hasFile {
      errors := errors[File := FileRequired];
    }
    ok := errors == map[];
  }
}
