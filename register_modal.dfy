/**
 * The account-creation dialog: its six rules, the per-field error clearing, and the single
 * form-level error that replaces all others when the notification cannot be sent.
 */
module RegisterModal {
  import opened JsText
  import Validation

  datatype RegisterField = FirstName | LastName | Email | Password | ConfirmPassword | AcceptTerms | Form

  const FirstNameRequired := "Le prénom est requis"
  const LastNameRequired := "Le nom est requis"
  const EmailRequired := "L'email est requis"
  const EmailMalformed := "Format d'email invalide"
  const PasswordRequired := "Le mot de passe est requis"
  const PasswordTooShort := "Le mot de passe doit contenir au moins 6 caractères"
  const ConfirmRequired := "Veuillez confirmer votre mot de passe"
  const ConfirmMismatch := "Les mots de passe ne correspondent pas"
  const TermsRequired := "Vous devez accepter les conditions d'utilisation"
  const SendFailedMessage := "Échec de l'inscription. Veuillez réessayer."
  const MinPasswordLength := 6
  const Recipient := "t.turquin@outlook.fr"

  datatype Account = Account(
    firstName: string,
    lastName: string,
    email: string,
    password: string,
    confirmPassword: string,
    acceptTerms: bool)

  const EmptyAccount := Account("", "", "", "", "", false)

  /** What the mail service is asked to send, and to whom. */
  datatype Notice = Notice(firstName: string, lastName: string, email: string, to: string)

  /**
   * All six rules pass. The password is not trimmed, so six spaces are accepted. Its length is
   * JavaScript's `length`, counted in UTF-16 code units.
   */
  predicate AccountValid(a: Account) {
    && !IsBlank(a.firstName) && !IsBlank(a.lastName)
    && !IsBlank(a.email) && Validation.IsEmail(a.email)
    && Utf16Length(a.password) >= MinPasswordLength
    && a.confirmPassword != "" && a.confirmPassword == a.password
    && a.acceptTerms
  }

  /** The messages of the name and e-mail rules, exactly one per failing rule. */
  predicate ReportsIdentityErrors(errors: map<RegisterField, string>, a: Account) {
    && (FirstName in errors <==> IsBlank(a.firstName))
    && (FirstName in errors ==> errors[FirstName] == FirstNameRequired)
    && (LastName in errors <==> IsBlank(a.lastName))
    && (LastName in errors ==> errors[LastName] == LastNameRequired)
    && (Email in errors <==> IsBlank(a.email) || !Validation.IsEmail(a.email))
    && (Email in errors ==> errors[Email] == if IsBlank(a.email) then EmailRequired else EmailMalformed)
  }

  /** The messages of the password, confirmation and terms rules, exactly one per failing rule. */
  predicate ReportsSecretErrors(errors: map<RegisterField, string>, a: Account) {
    && (Password in errors <==> Utf16Length(a.password) < MinPasswordLength)
    && (Password in errors ==> errors[Password] == if a.password == "" then PasswordRequired else PasswordTooShort)
    && (ConfirmPassword in errors <==> a.confirmPassword == "" || a.confirmPassword != a.password)
    && (ConfirmPassword in errors ==>
          errors[ConfirmPassword] == if a.confirmPassword == "" then ConfirmRequired else ConfirmMismatch)
    && (AcceptTerms in errors <==> !a.acceptTerms)
    && (AcceptTerms in errors ==> errors[AcceptTerms] == TermsRequired)
  }

  /** `errors` holds exactly one message per failing rule, chosen as `validateForm` chooses it. */
  predicate ReportsAccountErrors(errors: map<RegisterField, string>, a: Account) {
    Form !in errors && ReportsIdentityErrors(errors, a) && ReportsSecretErrors(errors, a)
  }

  /** Every key a report can hold is one of the six rules' keys. */
  lemma ReportKeys(errors: map<RegisterField, string>, a: Account)
    requires ReportsAccountErrors(errors, a)
    ensures errors == map[] <==> AccountValid(a)
  {
    if errors != map[] {
      var k :| k in errors;
      assert k != Form;
    }
  }

  /** Three characters beyond the Basic Multilingual Plane already make six code units. */
  lemma AstralPasswordLongEnough()
    ensures |"\U{1F600}\U{1F600}\U{1F600}"| < MinPasswordLength
    ensures Utf16Length("\U{1F600}\U{1F600}\U{1F600}") == MinPasswordLength
  {
    var p := "\U{1F600}\U{1F600}\U{1F600}";
    assert p[1..][1..][1..] == [];
  }

  /** The first three rules of `validateForm`: the names and the e-mail address. */
  method ValidateIdentity(a: Account) returns (errors: map<RegisterField, string>)
    ensures ReportsIdentityErrors(errors, a)
    ensures forall k :: k in errors ==> k == FirstName || k == LastName || k == Email
  {
    errors := map[];
    var blankFirst := Validation.TrimsToEmpty(a.firstName);
    if blankFirst {
      errors := errors[FirstName := FirstNameRequired];
    }
    var blankLast := Validation.TrimsToEmpty(a.lastName);
    if blankLast {
      errors := errors[LastName := LastNameRequired];
    }
    var blankEmail := Validation.TrimsToEmpty(a.email);
    if blankEmail {
      errors := errors[Email := EmailRequired];
    } else if !Validation.IsEmail(a.email) {
      errors := errors[Email := EmailMalformed];
    }
  }

  method ValidateAccount(a: Account) returns (errors: map<RegisterField, string>, ok: bool)
    ensures ReportsAccountErrors(errors, a)
    ensures ok <==> errors == map[]
    ensures ok <==> AccountValid(a)
  {
    errors := ValidateIdentity(a);
    var passwordLength := Utf16Length(a.password);
    if a.password == "" {
      errors := errors[Password := PasswordRequired];
    } else if passwordLength < MinPasswordLength {
      errors := errors[Password := PasswordTooShort];
    }
    if a.confirmPassword == "" {
      errors := errors[ConfirmPassword := ConfirmRequired];
    } else if a.password != a.confirmPassword {
      errors := errors[ConfirmPassword := ConfirmMismatch];
    }
    if !a.acceptTerms {
      errors := errors[AcceptTerms := TermsRequired];
    }
    ok := errors == map[];
    ReportKeys(errors, a);
  }

  /** `{ ...formData, [name]: value }` for a text input. */
  function WithText(a: Account, f: RegisterField, value: string): Account
    requires f in {FirstName, LastName, Email, Password, ConfirmPassword}
  {
    match f
    case FirstName => a.(firstName := value)
    case LastName => a.(lastName := value)
    case Email => a.(email := value)
    case Password => a.(password := value)
    case ConfirmPassword => a.(confirmPassword := value)
  }

  class RegisterForm {
    var account: Account
    var errors: map<RegisterField, string>
    var isLoading: bool
    var registrationSuccess: bool
    /** Every notice handed to the mail service, oldest first. */
    var outbox: seq<Notice>
    /** A successful registration schedules the switch to the sign-in dialog. */
    var switchPending: bool
    var switchCount: nat

    constructor()
      ensures account == EmptyAccount && errors == map[] && !isLoading && !registrationSuccess
      ensures outbox == [] && !switchPending && switchCount == 0
    {
      account := EmptyAccount;
      errors := map[];
      isLoading := false;
      registrationSuccess := false;
      outbox := [];
      switchPending := false;
      switchCount := 0;
    }

    /** `handleChange` on a text input: the value is stored and only that field's error is cleared. */
    method EditText(f: RegisterField, value: string)
      requires f in {FirstName, LastName, Email, Password, ConfirmPassword}
      modifies this`account, this`errors
      ensures account == WithText(old(account), f, value)
      ensures errors == Validation.ClearFieldError(old(errors), f)
    {
      account := WithText(account, f, value);
      errors := Validation.ClearFieldError(errors, f);
    }

    /** `handleChange` on the terms checkbox. */
    method SetAcceptTerms(checked: bool)
      modifies this`account, this`errors
      ensures account == old(account).(acceptTerms := checked)
      ensures errors == Validation.ClearFieldError(old(errors), AcceptTerms)
    {
      account := account.(acceptTerms := checked);
      errors := Validation.ClearFieldError(errors, AcceptTerms);
    }

    /** `handleSubmit` up to the mail service: only a valid form asks for the notice to be sent. */
    method BeginSubmit() returns (sending: bool)
      modifies this`errors, this`isLoading, this`outbox
      ensures ReportsAccountErrors(errors, account)
      ensures sending <==> AccountValid(account)
      ensures sending ==>
        isLoading && outbox == old(outbox) + [Notice(account.firstName, account.lastName, account.email, Recipient)]
      ensures !sending ==> isLoading == old(isLoading) && outbox == old(outbox)
    {
      var found;
      found, sending := ValidateAccount(account);
      errors := found;
      if sending {
        isLoading := true;
        outbox := outbox + [Notice(account.firstName, account.lastName, account.email, Recipient)];
      }
    }

    /** The mail service answers: success schedules the switch to sign-in; failure leaves only the form error. */
    method FinishSubmit(resolved: bool)
      requires isLoading
      modifies this`isLoading, this`registrationSuccess, this`switchPending, this`errors
      ensures !isLoading
      ensures resolved ==> registrationSuccess && switchPending && errors == old(errors)
      ensures !resolved ==>
        errors == map[Form := SendFailedMessage] && registrationSuccess == old(registrationSuccess) && switchPending == old(switchPending)
    {
      if resolved {
        registrationSuccess := true;
        switchPending := true;
      } else {
        errors := map[Form := SendFailedMessage];
      }
      isLoading := false;
    }

    /** The two-second timer calls `onSwitchToLogin`. */
    method SwitchElapsed()
      requires switchPending
      modifies this`switchPending, this`switchCount
      ensures !switchPending && switchCount == old(switchCount) + 1
    {
      switchPending := false;
      switchCount := switchCount + 1;
    }
  }
}
