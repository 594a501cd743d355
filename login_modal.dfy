/**
 * The sign-in dialog: its two validation rules, the per-field error clearing, the delayed reset
 * on close, and the user record it leaves in storage after a successful sign-in.
 */
module LoginModal {
  import opened JsText
  import Validation
  import opened BrowserStorage

  datatype LoginField = Email | Password | RememberMe | Form

  const EmailRequired := "L'email est requis"
  const EmailMalformed := "Format d'email invalide"
  const PasswordRequired := "Le mot de passe est requis"

  /** Both rules pass: a non-blank email matching the pattern, and a non-empty password of any length. */
  predicate LoginValid(email: string, password: string) {
    !IsBlank(email) && Validation.IsEmail(email) && password != ""
  }

  /** `errors` holds one message per failing rule and nothing else. */
  predicate ReportsLoginErrors(errors: map<LoginField, string>, email: string, password: string) {
    && errors.Keys <= {Email, Password}
    && (Email in errors <==> IsBlank(email) || !Validation.IsEmail(email))
    && (Email in errors ==> errors[Email] == if IsBlank(email) then EmailRequired else EmailMalformed)
    && (Password in errors <==> password == "")
    && (Password in errors ==> errors[Password] == PasswordRequired)
  }

  /** `validateForm`'s rules on the entered values. */
  method ValidateLogin(email: string, password: string) returns (errors: map<LoginField, string>, ok: bool)
    ensures ReportsLoginErrors(errors, email, password)
    ensures ok <==> errors == map[]
    ensures ok <==> LoginValid(email, password)
  {
    errors := map[];
    var blank := Validation.TrimsToEmpty(email);
    if blank {
      errors := errors[Email := EmailRequired];
    } else if !Validation.IsEmail(email) {
      errors := errors[Email := EmailMalformed];
    }
    if password == "" {
      errors := errors[Password := PasswordRequired];
    }
    ok := errors == map[];
    assert ok ==> Email !in errors && Password !in errors;
  }

  /** `email.split('@')[0]`, the display name given to a newly signed-in user. */
  function DisplayName(email: string): (name: string)
    ensures '@' !in name && |name| <= |email| && name == email[..|name|]
    ensures '@' in email ==> email[|name|] == '@'
    ensures '@' !in email ==> name == email
  {
    if '@' !in email then TakeUntilWhole(email, '@'); FirstField(email, '@') else FirstField(email, '@')
  }

  /** The name of `local@domain` is `local` whenever `local` holds no '@'. */
  lemma DisplayNameOfAddress(local: string, domain: string)
    requires '@' !in local
    ensures DisplayName(local + "@" + domain) == local
  {
    TakeUntilStopsAt(local, '@', domain);
  }

  /** `{ email, name, isLoggedIn: true }`. */
  function StoredUser(email: string): (u: User)
    ensures u.Keys == {"email", "name", "isLoggedIn"}
    ensures u["email"] == Str(email) && u["name"] == Str(DisplayName(email)) && u["isLoggedIn"] == Bool(true)
  {
    map["email" := Str(email), "name" := Str(DisplayName(email)), "isLoggedIn" := Bool(true)]
  }

  class LoginForm {
    const store: Store
    var email: string
    var password: string
    var rememberMe: bool
    var errors: map<LoginField, string>
    var isLoading: bool
    var isClosing: bool
    /** How many times `onClose` has been called. */
    var closeCount: nat

    constructor(s: Store)
      ensures store == s && email == "" && password == "" && !rememberMe && errors == map[]
      ensures !isLoading && !isClosing && closeCount == 0
    {
      store := s;
      email := "";
      password := "";
      rememberMe := false;
      errors := map[];
      isLoading := false;
      isClosing := false;
      closeCount := 0;
    }

    /** `handleChange` on the email or password input: the value is stored and only that field's error is cleared. */
    method EditText(f: LoginField, value: string)
      requires f.Email? || f.Password?
      modifies this`email, this`password, this`errors
      ensures f.Email? ==> email == value && password == old(password)
      ensures f.Password? ==> password == value && email == old(email)
      ensures errors == Validation.ClearFieldError(old(errors), f)
    {
      if f.Email? {
        email := value;
      } else {
        password := value;
      }
      errors := Validation.ClearFieldError(errors, f);
    }

    /** `handleChange` on the "remember me" checkbox. */
    method SetRememberMe(checked: bool)
      modifies this`rememberMe, this`errors
      ensures rememberMe == checked && errors == Validation.ClearFieldError(old(errors), RememberMe)
    {
      rememberMe := checked;
      errors := Validation.ClearFieldError(errors, RememberMe);
    }

    method Validate() returns (ok: bool)
      modifies this`errors
      ensures ReportsLoginErrors(errors, email, password)
      ensures ok <==> LoginValid(email, password)
    {
      var found;
      found, ok := ValidateLogin(email, password);
      errors := found;
    }

    /** `handleClose` starts the closing animation. */
    method RequestClose()
      modifies this`isClosing
      ensures isClosing
    {
      isClosing := true;
    }

    /** The 300 ms timer: the parent is told and the form is emptied. */
    method CloseElapsed()
      requires isClosing
      modifies this`isClosing, this`closeCount, this`email, this`password, this`rememberMe, this`errors
      ensures !isClosing && closeCount == old(closeCount) + 1
      ensures email == "" && password == "" && !rememberMe && errors == map[]
    {
      closeCount := closeCount + 1;
      isClosing := false;
      email := "";
      password := "";
      rememberMe := false;
      errors := map[];
    }

    /**
     * `handleSubmit`: an invalid form stops at validation; a valid one stores the signed-in user
     * under `csa_user` and starts closing.
     */
    method Submit() returns (ok: bool)
      modifies this`errors, this`isLoading, this`isClosing, store`local
      ensures ReportsLoginErrors(errors, email, password)
      ensures ok <==> LoginValid(email, password)
      ensures ok ==> store.local == old(store.local)[UserKey := Record(StoredUser(email))] && isClosing
      ensures !ok ==> store.local == old(store.local) && isClosing == old(isClosing)
      ensures ok ==> !isLoading
      ensures !ok ==> isLoading == old(isLoading)
    {
      ok := Validate();
      if !ok {
        return;
      }
      isLoading := true;
      store.local := store.local[UserKey := Record(StoredUser(email))];
      RequestClose();
      isLoading := false;
    }
  }
}
