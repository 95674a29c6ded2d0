/**
 * The sign-in page: what a login attempt and a sign-up attempt show, which
 * wrapper they call, and how the loading flag moves. The Supabase calls are
 * represented by their outcome.
 */
module AuthPage {
  import opened Common
  import opened Ui
  import opened AuthRoles

  /** How an awaited Supabase call ended: it threw, or it returned an error or none. */
  datatype CallOutcome = Threw | Returned(error: Option<string>)

  const PasswordMismatch: string := "Las contraseñas no coinciden"
  const PasswordTooShort: string := "La contraseña debe tener al menos 6 caracteres"
  const Unexpected: Toast := Toast("Error", "Ha ocurrido un error inesperado", true)

  /**
   * The checks both sign-up forms make before calling `signUp`: the
   * confirmation first, then the length, so a mismatched short password
   * reports the mismatch.
   */
  function PasswordPrecheck(password: string, confirmPassword: string): (r: Option<string>)
    ensures r.None? <==> password == confirmPassword && |password| >= 6
    ensures password != confirmPassword ==> r == Some(PasswordMismatch)
    ensures password == confirmPassword && |password| < 6 ==> r == Some(PasswordTooShort)
  {
    if password != confirmPassword then Some(PasswordMismatch)
    else if |password| < 6 then Some(PasswordTooShort)
    else None
  }

  /** The Supabase error message a toast shows, with one message replaced by a friendlier text. */
  function MapMessage(message: string, known: string, replacement: string): (shown: string)
    ensures message == known ==> shown == replacement
    ensures message != known ==> shown == message
  {
    if message == known then replacement else message
  }

  const InvalidCredentials: string := "Invalid login credentials"
  const InvalidCredentialsText: string := "Credenciales incorrectas. Por favor, verifica tu email y contraseña."
  const AlreadyRegistered: string := "User already registered"
  const AlreadyRegisteredText: string := "Este email ya está registrado. Intenta iniciar sesión."

  /**
   * What a handler did: the toast it showed, where it navigated, the
   * `signUp` call it made, whether it switched to the login tab, and the
   * values it gave `isLoading`, in order.
   */
  datatype Effects = Effects(
    toast: Toast,
    navigate: Option<string>,
    signUp: Option<SignUpCall>,
    switchToLogin: bool,
    loading: seq<bool>)

  /** `handleLogin`: loading is set first and cleared last, whatever the outcome. */
  function HandleLogin(outcome: CallOutcome): (e: Effects)
    ensures e.loading == [true, false]
    ensures e.navigate.Some? <==> outcome == Returned(None)
    ensures e.navigate.Some? ==> e.navigate.value == "/dashboard"
    ensures e.toast.destructive <==> outcome != Returned(None)
    ensures outcome.Returned? && outcome.error.Some? ==>
      e.toast.description == MapMessage(outcome.error.value, InvalidCredentials, InvalidCredentialsText)
    ensures e.signUp.None? && !e.switchToLogin
  {
    var toast := match outcome
      case Threw => Unexpected
      case Returned(Some(message)) =>
        Toast("Error de inicio de sesión", MapMessage(message, InvalidCredentials, InvalidCredentialsText), true)
      case Returned(None) => Toast("Bienvenido", "Has iniciado sesión correctamente", false);
    Effects(toast, if outcome == Returned(None) then Some("/dashboard") else None, None, false, [true, false])
  }

  datatype SignupForm = SignupForm(
    email: string,
    password: string,
    name: string,
    confirmPassword: string,
    organizationName: string)

  /**
   * `handleSignup`. A failed pre-check shows its message and returns before
   * `isLoading` is touched; otherwise `signUp` receives the organization name
   * in its role parameter, and the outcome decides the toast.
   */
  function HandleSignup(form: SignupForm, outcome: CallOutcome): (e: Effects)
    ensures e.signUp.Some? <==> PasswordPrecheck(form.password, form.confirmPassword).None?
    ensures e.signUp.None? ==> e.loading == [] && e.toast == Toast("Error", PasswordPrecheck(form.password, form.confirmPassword).value, true)
    ensures e.signUp.Some? ==> e.loading == [true, false]
    ensures e.signUp.Some? ==> e.signUp.value == SignUpCall(form.email, form.password, form.name, form.organizationName)
    ensures e.switchToLogin <==> e.signUp.Some? && outcome == Returned(None)
    ensures e.signUp.Some? && outcome.Returned? && outcome.error.Some? ==>
      e.toast == Toast("Error de registro", MapMessage(outcome.error.value, AlreadyRegistered, AlreadyRegisteredText), true)
    ensures e.navigate.None?
  {
    match PasswordPrecheck(form.password, form.confirmPassword)
    case Some(message) => Effects(Toast("Error", message, true), None, None, false, [])
    case None =>
      var call := SignUpCall(form.email, form.password, form.name, form.organizationName);
      var toast := match outcome
        case Threw => Unexpected
        case Returned(Some(message)) =>
          Toast("Error de registro", MapMessage(message, AlreadyRegistered, AlreadyRegisteredText), true)
        case Returned(None) =>
          Toast("Cuenta creada", "Tu cuenta ha sido creada correctamente. Ya puedes iniciar sesión.", false);
      Effects(toast, None, Some(call), outcome == Returned(None), [true, false])
  }

  /** A mismatch wins over a short password, and neither reaches `signUp`. */
  lemma MismatchCheckedFirst(form: SignupForm, outcome: CallOutcome)
    requires form.password != form.confirmPassword && |form.password| < 6
    ensures HandleSignup(form, outcome).toast.description == PasswordMismatch
    ensures HandleSignup(form, outcome).signUp.None?
  {
  }

  /** Exactly six matching characters are enough to reach `signUp`. */
  lemma SixCharactersSuffice(form: SignupForm, outcome: CallOutcome)
    requires form.password == form.confirmPassword && |form.password| == 6
    ensures HandleSignup(form, outcome).signUp.Some?
  {
  }

  /** However a handler ends, `isLoading` is false afterwards. */
  lemma LoadingEndsFalse(form: SignupForm, outcome: CallOutcome)
    ensures var l := HandleSignup(form, outcome).loading; l == [] || l[|l| - 1] == false
    ensures var l := HandleLogin(outcome).loading; l[|l| - 1] == false
  {
  }
}
