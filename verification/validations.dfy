/**
 * The zod schemas of the application as issue lists: each schema reports
 * one issue per failed check, in field order, with the message the schema
 * declares (or zod's own default where it declares none). A form is valid
 * exactly when its issue list is empty.
 *
 * zod's e-mail and UUID formats are the parameters of `Validators`.
 * Lengths count characters.
 */
module Validations {
  import opened Common

  datatype Validators = Validators(isEmail: string -> bool, isUuid: string -> bool)

  /** A validation issue: the field it is reported on and its message. */
  datatype Issue = Issue(path: string, message: string)

  const InvalidEmail: string := "Email inválido"
  const NameTooShort: string := "El nombre debe tener al menos 2 caracteres"
  const PasswordMismatch: string := "Las contraseñas no coinciden"

  /** One issue on `path` when `ok` fails. */
  function Check(ok: bool, path: string, message: string): (r: seq<Issue>)
    ensures ok <==> r == []
    ensures !ok ==> r == [Issue(path, message)]
  {
    if ok then [] else [Issue(path, message)]
  }

  /** `z.string().min(k, message)`. */
  function MinLength(s: string, k: nat, path: string, message: string): (r: seq<Issue>)
    ensures r == [] <==> |s| >= k
  {
    Check(|s| >= k, path, message)
  }

  // loginSchema

  /** A login form passes exactly when the e-mail is well formed and a password was typed. */
  function LoginIssues(email: string, password: string, v: Validators): (r: seq<Issue>)
    ensures r == [] <==> v.isEmail(email) && password != []
    ensures |r| <= 2
  {
    Check(v.isEmail(email), "email", InvalidEmail)
    + MinLength(password, 1, "password", "La contraseña es requerida")
  }

  // signupSchema

  /**
   * The field checks and then the refinement: zod still runs the refinement
   * when only string checks failed, so a mismatch is reported alongside them.
   */
  function SignupIssues(name: string, organizationName: string, email: string,
                        password: string, confirmPassword: string, v: Validators): (r: seq<Issue>)
    ensures r == [] <==>
      && |name| >= 2 && |organizationName| >= 2 && v.isEmail(email)
      && |password| >= 6 && confirmPassword == password
  {
    MinLength(name, 2, "name", NameTooShort)
    + MinLength(organizationName, 2, "organizationName",
        "El nombre de la organización debe tener al menos 2 caracteres")
    + Check(v.isEmail(email), "email", InvalidEmail)
    + MinLength(password, 6, "password", "La contraseña debe tener al menos 6 caracteres")
    + Check(password == confirmPassword, "confirmPassword", PasswordMismatch)
  }

  /** The mismatch is reported on `confirmPassword`, whatever else is wrong. */
  lemma SignupMismatchReported(name: string, organizationName: string, email: string,
                               password: string, confirmPassword: string, v: Validators)
    ensures var issues := SignupIssues(name, organizationName, email, password, confirmPassword, v);
      (Issue("confirmPassword", PasswordMismatch) in issues <==> password != confirmPassword)
  {
    var issues := SignupIssues(name, organizationName, email, password, confirmPassword, v);
    if password != confirmPassword {
      assert issues[|issues| - 1] == Issue("confirmPassword", PasswordMismatch);
    }
  }

  // expenseSchema (the shared one)

  /** A JavaScript `Date`: a time value, or the invalid date. */
  datatype DateValue = ValidDate(time: int) | InvalidDate

  datatype ExpenseInput = ExpenseInput(
    vendor: string,
    amountGross: real,
    categoryId: string,
    expenseDate: DateValue,
    notes: Option<string>,
    projectCodeId: Option<string>)

  /** Notes never fail; a project code is checked only when given. */
  function ExpenseIssues(e: ExpenseInput, v: Validators): (r: seq<Issue>)
    ensures r == [] <==>
      && e.vendor != [] && e.amountGross >= 0.01 && v.isUuid(e.categoryId)
      && e.expenseDate.ValidDate?
      && (e.projectCodeId.Some? ==> v.isUuid(e.projectCodeId.value))
  {
    MinLength(e.vendor, 1, "vendor", "El proveedor es requerido")
    + Check(e.amountGross >= 0.01, "amount_gross", "El importe debe ser mayor a 0")
    + Check(v.isUuid(e.categoryId), "category_id", "Categoría inválida")
    + Check(e.expenseDate.ValidDate?, "expense_date", "Invalid date")
    + Check(e.projectCodeId.None? || v.isUuid(e.projectCodeId.value), "project_code_id", "Invalid uuid")
  }

  // invitationSchema

  function InvitationIssues(email: string, role: string, v: Validators): (r: seq<Issue>)
    ensures r == [] <==> v.isEmail(email) && (role == "ADMIN" || role == "EMPLOYEE")
  {
    Check(v.isEmail(email), "email", InvalidEmail)
    + Check(role in {"ADMIN", "EMPLOYEE"}, "role",
        "Invalid enum value. Expected 'ADMIN' | 'EMPLOYEE', received '" + role + "'")
  }

  // organizationUpdateSchema

  /** `/^[a-z0-9-]+$/`. */
  predicate SlugPattern(slug: string) {
    |slug| >= 1 && forall i :: 0 <= i < |slug| ==> SlugChar(slug[i])
  }

  predicate SlugChar(c: char) {
    ('a' <= c <= 'z') || ('0' <= c <= '9') || c == '-'
  }

  /** Both slug checks run, so a one-letter upper-case slug gets two issues. */
  function OrganizationIssues(name: string, slug: string): (r: seq<Issue>)
    ensures r == [] <==>
      |name| >= 2 && |slug| >= 2 && forall i :: 0 <= i < |slug| ==> SlugChar(slug[i])
  {
    MinLength(name, 2, "name", NameTooShort)
    + MinLength(slug, 2, "slug", "El slug debe tener al menos 2 caracteres")
    + Check(SlugPattern(slug), "slug", "El slug solo puede contener letras minúsculas, números y guiones")
  }

  /** Every failed check is reported: the issues add up, one per check that fails. */
  lemma OrganizationIssuesAccumulate(name: string, slug: string)
    ensures |OrganizationIssues(name, slug)| ==
      (if |name| >= 2 then 0 else 1) + (if |slug| >= 2 then 0 else 1) + (if SlugPattern(slug) then 0 else 1)
    ensures |slug| == 1 && !SlugChar(slug[0]) ==> |OrganizationIssues(name, slug)| >= 2
  {
  }

  // profileUpdateSchema

  /** The department and the region are optional strings and never fail. */
  function ProfileIssues(name: string, department: Option<string>, region: Option<string>): (r: seq<Issue>)
    ensures r == [] <==> |name| >= 2
  {
    MinLength(name, 2, "name", NameTooShort)
  }
}
