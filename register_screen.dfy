/** The validation chain of the registration form (`handleRegister` in
    app/auth/RegisterScreen.tsx): five checks in a fixed order, the first
    failing one is reported by an alert, and only when all pass is the
    account registered. The `register` call itself (a network request) is a
    parameter: its answer is given, not computed, and may be a failure. */
module RegisterScreen {

  import opened Common

  datatype Form = Form(name: string, email: string, password: string, confirmPassword: string)

  /** The arguments `register(name, email, password)` is called with. */
  datatype Credentials = Credentials(name: string, email: string, password: string)

  /** How `handleRegister` ends: an alert with a message and no call to
      `register`; a call to `register` that resolved, followed by navigation
      to the tabs exactly when it answered truthy; or a call that threw or
      rejected, which ends the handler with neither an alert nor navigation. */
  datatype Outcome =
    | Alerted(message: string)
    | Registered(call: Credentials, navigatedToTabs: bool)
    | CallFailed(call: Credentials)

  const MissingName := "Por favor introduce tu nombre"
  const MissingEmail := "Por favor introduce tu email"
  const MissingPassword := "Por favor introduce una contraseña"
  const ShortPassword := "La contraseña debe tener al menos 6 caracteres"
  const PasswordMismatch := "Las contraseñas no coinciden"

  const MinPasswordLength := 6

  /** One validation rule: whether it fails on the form, and its message. */
  datatype Check = Check(fails: bool, message: string)

  /** The rules in the order the form applies them. */
  function Checks(f: Form): (cs: seq<Check>)
    ensures |cs| == 5
  {
    [ Check(f.name == "", MissingName),
      Check(f.email == "", MissingEmail),
      Check(f.password == "", MissingPassword),
      Check(|f.password| < MinPasswordLength, ShortPassword),
      Check(f.password != f.confirmPassword, PasswordMismatch) ]
  }

  /** Check `k` is the first one that fails. */
  predicate FirstFailureAt(cs: seq<Check>, k: int) {
    0 <= k < |cs| && cs[k].fails && forall j :: 0 <= j < k ==> !cs[j].fails
  }

  /** The five checks all pass. */
  predicate AllPass(f: Form) {
    forall k :: 0 <= k < 5 ==> !Checks(f)[k].fails
  }

  /** The if-chain of early returns. `registerAnswer` is what awaiting
      `register` gives when it is called: `Some(b)` when it resolves to a
      value of truthiness `b`, `None` when it throws or rejects. */
  function HandleRegister(f: Form, registerAnswer: Option<bool>): (r: Outcome)
    ensures r.Alerted? <==> !AllPass(f)
    ensures r.Alerted? ==> exists k :: FirstFailureAt(Checks(f), k) && r.message == Checks(f)[k].message
    ensures !r.Alerted? ==> r.call == Credentials(f.name, f.email, f.password)
    ensures r.Registered? <==> AllPass(f) && registerAnswer.Some?
    ensures r.Registered? ==> (r.navigatedToTabs <==> registerAnswer.value)
    ensures r.CallFailed? <==> AllPass(f) && registerAnswer.None?
  {
    if f.name == "" then
      assert FirstFailureAt(Checks(f), 0);
      Alerted(MissingName)
    else if f.email == "" then
      assert FirstFailureAt(Checks(f), 1);
      Alerted(MissingEmail)
    else if f.password == "" then
      assert FirstFailureAt(Checks(f), 2);
      Alerted(MissingPassword)
    else if |f.password| < MinPasswordLength then
      assert FirstFailureAt(Checks(f), 3);
      Alerted(ShortPassword)
    else if f.password != f.confirmPassword then
      assert FirstFailureAt(Checks(f), 4);
      Alerted(PasswordMismatch)
    else
      match registerAnswer
      case Some(success) => Registered(Credentials(f.name, f.email, f.password), success)
      case None => CallFailed(Credentials(f.name, f.email, f.password))
  }

  /** The five messages are distinct, so the alert names one check. */
  lemma MessagesDistinct(f: Form)
    ensures forall i, j :: 0 <= i < j < 5 ==> Checks(f)[i].message != Checks(f)[j].message
  {
    var cs := Checks(f);
    assert |cs[0].message| == 29 && |cs[1].message| == 28 && |cs[2].message| == 34;
    assert |cs[3].message| == 46 && |cs[4].message| == 28;
    assert cs[1].message[0] == 'P' && cs[4].message[0] == 'L';
  }

  /** An empty password is reported as missing, not as too short. */
  lemma EmptyPasswordIsMissing(name: string, email: string, confirm: string, answer: Option<bool>)
    requires name != "" && email != ""
    ensures HandleRegister(Form(name, email, "", confirm), answer) == Alerted(MissingPassword)
  {
  }

  /** A password of exactly six characters passes the length check: with a
      matching confirmation the account is registered. */
  lemma SixCharactersSuffice(name: string, email: string, password: string, answer: Option<bool>)
    requires name != "" && email != "" && |password| == 6
    ensures !HandleRegister(Form(name, email, password, password), answer).Alerted?
  {
  }

  /** One character fewer is refused with the length message. */
  lemma FiveCharactersRefused(name: string, email: string, password: string, confirm: string, answer: Option<bool>)
    requires name != "" && email != "" && |password| == 5
    ensures HandleRegister(Form(name, email, password, confirm), answer) == Alerted(ShortPassword)
  {
  }

  /** `register` as the authentication provider in context/AuthContext.tsx
      supplies it: the context value has no `register` member, so the
      destructured name is `undefined` and calling it throws a TypeError
      before any request is made, whatever the credentials. */
  function ProvidedRegister(c: Credentials): (a: Option<bool>)
    ensures a.None?
  {
    None
  }

  /** With that provider a form that passes every check never reaches the
      tabs and shows no alert: the handler stops at the failing call. */
  lemma ValidFormNeverRegisters(f: Form)
    requires AllPass(f)
    ensures HandleRegister(f, ProvidedRegister(Credentials(f.name, f.email, f.password)))
      == CallFailed(Credentials(f.name, f.email, f.password))
  {
  }

  /** A concrete form that shows it: valid, yet the user stays on the screen. */
  lemma ValidFormExample()
    ensures var f := Form("Ana", "ana@example.com", "secreto", "secreto");
      AllPass(f) && HandleRegister(f, ProvidedRegister(Credentials(f.name, f.email, f.password))).CallFailed?
  {
    var f := Form("Ana", "ana@example.com", "secreto", "secreto");
    assert |f.password| == 7;
    ValidFormNeverRegisters(f);
  }

  /** The intended behaviour, once the provider supplies a `register` that
      resolves: a valid form calls it with the entered name, email and
      password and navigates to the tabs exactly when it answers truthy. */
  lemma ResolvingRegisterDecidesNavigation(f: Form, success: bool)
    requires AllPass(f)
    ensures HandleRegister(f, Some(success)) == Registered(Credentials(f.name, f.email, f.password), success)
    ensures HandleRegister(f, Some(success)).navigatedToTabs <==> success
  {
  }
}
