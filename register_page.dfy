/** The sign-up form (frontend/src/app/auth/register/page.tsx): its field record, the
    checks before the call and the field update. The form is a record from input name to
    text, as the page's object is; the register call is a parameter. */
module RegisterPage {
  import opened Common
  import opened Ui

  const PASSWORDS_DIFFER: string := "Passwords do not match"
  const PASSWORD_SHORT: string := "Password must be at least 6 characters"
  const REGISTER_FAILED: string := "Registration failed"

  const FIELDS: set<string> := {"email", "password", "confirmPassword", "firstName", "lastName", "role"}

  /** The initial form (lines 22-29). */
  const INITIAL: map<string, string> :=
    map["email" := "", "password" := "", "confirmPassword" := "", "firstName" := "", "lastName" := "", "role" := EMPLOYEE]

  /** The data passed to `register`: the form without `confirmPassword`. */
  datatype RegisterData = RegisterData(email: string, password: string, firstName: string, lastName: string, role: string)

  datatype State = State(form: map<string, string>, loading: bool, error: string)

  predicate HasFields(form: map<string, string>) {
    FIELDS <= form.Keys
  }

  /** `handleChange` (lines 68-73): the field named by the input takes its value and every
      other field keeps its own. */
  function HandleChange(form: map<string, string>, name: string, value: string): (r: map<string, string>)
    ensures r.Keys == form.Keys + {name} && r[name] == value
    ensures forall k :: k in form && k != name ==> r[k] == form[k]
    ensures HasFields(form) ==> HasFields(r)
  {
    form[name := value]
  }

  /** `handleSubmit` (lines 35-66): differing passwords are refused first, then a password
      shorter than 6 characters; otherwise register is called with the five fields and
      the loading flag ends cleared, with the call's error or the fallback on failure. */
  function HandleSubmit(st: State, result: CallResult): (r: (State, Option<RegisterData>))
    requires HasFields(st.form)
    ensures st.form["password"] != st.form["confirmPassword"] ==> r == (st.(error := PASSWORDS_DIFFER), None)
    ensures st.form["password"] == st.form["confirmPassword"] && |st.form["password"]| < 6 ==>
              r == (st.(error := PASSWORD_SHORT), None)
    ensures r.1.Some? <==> st.form["password"] == st.form["confirmPassword"] && |st.form["password"]| >= 6
    ensures r.1.Some? ==>
              && r.1.value == RegisterData(st.form["email"], st.form["password"], st.form["firstName"],
                                           st.form["lastName"], st.form["role"])
              && !r.0.loading
              && r.0.error == (if result.CallFailed? then FailureText(result.message, REGISTER_FAILED) else "")
  {
    var f := st.form;
    if f["password"] != f["confirmPassword"] then (st.(error := PASSWORDS_DIFFER), None)
    else if |f["password"]| < 6 then (st.(error := PASSWORD_SHORT), None)
    else
      var data := RegisterData(f["email"], f["password"], f["firstName"], f["lastName"], f["role"]);
      match result
      case Succeeded => (st.(loading := false, error := ""), Some(data))
      case CallFailed(message) => (st.(loading := false, error := FailureText(message, REGISTER_FAILED)), Some(data))
  }

  /** Typing matching passwords of at least six characters into the initial form is
      enough for the call to go out, with what was typed. */
  lemma TypedPasswordsAreSent(password: string, result: CallResult)
    requires |password| >= 6
    ensures var form := HandleChange(HandleChange(INITIAL, "password", password), "confirmPassword", password);
      HasFields(form) && HandleSubmit(State(form, false, ""), result).1 == Some(RegisterData("", password, "", "", EMPLOYEE))
  {
  }
}
