/**
 * The registration form: its empty starting state and the prefill from a Google sign-in
 * that found no account. Its input handler is `Forms.Change`.
 */
module Register {
  import opened Wrappers
  import opened Json
  import Forms

  /** The form's state together with the error line shown above it. */
  datatype Page = Page(form: Record, error: Value)

  /** The form before anything is typed. */
  function InitialForm(): (f: Record)
    ensures f.Keys == {"name", "email", "password", "phone", "address", "company"}
    ensures forall k :: k in f ==> Forms.Unfilled(f[k])
    ensures f["address"].Obj? && f["address"].fields.Keys == {"street", "city", "state", "country", "zipCode"}
    ensures f["company"].Obj? && f["company"].fields.Keys == {"name", "position"}
  {
    map["name" := Str(""), "email" := Str(""), "password" := Str(""), "phone" := Str(""),
        "address" := Forms.DefaultAddress(), "company" := Forms.DefaultCompany()]
  }

  /** The page before any navigation state is applied: the empty form and no error line. */
  function InitialPage(): (p: Page)
    ensures p.form == InitialForm()
    ensures p.error == Str("") && !Truthy(p.error)
  {
    Page(InitialForm(), Str(""))
  }

  /**
   * The effect run when navigation state arrives: with a truthy `state.email` the form takes
   * that email and `state.name || ''`, and the error becomes `state.message || ''`.
   */
  function Prefill(page: Page, state: Option<Value>): (r: Page)
    ensures state.None? || !PropTruthy(state.value, "email") ==> r == page
    ensures state.Some? && PropTruthy(state.value, "email") ==>
      && r.form.Keys == page.form.Keys + {"email", "name"}
      && r.form["email"] == state.value.fields["email"]
      && (forall k :: k in page.form && k != "email" && k != "name" ==> r.form[k] == page.form[k])
  {
    match state
    case Some(Obj(s)) =>
      if Has(s, "email") then
        Page(page.form["email" := s["email"]]["name" := Or(s, "name", Str(""))], Or(s, "message", Str("")))
      else page
    case _ => page
  }

  /** The name and the error line come from the state, or are emptied when it has none. */
  lemma PrefillNameAndError(page: Page, s: Record)
    requires Has(s, "email")
    ensures var r := Prefill(page, Some(Obj(s)));
      && (Has(s, "name") ==> r.form["name"] == s["name"])
      && (!Has(s, "name") ==> r.form["name"] == Str(""))
      && (Has(s, "message") ==> r.error == s["message"])
      && (!Has(s, "message") ==> r.error == Str(""))
  {
  }

  /** Prefilling the initial page leaves password, phone, address and company empty. */
  lemma PrefillKeepsTheRestEmpty(s: Record)
    requires Has(s, "email")
    ensures var f := Prefill(InitialPage(), Some(Obj(s))).form;
      && f.Keys == InitialForm().Keys
      && (forall k :: k in f && k != "email" && k != "name" ==> Forms.Unfilled(f[k]))
  {
  }
}
