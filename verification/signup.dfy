/** The sign-up form's validation. It only checks the fields: nothing is stored. */
module SignUp {
  import opened Session

  datatype Verdict = Rejected(message: string) | Accepted(route: Route)

  const Mismatch := "Passwords do not match!"
  const MissingField := "Please fill in all fields."

  /** The password match is checked first, then that every field is filled. */
  function Submit(username: string, email: string, password: string, confirm: string): (r: Verdict)
    ensures password != confirm ==> r == Rejected(Mismatch)
    ensures password == confirm && (username == "" || email == "" || password == "") ==>
      r == Rejected(MissingField)
    ensures r.Accepted? <==> password == confirm && username != "" && email != "" && password != ""
    ensures r.Accepted? ==> r.route == Entry
  {
    if password != confirm then Rejected(Mismatch)
    else if username == "" || email == "" || password == "" || confirm == "" then Rejected(MissingField)
    else Accepted(Entry)
  }

  /** An empty confirmation under a typed password is reported as a mismatch, not as a
      missing field, because the match is checked first. */
  lemma EmptyConfirmIsMismatch(username: string, email: string, password: string)
    requires password != ""
    ensures Submit(username, email, password, "") == Rejected(Mismatch)
  {
  }
}
