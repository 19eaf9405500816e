/** The admin credential check. The identifier and password constants live
    in a constants file that is not part of this model; they are parameters
    here. The handler itself is `App.ExamSession.Login`. */
module AdminLogin {

  /** The single message shown for any failed attempt. */
  const InvalidCredentials: string := "Invalid credentials. Access denied."

  /** Exact string equality on both fields: no hashing, no normalisation. */
  predicate CredentialsMatch(id: string, password: string, adminId: string, adminPass: string)
  {
    id == adminId && password == adminPass
  }
}
