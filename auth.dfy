/** Where the session cookie comes from: the `BB_COOKIES` environment
    variable, else the cookie file, else a fresh login. */
module Auth {

  import opened Wrappers

  /** A session cookie jar as a name-to-value dictionary. */
  type Cookies = map<string, string>

  /** The two places a cookie is kept: the environment variable and the
      cookie file (None when unset / when the file does not exist). */
  datatype Credentials = Credentials(env: Option<Cookies>, file: Option<Cookies>)

  /** Which branch the credential set-up takes; each one logs its own line. */
  datatype AuthPath = EnvAlreadySet | LoadedFromFile | LoggedIn

  /** The branch taken for the credentials found. It has its own name
      because each branch announces itself with its own log line, and
      because "no login happens" is a fact about the branch, not about the
      credentials it leaves. */
  function PathFor(c: Credentials): (p: AuthPath)
    ensures p == LoggedIn <==> c.env.None? && c.file.None?
    ensures p == EnvAlreadySet <==> c.env.Some?
  {
    if c.env.Some? then EnvAlreadySet
    else if c.file.Some? then LoadedFromFile
    else LoggedIn
  }

  /** The credentials after set-up, given what a login would return. */
  function ResolveAuth(c: Credentials, login: Cookies): (r: Credentials)
    ensures r.env.Some?
    ensures c.env.Some? ==> r == c
    ensures c.file.Some? ==> r.file == c.file
    ensures c.env.None? ==> r.env == r.file
    ensures c.env.None? && c.file.None? ==> r.file == Some(login)
  {
    if c.env.Some? then c
    else if c.file.Some? then Credentials(c.file, c.file)
    else Credentials(Some(login), Some(login))
  }

  /** A second set-up finds the variable set: it changes nothing and
      neither reads the file nor logs in, whatever a login would return. */
  lemma ResolveAuthIdempotent(c: Credentials, login: Cookies, login': Cookies)
    ensures PathFor(ResolveAuth(c, login)) == EnvAlreadySet
    ensures ResolveAuth(ResolveAuth(c, login), login') == ResolveAuth(c, login)
  {
  }

  /** The login result matters only on the login branch: once a cookie is
      stored anywhere, the outcome does not depend on it. */
  lemma LoginIgnoredWhenStored(c: Credentials, login: Cookies, login': Cookies)
    requires PathFor(c) != LoggedIn
    ensures ResolveAuth(c, login) == ResolveAuth(c, login')
  {
  }
}
