/** The login state machine. The client starts logged out with no base href;
    a successful `login` records the base URL of the first link on the page
    after logging on and marks the session logged in. No operation logs out. */
module Session {
  import opened Common
  import opened Text
  import opened Server

  /** `is_logged_in` together with `base_href`: the two are only ever set
      together, so one constructor carries both. */
  datatype Session = LoggedOut | LoggedIn(baseHref: string)

  /** The text the server shows when it rejects the credentials. */
  const FailureText := "You could not be logged on to Outlook Web Access"

  /** `login`: open the logon page and select the form `logonForm` (absent:
      the browser raises), submit the credentials, reject the page carrying
      the failure text, then read the base URL of the first link (no link at
      all: the iterator raises; no base URL: `RetrievalError`). Every failure
      leaves the session as it was. */
  function Login(s: Session, server: Server): (r: Reply<Session, ()>)
    ensures r.result.Success? <==>
      && server.logonForm
      && !Contains(server.afterLogon.body, FailureText)
      && server.afterLogon.links != []
      && server.afterLogon.links[0].baseUrl != ""
    ensures r.result.Success? ==>
      r.state == LoggedIn(server.afterLogon.links[0].baseUrl) && r.state.baseHref != ""
    ensures r.result.Failure? ==> r.state == s
    ensures r.result == Failure(InvalidLogin) <==>
      server.logonForm && Contains(server.afterLogon.body, FailureText)
    ensures r.result == Failure(RetrievalError) <==>
      && server.logonForm
      && !Contains(server.afterLogon.body, FailureText)
      && server.afterLogon.links != []
      && server.afterLogon.links[0].baseUrl == ""
  {
    var page := server.afterLogon;
    if !server.logonForm then Reply(s, Failure(MissingElement))
    else if Contains(page.body, FailureText) then Reply(s, Failure(InvalidLogin))
    else if page.links == [] then Reply(s, Failure(MissingElement))
    else if page.links[0].baseUrl == "" then Reply(s, Failure(RetrievalError))
    else Reply(LoggedIn(page.links[0].baseUrl), Success(()))
  }

  /** The automatic login before an operation that needs the server: a
      logged-in session is left alone and the server is not consulted; a
      logged-out one logs in. */
  function EnsureLoggedIn(s: Session, server: Server): (r: Reply<Session, ()>)
    ensures s.LoggedIn? ==> r == Reply(s, Success(()))
    ensures s.LoggedOut? ==> r == Login(s, server)
    ensures r.result.Success? ==> r.state.LoggedIn?
    ensures r.result.Failure? ==> r.state == s
  {
    if s.LoggedIn? then Reply(s, Success(())) else Login(s, server)
  }

  /** A rejected login leaves the session logged out, so the next operation
      logs in again instead of assuming a session. */
  lemma RejectedLoginRetried(server: Server, other: Server)
    requires Login(LoggedOut, server).result.Failure?
    ensures EnsureLoggedIn(Login(LoggedOut, server).state, other) == Login(LoggedOut, other)
  {
  }
}
