/** `dmutils/terms_of_use.py`: a session flag that sends a user to review
    updated terms of use, and the request hook that does the sending. */
module TermsOfUse {

  import opened Results
  import opened Text
  import opened Values

  const NeedsUpdateSessionVar := "terms_update"
  const ReviewUrl := "/terms-updated"
  const TermsUrl := "/terms-of-use"
  const WhitelistedUrls: seq<string> := [ReviewUrl, TermsUrl, "/logout"]

  /** The Flask session of the current request. */
  class Session {
    var entries: map<string, Value>

    constructor(entries: map<string, Value>)
      ensures this.entries == entries
    {
      this.entries := entries;
    }

    /** `needs_acceptance_update()`: the flag, `False` when never set. */
    function NeedsAcceptanceUpdate(): (r: Value)
      reads this
      ensures NeedsUpdateSessionVar !in entries ==> r == Bool(false)
    {
      if NeedsUpdateSessionVar in entries then entries[NeedsUpdateSessionVar] else Bool(false)
    }

    /** `set_session_flag(needs_update)`: only the flag changes, and it is
      then what `needs_acceptance_update` reports. */
    method SetSessionFlag(needsUpdate: Value)
      modifies this
      ensures entries == old(entries)[NeedsUpdateSessionVar := needsUpdate]
      ensures NeedsAcceptanceUpdate() == needsUpdate
    {
      entries := entries[NeedsUpdateSessionVar := needsUpdate];
    }
  }

  /** A 302 redirect to a location. */
  datatype Redirect = Redirect(location: string, code: int)

  /** `redirect_for_update()`, run before each request: a redirect to the
      review page, or `None` to let the request through.  `staticPath` is
      the application's static URL prefix. */
  function RedirectForUpdate(session: Session, path: string, staticPath: string): (r: Option<Redirect>)
    reads session
  {
    if Truthy(session.NeedsAcceptanceUpdate()) && path !in WhitelistedUrls && !StartsWith(path, staticPath)
    then Some(Redirect(ReviewUrl, 302))
    else None
  }

  /** A request is sent to the review page exactly when the flag is set, and
      the path is neither one of the three pages a user must still reach
      nor a static file. */
  lemma {:induction false} RedirectWhen(session: Session, path: string, staticPath: string)
    ensures RedirectForUpdate(session, path, staticPath).Some? <==>
              (Truthy(session.NeedsAcceptanceUpdate())
               && path != ReviewUrl && path != TermsUrl && path != "/logout"
               && !StartsWith(path, staticPath))
    ensures RedirectForUpdate(session, path, staticPath).Some? ==>
              RedirectForUpdate(session, path, staticPath) == Some(Redirect("/terms-updated", 302))
  {
  }

  /** A session that never had the flag set redirects nowhere. */
  lemma {:induction false} NoFlagNoRedirect(session: Session, path: string, staticPath: string)
    requires NeedsUpdateSessionVar !in session.entries
    ensures RedirectForUpdate(session, path, staticPath).None?
  {
  }
}
