/*******************************************************************************
 *  The local-session lifecycle of `RepositoryBase`: opening a session,
 *  reading it, calling the instance, committing and closing.
 *******************************************************************************/
module LocalSessions {
  import opened Wrappers
  import opened RepoState

  /** `_create_session`: refuses while a session is active, otherwise stores
      what the factory returned and marks it active. */
  function CreateSession(r: Repo, made: Product): (s: Step<()>)
    ensures s.outcome in {Ok, SessionIsOpen}
    ensures s.outcome == SessionIsOpen <==> r.active
    ensures r.active ==> s.repo == r
    ensures !r.active ==> s.repo.active && s.repo.local == Some(made)
    ensures s.repo.pending == r.pending && SameScoped(r, s.repo)
    ensures s.calls == []
    ensures Invariant(r) ==> Invariant(s.repo)
  {
    if r.active then Raise(r, SessionIsOpen)
    else Done(Stored(r, made), [], None)
  }

  /** The `local_session` property: the live handle, or NoOpenSession when no
      session object is active. */
  function LocalSession(r: Repo): (s: Step<Handle>)
    ensures s.repo == r && s.calls == []
    ensures s.outcome in {Ok, NoOpenSession}
    ensures s.outcome == NoOpenSession <==> !HasLiveSession(r)
    ensures !r.active ==> s.outcome == NoOpenSession
    ensures s.outcome == Ok ==> s.value == Some(r.local.value.handle)
  {
    if !HasLiveSession(r) then Raise(r, NoOpenSession)
    else Done(r, [], Some(LiveHandle(r)))
  }

  /** `__call__`: opens a session from the factory unless one is active, and
      returns whatever is stored; it never raises. */
  function Invoke(r: Repo, made: Product): (s: Step<Option<Product>>)
    ensures s.outcome == Ok && s.calls == []
    ensures s.repo.active
    ensures s.value == Some(s.repo.local)
    ensures r.active ==> s.repo == r
    ensures !r.active ==> s.repo.local == Some(made)
    ensures s.repo.pending == r.pending && SameScoped(r, s.repo)
    ensures Invariant(r) ==> Invariant(s.repo) && s.repo.local.Some?
  {
    var r' := if r.active then r else Stored(r, made);
    Done(r', [], Some(r'.local))
  }

  /** `_commit_session`. With a live session and a pending commit it commits,
      rolls back when the database refuses, and always closes and releases;
      only a successful commit clears the pending flag. With no active
      session it raises NoOpenSession; with nothing pending it does nothing,
      because the no-pending-commit thrower has an empty body. */
  function CommitSession(r: Repo, commitOk: bool): (s: Step<()>)
    ensures s.outcome in {Ok, NoOpenSession}
    ensures s.outcome == NoOpenSession <==> !r.active
    ensures !(HasLiveSession(r) && r.pending) ==> s.repo == r && s.calls == []
    ensures HasLiveSession(r) && r.pending ==>
      && !s.repo.active && s.repo.local == None
      && (s.repo.pending <==> !commitOk)
      && SameScoped(r, s.repo)
      && |s.calls| >= 2
      && s.calls[0] == SessionCall(LiveHandle(r), Commit)
      && s.calls[|s.calls| - 1] == SessionCall(LiveHandle(r), Close)
      && (SessionCall(LiveHandle(r), Rollback) in s.calls <==> !commitOk)
    ensures Invariant(r) ==> Invariant(s.repo)
  {
    if HasLiveSession(r) && r.pending then
      var h := LiveHandle(r);
      if commitOk then
        Done(Released(r.(pending := false)), [SessionCall(h, Commit), SessionCall(h, Close)], None)
      else
        Done(Released(r), [SessionCall(h, Commit), SessionCall(h, Rollback), SessionCall(h, Close)], None)
    else if !r.active then
      Raise(r, NoOpenSession)
    else
      Done(r, [], None)
  }

  /** `_close_session(force)`. Without a live session it does nothing. With
      one: forced, it closes and releases, keeping the pending flag; unforced
      with a pending commit it is `_commit_session`; otherwise it closes. */
  function CloseSession(r: Repo, force: bool, commitOk: bool): (s: Step<()>)
    ensures s.outcome == Ok
    ensures !HasLiveSession(r) ==> s.repo == r && s.calls == []
    ensures HasLiveSession(r) ==>
      && !s.repo.active && s.repo.local == None && SameScoped(r, s.repo)
      && |s.calls| > 0 && s.calls[|s.calls| - 1] == SessionCall(LiveHandle(r), Close)
    ensures HasLiveSession(r) && (force || !r.pending) ==> s.calls == [SessionCall(LiveHandle(r), Close)]
    ensures HasLiveSession(r) && !force && r.pending ==> s == CommitSession(r, commitOk)
    ensures s.repo.pending != r.pending <==> HasLiveSession(r) && !force && r.pending && commitOk
    ensures Invariant(r) ==> Invariant(s.repo)
  {
    if HasLiveSession(r) then
      if force then Done(Released(r), [SessionCall(LiveHandle(r), Close)], None)
      else if r.pending then CommitSession(r, commitOk)
      else Done(Released(r), [SessionCall(LiveHandle(r), Close)], None)
    else
      Done(r, [], None)
  }
}
