/*******************************************************************************
 *  The scoped (thread-local) session registry of `RepositoryBase`. Only the
 *  registry's presence is modelled; which session each thread receives is
 *  left to the registry.
 *******************************************************************************/
module ScopedSessions {
  import opened Wrappers
  import opened RepoState

  /** `_create_thread_safe_session`: builds the registry unless the scoped
      flag is already set. */
  function CreateThreadSafeSession(r: Repo): (s: Step<()>)
    ensures s.outcome == Ok && s.calls == []
    ensures SameLocal(r, s.repo)
    ensures s.repo.activeScoped
    ensures r.activeScoped ==> s.repo == r
    ensures !r.activeScoped ==> s.repo.registry
    ensures Invariant(r) ==> Invariant(s.repo) && s.repo.registry
  {
    if !r.activeScoped then Done(r.(registry := true, activeScoped := true), [], None)
    else Done(r, [], None)
  }

  /** `_remove_thread_safe_sessions(force)`: asks the registry to drop its
      thread-local sessions, only when forced; no flag is reset. */
  function RemoveThreadSafeSessions(r: Repo, force: bool): (s: Step<()>)
    ensures s.outcome == Ok && s.repo == r
    ensures s.calls == [] || s.calls == [RegistryRemove]
    ensures RegistryRemove in s.calls <==> r.activeScoped && force
  {
    if r.activeScoped && force then Done(r, [RegistryRemove], None)
    else Done(r, [], None)
  }

  /** `__scoped_session_close`: when a registry is stored, removes its
      sessions, drops it and clears the scoped flag. */
  function ScopedSessionClose(r: Repo): (s: Step<()>)
    ensures s.outcome == Ok && SameLocal(r, s.repo)
    ensures !s.repo.registry
    ensures s.calls == [] || s.calls == [RegistryRemove]
    ensures RegistryRemove in s.calls <==> r.registry
    ensures r.registry ==> !s.repo.activeScoped
    ensures !r.registry ==> s.repo == r
    ensures Invariant(r) ==> Invariant(s.repo) && !s.repo.activeScoped
  {
    if r.registry then Done(r.(registry := false, activeScoped := false), [RegistryRemove], None)
    else Done(r, [], None)
  }

  /** `base_query_on`: for a Base instance, makes sure the registry exists and
      returns its query property. A class raises UnknownModel; an instance of
      a class outside Base raises AttributeError while the UnknownModel
      message is built. */
  function BaseQueryOn(r: Repo, target: Arg): (s: Step<Query>)
    ensures s.outcome in {Ok, UnknownModel, AttributeError} && s.calls == []
    ensures s.outcome == Ok <==> IsBaseInstance(target)
    ensures s.outcome == UnknownModel <==> target.ClassArg?
    ensures s.outcome == AttributeError <==> target.InstanceArg? && !target.obj.model.isBase
    ensures s.outcome != Ok ==> s.repo == r && s.value == None
    ensures s.outcome == Ok ==>
      && s.repo == CreateThreadSafeSession(r).repo
      && s.repo.activeScoped
      && s.value == Some(ScopedProperty(target.obj))
    ensures SameLocal(r, s.repo)
    ensures Invariant(r) ==> Invariant(s.repo)
    ensures Invariant(r) && s.outcome == Ok ==> s.repo.registry
  {
    if !IsBaseInstance(target) then Raise(r, UnknownModelThrown(target))
    else
      var r' := if r.activeScoped then r else CreateThreadSafeSession(r).repo;
      Done(r', [], Some(ScopedProperty(target.obj)))
  }
}
