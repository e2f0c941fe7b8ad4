/*******************************************************************************
 *  The CRUD mediators of `RepositoryBase`: create, read and update, with the
 *  model-class check (`Base` inheritance) and the update-key check.
 *******************************************************************************/
module Crud {
  import opened Wrappers
  import opened RepoState
  import LocalSessions
  import TransactionScope

  /** A key of the update dictionary: a string, an instrumented attribute
      (`cls.column`, carrying its `.key` name), or any other object. */
  datatype UpdateKey = StrKey(name: string) | AttrKey(key: string) | OtherKey

  /** The check `_update_object` makes of one key, with its branches in the
      order it tests them: the exception it raises, if any. */
  function KeyError(m: Model, k: UpdateKey): Option<Outcome> {
    match k
    case StrKey(n) => if n in m.attrs then None else Some(UnknownColumn)
    case AttrKey(n) => if n in m.attrs then None else Some(UnknownUpdateKey)
    case OtherKey => Some(UnknownColumn)
  }

  /** Position of the first key, in dictionary order, that the check rejects;
      `|keys|` when every key passes. */
  function FirstBadKey(m: Model, keys: seq<UpdateKey>): (i: nat)
    ensures i <= |keys|
    ensures forall j | 0 <= j < i :: KeyError(m, keys[j]).None?
    ensures i < |keys| ==> KeyError(m, keys[i]).Some?
    decreases |keys|
  {
    if |keys| == 0 then 0
    else if KeyError(m, keys[0]).Some? then 0
    else 1 + FirstBadKey(m, keys[1..])
  }

  /** `__create_query`: an unbound query on a Base class. */
  function CreateQuery(r: Repo, m: Model): (s: Step<Query>)
    ensures s.repo == r && s.calls == []
    ensures s.outcome in {Ok, UnknownModel}
    ensures s.outcome == Ok <==> m.isBase
    ensures s.outcome == Ok ==> s.value == Some(Unbound(m))
  {
    if m.isBase then Done(r, [], Some(Unbound(m))) else Raise(r, UnknownModel)
  }

  /** `__bind_current_session_to_query`: binds a query to the live local
      session, or raises NoOpenSession. */
  function BindCurrentSession(r: Repo, q: Query): (s: Step<BoundQuery>)
    ensures s.repo == r && s.calls == []
    ensures s.outcome in {Ok, NoOpenSession}
    ensures s.outcome == Ok <==> HasLiveSession(r)
    ensures s.outcome == Ok ==> s.value == Some(BoundQuery(q, r.local.value.handle))
  {
    if HasLiveSession(r) then Done(r, [], Some(BoundQuery(q, LiveHandle(r))))
    else Raise(r, NoOpenSession)
  }

  /** `_read_object`: an unbound query on a Base class; state is untouched. */
  function ReadObject(r: Repo, m: Model): (s: Step<Query>)
    ensures s.repo == r && s.calls == []
    ensures s.outcome in {Ok, UnknownModel}
    ensures s.outcome == UnknownModel <==> !m.isBase
    ensures s.outcome == Ok ==> s.value == Some(Unbound(m))
  {
    if m.isBase then CreateQuery(r, m) else Raise(r, UnknownModel)
  }

  /** `_update_object`: checks the class, then every key in order; the first
      rejected key decides the exception. Only when all pass is the pending
      flag set, whether or not a session is active. */
  function UpdateObject(r: Repo, m: Model, keys: seq<UpdateKey>): (s: Step<Query>)
    ensures s.calls == []
    ensures s.outcome in {Ok, UnknownModel, UnknownColumn, UnknownUpdateKey}
    ensures s.outcome == UnknownModel <==> !m.isBase
    ensures s.outcome == Ok <==> m.isBase && forall i | 0 <= i < |keys| :: KeyError(m, keys[i]).None?
    ensures s.outcome != Ok ==> s.repo == r && s.value == None
    ensures s.outcome == Ok ==> s.repo == r.(pending := true) && s.value == Some(Unbound(m))
    ensures m.isBase && s.outcome != Ok ==>
      exists i | 0 <= i < |keys| ::
        && KeyError(m, keys[i]) == Some(s.outcome)
        && forall j | 0 <= j < i :: KeyError(m, keys[j]).None?
    ensures Invariant(r) ==> Invariant(s.repo)
  {
    if !m.isBase then Raise(r, UnknownModel)
    else
      var i := FirstBadKey(m, keys);
      if i < |keys| then Raise(r, KeyError(m, keys[i]).value)
      else CreateQuery(r.(pending := true), m)
  }

  /** `_create_object(obj, autoCommit)`. Anything but a Base instance is
      refused with no change: a class with UnknownModel, an instance of a
      class outside Base with AttributeError, raised while the UnknownModel
      message is built. With auto-commit the object is added inside a session
      scope and no repository field changes. Otherwise the live local session
      is reused, or one is created from the factory, the object is added to
      it and the pending flag is set. */
  function CreateObject(r: Repo, target: Arg, autoCommit: bool, made: Product, commitOk: bool): (s: Step<()>)
    ensures s.outcome == UnknownModel <==> target.ClassArg?
    ensures !IsBaseInstance(target) ==> s.repo == r && s.calls == []
    ensures target.InstanceArg? && !target.obj.model.isBase ==> s.outcome == AttributeError
    ensures autoCommit ==> s.repo == r
    ensures IsBaseInstance(target) && autoCommit ==>
      var sc := TransactionScope.SessionScope(made, [Add(target.obj)], TransactionScope.Completes, commitOk);
      s.outcome == sc.outcome && s.calls == sc.calls
    ensures s.outcome == SessionIsOpen <==>
      IsBaseInstance(target) && !autoCommit && r.active && !HasLiveSession(r)
    ensures s.outcome == SessionIsOpen ==> s.repo == r && s.calls == []
    ensures IsBaseInstance(target) && !autoCommit && (HasLiveSession(r) || (!r.active && made.Session?)) ==>
      && s.outcome == Ok
      && HasLiveSession(s.repo) && s.repo.pending
      && s.calls == [SessionCall(LiveHandle(s.repo), Add(target.obj))]
      && (HasLiveSession(r) ==> s.repo.local == r.local)
      && (!r.active ==> s.repo.local == Some(made))
    ensures IsBaseInstance(target) && !autoCommit && !r.active && made.NonSession? ==>
      s.outcome == AttributeError && s.repo == Stored(r, made) && s.calls == []
    ensures SameScoped(r, s.repo)
    ensures Invariant(r) ==> Invariant(s.repo)
  {
    if !IsBaseInstance(target) then Raise(r, UnknownModelThrown(target))
    else if autoCommit then
      var sc := TransactionScope.SessionScope(made, [Add(target.obj)], TransactionScope.Completes, commitOk);
      Step(r, sc.outcome, sc.calls, None)
    else
      var ready := if HasLiveSession(r) then Done(r, [], None) else LocalSessions.CreateSession(r, made);
      if ready.outcome != Ok then ready
      else if HasLiveSession(ready.repo) then
        Done(ready.repo.(pending := true), [SessionCall(LiveHandle(ready.repo), Add(target.obj))], None)
      else
        Raise(ready.repo, AttributeError)
  }
}
