/*******************************************************************************
 *  Facts relating several repository operations: what one operation leaves
 *  for the next, idempotence, and the call sequences of the example
 *  repository.
 *******************************************************************************/
module Lifecycle {
  import opened Wrappers
  import opened RepoState
  import L = LocalSessions
  import S = ScopedSessions
  import C = Crud

  /** `ExampleTable` as the mediators see it: a Base class with the mapped
      attributes `primary_key` and `timestamp`, its table name, and a sample
      of what the declarative base adds. */
  const ExampleTable: Model :=
    Model("ExampleTable", true, {"primary_key", "timestamp", "__tablename__", "__table__", "metadata"})

  /** After a successful `_create_session`, `local_session` returns the
      handle the factory produced. */
  lemma CreateThenLocalSession(r: Repo, h: Handle)
    requires !r.active
    ensures L.CreateSession(r, Session(h)).outcome == Ok
    ensures L.LocalSession(L.CreateSession(r, Session(h)).repo).value == Some(h)
  {
  }

  /** A second `_create_session` with no close in between raises
      SessionIsOpen, whatever the first did. */
  lemma CreateTwiceFails(r: Repo, m1: Product, m2: Product)
    ensures L.CreateSession(L.CreateSession(r, m1).repo, m2).outcome == SessionIsOpen
  {
  }

  /** Closing twice is closing once, for either value of `force` and any
      database answers. */
  lemma CloseIdempotent(r: Repo, force: bool, ok1: bool, ok2: bool)
    ensures var once := L.CloseSession(r, force, ok1).repo;
      L.CloseSession(once, force, ok2) == Done(once, [], None)
  {
  }

  /** `_create_thread_safe_session` twice is the same as once. */
  lemma CreateThreadSafeIdempotent(r: Repo)
    ensures var once := S.CreateThreadSafeSession(r).repo;
      S.CreateThreadSafeSession(once) == Done(once, [], None)
  {
  }

  /** `_remove_thread_safe_sessions` never resets the scoped flags, so a later
      `base_query_on` reuses the registry instead of building another. */
  lemma RemoveKeepsRegistry(r: Repo, force: bool, target: Arg)
    requires Invariant(r) && r.registry
    requires IsBaseInstance(target)
    ensures var after := S.RemoveThreadSafeSessions(r, force).repo;
      && after.registry && after.activeScoped
      && S.BaseQueryOn(after, target).repo == r
  {
  }

  /** The pending flag does not imply an active session: an update on a fresh
      repository leaves a commit pending with no session open. */
  lemma PendingWithoutSessionAfterUpdate()
    ensures var r := C.UpdateObject(Init(), ExampleTable, [C.StrKey("timestamp")]).repo;
      r.pending && !r.active
  {
  }

  /** Nor does a forced close clear it: the object added to the closed
      session stays counted as pending. */
  lemma PendingSurvivesForcedClose(obj: Obj, h: Handle, ok: bool)
    requires obj.model.isBase
    ensures var created := C.CreateObject(Init(), InstanceArg(obj), false, Session(h), ok);
      var closed := L.CloseSession(created.repo, true, ok);
      && created.outcome == Ok
      && closed.calls == [SessionCall(h, Close)]
      && closed.repo.pending && !closed.repo.active
  {
  }

  /** Nor does a commit the database refuses. */
  lemma PendingSurvivesRefusedCommit(obj: Obj, h: Handle)
    requires obj.model.isBase
    ensures var created := C.CreateObject(Init(), InstanceArg(obj), false, Session(h), false);
      var committed := L.CommitSession(created.repo, false);
      && committed.calls == [SessionCall(h, Commit), SessionCall(h, Rollback), SessionCall(h, Close)]
      && committed.repo.pending && !committed.repo.active
  {
  }

  /** An update naming a missing column raises UnknownColumn and changes
      nothing. */
  lemma UpdateUnknownColumn(r: Repo)
    ensures C.UpdateObject(r, ExampleTable, [C.StrKey("nonexistent_column")]).outcome == UnknownColumn
    ensures C.UpdateObject(r, ExampleTable, [C.StrKey("nonexistent_column")]).repo == r
  {
  }

  /** The key check asks `hasattr`, not the column list: a string key naming
      any attribute of the class, here `metadata`, passes. */
  lemma UpdateAcceptsNonColumnAttribute(r: Repo)
    ensures C.UpdateObject(r, ExampleTable, [C.StrKey("metadata")]).outcome == Ok
  {
  }

  /** Keys are checked in dictionary order: a missing attribute reference
      before a missing string key raises UnknownUpdateKey, the other way round
      UnknownColumn. */
  lemma UpdateFirstBadKeyDecides(r: Repo)
    ensures C.UpdateObject(r, ExampleTable, [C.AttrKey("missing"), C.StrKey("absent")]).outcome == UnknownUpdateKey
    ensures C.UpdateObject(r, ExampleTable, [C.StrKey("absent"), C.AttrKey("missing")]).outcome == UnknownColumn
    ensures C.UpdateObject(r, ExampleTable, [C.StrKey("timestamp"), C.OtherKey]).outcome == UnknownColumn
  {
  }

  /** A class outside Base is refused by read and update with UnknownModel
      and no change. `_create_object` and `base_query_on` test with
      `isinstance`, so every class given to them, Base or not, is refused the
      same way. */
  lemma UnknownModelEverywhere(r: Repo, m: Model, c: Model, auto: bool, made: Product, ok: bool, keys: seq<C.UpdateKey>)
    requires !m.isBase
    ensures C.ReadObject(r, m) == Raise(r, UnknownModel)
    ensures C.UpdateObject(r, m, keys) == Raise(r, UnknownModel)
    ensures C.CreateObject(r, ClassArg(c), auto, made, ok) == Raise(r, UnknownModel)
    ensures S.BaseQueryOn(r, ClassArg(c)) == Raise(r, UnknownModel)
  {
  }

  /** An instance of a class outside Base never reaches UnknownModel in
      `_create_object` or `base_query_on`: building the message reads the
      instance's `__name__`, and AttributeError escapes, with no change. */
  lemma NonBaseInstanceAttributeError(r: Repo, obj: Obj, auto: bool, made: Product, ok: bool)
    requires !obj.model.isBase
    ensures C.CreateObject(r, InstanceArg(obj), auto, made, ok) == Raise(r, AttributeError)
    ensures S.BaseQueryOn(r, InstanceArg(obj)) == Raise(r, AttributeError)
  {
  }

  /** `create_example`: an auto-commit create of an `ExampleTable` row. The
      row goes to a session of its own, which is committed (rolled back if
      the database refuses) and closed; the repository's fields stay as they
      were and no error escapes. */
  lemma CreateExample(r: Repo, id: nat, h: Handle, ok: bool)
    ensures var row := Obj(id, ExampleTable);
      var s := C.CreateObject(r, InstanceArg(row), true, Session(h), ok);
      && s.outcome == Ok && s.repo == r
      && s.calls == (if ok then [SessionCall(h, Add(row)), SessionCall(h, Commit), SessionCall(h, Close)]
                     else [SessionCall(h, Add(row)), SessionCall(h, Commit), SessionCall(h, Rollback), SessionCall(h, Close)])
  {
  }

  /** `get_example_by_id` on an idle repository: open, read, bind, close.
      Nothing is pending, so the close is a plain close and the repository
      ends as it began. (`get_example_by_id` binds to `self.session`, which
      the base class does not define; the binding here uses the live local
      session.) */
  lemma GetExampleById(r: Repo, h: Handle, ok: bool)
    requires Invariant(r) && !r.active && !r.pending
    ensures var s1 := L.CreateSession(r, Session(h));
      var s2 := C.ReadObject(s1.repo, ExampleTable);
      var s3 := C.BindCurrentSession(s2.repo, Unbound(ExampleTable));
      var s4 := L.CloseSession(s3.repo, false, ok);
      && s1.outcome == Ok && s2.outcome == Ok && s3.outcome == Ok && s4.outcome == Ok
      && s3.value == Some(BoundQuery(Unbound(ExampleTable), h))
      && s4.calls == [SessionCall(h, Close)]
      && s4.repo == r
  {
  }

  /** `update_example_by_id`: open, update, bind, commit. The session is gone
      afterwards; the update stays pending only if the database refused.
      (As with `get_example_by_id`, the binding uses the live local session
      in place of `self.session`.) */
  lemma UpdateExampleById(r: Repo, h: Handle, ok: bool)
    requires Invariant(r) && !r.active
    ensures var s1 := L.CreateSession(r, Session(h));
      var s2 := C.UpdateObject(s1.repo, ExampleTable, [C.AttrKey("timestamp")]);
      var s3 := C.BindCurrentSession(s2.repo, Unbound(ExampleTable));
      var s4 := L.CommitSession(s3.repo, ok);
      && s1.outcome == Ok && s2.outcome == Ok && s3.outcome == Ok && s4.outcome == Ok
      && s4.calls[0] == SessionCall(h, Commit)
      && !s4.repo.active && (s4.repo.pending <==> !ok)
  {
  }

  /** `self.session`, as the example repository reads it: `RepositoryBase`
      defines no `session`, so the lookup raises AttributeError and changes
      nothing. */
  function SessionAttribute(r: Repo): Step<()> {
    Raise(r, AttributeError)
  }

  /** `get_example_by_id` as written: on an active repository the open
      raises SessionIsOpen; otherwise open and read succeed, then
      `self.session` raises before the close, so the session stays live and
      every later `_create_session` raises SessionIsOpen. */
  lemma GetExampleByIdAsWritten(r: Repo, h: Handle, next: Product)
    ensures r.active ==> L.CreateSession(r, Session(h)).outcome == SessionIsOpen
    ensures !r.active ==>
      var s1 := L.CreateSession(r, Session(h));
      var s2 := C.ReadObject(s1.repo, ExampleTable);
      var s3 := SessionAttribute(s2.repo);
      && s1.outcome == Ok && s2.outcome == Ok && s3.outcome == AttributeError
      && HasLiveSession(s3.repo) && s3.repo.local == Some(Session(h))
      && s3.repo.pending == r.pending
      && L.CreateSession(s3.repo, next).outcome == SessionIsOpen
  {
  }

  /** `update_example_by_id` as written: the same abort, after the update
      has set the pending flag, so the session stays live with a commit
      pending and every later `_create_session` raises SessionIsOpen. */
  lemma UpdateExampleByIdAsWritten(r: Repo, h: Handle, next: Product)
    ensures r.active ==> L.CreateSession(r, Session(h)).outcome == SessionIsOpen
    ensures !r.active ==>
      var s1 := L.CreateSession(r, Session(h));
      var s2 := C.UpdateObject(s1.repo, ExampleTable, [C.AttrKey("timestamp")]);
      var s3 := SessionAttribute(s2.repo);
      && s1.outcome == Ok && s2.outcome == Ok && s3.outcome == AttributeError
      && HasLiveSession(s3.repo) && s3.repo.local == Some(Session(h))
      && s3.repo.pending
      && L.CreateSession(s3.repo, next).outcome == SessionIsOpen
  {
  }

  /** After a refused update commit the flag is still set, so the close at
      the end of a following `get_example_by_id` commits the read session. */
  lemma ReadAfterRefusedUpdateCommits(r: Repo, h1: Handle, h2: Handle, ok: bool)
    requires Invariant(r) && !r.active
    ensures var u1 := L.CreateSession(r, Session(h1));
      var u2 := C.UpdateObject(u1.repo, ExampleTable, [C.StrKey("timestamp")]);
      var u3 := L.CommitSession(u2.repo, false);
      var g1 := L.CreateSession(u3.repo, Session(h2));
      var g2 := L.CloseSession(g1.repo, false, ok);
      && u3.repo.pending && !u3.repo.active
      && g1.outcome == Ok
      && g2.calls[0] == SessionCall(h2, Commit)
      && (g2.repo.pending <==> !ok)
  {
  }
}
