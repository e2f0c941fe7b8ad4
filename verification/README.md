# RepositoryBase session lifecycle, in Dafny

This project models the session-lifecycle state machine of `RepositoryBase` in
alchemist-stack. alchemist-stack is a session and transaction layer over
SQLAlchemy. It also models the `Example` model-to-row conversion used by the
package's tests.

A repository instance has five fields:

- whether a local session is active;
- the stored local session object;
- whether a commit is pending;
- whether the scoped (thread-local) registry is active;
- whether that registry object is stored.

Each operation is a pure function from that state, plus the inputs the outside
world supplies, to a `Step`. A `Step` holds:

- the state when the operation returns or raises;
- the kind of exception raised, if any;
- the calls made on foreign objects (`add`, `commit`, `rollback` and `close` on
  a session, `remove()` on the registry);
- the returned value.

The outside world comes down to three inputs:

- what the session factory returns on a call: a `Session` with a handle, or an
  object that is not a session;
- whether the database accepts a commit;
- for each class, whether it derives from the declarative `Base` and which
  attribute names `hasattr` finds on it.

Modules:

- `Wrappers`: the shared option type.
- `RepoState`: the data model.
- `LocalSessions`: opening, reading, calling, committing and closing the local
  session.
- `ScopedSessions`: the scoped registry.
- `TransactionScope`: `session_scope`.
- `Crud`: the create, read and update mediators.
- `Sequences`: operation sequences and the facts that hold over all of them.
- `Lifecycle`: facts that relate several operations, and the call sequences of
  the example repository.
- `ExampleModel`: `Example`, its accessors and its conversions.

Where the code and its docstrings disagree, the model follows the code:

- `_commit_session` with an active session and nothing pending raises nothing
  and changes nothing. The no-pending-commit thrower has an empty body, and so
  does the pending-commit thrower. `NoPendingCommitException` and
  `PendingCommitException` are never raised.
- The pending flag does not imply an active session. A forced close keeps the
  flag, and so does a commit the database refuses. `_update_object` sets the
  flag even when no session is open.
- `session_scope` swallows database errors after rolling back. Two errors leave
  it: NoOpenSession, raised before the block runs when the factory returns
  something that is not a session, and the caller's own non-database errors.
- `_update_object` checks keys with `hasattr`, so any attribute of the class
  passes, not only columns.
- `base_query_on` and `_create_object` test their argument with
  `isinstance(…, Base)`, so a model class given there raises UnknownModel and
  only an instance passes. An instance of a class outside Base does not raise
  UnknownModel at all: the thrower reads the argument's `__name__` while
  building its message, and an instance has none, so AttributeError escapes.
- The default `timestamp` of `Example.__init__` is evaluated once, when the
  class is defined. Every instance built without a timestamp shares that
  instant.

## Model

| member | source | states |
|---|---|---|
| RepoState.Init | alchemist_stack/repository/__init__.py:23-40 | a new instance has no session, nothing pending and no registry, and satisfies the invariant |
| LocalSessions.CreateSession | alchemist_stack/repository/__init__.py:212-221 | raises SessionIsOpen exactly when a session is active, and then changes nothing; otherwise the factory's product is stored and active; the pending flag and the registry are untouched; the invariant is kept |
| LocalSessions.LocalSession | alchemist_stack/repository/__init__.py:157-168 | raises NoOpenSession exactly when there is no live session, so always when none is active; otherwise returns the live handle; changes nothing |
| LocalSessions.Invoke | alchemist_stack/repository/__init__.py:42-49 | never raises; afterwards a session is active; takes a product from the factory only when none was active; returns what is stored |
| LocalSessions.CommitSession | alchemist_stack/repository/__init__.py:232-254 | raises NoOpenSession exactly when inactive; with a live session and a pending commit it commits first and closes last, rolls back exactly when the database refuses, always ends with no active session and no stored handle, and clears the pending flag only on success; in every other case it changes nothing |
| LocalSessions.CloseSession | alchemist_stack/repository/__init__.py:256-272 | never raises; a no-op without a live session; with one it always ends closed and released; a forced close, or one with nothing pending, is a single close; an unforced close with a commit pending is the same step as `_commit_session`; the pending flag changes only through an accepted commit |
| ScopedSessions.CreateThreadSafeSession | alchemist_stack/repository/__init__.py:223-230 | afterwards the scoped flag is set, and the registry exists when the invariant held; it is a no-op when already active; local fields are untouched |
| ScopedSessions.RemoveThreadSafeSessions | alchemist_stack/repository/__init__.py:274-283 | calls the registry's `remove()` exactly when the registry is active and `force` is set; changes no field |
| ScopedSessions.ScopedSessionClose | alchemist_stack/repository/__init__.py:298-303 | with a registry: removes its sessions, drops it and clears the flag; without one: changes nothing; local fields are untouched |
| ScopedSessions.BaseQueryOn | alchemist_stack/repository/__init__.py:499-507 | succeeds exactly for a Base instance; a class raises UnknownModel and an instance of a non-Base class raises AttributeError, both with no change; otherwise the registry exists afterwards, built as `_create_thread_safe_session` builds it, and the query property is returned |
| TransactionScope.GuardShape | alchemist_stack/repository/__init__.py:136-144 | after the caller's block, the guard closes exactly once, as its last call; it commits exactly when the block completed; it rolls back exactly on a database error in the block or in the commit |
| TransactionScope.SessionScope | alchemist_stack/repository/__init__.py:125-146 | a non-session factory product raises NoOpenSession with no call at all; otherwise every call is on the scope's own session: the block's calls, then exactly one close, last; it commits exactly on normal completion and rolls back exactly on a database error; database errors are swallowed and only the caller's other errors propagate |
| Crud.FirstBadKey | alchemist_stack/repository/__init__.py:479-487 | every key before the returned position passes the check, and the key at that position fails it, or the position is past the end |
| Crud.CreateQuery | alchemist_stack/repository/__init__.py:305-317 | succeeds exactly for a Base class, giving an unbound query on it; changes nothing |
| Crud.BindCurrentSession | alchemist_stack/repository/__init__.py:319-331 | succeeds exactly with a live local session, binding the query to its handle; otherwise raises NoOpenSession; changes nothing |
| Crud.ReadObject | alchemist_stack/repository/__init__.py:446-461 | raises UnknownModel exactly for a non-Base class; otherwise gives an unbound query on the class; changes nothing |
| Crud.UpdateObject | alchemist_stack/repository/__init__.py:463-491 | raises UnknownModel exactly for a non-Base class; succeeds exactly when every key passes; on success only the pending flag changes, set whether or not a session is open; on failure nothing changes, and the exception is that of the first failing key in dictionary order |
| Crud.CreateObject | alchemist_stack/repository/__init__.py:418-444 | anything but a Base instance is refused with no change and no call: a class with UnknownModel, which no other argument gives, and an instance of a non-Base class with AttributeError. With auto-commit, no field changes, and the outcome and calls are those of a session scope whose block adds the object. Otherwise it reuses the live session, or opens one when none is active, then adds the object and sets the pending flag. SessionIsOpen is raised only when a non-session object is stored as active. A non-session product from the factory raises AttributeError after it is stored |
| Sequences.Apply | alchemist_stack/repository/__init__.py:285-303 | every operation keeps the invariant |
| Sequences.RunPreservesInvariant | alchemist_stack/repository/__init__.py:285-296 | any sequence of operations keeps the invariant: active exactly when a local object is stored, scoped flag exactly when a registry is stored |
| Sequences.ReachableSatisfiesInvariant | alchemist_stack/repository/__init__.py:34-40 | every state reachable from construction satisfies the invariant |
| Sequences.PendingChanges | alchemist_stack/repository/__init__.py:240-272 | only a create without auto-commit or an update raises the pending flag; only a commit the database accepts, direct or through an unforced close, lowers it |
| Sequences.PendingPersists | alchemist_stack/repository/__init__.py:256-272 | a pending commit stays pending through any sequence without an accepted commit, including forced closes and refused commits |
| Sequences.NothingPendingStays | alchemist_stack/repository/__init__.py:429-491 | with nothing pending, a sequence without creates or updates leaves nothing pending |
| Sequences.Separation | alchemist_stack/repository/__init__.py:223-303 | registry operations, reads and auto-commit creates leave the local-session fields alone; every operation but the three registry-building or registry-dropping ones leaves the registry fields alone |
| Lifecycle.CreateThenLocalSession | alchemist_stack/repository/__init__.py:166-168 | after a successful `_create_session`, `local_session` returns the handle the factory produced |
| Lifecycle.CreateTwiceFails | alchemist_stack/repository/__init__.py:218-219 | two `_create_session` calls with no close in between: the second raises SessionIsOpen |
| Lifecycle.CloseIdempotent | alchemist_stack/repository/__init__.py:263-272 | a second `_close_session`, with the same `force`, changes nothing and calls nothing |
| Lifecycle.CreateThreadSafeIdempotent | alchemist_stack/repository/__init__.py:228-230 | a second `_create_thread_safe_session` changes nothing |
| Lifecycle.RemoveKeepsRegistry | alchemist_stack/repository/__init__.py:281-283 | after `_remove_thread_safe_sessions` the registry flags are still set, so `base_query_on` reuses the registry |
| Lifecycle.PendingWithoutSessionAfterUpdate | alchemist_stack/repository/__init__.py:478-489 | an update on a new repository leaves a commit pending with no session active |
| Lifecycle.PendingSurvivesForcedClose | alchemist_stack/repository/__init__.py:264-266 | a forced close after a create without auto-commit closes the session but leaves the commit pending |
| Lifecycle.PendingSurvivesRefusedCommit | alchemist_stack/repository/__init__.py:241-249 | a refused commit calls commit, rollback and close, and leaves the commit pending with no session |
| Lifecycle.UpdateUnknownColumn | alchemist_stack/repository/__init__.py:480-482 | an update keyed by a missing column name raises UnknownColumn and changes nothing |
| Lifecycle.UpdateAcceptsNonColumnAttribute | alchemist_stack/repository/__init__.py:480-481 | a string key naming a non-column attribute of the class passes the check |
| Lifecycle.UpdateFirstBadKeyDecides | alchemist_stack/repository/__init__.py:479-487 | the first failing key in dictionary order decides between UnknownColumn and UnknownUpdateKey; a key that is neither a string nor an attribute raises UnknownColumn |
| Lifecycle.UnknownModelEverywhere | alchemist_stack/repository/__init__.py:418-507 | read and update refuse a non-Base class with UnknownModel and no change; `_create_object` and `base_query_on` refuse every class, Base or not, the same way |
| Lifecycle.NonBaseInstanceAttributeError | alchemist_stack/repository/__init__.py:367-379 | an instance of a non-Base class given to `_create_object` or `base_query_on` raises AttributeError, not UnknownModel, and changes nothing |
| Lifecycle.CreateExample | repos/repository_example.py:31-32 | an auto-commit create adds the row to a fresh session, then commits, rolls back if refused, and closes; no field changes and nothing is raised |
| Lifecycle.GetExampleById | repos/repository_example.py:34-40 | with the query bound to the live local session in place of `self.session`: open, read, bind and close all succeed; with nothing pending the close is a single close and the repository ends as it began |
| Lifecycle.GetExampleByIdAsWritten | repos/repository_example.py:34-37 | on an active repository the open raises SessionIsOpen; otherwise open and read succeed and `self.session` raises AttributeError before the close, leaving the session live and the pending flag as it was, so the next `_create_session` raises SessionIsOpen |
| Lifecycle.UpdateExampleById | repos/repository_example.py:42-50 | with the query bound to the live local session in place of `self.session`: open, update, bind and commit all succeed; the session is gone afterwards, and the update stays pending exactly when the database refused |
| Lifecycle.UpdateExampleByIdAsWritten | repos/repository_example.py:42-45 | on an active repository the open raises SessionIsOpen; otherwise open and update succeed and `self.session` raises AttributeError before the commit, leaving the session live with a commit pending, so the next `_create_session` raises SessionIsOpen |
| Lifecycle.ReadAfterRefusedUpdateCommits | alchemist_stack/repository/__init__.py:240-272 | after a refused update commit, the unforced close that ends a later read commits the read's session |
| ExampleModel.NewWithDefaultTimestamp | test/models/model_example.py:13-16 | an instance built without a timestamp carries the class-definition instant and the given key |
| ExampleModel.ToOrm | test/models/model_example.py:46-47 | the row's `primary_key` and `timestamp` are the model's `id` and `timestamp` |
| ExampleModel.FromOrm | test/models/model_example.py:49-51 | the model's `id` and `timestamp` are the row's `primary_key` and `timestamp`, with no extra arguments |
| ExampleModel.Invoke | test/models/model_example.py:20-26 | calling an instance gives a row with its key and timestamp |
| ExampleModel.AccessorsReturnArguments | test/models/model_example.py:13-44 | `id` and `timestamp` return exactly the constructor's `primary_key` and `timestamp` |
| ExampleModel.DefaultTimestampShared | test/models/model_example.py:13 | two instances built without a timestamp have the same timestamp |
| ExampleModel.ModelRoundTrip | test/models/model_example.py:46-51 | model to row to model keeps `id` and `timestamp`, and gives back the whole instance exactly when it had no extra arguments |
| ExampleModel.RowRoundTrip | test/models/model_example.py:46-51 | row to model to row gives the same row |
| ExampleModel.InvokeIsToOrm | test/models/model_example.py:20-26 | calling an instance gives the same row as `to_orm` |

## Left out

- SQL behaviour belongs to SQLAlchemy, so it is not modelled. That covers query
  construction, `with_session`, `get`, `filter`, `update` row counts, and what
  commit and rollback do to stored data. A query is an opaque token, and a
  commit is an input saying whether the database accepted it.
- Which thread receives which session from `scoped_session` is concurrency
  inside SQLAlchemy. The model only tracks whether the registry exists. This
  also leaves out the `thread_safe_session` property and `__eq__`/`__ne__`,
  which call the registry.
- Handles are not tracked for freshness. The factory is described only by what
  it returns on each call. A factory that returns `None` is not modelled;
  `sessionmaker` never does.
- The model assumes `rollback`, `close`, `remove` and `add` never raise. Only
  `commit` may fail. `add` on a non-session object is modelled as
  AttributeError.
- Exception payloads, such as messages and `errors` dicts, are dropped. Only the
  kind of exception is kept.
- Calling `issubclass` with a non-class (a TypeError in Python) is not
  modelled. The mediators take a class where the source calls `issubclass`.
- `__del__` is not modelled, because its timing depends on the garbage
  collector.
- These members are not modelled: `__repr__`, `__str__`, `__unicode__`, the
  Python 2 hook `__nonzero__`, the comparison methods (their bodies are
  `pass`), and `print`.
- `_delete_object` is not modelled because its body is empty. The abstract
  `instance` and the `context` property are not modelled either.
- The `dirty` property is not modelled, because it returns a SQLAlchemy
  identity set.
- The line after the add in `_create_object` commits when `auto_commit` is set.
  That branch can never run, so it is not modelled.
- The `pending_commit` property returns the pending field, and needs no member
  of its own.
- Lifecycle.GetExampleById: binds the query to the live local session, not to
  `self.session`. `RepositoryBase` defines no `session`, so the method as
  written raises AttributeError there; Lifecycle.GetExampleByIdAsWritten states
  that path.
- Lifecycle.UpdateExampleById: binds the query to the live local session, not
  to `self.session`, for the same reason; Lifecycle.UpdateExampleByIdAsWritten
  states the path as written.
- A `DateTime` keeps only the instant of a timestamp, not its UTC
  offset, because Python compares aware datetimes by instant.
- Context, engine and configuration code (`alchemist_stack/database/`) is not
  part of this model. It is construction plumbing for SQLAlchemy.
- `models/m_test.py` is not part of this model either. There `from_orm` returns
  the result of `__init__`, which is `None`, so no round trip holds.
