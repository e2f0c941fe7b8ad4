/*******************************************************************************
 *  State of one `RepositoryBase` instance, and the vocabulary shared by all of
 *  its operations: what the session factory hands out, the Python classes and
 *  instances the CRUD mediators are given, the kinds of exception raised, and
 *  the calls made on foreign objects (sessions and the scoped registry).
 *******************************************************************************/
module RepoState {

  import opened Wrappers

  /** Identity of one session object handed out by the session factory. */
  type Handle = nat

  /** What one call of the session factory returned: a `Session`, or some
      object that is not one (the repository guards with `isinstance(…, Session)`). */
  datatype Product = Session(handle: Handle) | NonSession

  /** A Python class given to the mediators: whether it derives from the
      declarative `Base`, and the attribute names `hasattr` finds on it. */
  datatype Model = Model(name: string, isBase: bool, attrs: set<string>)

  /** An instance of a model class, as handed to `_create_object`. */
  datatype Obj = Obj(id: nat, model: Model)

  /** Argument of `base_query_on`, which tests it with `isinstance`: a class
      itself, or an instance of one. */
  datatype Arg = ClassArg(model: Model) | InstanceArg(obj: Obj)

  /** `isinstance(target, Base)`: only an instance of a Base class passes. */
  predicate IsBaseInstance(target: Arg) {
    target.InstanceArg? && target.obj.model.isBase
  }

  /** What `__throw_unknown_model_exception(cls=target)` raises. Its message
      reads `target.__name__`, which a class has and a plain instance does
      not, so only a class gets as far as UnknownModelException. */
  function UnknownModelThrown(target: Arg): Outcome {
    if target.ClassArg? then UnknownModel else AttributeError
  }

  /** A query object: unbound on one model, or the registry's query property. */
  datatype Query = Unbound(model: Model) | ScopedProperty(target: Obj)

  /** A query bound to one session handle. */
  datatype BoundQuery = BoundQuery(query: Query, on: Handle)

  /** How an operation ends: normally, or with the kind of exception raised. */
  datatype Outcome =
    | Ok
    | SessionIsOpen
    | NoOpenSession
    | UnknownModel
    | UnknownColumn
    | UnknownUpdateKey
      /** `add` called on a factory product that is not a session, or
          `__name__` read from an instance when reporting an unknown model */
    | AttributeError
      /** the caller's own non-database exception, re-raised by a session scope */
    | Propagated

  /** A method called on a session object. */
  datatype Act = Add(obj: Obj) | Commit | Rollback | Close

  /** A call on a foreign object: a session, or the scoped registry's `remove()`. */
  datatype Call = SessionCall(on: Handle, act: Act) | RegistryRemove

  /** The instance fields: `__active_local_session`, `__local_session`,
      `__pending_commit`, `__active_scoped_session`, and whether
      `__scoped_session_factory` holds a registry. */
  datatype Repo = Repo(active: bool, local: Option<Product>, pending: bool,
                       activeScoped: bool, registry: bool)

  /** Result of one operation: the state when it returns or raises, how it
      ended, the foreign calls it made in order, and the value it returns. */
  datatype Step<T> = Step(repo: Repo, outcome: Outcome, calls: seq<Call>, value: Option<T>)

  /** The active flag agrees with a stored local object, and the scoped flag
      agrees with a stored registry. */
  predicate Invariant(r: Repo) {
    && (r.active <==> r.local.Some?)
    && (r.activeScoped <==> r.registry)
  }

  /** `self.__active_local_session and isinstance(self.__local_session, Session)` */
  predicate HasLiveSession(r: Repo) {
    r.active && r.local.Some? && r.local.value.Session?
  }

  function LiveHandle(r: Repo): Handle
    requires HasLiveSession(r)
  {
    r.local.value.handle
  }

  predicate SameLocal(a: Repo, b: Repo) {
    a.active == b.active && a.local == b.local && a.pending == b.pending
  }

  predicate SameScoped(a: Repo, b: Repo) {
    a.activeScoped == b.activeScoped && a.registry == b.registry
  }

  /** A freshly constructed repository. */
  function Init(): (r: Repo)
    ensures Invariant(r)
    ensures !r.active && !r.pending && !r.registry
  {
    Repo(false, None, false, false, false)
  }

  /** Store a factory product as the local session and mark it active. */
  function Stored(r: Repo, made: Product): Repo {
    r.(local := Some(made), active := true)
  }

  /** `__session_close`: drop the local session and clear the active flag. */
  function Released(r: Repo): Repo {
    r.(local := None, active := false)
  }

  function Done<T>(r: Repo, calls: seq<Call>, value: Option<T>): Step<T> {
    Step(r, Ok, calls, value)
  }

  function Raise<T>(r: Repo, e: Outcome): Step<T> {
    Step(r, e, [], None)
  }
}
