/*******************************************************************************
 *  Sequences of repository operations, each carrying the inputs the outside
 *  world supplies to it (the factory's product, whether the database accepts
 *  a commit), and what holds across any such sequence.
 *******************************************************************************/
module Sequences {
  import opened Wrappers
  import opened RepoState
  import L = LocalSessions
  import S = ScopedSessions
  import C = Crud

  /** One call on a repository instance. */
  datatype Op =
    | CreateSession(made: Product)
    | LocalSession
    | Invoke(made: Product)
    | CommitSession(commitOk: bool)
    | CloseSession(force: bool, commitOk: bool)
    | CreateThreadSafeSession
    | RemoveThreadSafeSessions(force: bool)
    | ScopedSessionClose
    | CreateObject(target: Arg, autoCommit: bool, made: Product, commitOk: bool)
    | ReadObject(model: Model)
    | UpdateObject(model: Model, keys: seq<C.UpdateKey>)
    | BaseQueryOn(target: Arg)

  function Forget<T>(s: Step<T>): Step<()> {
    Step(s.repo, s.outcome, s.calls, None)
  }

  /** The effect of one operation, with its returned value dropped. */
  function Apply(r: Repo, op: Op): (s: Step<()>)
    ensures Invariant(r) ==> Invariant(s.repo)
  {
    match op
    case CreateSession(made) => L.CreateSession(r, made)
    case LocalSession => Forget(L.LocalSession(r))
    case Invoke(made) => Forget(L.Invoke(r, made))
    case CommitSession(ok) => L.CommitSession(r, ok)
    case CloseSession(force, ok) => L.CloseSession(r, force, ok)
    case CreateThreadSafeSession => S.CreateThreadSafeSession(r)
    case RemoveThreadSafeSessions(force) => S.RemoveThreadSafeSessions(r, force)
    case ScopedSessionClose => S.ScopedSessionClose(r)
    case CreateObject(target, auto, made, ok) => C.CreateObject(r, target, auto, made, ok)
    case ReadObject(m) => Forget(C.ReadObject(r, m))
    case UpdateObject(m, keys) => Forget(C.UpdateObject(r, m, keys))
    case BaseQueryOn(target) => Forget(S.BaseQueryOn(r, target))
  }

  /** The state after running `ops` in order; a raised exception is taken to
      be caught by the caller, who carries on with the next operation. */
  function Run(r: Repo, ops: seq<Op>): Repo
    decreases |ops|
  {
    if |ops| == 0 then r else Run(Apply(r, ops[0]).repo, ops[1..])
  }

  /** The invariant holds after any sequence of operations from a state
      where it holds. */
  lemma {:induction false} RunPreservesInvariant(r: Repo, ops: seq<Op>)
    requires Invariant(r)
    ensures Invariant(Run(r, ops))
    decreases |ops|
  {
    if |ops| > 0 {
      RunPreservesInvariant(Apply(r, ops[0]).repo, ops[1..]);
    }
  }

  /** Every repository reachable from construction satisfies the invariant. */
  lemma ReachableSatisfiesInvariant(ops: seq<Op>)
    ensures Invariant(Run(Init(), ops))
  {
    RunPreservesInvariant(Init(), ops);
  }

  /** The operations that can set the pending flag. */
  predicate MaySetPending(op: Op) {
    (op.CreateObject? && !op.autoCommit) || op.UpdateObject?
  }

  /** The operations that can clear the pending flag: a successful commit,
      directly or through an unforced close. */
  predicate MayClearPending(op: Op) {
    op == CommitSession(true) || op == CloseSession(false, true)
  }

  /** Only a non-auto-commit create or an update raises the pending flag, and
      only a commit the database accepts lowers it. */
  lemma PendingChanges(r: Repo, op: Op)
    ensures !r.pending && Apply(r, op).repo.pending ==> MaySetPending(op)
    ensures r.pending && !Apply(r, op).repo.pending ==> MayClearPending(op)
  {
  }

  /** A pending commit survives any sequence without a successful commit:
      forced closes and refused commits leave it set. */
  lemma {:induction false} PendingPersists(r: Repo, ops: seq<Op>)
    requires r.pending
    requires forall i | 0 <= i < |ops| :: !MayClearPending(ops[i])
    ensures Run(r, ops).pending
    decreases |ops|
  {
    if |ops| > 0 {
      PendingChanges(r, ops[0]);
      PendingPersists(Apply(r, ops[0]).repo, ops[1..]);
    }
  }

  /** With nothing pending, no sequence free of creates and updates makes
      anything pending. */
  lemma {:induction false} NothingPendingStays(r: Repo, ops: seq<Op>)
    requires !r.pending
    requires forall i | 0 <= i < |ops| :: !MaySetPending(ops[i])
    ensures !Run(r, ops).pending
    decreases |ops|
  {
    if |ops| > 0 {
      PendingChanges(r, ops[0]);
      NothingPendingStays(Apply(r, ops[0]).repo, ops[1..]);
    }
  }

  /** The operations that may change a local-session field. */
  predicate TouchesLocal(op: Op) {
    || op.CreateSession? || op.Invoke? || op.CommitSession? || op.CloseSession?
    || (op.CreateObject? && !op.autoCommit) || op.UpdateObject?
  }

  /** The operations that may change the scoped-registry fields. */
  predicate TouchesScoped(op: Op) {
    op.CreateThreadSafeSession? || op.ScopedSessionClose? || op.BaseQueryOn?
  }

  /** The two halves of the state are separate: the registry operations,
      reads and auto-commit creates leave the local-session fields as they
      were, and every other operation leaves the registry fields alone. */
  lemma Separation(r: Repo, op: Op)
    ensures !TouchesLocal(op) ==> SameLocal(r, Apply(r, op).repo)
    ensures !TouchesScoped(op) ==> SameScoped(r, Apply(r, op).repo)
  {
  }
}
