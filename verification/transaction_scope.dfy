/*******************************************************************************
 *  `session_scope`: a context manager that takes a new session from the
 *  factory, yields it to the caller's block, commits on normal completion,
 *  rolls back on a database error (which it then swallows, since the
 *  no-pending-commit thrower is empty) and closes the session on every path.
 *  It reads only the session factory, so no repository state is involved.
 *******************************************************************************/
module TransactionScope {
  import opened Wrappers
  import opened RepoState

  /** How the caller's block inside the scope ended. */
  datatype BodyEnd = Completes | RaisesDbError | RaisesOther

  /** What a scope did: how it ended, which session it used, and the calls
      made on that session (the block's own first, then the guard's). */
  datatype ScopeRun = ScopeRun(outcome: Outcome, session: Option<Handle>, calls: seq<Call>)

  function OnSession(h: Handle, acts: seq<Act>): (cs: seq<Call>)
    ensures |cs| == |acts|
    ensures forall i | 0 <= i < |acts| :: cs[i] == SessionCall(h, acts[i])
  {
    seq(|acts|, i requires 0 <= i < |acts| => SessionCall(h, acts[i]))
  }

  /** The calls the guard itself makes after the block ends. */
  function GuardActs(end: BodyEnd, commitOk: bool): seq<Act> {
    match end
    case Completes => if commitOk then [Commit, Close] else [Commit, Rollback, Close]
    case RaisesDbError => [Rollback, Close]
    case RaisesOther => [Close]
  }

  /** The guard's calls end with its one close, and commit or roll back as
      the block's ending and the database decide. */
  lemma GuardShape(h: Handle, end: BodyEnd, commitOk: bool)
    ensures var guard := OnSession(h, GuardActs(end, commitOk));
      && |guard| > 0
      && guard[|guard| - 1] == SessionCall(h, Close)
      && multiset(guard)[SessionCall(h, Close)] == 1
      && (SessionCall(h, Commit) in guard <==> end == Completes)
      && (SessionCall(h, Rollback) in guard <==> end == RaisesDbError || (end == Completes && !commitOk))
  {
    var guard := OnSession(h, GuardActs(end, commitOk));
    match end
    case Completes =>
      if commitOk {
        assert guard == [SessionCall(h, Commit), SessionCall(h, Close)];
      } else {
        assert guard == [SessionCall(h, Commit), SessionCall(h, Rollback), SessionCall(h, Close)];
      }
    case RaisesDbError => assert guard == [SessionCall(h, Rollback), SessionCall(h, Close)];
    case RaisesOther => assert guard == [SessionCall(h, Close)];
  }

  /** One use of `session_scope`, whose block makes the calls `body` and then
      ends as `end`; `commitOk` is whether the database accepts the commit. */
  function SessionScope(made: Product, body: seq<Act>, end: BodyEnd, commitOk: bool): (sc: ScopeRun)
    ensures sc.outcome in {Ok, NoOpenSession, Propagated}
    ensures sc.outcome == NoOpenSession <==> made.NonSession?
    ensures made.NonSession? ==> sc.session == None && sc.calls == []
    ensures made.Session? ==> |sc.calls| > |body|
    ensures made.Session? ==>
      var h := made.handle;
      var guard := sc.calls[|body|..];
      && sc.session == Some(h)
      && sc.calls[..|body|] == OnSession(h, body)
      && (forall c | c in guard :: c.SessionCall? && c.on == h)
      && guard[|guard| - 1] == SessionCall(h, Close)
      && multiset(guard)[SessionCall(h, Close)] == 1
      && (SessionCall(h, Commit) in guard <==> end == Completes)
      && (SessionCall(h, Rollback) in guard <==> end == RaisesDbError || (end == Completes && !commitOk))
      && (sc.outcome == Propagated <==> end == RaisesOther)
  {
    match made
    case NonSession => ScopeRun(NoOpenSession, None, [])
    case Session(h) =>
      var guard := OnSession(h, GuardActs(end, commitOk));
      var calls := OnSession(h, body) + guard;
      assert calls[|body|..] == guard;
      GuardShape(h, end, commitOk);
      ScopeRun(if end == RaisesOther then Propagated else Ok, Some(h), calls)
  }
}
