/**
  Whole calls that take several steps: creating the actions of a package, and executing an action
  when no other transaction comes in between.
*/
module ActionCalls {
  import opened Wrappers
  import opened Approval
  import opened ApprovalSafety
  import Text

  predicate Ends(response: Response) { response.Failed? || response.Blocked? || response.Completed? }

  /** The steps one after the other, up to the first that ends the call. */
  function Sequence(env: Env, w: World, steps: seq<Step>): (World, Response)
    decreases |steps|
  {
    if |steps| == 0 then (w, Continue)
    else
      var (next, response) := Apply(env, w, steps[0]);
      if |steps| == 1 || Ends(response) then (next, response) else Sequence(env, next, steps[1..])
  }

  lemma {:induction false} RunFront(env: Env, w: World, step: Step, steps: seq<Step>)
    ensures Run(env, w, [step] + steps) == Run(env, Apply(env, w, step).0, steps)
  {
    hide Apply;
    if |steps| == 0 {
      assert [step] + steps == [step] && [step][..0] == [];
      assert Run(env, w, []) == w;
    } else {
      var n := |steps| - 1;
      assert ([step] + steps)[..n + 1] == [step] + steps[..n];
      RunFront(env, w, step, steps[..n]);
    }
  }

  /** A call is a run, so everything proved of runs holds of it. */
  lemma {:induction false} SequenceIsARun(env: Env, w: World, steps: seq<Step>) returns (k: nat)
    ensures k <= |steps| && Sequence(env, w, steps).0 == Run(env, w, steps[..k])
    decreases |steps|
  {
    hide Apply;
    if |steps| == 0 { return 0; }
    var (next, response) := Apply(env, w, steps[0]);
    RunFront(env, w, steps[0], []);
    assert [steps[0]] + [] == steps[..1];
    if |steps| == 1 || Ends(response) { return 1; }
    var rest := SequenceIsARun(env, next, steps[1..]);
    RunFront(env, w, steps[0], steps[1..][..rest]);
    assert [steps[0]] + steps[1..][..rest] == steps[..rest + 1];
    return rest + 1;
  }

  lemma {:induction false} SequenceKeepsValid(env: Env, w: World, steps: seq<Step>)
    requires Valid(env, w)
    ensures Valid(env, Sequence(env, w, steps).0)
    decreases |steps|
  {
    hide Apply, Valid;
    if |steps| > 0 {
      StepKeepsValid(env, w, steps[0]);
      SequenceKeepsValid(env, Apply(env, w, steps[0]).0, steps[1..]);
    }
  }

  // ---------- creating the actions of a package ----------

  function CreateSteps(workspace: Id, packageId: Id, proposals: seq<Proposal>, newIds: seq<Id>): (steps: seq<Step>)
    requires |newIds| == |proposals|
    ensures |steps| == |proposals|
    ensures forall k :: 0 <= k < |steps| ==> steps[k] == DoCreate(newIds[k], workspace, packageId, proposals[k])
  {
    seq(|proposals|, k requires 0 <= k < |proposals| => DoCreate(newIds[k], workspace, packageId, proposals[k]))
  }

  /** The answer of a call that lists what is stored in the end. */
  function Listing(outcome: (World, Response)): (World, Response) {
    if outcome.1.Failed? then outcome else (outcome.0, Continue)
  }

  /** All proposals of a package, up to the first that the table refuses. */
  function EnsureAlone(env: Env, w: World, workspace: Id, packageId: Id, newIds: seq<Id>): (World, Response)
    requires env.packages(packageId).Some? ==> |newIds| == |env.packages(packageId).value.proposals|
  {
    match env.packages(packageId)
    case None => (w, Failed(NotFound))
    case Some(pkg) => Listing(Sequence(env, w, CreateSteps(workspace, packageId, pkg.proposals, newIds)))
  }

  /** One creation more, then the rest. */
  lemma {:induction false} CreateThenRest(env: Env, w: World, step: Step, rest: seq<Step>)
    requires step.DoCreate?
    ensures var (next, response) := Apply(env, w, step);
            Listing(Sequence(env, w, [step] + rest)) == if response.Failed? then (next, response)
              else Listing(Sequence(env, next, rest))
  {
    SequenceUnfolds(env, w, step, rest);
    CreateNeverCompletes(env, w, step);
    hide Apply;
  }

  ghost predicate CreatesFor(steps: seq<Step>, packageId: Id) {
    forall k :: 0 <= k < |steps| ==> steps[k].DoCreate? && steps[k].packageId == packageId
  }

  lemma {:induction false} CreateKeepsRows(env: Env, w: World, step: Step)
    requires step.DoCreate?
    ensures var more := Apply(env, w, step).0;
            && (forall id :: id in w.db.actions ==> id in more.db.actions && more.db.actions[id] == w.db.actions[id])
            && more.db.decisions == w.db.decisions && more.db.attempts == w.db.attempts
            && more.db.releases == w.db.releases
            && more.sessions == w.sessions
            && (!Apply(env, w, step).1.Failed? ==> CodeTaken(more.db, step.packageId, step.proposal.code))
  {
    hide CodeTaken, NewAction;
    var (more, response) := Apply(env, w, step);
    if response.Stored? {
      assert more.db.actions[step.newId] == response.action;
      Takes(env, more.db, step.newId, step.packageId, step.proposal);
    }
  }

  lemma {:induction false} Takes(env: Env, db: Db, id: Id, packageId: Id, p: Proposal)
    requires id in db.actions && env.packages(packageId).Some?
    requires exists workspace ::
               db.actions[id] == NewAction(env, workspace, packageId, env.packages(packageId).value, p)
    ensures CodeTaken(db, packageId, p.code)
  {}

  lemma {:induction false} TakenStays(db: Db, more: Db, packageId: Id, code: string)
    requires CodeTaken(db, packageId, code)
    requires forall id :: id in db.actions ==> id in more.actions && more.actions[id] == db.actions[id]
    ensures CodeTaken(more, packageId, code)
  {}

  /**
    Creating actions never touches a stored row, and unless a step is refused every proposal's code
    has its action afterwards.
  */
  lemma {:induction false} CreatingOnlyAdds(env: Env, w: World, steps: seq<Step>, packageId: Id)
    requires CreatesFor(steps, packageId)
    ensures var (more, response) := Sequence(env, w, steps);
            && (forall id :: id in w.db.actions ==> id in more.db.actions && more.db.actions[id] == w.db.actions[id])
            && more.db.decisions == w.db.decisions && more.db.attempts == w.db.attempts
            && more.db.releases == w.db.releases
            && more.sessions == w.sessions
            && (!response.Failed? ==> forall k :: 0 <= k < |steps| ==>
                CodeTaken(more.db, packageId, steps[k].proposal.code))
    decreases |steps|
  {
    hide CodeTaken, Apply;
    if |steps| > 0 {
      CreateKeepsRows(env, w, steps[0]);
      var (next, response) := Apply(env, w, steps[0]);
      CreatingOnlyAdds(env, next, steps[1..], packageId);
      var (more, last) := Sequence(env, w, steps);
      if !last.Failed? {
        CreateNeverCompletes(env, w, steps[0]);
        TakenStays(next.db, more.db, packageId, steps[0].proposal.code);
        forall k | 0 <= k < |steps| ensures CodeTaken(more.db, packageId, steps[k].proposal.code) {
          if k > 0 { assert steps[1..][k - 1] == steps[k]; }
        }
      }
    }
  }

  lemma {:induction false} CreateNeverCompletes(env: Env, w: World, step: Step)
    requires step.DoCreate?
    ensures var response := Apply(env, w, step).1; response.Failed? || response.Continue? || response.Stored?
  {
    hide CodeTaken, NewAction;
  }

  lemma {:induction false} TakenCodesStay(env: Env, w: World, steps: seq<Step>, packageId: Id)
    requires CreatesFor(steps, packageId) && env.packages(packageId).Some?
    requires forall k :: 0 <= k < |steps| ==> CodeTaken(w.db, packageId, steps[k].proposal.code)
    ensures Sequence(env, w, steps) == (w, Continue)
    decreases |steps|
  {
    hide CodeTaken;
    if |steps| > 0 {
      assert Apply(env, w, steps[0]) == (w, Continue);
      TakenCodesStay(env, w, steps[1..], packageId);
    }
  }

  /**
    Creating the actions of a package gives every proposal its action, leaves stored rows as they
    are, and doing it again changes nothing, whatever ids it would use.
  */
  lemma {:induction false} EnsureIsIdempotent(env: Env, w: World, workspace: Id, packageId: Id, newIds: seq<Id>,
                                              workspace': Id, otherIds: seq<Id>)
    requires env.packages(packageId).Some? && |newIds| == |otherIds| == |env.packages(packageId).value.proposals|
    requires EnsureAlone(env, w, workspace, packageId, newIds).1 == Continue
    ensures var once := EnsureAlone(env, w, workspace, packageId, newIds).0;
            && (forall p :: p in env.packages(packageId).value.proposals ==> CodeTaken(once.db, packageId, p.code))
            && (forall id :: id in w.db.actions ==> id in once.db.actions && once.db.actions[id] == w.db.actions[id])
            && EnsureAlone(env, once, workspace', packageId, otherIds) == (once, Continue)
  {
    hide CodeTaken, Sequence;
    var proposals := env.packages(packageId).value.proposals;
    var steps, again := CreateSteps(workspace, packageId, proposals, newIds),
      CreateSteps(workspace', packageId, proposals, otherIds);
    CreatingOnlyAdds(env, w, steps, packageId);
    var once := Sequence(env, w, steps).0;
    forall k | 0 <= k < |again| ensures CodeTaken(once.db, packageId, again[k].proposal.code) {
      assert steps[k].proposal == again[k].proposal;
    }
    forall p | p in proposals ensures CodeTaken(once.db, packageId, p.code) {
      var k :| 0 <= k < |proposals| && proposals[k] == p;
      assert steps[k].proposal == p;
    }
    TakenCodesStay(env, once, again, packageId);
  }

  // ---------- an execution on its own ----------

  function ExecuteSteps(sid: Id, workspace: Id, actionId: Id, key: string, attemptId: Id, releaseId: Id): seq<Step> {
    [DoCheckKey(sid, workspace, actionId, key), DoLock(sid), DoCheckRelease(sid), DoCommit(sid, attemptId, releaseId)]
  }

  function ExecuteAlone(env: Env, w: World, sid: Id, workspace: Id, actionId: Id, key: string, attemptId: Id,
                        releaseId: Id): (World, Response) {
    Sequence(env, w, ExecuteSteps(sid, workspace, actionId, key, attemptId, releaseId))
  }

  predicate KeyFits(key: string) {
    16 <= Text.ByteLength(Text.Trim(key)) <= 128
  }

  /** What a first execution of an action needs. */
  ghost predicate MayExecute(env: Env, db: Db, a: Action, key: string) {
    && a.status == Approved && |Text.Trim(key)| >= 16
    && (a.mode == InternalRelease ==> Releasable(env, a) && a.sourceId !in db.releases)
  }

  /** Whether the call is answered with a receipt. */
  ghost predicate Succeeds(env: Env, db: Db, workspace: Id, actionId: Id, key: string) {
    && KeyFits(key) && Owned(db, workspace, actionId)
    && var a := db.actions[actionId];
       a.mode != Control && (a.status == Executed || MayExecute(env, db, a, key))
  }

  lemma {:induction false} KeyedIsExecuted(env: Env, db: Db, actionId: Id, key: string)
    requires DbOk(env, db) && AttemptWithKey(db.attempts, actionId, key).Some?
    ensures actionId in db.actions && db.actions[actionId].mode != Control && db.actions[actionId].status == Executed
  {
    AttemptWithKeyIsListed(db.attempts, actionId, key);
    hide ActionOk, DecisionOk, ReleaseOk, OneAttemptEach, AttemptWithKey;
    var t := AttemptWithKey(db.attempts, actionId, key).value;
    var i :| 0 <= i < |db.attempts| && db.attempts[i] == t;
    assert AttemptOk(db, db.attempts[i]);
  }

  /** What the key check decides. */
  lemma {:induction false} KeyCheckOutcome(env: Env, db: Db, workspace: Id, actionId: Id, key: string)
    requires DbOk(env, db)
    ensures var (response, next) := CheckKey(db, workspace, actionId, key);
            if response == Continue then KeyFits(key) && next == Some(KeyChecked(workspace, actionId, Text.Trim(key)))
            else
              && next.None? && (response.Completed? || response.Failed?)
              && (response.Completed? <==> Succeeds(env, db, workspace, actionId, key))
              && (response.Completed? ==> db.actions[actionId].status == Executed)
  {
    hide DbOk, AttemptWithKey, Text.Trim, Text.ByteLength;
    if AttemptWithKey(db.attempts, actionId, Text.Trim(key)).Some? {
      KeyedIsExecuted(env, db, actionId, Text.Trim(key));
    }
  }

  /** What the locked read decides. */
  lemma {:induction false} LockOutcome(env: Env, db: Db, workspace: Id, actionId: Id, key: string)
    requires DbOk(env, db)
    ensures var (response, next) := LockAndRead(env, db, KeyChecked(workspace, actionId, key));
            if response == Continue then
              && Owned(db, workspace, actionId) && next.Some? && next.value.Locked?
              && next.value == Locked(workspace, actionId, key, db.actions[actionId], next.value.approval)
              && db.actions[actionId].mode != Control && db.actions[actionId].status == Approved
              && env.packages(db.actions[actionId].packageId).Some?
            else
              && next.None? && (response.Completed? || response.Failed?)
              && (response.Completed? <==>
                  Owned(db, workspace, actionId) && db.actions[actionId].mode != Control
                    && db.actions[actionId].status == Executed)
              && !(Owned(db, workspace, actionId) && db.actions[actionId].mode != Control
                   && db.actions[actionId].status == Approved)
  {
    if Owned(db, workspace, actionId) {
      var a := db.actions[actionId];
      assert ActionOk(env, db, actionId);
      if a.mode != Control && a.status == Executed { ExecutedHasReceipt(env, db, workspace, actionId); }
      if a.mode != Control && a.status == Approved { ApprovalIsCurrent(env, db, workspace, actionId); }
    }
    hide DbOk, DecidedAs, GapCodes, ValidPayload, AttemptOf, HasAttempt;
  }

  /** What the release check decides. */
  lemma {:induction false} ReleaseOutcome(env: Env, db: Db, s: Session)
    requires s.Locked? && env.packages(s.action.packageId).Some?
    ensures var (response, next) := CheckRelease(env, db, s);
            if response == Continue then
              next == Some(Cleared(s.workspace, s.actionId, s.key, s.action, s.approval))
                && (s.action.mode == InternalRelease ==> Releasable(env, s.action))
            else
              next.None? && response.Failed? && s.action.mode == InternalRelease
                && !(Releasable(env, s.action) && s.action.sourceId !in db.releases)
  {}

  /** What the commit decides, and what it stores. */
  lemma {:induction false} CommitOutcome(env: Env, db: Db, s: Session, attemptId: Id, releaseId: Id)
    requires DbOk(env, db) && s.Cleared? && s.actionId in db.actions && db.actions[s.actionId].status == Approved
    ensures var (more, response) := CommitExecution(db, s, attemptId, releaseId);
            if |s.key| >= 16 && (s.action.mode == InternalRelease ==> s.action.sourceId !in db.releases) then
              && response == Completed(NewAttempt(s, attemptId, releaseId).receipt)
              && more.attempts == db.attempts + [NewAttempt(s, attemptId, releaseId)]
              && NewAttempt(s, attemptId, releaseId).actionId == s.actionId
              && NewAttempt(s, attemptId, releaseId).workspace == s.workspace
              && NewAttempt(s, attemptId, releaseId).key == s.key
              && more.actions == db.actions[s.actionId := db.actions[s.actionId].(status := Executed)]
              && more.decisions == db.decisions
              && var t := NewAttempt(s, attemptId, releaseId);
                 more.releases == if s.action.mode != InternalRelease then db.releases
                                  else db.releases[s.action.sourceId := Release(t.receipt.releaseId, s.workspace,
                                        s.action.packageId, s.actionId, t.approvalId, t.id)]
            else response.Failed? && more == db
  {
    hide DbOk, AttemptWithKey, HasAttempt, NewAttempt;
    NoAttemptYet(env, db, s.actionId);
    NoKeyYet(db, s.actionId, s.key);
    AttemptParts(s, attemptId, releaseId);
  }

  lemma {:induction false} AttemptParts(s: Session, attemptId: Id, releaseId: Id)
    requires s.Cleared?
    ensures var t := NewAttempt(s, attemptId, releaseId);
            && t.actionId == s.actionId && t.approvalId == s.approval.id && t.id == attemptId
            && t.workspace == s.workspace && t.key == s.key
            && (s.action.mode == InternalRelease ==> t.receipt.releaseId == releaseId)
  {}

  lemma {:induction false} OpeningKeepsLocksFree(w: World, sid: Id, s: Session, actionId: Id)
    requires sid !in w.sessions && s.KeyChecked? && LockFree(w, actionId)
    ensures LockFree(WithSession(w, sid, Some(s)), actionId)
  {}

  lemma {:induction false} SequenceUnfolds(env: Env, w: World, step: Step, rest: seq<Step>)
    ensures Sequence(env, w, [step] + rest) ==
            (var (next, response) := Apply(env, w, step);
             if |rest| == 0 || Ends(response) then (next, response) else Sequence(env, next, rest))
  {
    hide Apply;
    assert ([step] + rest)[1..] == rest;
  }

  lemma {:induction false} SequenceOfTwo(env: Env, w: World, first: Step, second: Step)
    ensures Sequence(env, w, [first, second]) ==
            (var (next, response) := Apply(env, w, first); if Ends(response) then (next, response)
             else Apply(env, next, second))
  {
    SequenceUnfolds(env, w, first, [second]);
    SequenceUnfolds(env, Apply(env, w, first).0, second, []);
    hide Apply, Sequence;
    assert [first] + [second] == [first, second] && [second] + [] == [second];
  }

  function AfterKeyCheck(sid: Id, attemptId: Id, releaseId: Id): seq<Step> {
    [DoLock(sid), DoCheckRelease(sid), DoCommit(sid, attemptId, releaseId)]
  }

  lemma {:induction false} ExecuteUnfolds(env: Env, w: World, sid: Id, workspace: Id, actionId: Id, key: string,
                                          attemptId: Id, releaseId: Id)
    ensures ExecuteAlone(env, w, sid, workspace, actionId, key, attemptId, releaseId) ==
            (var (next, response) := Apply(env, w, DoCheckKey(sid, workspace, actionId, key));
             if Ends(response) then (next, response) else Sequence(env, next, AfterKeyCheck(sid, attemptId, releaseId)))
  {
    SequenceUnfolds(env, w, DoCheckKey(sid, workspace, actionId, key), AfterKeyCheck(sid, attemptId, releaseId));
    hide Apply, Sequence;
    assert [DoCheckKey(sid, workspace, actionId, key)] + AfterKeyCheck(sid, attemptId, releaseId)
           == ExecuteSteps(sid, workspace, actionId, key, attemptId, releaseId);
  }

  lemma {:induction false} LockUnfolds(env: Env, w: World, sid: Id, attemptId: Id, releaseId: Id)
    ensures Sequence(env, w, AfterKeyCheck(sid, attemptId, releaseId)) ==
            (var (next, response) := Apply(env, w, DoLock(sid));
             if Ends(response) then (next, response)
             else Sequence(env, next, [DoCheckRelease(sid), DoCommit(sid, attemptId, releaseId)]))
  {
    SequenceUnfolds(env, w, DoLock(sid), [DoCheckRelease(sid), DoCommit(sid, attemptId, releaseId)]);
    hide Apply, Sequence;
    assert [DoLock(sid)] + [DoCheckRelease(sid), DoCommit(sid, attemptId, releaseId)] ==
             AfterKeyCheck(sid, attemptId, releaseId);
  }

  lemma {:induction false} LockStep(env: Env, w: World, open: World, sid: Id, s: Session)
    requires s.KeyChecked? && LockFree(open, s.actionId) && Opened(w, open, sid, s)
    ensures var (response, next) := LockAndRead(env, w.db, s);
            Apply(env, open, DoLock(sid)) == (WithSession(open, sid, next), response)
  {
    hide LockAndRead, LockFree;
  }

  /** A call that ended, and what it left behind. */
  ghost predicate Concluded(env: Env, w: World, workspace: Id, actionId: Id, key: string, more: World,
                            response: Response) {
    && (response.Completed? || response.Failed?) && more.sessions == w.sessions
    && (response.Completed? <==> Succeeds(env, w.db, workspace, actionId, key))
    && (if response.Completed? && w.db.actions[actionId].status != Executed
        then ExecutedOnce(w.db, more.db, workspace, actionId, Text.Trim(key), response.receipt)
        else more.db == w.db)
  }

  /**
    One more attempt under this key with this receipt, the action executed, and for an internal
    release its one row; nothing else changes.
  */
  ghost predicate ExecutedOnce(db: Db, more: Db, workspace: Id, actionId: Id, key: string, receipt: Receipt)
    requires actionId in db.actions
  {
    && |more.attempts| == |db.attempts| + 1 && more.attempts[..|db.attempts|] == db.attempts
    && more.attempts[|db.attempts|].actionId == actionId && more.attempts[|db.attempts|].receipt == receipt
    && more.attempts[|db.attempts|].workspace == workspace && more.attempts[|db.attempts|].key == key
    && more.actions == db.actions[actionId := db.actions[actionId].(status := Executed)]
    && more.decisions == db.decisions
    && var a, t := db.actions[actionId], more.attempts[|db.attempts|];
       more.releases == if a.mode != InternalRelease then db.releases
                        else db.releases[a.sourceId := Release(receipt.releaseId, a.workspace, a.packageId, actionId,
                                                               t.approvalId, t.id)]
  }

  /** A world that differs only in one open session. */
  ghost predicate Opened(w: World, open: World, sid: Id, s: Session) {
    && sid !in w.sessions && open.db == w.db
    && sid in open.sessions && open.sessions[sid] == s && open.sessions - {sid} == w.sessions
  }

  lemma {:induction false} MovesOn(w: World, open: World, sid: Id, s: Session, next: Option<Session>)
    requires Opened(w, open, sid, s)
    ensures next.Some? ==> Opened(w, WithSession(open, sid, next), sid, next.value)
    ensures next.None? ==> WithSession(open, sid, next) == w
  {}

  lemma {:induction false} CommitConcludes(env: Env, w: World, open: World, sid: Id, workspace: Id, actionId: Id,
                                           key: string, s: Session, attemptId: Id, releaseId: Id)
    requires DbOk(env, w.db) && KeyFits(key) && Owned(w.db, workspace, actionId)
    requires s.Cleared? && s == Cleared(workspace, actionId, Text.Trim(key), w.db.actions[actionId], s.approval)
    requires Opened(w, open, sid, s)
    requires s.action.mode != Control && s.action.status == Approved
    requires (s.action.mode == InternalRelease ==> Releasable(env, s.action))
    ensures var (more, response) := Apply(env, open, DoCommit(sid, attemptId, releaseId));
            Concluded(env, w, workspace, actionId, key, more, response)
  {
    hide Apply, CommitExecution, Text.Trim, Text.ByteLength, Releasable, DbOk, NewAttempt, Opened;
    CommitStep(env, w, open, sid, s, attemptId, releaseId);
    CommitOutcome(env, w.db, s, attemptId, releaseId);
  }

  /** From the release check on. */
  lemma {:induction false} ReleaseConcludes(env: Env, w: World, open: World, sid: Id, workspace: Id, actionId: Id,
                                            key: string, s: Session, attemptId: Id, releaseId: Id)
    requires DbOk(env, w.db) && KeyFits(key) && Owned(w.db, workspace, actionId)
    requires s.Locked? && s == Locked(workspace, actionId, Text.Trim(key), w.db.actions[actionId], s.approval)
    requires Opened(w, open, sid, s)
    requires s.action.mode != Control && s.action.status == Approved && env.packages(s.action.packageId).Some?
    ensures var (more, response) := Sequence(env, open, [DoCheckRelease(sid), DoCommit(sid, attemptId, releaseId)]);
            Concluded(env, w, workspace, actionId, key, more, response)
  {
    hide Apply, Sequence, CheckRelease, WithSession, Opened, Concluded, DbOk, KeyFits, Text.Trim, Releasable;
    ReleaseOutcome(env, w.db, s);
    ReleaseStep(env, w, open, sid, s);
    var (response, next) := CheckRelease(env, w.db, s);
    MovesOn(w, open, sid, s, next);
    SequenceOfTwo(env, open, DoCheckRelease(sid), DoCommit(sid, attemptId, releaseId));
    if response == Continue {
      CommitConcludes(env, w, WithSession(open, sid, next), sid, workspace, actionId, key, next.value, attemptId,
                      releaseId);
    } else {
      EndsAtRelease(env, w, workspace, actionId, key, response);
    }
  }

  /** The call ends at the release check when the plan cannot be released. */
  lemma {:induction false} EndsAtRelease(env: Env, w: World, workspace: Id, actionId: Id, key: string,
                                         response: Response)
    requires Owned(w.db, workspace, actionId) && response.Failed?
    requires var a := w.db.actions[actionId];
             a.status == Approved && a.mode == InternalRelease && !(Releasable(env, a) && a.sourceId !in w.db.releases)
    ensures Concluded(env, w, workspace, actionId, key, w, response)
  {
    hide KeyFits, Releasable;
  }

  /** From the lock on. */
  lemma {:induction false} LockConcludes(env: Env, w: World, open: World, sid: Id, workspace: Id, actionId: Id,
                                         key: string, attemptId: Id, releaseId: Id)
    requires DbOk(env, w.db) && KeyFits(key) && LockFree(open, actionId)
    requires Opened(w, open, sid, KeyChecked(workspace, actionId, Text.Trim(key)))
    ensures var (more, response) := Sequence(env, open, AfterKeyCheck(sid, attemptId, releaseId));
            Concluded(env, w, workspace, actionId, key, more, response)
  {
    hide Apply, Sequence, LockAndRead, WithSession, Opened, Concluded, DbOk, KeyFits, Text.Trim, LockFree;
    var s := KeyChecked(workspace, actionId, Text.Trim(key));
    LockOutcome(env, w.db, workspace, actionId, Text.Trim(key));
    LockStep(env, w, open, sid, s);
    var (response, next) := LockAndRead(env, w.db, s);
    MovesOn(w, open, sid, s, next);
    LockUnfolds(env, open, sid, attemptId, releaseId);
    if response == Continue {
      ReleaseConcludes(env, w, WithSession(open, sid, next), sid, workspace, actionId, key, next.value, attemptId,
                       releaseId);
    } else {
      EndsAtLock(env, w, workspace, actionId, key, response);
    }
  }

  /** The call ends at the lock unless the action is approved. */
  lemma {:induction false} EndsAtLock(env: Env, w: World, workspace: Id, actionId: Id, key: string, response: Response)
    requires KeyFits(key) && (response.Completed? || response.Failed?)
    requires response.Completed? <==>
               Owned(w.db, workspace, actionId) && w.db.actions[actionId].mode != Control
                 && w.db.actions[actionId].status == Executed
    requires !(Owned(w.db, workspace, actionId) && w.db.actions[actionId].mode != Control
               && w.db.actions[actionId].status == Approved)
    ensures Concluded(env, w, workspace, actionId, key, w, response)
  {
    hide KeyFits, Releasable;
  }

  lemma {:induction false} KeyCheckStep(env: Env, w: World, sid: Id, workspace: Id, actionId: Id, key: string)
    requires sid !in w.sessions
    ensures var (response, next) := CheckKey(w.db, workspace, actionId, key);
            && Apply(env, w, DoCheckKey(sid, workspace, actionId, key)) == (WithSession(w, sid, next), response)
            && (next.Some? ==> Opened(w, WithSession(w, sid, next), sid, next.value))
            && (next.None? ==> WithSession(w, sid, next) == w)
  {
    hide CheckKey;
    assert w.sessions - {sid} == w.sessions;
  }

  lemma {:induction false} CommitStep(env: Env, w: World, open: World, sid: Id, s: Session, attemptId: Id,
                                      releaseId: Id)
    requires s.Cleared? && s.actionId in w.db.actions && Opened(w, open, sid, s)
    ensures var (db, response) := CommitExecution(w.db, s, attemptId, releaseId);
            Apply(env, open, DoCommit(sid, attemptId, releaseId)) == (w.(db := db), response)
  {
    hide CommitExecution;
    MovesOn(w, open, sid, s, None);
  }

  lemma {:induction false} ReleaseStep(env: Env, w: World, open: World, sid: Id, s: Session)
    requires s.Locked? && env.packages(s.action.packageId).Some? && Opened(w, open, sid, s)
    ensures var (response, next) := CheckRelease(env, w.db, s);
            Apply(env, open, DoCheckRelease(sid)) == (WithSession(open, sid, next), response)
  {
    hide CheckRelease;
  }

  /**
    An execution that meets no other transaction is answered with a receipt if and only if the key
    fits, the action is the caller's and no control, and it has been executed before or is approved
    and, for an internal release, its plan is releasable and not released.  A first execution stores
    one attempt with that receipt and marks the action executed; nothing else changes.
  */
  lemma {:induction false} ExecutesExactly(env: Env, w: World, sid: Id, workspace: Id, actionId: Id, key: string,
                                           attemptId: Id, releaseId: Id)
    requires Valid(env, w) && sid !in w.sessions && LockFree(w, actionId)
    ensures var (more, response) := ExecuteAlone(env, w, sid, workspace, actionId, key, attemptId, releaseId);
            Concluded(env, w, workspace, actionId, key, more, response)
  {
    var s := KeyChecked(workspace, actionId, Text.Trim(key));
    KeyCheckOutcome(env, w.db, workspace, actionId, key);
    KeyCheckStep(env, w, sid, workspace, actionId, key);
    OpeningKeepsLocksFree(w, sid, s, actionId);
    ExecuteUnfolds(env, w, sid, workspace, actionId, key, attemptId, releaseId);
    hide CheckKey, DbOk, LockFree, Text.Trim, Text.ByteLength, Succeeds, ExecutedOnce, Sequence, Apply, Opened,
      WithSession, ExecuteAlone;
    var (response, next) := CheckKey(w.db, workspace, actionId, key);
    if response == Continue {
      hide Concluded;
      LockConcludes(env, w, WithSession(w, sid, next), sid, workspace, actionId, key, attemptId, releaseId);
    }
  }
}
