/**
  The action tables as mutable state, with one method for each transaction step.  Every method
  is proved against its step function and keeps the invariant of `ApprovalSafety`.
*/
module ActionStore {
  import opened Wrappers
  import opened Approval
  import opened ApprovalSafety
  import opened ActionCalls
  import Text

  class Tables {
    const env: Env
    var actions: map<Id, Action>
    var decisions: map<(Id, int), Decision>
    var attempts: seq<Attempt>
    var releases: map<Id, Release>
    var sessions: map<Id, Session>

    ghost function Snapshot(): World
      reads this
    {
      World(Db(actions, decisions, attempts, releases), sessions)
    }

    ghost predicate Sound()
      reads this
    {
      Valid(env, Snapshot())
    }

    constructor (env: Env)
      ensures this.env == env && Sound() && Snapshot() == Empty()
    {
      this.env := env;
      actions, decisions, attempts, releases, sessions := map[], map[], [], map[], map[];
      new;
      EmptyIsValid(env);
    }

    predicate RowFree(actionId: Id)
      reads this
    {
      forall sid :: sid in sessions && HoldsLock(sessions[sid]) ==> sessions[sid].actionId != actionId
    }

    /** Inserts the row of one proposal unless the package already has an action with its code. */
    method Create(newId: Id, workspace: Id, packageId: Id, proposal: Proposal) returns (response: Response)
      requires Sound()
      modifies this`actions
      ensures Sound()
      ensures (Snapshot(), response) == Apply(env, old(Snapshot()), DoCreate(newId, workspace, packageId, proposal))
    {
      hide Valid, CodeTaken, NewAction;
      StepKeepsValid(env, Snapshot(), DoCreate(newId, workspace, packageId, proposal));
      var pkg := env.packages(packageId);
      if pkg.None? { return Failed(NotFound); }
      if CodeTaken(Db(actions, decisions, attempts, releases), packageId, proposal.code) { return Continue; }
      if newId in actions { return Failed(StoreRejected); }
      var action := NewAction(env, workspace, packageId, pkg.value, proposal);
      actions := actions[newId := action];
      return Stored(action);
    }

    /** `Ensure`: one insert a proposal, stopping at the first that the table refuses. */
    method Ensure(workspace: Id, packageId: Id, newIds: seq<Id>) returns (response: Response)
      requires Sound()
      requires env.packages(packageId).Some? ==> |newIds| == |env.packages(packageId).value.proposals|
      modifies this`actions
      ensures Sound()
      ensures (Snapshot(), response) == EnsureAlone(env, old(Snapshot()), workspace, packageId, newIds)
    {
      hide Valid, Apply, Sequence;
      var pkg := env.packages(packageId);
      if pkg.None? { return Failed(NotFound); }
      ghost var steps := CreateSteps(workspace, packageId, pkg.value.proposals, newIds);
      assert steps[0..] == steps;
      for i := 0 to |newIds|
        invariant Sound()
        invariant Listing(Sequence(env, old(Snapshot()), steps)) == Listing(Sequence(env, Snapshot(), steps[i..]))
      {
        CreateThenRest(env, Snapshot(), steps[i], steps[i + 1..]);
        assert [steps[i]] + steps[i + 1..] == steps[i..];
        var stored := Create(newIds[i], workspace, packageId, pkg.value.proposals[i]);
        if stored.Failed? { return stored; }
      }
      NothingLeft(env, Snapshot());
      return Continue;
    }

    /** `UpdatePayload` */
    method Update(workspace: Id, actionId: Id, input: PayloadInput) returns (response: Response)
      requires Sound()
      modifies this`actions
      ensures Sound()
      ensures (Snapshot(), response) == Apply(env, old(Snapshot()), DoUpdate(workspace, actionId, input))
    {
      hide Valid, ValidDraft, Edited;
      StepKeepsValid(env, Snapshot(), DoUpdate(workspace, actionId, input));
      if !RowFree(actionId) { return Blocked; }
      if actionId !in actions || actions[actionId].workspace != workspace { return Failed(NotFound); }
      var record := actions[actionId];
      if record.mode == Control || record.status == Executed { return Failed(NotEditable); }
      var payload := Edited(record.payload, input);
      if !ValidDraft(payload) { return Failed(InvalidRequest); }
      var newHash := env.hash(payload);
      if newHash == record.payloadHash && record.status != Rejected { return Unchanged(record); }
      record := record.(payload := payload, revision := record.revision + 1, payloadHash := newHash,
                        status := Proposed);
      actions := actions[actionId := record];
      return Stored(record);
    }

    /** `decide`, for approvals and rejections */
    method MakeDecision(workspace: Id, actionId: Id, kind: Kind, input: DecisionInput, decisionId: Id)
      returns (response: Response)
      requires Sound()
      modifies this`actions, this`decisions
      ensures Sound()
      ensures (Snapshot(), response) ==
                Apply(env, old(Snapshot()), DoDecide(workspace, actionId, kind, input, decisionId))
    {
      hide Valid, ValidPayload, LongEnough, StorableActor, Text.Trim;
      StepKeepsValid(env, Snapshot(), DoDecide(workspace, actionId, kind, input, decisionId));
      if !RowFree(actionId) { return Blocked; }
      if actionId !in actions || actions[actionId].workspace != workspace { return Failed(NotFound); }
      var record := actions[actionId];
      if record.mode == Control || record.status == Executed { return Failed(NotEditable); }
      if Text.Trim(input.expectedHash) != record.payloadHash { return Failed(PayloadChanged); }
      if kind == Approve && !ValidPayload(record.payload) { return Failed(InvalidRequest); }
      if !LongEnough(input.actorName) || !LongEnough(input.actorRole) { return Failed(InvalidRequest); }
      var pkg := env.packages(record.packageId);
      if pkg.None? { return Failed(PackageUnavailable); }
      var critical, review := SplitGaps(pkg.value.gaps);
      if kind == Approve && |critical| > 0 { return Failed(CriticalGapsOpen); }
      var acknowledged := [];
      if kind == Approve && |review| > 0 {
        if !input.acknowledgeGaps { return Failed(GapsNotAcknowledged); }
        acknowledged := review;
      }
      if kind == Reject && !LongEnough(input.note) { return Failed(InvalidRequest); }
      if !StorableActor(input) { return Failed(StoreRejected); }
      if (actionId, record.revision) in decisions { return Failed(AlreadyDecided); }
      var decision := Decision(decisionId, record.workspace, actionId, record.packageId, kind, record.revision,
                               record.payloadHash,
                               Text.Trim(input.actorName), Text.Trim(input.actorRole), Text.Trim(input.note),
                               acknowledged);
      decisions := decisions[(actionId, record.revision) := decision];
      actions := actions[actionId := record.(status := StatusFor(kind))];
      return Decided(decision);
    }

    /** `splitGaps`, down to the codes */
    static method SplitGaps(gaps: seq<Gap>) returns (critical: seq<string>, review: seq<string>)
      ensures critical == GapCodes(gaps, true) && review == GapCodes(gaps, false)
    {
      critical, review := [], [];
      for i := 0 to |gaps|
        invariant critical == GapCodes(gaps[..i], true) && review == GapCodes(gaps[..i], false)
      {
        assert gaps[..i + 1][..i] == gaps[..i];
        if gaps[i].critical { critical := critical + [gaps[i].code]; } else { review := review + [gaps[i].code]; }
      }
      assert gaps[..|gaps|] == gaps;
    }

    method FindByKey(actionId: Id, key: string) returns (found: Option<Attempt>)
      ensures found == AttemptWithKey(attempts, actionId, key)
    {
      var i := 0;
      while i < |attempts|
        invariant i <= |attempts|
        invariant AttemptWithKey(attempts, actionId, key) == AttemptWithKey(attempts[i..], actionId, key)
      {
        if attempts[i].actionId == actionId && attempts[i].key == key { return Some(attempts[i]); }
        assert attempts[i..][1..] == attempts[i + 1..];
        i := i + 1;
      }
      return None;
    }

    /** The scan over the stored executions for the one of this action. */
    method FindOfAction(workspace: Id, actionId: Id) returns (found: Option<Attempt>)
      ensures found == AttemptOf(attempts, workspace, actionId)
    {
      var i := 0;
      while i < |attempts|
        invariant i <= |attempts|
        invariant AttemptOf(attempts, workspace, actionId) == AttemptOf(attempts[i..], workspace, actionId)
      {
        if attempts[i].actionId == actionId && attempts[i].workspace == workspace { return Some(attempts[i]); }
        assert attempts[i..][1..] == attempts[i + 1..];
        i := i + 1;
      }
      return None;
    }

    /** `Execute`, up to the key check */
    method BeginExecution(sid: Id, workspace: Id, actionId: Id, idempotencyKey: string) returns (response: Response)
      requires Sound()
      modifies this`sessions
      ensures Sound()
      ensures (Snapshot(), response) ==
                Apply(env, old(Snapshot()), DoCheckKey(sid, workspace, actionId, idempotencyKey))
    {
      hide Valid, AttemptWithKey, Text.Trim, Text.ByteLength;
      StepKeepsValid(env, Snapshot(), DoCheckKey(sid, workspace, actionId, idempotencyKey));
      if sid in sessions { return Blocked; }
      assert sessions - {sid} == sessions;
      var key := Text.Trim(idempotencyKey);
      if Text.ByteLength(key) < 16 || Text.ByteLength(key) > 128 { return Failed(InvalidRequest); }
      var existing := FindByKey(actionId, key);
      if existing.Some? {
        if actionId !in actions || actions[actionId].workspace != workspace { return Failed(NotFound); }
        return Completed(existing.value.receipt);
      }
      sessions := sessions[sid := KeyChecked(workspace, actionId, key)];
      return Continue;
    }

    method EndSession(sid: Id)
      modifies this`sessions
      ensures Snapshot() == WithSession(old(Snapshot()), sid, None)
    {
      sessions := sessions - {sid};
    }

    /** `Execute`, from the row lock to the approval */
    method LockAction(sid: Id) returns (response: Response)
      requires Sound()
      modifies this`sessions
      ensures Sound()
      ensures (Snapshot(), response) == Apply(env, old(Snapshot()), DoLock(sid))
    {
      hide Valid, AttemptOf;
      StepKeepsValid(env, Snapshot(), DoLock(sid));
      if sid !in sessions || !sessions[sid].KeyChecked? || !RowFree(sessions[sid].actionId) { return Blocked; }
      var s := sessions[sid];
      if s.actionId !in actions || actions[s.actionId].workspace != s.workspace {
        EndSession(sid);
        return Failed(NotFound);
      }
      var record := actions[s.actionId];
      if record.mode == Control { EndSession(sid); return Failed(ControlInEffect); }
      if record.status == Executed {
        var existing := FindOfAction(s.workspace, s.actionId);
        EndSession(sid);
        return if existing.Some? then Completed(existing.value.receipt) else Failed(ReceiptMissing);
      }
      if record.status != Approved { EndSession(sid); return Failed(NotApproved); }
      var approval := CurrentApproval(Db(actions, decisions, attempts, releases), s.workspace, s.actionId, record);
      if approval.None? { EndSession(sid); return Failed(ApprovalMismatch); }
      if env.packages(record.packageId).None? { EndSession(sid); return Failed(PackageUnavailable); }
      sessions := sessions[sid := Locked(s.workspace, s.actionId, s.key, record, approval.value)];
      return Continue;
    }

    /** `Execute`, the checks of the frozen plan */
    method CheckPlan(sid: Id) returns (response: Response)
      requires Sound()
      modifies this`sessions
      ensures Sound()
      ensures (Snapshot(), response) == Apply(env, old(Snapshot()), DoCheckRelease(sid))
    {
      hide Valid;
      StepKeepsValid(env, Snapshot(), DoCheckRelease(sid));
      if sid !in sessions || !sessions[sid].Locked? || env.packages(sessions[sid].action.packageId).None? {
        return Blocked;
      }
      var s := sessions[sid];
      if s.action.mode == InternalRelease {
        var pkg := env.packages(s.action.packageId).value;
        if pkg.prohibited || pkg.placement.None? || !pkg.placement.value.ready {
          EndSession(sid);
          return Failed(NotReleasable);
        }
        var placementId := pkg.placement.value.id;
        if !env.isUuid(placementId) || placementId != s.action.sourceId {
          EndSession(sid);
          return Failed(WrongPlacement);
        }
        if placementId in releases && releases[placementId].workspace == s.workspace {
          EndSession(sid);
          return Failed(AlreadyReleased);
        }
      }
      sessions := sessions[sid := Cleared(s.workspace, s.actionId, s.key, s.action, s.approval)];
      return Continue;
    }

    /** `Execute`, the inserts, the status change and the commit; a refused insert rolls back */
    method Commit(sid: Id, attemptId: Id, releaseId: Id) returns (response: Response)
      requires Sound()
      modifies this
      ensures Sound()
      ensures (Snapshot(), response) == Apply(env, old(Snapshot()), DoCommit(sid, attemptId, releaseId))
    {
      hide Valid, AttemptWithKey, NewAttempt;
      StepKeepsValid(env, Snapshot(), DoCommit(sid, attemptId, releaseId));
      if sid !in sessions || !sessions[sid].Cleared? || sessions[sid].actionId !in actions { return Blocked; }
      var s := sessions[sid];
      EndSession(sid);
      var existing := FindByKey(s.actionId, s.key);
      if |s.key| < 16 || existing.Some? { return Failed(StoreRejected); }
      var attempt := NewAttempt(s, attemptId, releaseId);
      if s.action.mode == InternalRelease {
        if s.action.sourceId in releases { return Failed(AlreadyReleased); }
        releases := releases[s.action.sourceId := Release(releaseId, s.workspace, s.action.packageId, s.actionId,
                                                          s.approval.id, attemptId)];
      }
      attempts := attempts + [attempt];
      actions := actions[s.actionId := actions[s.actionId].(status := Executed)];
      return Completed(attempt.receipt);
    }

    /** `Execute` run without interruption: the steps one after the other. */
    method Execute(sid: Id, workspace: Id, actionId: Id, idempotencyKey: string, attemptId: Id, releaseId: Id)
      returns (response: Response)
      requires Sound()
      modifies this
      ensures Sound()
      ensures (Snapshot(), response) ==
                ExecuteAlone(env, old(Snapshot()), sid, workspace, actionId, idempotencyKey, attemptId, releaseId)
    {
      hide Valid, Apply, ExecuteAlone, Sequence;
      ExecuteUnfolds(env, Snapshot(), sid, workspace, actionId, idempotencyKey, attemptId, releaseId);
      response := BeginExecution(sid, workspace, actionId, idempotencyKey);
      if Ends(response) { return; }
      LockUnfolds(env, Snapshot(), sid, attemptId, releaseId);
      response := LockAction(sid);
      if Ends(response) { return; }
      SequenceOfTwo(env, Snapshot(), DoCheckRelease(sid), DoCommit(sid, attemptId, releaseId));
      response := CheckPlan(sid);
      if Ends(response) { return; }
      response := Commit(sid, attemptId, releaseId);
    }
  }

  lemma {:induction false} NothingLeft(env: Env, w: World)
    ensures Listing(Sequence(env, w, [])) == (w, Continue)
  {}
}
