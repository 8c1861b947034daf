/**
  Safety of controlled actions over every interleaving: what the tables satisfy after any
  sequence of steps by any number of concurrent transactions.
*/
module ApprovalSafety {
  import opened Wrappers
  import opened Approval
  import Text

  // ---------- the invariant ----------

  /** The single decision of the action's current revision has this kind and the action's hash. */
  ghost predicate DecidedAs(db: Db, id: Id, kind: Kind)
    requires id in db.actions
  {
    var a := db.actions[id];
    && (id, a.revision) in db.decisions
    && var d := db.decisions[(id, a.revision)];
       d.kind == kind && d.payloadHash == a.payloadHash
  }

  /** Approval was given to a complete payload of a package without critical gaps. */
  ghost predicate SoundApproval(env: Env, db: Db, id: Id)
    requires id in db.actions
  {
    var a := db.actions[id];
    && DecidedAs(db, id, Approve)
    && ValidPayload(a.payload)
    && env.packages(a.packageId).Some?
    && GapCodes(env.packages(a.packageId).value.gaps, true) == []
    && db.decisions[(id, a.revision)].acknowledged == GapCodes(env.packages(a.packageId).value.gaps, false)
  }

  ghost predicate HasAttempt(db: Db, id: Id) {
    exists i :: 0 <= i < |db.attempts| && db.attempts[i].actionId == id
  }

  /** The frozen plan of the action's package may be released: not prohibited, ready, and the plan the action names. */
  predicate Releasable(env: Env, a: Action) {
    && env.packages(a.packageId).Some?
    && var pkg := env.packages(a.packageId).value;
       !pkg.prohibited && pkg.placement == Some(FrozenPlacement(a.sourceId, true)) && env.isUuid(a.sourceId)
  }

  ghost predicate ActionOk(env: Env, db: Db, id: Id)
    requires id in db.actions
  {
    var a := db.actions[id];
    && a.revision >= 1 && a.payloadHash == env.hash(a.payload)
    && (if a.mode == Control then a.status == Executed
        else match a.status
             case Proposed => (id, a.revision) !in db.decisions
             case Approved => SoundApproval(env, db, id)
             case Rejected => DecidedAs(db, id, Reject)
             case Executed =>
               SoundApproval(env, db, id) && HasAttempt(db, id) && (a.mode == InternalRelease ==> Releasable(env, a)))
  }

  ghost predicate DecisionOk(db: Db, key: (Id, int))
    requires key in db.decisions
  {
    var d := db.decisions[key];
    && key.0 in db.actions && 1 <= key.1 <= db.actions[key.0].revision
    && d.actionId == key.0 && d.revision == key.1
    && d.workspace == db.actions[key.0].workspace && d.packageId == db.actions[key.0].packageId
    && Text.ByteLength(d.actorName) >= 2 && Text.ByteLength(d.actorRole) >= 2
    && (d.kind == Reject ==> Text.ByteLength(d.note) >= 2)
  }

  ghost predicate AttemptOk(db: Db, t: Attempt) {
    && t.actionId in db.actions
    && var a := db.actions[t.actionId];
       && a.mode != Control && a.status == Executed && a.workspace == t.workspace
       && (t.actionId, a.revision) in db.decisions && db.decisions[(t.actionId, a.revision)].id == t.approvalId
       && t.receipt.id == t.id && |t.key| >= 16
       && (if a.mode == InternalRelease then
             && t.handoff.None? && t.receipt.outcome == InternalReleased && a.sourceId in db.releases
             && db.releases[a.sourceId] ==
                Release(t.receipt.releaseId, a.workspace, a.packageId, t.actionId, t.approvalId, t.id)
           else
             && t.receipt.outcome == OperatorHandoffReady && t.receipt.releaseId == ""
             && t.handoff == Some(Handoff(t.actionId, a.revision, a.payloadHash, a.payload,
                                       db.decisions[(t.actionId, a.revision)])))
  }

  ghost predicate ReleaseOk(db: Db, placementId: Id)
    requires placementId in db.releases
  {
    var r := db.releases[placementId];
    && r.actionId in db.actions && HasAttempt(db, r.actionId)
    && db.actions[r.actionId].mode == InternalRelease && db.actions[r.actionId].sourceId == placementId
  }

  ghost predicate OneAttemptEach(db: Db) {
    forall i, j :: 0 <= i < j < |db.attempts| ==> db.attempts[i].actionId != db.attempts[j].actionId
  }

  ghost predicate DbOk(env: Env, db: Db) {
    && (forall id :: id in db.actions ==> ActionOk(env, db, id))
    && (forall key :: key in db.decisions ==> DecisionOk(db, key))
    && (forall i :: 0 <= i < |db.attempts| ==> AttemptOk(db, db.attempts[i]))
    && (forall p :: p in db.releases ==> ReleaseOk(db, p))
    && OneAttemptEach(db)
  }

  /** A transaction that holds a lock still sees the row and the approval it read. */
  ghost predicate SessionOk(env: Env, db: Db, s: Session) {
    HoldsLock(s) ==>
      && Owned(db, s.workspace, s.actionId) && db.actions[s.actionId] == s.action
      && s.action.mode != Control && s.action.status == Approved
      && (s.actionId, s.action.revision) in db.decisions
      && db.decisions[(s.actionId, s.action.revision)] == s.approval
      && env.packages(s.action.packageId).Some?
      && (s.Cleared? && s.action.mode == InternalRelease ==> Releasable(env, s.action))
  }

  predicate BothHold(s: Session, t: Session) { HoldsLock(s) && HoldsLock(t) && s.actionId == t.actionId }

  ghost predicate OneHolderEach(sessions: map<Id, Session>) {
    forall s, t :: s in sessions && t in sessions && BothHold(sessions[s], sessions[t]) ==> s == t
  }

  ghost predicate Valid(env: Env, w: World) {
    && DbOk(env, w.db)
    && (forall sid :: sid in w.sessions ==> SessionOk(env, w.db, w.sessions[sid]))
    && OneHolderEach(w.sessions)
  }

  lemma {:induction false} EmptyIsValid(env: Env)
    ensures Valid(env, Empty())
  {}

  // ---------- tables under each write ----------

  /** Two databases that agree on everything about one action. */
  ghost predicate SameAction(db: Db, more: Db, id: Id) {
    && (id in db.actions <==> id in more.actions)
    && (id in db.actions ==>
          && db.actions[id] == more.actions[id]
          && ((id, db.actions[id].revision) in db.decisions <==> (id, db.actions[id].revision) in more.decisions)
          && ((id, db.actions[id].revision) in db.decisions ==>
                db.decisions[(id, db.actions[id].revision)] == more.decisions[(id, db.actions[id].revision)]))
  }

  ghost predicate OthersSame(db: Db, more: Db, id: Id) {
    forall other :: other != id ==> SameAction(db, more, other)
  }

  lemma {:induction false} ActionKept(env: Env, db: Db, more: Db, id: Id)
    requires id in db.actions && SameAction(db, more, id) && ActionOk(env, db, id)
    requires HasAttempt(db, id) ==> HasAttempt(more, id)
    ensures ActionOk(env, more, id)
  {
    hide ValidPayload, GapCodes, HasAttempt;
  }

  /** Only executed actions have attempts. */
  lemma {:induction false} NoAttemptYet(env: Env, db: Db, id: Id)
    requires DbOk(env, db) && (id in db.actions ==> db.actions[id].status != Executed)
    ensures !HasAttempt(db, id)
  {
    hide ActionOk, DecisionOk, ReleaseOk, OneAttemptEach;
    forall i | 0 <= i < |db.attempts| ensures db.attempts[i].actionId != id { assert AttemptOk(db, db.attempts[i]); }
  }

  lemma {:induction false} NoLaterDecision(env: Env, db: Db, id: Id, revision: int)
    requires DbOk(env, db) && (id in db.actions ==> revision > db.actions[id].revision)
    ensures (id, revision) !in db.decisions
  {
    hide ActionOk, AttemptOk, ReleaseOk, OneAttemptEach;
    assert (id, revision) in db.decisions ==> DecisionOk(db, (id, revision));
  }

  /**
    Changing the row of one action that has no attempt, and possibly deciding its revision, keeps
    every other row in order; what remains is the changed action itself.
  */
  lemma {:induction false} OneRowChanged(env: Env, db: Db, more: Db, id: Id)
    requires DbOk(env, db) && !HasAttempt(db, id)
    requires more.attempts == db.attempts && more.releases == db.releases
    requires OthersSame(db, more, id)
    requires id in more.actions && more.actions.Keys == db.actions.Keys + {id} && ActionOk(env, more, id)
    requires forall key :: key in more.decisions ==> DecisionOk(more, key)
    ensures DbOk(env, more)
  {
    hide ActionOk, DecisionOk, ReleaseOk, AttemptOk, SameAction, HasAttempt;
    forall other | other in more.actions ensures ActionOk(env, more, other) {
      if other != id { SameAttempts(db, more, other); ActionKept(env, db, more, other); }
    }
    forall i | 0 <= i < |more.attempts| ensures AttemptOk(more, more.attempts[i]) {
      assert AttemptOk(db, db.attempts[i]);
      HasItsAction(db, i);
      AttemptKept(db, more, db.attempts[i]);
    }
    forall p | p in more.releases ensures ReleaseOk(more, p) {
      assert ReleaseOk(db, p);
      ReleaseKept(db, more, id, p);
    }
  }

  lemma {:induction false} SameAttempts(db: Db, more: Db, id: Id)
    requires db.attempts <= more.attempts
    ensures HasAttempt(db, id) ==> HasAttempt(more, id)
  {
    if HasAttempt(db, id) {
      var i :| 0 <= i < |db.attempts| && db.attempts[i].actionId == id;
      assert more.attempts[i].actionId == id;
    }
  }

  lemma {:induction false} HasItsAction(db: Db, i: nat)
    requires i < |db.attempts|
    ensures HasAttempt(db, db.attempts[i].actionId)
  {}

  lemma {:induction false} AttemptKept(db: Db, more: Db, t: Attempt)
    requires AttemptOk(db, t) && SameAction(db, more, t.actionId)
    requires forall p :: p in db.releases ==> p in more.releases && more.releases[p] == db.releases[p]
    ensures AttemptOk(more, t)
  {}

  lemma {:induction false} ReleaseKept(db: Db, more: Db, id: Id, p: Id)
    requires p in db.releases && ReleaseOk(db, p) && p in more.releases && more.releases[p] == db.releases[p]
    requires db.attempts <= more.attempts && OthersSame(db, more, id) && !HasAttempt(db, id)
    ensures ReleaseOk(more, p)
  {
    SameAttempts(db, more, db.releases[p].actionId);
    hide HasAttempt;
    assert SameAction(db, more, db.releases[p].actionId);
  }

  lemma {:induction false} CreateKeepsDb(env: Env, db: Db, id: Id, workspace: Id, packageId: Id, pkg: Package,
                                         p: Proposal)
    requires DbOk(env, db)
    ensures DbOk(env, CreateAction(env, db, id, workspace, packageId, pkg, p).0)
    ensures OthersSame(db, CreateAction(env, db, id, workspace, packageId, pkg, p).0, id)
  {
    hide CodeTaken, ValidPayload, GapCodes, ActionMode, HasAttempt;
    var more := CreateAction(env, db, id, workspace, packageId, pkg, p).0;
    if more != db {
      NoLaterDecision(env, db, id, 1);
      NoAttemptYet(env, db, id);
      DecisionsUndisturbed(env, db, more, id);
      OneRowChanged(env, db, more, id);
    }
  }

  lemma {:induction false} DecisionsUndisturbed(env: Env, db: Db, more: Db, id: Id)
    requires DbOk(env, db) && more.decisions == db.decisions && OthersSame(db, more, id)
    requires id in db.actions ==> id in more.actions && db.actions[id].revision <= more.actions[id].revision
                                  && db.actions[id].workspace == more.actions[id].workspace
                                  && db.actions[id].packageId == more.actions[id].packageId
    ensures forall key :: key in more.decisions ==> DecisionOk(more, key)
  {
    hide ActionOk, AttemptOk, ReleaseOk, OneAttemptEach;
    forall key | key in more.decisions ensures DecisionOk(more, key) {
      assert DecisionOk(db, key);
      if key.0 != id { assert SameAction(db, more, key.0); }
    }
  }

  lemma {:induction false} UpdateKeepsDb(env: Env, db: Db, workspace: Id, actionId: Id, input: PayloadInput)
    requires DbOk(env, db)
    ensures DbOk(env, UpdatePayload(env, db, workspace, actionId, input).0)
    ensures OthersSame(db, UpdatePayload(env, db, workspace, actionId, input).0, actionId)
  {
    hide ValidDraft, ValidPayload, GapCodes, Edited, HasAttempt, AttemptOk, ReleaseOk, OneAttemptEach;
    var more := UpdatePayload(env, db, workspace, actionId, input).0;
    if more != db {
      assert ActionOk(env, db, actionId);
      NoLaterDecision(env, db, actionId, more.actions[actionId].revision);
      NoAttemptYet(env, db, actionId);
      DecisionsUndisturbed(env, db, more, actionId);
      OneRowChanged(env, db, more, actionId);
    }
  }

  lemma {:induction false} DecidedActionOk(env: Env, db: Db, workspace: Id, actionId: Id, kind: Kind,
                                           input: DecisionInput, decisionId: Id)
    requires Decide(env, db, workspace, actionId, kind, input, decisionId).1.Decided?
    requires ActionOk(env, db, actionId)
    ensures var more := Decide(env, db, workspace, actionId, kind, input, decisionId).0;
            && ActionOk(env, more, actionId) && DecisionOk(more, (actionId, db.actions[actionId].revision))
            && db.actions[actionId].status != Executed
  {
    hide ValidPayload, GapCodes, HasAttempt, StorableActor, Text.ByteLength, Text.Trim;
  }

  lemma {:induction false} DecideTouchesOneAction(env: Env, db: Db, workspace: Id, actionId: Id, kind: Kind,
                                                  input: DecisionInput, decisionId: Id)
    ensures var (more, response) := Decide(env, db, workspace, actionId, kind, input, decisionId);
            && OthersSame(db, more, actionId)
            && more.attempts == db.attempts && more.releases == db.releases && more.actions.Keys == db.actions.Keys
            && (!response.Decided? ==> more == db)
            && (response.Decided? ==>
                  && actionId in db.actions
                  && more.decisions.Keys == db.decisions.Keys + {(actionId, db.actions[actionId].revision)}
                  && more.actions[actionId] == db.actions[actionId].(status := more.actions[actionId].status)
                  && forall key :: key in db.decisions ==> more.decisions[key] == db.decisions[key])
  {
    hide StorableActor, DecisionProblem;
  }

  lemma {:induction false} DecideKeepsDb(env: Env, db: Db, workspace: Id, actionId: Id, kind: Kind,
                                         input: DecisionInput, decisionId: Id)
    requires DbOk(env, db)
    ensures DbOk(env, Decide(env, db, workspace, actionId, kind, input, decisionId).0)
    ensures OthersSame(db, Decide(env, db, workspace, actionId, kind, input, decisionId).0, actionId)
  {
    hide HasAttempt, AttemptOk, ReleaseOk, OneAttemptEach, ActionOk, Decide, SameAction;
    DecideTouchesOneAction(env, db, workspace, actionId, kind, input, decisionId);
    var (more, response) := Decide(env, db, workspace, actionId, kind, input, decisionId);
    if response.Decided? {
      DecidedActionOk(env, db, workspace, actionId, kind, input, decisionId);
      NoAttemptYet(env, db, actionId);
      forall key | key in more.decisions ensures DecisionOk(more, key) {
        if key in db.decisions {
          assert DecisionOk(db, key);
          SameRow(db, more, actionId, key.0);
        }
      }
      OneRowChanged(env, db, more, actionId);
    }
  }

  lemma {:induction false} SameRow(db: Db, more: Db, id: Id, other: Id)
    requires OthersSame(db, more, id) && other in db.actions
    ensures other != id ==> other in more.actions && more.actions[other] == db.actions[other]
  {
    assert other != id ==> SameAction(db, more, other);
  }

  /** The rows a commit writes about its own action. */
  lemma {:induction false} CommittedRows(env: Env, db: Db, s: Session, attemptId: Id, releaseId: Id)
    requires s.Cleared? && SessionOk(env, db, s) && ActionOk(env, db, s.actionId)
    requires CommitExecution(db, s, attemptId, releaseId).1.Completed?
    ensures var more := CommitExecution(db, s, attemptId, releaseId).0;
            && |more.attempts| == |db.attempts| + 1 && db.attempts <= more.attempts
            && more.attempts[|db.attempts|].actionId == s.actionId
            && AttemptOk(more, more.attempts[|db.attempts|])
            && HasAttempt(more, s.actionId) && ActionOk(env, more, s.actionId)
            && (forall p :: p in db.releases ==> p in more.releases && more.releases[p] == db.releases[p])
            && (forall p :: p in more.releases && p !in db.releases ==> ReleaseOk(more, p))
  {
    hide ValidPayload, GapCodes, Text.ByteLength, AttemptWithKey;
    var more := CommitExecution(db, s, attemptId, releaseId).0;
    assert more.attempts[|db.attempts|].actionId == s.actionId;
  }

  lemma {:induction false} CommitTouchesOneAction(env: Env, db: Db, s: Session, attemptId: Id, releaseId: Id)
    requires s.Cleared? && SessionOk(env, db, s)
    ensures var more := CommitExecution(db, s, attemptId, releaseId).0;
            && OthersSame(db, more, s.actionId) && more.decisions == db.decisions
            && more.actions.Keys == db.actions.Keys
            && more.actions[s.actionId].revision == db.actions[s.actionId].revision
            && more.actions[s.actionId].workspace == db.actions[s.actionId].workspace
            && more.actions[s.actionId].packageId == db.actions[s.actionId].packageId
    ensures CommitExecution(db, s, attemptId, releaseId).1.Completed?
            || CommitExecution(db, s, attemptId, releaseId).0 == db
  {
    hide NewAttempt, AttemptWithKey;
  }

  /** Committing an execution under the lock: exactly one attempt joins, and at most one release. */
  lemma {:induction false} CommitKeepsDb(env: Env, db: Db, s: Session, attemptId: Id, releaseId: Id)
    requires DbOk(env, db) && s.Cleared? && SessionOk(env, db, s)
    ensures DbOk(env, CommitExecution(db, s, attemptId, releaseId).0)
    ensures OthersSame(db, CommitExecution(db, s, attemptId, releaseId).0, s.actionId)
  {
    hide ActionOk, DecisionOk, AttemptOk, ReleaseOk, HasAttempt, CommitExecution, SameAction;
    var id := s.actionId;
    var more := CommitExecution(db, s, attemptId, releaseId).0;
    CommitTouchesOneAction(env, db, s, attemptId, releaseId);
    if more != db {
      NoAttemptYet(env, db, id);
      CommittedRows(env, db, s, attemptId, releaseId);
      DecisionsUndisturbed(env, db, more, id);
      OldRowsKept(env, db, more, id);
      forall other | other in more.actions ensures ActionOk(env, more, other) {
        if other != id { SameAttempts(db, more, other); ActionKept(env, db, more, other); }
      }
    }
  }

  lemma {:induction false} OldRowsKept(env: Env, db: Db, more: Db, id: Id)
    requires DbOk(env, db) && OthersSame(db, more, id) && !HasAttempt(db, id)
    requires db.attempts <= more.attempts && |more.attempts| == |db.attempts| + 1
    requires more.attempts[|db.attempts|].actionId == id
    requires forall p :: p in db.releases ==> p in more.releases && more.releases[p] == db.releases[p]
    ensures forall i :: 0 <= i < |db.attempts| ==> AttemptOk(more, more.attempts[i])
    ensures forall p :: p in db.releases ==> ReleaseOk(more, p)
    ensures OneAttemptEach(more)
  {
    hide ActionOk, DecisionOk, AttemptOk, ReleaseOk, SameAction, HasAttempt;
    forall i | 0 <= i < |db.attempts| ensures AttemptOk(more, more.attempts[i]) && more.attempts[i].actionId != id {
      HasItsAction(db, i);
      AttemptKept(db, more, db.attempts[i]);
    }
    forall p | p in db.releases ensures ReleaseOk(more, p) { ReleaseKept(db, more, id, p); }
  }

  // ---------- worlds ----------

  lemma {:induction false} SessionKept(env: Env, db: Db, more: Db, s: Session)
    requires SessionOk(env, db, s) && SameAction(db, more, s.actionId)
    ensures SessionOk(env, more, s)
  {}

  /** A write to one action keeps the sessions valid when none of them holds its lock. */
  lemma {:induction false} SessionsKept(env: Env, w: World, more: Db, id: Id)
    requires Valid(env, w) && DbOk(env, more) && OthersSame(w.db, more, id) && LockFree(w, id)
    ensures Valid(env, w.(db := more))
  {
    hide DbOk, SameAction, SessionOk, OneHolderEach;
    forall sid | sid in w.sessions ensures SessionOk(env, more, w.sessions[sid]) {
      if HoldsLock(w.sessions[sid]) {
        SessionKept(env, w.db, more, w.sessions[sid]);
      } else {
        Unlocked(env, more, w.sessions[sid]);
      }
    }
  }

  lemma {:induction false} Unlocked(env: Env, db: Db, s: Session)
    requires !HoldsLock(s)
    ensures SessionOk(env, db, s)
  {}

  /** Replacing a session by a later stage of itself, or ending it, keeps the world valid. */
  lemma {:induction false} SessionMoves(env: Env, w: World, sid: Id, next: Option<Session>)
    requires Valid(env, w)
    requires next.Some? ==> SessionOk(env, w.db, next.value)
    requires next.Some? && HoldsLock(next.value) ==>
               LockFree(w, next.value.actionId) || (sid in w.sessions && BothHold(w.sessions[sid], next.value))
    ensures Valid(env, WithSession(w, sid, next))
  {
    hide DbOk, SessionOk;
  }

  lemma {:induction false} LockReadsTruth(env: Env, db: Db, s: Session)
    requires s.KeyChecked?
    ensures var next := LockAndRead(env, db, s).1;
            next.Some? ==> SessionOk(env, db, next.value) && next.value.actionId == s.actionId
  {
    hide AttemptOf;
  }

  lemma {:induction false} LockKeepsValid(env: Env, w: World, sid: Id)
    requires Valid(env, w)
    ensures Valid(env, Apply(env, w, DoLock(sid)).0)
  {
    hide LockAndRead, Valid, SessionOk, WithSession;
    if sid in w.sessions && w.sessions[sid].KeyChecked? && LockFree(w, w.sessions[sid].actionId) {
      LockReadsTruth(env, w.db, w.sessions[sid]);
      SessionMoves(env, w, sid, LockAndRead(env, w.db, w.sessions[sid]).1);
    }
  }

  lemma {:induction false} CheckReleaseKeepsSession(env: Env, db: Db, s: Session)
    requires s.Locked? && SessionOk(env, db, s) && env.packages(s.action.packageId).Some?
    ensures var next := CheckRelease(env, db, s).1;
            next.Some? ==> SessionOk(env, db, next.value) && BothHold(s, next.value)
  {}

  lemma {:induction false} SessionIsOk(env: Env, w: World, sid: Id)
    requires Valid(env, w) && sid in w.sessions
    ensures SessionOk(env, w.db, w.sessions[sid]) && DbOk(env, w.db)
  {
    hide SessionOk, DbOk, OneHolderEach;
  }

  lemma {:induction false} CheckReleaseKeepsValid(env: Env, w: World, sid: Id)
    requires Valid(env, w)
    ensures Valid(env, Apply(env, w, DoCheckRelease(sid)).0)
  {
    hide CheckRelease, Valid, SessionOk, WithSession, BothHold;
    if sid in w.sessions && w.sessions[sid].Locked? && env.packages(w.sessions[sid].action.packageId).Some? {
      SessionIsOk(env, w, sid);
      CheckReleaseKeepsSession(env, w.db, w.sessions[sid]);
      SessionMoves(env, w, sid, CheckRelease(env, w.db, w.sessions[sid]).1);
    }
  }

  /** Ending a session that holds a lock frees the row. */
  lemma {:induction false} EndingFreesTheRow(env: Env, w: World, sid: Id)
    requires Valid(env, w) && sid in w.sessions && HoldsLock(w.sessions[sid])
    ensures LockFree(WithSession(w, sid, None), w.sessions[sid].actionId)
  {
    hide DbOk, SessionOk;
    var ended := WithSession(w, sid, None);
    forall t | t in ended.sessions && HoldsLock(ended.sessions[t])
      ensures ended.sessions[t].actionId != w.sessions[sid].actionId {
      assert !BothHold(w.sessions[t], w.sessions[sid]);
    }
  }

  lemma {:induction false} CommitKeepsValid(env: Env, w: World, sid: Id, attemptId: Id, releaseId: Id)
    requires Valid(env, w)
    ensures Valid(env, Apply(env, w, DoCommit(sid, attemptId, releaseId)).0)
  {
    hide CommitExecution, Valid, DbOk, SessionOk, OthersSame, LockFree;
    if sid in w.sessions && w.sessions[sid].Cleared? && w.sessions[sid].actionId in w.db.actions {
      var s := w.sessions[sid];
      SessionIsOk(env, w, sid);
      CommitKeepsDb(env, w.db, s, attemptId, releaseId);
      SessionMoves(env, w, sid, None);
      EndingFreesTheRow(env, w, sid);
      SessionsKept(env, WithSession(w, sid, None), CommitExecution(w.db, s, attemptId, releaseId).0, s.actionId);
    }
  }

  /** Every step of every transaction keeps the invariant. */
  lemma {:induction false} StepKeepsValid(env: Env, w: World, step: Step)
    requires Valid(env, w)
    ensures Valid(env, Apply(env, w, step).0)
  {
    match step
    case DoCreate(newId, workspace, packageId, proposal) =>
      if env.packages(packageId).Some? { CreateKeepsValid(env, w, newId, workspace, packageId, proposal); }
    case DoUpdate(workspace, actionId, payload) =>
      UpdateKeepsDb(env, w.db, workspace, actionId, payload);
      hide UpdatePayload, Valid, DbOk, OthersSame;
      if LockFree(w, actionId) {
        SessionsKept(env, w, UpdatePayload(env, w.db, workspace, actionId, payload).0, actionId);
      }
    case DoDecide(workspace, actionId, kind, input, decisionId) =>
      DecideKeepsDb(env, w.db, workspace, actionId, kind, input, decisionId);
      hide Decide, Valid, DbOk, OthersSame;
      if LockFree(w, actionId) {
        SessionsKept(env, w, Decide(env, w.db, workspace, actionId, kind, input, decisionId).0, actionId);
      }
    case DoCheckKey(sid, workspace, actionId, key) =>
      hide DbOk, Valid, OneHolderEach;
      if sid !in w.sessions { SessionMoves(env, w, sid, CheckKey(w.db, workspace, actionId, key).1); }
    case DoLock(sid) => LockKeepsValid(env, w, sid);
    case DoCheckRelease(sid) => CheckReleaseKeepsValid(env, w, sid);
    case DoCommit(sid, attemptId, releaseId) => CommitKeepsValid(env, w, sid, attemptId, releaseId);
    case DoAbort(sid) => SessionMoves(env, w, sid, None);
  }

  lemma {:induction false} CreateKeepsValid(env: Env, w: World, newId: Id, workspace: Id, packageId: Id,
                                            proposal: Proposal)
    requires Valid(env, w) && env.packages(packageId).Some?
    ensures Valid(env, Apply(env, w, DoCreate(newId, workspace, packageId, proposal)).0)
  {
    var pkg := env.packages(packageId).value;
    var more := CreateAction(env, w.db, newId, workspace, packageId, pkg, proposal).0;
    CreateKeepsDb(env, w.db, newId, workspace, packageId, pkg, proposal);
    if more != w.db {
      assert newId !in w.db.actions;
      assert LockFree(w, newId) by {
        forall sid | sid in w.sessions && HoldsLock(w.sessions[sid]) ensures w.sessions[sid].actionId != newId {
          assert SessionOk(env, w.db, w.sessions[sid]);
        }
      }
      hide CreateAction, DbOk, SessionOk, OthersSame;
      SessionsKept(env, w, more, newId);
    }
  }

  /** Safety over whole runs: from empty tables, every interleaving leads to a valid world. */
  lemma {:induction false} EveryRunIsValid(env: Env, steps: seq<Step>)
    ensures Valid(env, Run(env, Empty(), steps))
  {
    if |steps| == 0 {
      EmptyIsValid(env);
    } else {
      EveryRunIsValid(env, steps[..|steps| - 1]);
      hide Valid, Apply;
      StepKeepsValid(env, Run(env, Empty(), steps[..|steps| - 1]), steps[|steps| - 1]);
    }
  }

  // ---------- what every reachable world guarantees ----------

  /**
    A stored attempt: the action is no control and has no second attempt; its approval is the
    decision of exactly the frozen revision and payload hash, by a named reviewer; the payload was
    complete; the package had no critical gaps and all its review gaps were acknowledged; and a
    release was made of the ready plan the action names.
  */
  lemma {:induction false} ExecutionIsAuthorized(env: Env, steps: seq<Step>, i: nat)
    requires i < |Run(env, Empty(), steps).db.attempts|
    ensures var db := Run(env, Empty(), steps).db;
            var t := db.attempts[i];
            && t.actionId in db.actions
            && var a := db.actions[t.actionId];
               && a.mode != Control && a.status == Executed
               && (forall j :: 0 <= j < |db.attempts| && db.attempts[j].actionId == t.actionId ==> j == i)
               && (t.actionId, a.revision) in db.decisions
               && var d := db.decisions[(t.actionId, a.revision)];
                  && d.id == t.approvalId && d.kind == Approve
                  && d.actionId == t.actionId && d.revision == a.revision
                  && d.payloadHash == a.payloadHash == env.hash(a.payload)
                  && ValidPayload(a.payload)
                  && env.packages(a.packageId).Some?
                  && GapCodes(env.packages(a.packageId).value.gaps, true) == []
                  && d.acknowledged == GapCodes(env.packages(a.packageId).value.gaps, false)
                  && t.receipt.id == t.id && t.workspace == a.workspace
                  && (a.mode == InternalRelease ==>
                        && Releasable(env, a) && t.receipt.outcome == InternalReleased && a.sourceId in db.releases
                        && db.releases[a.sourceId] ==
                           Release(t.receipt.releaseId, a.workspace, a.packageId, t.actionId, d.id, t.id))
                  && (a.mode == OperatorHandoff ==>
                        && t.receipt.outcome == OperatorHandoffReady
                        && t.handoff == Some(Handoff(t.actionId, a.revision, a.payloadHash, a.payload, d)))
  {
    EveryRunIsValid(env, steps);
    hide Run, GapCodes, ValidPayload, SessionOk, OneHolderEach, ReleaseOk;
    var db := Run(env, Empty(), steps).db;
    var t := db.attempts[i];
    assert AttemptOk(db, t);
    assert ActionOk(env, db, t.actionId);
    assert DecisionOk(db, (t.actionId, db.actions[t.actionId].revision));
  }

  /** Two executions that released a placement released different ones, and each release has its one execution. */
  lemma {:induction false} PlacementsAreReleasedOnce(env: Env, steps: seq<Step>, i: nat, j: nat)
    requires i < |Run(env, Empty(), steps).db.attempts| && j < |Run(env, Empty(), steps).db.attempts|
    requires var db := Run(env, Empty(), steps).db;
             && db.attempts[i].actionId in db.actions && db.attempts[j].actionId in db.actions
             && db.actions[db.attempts[i].actionId].mode == InternalRelease
             && db.actions[db.attempts[j].actionId].mode == InternalRelease
             && db.actions[db.attempts[i].actionId].sourceId == db.actions[db.attempts[j].actionId].sourceId
    ensures i == j
    ensures var db := Run(env, Empty(), steps).db;
            var placementId := db.actions[db.attempts[i].actionId].sourceId;
            placementId in db.releases && db.releases[placementId].attemptId == db.attempts[i].id
  {
    EveryRunIsValid(env, steps);
    hide Run, ActionOk, DecisionOk, SessionOk, OneHolderEach, ReleaseOk;
    var db := Run(env, Empty(), steps).db;
    assert AttemptOk(db, db.attempts[i]) && AttemptOk(db, db.attempts[j]);
    assert db.attempts[i].actionId == db.attempts[j].actionId;
  }

  /**
    The status of an action that is no control says exactly what was decided about its current
    revision.
  */
  lemma {:induction false} StatusMeansDecision(env: Env, steps: seq<Step>, id: Id)
    requires id in Run(env, Empty(), steps).db.actions
    requires Run(env, Empty(), steps).db.actions[id].mode != Control
    ensures var db := Run(env, Empty(), steps).db;
            var a := db.actions[id];
            var decided := (id, a.revision) in db.decisions;
            && (a.status == Proposed <==> !decided)
            && (a.status == Rejected <==> decided && db.decisions[(id, a.revision)].kind == Reject)
            && (a.status == Approved || a.status == Executed <==>
                decided && db.decisions[(id, a.revision)].kind == Approve)
            && (decided ==> db.decisions[(id, a.revision)].payloadHash == a.payloadHash)
            && (a.status == Executed <==> HasAttempt(db, id))
  {
    EveryRunIsValid(env, steps);
    hide Run, GapCodes, ValidPayload, SessionOk, OneHolderEach, ReleaseOk, HasAttempt, AttemptOk;
    var db := Run(env, Empty(), steps).db;
    assert ActionOk(env, db, id);
    if db.actions[id].status != Executed { NoAttemptYet(env, db, id); }
  }

  // ---------- finding attempts ----------

  lemma {:induction false} AttemptOfFinds(attempts: seq<Attempt>, workspace: Id, t: Attempt)
    requires t in attempts && t.workspace == workspace
    requires forall u :: u in attempts && u.actionId == t.actionId ==> u == t
    ensures AttemptOf(attempts, workspace, t.actionId) == Some(t)
  {
    if attempts[0] != t {
      assert attempts[0] in attempts;
      AttemptOfFinds(attempts[1..], workspace, t);
    }
  }

  lemma {:induction false} AttemptWithKeyIsListed(attempts: seq<Attempt>, actionId: Id, key: string)
    ensures var found := AttemptWithKey(attempts, actionId, key);
            && (found.Some? ==> found.value in attempts && found.value.actionId == actionId && found.value.key == key)
            && (found.None? ==> forall t :: t in attempts ==> t.actionId != actionId || t.key != key)
  {
    if |attempts| > 0 { AttemptWithKeyIsListed(attempts[1..], actionId, key); }
  }

  lemma {:induction false} OnlyAttempt(env: Env, db: Db, t: Attempt, u: Attempt)
    requires DbOk(env, db) && t in db.attempts && u in db.attempts && t.actionId == u.actionId
    ensures t == u
  {
    hide ActionOk, DecisionOk, AttemptOk, ReleaseOk;
    var i :| 0 <= i < |db.attempts| && db.attempts[i] == t;
    var j :| 0 <= j < |db.attempts| && db.attempts[j] == u;
    assert i == j;
  }

  lemma {:induction false} ExecutedHasReceipt(env: Env, db: Db, workspace: Id, actionId: Id)
    requires DbOk(env, db) && Owned(db, workspace, actionId)
    requires db.actions[actionId].mode != Control && db.actions[actionId].status == Executed
    ensures AttemptOf(db.attempts, workspace, actionId).Some?
  {
    assert ActionOk(env, db, actionId);
    hide GapCodes, ValidPayload, DecisionOk, ReleaseOk, SoundApproval;
    var i :| 0 <= i < |db.attempts| && db.attempts[i].actionId == actionId;
    assert AttemptOk(db, db.attempts[i]);
    forall u | u in db.attempts && u.actionId == actionId ensures u == db.attempts[i] {
      OnlyAttempt(env, db, db.attempts[i], u);
    }
    AttemptOfFinds(db.attempts, workspace, db.attempts[i]);
  }

  /**
    In every reachable world two of the error branches of an execution cannot be taken: an approved
    action has the approval of its current payload, and an executed one has its receipt.  Nor does
    a commit ever meet an attempt that is already stored under its key.
  */
  lemma {:induction false} ErrorBranchesAreUnreachable(env: Env, w: World, sid: Id, attemptId: Id, releaseId: Id)
    requires Valid(env, w)
    ensures Apply(env, w, DoLock(sid)).1 != Failed(ApprovalMismatch)
    ensures Apply(env, w, DoLock(sid)).1 != Failed(ReceiptMissing)
    ensures Apply(env, w, DoCommit(sid, attemptId, releaseId)).1 == Failed(StoreRejected) ==>
              sid in w.sessions && |w.sessions[sid].key| < 16
  {
    hide GapCodes, ValidPayload, DecisionOk, AttemptOk, ReleaseOk, OneHolderEach, AttemptOf, HasAttempt;
    if sid in w.sessions {
      var s := w.sessions[sid];
      assert SessionOk(env, w.db, s);
      if s.KeyChecked? && Owned(w.db, s.workspace, s.actionId) {
        var a := w.db.actions[s.actionId];
        assert ActionOk(env, w.db, s.actionId);
        if a.mode != Control && a.status == Executed { ExecutedHasReceipt(env, w.db, s.workspace, s.actionId); }
        if a.mode != Control && a.status == Approved { ApprovalIsCurrent(env, w.db, s.workspace, s.actionId); }
      }
      if s.Cleared? {
        NoAttemptYet(env, w.db, s.actionId);
        NoKeyYet(w.db, s.actionId, s.key);
      }
    }
  }

  lemma {:induction false} ApprovalIsCurrent(env: Env, db: Db, workspace: Id, actionId: Id)
    requires DbOk(env, db) && Owned(db, workspace, actionId)
    requires db.actions[actionId].mode != Control && db.actions[actionId].status == Approved
    ensures CurrentApproval(db, workspace, actionId, db.actions[actionId]).Some?
  {
    hide GapCodes, ValidPayload, AttemptOk, ReleaseOk, OneAttemptEach, HasAttempt;
    assert ActionOk(env, db, actionId);
    assert DecisionOk(db, (actionId, db.actions[actionId].revision));
  }

  lemma {:induction false} NoKeyYet(db: Db, actionId: Id, key: string)
    requires !HasAttempt(db, actionId)
    ensures AttemptWithKey(db.attempts, actionId, key).None?
  {
    AttemptWithKeyIsListed(db.attempts, actionId, key);
    hide AttemptWithKey;
    forall t | t in db.attempts ensures t.actionId != actionId {
      var i :| 0 <= i < |db.attempts| && db.attempts[i] == t;
      assert HasAttempt(db, t.actionId);
    }
  }

  // ---------- once executed, for ever the same ----------

  lemma {:induction false} CommitKeepsExecution(env: Env, db: Db, s: Session, attemptId: Id, releaseId: Id, t: Attempt)
    requires s.Cleared? && SessionOk(env, db, s) && t in db.attempts
    requires t.actionId in db.actions && db.actions[t.actionId].status == Executed
    ensures var more := CommitExecution(db, s, attemptId, releaseId).0;
            t in more.attempts && t.actionId in more.actions && more.actions[t.actionId] == db.actions[t.actionId]
  {
    hide NewAttempt, AttemptWithKey;
  }

  /** An executed action's row and attempt survive every step. */
  lemma {:induction false} StepKeepsExecution(env: Env, w: World, step: Step, t: Attempt)
    requires Valid(env, w) && t in w.db.attempts
    ensures var db := Apply(env, w, step).0.db;
            t in db.attempts && t.actionId in w.db.actions && t.actionId in db.actions
              && db.actions[t.actionId] == w.db.actions[t.actionId]
  {
    hide ActionOk, DecisionOk, ReleaseOk, OneHolderEach, OneAttemptEach, SessionOk, Decide, CommitExecution, CheckKey,
      LockAndRead, CheckRelease, CodeTaken, LockFree, ValidDraft, Edited;
    var i :| 0 <= i < |w.db.attempts| && w.db.attempts[i] == t;
    assert AttemptOk(w.db, t);
    if step.DoDecide? {
      SettledCannotBeDecided(env, w.db, step.workspace, t.actionId, step.kind, step.input, step.decisionId);
      DecideTouchesOneAction(env, w.db, step.workspace, step.actionId, step.kind, step.input, step.decisionId);
      SameRow(w.db, Decide(env, w.db, step.workspace, step.actionId, step.kind, step.input, step.decisionId).0,
              step.actionId, t.actionId);
    }
    if step.DoCommit? && step.sid in w.sessions && w.sessions[step.sid].Cleared? {
      SessionIsOk(env, w, step.sid);
      CommitKeepsExecution(env, w.db, w.sessions[step.sid], step.attemptId, step.releaseId, t);
    }
  }

  lemma {:induction false} SettledCannotBeDecided(env: Env, db: Db, workspace: Id, actionId: Id, kind: Kind,
                                                  input: DecisionInput, decisionId: Id)
    requires actionId in db.actions && Settled(db.actions[actionId])
    ensures Decide(env, db, workspace, actionId, kind, input, decisionId).0 == db
  {
    hide GapCodes, ValidPayload;
  }

  lemma {:induction false} RunKeepsExecution(env: Env, w: World, steps: seq<Step>, t: Attempt)
    requires Valid(env, w) && t in w.db.attempts
    ensures Valid(env, Run(env, w, steps))
    ensures var db := Run(env, w, steps).db;
            t in db.attempts && t.actionId in w.db.actions && t.actionId in db.actions
              && db.actions[t.actionId] == w.db.actions[t.actionId]
  {
    hide Valid, Apply;
    if |steps| == 0 {
      StepKeepsExecution(env, w, DoAbort(""), t);
    } else {
      var front := steps[..|steps| - 1];
      RunKeepsExecution(env, w, front, t);
      StepKeepsValid(env, Run(env, w, front), steps[|steps| - 1]);
      StepKeepsExecution(env, Run(env, w, front), steps[|steps| - 1], t);
    }
  }

  /** Whatever receipt an execution of this action is answered with is the stored one. */
  lemma {:induction false} AnswersStoredReceipt(env: Env, w: World, t: Attempt, step: Step)
    requires Valid(env, w) && t in w.db.attempts
    requires step.DoCheckKey? || step.DoLock? || step.DoCommit?
    requires if step.DoCheckKey? then step.actionId == t.actionId
             else step.sid in w.sessions && w.sessions[step.sid].actionId == t.actionId
    ensures Apply(env, w, step).1.Completed? ==> Apply(env, w, step).1.receipt == t.receipt
    ensures step.DoLock? && w.sessions[step.sid].KeyChecked? && w.sessions[step.sid].workspace == t.workspace ==>
              Apply(env, w, step).1 == Completed(t.receipt)
  {
    hide GapCodes, ValidPayload, ActionOk, DecisionOk, ReleaseOk, OneHolderEach, OneAttemptEach, AttemptOf,
      AttemptWithKey, Text.ByteLength, Text.Trim, NewAttempt, CurrentApproval;
    var i :| 0 <= i < |w.db.attempts| && w.db.attempts[i] == t;
    assert AttemptOk(w.db, t);
    match step
    case DoCheckKey(sid, workspace, actionId, key) =>
      AttemptWithKeyIsListed(w.db.attempts, actionId, Text.Trim(key));
      var found := AttemptWithKey(w.db.attempts, actionId, Text.Trim(key));
      if found.Some? { OnlyAttempt(env, w.db, t, found.value); }
    case DoLock(sid) =>
      NoLockOnExecuted(env, w, t.actionId);
      AttemptOfIsListed(w.db.attempts, w.sessions[sid].workspace, t.actionId);
      var found := AttemptOf(w.db.attempts, w.sessions[sid].workspace, t.actionId);
      if found.Some? { OnlyAttempt(env, w.db, t, found.value); }
    case DoCommit(sid, attemptId, releaseId) =>
      assert SessionOk(env, w.db, w.sessions[sid]);
  }

  lemma {:induction false} AttemptOfIsListed(attempts: seq<Attempt>, workspace: Id, actionId: Id)
    ensures var found := AttemptOf(attempts, workspace, actionId);
            && (found.Some? ==> found.value in attempts && found.value.actionId == actionId)
            && (found.None? ==> forall t :: t in attempts ==> t.actionId != actionId || t.workspace != workspace)
  {
    if |attempts| > 0 { AttemptOfIsListed(attempts[1..], workspace, actionId); }
  }

  lemma {:induction false} NoLockOnExecuted(env: Env, w: World, actionId: Id)
    requires Valid(env, w) && actionId in w.db.actions && w.db.actions[actionId].status == Executed
    ensures LockFree(w, actionId)
  {
    hide DbOk, OneHolderEach;
    forall sid | sid in w.sessions && HoldsLock(w.sessions[sid]) ensures w.sessions[sid].actionId != actionId {
      assert SessionOk(env, w.db, w.sessions[sid]);
    }
  }

  /**
    Executing again is harmless: after an attempt is stored, and whatever other transactions have
    done since, an execution under any well-formed key by its owner is answered with the same
    receipt, at the key check or, failing that, at the lock, which is then always free.
  */
  lemma {:induction false} LaterExecuteReturnsSameReceipt(env: Env, w: World, t: Attempt, before: seq<Step>, sid: Id,
                                                          key: string, between: seq<Step>)
    requires Valid(env, w) && t in w.db.attempts
    requires 16 <= Text.ByteLength(Text.Trim(key)) <= 128
    requires sid !in Run(env, w, before).sessions
    ensures var first := Apply(env, Run(env, w, before), DoCheckKey(sid, t.workspace, t.actionId, key));
            var last := Run(env, first.0, between);
            || first.1 == Completed(t.receipt)
            || (first.1 == Continue
                && (sid in last.sessions && last.sessions[sid] ==
                    KeyChecked(t.workspace, t.actionId, Text.Trim(key)) ==>
                      Apply(env, last, DoLock(sid)).1 == Completed(t.receipt)))
  {
    RunKeepsExecution(env, w, before, t);
    var now := Run(env, w, before);
    var step := DoCheckKey(sid, t.workspace, t.actionId, key);
    CheckKeyAnswers(env, now, sid, t, key);
    AnswersStoredReceipt(env, now, t, step);
    StepKeepsExecution(env, now, step, t);
    StepKeepsValid(env, now, step);
    var next := Apply(env, now, step).0;
    RunKeepsExecution(env, next, between, t);
    var last := Run(env, next, between);
    hide Apply, Valid, Run;
    if sid in last.sessions && last.sessions[sid] == KeyChecked(t.workspace, t.actionId, Text.Trim(key)) {
      AnswersStoredReceipt(env, last, t, DoLock(sid));
    }
  }

  lemma {:induction false} CheckKeyAnswers(env: Env, w: World, sid: Id, t: Attempt, key: string)
    requires Valid(env, w) && t in w.db.attempts && sid !in w.sessions
    requires 16 <= Text.ByteLength(Text.Trim(key)) <= 128
    ensures var response := Apply(env, w, DoCheckKey(sid, t.workspace, t.actionId, key)).1;
            response.Completed? || response == Continue
  {
    hide ActionOk, DecisionOk, ReleaseOk, OneHolderEach, OneAttemptEach, AttemptWithKey, Text.ByteLength, Text.Trim,
      SessionOk;
    var i :| 0 <= i < |w.db.attempts| && w.db.attempts[i] == t;
    assert AttemptOk(w.db, t);
  }

  // ---------- deciding ----------

  /**
    A decision that passes the checks is stored exactly when the action is still proposed;
    otherwise its revision already has one, and the unique key refuses the second.
  */
  lemma {:induction false} OneDecisionARevision(env: Env, db: Db, workspace: Id, actionId: Id, kind: Kind,
                                                input: DecisionInput, decisionId: Id)
    requires DbOk(env, db) && Owned(db, workspace, actionId)
    requires DecisionProblem(env, db.actions[actionId], kind, input).None? && StorableActor(input)
    ensures var response := Decide(env, db, workspace, actionId, kind, input, decisionId).1;
            if db.actions[actionId].status == Proposed then response.Decided? else response == Failed(AlreadyDecided)
  {
    hide ValidPayload, GapCodes, HasAttempt, AttemptOk, ReleaseOk, OneAttemptEach, DecisionOk, LongEnough, Text.Trim;
    assert ActionOk(env, db, actionId);
  }

  /**
    An edit that changes anything voids the approval: the new revision has a complete draft, is
    proposed again, and no decision is current for it, whatever was decided before.
  */
  lemma {:induction false} EditNeedsNewDecision(env: Env, db: Db, workspace: Id, actionId: Id, input: PayloadInput)
    requires DbOk(env, db)
    ensures var (more, response) := UpdatePayload(env, db, workspace, actionId, input);
            && (more != db <==> response.Stored?)
            && (response.Stored? ==>
                  && Owned(db, workspace, actionId) && more.actions.Keys == db.actions.Keys
                  && var old', new' := db.actions[actionId], more.actions[actionId];
                     && !Settled(old') && ValidDraft(new'.payload) && new'.status == Proposed
                     && (new'.payloadHash != old'.payloadHash || old'.status == Rejected)
                     && (forall other :: other in db.actions && other != actionId ==>
                         more.actions[other] == db.actions[other])
                     && CurrentApproval(more, workspace, actionId, new').None?
                     && LockAndRead(env, more, KeyChecked(workspace, actionId, "")).0 == Failed(NotApproved))
  {
    hide DbOk, ValidDraft, Edited, AttemptOf;
    var more := UpdatePayload(env, db, workspace, actionId, input).0;
    if UpdatePayload(env, db, workspace, actionId, input).1.Stored? {
      NoLaterDecision(env, db, actionId, more.actions[actionId].revision);
    }
  }

  /** Decisions are never changed or removed. */
  lemma {:induction false} StepKeepsDecisions(env: Env, w: World, step: Step, key: (Id, int))
    requires key in w.db.decisions
    ensures key in Apply(env, w, step).0.db.decisions && Apply(env, w, step).0.db.decisions[key] == w.db.decisions[key]
  {
    hide CheckKey, LockAndRead, CheckRelease, DecisionProblem, CodeTaken, NewAttempt, AttemptWithKey, ValidDraft,
      LockFree;
  }

  lemma {:induction false} RunKeepsDecisions(env: Env, w: World, steps: seq<Step>, key: (Id, int))
    requires key in w.db.decisions
    ensures key in Run(env, w, steps).db.decisions && Run(env, w, steps).db.decisions[key] == w.db.decisions[key]
  {
    hide Apply;
    if |steps| > 0 {
      var front := steps[..|steps| - 1];
      RunKeepsDecisions(env, w, front, key);
      StepKeepsDecisions(env, Run(env, w, front), steps[|steps| - 1], key);
    }
  }
}
