/**
  What one call on an action does, stated without the functions that compute it: when an action is
  created, edited or decided about, and what is stored then.
*/
module DecisionLaws {
  import opened Wrappers
  import opened Approval
  import opened ActionCalls
  import opened ApprovalSafety
  import Text

  // ---------- gaps ----------

  /** Text with at least two bytes once it is trimmed. */
  predicate Filled(s: string) { Text.ByteLength(Text.Trim(s)) >= 2 }

  lemma {:induction false} NoSuchGaps(gaps: seq<Gap>, critical: bool)
    ensures GapCodes(gaps, critical) == [] <==> forall g :: g in gaps ==> g.critical != critical
  {
    if |gaps| > 0 {
      var n := |gaps| - 1;
      NoSuchGaps(gaps[..n], critical);
      assert gaps == gaps[..n] + [gaps[n]];
    }
  }

  /** The codes listed are those of the gaps of one kind, as often as they occur. */
  lemma {:induction false} CodesOf(gaps: seq<Gap>, critical: bool, code: string)
    ensures code in GapCodes(gaps, critical) <==> exists g :: g in gaps && g.critical == critical && g.code == code
  {
    if |gaps| > 0 {
      var n := |gaps| - 1;
      CodesOf(gaps[..n], critical, code);
      assert gaps == gaps[..n] + [gaps[n]];
    }
  }

  lemma {:induction false} BytesCoverChars(s: string)
    ensures Text.ByteLength(s) >= |s|
  {
    if |s| > 0 { BytesCoverChars(s[1..]); }
  }

  // ---------- deciding ----------

  /** The reviewer is named, within the table's limits. */
  predicate Named(input: DecisionInput) {
    2 <= |Text.Trim(input.actorName)| <= 120 && 2 <= |Text.Trim(input.actorRole)| <= 120
  }

  /** The reviewer saw this payload of an action that is the caller's and still open. */
  predicate SawCurrent(db: Db, workspace: Id, actionId: Id, input: DecisionInput) {
    && actionId in db.actions
    && var a := db.actions[actionId];
       && a.workspace == workspace && a.mode != Control && a.status == Proposed
       && Text.Trim(input.expectedHash) == a.payloadHash
  }

  /** What an approval asks for: a complete payload, no critical gap, and every review gap acknowledged. */
  predicate MayApprove(pkg: Package, a: Action, input: DecisionInput) {
    && Filled(a.payload.recipient) && Filled(a.payload.subject) && Filled(a.payload.message)
    && forall g :: g in pkg.gaps ==> !g.critical && input.acknowledgeGaps
  }

  /** When a decision is stored. */
  predicate MayDecide(env: Env, db: Db, workspace: Id, actionId: Id, kind: Kind, input: DecisionInput) {
    && SawCurrent(db, workspace, actionId, input) && Named(input)
    && var a := db.actions[actionId];
       && env.packages(a.packageId).Some?
       && match kind
          case Approve => MayApprove(env.packages(a.packageId).value, a, input)
          case Reject => Filled(input.note)
  }

  /** The decision quotes the action's revision and hash and what the reviewer entered. */
  ghost predicate Records(env: Env, d: Decision, a: Action, actionId: Id, kind: Kind, input: DecisionInput) {
    && d.workspace == a.workspace && d.actionId == actionId && d.packageId == a.packageId && d.kind == kind
    && d.revision == a.revision && d.payloadHash == a.payloadHash
    && d.actorName == Text.Trim(input.actorName) && d.actorRole == Text.Trim(input.actorRole)
    && d.note == Text.Trim(input.note)
    && forall code :: code in d.acknowledged <==>
         kind == Approve && env.packages(a.packageId).Some?
           && exists g :: g in env.packages(a.packageId).value.gaps && g.code == code
  }

  lemma {:induction false} ProblemExactly(env: Env, a: Action, kind: Kind, input: DecisionInput)
    requires StorableActor(input)
    ensures DecisionProblem(env, a, kind, input).None? <==>
              && a.mode != Control && a.status != Executed && Text.Trim(input.expectedHash) == a.payloadHash
              && env.packages(a.packageId).Some?
              && (match kind
                  case Approve => MayApprove(env.packages(a.packageId).value, a, input)
                  case Reject => Filled(input.note))
  {
    BytesCoverChars(Text.Trim(input.actorName));
    BytesCoverChars(Text.Trim(input.actorRole));
    if env.packages(a.packageId).Some? {
      var gaps := env.packages(a.packageId).value.gaps;
      NoSuchGaps(gaps, true);
      NoSuchGaps(gaps, false);
    }
    hide GapCodes, Text.Trim, Text.ByteLength;
  }

  /**
    A decision is stored if and only if the action is the caller's, is no control and is still
    proposed; the reviewer saw the payload it now has and is named; the package exists; an approval
    is of a complete payload, without critical gaps and with every review gap acknowledged; and a
    rejection has a note.  It is stored under the action's revision, and nothing else changes but
    the action's status.
  */
  lemma {:induction false} DecidesExactly(env: Env, db: Db, workspace: Id, actionId: Id, kind: Kind,
                                          input: DecisionInput, decisionId: Id)
    requires DbOk(env, db)
    ensures var (more, response) := Decide(env, db, workspace, actionId, kind, input, decisionId);
            && (response.Decided? <==> MayDecide(env, db, workspace, actionId, kind, input))
            && (!response.Decided? ==> response.Failed? && more == db)
            && (response.Decided? ==>
                  && var a := db.actions[actionId];
                     && Records(env, response.decision, a, actionId, kind, input) && response.decision.id == decisionId
                     && more.decisions == db.decisions[(actionId, a.revision) := response.decision]
                     && more.actions ==
                        db.actions[actionId := a.(status := if kind == Approve then Approved else Rejected)]
                     && more.attempts == db.attempts && more.releases == db.releases)
  {
    hide DbOk, DecisionProblem, MayApprove, Text.Trim, Filled, Records, NewDecision;
    if Owned(db, workspace, actionId) {
      var a := db.actions[actionId];
      ProposedIsOpen(env, db, actionId);
      if StorableActor(input) { ProblemExactly(env, a, kind, input); }
      if DecisionProblem(env, a, kind, input).None? { NewRecords(env, decisionId, actionId, a, kind, input); }
    }
  }

  /** Among actions that can be decided about, the proposed ones are those without a current decision. */
  lemma {:induction false} ProposedIsOpen(env: Env, db: Db, actionId: Id)
    requires DbOk(env, db) && actionId in db.actions
    ensures var a := db.actions[actionId];
            a.mode != Control && a.status != Executed ==>
              (a.status == Proposed <==> (actionId, a.revision) !in db.decisions)
  {
    assert ActionOk(env, db, actionId);
    hide DbOk, GapCodes, ValidPayload, HasAttempt;
  }

  lemma {:induction false} NewRecords(env: Env, id: Id, actionId: Id, a: Action, kind: Kind, input: DecisionInput)
    requires DecisionProblem(env, a, kind, input).None?
    ensures env.packages(a.packageId).Some?
    ensures var d := NewDecision(env, id, actionId, a, kind, input);
            Records(env, d, a, actionId, kind, input) && d.id == id
  {
    HasPackage(env, a, kind, input);
    var gaps := env.packages(a.packageId).value.gaps;
    forall code ensures code in GapCodes(gaps, false) <==> exists g :: g in gaps && !g.critical && g.code == code {
      CodesOf(gaps, false, code);
    }
    NoSuchGaps(gaps, true);
    hide GapCodes, Text.Trim, DecisionProblem;
  }

  lemma {:induction false} HasPackage(env: Env, a: Action, kind: Kind, input: DecisionInput)
    requires DecisionProblem(env, a, kind, input).None?
    ensures env.packages(a.packageId).Some?
    ensures kind == Approve ==> GapCodes(env.packages(a.packageId).value.gaps, true) == []
  {
    hide GapCodes, Text.Trim, Text.ByteLength;
  }

  // ---------- editing ----------

  /** The payload an edit asks for: its three texts trimmed, channel and attachments as they are. */
  predicate AsEdited(p: Payload, old': Payload, input: PayloadInput) {
    && p.recipient == Text.Trim(input.recipient) && p.subject == Text.Trim(input.subject)
    && p.message == Text.Trim(input.message) && p.channel == old'.channel && p.attachments == old'.attachments
  }

  /** An edit of an open action of the caller whose subject and message are filled in. */
  predicate MayEdit(db: Db, workspace: Id, actionId: Id, p: Payload) {
    && actionId in db.actions && db.actions[actionId].workspace == workspace
    && db.actions[actionId].mode != Control && db.actions[actionId].status != Executed
    && Filled(p.subject) && Filled(p.message)
  }

  /**
    An edit is stored if and only if it may be made and changes the payload's hash or reopens a
    rejected action; the row then has the edited payload, its hash and the next revision, and is
    proposed.  An edit that changes nothing is answered with the row as it is.
  */
  lemma {:induction false} EditsExactly(env: Env, db: Db, workspace: Id, actionId: Id, input: PayloadInput)
    returns (p: Payload)
    ensures actionId in db.actions ==> AsEdited(p, db.actions[actionId].payload, input)
    ensures var (more, response) := UpdatePayload(env, db, workspace, actionId, input);
            && (response.Stored? || response.Unchanged? <==> MayEdit(db, workspace, actionId, p))
            && (response.Stored? || response.Unchanged? ==>
                  && var a := db.actions[actionId];
                     && (response.Stored? <==> env.hash(p) != a.payloadHash || a.status == Rejected)
                     && (response.Stored? ==>
                           && response.action ==
                              a.(payload := p, revision := a.revision + 1, payloadHash := env.hash(p),
                                 status := Proposed)
                           && more == db.(actions := db.actions[actionId := response.action]))
                     && (response.Unchanged? ==> response.action == a))
            && (!response.Stored? ==> more == db)
  {
    hide Text.Trim, Text.ByteLength;
    p := if actionId in db.actions then Edited(db.actions[actionId].payload, input) else Payload("", "", "", "", []);
    EditedFills(p);
  }

  lemma {:induction false} EditedFills(p: Payload)
    ensures ValidDraft(p) <==> Filled(p.subject) && Filled(p.message)
  {
    hide Text.Trim, Text.ByteLength;
  }

  // ---------- creating ----------

  predicate IsEnforced(p: Proposal) {
    p.state == "ENFORCED" || p.code == "ENFORCE_RATE_CAP" || p.code == "BLOCK_LAND_APPLICATION"
  }

  /** The row of a proposal: controls are in effect from the start, everything else waits for a decision. */
  predicate RowOf(env: Env, a: Action, workspace: Id, packageId: Id, pkg: Package, p: Proposal) {
    && a.workspace == workspace && a.packageId == packageId && a.code == p.code && a.sourceId == p.sourceId
    && (a.mode == Control <==> IsEnforced(p))
    && (a.mode == InternalRelease <==> !IsEnforced(p) && p.code == "REVIEW_DRAFT_ALLOCATION")
    && a.status == (if IsEnforced(p) then Executed else Proposed) && a.approvalRequired == !IsEnforced(p)
    && a.payload == env.defaultPayload(pkg, p, a.mode) && a.payloadHash == env.hash(a.payload) && a.revision == 1
  }

  /** A proposal gets a row if and only if its package has no action with its code yet and the id is free. */
  lemma {:induction false} CreatesExactly(env: Env, db: Db, id: Id, workspace: Id, packageId: Id, pkg: Package,
                                          p: Proposal)
    ensures var (more, response) := CreateAction(env, db, id, workspace, packageId, pkg, p);
            var taken := exists other :: other in db.actions && db.actions[other].packageId == packageId
                                         && db.actions[other].code == p.code;
            && (response.Stored? <==> !taken && id !in db.actions)
            && (response.Failed? <==> !taken && id in db.actions)
            && (response.Stored? ==>
                  && RowOf(env, response.action, workspace, packageId, pkg, p)
                  && more == db.(actions := db.actions[id := response.action]))
            && (!response.Stored? ==> more == db)
  {
    NewRow(env, workspace, packageId, pkg, p);
    hide NewAction, RowOf;
  }

  lemma {:induction false} NewRow(env: Env, workspace: Id, packageId: Id, pkg: Package, p: Proposal)
    ensures RowOf(env, NewAction(env, workspace, packageId, pkg, p), workspace, packageId, pkg, p)
  {}

  // ---------- executing ----------

  /** The frozen plan is ready for release, and it is the one the action was made for. */
  predicate PlanReady(env: Env, a: Action) {
    && env.packages(a.packageId).Some?
    && var pkg := env.packages(a.packageId).value;
       && !pkg.prohibited && pkg.placement.Some? && pkg.placement.value.ready
       && pkg.placement.value.id == a.sourceId && env.isUuid(a.sourceId)
  }

  /**
    What a call needs to be answered with a receipt: a key of 16 to 128 bytes, an action of the
    caller's that can be carried out, and, unless that has been done, a standing approval, a key
    that is long enough for the table and, for a release, a ready plan that is not released yet.
  */
  lemma {:induction false} SucceedsExactly(env: Env, db: Db, workspace: Id, actionId: Id, key: string)
    ensures Succeeds(env, db, workspace, actionId, key) <==>
            && 16 <= Text.ByteLength(Text.Trim(key)) <= 128 && actionId in db.actions
            && var a := db.actions[actionId];
               && a.workspace == workspace && (a.mode == InternalRelease || a.mode == OperatorHandoff)
               && (a.status != Executed ==>
                     && a.status == Approved && |Text.Trim(key)| >= 16
                     && (a.mode == InternalRelease ==> PlanReady(env, a) && a.sourceId !in db.releases))
  {
    hide Text.Trim, Text.ByteLength;
  }
}
