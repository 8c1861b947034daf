/**
  Controlled actions: the tables behind them, the transactions that change them, and the steps
  in which concurrent transactions interleave.  Updating a payload and deciding hold the row
  lock from the first read to the commit, so each is one step; executing takes several.
*/
module Approval {
  import opened Wrappers
  import Text

  type Id = string

  // ---------- rows ----------

  datatype Mode = InternalRelease | OperatorHandoff | Control

  datatype Status = Proposed | Approved | Rejected | Executed

  datatype Payload = Payload(channel: string, recipient: string, subject: string, message: string,
                             attachments: seq<string>)

  datatype Action = Action(
    workspace: Id, packageId: Id, code: string, sourceId: string, mode: Mode, status: Status, approvalRequired: bool,
    payload: Payload, revision: int, payloadHash: string)

  datatype Kind = Approve | Reject

  datatype Decision = Decision(
    id: Id, workspace: Id, actionId: Id, packageId: Id, kind: Kind, revision: int, payloadHash: string,
    actorName: string, actorRole: string, note: string, acknowledged: seq<string>)

  datatype Outcome = InternalReleased | OperatorHandoffReady

  datatype Receipt = Receipt(id: Id, outcome: Outcome, releaseId: Id)

  /** The handoff freezes the payload, revision and approval it was made from. */
  datatype Handoff = Handoff(actionId: Id, revision: int, payloadHash: string, payload: Payload, approval: Decision)

  datatype Attempt = Attempt(
    id: Id, workspace: Id, actionId: Id, approvalId: Id, key: string, receipt: Receipt, handoff: Option<Handoff>)

  datatype Release = Release(id: Id, workspace: Id, packageId: Id, actionId: Id, approvalId: Id, attemptId: Id)

  /**
    The tables.  Map keys are the unique keys of the schema: a decision is identified by its
    action and revision, a release by its placement evaluation.  Attempts are in insertion order.
  */
  datatype Db = Db(
    actions: map<Id, Action>, decisions: map<(Id, int), Decision>, attempts: seq<Attempt>, releases: map<Id, Release>)

  // ---------- the surroundings ----------

  datatype Gap = Gap(code: string, critical: bool)

  datatype FrozenPlacement = FrozenPlacement(id: Id, ready: bool)

  datatype Proposal = Proposal(code: string, state: string, sourceId: string)

  datatype Package = Package(gaps: seq<Gap>, prohibited: bool, placement: Option<FrozenPlacement>,
                             proposals: seq<Proposal>)

  /** Frozen packages, the payload hash, identifier syntax and the text of default payloads. */
  datatype Env = Env(
    packages: Id -> Option<Package>,
    hash: Payload -> string,
    isUuid: string -> bool,
    defaultPayload: (Package, Proposal, Mode) -> Payload)

  datatype Error =
    | NotFound
    | InvalidRequest
    | PackageUnavailable
    | NotEditable
    | AlreadyDecided
    | CriticalGapsOpen
    | GapsNotAcknowledged
    | ControlInEffect
    | NotApproved
    | ReceiptMissing
    | NotReleasable
    | WrongPlacement
    | AlreadyReleased
    | PayloadChanged
    | ApprovalMismatch
    | StoreRejected

  datatype Response =
    | Failed(error: Error)
    | Blocked
    | Continue
    | Unchanged(action: Action)
    | Stored(action: Action)
    | Decided(decision: Decision)
    | Completed(receipt: Receipt)

  // ---------- sessions ----------

  /** Where an execution transaction stands; from `Locked` on it holds the row lock of its action. */
  datatype Session =
    | KeyChecked(workspace: Id, actionId: Id, key: string)
    | Locked(workspace: Id, actionId: Id, key: string, action: Action, approval: Decision)
    | Cleared(workspace: Id, actionId: Id, key: string, action: Action, approval: Decision)

  datatype World = World(db: Db, sessions: map<Id, Session>)

  predicate HoldsLock(s: Session) { !s.KeyChecked? }

  predicate LockFree(w: World, actionId: Id) {
    forall sid :: sid in w.sessions && HoldsLock(w.sessions[sid]) ==> w.sessions[sid].actionId != actionId
  }

  // ---------- creating and editing ----------

  function ActionMode(p: Proposal): Mode {
    if p.code == "ENFORCE_RATE_CAP" || p.code == "BLOCK_LAND_APPLICATION" || p.state == "ENFORCED" then Control
    else if p.code == "REVIEW_DRAFT_ALLOCATION" then InternalRelease
    else OperatorHandoff
  }

  function NewAction(env: Env, workspace: Id, packageId: Id, pkg: Package, p: Proposal): Action {
    var mode := ActionMode(p);
    var payload := env.defaultPayload(pkg, p, mode);
    Action(workspace, packageId, p.code, p.sourceId, mode, if mode == Control then Executed else Proposed,
           mode != Control, payload, 1, env.hash(payload))
  }

  predicate CodeTaken(db: Db, packageId: Id, code: string) {
    exists id :: id in db.actions && db.actions[id].packageId == packageId && db.actions[id].code == code
  }

  /** INSERT ... ON CONFLICT (decision_package_id, code) DO NOTHING */
  function CreateAction(env: Env, db: Db, id: Id, workspace: Id, packageId: Id, pkg: Package,
                        p: Proposal): (Db, Response) {
    if CodeTaken(db, packageId, p.code) then (db, Continue)
    else if id in db.actions then (db, Failed(StoreRejected))
    else
      var action := NewAction(env, workspace, packageId, pkg, p);
      (db.(actions := db.actions[id := action]), Stored(action))
  }

  datatype PayloadInput = PayloadInput(recipient: string, subject: string, message: string)

  predicate LongEnough(s: string) { Text.ByteLength(Text.Trim(s)) >= 2 }

  predicate ValidDraft(p: Payload) { LongEnough(p.subject) && LongEnough(p.message) }

  predicate ValidPayload(p: Payload) { LongEnough(p.recipient) && ValidDraft(p) }

  function Edited(p: Payload, input: PayloadInput): Payload {
    p.(recipient := Text.Trim(input.recipient), subject := Text.Trim(input.subject),
       message := Text.Trim(input.message))
  }

  predicate Owned(db: Db, workspace: Id, actionId: Id) {
    actionId in db.actions && db.actions[actionId].workspace == workspace
  }

  predicate Settled(a: Action) { a.mode == Control || a.status == Executed }

  /** A changed payload, or any edit of a rejected one, makes a new proposed revision. */
  function UpdatePayload(env: Env, db: Db, workspace: Id, actionId: Id, input: PayloadInput): (Db, Response) {
    if !Owned(db, workspace, actionId) then (db, Failed(NotFound))
    else
      var record := db.actions[actionId];
      var payload := Edited(record.payload, input);
      if Settled(record) then (db, Failed(NotEditable))
      else if !ValidDraft(payload) then (db, Failed(InvalidRequest))
      else if env.hash(payload) == record.payloadHash && record.status != Rejected then (db, Unchanged(record))
      else
        var updated := record.(payload := payload, revision := record.revision + 1, payloadHash := env.hash(payload),
                               status := Proposed);
        (db.(actions := db.actions[actionId := updated]), Stored(updated))
  }

  // ---------- deciding ----------

  datatype DecisionInput = DecisionInput(
    expectedHash: string, actorName: string, actorRole: string, note: string, acknowledgeGaps: bool)

  function GapCodes(gaps: seq<Gap>, critical: bool): seq<string> {
    if |gaps| == 0 then []
    else
      GapCodes(gaps[..|gaps| - 1], critical)
      + (if gaps[|gaps| - 1].critical == critical then [gaps[|gaps| - 1].code] else [])
  }

  /** Whether a decision may be stored; the row it concerns is locked. */
  function DecisionProblem(env: Env, record: Action, kind: Kind, input: DecisionInput): Option<Error> {
    if Settled(record) then Some(NotEditable)
    else if Text.Trim(input.expectedHash) != record.payloadHash then Some(PayloadChanged)
    else if kind == Approve && !ValidPayload(record.payload) then Some(InvalidRequest)
    else if !LongEnough(input.actorName) || !LongEnough(input.actorRole) then Some(InvalidRequest)
    else
      match env.packages(record.packageId)
      case None => Some(PackageUnavailable)
      case Some(pkg) =>
        if kind == Approve && GapCodes(pkg.gaps, true) != [] then Some(CriticalGapsOpen)
        else if kind == Approve && GapCodes(pkg.gaps, false) != []
             && !input.acknowledgeGaps then Some(GapsNotAcknowledged)
        else if kind == Reject && !LongEnough(input.note) then Some(InvalidRequest)
        else None
  }

  function NewDecision(env: Env, id: Id, actionId: Id, record: Action, kind: Kind, input: DecisionInput): Decision
    requires env.packages(record.packageId).Some?
  {
    Decision(id, record.workspace, actionId, record.packageId, kind, record.revision, record.payloadHash,
             Text.Trim(input.actorName), Text.Trim(input.actorRole), Text.Trim(input.note),
             if kind == Approve then GapCodes(env.packages(record.packageId).value.gaps, false) else [])
  }

  /** The table's own limits on the reviewer's name and role, in characters rather than bytes. */
  predicate StorableActor(input: DecisionInput) {
    2 <= |Text.Trim(input.actorName)| <= 120 && 2 <= |Text.Trim(input.actorRole)| <= 120
  }

  function StatusFor(kind: Kind): Status { if kind == Approve then Approved else Rejected }

  function Decide(env: Env, db: Db, workspace: Id, actionId: Id, kind: Kind, input: DecisionInput,
                  decisionId: Id): (Db, Response) {
    if !Owned(db, workspace, actionId) then (db, Failed(NotFound))
    else
      var record := db.actions[actionId];
      var problem := DecisionProblem(env, record, kind, input);
      if problem.Some? then (db, Failed(problem.value))
      else if !StorableActor(input) then (db, Failed(StoreRejected))
      else if (actionId, record.revision) in db.decisions then (db, Failed(AlreadyDecided))
      else
        var decision := NewDecision(env, decisionId, actionId, record, kind, input);
        (db.(decisions := db.decisions[(actionId, record.revision) := decision],
             actions := db.actions[actionId := record.(status := StatusFor(kind))]), Decided(decision))
  }

  // ---------- executing ----------

  function AttemptWithKey(attempts: seq<Attempt>, actionId: Id, key: string): Option<Attempt> {
    if |attempts| == 0 then None
    else if attempts[0].actionId == actionId && attempts[0].key == key then Some(attempts[0])
    else AttemptWithKey(attempts[1..], actionId, key)
  }

  function AttemptOf(attempts: seq<Attempt>, workspace: Id, actionId: Id): Option<Attempt> {
    if |attempts| == 0 then None
    else if attempts[0].actionId == actionId && attempts[0].workspace == workspace then Some(attempts[0])
    else AttemptOf(attempts[1..], workspace, actionId)
  }

  /** The first step: look the key up, without a lock. */
  function CheckKey(db: Db, workspace: Id, actionId: Id, idempotencyKey: string): (Response, Option<Session>) {
    var key := Text.Trim(idempotencyKey);
    if Text.ByteLength(key) < 16 || Text.ByteLength(key) > 128 then (Failed(InvalidRequest), None)
    else
      match AttemptWithKey(db.attempts, actionId, key)
      case Some(existing) =>
        if !Owned(db, workspace, actionId) then (Failed(NotFound), None) else (Completed(existing.receipt), None)
      case None => (Continue, Some(KeyChecked(workspace, actionId, key)))
  }

  /** A decision that approves exactly this revision and hash. */
  function CurrentApproval(db: Db, workspace: Id, actionId: Id, record: Action): Option<Decision> {
    if (actionId, record.revision) !in db.decisions then None
    else
      var d := db.decisions[(actionId, record.revision)];
      if d.workspace == workspace && d.kind == Approve && d.payloadHash == record.payloadHash then Some(d) else None
  }

  /** The second step: lock the row and read what execution depends on. */
  function LockAndRead(env: Env, db: Db, s: Session): (Response, Option<Session>)
    requires s.KeyChecked?
  {
    if !Owned(db, s.workspace, s.actionId) then (Failed(NotFound), None)
    else
      var record := db.actions[s.actionId];
      if record.mode == Control then (Failed(ControlInEffect), None)
      else if record.status == Executed then
        match AttemptOf(db.attempts, s.workspace, s.actionId)
        case Some(existing) => (Completed(existing.receipt), None)
        case None => (Failed(ReceiptMissing), None)
      else if record.status != Approved then (Failed(NotApproved), None)
      else
        match CurrentApproval(db, s.workspace, s.actionId, record)
        case None => (Failed(ApprovalMismatch), None)
        case Some(approval) =>
          if env.packages(record.packageId).None? then (Failed(PackageUnavailable), None)
          else (Continue, Some(Locked(s.workspace, s.actionId, s.key, record, approval)))
  }

  /** The third step: check the frozen plan, and that it has not been released yet. */
  function CheckRelease(env: Env, db: Db, s: Session): (Response, Option<Session>)
    requires s.Locked? && env.packages(s.action.packageId).Some?
  {
    var next := Cleared(s.workspace, s.actionId, s.key, s.action, s.approval);
    if s.action.mode != InternalRelease then (Continue, Some(next))
    else
      var pkg := env.packages(s.action.packageId).value;
      if pkg.prohibited || pkg.placement.None? || !pkg.placement.value.ready then (Failed(NotReleasable), None)
      else
        var placementId := pkg.placement.value.id;
        if !env.isUuid(placementId) || placementId != s.action.sourceId then (Failed(WrongPlacement), None)
        else if placementId in db.releases
             && db.releases[placementId].workspace == s.workspace then (Failed(AlreadyReleased), None)
        else (Continue, Some(next))
  }

  function NewAttempt(s: Session, attemptId: Id, releaseId: Id): Attempt
    requires s.Cleared?
  {
    if s.action.mode == InternalRelease then
      Attempt(attemptId, s.workspace, s.actionId, s.approval.id, s.key, Receipt(attemptId, InternalReleased, releaseId),
              None)
    else
      Attempt(attemptId, s.workspace, s.actionId, s.approval.id, s.key, Receipt(attemptId, OperatorHandoffReady, ""),
              Some(Handoff(s.actionId, s.action.revision, s.action.payloadHash, s.action.payload, s.approval)))
  }

  /** The last step: insert the attempt and the release, mark the action executed, commit. */
  function CommitExecution(db: Db, s: Session, attemptId: Id, releaseId: Id): (Db, Response)
    requires s.Cleared? && s.actionId in db.actions
  {
    if |s.key| < 16 || AttemptWithKey(db.attempts, s.actionId, s.key).Some? then (db, Failed(StoreRejected))
    else
      var attempt := NewAttempt(s, attemptId, releaseId);
      var executed := db.actions[s.actionId := db.actions[s.actionId].(status := Executed)];
      if s.action.mode != InternalRelease then
        (db.(attempts := db.attempts + [attempt], actions := executed), Completed(attempt.receipt))
      else if s.action.sourceId in db.releases then (db, Failed(AlreadyReleased))
      else
        var release := Release(releaseId, s.workspace, s.action.packageId, s.actionId, s.approval.id, attemptId);
        (db.(attempts := db.attempts + [attempt], actions := executed,
             releases := db.releases[s.action.sourceId := release]),
         Completed(attempt.receipt))
  }

  // ---------- steps ----------

  datatype Step =
    | DoCreate(newId: Id, workspace: Id, packageId: Id, proposal: Proposal)
    | DoUpdate(workspace: Id, actionId: Id, payload: PayloadInput)
    | DoDecide(workspace: Id, actionId: Id, kind: Kind, input: DecisionInput, decisionId: Id)
    | DoCheckKey(sid: Id, workspace: Id, actionId: Id, key: string)
    | DoLock(sid: Id)
    | DoCheckRelease(sid: Id)
    | DoCommit(sid: Id, attemptId: Id, releaseId: Id)
    | DoAbort(sid: Id)

  function WithSession(w: World, sid: Id, next: Option<Session>): World {
    w.(sessions := if next.Some? then w.sessions[sid := next.value] else w.sessions - {sid})
  }

  /** One step of one transaction.  A step that is not possible in the world leaves it unchanged. */
  function Apply(env: Env, w: World, step: Step): (World, Response) {
    match step
    case DoCreate(newId, workspace, packageId, proposal) =>
      (match env.packages(packageId)
       case None => (w, Failed(NotFound))
       case Some(pkg) =>
         var (db, response) := CreateAction(env, w.db, newId, workspace, packageId, pkg, proposal);
         (w.(db := db), response))
    case DoUpdate(workspace, actionId, payload) =>
      if !LockFree(w, actionId) then (w, Blocked)
      else
        var (db, response) := UpdatePayload(env, w.db, workspace, actionId, payload);
        (w.(db := db), response)
    case DoDecide(workspace, actionId, kind, input, decisionId) =>
      if !LockFree(w, actionId) then (w, Blocked)
      else
        var (db, response) := Decide(env, w.db, workspace, actionId, kind, input, decisionId);
        (w.(db := db), response)
    case DoCheckKey(sid, workspace, actionId, key) =>
      if sid in w.sessions then (w, Blocked)
      else
        var (response, next) := CheckKey(w.db, workspace, actionId, key);
        (WithSession(w, sid, next), response)
    case DoLock(sid) =>
      if sid !in w.sessions || !w.sessions[sid].KeyChecked? || !LockFree(w, w.sessions[sid].actionId) then (w, Blocked)
      else
        var (response, next) := LockAndRead(env, w.db, w.sessions[sid]);
        (WithSession(w, sid, next), response)
    case DoCheckRelease(sid) =>
      if sid !in w.sessions || !w.sessions[sid].Locked?
        || env.packages(w.sessions[sid].action.packageId).None? then (w, Blocked)
      else
        var (response, next) := CheckRelease(env, w.db, w.sessions[sid]);
        (WithSession(w, sid, next), response)
    case DoCommit(sid, attemptId, releaseId) =>
      if sid !in w.sessions || !w.sessions[sid].Cleared? || w.sessions[sid].actionId !in w.db.actions then (w, Blocked)
      else
        var (db, response) := CommitExecution(w.db, w.sessions[sid], attemptId, releaseId);
        (WithSession(w, sid, None).(db := db), response)
    case DoAbort(sid) => (WithSession(w, sid, None), Continue)
  }

  /** The world after any sequence of steps by any number of transactions. */
  function Run(env: Env, w: World, steps: seq<Step>): World {
    if |steps| == 0 then w else Apply(env, Run(env, w, steps[..|steps| - 1]), steps[|steps| - 1]).0
  }

  function Empty(): World { World(Db(map[], map[], [], map[]), map[]) }
}
