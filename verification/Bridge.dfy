/**
 One task of the manual bridge: app/bridge.py, `BridgeService`, over the nonce table of
 app/storage.py.  A state is the stored record and nonce rows; operations run one at a time.
 */
module Bridge {
  import opened Bytes

  datatype Status =
    | ArchitectReady | WaitingArchitect | RouteReady | NeedMoreEvidence | ReviewReady | WaitingReview
    | ProcessingResponse | Success | Hold | Redesign | Rollback | RestartRequired

  datatype Action =
    | CopyArchitectRequest | ImportArchitectResponse | PrepareReviewRequest | PrepareEvidence
    | AwaitProcessing | CopyReviewRequest | ImportReviewResponse | RestartCycle | NewTaskRequired

  datatype Phase = Architect | Review
  datatype PacketType = ArchitectRequest | ReviewRequest
  datatype Verdict = VSuccess | VHold | VRetry | VRedesign | VRollback

  type Nonce = nat

  datatype Feedback = Feedback(verdict: Verdict, notes: string, requested: seq<string>)

  /** Bodies and evidence are opaque texts; only where they come from matters here. */
  datatype Body =
    | ArchitectBody(task: string, collected: seq<string>, feedback: Option<Feedback>)
    | ReviewBody(routePlanId: Option<string>, result: Option<string>, validation: Option<string>)

  datatype Envelope = Envelope(packetType: PacketType, taskId: string, phase: Phase, nonce: Option<Nonce>,
                               createdAt: int, expiresAt: int, body: Body)

  datatype Record = Record(
    taskId: string, task: string,
    status: Status, activeAction: Action, phase: Phase, packetType: PacketType,
    pendingNonce: Option<Nonce>,
    requestedEvidence: seq<string>, collectedEvidence: seq<string>,
    reviewFeedback: Option<Feedback>, reviewResult: Option<string>, reviewValidation: Option<string>,
    routePlanId: Option<string>,
    packetCreatedAt: int, packetExpiresAt: int, requestSha: Digest<Envelope>)

  datatype ReplyBody =
    | Execute(decision: string)
    | NeedEvidence(requested: seq<string>)
    | ReviewVerdict(feedback: Feedback)
    | UnsupportedBody

  datatype ReplyType = ArchitectResponse | ReviewResponse

  datatype Reply = Reply(replyType: ReplyType, taskId: string, phase: Phase, nonce: Nonce, body: ReplyBody)

  /** One row of the nonce table: the response that consumed it, and how that ended. */
  datatype Row = Row(consumedBy: Option<Digest<Reply>>, completed: bool, failed: bool)

  datatype Task = Task(
    record: Record,
    nonces: map<Nonce, Row>,
    /** The nonces whose import changed the record, oldest first. */
    advanced: seq<Nonce>,
    /** The sealed packets given out, oldest first. */
    emitted: seq<Envelope>)

  datatype Plan = PlanFailed | PlanCreated(id: string, preview: bool)

  datatype Op =
    | EmitPacket(now: int, unsafe: bool, oversize: bool)
    | MarkCopied
    | PrepareReview(result: string, validation: string, unsafe: bool, now: int, nonce: Nonce)
    | Import(reply: Reply, now: int, unsafe: bool, crash: bool, plan: Plan, requestUnsafe: bool, nonce: Nonce)
    | Restart(now: int, nonce: Nonce)
    | EvidenceCollected(ready: bool, evidence: seq<string>, now: int, nonce: Nonce)
    | Recover

  datatype Outcome =
    | Done | Emitted(packet: Envelope, sha: Digest<Envelope>) | Duplicate | Crashed
    | Rejected          // a policy error before anything is stored
    | Held              // the bridge task went to HOLD
    | IntegrityFailure  // the packet no longer matches its sealed hash
    | StoreRefused      // the nonce table refused to complete or fail a nonce

  const RESPONSE_TTL_SECONDS := 30 * 60

  function ActionOf(status: Status): (action: Action) {
    match status
    case ArchitectReady => CopyArchitectRequest
    case WaitingArchitect => ImportArchitectResponse
    case RouteReady => PrepareReviewRequest
    case NeedMoreEvidence => PrepareEvidence
    case ProcessingResponse => AwaitProcessing
    case ReviewReady => CopyReviewRequest
    case WaitingReview => ImportReviewResponse
    case RestartRequired => NewTaskRequired
    case _ => RestartCycle
  }

  function BodyOf(r: Record): (body: Body) {
    if r.packetType == ArchitectRequest
    then ArchitectBody(r.task, r.collectedEvidence, r.reviewFeedback)
    else ReviewBody(r.routePlanId, r.reviewResult, r.reviewValidation)
  }

  function EnvelopeOf(r: Record): (e: Envelope) {
    Envelope(r.packetType, r.taskId, r.phase, r.pendingNonce, r.packetCreatedAt, r.packetExpiresAt, BodyOf(r))
  }

  /** `_seal_request`. */
  function Seal(r: Record, now: int): (sealed: Record) {
    var timed := r.(packetCreatedAt := now, packetExpiresAt := now + RESPONSE_TTL_SECONDS);
    timed.(requestSha := Sha256(EnvelopeOf(timed)))
  }

  function Enter(r: Record, status: Status): (r': Record) {
    r.(status := status, activeAction := ActionOf(status))
  }

  /** A new architect cycle with a new nonce, not sealed yet. */
  function ArchitectCycle(r: Record, nonce: Nonce, feedback: Option<Feedback>): (r': Record) {
    Enter(r, ArchitectReady).(phase := Architect, packetType := ArchitectRequest, pendingNonce := Some(nonce),
                              routePlanId := None, requestedEvidence := [], collectedEvidence := [],
                              reviewFeedback := feedback, reviewResult := None, reviewValidation := None)
  }

  /** Persisting a record issues its pending nonce if the table does not have it. */
  function Issue(nonces: map<Nonce, Row>, r: Record): (nonces': map<Nonce, Row>) {
    if r.pendingNonce.Some? && r.pendingNonce.value !in nonces
    then nonces[r.pendingNonce.value := Row(None, false, false)]
    else nonces
  }

  function Save(t: Task, r: Record): (t': Task) {
    t.(record := r, nonces := Issue(t.nonces, r))
  }

  /** `_hold` without a response. */
  function HoldTask(t: Task): (t': Task) {
    Save(t, Enter(t.record, Hold).(pendingNonce := None))
  }

  function Created(taskId: string, task: string, now: int, nonce: Nonce): (t: Task) {
    var blank := Record(taskId, task, ArchitectReady, CopyArchitectRequest, Architect, ArchitectRequest, Some(nonce),
                        [], [], None, None, None, None, now, now,
                        Sha256(Envelope(ArchitectRequest, taskId, Architect, Some(nonce), now, now, ArchitectBody(task, [], None))));
    Task(Seal(blank, now), map[nonce := Row(None, false, false)], [], [])
  }

  // --------------------------------------------------------------- operations

  function EmitPacketStep(t: Task, now: int, unsafe: bool, oversize: bool): (r: (Task, Outcome)) {
    var record := t.record;
    if record.status !in {ArchitectReady, WaitingArchitect, ReviewReady, WaitingReview} then (t, Rejected)
    else if record.packetExpiresAt <= now then (HoldTask(t), Held)
    else if unsafe then (HoldTask(t), Held)
    else if Sha256(EnvelopeOf(record)) != record.requestSha then (t, IntegrityFailure)
    else if oversize then (HoldTask(t), Held)
    else (t.(emitted := t.emitted + [EnvelopeOf(record)]), Emitted(EnvelopeOf(record), record.requestSha))
  }

  function MarkCopiedStep(t: Task): (r: (Task, Outcome)) {
    if t.record.activeAction == CopyArchitectRequest then (Save(t, Enter(t.record, WaitingArchitect)), Done)
    else if t.record.activeAction == CopyReviewRequest then (Save(t, Enter(t.record, WaitingReview)), Done)
    else (t, Rejected)
  }

  function PrepareReviewStep(t: Task, result: string, validation: string, unsafe: bool, now: int, nonce: Nonce)
    : (r: (Task, Outcome))
  {
    if t.record.status != RouteReady || t.record.activeAction != PrepareReviewRequest || result == "" || validation == ""
    then (t, Rejected)
    else if unsafe then (HoldTask(t), Held)
    else
      var updated := Enter(t.record, ReviewReady).(phase := Review, packetType := ReviewRequest,
                                                   pendingNonce := Some(nonce),
                                                   reviewResult := Some(result), reviewValidation := Some(validation));
      (Save(t, Seal(updated, now)), Done)
  }

  function RestartStep(t: Task, now: int, nonce: Nonce): (r: (Task, Outcome)) {
    if t.record.activeAction != RestartCycle then (t, Rejected)
    else
      var feedback := if t.record.status == Redesign then t.record.reviewFeedback else None;
      (Save(t, Seal(ArchitectCycle(t.record, nonce, feedback), now)), Done)
  }

  function EvidenceStep(t: Task, ready: bool, evidence: seq<string>, now: int, nonce: Nonce): (r: (Task, Outcome)) {
    if t.record.status != NeedMoreEvidence then (t, Rejected)
    else if !ready then (t, Done)
    else
      var updated := Enter(t.record, ArchitectReady).(phase := Architect, packetType := ArchitectRequest,
                                                      pendingNonce := Some(nonce), collectedEvidence := evidence);
      (Save(t, Seal(updated, now)), Done)
  }

  /** Consumes the pending nonce for a response and moves the stored record on. */
  function Consume(t: Task, nonce: Nonce, hash: Digest<Reply>, failed: bool, r: Record): (t': Task) {
    t.(record := r,
       nonces := Issue(t.nonces[nonce := Row(Some(hash), false, failed)], r),
       advanced := t.advanced + [nonce])
  }

  /** `update_bridge_task` ending the claimed nonce: refused unless the row is claimed by this response and open. */
  function EndNonce(t: Task, r: Record, nonce: Nonce, hash: Digest<Reply>, failed: bool, outcome: Outcome)
    : (res: (Task, Outcome))
  {
    if nonce in t.nonces && t.nonces[nonce] == Row(Some(hash), false, false) then
      (t.(record := r, nonces := Issue(t.nonces[nonce := Row(Some(hash), !failed, failed)], r)), outcome)
    else (t, StoreRefused)
  }

  /** `_import_architect` and `_import_review` on the record loaded before the claim. */
  function FinishImport(t: Task, loaded: Record, body: ReplyBody, nonce: Nonce, hash: Digest<Reply>, op: Op)
    : (r: (Task, Outcome))
    requires op.Import? && !body.UnsupportedBody?
  {
    match body
    case Execute(_) =>
      if op.plan.PlanFailed? then
        EndNonce(t, Enter(loaded, Hold).(pendingNonce := None), nonce, hash, true, Held)
      else
        var state := if op.plan.preview then RouteReady else Hold;
        EndNonce(t, Enter(loaded, state).(pendingNonce := None, routePlanId := Some(op.plan.id)), nonce, hash, false, Done)
    case NeedEvidence(requested) =>
      if op.requestUnsafe then
        EndNonce(t, Enter(loaded, Hold).(pendingNonce := None), nonce, hash, true, Held)
      else
        EndNonce(t, Enter(loaded, NeedMoreEvidence).(pendingNonce := None, requestedEvidence := requested),
                 nonce, hash, false, Done)
    case ReviewVerdict(feedback) =>
      if feedback.verdict == VRetry then
        EndNonce(t, Seal(ArchitectCycle(loaded, op.nonce, Some(feedback)), op.now), nonce, hash, false, Done)
      else
        var state := match feedback.verdict
          case VSuccess => Success
          case VHold => Hold
          case VRedesign => Redesign
          case _ => Rollback;
        EndNonce(t, Enter(loaded, state).(pendingNonce := None, requestedEvidence := feedback.requested,
                                          reviewFeedback := Some(feedback)), nonce, hash, false, Done)
  }

  predicate IsDuplicate(t: Task, reply: Reply) {
    reply.nonce in t.nonces && t.nonces[reply.nonce].consumedBy == Some(Sha256(reply))
  }

  /** The reply is the kind of answer the bridge task waits for and carries its nonce. */
  predicate Matches(r: Record, reply: Reply) {
    && (r.status == WaitingArchitect ==> reply.replyType == ArchitectResponse && reply.phase == Architect)
    && (r.status == WaitingReview ==> reply.replyType == ReviewResponse && reply.phase == Review)
    && reply.taskId == r.taskId && Some(reply.nonce) == r.pendingNonce
  }

  predicate BodySupported(status: Status, body: ReplyBody) {
    if status == WaitingArchitect then body.Execute? || body.NeedEvidence? else body.ReviewVerdict?
  }

  function ImportStep(t: Task, op: Op): (r: (Task, Outcome))
    requires op.Import?
  {
    var record, reply := t.record, op.reply;
    var hash := Sha256(reply);
    if IsDuplicate(t, reply) then (t, Duplicate)
    else if record.status !in {WaitingArchitect, WaitingReview} then (t, Rejected)
    else if !Matches(record, reply) then (t, Rejected)
    else if record.packetExpiresAt <= op.now then
      if reply.nonce !in t.nonces || t.nonces[reply.nonce].consumedBy.Some? then (t, StoreRefused)
      else (Consume(t, reply.nonce, hash, true, Enter(record, Hold).(pendingNonce := None)), Held)
    else if !BodySupported(record.status, reply.body) || op.unsafe then (t, Rejected)
    else if reply.nonce !in t.nonces || t.nonces[reply.nonce].consumedBy.Some? then (t, StoreRefused)
    else
      var claimed := Consume(t, reply.nonce, hash, false, Enter(record, ProcessingResponse));
      if op.crash then (claimed, Crashed)
      else FinishImport(claimed, record, reply.body, reply.nonce, hash, op)
  }

  /** `recover_bridge_processing_tasks` after a restart of the program. */
  function RecoverStep(t: Task): (r: (Task, Outcome)) {
    var record := t.record;
    if record.status != ProcessingResponse || record.pendingNonce.None? || record.pendingNonce.value !in t.nonces then (t, Rejected)
    else
      var row := t.nonces[record.pendingNonce.value];
      if row.completed || row.failed || row.consumedBy.None? then (t, Rejected)
      else
        (t.(record := Enter(record, Hold).(pendingNonce := None),
            nonces := t.nonces[record.pendingNonce.value := row.(failed := true)]), Held)
  }

  function Step(t: Task, op: Op): (r: (Task, Outcome)) {
    match op
    case EmitPacket(now, unsafe, oversize) => EmitPacketStep(t, now, unsafe, oversize)
    case MarkCopied => MarkCopiedStep(t)
    case PrepareReview(result, validation, unsafe, now, nonce) =>
      PrepareReviewStep(t, result, validation, unsafe, now, nonce)
    case Import(_, _, _, _, _, _, _) => ImportStep(t, op)
    case Restart(now, nonce) => RestartStep(t, now, nonce)
    case EvidenceCollected(ready, evidence, now, nonce) => EvidenceStep(t, ready, evidence, now, nonce)
    case Recover => RecoverStep(t)
  }

  /** A nonce drawn for an operation was never drawn before. */
  predicate IsFresh(t: Task, op: Op) {
    match op
    case PrepareReview(_, _, _, _, nonce) => nonce !in t.nonces
    case Import(_, _, _, _, _, _, nonce) => nonce !in t.nonces
    case Restart(_, nonce) => nonce !in t.nonces
    case EvidenceCollected(_, _, _, nonce) => nonce !in t.nonces
    case _ => true
  }

  // ---------------------------------------------------------------- invariant

  predicate MayEmit(status: Status) {
    status in {ArchitectReady, WaitingArchitect, ReviewReady, WaitingReview}
  }

  ghost predicate RecordInv(r: Record) {
    && r.status != RestartRequired
    && r.activeAction == ActionOf(r.status)
    && (r.status in {ArchitectReady, WaitingArchitect} ==> r.phase == Architect && r.packetType == ArchitectRequest)
    && (r.status in {ReviewReady, WaitingReview} ==> r.phase == Review && r.packetType == ReviewRequest)
    && (r.pendingNonce.Some? <==> MayEmit(r.status) || r.status == ProcessingResponse)
    && (r.pendingNonce.Some? ==> r.requestSha == Sha256(EnvelopeOf(r)))
  }

  ghost predicate NonceInv(t: Task) {
    && (t.record.pendingNonce.Some? ==>
        && t.record.pendingNonce.value in t.nonces
        && (var row := t.nonces[t.record.pendingNonce.value];
            !row.completed && !row.failed && (row.consumedBy.Some? <==> t.record.status == ProcessingResponse)))
    && (forall n :: n in t.advanced ==> n in t.nonces && t.nonces[n].consumedBy.Some?)
    && (forall i, j :: 0 <= i < j < |t.advanced| ==> t.advanced[i] != t.advanced[j])
  }

  ghost predicate PacketInv(t: Task) {
    && (forall e :: e in t.emitted ==> e.nonce.Some? && e.nonce.value in t.nonces)
    && (forall e :: e in t.emitted && e.nonce == t.record.pendingNonce ==> e == EnvelopeOf(t.record))
    && (forall e, f :: e in t.emitted && f in t.emitted && e.nonce == f.nonce ==> e == f)
  }

  ghost predicate Inv(t: Task) {
    RecordInv(t.record) && NonceInv(t) && PacketInv(t)
  }

  /** What a step that stores a record promises: the invariant, and neither internal check failing. */
  ghost predicate Sound(r: (Task, Outcome)) {
    Inv(r.0) && r.1 != IntegrityFailure && r.1 != StoreRefused
  }

  /** Storing a record without a pending nonce. */
  lemma SaveWithoutNonce(t: Task, r: Record)
    requires Inv(t) && RecordInv(r) && r.pendingNonce.None?
    ensures Inv(Save(t, r))
  {
  }

  /** Storing a sealed record under a new nonce. */
  lemma SaveWithNewNonce(t: Task, r: Record)
    requires Inv(t) && RecordInv(r) && MayEmit(r.status) && r.pendingNonce.value !in t.nonces
    ensures Inv(Save(t, r))
  {
  }

  lemma SealKeepsRecordInv(r: Record, now: int)
    requires r.activeAction == ActionOf(r.status) && r.pendingNonce.Some? && MayEmit(r.status)
    requires r.status in {ArchitectReady, WaitingArchitect} ==> r.phase == Architect && r.packetType == ArchitectRequest
    requires r.status in {ReviewReady, WaitingReview} ==> r.phase == Review && r.packetType == ReviewRequest
    ensures RecordInv(Seal(r, now)) && Seal(r, now).pendingNonce == r.pendingNonce && Seal(r, now).status == r.status
  {
  }

  /** The times, the envelope's own hash and the unchanged fields leave one sealed record. */
  lemma SealUnique(r: Record, now: int, sealed: Record)
    requires sealed.packetCreatedAt == now && sealed.packetExpiresAt == now + RESPONSE_TTL_SECONDS
    requires sealed.requestSha == Sha256(EnvelopeOf(sealed))
    requires sealed.(packetCreatedAt := r.packetCreatedAt, packetExpiresAt := r.packetExpiresAt, requestSha := r.requestSha) == r
    ensures sealed == Seal(r, now)
  {
    var timed := r.(packetCreatedAt := now, packetExpiresAt := now + RESPONSE_TTL_SECONDS);
    assert sealed == timed.(requestSha := sealed.requestSha);
    assert EnvelopeOf(sealed) == EnvelopeOf(timed);
  }

  /**
   What a seal is for: of a task that carries the seal of some record, a packet is given out before
   it expires, and it is the packet that was sealed; the integrity check fails exactly when the
   task's own envelope has become another one.
   */
  lemma SealedPacketIff(r: Record, sealedAt: int, t: Task, now: int)
    requires t.record.requestSha == Seal(r, sealedAt).requestSha && MayEmit(t.record.status)
    requires now < t.record.packetExpiresAt
    ensures var sealed := Seal(r, sealedAt);
            var (t', outcome) := EmitPacketStep(t, now, false, false);
            && (outcome == IntegrityFailure <==> EnvelopeOf(t.record) != EnvelopeOf(sealed))
            && (outcome != IntegrityFailure ==>
                  && outcome == Emitted(EnvelopeOf(sealed), sealed.requestSha)
                  && t.record.packetExpiresAt == sealedAt + RESPONSE_TTL_SECONDS)
  {
    var timed := r.(packetCreatedAt := sealedAt, packetExpiresAt := sealedAt + RESPONSE_TTL_SECONDS);
    assert EnvelopeOf(Seal(r, sealedAt)) == EnvelopeOf(timed);
  }

  lemma EmitIsSound(t: Task, now: int, unsafe: bool, oversize: bool)
    requires Inv(t)
    ensures Sound(EmitPacketStep(t, now, unsafe, oversize))
  {
    SaveWithoutNonce(t, Enter(t.record, Hold).(pendingNonce := None));
    var t' := t.(emitted := t.emitted + [EnvelopeOf(t.record)]);
    if MayEmit(t.record.status) {
      assert forall e :: e in t'.emitted <==> e in t.emitted || e == EnvelopeOf(t.record);
      assert PacketInv(t');
    }
  }

  lemma CopyIsSound(t: Task)
    requires Inv(t)
    ensures Sound(MarkCopiedStep(t))
  {
  }

  lemma PrepareIsSound(t: Task, result: string, validation: string, unsafe: bool, now: int, nonce: Nonce)
    requires Inv(t) && nonce !in t.nonces
    ensures Sound(PrepareReviewStep(t, result, validation, unsafe, now, nonce))
  {
    SaveWithoutNonce(t, Enter(t.record, Hold).(pendingNonce := None));
    var updated := Enter(t.record, ReviewReady).(phase := Review, packetType := ReviewRequest,
                                                 pendingNonce := Some(nonce),
                                                 reviewResult := Some(result), reviewValidation := Some(validation));
    SealKeepsRecordInv(updated, now);
    SaveWithNewNonce(t, Seal(updated, now));
  }

  lemma RestartIsSound(t: Task, now: int, nonce: Nonce)
    requires Inv(t) && nonce !in t.nonces
    ensures Sound(RestartStep(t, now, nonce))
  {
    var feedback := if t.record.status == Redesign then t.record.reviewFeedback else None;
    SealKeepsRecordInv(ArchitectCycle(t.record, nonce, feedback), now);
    SaveWithNewNonce(t, Seal(ArchitectCycle(t.record, nonce, feedback), now));
  }

  lemma EvidenceIsSound(t: Task, ready: bool, evidence: seq<string>, now: int, nonce: Nonce)
    requires Inv(t) && nonce !in t.nonces
    ensures Sound(EvidenceStep(t, ready, evidence, now, nonce))
  {
    var updated := Enter(t.record, ArchitectReady).(phase := Architect, packetType := ArchitectRequest,
                                                    pendingNonce := Some(nonce), collectedEvidence := evidence);
    SealKeepsRecordInv(updated, now);
    SaveWithNewNonce(t, Seal(updated, now));
  }

  lemma RecoverIsSound(t: Task)
    requires Inv(t)
    ensures Sound(RecoverStep(t))
  {
  }

  /** Claiming the pending nonce of a waiting task. */
  lemma ClaimIsSound(t: Task, nonce: Nonce, hash: Digest<Reply>, failed: bool, r: Record)
    requires Inv(t) && t.record.pendingNonce == Some(nonce) && t.record.status in {WaitingArchitect, WaitingReview}
    requires r == (if failed then Enter(t.record, Hold).(pendingNonce := None) else Enter(t.record, ProcessingResponse))
    ensures Inv(Consume(t, nonce, hash, failed, r))
    ensures Consume(t, nonce, hash, failed, r).nonces == t.nonces[nonce := Row(Some(hash), false, failed)]
  {
    assert nonce !in t.advanced;
  }

  /** Ending the claimed nonce with a record that waits for nothing, or for a new nonce. */
  lemma EndIsSound(t: Task, r: Record, nonce: Nonce, hash: Digest<Reply>, failed: bool, outcome: Outcome)
    requires Inv(t) && t.record.status == ProcessingResponse && t.record.pendingNonce == Some(nonce)
    requires t.nonces[nonce] == Row(Some(hash), false, false)
    requires RecordInv(r) && r.status != ProcessingResponse
    requires r.pendingNonce.Some? ==> r.pendingNonce.value !in t.nonces
    requires outcome != IntegrityFailure && outcome != StoreRefused
    ensures Sound(EndNonce(t, r, nonce, hash, failed, outcome))
    ensures EndNonce(t, r, nonce, hash, failed, outcome).1 == outcome
  {
  }

  lemma FinishIsSound(t: Task, loaded: Record, body: ReplyBody, nonce: Nonce, hash: Digest<Reply>, op: Op)
    requires op.Import? && !body.UnsupportedBody? && op.nonce !in t.nonces
    requires Inv(t) && t.record == Enter(loaded, ProcessingResponse) && t.record.pendingNonce == Some(nonce)
    requires t.nonces[nonce] == Row(Some(hash), false, false)
    ensures Sound(FinishImport(t, loaded, body, nonce, hash, op))
  {
    match body
    case Execute(_) =>
      var state := if op.plan.PlanCreated? && op.plan.preview then RouteReady else Hold;
      var id := if op.plan.PlanCreated? then Some(op.plan.id) else loaded.routePlanId;
      EndIsSound(t, Enter(loaded, state).(pendingNonce := None, routePlanId := id), nonce, hash,
                 op.plan.PlanFailed?, if op.plan.PlanFailed? then Held else Done);
    case NeedEvidence(requested) =>
      EndIsSound(t, Enter(loaded, Hold).(pendingNonce := None), nonce, hash, true, Held);
      EndIsSound(t, Enter(loaded, NeedMoreEvidence).(pendingNonce := None, requestedEvidence := requested),
                 nonce, hash, false, Done);
    case ReviewVerdict(feedback) =>
      var again := Seal(ArchitectCycle(loaded, op.nonce, Some(feedback)), op.now);
      SealKeepsRecordInv(ArchitectCycle(loaded, op.nonce, Some(feedback)), op.now);
      EndIsSound(t, again, nonce, hash, false, Done);
      forall state | state in {Success, Hold, Redesign, Rollback} {
        EndIsSound(t, Enter(loaded, state).(pendingNonce := None, requestedEvidence := feedback.requested,
                                            reviewFeedback := Some(feedback)), nonce, hash, false, Done);
      }
  }

  lemma ImportIsSound(t: Task, op: Op)
    requires Inv(t) && op.Import? && IsFresh(t, op)
    ensures Sound(ImportStep(t, op))
  {
    var record, reply := t.record, op.reply;
    if record.status in {WaitingArchitect, WaitingReview} && Matches(record, reply) && !IsDuplicate(t, reply) {
      var hash := Sha256(reply);
      ClaimIsSound(t, reply.nonce, hash, true, Enter(record, Hold).(pendingNonce := None));
      ClaimIsSound(t, reply.nonce, hash, false, Enter(record, ProcessingResponse));
      var claimed := Consume(t, reply.nonce, hash, false, Enter(record, ProcessingResponse));
      if BodySupported(record.status, reply.body) {
        FinishIsSound(claimed, record, reply.body, reply.nonce, hash, op);
      }
      hide Consume, FinishImport, Inv;
    }
  }

  /**
   Every operation with a fresh nonce keeps the invariant; the integrity check of a packet never
   fails and the nonce table never refuses to end a nonce.
   */
  lemma StepIsSound(t: Task, op: Op)
    requires Inv(t) && IsFresh(t, op)
    ensures Sound(Step(t, op))
  {
    match op
    case EmitPacket(now, unsafe, oversize) => EmitIsSound(t, now, unsafe, oversize);
    case MarkCopied => CopyIsSound(t);
    case PrepareReview(result, validation, unsafe, now, nonce) =>
      PrepareIsSound(t, result, validation, unsafe, now, nonce);
    case Import(_, _, _, _, _, _, _) => ImportIsSound(t, op);
    case Restart(now, nonce) => RestartIsSound(t, now, nonce);
    case EvidenceCollected(ready, evidence, now, nonce) => EvidenceIsSound(t, ready, evidence, now, nonce);
    case Recover => RecoverIsSound(t);
  }

  // --------------------------------------------------------------------- runs

  /** The bridge task after some operations; None when one of them draws a nonce that is not new. */
  function RunFrom(t: Task, ops: seq<Op>): (end: Option<Task>)
    decreases |ops|
  {
    if ops == [] then Some(t)
    else if IsFresh(t, ops[0]) then RunFrom(Step(t, ops[0]).0, ops[1..])
    else None
  }

  lemma CreatedIsSound(taskId: string, task: string, now: int, nonce: Nonce)
    ensures Inv(Created(taskId, task, now, nonce))
  {
  }

  /** Consumed rows keep their response, and the log of advancing nonces only grows. */
  lemma {:induction false} StepKeepsRows(t: Task, op: Op, n: Nonce)
    requires Inv(t) && IsFresh(t, op)
    ensures var t' := Step(t, op).0;
            && (n in t.nonces && t.nonces[n].consumedBy.Some? ==>
                n in t'.nonces && t'.nonces[n].consumedBy == t.nonces[n].consumedBy)
            && t.advanced <= t'.advanced
            && t.emitted <= t'.emitted
  {
    hide Seal, EnvelopeOf, PacketInv, RecordInv;
  }

  lemma {:induction false} RunKeeps(t: Task, ops: seq<Op>, n: Nonce)
    requires Inv(t) && RunFrom(t, ops).Some?
    ensures var end := RunFrom(t, ops).value;
            && Inv(end)
            && (n in t.nonces && t.nonces[n].consumedBy.Some? ==>
                n in end.nonces && end.nonces[n].consumedBy == t.nonces[n].consumedBy)
            && t.advanced <= end.advanced
            && t.emitted <= end.emitted
    decreases |ops|
  {
    if ops != [] {
      StepIsSound(t, ops[0]);
      StepKeepsRows(t, ops[0], n);
      RunKeeps(Step(t, ops[0]).0, ops[1..], n);
    }
  }

  /**
   In every state a created task can reach: the action and packet kind fit the status, a nonce is
   pending exactly in the ready, waiting and processing states, the sealed hash is that of the
   packet the record gives, so a request for a packet never fails its integrity check and no
   operation is refused by the nonce table.
   */
  lemma ReachableIsSound(taskId: string, task: string, now: int, nonce: Nonce, ops: seq<Op>, op: Op)
    requires RunFrom(Created(taskId, task, now, nonce), ops).Some?
    requires IsFresh(RunFrom(Created(taskId, task, now, nonce), ops).value, op)
    ensures var t := RunFrom(Created(taskId, task, now, nonce), ops).value;
            && RecordInv(t.record)
            && Step(t, op).1 != IntegrityFailure && Step(t, op).1 != StoreRefused
            && (Step(t, op).1.Emitted? ==>
                Step(t, op).1.sha == Sha256(Step(t, op).1.packet) && MayEmit(t.record.status))
  {
    CreatedIsSound(taskId, task, now, nonce);
    RunKeeps(Created(taskId, task, now, nonce), ops, nonce);
    StepIsSound(RunFrom(Created(taskId, task, now, nonce), ops).value, op);
  }

  /** However often a packet is handed out, the same nonce always comes in the same packet. */
  lemma SameNonceSamePacket(taskId: string, task: string, now: int, nonce: Nonce, ops: seq<Op>,
                            p: Envelope, q: Envelope)
    requires RunFrom(Created(taskId, task, now, nonce), ops).Some?
    requires p in RunFrom(Created(taskId, task, now, nonce), ops).value.emitted
    requires q in RunFrom(Created(taskId, task, now, nonce), ops).value.emitted
    ensures p.nonce == q.nonce ==> p == q
  {
    CreatedIsSound(taskId, task, now, nonce);
    RunKeeps(Created(taskId, task, now, nonce), ops, nonce);
  }

  /** An import changes a bridge task exactly when it consumes its nonce, for its own response. */
  lemma ImportChangesIffConsumes(t: Task, op: Op)
    requires Inv(t) && op.Import? && IsFresh(t, op)
    ensures var t' := Step(t, op).0;
            && (t' != t <==> t'.advanced == t.advanced + [op.reply.nonce])
            && (t' != t ==> op.reply.nonce !in t.advanced && IsDuplicate(t', op.reply))
  {
    ImportIsSound(t, op);
    hide Seal, EnvelopeOf, PacketInv, RecordInv;
    assert t.advanced != t.advanced + [op.reply.nonce];
  }

  /**
   Two imports that change a bridge task carry different nonces, and importing an already recorded
   response again leaves it as it is, whatever happened in between.
   */
  lemma ImportsUseNoncesOnce(t: Task, first: Op, between: seq<Op>, second: Op)
    requires Inv(t) && first.Import? && second.Import? && IsFresh(t, first)
    requires Step(t, first).0 != t
    requires RunFrom(Step(t, first).0, between).Some?
    requires IsFresh(RunFrom(Step(t, first).0, between).value, second)
    ensures var later := RunFrom(Step(t, first).0, between).value;
            && (Step(later, second).0 != later ==> second.reply.nonce != first.reply.nonce)
            && (second.reply == first.reply ==> Step(later, second) == (later, Duplicate))
  {
    StepIsSound(t, first);
    ImportChangesIffConsumes(t, first);
    var t1 := Step(t, first).0;
    RunKeeps(t1, between, first.reply.nonce);
    var later := RunFrom(t1, between).value;
    ImportChangesIffConsumes(later, second);
    assert t1.advanced[|t.advanced|] == first.reply.nonce;
    assert first.reply.nonce in later.advanced by {
      assert later.advanced[|t.advanced|] == first.reply.nonce;
    }
    hide Step, RunFrom, Inv;
  }

  // ---------------------------------------------------- where the operations lead

  /** The response is of the kind the task waits for, and carries its nonce. */
  predicate Answers(t: Task, op: Op)
    requires op.Import?
  {
    && op.reply.taskId == t.record.taskId && t.record.pendingNonce == Some(op.reply.nonce)
    && match t.record.status
       case WaitingArchitect => op.reply.replyType == ArchitectResponse && op.reply.phase == Architect
       case WaitingReview => op.reply.replyType == ReviewResponse && op.reply.phase == Review
       case _ => false
  }

  /** It answers in time, with a safe body of that kind. */
  predicate IsAccepted(t: Task, op: Op)
    requires op.Import?
  {
    && Answers(t, op) && op.now < t.record.packetExpiresAt && !op.unsafe
    && if t.record.status == WaitingArchitect then op.reply.body.Execute? || op.reply.body.NeedEvidence?
       else op.reply.body.ReviewVerdict?
  }

  /** The record moved to a status with its action, nothing is pending, and other fields are as they were. */
  predicate MovedTo(before: Record, after: Record, status: Status, action: Action) {
    && after.status == status && after.activeAction == action && after.pendingNonce == None
    && after.(status := before.status, activeAction := before.activeAction, pendingNonce := before.pendingNonce) == before
  }

  /** A record sealed at a time, as a request of a phase under a nonce; other fields are as they were. */
  predicate RequestsFrom(before: Record, after: Record, phase: Phase, nonce: Nonce, now: int) {
    && after.pendingNonce == Some(nonce) && after.phase == phase
    && after.status == (if phase == Architect then ArchitectReady else ReviewReady)
    && after.activeAction == (if phase == Architect then CopyArchitectRequest else CopyReviewRequest)
    && after.packetType == (if phase == Architect then ArchitectRequest else ReviewRequest)
    && after.packetCreatedAt == now && after.packetExpiresAt == now + 1800 && after.requestSha == Sha256(EnvelopeOf(after))
    && before == after.(status := before.status, activeAction := before.activeAction, pendingNonce := before.pendingNonce,
                        phase := before.phase, packetType := before.packetType, packetCreatedAt := before.packetCreatedAt,
                        packetExpiresAt := before.packetExpiresAt, requestSha := before.requestSha)
  }

  /** Nothing of the last cycle but what is fed back. */
  function Cleared(r: Record, feedback: Option<Feedback>): (r': Record) {
    r.(routePlanId := None, requestedEvidence := [], collectedEvidence := [],
       reviewFeedback := feedback, reviewResult := None, reviewValidation := None)
  }

  /** The nonce ended with this response: completed, or failed. */
  predicate NonceEnded(t: Task, t': Task, reply: Reply, completed: bool) {
    && reply.nonce in t'.nonces && t'.nonces[reply.nonce] == Row(Some(Sha256(reply)), completed, !completed)
    && t'.advanced == t.advanced + [reply.nonce] && t'.emitted == t.emitted
  }

  /** Sealing an open request of a phase under a nonce. */
  lemma SealRequests(before: Record, open: Record, phase: Phase, nonce: Nonce, now: int)
    requires open == before.(status := open.status, activeAction := open.activeAction, pendingNonce := Some(nonce),
                             phase := phase, packetType := open.packetType)
    requires open.status == (if phase == Architect then ArchitectReady else ReviewReady)
    requires open.activeAction == (if phase == Architect then CopyArchitectRequest else CopyReviewRequest)
    requires open.packetType == (if phase == Architect then ArchitectRequest else ReviewRequest)
    ensures RequestsFrom(before, Seal(open, now), phase, nonce, now)
  {
    var timed := open.(packetCreatedAt := now, packetExpiresAt := now + RESPONSE_TTL_SECONDS);
    assert EnvelopeOf(Seal(open, now)) == EnvelopeOf(timed);
    hide EnvelopeOf;
  }

  lemma CycleRequests(r: Record, nonce: Nonce, feedback: Option<Feedback>, now: int)
    ensures RequestsFrom(Cleared(r, feedback), Seal(ArchitectCycle(r, nonce, feedback), now), Architect, nonce, now)
  {
    SealRequests(Cleared(r, feedback), ArchitectCycle(r, nonce, feedback), Architect, nonce, now);
    hide Seal;
  }

  /** What is stored with an accepted response, and what the import answers. */
  ghost predicate LeadsTo(r: Record, r': Record, outcome: Outcome, op: Op)
    requires op.Import?
  {
    match op.reply.body
    case Execute(_) =>
      (match op.plan
       case PlanFailed => outcome == Held && MovedTo(r, r', Hold, RestartCycle)
       case PlanCreated(id, true) =>
         outcome == Done && MovedTo(r.(routePlanId := Some(id)), r', RouteReady, PrepareReviewRequest)
       case PlanCreated(id, false) => outcome == Done && MovedTo(r.(routePlanId := Some(id)), r', Hold, RestartCycle))
    case NeedEvidence(requested) =>
      if op.requestUnsafe then outcome == Held && MovedTo(r, r', Hold, RestartCycle)
      else outcome == Done && MovedTo(r.(requestedEvidence := requested), r', NeedMoreEvidence, PrepareEvidence)
    case ReviewVerdict(feedback) =>
      var noted := r.(requestedEvidence := feedback.requested, reviewFeedback := Some(feedback));
      outcome == Done &&
      (match feedback.verdict
       case VSuccess => MovedTo(noted, r', Success, RestartCycle)
       case VHold => MovedTo(noted, r', Hold, RestartCycle)
       case VRedesign => MovedTo(noted, r', Redesign, RestartCycle)
       case VRollback => MovedTo(noted, r', Rollback, RestartCycle)
       case VRetry => RequestsFrom(Cleared(r, Some(feedback)), r', Architect, op.nonce, op.now))
    case UnsupportedBody => false
  }

  lemma FinishLeads(t: Task, loaded: Record, nonce: Nonce, hash: Digest<Reply>, op: Op)
    requires op.Import? && !op.reply.body.UnsupportedBody? && op.nonce !in t.nonces && op.nonce != nonce
    requires nonce in t.nonces && t.nonces[nonce] == Row(Some(hash), false, false)
    ensures var (t', outcome) := FinishImport(t, loaded, op.reply.body, nonce, hash, op);
            && LeadsTo(loaded, t'.record, outcome, op)
            && nonce in t'.nonces && t'.nonces[nonce] == Row(Some(hash), outcome == Done, outcome != Done)
            && t'.advanced == t.advanced && t'.emitted == t.emitted
  {
    hide Seal, RequestsFrom, ArchitectCycle, Cleared;
    if op.reply.body.ReviewVerdict? && op.reply.body.feedback.verdict == VRetry {
      CycleRequests(loaded, op.nonce, Some(op.reply.body.feedback), op.now);
    }
  }

  /** Where each kind of accepted response takes a task, and how its nonce ends. */
  lemma AcceptedImport(t: Task, op: Op)
    requires Inv(t) && op.Import? && IsFresh(t, op) && IsAccepted(t, op) && !op.crash
    ensures var (t', outcome) := Step(t, op);
            LeadsTo(t.record, t'.record, outcome, op) && NonceEnded(t, t', op.reply, outcome == Done)
  {
    hide PacketInv, EnvelopeOf, FinishImport, LeadsTo;
    assert t.nonces[op.reply.nonce].consumedBy.None?;
    var hash := Sha256(op.reply);
    var claimed := Consume(t, op.reply.nonce, hash, false, Enter(t.record, ProcessingResponse));
    FinishLeads(claimed, t.record, op.reply.nonce, hash, op);
  }

  /** Every other import: what it answers with, and what it leaves behind. */
  lemma OtherImport(t: Task, op: Op)
    requires Inv(t) && op.Import? && IsFresh(t, op)
    ensures var (t', outcome) := Step(t, op);
            var r, r', nonce := t.record, t'.record, op.reply.nonce;
            if nonce in t.nonces && t.nonces[nonce].consumedBy == Some(Sha256(op.reply)) then t' == t && outcome == Duplicate
            else if !Answers(t, op) then t' == t && outcome == Rejected
            else if r.packetExpiresAt <= op.now then
              outcome == Held && MovedTo(r, r', Hold, RestartCycle) && NonceEnded(t, t', op.reply, false)
            else if !IsAccepted(t, op) then t' == t && outcome == Rejected
            else if op.crash then
              && outcome == Crashed && r' == r.(status := ProcessingResponse, activeAction := AwaitProcessing)
              && t'.nonces == t.nonces[nonce := Row(Some(Sha256(op.reply)), false, false)]
              && t'.advanced == t.advanced + [nonce] && t'.emitted == t.emitted
            else outcome in {Done, Held}
  {
    hide PacketInv, EnvelopeOf;
    if Answers(t, op) {
      assert t.nonces[op.reply.nonce].consumedBy.None?;
    }
    if IsAccepted(t, op) && !op.crash {
      AcceptedImport(t, op);
    }
  }

  /** Marking as copied moves on from the two ready states, and does nothing else. */
  lemma CopiedMoves(t: Task)
    requires Inv(t)
    ensures var r := t.record;
            Step(t, MarkCopied) ==
              match r.status
              case ArchitectReady => (t.(record := r.(status := WaitingArchitect, activeAction := ImportArchitectResponse)), Done)
              case ReviewReady => (t.(record := r.(status := WaitingReview, activeAction := ImportReviewResponse)), Done)
              case _ => (t, Rejected)
  {
    hide PacketInv, EnvelopeOf;
  }

  /** A review is prepared exactly from a ready route with a result and a validation, both safe. */
  lemma PrepareMoves(t: Task, result: string, validation: string, unsafe: bool, now: int, nonce: Nonce)
    requires Inv(t) && nonce !in t.nonces
    ensures var (t', outcome) := Step(t, PrepareReview(result, validation, unsafe, now, nonce));
            if t.record.status != RouteReady || result == "" || validation == "" then t' == t && outcome == Rejected
            else if unsafe then outcome == Held && t' == t.(record := t'.record) && MovedTo(t.record, t'.record, Hold, RestartCycle)
            else
              && outcome == Done
              && t' == t.(record := t'.record, nonces := t.nonces[nonce := Row(None, false, false)])
              && RequestsFrom(t.record.(reviewResult := Some(result), reviewValidation := Some(validation)), t'.record,
                              Review, nonce, now)
  {
    var before := t.record.(reviewResult := Some(result), reviewValidation := Some(validation));
    var open := Enter(t.record, ReviewReady).(phase := Review, packetType := ReviewRequest, pendingNonce := Some(nonce),
                                              reviewResult := Some(result), reviewValidation := Some(validation));
    SealRequests(before, open, Review, nonce, now);
    hide PacketInv, EnvelopeOf, RequestsFrom;
  }

  /** A new cycle starts exactly from a final state; only a redesign passes its feedback on. */
  lemma RestartMoves(t: Task, now: int, nonce: Nonce)
    requires Inv(t) && nonce !in t.nonces
    ensures var (t', outcome) := Step(t, Restart(now, nonce));
            if t.record.status !in {Success, Hold, Redesign, Rollback} then t' == t && outcome == Rejected
            else
              && outcome == Done
              && t' == t.(record := t'.record, nonces := t.nonces[nonce := Row(None, false, false)])
              && RequestsFrom(Cleared(t.record, if t.record.status == Redesign then t.record.reviewFeedback else None), t'.record,
                              Architect, nonce, now)
  {
    CycleRequests(t.record, nonce, if t.record.status == Redesign then t.record.reviewFeedback else None, now);
    hide PacketInv, EnvelopeOf, RequestsFrom, Cleared;
  }

  /** Complete evidence opens a new request to the architect, and keeps what the cycle knows. */
  lemma EvidenceMoves(t: Task, ready: bool, evidence: seq<string>, now: int, nonce: Nonce)
    requires Inv(t) && nonce !in t.nonces
    ensures var (t', outcome) := Step(t, EvidenceCollected(ready, evidence, now, nonce));
            if t.record.status != NeedMoreEvidence then t' == t && outcome == Rejected
            else if !ready then t' == t && outcome == Done
            else
              && outcome == Done
              && t' == t.(record := t'.record, nonces := t.nonces[nonce := Row(None, false, false)])
              && RequestsFrom(t.record.(collectedEvidence := evidence), t'.record, Architect, nonce, now)
  {
    var open := Enter(t.record, ArchitectReady).(phase := Architect, packetType := ArchitectRequest,
                                                 pendingNonce := Some(nonce), collectedEvidence := evidence);
    SealRequests(t.record.(collectedEvidence := evidence), open, Architect, nonce, now);
    hide PacketInv, EnvelopeOf, RequestsFrom;
  }

  /** Recovery holds exactly a task whose import was cut off, and fails its nonce. */
  lemma RecoverMoves(t: Task)
    requires Inv(t)
    ensures var (t', outcome) := Step(t, Recover);
            if t.record.status != ProcessingResponse then t' == t && outcome == Rejected
            else
              var nonce := t.record.pendingNonce.value;
              && outcome == Held && MovedTo(t.record, t'.record, Hold, RestartCycle)
              && t' == t.(record := t'.record,
                          nonces := t.nonces[nonce := Row(t.nonces[nonce].consumedBy, false, true)])
  {
    hide PacketInv, EnvelopeOf;
  }

  /** A packet is given out exactly in the four states with a request, in time, safe and within the size limit. */
  lemma EmitMoves(t: Task, now: int, unsafe: bool, oversize: bool)
    requires Inv(t)
    ensures var (t', outcome) := Step(t, EmitPacket(now, unsafe, oversize));
            if t.record.status !in {ArchitectReady, WaitingArchitect, ReviewReady, WaitingReview} then
              t' == t && outcome == Rejected
            else if t.record.packetExpiresAt <= now || unsafe || oversize then
              outcome == Held && t' == t.(record := t'.record) && MovedTo(t.record, t'.record, Hold, RestartCycle)
            else
              && t' == t.(emitted := t.emitted + [EnvelopeOf(t.record)])
              && outcome == Emitted(EnvelopeOf(t.record), Sha256(EnvelopeOf(t.record)))
  {
    hide PacketInv, EnvelopeOf;
  }

  /** What a packet carries: the task's question with its evidence and feedback, or the result of its plan. */
  lemma PacketTells(t: Task, now: int)
    requires Inv(t) && Step(t, EmitPacket(now, false, false)).1.Emitted?
    ensures var r, packet := t.record, Step(t, EmitPacket(now, false, false)).1.packet;
            && packet.taskId == r.taskId && packet.nonce == r.pendingNonce && packet.expiresAt == r.packetExpiresAt > now
            && (r.status in {ArchitectReady, WaitingArchitect} ==>
                  packet.packetType == ArchitectRequest && packet.phase == Architect
                  && packet.body == ArchitectBody(r.task, r.collectedEvidence, r.reviewFeedback))
            && (r.status in {ReviewReady, WaitingReview} ==>
                  packet.packetType == ReviewRequest && packet.phase == Review
                  && packet.body == ReviewBody(r.routePlanId, r.reviewResult, r.reviewValidation))
  {
  }

  // ------------------------------------------------------ what a status says of the past

  /** The last operation that changed the record, with its outcome. */
  function LastChange(t: Task, ops: seq<Op>): (last: Option<(Op, Outcome)>)
    requires RunFrom(t, ops).Some?
    decreases |ops|
  {
    if ops == [] then None
    else
      var (t', outcome) := Step(t, ops[0]);
      var later := LastChange(t', ops[1..]);
      if later.Some? then later
      else if t'.record != t.record then Some((ops[0], outcome))
      else None
  }

  /** The operation brought the status about: a review verdict, a plan, or a request for evidence. */
  predicate Brings(op: Op, outcome: Outcome, status: Status) {
    && op.Import? && outcome == Done
    && match status
       case Success => op.reply.body.ReviewVerdict? && op.reply.body.feedback.verdict == VSuccess
       case Redesign => op.reply.body.ReviewVerdict? && op.reply.body.feedback.verdict == VRedesign
       case Rollback => op.reply.body.ReviewVerdict? && op.reply.body.feedback.verdict == VRollback
       case RouteReady => op.reply.body.Execute? && op.plan.PlanCreated? && op.plan.preview
       case NeedMoreEvidence => op.reply.body.NeedEvidence?
       case _ => false
  }

  /** A step that changes the record ends in one of these states exactly when it brings it about. */
  lemma StepBrings(t: Task, op: Op, status: Status)
    requires Inv(t) && IsFresh(t, op) && Step(t, op).0.record != t.record
    requires status in {Success, Redesign, Rollback, RouteReady, NeedMoreEvidence}
    ensures Step(t, op).0.record.status == status <==> Brings(op, Step(t, op).1, status)
  {
    hide Step, Inv;
    match op
    case EmitPacket(now, unsafe, oversize) => EmitMoves(t, now, unsafe, oversize);
    case MarkCopied => CopiedMoves(t);
    case PrepareReview(result, validation, unsafe, now, nonce) => PrepareMoves(t, result, validation, unsafe, now, nonce);
    case Import(_, _, _, _, _, _, _) =>
      OtherImport(t, op);
      if IsAccepted(t, op) && !op.crash {
        AcceptedImport(t, op);
      }
    case Restart(now, nonce) => RestartMoves(t, now, nonce);
    case EvidenceCollected(ready, evidence, now, nonce) => EvidenceMoves(t, ready, evidence, now, nonce);
    case Recover => RecoverMoves(t);
  }

  lemma {:induction false} LastChangeBrings(t: Task, ops: seq<Op>, status: Status)
    requires Inv(t) && RunFrom(t, ops).Some?
    requires status in {Success, Redesign, Rollback, RouteReady, NeedMoreEvidence}
    ensures match LastChange(t, ops)
            case None => RunFrom(t, ops).value.record == t.record
            case Some((op, outcome)) => RunFrom(t, ops).value.record.status == status <==> Brings(op, outcome, status)
    decreases |ops|
  {
    if ops != [] {
      StepIsSound(t, ops[0]);
      LastChangeBrings(Step(t, ops[0]).0, ops[1..], status);
      if Step(t, ops[0]).0.record != t.record {
        StepBrings(t, ops[0], status);
      }
      hide Step, Inv, Brings;
    }
  }

  /**
   Over every run of a created task: it is in SUCCESS exactly when the last operation that changed its
   record was the import of a review response with that verdict, and so for REDESIGN, ROLLBACK, a
   ready route, and a request for more evidence.
   */
  lemma StatusTellsLastChange(taskId: string, task: string, now: int, nonce: Nonce, ops: seq<Op>, status: Status)
    requires RunFrom(Created(taskId, task, now, nonce), ops).Some?
    requires status in {Success, Redesign, Rollback, RouteReady, NeedMoreEvidence}
    ensures var t := Created(taskId, task, now, nonce);
            RunFrom(t, ops).value.record.status == status <==>
              LastChange(t, ops).Some? && Brings(LastChange(t, ops).value.0, LastChange(t, ops).value.1, status)
  {
    CreatedIsSound(taskId, task, now, nonce);
    LastChangeBrings(Created(taskId, task, now, nonce), ops, status);
    assert Created(taskId, task, now, nonce).record.status == ArchitectReady;
    hide RunFrom, LastChange, Brings;
  }

  // --------------------------------------------------------------- the service

  /** The stored record and nonce rows of one task, updated in place. */
  class BridgeTask {
    var record: Record
    var nonces: map<Nonce, Row>
    var advanced: seq<Nonce>
    var emitted: seq<Envelope>

    ghost function View(): (t: Task)
      reads this
    {
      Task(record, nonces, advanced, emitted)
    }

    constructor (taskId: string, task: string, now: int, nonce: Nonce)
      ensures View() == Created(taskId, task, now, nonce) && Inv(View())
    {
      var created := Created(taskId, task, now, nonce);
      record, nonces, advanced, emitted := created.record, created.nonces, [], [];
    }

    /** `update_bridge_task` without a nonce to end. */
    method SaveRecord(r: Record)
      modifies this`record, this`nonces
      ensures View() == Save(old(View()), r)
    {
      if r.pendingNonce.Some? && r.pendingNonce.value !in nonces {
        nonces := nonces[r.pendingNonce.value := Row(None, false, false)];
      }
      record := r;
    }

    /** `_seal_request`: afterwards the hash is that of the record's own envelope, times included. */
    method SealRequest(r: Record, now: int) returns (sealed: Record)
      ensures sealed.packetCreatedAt == now && sealed.packetExpiresAt == now + RESPONSE_TTL_SECONDS
      ensures sealed.requestSha == Sha256(EnvelopeOf(sealed))
      ensures sealed.(packetCreatedAt := r.packetCreatedAt, packetExpiresAt := r.packetExpiresAt, requestSha := r.requestSha) == r
    {
      sealed := r.(packetCreatedAt := now);
      sealed := sealed.(packetExpiresAt := now + RESPONSE_TTL_SECONDS);
      sealed := sealed.(requestSha := Sha256(EnvelopeOf(sealed)));
    }

    method Packet(now: int, unsafe: bool, oversize: bool) returns (outcome: Outcome)
      requires Inv(View())
      modifies this
      ensures (View(), outcome) == Step(old(View()), EmitPacket(now, unsafe, oversize))
      ensures Inv(View()) && outcome != IntegrityFailure
    {
      EmitIsSound(View(), now, unsafe, oversize);
      if !MayEmit(record.status) {
        return Rejected;
      }
      if record.packetExpiresAt <= now || unsafe {
        SaveRecord(Enter(record, Hold).(pendingNonce := None));
        return Held;
      }
      var envelope := EnvelopeOf(record);
      if Sha256(envelope) != record.requestSha {
        return IntegrityFailure;
      }
      if oversize {
        SaveRecord(Enter(record, Hold).(pendingNonce := None));
        return Held;
      }
      emitted := emitted + [envelope];
      return Emitted(envelope, record.requestSha);
    }

    method Copied() returns (outcome: Outcome)
      requires Inv(View())
      modifies this
      ensures (View(), outcome) == Step(old(View()), MarkCopied) && Inv(View())
    {
      CopyIsSound(View());
      if record.activeAction == CopyArchitectRequest {
        SaveRecord(Enter(record, WaitingArchitect));
      } else if record.activeAction == CopyReviewRequest {
        SaveRecord(Enter(record, WaitingReview));
      } else {
        return Rejected;
      }
      return Done;
    }

    method PrepareReviewRequest(result: string, validation: string, unsafe: bool, now: int, nonce: Nonce)
      returns (outcome: Outcome)
      requires Inv(View()) && nonce !in nonces
      modifies this
      ensures (View(), outcome) == Step(old(View()), PrepareReview(result, validation, unsafe, now, nonce))
      ensures Inv(View())
    {
      PrepareIsSound(View(), result, validation, unsafe, now, nonce);
      if record.status != RouteReady || record.activeAction != Action.PrepareReviewRequest
         || result == "" || validation == ""
      {
        return Rejected;
      }
      if unsafe {
        SaveRecord(Enter(record, Hold).(pendingNonce := None));
        return Held;
      }
      var updated := Enter(record, ReviewReady).(phase := Review, packetType := ReviewRequest);
      updated := updated.(pendingNonce := Some(nonce));
      updated := updated.(reviewResult := Some(result), reviewValidation := Some(validation));
      ghost var open := updated;
      updated := SealRequest(updated, now);
      SealUnique(open, now, updated);
      SaveRecord(updated);
      return Done;
    }

    method RestartTask(now: int, nonce: Nonce) returns (outcome: Outcome)
      requires Inv(View()) && nonce !in nonces
      modifies this
      ensures (View(), outcome) == Step(old(View()), Restart(now, nonce)) && Inv(View())
    {
      RestartIsSound(View(), now, nonce);
      if record.activeAction != RestartCycle {
        return Rejected;
      }
      var feedback := if record.status == Redesign then record.reviewFeedback else None;
      var updated := SealRequest(ArchitectCycle(record, nonce, feedback), now);
      SealUnique(ArchitectCycle(record, nonce, feedback), now, updated);
      SaveRecord(updated);
      return Done;
    }

    method AdvanceIfEvidenceReady(ready: bool, evidence: seq<string>, now: int, nonce: Nonce)
      returns (outcome: Outcome)
      requires Inv(View()) && nonce !in nonces
      modifies this
      ensures (View(), outcome) == Step(old(View()), EvidenceCollected(ready, evidence, now, nonce))
      ensures Inv(View())
    {
      EvidenceIsSound(View(), ready, evidence, now, nonce);
      if record.status != NeedMoreEvidence {
        return Rejected;
      }
      if !ready {
        return Done;
      }
      var updated := Enter(record, ArchitectReady).(phase := Architect, packetType := ArchitectRequest);
      updated := updated.(pendingNonce := Some(nonce), collectedEvidence := evidence);
      ghost var open := updated;
      updated := SealRequest(updated, now);
      SealUnique(open, now, updated);
      SaveRecord(updated);
      return Done;
    }

    /** `claim_bridge_response` or `fail_bridge_response` on a row that is still open. */
    method ConsumeNonce(nonce: Nonce, hash: Digest<Reply>, failed: bool, r: Record)
      modifies this
      ensures View() == Consume(old(View()), nonce, hash, failed, r)
    {
      nonces := nonces[nonce := Row(Some(hash), false, failed)];
      advanced := advanced + [nonce];
      SaveRecord(r);
    }

    method ImportResponse(op: Op) returns (outcome: Outcome)
      requires Inv(View()) && op.Import? && IsFresh(View(), op)
      modifies this
      ensures (View(), outcome) == Step(old(View()), op)
      ensures Inv(View()) && outcome != StoreRefused
    {
      ImportIsSound(View(), op);
      hide Inv, FinishImport;
      var reply := op.reply;
      var hash := Sha256(reply);
      if reply.nonce in nonces && nonces[reply.nonce].consumedBy == Some(hash) {
        return Duplicate;
      }
      if record.status !in {WaitingArchitect, WaitingReview} || !Matches(record, reply) {
        return Rejected;
      }
      if record.packetExpiresAt <= op.now {
        if reply.nonce !in nonces || nonces[reply.nonce].consumedBy.Some? {
          return StoreRefused;
        }
        ConsumeNonce(reply.nonce, hash, true, Enter(record, Hold).(pendingNonce := None));
        return Held;
      }
      if !BodySupported(record.status, reply.body) || op.unsafe {
        return Rejected;
      }
      if reply.nonce !in nonces || nonces[reply.nonce].consumedBy.Some? {
        return StoreRefused;
      }
      var loaded := record;
      ConsumeNonce(reply.nonce, hash, false, Enter(record, ProcessingResponse));
      if op.crash {
        return Crashed;
      }
      outcome := Finish(loaded, reply.body, reply.nonce, hash, op);
    }

    /** `update_bridge_task` ending a claimed nonce. */
    method EndClaim(r: Record, nonce: Nonce, hash: Digest<Reply>, failed: bool, wanted: Outcome)
      returns (outcome: Outcome)
      modifies this`record, this`nonces
      ensures (View(), outcome) == EndNonce(old(View()), r, nonce, hash, failed, wanted)
    {
      if nonce !in nonces || nonces[nonce] != Row(Some(hash), false, false) {
        return StoreRefused;
      }
      nonces := nonces[nonce := Row(Some(hash), !failed, failed)];
      SaveRecord(r);
      return wanted;
    }

    method Finish(loaded: Record, body: ReplyBody, nonce: Nonce, hash: Digest<Reply>, op: Op)
      returns (outcome: Outcome)
      requires op.Import? && !body.UnsupportedBody?
      modifies this`record, this`nonces
      ensures (View(), outcome) == FinishImport(old(View()), loaded, body, nonce, hash, op)
    {
      hide Seal, EndNonce;
      match body
      case Execute(_) =>
        if op.plan.PlanFailed? {
          outcome := EndClaim(Enter(loaded, Hold).(pendingNonce := None), nonce, hash, true, Held);
        } else {
          var state := if op.plan.preview then RouteReady else Hold;
          var updated := Enter(loaded, state).(pendingNonce := None, routePlanId := Some(op.plan.id));
          outcome := EndClaim(updated, nonce, hash, false, Done);
        }
      case NeedEvidence(requested) =>
        if op.requestUnsafe {
          outcome := EndClaim(Enter(loaded, Hold).(pendingNonce := None), nonce, hash, true, Held);
        } else {
          var updated := Enter(loaded, NeedMoreEvidence).(pendingNonce := None, requestedEvidence := requested);
          outcome := EndClaim(updated, nonce, hash, false, Done);
        }
      case ReviewVerdict(feedback) =>
        if feedback.verdict == VRetry {
          var updated := SealRequest(ArchitectCycle(loaded, op.nonce, Some(feedback)), op.now);
          SealUnique(ArchitectCycle(loaded, op.nonce, Some(feedback)), op.now, updated);
          outcome := EndClaim(updated, nonce, hash, false, Done);
        } else {
          var state := match feedback.verdict
            case VSuccess => Success
            case VHold => Hold
            case VRedesign => Redesign
            case _ => Rollback;
          var updated := Enter(loaded, state).(pendingNonce := None, requestedEvidence := feedback.requested,
                                               reviewFeedback := Some(feedback));
          outcome := EndClaim(updated, nonce, hash, false, Done);
        }
    }

    method RecoverProcessing() returns (outcome: Outcome)
      requires Inv(View())
      modifies this
      ensures (View(), outcome) == Step(old(View()), Recover) && Inv(View())
    {
      RecoverIsSound(View());
      if record.status != ProcessingResponse || record.pendingNonce.None?
         || record.pendingNonce.value !in nonces
      {
        return Rejected;
      }
      var nonce := record.pendingNonce.value;
      var row := nonces[nonce];
      if row.completed || row.failed || row.consumedBy.None? {
        return Rejected;
      }
      nonces := nonces[nonce := row.(failed := true)];
      record := Enter(record, Hold).(pendingNonce := None);
      return Held;
    }
  }
}
