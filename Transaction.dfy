/** The Transaction aggregate: a transfer's lifecycle Pending -> Processing -> Completed, with
    Failed reachable from every status. It records intent and outcome only; no balance moves here. */
module Transactions {
  import opened Wrappers
  import opened Errors
  import opened Text
  import opened Numerals
  import opened ValueObjects
  import opened Entities
  import opened Enums

  datatype TransactionEvent =
    | TransactionCreated(TransactionId: Guid, Reference: string, SourceAccountId: string,
                         DestinationAccountId: Option<string>, Amount: Money)
    | TransactionProcessing(TransactionId: Guid, Reference: string)
    | TransactionCompleted(TransactionId: Guid, Reference: string, Amount: Money)
    | TransactionFailed(TransactionId: Guid, Reference: string, Reason: string)

  /** "TXN", the clock reading as yyyyMMddHHmmss, then the first eight hexadecimal digits of a
      fresh Guid, upper-cased: 25 characters. */
  function GenerateReference(now: Stamp, g: Guid): (r: string)
    requires now.Valid()
    ensures |r| == 25 && r[..3] == "TXN"
    ensures r[3..17] == now.DateTimeDigits() && AllDecimal(r[3..17])
    ensures AllUpperHex(r[17..]) && Lower(r[17..]) == GuidText(g)[..8]
  {
    var hex := GuidText(g)[..8];
    UpperOfLowerHex(hex);
    var r := "TXN" + now.DateTimeDigits() + Upper(hex);
    assert r[3..17] == now.DateTimeDigits() && r[17..] == Upper(hex);
    r
  }

  /** The three lifecycle operations. */
  datatype TransactionOp = ProcessOp | CompleteOp | FailOp

  /** The transition table the aggregate's methods implement: the status an operation moves to,
      or None when the operation is refused from that status. */
  function Next(s: TransactionStatus, op: TransactionOp): (r: Option<TransactionStatus>)
    ensures op == FailOp ==> r == Some(TransactionStatus.Failed)
    ensures r == Some(TransactionStatus.Processing) <==> op == ProcessOp && s == TransactionStatus.Pending
    ensures r == Some(TransactionStatus.Completed) <==> op == CompleteOp && s == TransactionStatus.Processing
    ensures r.None? <==> (op == ProcessOp && s != TransactionStatus.Pending) || (op == CompleteOp && s != TransactionStatus.Processing)
    ensures r != Some(TransactionStatus.Pending) && r != Some(TransactionStatus.Reversed)
  {
    match op
    case ProcessOp => if s == TransactionStatus.Pending then Some(TransactionStatus.Processing) else None
    case CompleteOp => if s == TransactionStatus.Processing then Some(TransactionStatus.Completed) else None
    case FailOp => Some(TransactionStatus.Failed)
  }

  /** The status after attempting each operation in turn; a refused one changes nothing. The
      lifecycle only moves forward: Failed is final, and Pending and Processing are never
      re-entered once left. */
  function Run(s: TransactionStatus, ops: seq<TransactionOp>): (r: TransactionStatus)
    ensures s == TransactionStatus.Failed ==> r == TransactionStatus.Failed
    ensures r == TransactionStatus.Pending ==> s == TransactionStatus.Pending
    ensures r == TransactionStatus.Processing ==> s == TransactionStatus.Pending || s == TransactionStatus.Processing
    decreases |ops|
  {
    if ops == [] then s
    else match Next(s, ops[0])
      case Some(t) => Run(t, ops[1..])
      case None => Run(s, ops[1..])
  }

  /** The start status followed by the status after every accepted operation. */
  function Visited(s: TransactionStatus, ops: seq<TransactionOp>): seq<TransactionStatus>
    decreases |ops|
  {
    if ops == [] then [s]
    else match Next(s, ops[0])
      case Some(t) => [s] + Visited(t, ops[1..])
      case None => Visited(s, ops[1..])
  }

  /** The statuses a completed transfer passes through from s onwards. */
  function PathToCompleted(s: TransactionStatus): seq<TransactionStatus>
  {
    match s
    case Pending => [TransactionStatus.Pending, TransactionStatus.Processing, TransactionStatus.Completed]
    case Processing => [TransactionStatus.Processing, TransactionStatus.Completed]
    case _ => [TransactionStatus.Completed]
  }

  /** Any run that ends Completed went exactly through Pending, Processing, Completed from where it
      started: Failed and Reversed never lead back. */
  lemma {:induction false} CompletedRuns(s: TransactionStatus, ops: seq<TransactionOp>)
    requires Run(s, ops) == TransactionStatus.Completed
    ensures s == TransactionStatus.Pending || s == TransactionStatus.Processing || s == TransactionStatus.Completed
    ensures Visited(s, ops) == PathToCompleted(s)
    decreases |ops|
  {
    if ops != [] {
      match Next(s, ops[0])
      case Some(t) => CompletedRuns(t, ops[1..]);
      case None => CompletedRuns(s, ops[1..]);
    }
  }

  /** A transfer created Pending can be Completed only along Pending -> Processing -> Completed. */
  lemma CompletedOnlyThroughProcessing(ops: seq<TransactionOp>)
    ensures Run(TransactionStatus.Pending, ops) == TransactionStatus.Completed ==>
              Visited(TransactionStatus.Pending, ops) ==
                [TransactionStatus.Pending, TransactionStatus.Processing, TransactionStatus.Completed]
  {
    if Run(TransactionStatus.Pending, ops) == TransactionStatus.Completed {
      CompletedRuns(TransactionStatus.Pending, ops);
    }
  }

  /** No run from a status other than Reversed ever reaches Reversed. */
  lemma {:induction false} NeverReversed(s: TransactionStatus, ops: seq<TransactionOp>)
    requires s != TransactionStatus.Reversed
    ensures Run(s, ops) != TransactionStatus.Reversed
    decreases |ops|
  {
    if ops != [] {
      match Next(s, ops[0])
      case Some(t) => NeverReversed(t, ops[1..]);
      case None => NeverReversed(s, ops[1..]);
    }
  }

  class Transaction {
    const entity: Entity<TransactionEvent>
    const TransactionReference: string
    const TenantId: string
    const Type: TransactionType
    const SourceAccountId: string
    const DestinationAccountId: Option<string>
    const Amount: Money
    const Description: string
    var Status: TransactionStatus
    var FailureReason: Option<string>
    var ProcessedAt: Option<Instant>
    var ProcessedBy: string

    /** What each status says about the outcome fields. */
    predicate Valid()
      reads this
    {
      && Status != TransactionStatus.Reversed
      && (Status == TransactionStatus.Pending ==> ProcessedAt == None && FailureReason == None && ProcessedBy == "")
      && (Status == TransactionStatus.Processing ==> ProcessedAt == None && FailureReason == None)
      && (Status == TransactionStatus.Completed ==> ProcessedAt.Some? && FailureReason == None)
      && (Status == TransactionStatus.Failed ==> ProcessedAt.Some? && FailureReason.Some?)
    }

    /** Transaction.CreateTransfer: a Pending Transfer holding the arguments, with one event. */
    constructor CreateTransfer(tenantId: string, sourceAccountId: string, destinationAccountId: string,
                               amount: Money, description: string, createdBy: string,
                               id: Guid, now: Instant, referenceStamp: Stamp, referenceGuid: Guid)
      requires referenceStamp.Valid()
      ensures Valid() && fresh(entity)
      ensures TransactionReference == GenerateReference(referenceStamp, referenceGuid)
      ensures TenantId == tenantId && Type == TransactionType.Transfer
      ensures SourceAccountId == sourceAccountId && DestinationAccountId == Some(destinationAccountId)
      ensures Amount == amount && Description == description
      ensures Status == TransactionStatus.Pending && FailureReason == None && ProcessedAt == None && ProcessedBy == ""
      ensures entity.Id == id && entity.CreatedAt == now && entity.CreatedBy == createdBy
      ensures entity.UpdatedAt == None && !entity.IsDeleted
      ensures entity.DomainEvents == [TransactionCreated(id, TransactionReference, sourceAccountId,
                                                         Some(destinationAccountId), amount)]
    {
      var e := new Entity<TransactionEvent>(id, now, createdBy);
      entity := e;
      TransactionReference := GenerateReference(referenceStamp, referenceGuid);
      TenantId, Type := tenantId, TransactionType.Transfer;
      SourceAccountId, DestinationAccountId := sourceAccountId, Some(destinationAccountId);
      Amount, Description := amount, description;
      Status := TransactionStatus.Pending;
      FailureReason, ProcessedAt, ProcessedBy := None, None, "";
      new;
      e.AddDomainEvent(TransactionCreated(id, TransactionReference, sourceAccountId,
                                          Some(destinationAccountId), amount));
    }

    /** Only a Pending transaction can start processing; otherwise nothing changes. */
    method Process(processedBy: string, now: Instant) returns (r: Outcome<Error>)
      requires Valid()
      modifies this`Status, this`ProcessedBy, entity`UpdatedAt, entity`UpdatedBy, entity`DomainEvents
      ensures Valid()
      ensures r.Pass? <==> old(Status) == TransactionStatus.Pending
      ensures Next(old(Status), ProcessOp) == if r.Pass? then Some(Status) else None
      ensures r.Fail? ==> r == Outcome.Fail(IllegalStateTransition) && unchanged(this, entity)
      ensures r.Pass? ==> && Status == TransactionStatus.Processing && ProcessedBy == processedBy
                          && entity.StampedBy(processedBy, now)
                          && entity.DomainEvents == old(entity.DomainEvents) + [TransactionProcessing(entity.Id, TransactionReference)]
    {
      if Status != TransactionStatus.Pending {
        return Outcome.Fail(IllegalStateTransition);
      }
      Status := TransactionStatus.Processing;
      ProcessedBy := processedBy;
      entity.UpdateTimestamp(processedBy, now);
      entity.AddDomainEvent(TransactionProcessing(entity.Id, TransactionReference));
      return Pass;
    }

    /** Only a Processing transaction can complete; it records when. Otherwise nothing changes.
        The clock is read twice, for ProcessedAt and again when stamping: `now` and `stampedAt`. */
    method Complete(completedBy: string, now: Instant, stampedAt: Instant) returns (r: Outcome<Error>)
      requires Valid()
      modifies this`Status, this`ProcessedAt, this`ProcessedBy, entity`UpdatedAt, entity`UpdatedBy, entity`DomainEvents
      ensures Valid()
      ensures r.Pass? <==> old(Status) == TransactionStatus.Processing
      ensures Next(old(Status), CompleteOp) == if r.Pass? then Some(Status) else None
      ensures r.Fail? ==> r == Outcome.Fail(IllegalStateTransition) && unchanged(this, entity)
      ensures r.Pass? ==> && Status == TransactionStatus.Completed && ProcessedAt == Some(now)
                          && ProcessedBy == completedBy && entity.StampedBy(completedBy, stampedAt)
                          && entity.DomainEvents == old(entity.DomainEvents) + [TransactionCompleted(entity.Id, TransactionReference, Amount)]
    {
      if Status != TransactionStatus.Processing {
        return Outcome.Fail(IllegalStateTransition);
      }
      Status := TransactionStatus.Completed;
      ProcessedAt := Some(now);
      ProcessedBy := completedBy;
      entity.UpdateTimestamp(completedBy, stampedAt);
      entity.AddDomainEvent(TransactionCompleted(entity.Id, TransactionReference, Amount));
      return Pass;
    }

    /** Fails the transaction from any status, a Completed one included, recording the reason.
        The clock is read twice, for ProcessedAt and again when stamping: `now` and `stampedAt`. */
    method Fail(reason: string, failedBy: string, now: Instant, stampedAt: Instant)
      requires Valid()
      modifies this`Status, this`FailureReason, this`ProcessedAt, this`ProcessedBy,
               entity`UpdatedAt, entity`UpdatedBy, entity`DomainEvents
      ensures Valid()
      ensures Next(old(Status), FailOp) == Some(Status)
      ensures Status == TransactionStatus.Failed && FailureReason == Some(reason)
      ensures ProcessedAt == Some(now) && ProcessedBy == failedBy && entity.StampedBy(failedBy, stampedAt)
      ensures entity.DomainEvents == old(entity.DomainEvents) + [TransactionFailed(entity.Id, TransactionReference, reason)]
    {
      Status := TransactionStatus.Failed;
      FailureReason := Some(reason);
      ProcessedAt := Some(now);
      ProcessedBy := failedBy;
      entity.UpdateTimestamp(failedBy, stampedAt);
      entity.AddDomainEvent(TransactionFailed(entity.Id, TransactionReference, reason));
    }
  }
}
