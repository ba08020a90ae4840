/** The ComplianceCheck aggregate: a KYC, AML or similar check on a customer or account, with a
    risk score held between 0 and 100. */
module Compliance {
  import opened Wrappers
  import opened Errors
  import opened Entities
  import opened Enums

  datatype ComplianceEvent =
    | ComplianceCheckCreated(CheckId: Guid, EntityId: string, Type: ComplianceCheckType)
    | ComplianceCheckApproved(CheckId: Guid, EntityId: string, Type: ComplianceCheckType)
    | ComplianceCheckRejected(CheckId: Guid, EntityId: string, Type: ComplianceCheckType, Reason: string)

  const MinRiskScore: int := 0
  const MaxRiskScore: int := 100

  class ComplianceCheck {
    const entity: Entity<ComplianceEvent>
    const TenantId: string
    const EntityId: string
    const EntityType: string
    const CheckType: ComplianceCheckType
    var Status: ComplianceStatus
    var RiskScore: int
    var Notes: Option<string>
    var ReviewedBy: Option<string>
    var ReviewedAt: Option<Instant>

    /** The score stays within 0..100; a check is only ever Pending, Approved or Rejected, and it
        carries a reviewer and a review time exactly when it has been decided. */
    predicate Valid()
      reads this
    {
      && MinRiskScore <= RiskScore <= MaxRiskScore
      && (Status == ComplianceStatus.Pending || Status == ComplianceStatus.Approved || Status == ComplianceStatus.Rejected)
      && (Status == ComplianceStatus.Pending <==> ReviewedBy.None?)
      && (ReviewedBy.None? <==> ReviewedAt.None?)
      && (Status == ComplianceStatus.Rejected ==> Notes.Some?)
    }

    /** ComplianceCheck.Create: Pending with a score of 0 and no review, one event. */
    constructor Create(tenantId: string, entityId: string, entityType: string, checkType: ComplianceCheckType,
                       createdBy: string, id: Guid, now: Instant)
      ensures Valid() && fresh(entity)
      ensures TenantId == tenantId && EntityId == entityId && EntityType == entityType && CheckType == checkType
      ensures Status == ComplianceStatus.Pending && RiskScore == 0
      ensures Notes == None && ReviewedBy == None && ReviewedAt == None
      ensures entity.Id == id && entity.CreatedAt == now && entity.CreatedBy == createdBy
      ensures entity.UpdatedAt == None && !entity.IsDeleted
      ensures entity.DomainEvents == [ComplianceCheckCreated(id, entityId, checkType)]
    {
      var e := new Entity<ComplianceEvent>(id, now, createdBy);
      entity := e;
      TenantId, EntityId, EntityType, CheckType := tenantId, entityId, entityType, checkType;
      Status, RiskScore := ComplianceStatus.Pending, 0;
      Notes, ReviewedBy, ReviewedAt := None, None, None;
      new;
      e.AddDomainEvent(ComplianceCheckCreated(id, entityId, checkType));
    }

    /** Approves the check from any status, a Rejected one included, recording the reviewer, the
        time and the notes (none when omitted), which replace any earlier ones. The clock is read
        twice, for ReviewedAt and again when stamping: `now` and `stampedAt`. */
    method Approve(approvedBy: string, notes: Option<string>, now: Instant, stampedAt: Instant)
      requires Valid()
      modifies this`Status, this`ReviewedBy, this`ReviewedAt, this`Notes,
               entity`UpdatedAt, entity`UpdatedBy, entity`DomainEvents
      ensures Valid()
      ensures Status == ComplianceStatus.Approved && ReviewedBy == Some(approvedBy) && ReviewedAt == Some(now)
      ensures Notes == notes && RiskScore == old(RiskScore) && entity.StampedBy(approvedBy, stampedAt)
      ensures entity.DomainEvents == old(entity.DomainEvents) + [ComplianceCheckApproved(entity.Id, EntityId, CheckType)]
    {
      Status := ComplianceStatus.Approved;
      ReviewedBy := Some(approvedBy);
      ReviewedAt := Some(now);
      Notes := notes;
      entity.UpdateTimestamp(approvedBy, stampedAt);
      entity.AddDomainEvent(ComplianceCheckApproved(entity.Id, EntityId, CheckType));
    }

    /** Rejects the check from any status, an Approved one included; the reason becomes the
        notes and travels with the event. The clock is read twice, for ReviewedAt and again when
        stamping: `now` and `stampedAt`. */
    method Reject(rejectedBy: string, reason: string, now: Instant, stampedAt: Instant)
      requires Valid()
      modifies this`Status, this`ReviewedBy, this`ReviewedAt, this`Notes,
               entity`UpdatedAt, entity`UpdatedBy, entity`DomainEvents
      ensures Valid()
      ensures Status == ComplianceStatus.Rejected && ReviewedBy == Some(rejectedBy) && ReviewedAt == Some(now)
      ensures Notes == Some(reason) && RiskScore == old(RiskScore) && entity.StampedBy(rejectedBy, stampedAt)
      ensures entity.DomainEvents == old(entity.DomainEvents) + [ComplianceCheckRejected(entity.Id, EntityId, CheckType, reason)]
    {
      Status := ComplianceStatus.Rejected;
      ReviewedBy := Some(rejectedBy);
      ReviewedAt := Some(now);
      Notes := Some(reason);
      entity.UpdateTimestamp(rejectedBy, stampedAt);
      entity.AddDomainEvent(ComplianceCheckRejected(entity.Id, EntityId, CheckType, reason));
    }

    /** Refuses a score outside 0..100 with nothing changed; otherwise sets it and stamps the
        actor, raising no event. */
    method UpdateRiskScore(score: int, updatedBy: string, now: Instant) returns (r: Outcome<Error>)
      requires Valid()
      modifies this`RiskScore, entity`UpdatedAt, entity`UpdatedBy
      ensures Valid()
      ensures r.Pass? <==> MinRiskScore <= score <= MaxRiskScore
      ensures r.Fail? ==> r == Fail(InvalidArgument) && unchanged(this, entity)
      ensures r.Pass? ==> RiskScore == score && entity.StampedBy(updatedBy, now)
    {
      if score < MinRiskScore || score > MaxRiskScore {
        return Fail(InvalidArgument);
      }
      RiskScore := score;
      entity.UpdateTimestamp(updatedBy, now);
      return Pass;
    }
  }
}
