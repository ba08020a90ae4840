/** The Tenant aggregate: a bank hosted on the platform, Pending until activated. */
module Tenants {
  import opened Wrappers
  import opened Errors
  import opened Text
  import opened Entities

  datatype TenantStatus = Pending | Active | Suspended | Deactivated

  datatype TenantEvent =
    | TenantCreated(TenantId: Guid, TenantCode: string, Name: string)
    | TenantActivated(TenantId: Guid, TenantCode: string)
    | TenantSuspended(TenantId: Guid, TenantCode: string, Reason: string)

  class Tenant {
    const entity: Entity<TenantEvent>
    const TenantCode: string
    const Name: string
    const LegalName: string
    const RegistrationNumber: string
    const Country: string
    const PrimaryContact: string
    var Email: string
    var Phone: string
    var Status: TenantStatus
    var ActivatedAt: Option<Instant>
    var Settings: map<string, string>

    /** The code is upper-case and the email lower-case; a tenant has an activation time exactly
        when it has left Pending; and no operation deactivates a tenant. */
    predicate Valid()
      reads this
    {
      && IsUpperCase(TenantCode) && IsLowerCase(Email)
      && Status != TenantStatus.Deactivated
      && (Status == TenantStatus.Pending <==> ActivatedAt.None?)
    }

    /** Tenant.Create: Pending, the code upper-cased, the email lower-cased, no settings, one event. */
    constructor Create(tenantCode: string, name: string, legalName: string, registrationNumber: string,
                       country: string, primaryContact: string, email: string, phone: string,
                       createdBy: string, id: Guid, now: Instant)
      ensures Valid() && fresh(entity)
      ensures TenantCode == Upper(tenantCode) && Email == Lower(email)
      ensures Name == name && LegalName == legalName && RegistrationNumber == registrationNumber
      ensures Country == country && PrimaryContact == primaryContact && Phone == phone
      ensures Status == TenantStatus.Pending && ActivatedAt == None && Settings == map[]
      ensures entity.Id == id && entity.CreatedAt == now && entity.CreatedBy == createdBy
      ensures entity.UpdatedAt == None && !entity.IsDeleted
      ensures entity.DomainEvents == [TenantCreated(id, TenantCode, name)]
    {
      var e := new Entity<TenantEvent>(id, now, createdBy);
      entity := e;
      TenantCode, Email := Upper(tenantCode), Lower(email);
      Name, LegalName, RegistrationNumber := name, legalName, registrationNumber;
      Country, PrimaryContact, Phone := country, primaryContact, phone;
      Status, ActivatedAt, Settings := TenantStatus.Pending, None, map[];
      new;
      e.AddDomainEvent(TenantCreated(id, TenantCode, name));
    }

    /** Only a Pending tenant can be activated, which records when; otherwise nothing changes.
        The clock is read twice, for ActivatedAt and again when stamping: `now` and `stampedAt`. */
    method Activate(activatedBy: string, now: Instant, stampedAt: Instant) returns (r: Outcome<Error>)
      requires Valid()
      modifies this`Status, this`ActivatedAt, entity`UpdatedAt, entity`UpdatedBy, entity`DomainEvents
      ensures Valid()
      ensures r.Pass? <==> old(Status) == TenantStatus.Pending
      ensures r.Fail? ==> r == Fail(IllegalStateTransition) && unchanged(this, entity)
      ensures r.Pass? ==> && Status == TenantStatus.Active && ActivatedAt == Some(now)
                          && entity.StampedBy(activatedBy, stampedAt)
                          && entity.DomainEvents == old(entity.DomainEvents) + [TenantActivated(entity.Id, TenantCode)]
    {
      if Status != TenantStatus.Pending {
        return Fail(IllegalStateTransition);
      }
      Status := TenantStatus.Active;
      ActivatedAt := Some(now);
      entity.UpdateTimestamp(activatedBy, stampedAt);
      entity.AddDomainEvent(TenantActivated(entity.Id, TenantCode));
      return Pass;
    }

    /** Only an Active tenant can be suspended; otherwise nothing changes. */
    method Suspend(reason: string, suspendedBy: string, now: Instant) returns (r: Outcome<Error>)
      requires Valid()
      modifies this`Status, entity`UpdatedAt, entity`UpdatedBy, entity`DomainEvents
      ensures Valid()
      ensures r.Pass? <==> old(Status) == TenantStatus.Active
      ensures r.Fail? ==> r == Fail(IllegalStateTransition) && unchanged(this, entity)
      ensures r.Pass? ==> && Status == TenantStatus.Suspended && entity.StampedBy(suspendedBy, now)
                          && entity.DomainEvents == old(entity.DomainEvents) + [TenantSuspended(entity.Id, TenantCode, reason)]
    {
      if Status != TenantStatus.Active {
        return Fail(IllegalStateTransition);
      }
      Status := TenantStatus.Suspended;
      entity.UpdateTimestamp(suspendedBy, now);
      entity.AddDomainEvent(TenantSuspended(entity.Id, TenantCode, reason));
      return Pass;
    }

    /** Replaces the settings wholesale; stamps the actor but raises no event. */
    method UpdateSettings(newSettings: map<string, string>, updatedBy: string, now: Instant)
      requires Valid()
      modifies this`Settings, entity`UpdatedAt, entity`UpdatedBy
      ensures Valid()
      ensures Settings == newSettings && entity.StampedBy(updatedBy, now)
    {
      Settings := newSettings;
      entity.UpdateTimestamp(updatedBy, now);
    }

    /** Stores the email lower-cased and the phone as given; raises no event. */
    method UpdateContactInfo(email: string, phone: string, updatedBy: string, now: Instant)
      requires Valid()
      modifies this`Email, this`Phone, entity`UpdatedAt, entity`UpdatedBy
      ensures Valid()
      ensures Email == Lower(email) && Phone == phone && entity.StampedBy(updatedBy, now)
    {
      Email := Lower(email);
      Phone := phone;
      entity.UpdateTimestamp(updatedBy, now);
    }
  }

  /** Activation is one-way: once a tenant has been activated, neither activating again nor
      suspending (twice) returns it to Pending, and its activation time is kept. */
  method ActivateThenSuspend(tenant: Tenant, actor: string, now: Instant, later: Instant)
    requires tenant.Valid() && tenant.Status == TenantStatus.Pending
    modifies tenant`Status, tenant`ActivatedAt, tenant.entity`UpdatedAt, tenant.entity`UpdatedBy, tenant.entity`DomainEvents
    ensures tenant.Valid() && tenant.Status == TenantStatus.Suspended && tenant.ActivatedAt == Some(now)
    ensures |tenant.entity.DomainEvents| == |old(tenant.entity.DomainEvents)| + 2
  {
    var a := tenant.Activate(actor, now, now);
    var again := tenant.Activate(actor, later, later);
    assert again.Fail?;
    var s := tenant.Suspend("review", actor, later);
    var twice := tenant.Suspend("review", actor, later);
    assert s.Pass? && twice.Fail?;
  }
}
