/** The User aggregate: a tenant's login with a failed-attempt counter that locks the account. */
module Users {
  import opened Wrappers
  import opened Text
  import opened Entities

  datatype UserStatus = Active | Locked | Deactivated

  datatype UserEvent =
    | UserCreated(UserId: Guid, Email: string, TenantId: Guid)
    | UserPasswordChanged(UserId: Guid, Email: string)
    | UserDeactivated(UserId: Guid, Email: string)

  /** The failure count at which a login locks. */
  const LockoutThreshold: nat := 5

  /** How long a lock lasts: thirty minutes, in seconds. */
  const LockoutSeconds: int := 30 * 60

  class User {
    const entity: Entity<UserEvent>
    const TenantId: Guid
    const Email: string
    var PasswordHash: string
    const FirstName: string
    const LastName: string
    const Phone: string
    var Roles: seq<string>
    var Status: UserStatus
    var LastLoginAt: Option<Instant>
    var FailedLoginAttempts: nat
    var LockedUntil: Option<Instant>

    /** The email is lower-case; a lock time is only ever set by a failure at or above the
        threshold, and a user at or above it is not Active. */
    predicate Valid()
      reads this
    {
      && IsLowerCase(Email)
      && (LockedUntil.Some? ==> FailedLoginAttempts >= LockoutThreshold)
      && (FailedLoginAttempts >= LockoutThreshold ==> Status != UserStatus.Active)
    }

    /** User.Create: Active, the email lower-cased, no failures; the event carries the email as
        given, not lower-cased. `passwordHash` is the BCrypt hash of the password. */
    constructor Create(tenantId: Guid, email: string, passwordHash: string, firstName: string,
                       lastName: string, phone: string, roles: seq<string>, createdBy: string,
                       id: Guid, now: Instant)
      ensures Valid() && fresh(entity)
      ensures TenantId == tenantId && Email == Lower(email) && PasswordHash == passwordHash
      ensures FirstName == firstName && LastName == lastName && Phone == phone && Roles == roles
      ensures Status == UserStatus.Active && FailedLoginAttempts == 0
      ensures LastLoginAt == None && LockedUntil == None
      ensures entity.Id == id && entity.CreatedAt == now && entity.CreatedBy == createdBy
      ensures entity.UpdatedAt == None && !entity.IsDeleted
      ensures entity.DomainEvents == [UserCreated(id, email, tenantId)]
    {
      var e := new Entity<UserEvent>(id, now, createdBy);
      entity := e;
      TenantId, Email, PasswordHash := tenantId, Lower(email), passwordHash;
      FirstName, LastName, Phone, Roles := firstName, lastName, phone, roles;
      Status, FailedLoginAttempts := UserStatus.Active, 0;
      LastLoginAt, LockedUntil := None, None;
      new;
      e.AddDomainEvent(UserCreated(id, email, tenantId));
    }

    /** Records the login time, clears the counter and the lock time; the status is kept, so a
        Locked user stays Locked. Neither stamped nor announced. */
    method RecordSuccessfulLogin(now: Instant)
      requires Valid()
      modifies this`LastLoginAt, this`FailedLoginAttempts, this`LockedUntil
      ensures Valid()
      ensures LastLoginAt == Some(now) && FailedLoginAttempts == 0 && LockedUntil == None
    {
      LastLoginAt := Some(now);
      FailedLoginAttempts := 0;
      LockedUntil := None;
    }

    /** Counts one more failure; at the threshold or above, locks the user, whatever the
        status, until thirty minutes from now. Neither stamped nor announced. */
    method RecordFailedLogin(now: Instant)
      requires Valid()
      modifies this`FailedLoginAttempts, this`Status, this`LockedUntil
      ensures Valid()
      ensures FailedLoginAttempts == old(FailedLoginAttempts) + 1
      ensures FailedLoginAttempts >= LockoutThreshold ==>
                Status == UserStatus.Locked && LockedUntil == Some(now + LockoutSeconds)
      ensures FailedLoginAttempts < LockoutThreshold ==>
                Status == old(Status) && LockedUntil == old(LockedUntil)
    {
      FailedLoginAttempts := FailedLoginAttempts + 1;
      if FailedLoginAttempts >= LockoutThreshold {
        Status := UserStatus.Locked;
        LockedUntil := Some(now + LockoutSeconds);
      }
    }

    /** Replaces the hash (the BCrypt hash of the new password) and announces the change. */
    method ChangePassword(newPasswordHash: string, changedBy: string, now: Instant)
      requires Valid()
      modifies this`PasswordHash, entity`UpdatedAt, entity`UpdatedBy, entity`DomainEvents
      ensures Valid()
      ensures PasswordHash == newPasswordHash && entity.StampedBy(changedBy, now)
      ensures entity.DomainEvents == old(entity.DomainEvents) + [UserPasswordChanged(entity.Id, Email)]
    {
      PasswordHash := newPasswordHash;
      entity.UpdateTimestamp(changedBy, now);
      entity.AddDomainEvent(UserPasswordChanged(entity.Id, Email));
    }

    /** Replaces the roles wholesale; stamps the actor but raises no event. */
    method UpdateRoles(newRoles: seq<string>, updatedBy: string, now: Instant)
      requires Valid()
      modifies this`Roles, entity`UpdatedAt, entity`UpdatedBy
      ensures Valid()
      ensures Roles == newRoles && entity.StampedBy(updatedBy, now)
    {
      Roles := newRoles;
      entity.UpdateTimestamp(updatedBy, now);
    }

    /** Deactivates the user from any status. */
    method Deactivate(deactivatedBy: string, now: Instant)
      requires Valid()
      modifies this`Status, entity`UpdatedAt, entity`UpdatedBy, entity`DomainEvents
      ensures Valid()
      ensures Status == UserStatus.Deactivated && entity.StampedBy(deactivatedBy, now)
      ensures entity.DomainEvents == old(entity.DomainEvents) + [UserDeactivated(entity.Id, Email)]
    {
      Status := UserStatus.Deactivated;
      entity.UpdateTimestamp(deactivatedBy, now);
      entity.AddDomainEvent(UserDeactivated(entity.Id, Email));
    }
  }

  /** From a clean counter, four failures in a row leave an Active user Active and the fifth
      locks it for thirty minutes; a successful login then clears the counter and the lock time
      but leaves the user Locked. */
  method FifthFailureLocks(user: User, now: Instant, later: Instant)
    returns (afterFour: UserStatus, lockAfterFive: Option<Instant>)
    requires user.Valid() && user.Status == UserStatus.Active && user.FailedLoginAttempts == 0
    modifies user`FailedLoginAttempts, user`Status, user`LockedUntil, user`LastLoginAt
    ensures afterFour == UserStatus.Active && lockAfterFive == Some(now + LockoutSeconds)
    ensures user.Valid() && user.Status == UserStatus.Locked
    ensures user.FailedLoginAttempts == 0 && user.LockedUntil == None && user.LastLoginAt == Some(later)
  {
    user.RecordFailedLogin(now);
    user.RecordFailedLogin(now);
    user.RecordFailedLogin(now);
    user.RecordFailedLogin(now);
    afterFour := user.Status;
    user.RecordFailedLogin(now);
    lockAfterFive := user.LockedUntil;
    user.RecordSuccessfulLogin(later);
  }
}
