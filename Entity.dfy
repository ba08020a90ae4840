/** The identity, audit and soft-delete fields every aggregate carries, with the aggregate's
    buffer of pending domain events. */
module Entities {
  import opened Wrappers
  import opened Numerals

  /** A reading of the UTC clock, in seconds. */
  type Instant = int

  const GuidBound: nat := 0x1_0000_0000_0000_0000_0000_0000_0000_0000

  /** A 128-bit globally unique identifier. */
  type Guid = g: nat | g < GuidBound

  /** Guid.ToString("N"): the 32 lower-case hexadecimal digits of the identifier. */
  function GuidText(g: Guid): (r: string)
    ensures |r| == 32 && AllLowerHex(r)
  {
    PadDigits(g, 32, 16)
  }

  /** The calendar reading of the UTC clock that the identifier generators format. */
  datatype Stamp = Stamp(year: int, month: int, day: int, hour: int, minute: int, second: int) {

    predicate Valid()
    {
      && 1 <= year <= 9999 && 1 <= month <= 12 && 1 <= day <= 31
      && 0 <= hour < 24 && 0 <= minute < 60 && 0 <= second < 60
    }

    /** The "yyyyMMdd" format: eight digits from which the date can be read back. */
    function DateDigits(): (r: string)
      requires Valid()
      ensures |r| == 8 && AllDecimal(r)
      ensures ValueOf(r[..4], 10) == year && ValueOf(r[4..6], 10) == month && ValueOf(r[6..], 10) == day
    {
      var y, m, d := PadDigits(year, 4, 10), PadDigits(month, 2, 10), PadDigits(day, 2, 10);
      DecimalPowers();
      PadDigitsRoundTrip(year, 4, 10);
      PadDigitsRoundTrip(month, 2, 10);
      PadDigitsRoundTrip(day, 2, 10);
      Pieces(y, m, d);
      y + m + d
    }

    /** The "HHmmss" format: six digits from which the time of day can be read back. */
    function TimeDigits(): (r: string)
      requires Valid()
      ensures |r| == 6 && AllDecimal(r)
      ensures ValueOf(r[..2], 10) == hour && ValueOf(r[2..4], 10) == minute && ValueOf(r[4..], 10) == second
    {
      var h, m, s := PadDigits(hour, 2, 10), PadDigits(minute, 2, 10), PadDigits(second, 2, 10);
      DecimalPowers();
      PadDigitsRoundTrip(hour, 2, 10);
      PadDigitsRoundTrip(minute, 2, 10);
      PadDigitsRoundTrip(second, 2, 10);
      Pieces(h, m, s);
      h + m + s
    }

    /** The "yyyyMMddHHmmss" format: the date digits followed by the time digits. */
    function DateTimeDigits(): (r: string)
      requires Valid()
      ensures |r| == 14 && AllDecimal(r) && r[..8] == DateDigits() && r[8..] == TimeDigits()
    {
      Halves(DateDigits(), TimeDigits());
      DateDigits() + TimeDigits()
    }
  }

  /** Entity together with its AggregateRoot event buffer. The identity and creation fields are
      constants: nothing reassigns them after construction. */
  class Entity<E> {
    const Id: Guid
    const CreatedAt: Instant
    const CreatedBy: string
    var UpdatedAt: Option<Instant>
    var UpdatedBy: Option<string>
    var IsDeleted: bool
    var DomainEvents: seq<E>

    /** A new entity: the given fresh id and clock reading, not deleted, no events. */
    constructor (id: Guid, now: Instant, createdBy: string)
      ensures Id == id && CreatedAt == now && CreatedBy == createdBy
      ensures UpdatedAt == None && UpdatedBy == None
      ensures !IsDeleted && DomainEvents == []
    {
      Id, CreatedAt, CreatedBy := id, now, createdBy;
      UpdatedAt, UpdatedBy := None, None;
      IsDeleted := false;
      DomainEvents := [];
    }

    /** The audit fields record this actor and time. */
    predicate StampedBy(actor: string, now: Instant)
      reads this
    {
      UpdatedAt == Some(now) && UpdatedBy == Some(actor)
    }

    /** Soft delete: sets the flag (again, if it was set) and stamps the actor. */
    method MarkAsDeleted(deletedBy: string, now: Instant)
      modifies this`IsDeleted, this`UpdatedAt, this`UpdatedBy
      ensures IsDeleted && StampedBy(deletedBy, now)
    {
      IsDeleted := true;
      UpdatedAt := Some(now);
      UpdatedBy := Some(deletedBy);
    }

    /** Stamps the actor and time; nothing else changes. */
    method UpdateTimestamp(updatedBy: string, now: Instant)
      modifies this`UpdatedAt, this`UpdatedBy
      ensures StampedBy(updatedBy, now)
    {
      UpdatedAt := Some(now);
      UpdatedBy := Some(updatedBy);
    }

    /** Appends one event to the pending buffer; nothing else changes. */
    method AddDomainEvent(event: E)
      modifies this`DomainEvents
      ensures DomainEvents == old(DomainEvents) + [event]
    {
      DomainEvents := DomainEvents + [event];
    }
  }
}
