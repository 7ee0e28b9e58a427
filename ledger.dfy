/**
 * The shared shape of charity projects and donations: a target amount, a
 * running invested amount, a closed flag and the two timestamps.  Projects
 * and donations are handled interchangeably by the allocation routine, so a
 * single class stands for both.
 */
module Ledger {
  import opened Wrappers

  /** An opaque point in time; only equality and order are used. */
  type Timestamp = int

  /**
   * The money-related columns of a project or donation, as a value: the
   * amount it asks for or gives, how much of it is already invested, whether
   * it is closed and when it was closed.  `investedAmount` is `None` until
   * the storage layer has applied its column default 0.
   */
  datatype Funding = Funding(fullAmount: int, investedAmount: Option<int>,
                             fullyInvested: bool, closeDate: Option<Timestamp>)
  {
    /** The invested amount, reading an unset amount as 0. */
    function Invested(): int
    {
      match investedAmount
      case Some(amount) => amount
      case None => 0
    }

    /** How much more this entity can take (a project) or give (a donation). */
    function Room(): int
    {
      fullAmount - Invested()
    }

    /**
     * The ledger invariant: the invested amount lies between 0 and the full
     * amount, the entity is closed exactly when it is full, and it has a close
     * date exactly when it is closed.
     */
    predicate Valid()
    {
      && 0 <= Invested() <= fullAmount
      && fullyInvested == (Invested() == fullAmount)
      && closeDate.Some? == fullyInvested
    }
  }

  /**
   * One pass of the inner loop of the allocation on one entity: add
   * `toInvest` to the invested amount and, if that makes the entity full,
   * close it at `now`.  Closing an entity that is already closed sets its
   * close date again.  Adding to an unset amount raises in the source, hence
   * the precondition.
   */
  function Credit(f: Funding, toInvest: int, now: Timestamp): Funding
    requires f.investedAmount.Some?
  {
    var invested := f.investedAmount.value + toInvest;
    if f.fullAmount == invested then
      Funding(f.fullAmount, Some(invested), true, Some(now))
    else
      f.(investedAmount := Some(invested))
  }

  /**
   * Crediting at most the entity's room keeps the ledger invariant, never
   * lowers the invested amount, never reopens a closed entity, and closes
   * the entity exactly when it becomes full.
   */
  lemma CreditKeepsValid(f: Funding, toInvest: int, now: Timestamp)
    requires f.Valid() && f.investedAmount.Some?
    requires 0 <= toInvest <= f.Room()
    ensures var g := Credit(f, toInvest, now);
      && g.Valid()
      && g.fullAmount == f.fullAmount
      && f.Invested() <= g.Invested() == f.Invested() + toInvest
      && (f.fullyInvested ==> g.fullyInvested)
      && (g.fullyInvested <==> toInvest == f.Room())
  {
  }

  /**
   * A full entity credited 0, as happens to a target that later sources
   * meet after it filled up, is closed again: only its close date moves,
   * to `now`.
   */
  lemma FullEntityIsClosedAgain(f: Funding, now: Timestamp)
    requires f.Valid() && f.investedAmount.Some? && f.fullyInvested
    ensures Credit(f, 0, now) == f.(closeDate := Some(now))
  {
  }

  class Entity {
    const id: int
    const createDate: Timestamp
    /** The donor of a donation; projects carry no user. */
    const userId: Option<int>
    var fullAmount: int
    var investedAmount: Option<int>
    var fullyInvested: bool
    var closeDate: Option<Timestamp>

    /** A row as it stands in the store. */
    constructor (id: int, createDate: Timestamp, userId: Option<int>, funding: Funding)
      ensures this.id == id && this.createDate == createDate && this.userId == userId
      ensures State() == funding
    {
      this.id := id;
      this.createDate := createDate;
      this.userId := userId;
      this.fullAmount := funding.fullAmount;
      this.investedAmount := funding.investedAmount;
      this.fullyInvested := funding.fullyInvested;
      this.closeDate := funding.closeDate;
    }

    /** The money-related columns of this entity as a value. */
    function State(): Funding
      reads this
    {
      Funding(fullAmount, investedAmount, fullyInvested, closeDate)
    }

    /** The body of the inner loop of the allocation, applied to this entity. */
    method Invest(toInvest: int, now: Timestamp)
      requires investedAmount.Some?
      modifies `investedAmount, `fullyInvested, `closeDate
      ensures State() == Credit(old(State()), toInvest, now)
    {
      investedAmount := Some(investedAmount.value + toInvest);
      if fullAmount == investedAmount.value {
        closeDate := Some(now);
        fullyInvested := true;
      }
    }
  }
}
