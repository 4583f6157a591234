/**
 * The records the slot/bid engine keeps in its database (events, vibe slots,
 * bids, user wallets and wallet transactions), held here as in-memory tables
 * of one object that the services read and update in place.
 */
module Store {
  import opened Wrappers

  type EventId = nat
  /** A slot is identified by its position in `Db.slots`. */
  type SlotId = nat
  /** A bid is identified by its position in `Db.bids`. */
  type BidId = nat
  type WalletId = nat

  /** Slots per hour: a divisor of 60, so that every slot lasts a whole number of minutes. */
  type VibesPerHour = v: int | 0 < v <= 60 && 60 % v == 0 witness 1

  datatype Event = Event(id: EventId, startTime: Option<int>, durationHours: int, vibesPerHour: VibesPerHour)

  /** `60 / vibesPerHour` minutes, in milliseconds. */
  function SlotDurationMs(vibesPerHour: VibesPerHour): (ms: nat)
    ensures ms >= 60000 && ms * vibesPerHour == 3600000
  {
    (60 / vibesPerHour) * 60 * 1000
  }

  /** `durationHours * vibesPerHour`, the number of iterations of a loop `for (i = 0; i < total; i++)`. */
  function SlotCount(durationHours: int, vibesPerHour: VibesPerHour): nat
  {
    if durationHours * vibesPerHour > 0 then durationHours * vibesPerHour else 0
  }

  datatype SlotStatus = Available | Bidding | Locked | Completed

  datatype Slot = Slot(
    eventId: EventId,
    slotNumber: int,
    scheduledTime: int,
    status: SlotStatus,
    currentWinnerBidId: Option<BidId>)

  datatype BidStatus = Pending | Approved | Rejected | Played

  datatype PaymentStatus = Paid | Refunded

  datatype Bid = Bid(
    vibeSlotId: Option<SlotId>,
    walletId: Option<WalletId>,
    songTitle: string,
    bidAmount: int,
    submittedAt: int,
    status: BidStatus,
    paymentStatus: PaymentStatus,
    playedAt: Option<int>)

  /** A bid still waiting for the slot's outcome; only these occupy slot capacity. */
  predicate Unresolved(b: Bid) {
    b.status == Pending || b.status == Approved
  }

  datatype Wallet = Wallet(userId: string, balance: int)

  datatype TransactionType = Credit | Debit | Refund

  datatype WalletTransaction = WalletTransaction(
    walletId: WalletId,
    amount: int,
    txType: TransactionType,
    description: string,
    referenceId: Option<BidId>)

  /** The database. */
  class Db {
    var events: map<EventId, Event>
    var slots: seq<Slot>
    var bids: seq<Bid>
    var wallets: map<WalletId, Wallet>
    var transactions: seq<WalletTransaction>

    constructor (events: map<EventId, Event>, slots: seq<Slot>, bids: seq<Bid>,
                 wallets: map<WalletId, Wallet>, transactions: seq<WalletTransaction>)
      ensures this.events == events && this.slots == slots && this.bids == bids
      ensures this.wallets == wallets && this.transactions == transactions
    {
      this.events := events;
      this.slots := slots;
      this.bids := bids;
      this.wallets := wallets;
      this.transactions := transactions;
    }
  }
}
