/**
  The marketplace events and `processEvent`: the reduction of an event to row writes
  of the Listing, Auction and Offer tables.
*/
module Marketplace {
  import opened Wrappers
  import opened Rows

  // ---------------------------------------------------------------- events

  /**
    Event payloads that reduce to rows of the three tables.  `OtherQueried` stands for the types a
    rebuild queries although they write no such row, `Unprojected` for every other type.
  */
  datatype Body =
    | ListingCreated(artist: string, price: string, currency: string, collection: string,
                     nftTokenId: int, token: string)
    | ListingUpdated(newPrice: string, collection: string, nftTokenId: int)
    | ListingPriceUpdated(newPrice: string)
    | ListingExpired
    | ArtworkSold(buyer: string)
    | ListingCancelled
    | OwnershipReconciled(newOwner: string)
    | AuctionCreated(creator: string, reservePrice: string, token: string, endTime: int,
                     collection: string, nftTokenId: int)
    | BidPlaced(bidder: string, amount: string)
    | AuctionResolved(winner: string, amount: string)
    | AuctionCancelled
    | AuctionExtended(newEndTime: int, extensionCount: int)
    | AuctionReserveUpdated(newReserve: string)
    | OfferMade(offerId: nat, listing: nat, offerer: string, amount: string, token: string,
                expiresAt: Option<int>)
    | OfferAccepted(offerId: nat, listing: nat, offerer: string)
    | OfferRejected(offerId: nat)
    | OfferWithdrawn(offerId: nat)
    | OfferReclaimed(offerId: nat)
    | OtherQueried
    | Unprojected

  /** A decoded event; `subject` is its listing or auction id, `txHash` is empty when unknown. */
  datatype Event = Event(ledger: int, subject: Option<nat>, txHash: string, body: Body)

  /** `x || null` */
  function OrNull(s: string): Value { if s == "" then Null else Text(s) }

  function OptNumber(n: Option<int>): Value { if n.None? then Null else Number(n.value) }

  // ------------------------------------------------- columns of the upserts

  function ListingUpdate(b: Body): Fields
    requires b.ListingCreated?
  {
    map[Artist := Text(b.artist), Price := Text(b.price), Collection := Text(b.collection),
        NftTokenId := Number(b.nftTokenId), Status := Text("Active"), Recipients := Text("[]")]
  }

  function ListingCreate(b: Body, ledger: int): Fields
    requires b.ListingCreated?
  {
    ListingUpdate(b) + map[Owner := Null, Currency := Text(b.currency), Token := Text(b.token),
                           CreatedAtLedger := Number(ledger)]
  }

  function AuctionUpdate(b: Body): Fields
    requires b.AuctionCreated?
  {
    map[Creator := Text(b.creator), Collection := Text(b.collection), NftTokenId := Number(b.nftTokenId),
        Token := Text(b.token), ReservePrice := Text(b.reservePrice), EndTime := Number(b.endTime),
        Status := Text("Active"), Recipients := Text("[]"), MaxExtensions := Number(0)]
  }

  function AuctionCreate(b: Body, ledger: int): Fields
    requires b.AuctionCreated?
  {
    AuctionUpdate(b) + map[HighestBid := Text("0"), HighestBidder := Null, ExtensionCount := Number(0),
                           OriginalEndTime := Number(b.endTime), CreatedAtLedger := Number(ledger)]
  }

  function OfferUpdate(b: Body, txHash: string): Fields
    requires b.OfferMade?
  {
    map[ParentListing := Number(b.listing), Offerer := Text(b.offerer), Amount := Text(b.amount),
        Token := Text(b.token), Status := Text("Pending"), ExpiresAt := OptNumber(b.expiresAt),
        EscrowTxHash := OrNull(txHash)]
  }

  function OfferCreate(b: Body, txHash: string, ledger: int): Fields
    requires b.OfferMade?
  {
    OfferUpdate(b, txHash) + map[RefundTxHash := Null, CreatedAtLedger := Number(ledger)]
  }

  function Closed(status: string, txHash: string): Fields {
    map[Status := Text(status), RefundTxHash := OrNull(txHash)]
  }

  // ----------------------------------------------------- events as writes

  function Plain(update: Fields): Write { Write(false, None, update) }

  /** `listingId` is present; the id 0 is falsy and counts as absent. */
  predicate Active(e: Event) { e.subject.Some? && e.subject.value != 0 }

  predicate OfListing(b: Body) {
    b.ListingCreated? || b.ListingUpdated? || b.ListingPriceUpdated? || b.ListingExpired? ||
    b.ArtworkSold? || b.ListingCancelled? || b.OwnershipReconciled?
  }

  predicate OfAuction(b: Body) {
    b.AuctionCreated? || b.BidPlaced? || b.AuctionResolved? || b.AuctionCancelled? ||
    b.AuctionExtended? || b.AuctionReserveUpdated?
  }

  predicate OfOffer(b: Body) {
    b.OfferMade? || b.OfferAccepted? || b.OfferRejected? || b.OfferWithdrawn? || b.OfferReclaimed?
  }

  /** The rows an event writes once the rows it refers to are there: at most one write per row. */
  function EventWrites(e: Event): map<Key, Write> {
    if !Active(e) then map[]
    else if OfListing(e.body) then ListingWrites(e)
    else if OfAuction(e.body) then AuctionWrites(e)
    else if OfOffer(e.body) then OfferWrites(e)
    else map[]
  }

  function ListingWrites(e: Event): map<Key, Write>
    requires Active(e) && OfListing(e.body)
  {
    var key := Listing(e.subject.value);
    match e.body
    case ListingCreated(_, _, _, _, _, _) =>
      map[key := Write(false, Some(ListingCreate(e.body, e.ledger)), ListingUpdate(e.body))]
    case ListingUpdated(price, collection, nft) =>
      map[key := Write(true, None, map[Price := Text(price), Collection := Text(collection), NftTokenId := Number(nft)])]
    case ListingPriceUpdated(price) => map[key := Plain(map[Price := Text(price)])]
    case ListingExpired => map[]
    case ArtworkSold(buyer) => map[key := Plain(map[Status := Text("Sold"), Owner := Text(buyer)])]
    case ListingCancelled => map[key := Plain(map[Status := Text("Cancelled")])]
    case OwnershipReconciled(owner) =>
      if owner == "" then map[] else map[key := Plain(map[Owner := Text(owner)])]
  }

  function AuctionWrites(e: Event): map<Key, Write>
    requires Active(e) && OfAuction(e.body)
  {
    var key := Auction(e.subject.value);
    match e.body
    case AuctionCreated(_, _, _, _, _, _) =>
      map[key := Write(false, Some(AuctionCreate(e.body, e.ledger)), AuctionUpdate(e.body))]
    case BidPlaced(bidder, amount) =>
      map[key := Plain(map[HighestBid := Text(amount), HighestBidder := Text(bidder)])]
    case AuctionResolved(winner, amount) =>
      map[key := Write(true, None, map[Status := Text("Finalized"), HighestBid := Text(amount), HighestBidder := OrNull(winner)])]
    case AuctionCancelled => map[key := Plain(map[Status := Text("Cancelled")])]
    case AuctionExtended(end, count) =>
      map[key := Plain(map[EndTime := Number(end), ExtensionCount := Number(count)])]
    case AuctionReserveUpdated(reserve) => map[key := Plain(map[ReservePrice := Text(reserve)])]
  }

  function OfferWrites(e: Event): map<Key, Write>
    requires Active(e) && OfOffer(e.body)
  {
    var key := Offer(e.body.offerId);
    match e.body
    case OfferMade(_, _, _, _, _, _) =>
      map[key := Write(true, Some(OfferCreate(e.body, e.txHash, e.ledger)), OfferUpdate(e.body, e.txHash))]
    case OfferAccepted(_, l, offerer) =>
      map[key := Plain(Closed("Accepted", e.txHash)),
          Listing(l) := Plain(map[Status := Text("Sold"), Owner := Text(offerer)])]
    case OfferRejected(_) => map[key := Plain(Closed("Rejected", e.txHash))]
    case OfferWithdrawn(_) => map[key := Plain(Closed("Withdrawn", e.txHash))]
    case OfferReclaimed(_) => map[key := Write(true, None, Closed("Reclaimed", e.txHash))]
  }

  function EventDelta(e: Event): Delta { Delta(e.ledger, EventWrites(e)) }

  function Deltas(log: seq<Event>): seq<Delta> {
    seq(|log|, i requires 0 <= i < |log| => EventDelta(log[i]))
  }

  /** An offer whose listing is not indexed is staged elsewhere; `offer.update` of a missing offer throws. */
  predicate Blocked(t: Table, e: Event) {
    && Active(e)
    && (e.body.OfferMade? ==> Listing(e.body.listing) !in t)
    && (e.body.OfferMade? || Terminal(e.body))
    && (Terminal(e.body) ==> Offer(e.body.offerId) !in t)
  }

  /** Terminal offer events that `offer.update` applies; OFFER_RECLAIMED uses `updateMany`. */
  predicate Terminal(b: Body) { b.OfferAccepted? || b.OfferRejected? || b.OfferWithdrawn? }

  /** `processEvent` fails, and leaves no write, exactly on a terminal event of an unknown offer. */
  predicate Throws(t: Table, e: Event) {
    Blocked(t, e) && !e.body.OfferMade?
  }

  function ApplyEvent(t: Table, e: Event): Table {
    if Blocked(t, e) then t else TableStep(t, EventDelta(e))
  }

  // -------------------------------------------------- processEvent in place

  /** The projection tables as `processEvent` updates them. */
  class Projections {
    var rows: Table

    constructor ()
      ensures rows == map[]
    {
      rows := map[];
    }

    /** `updateMany` on one key, with or without the `updatedAtLedger <= ledger` condition. */
    method UpdateMany(key: Key, guarded: bool, data: Fields, ledger: int) returns (count: nat)
      modifies this
      ensures rows == TableStep(old(rows), Delta(ledger, map[key := Write(guarded, None, data)]))
      ensures count == 0 <==> key !in old(rows) || (guarded && old(rows)[key].updatedAt > ledger)
    {
      count := 0;
      if key in rows && (!guarded || rows[key].updatedAt <= ledger) {
        rows := rows[key := Row(rows[key].fields + data, ledger)];
        count := 1;
      }
    }

    /** `upsert`; `update` is None for an upsert whose update branch is empty. */
    method Upsert(key: Key, create: Fields, update: Option<Fields>, ledger: int)
      modifies this
      ensures key !in old(rows) ==> rows == old(rows)[key := Row(create, ledger)]
      ensures key in old(rows) && update.None? ==> rows == old(rows)
      ensures key in old(rows) && update.Some? ==>
                rows == old(rows)[key := Row(old(rows)[key].fields + update.value, ledger)]
    {
      if key !in rows {
        rows := rows[key := Row(create, ledger)];
      } else if update.Some? {
        rows := rows[key := Row(rows[key].fields + update.value, ledger)];
      }
    }

    /** `update` of one row: fails without effect when the row is missing. */
    method Update(key: Key, data: Fields, ledger: int) returns (ok: bool)
      modifies this
      ensures ok == (key in old(rows))
      ensures rows == if ok then TableStep(old(rows), Delta(ledger, map[key := Plain(data)])) else old(rows)
    {
      ok := key in rows;
      if ok { rows := rows[key := Row(rows[key].fields + data, ledger)]; }
    }

    /** The branches of `processEvent`; each lands on the single write `EventWrites` gives per row. */
    method ProcessEvent(e: Event) returns (ok: bool)
      modifies this
      ensures ok == !Throws(old(rows), e)
      ensures rows == ApplyEvent(old(rows), e)
    {
      ok := true;
      if !Active(e) {
        NoWrites(rows, e.ledger);
        return;
      }
      match e.body {
        case ListingCreated(_, _, _, _, _, _) | AuctionCreated(_, _, _, _, _, _) => ProcessCreated(e);
        case OfferMade(_, _, _, _, _, _) => ProcessOfferMade(e);
        case OfferAccepted(_, _, _) => ok := ProcessOfferAccepted(e);
        case OfferRejected(id) => ok := CloseOffer(e, id, "Rejected");
        case OfferWithdrawn(id) => ok := CloseOffer(e, id, "Withdrawn");
        case OfferReclaimed(id) => var _ := UpdateMany(Offer(id), true, Closed("Reclaimed", e.txHash), e.ledger);
        case ListingUpdated(_, _, _) | ListingPriceUpdated(_) | ListingExpired | ArtworkSold(_)
           | ListingCancelled | OwnershipReconciled(_) => ProcessListingChange(e);
        case BidPlaced(_, _) | AuctionResolved(_, _) | AuctionCancelled | AuctionExtended(_, _)
           | AuctionReserveUpdated(_) => ProcessAuctionChange(e);
        case OtherQueried | Unprojected => NoWrites(rows, e.ledger);
      }
    }

    method ProcessCreated(e: Event)
      requires Active(e)
      requires e.body.ListingCreated? || e.body.AuctionCreated?
      modifies this
      ensures rows == TableStep(old(rows), EventDelta(e))
    {
      if e.body.ListingCreated? {
        Upsert(Listing(e.subject.value), ListingCreate(e.body, e.ledger), Some(ListingUpdate(e.body)), e.ledger);
      } else {
        Upsert(Auction(e.subject.value), AuctionCreate(e.body, e.ledger), Some(AuctionUpdate(e.body)), e.ledger);
      }
    }

    method ProcessListingChange(e: Event)
      requires Active(e)
      requires e.body.ListingUpdated? || e.body.ListingPriceUpdated? || e.body.ListingExpired?
            || e.body.ArtworkSold? || e.body.ListingCancelled? || e.body.OwnershipReconciled?
      modifies this
      ensures rows == TableStep(old(rows), EventDelta(e))
    {
      var key := Listing(e.subject.value);
      NoWrites(rows, e.ledger);
      match e.body
      case ListingUpdated(price, collection, nft) =>
        var _ := UpdateMany(key, true, map[Price := Text(price), Collection := Text(collection), NftTokenId := Number(nft)], e.ledger);
      case ListingPriceUpdated(price) =>
        var _ := UpdateMany(key, false, map[Price := Text(price)], e.ledger);
      case ArtworkSold(buyer) =>
        var _ := UpdateMany(key, false, map[Status := Text("Sold"), Owner := Text(buyer)], e.ledger);
      case ListingCancelled =>
        var _ := UpdateMany(key, false, map[Status := Text("Cancelled")], e.ledger);
      case OwnershipReconciled(owner) =>
        if owner != "" { var _ := UpdateMany(key, false, map[Owner := Text(owner)], e.ledger); }
      case ListingExpired =>
    }

    method ProcessAuctionChange(e: Event)
      requires Active(e)
      requires e.body.BidPlaced? || e.body.AuctionResolved? || e.body.AuctionCancelled?
            || e.body.AuctionExtended? || e.body.AuctionReserveUpdated?
      modifies this
      ensures rows == TableStep(old(rows), EventDelta(e))
    {
      var key := Auction(e.subject.value);
      match e.body
      case BidPlaced(bidder, amount) =>
        var _ := UpdateMany(key, false, map[HighestBid := Text(amount), HighestBidder := Text(bidder)], e.ledger);
      case AuctionResolved(winner, amount) =>
        var _ := UpdateMany(key, true, map[Status := Text("Finalized"), HighestBid := Text(amount),
                                           HighestBidder := OrNull(winner)], e.ledger);
      case AuctionCancelled =>
        var _ := UpdateMany(key, false, map[Status := Text("Cancelled")], e.ledger);
      case AuctionExtended(end, count) =>
        var _ := UpdateMany(key, false, map[EndTime := Number(end), ExtensionCount := Number(count)], e.ledger);
      case AuctionReserveUpdated(reserve) =>
        var _ := UpdateMany(key, false, map[ReservePrice := Text(reserve)], e.ledger);
    }

    /** Upsert with an empty update branch, then a guarded `updateMany`: together one guarded upsert. */
    method GuardedUpsert(key: Key, create: Fields, update: Fields, ledger: int)
      requires Within(update, create)
      modifies this
      ensures rows == TableStep(old(rows), Delta(ledger, map[key := Write(true, Some(create), update)]))
    {
      Upsert(key, create, None, ledger);
      var _ := UpdateMany(key, true, update, ledger);
      assert create + update == create;
    }

    method ProcessOfferMade(e: Event)
      requires Active(e) && e.body.OfferMade?
      modifies this
      ensures rows == ApplyEvent(old(rows), e)
    {
      if Listing(e.body.listing) in rows {
        GuardedUpsert(Offer(e.body.offerId), OfferCreate(e.body, e.txHash, e.ledger), OfferUpdate(e.body, e.txHash), e.ledger);
      }
    }

    method CloseOffer(e: Event, id: nat, status: string) returns (ok: bool)
      requires Active(e)
      requires (e.body == OfferRejected(id) && status == "Rejected") || (e.body == OfferWithdrawn(id) && status == "Withdrawn")
      modifies this
      ensures ok == !Throws(old(rows), e)
      ensures rows == ApplyEvent(old(rows), e)
    {
      ok := Update(Offer(id), Closed(status, e.txHash), e.ledger);
    }

    method ProcessOfferAccepted(e: Event) returns (ok: bool)
      requires Active(e) && e.body.OfferAccepted?
      modifies this
      ensures ok == !Throws(old(rows), e)
      ensures rows == ApplyEvent(old(rows), e)
    {
      var key, listing := Offer(e.body.offerId), Listing(e.body.listing);
      var closed, sold := Closed("Accepted", e.txHash), map[Status := Text("Sold"), Owner := Text(e.body.offerer)];
      ok := Update(key, closed, e.ledger);
      if ok {
        var _ := UpdateMany(listing, false, sold, e.ledger);
        TwoWrites(old(rows), key, Plain(closed), listing, Plain(sold), e.ledger);
      }
    }
  }

  lemma {:induction false} TwoWrites(t: Table, key: Key, w: Write, other: Key, v: Write, ledger: int)
    requires key != other
    ensures TableStep(TableStep(t, Delta(ledger, map[key := w])), Delta(ledger, map[other := v]))
         == TableStep(t, Delta(ledger, map[key := w, other := v]))
  {
  }

  lemma {:induction false} NoWrites(t: Table, ledger: int)
    ensures TableStep(t, Delta(ledger, map[])) == t
  {
  }
}
