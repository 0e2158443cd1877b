/**
  The projection rows read off the events, column by column: which events set a column of a
  listing, an auction or an offer, and to what.  `processEvent` on any tables, and the live tables
  of any causally ordered log, hold exactly that.
*/
module Columns {
  import opened Wrappers
  import opened Rows
  import opened Replay
  import opened Marketplace
  import opened Rebuild
  import opened RebuildLive
  import Rollback

  // ------------------------------------------------------------- the listings

  /** The event carries a listing or auction id; 0 counts as none. */
  predicate HasSubject(e: Event) { e.subject.Some? && e.subject.value != 0 }

  predicate On(e: Event, id: nat) { HasSubject(e) && e.subject.value == id }

  predicate Lists(e: Event, id: nat) { On(e, id) && e.body.ListingCreated? }

  /** An accepted offer sells the listing the offer names. */
  predicate Accepts(e: Event, id: nat) { HasSubject(e) && e.body.OfferAccepted? && e.body.listing == id }

  predicate Sells(e: Event, id: nat) { (On(e, id) && e.body.ArtworkSold?) || Accepts(e, id) }

  predicate Delists(e: Event, id: nat) { On(e, id) && e.body.ListingCancelled? }

  predicate Reconciles(e: Event, id: nat) { On(e, id) && e.body.OwnershipReconciled? && e.body.newOwner != "" }

  predicate Reprices(e: Event, id: nat) { On(e, id) && (e.body.ListingUpdated? || e.body.ListingPriceUpdated?) }

  predicate TouchesListing(e: Event, id: nat) {
    Lists(e, id) || Sells(e, id) || Delists(e, id) || Reconciles(e, id) || Reprices(e, id)
  }

  /** What an event sets a column of a listing to; None where it leaves it alone. */
  function ListingSays(e: Event, id: nat, f: Field): Option<Value> {
    match f
    case Status =>
      if Lists(e, id) then Some(Text("Active"))
      else if Sells(e, id) then Some(Text("Sold"))
      else if Delists(e, id) then Some(Text("Cancelled"))
      else None
    case Owner =>
      if Accepts(e, id) then Some(Text(e.body.offerer))
      else if Sells(e, id) then Some(Text(e.body.buyer))
      else if Reconciles(e, id) then Some(Text(e.body.newOwner))
      else None
    case Price =>
      if Lists(e, id) then Some(Text(e.body.price)) else if Reprices(e, id) then Some(Text(e.body.newPrice)) else None
    case Collection =>
      if Lists(e, id) || (Reprices(e, id) && e.body.ListingUpdated?) then Some(Text(e.body.collection)) else None
    case NftTokenId =>
      if Lists(e, id) || (Reprices(e, id) && e.body.ListingUpdated?) then Some(Number(e.body.nftTokenId)) else None
    case Artist => if Lists(e, id) then Some(Text(e.body.artist)) else None
    case Recipients => if Lists(e, id) then Some(Text("[]")) else None
    case _ => None
  }

  /** What else the event that creates a listing puts in its columns. */
  function ListingStarts(e: Event, f: Field): Option<Value>
    requires e.body.ListingCreated?
  {
    match f
    case Owner => Some(Null)
    case Currency => Some(Text(e.body.currency))
    case Token => Some(Text(e.body.token))
    case CreatedAtLedger => Some(Number(e.ledger))
    case _ => None
  }

  // ------------------------------------------------------------- the auctions

  predicate TouchesAuction(e: Event, id: nat) {
    On(e, id) && (e.body.AuctionCreated? || e.body.BidPlaced? || e.body.AuctionResolved? || e.body.AuctionCancelled?
                  || e.body.AuctionExtended? || e.body.AuctionReserveUpdated?)
  }

  function AuctionSays(e: Event, id: nat, f: Field): Option<Value> {
    if !On(e, id) then None
    else
      match f
      case Status =>
        if e.body.AuctionCreated? then Some(Text("Active"))
        else if e.body.AuctionResolved? then Some(Text("Finalized"))
        else if e.body.AuctionCancelled? then Some(Text("Cancelled"))
        else None
      case HighestBid => if e.body.BidPlaced? || e.body.AuctionResolved? then Some(Text(e.body.amount)) else None
      case HighestBidder =>
        if e.body.BidPlaced? then Some(Text(e.body.bidder))
        else if e.body.AuctionResolved? then Some(if e.body.winner == "" then Null else Text(e.body.winner))
        else None
      case ReservePrice =>
        if e.body.AuctionCreated? then Some(Text(e.body.reservePrice))
        else if e.body.AuctionReserveUpdated? then Some(Text(e.body.newReserve))
        else None
      case EndTime =>
        if e.body.AuctionCreated? then Some(Number(e.body.endTime))
        else if e.body.AuctionExtended? then Some(Number(e.body.newEndTime))
        else None
      case ExtensionCount => if e.body.AuctionExtended? then Some(Number(e.body.extensionCount)) else None
      case Creator => if e.body.AuctionCreated? then Some(Text(e.body.creator)) else None
      case Collection => if e.body.AuctionCreated? then Some(Text(e.body.collection)) else None
      case NftTokenId => if e.body.AuctionCreated? then Some(Number(e.body.nftTokenId)) else None
      case Token => if e.body.AuctionCreated? then Some(Text(e.body.token)) else None
      case Recipients => if e.body.AuctionCreated? then Some(Text("[]")) else None
      case MaxExtensions => if e.body.AuctionCreated? then Some(Number(0)) else None
      case _ => None
  }

  function AuctionStarts(e: Event, f: Field): Option<Value>
    requires e.body.AuctionCreated?
  {
    match f
    case HighestBid => Some(Text("0"))
    case HighestBidder => Some(Null)
    case ExtensionCount => Some(Number(0))
    case OriginalEndTime => Some(Number(e.body.endTime))
    case CreatedAtLedger => Some(Number(e.ledger))
    case _ => None
  }

  // --------------------------------------------------------------- the offers

  predicate TouchesOffer(e: Event, id: nat) {
    && HasSubject(e)
    && (e.body.OfferMade? || e.body.OfferAccepted? || e.body.OfferRejected? || e.body.OfferWithdrawn?
        || e.body.OfferReclaimed?)
    && e.body.offerId == id
  }

  function OfferSays(e: Event, id: nat, f: Field): Option<Value> {
    if !TouchesOffer(e, id) then None
    else
      match f
      case Status =>
        Some(Text(match e.body
                  case OfferMade(_, _, _, _, _, _) => "Pending"
                  case OfferAccepted(_, _, _) => "Accepted"
                  case OfferRejected(_) => "Rejected"
                  case OfferWithdrawn(_) => "Withdrawn"
                  case _ => "Reclaimed"))
      case RefundTxHash => if e.body.OfferMade? then None else Some(if e.txHash == "" then Null else Text(e.txHash))
      case EscrowTxHash => if e.body.OfferMade? then Some(if e.txHash == "" then Null else Text(e.txHash)) else None
      case ParentListing => if e.body.OfferMade? then Some(Number(e.body.listing)) else None
      case Offerer => if e.body.OfferMade? then Some(Text(e.body.offerer)) else None
      case Amount => if e.body.OfferMade? then Some(Text(e.body.amount)) else None
      case Token => if e.body.OfferMade? then Some(Text(e.body.token)) else None
      case ExpiresAt =>
        if !e.body.OfferMade? then None
        else Some(if e.body.expiresAt.Some? then Number(e.body.expiresAt.value) else Null)
      case _ => None
  }

  function OfferStarts(e: Event, f: Field): Option<Value>
    requires e.body.OfferMade?
  {
    match f
    case RefundTxHash => Some(Null)
    case CreatedAtLedger => Some(Number(e.ledger))
    case _ => None
  }

  // ------------------------------------------------------- the three together

  predicate Touches(e: Event, key: Key) {
    match key
    case Listing(id) => TouchesListing(e, id)
    case Auction(id) => TouchesAuction(e, id)
    case Offer(id) => TouchesOffer(e, id)
  }

  predicate Creates(e: Event, key: Key) {
    match key
    case Listing(id) => Lists(e, id)
    case Auction(id) => On(e, id) && e.body.AuctionCreated?
    case Offer(id) => TouchesOffer(e, id) && e.body.OfferMade?
  }

  /** Events that a row stamped with a later ledger ignores. */
  predicate Yields(e: Event) {
    e.body.ListingUpdated? || e.body.AuctionResolved? || e.body.OfferMade? || e.body.OfferReclaimed?
  }

  function Says(e: Event, key: Key, f: Field): Option<Value> {
    match key
    case Listing(id) => ListingSays(e, id, f)
    case Auction(id) => AuctionSays(e, id, f)
    case Offer(id) => OfferSays(e, id, f)
  }

  function Starts(e: Event, key: Key, f: Field): Option<Value>
    requires Creates(e, key)
  {
    match key
    case Listing(_) => ListingStarts(e, f)
    case Auction(_) => AuctionStarts(e, f)
    case Offer(_) => OfferStarts(e, f)
  }

  /** The write of an event to a row is what the columns say. */
  ghost predicate AsSaid(e: Event, key: Key, w: Write) {
    && w.guarded == Yields(e) && (w.create.Some? <==> Creates(e, key))
    && (forall f :: At(Row(w.update, 0), f) == Says(e, key, f))
    && (Creates(e, key) ==>
          forall f ::
            At(Row(w.create.value, 0), f) == if Says(e, key, f).Some? then Says(e, key, f) else Starts(e, key, f))
  }

  lemma {:induction false} ListingUpdateSaid(e: Event, id: nat, f: Field)
    requires Creates(e, Listing(id))
    ensures At(Row(ListingUpdate(e.body), 0), f) == ListingSays(e, id, f)
  {
  }

  lemma {:induction false} ListingCreateSaid(e: Event, id: nat, f: Field)
    requires Creates(e, Listing(id))
    ensures At(Row(ListingCreate(e.body, e.ledger), 0), f)
         == if ListingSays(e, id, f).Some? then ListingSays(e, id, f) else ListingStarts(e, f)
  {
    ListingUpdateSaid(e, id, f);
  }

  lemma {:induction false} ListingUpdates(e: Event, id: nat, f: Field)
    requires Listing(id) in EventWrites(e)
    ensures At(Row(EventWrites(e)[Listing(id)].update, 0), f) == ListingSays(e, id, f)
  {
    if Creates(e, Listing(id)) { ListingUpdateSaid(e, id, f); }
  }

  lemma {:induction false} AuctionUpdateSaid(e: Event, id: nat, f: Field)
    requires Creates(e, Auction(id))
    ensures At(Row(AuctionUpdate(e.body), 0), f) == AuctionSays(e, id, f)
  {
  }

  lemma {:induction false} AuctionCreateSaid(e: Event, id: nat, f: Field)
    requires Creates(e, Auction(id))
    ensures At(Row(AuctionCreate(e.body, e.ledger), 0), f)
         == if AuctionSays(e, id, f).Some? then AuctionSays(e, id, f) else AuctionStarts(e, f)
  {
    AuctionUpdateSaid(e, id, f);
  }

  lemma {:induction false} AuctionUpdates(e: Event, id: nat, f: Field)
    requires Auction(id) in EventWrites(e)
    ensures At(Row(EventWrites(e)[Auction(id)].update, 0), f) == AuctionSays(e, id, f)
  {
    if Creates(e, Auction(id)) { AuctionUpdateSaid(e, id, f); }
  }

  lemma {:induction false} OfferUpdateSaid(e: Event, id: nat, f: Field)
    requires Creates(e, Offer(id))
    ensures At(Row(OfferUpdate(e.body, e.txHash), 0), f) == OfferSays(e, id, f)
  {
  }

  lemma {:induction false} OfferCreateSaid(e: Event, id: nat, f: Field)
    requires Creates(e, Offer(id))
    ensures At(Row(OfferCreate(e.body, e.txHash, e.ledger), 0), f)
         == if OfferSays(e, id, f).Some? then OfferSays(e, id, f) else OfferStarts(e, f)
  {
    OfferUpdateSaid(e, id, f);
  }

  lemma {:induction false} OfferUpdates(e: Event, id: nat, f: Field)
    requires Offer(id) in EventWrites(e)
    ensures At(Row(EventWrites(e)[Offer(id)].update, 0), f) == OfferSays(e, id, f)
  {
    if Creates(e, Offer(id)) { OfferUpdateSaid(e, id, f); }
  }

  lemma {:induction false} UpdatesAsSaid(e: Event, key: Key, f: Field)
    requires key in EventWrites(e)
    ensures At(Row(EventWrites(e)[key].update, 0), f) == Says(e, key, f)
  {
    match key
    case Listing(id) => ListingUpdates(e, id, f);
    case Auction(id) => AuctionUpdates(e, id, f);
    case Offer(id) => OfferUpdates(e, id, f);
  }

  lemma {:induction false} BeginsAsSaid(e: Event, key: Key, f: Field)
    requires key in EventWrites(e) && Creates(e, key)
    ensures EventWrites(e)[key].create.Some?
    ensures At(Row(EventWrites(e)[key].create.value, 0), f)
         == if Says(e, key, f).Some? then Says(e, key, f) else Starts(e, key, f)
  {
    match key
    case Listing(id) => ListingCreateSaid(e, id, f);
    case Auction(id) => AuctionCreateSaid(e, id, f);
    case Offer(id) => OfferCreateSaid(e, id, f);
  }

  /** The rows an event writes, and how. */
  lemma {:induction false} KindAsSaid(e: Event, key: Key)
    ensures key in EventWrites(e) <==> Touches(e, key)
    ensures key in EventWrites(e) ==>
              EventWrites(e)[key].guarded == Yields(e) && (EventWrites(e)[key].create.Some? <==> Creates(e, key))
  {
  }

  lemma {:induction false} WritesAsSaid(e: Event, key: Key)
    ensures key in EventWrites(e) <==> Touches(e, key)
    ensures key in EventWrites(e) ==> AsSaid(e, key, EventWrites(e)[key])
  {
    KindAsSaid(e, key);
    if key in EventWrites(e) {
      forall f ensures At(Row(EventWrites(e)[key].update, 0), f) == Says(e, key, f) { UpdatesAsSaid(e, key, f); }
      if Creates(e, key) {
        forall f
          ensures At(Row(EventWrites(e)[key].create.value, 0), f)
               == if Says(e, key, f).Some? then Says(e, key, f) else Starts(e, key, f)
        {
          BeginsAsSaid(e, key, f);
        }
      }
    }
  }

  // ------------------------------------------------- one event on any tables

  /** An offer made before its listing is indexed; it is staged elsewhere. */
  predicate Staged(t: Table, e: Event) { HasSubject(e) && e.body.OfferMade? && Listing(e.body.listing) !in t }

  /** A closing event of an offer that is not there. */
  predicate Fails(t: Table, e: Event) {
    && HasSubject(e) && (e.body.OfferAccepted? || e.body.OfferRejected? || e.body.OfferWithdrawn?)
    && Offer(e.body.offerId) !in t
  }

  /** The row starts as its creating event says. */
  ghost predicate StartsAs(row: Row, e: Event, key: Key)
    requires Creates(e, key)
  {
    && row.updatedAt == e.ledger
    && forall f :: At(row, f) == if Says(e, key, f).Some? then Says(e, key, f) else Starts(e, key, f)
  }

  /** The row takes the columns the event sets, keeps the others and is stamped. */
  ghost predicate Follows(before: Row, after: Row, e: Event, key: Key) {
    && after.updatedAt == e.ledger
    && forall f :: At(after, f) == if Says(e, key, f).Some? then Says(e, key, f) else At(before, f)
  }

  /**
    `processEvent` on any tables and any row.  It fails exactly on a closing event of an unknown
    offer, and changes a row exactly if the event touches it, is neither staged nor failing, and
    does not yield to a later stamp; then every column is as the event says.
  */
  lemma {:induction false} EventOnRow(t: Table, e: Event, key: Key)
    ensures Throws(t, e) <==> Fails(t, e)
    ensures var before, after := Get(t, key), Get(ApplyEvent(t, e), key);
            && (Staged(t, e) || Fails(t, e) || !Touches(e, key) ==> after == before)
            && (!Staged(t, e) && !Fails(t, e) && Touches(e, key) && before.None? ==>
                  (after.Some? <==> Creates(e, key)) && (after.Some? ==> StartsAs(after.value, e, key)))
            && (!Staged(t, e) && !Fails(t, e) && Touches(e, key) && before.Some? ==>
                  && after.Some?
                  && (if Yields(e) && e.ledger < before.value.updatedAt then after == before
                      else Follows(before.value, after.value, e, key)))
  {
    WritesAsSaid(e, key);
    assert Blocked(t, e) <==> Staged(t, e) || Fails(t, e);
    assert Get(TableStep(t, EventDelta(e)), key) == RowStep(Get(t, key), EventDelta(e), key);
    if Touches(e, key) { WriteOnRow(Get(t, key), e, key, EventWrites(e)[key]); }
  }

  lemma {:induction false} WriteOnRow(r: Option<Row>, e: Event, key: Key, w: Write)
    requires AsSaid(e, key, w)
    ensures r.None? ==>
              (ApplyWrite(r, w, e.ledger).Some? <==> Creates(e, key)) &&
              (Creates(e, key) ==> StartsAs(ApplyWrite(r, w, e.ledger).value, e, key))
    ensures r.Some? ==>
              && ApplyWrite(r, w, e.ledger).Some?
              && (if Yields(e) && e.ledger < r.value.updatedAt then ApplyWrite(r, w, e.ledger) == r
                  else Follows(r.value, ApplyWrite(r, w, e.ledger).value, e, key))
  {
    if r.None? && Creates(e, key) {
      forall f ensures At(Row(w.create.value, e.ledger), f) == At(Row(w.create.value, 0), f) { }
    }
    if r.Some? {
      forall f ensures At(Row(r.value.fields + w.update, e.ledger), f)
                    == if At(Row(w.update, 0), f).Some? then At(Row(w.update, 0), f) else At(r.value, f) { }
    }
  }

  // ------------------------------------------------------- the live tables

  ghost predicate SaidAt(log: seq<Event>, key: Key, f: Field, p: int) {
    0 <= p < |log| && Says(log[p], key, f).Some?
  }

  /** The event at `p` is the last to set the column. */
  ghost predicate SaidLast(log: seq<Event>, key: Key, f: Field, p: int) {
    SaidAt(log, key, f, p) && forall q :: p < q ==> !SaidAt(log, key, f, q)
  }

  ghost predicate TouchedAt(log: seq<Event>, key: Key, p: int) { 0 <= p < |log| && Touches(log[p], key) }

  ghost predicate TouchedLast(log: seq<Event>, key: Key, p: int) {
    TouchedAt(log, key, p) && forall q :: p < q ==> !TouchedAt(log, key, q)
  }

  /** The event at `c` creates the row, before any other touches it. */
  ghost predicate CreatedAt(log: seq<Event>, key: Key, c: int) {
    0 <= c < |log| && Creates(log[c], key) && forall q :: q < c ==> !TouchedAt(log, key, q)
  }

  lemma {:induction false} TouchedIsWritten(log: seq<Event>, key: Key, p: int)
    ensures Writes(Deltas(log), key, p) <==> TouchedAt(log, key, p)
  {
    if 0 <= p < |log| { WritesAsSaid(log[p], key); }
  }

  lemma {:induction false} SaidIsAssigned(log: seq<Event>, key: Key, f: Field, p: int)
    ensures Assigns(Deltas(log), key, p, f) <==> SaidAt(log, key, f, p)
    ensures SaidAt(log, key, f, p) ==> Says(log[p], key, f) == Some(Deltas(log)[p].writes[key].update[f])
  {
    if 0 <= p < |log| {
      WritesAsSaid(log[p], key);
      if Says(log[p], key, f).Some? { SaysTouches(log[p], key, f); }
    }
  }

  lemma {:induction false} SaysTouches(e: Event, key: Key, f: Field)
    requires Says(e, key, f).Some?
    ensures Touches(e, key)
  {
  }

  lemma {:induction false} LiveRow(log: seq<Event>, key: Key)
    ensures Get(LiveTables(log), key) == RowRun(None, Deltas(log), key, 0, |log|)
  {
    TableRunRow(map[], Deltas(log), 0, |log|, key);
  }

  /** A row is there exactly if an event creates it, and that event is the first to touch it. */
  lemma {:induction false} LiveExists(log: seq<Event>, key: Key)
    requires ValidLog(log)
    ensures key in LiveTables(log) <==> exists p :: 0 <= p < |log| && Creates(log[p], key)
    ensures key in LiveTables(log) ==> exists c :: CreatedAt(log, key, c)
  {
    var ds := Deltas(log);
    LiveCausal(log);
    LiveRow(log, key);
    FirstRun(ds, key, |log|);
    if p :| 0 <= p < |log| && Creates(log[p], key) {
      assert TouchedAt(log, key, p);
      TouchedIsWritten(log, key, p);
    }
    if p :| Writes(ds, key, p) {
      FirstOf(ds, key, p);
      var c :| FirstWrite(ds, key, c);
      WritesAsSaid(log[c], key);
      forall q | q < c ensures !TouchedAt(log, key, q) { TouchedIsWritten(log, key, q); }
      assert CreatedAt(log, key, c);
    }
  }

  /** The stamp of a live row is the ledger of the last event that touches it. */
  lemma {:induction false} LiveStamp(log: seq<Event>, key: Key, p: nat)
    requires ValidLog(log) && TouchedLast(log, key, p)
    ensures key in LiveTables(log) && LiveTables(log)[key].updatedAt == log[p].ledger
  {
    LiveCausal(log);
    LiveRow(log, key);
    forall q ensures Writes(Deltas(log), key, q) <==> TouchedAt(log, key, q) { TouchedIsWritten(log, key, q); }
    LastStamp(Deltas(log), key, p, |log|);
  }

  /**
    A column of a live row holds what the last event to set it says, and what the creating event
    starts it with when none does.
  */
  lemma {:induction false} LiveColumn(log: seq<Event>, key: Key, f: Field)
    requires ValidLog(log) && key in LiveTables(log)
    ensures forall p :: SaidLast(log, key, f, p) ==> At(LiveTables(log)[key], f) == Says(log[p], key, f)
    ensures forall c :: CreatedAt(log, key, c) && (forall p :: !SaidAt(log, key, f, p)) ==>
              At(LiveTables(log)[key], f) == Starts(log[c], key, f)
  {
    forall p | SaidLast(log, key, f, p) ensures At(LiveTables(log)[key], f) == Says(log[p], key, f) {
      SaidColumn(log, key, f, p);
    }
    forall c | CreatedAt(log, key, c) && (forall p :: !SaidAt(log, key, f, p))
      ensures At(LiveTables(log)[key], f) == Starts(log[c], key, f)
    {
      StartedColumn(log, key, f, c);
    }
  }

  lemma {:induction false} SaidColumn(log: seq<Event>, key: Key, f: Field, p: nat)
    requires ValidLog(log) && SaidLast(log, key, f, p)
    ensures key in LiveTables(log) && At(LiveTables(log)[key], f) == Says(log[p], key, f)
  {
    var ds := Deltas(log);
    LiveCausal(log);
    LiveRow(log, key);
    forall q ensures Assigns(ds, key, q, f) <==> SaidAt(log, key, f, q) { SaidIsAssigned(log, key, f, q); }
    SaidIsAssigned(log, key, f, p);
    LastWriterWins(ds, key, p, f, |log|);
  }

  lemma {:induction false} StartedColumn(log: seq<Event>, key: Key, f: Field, c: nat)
    requires ValidLog(log) && key in LiveTables(log) && CreatedAt(log, key, c) && forall p :: !SaidAt(log, key, f, p)
    ensures At(LiveTables(log)[key], f) == Starts(log[c], key, f)
  {
    var ds := Deltas(log);
    LiveCausal(log);
    LiveRow(log, key);
    forall q ensures Writes(ds, key, q) <==> TouchedAt(log, key, q) { TouchedIsWritten(log, key, q); }
    forall q ensures !Assigns(ds, key, q, f) { SaidIsAssigned(log, key, f, q); }
    assert TouchedAt(log, key, c);
    Rollback.CreateOnly(ds, key, c, f, |log|);
    WritesAsSaid(log[c], key);
    assert !SaidAt(log, key, f, c);
  }

  // --------------------------------------------------------------- statuses

  lemma {:induction false} LastSaid(log: seq<Event>, key: Key, f: Field, p: nat) returns (q: nat)
    requires SaidAt(log, key, f, p)
    ensures SaidLast(log, key, f, q)
    decreases |log| - p
  {
    if r :| p < r && SaidAt(log, key, f, r) {
      q := LastSaid(log, key, f, r);
    } else {
      q := p;
    }
  }

  /** Every live row has a status, which the last event to set it gives. */
  lemma {:induction false} LiveStatus(log: seq<Event>, key: Key) returns (p: nat)
    requires ValidLog(log) && key in LiveTables(log)
    ensures SaidLast(log, key, Status, p) && At(LiveTables(log)[key], Status) == Says(log[p], key, Status)
  {
    LiveExists(log, key);
    var c :| CreatedAt(log, key, c);
    CreatedHasStatus(log[c], key);
    p := LastSaid(log, key, Status, c);
    SaidColumn(log, key, Status, p);
  }

  lemma {:induction false} CreatedHasStatus(e: Event, key: Key)
    requires Creates(e, key)
    ensures Says(e, key, Status).Some?
  {
  }

  ghost predicate HasStatus(log: seq<Event>, key: Key, status: string) {
    key in LiveTables(log) && At(LiveTables(log)[key], Status) == Some(Text(status))
  }

  /** The event at `p` lists, sells or delists the listing, and no later one does. */
  ghost predicate DecidesListing(log: seq<Event>, id: nat, p: int) {
    && 0 <= p < |log| && (Lists(log[p], id) || Sells(log[p], id) || Delists(log[p], id))
    && forall q :: p < q < |log| ==> !Lists(log[q], id) && !Sells(log[q], id) && !Delists(log[q], id)
  }

  /** A listing is Sold, Cancelled or Active as its last sale, cancellation or creation says, whichever is last. */
  lemma {:induction false} ListingStatus(log: seq<Event>, id: nat)
    requires ValidLog(log) && Listing(id) in LiveTables(log)
    ensures exists p :: DecidesListing(log, id, p)
    ensures HasStatus(log, Listing(id), "Sold") <==> exists p :: DecidesListing(log, id, p) && Sells(log[p], id)
    ensures HasStatus(log, Listing(id), "Cancelled") <==> exists p :: DecidesListing(log, id, p) && Delists(log[p], id)
    ensures HasStatus(log, Listing(id), "Active") <==> exists p :: DecidesListing(log, id, p) && Lists(log[p], id)
  {
    var p := LiveStatus(log, Listing(id));
    ListingDecided(log, id, p);
    ListingAsDecided(log, id, p);
  }

  lemma {:induction false} ListingDecided(log: seq<Event>, id: nat, p: nat)
    requires SaidLast(log, Listing(id), Status, p)
    ensures DecidesListing(log, id, p)
  {
    forall q | p < q < |log| ensures !Lists(log[q], id) && !Sells(log[q], id) && !Delists(log[q], id) {
      assert !SaidAt(log, Listing(id), Status, q);
    }
  }

  lemma {:induction false} ListingAsDecided(log: seq<Event>, id: nat, p: nat)
    requires DecidesListing(log, id, p) && Listing(id) in LiveTables(log)
    requires At(LiveTables(log)[Listing(id)], Status) == ListingSays(log[p], id, Status)
    ensures HasStatus(log, Listing(id), "Sold") <==> exists q :: DecidesListing(log, id, q) && Sells(log[q], id)
    ensures HasStatus(log, Listing(id), "Cancelled") <==> exists q :: DecidesListing(log, id, q) && Delists(log[q], id)
    ensures HasStatus(log, Listing(id), "Active") <==> exists q :: DecidesListing(log, id, q) && Lists(log[q], id)
  {
    assert forall q :: DecidesListing(log, id, q) ==> q == p;
    ListingSaysStatus(log[p], id);
  }

  lemma {:induction false} ListingSaysStatus(e: Event, id: nat)
    requires Lists(e, id) || Sells(e, id) || Delists(e, id)
    ensures ListingSays(e, id, Status) == Some(Text("Sold")) <==> Sells(e, id)
    ensures ListingSays(e, id, Status) == Some(Text("Cancelled")) <==> Delists(e, id)
    ensures ListingSays(e, id, Status) == Some(Text("Active")) <==> Lists(e, id)
  {
    assert "Sold" != "Cancelled" && "Sold" != "Active" && "Cancelled" != "Active";
  }

  /** The event at `p` creates, resolves or cancels the auction, and no later one does. */
  ghost predicate DecidesAuction(log: seq<Event>, id: nat, p: int) {
    && 0 <= p < |log| && On(log[p], id)
    && (log[p].body.AuctionCreated? || log[p].body.AuctionResolved? || log[p].body.AuctionCancelled?)
    && forall q :: p < q < |log| && On(log[q], id) ==>
                     !log[q].body.AuctionCreated? && !log[q].body.AuctionResolved? && !log[q].body.AuctionCancelled?
  }

  lemma {:induction false} AuctionStatus(log: seq<Event>, id: nat)
    requires ValidLog(log) && Auction(id) in LiveTables(log)
    ensures exists p :: DecidesAuction(log, id, p)
    ensures HasStatus(log, Auction(id), "Finalized")
       <==> exists p :: DecidesAuction(log, id, p) && log[p].body.AuctionResolved?
    ensures HasStatus(log, Auction(id), "Cancelled")
       <==> exists p :: DecidesAuction(log, id, p) && log[p].body.AuctionCancelled?
    ensures HasStatus(log, Auction(id), "Active")
       <==> exists p :: DecidesAuction(log, id, p) && log[p].body.AuctionCreated?
  {
    var p := LiveStatus(log, Auction(id));
    AuctionDecided(log, id, p);
    assert forall q :: DecidesAuction(log, id, q) ==> q == p;
    AuctionSaysStatus(log[p], id);
  }

  lemma {:induction false} AuctionDecided(log: seq<Event>, id: nat, p: nat)
    requires SaidLast(log, Auction(id), Status, p)
    ensures DecidesAuction(log, id, p)
  {
    forall q | p < q < |log| && On(log[q], id)
      ensures !log[q].body.AuctionCreated? && !log[q].body.AuctionResolved? && !log[q].body.AuctionCancelled?
    {
      assert !SaidAt(log, Auction(id), Status, q);
    }
  }

  lemma {:induction false} AuctionSaysStatus(e: Event, id: nat)
    requires On(e, id) && (e.body.AuctionCreated? || e.body.AuctionResolved? || e.body.AuctionCancelled?)
    ensures AuctionSays(e, id, Status) == Some(Text("Finalized")) <==> e.body.AuctionResolved?
    ensures AuctionSays(e, id, Status) == Some(Text("Cancelled")) <==> e.body.AuctionCancelled?
    ensures AuctionSays(e, id, Status) == Some(Text("Active")) <==> e.body.AuctionCreated?
  {
    assert "Finalized" != "Cancelled" && "Finalized" != "Active" && "Cancelled" != "Active";
  }

  /** The event at `p` is the last one of the offer. */
  ghost predicate DecidesOffer(log: seq<Event>, id: nat, p: int) {
    0 <= p < |log| && TouchesOffer(log[p], id) && forall q :: p < q < |log| ==> !TouchesOffer(log[q], id)
  }

  lemma {:induction false} OfferStatus(log: seq<Event>, id: nat)
    requires ValidLog(log) && Offer(id) in LiveTables(log)
    ensures exists p :: DecidesOffer(log, id, p)
    ensures HasStatus(log, Offer(id), "Pending")
       <==> exists p :: DecidesOffer(log, id, p) && log[p].body.OfferMade?
    ensures HasStatus(log, Offer(id), "Accepted")
       <==> exists p :: DecidesOffer(log, id, p) && log[p].body.OfferAccepted?
    ensures HasStatus(log, Offer(id), "Rejected")
       <==> exists p :: DecidesOffer(log, id, p) && log[p].body.OfferRejected?
    ensures HasStatus(log, Offer(id), "Withdrawn")
       <==> exists p :: DecidesOffer(log, id, p) && log[p].body.OfferWithdrawn?
    ensures HasStatus(log, Offer(id), "Reclaimed")
       <==> exists p :: DecidesOffer(log, id, p) && log[p].body.OfferReclaimed?
  {
    var p := LiveStatus(log, Offer(id));
    forall q | p < q < |log| ensures !TouchesOffer(log[q], id) { assert !SaidAt(log, Offer(id), Status, q); }
    assert DecidesOffer(log, id, p);
    assert forall q :: DecidesOffer(log, id, q) ==> q == p;
  }
}
