/**
 * The two exchange handlers of the item routes, redeem and swap, each one
 * atomic step over the store. Neither consults `approved`.
 */
module Exchange {
  import opened Common
  import opened ItemSchema
  import opened UserSchema
  import opened TransactionSchema
  import opened Database

  /** `item.pointCost || 20`: a stored cost of 0 is charged as 20. */
  function CostOf(it: Item): (c: int)
    ensures it.pointCost != 0 ==> c == it.pointCost
    ensures it.pointCost == 0 ==> c == DefaultPointCost
    ensures ValidItem(it) ==> c > 0
  {
    if it.pointCost == 0 then DefaultPointCost else it.pointCost
  }

  /** `User.findById(item.uploadedBy)`: null when the item has no owner or the owner is gone. */
  function OwnerOf(users: map<UserId, User>, it: Item): (o: Option<UserId>)
    ensures o.Some? <==> it.uploadedBy.Some? && it.uploadedBy.value in users
    ensures o.Some? ==> o == it.uploadedBy
  {
    if it.uploadedBy.Some? && it.uploadedBy.value in users then it.uploadedBy else None
  }

  /** The two log entries a redeem asks for, buyer's first, both naming the item. */
  function RedeemDrafts(buyer: UserId, seller: UserId, id: ItemId, cost: int): seq<TxDraft> {
    [TxDraft(Some(buyer), Some(id), Some("redeem_spent"), Some(-cost), None),
     TxDraft(Some(seller), Some(id), Some("redeem_earned"), Some(cost), None)]
  }

  /** Every guard of a redeem holds, so it goes on to write. */
  predicate RedeemProceeds(db: Db, caller: UserId, id: ItemId) {
    && id in db.items
    && db.items[id].status == Available
    && caller in db.users
    && db.users[caller].points >= CostOf(db.items[id])
    && OwnerOf(db.users, db.items[id]).Some?
  }

  /**
   * POST /redeem/:id. The item, the buyer and the seller are loaded as three
   * separate documents; the seller lookup dereferences the item before it is
   * checked. Past the guards the buyer's and the seller's copies are updated
   * and saved in that order, then the item, then the log entries are created;
   * the seller's 'redeem_earned' entry is refused by the schema and the
   * refusal escapes the handler.
   */
  function Redeem(db: Db, caller: UserId, id: ItemId, now: int): (r: Step)
    ensures !RedeemProceeds(db, caller, id) ==> r.db == db
    ensures r.response in {NotAvailable, NotEnoughPoints, Crash}
    ensures id !in db.items ==> r.response == Crash
    ensures RedeemProceeds(db, caller, id) ==> r.response == Crash
    ensures r.response == NotAvailable <==> id in db.items && db.items[id].status != Available
    ensures r.response == NotEnoughPoints <==>
      id in db.items && db.items[id].status == Available && caller in db.users &&
      db.users[caller].points < CostOf(db.items[id])
    ensures RedeemProceeds(db, caller, id) ==>
      && r.db.items == db.items[id := db.items[id].(status := Redeemed)]
      && r.db.order == db.order
      && r.db.log == db.log + [Transaction(Some(caller), Some(id), RedeemSpent, -CostOf(db.items[id]), now)]
      && r.db.users.Keys == db.users.Keys
      && (forall u :: u in db.users && u != caller && Some(u) != db.items[id].uploadedBy ==> r.db.users[u] == db.users[u])
    ensures RedeemProceeds(db, caller, id) && db.items[id].uploadedBy != Some(caller) ==>
      var seller := db.items[id].uploadedBy.value;
      var cost := CostOf(db.items[id]);
      && r.db.users[caller] == db.users[caller].(points := db.users[caller].points - cost)
      && r.db.users[seller] == db.users[seller].(points := db.users[seller].points + cost)
  {
    if id !in db.items then Step(db, Crash)  // item.uploadedBy on a null item
    else
      var item := db.items[id];
      var seller := OwnerOf(db.users, item);
      if item.status != Available then Step(db, NotAvailable)
      else
        var cost := CostOf(item);
        if caller !in db.users then Step(db, Crash)  // buyer.points on a null buyer
        else
          var buyer := db.users[caller];
          if buyer.points < cost then Step(db, NotEnoughPoints)
          else if seller.None? then Step(db, Crash)  // seller.points on a null seller
          else
            var sellerDoc := db.users[seller.value];
            var users := db.users[caller := buyer.(points := buyer.points - cost)];
            var users := users[seller.value := sellerDoc.(points := sellerDoc.points + cost)];
            var items := db.items[id := item.(status := Redeemed)];
            RedeemDraftsAppend(db.log, caller, seller.value, id, cost, now);
            var (log, refused) := AppendAll(db.log, RedeemDrafts(caller, seller.value, id, cost), now);
            Step(Db(users, items, db.order, log), if refused.None? then Done else Crash)
  }

  /**
   * A redeem past its guards, written out on the documents it loaded: the
   * buyer's and then the seller's copy are saved, the item is redeemed, and
   * only the buyer's entry is logged.
   */
  lemma RedeemWrites(db: Db, caller: UserId, id: ItemId, now: int,
                     buyer: User, sellerId: UserId, seller: User, item: Item, cost: int)
    requires RedeemProceeds(db, caller, id)
    requires item == db.items[id] && cost == CostOf(item) && item.uploadedBy == Some(sellerId)
    requires buyer == db.users[caller] && seller == db.users[sellerId]
    ensures Redeem(db, caller, id, now) ==
      Step(Db(db.users[caller := buyer.(points := buyer.points - cost)][sellerId := seller.(points := seller.points + cost)],
              db.items[id := item.(status := Redeemed)], db.order,
              db.log + [Transaction(Some(caller), Some(id), RedeemSpent, -cost, now)]), Crash)
  {
    RedeemDraftsAppend(db.log, caller, sellerId, id, cost, now);
  }

  /** The writes of a redeem keep the store's indexes and schemas satisfied. */
  lemma RedeemWritesKeepValid(db: Db, caller: UserId, id: ItemId, entry: Transaction,
                              buyer: User, sellerId: UserId, seller: User, item: Item, cost: int)
    requires Valid(db)
    requires id in db.items && item == db.items[id]
    requires caller in db.users && buyer == db.users[caller]
    requires sellerId in db.users && seller == db.users[sellerId]
    ensures Valid(Db(db.users[caller := buyer.(points := buyer.points - cost)][sellerId := seller.(points := seller.points + cost)],
                     db.items[id := item.(status := Redeemed)], db.order, db.log + [entry]))
  {
    var users := db.users[caller := buyer.(points := buyer.points - cost)];
    PointsUpdateKeepsEmailsUnique(db.users, caller, buyer.points - cost);
    PointsUpdateKeepsEmailsUnique(users, sellerId, seller.points + cost);
    assert db.items[id := item.(status := Redeemed)].Keys == db.items.Keys;
  }

  /** Balances are conserved by a redeem between two different users, and the buyer stays at zero or above. */
  lemma RedeemConservesPoints(db: Db, caller: UserId, id: ItemId, now: int)
    requires RedeemProceeds(db, caller, id) && db.items[id].uploadedBy != Some(caller)
    ensures var seller := db.items[id].uploadedBy.value;
      var db' := Redeem(db, caller, id, now).db;
      && db'.users[caller].points + db'.users[seller].points == db.users[caller].points + db.users[seller].points
      && db'.users[caller].points >= 0
  {
  }

  /**
   * A redeem of one's own item: the buyer's write is overwritten by the
   * seller's, which was loaded before either changed, so the user gains the cost.
   */
  lemma SelfRedeemGains(db: Db, caller: UserId, id: ItemId, now: int)
    requires RedeemProceeds(db, caller, id) && db.items[id].uploadedBy == Some(caller)
    ensures Redeem(db, caller, id, now).db.users == db.users[caller := db.users[caller].(points := db.users[caller].points + CostOf(db.items[id]))]
  {
  }

  /**
   * The seller's entry is attempted after the buyer's and refused: the
   * buyer's entry is the only one written, and the refusal is what escapes.
   */
  lemma {:induction false} RedeemDraftsAppend(log: seq<Transaction>, buyer: UserId, seller: UserId, id: ItemId, cost: int, now: int)
    ensures AppendAll(log, RedeemDrafts(buyer, seller, id, cost), now) ==
      (log + [Transaction(Some(buyer), Some(id), RedeemSpent, -cost, now)], Some(NotInEnum("type")))
  {
    var ds := RedeemDrafts(buyer, seller, id, cost);
    var spent := Transaction(Some(buyer), Some(id), RedeemSpent, -cost, now);
    assert CreateTransactionDoc(ds[0], now) == Ok(spent);
    assert Append(log, ds[0], now) == Ok(log + [spent]);
    RedeemEarnedRefused(Some(seller), Some(id), Some(cost), None, now);
    assert ds[1..] == [ds[1]];
    assert AppendAll(log + [spent], ds[1..], now) == (log + [spent], Some(NotInEnum("type")));
  }

  /** Every guard of a swap holds, so it goes on to write. */
  predicate SwapProceeds(db: Db, id: ItemId) {
    && id in db.items
    && db.items[id].status == Available
    && OwnerOf(db.users, db.items[id]).Some?
  }

  /**
   * POST /swap/:id. Any signed-in caller may swap any available item; the
   * item's owner is credited its cost and no log entry is written.
   */
  function Swap(db: Db, caller: UserId, id: ItemId): (r: Step)
    ensures !SwapProceeds(db, id) ==> r.db == db
    ensures r.response == NotAvailable <==> id !in db.items || db.items[id].status != Available
    ensures r.response == Done <==> SwapProceeds(db, id)
    ensures r.response in {Done, NotAvailable, Crash}
    ensures SwapProceeds(db, id) ==>
      var owner := db.items[id].uploadedBy.value;
      && r.db.users == db.users[owner := db.users[owner].(points := db.users[owner].points + CostOf(db.items[id]))]
      && r.db.items == db.items[id := db.items[id].(status := Swapped)]
    ensures r.db.log == db.log && r.db.order == db.order
    ensures caller in db.users && (id in db.items ==> db.items[id].uploadedBy != Some(caller)) ==>
      caller in r.db.users && r.db.users[caller] == db.users[caller]
  {
    if id !in db.items || db.items[id].status != Available then Step(db, NotAvailable)
    else
      var item := db.items[id];
      var owner := OwnerOf(db.users, item);
      if owner.None? then Step(db, Crash)  // owner.points on a null owner
      else
        var ownerDoc := db.users[owner.value];
        var users := db.users[owner.value := ownerDoc.(points := ownerDoc.points + CostOf(item))];
        Step(Db(users, db.items[id := item.(status := Swapped)], db.order, db.log), Done)
  }

  /** Who asks for a swap makes no difference. */
  lemma SwapIgnoresCaller(db: Db, a: UserId, b: UserId, id: ItemId)
    ensures Swap(db, a, id) == Swap(db, b, id)
  {
  }

  /** An item no longer 'available' can be neither redeemed nor swapped, and nothing changes. */
  lemma ExchangedItemRefused(db: Db, caller: UserId, id: ItemId, now: int)
    requires id in db.items && db.items[id].status != Available
    ensures Redeem(db, caller, id, now) == Step(db, NotAvailable)
    ensures Swap(db, caller, id) == Step(db, NotAvailable)
  {
  }

  /** After a redeem or a swap has written, every later redeem or swap of the item fails. */
  lemma ExchangeIsTerminal(db: Db, caller: UserId, other: UserId, id: ItemId, now: int, later: int)
    ensures RedeemProceeds(db, caller, id) ==>
      var db' := Redeem(db, caller, id, now).db;
      Redeem(db', other, id, later) == Step(db', NotAvailable) && Swap(db', other, id) == Step(db', NotAvailable)
    ensures SwapProceeds(db, id) ==>
      var db' := Swap(db, caller, id).db;
      Redeem(db', other, id, later) == Step(db', NotAvailable) && Swap(db', other, id) == Step(db', NotAvailable)
  {
    if RedeemProceeds(db, caller, id) {
      ExchangedItemRefused(Redeem(db, caller, id, now).db, other, id, later);
    }
    if SwapProceeds(db, id) {
      ExchangedItemRefused(Swap(db, caller, id).db, other, id, later);
    }
  }

  /** Neither handler ever changes an item that is no longer 'available'. */
  lemma ExchangedStatusIsFinal(db: Db, caller: UserId, id: ItemId, x: ItemId, now: int)
    requires x in db.items && db.items[x].status != Available
    ensures Redeem(db, caller, id, now).db.items[x] == db.items[x]
    ensures Swap(db, caller, id).db.items[x] == db.items[x]
  {
  }

  /** A redeem keeps the store's indexes and schemas satisfied. */
  lemma RedeemKeepsValid(db: Db, caller: UserId, id: ItemId, now: int)
    requires Valid(db)
    ensures Valid(Redeem(db, caller, id, now).db)
  {
    if RedeemProceeds(db, caller, id) {
      var item := db.items[id];
      var seller := item.uploadedBy.value;
      var cost := CostOf(item);
      var entry := Transaction(Some(caller), Some(id), RedeemSpent, -cost, now);
      RedeemWrites(db, caller, id, now, db.users[caller], seller, db.users[seller], item, cost);
      RedeemWritesKeepValid(db, caller, id, entry, db.users[caller], seller, db.users[seller], item, cost);
    } else {
      assert Redeem(db, caller, id, now).db == db;
    }
  }

  /** A swap keeps the store's indexes and schemas satisfied. */
  lemma SwapKeepsValid(db: Db, caller: UserId, id: ItemId)
    requires Valid(db)
    ensures Valid(Swap(db, caller, id).db)
  {
    if SwapProceeds(db, id) {
      var owner := db.items[id].uploadedBy.value;
      PointsUpdateKeepsEmailsUnique(db.users, owner, db.users[owner].points + CostOf(db.items[id]));
      assert Swap(db, caller, id).db.items.Keys == db.items.Keys;
    }
  }

  /** No redeem or swap drives a balance below zero when every stored item is valid. */
  lemma ExchangeKeepsBalancesNonNegative(db: Db, caller: UserId, id: ItemId, now: int)
    requires Valid(db) && NonNegativeBalances(db)
    ensures NonNegativeBalances(Redeem(db, caller, id, now).db)
    ensures NonNegativeBalances(Swap(db, caller, id).db)
  {
  }
}
