/**
 * The store as the handlers drive it: three collections updated in place,
 * one handler at a time. Each method loads documents, changes its loaded
 * copies step by step and saves them in the order the route does, and is
 * proved to have exactly the effect of the handler's specification.
 */
module Backend {
  import opened Common
  import opened ItemSchema
  import opened UserSchema
  import opened TransactionSchema
  import opened Database
  import opened AdminGate
  import Exchange
  import Listing

  class Store {
    var users: map<UserId, User>
    var items: map<ItemId, Item>
    var order: seq<ItemId>        // the item collection's natural order
    var log: seq<Transaction>

    /** The collections as one value. */
    function Snapshot(): Db
      reads this
    {
      Db(users, items, order, log)
    }

    ghost predicate Valid()
      reads this
    {
      Database.Valid(Snapshot())
    }

    constructor (db: Db)
      requires Database.Valid(db)
      ensures Valid() && Snapshot() == db
    {
      users, items, order, log := db.users, db.items, db.order, db.log;
    }

    /** POST /redeem/:id. */
    method Redeem(caller: UserId, id: ItemId, now: int) returns (res: Response)
      requires Valid()
      modifies this
      ensures Valid()
      ensures Step(Snapshot(), res) == Exchange.Redeem(old(Snapshot()), caller, id, now)
    {
      var refused, item, buyer, seller := LoadRedeem(caller, id, now);
      if refused.Some? {
        return refused.value;
      }
      var sellerId := item.value.uploadedBy.value;
      res := CommitRedeem(caller, buyer.value, sellerId, seller.value, id, item.value, Exchange.CostOf(item.value), now);
    }

    /**
     * The three loads and the guards of a redeem: the item, the buyer and the
     * item's owner, then the checks in the route's order. `refused` is the
     * answer when a guard stops the handler.
     */
    method LoadRedeem(caller: UserId, id: ItemId, now: int)
      returns (refused: Option<Response>, item: Option<Item>, buyer: Option<User>, seller: Option<User>)
      ensures refused.None? <==> Exchange.RedeemProceeds(Snapshot(), caller, id)
      ensures refused.Some? ==> Exchange.Redeem(Snapshot(), caller, id, now) == Step(Snapshot(), refused.value)
      ensures refused.None? ==>
        && item == Some(items[id]) && buyer == Some(users[caller])
        && seller == Some(users[items[id].uploadedBy.value])
    {
      item := if id in items then Some(items[id]) else None;
      buyer := if caller in users then Some(users[caller]) else None;
      if item.None? {
        return Some(Crash), item, buyer, None;  // `item.uploadedBy` on null
      }
      var sellerId := Exchange.OwnerOf(users, item.value);
      seller := if sellerId.Some? then Some(users[sellerId.value]) else None;
      if item.value.status != Available {
        return Some(NotAvailable), item, buyer, seller;
      }
      var cost := Exchange.CostOf(item.value);
      if buyer.None? {
        return Some(Crash), item, buyer, seller;  // `buyer.points` on null
      }
      if buyer.value.points < cost {
        return Some(NotEnoughPoints), item, buyer, seller;
      }
      if seller.None? {
        return Some(Crash), item, buyer, seller;  // `seller.points` on null
      }
      refused := None;
    }

    /**
     * The writes of a redeem whose guards have passed, on the copies loaded
     * before any of them: buyer, seller and item are saved in that order,
     * then the log entries are created.
     */
    method CommitRedeem(caller: UserId, buyer: User, sellerId: UserId, seller: User, id: ItemId, item: Item, cost: int, now: int)
      returns (res: Response)
      requires Valid() && Exchange.RedeemProceeds(Snapshot(), caller, id)
      requires item == items[id] && cost == Exchange.CostOf(item) && item.uploadedBy == Some(sellerId)
      requires buyer == users[caller] && seller == users[sellerId]
      modifies this
      ensures Valid()
      ensures Step(Snapshot(), res) == Exchange.Redeem(old(Snapshot()), caller, id, now)
    {
      ghost var db := Snapshot();
      Exchange.RedeemWrites(db, caller, id, now, buyer, sellerId, seller, item, cost);
      Exchange.RedeemWritesKeepValid(db, caller, id, Transaction(Some(caller), Some(id), RedeemSpent, -cost, now),
                                     buyer, sellerId, seller, item, cost);
      users := users[caller := buyer.(points := buyer.points - cost)];
      users := users[sellerId := seller.(points := seller.points + cost)];
      items := items[id := item.(status := Redeemed)];
      res := SaveRedeemEntries(caller, sellerId, id, cost, now);
    }

    /**
     * The two `Transaction.create` calls that end a redeem: the buyer's entry
     * is written, the seller's is refused and the refusal escapes.
     */
    method SaveRedeemEntries(buyer: UserId, seller: UserId, id: ItemId, cost: int, now: int) returns (res: Response)
      modifies this
      ensures users == old(users) && items == old(items) && order == old(order)
      ensures log == old(log) + [Transaction(Some(buyer), Some(id), RedeemSpent, -cost, now)]
      ensures res == Crash
    {
      Exchange.RedeemDraftsAppend(log, buyer, seller, id, cost, now);
      var first := Append(log, TxDraft(Some(buyer), Some(id), Some("redeem_spent"), Some(-cost), None), now);
      assert first.Ok?;
      log := first.value;
      var second := Append(log, TxDraft(Some(seller), Some(id), Some("redeem_earned"), Some(cost), None), now);
      // 'redeem_earned' is outside the enum: this create always rejects, and nothing catches it
      assert second == Err(NotInEnum("type"));
      res := Crash;
    }

    /** POST /swap/:id. */
    method Swap(caller: UserId, id: ItemId) returns (res: Response)
      requires Valid()
      modifies this
      ensures Valid()
      ensures Step(Snapshot(), res) == Exchange.Swap(old(Snapshot()), caller, id)
    {
      Exchange.SwapKeepsValid(Snapshot(), caller, id);
      if id !in items || items[id].status != Available {
        return NotAvailable;
      }
      var item := items[id];
      var ownerId := Exchange.OwnerOf(users, item);
      if ownerId.None? {
        return Crash;  // `owner.points` on null
      }
      var owner := users[ownerId.value];
      var reward := Exchange.CostOf(item);
      owner := owner.(points := owner.points + reward);
      users := users[ownerId.value := owner];
      item := item.(status := Swapped);
      items := items[id := item];
      res := Done;
    }

    /** POST /items. */
    method AddItem(caller: UserId, form: Listing.ListingForm, fileAttached: bool, newId: ItemId) returns (res: Response)
      requires Valid()
      modifies this
      ensures Valid()
      ensures Step(Snapshot(), res) == Listing.AddItem(old(Snapshot()), caller, form, fileAttached, newId)
    {
      Listing.AddItemKeepsValid(Snapshot(), caller, form, fileAttached, newId);
      if !fileAttached {
        return ServerError;
      }
      var doc := CreateItemDoc(Listing.ListingDraft(form, caller));
      if doc.Err? || newId in items {
        return ServerError;
      }
      items := items[newId := doc.value];
      order := order + [newId];
      res := Done;
    }

    /** POST /approve/:id behind the admin gate. */
    method Approve(caller: UserId, id: ItemId) returns (res: Response)
      requires Valid()
      modifies this
      ensures Valid()
      ensures Step(Snapshot(), res) == Listing.Approve(old(Snapshot()), caller, id)
    {
      Listing.FlagRoutesKeepValid(Snapshot(), caller, id);
      if CheckAdmin(users, caller) == Denied {
        return Forbidden;
      }
      if id !in items {
        return NotFound;
      }
      var item := items[id];
      item := item.(approved := true);
      items := items[id := item];
      res := Done;
    }

    /** POST /feature/:id behind the admin gate. */
    method Feature(caller: UserId, id: ItemId) returns (res: Response)
      requires Valid()
      modifies this
      ensures Valid()
      ensures Step(Snapshot(), res) == Listing.Feature(old(Snapshot()), caller, id)
    {
      Listing.FlagRoutesKeepValid(Snapshot(), caller, id);
      if CheckAdmin(users, caller) == Denied {
        return Forbidden;
      }
      if id !in items {
        return NotFound;
      }
      var item := items[id];
      item := item.(featured := true);
      items := items[id := item];
      res := Done;
    }

    /** `findByIdAndDelete`: removes the document, or reports that there was none. */
    method FindByIdAndDelete(id: ItemId) returns (found: bool)
      requires Valid()
      modifies this
      ensures Valid()
      ensures found == (id in old(items))
      ensures Snapshot() == if found then Listing.DeleteItem(old(Snapshot()), id) else old(Snapshot())
    {
      found := id in items;
      if found {
        Listing.DeleteRoutesKeepValid(Snapshot(), 0, id);
        assert Listing.Delete(Snapshot(), id).db == Listing.DeleteItem(Snapshot(), id);
        items := items - {id};
        order := RemoveId(order, id);
      }
    }

    /** DELETE /reject/:id behind the admin gate. */
    method Reject(caller: UserId, id: ItemId) returns (res: Response)
      requires Valid()
      modifies this
      ensures Valid()
      ensures Step(Snapshot(), res) == Listing.Reject(old(Snapshot()), caller, id)
    {
      if CheckAdmin(users, caller) == Denied {
        return Forbidden;
      }
      var found := FindByIdAndDelete(id);
      res := if found then Done else NotFound;
    }

    /** DELETE /items/:id, open to anyone. */
    method Delete(id: ItemId) returns (res: Response)
      requires Valid()
      modifies this
      ensures Valid()
      ensures Step(Snapshot(), res) == Listing.Delete(old(Snapshot()), id)
    {
      var found := FindByIdAndDelete(id);
      res := if found then Done else NotFound;
    }
  }
}
