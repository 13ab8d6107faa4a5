/**
 * GET /admin/pending, and how the listing routes move an item through the
 * review queue: created pending and unlisted, approved out of the queue.
 */
module AdminRoutes {
  import opened Common
  import opened ItemSchema
  import opened Database
  import opened AdminGate
  import opened Listing
  import opened Catalog

  /** GET /pending behind the admin gate: `Item.find({ approved: false })`. */
  function Pending(db: Db, caller: UserId): (r: Result<seq<ItemId>, Response>)
    ensures r.Err? <==> CheckAdmin(db.users, caller) == Denied
    ensures r.Err? ==> r.error == Forbidden
    ensures r.Ok? ==> forall x :: x in r.value <==> x in db.order && x in db.items && !db.items[x].approved
    ensures r.Ok? && Distinct(db.order) ==> Distinct(r.value)
  {
    if CheckAdmin(db.users, caller) == Denied then Err(Forbidden)
    else
      MatchesOne(ApprovedIs(false));
      Ok(Find(db.items, db.order, [ApprovedIs(false)]))
  }

  /** A new listing waits in the review queue and is not offered on the available list. */
  lemma NewListingIsPending(db: Db, caller: UserId, form: ListingForm, file: bool, newId: ItemId, admin: UserId)
    requires AddItem(db, caller, form, file, newId).response == Done
    ensures var db' := AddItem(db, caller, form, file, newId).db;
      && newId !in AvailableItems(db')
      && (CheckAdmin(db'.users, admin) == Next ==> newId in Pending(db', admin).value)
  {
  }

  /** An approved item leaves the review queue, and an available approved item is listed. */
  lemma ApprovalLeavesQueue(db: Db, admin: UserId, id: ItemId)
    requires Approve(db, admin, id).response == Done
    ensures var db' := Approve(db, admin, id).db;
      && id !in Pending(db', admin).value
      && (id in db.order && db.items[id].status == Available ==> id in AvailableItems(db'))
  {
  }
}
