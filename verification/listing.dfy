/**
 * The item routes that create, approve, reject, feature and delete listings.
 * Approve, reject and feature sit behind the admin gate; delete has none.
 */
module Listing {
  import opened Common
  import opened Text
  import opened ItemSchema
  import opened UserSchema
  import opened Database
  import opened AdminGate

  /**
   * The multipart fields of POST /items that the model keeps. `tags` is the
   * raw comma-separated string, absent when not sent; `pointCost` is what
   * `parseInt` made of the field, None standing for NaN.
   */
  datatype ListingForm = ListingForm(
    title: Option<string>,
    description: Option<string>,
    size: Option<string>,
    condition: Option<string>,
    category: Option<string>,
    kind: Option<string>,
    tags: Option<string>,
    pointCost: Option<int>)

  /** `parseInt(pointCost) || 20`: NaN and 0 are both falsy. */
  function ListingCost(parsed: Option<int>): (c: int)
    ensures c != 0
    ensures parsed.Some? && parsed.value != 0 ==> c == parsed.value
    ensures parsed.None? || parsed.value == 0 ==> c == DefaultPointCost
  {
    if parsed.None? || parsed.value == 0 then DefaultPointCost else parsed.value
  }

  /** The tags of a listing: `tags?.split(',') || []`. */
  function ListingTags(raw: Option<string>): (tags: seq<string>)
    ensures raw.None? ==> tags == []
    ensures raw.Some? ==> |tags| >= 1 && Join(tags, ',') == raw.value
    ensures forall k :: 0 <= k < |tags| ==> ',' !in tags[k]
  {
    if raw.None? then [] else JoinSplit(raw.value, ','); Split(raw.value, ',')
  }

  /** The document the add-item route hands to `Item.create` for `caller`. */
  function ListingDraft(form: ListingForm, caller: UserId): (d: ItemDraft)
    ensures d.uploadedBy == Some(caller)
    ensures d.tags == ListingTags(form.tags)
    ensures d.pointCost == Some(ListingCost(form.pointCost))
    ensures d.status.None? && d.approved.None? && d.featured.None?
    ensures d.title == form.title && d.description == form.description && d.size == form.size &&
            d.condition == form.condition && d.category == form.category && d.kind == form.kind
  {
    ItemDraft(form.title, form.description, form.size, form.condition, form.category, form.kind,
              ListingTags(form.tags), None, None, None, Some(caller), Some(ListingCost(form.pointCost)))
  }

  /**
   * POST /items. `newId` is the ObjectId the driver generates for the new
   * document; `fileAttached` says whether an image came with the request
   * (reading the buffer of a missing file throws). Every failure is caught
   * and answered 500.
   */
  function AddItem(db: Db, caller: UserId, form: ListingForm, fileAttached: bool, newId: ItemId): (r: Step)
    ensures r.response == Done <==>
      fileAttached && (form.pointCost.None? || form.pointCost.value >= 0) && newId !in db.items
    ensures r.response != Done ==> r == Step(db, ServerError)
    ensures r.response == Done ==>
      && r.db.users == db.users && r.db.log == db.log
      && r.db.order == db.order + [newId]
      && newId in r.db.items && r.db.items == db.items[newId := r.db.items[newId]]
    ensures r.response == Done ==>
      var it := r.db.items[newId];
      && it.uploadedBy == Some(caller)
      && it.status == Available && !it.approved && !it.featured
      && it.pointCost == ListingCost(form.pointCost) && it.pointCost > 0
      && it.tags == ListingTags(form.tags)
      && it.title == form.title && it.category == form.category && it.kind == form.kind
      && it.size == form.size && it.condition == form.condition && it.description == form.description
  {
    if !fileAttached then Step(db, ServerError)
    else
      var doc := CreateItemDoc(ListingDraft(form, caller));
      if doc.Err? then Step(db, ServerError)
      else if newId in db.items then Step(db, ServerError)  // duplicate _id
      else Step(db.(items := db.items[newId := doc.value], order := db.order + [newId]), Done)
  }

  /** The answer of an admin route before its body runs, or None to go on. */
  function AdminCheck(db: Db, caller: UserId, id: ItemId): (r: Option<Response>)
    ensures r == Some(Forbidden) <==> CheckAdmin(db.users, caller) == Denied
    ensures r == Some(NotFound) <==> CheckAdmin(db.users, caller) == Next && id !in db.items
    ensures r.None? <==> CheckAdmin(db.users, caller) == Next && id in db.items
  {
    if CheckAdmin(db.users, caller) == Denied then Some(Forbidden)
    else if id !in db.items then Some(NotFound)
    else None
  }

  /** POST /approve/:id, behind the admin gate: sets `approved` on the item. */
  function Approve(db: Db, caller: UserId, id: ItemId): (r: Step)
    ensures AdminCheck(db, caller, id).Some? ==> r == Step(db, AdminCheck(db, caller, id).value)
    ensures AdminCheck(db, caller, id).None? ==> r.response == Done
    ensures r.db.users == db.users && r.db.log == db.log && r.db.order == db.order
    ensures r.db.items.Keys == db.items.Keys
    ensures forall x :: x in db.items && x != id ==> r.db.items[x] == db.items[x]
    ensures r.response == Done ==>
      r.db.items[id].approved && r.db.items[id].(approved := db.items[id].approved) == db.items[id]
  {
    var refused := AdminCheck(db, caller, id);
    if refused.Some? then Step(db, refused.value)
    else Step(db.(items := db.items[id := db.items[id].(approved := true)]), Done)
  }

  /** Approving an item that is already approved leaves the store as it was. */
  lemma ApproveApprovedIsNoOp(db: Db, caller: UserId, id: ItemId)
    requires id in db.items && db.items[id].approved
    ensures Approve(db, caller, id).db == db
  {
    assert db.items[id := db.items[id].(approved := true)] == db.items;
  }

  /** Approve is idempotent. */
  lemma ApproveIdempotent(db: Db, caller: UserId, id: ItemId)
    ensures var once := Approve(db, caller, id).db; Approve(once, caller, id).db == once
  {
    var once := Approve(db, caller, id).db;
    if AdminCheck(db, caller, id).None? {
      ApproveApprovedIsNoOp(once, caller, id);
    }
  }

  /** The store without the item: its document and its place in the natural order. */
  function DeleteItem(db: Db, id: ItemId): (db': Db)
    ensures db'.items.Keys == db.items.Keys - {id}
    ensures forall x :: x in db'.items ==> db'.items[x] == db.items[x]
    ensures forall x :: x in db'.order <==> x in db.order && x != id
    ensures db'.users == db.users && db'.log == db.log
    ensures Distinct(db.order) ==>
      forall i, j, a, b ::
        (0 <= i < j < |db.order| && 0 <= a < |db'.order| && 0 <= b < |db'.order| &&
         db'.order[a] == db.order[i] && db'.order[b] == db.order[j]) ==> a < b
  {
    RemoveIdInOrder(db.order, id);
    db.(items := db.items - {id}, order := RemoveId(db.order, id))
  }

  /** DELETE /reject/:id, behind the admin gate: deletes the item outright. */
  function Reject(db: Db, caller: UserId, id: ItemId): (r: Step)
    ensures AdminCheck(db, caller, id).Some? ==> r == Step(db, AdminCheck(db, caller, id).value)
    ensures AdminCheck(db, caller, id).None? ==> r == Step(DeleteItem(db, id), Done)
  {
    var refused := AdminCheck(db, caller, id);
    if refused.Some? then Step(db, refused.value) else Step(DeleteItem(db, id), Done)
  }

  /** POST /feature/:id, behind the admin gate: sets `featured` on the item. */
  function Feature(db: Db, caller: UserId, id: ItemId): (r: Step)
    ensures AdminCheck(db, caller, id).Some? ==> r == Step(db, AdminCheck(db, caller, id).value)
    ensures AdminCheck(db, caller, id).None? ==> r.response == Done
    ensures r.db.users == db.users && r.db.log == db.log && r.db.order == db.order
    ensures r.db.items.Keys == db.items.Keys
    ensures forall x :: x in db.items && x != id ==> r.db.items[x] == db.items[x]
    ensures r.response == Done ==>
      r.db.items[id].featured && r.db.items[id].(featured := db.items[id].featured) == db.items[id]
  {
    var refused := AdminCheck(db, caller, id);
    if refused.Some? then Step(db, refused.value)
    else Step(db.(items := db.items[id := db.items[id].(featured := true)]), Done)
  }

  /** DELETE /items/:id: no sign-in and no admin gate; 404 when there is no such item. */
  function Delete(db: Db, id: ItemId): (r: Step)
    ensures id !in db.items ==> r == Step(db, NotFound)
    ensures id in db.items ==> r == Step(DeleteItem(db, id), Done)
  {
    if id !in db.items then Step(db, NotFound) else Step(DeleteItem(db, id), Done)
  }

  /** A rejection by an admin and an anonymous delete have the same effect on an existing item. */
  lemma RejectIsGatedDelete(db: Db, caller: UserId, id: ItemId)
    requires CheckAdmin(db.users, caller) == Next
    ensures Reject(db, caller, id) == Delete(db, id)
  {
  }

  /** A run that leaves every balance, the log and the status of every surviving item as they were. */
  ghost predicate KeepsLedger(db: Db, r: Step) {
    && r.db.users == db.users && r.db.log == db.log
    && (forall x :: x in db.items && x in r.db.items ==> r.db.items[x].status == db.items[x].status)
  }

  /** None of these routes touches a balance or the log, or gives an item back its 'available' status. */
  lemma ListingRoutesKeepLedger(db: Db, caller: UserId, id: ItemId, form: ListingForm, file: bool, newId: ItemId)
    ensures KeepsLedger(db, Approve(db, caller, id))
    ensures KeepsLedger(db, Reject(db, caller, id))
    ensures KeepsLedger(db, Feature(db, caller, id))
    ensures KeepsLedger(db, Delete(db, id))
    ensures KeepsLedger(db, AddItem(db, caller, form, file, newId))
  {
  }

  /** Creating an item keeps the store's indexes and schemas satisfied. */
  lemma AddItemKeepsValid(db: Db, caller: UserId, form: ListingForm, file: bool, newId: ItemId)
    requires Valid(db)
    ensures Valid(AddItem(db, caller, form, file, newId).db)
  {
    var r := AddItem(db, caller, form, file, newId);
    if r.response == Done {
      assert newId !in db.order;
      assert forall x :: x in r.db.order <==> x in db.order || x == newId;
      assert forall x :: x in r.db.items <==> x in db.items || x == newId;
    }
  }

  /** Approving or featuring keeps the store's indexes and schemas satisfied. */
  lemma FlagRoutesKeepValid(db: Db, caller: UserId, id: ItemId)
    requires Valid(db)
    ensures Valid(Approve(db, caller, id).db)
    ensures Valid(Feature(db, caller, id).db)
  {
    if AdminCheck(db, caller, id).None? {
      assert Approve(db, caller, id).db.items.Keys == db.items.Keys;
      assert Feature(db, caller, id).db.items.Keys == db.items.Keys;
    }
  }

  /** Deleting keeps the store's indexes and schemas satisfied. */
  lemma DeleteRoutesKeepValid(db: Db, caller: UserId, id: ItemId)
    requires Valid(db)
    ensures Valid(Reject(db, caller, id).db)
    ensures Valid(Delete(db, id).db)
  {
  }
}
