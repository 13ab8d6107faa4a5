/**
 * The Item document: its fields, the defaults the schema fills in, the
 * `status` enum and the lower bound on `pointCost`.
 */
module ItemSchema {
  import opened Common

  /** The `status` enum of an item. */
  datatype Status = Available | Swapped | Redeemed

  function StatusName(s: Status): string {
    match s
    case Available => "available"
    case Swapped => "swapped"
    case Redeemed => "redeemed"
  }

  /** Casts a string to the enum; anything outside it is refused. */
  function ParseStatus(name: string): (r: Option<Status>)
    ensures r.Some? <==> name == "available" || name == "swapped" || name == "redeemed"
    ensures r.Some? ==> StatusName(r.value) == name
  {
    if name == "available" then Some(Available)
    else if name == "swapped" then Some(Swapped)
    else if name == "redeemed" then Some(Redeemed)
    else None
  }

  lemma StatusNameRoundTrip(s: Status)
    ensures ParseStatus(StatusName(s)) == Some(s)
  {
  }

  /** The schema default of `pointCost`, also the fallback the routes use for a zero cost. */
  const DefaultPointCost := 20

  /**
   * A stored item. The image buffer and the timestamps are not part of this model.
   * `kind` is the document's `type` path.
   */
  datatype Item = Item(
    title: Option<string>,
    description: Option<string>,
    size: Option<string>,
    condition: Option<string>,
    category: Option<string>,
    kind: Option<string>,
    tags: seq<string>,
    featured: bool,
    status: Status,
    approved: bool,
    uploadedBy: Option<UserId>,
    pointCost: int)

  /** What `Item.create` is given: the paths with a default may be absent. */
  datatype ItemDraft = ItemDraft(
    title: Option<string>,
    description: Option<string>,
    size: Option<string>,
    condition: Option<string>,
    category: Option<string>,
    kind: Option<string>,
    tags: seq<string>,
    featured: Option<bool>,
    status: Option<string>,
    approved: Option<bool>,
    uploadedBy: Option<UserId>,
    pointCost: Option<int>)

  /** What the schema guarantees of every stored item beyond its types. */
  predicate ValidItem(it: Item) {
    it.pointCost >= 0
  }

  function OrDefault<T>(v: Option<T>, default: T): T {
    if v.Some? then v.value else default
  }

  /** Casts and validates a draft, filling in the schema defaults. */
  function CreateItemDoc(d: ItemDraft): (r: Result<Item, SchemaError>)
    ensures r.Ok? <==>
      (d.status.None? || ParseStatus(d.status.value).Some?) &&
      (d.pointCost.None? || d.pointCost.value >= 0)
    ensures r.Ok? ==> ValidItem(r.value)
    ensures r.Ok? ==> StatusName(r.value.status) == OrDefault(d.status, "available")
    ensures r.Ok? ==> r.value.approved == (d.approved == Some(true))
    ensures r.Ok? ==> r.value.featured == (d.featured == Some(true))
    ensures r.Ok? ==> r.value.pointCost == OrDefault(d.pointCost, DefaultPointCost)
    ensures r.Ok? ==> r.value.tags == d.tags && r.value.uploadedBy == d.uploadedBy
    ensures r.Ok? ==>
      r.value.title == d.title && r.value.description == d.description &&
      r.value.size == d.size && r.value.condition == d.condition &&
      r.value.category == d.category && r.value.kind == d.kind
  {
    var status := if d.status.None? then Some(Available) else ParseStatus(d.status.value);
    var cost := OrDefault(d.pointCost, DefaultPointCost);
    if status.None? then Err(NotInEnum("status"))
    else if cost < 0 then Err(BelowMin("pointCost"))
    else Ok(Item(d.title, d.description, d.size, d.condition, d.category, d.kind, d.tags,
                 OrDefault(d.featured, false), status.value, OrDefault(d.approved, false),
                 d.uploadedBy, cost))
  }

  /** A draft that sets none of the defaulted paths gives an unapproved, unfeatured, available item. */
  lemma NewItemDefaults(d: ItemDraft)
    requires d.status.None? && d.approved.None? && d.featured.None?
    requires d.pointCost.None? || d.pointCost.value >= 0
    ensures CreateItemDoc(d).Ok?
    ensures CreateItemDoc(d).value.status == Available
    ensures !CreateItemDoc(d).value.approved && !CreateItemDoc(d).value.featured
  {
  }
}
