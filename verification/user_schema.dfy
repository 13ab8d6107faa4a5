/**
 * The User document: required paths, the starting balance, the `role` and
 * `swaps[].status` enums, and the unique index on `email`.
 */
module UserSchema {
  import opened Common

  /** The `role` enum: 'user' or 'admin'. */
  datatype Role = Member | Admin

  function RoleName(r: Role): string {
    match r
    case Member => "user"
    case Admin => "admin"
  }

  function ParseRole(name: string): (r: Option<Role>)
    ensures r.Some? <==> name == "user" || name == "admin"
    ensures r.Some? ==> RoleName(r.value) == name
  {
    if name == "user" then Some(Member) else if name == "admin" then Some(Admin) else None
  }

  /** The `swaps[].status` enum: 'swapped' or 'redeemed'. */
  datatype SwapOutcome = WasSwapped | WasRedeemed

  function SwapOutcomeName(s: SwapOutcome): string {
    match s
    case WasSwapped => "swapped"
    case WasRedeemed => "redeemed"
  }

  function ParseSwapOutcome(name: string): (r: Option<SwapOutcome>)
    ensures r.Some? <==> name == "swapped" || name == "redeemed"
    ensures r.Some? ==> SwapOutcomeName(r.value) == name
  {
    if name == "swapped" then Some(WasSwapped) else if name == "redeemed" then Some(WasRedeemed) else None
  }

  datatype SwapEntry = SwapEntry(item: Option<ItemId>, status: Option<SwapOutcome>)

  /** A stored user; `password` is the opaque hash. */
  datatype User = User(
    name: string,
    email: string,
    password: string,
    role: Role,
    points: int,
    isAdmin: bool,
    swaps: seq<SwapEntry>)

  datatype SwapEntryDraft = SwapEntryDraft(item: Option<ItemId>, status: Option<string>)

  /** What `User.create` is given: every path may be absent. */
  datatype UserDraft = UserDraft(
    name: Option<string>,
    email: Option<string>,
    password: Option<string>,
    role: Option<string>,
    points: Option<int>,
    isAdmin: Option<bool>,
    swaps: seq<SwapEntryDraft>)

  const StartingPoints := 100

  /** A required String path must be present and not empty. */
  predicate RequiredString(v: Option<string>) {
    v.Some? && v.value != ""
  }

  predicate SwapEntryOk(e: SwapEntryDraft) {
    e.status.None? || ParseSwapOutcome(e.status.value).Some?
  }

  /** Casts the `swaps` array entry by entry; one entry outside the enum refuses the whole array. */
  function CastSwaps(ds: seq<SwapEntryDraft>): (r: Option<seq<SwapEntry>>)
    ensures r.Some? <==> forall k :: 0 <= k < |ds| ==> SwapEntryOk(ds[k])
    ensures r.Some? ==> |r.value| == |ds|
    ensures r.Some? ==> forall k :: 0 <= k < |ds| ==>
      r.value[k].item == ds[k].item &&
      (r.value[k].status.Some? <==> ds[k].status.Some?) &&
      (r.value[k].status.Some? ==> SwapOutcomeName(r.value[k].status.value) == ds[k].status.value)
  {
    if |ds| == 0 then Some([])
    else
      var rest := CastSwaps(ds[1..]);
      var head := ds[0];
      if !SwapEntryOk(head) then None
      else if rest.None? then None
      else
        var status := if head.status.None? then None else Some(ParseSwapOutcome(head.status.value).value);
        Some([SwapEntry(head.item, status)] + rest.value)
  }

  /** Casts and validates a draft, filling in the schema defaults. */
  function CreateUserDoc(d: UserDraft): (r: Result<User, SchemaError>)
    ensures r.Ok? <==>
      RequiredString(d.name) && RequiredString(d.email) && RequiredString(d.password) &&
      (d.role.None? || ParseRole(d.role.value).Some?) &&
      (forall k :: 0 <= k < |d.swaps| ==> SwapEntryOk(d.swaps[k]))
    ensures r.Ok? ==>
      r.value.name == d.name.value && r.value.email == d.email.value &&
      r.value.password == d.password.value
    ensures r.Ok? ==> r.value.points == (if d.points.Some? then d.points.value else StartingPoints)
    ensures r.Ok? ==> r.value.isAdmin == (d.isAdmin == Some(true))
    ensures r.Ok? ==> RoleName(r.value.role) == (if d.role.Some? then d.role.value else "user")
    ensures r.Ok? ==> |r.value.swaps| == |d.swaps|
  {
    var role := if d.role.None? then Some(Member) else ParseRole(d.role.value);
    var swaps := CastSwaps(d.swaps);
    if !RequiredString(d.name) then Err(Required("name"))
    else if !RequiredString(d.email) then Err(Required("email"))
    else if !RequiredString(d.password) then Err(Required("password"))
    else if role.None? then Err(NotInEnum("role"))
    else if swaps.None? then Err(NotInEnum("swaps.status"))
    else Ok(User(d.name.value, d.email.value, d.password.value, role.value,
                 if d.points.Some? then d.points.value else StartingPoints,
                 d.isAdmin == Some(true), swaps.value))
  }

  /** The unique index on `email`: no two stored users share one. */
  ghost predicate EmailsUnique(users: map<UserId, User>) {
    forall a, b :: a in users && b in users && a != b ==> users[a].email != users[b].email
  }

  predicate EmailTaken(users: map<UserId, User>, email: string) {
    exists u :: u in users && users[u].email == email
  }

  /**
   * `User.create`: validate the draft, then insert under the id the driver
   * generated, refused by the unique indexes on `_id` and `email`.
   */
  function InsertUser(users: map<UserId, User>, id: UserId, d: UserDraft): (r: Result<map<UserId, User>, SchemaError>)
    ensures r.Ok? <==> CreateUserDoc(d).Ok? && id !in users && !EmailTaken(users, d.email.value)
    ensures r.Ok? ==> r.value == users[id := CreateUserDoc(d).value]
    ensures r.Ok? && EmailsUnique(users) ==> EmailsUnique(r.value)
  {
    var doc := CreateUserDoc(d);
    if doc.Err? then Err(doc.error)
    else if id in users || EmailTaken(users, doc.value.email) then Err(DuplicateKey)
    else Ok(users[id := doc.value])
  }

  /** A user signed up with only the required paths starts with 100 points, as a non-admin 'user'. */
  lemma NewUserDefaults(users: map<UserId, User>, id: UserId, d: UserDraft)
    requires InsertUser(users, id, d).Ok?
    requires d.points.None? && d.isAdmin.None? && d.role.None?
    ensures InsertUser(users, id, d).value[id].points == StartingPoints
    ensures !InsertUser(users, id, d).value[id].isAdmin
    ensures InsertUser(users, id, d).value[id].role == Member
  {
  }
}
