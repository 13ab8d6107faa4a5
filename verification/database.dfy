/**
 * The three collections the handlers read and write, as one value: users
 * and items keyed by id, the items' natural order, and the transaction log.
 */
module Database {
  import opened Common
  import opened ItemSchema
  import opened UserSchema
  import opened TransactionSchema

  datatype Db = Db(
    users: map<UserId, User>,
    items: map<ItemId, Item>,
    order: seq<ItemId>,            // the item collection's natural order
    log: seq<Transaction>)         // the transaction collection in insertion order

  /** What the indexes and the schemas keep true of the stored documents. */
  ghost predicate Valid(db: Db) {
    && Distinct(db.order)
    && (forall id :: id in db.order <==> id in db.items)
    && (forall id :: id in db.items ==> ValidItem(db.items[id]))
    && EmailsUnique(db.users)
  }

  /** No user holds a negative balance. */
  ghost predicate NonNegativeBalances(db: Db) {
    forall u :: u in db.users ==> db.users[u].points >= 0
  }

  /** One handler run: the store afterwards and the answer. */
  datatype Step = Step(db: Db, response: Response)

  /** The natural order once `id` is deleted. */
  function RemoveId(order: seq<ItemId>, id: ItemId): (r: seq<ItemId>)
    ensures forall x :: x in r <==> x in order && x != id
    ensures Distinct(order) ==> Distinct(r)
  {
    if |order| == 0 then []
    else
      var rest := RemoveId(order[1..], id);
      DistinctTail(order);
      if order[0] == id then rest else [order[0]] + rest
  }

  /** A delete keeps the natural order of the ids that survive it. */
  lemma {:induction false} RemoveIdKeepsOrder(order: seq<ItemId>, id: ItemId, i: nat, j: nat, a: nat, b: nat)
    requires Distinct(order) && i < j < |order|
    requires var r := RemoveId(order, id); a < |r| && b < |r| && r[a] == order[i] && r[b] == order[j]
    ensures a < b
  {
    var r := RemoveId(order, id);
    var rest := RemoveId(order[1..], id);
    DistinctTail(order);
    if i == 0 {
      assert order[0] != id && order[0] !in rest;
      assert r == [order[0]] + rest;
      assert r[0] == r[a];
      assert r[b] != order[0];
    } else if order[0] != id {
      assert r == [order[0]] + rest;
      assert r[a] != order[0] && r[b] != order[0];
      assert rest[a - 1] == order[1..][i - 1] && rest[b - 1] == order[1..][j - 1];
      RemoveIdKeepsOrder(order[1..], id, i - 1, j - 1, a - 1, b - 1);
    } else {
      assert rest[a] == order[1..][i - 1] && rest[b] == order[1..][j - 1];
      RemoveIdKeepsOrder(order[1..], id, i - 1, j - 1, a, b);
    }
  }

  lemma RemoveIdInOrder(order: seq<ItemId>, id: ItemId)
    ensures Distinct(order) ==>
      forall i, j, a, b ::
        (0 <= i < j < |order| && 0 <= a < |RemoveId(order, id)| && 0 <= b < |RemoveId(order, id)| &&
         RemoveId(order, id)[a] == order[i] && RemoveId(order, id)[b] == order[j]) ==> a < b
  {
    var r := RemoveId(order, id);
    if Distinct(order) {
      forall i, j, a, b | 0 <= i < j < |order| && 0 <= a < |r| && 0 <= b < |r| && r[a] == order[i] && r[b] == order[j]
        ensures a < b
      {
        RemoveIdKeepsOrder(order, id, i, j, a, b);
      }
    }
  }

  lemma DistinctTail<T>(s: seq<T>)
    requires |s| > 0
    ensures Distinct(s) ==> Distinct(s[1..]) && s[0] !in s[1..]
  {
  }

  /** The balance of one user changed, everything else about the users as it was. */
  lemma PointsUpdateKeepsEmailsUnique(users: map<UserId, User>, u: UserId, points: int)
    requires u in users && EmailsUnique(users)
    ensures EmailsUnique(users[u := users[u].(points := points)])
  {
    var users' := users[u := users[u].(points := points)];
    forall a, b | a in users' && b in users' && a != b
      ensures users'[a].email != users'[b].email
    {
      assert users'[a].email == users[a].email && users'[b].email == users[b].email;
    }
  }
}
