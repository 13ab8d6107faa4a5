/**
 * The read-only item routes: each builds a Mongo filter document and returns
 * the matching items in the collection's natural order. Suggest then
 * collects matching tags from at most ten of them.
 */
module Catalog {
  import opened Common
  import opened ItemSchema
  import opened Database
  import opened Sequences

  /** One condition of a filter document over items. */
  datatype Cond =
    | ApprovedIs(approved: bool)                // { approved: b }
    | FeaturedIs(featured: bool)                // { featured: b }
    | StatusIn(statuses: set<Status>)           // { status: { $in: [...] } } or { status: s }
    | UploadedBy(user: UserId)                  // { uploadedBy: id }
    | CategoryIs(category: string)              // { category: c }
    | KindIs(kind: string)                      // { type: t }
    | SizeIs(size: string)                      // { size: s }
    | ConditionIs(condition: string)            // { condition: c }
    | HasTag(tag: string)                       // { tags: t }: the array holds t
    | TagLike(pattern: string -> bool)          // { tags: /re/ }: some element matches

  /** A filter document: all of its conditions must hold. */
  type Query = seq<Cond>

  predicate Holds(it: Item, c: Cond) {
    match c
    case ApprovedIs(b) => it.approved == b
    case FeaturedIs(b) => it.featured == b
    case StatusIn(ss) => it.status in ss
    case UploadedBy(u) => it.uploadedBy == Some(u)
    case CategoryIs(v) => it.category == Some(v)
    case KindIs(v) => it.kind == Some(v)
    case SizeIs(v) => it.size == Some(v)
    case ConditionIs(v) => it.condition == Some(v)
    case HasTag(t) => t in it.tags
    case TagLike(p) => exists k :: 0 <= k < |it.tags| && p(it.tags[k])
  }

  predicate Matches(it: Item, q: Query) {
    forall k :: 0 <= k < |q| ==> Holds(it, q[k])
  }

  /** `Item.find(q)`: the matching items, in natural order. */
  function Find(items: map<ItemId, Item>, order: seq<ItemId>, q: Query): (r: seq<ItemId>)
    ensures forall x :: x in r <==> x in order && x in items && Matches(items[x], q)
    ensures Distinct(order) ==> Distinct(r)
    ensures |r| <= |order|
  {
    if |order| == 0 then []
    else
      var rest := Find(items, order[1..], q);
      DistinctTail(order);
      if order[0] in items && Matches(items[order[0]], q) then [order[0]] + rest else rest
  }

  /**
   * `find` keeps the natural order: of two ids listed in the result, the one
   * earlier in `order` comes first.
   */
  lemma {:induction false} FindKeepsOrder(items: map<ItemId, Item>, order: seq<ItemId>, q: Query, i: nat, j: nat, a: nat, b: nat)
    requires Distinct(order) && i < j < |order|
    requires var r := Find(items, order, q); a < |r| && b < |r| && r[a] == order[i] && r[b] == order[j]
    ensures a < b
  {
    var r := Find(items, order, q);
    var rest := Find(items, order[1..], q);
    DistinctTail(order);
    if i == 0 {
      assert r[a] == order[0] && order[0] !in rest;
      assert r == [order[0]] + rest;
      assert r[0] == r[a];
      assert r[b] != order[0];
    } else if order[0] in items && Matches(items[order[0]], q) {
      assert r == [order[0]] + rest;
      assert r[a] != order[0] && r[b] != order[0];
      assert rest[a - 1] == order[1..][i - 1] && rest[b - 1] == order[1..][j - 1];
      FindKeepsOrder(items, order[1..], q, i - 1, j - 1, a - 1, b - 1);
    } else {
      assert rest[a] == order[1..][i - 1] && rest[b] == order[1..][j - 1];
      FindKeepsOrder(items, order[1..], q, i - 1, j - 1, a, b);
    }
  }

  /**
   * The first `n` results of `find` are listed in natural order, and any
   * matching item earlier in that order than one of them is among them.
   */
  lemma FindPrefixInOrder(items: map<ItemId, Item>, order: seq<ItemId>, q: Query, n: nat)
    requires n <= |Find(items, order, q)|
    ensures var p := Find(items, order, q)[..n];
      Distinct(order) ==>
        && (forall i, j, a, b ::
              (0 <= i < j < |order| && 0 <= a < |p| && 0 <= b < |p| && p[a] == order[i] && p[b] == order[j]) ==> a < b)
        && (forall i, j ::
              (0 <= i < j < |order| && order[j] in p && order[i] in items && Matches(items[order[i]], q)) ==> order[i] in p)
  {
    var all := Find(items, order, q);
    var p := all[..n];
    if Distinct(order) {
      forall i, j, a, b | 0 <= i < j < |order| && 0 <= a < |p| && 0 <= b < |p| &&
        p[a] == order[i] && p[b] == order[j]
        ensures a < b
      {
        FindKeepsOrder(items, order, q, i, j, a, b);
      }
      forall i, j | 0 <= i < j < |order| && order[j] in p &&
        order[i] in items && Matches(items[order[i]], q)
        ensures order[i] in p
      {
        var b :| 0 <= b < |p| && p[b] == order[j];
        assert order[i] in all;
        var a :| 0 <= a < |all| && all[a] == order[i];
        FindKeepsOrder(items, order, q, i, j, a, b);
        assert p[a] == order[i];
      }
    }
  }

  /** GET /available: { approved: true, status: 'available' }. */
  function AvailableItems(db: Db): (r: seq<ItemId>)
    ensures forall x :: x in r <==>
      x in db.order && x in db.items && db.items[x].approved && db.items[x].status == Available
  {
    MatchesTwo(ApprovedIs(true), StatusIn({Available}));
    var q := [ApprovedIs(true), StatusIn({Available})];
    Find(db.items, db.order, q)
  }

  /** GET /: { approved: true }. */
  function ApprovedItems(db: Db): (r: seq<ItemId>)
    ensures forall x :: x in r <==> x in db.order && x in db.items && db.items[x].approved
  {
    MatchesOne(ApprovedIs(true));
    Find(db.items, db.order, [ApprovedIs(true)])
  }

  /** GET /featured/all: { approved: true, featured: true }. */
  function FeaturedItems(db: Db): (r: seq<ItemId>)
    ensures forall x :: x in r <==>
      x in db.order && x in db.items && db.items[x].approved && db.items[x].featured
  {
    MatchesTwo(ApprovedIs(true), FeaturedIs(true));
    Find(db.items, db.order, [ApprovedIs(true), FeaturedIs(true)])
  }

  /** The query parameters of GET /search; an absent parameter is "", which is falsy. */
  datatype SearchParams = SearchParams(category: string, kind: string, tag: string, size: string, condition: string)

  /** `...(v && { path: v })`: a condition only for a non-empty parameter. */
  function OnlyIf(v: string, c: Cond): Query {
    if v == "" then [] else [c]
  }

  function SearchQuery(p: SearchParams): Query {
    [ApprovedIs(true)]
      + OnlyIf(p.category, CategoryIs(p.category))
      + OnlyIf(p.kind, KindIs(p.kind))
      + OnlyIf(p.tag, HasTag(p.tag))
      + OnlyIf(p.size, SizeIs(p.size))
      + OnlyIf(p.condition, ConditionIs(p.condition))
  }

  /** What a search asks of an item: approved, and equal on every parameter that was given. */
  predicate SearchHit(it: Item, p: SearchParams) {
    && it.approved
    && (p.category != "" ==> it.category == Some(p.category))
    && (p.kind != "" ==> it.kind == Some(p.kind))
    && (p.tag != "" ==> p.tag in it.tags)
    && (p.size != "" ==> it.size == Some(p.size))
    && (p.condition != "" ==> it.condition == Some(p.condition))
  }

  lemma MatchesConcat(it: Item, a: Query, b: Query)
    ensures Matches(it, a + b) <==> Matches(it, a) && Matches(it, b)
  {
    if Matches(it, a) && Matches(it, b) {
      forall k | 0 <= k < |a + b| ensures Holds(it, (a + b)[k]) {
        if k >= |a| {
          assert (a + b)[k] == b[k - |a|];
        }
      }
    }
    if Matches(it, a + b) {
      forall k | 0 <= k < |a| ensures Holds(it, a[k]) {
        assert (a + b)[k] == a[k];
      }
      forall k | 0 <= k < |b| ensures Holds(it, b[k]) {
        assert (a + b)[|a| + k] == b[k];
      }
    }
  }

  lemma MatchesOne(c: Cond)
    ensures forall it :: Matches(it, [c]) <==> Holds(it, c)
  {
    forall it ensures Matches(it, [c]) <==> Holds(it, c) {
      assert [c][0] == c;
    }
  }

  lemma MatchesTwo(c0: Cond, c1: Cond)
    ensures forall it :: Matches(it, [c0, c1]) <==> Holds(it, c0) && Holds(it, c1)
  {
    forall it ensures Matches(it, [c0, c1]) <==> Holds(it, c0) && Holds(it, c1) {
      assert [c0, c1][0] == c0 && [c0, c1][1] == c1;
    }
  }

  lemma MatchesOnlyIf(it: Item, v: string, c: Cond)
    ensures Matches(it, OnlyIf(v, c)) <==> v == "" || Holds(it, c)
  {
    MatchesOne(c);
  }

  /** The filter document the search route builds selects exactly the search hits. */
  lemma {:induction false} SearchQueryMeaning(it: Item, p: SearchParams)
    ensures Matches(it, SearchQuery(p)) <==> SearchHit(it, p)
  {
    var q0: Query := [ApprovedIs(true)];
    var q1 := q0 + OnlyIf(p.category, CategoryIs(p.category));
    var q2 := q1 + OnlyIf(p.kind, KindIs(p.kind));
    var q3 := q2 + OnlyIf(p.tag, HasTag(p.tag));
    var q4 := q3 + OnlyIf(p.size, SizeIs(p.size));
    MatchesOne(ApprovedIs(true));
    MatchesOnlyIf(it, p.category, CategoryIs(p.category));
    MatchesOnlyIf(it, p.kind, KindIs(p.kind));
    MatchesOnlyIf(it, p.tag, HasTag(p.tag));
    MatchesOnlyIf(it, p.size, SizeIs(p.size));
    MatchesOnlyIf(it, p.condition, ConditionIs(p.condition));
    MatchesConcat(it, q0, OnlyIf(p.category, CategoryIs(p.category)));
    MatchesConcat(it, q1, OnlyIf(p.kind, KindIs(p.kind)));
    MatchesConcat(it, q2, OnlyIf(p.tag, HasTag(p.tag)));
    MatchesConcat(it, q3, OnlyIf(p.size, SizeIs(p.size)));
    MatchesConcat(it, q4, OnlyIf(p.condition, ConditionIs(p.condition)));
  }

  /** GET /search. */
  function Search(db: Db, p: SearchParams): (r: seq<ItemId>)
    ensures forall x :: x in r <==> x in db.order && x in db.items && SearchHit(db.items[x], p)
  {
    var r := Find(db.items, db.order, SearchQuery(p));
    assert forall x :: x in db.items ==> (Matches(db.items[x], SearchQuery(p)) <==> SearchHit(db.items[x], p)) by {
      forall x | x in db.items
        ensures Matches(db.items[x], SearchQuery(p)) <==> SearchHit(db.items[x], p)
      {
        SearchQueryMeaning(db.items[x], p);
      }
    }
    r
  }

  /** GET /me: { uploadedBy: caller }. */
  function MyUploads(db: Db, caller: UserId): (r: seq<ItemId>)
    ensures forall x :: x in r <==> x in db.order && x in db.items && db.items[x].uploadedBy == Some(caller)
  {
    MatchesOne(UploadedBy(caller));
    var q := [UploadedBy(caller)];
    Find(db.items, db.order, q)
  }

  /** GET /dashboard/swaps: the caller's items whose status is 'swapped' or 'redeemed'. */
  function MySwaps(db: Db, caller: UserId): (r: seq<ItemId>)
    ensures forall x :: x in r <==>
      x in db.order && x in db.items && db.items[x].uploadedBy == Some(caller) &&
      db.items[x].status != Available
  {
    MatchesTwo(UploadedBy(caller), StatusIn({Swapped, Redeemed}));
    var q := [UploadedBy(caller), StatusIn({Swapped, Redeemed})];
    assert forall x :: x in db.items ==> (db.items[x].status in {Swapped, Redeemed} <==> db.items[x].status != Available);
    Find(db.items, db.order, q)
  }

  /** A search with no parameter is the approved-items list, in the same order. */
  lemma EmptySearchListsApproved(db: Db)
    ensures Search(db, SearchParams("", "", "", "", "")) == ApprovedItems(db)
  {
    assert SearchQuery(SearchParams("", "", "", "", "")) == [ApprovedIs(true)];
  }

  /** GET /:id: the item, or 404. */
  function ItemDetail(db: Db, id: ItemId): (r: Result<Item, Response>)
    ensures r.Ok? <==> id in db.items
    ensures r.Ok? ==> r.value == db.items[id]
    ensures r.Err? ==> r.error == NotFound
  {
    if id in db.items then Ok(db.items[id]) else Err(NotFound)
  }

  /** GET /dashboard/points: the caller's balance; a caller with no user document makes `user.points` throw. */
  function DashboardPoints(db: Db, caller: UserId): (r: Result<int, Response>)
    ensures r.Ok? <==> caller in db.users
    ensures r.Ok? ==> r.value == db.users[caller].points
    ensures r.Err? ==> r.error == Crash
  {
    if caller in db.users then Ok(db.users[caller].points) else Err(Crash)
  }

  /** `Item.find({ tags: regex }).limit(10)`: the first ten items with a matching tag. */
  function SuggestPool(db: Db, m: string -> bool): (pool: seq<ItemId>)
    ensures |pool| <= 10
    ensures forall k :: 0 <= k < |pool| ==> pool[k] in db.items
    ensures forall k :: 0 <= k < |pool| ==> Holds(db.items[pool[k]], TagLike(m))
    ensures var all := Find(db.items, db.order, [TagLike(m)]);
      |pool| == Min(10, |all|) && pool == all[..|pool|]
    ensures |pool| < 10 ==>
      forall x :: x in db.order && x in db.items && Holds(db.items[x], TagLike(m)) ==> x in pool
    ensures Distinct(db.order) ==> Distinct(pool)
    ensures Distinct(db.order) ==>
      forall i, j ::
        (0 <= i < j < |db.order| && db.order[j] in pool &&
         db.order[i] in db.items && Holds(db.items[db.order[i]], TagLike(m))) ==> db.order[i] in pool
    ensures Distinct(db.order) ==>
      forall i, j, a, b ::
        (0 <= i < j < |db.order| && 0 <= a < |pool| && 0 <= b < |pool| &&
         pool[a] == db.order[i] && pool[b] == db.order[j]) ==> a < b
  {
    var all := Find(db.items, db.order, [TagLike(m)]);
    MatchesOne(TagLike(m));
    var first := all[..Min(10, |all|)];
    assert forall k :: 0 <= k < |first| ==> Holds(db.items[first[k]], TagLike(m)) by {
      forall k | 0 <= k < |first| ensures first[k] in db.items && Holds(db.items[first[k]], TagLike(m)) {
        assert first[k] == all[k] && all[k] in all;
      }
    }
    FindPrefixInOrder(db.items, db.order, [TagLike(m)], Min(10, |all|));
    first
  }

  /** `items.flatMap(item => item.tags.filter(tag => regex.test(tag)))`. */
  function MatchingTags(items: map<ItemId, Item>, pool: seq<ItemId>, m: string -> bool): (tags: seq<string>)
    requires forall k :: 0 <= k < |pool| ==> pool[k] in items
    ensures forall t :: t in tags <==> m(t) && exists k :: 0 <= k < |pool| && t in items[pool[k]].tags
  {
    if |pool| == 0 then []
    else
      var rest := MatchingTags(items, pool[1..], m);
      var here := KeepMatching(items[pool[0]].tags, m);
      assert forall t :: (exists k :: 0 <= k < |pool| && t in items[pool[k]].tags) <==>
        t in items[pool[0]].tags || exists k :: 0 <= k < |pool[1..]| && t in items[pool[1..][k]].tags by {
        forall t | exists k :: 0 <= k < |pool| && t in items[pool[k]].tags
          ensures t in items[pool[0]].tags || exists k :: 0 <= k < |pool[1..]| && t in items[pool[1..][k]].tags
        {
          var k :| 0 <= k < |pool| && t in items[pool[k]].tags;
          if k > 0 {
            assert pool[1..][k - 1] == pool[k];
          }
        }
      }
      here + rest
  }

  /** `tags.filter(tag => regex.test(tag))`. */
  function KeepMatching(tags: seq<string>, m: string -> bool): (r: seq<string>)
    ensures forall t :: t in r <==> t in tags && m(t)
  {
    if |tags| == 0 then []
    else if m(tags[0]) then [tags[0]] + KeepMatching(tags[1..], m)
    else KeepMatching(tags[1..], m)
  }

  /** Every tag suggest may draw from, in the order it meets them. */
  function Candidates(db: Db, m: string -> bool): seq<string> {
    MatchingTags(db.items, SuggestPool(db, m), m)
  }

  const SuggestLimit := 5

  /**
   * GET /suggest. `regex` is what `new RegExp(query, 'i')` gives, None when
   * it throws; the pattern is compiled before `type` is looked at.
   */
  function Suggest(db: Db, kind: string, query: string, regex: Option<string -> bool>): (r: Result<seq<string>, Response>)
    ensures r.Err? <==> kind == "" || query == "" || regex.None?
    ensures r.Err? ==> r.error == (if kind == "" || query == "" then MissingQuery else ServerError)
    ensures r.Ok? && kind != "tag" ==> r.value == []
    ensures r.Ok? ==> |r.value| <= SuggestLimit && Distinct(r.value)
    ensures r.Ok? && kind == "tag" ==>
      var all := Candidates(db, regex.value);
      && (forall t :: t in r.value ==> t in all)
      && (|r.value| < SuggestLimit ==> forall t :: t in all ==> t in r.value)
      && (forall i, j :: 0 <= i < j < |r.value| ==> FirstIndex(all, r.value[i]) < FirstIndex(all, r.value[j]))
      && (forall t, i :: 0 <= i < |r.value| && t in all && FirstIndex(all, t) < FirstIndex(all, r.value[i]) ==> t in r.value)
  {
    if kind == "" || query == "" then Err(MissingQuery)
    else if regex.None? then Err(ServerError)
    else if kind != "tag" then Ok([])
    else
      var all := Candidates(db, regex.value);
      var d := Dedup(all);
      var n := Min(SuggestLimit, |d|);
      SuggestSlice(all, n);
      Ok(d[..n])
  }

  /** The facts about `Dedup(all)[..n]` that the suggest route promises. */
  lemma SuggestSlice(all: seq<string>, n: nat)
    requires n == Min(SuggestLimit, |Dedup(all)|)
    ensures var r := Dedup(all)[..n];
      && Distinct(r)
      && (forall t :: t in r ==> t in all)
      && (|r| < SuggestLimit ==> forall t :: t in all ==> t in r)
      && (forall i, j :: 0 <= i < j < |r| ==> FirstIndex(all, r[i]) < FirstIndex(all, r[j]))
      && (forall t, i :: 0 <= i < |r| && t in all && FirstIndex(all, t) < FirstIndex(all, r[i]) ==> t in r)
  {
    var d := Dedup(all);
    var r := d[..n];
    assert forall t :: t in r ==> t in d;
    if |r| < SuggestLimit {
      assert r == d;
    }
    forall i, j | 0 <= i < j < |r| ensures FirstIndex(all, r[i]) < FirstIndex(all, r[j]) {
      DedupFirstSeenOrder(all, i, j);
    }
    forall t, i | 0 <= i < |r| && t in all && FirstIndex(all, t) < FirstIndex(all, r[i]) ensures t in r {
      FirstSeenPrefix(all, n, t, i);
    }
  }
}
