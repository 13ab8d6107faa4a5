/**
 * GET /transactions/history: the caller's log entries, newest first.
 */
module History {
  import opened Common
  import opened TransactionSchema
  import opened Database
  import opened Exchange

  /** `Transaction.find({ user: uid })`: the entries naming `uid`, in log order. */
  function OwnEntries(log: seq<Transaction>, uid: UserId): (r: seq<Transaction>)
    ensures forall t :: multiset(r)[t] == if t.user == Some(uid) then multiset(log)[t] else 0
    ensures |r| <= |log|
  {
    if |log| == 0 then []
    else
      var init := log[..|log| - 1];
      var last := log[|log| - 1];
      assert log == init + [last];
      OwnEntries(init, uid) + if last.user == Some(uid) then [last] else []
  }

  /** `.sort({ createdAt: -1 })`: no entry is older than one after it. */
  predicate NewestFirst(s: seq<Transaction>) {
    forall i, j :: 0 <= i < j < |s| ==> s[i].createdAt >= s[j].createdAt
  }

  /** Puts `t` in front of the first entry that is not newer than it. */
  function InsertByTime(t: Transaction, s: seq<Transaction>): (r: seq<Transaction>)
    requires NewestFirst(s)
    ensures NewestFirst(r)
    ensures multiset(r) == multiset(s) + multiset{t}
  {
    if |s| == 0 then [t]
    else if t.createdAt >= s[0].createdAt then
      NewestFirstCons(t, s);
      [t] + s
    else
      var rest := InsertByTime(t, s[1..]);
      assert s == [s[0]] + s[1..];
      HeadBoundsInsert(t, s, rest);
      NewestFirstCons(s[0], rest);
      [s[0]] + rest
  }

  /** After `t` goes into the tail of `s`, the head of `s` is still at least as new as everything there. */
  lemma HeadBoundsInsert(t: Transaction, s: seq<Transaction>, rest: seq<Transaction>)
    requires NewestFirst(s) && |s| > 0 && t.createdAt < s[0].createdAt
    requires multiset(rest) == multiset(s[1..]) + multiset{t}
    ensures forall y :: y in rest ==> y.createdAt <= s[0].createdAt
  {
    forall x | x in rest ensures x.createdAt <= s[0].createdAt {
      assert x in multiset(rest);
      if x != t {
        assert x in multiset(s[1..]);
        var k :| 0 <= k < |s[1..]| && s[1..][k] == x;
        assert s[k + 1] == x;
      }
    }
  }

  /** An entry at least as new as every entry of a newest-first list may go in front of it. */
  lemma NewestFirstCons(x: Transaction, s: seq<Transaction>)
    requires NewestFirst(s)
    requires forall y :: y in s ==> y.createdAt <= x.createdAt
    ensures NewestFirst([x] + s)
  {
    forall i, j | 0 <= i < j < |s| + 1 ensures ([x] + s)[i].createdAt >= ([x] + s)[j].createdAt {
      assert ([x] + s)[j] == s[j - 1];
      if i == 0 {
        assert s[j - 1] in s;
      } else {
        assert ([x] + s)[i] == s[i - 1];
      }
    }
  }

  /** The entries of `s` ordered newest first; among equal times earlier log entries stay first. */
  function SortNewestFirst(s: seq<Transaction>): (r: seq<Transaction>)
    ensures NewestFirst(r)
    ensures multiset(r) == multiset(s)
  {
    if |s| == 0 then []
    else
      assert s == [s[0]] + s[1..];
      InsertByTime(s[0], SortNewestFirst(s[1..]))
  }

  /** The history the route answers with: each of the caller's entries once per occurrence, newest first. */
  function History(db: Db, caller: UserId): (r: seq<Transaction>)
    ensures NewestFirst(r)
    ensures forall t :: multiset(r)[t] == if t.user == Some(caller) then multiset(db.log)[t] else 0
    ensures forall t :: t in r <==> t in db.log && t.user == Some(caller)
  {
    var r := SortNewestFirst(OwnEntries(db.log, caller));
    assert forall t :: t in r <==> t in multiset(r);
    assert forall t :: t in db.log <==> t in multiset(db.log);
    r
  }

  /** An entry newer than every other entry of the log heads its owner's history. */
  lemma NewestEntryLeads(db: Db, uid: UserId, t: Transaction)
    requires t in db.log && t.user == Some(uid)
    requires forall x :: x in db.log && x != t ==> x.createdAt < t.createdAt
    ensures |History(db, uid)| > 0 && History(db, uid)[0] == t
  {
    var h := History(db, uid);
    var k :| 0 <= k < |h| && h[k] == t;
    assert h[0] in db.log;
  }

  /** An entry appended for `uid` joins `uid`'s history and, when strictly newest, leads it. */
  lemma HistoryAfterAppend(db: Db, db': Db, uid: UserId, t: Transaction)
    requires db'.log == db.log + [t] && t.user == Some(uid)
    ensures multiset(History(db', uid)) == multiset(History(db, uid)) + multiset{t}
    ensures (forall x :: x in db.log ==> x.createdAt < t.createdAt) ==> History(db', uid)[0] == t
  {
    OwnEntriesAppend(db.log, t, uid);
    assert OwnEntries(db'.log, uid) == OwnEntries(db.log, uid) + [t];
    if forall x :: x in db.log ==> x.createdAt < t.createdAt {
      assert forall x :: x in db'.log && x != t ==> x in db.log;
      NewestEntryLeads(db', uid, t);
    }
  }

  /** A redeem puts the buyer's 'redeem_spent' entry in the buyer's history, first when the clock moved on. */
  lemma RedeemAddsToBuyerHistory(db: Db, caller: UserId, id: ItemId, now: int)
    requires RedeemProceeds(db, caller, id)
    ensures var db' := Redeem(db, caller, id, now).db;
      var spent := Transaction(Some(caller), Some(id), RedeemSpent, -CostOf(db.items[id]), now);
      && multiset(History(db', caller)) == multiset(History(db, caller)) + multiset{spent}
      && ((forall x :: x in db.log ==> x.createdAt < now) ==> History(db', caller)[0] == spent)
  {
    var db' := Redeem(db, caller, id, now).db;
    var spent := Transaction(Some(caller), Some(id), RedeemSpent, -CostOf(db.items[id]), now);
    HistoryAfterAppend(db, db', caller, spent);
  }

  /** Nobody but the buyer sees a redeem in their history: the seller's earning is never logged. */
  lemma RedeemLeavesOtherHistories(db: Db, caller: UserId, id: ItemId, now: int, other: UserId)
    requires other != caller
    ensures History(Redeem(db, caller, id, now).db, other) == History(db, other)
  {
    var db' := Redeem(db, caller, id, now).db;
    if RedeemProceeds(db, caller, id) {
      var spent := Transaction(Some(caller), Some(id), RedeemSpent, -CostOf(db.items[id]), now);
      assert db'.log == db.log + [spent];
      OwnEntriesAppend(db.log, spent, other);
      assert OwnEntries(db'.log, other) == OwnEntries(db.log, other);
    }
  }

  /** Appending to the log appends to the owner's entries and leaves everyone else's as they were. */
  lemma OwnEntriesAppend(log: seq<Transaction>, t: Transaction, uid: UserId)
    ensures OwnEntries(log + [t], uid) == OwnEntries(log, uid) + (if t.user == Some(uid) then [t] else [])
  {
    assert (log + [t])[..|log|] == log;
  }
}
