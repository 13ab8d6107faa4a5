/**
 * The admin middleware: it loads the caller's user record and lets the
 * request through only when that record exists and has `isAdmin` set.
 */
module AdminGate {
  import opened Common
  import opened UserSchema

  datatype Gate = Next | Denied  // Denied answers 403 'Access denied'

  function CheckAdmin(users: map<UserId, User>, caller: UserId): (g: Gate)
    ensures g == Next <==> caller in users && users[caller].isAdmin
  {
    if caller !in users || !users[caller].isAdmin then Denied else Next
  }

  /** The decision depends on nothing but whether the caller exists and its `isAdmin` flag; `role` is never read. */
  lemma GateReadsOnlyIsAdmin(u1: map<UserId, User>, u2: map<UserId, User>, caller: UserId)
    requires (caller in u1) == (caller in u2)
    requires caller in u1 ==> u1[caller].isAdmin == u2[caller].isAdmin
    ensures CheckAdmin(u1, caller) == CheckAdmin(u2, caller)
  {
  }

  /** A user whose `role` is 'admin' but whose `isAdmin` is false is still refused. */
  lemma AdminRoleAloneRefused(users: map<UserId, User>, caller: UserId)
    requires caller in users && users[caller].role == Admin && !users[caller].isAdmin
    ensures CheckAdmin(users, caller) == Denied
  {
  }
}
