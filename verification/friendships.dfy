/**
 * The friendship state machine of the login server. The `friendships` table
 * holds at most one row per canonical pair (user_low, user_high) with the id
 * of the user who sent the request and a status that is one of pending,
 * accepted or declined. The handlers for request, accept and decline are each
 * one guarded INSERT or UPDATE; the two list handlers are single SELECTs.
 *
 * The table is a map from the canonical key to the rest of the row: the map
 * has at most one value per key, which is the UNIQUE(user_low, user_high)
 * constraint, and `Status` has exactly the three values the CHECK allows.
 * Foreign keys are enforced: both members of a row (and so its requester)
 * are ids of the `users` table, given here as a set of ids.
 */
module Friendships {
  import opened Wrappers
  import opened PairIdentity

  datatype Status = Pending | Accepted | Declined

  datatype Friendship = Friendship(requester: int, status: Status)

  type Table = map<(int, int), Friendship>

  /**
   * What every row satisfies: its key is in canonical order, the requester is
   * one of the two members, and a row of a user with themself (which the
   * request handler lets in) is never accepted.
   */
  predicate RowOk(k: (int, int), f: Friendship) {
    && k.0 <= k.1
    && (f.requester == k.0 || f.requester == k.1)
    && (k.0 == k.1 ==> f.status != Accepted)
  }

  ghost predicate WellFormed(t: Table) {
    forall k | k in t :: RowOk(k, t[k])
  }

  /** The foreign keys: both members of every row are users. */
  ghost predicate MembersExist(t: Table, users: set<int>) {
    forall k | k in t :: k.0 in users && k.1 in users
  }

  // ---------------------------------------------------------------------------
  // The three transitions, as functions of the table

  /**
   * The INSERT of a request violates a foreign key: there is no row for the
   * pair yet and one of the two ids names no user. OR IGNORE does not cover
   * foreign keys, so the statement fails.
   */
  predicate InsertRefused(t: Table, users: set<int>, self: int, other: int) {
    Pair(self, other) !in t && (self !in users || other !in users)
  }

  /**
   * POST /friends/request: INSERT OR IGNORE a pending row requested by `self`;
   * if a row was already there, reset it to pending with `self` as requester
   * only when it is declined. A refused insert writes nothing.
   */
  function AfterRequest(t: Table, users: set<int>, self: int, other: int): Table {
    var key := Pair(self, other);
    if InsertRefused(t, users, self, other) then t
    else if key !in t || t[key].status == Declined then t[key := Friendship(self, Pending)]
    else t
  }

  /** The guard of the accept UPDATE: a pending row that `self` did not request. */
  predicate CanAccept(t: Table, self: int, other: int) {
    var key := Pair(self, other);
    key in t && t[key].status == Pending && t[key].requester != self
  }

  /** POST /friends/accept: the guarded UPDATE to accepted. */
  function AfterAccept(t: Table, self: int, other: int): Table {
    var key := Pair(self, other);
    if CanAccept(t, self, other) then t[key := t[key].(status := Accepted)] else t
  }

  /** POST /friends/decline: pending becomes declined, whoever of the two asks. */
  function AfterDecline(t: Table, self: int, other: int): Table {
    var key := Pair(self, other);
    if key in t && t[key].status == Pending then t[key := t[key].(status := Declined)] else t
  }

  // ---------------------------------------------------------------------------
  // The two queries

  /** The member of row `k` that is not `self` (the JOIN condition of GET /friends). */
  function OtherMember(k: (int, int), self: int): int {
    if k.0 == self then k.1 else k.0
  }

  /** The rows GET /friends selects: accepted rows that contain `self`. */
  function AcceptedRowsOf(t: Table, self: int): set<(int, int)> {
    set k | k in t && (k.0 == self || k.1 == self) && t[k].status == Accepted
  }

  /**
   * GET /friends: the other member of each accepted row of `self`. A user is a
   * friend exactly when the canonical row of the two is accepted.
   */
  function AcceptedFriends(t: Table, self: int): (friends: set<int>)
    requires WellFormed(t)
    ensures forall u :: u in friends <==> Pair(self, u) in t && t[Pair(self, u)].status == Accepted
  {
    var friends := set k | k in AcceptedRowsOf(t, self) :: OtherMember(k, self);
    assert forall u | Pair(self, u) in t && t[Pair(self, u)].status == Accepted :: u in friends by {
      forall u | Pair(self, u) in t && t[Pair(self, u)].status == Accepted
        ensures u in friends
      {
        var k := Pair(self, u);
        assert k in AcceptedRowsOf(t, self) && OtherMember(k, self) == u;
      }
    }
    friends
  }

  /**
   * GET /friends/requests: the requester of each pending row of `self` that
   * `self` did not send. These are the users whose request `self` may accept.
   */
  function IncomingRequests(t: Table, self: int): (requesters: set<int>)
    requires WellFormed(t)
    ensures forall u :: u in requesters <==>
      && u != self && Pair(self, u) in t
      && t[Pair(self, u)].status == Pending && t[Pair(self, u)].requester == u
  {
    var requesters := set k | k in t && (k.0 == self || k.1 == self) && t[k].status == Pending
                                && t[k].requester != self :: t[k].requester;
    assert forall u | u != self && Pair(self, u) in t && t[Pair(self, u)].status == Pending
                      && t[Pair(self, u)].requester == u :: u in requesters by {
      forall u | u != self && Pair(self, u) in t && t[Pair(self, u)].status == Pending
                 && t[Pair(self, u)].requester == u
        ensures u in requesters
      {
        var k := Pair(self, u);
        assert k.0 == self || k.1 == self;
      }
    }
    requesters
  }

  // ---------------------------------------------------------------------------
  // The table as the server holds it

  class FriendshipStore {
    var rows: Table
    /** The ids of the `users` table, which the friendship rows refer to. */
    const users: set<int>
    /**
     * Whether the `users` table has the `friend_code` column that both list
     * queries select; without it SQLite cannot prepare them.
     */
    const hasFriendCode: bool

    ghost predicate Valid()
      reads this
    {
      WellFormed(rows) && MembersExist(rows, users)
    }

    constructor (users: set<int>, hasFriendCode: bool)
      ensures Valid() && rows == map[] && this.users == users && this.hasFriendCode == hasFriendCode
    {
      this.users := users;
      this.hasFriendCode := hasFriendCode;
      rows := map[];
    }

    /**
     * POST /friends/request. There is no check that `friendId` differs from
     * `self`, and the answer is "pending" whatever the row's status ends up as.
     * An insert naming a non-user fails on the foreign key: the server answers
     * 500 and nothing is written.
     */
    method Request(self: int, friendId: Option<int>) returns (r: Result<Status, ApiError>)
      requires Valid()
      modifies this
      ensures Valid()
      ensures !Given(friendId) ==> r == Failure(FriendIdRequired) && rows == old(rows)
      ensures Given(friendId) ==>
        && (r.Failure? <==> InsertRefused(old(rows), users, self, friendId.value))
        && (r.Failure? ==> r.error == DbError)
        && (r.Success? ==> r.value == Pending)
        && rows == AfterRequest(old(rows), users, self, friendId.value)
    {
      if !Given(friendId) {
        return Failure(FriendIdRequired);
      }
      var key := Pair(self, friendId.value);
      // INSERT OR IGNORE: `changes` is the number of inserted rows
      var changes := 0;
      if key !in rows {
        if self !in users || friendId.value !in users {
          // FOREIGN KEY constraint failed
          return Failure(DbError);
        }
        rows := rows[key := Friendship(self, Pending)];
        changes := 1;
      }
      if changes == 0 {
        // UPDATE ... WHERE status = 'declined'
        if rows[key].status == Declined {
          rows := rows[key := Friendship(self, Pending)];
        }
      }
      r := Success(Pending);
    }

    /** POST /friends/accept: fails, changing nothing, unless the guard holds. */
    method Accept(self: int, friendId: Option<int>) returns (r: Outcome<ApiError>)
      requires Valid()
      modifies this
      ensures Valid()
      ensures !Given(friendId) ==> r == Fail(FriendIdRequired) && rows == old(rows)
      ensures Given(friendId) ==>
        && (r == Pass <==> CanAccept(old(rows), self, friendId.value))
        && (r != Pass ==> r == Fail(NoPendingRequest))
        && rows == AfterAccept(old(rows), self, friendId.value)
    {
      if !Given(friendId) {
        return Fail(FriendIdRequired);
      }
      var key := Pair(self, friendId.value);
      var changes := 0;
      if key in rows && rows[key].status == Pending && rows[key].requester != self {
        rows := rows[key := rows[key].(status := Accepted)];
        changes := 1;
      }
      r := if changes == 0 then Fail(NoPendingRequest) else Pass;
    }

    /** POST /friends/decline: answers ok whether or not a row was updated. */
    method Decline(self: int, friendId: Option<int>) returns (r: Outcome<ApiError>)
      requires Valid()
      modifies this
      ensures Valid()
      ensures !Given(friendId) ==> r == Fail(FriendIdRequired) && rows == old(rows)
      ensures Given(friendId) ==> r == Pass && rows == AfterDecline(old(rows), self, friendId.value)
    {
      if !Given(friendId) {
        return Fail(FriendIdRequired);
      }
      var key := Pair(self, friendId.value);
      if key in rows && rows[key].status == Pending {
        rows := rows[key := rows[key].(status := Declined)];
      }
      r := Pass;
    }

    /** GET /friends: "DB error" when the query selects a column the table lacks. */
    method ListAccepted(self: int) returns (r: Result<set<int>, ApiError>)
      requires Valid()
      ensures !hasFriendCode ==> r == Failure(DbError)
      ensures hasFriendCode ==> r.Success?
      ensures r.Success? ==>
        && (forall u :: u in r.value <==> Pair(self, u) in rows && rows[Pair(self, u)].status == Accepted)
        && |r.value| == |AcceptedRowsOf(rows, self)|
    {
      if !hasFriendCode {
        return Failure(DbError);
      }
      AcceptedFriendsAreDistinct(rows, self);
      r := Success(AcceptedFriends(rows, self));
    }

    /** GET /friends/requests: "DB error" when the query selects a column the table lacks. */
    method ListIncoming(self: int) returns (r: Result<set<int>, ApiError>)
      requires Valid()
      ensures !hasFriendCode ==> r == Failure(DbError)
      ensures hasFriendCode ==> r.Success?
      ensures r.Success? ==> forall u :: u in r.value <==> CanAccept(rows, self, u)
    {
      if !hasFriendCode {
        return Failure(DbError);
      }
      IncomingAreAcceptable(rows, self);
      r := Success(IncomingRequests(rows, self));
    }
  }

  // ---------------------------------------------------------------------------
  // Properties of one transition

  /** The four cases of a request, and that no other row is touched. */
  lemma RequestCases(t: Table, users: set<int>, self: int, other: int)
    ensures var r, key := AfterRequest(t, users, self, other), Pair(self, other);
      && (InsertRefused(t, users, self, other) ==> r == t)
      && (!InsertRefused(t, users, self, other) ==> r.Keys == t.Keys + {key})
      && (forall k | k in t && k != key :: r[k] == t[k])
      && (key !in t && self in users && other in users ==> r[key] == Friendship(self, Pending))
      && (key in t && t[key].status == Declined ==> r[key] == Friendship(self, Pending))
      && (key in t && t[key].status != Declined ==> r == t)
  {
  }

  /** Asking twice, by either party, is the same as asking once. */
  lemma RequestIdempotent(t: Table, users: set<int>, self: int, other: int)
    ensures var r := AfterRequest(t, users, self, other);
      AfterRequest(r, users, self, other) == r && AfterRequest(r, users, other, self) == r
  {
    PairCommutes(self, other);
  }

  /** Accepting only ever succeeds for the invitee: the row's requester is the other party. */
  lemma AcceptOnlyByInvitee(t: Table, self: int, other: int)
    requires WellFormed(t)
    ensures CanAccept(t, self, other) ==>
      self != other && t[Pair(self, other)].requester == other
  {
  }

  /** Right after `self` requests, `self` cannot accept, and the other party can. */
  lemma RequesterCannotAcceptOwnRequest(t: Table, users: set<int>, self: int, other: int)
    requires WellFormed(t)
    requires var key := Pair(self, other); key !in t || t[key].status == Declined
    ensures !CanAccept(AfterRequest(t, users, self, other), self, other)
    ensures self != other && self in users && other in users ==>
      CanAccept(AfterRequest(t, users, self, other), other, self)
  {
    PairCommutes(self, other);
  }

  /** A failed accept changes nothing; a successful one changes only the status. */
  lemma AcceptCases(t: Table, self: int, other: int)
    ensures var r, key := AfterAccept(t, self, other), Pair(self, other);
      && (!CanAccept(t, self, other) ==> r == t)
      && (CanAccept(t, self, other) ==>
            r == t[key := Friendship(t[key].requester, Accepted)])
  {
  }

  /** Decline keeps the requester and touches only a pending row. */
  lemma DeclineCases(t: Table, self: int, other: int)
    ensures var r, key := AfterDecline(t, self, other), Pair(self, other);
      && r.Keys == t.Keys
      && (key in t && t[key].status == Pending ==>
            r == t[key := Friendship(t[key].requester, Declined)])
      && (key !in t || t[key].status != Pending ==> r == t)
  {
  }

  // ---------------------------------------------------------------------------
  // Properties of any sequence of transitions

  datatype Op =
    | Request(actor: int, other: int)
    | Accept(actor: int, other: int)
    | Decline(actor: int, other: int)

  /** One operation, against a fixed set of users. */
  function Apply(t: Table, users: set<int>, op: Op): Table {
    match op
    case Request(a, o) => AfterRequest(t, users, a, o)
    case Accept(a, o) => AfterAccept(t, a, o)
    case Decline(a, o) => AfterDecline(t, a, o)
  }

  function Run(t: Table, users: set<int>, ops: seq<Op>): Table
    decreases |ops|
  {
    if ops == [] then t else Run(Apply(t, users, ops[0]), users, ops[1..])
  }

  /**
   * One step keeps every row invariant and the foreign keys, keeps accepted
   * rows and deletes nothing.
   */
  lemma ApplyStep(t: Table, users: set<int>, op: Op)
    requires WellFormed(t)
    ensures WellFormed(Apply(t, users, op))
    ensures MembersExist(t, users) ==> MembersExist(Apply(t, users, op), users)
    ensures t.Keys <= Apply(t, users, op).Keys
    ensures forall k | k in t && t[k].status == Accepted :: Apply(t, users, op)[k] == t[k]
  {
    var key := Pair(op.actor, op.other);
    var r := Apply(t, users, op);
    forall k | k in r
      ensures RowOk(k, r[k])
    {
      if k != key {
        assert r[k] == t[k];
      }
    }
  }

  /** Every reachable table satisfies the row invariants and the foreign keys. */
  lemma {:induction false} RunPreservesWellFormed(t: Table, users: set<int>, ops: seq<Op>)
    requires WellFormed(t)
    ensures WellFormed(Run(t, users, ops))
    ensures MembersExist(t, users) ==> MembersExist(Run(t, users, ops), users)
    decreases |ops|
  {
    if ops != [] {
      ApplyStep(t, users, ops[0]);
      RunPreservesWellFormed(Apply(t, users, ops[0]), users, ops[1..]);
    }
  }

  /** Accepted is terminal and rows are never deleted, over any sequence of operations. */
  lemma {:induction false} RunKeepsAccepted(t: Table, users: set<int>, ops: seq<Op>, k: (int, int))
    requires WellFormed(t)
    requires k in t && t[k].status == Accepted
    ensures k in Run(t, users, ops) && Run(t, users, ops)[k] == t[k]
    decreases |ops|
  {
    if ops != [] {
      ApplyStep(t, users, ops[0]);
      RunKeepsAccepted(Apply(t, users, ops[0]), users, ops[1..], k);
    }
  }

  /**
   * The cycle pending, declined, pending, accepted: the final row is accepted
   * and its requester is whoever asked last.
   */
  lemma DeclineThenRerequestCycle(users: set<int>, a: int, b: int)
    requires a != b && a in users && b in users
    ensures Run(map[], users, [Request(a, b), Decline(b, a), Request(b, a), Accept(a, b)])
         == map[Pair(a, b) := Friendship(b, Accepted)]
  {
    PairCommutes(a, b);
    var ops := [Request(a, b), Decline(b, a), Request(b, a), Accept(a, b)];
    var t1 := Apply(map[], users, ops[0]);
    assert t1 == map[Pair(a, b) := Friendship(a, Pending)];
    var t2 := Apply(t1, users, ops[1]);
    assert t2 == map[Pair(a, b) := Friendship(a, Declined)];
    var t3 := Apply(t2, users, ops[2]);
    assert t3 == map[Pair(a, b) := Friendship(b, Pending)];
    var t4 := Apply(t3, users, ops[3]);
    assert t4 == map[Pair(a, b) := Friendship(b, Accepted)];
    assert Run(t4, users, ops[4..]) == t4;
    assert Run(t3, users, ops[3..]) == t4;
    assert Run(t2, users, ops[2..]) == t4;
    assert Run(t1, users, ops[1..]) == t4;
  }

  // ---------------------------------------------------------------------------
  // Properties of the queries

  /**
   * The other members of distinct rows of `self` are distinct users, so the
   * rows GET /friends returns name each friend once.
   */
  lemma {:induction false} OtherMembersDistinct(keys: set<(int, int)>, self: int)
    requires forall k | k in keys :: k.0 <= k.1 && (k.0 == self || k.1 == self)
    ensures |set k | k in keys :: OtherMember(k, self)| == |keys|
    decreases keys
  {
    if keys != {} {
      var k :| k in keys;
      var rest := keys - {k};
      OtherMembersDistinct(rest, self);
      var image := set j | j in rest :: OtherMember(j, self);
      assert (set j | j in keys :: OtherMember(j, self)) == image + {OtherMember(k, self)};
      assert OtherMember(k, self) !in image;
    }
  }

  lemma AcceptedFriendsAreDistinct(t: Table, self: int)
    requires WellFormed(t)
    ensures |AcceptedFriends(t, self)| == |AcceptedRowsOf(t, self)|
  {
    OtherMembersDistinct(AcceptedRowsOf(t, self), self);
  }

  /** The incoming list is exactly the set of users whose request `self` can accept. */
  lemma IncomingAreAcceptable(t: Table, self: int)
    requires WellFormed(t)
    ensures forall u :: u in IncomingRequests(t, self) <==> CanAccept(t, self, u)
  {
  }

  /** Friendship is symmetric: each party sees the other in its accepted list. */
  lemma AcceptedFriendsSymmetric(t: Table, x: int, y: int)
    requires WellFormed(t)
    ensures y in AcceptedFriends(t, x) <==> x in AcceptedFriends(t, y)
  {
    PairCommutes(x, y);
  }
}
