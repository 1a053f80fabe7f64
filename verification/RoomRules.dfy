/** What each call on a room decides and changes, field by field, and what it leaves as it was. */
module RoomRules {
  import opened Strings
  import opened WhiteSpace
  import opened Membership

  ghost predicate HasPending(r: Room, u: UserId) {
    exists q :: q in r.requests && q.user == u && q.status == Pending
  }

  /**
   * Someone who is not in a room comes in if no approval is needed and it is public, then as a viewer, or they
   * bring its own token, then with no role of their own; if it is, they leave one request. Any other token
   * of a private room changes nothing.
   */
  lemma JoinDecides(r: Room, accounts: seq<Account>, u: UserId, token: Option<string>, requestId: string)
    requires RoomKept(r, Ids(accounts)) && u !in r.participants
    ensures var (after, outcome) := AfterInRoom(r, accounts, u, Join(token, requestId));
      if !r.isPublic && !OwnToken(r.invite, token) then outcome == RoomIsPrivate && after == r
      else if HasPending(r, u) then outcome == AwaitsApproval && after == r
      else if r.needsApproval then
        outcome == AwaitsApproval && after == r.(requests := r.requests + [JoinRequest(requestId, u, Pending)])
      else
        && outcome == Done && after.participants == r.participants + [u]
        && after.roles == (if r.isPublic then r.roles[u := Viewer] else r.roles)
        && after == r.(participants := after.participants, roles := after.roles)
  {
    hide Strip, Distinct, PendingIsLast, Ids;
    assert HasPending(r, u) <==>
      exists i :: 0 <= i < |r.requests| && r.requests[i].user == u && r.requests[i].status == Pending;
  }

  /** Someone who is in it already changes nothing. */
  lemma JoinAgain(r: Room, accounts: seq<Account>, u: UserId, token: Option<string>, requestId: string)
    requires RoomKept(r, Ids(accounts)) && u in r.participants
    ensures AfterInRoom(r, accounts, u, Join(token, requestId)) == (r, Done)
  {}

  /** The first request with an id. */
  ghost predicate FirstRequest(r: Room, id: string, i: nat) {
    i < |r.requests| && r.requests[i].id == id && forall k :: 0 <= k < i ==> r.requests[k].id != id
  }

  /** A decided request has its status, and all others have theirs. */
  ghost predicate OneDecided(r: Room, after: Room, i: nat, status: RequestStatus) {
    && |after.requests| == |r.requests| && i < |r.requests|
    && after.requests[i] == JoinRequest(r.requests[i].id, r.requests[i].user, status)
    && forall k :: 0 <= k < |r.requests| && k != i ==> after.requests[k] == r.requests[k]
  }

  ghost predicate SameSettings(r: Room, after: Room) {
    after.isPublic == r.isPublic && after.needsApproval == r.needsApproval && after.invite == r.invite
  }

  /** Who takes part is who did, and `u`. */
  ghost predicate AlsoTakesPart(r: Room, after: Room, u: UserId) {
    forall v :: v in after.participants <==> v in r.participants || v == u
  }

  /** Someone let in has just the role they were given; owners have none of their own. Nobody else's changes. */
  ghost predicate RoleGiven(r: Room, after: Room, u: UserId, role: Role) {
    && after.roles == (if role == Owner then r.roles - {u} else r.roles[u := role])
    && forall v :: v in after.owners <==> v in r.owners || (v == u && role == Owner)
  }

  lemma {:induction false} FirstIsFound(rs: seq<JoinRequest>, id: string, i: nat)
    requires i < |rs| && rs[i].id == id && forall k :: 0 <= k < i ==> rs[k].id != id
    ensures FindRequest(rs, id) == i
  {}

  lemma {:induction false} NoneIsFound(rs: seq<JoinRequest>, id: string)
    requires forall q :: q in rs ==> q.id != id
    ensures FindRequest(rs, id) == |rs|
  {
    assert forall k :: 0 <= k < |rs| ==> rs[k] in rs;
  }

  lemma AdmittedIs(r: Room, u: UserId, role: Role)
    ensures var after := Admitted(r, u, role);
      && SameSettings(r, after) && after.requests == r.requests
      && AlsoTakesPart(r, after, u) && RoleGiven(r, after, u, role)
  {
    hide Distinct;
  }

  lemma MarkedIs(r: Room, i: nat, status: RequestStatus)
    requires i < |r.requests|
    ensures var after := Marked(r, i, status);
      OneDecided(r, after, i, status) && after == r.(requests := after.requests)
  {}

  lemma BothAre(r: Room, marked: Room, after: Room, i: nat, u: UserId, role: Role)
    requires OneDecided(r, marked, i, Approved) && marked == r.(requests := marked.requests)
    requires SameSettings(marked, after) && after.requests == marked.requests
    requires AlsoTakesPart(marked, after, u) && RoleGiven(marked, after, u, role)
    ensures OneDecided(r, after, i, Approved) && SameSettings(r, after)
    ensures AlsoTakesPart(r, after, u) && RoleGiven(r, after, u, role)
  {}

  /** Only owners decide requests. One that is approved brings its user in; one that is rejected nobody. */
  lemma DecisionDecides(r: Room, accounts: seq<Account>, caller: UserId, id: string, role: Role, i: nat)
    requires RoomKept(r, Ids(accounts)) && FirstRequest(r, id, i)
    ensures var (after, outcome) := AfterInRoom(r, accounts, caller, Approve(id, role));
      if caller !in r.owners then after == r && outcome == NotAnOwner
      else
        && outcome == Done && OneDecided(r, after, i, Approved) && SameSettings(r, after)
        && AlsoTakesPart(r, after, r.requests[i].user) && RoleGiven(r, after, r.requests[i].user, role)
    ensures var (after, outcome) := AfterInRoom(r, accounts, caller, Reject(id));
      if caller !in r.owners then after == r && outcome == NotAnOwner
      else outcome == Done && OneDecided(r, after, i, Rejected) && after == r.(requests := after.requests)
  {
    FirstIsFound(r.requests, id, i);
    assert OwnerIds(r) == r.owners;
    MarkedIs(r, i, Approved);
    MarkedIs(r, i, Rejected);
    var u, marked := r.requests[i].user, Marked(r, i, Approved);
    AdmittedIs(marked, u, role);
    BothAre(r, marked, Admitted(marked, u, role), i, u, role);
    hide Distinct, PendingIsLast, Ids, Marked, Admitted, FindRequest, OneDecided, AlsoTakesPart, RoleGiven,
      SameSettings;
  }

  /** With no such request there is nothing to approve, and nothing is rejected. */
  lemma NothingToDecide(r: Room, accounts: seq<Account>, caller: UserId, id: string, role: Role)
    requires RoomKept(r, Ids(accounts)) && caller in r.owners && forall q :: q in r.requests ==> q.id != id
    ensures AfterInRoom(r, accounts, caller, Approve(id, role)) == (r, RequestNotFound)
    ensures AfterInRoom(r, accounts, caller, Reject(id)) == (r, Done)
  {
    NoneIsFound(r.requests, id);
    hide Distinct, PendingIsLast, Ids;
  }

  /** Only owners change roles, of members, and the last owner's is not taken. */
  lemma SetRoleDecides(r: Room, accounts: seq<Account>, caller: UserId, member: UserId, role: Role)
    requires RoomKept(r, Ids(accounts))
    ensures var (after, outcome) := AfterInRoom(r, accounts, caller, SetRole(member, role));
      && (outcome == NotAnOwner <==> caller !in r.owners)
      && (outcome == NotAMember <==> caller in r.owners && member !in r.participants)
      && (outcome == LastOwner <==> caller in r.owners && r.owners == [member] && role != Owner)
      && (outcome in {NotAnOwner, NotAMember, LastOwner} ==> after == r)
      && (outcome in {NotAnOwner, NotAMember, LastOwner, Done})
      && SameSettings(r, after) && after.participants == r.participants && after.requests == r.requests
      && (outcome == Done ==> after.roles == if role == Owner then r.roles - {member} else r.roles[member := role])
      && (outcome == Done ==> forall v :: v in after.owners <==> if v == member then role == Owner else v in r.owners)
  {
    assert r.owners == [member] ==> member in r.owners;
    assert |r.owners| == 1 && member in r.owners ==> r.owners == [member];
    hide Distinct, PendingIsLast, Ids;
  }

  /** The first account with this address, in lower case and without white space around it. */
  ghost predicate FirstWithEmail(accounts: seq<Account>, email: string, i: nat) {
    && i < |accounts| && accounts[i].email == Lower(Strip(email))
    && forall k :: 0 <= k < i ==> accounts[k].email != Lower(Strip(email))
  }

  lemma {:induction false} EmailIsFound(accounts: seq<Account>, email: string, i: nat)
    requires i < |accounts| && accounts[i].email == Lower(email)
    requires forall k :: 0 <= k < i ==> accounts[k].email != Lower(email)
    ensures FindEmail(accounts, email) == Some(accounts[i].id)
    decreases i
  {
    if i > 0 {
      assert accounts[0].email != Lower(email);
      EmailIsFound(accounts[1..], email, i - 1);
    }
  }

  lemma {:induction false} NoEmailIsFound(accounts: seq<Account>, email: string)
    requires forall a :: a in accounts ==> a.email != Lower(email)
    ensures FindEmail(accounts, email) == None
    decreases |accounts|
  {
    if accounts != [] { NoEmailIsFound(accounts[1..], email); }
  }

  lemma LowerTwice(s: string)
    ensures Lower(Lower(s)) == Lower(s)
  {}

  /** Only owners add members, by the address of an account, who are not in the room yet. */
  lemma AddDecides(r: Room, accounts: seq<Account>, caller: UserId, email: string, role: Role, i: nat)
    requires RoomKept(r, Ids(accounts)) && FirstWithEmail(accounts, email, i)
    ensures var u := accounts[i].id; var (after, outcome) := AfterInRoom(r, accounts, caller, Add(email, role));
      && (outcome == NotAnOwner <==> caller !in r.owners)
      && (outcome == OwnsAlready <==> caller in r.owners && u in r.owners)
      && (outcome == HasAccessAlready <==> caller in r.owners && u !in r.owners && u in r.participants)
      && (outcome in {NotAnOwner, OwnsAlready, HasAccessAlready} ==> after == r)
      && (outcome in {NotAnOwner, OwnsAlready, HasAccessAlready, Done})
      && (outcome == Done ==> AlsoTakesPart(r, after, u) && RoleGiven(r, after, u, role))
      && SameSettings(r, after) && after.requests == r.requests
  {
    LowerTwice(Strip(email));
    EmailIsFound(accounts, NormalEmail(email), i);
    hide Distinct, PendingIsLast, Ids, Strip, Lower;
  }

  lemma NobodyToAdd(r: Room, accounts: seq<Account>, caller: UserId, email: string, role: Role)
    requires RoomKept(r, Ids(accounts)) && caller in r.owners
    requires forall a :: a in accounts ==> a.email != Lower(Strip(email))
    ensures AfterInRoom(r, accounts, caller, Add(email, role)) == (r, NoSuchEmail)
  {
    LowerTwice(Strip(email));
    NoEmailIsFound(accounts, NormalEmail(email));
    hide Distinct, PendingIsLast, Ids, Strip, Lower;
  }

  ghost predicate IsLatest(rs: seq<JoinRequest>, u: UserId, i: int) {
    0 <= i < |rs| && rs[i].user == u && forall k :: i < k < |rs| ==> rs[k].user != u
  }

  /** What someone is told: that they are in, with the role they have, or what became of their latest request. */
  lemma StatusTells(r: Room, u: UserId, ids: set<UserId>)
    requires RoomKept(r, ids)
    ensures u in r.participants ==> StatusOf(r, u) == IsIn(ViewerRole(r, u))
    ensures u !in r.participants && (forall q :: q in r.requests ==> q.user != u) ==> StatusOf(r, u) == NotRequested
    ensures forall i :: u !in r.participants && IsLatest(r.requests, u, i) ==>
      StatusOf(r, u) == if r.requests[i].status == Pending then IsWaiting else WasRejected
  {
    assert forall k :: 0 <= k < |r.requests| ==> r.requests[k] in r.requests;
    hide Distinct, PendingIsLast;
  }

  /** A room from before there were several owners is its creator's alone; without one it is nobody's. */
  lemma OldRoomIsCreators(r: Room, u: UserId)
    requires r.owners == [] && forall v :: v in r.roles ==> r.roles[v] != Owner
    ensures ViewerRole(r, u) == Owner <==> r.creator != "" && r.creator == u
    ensures StatusOf(r, u) == IsIn(Owner) <==> r.creator != "" && r.creator == u
  {}

  /** A call on one room leaves all others, and all accounts, as they were; callers without an account do nothing. */
  lemma OtherRoomsStay(db: Db, caller: UserId, room: RoomId, call: RoomCall)
    requires room in db.rooms
    ensures var (after, outcome) := After(db, InRoom(caller, room, call));
      && after.accounts == db.accounts && after.rooms.Keys == db.rooms.Keys
      && (forall other :: other in db.rooms && other != room ==> after.rooms[other] == db.rooms[other])
      && (if caller in Ids(db.accounts)
          then (after.rooms[room], outcome) == AfterInRoom(db.rooms[room], db.accounts, caller, call)
          else after.rooms[room] == db.rooms[room] && outcome == UserNotFound)
  {
    hide AfterInRoom, Ids;
  }

  /** An account has its address in lower case, and comes after those there are. */
  lemma RegisteredIs(db: Db, id: UserId, email: string)
    requires id != "" && id !in Ids(db.accounts)
    ensures var (after, outcome) := After(db, Register(id, email));
      && outcome == Done && after.rooms == db.rooms && |after.accounts| == |db.accounts| + 1
      && after.accounts[..|db.accounts|] == db.accounts
      && after.accounts[|db.accounts|].id == id && after.accounts[|db.accounts|].email == Lower(email)
  {
    hide Ids, Lower;
  }

  /** A new room is its maker's: they own it and take part, nobody else does, and it is as they asked. */
  lemma NewRoomIs(db: Db, caller: UserId, room: RoomId, isPublic: bool, needsApproval: bool, invite: string)
    requires caller in Ids(db.accounts) && room !in db.rooms
    ensures var (after, outcome) := After(db, Create(caller, room, isPublic, needsApproval, invite));
      && outcome == Done && after.accounts == db.accounts && after.rooms.Keys == db.rooms.Keys + {room}
      && (forall other :: other in db.rooms ==> after.rooms[other] == db.rooms[other])
      && var r := after.rooms[room];
        && r.owners == [caller] && r.participants == [caller] && r.requests == [] && r.roles == map[]
        && r.isPublic == isPublic && r.needsApproval == needsApproval && r.invite == invite
  {
    hide Ids;
  }

  /** When an account is deleted, every room that stays loses just that: settings and everyone else's part are kept. */
  lemma OthersKeepTheirs(db: Db, u: UserId, room: RoomId)
    requires Kept(db) && u in Ids(db.accounts) && room in After(db, DeleteAccount(u)).0.rooms
    ensures room in db.rooms
    ensures var (after, outcome) := After(db, DeleteAccount(u)); var r, left := db.rooms[room], after.rooms[room];
      && outcome == Done && SameSettings(r, left) && Ids(after.accounts) == Ids(db.accounts) - {u}
      && (forall v :: v in left.participants <==> v in r.participants && v != u)
      && (forall v :: v in left.owners <==> v in r.owners && v != u)
      && left.roles == r.roles - {u}
      && (forall q :: q in left.requests <==> q in r.requests && q.user != u)
  {
    hide Distinct, PendingIsLast, Ids, GoesWith;
  }
}
