/** Accounts, rooms, and who belongs to them. */
module Membership {
  import opened Strings
  import opened WhiteSpace

  type UserId = string
  type RoomId = string

  datatype Role = Owner | Editor | Runner | Viewer

  datatype RequestStatus = Pending | Approved | Rejected

  datatype JoinRequest = JoinRequest(id: string, user: UserId, status: RequestStatus)

  /** `creator` is the room's `owner_id`, `owners` its `owner_ids`. */
  datatype Room = Room(
    isPublic: bool, needsApproval: bool, invite: string,
    creator: UserId, owners: seq<UserId>, participants: seq<UserId>, roles: map<UserId, Role>,
    requests: seq<JoinRequest>)

  datatype Account = Account(id: UserId, email: string)

  datatype Db = Db(accounts: seq<Account>, rooms: map<RoomId, Room>)

  datatype Outcome =
    | Done
    | AwaitsApproval
    | UserNotFound
    | RoomNotFound
    | RequestNotFound
    | RoomIsPrivate
    | NotAnOwner
    | NotAMember
    | LastOwner
    | NoSuchEmail
    | OwnsAlready
    | HasAccessAlready

  /** What an account may ask of one room. */
  datatype RoomCall =
    | Join(token: Option<string>, requestId: string)
    | Approve(request: string, role: Role)
    | Reject(request: string)
    | SetRole(member: UserId, role: Role)
    | Add(email: string, role: Role)

  /** One call; ids of what is new are given. */
  datatype Call =
    | Register(id: UserId, email: string)
    | DeleteAccount(user: UserId)
    | Create(caller: UserId, room: RoomId, isPublic: bool, needsApproval: bool, invite: string)
    | DeleteRoom(caller: UserId, room: RoomId)
    | InRoom(caller: UserId, room: RoomId, call: RoomCall)

  // ----- lists as the store changes them

  /** `$addToSet` */
  function AddToSet(s: seq<UserId>, u: UserId): (r: seq<UserId>)
    ensures forall v :: v in r <==> v in s || v == u
    ensures Distinct(s) ==> Distinct(r)
  {
    if u in s then s else s + [u]
  }

  /** `$pull` */
  function Pull(s: seq<UserId>, u: UserId): (r: seq<UserId>)
    ensures forall v :: v in r <==> v in s && v != u
    ensures Distinct(s) ==> Distinct(r)
  {
    if s == [] then []
    else
      var rest := Pull(s[..|s| - 1], u);
      assert forall v :: v in s <==> v in s[..|s| - 1] || v == s[|s| - 1];
      assert Distinct(s) ==> s[|s| - 1] !in s[..|s| - 1];
      if s[|s| - 1] == u then rest else rest + [s[|s| - 1]]
  }

  ghost predicate Distinct(s: seq<UserId>) {
    forall i, j :: 0 <= i < j < |s| ==> s[i] != s[j]
  }

  function PullRequests(rs: seq<JoinRequest>, u: UserId): (left: seq<JoinRequest>)
    ensures forall r :: r in left <==> r in rs && r.user != u
  {
    if rs == [] then []
    else
      var rest := PullRequests(rs[..|rs| - 1], u);
      if rs[|rs| - 1].user == u then rest else rest + [rs[|rs| - 1]]
  }

  /** The first request with an id, or their number. */
  function FindRequest(rs: seq<JoinRequest>, id: string): (i: nat)
    ensures i <= |rs| && (i < |rs| ==> rs[i].id == id)
    ensures forall k :: 0 <= k < i ==> rs[k].id != id
  {
    if rs == [] || rs[0].id == id then 0 else 1 + FindRequest(rs[1..], id)
  }

  function Ids(accounts: seq<Account>): (ids: set<UserId>)
    ensures forall a :: a in accounts ==> a.id in ids
  {
    set a | a in accounts :: a.id
  }

  lemma IdsOfMore(accounts: seq<Account>, a: Account)
    ensures Ids(accounts + [a]) == Ids(accounts) + {a.id}
  {
    assert forall b :: b in accounts + [a] <==> b in accounts || b == a;
  }

  /** `email.strip().lower()` */
  function NormalEmail(email: string): string {
    Lower(Strip(email))
  }

  function FindEmail(accounts: seq<Account>, email: string): (id: Option<UserId>)
    ensures id.Some? ==> id.value in Ids(accounts)
  {
    if accounts == [] then None
    else if accounts[0].email == Lower(email) then Some(accounts[0].id)
    else FindEmail(accounts[1..], email)
  }

  function WithoutAccount(accounts: seq<Account>, id: UserId): (left: seq<Account>)
    ensures Ids(left) == Ids(accounts) - {id}
  {
    if accounts == [] then []
    else
      var rest := WithoutAccount(accounts[..|accounts| - 1], id);
      IdsOfMore(accounts[..|accounts| - 1], accounts[|accounts| - 1]);
      assert accounts[..|accounts| - 1] + [accounts[|accounts| - 1]] == accounts;
      IdsOfMore(rest, accounts[|accounts| - 1]);
      if accounts[|accounts| - 1].id == id then rest else rest + [accounts[|accounts| - 1]]
  }

  // ----- one room

  /** `_get_owner_ids`, which also knows rooms from before there were several owners. */
  function OwnerIds(r: Room): seq<UserId> {
    if r.owners != [] then r.owners else if r.creator != "" then [r.creator] else []
  }

  function NewRoom(caller: UserId, isPublic: bool, needsApproval: bool, invite: string): Room {
    Room(isPublic, needsApproval, invite, caller, [caller], [caller], map[], [])
  }

  /** A token is there, and it is the one that is stored, but for white space around that. */
  predicate Invited(r: Room, token: Option<string>) {
    token.Some? && token.value != "" && Strip(r.invite) != "" && Strip(r.invite) == token.value
  }

  function Joined(r: Room, u: UserId, token: Option<string>, requestId: string): (Room, Outcome) {
    if u in OwnerIds(r) || u in r.participants then (r, Done)
    else if !r.isPublic && !Invited(r, token) then (r, RoomIsPrivate)
    else if exists i :: 0 <= i < |r.requests| && r.requests[i].user == u && r.requests[i].status == Pending
    then (r, AwaitsApproval)
    else if r.isPublic && !r.needsApproval then
      (r.(participants := AddToSet(r.participants, u), roles := r.roles[u := Viewer]), Done)
    else if Invited(r, token) && !r.needsApproval then
      (r.(participants := AddToSet(r.participants, u)), Done)
    else (r.(requests := r.requests + [JoinRequest(requestId, u, Pending)]), AwaitsApproval)
  }

  /** Let someone in with a role; owners have no role of their own. */
  function Admitted(r: Room, u: UserId, role: Role): Room {
    if role == Owner then
      r.(participants := AddToSet(r.participants, u), owners := AddToSet(r.owners, u), roles := r.roles - {u})
    else r.(participants := AddToSet(r.participants, u), roles := r.roles[u := role])
  }

  function Marked(r: Room, i: nat, status: RequestStatus): Room
    requires i < |r.requests|
  {
    r.(requests := r.requests[i := r.requests[i].(status := status)])
  }

  function ApprovedIn(r: Room, caller: UserId, request: string, role: Role): (Room, Outcome) {
    if caller !in OwnerIds(r) then (r, NotAnOwner)
    else
      var i := FindRequest(r.requests, request);
      if i == |r.requests| then (r, RequestNotFound)
      else (Admitted(Marked(r, i, Approved), r.requests[i].user, role), Done)
  }

  function RejectedIn(r: Room, caller: UserId, request: string): (Room, Outcome) {
    if caller !in OwnerIds(r) then (r, NotAnOwner)
    else
      var i := FindRequest(r.requests, request);
      (if i == |r.requests| then r else Marked(r, i, Rejected), Done)
  }

  function RoleSet(r: Room, caller: UserId, member: UserId, role: Role): (Room, Outcome) {
    if caller !in OwnerIds(r) then (r, NotAnOwner)
    else if member !in r.participants then (r, NotAMember)
    else if member in OwnerIds(r) && role != Owner && |OwnerIds(r)| <= 1 then (r, LastOwner)
    else if role == Owner then (r.(owners := AddToSet(r.owners, member), roles := r.roles - {member}), Done)
    else if member in OwnerIds(r) then (r.(owners := Pull(r.owners, member), roles := r.roles[member := role]), Done)
    else (r.(roles := r.roles[member := role]), Done)
  }

  function Added(r: Room, accounts: seq<Account>, caller: UserId, email: string, role: Role): (Room, Outcome) {
    if caller !in OwnerIds(r) then (r, NotAnOwner)
    else
      match FindEmail(accounts, NormalEmail(email))
      case None => (r, NoSuchEmail)
      case Some(u) =>
        if u in OwnerIds(r) then (r, OwnsAlready)
        else if u in r.participants then (r, HasAccessAlready)
        else (Admitted(r, u, role), Done)
  }

  /** `set(owner_ids) <= {user}` */
  predicate OnlyOwner(r: Room, u: UserId) {
    forall v :: v in OwnerIds(r) ==> v == u
  }

  /** Whether an account's deletion takes this room with it. */
  predicate GoesWith(r: Room, u: UserId) {
    (r.creator == u || u in r.owners) && OnlyOwner(r, u)
  }

  /** A room without the account: out of its lists, where it is in one, and out of its requests. */
  function Detached(r: Room, u: UserId): Room {
    var left := if u in r.participants || u in r.owners
      then r.(participants := Pull(r.participants, u), owners := Pull(r.owners, u), roles := r.roles - {u})
      else r;
    left.(requests := PullRequests(left.requests, u))
  }

  function Remaining(rooms: map<RoomId, Room>, u: UserId): map<RoomId, Room> {
    map id | id in rooms && !GoesWith(rooms[id], u) :: Detached(rooms[id], u)
  }

  // ----- all of them

  function AfterInRoom(r: Room, accounts: seq<Account>, caller: UserId, call: RoomCall): (Room, Outcome) {
    match call
    case Join(token, requestId) => Joined(r, caller, token, requestId)
    case Approve(request, role) => ApprovedIn(r, caller, request, role)
    case Reject(request) => RejectedIn(r, caller, request)
    case SetRole(member, role) => RoleSet(r, caller, member, role)
    case Add(email, role) => Added(r, accounts, caller, email, role)
  }

  /** Whoever calls must have an account; new ids are ones not in use. */
  function After(db: Db, c: Call): (Db, Outcome) {
    match c
    case Register(id, email) =>
      if id == "" || id in Ids(db.accounts) then (db, Done)
      else (db.(accounts := db.accounts + [Account(id, Lower(email))]), Done)
    case DeleteAccount(u) =>
      if u !in Ids(db.accounts) then (db, UserNotFound)
      else (Db(WithoutAccount(db.accounts, u), Remaining(db.rooms, u)), Done)
    case Create(caller, room, isPublic, needsApproval, invite) =>
      if caller !in Ids(db.accounts) then (db, UserNotFound)
      else if room in db.rooms then (db, Done)
      else (db.(rooms := db.rooms[room := NewRoom(caller, isPublic, needsApproval, invite)]), Done)
    case DeleteRoom(caller, room) =>
      if caller !in Ids(db.accounts) then (db, UserNotFound)
      else if room !in db.rooms then (db, RoomNotFound)
      else if caller !in OwnerIds(db.rooms[room]) then (db, NotAnOwner)
      else (db.(rooms := db.rooms - {room}), Done)
    case InRoom(caller, room, call) =>
      if caller !in Ids(db.accounts) then (db, UserNotFound)
      else if room !in db.rooms then (db, RoomNotFound)
      else
        var (r, outcome) := AfterInRoom(db.rooms[room], db.accounts, caller, call);
        (db.(rooms := db.rooms[room := r]), outcome)
  }

  function Run(calls: seq<Call>): Db
    decreases |calls|
  {
    if calls == [] then Db([], map[]) else After(Run(calls[..|calls| - 1]), calls[|calls| - 1]).0
  }

  // ----- what every call keeps

  /** A room has owners; owners and those with a role take part; everyone it names has an account. */
  ghost predicate RoomKept(r: Room, ids: set<UserId>) {
    && PendingIsLast(r.requests)
    && r.owners != [] && Distinct(r.owners) && Distinct(r.participants)
    && (forall u :: u in r.owners ==> u in r.participants)
    && (forall u :: u in r.roles ==> u in r.participants && r.roles[u] != Owner)
    && (forall u :: u in r.participants ==> u in ids)
    && (forall q :: q in r.requests ==> q.user in ids)
  }

  /** A request that is pending is its user's latest, and so the only pending one. */
  ghost predicate PendingIsLast(rs: seq<JoinRequest>) {
    forall i, j :: 0 <= i < j < |rs| && rs[i].user == rs[j].user ==> rs[i].status != Pending
  }

  lemma {:induction false} PullKeepsLast(rs: seq<JoinRequest>, u: UserId)
    requires PendingIsLast(rs)
    ensures PendingIsLast(PullRequests(rs, u))
    decreases |rs|
  {
    if rs != [] {
      var front, last := rs[..|rs| - 1], rs[|rs| - 1];
      PullKeepsLast(front, u);
      var left := PullRequests(front, u);
      forall i | 0 <= i < |left| && left[i].user == last.user ensures left[i].status != Pending {
        assert left[i] in front;
      }
    }
  }

  ghost predicate Kept(db: Db) {
    && "" !in Ids(db.accounts)
    && forall id :: id in db.rooms ==> RoomKept(db.rooms[id], Ids(db.accounts))
  }

  lemma AdmittedKept(r: Room, u: UserId, role: Role, ids: set<UserId>)
    requires RoomKept(r, ids) && u in ids
    ensures RoomKept(Admitted(r, u, role), ids)
  {
    hide PendingIsLast;
  }

  lemma MarkedKept(r: Room, i: nat, status: RequestStatus, ids: set<UserId>)
    requires RoomKept(r, ids) && i < |r.requests| && status != Pending
    ensures RoomKept(Marked(r, i, status), ids)
  {
    assert r.requests[i] in r.requests;
    hide Distinct;
  }

  lemma JoinedKept(r: Room, u: UserId, token: Option<string>, requestId: string, ids: set<UserId>)
    requires RoomKept(r, ids) && u in ids
    ensures RoomKept(Joined(r, u, token, requestId).0, ids)
  {
    hide Distinct, Invited, OwnerIds;
  }

  lemma RoleSetKept(r: Room, caller: UserId, member: UserId, role: Role, ids: set<UserId>)
    requires RoomKept(r, ids)
    ensures RoomKept(RoleSet(r, caller, member, role).0, ids)
  {
    if member in r.owners && |r.owners| > 1 { AnotherLeft(r.owners, member); }
    hide Distinct, PendingIsLast;
  }

  lemma AnotherLeft(s: seq<UserId>, u: UserId)
    requires Distinct(s) && |s| > 1
    ensures Pull(s, u) != []
  {
    var v := if s[0] == u then s[1] else s[0];
    assert v in s && v != u;
    assert v in Pull(s, u);
  }

  lemma InRoomKept(r: Room, accounts: seq<Account>, caller: UserId, call: RoomCall)
    requires RoomKept(r, Ids(accounts)) && caller in Ids(accounts)
    ensures RoomKept(AfterInRoom(r, accounts, caller, call).0, Ids(accounts))
  {
    var ids := Ids(accounts);
    hide RoomKept, Joined, RoleSet, Admitted, Marked, OwnerIds, Ids;
    match call
    case Join(token, requestId) => JoinedKept(r, caller, token, requestId, ids);
    case Approve(request, role) =>
      var i := FindRequest(r.requests, request);
      if i < |r.requests| {
        MarkedKept(r, i, Approved, ids);
        RequestersKnown(r, i, ids);
        AdmittedKept(Marked(r, i, Approved), r.requests[i].user, role, ids);
      }
    case Reject(request) =>
      var i := FindRequest(r.requests, request);
      if i < |r.requests| { MarkedKept(r, i, Rejected, ids); }
    case SetRole(member, role) => RoleSetKept(r, caller, member, role, ids);
    case Add(email, role) =>
      var u := FindEmail(accounts, NormalEmail(email));
      if u.Some? { AdmittedKept(r, u.value, role, ids); }
  }

  lemma RequestersKnown(r: Room, i: nat, ids: set<UserId>)
    requires RoomKept(r, ids) && i < |r.requests|
    ensures r.requests[i].user in ids
  {
    assert r.requests[i] in r.requests;
  }

  lemma DetachedKept(r: Room, u: UserId, ids: set<UserId>)
    requires RoomKept(r, ids) && !GoesWith(r, u)
    ensures RoomKept(Detached(r, u), ids - {u})
  {
    PullKeepsLast(r.requests, u);
    hide Distinct, GoesWith, OwnerIds, PendingIsLast;
  }

  lemma CallKept(db: Db, c: Call)
    requires Kept(db)
    ensures Kept(After(db, c).0)
  {
    hide RoomKept, Detached, GoesWith, NewRoom, OwnerIds, AfterInRoom;
    match c
    case Register(id, email) =>
      var more := db.accounts + [Account(id, Lower(email))];
      IdsOfMore(db.accounts, Account(id, Lower(email)));
      forall room | room in db.rooms ensures RoomKept(db.rooms[room], Ids(more)) {
        MoreAccounts(db.rooms[room], Ids(db.accounts), Ids(more));
      }
    case DeleteAccount(u) =>
      forall id | id in db.rooms && !GoesWith(db.rooms[id], u)
        ensures RoomKept(Detached(db.rooms[id], u), Ids(db.accounts) - {u})
      {
        DetachedKept(db.rooms[id], u, Ids(db.accounts));
      }
    case Create(caller, room, isPublic, needsApproval, invite) =>
      if caller in Ids(db.accounts) { NewRoomKept(caller, isPublic, needsApproval, invite, Ids(db.accounts)); }
    case DeleteRoom(_, _) =>
    case InRoom(caller, room, call) =>
      if caller in Ids(db.accounts) && room in db.rooms { InRoomKept(db.rooms[room], db.accounts, caller, call); }
  }

  lemma MoreAccounts(r: Room, ids: set<UserId>, more: set<UserId>)
    requires RoomKept(r, ids) && ids <= more
    ensures RoomKept(r, more)
  {
    hide Distinct, PendingIsLast;
  }

  lemma NewRoomKept(caller: UserId, isPublic: bool, needsApproval: bool, invite: string, ids: set<UserId>)
    requires caller in ids
    ensures RoomKept(NewRoom(caller, isPublic, needsApproval, invite), ids)
  {}

  /** Whatever is called, in whatever order, every room keeps an owner and names only accounts there are. */
  lemma {:induction false} EveryRunKept(calls: seq<Call>)
    ensures Kept(Run(calls))
    decreases |calls|
  {
    hide Kept;
    if calls == [] {
      NothingKept();
    } else {
      EveryRunKept(calls[..|calls| - 1]);
      CallKept(Run(calls[..|calls| - 1]), calls[|calls| - 1]);
    }
  }

  lemma NothingKept()
    ensures Kept(Db([], map[]))
  {}

  // ----- what else holds of a call

  ghost predicate Names(r: Room, u: UserId) {
    u in r.owners || u in r.participants || u in r.roles || exists q :: q in r.requests && q.user == u
  }

  /** A deleted account is in no room, from then on until its id is registered again. */
  lemma {:induction false} DeletedIsGone(before: seq<Call>, u: UserId, after: seq<Call>)
    requires forall i :: 0 <= i < |after| ==> !(after[i].Register? && after[i].id == u)
    ensures var db := Run(before + [DeleteAccount(u)] + after);
      u !in Ids(db.accounts) && forall id :: id in db.rooms ==> !Names(db.rooms[id], u)
    decreases |after|
  {
    var calls := before + [DeleteAccount(u)] + after;
    EveryRunKept(calls);
    AccountIsGone(before, u, after);
    hide Run, Ids;
    forall id | id in Run(calls).rooms ensures !Names(Run(calls).rooms[id], u) {}
  }

  lemma {:induction false} AccountIsGone(before: seq<Call>, u: UserId, after: seq<Call>)
    requires forall i :: 0 <= i < |after| ==> !(after[i].Register? && after[i].id == u)
    ensures u !in Ids(Run(before + [DeleteAccount(u)] + after).accounts)
    decreases |after|
  {
    hide Ids, After;
    var calls := before + [DeleteAccount(u)] + after;
    var front := calls[..|calls| - 1];
    if after == [] {
      assert front == before;
    } else {
      AccountIsGone(before, u, after[..|after| - 1]);
      assert front == before + [DeleteAccount(u)] + after[..|after| - 1];
    }
    OnlyRegisteringAdds(Run(front), calls[|calls| - 1], u);
  }

  lemma OnlyRegisteringAdds(db: Db, c: Call, u: UserId)
    requires c == DeleteAccount(u) || (u !in Ids(db.accounts) && !(c.Register? && c.id == u))
    ensures u !in Ids(After(db, c).0.accounts)
  {
    hide AfterInRoom, Remaining, OwnerIds;
    if c.Register? { IdsOfMore(db.accounts, Account(c.id, Lower(c.email))); }
  }

  /** The rooms in which `u` takes part, before or after. */
  ghost predicate In(db: Db, room: RoomId, u: UserId) {
    room in db.rooms && u in db.rooms[room].participants
  }

  ghost predicate Owns(db: Db, room: RoomId, u: UserId) {
    room in db.rooms && u in db.rooms[room].owners
  }

  /** A token other than none, equal to the stored one without white space around it. */
  ghost predicate OwnToken(invite: string, token: Option<string>) {
    token == Some(Strip(invite)) && Strip(invite) != ""
  }

  /** How someone new comes into a room: making it, joining one that is open to them, or let in by an owner. */
  ghost predicate LetIn(db: Db, c: Call, room: RoomId, u: UserId) {
    if c.Create? then c.caller == u && c.room == room
    else
      && c.InRoom? && c.room == room && room in db.rooms
      && match c.call
         case Join(token, _) =>
           var r := db.rooms[room];
           c.caller == u && !r.needsApproval && (r.isPublic || OwnToken(r.invite, token))
         case Approve(_, _) => Owns(db, room, c.caller)
         case Add(_, _) => Owns(db, room, c.caller)
         case _ => false
  }

  lemma OnlyLetIn(db: Db, c: Call, room: RoomId, u: UserId)
    requires Kept(db) && !In(db, room, u) && In(After(db, c).0, room, u)
    ensures LetIn(db, c, room, u)
  {
    hide Distinct, Ids, Invited, AfterInRoom;
    if c.InRoom? && room in db.rooms { NewParticipant(db.rooms[room], db.accounts, c.caller, c.call, u); }
  }

  lemma NewParticipant(r: Room, accounts: seq<Account>, caller: UserId, call: RoomCall, u: UserId)
    requires r.owners != [] && u !in r.participants && u in AfterInRoom(r, accounts, caller, call).0.participants
    ensures match call
      case Join(token, _) => caller == u && !r.needsApproval && (r.isPublic || OwnToken(r.invite, token))
      case Approve(_, _) => caller in r.owners
      case Add(_, _) => caller in r.owners
      case _ => false
  {
    hide Distinct, Ids, Strip;
  }

  /** How someone comes to own a room: making it, or by one of its owners. */
  ghost predicate MadeOwner(db: Db, c: Call, room: RoomId, u: UserId) {
    if c.Create? then c.caller == u && c.room == room
    else
      && c.InRoom? && c.room == room && Owns(db, room, c.caller)
      && (c.call.Approve? || c.call.Add? || c.call.SetRole?) && c.call.role == Owner
  }

  lemma OnlyOwnersMakeOwners(db: Db, c: Call, room: RoomId, u: UserId)
    requires Kept(db) && !Owns(db, room, u) && Owns(After(db, c).0, room, u)
    ensures MadeOwner(db, c, room, u)
  {
    hide Distinct, Ids, AfterInRoom;
    if c.InRoom? && room in db.rooms { NewOwner(db.rooms[room], db.accounts, c.caller, c.call, u); }
  }

  lemma NewOwner(r: Room, accounts: seq<Account>, caller: UserId, call: RoomCall, u: UserId)
    requires r.owners != [] && u !in r.owners && u in AfterInRoom(r, accounts, caller, call).0.owners
    ensures caller in r.owners && (call.Approve? || call.Add? || call.SetRole?) && call.role == Owner
  {
    hide Distinct, Ids, Invited;
  }

  /** What ends a room: an owner deletes it, or its one owner's account is deleted. */
  ghost predicate EndsRoom(db: Db, c: Call, room: RoomId)
    requires room in db.rooms
  {
    || (c.DeleteRoom? && c.room == room && c.caller in db.rooms[room].owners && c.caller in Ids(db.accounts))
    || (c.DeleteAccount? && c.user in Ids(db.accounts) && db.rooms[room].owners == [c.user])
  }

  lemma HowRoomsEnd(db: Db, c: Call, room: RoomId)
    requires Kept(db) && room in db.rooms
    ensures room !in After(db, c).0.rooms <==> EndsRoom(db, c, room)
  {
    hide AfterInRoom, Detached, Ids;
    if c.DeleteAccount? {
      OnlyOwnerIsOne(db.rooms[room], c.user);
    }
  }

  lemma OnlyOwnerIsOne(r: Room, u: UserId)
    requires Distinct(r.owners) && r.owners != []
    ensures GoesWith(r, u) <==> r.owners == [u]
  {
    OneDistinct(r.owners, u);
    assert OwnerIds(r) == r.owners;
    if r.owners == [u] { assert u in r.owners; }
  }

  lemma OneDistinct(s: seq<UserId>, u: UserId)
    requires Distinct(s) && s != []
    ensures (forall v :: v in s ==> v == u) <==> s == [u]
  {
    assert s[0] in s;
    if |s| > 1 { assert s[1] in s && s[0] != s[1]; }
  }

  // ----- what a call does to roles

  /** `_get_viewer_role` */
  function ViewerRole(r: Room, u: UserId): Role {
    if u in OwnerIds(r) then Owner
    else if u in r.participants then (if u in r.roles then r.roles[u] else Editor)
    else Viewer
  }

  datatype Change = Change(user: UserId, role: Role)

  /** Whose role a successful call sets, and to what: an owner whose request is approved stays one. */
  ghost function Sets(r: Room, accounts: seq<Account>, caller: UserId, call: RoomCall): Option<Change> {
    match call
    case Join(_, _) => if caller in r.participants then None
      else Some(Change(caller, if r.isPublic then Viewer else Editor))
    case Approve(request, role) =>
      var i := FindRequest(r.requests, request);
      if i == |r.requests| then None
      else Some(Change(r.requests[i].user, if r.requests[i].user in r.owners then Owner else role))
    case Reject(_) => None
    case SetRole(member, role) => Some(Change(member, role))
    case Add(email, role) =>
      match FindEmail(accounts, NormalEmail(email))
      case None => None
      case Some(u) => Some(Change(u, role))
  }

  function RoleUnder(change: Option<Change>, r: Room, u: UserId): Role {
    if change.Some? && change.value.user == u then change.value.role else ViewerRole(r, u)
  }

  lemma RoleAdmitted(r: Room, user: UserId, role: Role, u: UserId)
    requires r.owners != [] && forall v :: v in r.roles ==> v in r.participants
    ensures ViewerRole(Admitted(r, user, role), u)
      == RoleUnder(Some(Change(user, if user in r.owners then Owner else role)), r, u)
  {
    hide Distinct;
  }

  lemma RoleJoined(r: Room, user: UserId, token: Option<string>, requestId: string, u: UserId)
    requires r.owners != [] && forall v :: v in r.roles ==> v in r.participants
    requires forall v :: v in r.owners ==> v in r.participants
    ensures var (after, outcome) := Joined(r, user, token, requestId);
      ViewerRole(after, u) == RoleUnder(
        if outcome == Done && user !in r.participants
        then Some(Change(user, if r.isPublic then Viewer else Editor)) else None,
        r, u)
  {
    hide Distinct, Invited;
  }

  lemma RoleSetTo(r: Room, caller: UserId, member: UserId, role: Role, u: UserId)
    requires Distinct(r.owners) && r.owners != []
    ensures var (after, outcome) := RoleSet(r, caller, member, role);
      ViewerRole(after, u) == RoleUnder(if outcome == Done then Some(Change(member, role)) else None, r, u)
  {
    if member in r.owners && |r.owners| > 1 { AnotherLeft(r.owners, member); }
    hide Distinct;
  }

  /** A call that succeeds sets the role of one person, and nobody else's; one that fails sets none. */
  lemma RolesAfter(r: Room, accounts: seq<Account>, caller: UserId, call: RoomCall, u: UserId)
    requires RoomKept(r, Ids(accounts)) && caller in Ids(accounts)
    ensures var (after, outcome) := AfterInRoom(r, accounts, caller, call);
      ViewerRole(after, u) == RoleUnder(if outcome == Done then Sets(r, accounts, caller, call) else None, r, u)
  {
    hide ViewerRole, Joined, RoleSet, Admitted, Ids, Distinct;
    assert OwnerIds(r) == r.owners;
    match call
    case Join(token, requestId) => RoleJoined(r, caller, token, requestId, u);
    case Approve(request, role) =>
      var i := FindRequest(r.requests, request);
      if i < |r.requests| {
        RoleAdmitted(Marked(r, i, Approved), r.requests[i].user, role, u);
        RoleMarked(r, i, Approved, u);
      }
    case Reject(request) =>
      var i := FindRequest(r.requests, request);
      if i < |r.requests| { RoleMarked(r, i, Rejected, u); }
    case SetRole(member, role) => RoleSetTo(r, caller, member, role, u);
    case Add(email, role) =>
      var found := FindEmail(accounts, NormalEmail(email));
      if found.Some? { RoleAdmitted(r, found.value, role, u); }
  }

  lemma RoleMarked(r: Room, i: nat, status: RequestStatus, u: UserId)
    requires i < |r.requests|
    ensures ViewerRole(Marked(r, i, status), u) == ViewerRole(r, u)
  {}

  // ----- what someone is told of their request

  datatype JoinStatus = IsIn(role: Role) | IsWaiting | WasRejected | NotRequested

  /** The latest request of someone, or the number of requests. */
  function LatestRequest(rs: seq<JoinRequest>, u: UserId): (i: nat)
    ensures i <= |rs| && (i < |rs| ==> rs[i].user == u && forall k :: i < k < |rs| ==> rs[k].user != u)
    ensures i == |rs| ==> forall k :: 0 <= k < |rs| ==> rs[k].user != u
  {
    if rs == [] then 0
    else if rs[|rs| - 1].user == u then |rs| - 1
    else
      var i := LatestRequest(rs[..|rs| - 1], u);
      if i == |rs| - 1 then |rs| else i
  }

  /** `get_room_join_status` */
  function StatusOf(r: Room, u: UserId): JoinStatus {
    if u in OwnerIds(r) then IsIn(Owner)
    else if u in r.participants then IsIn(if u in r.roles then r.roles[u] else Editor)
    else
      var i := LatestRequest(r.requests, u);
      if i == |r.requests| then NotRequested
      else if r.requests[i].status == Pending then IsWaiting
      else WasRejected
  }

  /** Someone who asks to join is told what came of it: that they are in, or that they wait. */
  lemma JoinTells(r: Room, u: UserId, token: Option<string>, requestId: string, ids: set<UserId>)
    requires RoomKept(r, ids) && u in ids
    ensures var (after, outcome) := Joined(r, u, token, requestId);
      && (outcome == Done <==> StatusOf(after, u).IsIn?)
      && (outcome == AwaitsApproval ==> StatusOf(after, u) == IsWaiting)
      && (outcome == RoomIsPrivate ==> after == r)
  {
    hide Distinct, Invited;
    var asked := r.requests + [JoinRequest(requestId, u, Pending)];
    assert LatestRequest(asked, u) == |r.requests|;
  }

  /** One whose pending request is decided is told so: in with the role, or rejected. */
  lemma DecisionTells(r: Room, owner: UserId, request: string, role: Role, ids: set<UserId>)
    requires RoomKept(r, ids) && owner in r.owners
    requires var i := FindRequest(r.requests, request); i < |r.requests| && r.requests[i].status == Pending
    requires var u := r.requests[FindRequest(r.requests, request)].user; u !in r.participants
    ensures var u := r.requests[FindRequest(r.requests, request)].user;
      && StatusOf(ApprovedIn(r, owner, request, role).0, u) == IsIn(role)
      && StatusOf(RejectedIn(r, owner, request).0, u) == WasRejected
  {
    hide Distinct;
    var i := FindRequest(r.requests, request);
    var u := r.requests[i].user;
    var rejected := Marked(r, i, Rejected).requests;
    assert forall k :: 0 <= k < |rejected| ==> rejected[k].user == r.requests[k].user;
    assert forall k :: i < k < |rejected| ==> r.requests[k].user != u;
  }

  // ----- the store

  class Repository {
    var accounts: seq<Account>
    var rooms: map<RoomId, Room>

    constructor ()
      ensures Now() == Db([], map[])
    {
      accounts, rooms := [], map[];
    }

    ghost function Now(): Db
      reads this
    {
      Db(accounts, rooms)
    }

    method CreateUser(id: UserId, email: string)
      requires id != "" && id !in Ids(accounts)
      modifies this
      ensures Now() == After(old(Now()), Register(id, email)).0
    {
      accounts := accounts + [Account(id, Lower(email))];
    }

    method DeleteUserAccount(user: UserId) returns (outcome: Outcome)
      modifies this
      ensures (Now(), outcome) == After(old(Now()), DeleteAccount(user))
    {
      if user !in Ids(accounts) { return UserNotFound; }
      var solelyOwned := set id | id in rooms && GoesWith(rooms[id], user);
      hide Detached, GoesWith;
      rooms := rooms - solelyOwned;
      rooms := map id | id in rooms :: Detached(rooms[id], user);
      assert rooms == Remaining(old(rooms), user);
      accounts := WithoutAccount(accounts, user);
      return Done;
    }

    method CreateRoom(caller: UserId, room: RoomId, isPublic: bool, needsApproval: bool, invite: string)
      requires caller in Ids(accounts) && room !in rooms
      modifies this
      ensures Now() == After(old(Now()), Create(caller, room, isPublic, needsApproval, invite)).0
    {
      rooms := rooms[room := Room(isPublic, needsApproval, invite, caller, [caller], [caller], map[], [])];
    }

    method JoinRoom(user: UserId, room: RoomId, token: Option<string>, requestId: string) returns (outcome: Outcome)
      requires user in Ids(accounts)
      modifies this
      ensures (Now(), outcome) == After(old(Now()), InRoom(user, room, Join(token, requestId)))
    {
      if room !in rooms { return RoomNotFound; }
      var r := rooms[room];
      assert rooms[room := r] == rooms;
      if user in OwnerIds(r) || user in r.participants { return Done; }
      var invited := Invited(r, token);
      if !r.isPublic && !invited { return RoomIsPrivate; }
      for i := 0 to |r.requests|
        invariant forall k :: 0 <= k < i ==> !(r.requests[k].user == user && r.requests[k].status == Pending)
      {
        if r.requests[i].user == user && r.requests[i].status == Pending { return AwaitsApproval; }
      }
      if r.isPublic && !r.needsApproval {
        rooms := rooms[room := r.(participants := AddToSet(r.participants, user), roles := r.roles[user := Viewer])];
        return Done;
      }
      if invited && !r.needsApproval {
        rooms := rooms[room := r.(participants := AddToSet(r.participants, user))];
        return Done;
      }
      rooms := rooms[room := r.(requests := r.requests + [JoinRequest(requestId, user, Pending)])];
      return AwaitsApproval;
    }

    method ApproveRequest(owner: UserId, room: RoomId, request: string, role: Role) returns (outcome: Outcome)
      requires owner in Ids(accounts)
      modifies this
      ensures (Now(), outcome) == After(old(Now()), InRoom(owner, room, Approve(request, role)))
    {
      if room !in rooms { return RoomNotFound; }
      var r := rooms[room];
      assert rooms[room := r] == rooms;
      if owner !in OwnerIds(r) { return NotAnOwner; }
      var i := FindRequest(r.requests, request);
      if i == |r.requests| { return RequestNotFound; }
      var user := r.requests[i].user;
      var marked := r.requests[i := r.requests[i].(status := Approved)];
      var participants := AddToSet(r.participants, user);
      if role == Owner {
        rooms := rooms[room := r.(
          requests := marked, participants := participants, owners := AddToSet(r.owners, user),
          roles := r.roles - {user})];
      } else {
        rooms := rooms[room := r.(requests := marked, participants := participants, roles := r.roles[user := role])];
      }
      return Done;
    }

    method RejectRequest(owner: UserId, room: RoomId, request: string) returns (outcome: Outcome)
      requires owner in Ids(accounts)
      modifies this
      ensures (Now(), outcome) == After(old(Now()), InRoom(owner, room, Reject(request)))
    {
      if room !in rooms { return RoomNotFound; }
      var r := rooms[room];
      assert rooms[room := r] == rooms;
      if owner !in OwnerIds(r) { return NotAnOwner; }
      var i := FindRequest(r.requests, request);
      if i < |r.requests| {
        rooms := rooms[room := r.(requests := r.requests[i := r.requests[i].(status := Rejected)])];
      }
      return Done;
    }

    method UpdateMemberAccess(owner: UserId, room: RoomId, member: UserId, role: Role) returns (outcome: Outcome)
      requires owner in Ids(accounts)
      modifies this
      ensures (Now(), outcome) == After(old(Now()), InRoom(owner, room, SetRole(member, role)))
    {
      if room !in rooms { return RoomNotFound; }
      var r := rooms[room];
      assert rooms[room := r] == rooms;
      var owners := OwnerIds(r);
      if owner !in owners { return NotAnOwner; }
      if member !in r.participants { return NotAMember; }
      if member in owners && role != Owner && |owners| <= 1 { return LastOwner; }
      if role == Owner {
        rooms := rooms[room := r.(owners := AddToSet(r.owners, member), roles := r.roles - {member})];
      } else if member in owners {
        rooms := rooms[room := r.(owners := Pull(r.owners, member), roles := r.roles[member := role])];
      } else {
        rooms := rooms[room := r.(roles := r.roles[member := role])];
      }
      return Done;
    }

    method AddMemberByEmail(owner: UserId, room: RoomId, email: string, role: Role) returns (outcome: Outcome)
      requires owner in Ids(accounts)
      modifies this
      ensures (Now(), outcome) == After(old(Now()), InRoom(owner, room, Add(email, role)))
    {
      if room !in rooms { return RoomNotFound; }
      var r := rooms[room];
      assert rooms[room := r] == rooms;
      if owner !in OwnerIds(r) { return NotAnOwner; }
      var invited := FindEmail(accounts, NormalEmail(email));
      if invited.None? { return NoSuchEmail; }
      var user := invited.value;
      if user in OwnerIds(r) { return OwnsAlready; }
      if user in r.participants { return HasAccessAlready; }
      var participants := AddToSet(r.participants, user);
      if role == Owner {
        rooms := rooms[room := r.(participants := participants, owners := AddToSet(r.owners, user),
          roles := r.roles - {user})];
      } else {
        rooms := rooms[room := r.(participants := participants, roles := r.roles[user := role])];
      }
      return Done;
    }

    method RemoveRoom(caller: UserId, room: RoomId) returns (outcome: Outcome)
      requires caller in Ids(accounts)
      modifies this
      ensures (Now(), outcome) == After(old(Now()), DeleteRoom(caller, room))
    {
      if room !in rooms { return RoomNotFound; }
      if caller !in OwnerIds(rooms[room]) { return NotAnOwner; }
      rooms := rooms - {room};
      return Done;
    }
  }
}
