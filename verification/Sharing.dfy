/** Who may see and change a camera profile.  A request is checked by the guard and then runs its handler,
statement by statement; requests of any number of users interleave.  The worlds between the statements of all of
them make a run. */
module Sharing {
  import opened Options
  import opened ProfileIds

  type UserId = nat
  type ProfileId = string

  datatype Permission = CanView | CanManage

  datatype Level = Owner | Shared(permission: Permission)

  // The name and the settings of a profile.
  type Content = map<string, string>

  datatype Profile = Profile(owner: UserId, content: Content)

  datatype Action =
    | Read
    | Edit(changes: Content)
    | Grant(email: string, permission: Permission)
    | Revoke(grantee: UserId)
    | Remove

  datatype Reply = Fine | NotFound | Forbidden | Failed

  /** How far a request has come: it waits for the guard; its handler is about to run; an update has loaded the
  row; a grant has found the account to share with; a removal has deleted the shares but not yet the profile; or
  it is answered. */
  datatype Stage =
    | Arrived(user: UserId, id: string, action: Action)
    | Admitted(user: UserId, profile: ProfileId, level: Level, action: Action)
    | Editing(user: UserId, profile: ProfileId, loaded: Profile, changes: Content)
    | Granting(user: UserId, profile: ProfileId, grantee: UserId, permission: Permission)
    | Removing(user: UserId, profile: ProfileId)
    | Answered(reply: Reply)

  // One grant that was carried out.
  datatype Entry = Entry(actor: UserId, profile: ProfileId, grantee: UserId, permission: Permission)

  type Users = map<string, UserId>
  type Profiles = map<ProfileId, Profile>
  type Shares = map<(ProfileId, UserId), Permission>
  type Requests = map<nat, Stage>
  type Owners = map<ProfileId, UserId>

  /** The tables, and the history: the owner of every profile there ever was, and the grants in the order they
  were carried out. */
  datatype Db = Db(users: Users, profiles: Profiles, shares: Shares, owners: Owners, log: seq<Entry>)

  datatype World = World(db: Db, requests: Requests)

  // ---- Access

  function Access(d: Db, u: UserId, id: string): Option<Level> {
    match Row(id)
    case None => None
    case Some(p) =>
      if p !in d.profiles then None
      else if d.profiles[p].owner == u then Some(Owner)
      else if (p, u) in d.shares then Some(Shared(d.shares[(p, u)]))
      else None
  }

  predicate MayManage(level: Option<Level>) {
    level.Some? && level.value != Shared(CanView)
  }

  predicate NeedsManage(a: Action) {
    !a.Read?
  }

  function Guard(level: Option<Level>, needsManage: bool): Option<Reply> {
    if level.None? then Some(NotFound)
    else if needsManage && level.value == Shared(CanView) then Some(Forbidden)
    else None
  }

  // ---- Steps

  function SharesWithout(shares: Shares, p: ProfileId): Shares {
    map k | k in shares && k.0 != p :: shares[k]
  }

  // An update keeps what it leaves blank.
  function Merged(content: Content, changes: Content): Content {
    content + map k | k in changes && changes[k] != "" :: changes[k]
  }

  datatype Op =
    | Join(email: string, user: UserId)
    | Create(user: UserId, profile: ProfileId, content: Content)
    | Arrive(request: nat, user: UserId, id: string, action: Action)
    | Advance(request: nat)
    | Break(request: nat)

  predicate Enabled(w: World, op: Op) {
    match op
    case Join(email, user) => email !in w.db.users
    case Create(_, p, _) => Row(p) == Some(p) && p !in w.db.owners
    case Arrive(r, _, _, _) => r !in w.requests
    case Advance(r) => r in w.requests && !w.requests[r].Answered?
    case Break(r) => r in w.requests && !w.requests[r].Answered?
  }

  /** What the next statement of a request does to the tables: the guard only looks, an update first loads the row,
  a grant first looks for the account, and a removal first deletes the shares.  The save of an update writes the
  row as it was loaded, with the changes, and inserts it when it is no longer there. */
  function Effect(d: Db, s: Stage): Db {
    match s
    case Admitted(_, p, _, Revoke(g)) => d.(shares := d.shares - {(p, g)})
    case Admitted(_, p, _, Remove) => d.(shares := SharesWithout(d.shares, p))
    case Editing(_, p, loaded, changes) =>
      d.(profiles := d.profiles[p := loaded.(content := Merged(loaded.content, changes))])
    case Granting(u, p, g, permission) =>
      d.(shares := d.shares[(p, g) := permission], log := d.log + [Entry(u, p, g, permission)])
    case Removing(_, p) => d.(profiles := d.profiles - {p})
    case _ => d
  }

  /** Where that statement leaves the request. */
  function Next(d: Db, s: Stage): Stage
    requires !s.Answered?
  {
    match s
    case Arrived(u, id, a) =>
      var level := Access(d, u, id);
      var refusal := Guard(level, NeedsManage(a));
      if refusal.Some? then Answered(refusal.value) else Admitted(u, Row(id).value, level.value, a)
    case Admitted(u, p, _, a) => (
      match a
      case Read => Answered(if p in d.profiles then Fine else NotFound)
      case Edit(changes) => if p in d.profiles then Editing(u, p, d.profiles[p], changes) else Answered(NotFound)
      case Grant(email, permission) =>
        if email in d.users then Granting(u, p, d.users[email], permission) else Answered(NotFound)
      case Revoke(_) => Answered(Fine)
      case Remove => Removing(u, p))
    case _ => Answered(Fine)
  }

  function Step(w: World, op: Op): World
    requires Enabled(w, op)
  {
    match op
    case Join(email, user) => w.(db := w.db.(users := w.db.users[email := user]))
    case Create(u, p, c) =>
      w.(db := w.db.(profiles := w.db.profiles[p := Profile(u, c)], owners := w.db.owners[p := u]))
    case Arrive(r, u, id, a) => w.(requests := w.requests[r := Arrived(u, id, a)])
    case Advance(r) => World(Effect(w.db, w.requests[r]), w.requests[r := Next(w.db, w.requests[r])])
    case Break(r) => w.(requests := w.requests[r := Answered(Failed)])
  }

  // ---- Requests that run alone

  function Rank(s: Stage): nat {
    match s
    case Arrived(_, _, _) => 3
    case Admitted(_, _, _, _) => 2
    case Answered(_) => 0
    case _ => 1
  }

  /** What the tables and the reply become when no other request runs in between. */
  function Finish(d: Db, s: Stage): (Db, Reply)
    decreases Rank(s)
  {
    if s.Answered? then (d, s.reply) else Finish(Effect(d, s), Next(d, s))
  }

  // A handler of two statements.
  lemma TwoStatements(d: Db, s: Stage)
    requires s.Admitted? && !Next(d, s).Answered?
    ensures Finish(d, s) == (Effect(Effect(d, s), Next(d, s)), Fine)
  {
    var e, t := Effect(d, s), Next(d, s);
    assert Next(e, t) == Answered(Fine);
    assert Finish(e, t) == Finish(Effect(e, t), Next(e, t));
  }

  function Served(d: Db, u: UserId, id: string, a: Action): (Db, Reply) {
    var refusal := Guard(Access(d, u, id), NeedsManage(a));
    if refusal.Some? then (d, refusal.value)
    else
      var p := Row(id).value;
      match a
      case Read => (d, Fine)
      case Edit(changes) =>
        (d.(profiles := d.profiles[p := d.profiles[p].(content := Merged(d.profiles[p].content, changes))]), Fine)
      case Grant(email, permission) =>
        if email !in d.users then (d, NotFound)
        else
          var g := d.users[email];
          (d.(shares := d.shares[(p, g) := permission], log := d.log + [Entry(u, p, g, permission)]), Fine)
      case Revoke(g) => (d.(shares := d.shares - {(p, g)}), Fine)
      case Remove => (d.(shares := SharesWithout(d.shares, p), profiles := d.profiles - {p}), Fine)
  }

  /** The guard and the statements of the handler add up to one atomic request. */
  lemma AloneIsAtomic(d: Db, u: UserId, id: string, a: Action)
    ensures Finish(d, Arrived(u, id, a)) == Served(d, u, id, a)
  {
    var s1 := Next(d, Arrived(u, id, a));
    assert Finish(d, Arrived(u, id, a)) == Finish(d, s1);
    if s1.Admitted? {
      var d2, s2 := Effect(d, s1), Next(d, s1);
      assert Finish(d, s1) == Finish(d2, s2);
      if !s2.Answered? {
        assert Finish(d2, s2) == Finish(Effect(d2, s2), Next(d2, s2));
      }
    }
  }

  // What an update makes of the settings: what it gives is taken, and what it leaves out or blank stays.
  ghost predicate Updates(before: Content, changes: Content, after: Content) {
    && (forall k :: k in after <==> k in before || (k in changes && changes[k] != ""))
    && (forall k :: k in changes && changes[k] != "" ==> k in after && after[k] == changes[k])
    && (forall k :: k in before && !(k in changes && changes[k] != "") ==> k in after && after[k] == before[k])
  }

  // The two tables differ in the settings of one profile, by an update, and in nothing else.
  ghost predicate OnlyUpdates(d: Db, e: Db, p: ProfileId, changes: Content) {
    && e == d.(profiles := e.profiles) && p in d.profiles && p in e.profiles
    && (forall q :: q in e.profiles <==> q in d.profiles)
    && (forall q :: q in d.profiles && q != p ==> e.profiles[q] == d.profiles[q])
    && e.profiles[p].owner == d.profiles[p].owner
    && Updates(d.profiles[p].content, changes, e.profiles[p].content)
  }

  lemma MergedUpdates(before: Content, changes: Content)
    ensures Updates(before, changes, Merged(before, changes))
  {}

  /** An update that may be made changes the settings it gives, keeps the ones it leaves blank, and touches no owner, no
  other profile and no share. */
  lemma UpdateKeepsBlanks(d: Db, u: UserId, id: string, changes: Content)
    requires MayManage(Access(d, u, id))
    ensures Served(d, u, id, Edit(changes)).1 == Fine
    ensures OnlyUpdates(d, Served(d, u, id, Edit(changes)).0, Row(id).value, changes)
  {
    MergedUpdates(d.profiles[Row(id).value].content, changes);
  }

  /** So does its handler, when nothing comes between the load and the save. */
  lemma EditHandlerKeepsBlanks(d: Db, u: UserId, p: ProfileId, l: Level, changes: Content)
    requires p in d.profiles
    ensures Finish(d, Admitted(u, p, l, Edit(changes))).1 == Fine
    ensures OnlyUpdates(d, Finish(d, Admitted(u, p, l, Edit(changes))).0, p, changes)
  {
    TwoStatements(d, Admitted(u, p, l, Edit(changes)));
    MergedUpdates(d.profiles[p].content, changes);
  }

  /** A grant gives its grantee exactly the granted level, and everyone else what they had. */
  lemma GrantThenAccess(d: Db, u: UserId, id: string, email: string, permission: Permission, v: UserId, id': string)
    requires MayManage(Access(d, u, id)) && email in d.users
    ensures Access(Served(d, u, id, Grant(email, permission)).0, v, id') ==
            if v == d.users[email] && Row(id') == Row(id) && Access(d, v, id') != Some(Owner)
            then Some(Shared(permission)) else Access(d, v, id')
  {}

  /** Revoking a first grant undoes it: the tables are as before, and only the history tells. */
  lemma RevokeUndoesGrant(d: Db, u: UserId, id: string, email: string, permission: Permission)
    requires MayManage(Access(d, u, id)) && email in d.users && (Row(id).value, d.users[email]) !in d.shares
    ensures var e := Served(d, u, id, Grant(email, permission)).0;
            Served(e, u, id, Revoke(d.users[email])) == (d.(log := e.log), Fine)
  {
    var e := Served(d, u, id, Grant(email, permission)).0;
    assert Access(e, u, id) == Access(d, u, id);
    assert e.shares - {(Row(id).value, d.users[email])} == d.shares;
  }

  // ---- Runs

  ghost predicate Initial(w: World) {
    w == World(Db(w.db.users, map[], map[], map[], []), map[])
  }

  ghost predicate StepsTo(ws: seq<World>, ops: seq<Op>, i: nat)
    requires i < |ops| && i + 1 < |ws|
  {
    Enabled(ws[i], ops[i]) && ws[i + 1] == Step(ws[i], ops[i])
  }

  ghost predicate IsRun(ws: seq<World>, ops: seq<Op>) {
    |ws| == |ops| + 1 && Initial(ws[0]) && forall i :: 0 <= i < |ops| ==> StepsTo(ws, ops, i)
  }

  // ---- The list of profiles

  // Rows come in any order, each once.
  ghost predicate IsRows(rows: seq<ProfileId>, all: set<ProfileId>) {
    (forall p :: p in rows <==> p in all) && forall i, j :: 0 <= i < j < |rows| ==> rows[i] != rows[j]
  }

  function OwnedBy(d: Db, u: UserId): set<ProfileId> {
    set p | p in d.profiles && d.profiles[p].owner == u
  }

  function SharedWith(d: Db, u: UserId): set<ProfileId> {
    set k | k in d.shares && k.1 == u :: k.0
  }

  /** The ids that are still there when their profile is loaded. */
  function Present(d: Db, ids: seq<ProfileId>): (r: seq<ProfileId>)
    ensures forall p :: p in r <==> p in ids && p in d.profiles
  {
    if ids == [] then []
    else Present(d, ids[..|ids| - 1]) + if ids[|ids| - 1] in d.profiles then [ids[|ids| - 1]] else []
  }

  function Listed(d: Db, owned: seq<ProfileId>, shared: seq<ProfileId>): seq<ProfileId> {
    Present(d, owned + shared)
  }

  // ---- An id may be listed twice

  lemma RowsOccurOnce(rows: seq<ProfileId>, all: set<ProfileId>, p: ProfileId)
    requires IsRows(rows, all)
    ensures multiset(rows)[p] == if p in all then 1 else 0
  {
    assert p in rows <==> p in all;
    if p in rows {
      var i :| 0 <= i < |rows| && rows[i] == p;
      OccursOnce(rows[..i], p, rows[i + 1..]);
      assert rows == rows[..i] + [p] + rows[i + 1..];
    }
  }

  lemma OccursOnce(a: seq<ProfileId>, p: ProfileId, b: seq<ProfileId>)
    requires p !in a && p !in b
    ensures multiset(a + [p] + b)[p] == 1
  {}

  lemma {:induction false} PresentOccur(d: Db, ids: seq<ProfileId>, p: ProfileId)
    ensures multiset(Present(d, ids))[p] == if p in d.profiles then multiset(ids)[p] else 0
  {
    if ids != [] {
      PresentOccur(d, ids[..|ids| - 1], p);
      assert ids == ids[..|ids| - 1] + [ids[|ids| - 1]];
    }
  }

  /** A profile is listed once, and twice exactly to an owner who also holds a share of it. */
  lemma ListedHowOften(d: Db, u: UserId, owned: seq<ProfileId>, shared: seq<ProfileId>, p: ProfileId)
    requires IsRows(owned, OwnedBy(d, u)) && IsRows(shared, SharedWith(d, u))
    ensures multiset(Listed(d, owned, shared))[p] ==
            (if p in d.profiles && d.profiles[p].owner == u then 1 else 0) +
            (if p in d.profiles && (p, u) in d.shares then 1 else 0)
  {
    PresentOccur(d, owned + shared, p);
    RowsOccurOnce(owned, OwnedBy(d, u), p);
    RowsOccurOnce(shared, SharedWith(d, u), p);
    SharedWithIsShares(d, u, p);
  }

  lemma SharedWithIsShares(d: Db, u: UserId, p: ProfileId)
    ensures p in SharedWith(d, u) <==> (p, u) in d.shares
  {}
}
