/** The access, sharing and profile services over their tables.  Every method that touches them once is one
database statement, and is proved to be the step that the request `r` takes in Sharing; how far the requests have
come is history.  The others run a request, or a handler, without interruption. */
module SharingService {
  import opened Options
  import opened ProfileIds
  import opened Sharing

  // What a user is shown of a profile.
  datatype Masked = Masked(id: ProfileId, content: Content)

  function Ids(out: seq<Masked>): (ids: seq<ProfileId>)
    ensures |ids| == |out| && forall i :: 0 <= i < |out| ==> ids[i] == out[i].id
  {
    seq(|out|, i requires 0 <= i < |out| => out[i].id)
  }

  lemma IdsNext(out: seq<Masked>, m: Masked)
    ensures Ids(out + [m]) == Ids(out) + [m.id]
  {}

  lemma PresentNext(d: Db, ids: seq<ProfileId>, i: nat)
    requires i < |ids|
    ensures Present(d, ids[..i + 1]) == Present(d, ids[..i]) + if ids[i] in d.profiles then [ids[i]] else []
  {
    assert ids[..i + 1][..i] == ids[..i];
  }

  // The rows of a table come in some order.
  method InSomeOrder(all: set<ProfileId>) returns (rows: seq<ProfileId>)
    ensures IsRows(rows, all)
  {
    rows := [];
    var rest := all;
    while rest != {}
      invariant rest <= all && IsRows(rows, all - rest)
      decreases |rest|
    {
      var p :| p in rest;
      rows := rows + [p];
      rest := rest - {p};
    }
  }

  class Service {
    var users: Users
    var profiles: Profiles
    var shares: Shares
    ghost var requests: Requests
    ghost var owners: Owners
    ghost var log: seq<Entry>

    constructor (users: Users)
      ensures Initial(View()) && this.users == users
    {
      this.users, profiles, shares, requests, owners, log := users, map[], map[], map[], map[], [];
    }

    ghost function Tables(): Db
      reads this
    {
      Db(users, profiles, shares, owners, log)
    }

    ghost function View(): World
      reads this
    {
      World(Tables(), requests)
    }

    // ---- Access

    method AccessLevel(userId: UserId, profileId: string) returns (level: Option<Level>)
      ensures level == Access(Tables(), userId, profileId)
    {
      if !IsUuid(profileId) { return None; }
      var p := Lower(profileId);
      if p !in profiles { return None; }
      if profiles[p].owner == userId { return Some(Owner); }
      if (p, userId) !in shares { return None; }
      return Some(Shared(shares[(p, userId)]));
    }

    /** Who may not see a profile learns nothing of it, and a viewer is refused what needs more. */
    method CanActivate(userId: UserId, profileId: string, needsManage: bool) returns (refusal: Option<Reply>, level: Option<Level>)
      ensures level == Access(Tables(), userId, profileId)
      ensures refusal == Some(NotFound) <==> level == None
      ensures refusal == Some(Forbidden) <==> needsManage && level == Some(Shared(CanView))
      ensures refusal.None? || refusal == Some(NotFound) || refusal == Some(Forbidden)
    {
      level := AccessLevel(userId, profileId);
      if level.None? { return Some(NotFound), level; }
      if needsManage && level.value == Shared(CanView) { return Some(Forbidden), level; }
      return None, level;
    }

    method AccessibleProfileIds(userId: UserId) returns (ids: seq<ProfileId>, ghost owned: seq<ProfileId>, ghost shared: seq<ProfileId>)
      ensures IsRows(owned, OwnedBy(Tables(), userId)) && IsRows(shared, SharedWith(Tables(), userId))
      ensures ids == owned + shared
    {
      var first := InSomeOrder(set p | p in profiles && profiles[p].owner == userId);
      var second := InSomeOrder(set k | k in shares && k.1 == userId :: k.0);
      owned, shared := first, second;
      ids := first + second;
    }

    method GetMasked(p: ProfileId) returns (m: Option<Masked>)
      ensures m.Some? <==> p in profiles
      ensures m.Some? ==> m.value == Masked(p, profiles[p].content)
    {
      if p !in profiles { return None; }
      return Some(Masked(p, profiles[p].content));
    }

    /** The profiles a user can see: what was loaded for every id that is still there. */
    method List(userId: UserId) returns (out: seq<Masked>, ghost owned: seq<ProfileId>, ghost shared: seq<ProfileId>)
      ensures IsRows(owned, OwnedBy(Tables(), userId)) && IsRows(shared, SharedWith(Tables(), userId))
      ensures Ids(out) == Listed(Tables(), owned, shared)
      ensures forall m :: m in out ==> m.id in profiles && m.content == profiles[m.id].content
    {
      var ids;
      ids, owned, shared := AccessibleProfileIds(userId);
      out := [];
      for i := 0 to |ids|
        invariant Ids(out) == Present(Tables(), ids[..i])
        invariant forall m :: m in out ==> m.id in profiles && m.content == profiles[m.id].content
      {
        PresentNext(Tables(), ids, i);
        var m := GetMasked(ids[i]);
        if m.Some? {
          IdsNext(out, m.value);
          out := out + [m.value];
        }
      }
      assert ids[..|ids|] == ids;
    }

    // ---- Statements

    method Create(user: UserId, p: ProfileId, content: Content)
      requires Enabled(View(), Op.Create(user, p, content))
      modifies this`profiles, this`owners
      ensures profiles == old(profiles)[p := Profile(user, content)]
      ensures View() == Step(old(View()), Op.Create(user, p, content))
    {
      profiles := profiles[p := Profile(user, content)];
      owners := owners[p := user];
    }

    ghost method Receive(r: nat, user: UserId, id: string, a: Action)
      requires r !in requests
      modifies this`requests
      ensures View() == Step(old(View()), Arrive(r, user, id, a))
    {
      requests := requests[r := Arrived(user, id, a)];
    }

    // The request takes the step that the statement is.
    ghost method Took(r: nat, before: Db)
      requires r in requests && !requests[r].Answered?
      modifies this`requests
      ensures requests == old(requests)[r := Next(before, old(requests)[r])]
    {
      requests := requests[r := Next(before, requests[r])];
    }

    /** Who may not see the profile learns nothing of it, and a viewer is refused what needs more. */
    method Admit(ghost r: nat, user: UserId, id: string, a: Action) returns (refusal: Option<Reply>)
      requires r in requests && requests[r] == Arrived(user, id, a)
      modifies this`requests
      ensures View() == Step(old(View()), Advance(r))
      ensures refusal.None? <==> Access(Tables(), user, id).Some? && (a.Read? || MayManage(Access(Tables(), user, id)))
      ensures requests[r] == if refusal.Some? then Answered(refusal.value)
                             else Admitted(user, Lower(id), Access(Tables(), user, id).value, a)
    {
      var level;
      refusal, level := CanActivate(user, id, !a.Read?);
      Took(r, Tables());
    }

    method ReadProfile(ghost r: nat, p: ProfileId) returns (m: Option<Masked>)
      requires At(r, p, Read)
      modifies this`requests
      ensures View() == Step(old(View()), Advance(r))
      ensures m == if p in profiles then Some(Masked(p, profiles[p].content)) else None
    {
      m := GetMasked(p);
      Took(r, Tables());
    }

    method LoadProfile(ghost r: nat, p: ProfileId, ghost changes: Content) returns (loaded: Option<Profile>)
      requires At(r, p, Edit(changes))
      modifies this`requests
      ensures View() == Step(old(View()), Advance(r))
      ensures loaded == if p in profiles then Some(profiles[p]) else None
    {
      Took(r, Tables());
      loaded := if p in profiles then Some(profiles[p]) else None;
    }

    // Updates the row, or inserts it again when it is gone.
    method SaveProfile(ghost r: nat, p: ProfileId, loaded: Profile, changes: Content)
      requires r in requests && requests[r].Editing? && requests[r] == Editing(requests[r].user, p, loaded, changes)
      modifies this`profiles, this`requests
      ensures View() == Step(old(View()), Advance(r))
      ensures p in profiles && profiles[p].owner == loaded.owner && Updates(loaded.content, changes, profiles[p].content)
      ensures forall q :: q != p ==>
        (q in profiles <==> q in old(profiles)) && (q in profiles ==> profiles[q] == old(profiles)[q])
    {
      Took(r, Tables());
      MergedUpdates(loaded.content, changes);
      profiles := profiles[p := loaded.(content := Merged(loaded.content, changes))];
    }

    method FindByEmail(ghost r: nat, ghost p: ProfileId, email: string, ghost permission: Permission)
      returns (grantee: Option<UserId>)
      requires At(r, p, Action.Grant(email, permission))
      modifies this`requests
      ensures View() == Step(old(View()), Advance(r))
      ensures grantee == if email in users then Some(users[email]) else None
    {
      Took(r, Tables());
      grantee := if email in users then Some(users[email]) else None;
    }

    // The share that exists gets the permission, or a new one is made: there is one for each profile and grantee.
    method SaveShare(ghost r: nat, p: ProfileId, grantee: UserId, permission: Permission)
      requires r in requests && requests[r].Granting?
      requires requests[r] == Granting(requests[r].user, p, grantee, permission)
      modifies this`shares, this`requests, this`log
      ensures View() == Step(old(View()), Advance(r))
      ensures (p, grantee) in shares && shares[(p, grantee)] == permission
      ensures forall k :: k != (p, grantee) ==>
        (k in shares <==> k in old(shares)) && (k in shares ==> shares[k] == old(shares)[k])
    {
      log := log + [Entry(requests[r].user, p, grantee, permission)];
      Took(r, Tables());
      shares := shares[(p, grantee) := permission];
    }

    method Revoke(ghost r: nat, p: ProfileId, grantee: UserId)
      requires At(r, p, Action.Revoke(grantee))
      modifies this`shares, this`requests
      ensures View() == Step(old(View()), Advance(r))
      ensures forall k :: k in shares <==> k in old(shares) && k != (p, grantee)
    {
      Took(r, Tables());
      shares := shares - {(p, grantee)};
    }

    method RevokeAllForProfile(ghost r: nat, p: ProfileId)
      requires At(r, p, Action.Remove)
      modifies this`shares, this`requests
      ensures View() == Step(old(View()), Advance(r))
      ensures forall k :: k in shares <==> k in old(shares) && k.0 != p
    {
      Took(r, Tables());
      shares := map k | k in shares && k.0 != p :: shares[k];
    }

    method DeleteRow(ghost r: nat, p: ProfileId)
      requires r in requests && requests[r].Removing? && requests[r].profile == p
      modifies this`profiles, this`requests
      ensures View() == Step(old(View()), Advance(r))
      ensures forall q :: q in profiles <==> q in old(profiles) && q != p
    {
      Took(r, Tables());
      profiles := profiles - {p};
    }

    // Request `r` is past the guard, and its handler is about to run.
    ghost predicate At(r: nat, p: ProfileId, a: Action)
      reads this`requests
    {
      r in requests && requests[r].Admitted? && requests[r].profile == p && requests[r].action == a
    }

    // ---- Handlers, without interruption

    method Update(ghost r: nat, p: ProfileId, changes: Content) returns (found: bool)
      requires At(r, p, Edit(changes))
      modifies this
      ensures (Tables(), if found then Fine else NotFound) == Finish(old(Tables()), old(requests)[r])
      ensures found <==> p in old(profiles)
      ensures found ==> OnlyUpdates(old(Tables()), Tables(), p, changes)
      ensures !found ==> Tables() == old(Tables())
    {
      var loaded := LoadProfile(r, p, changes);
      if loaded.None? { return false; }
      TwoStatements(old(Tables()), old(requests)[r]);
      EditHandlerKeepsBlanks(old(Tables()), old(requests)[r].user, p, old(requests)[r].level, changes);
      SaveProfile(r, p, loaded.value, changes);
      return true;
    }

    method Grant(ghost r: nat, p: ProfileId, email: string, permission: Permission) returns (found: bool)
      requires At(r, p, Action.Grant(email, permission))
      modifies this
      ensures (Tables(), if found then Fine else NotFound) == Finish(old(Tables()), old(requests)[r])
      ensures found <==> email in old(users)
    {
      var grantee := FindByEmail(r, p, email, permission);
      if grantee.None? { return false; }
      TwoStatements(old(Tables()), old(requests)[r]);
      SaveShare(r, p, grantee.value, permission);
      return true;
    }

    method Remove(ghost r: nat, p: ProfileId)
      requires At(r, p, Action.Remove)
      modifies this
      ensures (Tables(), Fine) == Finish(old(Tables()), old(requests)[r])
    {
      TwoStatements(Tables(), requests[r]);
      RevokeAllForProfile(r, p);
      DeleteRow(r, p);
    }

    // The handler of the route.
    method Handle(ghost r: nat, p: ProfileId, a: Action) returns (reply: Reply)
      requires At(r, p, a)
      modifies this
      ensures (Tables(), reply) == Finish(old(Tables()), old(requests)[r])
    {
      var found := true;
      match a {
        case Read =>
          var m := ReadProfile(r, p);
          found := m.Some?;
        case Edit(changes) => found := Update(r, p, changes);
        case Grant(email, permission) => found := Grant(r, p, email, permission);
        case Revoke(g) => Revoke(r, p, g);
        case Remove => Remove(r, p);
      }
      reply := if found then Fine else NotFound;
    }

    /** A request that runs alone, from the guard to its answer, does what the atomic request does. */
    method Serve(ghost r: nat, user: UserId, id: string, a: Action) returns (reply: Reply)
      requires r !in requests
      modifies this
      ensures (Tables(), reply) == Served(old(Tables()), user, id, a)
    {
      Receive(r, user, id, a);
      AloneIsAtomic(Tables(), user, id, a);
      var refusal := Admit(r, user, id, a);
      if refusal.Some? { return refusal.value; }
      reply := Handle(r, Lower(id), a);
    }
  }
}
