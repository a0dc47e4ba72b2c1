/** What holds over whole runs of requests, however their statements interleave. */
module SharingRuns {
  import opened Options
  import opened ProfileIds
  import opened Sharing

  // ---- The invariant

  ghost predicate Gives(log: seq<Entry>, i: nat, p: ProfileId, u: UserId, permission: Permission) {
    i < |log| && log[i].profile == p && log[i].grantee == u && log[i].permission == permission
  }

  ghost predicate Granted(log: seq<Entry>, n: nat, p: ProfileId, u: UserId, permission: Permission) {
    exists i: nat :: i < n && Gives(log, i, p, u, permission)
  }

  /** User `u` owns profile `p`, or one of the first `n` grants let the user manage it. */
  ghost predicate Entitled(owners: Owners, log: seq<Entry>, n: nat, p: ProfileId, u: UserId) {
    p in owners && (owners[p] == u || Granted(log, n, p, u, CanManage))
  }

  // A request that may still change a profile comes from someone who is entitled to.
  ghost predicate Rightful(owners: Owners, log: seq<Entry>, s: Stage) {
    match s
    case Admitted(u, p, l, a) => NeedsManage(a) ==> l != Shared(CanView) && Entitled(owners, log, |log|, p, u)
    case Editing(u, p, loaded, _) =>
      Row(p) == Some(p) && Entitled(owners, log, |log|, p, u) && loaded.owner == owners[p]
    case Granting(u, p, _, _) => Entitled(owners, log, |log|, p, u)
    case Removing(u, p) => Entitled(owners, log, |log|, p, u)
    case _ => true
  }

  ghost predicate ProfilesKept(d: Db) {
    forall p :: p in d.profiles ==> Row(p) == Some(p) && p in d.owners && d.owners[p] == d.profiles[p].owner
  }

  ghost predicate SharesGranted(d: Db) {
    forall k :: k in d.shares ==> Granted(d.log, |d.log|, k.0, k.1, d.shares[k])
  }

  ghost predicate LogRightful(d: Db) {
    forall i :: 0 <= i < |d.log| ==> Entitled(d.owners, d.log, i, d.log[i].profile, d.log[i].actor)
  }

  ghost predicate Kept(d: Db) {
    ProfilesKept(d) && SharesGranted(d) && LogRightful(d)
  }

  ghost predicate Inv(w: World) {
    Kept(w.db) && forall r :: r in w.requests ==> Rightful(w.db.owners, w.db.log, w.requests[r])
  }

  // ---- Every step keeps it

  lemma GrantedStays(log: seq<Entry>, e: Entry, n: nat, m: nat, p: ProfileId, u: UserId, permission: Permission)
    requires Granted(log, n, p, u, permission) && n <= m
    ensures Granted(log + [e], m, p, u, permission)
  {
    var i: nat :| i < n && Gives(log, i, p, u, permission);
    assert Gives(log + [e], i, p, u, permission);
  }

  lemma EntitledStays(owners: Owners, log: seq<Entry>, e: Entry, n: nat, m: nat, p: ProfileId, u: UserId)
    requires Entitled(owners, log, n, p, u) && n <= m
    ensures Entitled(owners, log + [e], m, p, u)
  {
    if owners[p] != u {
      GrantedStays(log, e, n, m, p, u, CanManage);
    }
  }

  // A statement that may take shares away or change what profiles contain, and writes no grant.
  lemma QuietKeeps(d: Db, e: Db)
    requires Kept(d) && e.owners == d.owners && e.log == d.log
    requires forall k :: k in e.shares ==> k in d.shares && e.shares[k] == d.shares[k]
    requires forall p :: p in e.profiles ==> p in d.profiles && e.profiles[p].owner == d.profiles[p].owner
    ensures Kept(e)
  {}

  lemma GrantKeeps(d: Db, s: Stage)
    requires Kept(d) && s.Granting? && Rightful(d.owners, d.log, s)
    ensures Kept(Effect(d, s))
  {
    var e := Effect(d, s);
    var entry := Entry(s.user, s.profile, s.grantee, s.permission);
    forall i | 0 <= i < |e.log| ensures Entitled(e.owners, e.log, i, e.log[i].profile, e.log[i].actor) {
      if i < |d.log| {
        EntitledStays(d.owners, d.log, entry, i, i, d.log[i].profile, d.log[i].actor);
      } else {
        EntitledStays(d.owners, d.log, entry, i, i, s.profile, s.user);
      }
    }
    forall k | k in e.shares ensures Granted(e.log, |e.log|, k.0, k.1, e.shares[k]) {
      if k == (s.profile, s.grantee) {
        assert Gives(e.log, |d.log|, k.0, k.1, e.shares[k]);
      } else {
        GrantedStays(d.log, entry, |d.log|, |e.log|, k.0, k.1, d.shares[k]);
      }
    }
  }

  lemma SaveKeeps(d: Db, s: Stage)
    requires Kept(d) && s.Editing? && Rightful(d.owners, d.log, s)
    ensures Kept(Effect(d, s))
  {}

  lemma EffectKeeps(d: Db, s: Stage)
    requires Kept(d) && Rightful(d.owners, d.log, s)
    ensures Kept(Effect(d, s))
  {
    if s.Granting? {
      GrantKeeps(d, s);
    } else if s.Editing? {
      SaveKeeps(d, s);
    } else {
      QuietKeeps(d, Effect(d, s));
    }
  }

  lemma NextIsRightful(d: Db, s: Stage)
    requires Kept(d) && Rightful(d.owners, d.log, s) && !s.Answered?
    ensures Rightful(d.owners, d.log, Next(d, s))
  {}

  lemma RightfulStays(d: Db, first: Stage, s: Stage)
    requires Rightful(d.owners, d.log, s)
    ensures Rightful(Effect(d, first).owners, Effect(d, first).log, s)
  {
    if first.Granting? {
      var e := Entry(first.user, first.profile, first.grantee, first.permission);
      match s
      case Admitted(u, p, l, a) =>
        if NeedsManage(a) {
          EntitledStays(d.owners, d.log, e, |d.log|, |d.log| + 1, p, u);
        }
      case Editing(u, p, _, _) => EntitledStays(d.owners, d.log, e, |d.log|, |d.log| + 1, p, u);
      case Granting(u, p, _, _) => EntitledStays(d.owners, d.log, e, |d.log|, |d.log| + 1, p, u);
      case Removing(u, p) => EntitledStays(d.owners, d.log, e, |d.log|, |d.log| + 1, p, u);
      case _ =>
    }
  }

  lemma AdvanceKeeps(w: World, r: nat)
    requires Inv(w) && Enabled(w, Advance(r))
    ensures Inv(Step(w, Advance(r)))
  {
    var s := w.requests[r];
    EffectKeeps(w.db, s);
    NextIsRightful(w.db, s);
    RightfulStays(w.db, s, Next(w.db, s));
    forall q | q in w.requests && q != r
      ensures Rightful(Effect(w.db, s).owners, Effect(w.db, s).log, w.requests[q])
    {
      RightfulStays(w.db, s, w.requests[q]);
    }
  }

  lemma CreateKeeps(w: World, u: UserId, p: ProfileId, content: Content)
    requires Inv(w) && Enabled(w, Create(u, p, content))
    ensures Inv(Step(w, Create(u, p, content)))
  {}

  /** Every step of every interleaving keeps the books. */
  lemma StepKeeps(w: World, op: Op)
    requires Inv(w) && Enabled(w, op)
    ensures Inv(Step(w, op))
  {
    match op
    case Join(_, _) =>
    case Create(u, p, c) => CreateKeeps(w, u, p, c);
    case Arrive(r, u, id, a) =>
    case Break(r) =>
    case Advance(r) => AdvanceKeeps(w, r);
  }

  lemma {:induction false} RunKeeps(ws: seq<World>, ops: seq<Op>, k: nat)
    requires IsRun(ws, ops) && k < |ws|
    ensures Inv(ws[k])
  {
    if k > 0 {
      RunKeeps(ws, ops, k - 1);
      assert StepsTo(ws, ops, k - 1);
      StepKeeps(ws[k - 1], ops[k - 1]);
    }
  }

  // ---- Owners

  // Owners are recorded once and for all.
  ghost predicate Follows(d: Db, e: Db) {
    forall p :: p in d.owners ==> p in e.owners && e.owners[p] == d.owners[p]
  }

  lemma StepFollows(w: World, op: Op)
    requires Enabled(w, op)
    ensures Follows(w.db, Step(w, op).db)
  {}

  lemma {:induction false} RunFollows(ws: seq<World>, ops: seq<Op>, j: nat, k: nat)
    requires IsRun(ws, ops) && j <= k < |ws|
    ensures Follows(ws[j].db, ws[k].db)
    decreases k
  {
    if j < k {
      RunFollows(ws, ops, j, k - 1);
      assert StepsTo(ws, ops, k - 1);
      StepFollows(ws[k - 1], ops[k - 1]);
    }
  }

  /** Whatever is granted and revoked in between, the owner keeps the level of owner exactly as long as the
  profile is there. */
  lemma OwnerStaysOwner(ws: seq<World>, ops: seq<Op>, j: nat, k: nat, u: UserId, id: string)
    requires IsRun(ws, ops) && j <= k < |ws| && Access(ws[j].db, u, id) == Some(Owner)
    ensures Access(ws[k].db, u, id) == if Row(id).value in ws[k].db.profiles then Some(Owner) else None
  {
    RunKeeps(ws, ops, j);
    RunKeeps(ws, ops, k);
    RunFollows(ws, ops, j, k);
  }

  // ---- Removed profiles

  // The statement that writes back what an update has loaded.
  predicate Saves(w: World, op: Op, p: ProfileId) {
    && op.Advance? && op.request in w.requests && w.requests[op.request].Editing?
    && w.requests[op.request].profile == p
  }

  // The statement by which request `r` loads the profile for an update.
  predicate Loads(w: World, op: Op, r: nat, p: ProfileId) {
    && op == Advance(r) && r in w.requests && w.requests[r].Admitted? && w.requests[r].profile == p
    && w.requests[r].action.Edit? && p in w.db.profiles
  }

  predicate Deletes(w: World, op: Op, p: ProfileId) {
    && op.Advance? && op.request in w.requests && w.requests[op.request].Removing?
    && w.requests[op.request].profile == p
  }

  lemma PresentAfterStep(w: World, op: Op, p: ProfileId)
    requires Enabled(w, op) && p in w.db.owners
    ensures p in Step(w, op).db.profiles <==> Saves(w, op, p) || (p in w.db.profiles && !Deletes(w, op, p))
  {}

  // Step `i` saves the profile, and nothing deletes it after that up to `k`.
  predicate SavedLast(ws: seq<World>, ops: seq<Op>, i: nat, k: nat, p: ProfileId) {
    i < k <= |ops| <= |ws| && Saves(ws[i], ops[i], p) && forall m :: i < m < k ==> !Deletes(ws[m], ops[m], p)
  }

  ghost predicate SavedSince(ws: seq<World>, ops: seq<Op>, j: nat, k: nat, p: ProfileId) {
    exists i: nat :: j <= i && SavedLast(ws, ops, i, k, p)
  }

  lemma {:induction false} PresentIffSaved(ws: seq<World>, ops: seq<Op>, j: nat, k: nat, p: ProfileId)
    requires IsRun(ws, ops) && j <= k < |ws| && p in ws[j].db.owners && p !in ws[j].db.profiles
    ensures p in ws[k].db.profiles <==> SavedSince(ws, ops, j, k, p)
    decreases k
  {
    if j < k {
      PresentIffSaved(ws, ops, j, k - 1, p);
      RunFollows(ws, ops, j, k - 1);
      assert StepsTo(ws, ops, k - 1);
      PresentAfterStep(ws[k - 1], ops[k - 1], p);
      SavedOneMore(ws, ops, j, k, p);
    }
  }

  lemma SavedOneMore(ws: seq<World>, ops: seq<Op>, j: nat, k: nat, p: ProfileId)
    requires j < k <= |ops| <= |ws|
    ensures SavedSince(ws, ops, j, k, p) <==>
      Saves(ws[k - 1], ops[k - 1], p) || (SavedSince(ws, ops, j, k - 1, p) && !Deletes(ws[k - 1], ops[k - 1], p))
  {
    if Saves(ws[k - 1], ops[k - 1], p) {
      assert SavedLast(ws, ops, k - 1, k, p);
    } else {
      if SavedSince(ws, ops, j, k - 1, p) && !Deletes(ws[k - 1], ops[k - 1], p) {
        var i: nat :| j <= i && SavedLast(ws, ops, i, k - 1, p);
        assert SavedLast(ws, ops, i, k, p);
      }
      if SavedSince(ws, ops, j, k, p) {
        var i: nat :| j <= i && SavedLast(ws, ops, i, k, p);
        assert SavedLast(ws, ops, i, k - 1, p);
      }
    }
  }

  /** Somebody gets at a removed profile again exactly when an update saves it after that and it is not deleted once
  more; what shares are left over or written does not matter. */
  lemma AccessAfterRemoval(ws: seq<World>, ops: seq<Op>, j: nat, k: nat, id: string)
    requires IsRun(ws, ops) && j <= k < |ws|
    requires Row(id).Some? && Row(id).value in ws[j].db.owners && Row(id).value !in ws[j].db.profiles
    ensures (exists u :: Access(ws[k].db, u, id).Some?) <==> SavedSince(ws, ops, j, k, Row(id).value)
  {
    var p := Row(id).value;
    PresentIffSaved(ws, ops, j, k, p);
    if p in ws[k].db.profiles {
      assert Access(ws[k].db, ws[k].db.profiles[p].owner, id) == Some(Owner);
    }
  }

  // Before `j` request `r` loads the profile for an update, and from `j` on, before `k`, it saves it.
  predicate SavesLate(ws: seq<World>, ops: seq<Op>, h: nat, j: nat, i: nat, k: nat, r: nat, p: ProfileId) {
    && h < j <= i < k <= |ops| <= |ws| && Loads(ws[h], ops[h], r, p)
    && ops[i] == Advance(r) && Saves(ws[i], ops[i], p)
  }

  // An update that is about to save has loaded the profile.
  lemma {:induction false} EditsWereLoaded(ws: seq<World>, ops: seq<Op>, i: nat, r: nat, p: ProfileId) returns (h: nat)
    requires IsRun(ws, ops) && i < |ws| && r in ws[i].requests && ws[i].requests[r].Editing? && ws[i].requests[r].profile == p
    ensures h < i && Loads(ws[h], ops[h], r, p)
    decreases i
  {
    if i == 0 {
      assert false;
    } else {
      assert StepsTo(ws, ops, i - 1);
      StepLoads(ws[i - 1], ops[i - 1], r, p);
      if Loads(ws[i - 1], ops[i - 1], r, p) {
        h := i - 1;
      } else {
        h := EditsWereLoaded(ws, ops, i - 1, r, p);
      }
    }
  }

  lemma StepLoads(w: World, op: Op, r: nat, p: ProfileId)
    requires Enabled(w, op) && r in Step(w, op).requests
    requires Step(w, op).requests[r].Editing? && Step(w, op).requests[r].profile == p
    ensures Loads(w, op, r, p) || (r in w.requests && w.requests[r].Editing? && w.requests[r].profile == p)
  {}

  // The first save after the profile was gone: until then it is absent.
  lemma {:induction false} FirstReturn(ws: seq<World>, ops: seq<Op>, j: nat, m: nat, p: ProfileId) returns (i: nat)
    requires IsRun(ws, ops) && j < m < |ws| && p in ws[j].db.owners && p !in ws[j].db.profiles && p in ws[m].db.profiles
    ensures j <= i < m && Saves(ws[i], ops[i], p) && forall n :: j <= n <= i ==> p !in ws[n].db.profiles
    decreases m
  {
    if n: nat :| j <= n < m && p in ws[n].db.profiles {
      i := FirstReturn(ws, ops, j, n, p);
    } else {
      i := m - 1;
      RunFollows(ws, ops, j, i);
      assert StepsTo(ws, ops, i);
      PresentAfterStep(ws[i], ops[i], p);
    }
  }

  /** A removed profile comes back if and only if an update that had loaded it before saves it afterwards. */
  lemma ComesBackIff(ws: seq<World>, ops: seq<Op>, j: nat, k: nat, p: ProfileId)
    requires IsRun(ws, ops) && j <= k < |ws| && p in ws[j].db.owners && p !in ws[j].db.profiles
    ensures (exists m :: j <= m <= k && p in ws[m].db.profiles) <==>
            (exists h: nat, i: nat, r: nat :: SavesLate(ws, ops, h, j, i, k, r, p))
  {
    if m :| j <= m <= k && p in ws[m].db.profiles {
      var i := FirstReturn(ws, ops, j, m, p);
      var r := ops[i].request;
      var h := EditsWereLoaded(ws, ops, i, r, p);
      assert SavesLate(ws, ops, h, j, i, k, r, p);
    }
    if h: nat, i: nat, r: nat :| SavesLate(ws, ops, h, j, i, k, r, p) {
      assert StepsTo(ws, ops, i);
      RunFollows(ws, ops, j, i);
      PresentAfterStep(ws[i], ops[i], p);
      assert j <= i + 1 <= k && p in ws[i + 1].db.profiles;
    }
  }

  // ---- Who changes what

  // Profile `p` and its shares are the same in both worlds.
  ghost predicate SameFor(d: Db, e: Db, p: ProfileId) {
    && (p in d.profiles <==> p in e.profiles)
    && (p in d.profiles ==> d.profiles[p] == e.profiles[p])
    && (forall u :: (p, u) in d.shares <==> (p, u) in e.shares)
    && (forall u :: (p, u) in d.shares ==> d.shares[(p, u)] == e.shares[(p, u)])
  }

  // The handler of this request may still change profile `p`.
  predicate MayChange(s: Stage, p: ProfileId) {
    match s
    case Admitted(_, q, _, a) => q == p && NeedsManage(a)
    case Editing(_, q, _, _) => q == p
    case Granting(_, q, _, _) => q == p
    case Removing(_, q) => q == p
    case _ => false
  }

  lemma OnlyHandlersChange(w: World, op: Op, p: ProfileId)
    requires Enabled(w, op) && !SameFor(w.db, Step(w, op).db, p)
    ensures (op.Create? && op.profile == p) || (op.Advance? && MayChange(w.requests[op.request], p))
  {
    if op.Advance? && !MayChange(w.requests[op.request], p) {
      SameUnlessMayChange(w.db, w.requests[op.request], p);
    }
  }

  lemma SameUnlessMayChange(d: Db, s: Stage, p: ProfileId)
    requires !MayChange(s, p)
    ensures SameFor(d, Effect(d, s), p)
  {}

  /** The guard lets request `r` through to change profile `p`: its user owns the profile or holds a share
  that lets the user manage it. */
  predicate Clears(w: World, r: nat, p: ProfileId) {
    && r in w.requests && w.requests[r].Arrived? && Row(w.requests[r].id) == Some(p)
    && NeedsManage(w.requests[r].action) && MayManage(Access(w.db, w.requests[r].user, w.requests[r].id))
  }

  predicate Cleared(ws: seq<World>, ops: seq<Op>, i: nat, r: nat, p: ProfileId) {
    i < |ops| && i < |ws| && ops[i] == Advance(r) && Clears(ws[i], r, p)
  }

  // A request comes to where it may change a profile through the guard, or was there already.
  lemma StepClears(w: World, op: Op, r: nat, p: ProfileId)
    requires Enabled(w, op) && r in Step(w, op).requests && MayChange(Step(w, op).requests[r], p)
    ensures r in w.requests
    ensures MayChange(w.requests[r], p) || (op == Advance(r) && Clears(w, r, p))
  {}

  lemma {:induction false} ChangersAreCleared(ws: seq<World>, ops: seq<Op>, k: nat, r: nat, p: ProfileId) returns (i: nat)
    requires IsRun(ws, ops) && k < |ws| && r in ws[k].requests && MayChange(ws[k].requests[r], p)
    ensures i < k && Cleared(ws, ops, i, r, p)
    decreases k
  {
    if k == 0 {
      assert false;
    } else {
      assert StepsTo(ws, ops, k - 1);
      StepClears(ws[k - 1], ops[k - 1], r, p);
      if MayChange(ws[k - 1].requests[r], p) {
        i := ChangersAreCleared(ws, ops, k - 1, r, p);
      } else {
        i := k - 1;
      }
    }
  }

  /** A profile and its shares change only in the step that creates it and in steps of a request that the guard
  has let through as the owner's or a manager's. */
  lemma ChangeIsCleared(ws: seq<World>, ops: seq<Op>, k: nat, p: ProfileId) returns (i: nat)
    requires IsRun(ws, ops) && k < |ops| && !SameFor(ws[k].db, ws[k + 1].db, p)
    ensures (ops[k].Create? && ops[k].profile == p) ||
            (ops[k].Advance? && i < k && Cleared(ws, ops, i, ops[k].request, p))
  {
    assert StepsTo(ws, ops, k);
    OnlyHandlersChange(ws[k], ops[k], p);
    i := 0;
    if ops[k].Advance? {
      i := ChangersAreCleared(ws, ops, k, ops[k].request, p);
    }
  }

  lemma PastTheGuard(w: World, op: Op, r: nat)
    requires Enabled(w, op) && r in w.requests && (!w.requests[r].Arrived? || op == Advance(r))
    ensures r in Step(w, op).requests && !Step(w, op).requests[r].Arrived?
  {}

  lemma {:induction false} GuardedOnce(ws: seq<World>, ops: seq<Op>, i: nat, k: nat, r: nat)
    requires IsRun(ws, ops) && i < k < |ws| && ops[i] == Advance(r)
    ensures r in ws[k].requests && !ws[k].requests[r].Arrived?
    decreases k
  {
    assert StepsTo(ws, ops, k - 1);
    if i < k - 1 {
      GuardedOnce(ws, ops, i, k - 1, r);
    }
    PastTheGuard(ws[k - 1], ops[k - 1], r);
  }

  /** A request whose user may at most view the profile when the guard looks changes no profile and no share,
  at that step or later. */
  lemma ViewersChangeNothing(ws: seq<World>, ops: seq<Op>, i: nat, k: nat, r: nat, p: ProfileId)
    requires IsRun(ws, ops) && i < |ops| && k < |ops| && ops[i] == Advance(r) && ops[k] == Advance(r)
    requires r in ws[i].requests && ws[i].requests[r].Arrived?
    requires !MayManage(Access(ws[i].db, ws[i].requests[r].user, ws[i].requests[r].id))
    ensures SameFor(ws[k].db, ws[k + 1].db, p)
  {
    if !SameFor(ws[k].db, ws[k + 1].db, p) {
      var j := ChangeIsCleared(ws, ops, k, p);
      if i < j {
        GuardedOnce(ws, ops, i, j, r);
      } else if j < i {
        GuardedOnce(ws, ops, j, i, r);
      }
    }
  }

  // ---- What is answered

  /** The guard answers not found exactly without a level of access, forbidden exactly to a viewer who wants to change
  something, and lets everyone else through, under the level they have. */
  lemma GuardAnswers(w: World, r: nat)
    requires Enabled(w, Advance(r)) && w.requests[r].Arrived?
    ensures var s := w.requests[r]; var level := Access(w.db, s.user, s.id); var t := Step(w, Advance(r)).requests[r];
      && (t == Answered(NotFound) <==> level == None)
      && (t == Answered(Forbidden) <==> level == Some(Shared(CanView)) && !s.action.Read?)
      && (t.Admitted? <==> level.Some? && (s.action.Read? || level.value == Owner || level.value == Shared(CanManage)))
      && (t.Admitted? ==> Row(s.id).Some? && level.Some? && t == Admitted(s.user, Row(s.id).value, level.value, s.action))
      && Step(w, Advance(r)).db == w.db
  {
    if Access(w.db, w.requests[r].user, w.requests[r].id).Some? {
      match Access(w.db, w.requests[r].user, w.requests[r].id).value
      case Owner =>
      case Shared(permission) =>
        match permission
        case CanView =>
        case CanManage =>
    }
  }

  // The last statement of what the request wants.
  predicate LastStatement(d: Db, s: Stage) {
    match s
    case Admitted(_, p, _, a) => a.Revoke? || (a.Read? && p in d.profiles)
    case Editing(_, _, _, _) => true
    case Granting(_, _, _, _) => true
    case Removing(_, _) => true
    case _ => false
  }

  /** A request is answered as done by the last statement of its handler and by nothing else. */
  lemma FineMeansDone(w: World, op: Op, r: nat)
    requires Enabled(w, op) && r in Step(w, op).requests && Step(w, op).requests[r] == Answered(Fine)
    ensures r in w.requests
    ensures w.requests[r] == Answered(Fine) || (op == Advance(r) && LastStatement(w.db, w.requests[r]))
  {}

  // ---- Where a share comes from

  /** The grants `c`, each made before the one in front of it: the first gave user `u` the permission, each next
  one let the actor of the one in front manage the profile, and the last was made by the owner. */
  ghost predicate IsChain(owners: Owners, log: seq<Entry>, c: seq<nat>, p: ProfileId, u: UserId, permission: Permission) {
    && c != [] && Gives(log, c[0], p, u, permission) && p in owners
    && if |c| == 1 then log[c[0]].actor == owners[p]
       else c[1] < c[0] && IsChain(owners, log, c[1..], p, log[c[0]].actor, CanManage)
  }

  lemma {:induction false} ChainBack(owners: Owners, log: seq<Entry>, i: nat, p: ProfileId, u: UserId, permission: Permission)
    returns (c: seq<nat>)
    requires forall n :: 0 <= n < |log| ==> Entitled(owners, log, n, log[n].profile, log[n].actor)
    requires Gives(log, i, p, u, permission)
    ensures IsChain(owners, log, c, p, u, permission) && c[0] == i
    decreases i
  {
    var a := log[i].actor;
    assert Entitled(owners, log, i, p, a);
    if owners[p] == a {
      c := [i];
    } else {
      var j: nat :| j < i && Gives(log, j, p, a, CanManage);
      var d := ChainBack(owners, log, j, p, a, CanManage);
      c := [i] + d;
      assert c[1..] == d;
    }
  }

  /** Every level but the owner's traces back, through a finite chain of grants that were each made by someone
  who could manage the profile, to a grant by the profile's owner. */
  lemma LevelTracesToOwner(ws: seq<World>, ops: seq<Op>, k: nat, u: UserId, id: string) returns (c: seq<nat>)
    requires IsRun(ws, ops) && k < |ws| && Access(ws[k].db, u, id).Some? && Access(ws[k].db, u, id).value.Shared?
    ensures Row(id).Some? && Row(id).value in ws[k].db.profiles
    ensures IsChain(ws[k].db.owners, ws[k].db.log, c, Row(id).value, u, Access(ws[k].db, u, id).value.permission)
    ensures ws[k].db.owners[Row(id).value] == ws[k].db.profiles[Row(id).value].owner
  {
    var d, p := ws[k].db, Row(id).value;
    RunKeeps(ws, ops, k);
    assert p in d.profiles && (p, u) in d.shares;
    assert Granted(d.log, |d.log|, p, u, d.shares[(p, u)]);
    var i: nat :| i < |d.log| && Gives(d.log, i, p, u, d.shares[(p, u)]);
    c := ChainBack(d.owners, d.log, i, p, u, d.shares[(p, u)]);
  }

  // ---- The list and the guard agree

  /** The list of a user's profiles holds exactly those that the guard lets the user see, shares of removed
  profiles included in the tables or not. */
  lemma ListIsAccess(ws: seq<World>, ops: seq<Op>, k: nat, u: UserId, owned: seq<ProfileId>, shared: seq<ProfileId>, p: ProfileId)
    requires IsRun(ws, ops) && k < |ws|
    requires IsRows(owned, OwnedBy(ws[k].db, u)) && IsRows(shared, SharedWith(ws[k].db, u))
    ensures p in Listed(ws[k].db, owned, shared) <==> Row(p) == Some(p) && Access(ws[k].db, u, p).Some?
  {
    var d := ws[k].db;
    RunKeeps(ws, ops, k);
    SharedWithIsShares(d, u, p);
    assert p in owned + shared <==> p in owned || p in shared;
    assert p in owned <==> p in OwnedBy(d, u);
    assert p in shared <==> p in SharedWith(d, u);
  }

  // ---- A share may outlive its profile

  function Last(ws: seq<World>): World
    requires ws != []
  {
    ws[|ws| - 1]
  }

  lemma GoOn(ws: seq<World>, ops: seq<Op>, op: Op) returns (vs: seq<World>, os: seq<Op>)
    requires IsRun(ws, ops) && Enabled(Last(ws), op)
    ensures IsRun(vs, os) && Last(vs) == Step(Last(ws), op) && ws < vs
  {
    vs, os := ws + [Step(Last(ws), op)], ops + [op];
    forall i | 0 <= i < |os| ensures StepsTo(vs, os, i) {
      assert i < |ops| ==> StepsTo(ws, ops, i);
    }
  }

  // The owner's grant has found the account; nothing else has happened.
  lemma GrantUnderWay(p: ProfileId, d: Db) returns (ws: seq<World>, ops: seq<Op>)
    requires Row(p) == Some(p) && d == Db(map["bob" := 1], map[p := Profile(0, map[])], map[], map[p := 0], [])
    ensures IsRun(ws, ops) && Last(ws) == World(d, map[0 := Granting(0, p, 1, CanView)])
  {
    ws, ops := [World(Db(map["bob" := 1], map[], map[], map[], []), map[])], [];
    ws, ops := GoOn(ws, ops, Create(0, p, map[]));
    ws, ops := GoOn(ws, ops, Arrive(0, 0, p, Grant("bob", CanView)));
    ws, ops := GoOn(ws, ops, Advance(0));
    assert Last(ws).requests[0] == Admitted(0, p, Owner, Grant("bob", CanView));
    ws, ops := GoOn(ws, ops, Advance(0));
    assert Last(ws).requests == map[0 := Granting(0, p, 1, CanView)];
  }

  /** A share can be left over: a grant that the guard has let through writes its share after the profile was
  removed.  Nobody gains access by it. */
  lemma StaleShare(p: ProfileId) returns (ws: seq<World>, ops: seq<Op>)
    requires Row(p) == Some(p)
    ensures IsRun(ws, ops) && p !in Last(ws).db.profiles && (p, 1) in Last(ws).db.shares
    ensures Access(Last(ws).db, 1, p) == None
  {
    ws, ops := GrantUnderWay(p, Db(map["bob" := 1], map[p := Profile(0, map[])], map[], map[p := 0], []));
    ws, ops := GoOn(ws, ops, Arrive(1, 0, p, Remove));
    ws, ops := GoOn(ws, ops, Advance(1));
    assert Last(ws).requests[1] == Admitted(0, p, Owner, Remove);
    ws, ops := GoOn(ws, ops, Advance(1));
    assert Last(ws).requests[1] == Removing(0, p);
    ws, ops := GoOn(ws, ops, Advance(1));
    assert Last(ws).requests[0] == Granting(0, p, 1, CanView);
    ws, ops := GoOn(ws, ops, Advance(0));
  }

  /** A removed profile can come back, with the shares left over: an update loads it, it is removed while a grant is
  under way, the grant writes its share, and the update saves. */
  lemma ProfileComesBack(p: ProfileId) returns (ws: seq<World>, ops: seq<Op>, j: nat)
    requires Row(p) == Some(p)
    ensures IsRun(ws, ops) && j < |ws| && p in ws[j].db.owners && p !in ws[j].db.profiles
    ensures Access(Last(ws).db, 0, p) == Some(Owner) && Access(Last(ws).db, 1, p) == Some(Shared(CanView))
  {
    var d := Db(map["bob" := 1], map[p := Profile(0, map[])], map[], map[p := 0], []);
    ws, ops := GrantUnderWay(p, d);
    ws, ops := UpdateUnderWay(ws, ops, p, d);
    ws, ops := GoOn(ws, ops, Arrive(1, 0, p, Remove));
    ws, ops := GoOn(ws, ops, Advance(1));
    assert Last(ws).requests[1] == Admitted(0, p, Owner, Remove);
    ws, ops := GoOn(ws, ops, Advance(1));
    assert Last(ws).requests[1] == Removing(0, p);
    ws, ops := GoOn(ws, ops, Advance(1));
    assert Last(ws).db == d.(profiles := map[]);
    assert Last(ws).requests[0] == Granting(0, p, 1, CanView);
    assert Last(ws).requests[2] == Editing(0, p, Profile(0, map[]), map[]);
    ws, ops, j := SavesAfterRemoval(ws, ops, p, d);
  }

  // The owner's update has loaded the row.
  lemma UpdateUnderWay(vs: seq<World>, os: seq<Op>, p: ProfileId, d: Db) returns (ws: seq<World>, ops: seq<Op>)
    requires IsRun(vs, os) && Row(p) == Some(p) && p in d.profiles && d.profiles[p].owner == 0
    requires Last(vs) == World(d, map[0 := Granting(0, p, 1, CanView)])
    ensures IsRun(ws, ops)
    ensures Last(ws) == World(d, map[0 := Granting(0, p, 1, CanView), 2 := Editing(0, p, d.profiles[p], map[])])
  {
    ws, ops := GoOn(vs, os, Arrive(2, 0, p, Edit(map[])));
    ws, ops := GoOn(ws, ops, Advance(2));
    assert Last(ws).requests[2] == Admitted(0, p, Owner, Edit(map[]));
    ws, ops := GoOn(ws, ops, Advance(2));
    assert Last(ws).requests[2] == Editing(0, p, d.profiles[p], map[]);
  }

  lemma SavesAfterRemoval(vs: seq<World>, os: seq<Op>, p: ProfileId, d: Db) returns (ws: seq<World>, ops: seq<Op>, j: nat)
    requires IsRun(vs, os) && Row(p) == Some(p) && p in d.owners && Last(vs).db == d.(profiles := map[])
    requires 0 in Last(vs).requests && Last(vs).requests[0] == Granting(0, p, 1, CanView)
    requires 2 in Last(vs).requests && Last(vs).requests[2] == Editing(0, p, Profile(0, map[]), map[])
    ensures IsRun(ws, ops) && j < |ws| && p in ws[j].db.owners && p !in ws[j].db.profiles
    ensures Access(Last(ws).db, 0, p) == Some(Owner) && Access(Last(ws).db, 1, p) == Some(Shared(CanView))
  {
    j := |vs| - 1;
    ws, ops := GoOn(vs, os, Advance(0));
    assert ws[j] == vs[j];
    var us, ns := GoOn(ws, ops, Advance(2));
    assert us[j] == ws[j];
    ws, ops := us, ns;
  }
}
