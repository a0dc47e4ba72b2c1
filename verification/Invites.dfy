/** Redeeming invites.  Any number of redemptions run at the same time and only single database statements are
atomic, so a redemption advances from one statement to the next; the worlds between the steps of all of them
make a run. */
module Invites {
  import opened Options

  datatype Invite = Invite(email: string, tokenHash: string, redeemed: bool)

  // An account, and the redemption that made it, if one did.
  datatype Account = Account(email: string, maker: Option<nat>)

  datatype Outcome = Success | Conflict | BadInvite | Failed

  // What a lookup found: an invite and its email.
  datatype Sighting = Sighting(invite: nat, email: string)

  /** How far the redemption of a token has come: the token is to be looked up; an open invite was found; no account
  was found for its email; the password is hashed; the invite is claimed; or it has ended, having found an invite
  or not, and claimed it or not. */
  datatype Stage =
    | Started(tokenHash: string)
    | Found(tokenHash: string, saw: Sighting)
    | Checked(tokenHash: string, saw: Sighting)
    | Hashed(tokenHash: string, saw: Sighting)
    | Claimed(tokenHash: string, saw: Sighting)
    | Done(tokenHash: string, outcome: Outcome, sight: Option<Sighting>, claimed: bool)

  type Invites = map<nat, Invite>
  type Accounts = map<nat, Account>
  type Redeems = map<nat, Stage>

  datatype World = World(invites: Invites, accounts: Accounts, redeems: Redeems)

  /** `pick` is the invite that a lookup returns, or the id of the account that an insert makes. */
  datatype Op =
    | CreateInvite(id: nat, email: string, tokenHash: string)
    | Register(user: nat, email: string)
    | Start(redeem: nat, tokenHash: string)
    | Advance(redeem: nat, pick: nat)
    | Break(redeem: nat)

  predicate IsOpen(invites: Invites, i: nat, tokenHash: string) {
    i in invites && invites[i].tokenHash == tokenHash && !invites[i].redeemed
  }

  predicate SomeOpen(invites: Invites, tokenHash: string) {
    exists i :: i in invites && IsOpen(invites, i, tokenHash)
  }

  predicate Owns(accounts: Accounts, u: nat, email: string) {
    u in accounts && accounts[u].email == email
  }

  predicate HasAccount(accounts: Accounts, email: string) {
    exists u :: u in accounts && Owns(accounts, u, email)
  }

  /** What the database and the server can do next: ids are fresh, the email column is unique, a lookup
  returns a matching row when there is one, and a statement can fail at any moment. */
  predicate Enabled(w: World, op: Op) {
    match op
    case CreateInvite(id, _, _) => id !in w.invites
    case Register(user, email) => user !in w.accounts && !HasAccount(w.accounts, email)
    case Start(r, _) => r !in w.redeems
    case Advance(r, pick) =>
      && r in w.redeems
      && !w.redeems[r].Done?
      && (w.redeems[r].Started? && SomeOpen(w.invites, w.redeems[r].tokenHash) ==>
            IsOpen(w.invites, pick, w.redeems[r].tokenHash))
      && (w.redeems[r].Claimed? ==> pick !in w.accounts)
    case Break(r) => r in w.redeems && !w.redeems[r].Done?
  }

  function Sight(s: Stage): Option<Sighting> {
    match s
    case Started(_) => None
    case Done(_, _, sight, _) => sight
    case _ => Some(s.saw)
  }

  // The invite that a redemption has claimed.
  function Claim(s: Stage): Option<nat> {
    match s
    case Claimed(_, saw) => Some(saw.invite)
    case Done(_, _, sight, claimed) => if claimed && sight.Some? then Some(sight.value.invite) else None
    case _ => None
  }

  function WithRedeem(w: World, r: nat, s: Stage): World {
    w.(redeems := w.redeems[r := s])
  }

  /** The statements of `redeem`, one at a time. */
  function AdvanceFrom(w: World, r: nat, pick: nat): World
    requires Enabled(w, Advance(r, pick))
  {
    match w.redeems[r]
    case Started(h) =>
      WithRedeem(w, r, if SomeOpen(w.invites, h) then Found(h, Sighting(pick, w.invites[pick].email))
                       else Done(h, BadInvite, None, false))
    case Found(h, saw) =>
      WithRedeem(w, r, if HasAccount(w.accounts, saw.email) then Done(h, Conflict, Some(saw), false) else Checked(h, saw))
    case Checked(h, saw) => WithRedeem(w, r, Hashed(h, saw))
    case Hashed(h, saw) =>
      if saw.invite in w.invites && !w.invites[saw.invite].redeemed then
        WithRedeem(w.(invites := Marked(w.invites, saw.invite)), r, Claimed(h, saw))
      else WithRedeem(w, r, Done(h, BadInvite, Some(saw), false))
    case Claimed(h, saw) =>
      if HasAccount(w.accounts, saw.email) then WithRedeem(w, r, Done(h, Conflict, Some(saw), true))
      else WithRedeem(w.(accounts := w.accounts[pick := Account(saw.email, Some(r))]), r, Done(h, Success, Some(saw), true))
  }

  function Marked(invites: Invites, i: nat): Invites
    requires i in invites
  {
    invites[i := invites[i].(redeemed := true)]
  }

  // A statement failed: what was claimed stays claimed.
  function Broken(s: Stage): Stage {
    Done(s.tokenHash, Failed, Sight(s), Claim(s).Some?)
  }

  function Step(w: World, op: Op): World
    requires Enabled(w, op)
  {
    match op
    case CreateInvite(id, email, h) => w.(invites := w.invites[id := Invite(email, h, false)])
    case Register(user, email) => w.(accounts := w.accounts[user := Account(email, None)])
    case Start(r, h) => WithRedeem(w, r, Started(h))
    case Advance(r, pick) => AdvanceFrom(w, r, pick)
    case Break(r) => WithRedeem(w, r, Broken(w.redeems[r]))
  }

  // ---- Runs

  // No invite and no redemption yet; every account was made elsewhere, one for each email.
  ghost predicate Initial(w: World) {
    && w.invites == map[] && w.redeems == map[]
    && OneAccountPerEmail(w.accounts)
    && (forall u :: u in w.accounts ==> w.accounts[u].maker.None?)
  }

  ghost predicate StepsTo(ws: seq<World>, ops: seq<Op>, i: nat)
    requires i < |ops| && i + 1 < |ws|
  {
    Enabled(ws[i], ops[i]) && ws[i + 1] == Step(ws[i], ops[i])
  }

  ghost predicate IsRun(ws: seq<World>, ops: seq<Op>) {
    |ws| == |ops| + 1 && Initial(ws[0]) && forall i :: 0 <= i < |ops| ==> StepsTo(ws, ops, i)
  }

  // ---- The invariant

  ghost predicate OneAccountPerEmail(accounts: Accounts) {
    forall u, v ::
      u in accounts && v in accounts && accounts[u].email == accounts[v].email ==> u == v
  }

  predicate Settled(s: Stage) {
    s.Done? && (s.outcome == Success || s.outcome == Conflict)
  }

  // What was seen is an invite that the presented token names.
  predicate SawRightly(invites: Invites, tokenHash: string, saw: Sighting) {
    && saw.invite in invites && invites[saw.invite].email == saw.email
    && invites[saw.invite].tokenHash == tokenHash
  }

  ghost predicate Rightly(invites: Invites, accounts: Accounts, s: Stage) {
    && (Sight(s).Some? ==> SawRightly(invites, s.tokenHash, Sight(s).value))
    && (Claim(s).Some? ==> Claim(s).value in invites && invites[Claim(s).value].redeemed)
    && (s.Done? && s.outcome == Success ==> s.claimed)
    && (s.Done? && s.claimed ==> s.sight.Some?)
    && (Settled(s) ==> s.sight.Some? && HasAccount(accounts, s.sight.value.email))
    && (s.Done? && s.outcome == BadInvite ==> !s.claimed)
  }

  predicate ClaimedBy(redeems: Redeems, r: nat, i: nat) {
    r in redeems && Claim(redeems[r]) == Some(i)
  }

  ghost predicate HeldOnce(redeems: Redeems) {
    forall i, q, r :: ClaimedBy(redeems, q, i) && ClaimedBy(redeems, r, i) ==> q == r
  }

  ghost predicate Held(redeems: Redeems, i: nat) {
    exists r :: ClaimedBy(redeems, r, i)
  }

  predicate Succeeded(redeems: Redeems, r: nat) {
    r in redeems && redeems[r].Done? && redeems[r].outcome == Success
  }

  // An account made by a redemption belongs to one that succeeded, and carries its email.
  ghost predicate MadeRightly(redeems: Redeems, a: Account) {
    a.maker.Some? ==>
      && Succeeded(redeems, a.maker.value) && redeems[a.maker.value].sight.Some?
      && redeems[a.maker.value].sight.value.email == a.email
  }

  function Successes(redeems: Redeems): set<nat> {
    set r | r in redeems && Succeeded(redeems, r)
  }

  function Made(accounts: Accounts): set<nat> {
    set u | u in accounts && accounts[u].maker.Some?
  }

  function ClaimedInvites(invites: Invites): set<nat> {
    set i | i in invites && invites[i].redeemed
  }

  function Holders(redeems: Redeems): set<nat> {
    set r | r in redeems && Claim(redeems[r]).Some?
  }

  ghost predicate Counts(w: World) {
    && |Made(w.accounts)| == |Successes(w.redeems)|
    && |ClaimedInvites(w.invites)| == |Holders(w.redeems)|
  }

  predicate MadeBy(accounts: Accounts, u: nat, r: nat) {
    u in accounts && accounts[u].maker == Some(r)
  }

  ghost predicate HasMade(accounts: Accounts, r: nat) {
    exists u :: MadeBy(accounts, u, r)
  }

  ghost predicate Consistent(w: World) {
    && OneAccountPerEmail(w.accounts) && HeldOnce(w.redeems)
    && (forall r :: Succeeded(w.redeems, r) ==> HasMade(w.accounts, r))
    && (forall r :: r in w.redeems ==> Rightly(w.invites, w.accounts, w.redeems[r]))
    && (forall u :: u in w.accounts ==> MadeRightly(w.redeems, w.accounts[u]))
    && (forall i :: i in w.invites && w.invites[i].redeemed ==> Held(w.redeems, i))
  }

  // ---- Every step keeps it

  lemma SameClaims(redeems: Redeems, r: nat, s: Stage)
    requires r in redeems ==> Claim(redeems[r]) == Claim(s)
    requires r !in redeems ==> Claim(s).None?
    ensures HeldOnce(redeems) ==> HeldOnce(redeems[r := s])
    ensures forall i :: Held(redeems, i) ==> Held(redeems[r := s], i)
  {
    var after := redeems[r := s];
    if HeldOnce(redeems) {
      forall i, p, q | ClaimedBy(after, p, i) && ClaimedBy(after, q, i) ensures p == q {
        assert ClaimedBy(redeems, p, i) && ClaimedBy(redeems, q, i);
      }
    }
    forall i | Held(redeems, i) ensures Held(after, i) {
      var q :| ClaimedBy(redeems, q, i);
      assert ClaimedBy(after, q, i);
    }
  }

  // Most statements only move one redemption on: it claims nothing new and makes no account.
  lemma MoveKeeps(w: World, r: nat, s: Stage)
    requires Consistent(w) && Rightly(w.invites, w.accounts, s)
    requires r in w.redeems ==> !w.redeems[r].Done? && Claim(w.redeems[r]) == Claim(s)
    requires r !in w.redeems ==> Claim(s).None?
    requires !(s.Done? && s.outcome == Success)
    ensures Consistent(WithRedeem(w, r, s))
  {
    SameClaims(w.redeems, r, s);
    assert forall q :: Succeeded(w.redeems[r := s], q) <==> Succeeded(w.redeems, q);
  }

  lemma NewInviteKeeps(w: World, id: nat, invite: Invite)
    requires Consistent(w) && id !in w.invites && !invite.redeemed
    ensures Consistent(w.(invites := w.invites[id := invite]))
  {}

  lemma HasAccountStays(accounts: Accounts, u: nat, a: Account, email: string)
    requires u !in accounts
    ensures HasAccount(accounts[u := a], email) <==> HasAccount(accounts, email) || email == a.email
  {
    if HasAccount(accounts, email) {
      var v :| v in accounts && Owns(accounts, v, email);
      assert Owns(accounts[u := a], v, email);
    }
    assert Owns(accounts[u := a], u, a.email);
    if HasAccount(accounts[u := a], email) {
      var v :| v in accounts[u := a] && Owns(accounts[u := a], v, email);
      assert v == u || Owns(accounts, v, email);
    }
  }

  lemma NewAccountKeepsOne(accounts: Accounts, u: nat, a: Account)
    requires OneAccountPerEmail(accounts) && u !in accounts && !HasAccount(accounts, a.email)
    ensures OneAccountPerEmail(accounts[u := a])
  {}

  lemma MakersStay(accounts: Accounts, u: nat, a: Account, r: nat)
    requires u !in accounts && HasMade(accounts, r)
    ensures HasMade(accounts[u := a], r)
  {
    var v :| MadeBy(accounts, v, r);
    assert MadeBy(accounts[u := a], v, r);
  }

  lemma RegisterKeeps(w: World, u: nat, email: string)
    requires Consistent(w) && u !in w.accounts && !HasAccount(w.accounts, email)
    ensures Consistent(w.(accounts := w.accounts[u := Account(email, None)]))
  {
    NewAccountKeepsOne(w.accounts, u, Account(email, None));
    forall r | r in w.redeems ensures Rightly(w.invites, w.accounts[u := Account(email, None)], w.redeems[r]) {
      if Settled(w.redeems[r]) {
        HasAccountStays(w.accounts, u, Account(email, None), w.redeems[r].sight.value.email);
      }
    }
    forall r | Succeeded(w.redeems, r) ensures HasMade(w.accounts[u := Account(email, None)], r) {
      MakersStay(w.accounts, u, Account(email, None), r);
    }
  }

  lemma ClaimKeeps(w: World, r: nat, h: string, saw: Sighting)
    requires Consistent(w) && r in w.redeems && w.redeems[r] == Hashed(h, saw)
    requires saw.invite in w.invites && !w.invites[saw.invite].redeemed
    ensures Consistent(WithRedeem(w.(invites := Marked(w.invites, saw.invite)), r, Claimed(h, saw)))
  {
    var i := saw.invite;
    var v := WithRedeem(w.(invites := Marked(w.invites, i)), r, Claimed(h, saw));
    assert forall q :: Succeeded(v.redeems, q) <==> Succeeded(w.redeems, q);
    assert Rightly(w.invites, w.accounts, w.redeems[r]);
    forall q, j ensures ClaimedBy(v.redeems, q, j) <==> ClaimedBy(w.redeems, q, j) || (q == r && j == i) {}
    forall q | q in w.redeems ensures !ClaimedBy(w.redeems, q, i) {
      assert Rightly(w.invites, w.accounts, w.redeems[q]);
    }
    forall j | j in v.invites && v.invites[j].redeemed ensures Held(v.redeems, j) {
      if j == i {
        assert ClaimedBy(v.redeems, r, i);
      } else {
        var q :| ClaimedBy(w.redeems, q, j);
        assert ClaimedBy(v.redeems, q, j);
      }
    }
  }

  lemma InsertKeeps(w: World, r: nat, u: nat, h: string, saw: Sighting)
    requires Consistent(w) && r in w.redeems && w.redeems[r] == Claimed(h, saw)
    requires u !in w.accounts && !HasAccount(w.accounts, saw.email)
    ensures Consistent(WithRedeem(w.(accounts := w.accounts[u := Account(saw.email, Some(r))]), r, Done(h, Success, Some(saw), true)))
  {
    var a := Account(saw.email, Some(r));
    var v := WithRedeem(w.(accounts := w.accounts[u := a]), r, Done(h, Success, Some(saw), true));
    NewAccountKeepsOne(w.accounts, u, a);
    assert Rightly(w.invites, w.accounts, w.redeems[r]);
    SameClaims(w.redeems, r, v.redeems[r]);
    forall q | q in v.redeems ensures Rightly(v.invites, v.accounts, v.redeems[q]) {
      if Settled(v.redeems[q]) {
        assert q != r ==> Rightly(w.invites, w.accounts, w.redeems[q]);
        HasAccountStays(w.accounts, u, a, v.redeems[q].sight.value.email);
      }
    }
    forall q | Succeeded(v.redeems, q) ensures HasMade(v.accounts, q) {
      if q == r {
        assert MadeBy(v.accounts, u, r);
      } else {
        assert Succeeded(w.redeems, q);
        MakersStay(w.accounts, u, a, q);
      }
    }
  }

  lemma AdvanceKeepsConsistent(w: World, r: nat, pick: nat)
    requires Consistent(w) && Enabled(w, Advance(r, pick))
    ensures Consistent(AdvanceFrom(w, r, pick))
  {
    assert Rightly(w.invites, w.accounts, w.redeems[r]);
    match w.redeems[r]
    case Started(h) => MoveKeeps(w, r, AdvanceFrom(w, r, pick).redeems[r]);
    case Found(h, saw) => MoveKeeps(w, r, AdvanceFrom(w, r, pick).redeems[r]);
    case Checked(h, saw) => MoveKeeps(w, r, Hashed(h, saw));
    case Hashed(h, saw) =>
      if saw.invite in w.invites && !w.invites[saw.invite].redeemed {
        ClaimKeeps(w, r, h, saw);
      } else {
        MoveKeeps(w, r, Done(h, BadInvite, Some(saw), false));
      }
    case Claimed(h, saw) =>
      if HasAccount(w.accounts, saw.email) {
        MoveKeeps(w, r, Done(h, Conflict, Some(saw), true));
      } else {
        InsertKeeps(w, r, pick, h, saw);
      }
  }

  /** Every step of every interleaving keeps the books consistent. */
  lemma StepKeepsConsistent(w: World, op: Op)
    requires Consistent(w) && Enabled(w, op)
    ensures Consistent(Step(w, op))
  {
    match op
    case CreateInvite(id, email, h) => NewInviteKeeps(w, id, Invite(email, h, false));
    case Register(user, email) => RegisterKeeps(w, user, email);
    case Start(r, h) => MoveKeeps(w, r, Started(h));
    case Break(r) =>
      assert Rightly(w.invites, w.accounts, w.redeems[r]);
      MoveKeeps(w, r, Broken(w.redeems[r]));
    case Advance(r, pick) => AdvanceKeepsConsistent(w, r, pick);
  }

  lemma SuccessesGrow(redeems: Redeems, r: nat, s: Stage)
    requires r in redeems ==> !Succeeded(redeems, r)
    ensures |Successes(redeems[r := s])| == |Successes(redeems)| + if s.Done? && s.outcome == Success then 1 else 0
  {
    if s.Done? && s.outcome == Success {
      assert Successes(redeems[r := s]) == Successes(redeems) + {r};
    } else {
      assert Successes(redeems[r := s]) == Successes(redeems);
    }
  }

  lemma HoldersGrow(redeems: Redeems, r: nat, s: Stage)
    requires r in redeems && Claim(redeems[r]).Some? ==> Claim(s).Some?
    ensures |Holders(redeems[r := s])| ==
            |Holders(redeems)| + if Claim(s).Some? && r !in Holders(redeems) then 1 else 0
  {
    if Claim(s).Some? {
      assert Holders(redeems[r := s]) == Holders(redeems) + {r};
    } else {
      assert Holders(redeems[r := s]) == Holders(redeems);
    }
  }

  lemma MadeGrows(accounts: Accounts, u: nat, a: Account)
    requires u !in accounts
    ensures |Made(accounts[u := a])| == |Made(accounts)| + if a.maker.Some? then 1 else 0
  {
    if a.maker.Some? {
      assert Made(accounts[u := a]) == Made(accounts) + {u};
    } else {
      assert Made(accounts[u := a]) == Made(accounts);
    }
  }

  lemma ClaimedGrow(invites: Invites, i: nat, v: Invite)
    requires i in invites && invites[i].redeemed ==> v.redeemed
    ensures |ClaimedInvites(invites[i := v])| ==
            |ClaimedInvites(invites)| + if v.redeemed && i !in ClaimedInvites(invites) then 1 else 0
  {
    if v.redeemed {
      assert ClaimedInvites(invites[i := v]) == ClaimedInvites(invites) + {i};
    } else {
      assert ClaimedInvites(invites[i := v]) == ClaimedInvites(invites);
    }
  }

  lemma AdvanceKeepsCounts(w: World, r: nat, pick: nat)
    requires Counts(w) && Enabled(w, Advance(r, pick))
    ensures Counts(AdvanceFrom(w, r, pick))
  {
    var s := AdvanceFrom(w, r, pick).redeems[r];
    SuccessesGrow(w.redeems, r, s);
    HoldersGrow(w.redeems, r, s);
    if w.redeems[r].Hashed? && w.redeems[r].saw.invite in w.invites {
      ClaimedGrow(w.invites, w.redeems[r].saw.invite, w.invites[w.redeems[r].saw.invite].(redeemed := true));
    } else if w.redeems[r].Claimed? {
      MadeGrows(w.accounts, pick, Account(w.redeems[r].saw.email, Some(r)));
    }
  }

  /** Every step adds as many accounts as successes and as many claimed invites as redemptions holding one. */
  lemma StepKeepsCounts(w: World, op: Op)
    requires Counts(w) && Enabled(w, op)
    ensures Counts(Step(w, op))
  {
    match op
    case CreateInvite(id, email, h) => ClaimedGrow(w.invites, id, Invite(email, h, false));
    case Register(user, email) => MadeGrows(w.accounts, user, Account(email, None));
    case Start(r, h) =>
      SuccessesGrow(w.redeems, r, Started(h));
      HoldersGrow(w.redeems, r, Started(h));
    case Break(r) =>
      var s := Broken(w.redeems[r]);
      SuccessesGrow(w.redeems, r, s);
      HoldersGrow(w.redeems, r, s);
    case Advance(r, pick) => AdvanceKeepsCounts(w, r, pick);
  }
}
