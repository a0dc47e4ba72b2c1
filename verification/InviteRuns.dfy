/** What holds over whole runs of redemptions, however their statements interleave. */
module InviteRuns {
  import opened Collections
  import opened Options
  import opened Invites

  /** The world keeps its books at every moment of every run. */
  lemma {:induction false} RunKeeps(ws: seq<World>, ops: seq<Op>, k: nat)
    requires IsRun(ws, ops) && k < |ws|
    ensures Consistent(ws[k]) && Counts(ws[k])
  {
    if k == 0 {
      InitialIsConsistent(ws[0]);
    } else {
      RunKeeps(ws, ops, k - 1);
      assert StepsTo(ws, ops, k - 1);
      StepKeepsConsistent(ws[k - 1], ops[k - 1]);
      StepKeepsCounts(ws[k - 1], ops[k - 1]);
    }
  }

  lemma InitialIsConsistent(w: World)
    requires Initial(w)
    ensures Consistent(w) && Counts(w)
  {}

  // ---- What is never taken back

  /** Claims are final, accounts stay, a redemption that has ended does not move again, and none changes its token. */
  ghost predicate Extends(v: World, w: World) {
    && (forall i :: i in v.invites && v.invites[i].redeemed ==> i in w.invites && w.invites[i].redeemed)
    && (forall i :: i in v.invites ==> i in w.invites && SameInvite(v.invites[i], w.invites[i]))
    && (forall u :: u in v.accounts ==> u in w.accounts && w.accounts[u] == v.accounts[u])
    && (forall r :: r in v.redeems ==> r in w.redeems && w.redeems[r].tokenHash == v.redeems[r].tokenHash)
    && (forall r :: r in v.redeems && v.redeems[r].Done? ==> w.redeems[r] == v.redeems[r])
  }

  predicate SameInvite(v: Invite, w: Invite) {
    w.email == v.email && w.tokenHash == v.tokenHash
  }

  lemma AdvanceExtends(w: World, r: nat, pick: nat)
    requires Enabled(w, Advance(r, pick))
    ensures Extends(w, AdvanceFrom(w, r, pick))
  {}

  lemma StepExtends(w: World, op: Op)
    requires Enabled(w, op)
    ensures Extends(w, Step(w, op))
  {
    if op.Advance? {
      AdvanceExtends(w, op.redeem, op.pick);
    }
  }

  lemma {:induction false} RunExtends(ws: seq<World>, ops: seq<Op>, j: nat, k: nat)
    requires IsRun(ws, ops) && j <= k < |ws|
    ensures Extends(ws[j], ws[k])
    decreases k
  {
    if j < k {
      RunExtends(ws, ops, j, k - 1);
      assert StepsTo(ws, ops, k - 1);
      StepExtends(ws[k - 1], ops[k - 1]);
    }
  }

  // ---- Claims

  /** Step `op` is the conditional update that marks invite `i` as redeemed. */
  predicate Claims(w: World, op: Op, i: nat) {
    && op.Advance? && op.redeem in w.redeems && w.redeems[op.redeem].Hashed?
    && w.redeems[op.redeem].saw.invite == i && i in w.invites && !w.invites[i].redeemed
  }

  lemma ClaimedAfterwards(ws: seq<World>, ops: seq<Op>, j: nat, i: nat)
    requires IsRun(ws, ops) && j < |ops| && Claims(ws[j], ops[j], i)
    ensures i in ws[j + 1].invites && ws[j + 1].invites[i].redeemed
  {
    assert StepsTo(ws, ops, j);
  }

  /** No interleaving claims an invite twice. */
  lemma ClaimedAtMostOnce(ws: seq<World>, ops: seq<Op>, j: nat, k: nat, i: nat)
    requires IsRun(ws, ops) && j < |ops| && k < |ops|
    requires Claims(ws[j], ops[j], i) && Claims(ws[k], ops[k], i)
    ensures j == k
  {
    if j < k {
      ClaimedAfterwards(ws, ops, j, i);
      RunExtends(ws, ops, j + 1, k);
    } else if k < j {
      ClaimedAfterwards(ws, ops, k, i);
      RunExtends(ws, ops, k + 1, j);
    }
  }

  /** An invite is marked redeemed exactly when some redemption claimed it, and then exactly one did: two that
  saw the same open invite, even two that both found no account for its email, cannot both proceed. */
  lemma RedeemedIffOneHolder(ws: seq<World>, ops: seq<Op>, k: nat, i: nat)
    requires IsRun(ws, ops) && k < |ws| && i in ws[k].invites
    ensures ws[k].invites[i].redeemed <==> Held(ws[k].redeems, i)
    ensures forall q, r :: ClaimedBy(ws[k].redeems, q, i) && ClaimedBy(ws[k].redeems, r, i) ==> q == r
  {
    RunKeeps(ws, ops, k);
    forall r | ClaimedBy(ws[k].redeems, r, i) ensures ws[k].invites[i].redeemed {
      assert Rightly(ws[k].invites, ws[k].accounts, ws[k].redeems[r]);
    }
  }

  /** The email is checked before anything is claimed: a redemption that finds an account there ends as a conflict, for
  good, and has claimed nothing; any other goes on. */
  lemma EmailIsCheckedFirst(ws: seq<World>, ops: seq<Op>, j: nat, k: nat, r: nat)
    requires IsRun(ws, ops) && j < k < |ws| && ops[j].Advance? && ops[j].redeem == r
    requires r in ws[j].redeems && ws[j].redeems[r].Found?
    ensures ws[j + 1].invites == ws[j].invites && ws[j + 1].accounts == ws[j].accounts
    ensures HasAccount(ws[j].accounts, ws[j].redeems[r].saw.email) ==>
      r in ws[k].redeems && ws[k].redeems[r].Done? && ws[k].redeems[r].outcome == Conflict && !ws[k].redeems[r].claimed
    ensures !HasAccount(ws[j].accounts, ws[j].redeems[r].saw.email) ==>
      r in ws[j + 1].redeems && ws[j + 1].redeems[r] == Checked(ws[j].redeems[r].tokenHash, ws[j].redeems[r].saw)
  {
    assert StepsTo(ws, ops, j);
    RunExtends(ws, ops, j + 1, k);
  }

  /** A token without an open invite is refused by the lookup, for good, and any other lookup finds an open invite. */
  lemma LookupDecides(ws: seq<World>, ops: seq<Op>, j: nat, k: nat, r: nat)
    requires IsRun(ws, ops) && j < k < |ws| && ops[j].Advance? && ops[j].redeem == r
    requires r in ws[j].redeems && ws[j].redeems[r].Started?
    ensures ws[j + 1].invites == ws[j].invites && ws[j + 1].accounts == ws[j].accounts
    ensures !SomeOpen(ws[j].invites, ws[j].redeems[r].tokenHash) ==>
      r in ws[k].redeems && ws[k].redeems[r].Done? && ws[k].redeems[r].outcome == BadInvite && !ws[k].redeems[r].claimed
    ensures SomeOpen(ws[j].invites, ws[j].redeems[r].tokenHash) ==>
      && r in ws[j + 1].redeems && ws[j + 1].redeems[r].Found?
      && ws[j + 1].redeems[r].tokenHash == ws[j].redeems[r].tokenHash
      && IsOpen(ws[j].invites, ws[j + 1].redeems[r].saw.invite, ws[j].redeems[r].tokenHash)
  {
    assert StepsTo(ws, ops, j);
    RunExtends(ws, ops, j + 1, k);
  }

  // Redemption `r` is about to claim invite `i`.
  predicate AboutToClaim(w: World, r: nat, i: nat) {
    r in w.redeems && w.redeems[r].Hashed? && w.redeems[r].saw.invite == i
  }

  /** Of the redemptions that are about to claim the same invite the first to run its update gets it.  The update of
  every other affects no row, and that redemption is told so: it has ended as invalid, for good. */
  lemma LosersAreRefused(ws: seq<World>, ops: seq<Op>, j: nat, k: nat, r: nat, i: nat)
    requires IsRun(ws, ops) && j < k < |ws| && ops[j].Advance? && ops[j].redeem == r && AboutToClaim(ws[j], r, i)
    ensures Claims(ws[j], ops[j], i) <==> i in ws[j].invites && !ws[j].invites[i].redeemed
    ensures Claims(ws[j], ops[j], i) ==> ClaimedBy(ws[j + 1].redeems, r, i) && i in ws[k].invites && ws[k].invites[i].redeemed
    ensures !Claims(ws[j], ops[j], i) ==>
      && r in ws[k].redeems && ws[k].redeems[r].Done? && ws[k].redeems[r].outcome == BadInvite
      && !ws[k].redeems[r].claimed && ws[j + 1].invites == ws[j].invites && ws[j + 1].accounts == ws[j].accounts
  {
    assert StepsTo(ws, ops, j);
    RunExtends(ws, ops, j + 1, k);
  }

  /** The invite that a redemption claims is one that the presented token names: the token it was started with. */
  lemma ClaimsItsToken(ws: seq<World>, ops: seq<Op>, j: nat, k: nat, r: nat, i: nat)
    requires IsRun(ws, ops) && j < k < |ws| && ops[j].Start? && ops[j].redeem == r && ClaimedBy(ws[k].redeems, r, i)
    ensures i in ws[k].invites && ws[k].invites[i].tokenHash == ops[j].tokenHash
  {
    assert StepsTo(ws, ops, j);
    RunExtends(ws, ops, j + 1, k);
    RunKeeps(ws, ops, k);
    assert Rightly(ws[k].invites, ws[k].accounts, ws[k].redeems[r]);
  }

  // ---- Accounts

  /** A success stands for one account of its own, with the email of the invite it claimed. */
  lemma SuccessMadeItsAccount(ws: seq<World>, ops: seq<Op>, k: nat, r: nat) returns (i: nat, u: nat)
    requires IsRun(ws, ops) && k < |ws| && Succeeded(ws[k].redeems, r)
    ensures ClaimedBy(ws[k].redeems, r, i) && i in ws[k].invites && MadeBy(ws[k].accounts, u, r)
    ensures ws[k].accounts[u].email == ws[k].invites[i].email
    ensures forall v :: MadeBy(ws[k].accounts, v, r) ==> v == u
    ensures forall v :: Owns(ws[k].accounts, v, ws[k].invites[i].email) ==> v == u
  {
    RunKeeps(ws, ops, k);
    var w := ws[k];
    assert Rightly(w.invites, w.accounts, w.redeems[r]);
    assert HasMade(w.accounts, r);
    i := w.redeems[r].sight.value.invite;
    u :| MadeBy(w.accounts, u, r);
    assert MadeRightly(w.redeems, w.accounts[u]);
    forall v | MadeBy(w.accounts, v, r) ensures v == u {
      assert MadeRightly(w.redeems, w.accounts[v]);
    }
  }

  /** Redemptions make exactly one account for each success, and never more than there are claimed invites. */
  lemma AccountsAreConserved(ws: seq<World>, ops: seq<Op>, k: nat)
    requires IsRun(ws, ops) && k < |ws|
    ensures |Made(ws[k].accounts)| == |Successes(ws[k].redeems)|
    ensures |Made(ws[k].accounts)| <= |ClaimedInvites(ws[k].invites)|
    ensures forall u, v :: u in ws[k].accounts && v in ws[k].accounts && u != v ==>
      ws[k].accounts[u].email != ws[k].accounts[v].email
  {
    RunKeeps(ws, ops, k);
    var w := ws[k];
    forall r | r in Successes(w.redeems) ensures r in Holders(w.redeems) {
      assert Rightly(w.invites, w.accounts, w.redeems[r]);
    }
    SubsetSize(Successes(w.redeems), Holders(w.redeems));
  }

  /** Whoever was told that the redemption succeeded, or that an account already exists, finds from then on an
  account with the email of an invite that the presented token names. */
  lemma AnsweredMeansAccount(ws: seq<World>, ops: seq<Op>, j: nat, k: nat, r: nat) returns (i: nat)
    requires IsRun(ws, ops) && j <= k < |ws| && r in ws[j].redeems && Settled(ws[j].redeems[r])
    ensures i in ws[k].invites && ws[k].invites[i].tokenHash == ws[j].redeems[r].tokenHash
    ensures HasAccount(ws[k].accounts, ws[k].invites[i].email)
  {
    RunKeeps(ws, ops, k);
    RunExtends(ws, ops, j, k);
    assert Rightly(ws[k].invites, ws[k].accounts, ws[k].redeems[r]);
    i := ws[k].redeems[r].sight.value.invite;
  }

  // ---- Claims without an account

  // A statement of redemption `r` fails after the claim: the insert, or what it waits for.
  predicate BreaksClaim(w: World, op: Op, r: nat) {
    op == Break(r) && r in w.redeems && w.redeems[r].Claimed?
  }

  ghost predicate ClaimBroken(ws: seq<World>, ops: seq<Op>, k: nat, r: nat)
    requires k <= |ops| && k <= |ws|
  {
    exists j :: 0 <= j < k && BreaksClaim(ws[j], ops[j], r)
  }

  predicate FailedWithClaim(redeems: Redeems, r: nat) {
    r in redeems && redeems[r].Done? && redeems[r].claimed && redeems[r].outcome == Failed
  }

  lemma FailsWithClaim(w: World, op: Op, r: nat)
    requires Enabled(w, op)
    ensures FailedWithClaim(Step(w, op).redeems, r) <==> FailedWithClaim(w.redeems, r) || BreaksClaim(w, op, r)
  {}

  lemma {:induction false} FailedIffBroken(ws: seq<World>, ops: seq<Op>, k: nat, r: nat)
    requires IsRun(ws, ops) && k < |ws|
    ensures FailedWithClaim(ws[k].redeems, r) <==> ClaimBroken(ws, ops, k, r)
  {
    if k > 0 {
      FailedIffBroken(ws, ops, k - 1, r);
      assert StepsTo(ws, ops, k - 1);
      FailsWithClaim(ws[k - 1], ops[k - 1], r);
    }
  }

  /** A claimed invite whose redemption has ended: the redemption failed exactly if a statement of it failed after the
  claim; it made an account exactly if it succeeded; and in every case but that failure there is an account for
  the invite's email. */
  lemma ClaimedAndEnded(ws: seq<World>, ops: seq<Op>, k: nat, r: nat, i: nat)
    requires IsRun(ws, ops) && k < |ws| && ClaimedBy(ws[k].redeems, r, i) && ws[k].redeems[r].Done?
    ensures ws[k].redeems[r].outcome == Failed <==> ClaimBroken(ws, ops, k, r)
    ensures HasMade(ws[k].accounts, r) <==> Succeeded(ws[k].redeems, r)
    ensures i in ws[k].invites && (HasAccount(ws[k].accounts, ws[k].invites[i].email) || ClaimBroken(ws, ops, k, r))
  {
    RunKeeps(ws, ops, k);
    FailedIffBroken(ws, ops, k, r);
    assert Rightly(ws[k].invites, ws[k].accounts, ws[k].redeems[r]);
    if u :| MadeBy(ws[k].accounts, u, r) {
      assert MadeRightly(ws[k].redeems, ws[k].accounts[u]);
    }
  }

  /** The claim is not undone when the insert then fails: once the redemption that claimed an invite has ended
  without success, no redemption of that invite ever succeeds. */
  lemma BurntForGood(ws: seq<World>, ops: seq<Op>, j: nat, k: nat, r: nat, q: nat, i: nat)
    requires IsRun(ws, ops) && j <= k < |ws|
    requires ClaimedBy(ws[j].redeems, r, i) && ws[j].redeems[r].Done? && !Succeeded(ws[j].redeems, r)
    requires ClaimedBy(ws[k].redeems, q, i)
    ensures !Succeeded(ws[k].redeems, q)
  {
    RunKeeps(ws, ops, k);
    RunExtends(ws, ops, j, k);
    assert ClaimedBy(ws[k].redeems, r, i);
  }

  function Last(ws: seq<World>): World
    requires ws != []
  {
    ws[|ws| - 1]
  }

  lemma GoOn(ws: seq<World>, ops: seq<Op>, op: Op) returns (vs: seq<World>, os: seq<Op>)
    requires IsRun(ws, ops) && Enabled(Last(ws), op)
    ensures IsRun(vs, os) && Last(vs) == Step(Last(ws), op)
  {
    vs, os := ws + [Step(Last(ws), op)], ops + [op];
    forall i | 0 <= i < |os| ensures StepsTo(vs, os, i) {
      assert i < |ops| ==> StepsTo(ws, ops, i);
    }
  }

  // The invite for Ann is claimed, and her account is to be made.
  lemma ClaimUnderWay() returns (ws: seq<World>, ops: seq<Op>)
    ensures IsRun(ws, ops)
    ensures Last(ws) == World(map[0 := Invite("ann", "h", true)], map[], map[0 := Claimed("h", Sighting(0, "ann"))])
  {
    ws, ops := [World(map[], map[], map[])], [];
    ws, ops := GoOn(ws, ops, CreateInvite(0, "ann", "h"));
    ws, ops := GoOn(ws, ops, Start(0, "h"));
    assert IsOpen(Last(ws).invites, 0, "h");
    ws, ops := GoOn(ws, ops, Advance(0, 0));
    assert Last(ws).redeems[0] == Found("h", Sighting(0, "ann"));
    ws, ops := GoOn(ws, ops, Advance(0, 0));
    assert Last(ws).redeems[0] == Checked("h", Sighting(0, "ann"));
    ws, ops := GoOn(ws, ops, Advance(0, 0));
    assert Last(ws).redeems[0] == Hashed("h", Sighting(0, "ann"));
    ws, ops := GoOn(ws, ops, Advance(0, 0));
  }

  /** Such a run exists: one redemption claims the invite, its insert fails, and a second one is refused, so
  that the invite is used up although there is no account at all. */
  lemma BurntInvite() returns (ws: seq<World>, ops: seq<Op>)
    ensures IsRun(ws, ops) && Last(ws).accounts == map[]
    ensures 0 in Last(ws).invites && Last(ws).invites[0].redeemed
    ensures 1 in Last(ws).redeems && Last(ws).redeems[1] == Done("h", BadInvite, None, false)
  {
    ws, ops := ClaimUnderWay();
    ws, ops := GoOn(ws, ops, Break(0));
    ws, ops := GoOn(ws, ops, Start(1, "h"));
    ws, ops := GoOn(ws, ops, Advance(1, 0));
  }
}
