/** The invite service over its tables.  Every method but `Redeem` is one database statement, and is proved to be the
step that redemption `r` takes in Invites; how far the redemptions have come is history.  `Redeem` is one that
nothing interrupts. */
module InvitesService {
  import opened Options
  import opened Invites

  class Service {
    var invites: Invites
    var accounts: Accounts
    ghost var redeems: Redeems

    constructor (accounts: Accounts)
      requires OneAccountPerEmail(accounts) && forall u :: u in accounts ==> accounts[u].maker.None?
      ensures Initial(View()) && this.accounts == accounts
    {
      invites, this.accounts, redeems := map[], accounts, map[];
    }

    ghost function View(): World
      reads this
    {
      World(invites, accounts, redeems)
    }

    // Redemption `r` has ended like this.
    ghost predicate Ended(r: nat, outcome: Outcome)
      reads this`redeems
    {
      r in redeems && redeems[r].Done? && redeems[r].outcome == outcome
    }

    /** A new invite is open, under its token and no other. */
    method CreateInvite(id: nat, email: string, tokenHash: string)
      requires id !in invites
      modifies this`invites
      ensures View() == Step(old(View()), Op.CreateInvite(id, email, tokenHash))
      ensures forall i, h :: IsOpen(invites, i, h) <==> IsOpen(old(invites), i, h) || (i == id && h == tokenHash)
      ensures id in invites && invites[id].email == email
    {
      invites := invites[id := Invite(email, tokenHash, false)];
    }

    ghost method Begin(r: nat, tokenHash: string)
      requires r !in redeems
      modifies this`redeems
      ensures View() == Step(old(View()), Start(r, tokenHash))
    {
      redeems := redeems[r := Started(tokenHash)];
    }

    ghost method Took(r: nat, s: Stage)
      modifies this`redeems
      ensures redeems == old(redeems)[r := s]
    {
      redeems := redeems[r := s];
    }

    // The lookup by token: some open invite with it, if there is one.
    method FindOpen(ghost r: nat, tokenHash: string) returns (found: Option<nat>)
      requires r in redeems && redeems[r] == Started(tokenHash)
      modifies this`redeems
      ensures found.None? <==> !SomeOpen(invites, tokenHash)
      ensures found.Some? ==> IsOpen(invites, found.value, tokenHash)
      ensures if found.None? then Ended(r, BadInvite)
              else r in redeems && redeems[r] == Found(tokenHash, Sighting(found.value, invites[found.value].email))
      ensures Enabled(old(View()), Advance(r, if found.Some? then found.value else 0))
      ensures View() == Step(old(View()), Advance(r, if found.Some? then found.value else 0))
    {
      if SomeOpen(invites, tokenHash) {
        var i :| i in invites && IsOpen(invites, i, tokenHash);
        found := Some(i);
        Took(r, Found(tokenHash, Sighting(i, invites[i].email)));
      } else {
        found := None;
        Took(r, Done(tokenHash, BadInvite, None, false));
      }
    }

    method FindByEmail(ghost r: nat, email: string) returns (taken: bool)
      requires r in redeems && redeems[r].Found? && redeems[r].saw.email == email
      modifies this`redeems
      ensures View() == Step(old(View()), Advance(r, 0))
      ensures taken <==> HasAccount(accounts, email)
      ensures if taken then Ended(r, Conflict) else r in redeems && redeems[r].Checked? && redeems[r].saw == old(redeems)[r].saw
    {
      taken := HasAccount(accounts, email);
      Took(r, AdvanceFrom(View(), r, 0).redeems[r]);
    }

    ghost method HashPassword(r: nat)
      requires r in redeems && redeems[r].Checked?
      modifies this`redeems
      ensures View() == Step(old(View()), Advance(r, 0))
    {
      Took(r, Hashed(redeems[r].tokenHash, redeems[r].saw));
    }

    // The update affects the row if it is still open, and tells so.
    method ClaimInvite(ghost r: nat, i: nat) returns (affected: nat)
      requires r in redeems && redeems[r].Hashed? && redeems[r].saw.invite == i
      modifies this`invites, this`redeems
      ensures View() == Step(old(View()), Advance(r, 0))
      ensures affected == if i in old(invites) && !old(invites)[i].redeemed then 1 else 0
      ensures forall j, h :: IsOpen(invites, j, h) <==> IsOpen(old(invites), j, h) && j != i
      ensures if affected == 0 then Ended(r, BadInvite)
              else r in redeems && redeems[r].Claimed? && redeems[r].saw == old(redeems)[r].saw
    {
      affected := 0;
      Took(r, AdvanceFrom(View(), r, 0).redeems[r]);
      if i in invites && !invites[i].redeemed {
        invites := Marked(invites, i);
        affected := 1;
      }
    }

    // The insert succeeds if no account has the email yet: the column is unique.
    method InsertAccount(r: nat, user: nat, email: string) returns (inserted: bool)
      requires r in redeems && redeems[r].Claimed? && redeems[r].saw.email == email && user !in accounts
      modifies this`accounts, this`redeems
      ensures View() == Step(old(View()), Advance(r, user))
      ensures inserted <==> !HasAccount(old(accounts), email)
      ensures Ended(r, if inserted then Success else Conflict)
      ensures accounts == if inserted then old(accounts)[user := Account(email, Some(r))] else old(accounts)
    {
      inserted := !HasAccount(accounts, email);
      Took(r, AdvanceFrom(View(), r, user).redeems[r]);
      if inserted {
        accounts := accounts[user := Account(email, Some(r))];
      }
    }

    ghost method Fail(r: nat)
      requires r in redeems && !redeems[r].Done?
      modifies this`redeems
      ensures View() == Step(old(View()), Break(r))
    {
      Took(r, Broken(redeems[r]));
    }

    /** A redemption that runs alone uses up one open invite for one new account with its email, or changes
    nothing: it refuses a token without an open invite and an email that already has an account. */
    method Redeem(r: nat, tokenHash: string, user: nat) returns (outcome: Outcome, row: Option<nat>)
      requires r !in redeems && user !in accounts
      modifies this
      ensures row.Some? <==> SomeOpen(old(invites), tokenHash)
      ensures row.Some? ==> IsOpen(old(invites), row.value, tokenHash)
      ensures outcome == BadInvite <==> row.None?
      ensures outcome == Conflict <==> row.Some? && HasAccount(old(accounts), old(invites)[row.value].email)
      ensures outcome != Failed
      ensures outcome == Success ==>
        && invites == Marked(old(invites), row.value)
        && accounts == old(accounts)[user := Account(old(invites)[row.value].email, Some(r))]
      ensures outcome != Success ==> invites == old(invites) && accounts == old(accounts)
      ensures Ended(r, outcome)
    {
      Begin(r, tokenHash);
      row := FindOpen(r, tokenHash);
      if row.None? { return BadInvite, None; }
      var email := invites[row.value].email;
      var taken := FindByEmail(r, email);
      if taken { return Conflict, row; }
      HashPassword(r);
      var affected := ClaimInvite(r, row.value);
      if affected == 0 { return BadInvite, None; }
      var inserted := InsertAccount(r, user, email);
      outcome := if inserted then Success else Conflict;
    }
  }
}
