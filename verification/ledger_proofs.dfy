/** Properties of the ledger as a state machine: every transaction keeps the
    ledger invariants, the history only moves forward (owners fixed,
    requests append-only, approvals grow, execution is final), and a
    request pays out at most once. */
module LedgerProofs {
  import opened Identities
  import opened Outcomes
  import Withdrawals
  import Accounts
  import opened Ledger

  /** `later` is a possible future of `b`: no account disappears, each
      account evolves, and every address's account list only grows at the end. */
  ghost predicate Evolves(b: Bank, later: Bank) {
    && |b.accounts| <= |later.accounts|
    && (forall i :: 0 <= i < |b.accounts| ==> Accounts.Evolves(b.accounts[i], later.accounts[i]))
    && (forall who :: GetAccounts(b, who) <= GetAccounts(later, who))
  }

  /** Changing one account in a way that keeps it well formed, without
      touching its owners, keeps the whole ledger valid. */
  lemma ChangeOneAccount(b: Bank, later: Bank, id: nat)
    requires Valid(b)
    requires OnlyAccountChanged(b, later, id)
    requires later.accounts[id].owners == b.accounts[id].owners
    requires Accounts.Valid(later.accounts[id])
    ensures Valid(later)
  {
    forall who
      ensures Distinct(GetAccounts(later, who)) && AccountCount(later, who) <= MaxAccountsPerOwner
    {
      assert GetAccounts(later, who) == GetAccounts(b, who);
    }
    forall who, i: nat
      ensures i in GetAccounts(later, who) <==> OwnsAccount(later, who, i)
    {
      assert GetAccounts(later, who) == GetAccounts(b, who);
      if i < |b.accounts| {
        assert later.accounts[i].owners == b.accounts[i].owners;
      }
    }
  }

  /** Appending a well-formed account and listing it for each of its
      owners, none of whom was at the limit, keeps the ledger valid. */
  lemma AppendAccount(b: Bank, later: Bank, owners: seq<Address>)
    requires Valid(b)
    requires Distinct(owners) && 1 <= |owners| <= Accounts.MaxOwners
    requires later.accounts == b.accounts + [Accounts.Account(owners, 0, [])]
    requires forall who :: GetAccounts(later, who) ==
                           if who in owners then GetAccounts(b, who) + [|b.accounts|] else GetAccounts(b, who)
    requires forall who :: who in owners ==> AccountCount(b, who) < MaxAccountsPerOwner
    ensures Valid(later)
  {
    var id := |b.accounts|;
    assert Accounts.Valid(later.accounts[id]);
    assert IndexExact(b);
    forall who
      ensures Distinct(GetAccounts(later, who)) && AccountCount(later, who) <= MaxAccountsPerOwner
    {
      if who in owners {
        assert id !in GetAccounts(b, who);
        DistinctSnoc(GetAccounts(b, who), id);
      }
    }
    forall who, i: nat
      ensures i in GetAccounts(later, who) <==> OwnsAccount(later, who, i)
    {
      if i < id {
        assert later.accounts[i] == b.accounts[i];
      }
    }
  }

  lemma CreateAccountPreservesValid(b: Bank, caller: Address, others: seq<Address>)
    requires Valid(b)
    requires CreateAccount(b, caller, others).Ok?
    ensures Valid(CreateAccount(b, caller, others).value.0)
  {
    var later := CreateAccount(b, caller, others).value.0;
    var owners := [caller] + others;
    DistinctCons(caller, others);
    assert forall who :: who in owners <==> who == caller || who in others;
    AppendAccount(b, later, owners);
  }

  lemma DepositPreservesValid(b: Bank, caller: Address, id: nat, amount: nat)
    requires Valid(b)
    requires Deposit(b, caller, id, amount).Ok?
    ensures Valid(Deposit(b, caller, id, amount).value)
  {
    var later := Deposit(b, caller, id, amount).value;
    assert Accounts.Valid(later.accounts[id]) by {
      assert Accounts.Valid(b.accounts[id]);
    }
    ChangeOneAccount(b, later, id);
  }

  lemma RequestWithdrawalPreservesValid(b: Bank, caller: Address, id: nat, amount: nat)
    requires Valid(b)
    requires RequestWithdrawal(b, caller, id, amount).Ok?
    ensures Valid(RequestWithdrawal(b, caller, id, amount).value.0)
  {
    var later := RequestWithdrawal(b, caller, id, amount).value.0;
    var acc, acc' := b.accounts[id], later.accounts[id];
    assert Accounts.Valid(acc);
    assert Accounts.Valid(acc') by {
      forall k | 0 <= k < |acc'.requests|
        ensures Withdrawals.Valid(acc'.requests[k], acc'.owners)
      {
        if k < |acc.requests| {
          assert acc'.requests[k] == acc.requests[k];
        }
      }
    }
    ChangeOneAccount(b, later, id);
  }

  lemma ApproveWithdrawalPreservesValid(b: Bank, caller: Address, id: nat, reqId: nat)
    requires Valid(b)
    requires ApproveWithdrawal(b, caller, id, reqId).Ok?
    ensures Valid(ApproveWithdrawal(b, caller, id, reqId).value)
  {
    var later := ApproveWithdrawal(b, caller, id, reqId).value;
    var acc, acc' := b.accounts[id], later.accounts[id];
    var req, req' := acc.requests[reqId], acc'.requests[reqId];
    assert Accounts.Valid(acc);
    assert Withdrawals.Valid(req, acc.owners);
    assert req'.approvers == req.approvers + [caller];
    DistinctSnoc(req.approvers, caller);
    assert Withdrawals.Valid(req', acc'.owners);
    ChangeOneAccount(b, later, id);
  }

  lemma WithdrawPreservesValid(b: Bank, caller: Address, id: nat, reqId: nat)
    requires Valid(b)
    requires Withdraw(b, caller, id, reqId).Ok?
    ensures Valid(Withdraw(b, caller, id, reqId).value.0)
  {
    var later := Withdraw(b, caller, id, reqId).value.0;
    var acc, acc' := b.accounts[id], later.accounts[id];
    assert Accounts.Valid(acc);
    assert Withdrawals.Valid(acc.requests[reqId], acc.owners);
    ChangeOneAccount(b, later, id);
  }

  /** Every transaction, committed or reverted, keeps the ledger invariants. */
  lemma StepPreservesValid(b: Bank, c: Call)
    requires Valid(b)
    ensures Valid(Step(b, c))
  {
    match c
    case CreateAccountCall(caller, others) =>
      if CreateAccount(b, caller, others).Ok? {
        CreateAccountPreservesValid(b, caller, others);
      }
    case DepositCall(caller, id, amount) =>
      if Deposit(b, caller, id, amount).Ok? {
        DepositPreservesValid(b, caller, id, amount);
      }
    case RequestCall(caller, id, amount) =>
      if RequestWithdrawal(b, caller, id, amount).Ok? {
        RequestWithdrawalPreservesValid(b, caller, id, amount);
      }
    case ApproveCall(caller, id, reqId) =>
      if ApproveWithdrawal(b, caller, id, reqId).Ok? {
        ApproveWithdrawalPreservesValid(b, caller, id, reqId);
      }
    case WithdrawCall(caller, id, reqId) =>
      if Withdraw(b, caller, id, reqId).Ok? {
        WithdrawPreservesValid(b, caller, id, reqId);
      }
  }

  lemma {:induction false} RunPreservesValid(b: Bank, calls: seq<Call>)
    requires Valid(b)
    ensures Valid(Run(b, calls))
    decreases |calls|
  {
    if |calls| > 0 {
      StepPreservesValid(b, calls[0]);
      RunPreservesValid(Step(b, calls[0]), calls[1..]);
    }
  }

  /** Whatever transactions are sent after deployment, every account has
      one to four distinct owners, nobody owns more than three accounts,
      `getAccounts` lists exactly the accounts an address owns, and no
      request's approvers repeat or include its creator. */
  lemma ReachableValid(calls: seq<Call>)
    ensures Valid(Run(Empty, calls))
    ensures forall who :: |GetAccounts(Run(Empty, calls), who)| <= MaxAccountsPerOwner
    ensures forall i :: 0 <= i < |Run(Empty, calls).accounts| ==>
              1 <= |Run(Empty, calls).accounts[i].owners| <= Accounts.MaxOwners
  {
    RunPreservesValid(Empty, calls);
    var b := Run(Empty, calls);
    forall i | 0 <= i < |b.accounts|
      ensures 1 <= |b.accounts[i].owners| <= Accounts.MaxOwners
    {
      assert Accounts.Valid(b.accounts[i]);
    }
  }

  /** `getAccounts` in a valid ledger: it lists exactly the accounts the
      address owns, each once, and at most three of them. */
  lemma GetAccountsExact(b: Bank, who: Address)
    requires Valid(b)
    ensures forall i: nat :: i in GetAccounts(b, who) <==> OwnsAccount(b, who, i)
    ensures Distinct(GetAccounts(b, who))
    ensures |GetAccounts(b, who)| <= MaxAccountsPerOwner
  {
  }

  /** A change confined to account `id` that keeps its owners, keeps or
      extends its requests and lets each of them evolve is a step forward. */
  lemma ChangeOneAccountEvolves(b: Bank, later: Bank, id: nat)
    requires OnlyAccountChanged(b, later, id)
    requires Accounts.Evolves(b.accounts[id], later.accounts[id])
    ensures Evolves(b, later)
  {
  }

  /** No transaction deletes an account, changes an owner list, removes or
      rewrites a request, withdraws an approval or un-executes a request. */
  lemma StepEvolves(b: Bank, c: Call)
    ensures Evolves(b, Step(b, c))
  {
  }

  /** Staying put is moving forward. */
  lemma EvolvesReflexive(b: Bank)
    ensures Evolves(b, b)
  {
    forall i | 0 <= i < |b.accounts|
      ensures Accounts.Evolves(b.accounts[i], b.accounts[i])
    {
      Accounts.EvolvesReflexive(b.accounts[i]);
    }
  }

  lemma EvolvesTransitive(a: Bank, b: Bank, c: Bank)
    requires Evolves(a, b) && Evolves(b, c)
    ensures Evolves(a, c)
  {
    forall i | 0 <= i < |a.accounts|
      ensures Accounts.Evolves(a.accounts[i], c.accounts[i])
    {
      Accounts.EvolvesTransitive(a.accounts[i], b.accounts[i], c.accounts[i]);
    }
  }

  lemma {:induction false} RunEvolves(b: Bank, calls: seq<Call>)
    ensures Evolves(b, Run(b, calls))
    decreases |calls|
  {
    if |calls| == 0 {
      EvolvesReflexive(b);
    } else {
      StepEvolves(b, calls[0]);
      RunEvolves(Step(b, calls[0]), calls[1..]);
      EvolvesTransitive(b, Step(b, calls[0]), Run(b, calls));
    }
  }

  /** Once a request is executed it stays exactly as it is, whatever
      transactions follow. */
  lemma ExecutedIsFinal(b: Bank, calls: seq<Call>, id: nat, reqId: nat)
    requires HasRequest(b, id, reqId) && b.accounts[id].requests[reqId].executed
    ensures HasRequest(Run(b, calls), id, reqId)
    ensures Run(b, calls).accounts[id].requests[reqId] == b.accounts[id].requests[reqId]
  {
    RunEvolves(b, calls);
  }

  /** A request pays out at most once: after a successful `withdraw`, no
      later `withdraw` of the same request by anyone succeeds, whatever
      happens in between (including calls made during the payout). */
  lemma WithdrawAtMostOnce(b: Bank, caller: Address, id: nat, reqId: nat, calls: seq<Call>, anyone: Address)
    requires Withdraw(b, caller, id, reqId).Ok?
    ensures Withdraw(Run(Withdraw(b, caller, id, reqId).value.0, calls), anyone, id, reqId).Revert?
  {
    var booked := Withdraw(b, caller, id, reqId).value.0;
    ExecutedIsFinal(booked, calls, id, reqId);
  }

  /** A request never carries more approvals than its account has owners
      besides the requester, so at most three. */
  lemma ApprovalsBounded(b: Bank, id: nat, reqId: nat)
    requires Valid(b)
    requires HasRequest(b, id, reqId)
    ensures GetApprovals(b, id, reqId).value < |b.accounts[id].owners|
    ensures GetApprovals(b, id, reqId).value <= Accounts.MaxOwners - 1
  {
    var acc := b.accounts[id];
    var req := acc.requests[reqId];
    assert Accounts.Valid(acc);
    assert Withdrawals.Valid(req, acc.owners);
    var pool := Elements(acc.owners) - {req.creator};
    DistinctElements(acc.owners);
    assert |pool| == |acc.owners| - 1;
    DistinctWithin(req.approvers, pool);
  }

  /** Pending requests reserve nothing: a second request is judged against
      the balance alone, so two requests whose sum exceeds the balance can
      both be filed. */
  lemma RequestsDoNotReserve(b: Bank, first: Address, second: Address, id: nat, a1: nat, a2: nat)
    requires RequestWithdrawal(b, first, id, a1).Ok?
    requires Accounts.IsOwner(b.accounts[id], second)
    requires 0 < a2 <= b.accounts[id].balance
    ensures RequestWithdrawal(RequestWithdrawal(b, first, id, a1).value.0, second, id, a2).Ok?
  {
  }

  /** Request, one approval by another owner, then `withdraw` by the
      requester: the payout is the requested amount, the balance drops by
      exactly that amount and the request is executed. */
  lemma ApprovedRequestPaysOut(b: Bank, requester: Address, approver: Address, id: nat, amount: nat)
    requires id < |b.accounts|
    requires Accounts.IsOwner(b.accounts[id], requester) && Accounts.IsOwner(b.accounts[id], approver)
    requires requester != approver
    requires 0 < amount <= b.accounts[id].balance
    ensures
      var (filed, reqId) := RequestWithdrawal(b, requester, id, amount).value;
      var approved := ApproveWithdrawal(filed, approver, id, reqId);
      && approved.Ok?
      && GetApprovals(approved.value, id, reqId) == Ok(1)
      && var paid := Withdraw(approved.value, requester, id, reqId);
      && paid.Ok?
      && paid.value.1 == Transfer(requester, amount)
      && paid.value.0.accounts[id].balance == b.accounts[id].balance - amount
      && paid.value.0.accounts[id].requests[reqId].executed
  {
  }
}
