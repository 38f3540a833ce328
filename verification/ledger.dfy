/** The ledger registry: every joint account, indexed by creation order,
    and for each address the ids of the accounts it owns. Each public call
    is a pure function of the current state that either commits a new state
    or reverts with no effect. */
module Ledger {
  import opened Identities
  import opened Outcomes
  import Withdrawals
  import opened Accounts

  /** An address may own at most this many accounts. */
  const MaxAccountsPerOwner: nat := 3

  datatype Bank = Bank(
    accounts: seq<Account>,
    userAccounts: map<Address, seq<nat>>)

  /** The signal emitted when an account is created. */
  datatype Event = AccountCreated(owners: seq<Address>, id: nat)

  /** Value sent out of custody once a withdrawal has been booked. */
  datatype Transfer = Transfer(to: Address, amount: nat)

  /** The state right after deployment. */
  const Empty: Bank := Bank([], map[])

  function Lookup(index: map<Address, seq<nat>>, who: Address): seq<nat> {
    if who in index then index[who] else []
  }

  /** `getAccounts`: the ids of the accounts `who` owns, oldest first. */
  function GetAccounts(b: Bank, who: Address): seq<nat> {
    Lookup(b.userAccounts, who)
  }

  function AccountCount(b: Bank, who: Address): nat {
    |GetAccounts(b, who)|
  }

  /** Account `i` exists and `who` is one of its owners. */
  predicate OwnsAccount(b: Bank, who: Address, i: nat) {
    i < |b.accounts| && who in b.accounts[i].owners
  }

  /** The index lists exactly the accounts in which an address is an owner. */
  ghost predicate IndexExact(b: Bank) {
    forall who, i: nat :: i in GetAccounts(b, who) <==> OwnsAccount(b, who, i)
  }

  /** The ledger invariants: every account is well formed, the index is
      exact and duplicate-free, and nobody owns more than three accounts. */
  ghost predicate Valid(b: Bank) {
    && (forall i :: 0 <= i < |b.accounts| ==> Accounts.Valid(b.accounts[i]))
    && (forall who :: Distinct(GetAccounts(b, who)) && AccountCount(b, who) <= MaxAccountsPerOwner)
    && IndexExact(b)
  }

  /** `later` differs from `b` at most in account `id`. */
  ghost predicate OnlyAccountChanged(b: Bank, later: Bank, id: nat) {
    && id < |b.accounts|
    && |later.accounts| == |b.accounts|
    && later.userAccounts == b.userAccounts
    && (forall j :: 0 <= j < |b.accounts| && j != id ==> later.accounts[j] == b.accounts[j])
  }

  /** Appends `id` to the account list of every address in `owners`. */
  function Register(index: map<Address, seq<nat>>, owners: seq<Address>, id: nat): (r: map<Address, seq<nat>>)
    requires Distinct(owners)
    ensures forall who :: Lookup(r, who) == if who in owners then Lookup(index, who) + [id] else Lookup(index, who)
    decreases |owners|
  {
    if |owners| == 0 then index
    else
      var rest := owners[1..];
      DistinctTail(owners);
      assert forall who :: who in owners <==> who == owners[0] || who in rest by {
        assert owners == [owners[0]] + rest;
      }
      Register(index[owners[0] := Lookup(index, owners[0]) + [id]], rest, id)
  }

  /** `createAccount`: the caller opens an account together with up to
      three further owners. */
  function CreateAccount(b: Bank, caller: Address, others: seq<Address>): (r: Result<(Bank, Event)>)
    ensures r.Ok? <==>
      && caller !in others
      && Distinct(others)
      && 1 + |others| <= MaxOwners
      && AccountCount(b, caller) < MaxAccountsPerOwner
      && (forall o :: o in others ==> AccountCount(b, o) < MaxAccountsPerOwner)
    ensures caller in others || !Distinct(others) ==> r == Revert(DuplicateOwner)
    ensures r.Ok? ==> r.value.1 == AccountCreated([caller] + others, |b.accounts|)
    ensures r.Ok? ==> r.value.0.accounts == b.accounts + [Account([caller] + others, 0, [])]
    ensures r.Ok? ==> forall who :: GetAccounts(r.value.0, who) ==
                                    if who == caller || who in others
                                    then GetAccounts(b, who) + [|b.accounts|]
                                    else GetAccounts(b, who)
  {
    if caller in others || HasDuplicate(others) then Revert(DuplicateOwner)
    else if 1 + |others| > MaxOwners then Revert(TooManyOwners)
    else if AccountCount(b, caller) >= MaxAccountsPerOwner then Revert(OwnerAccountLimit)
    else if exists o :: o in others && AccountCount(b, o) >= MaxAccountsPerOwner then Revert(OwnerAccountLimit)
    else
      var owners := [caller] + others;
      var id := |b.accounts|;
      DistinctCons(caller, others);
      assert forall who :: who in owners <==> who == caller || who in others;
      var created := Bank(b.accounts + [Account(owners, 0, [])], Register(b.userAccounts, owners, id));
      Ok((created, AccountCreated(owners, id)))
  }

  /** `deposit`: an owner adds funds to the account. */
  function Deposit(b: Bank, caller: Address, id: nat, amount: nat): (r: Result<Bank>)
    ensures r.Ok? <==> id < |b.accounts| && IsOwner(b.accounts[id], caller) && amount > 0
    ensures id < |b.accounts| && !IsOwner(b.accounts[id], caller) ==> r == Revert(NotOwner)
    ensures r.Ok? ==>
      && OnlyAccountChanged(b, r.value, id)
      && r.value.accounts[id].balance == b.accounts[id].balance + amount
      && r.value.accounts[id].owners == b.accounts[id].owners
      && r.value.accounts[id].requests == b.accounts[id].requests
  {
    if id >= |b.accounts| then Revert(NoSuchAccount)
    else if !IsOwner(b.accounts[id], caller) then Revert(NotOwner)
    else if amount == 0 then Revert(InvalidAmount)
    else
      var acc := b.accounts[id];
      Ok(b.(accounts := b.accounts[id := acc.(balance := acc.balance + amount)]))
  }

  /** `requestWithdrawl`: an owner files a request to take `amount` out.
      The amount is checked against the current balance only; amounts of
      other pending requests are not reserved. Returns the request id. */
  function RequestWithdrawal(b: Bank, caller: Address, id: nat, amount: nat): (r: Result<(Bank, nat)>)
    ensures r.Ok? <==>
      && id < |b.accounts|
      && IsOwner(b.accounts[id], caller)
      && 0 < amount <= b.accounts[id].balance
    ensures id < |b.accounts| && !IsOwner(b.accounts[id], caller) ==> r == Revert(NotOwner)
    ensures id < |b.accounts| && IsOwner(b.accounts[id], caller) && amount > b.accounts[id].balance ==>
      r == Revert(InsufficientBalance)
    ensures r.Ok? ==>
      && OnlyAccountChanged(b, r.value.0, id)
      && r.value.1 == |b.accounts[id].requests|
      && r.value.0.accounts[id].owners == b.accounts[id].owners
      && r.value.0.accounts[id].balance == b.accounts[id].balance
      && r.value.0.accounts[id].requests == b.accounts[id].requests + [Withdrawals.NewRequest(caller, amount)]
  {
    if id >= |b.accounts| then Revert(NoSuchAccount)
    else if !IsOwner(b.accounts[id], caller) then Revert(NotOwner)
    else if amount == 0 then Revert(InvalidAmount)
    else if amount > b.accounts[id].balance then Revert(InsufficientBalance)
    else
      var acc := b.accounts[id];
      var reqId := |acc.requests|;
      var filed := acc.(requests := acc.requests + [Withdrawals.NewRequest(caller, amount)]);
      Ok((b.(accounts := b.accounts[id := filed]), reqId))
  }

  /** Account `id` exists and has a request `reqId`. */
  predicate HasRequest(b: Bank, id: nat, reqId: nat) {
    id < |b.accounts| && reqId < |b.accounts[id].requests|
  }

  /** `approveWithdrawl`: an owner other than the requester approves a
      pending request, at most once. */
  function ApproveWithdrawal(b: Bank, caller: Address, id: nat, reqId: nat): (r: Result<Bank>)
    ensures r.Ok? <==>
      && HasRequest(b, id, reqId)
      && IsOwner(b.accounts[id], caller)
      && caller != b.accounts[id].requests[reqId].creator
      && caller !in b.accounts[id].requests[reqId].approvers
      && !b.accounts[id].requests[reqId].executed
    ensures HasRequest(b, id, reqId) && !IsOwner(b.accounts[id], caller) ==> r == Revert(NotOwner)
    ensures (&& HasRequest(b, id, reqId)
             && IsOwner(b.accounts[id], caller)
             && caller == b.accounts[id].requests[reqId].creator)
            ==> r == Revert(CreatorCannotApprove)
    ensures (&& HasRequest(b, id, reqId)
             && IsOwner(b.accounts[id], caller)
             && caller != b.accounts[id].requests[reqId].creator
             && caller in b.accounts[id].requests[reqId].approvers)
            ==> r == Revert(AlreadyApproved)
    ensures r.Ok? ==> OnlyAccountChanged(b, r.value, id)
    ensures r.Ok? ==>
      var acc, acc' := b.accounts[id], r.value.accounts[id];
      && acc'.owners == acc.owners
      && acc'.balance == acc.balance
      && |acc'.requests| == |acc.requests|
      && (forall k :: 0 <= k < |acc.requests| && k != reqId ==> acc'.requests[k] == acc.requests[k])
      && Withdrawals.Evolves(acc.requests[reqId], acc'.requests[reqId])
      && !acc'.requests[reqId].executed
      && caller in acc'.requests[reqId].approvers
      && Withdrawals.Approvals(acc'.requests[reqId]) == Withdrawals.Approvals(acc.requests[reqId]) + 1
  {
    if id >= |b.accounts| then Revert(NoSuchAccount)
    else if reqId >= |b.accounts[id].requests| then Revert(NoSuchRequest)
    else if !IsOwner(b.accounts[id], caller) then Revert(NotOwner)
    else
      var acc := b.accounts[id];
      var req := acc.requests[reqId];
      if caller == req.creator then Revert(CreatorCannotApprove)
      else if caller in req.approvers then Revert(AlreadyApproved)
      else if req.executed then Revert(AlreadyExecuted)
      else
        var approved := acc.(requests := acc.requests[reqId := Withdrawals.AddApproval(req, caller)]);
        Ok(b.(accounts := b.accounts[id := approved]))
  }

  /** `getApprovals`: how many owners have approved the request. */
  function GetApprovals(b: Bank, id: nat, reqId: nat): (r: Result<nat>)
    ensures r.Ok? <==> HasRequest(b, id, reqId)
    ensures r.Ok? ==> r.value == Withdrawals.Approvals(b.accounts[id].requests[reqId])
  {
    if id >= |b.accounts| then Revert(NoSuchAccount)
    else if reqId >= |b.accounts[id].requests| then Revert(NoSuchRequest)
    else Ok(Withdrawals.Approvals(b.accounts[id].requests[reqId]))
  }

  /** `withdraw`: the requester releases an approved, not yet executed
      request. The request is marked executed and the balance reduced
      before the returned transfer is paid out, so a call made during the
      payout already sees the booked state. */
  function Withdraw(b: Bank, caller: Address, id: nat, reqId: nat): (r: Result<(Bank, Transfer)>)
    ensures r.Ok? <==>
      && HasRequest(b, id, reqId)
      && caller == b.accounts[id].requests[reqId].creator
      && !b.accounts[id].requests[reqId].executed
      && Withdrawals.Approvals(b.accounts[id].requests[reqId]) >= 1
      && b.accounts[id].requests[reqId].amount <= b.accounts[id].balance
    ensures HasRequest(b, id, reqId) && caller != b.accounts[id].requests[reqId].creator ==>
      r == Revert(NotRequestCreator)
    ensures (&& HasRequest(b, id, reqId)
             && caller == b.accounts[id].requests[reqId].creator
             && b.accounts[id].requests[reqId].executed)
            ==> r == Revert(AlreadyExecuted)
    ensures r.Ok? ==> r.value.1 == Transfer(caller, b.accounts[id].requests[reqId].amount)
    ensures r.Ok? ==> OnlyAccountChanged(b, r.value.0, id)
    ensures r.Ok? ==>
      var acc, acc' := b.accounts[id], r.value.0.accounts[id];
      && acc'.owners == acc.owners
      && acc'.balance + acc.requests[reqId].amount == acc.balance
      && |acc'.requests| == |acc.requests|
      && (forall k :: 0 <= k < |acc.requests| && k != reqId ==> acc'.requests[k] == acc.requests[k])
      && Withdrawals.Evolves(acc.requests[reqId], acc'.requests[reqId])
      && acc'.requests[reqId].executed
      && acc'.requests[reqId].approvers == acc.requests[reqId].approvers
  {
    if id >= |b.accounts| then Revert(NoSuchAccount)
    else if reqId >= |b.accounts[id].requests| then Revert(NoSuchRequest)
    else
      var acc := b.accounts[id];
      var req := acc.requests[reqId];
      if caller != req.creator then Revert(NotRequestCreator)
      else if req.executed then Revert(AlreadyExecuted)
      else if Withdrawals.Approvals(req) < 1 then Revert(NotApproved)
      else if req.amount > acc.balance then Revert(InsufficientBalance)
      else
        // effects first: the request is booked as executed and the balance
        // reduced; the transfer is the caller's last step
        var booked := acc.(
          requests := acc.requests[reqId := Withdrawals.MarkExecuted(req)],
          balance := acc.balance - req.amount);
        Ok((b.(accounts := b.accounts[id := booked]), Transfer(caller, req.amount)))
  }

  /** A state-changing transaction, as sent by `caller`. */
  datatype Call =
    | CreateAccountCall(caller: Address, others: seq<Address>)
    | DepositCall(caller: Address, id: nat, amount: nat)
    | RequestCall(caller: Address, id: nat, amount: nat)
    | ApproveCall(caller: Address, id: nat, reqId: nat)
    | WithdrawCall(caller: Address, id: nat, reqId: nat)

  /** The state after one transaction: the committed state, or the
      unchanged state when the call reverts. */
  function Step(b: Bank, c: Call): Bank {
    match c
    case CreateAccountCall(caller, others) =>
      var r := CreateAccount(b, caller, others);
      if r.Ok? then r.value.0 else b
    case DepositCall(caller, id, amount) =>
      var r := Deposit(b, caller, id, amount);
      if r.Ok? then r.value else b
    case RequestCall(caller, id, amount) =>
      var r := RequestWithdrawal(b, caller, id, amount);
      if r.Ok? then r.value.0 else b
    case ApproveCall(caller, id, reqId) =>
      var r := ApproveWithdrawal(b, caller, id, reqId);
      if r.Ok? then r.value else b
    case WithdrawCall(caller, id, reqId) =>
      var r := Withdraw(b, caller, id, reqId);
      if r.Ok? then r.value.0 else b
  }

  /** The state after a sequence of transactions, applied in order. */
  function Run(b: Bank, calls: seq<Call>): Bank
    decreases |calls|
  {
    if |calls| == 0 then b else Run(Step(b, calls[0]), calls[1..])
  }
}
