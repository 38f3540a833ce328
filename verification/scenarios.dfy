/** The scenarios of the repository's test suite, replayed on the model
    with arbitrary distinct addresses `a0` … `a4` in place of the test
    signers. */
module Scenarios {
  import opened Identities
  import opened Outcomes
  import Withdrawals
  import Accounts
  import opened Ledger
  import LedgerProofs

  /** The tests' standard opening: in a fresh ledger `a0` creates account 0
      with `others` as co-owners, then deposits `amount` into it if positive. */
  function SetupAccount(a0: Address, others: seq<Address>, amount: nat): (b: Bank)
    requires a0 !in others && Distinct(others) && |others| < Accounts.MaxOwners
    ensures Valid(b)
    ensures |b.accounts| == 1
    ensures b.accounts[0] == Accounts.Account([a0] + others, amount, [])
  {
    assert Valid(Empty);
    LedgerProofs.CreateAccountPreservesValid(Empty, a0, others);
    var created := CreateAccount(Empty, a0, others).value.0;
    if amount > 0 then
      LedgerProofs.DepositPreservesValid(created, a0, 0, amount);
      Deposit(created, a0, 0, amount).value
    else created
  }

  /** A fresh ledger accepts an account with one to four distinct owners,
      signals its creation, and lists it once for every owner. */
  lemma CreateWithUpToFourOwners(a0: Address, others: seq<Address>)
    requires a0 !in others && Distinct(others) && |others| <= 3
    ensures CreateAccount(Empty, a0, others).Ok?
    ensures CreateAccount(Empty, a0, others).value.1 == AccountCreated([a0] + others, 0)
    ensures forall who :: who == a0 || who in others ==> GetAccounts(CreateAccount(Empty, a0, others).value.0, who) == [0]
  {
  }

  /** Naming oneself, or the same co-owner twice, is refused. */
  lemma DuplicatedOwnerRejected(b: Bank, a0: Address, a1: Address, a2: Address)
    ensures CreateAccount(b, a0, [a0]) == Revert(DuplicateOwner)
    ensures CreateAccount(b, a0, [a1, a2, a1]) == Revert(DuplicateOwner)
  {
    assert !Distinct([a1, a2, a1]) by {
      assert [a1, a2, a1][0] == [a1, a2, a1][2];
    }
  }

  /** Four co-owners plus the creator is one owner too many. */
  lemma FiveOwnersRejected(b: Bank, a0: Address, a1: Address, a2: Address, a3: Address, a4: Address)
    ensures CreateAccount(b, a0, [a1, a2, a3, a4]).Revert?
  {
  }

  /** After three single-owner accounts, a fourth by the same creator is refused. */
  lemma FourthAccountRejected(a0: Address)
    ensures
      var b1 := CreateAccount(Empty, a0, []).value.0;
      var b2 := CreateAccount(b1, a0, []).value.0;
      var b3 := CreateAccount(b2, a0, []).value.0;
      CreateAccount(b3, a0, []) == Revert(OwnerAccountLimit)
  {
    var b1 := CreateAccount(Empty, a0, []).value.0;
    assert AccountCount(b1, a0) == 1;
    var b2 := CreateAccount(b1, a0, []).value.0;
    assert AccountCount(b2, a0) == 2;
    var b3 := CreateAccount(b2, a0, []).value.0;
    assert AccountCount(b3, a0) == 3;
  }

  /** Someone already owning three accounts cannot be named as a co-owner. */
  lemma CoOwnerAtLimitRejected(a1: Address, a2: Address)
    requires a1 != a2
    ensures
      var b1 := CreateAccount(Empty, a1, []).value.0;
      var b2 := CreateAccount(b1, a1, []).value.0;
      var b3 := CreateAccount(b2, a1, []).value.0;
      CreateAccount(b3, a2, [a1]) == Revert(OwnerAccountLimit)
  {
    var b1 := CreateAccount(Empty, a1, []).value.0;
    assert AccountCount(b1, a1) == 1 && AccountCount(b1, a2) == 0;
    var b2 := CreateAccount(b1, a1, []).value.0;
    assert AccountCount(b2, a1) == 2 && AccountCount(b2, a2) == 0;
    var b3 := CreateAccount(b2, a1, []).value.0;
    assert AccountCount(b3, a1) == 3 && AccountCount(b3, a2) == 0;
  }

  /** The owner's deposit of 100 lands in the account; a stranger's is refused. */
  lemma DepositByOwnerOnly(a0: Address, a1: Address)
    requires a0 != a1
    ensures Deposit(SetupAccount(a0, [], 0), a0, 0, 100).Ok?
    ensures Deposit(SetupAccount(a0, [], 0), a0, 0, 100).value.accounts[0].balance == 100
    ensures Deposit(SetupAccount(a0, [], 0), a1, 0, 100) == Revert(NotOwner)
  {
  }

  /** With 100 deposited: requesting 100 succeeds, 101 is refused, a
      stranger is refused, and with two owners requests of 90 and then 10
      both succeed. */
  lemma RequestScenarios(a0: Address, a1: Address)
    requires a0 != a1
    ensures RequestWithdrawal(SetupAccount(a0, [], 100), a0, 0, 100).Ok?
    ensures RequestWithdrawal(SetupAccount(a0, [], 100), a0, 0, 101) == Revert(InsufficientBalance)
    ensures RequestWithdrawal(SetupAccount(a0, [], 100), a1, 0, 101) == Revert(NotOwner)
    ensures
      var first := RequestWithdrawal(SetupAccount(a0, [a1], 100), a0, 0, 90);
      first.Ok? && RequestWithdrawal(first.value.0, a1, 0, 10).Ok?
  {
  }

  /** Account 0 owned by `a0` and `a1` holding 100, with one request by
      `a0` of `x`. */
  function OneRequest(a0: Address, a1: Address, x: nat): (b: Bank)
    requires a0 != a1
    requires 0 < x <= 100
    ensures Valid(b)
    ensures |b.accounts| == 1 && b.accounts[0].balance == 100
    ensures b.accounts[0].owners == [a0, a1]
    ensures b.accounts[0].requests == [Withdrawals.NewRequest(a0, x)]
  {
    var b0 := SetupAccount(a0, [a1], 100);
    LedgerProofs.RequestWithdrawalPreservesValid(b0, a0, 0, x);
    RequestWithdrawal(b0, a0, 0, x).value.0
  }

  /** The same account with requests by `a0` of `x` and then `y`. */
  function TwoRequests(a0: Address, a1: Address, x: nat, y: nat): (b: Bank)
    requires a0 != a1
    requires 0 < x <= 100 && 0 < y <= 100
    ensures Valid(b)
    ensures |b.accounts| == 1 && b.accounts[0].balance == 100
    ensures |b.accounts[0].requests| == 2
    ensures b.accounts[0].requests[0] == Withdrawals.NewRequest(a0, x)
    ensures b.accounts[0].requests[1] == Withdrawals.NewRequest(a0, y)
  {
    var b1 := OneRequest(a0, a1, x);
    LedgerProofs.RequestWithdrawalPreservesValid(b1, a0, 0, y);
    RequestWithdrawal(b1, a0, 0, y).value.0
  }

  /** The co-owner approves both requests, and each then has one approval. */
  lemma ApproveBothRequests(a0: Address, a1: Address)
    requires a0 != a1
    ensures
      var b := TwoRequests(a0, a1, 10, 20);
      var r0 := ApproveWithdrawal(b, a1, 0, 0);
      && r0.Ok?
      && var r1 := ApproveWithdrawal(r0.value, a1, 0, 1);
      && r1.Ok?
      && GetApprovals(r1.value, 0, 0) == Ok(1)
      && GetApprovals(r1.value, 0, 1) == Ok(1)
  {
  }

  /** Each on an account with a single pending request by `a0`: a
      stranger's approval of 20 is refused, a co-owner's second approval of
      50 is refused, and the requester's own approval of 20 is refused. */
  lemma ApprovalRefusals(a0: Address, a1: Address, a2: Address)
    requires a0 != a1 && a2 != a0 && a2 != a1
    ensures ApproveWithdrawal(OneRequest(a0, a1, 20), a2, 0, 0) == Revert(NotOwner)
    ensures
      var once := ApproveWithdrawal(OneRequest(a0, a1, 50), a1, 0, 0);
      once.Ok? && ApproveWithdrawal(once.value, a1, 0, 0) == Revert(AlreadyApproved)
    ensures ApproveWithdrawal(OneRequest(a0, a1, 20), a0, 0, 0) == Revert(CreatorCannotApprove)
  {
  }

  /** With 200 deposited and a request of 100 approved by the co-owner:
      the co-owner cannot withdraw it, the requester receives 100 once,
      and a second withdrawal is refused although 100 remain. */
  lemma WithdrawScenarios(a0: Address, a1: Address)
    requires a0 != a1
    ensures
      var b0 := SetupAccount(a0, [a1], 200);
      var b1 := RequestWithdrawal(b0, a0, 0, 100).value.0;
      var b2 := ApproveWithdrawal(b1, a1, 0, 0).value;
      var paid := Withdraw(b2, a0, 0, 0);
      && Withdraw(b2, a1, 0, 0) == Revert(NotRequestCreator)
      && paid.Ok?
      && paid.value.1 == Transfer(a0, 100)
      && paid.value.0.accounts[0].balance == 100
      && Withdraw(paid.value.0, a0, 0, 0) == Revert(AlreadyExecuted)
  {
  }
}
