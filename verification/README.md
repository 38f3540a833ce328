# Joint bank-account ledger

A Dafny model of the `BankAccount` ledger that the repository's test suite
exercises: accounts held jointly by one to four owners, deposits, and a
two-phase withdrawal protocol in which an owner files a request, another
owner approves it, and the requester then executes it. The contract's own
source is not part of this model. `test/BankAccount.js` is the only
evidence of its behaviour. Each of its ledger test cases is restated here
as a lemma.

The ledger is a state machine over immutable values:

- `Identities`: addresses, duplicate-free lists (`Distinct`) and the
  duplicate scan that account creation runs.
- `Withdrawals`: a request records its creator, its amount, its approvers
  (a list without repeats; `getApprovals` is its length) and an
  `executed` flag.
- `Accounts`: an account has an owner list, a balance and an append-only
  list of requests. A request's id is its position in that list.
- `Outcomes`: a call either commits (`Ok`) or reverts as a whole
  (`Revert(error)`).
- `Ledger`: the registry `Bank(accounts, userAccounts)`. Account ids are
  positions in `accounts`. `userAccounts` maps each address to the ids of
  the accounts it owns. This module holds the operations `CreateAccount`,
  `Deposit`, `RequestWithdrawal` (`requestWithdrawl` in the tests),
  `ApproveWithdrawal` (`approveWithdrawl`), `GetApprovals`, `Withdraw` and
  `GetAccounts`. `Step` and `Run` apply transactions one after another; a
  reverted transaction leaves the state as it was.
- `LedgerProofs`: every transaction preserves the ledger invariants.
  History only moves forward. A request pays out at most once.
- `Scenarios`: the test cases, replayed with arbitrary distinct addresses
  in place of the test signers.

The tests only check that a call succeeded or "reverted". They do not
check the reason or the order of the checks. The model makes its checks in
this order:

- `createAccount`: the caller is named among the co-owners, or a co-owner
  is named twice; more than four owners; the caller already owns three
  accounts; a co-owner already owns three accounts.
- `deposit`: the account does not exist; the caller is not an owner; the
  amount is zero.
- `requestWithdrawl`: the account does not exist; the caller is not an
  owner; the amount is zero; the amount exceeds the current balance.
- `approveWithdrawl`: the account or the request does not exist; the
  caller is not an owner; the caller created the request; the caller has
  already approved; the request is already executed.
- `withdraw`: the account or the request does not exist; the caller did
  not create the request; the request is already executed; it has no
  approval; its amount exceeds the current balance.

Some conditions are modelling assumptions that the tests never exercise:

- zero deposits and zero requests are refused;
- a request is checked against the current balance only; pending requests
  reserve nothing;
- `withdraw` re-checks the amount against the balance at execution time;
- approving an executed request is refused;
- one approval from any other owner is enough to withdraw;
- `withdraw` refuses a request that has no approval;
- every call that names a missing account or request reverts
  (`NoSuchAccount` or `NoSuchRequest`), `getApprovals` included.

On the "one approval" point: every withdrawal test uses a two-owner
account. There, "one approval" and "every other owner approved" are the
same condition, so the tests cannot tell them apart. Likewise every
withdrawal test approves the request before withdrawing
(`test/BankAccount.js:262`, `275`, `290`), so the refusal of an unapproved
request is the model's choice.

On reservation: the model judges a request against the balance alone and
lets two pending requests together exceed it
(`LedgerProofs.RequestsDoNotReserve`). The test that files 90 and then 10
against a balance of 100 (`test/BankAccount.js:194-202`) fits this reading,
but it fits a reserving ledger just as well, since 90 + 10 equals the
balance. No test files requests whose total exceeds the balance.

`withdraw` marks the request executed and reduces the balance before the
payout. The payout is returned as a `Transfer` value for the caller to
send last. A call made during the payout therefore sees the request
already executed (`LedgerProofs.WithdrawAtMostOnce` covers any calls
between the two withdrawals).

The test at `test/BankAccount.js:157` and `:165` passes the number `1` to
`setupAccount`, which takes an options object. The defaults therefore apply:
one owner and no deposit. `Scenarios.DepositByOwnerOnly` replays that setup.

## Model

| member | source | states |
|---|---|---|
| Identities.HasDuplicate | test/BankAccount.js:118-120 | the scan of a co-owner list reports a repeat exactly when some identity occurs twice |
| Ledger.Register | test/BankAccount.js:63-109 | creating an account appends its id to the account list of each of its owners, once each, and leaves every other address's list unchanged |
| Ledger.CreateAccount | test/BankAccount.js:53-152 | creation succeeds iff the caller is not among the co-owners, no co-owner repeats, there are at most four owners, and neither the caller nor any co-owner already owns three accounts; a self-listing or repeated co-owner is refused as a duplicate; on success the new account has the caller and co-owners as owners, zero balance and no requests, gets the next id, is announced by an `AccountCreated` event, and is listed for each owner |
| Ledger.Deposit | test/BankAccount.js:156-169 | a deposit succeeds iff the account exists, the caller owns it and the amount is positive; a non-owner is refused; on success only that account's balance changes, and it rises by exactly the amount |
| Ledger.RequestWithdrawal | test/BankAccount.js:174-202 | a request succeeds iff the caller owns the account and the amount is positive and at most the current balance (the full balance included); non-owners and amounts above the balance are refused; on success a fresh unapproved, unexecuted request by the caller is appended, its id is its position, and the balance is untouched |
| Ledger.ApproveWithdrawal | test/BankAccount.js:206-251 | an approval succeeds iff the request exists, the caller owns the account, did not create the request, has not approved it yet, and it is not executed; non-owner, self and repeated approvals are refused with their own reasons; on success only that request changes, gaining the caller as its one new approver |
| Ledger.GetApprovals | test/BankAccount.js:216-217 | a count is returned exactly when the account and the request exist (the tests query only existing requests; the revert otherwise is a modelling assumption), and it is the number of recorded approvals (distinct owners other than the requester, by `LedgerProofs.ReachableValid`) |
| Ledger.Withdraw | test/BankAccount.js:255-291 | a withdrawal succeeds iff the caller created the request, it is not executed, it has at least one approval (every test approves first, so this necessity is a modelling assumption), and its amount fits the balance; others than the creator are refused, as is a second execution; on success the creator is paid exactly the amount, the balance drops by exactly the amount, the request becomes executed with its approvals kept, and nothing else changes |
| Withdrawals.AddApproval | test/BankAccount.js:213-217 | an approval adds exactly one approver, keeps the earlier approvers in order and leaves the request unexecuted |
| Withdrawals.MarkExecuted | test/BankAccount.js:268-281 | executing a request flips its flag to true and keeps creator, amount and approvals |
| LedgerProofs.ChangeOneAccount | test/BankAccount.js:155-294 | a transaction that changes only one account's balance or requests, keeps its owners and keeps it well formed, keeps the whole ledger valid |
| LedgerProofs.AppendAccount | test/BankAccount.js:53-109 | adding an account with one to four distinct owners, none at the three-account limit, and listing it for each owner keeps the ledger valid |
| LedgerProofs.CreateAccountPreservesValid | test/BankAccount.js:53-152 | a successful `createAccount` keeps every ledger invariant |
| LedgerProofs.DepositPreservesValid | test/BankAccount.js:156-169 | a successful `deposit` keeps every ledger invariant |
| LedgerProofs.RequestWithdrawalPreservesValid | test/BankAccount.js:174-202 | a successful `requestWithdrawl` keeps every ledger invariant; the new request's creator is an owner and its amount is positive |
| LedgerProofs.ApproveWithdrawalPreservesValid | test/BankAccount.js:206-251 | a successful `approveWithdrawl` keeps every ledger invariant; in particular approvers stay distinct owners other than the creator |
| LedgerProofs.WithdrawPreservesValid | test/BankAccount.js:255-291 | a successful `withdraw` keeps every ledger invariant |
| LedgerProofs.StepPreservesValid | test/BankAccount.js:52-294 | every transaction, whether it commits or reverts, keeps the ledger invariants |
| LedgerProofs.RunPreservesValid | test/BankAccount.js:52-294 | any sequence of transactions from a valid ledger ends in a valid ledger |
| LedgerProofs.ReachableValid | test/BankAccount.js:53-152 | in every state reachable from deployment, each account has one to four distinct owners, nobody owns more than three accounts, `getAccounts` lists exactly and without repeats the accounts an address owns, and no request's approvers repeat or include its creator |
| LedgerProofs.GetAccountsExact | test/BankAccount.js:59-108 | in a valid ledger `getAccounts` lists exactly the accounts the address owns, each once, and at most three of them |
| LedgerProofs.EvolvesReflexive | test/BankAccount.js:52-294 | a ledger that does not change has moved forward |
| LedgerProofs.ChangeOneAccountEvolves | test/BankAccount.js:155-294 | changing one account without touching its owners, while its requests only grow and evolve, moves the ledger forward |
| LedgerProofs.StepEvolves | test/BankAccount.js:52-294 | no transaction removes an account, changes an owner list, shortens a request list, changes a request's creator or amount, withdraws an approval, or touches an executed request |
| LedgerProofs.EvolvesTransitive | test/BankAccount.js:52-294 | moving forward twice is moving forward |
| LedgerProofs.RunEvolves | test/BankAccount.js:52-294 | any sequence of transactions only moves the ledger forward |
| LedgerProofs.ExecutedIsFinal | test/BankAccount.js:268-281 | an executed request stays exactly as it is under any later transactions |
| LedgerProofs.WithdrawAtMostOnce | test/BankAccount.js:268-281 | after a successful withdrawal, no later withdrawal of the same request by anyone succeeds, whatever transactions come in between |
| LedgerProofs.ApprovalsBounded | test/BankAccount.js:206-251 | in a valid ledger a request has fewer approvals than its account has owners, hence at most three |
| LedgerProofs.RequestsDoNotReserve | test/BankAccount.js:194-202 | a modelling assumption that the 90-then-10 test is consistent with (but does not decide): a filed request reserves nothing, so a second request by any owner that fits the balance also succeeds |
| LedgerProofs.ApprovedRequestPaysOut | test/BankAccount.js:255-266 | request, one approval by another owner, then withdrawal by the requester: the approval count is 1, the requester is paid exactly the amount, the balance falls by exactly that amount and the request is executed |
| Scenarios.SetupAccount | test/BankAccount.js:15-44 | the tests' opening state is a valid ledger with one account, owned by the creator and the listed co-owners, holding the deposit and no requests |
| Scenarios.CreateWithUpToFourOwners | test/BankAccount.js:53-109 | a fresh ledger accepts one to four distinct owners, emits `AccountCreated` for account 0, and lists account 0 once for every owner |
| Scenarios.DuplicatedOwnerRejected | test/BankAccount.js:111-121 | listing oneself, or `[a1, a2, a1]`, is refused as a duplicate owner |
| Scenarios.FiveOwnersRejected | test/BankAccount.js:123-129 | four co-owners plus the creator are refused |
| Scenarios.FourthAccountRejected | test/BankAccount.js:131-139 | a fourth account by the same creator is refused for the account limit |
| Scenarios.CoOwnerAtLimitRejected | test/BankAccount.js:141-152 | naming a co-owner who already owns three accounts is refused for the account limit |
| Scenarios.DepositByOwnerOnly | test/BankAccount.js:156-169 | the owner's deposit of 100 raises the balance to 100; a non-owner's deposit is refused |
| Scenarios.RequestScenarios | test/BankAccount.js:174-202 | with 100 deposited, requests of 100 succeed, 101 and a non-owner's are refused, and 90 then 10 by two owners both succeed |
| Scenarios.OneRequest | test/BankAccount.js:221-225 | the two-owner setup with 100 deposited and one request yields a valid ledger with that single pending request by the creator |
| Scenarios.TwoRequests | test/BankAccount.js:207-211 | the setup with requests of two amounts yields a valid ledger with those two pending requests by the creator |
| Scenarios.ApproveBothRequests | test/BankAccount.js:206-218 | the co-owner approves both requests and each then reports one approval |
| Scenarios.ApprovalRefusals | test/BankAccount.js:220-251 | on an account with one pending request (of 20, 50 and 20 as in the tests), approval by a non-owner, a second approval by the same owner, and approval by the creator are refused |
| Scenarios.WithdrawScenarios | test/BankAccount.js:268-291 | the co-owner cannot withdraw; the creator is paid 100 once, leaving 100; a second withdrawal is refused as already executed |

## Left out

- Deployment, fixtures, signers and the `Deploy` case (`test/BankAccount.js:1-13`, `46-50`) are test harness, not ledger logic.
- Moving ether is not modelled. A deposit's value is the `amount` parameter. A withdrawal's payout is the returned `Transfer`, which the caller performs after the state update. Balances of external addresses (`changeEtherBalances`) are not modelled.
- A failed payout rolling back the withdrawal is not modelled. The payout happens outside the model, and a reverted transaction leaves the state unchanged.
- Reentrancy and gas are not modelled beyond the state being final before the payout.
- Amounts and balances are unbounded naturals, not 256-bit words. A deposit overflowing 2^256 cannot happen with the actual ether supply.
- The tests check only that `AccountCreated` is emitted (`test/BankAccount.js:55-58`); the model's event carries the owners and the new id.
- The tests check only how many ids `getAccounts` returns, not their order. The model lists them oldest first.
- The tests never exercise zero amounts, pending requests whose total exceeds the balance, a withdrawal above the balance at execution time, approval of an executed request, withdrawal of an unapproved request, calls naming a missing account or request, or accounts with more than two owners where a withdrawal is involved. For these cases the model follows the assumptions stated above.
