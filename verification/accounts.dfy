/** A joint account: its fixed owner list, the balance it holds in custody
    and its append-only list of withdrawal requests, the position in that
    list being the request's id. */
module Accounts {
  import opened Identities
  import Withdrawals

  /** At most this many owners per account, the creator included. */
  const MaxOwners: nat := 4

  datatype Account = Account(
    owners: seq<Address>,
    balance: nat,
    requests: seq<Withdrawals.Request>)

  predicate IsOwner(acc: Account, who: Address) {
    who in acc.owners
  }

  /** One to four distinct owners, and every request well formed against them. */
  ghost predicate Valid(acc: Account) {
    && Distinct(acc.owners)
    && 1 <= |acc.owners| <= MaxOwners
    && (forall k :: 0 <= k < |acc.requests| ==> Withdrawals.Valid(acc.requests[k], acc.owners))
  }

  /** `later` is a possible future of `acc`: the owners never change,
      requests are only appended, and each existing request evolves. */
  ghost predicate Evolves(acc: Account, later: Account) {
    && later.owners == acc.owners
    && |acc.requests| <= |later.requests|
    && (forall k :: 0 <= k < |acc.requests| ==> Withdrawals.Evolves(acc.requests[k], later.requests[k]))
  }

  /** An account that is left alone has evolved. */
  lemma EvolvesReflexive(acc: Account)
    ensures Evolves(acc, acc)
  {
    forall k | 0 <= k < |acc.requests|
      ensures Withdrawals.Evolves(acc.requests[k], acc.requests[k])
    {
      Withdrawals.EvolvesReflexive(acc.requests[k]);
    }
  }

  lemma EvolvesTransitive(a: Account, b: Account, c: Account)
    requires Evolves(a, b) && Evolves(b, c)
    ensures Evolves(a, c)
  {
    forall k | 0 <= k < |a.requests|
      ensures Withdrawals.Evolves(a.requests[k], c.requests[k])
    {
      Withdrawals.EvolvesTransitive(a.requests[k], b.requests[k], c.requests[k]);
    }
  }
}
