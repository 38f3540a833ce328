/** A withdrawal request inside a joint account: who asked, how much, which
    co-owners have approved it, and whether its funds have been released. */
module Withdrawals {
  import opened Identities

  datatype Request = Request(
    creator: Address,
    amount: nat,
    approvers: seq<Address>,
    executed: bool)

  /** A freshly filed request: no approvals yet, not executed. */
  function NewRequest(creator: Address, amount: nat): Request {
    Request(creator, amount, [], false)
  }

  /** The number `getApprovals` reports for this request. */
  function Approvals(r: Request): nat {
    |r.approvers|
  }

  /** What every recorded request satisfies, relative to the owner list of
      its account: the creator is an owner, the amount is positive, and the
      approvers are distinct owners other than the creator. */
  ghost predicate Valid(r: Request, owners: seq<Address>) {
    && r.creator in owners
    && r.amount > 0
    && Distinct(r.approvers)
    && r.creator !in r.approvers
    && (forall a :: a in r.approvers ==> a in owners)
  }

  /** `later` is a possible future of `r`: creator and amount are fixed,
      approvals are only appended, `executed` only goes from false to true,
      and an executed request is never touched again. */
  ghost predicate Evolves(r: Request, later: Request) {
    && later.creator == r.creator
    && later.amount == r.amount
    && |r.approvers| <= |later.approvers|
    && later.approvers[..|r.approvers|] == r.approvers
    && (r.executed ==> later == r)
  }

  /** Records one more approval. */
  function AddApproval(r: Request, who: Address): (later: Request)
    requires !r.executed
    ensures Evolves(r, later)
    ensures Approvals(later) == Approvals(r) + 1
    ensures forall a :: a in later.approvers <==> a in r.approvers || a == who
    ensures !later.executed
  {
    r.(approvers := r.approvers + [who])
  }

  /** Marks the request as paid out. */
  function MarkExecuted(r: Request): (later: Request)
    requires !r.executed
    ensures Evolves(r, later)
    ensures later.executed
    ensures later.approvers == r.approvers
  {
    r.(executed := true)
  }

  /** A request that is left alone has evolved. */
  lemma EvolvesReflexive(r: Request)
    ensures Evolves(r, r)
  {
    assert r.approvers[..|r.approvers|] == r.approvers;
  }

  lemma EvolvesTransitive(a: Request, b: Request, c: Request)
    requires Evolves(a, b) && Evolves(b, c)
    ensures Evolves(a, c)
  {
    assert c.approvers[..|a.approvers|] == c.approvers[..|b.approvers|][..|a.approvers|];
  }
}
