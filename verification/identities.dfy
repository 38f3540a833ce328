/** Caller identities and the duplicate-free lists of them that the ledger
    keeps: the owners of an account and the approvers of a withdrawal
    request. */
module Identities {

  /** The address a call comes from. Only equality between addresses matters. */
  type Address = nat

  /** No element occurs twice in `s`. */
  predicate Distinct<T(==)>(s: seq<T>) {
    forall i, j :: 0 <= i < j < |s| ==> s[i] != s[j]
  }

  /** The elements of `s`, forgetting order and multiplicity. */
  function Elements<T>(s: seq<T>): set<T> {
    set x | x in s
  }

  /** Scans `s` front to back for an element that occurs again later on;
      this is the check that rejects an owner list naming someone twice. */
  function HasDuplicate<T(==)>(s: seq<T>): (r: bool)
    ensures r <==> !Distinct(s)
    decreases |s|
  {
    if |s| == 0 then false
    else if s[0] in s[1..] then
      assert exists j :: 0 < j < |s| && s[0] == s[j];
      true
    else
      var rest := HasDuplicate(s[1..]);
      assert !rest ==> Distinct(s) by {
        if !rest {
          forall i, j | 0 <= i < j < |s| ensures s[i] != s[j] {
            if i == 0 {
              assert s[j] == s[1..][j - 1];
            } else {
              assert s[i] == s[1..][i - 1] && s[j] == s[1..][j - 1];
            }
          }
        }
      }
      assert rest ==> !Distinct(s) by {
        if rest {
          var i, j :| 0 <= i < j < |s[1..]| && s[1..][i] == s[1..][j];
          assert s[i + 1] == s[j + 1];
        }
      }
      rest
  }

  /** The tail of a duplicate-free list is duplicate-free and does not
      contain the head. */
  lemma DistinctTail<T>(s: seq<T>)
    requires |s| > 0 && Distinct(s)
    ensures Distinct(s[1..])
    ensures s[0] !in s[1..]
  {
    var rest := s[1..];
    forall i, j | 0 <= i < j < |rest| ensures rest[i] != rest[j] {
      assert rest[i] == s[i + 1] && rest[j] == s[j + 1];
    }
    forall j | 0 <= j < |rest| ensures rest[j] != s[0] {
      assert rest[j] == s[j + 1];
    }
  }

  /** Putting a new element in front of a duplicate-free list keeps it
      duplicate-free. */
  lemma DistinctCons<T>(x: T, s: seq<T>)
    requires Distinct(s) && x !in s
    ensures Distinct([x] + s)
  {
    var t := [x] + s;
    forall i, j | 0 <= i < j < |t| ensures t[i] != t[j] {
      assert t[j] == s[j - 1];
      if i > 0 {
        assert t[i] == s[i - 1];
      }
    }
  }

  /** Appending a new element to a duplicate-free list keeps it duplicate-free. */
  lemma DistinctSnoc<T>(s: seq<T>, x: T)
    requires Distinct(s) && x !in s
    ensures Distinct(s + [x])
  {
  }

  /** A duplicate-free list has as many elements as its length. */
  lemma {:induction false} DistinctElements<T>(s: seq<T>)
    requires Distinct(s)
    ensures |Elements(s)| == |s|
    decreases |s|
  {
    if |s| > 0 {
      var rest := s[1..];
      DistinctTail(s);
      DistinctElements(rest);
      assert Elements(s) == Elements(rest) + {s[0]} by {
        assert s == [s[0]] + rest;
      }
    }
  }

  /** A duplicate-free list drawn from `pool` is no longer than `pool` is large. */
  lemma DistinctWithin<T>(s: seq<T>, pool: set<T>)
    requires Distinct(s)
    requires forall x :: x in s ==> x in pool
    ensures |s| <= |pool|
  {
    DistinctElements(s);
    assert Elements(s) <= pool;
    SubsetCardinality(Elements(s), pool);
  }

  lemma SubsetCardinality<T>(a: set<T>, b: set<T>)
    requires a <= b
    ensures |a| <= |b|
  {
    assert b == a + (b - a);
  }
}
