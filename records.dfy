/**
  * The ledger's data: an ordered list of obligation records "debtor owes
  * creditor amount", and the sums over it that the netting must respect.
  */
module Records {

  datatype Record = Record(debtor: string, creditor: string, amount: int)

  /** A record the ledger may hold: a positive amount between two different parties. */
  predicate Proper(r: Record) { r.amount > 0 && r.debtor != r.creditor }

  predicate WellFormed(ds: seq<Record>) { forall r | r in ds :: Proper(r) }

  /** The sum of `f` over the records. */
  function Total(ds: seq<Record>, f: Record -> int): int
  {
    if ds == [] then 0 else f(ds[0]) + Total(ds[1..], f)
  }

  lemma {:induction false} TotalConcat(a: seq<Record>, b: seq<Record>, f: Record -> int)
    ensures Total(a + b, f) == Total(a, f) + Total(b, f)
  {
    if a != [] {
      assert (a + b)[1..] == a[1..] + b;
      TotalConcat(a[1..], b, f);
    } else {
      assert a + b == b;
    }
  }

  lemma TotalSingleton(r: Record, f: Record -> int)
    ensures Total([r], f) == f(r)
  {
    assert [r][1..] == [];
  }

  /** Replacing one record changes the sum by the difference of the two. */
  lemma TotalUpdate(ds: seq<Record>, i: nat, x: Record, f: Record -> int)
    requires i < |ds|
    ensures Total(ds[i := x], f) == Total(ds, f) - f(ds[i]) + f(x)
  {
    assert ds == ds[..i] + [ds[i]] + ds[i + 1..];
    assert ds[i := x] == ds[..i] + [x] + ds[i + 1..];
    TotalConcat(ds[..i] + [ds[i]], ds[i + 1..], f);
    TotalConcat(ds[..i], [ds[i]], f);
    TotalConcat(ds[..i] + [x], ds[i + 1..], f);
    TotalConcat(ds[..i], [x], f);
    TotalSingleton(ds[i], f);
    TotalSingleton(x, f);
  }

  /** What one record contributes to the net position of `p`: owed minus owing. */
  function Share(p: string, r: Record): int
  {
    (if r.creditor == p then r.amount else 0) - (if r.debtor == p then r.amount else 0)
  }

  function ShareOf(p: string): Record -> int { r => Share(p, r) }

  /** Net balance of `p`: what is owed to `p` minus what `p` owes. */
  function Balance(p: string, ds: seq<Record>): int { Total(ds, ShareOf(p)) }

  /** The parties that owe something. */
  function Debtors(ds: seq<Record>): set<string> { set r | r in ds :: r.debtor }

  /** The parties that are owed something by someone else. */
  function Creditors(ds: seq<Record>): set<string> { set r | r in ds && r.debtor != r.creditor :: r.creditor }

  predicate Touches(u: string, r: Record) { r.debtor == u || r.creditor == u }

  function ExposureIn(u: string, r: Record): int { if Touches(u, r) then r.amount else 0 }

  function ExposureOf(u: string): Record -> int { r => ExposureIn(u, r) }

  /** Sum of the amounts of the records that `u` takes part in. */
  function Exposure(u: string, ds: seq<Record>): int { Total(ds, ExposureOf(u)) }

  lemma {:induction false} ExposureNonNegative(u: string, ds: seq<Record>)
    requires WellFormed(ds)
    ensures Exposure(u, ds) >= 0
  {
    if ds != [] {
      assert ds[0] in ds;
      assert WellFormed(ds[1..]) by {
        forall r | r in ds[1..] ensures Proper(r) { assert r in ds; }
      }
      ExposureNonNegative(u, ds[1..]);
    }
  }
}
