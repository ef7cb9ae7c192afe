/**
  * Merge-on-insert: a new obligation is added onto the first record for the
  * same ordered pair of parties, or appended when there is none.
  */
module Merge {
  import opened Wrappers
  import opened Records

  predicate IsPair(r: Record, debtor: string, creditor: string)
  {
    r.debtor == debtor && r.creditor == creditor
  }

  /** The first record for the ordered pair `(debtor, creditor)`, if any. */
  function FirstPairIdx(ds: seq<Record>, debtor: string, creditor: string): (i: Option<nat>)
    ensures i.Some? ==>
      i.value < |ds| && IsPair(ds[i.value], debtor, creditor) &&
      forall j :: 0 <= j < i.value ==> !IsPair(ds[j], debtor, creditor)
    ensures i.None? ==> forall j :: 0 <= j < |ds| ==> !IsPair(ds[j], debtor, creditor)
  {
    if ds == [] then None
    else if IsPair(ds[0], debtor, creditor) then Some(0)
    else match FirstPairIdx(ds[1..], debtor, creditor)
      case None => None
      case Some(k) => Some(k + 1)
  }

  /** The ledger after `amount` is recorded from `debtor` to `creditor`, before netting. */
  function Merged(ds: seq<Record>, debtor: string, creditor: string, amount: int): (r: seq<Record>)
    ensures (exists i :: 0 <= i < |ds| && IsPair(ds[i], debtor, creditor)) ==>
      |r| == |ds| &&
      exists i :: 0 <= i < |ds| && IsPair(ds[i], debtor, creditor) &&
        (forall j :: 0 <= j < i ==> !IsPair(ds[j], debtor, creditor)) &&
        r == ds[i := Record(debtor, creditor, ds[i].amount + amount)]
    ensures (forall i :: 0 <= i < |ds| ==> !IsPair(ds[i], debtor, creditor)) ==>
      r == ds + [Record(debtor, creditor, amount)]
    ensures WellFormed(ds) && amount > 0 && debtor != creditor ==> WellFormed(r)
  {
    match FirstPairIdx(ds, debtor, creditor)
    case Some(i) =>
      var r := ds[i := ds[i].(amount := ds[i].amount + amount)];
      assert WellFormed(ds) && amount > 0 ==> WellFormed(r) by {
        if WellFormed(ds) && amount > 0 {
          forall x | x in r ensures Proper(x) {
            var k :| 0 <= k < |r| && r[k] == x;
            assert ds[k] in ds;
          }
        }
      }
      r
    case None => ds + [Record(debtor, creditor, amount)]
  }

  /**
    * Recording a debt lowers the debtor's balance by the amount, raises the
    * creditor's by the amount and leaves every other party's balance alone.
    */
  lemma MergedBalance(ds: seq<Record>, debtor: string, creditor: string, amount: int, p: string)
    ensures Balance(p, Merged(ds, debtor, creditor, amount)) ==
      Balance(p, ds) + (if p == creditor then amount else 0) - (if p == debtor then amount else 0)
  {
    var r := Merged(ds, debtor, creditor, amount);
    match FirstPairIdx(ds, debtor, creditor)
    case Some(i) =>
      TotalUpdate(ds, i, r[i], ShareOf(p));
    case None =>
      TotalConcat(ds, [Record(debtor, creditor, amount)], ShareOf(p));
      TotalSingleton(Record(debtor, creditor, amount), ShareOf(p));
  }

  /** Recording a debt makes only its debtor a new debtor and only its creditor a new creditor. */
  lemma MergedParties(ds: seq<Record>, debtor: string, creditor: string, amount: int)
    ensures var r := Merged(ds, debtor, creditor, amount);
      Debtors(r) <= Debtors(ds) + {debtor} && Creditors(r) <= Creditors(ds) + {creditor}
  {
    var r := Merged(ds, debtor, creditor, amount);
    forall x | x in r ensures x in ds || IsPair(x, debtor, creditor) {
      var k :| 0 <= k < |r| && r[k] == x;
      if k < |ds| && x != ds[k] {
        assert IsPair(x, debtor, creditor);
      } else if k < |ds| {
        assert ds[k] in ds;
      }
    }
  }
}
