/** `addDebt` without its file write: merge, then net the debtor, then the creditor. */
module Insertion {
  import opened Wrappers
  import opened Records
  import opened Merge
  import opened Netting

  /** The ledger after `addDebt`: both parties of the new debt are left with nothing to net. */
  function Added(ds: seq<Record>, debtor: string, creditor: string, amount: int): (r: seq<Record>)
    requires WellFormed(ds) && amount > 0 && debtor != creditor
    ensures WellFormed(r) && !Pending(r, debtor) && !Pending(r, creditor)
  {
    var once := Reduced(Merged(ds, debtor, creditor, amount), debtor);
    ReducedParties(once, creditor);
    PendingIff(once, debtor);
    PendingIff(Reduced(once, creditor), debtor);
    Reduced(once, creditor)
  }

  /**
    * A ledger in which no party both owes and is owed stays so after every
    * `addDebt`; in particular it never holds debts in both directions between
    * two parties.
    */
  lemma AddedKeepsPartiesSettled(ds: seq<Record>, debtor: string, creditor: string, amount: int)
    requires WellFormed(ds) && amount > 0 && debtor != creditor
    requires forall v :: !Pending(ds, v)
    ensures forall v :: !Pending(Added(ds, debtor, creditor, amount), v)
    ensures var r := Added(ds, debtor, creditor, amount);
      forall x, y | x in r && y in r :: !(x.debtor == y.creditor && x.creditor == y.debtor)
  {
    var merged := Merged(ds, debtor, creditor, amount);
    var once := Reduced(merged, debtor);
    var r := Added(ds, debtor, creditor, amount);
    MergedParties(ds, debtor, creditor, amount);
    ReducedParties(merged, debtor);
    ReducedParties(once, creditor);
    forall v ensures !Pending(r, v) {
      PendingIff(r, v);
      if v != debtor && v != creditor {
        PendingIff(ds, v);
      }
    }
    forall x, y | x in r && y in r ensures !(x.debtor == y.creditor && x.creditor == y.debtor) {
      // a debt in each direction would leave `x.debtor` both owing and owed
      assert Proper(y);
      PendingIff(r, x.debtor);
    }
  }

  /**
    * After recording a debt and netting both ends, the debtor's balance is
    * lower by the amount, the creditor's higher by the amount, and every other
    * party's balance is what it was.
    */
  lemma AddedBalance(ds: seq<Record>, debtor: string, creditor: string, amount: int, p: string)
    requires WellFormed(ds) && amount > 0 && debtor != creditor
    ensures Balance(p, Added(ds, debtor, creditor, amount)) ==
      Balance(p, ds) + (if p == creditor then amount else 0) - (if p == debtor then amount else 0)
  {
    var merged := Merged(ds, debtor, creditor, amount);
    MergedBalance(ds, debtor, creditor, amount, p);
    ReducedConservesBalance(merged, debtor, p);
    ReducedConservesBalance(Reduced(merged, debtor), creditor, p);
  }

  /** Recording a debt on an empty ledger stores it as it is. */
  lemma AddToEmpty()
    ensures Added([], "A", "B", 10) == [Record("A", "B", 10)]
  {
    var ds := [Record("A", "B", 10)];
    assert !Pending(ds, "A") by { assert FirstCreditIdx(ds, "A") == None; }
    assert !Pending(ds, "B") by { assert FirstDebtIdx(ds, "B") == None; }
  }

  /** A second debt for the same pair is merged, not stored twice. */
  lemma AddMergesSamePair()
    ensures Added([Record("A", "B", 10)], "A", "B", 5) == [Record("A", "B", 15)]
  {
    var ds := [Record("A", "B", 15)];
    assert FirstPairIdx([Record("A", "B", 10)], "A", "B") == Some(0);
    assert !Pending(ds, "A") by { assert FirstCreditIdx(ds, "A") == None; }
    assert !Pending(ds, "B") by { assert FirstDebtIdx(ds, "B") == None; }
  }

  /** A owes B 10, then B owes C 4: B is netted out of 4 of it. */
  lemma AddNetsChain()
    ensures Added([Record("A", "B", 10)], "B", "C", 4) == [Record("A", "B", 6), Record("A", "C", 4)]
  {
    var merged := [Record("A", "B", 10), Record("B", "C", 4)];
    assert FirstPairIdx([Record("A", "B", 10)], "B", "C") == None;
    assert FirstDebtIdx(merged, "B") == Some(1);
    assert FirstCreditIdx(merged, "B") == Some(0);
    assert Merged([Record("A", "B", 10)], "B", "C", 4) == merged;
    assert BypassAt(merged, 0, 1) == [Record("A", "C", 4)];
    var grown := merged + [Record("A", "C", 4)];
    var once := [Record("A", "B", 10), Record("A", "C", 4)];
    assert Decrement(grown, 1, 4) == once;
    var netted := [Record("A", "B", 6), Record("A", "C", 4)];
    assert Decrement(once, 0, 4) == netted;
    assert Step(merged, "B") == netted;
    assert !Pending(netted, "B") by { assert FirstDebtIdx(netted, "B") == None; }
    assert Reduced(merged, "B") == netted;
    assert !Pending(netted, "C") by { assert FirstDebtIdx(netted, "C") == None; }
  }

  /** A owes B 5, then B owes A 5: the two cancel and the ledger is empty. */
  lemma AddCancelsOpposite()
    ensures Added([Record("A", "B", 5)], "B", "A", 5) == []
  {
    var merged := [Record("A", "B", 5), Record("B", "A", 5)];
    assert FirstPairIdx([Record("A", "B", 5)], "B", "A") == None;
    assert FirstDebtIdx(merged, "B") == Some(1);
    assert FirstCreditIdx(merged, "B") == Some(0);
    assert Step(merged, "B") == [];
  }

  /**
    * The bypass is appended, not merged, so a pair can end up with two
    * records: A owes C 1 and B 10, then B owes C 4.
    */
  lemma BypassMayRepeatPair()
    ensures Added([Record("A", "C", 1), Record("A", "B", 10)], "B", "C", 4) ==
      [Record("A", "C", 1), Record("A", "B", 6), Record("A", "C", 4)]
  {
    var merged := [Record("A", "C", 1), Record("A", "B", 10), Record("B", "C", 4)];
    assert FirstPairIdx([Record("A", "C", 1), Record("A", "B", 10)], "B", "C") == None;
    assert Merged([Record("A", "C", 1), Record("A", "B", 10)], "B", "C", 4) == merged;
    assert FirstDebtIdx(merged, "B") == Some(2);
    assert FirstCreditIdx(merged, "B") == Some(1);
    assert Bypass(merged, "B") == [Record("A", "C", 4)];
    var grown := merged + [Record("A", "C", 4)];
    var once := [Record("A", "C", 1), Record("A", "B", 10), Record("A", "C", 4)];
    assert Decrement(grown, 2, 4) == once;
    var netted := [Record("A", "C", 1), Record("A", "B", 6), Record("A", "C", 4)];
    assert Decrement(once, 1, 4) == netted;
    assert Step(merged, "B") == netted;
    assert !Pending(netted, "B") by { assert FirstDebtIdx(netted, "B") == None; }
    assert Reduced(merged, "B") == netted;
    assert !Pending(netted, "C") by { assert FirstDebtIdx(netted, "C") == None; }
  }
}
