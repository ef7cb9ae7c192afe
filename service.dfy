/**
  * The ledger service: the ledger object with the operations of the `debt`
  * command (load the snapshot, record a debt and net both parties, write the
  * snapshot, show statements) and the dispatch of the command's arguments.
  */
module Service {
  import opened Wrappers
  import opened Text
  import opened Numbers
  import opened Records
  import opened Merge
  import opened Netting
  import opened Insertion
  import opened SnapshotStore
  import opened QueryView

  const IncorrectUsage := "`debt`: you did something wrong."

  /** A command argument; a missing one reads as the empty string, which is just as falsy. */
  function Arg(argv: seq<string>, k: nat): string
  {
    if k < |argv| then argv[k] else ""
  }

  /** The amount of `debt add`: `parseInt` of the fifth argument, 0 for NaN. */
  function AddAmount(argv: seq<string>): int
  {
    match ParseInt(Arg(argv, 4))
    case Some(n) => n
    case None => 0
  }

  /** The argument check of `debt add` as written: debtor and creditor present, amount neither NaN nor 0. */
  predicate AcceptsAddAsWritten(argv: seq<string>)
  {
    Arg(argv, 2) != "" && Arg(argv, 3) != "" && ParseInt(Arg(argv, 4)).Some? && AddAmount(argv) != 0
  }

  /** The argument check the ledger needs: also a positive amount between two different parties. */
  predicate AcceptsAdd(argv: seq<string>)
  {
    AcceptsAddAsWritten(argv) && AddAmount(argv) > 0 && Arg(argv, 2) != Arg(argv, 3)
  }

  function SuccessReply(debtor: string, creditor: string, amount: int): string
  {
    "Successfully added debt from " + debtor + " to " + creditor + " of " + NumberText(amount) + "`"
  }

  /** The ledger after the load-on-first-use step: a ledger that holds records is not reloaded. */
  function AfterLoad(ds: seq<Record>, saved: Option<string>): seq<Record>
  {
    if ds == [] then LoadSnapshot(saved) else ds
  }

  /** Writes a title line and then one line per row onto `response`. */
  method AppendSection(response: string, title: string, rows: seq<string>) returns (text: string)
    ensures text == response + Section(title, rows)
  {
    SectionStart(title, rows);
    text := response + title + "\n";
    for k := 0 to |rows|
      invariant text == response + Section(title, rows[..k])
    {
      SectionAppend(title, rows, k);
      text := text + rows[k] + "\n";
    }
    assert rows[..|rows|] == rows;
  }

  class Ledger {
    var debts: seq<Record>

    constructor ()
      ensures debts == []
    {
      debts := [];
    }

    /**
      * `loadDebts`: when the ledger is empty, read the snapshot (`None` when the
      * file cannot be read) line by line.
      */
    method Load(saved: Option<string>)
      modifies this
      ensures debts == AfterLoad(old(debts), saved)
    {
      if |debts| > 0 {
        return;
      }
      match saved {
        case None =>
          debts := [];
        case Some(text) =>
          var lines := Split(text, '\n');
          for i := 0 to |lines|
            invariant debts == LoadLines(lines[..i])
          {
            LoadLinesPrefix(lines, i);
            match ParseLine(lines[i]) {
              case Blank =>
              case Corrupt => debts := [];
              case Entry(r) => debts := debts + [r];
            }
          }
          assert lines[..|lines|] == lines;
      }
    }

    /** The scan of `reduceDebts`: the first debt and the first credit of `user`. */
    method Scan(user: string) returns (debt: Option<nat>, credit: Option<nat>)
      ensures debt == FirstDebtIdx(debts, user) && credit == FirstCreditIdx(debts, user)
    {
      debt, credit := None, None;
      var i := 0;
      while i < |debts| && !(debt.Some? && credit.Some?)
        invariant 0 <= i <= |debts|
        invariant debt.Some? ==>
          debt.value < i && debts[debt.value].debtor == user &&
          forall j :: 0 <= j < debt.value ==> debts[j].debtor != user
        invariant debt.None? ==> forall j :: 0 <= j < i ==> debts[j].debtor != user
        invariant credit.Some? ==>
          credit.value < i && IsCreditOf(debts[credit.value], user) &&
          forall j :: 0 <= j < credit.value ==> !IsCreditOf(debts[j], user)
        invariant credit.None? ==> forall j :: 0 <= j < i ==> !IsCreditOf(debts[j], user)
      {
        if debts[i].debtor == user {
          if debt.None? {
            debt := Some(i);
          }
        } else if debts[i].creditor == user {
          if credit.None? {
            credit := Some(i);
          }
        }
        i := i + 1;
      }
    }

    /** The merge step of `addDebt`: add onto the first record for the pair, or append one. */
    method MergeDebt(debtor: string, creditor: string, amount: int)
      modifies this
      ensures debts == Merged(old(debts), debtor, creditor, amount)
    {
      var i := 0;
      var found := false;
      while i < |debts| && !found
        invariant 0 <= i <= |debts|
        invariant found ==>
          i < |debts| && FirstPairIdx(old(debts), debtor, creditor) == Some(i) &&
          debts == old(debts)[i := old(debts)[i].(amount := old(debts)[i].amount + amount)]
        invariant !found ==>
          debts == old(debts) && forall j :: 0 <= j < i ==> !IsPair(debts[j], debtor, creditor)
        decreases if found then 0 else |debts| - i + 1
      {
        if IsPair(debts[i], debtor, creditor) {
          debts := debts[i := debts[i].(amount := debts[i].amount + amount)];
          found := true;
        } else {
          i := i + 1;
        }
      }
      if !found {
        debts := debts + [Record(debtor, creditor, amount)];
      }
    }

    /** Takes `amount` off record `i`: the record is spliced out when that uses it up. */
    method TakeOff(i: nat, amount: int)
      requires i < |debts|
      modifies this
      ensures debts == Decrement(old(debts), i, amount)
    {
      if debts[i].amount == amount {
        debts := debts[..i] + debts[i + 1..];
      } else {
        debts := debts[i := debts[i].(amount := debts[i].amount - amount)];
      }
    }

    /**
      * One pass of the netting loop: push the bypass, then take the netted
      * amount off the later and then the earlier of the two matched records.
      */
    method NetPair(c: nat, d: nat)
      requires c < |debts| && d < |debts| && c != d
      modifies this
      ensures debts == NetAt(old(debts), c, d)
    {
      var amount := Min(debts[c].amount, debts[d].amount);
      if debts[c].debtor != debts[d].creditor {
        debts := debts + [Record(debts[c].debtor, debts[d].creditor, amount)];
      }
      assert debts == old(debts) + BypassAt(old(debts), c, d);
      TakeOff(Max(c, d), amount);
      TakeOff(Min(c, d), amount);
    }

    /** `reduceDebts(user)`: net `user` out until it no longer both owes and is owed. */
    method ReduceDebts(user: string)
      requires WellFormed(debts)
      modifies this
      ensures debts == Reduced(old(debts), user)
    {
      var debt, credit := Scan(user);
      while debt.Some? && credit.Some?
        invariant WellFormed(debts)
        invariant debt == FirstDebtIdx(debts, user) && credit == FirstCreditIdx(debts, user)
        invariant Reduced(debts, user) == Reduced(old(debts), user)
        decreases Exposure(user, debts)
      {
        StepProgress(debts, user);
        ExposureNonNegative(user, debts);
        NetPair(credit.value, debt.value);
        debt, credit := Scan(user);
      }
    }

    /** The snapshot text that `addDebt` writes. */
    method Serialize() returns (data: string)
      ensures data == Snapshot(debts)
    {
      data := "";
      for i := 0 to |debts|
        invariant data == Snapshot(debts[..i])
      {
        SnapshotPrefix(debts, i);
        data := data + Line(debts[i]) + "\n";
      }
      assert debts[..|debts|] == debts;
    }

    /**
      * `addDebt`: record the debt, net the debtor and then the creditor, and
      * return the snapshot text to be written.
      */
    method AddDebt(debtor: string, creditor: string, amount: int) returns (data: string)
      requires WellFormed(debts) && amount > 0 && debtor != creditor
      modifies this
      ensures debts == Added(old(debts), debtor, creditor, amount)
      ensures data == Snapshot(debts)
    {
      MergeDebt(debtor, creditor, amount);
      ReduceDebts(debtor);
      ReduceDebts(creditor);
      data := Serialize();
    }

    /** The forEach of `showDebt(user)` that sorts the records of `user` into debts and credits. */
    method Partition(user: string) returns (userDebts: seq<Record>, userCredits: seq<Record>)
      ensures userDebts == DebtsOf(user, debts) && userCredits == CreditsOf(user, debts)
    {
      userDebts, userCredits := [], [];
      for i := 0 to |debts|
        invariant userDebts == DebtsOf(user, debts[..i])
        invariant userCredits == CreditsOf(user, debts[..i])
      {
        assert debts[..i + 1][..i] == debts[..i];
        if debts[i].debtor == user {
          userDebts := userDebts + [debts[i]];
        } else if debts[i].creditor == user {
          userCredits := userCredits + [debts[i]];
        }
      }
      assert debts[..|debts|] == debts;
    }

    /** `showDebt(user)`; the empty string stands for no party. */
    method ShowDebt(user: string) returns (response: string)
      ensures response == Report(user, debts)
    {
      response := "";
      if user != "" {
        var userDebts, userCredits := Partition(user);
        if |userDebts| > 0 {
          response := AppendSection(response, DebtsTitle(user), DebtRows(userDebts));
        }
        ghost var first := response;
        assert first == if |userDebts| > 0 then Section(DebtsTitle(user), DebtRows(userDebts)) else "";
        if |userCredits| > 0 {
          response := AppendSection(response, CreditsTitle(user), CreditRows(userCredits));
        }
        assert response == first + if |userCredits| > 0 then Section(CreditsTitle(user), CreditRows(userCredits)) else "";
        assert response == PartyText(user, debts);
        if response == "" {
          response := NotFound(user);
        }
      } else {
        response := AppendSection(response, AllTitle, AllRows(debts));
        assert response == Section(AllTitle, AllRows(debts));
      }
    }

    /**
      * The `debt` command: load the ledger on first use, then `add`, `all` or a
      * party's statement. Returns the reply and, after an `add`, the snapshot
      * text written to the file.
      */
    method Dispatch(argv: seq<string>, saved: Option<string>) returns (reply: string, written: Option<string>)
      requires WellFormed(AfterLoad(debts, saved))
      modifies this
      ensures WellFormed(debts)
      ensures |argv| < 2 ==>
        reply == IncorrectUsage && written == None && debts == AfterLoad(old(debts), saved)
      ensures |argv| >= 2 && argv[1] == "add" && !AcceptsAdd(argv) ==>
        reply == IncorrectUsage && written == None && debts == AfterLoad(old(debts), saved)
      ensures |argv| >= 2 && argv[1] == "add" && AcceptsAdd(argv) ==>
        debts == Added(AfterLoad(old(debts), saved), Arg(argv, 2), Arg(argv, 3), AddAmount(argv)) &&
        written == Some(Snapshot(debts)) &&
        reply == SuccessReply(Arg(argv, 2), Arg(argv, 3), AddAmount(argv))
      ensures |argv| >= 2 && argv[1] != "add" ==>
        written == None && debts == AfterLoad(old(debts), saved) &&
        reply == Report(if argv[1] == "all" then "" else argv[1], debts)
    {
      Load(saved);
      written := None;
      if |argv| < 2 {
        reply := IncorrectUsage;
        return;
      }
      var subcommand := argv[1];
      if subcommand == "add" {
        var debtor, creditor, amount := Arg(argv, 2), Arg(argv, 3), AddAmount(argv);
        if !AcceptsAdd(argv) {
          reply := IncorrectUsage;
          return;
        }
        var data := AddDebt(debtor, creditor, amount);
        written := Some(data);
        reply := SuccessReply(debtor, creditor, amount);
      } else if subcommand == "all" {
        reply := ShowDebt("");
      } else {
        reply := ShowDebt(subcommand);
      }
    }
  }

  /**
    * The argument check as written lets through a negative amount and a debt
    * of a party to itself.
    */
  lemma AsWrittenCheckAdmitsBadAdds()
    ensures AcceptsAddAsWritten(["debt", "add", "B", "A", "-1"]) && AddAmount(["debt", "add", "B", "A", "-1"]) == -1
    ensures AcceptsAddAsWritten(["debt", "add", "A", "A", "5"]) && AddAmount(["debt", "add", "A", "A", "5"]) == 5
  {
    assert NumberText(-1) == "-1";
    ParseNumberText(-1);
    assert NumberText(5) == "5";
    ParseNumberText(5);
  }

  /**
    * After `debt add B A -1` on an empty ledger neither party has anything to
    * net; `debt add A A 5` then gives A a pair to net.
    */
  lemma BadAddsReachNettingOfSelfDebt()
    ensures Merged([], "B", "A", -1) == [Record("B", "A", -1)]
    ensures !Pending([Record("B", "A", -1)], "B") && !Pending([Record("B", "A", -1)], "A")
    ensures Merged([Record("B", "A", -1)], "A", "A", 5) == [Record("B", "A", -1), Record("A", "A", 5)]
    ensures var ds := [Record("B", "A", -1), Record("A", "A", 5)];
      Pending(ds, "A") && Step(ds, "A") == [Record("A", "A", 6), Record("B", "A", -1)]
  {
    var one := [Record("B", "A", -1)];
    assert FirstCreditIdx(one, "B") == None;
    assert FirstDebtIdx(one, "A") == None;
    var ds := [Record("B", "A", -1), Record("A", "A", 5)];
    assert FirstDebtIdx(ds, "A") == Some(1);
    assert FirstCreditIdx(ds, "A") == Some(0);
  }

  /**
    * From then on the netting of A never ends: each pass turns
    * [A owes A k, B owes A -1] into [A owes A k + 1, B owes A -1], which again
    * has a pair to net.
    */
  lemma SelfDebtNettingNeverEnds(k: int)
    requires k >= 0
    ensures var ds := [Record("A", "A", k), Record("B", "A", -1)];
      Pending(ds, "A") && Step(ds, "A") == [Record("A", "A", k + 1), Record("B", "A", -1)]
  {
    var ds := [Record("A", "A", k), Record("B", "A", -1)];
    assert FirstDebtIdx(ds, "A") == Some(0);
    assert FirstCreditIdx(ds, "A") == Some(1);
  }

  /**
    * With the corrected check every accepted `add` meets what the ledger
    * needs: the netting ends, the ledger stays well formed, and the balances
    * move by exactly the amount recorded.
    */
  lemma AcceptedAddKeepsLedgerWellFormed(argv: seq<string>, ds: seq<Record>, p: string)
    requires AcceptsAdd(argv) && WellFormed(ds)
    ensures AddAmount(argv) > 0 && Arg(argv, 2) != Arg(argv, 3)
    ensures var r := Added(ds, Arg(argv, 2), Arg(argv, 3), AddAmount(argv));
      WellFormed(r) &&
      Balance(p, r) == Balance(p, ds) + (if p == Arg(argv, 3) then AddAmount(argv) else 0) - (if p == Arg(argv, 2) then AddAmount(argv) else 0)
  {
    AddedBalance(ds, Arg(argv, 2), Arg(argv, 3), AddAmount(argv), p);
  }
}
