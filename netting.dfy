/**
  * Pass-through elimination for one party `u`: while `u` both owes and is
  * owed, the first record where `u` is the debtor (D: u owes Y) and the first
  * record where `u` is the creditor of someone else (C: X owes u) are netted
  * by their smaller amount, a bypass record "X owes Y" is appended unless X and
  * Y are the same party, and the two matched records are decremented, a record
  * that reaches zero being deleted (the later index first, so that the earlier
  * one still points at its record).
  */
module Netting {
  import opened Wrappers
  import opened Sequences
  import opened Records

  /** The first record in which `u` is the debtor. */
  function FirstDebtIdx(ds: seq<Record>, u: string): (i: Option<nat>)
    ensures i.Some? ==>
      i.value < |ds| && ds[i.value].debtor == u &&
      forall j :: 0 <= j < i.value ==> ds[j].debtor != u
    ensures i.None? ==> forall j :: 0 <= j < |ds| ==> ds[j].debtor != u
  {
    if ds == [] then None
    else if ds[0].debtor == u then Some(0)
    else match FirstDebtIdx(ds[1..], u)
      case None => None
      case Some(k) => Some(k + 1)
  }

  /** `u` is owed by someone other than `u` itself. */
  predicate IsCreditOf(r: Record, u: string) { r.debtor != u && r.creditor == u }

  /** The first record in which `u` is the creditor and not also the debtor. */
  function FirstCreditIdx(ds: seq<Record>, u: string): (i: Option<nat>)
    ensures i.Some? ==>
      i.value < |ds| && IsCreditOf(ds[i.value], u) &&
      forall j :: 0 <= j < i.value ==> !IsCreditOf(ds[j], u)
    ensures i.None? ==> forall j :: 0 <= j < |ds| ==> !IsCreditOf(ds[j], u)
  {
    if ds == [] then None
    else if IsCreditOf(ds[0], u) then Some(0)
    else match FirstCreditIdx(ds[1..], u)
      case None => None
      case Some(k) => Some(k + 1)
  }

  /** The netting loop has work to do: `u` both owes and is owed. */
  predicate Pending(ds: seq<Record>, u: string)
  {
    FirstDebtIdx(ds, u).Some? && FirstCreditIdx(ds, u).Some?
  }

  /** The loop has work for `u` exactly when `u` is among the debtors and among the creditors. */
  lemma PendingIff(ds: seq<Record>, v: string)
    ensures Pending(ds, v) <==> v in Debtors(ds) && v in Creditors(ds)
  {
    var debt, credit := FirstDebtIdx(ds, v), FirstCreditIdx(ds, v);
    if debt.Some? {
      assert ds[debt.value] in ds;
    }
    if v in Debtors(ds) {
      var r :| r in ds && r.debtor == v;
      var k :| 0 <= k < |ds| && ds[k] == r;
    }
    if credit.Some? {
      assert ds[credit.value] in ds;
    }
    if v in Creditors(ds) {
      var r :| r in ds && r.debtor != r.creditor && r.creditor == v;
      var k :| 0 <= k < |ds| && ds[k] == r;
    }
  }

  function Min(a: int, b: int): int { if a <= b then a else b }

  function Max(a: int, b: int): int { if a <= b then b else a }

  function DebtIdx(ds: seq<Record>, u: string): nat
    requires Pending(ds, u)
  {
    FirstDebtIdx(ds, u).value
  }

  function CreditIdx(ds: seq<Record>, u: string): nat
    requires Pending(ds, u)
  {
    FirstCreditIdx(ds, u).value
  }

  /** The record that routes the netted amount around the party, if its two ends differ. */
  function BypassAt(ds: seq<Record>, c: nat, d: nat): (b: seq<Record>)
    requires c < |ds| && d < |ds|
    ensures |b| <= 1 && (b == [] <==> ds[c].debtor == ds[d].creditor)
    ensures forall x | x in b ::
      x.debtor == ds[c].debtor && x.creditor == ds[d].creditor &&
      x.amount == Min(ds[c].amount, ds[d].amount) && x.debtor != x.creditor
  {
    var x, y := ds[c].debtor, ds[d].creditor;
    if x != y then [Record(x, y, Min(ds[c].amount, ds[d].amount))] else []
  }

  /** What is left of a record once `amount` is taken off it. */
  function Settle(r: Record, amount: int): seq<Record>
  {
    if r.amount == amount then [] else [r.(amount := r.amount - amount)]
  }

  /** Takes `amount` off record `i`, deleting the record when nothing would be left. */
  function Decrement(ds: seq<Record>, i: nat, amount: int): (r: seq<Record>)
    requires i < |ds|
    ensures |r| == |ds| - (if ds[i].amount == amount then 1 else 0)
  {
    if ds[i].amount == amount then ds[..i] + ds[i + 1..]
    else ds[i := ds[i].(amount := ds[i].amount - amount)]
  }

  /**
    * One pass of the netting loop on the credit at `c` and the debt at `d`:
    * append the bypass, then take the smaller amount off the later and then
    * the earlier of the two records.
    */
  function NetAt(ds: seq<Record>, c: nat, d: nat): seq<Record>
    requires c < |ds| && d < |ds| && c != d
  {
    var amount := Min(ds[c].amount, ds[d].amount);
    var once := Decrement(ds + BypassAt(ds, c, d), Max(c, d), amount);
    Decrement(once, Min(c, d), amount)
  }

  function Bypass(ds: seq<Record>, u: string): seq<Record>
    requires Pending(ds, u)
  {
    BypassAt(ds, CreditIdx(ds, u), DebtIdx(ds, u))
  }

  /** One pass of the netting loop for `u`: its first credit against its first debt. */
  function Step(ds: seq<Record>, u: string): seq<Record>
    requires Pending(ds, u)
  {
    NetAt(ds, CreditIdx(ds, u), DebtIdx(ds, u))
  }

  /** Decrementing replaces the record by what is left of it. */
  lemma DecrementSlices(ds: seq<Record>, i: nat, amount: int)
    requires i < |ds|
    ensures Decrement(ds, i, amount) == ds[..i] + Settle(ds[i], amount) + ds[i + 1..]
  {
    if ds[i].amount == amount {
      AppendEmpty(ds[..i]);
    } else {
      UpdateSlices(ds, i, ds[i].(amount := ds[i].amount - amount));
    }
  }

  /** Decrementing a record before an appended tail leaves the tail alone. */
  lemma DecrementAppend(xs: seq<Record>, tail: seq<Record>, i: nat, amount: int)
    requires i < |xs|
    ensures Decrement(xs + tail, i, amount) == Decrement(xs, i, amount) + tail
  {
    if xs[i].amount == amount {
      RemoveAppend(xs, tail, i);
    } else {
      UpdateAppend(xs, tail, i, xs[i].(amount := xs[i].amount - amount));
    }
  }

  /** Decrementing a later and then an earlier record. */
  lemma DecrementTwice(ds: seq<Record>, e: nat, l: nat, amount: int)
    requires e < l < |ds|
    ensures e < |Decrement(ds, l, amount)|
    ensures Decrement(Decrement(ds, l, amount), e, amount) ==
      Spliced(ds, e, l, Settle(ds[e], amount), Settle(ds[l], amount))
  {
    DecrementSlices(ds, l, amount);
    ReplaceTwice(ds, e, l, Settle(ds[e], amount), Settle(ds[l], amount));
    DecrementSlices(Decrement(ds, l, amount), e, amount);
  }

  /**
    * The shape of one pass: at least one of the two records is used up, every
    * other record keeps its place and amount, and the bypass comes last.
    */
  lemma NetAtShape(ds: seq<Record>, c: nat, d: nat)
    requires c < |ds| && d < |ds| && c != d
    ensures
      var e, l, amount := Min(c, d), Max(c, d), Min(ds[c].amount, ds[d].amount);
      e < l < |ds| &&
      (ds[c].amount == amount || ds[d].amount == amount) &&
      NetAt(ds, c, d) == Spliced(ds, e, l, Settle(ds[e], amount), Settle(ds[l], amount)) + BypassAt(ds, c, d)
  {
    var e, l, amount := Min(c, d), Max(c, d), Min(ds[c].amount, ds[d].amount);
    var b := BypassAt(ds, c, d);
    DecrementAppend(ds, b, l, amount);
    DecrementTwice(ds, e, l, amount);
    DecrementAppend(Decrement(ds, l, amount), b, e, amount);
  }

  lemma TotalFive(a: seq<Record>, b: seq<Record>, c: seq<Record>, d: seq<Record>, e: seq<Record>, f: Record -> int)
    ensures Total(a + b + c + d + e, f) == Total(a, f) + Total(b, f) + Total(c, f) + Total(d, f) + Total(e, f)
  {
    TotalConcat(a + b + c + d, e, f);
    TotalConcat(a + b + c, d, f);
    TotalConcat(a + b, c, f);
    TotalConcat(a, b, f);
  }

  lemma TotalSettle(r: Record, amount: int, f: Record -> int)
    ensures Total(Settle(r, amount), f) == if r.amount == amount then 0 else f(r.(amount := r.amount - amount))
  {
    if r.amount != amount {
      TotalSingleton(r.(amount := r.amount - amount), f);
    }
  }

  lemma TotalBypass(ds: seq<Record>, c: nat, d: nat, f: Record -> int)
    requires c < |ds| && d < |ds|
    ensures var x, y := ds[c].debtor, ds[d].creditor;
      Total(BypassAt(ds, c, d), f) == if x != y then f(Record(x, y, Min(ds[c].amount, ds[d].amount))) else 0
  {
    if ds[c].debtor != ds[d].creditor {
      TotalSingleton(BypassAt(ds, c, d)[0], f);
    }
  }

  /** How a sum over the records moves when two of them are replaced. */
  lemma TotalSpliced(ds: seq<Record>, e: nat, l: nat, x: seq<Record>, y: seq<Record>, f: Record -> int)
    requires e < l < |ds|
    ensures Total(Spliced(ds, e, l, x, y), f) == Total(ds, f) - f(ds[e]) - f(ds[l]) + Total(x, f) + Total(y, f)
  {
    Around(ds, e, l);
    TotalFive(ds[..e], [ds[e]], ds[e + 1..l], [ds[l]], ds[l + 1..], f);
    TotalSingleton(ds[e], f);
    TotalSingleton(ds[l], f);
    TotalFive(ds[..e], x, ds[e + 1..l], y, ds[l + 1..], f);
  }

  /** How a sum over the ledger moves in one pass. */
  lemma TotalNetAt(ds: seq<Record>, c: nat, d: nat, f: Record -> int)
    requires c < |ds| && d < |ds| && c != d
    ensures
      var amount := Min(ds[c].amount, ds[d].amount);
      Total(NetAt(ds, c, d), f) ==
        Total(ds, f) - f(ds[c]) - f(ds[d]) + Total(Settle(ds[c], amount), f) + Total(Settle(ds[d], amount), f) + Total(BypassAt(ds, c, d), f)
  {
    NetAtShape(ds, c, d);
    var e, l, amount := Min(c, d), Max(c, d), Min(ds[c].amount, ds[d].amount);
    var kept := Spliced(ds, e, l, Settle(ds[e], amount), Settle(ds[l], amount));
    TotalSpliced(ds, e, l, Settle(ds[e], amount), Settle(ds[l], amount), f);
    TotalConcat(kept, BypassAt(ds, c, d), f);
  }

  lemma SettleShare(p: string, r: Record, amount: int)
    ensures Total(Settle(r, amount), ShareOf(p)) == Share(p, r) - Share(p, r.(amount := amount))
  {
    TotalSettle(r, amount, ShareOf(p));
  }

  /** What `x` owes `u` plus what `u` owes `y`, both `amount`, is to each party what `x` owing `y` is. */
  lemma ShareAround(p: string, x: string, u: string, y: string, amount: int)
    ensures Share(p, Record(x, u, amount)) + Share(p, Record(u, y, amount)) ==
      if x != y then Share(p, Record(x, y, amount)) else 0
  {
  }

  /** Netting a credit to a party against a debt of the same party moves no one's net balance. */
  lemma NetAtConservesBalance(ds: seq<Record>, c: nat, d: nat, p: string)
    requires c < |ds| && d < |ds| && c != d && ds[c].creditor == ds[d].debtor
    ensures Balance(p, NetAt(ds, c, d)) == Balance(p, ds)
  {
    var amount := Min(ds[c].amount, ds[d].amount);
    TotalNetAt(ds, c, d, ShareOf(p));
    SettleShare(p, ds[c], amount);
    SettleShare(p, ds[d], amount);
    TotalBypass(ds, c, d, ShareOf(p));
    ShareAround(p, ds[c].debtor, ds[c].creditor, ds[d].creditor, amount);
  }

  /** One pass leaves the net balance of every party, `u` included, as it was. */
  lemma StepConservesBalance(ds: seq<Record>, u: string, p: string)
    requires Pending(ds, u)
    ensures Balance(p, Step(ds, u)) == Balance(p, ds)
  {
    NetAtConservesBalance(ds, CreditIdx(ds, u), DebtIdx(ds, u), p);
  }

  lemma WellFormedSlice(ds: seq<Record>, i: nat, j: nat)
    requires WellFormed(ds) && i <= j <= |ds|
    ensures WellFormed(ds[i..j])
  {
    forall r | r in ds[i..j] ensures Proper(r) {
      var k :| 0 <= k < j - i && ds[i..j][k] == r;
      assert ds[i + k] == r;
    }
  }

  lemma WellFormedFive(a: seq<Record>, b: seq<Record>, c: seq<Record>, d: seq<Record>, e: seq<Record>)
    requires WellFormed(a) && WellFormed(b) && WellFormed(c) && WellFormed(d) && WellFormed(e)
    ensures WellFormed(a + b + c + d + e)
  {
  }

  /** Replacing two records of a well-formed ledger by well-formed pieces keeps it well formed. */
  lemma WellFormedSpliced(ds: seq<Record>, e: nat, l: nat, x: seq<Record>, y: seq<Record>)
    requires e < l < |ds| && WellFormed(ds) && WellFormed(x) && WellFormed(y)
    ensures WellFormed(Spliced(ds, e, l, x, y))
  {
    WellFormedSlice(ds, 0, e);
    WellFormedSlice(ds, e + 1, l);
    WellFormedSlice(ds, l + 1, |ds|);
    assert ds[..e] == ds[0..e] && ds[l + 1..] == ds[l + 1..|ds|];
    WellFormedFive(ds[..e], x, ds[e + 1..l], y, ds[l + 1..]);
  }

  /** On a well-formed ledger one pass keeps it well formed and never makes it longer. */
  lemma NetAtWellFormed(ds: seq<Record>, c: nat, d: nat)
    requires WellFormed(ds) && c < |ds| && d < |ds| && c != d
    ensures WellFormed(NetAt(ds, c, d)) && |NetAt(ds, c, d)| <= |ds|
  {
    NetAtShape(ds, c, d);
    var e, l, amount := Min(c, d), Max(c, d), Min(ds[c].amount, ds[d].amount);
    assert ds[c] in ds && ds[d] in ds;
    var se, sl := Settle(ds[e], amount), Settle(ds[l], amount);
    assert WellFormed(se) && WellFormed(sl);
    WellFormedSpliced(ds, e, l, se, sl);
    var b := BypassAt(ds, c, d);
    assert WellFormed(b);
    assert WellFormed(Spliced(ds, e, l, se, sl) + b);
  }

  /**
    * Netting a credit `X owes u` against a debt `u owes Y` lowers the amounts
    * that `u` takes part in by twice the netted amount: the measure that ends
    * the loop.
    */
  lemma NetAtExposure(ds: seq<Record>, c: nat, d: nat, u: string)
    requires c < |ds| && d < |ds| && IsCreditOf(ds[c], u) && ds[d].debtor == u && Proper(ds[d])
    ensures Exposure(u, NetAt(ds, c, d)) == Exposure(u, ds) - 2 * Min(ds[c].amount, ds[d].amount)
  {
    var amount := Min(ds[c].amount, ds[d].amount);
    TotalNetAt(ds, c, d, ExposureOf(u));
    TotalSettle(ds[c], amount, ExposureOf(u));
    TotalSettle(ds[d], amount, ExposureOf(u));
    TotalBypass(ds, c, d, ExposureOf(u));
  }

  /**
    * Positive amounts alone make a pass lower the amounts that `u` takes part
    * in, even when the debt of `u` is a debt of `u` to itself.
    */
  lemma PositiveStepLowersExposure(ds: seq<Record>, u: string)
    requires forall r | r in ds :: r.amount > 0
    requires Pending(ds, u)
    ensures Exposure(u, Step(ds, u)) < Exposure(u, ds)
  {
    var c, d := CreditIdx(ds, u), DebtIdx(ds, u);
    assert ds[c] in ds && ds[d] in ds;
    var amount := Min(ds[c].amount, ds[d].amount);
    TotalNetAt(ds, c, d, ExposureOf(u));
    TotalSettle(ds[c], amount, ExposureOf(u));
    TotalSettle(ds[d], amount, ExposureOf(u));
    TotalBypass(ds, c, d, ExposureOf(u));
  }

  /**
    * One pass on a well-formed ledger keeps it well formed and strictly lowers
    * the amounts that `u` takes part in.
    */
  lemma StepProgress(ds: seq<Record>, u: string)
    requires WellFormed(ds) && Pending(ds, u)
    ensures WellFormed(Step(ds, u)) && |Step(ds, u)| <= |ds|
    ensures 0 <= Exposure(u, Step(ds, u)) < Exposure(u, ds)
  {
    var c, d := CreditIdx(ds, u), DebtIdx(ds, u);
    assert ds[c] in ds && ds[d] in ds;
    NetAtWellFormed(ds, c, d);
    NetAtExposure(ds, c, d, u);
    ExposureNonNegative(u, Step(ds, u));
  }

  /**
    * The netting loop run to its end: `reduceDebts(u)`. Its result is well
    * formed, no longer than the input, and leaves `u` with nothing to net.
    */
  function Reduced(ds: seq<Record>, u: string): (r: seq<Record>)
    requires WellFormed(ds)
    ensures WellFormed(r) && |r| <= |ds| && !Pending(r, u)
    decreases Exposure(u, ds)
  {
    ExposureNonNegative(u, ds);
    if Pending(ds, u) then
      StepProgress(ds, u);
      Reduced(Step(ds, u), u)
    else ds
  }

  /** Netting changes who owes whom, never anyone's net balance. */
  lemma {:induction false} ReducedConservesBalance(ds: seq<Record>, u: string, p: string)
    requires WellFormed(ds)
    ensures Balance(p, Reduced(ds, u)) == Balance(p, ds)
    decreases Exposure(u, ds)
  {
    ExposureNonNegative(u, ds);
    if Pending(ds, u) {
      StepProgress(ds, u);
      StepConservesBalance(ds, u, p);
      ReducedConservesBalance(Step(ds, u), u, p);
    }
  }

  /** When the loop ends `u` owes nobody or is owed by nobody. */
  lemma ReducedSettlesParty(ds: seq<Record>, u: string)
    requires WellFormed(ds)
    ensures var r := Reduced(ds, u);
      (forall x | x in r :: x.debtor != u) || (forall x | x in r :: x.creditor != u)
  {
    var r := Reduced(ds, u);
    if FirstDebtIdx(r, u).None? {
      forall x | x in r ensures x.debtor != u {
        var k :| 0 <= k < |r| && r[k] == x;
      }
    } else {
      forall x | x in r ensures x.creditor != u {
        var k :| 0 <= k < |r| && r[k] == x;
        assert !IsCreditOf(r[k], u);
        assert Proper(x);
      }
    }
  }

  /** Netting a party right after it was netted changes nothing. */
  lemma ReducedIdempotent(ds: seq<Record>, u: string)
    requires WellFormed(ds)
    ensures Reduced(Reduced(ds, u), u) == Reduced(ds, u)
  {
  }

  /**
    * Netting a credit `X owes u` against a debt `u owes Y` makes nobody a
    * debtor or a creditor who was not one already: the bypass runs from a
    * debtor to a creditor of the ledger, and every other record keeps its parties.
    */
  lemma NetAtParties(ds: seq<Record>, c: nat, d: nat, u: string)
    requires c < |ds| && d < |ds| && IsCreditOf(ds[c], u) && ds[d].debtor == u && Proper(ds[d])
    ensures Debtors(NetAt(ds, c, d)) <= Debtors(ds) && Creditors(NetAt(ds, c, d)) <= Creditors(ds)
  {
    NetAtShape(ds, c, d);
    var e, l, amount := Min(c, d), Max(c, d), Min(ds[c].amount, ds[d].amount);
    var se, sl := Settle(ds[e], amount), Settle(ds[l], amount);
    SplicedMembers(ds, e, l, se, sl);
    var after := NetAt(ds, c, d);
    assert ds[c] in ds && ds[d] in ds && ds[e] in ds && ds[l] in ds;
    forall r | r in after
      ensures r.debtor in Debtors(ds) && (r.debtor != r.creditor ==> r.creditor in Creditors(ds))
    {
    }
  }

  /** The whole loop for `u` makes nobody a new debtor or a new creditor. */
  lemma {:induction false} ReducedParties(ds: seq<Record>, u: string)
    requires WellFormed(ds)
    ensures Debtors(Reduced(ds, u)) <= Debtors(ds) && Creditors(Reduced(ds, u)) <= Creditors(ds)
    decreases Exposure(u, ds)
  {
    ExposureNonNegative(u, ds);
    if Pending(ds, u) {
      StepProgress(ds, u);
      var c, d := CreditIdx(ds, u), DebtIdx(ds, u);
      assert ds[d] in ds;
      NetAtParties(ds, c, d, u);
      ReducedParties(Step(ds, u), u);
    }
  }

  /**
    * The bypass records that the loop for `u` appends, in order: each has a
    * positive amount between two different parties, neither of them `u`.
    */
  function Bypasses(ds: seq<Record>, u: string): (b: seq<Record>)
    requires WellFormed(ds)
    ensures forall x | x in b :: Proper(x) && !Touches(u, x)
    decreases Exposure(u, ds)
  {
    ExposureNonNegative(u, ds);
    if Pending(ds, u) then
      StepProgress(ds, u);
      var c, d := CreditIdx(ds, u), DebtIdx(ds, u);
      assert ds[c] in ds && ds[d] in ds;
      Bypass(ds, u) + Bypasses(Step(ds, u), u)
    else []
  }

  /** The records `u` takes no part in, in ledger order. */
  function Unrelated(u: string, ds: seq<Record>): (r: seq<Record>)
    ensures forall x | x in r :: x in ds && !Touches(u, x)
  {
    if ds == [] then []
    else (if Touches(u, ds[0]) then [] else [ds[0]]) + Unrelated(u, ds[1..])
  }

  lemma {:induction false} UnrelatedConcat(u: string, a: seq<Record>, b: seq<Record>)
    ensures Unrelated(u, a + b) == Unrelated(u, a) + Unrelated(u, b)
  {
    if a == [] {
      assert a + b == b;
    } else {
      FirstOfAppend(a, b);
      UnrelatedConcat(u, a[1..], b);
      Regroup(if Touches(u, a[0]) then [] else [a[0]], Unrelated(u, a[1..]), Unrelated(u, b), []);
    }
  }

  lemma UnrelatedFive(u: string, a: seq<Record>, b: seq<Record>, c: seq<Record>, d: seq<Record>, e: seq<Record>)
    ensures Unrelated(u, a + b + c + d + e) == Unrelated(u, a) + Unrelated(u, b) + Unrelated(u, c) + Unrelated(u, d) + Unrelated(u, e)
  {
    UnrelatedConcat(u, a + b + c + d, e);
    UnrelatedConcat(u, a + b + c, d);
    UnrelatedConcat(u, a + b, c);
    UnrelatedConcat(u, a, b);
  }

  lemma UnrelatedSingleton(u: string, r: Record)
    ensures Unrelated(u, [r]) == if Touches(u, r) then [] else [r]
  {
    assert [r][1..] == [];
  }

  lemma UnrelatedSettle(u: string, r: Record, amount: int)
    requires Touches(u, r)
    ensures Unrelated(u, Settle(r, amount)) == []
  {
    if r.amount != amount {
      UnrelatedSingleton(u, r.(amount := r.amount - amount));
    }
  }

  /** Replacing two records of `u` by pieces without `u` leaves the records without `u` as they were. */
  lemma UnrelatedSpliced(u: string, ds: seq<Record>, e: nat, l: nat, x: seq<Record>, y: seq<Record>)
    requires e < l < |ds| && Touches(u, ds[e]) && Touches(u, ds[l])
    requires Unrelated(u, x) == [] && Unrelated(u, y) == []
    ensures Unrelated(u, Spliced(ds, e, l, x, y)) == Unrelated(u, ds)
  {
    Around(ds, e, l);
    UnrelatedFive(u, ds[..e], [ds[e]], ds[e + 1..l], [ds[l]], ds[l + 1..]);
    UnrelatedSingleton(u, ds[e]);
    UnrelatedSingleton(u, ds[l]);
    UnrelatedFive(u, ds[..e], x, ds[e + 1..l], y, ds[l + 1..]);
  }

  /**
    * Netting a credit `X owes u` against a debt `u owes Y` keeps every record
    * that does not involve `u`, in order and with its amount, and appends the
    * bypass after them.
    */
  lemma NetAtKeepsUnrelated(ds: seq<Record>, c: nat, d: nat, u: string)
    requires c < |ds| && d < |ds| && IsCreditOf(ds[c], u) && ds[d].debtor == u && Proper(ds[d])
    ensures Unrelated(u, NetAt(ds, c, d)) == Unrelated(u, ds) + BypassAt(ds, c, d)
  {
    NetAtShape(ds, c, d);
    var e, l, amount := Min(c, d), Max(c, d), Min(ds[c].amount, ds[d].amount);
    var se, sl := Settle(ds[e], amount), Settle(ds[l], amount);
    UnrelatedSettle(u, ds[e], amount);
    UnrelatedSettle(u, ds[l], amount);
    UnrelatedSpliced(u, ds, e, l, se, sl);
    var b := BypassAt(ds, c, d);
    UnrelatedConcat(u, Spliced(ds, e, l, se, sl), b);
    if b != [] {
      UnrelatedSingleton(u, b[0]);
      assert b == [b[0]];
    }
  }

  /**
    * One pass keeps every record that does not involve `u`, in order and with
    * its amount, and appends the bypass after them.
    */
  lemma StepKeepsUnrelated(ds: seq<Record>, u: string)
    requires WellFormed(ds) && Pending(ds, u)
    ensures Unrelated(u, Step(ds, u)) == Unrelated(u, ds) + Bypass(ds, u)
  {
    var c, d := CreditIdx(ds, u), DebtIdx(ds, u);
    assert ds[d] in ds;
    NetAtKeepsUnrelated(ds, c, d, u);
  }

  /**
    * Netting `u` never disturbs the records `u` takes no part in: they keep
    * their order and amounts, and the only records after them that `u` takes
    * no part in are the bypasses of the loop.
    */
  lemma {:induction false} ReducedKeepsUnrelated(ds: seq<Record>, u: string)
    requires WellFormed(ds)
    ensures Unrelated(u, Reduced(ds, u)) == Unrelated(u, ds) + Bypasses(ds, u)
    decreases Exposure(u, ds)
  {
    ExposureNonNegative(u, ds);
    if Pending(ds, u) {
      StepProgress(ds, u);
      StepKeepsUnrelated(ds, u);
      ReducedKeepsUnrelated(Step(ds, u), u);
    } else {
      AppendEmpty(Unrelated(u, ds));
    }
  }
}
