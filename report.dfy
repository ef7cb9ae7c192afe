/**
  * The text reports of `showDebt`: a statement of one party's debts and
  * credits, or a listing of the whole ledger. Rows come in ledger order.
  */
module QueryView {
  import opened Sequences
  import opened Text
  import opened Numbers
  import opened Records

  /** The records in which `u` is the debtor, in ledger order. */
  function DebtsOf(u: string, ds: seq<Record>): (rs: seq<Record>)
    ensures forall r :: r in rs <==> r in ds && r.debtor == u
    ensures forall r :: multiset(rs)[r] == if r.debtor == u then multiset(ds)[r] else 0
  {
    if ds == [] then []
    else
      var last := ds[|ds| - 1];
      assert ds == ds[..|ds| - 1] + [last];
      DebtsOf(u, ds[..|ds| - 1]) + (if last.debtor == u then [last] else [])
  }

  /** The records in which `u` is the creditor but not the debtor, in ledger order. */
  function CreditsOf(u: string, ds: seq<Record>): (rs: seq<Record>)
    ensures forall r :: r in rs <==> r in ds && r.debtor != u && r.creditor == u
    ensures forall r :: multiset(rs)[r] == if r.debtor != u && r.creditor == u then multiset(ds)[r] else 0
  {
    if ds == [] then []
    else
      var last := ds[|ds| - 1];
      assert ds == ds[..|ds| - 1] + [last];
      CreditsOf(u, ds[..|ds| - 1]) + (if last.debtor != u && last.creditor == u then [last] else [])
  }

  function DebtRow(r: Record): string { "  " + r.creditor + ": `" + NumberText(r.amount) + "`" }

  function CreditRow(r: Record): string { "  " + r.debtor + ": `" + NumberText(r.amount) + "`" }

  function AllRow(r: Record): string { "  " + r.debtor + " -> " + r.creditor + ": " + NumberText(r.amount) }

  function DebtRows(rs: seq<Record>): (rows: seq<string>)
    ensures |rows| == |rs|
  {
    seq(|rs|, k requires 0 <= k < |rs| => DebtRow(rs[k]))
  }

  function CreditRows(rs: seq<Record>): (rows: seq<string>)
    ensures |rows| == |rs|
  {
    seq(|rs|, k requires 0 <= k < |rs| => CreditRow(rs[k]))
  }

  function AllRows(ds: seq<Record>): (rows: seq<string>)
    ensures |rows| == |ds|
  {
    seq(|ds|, k requires 0 <= k < |ds| => AllRow(ds[k]))
  }

  /** A title line followed by one line per row. */
  function Section(title: string, rows: seq<string>): string
  {
    Terminated([title] + rows, '\n')
  }

  /** A section starts with its title line ... */
  lemma SectionStart(title: string, rows: seq<string>)
    ensures Section(title, rows[..0]) == title + "\n"
    ensures |Section(title, rows)| > |title| && Section(title, rows)[..|title| + 1] == title + "\n"
  {
    assert [title] + rows[..0] == [title];
    assert Terminated([title][1..], '\n') == "";
    FirstOfAppend([title], rows);
    assert ([title] + rows)[1..] == rows;
  }

  /** ... and is written one row at a time. */
  lemma SectionAppend(title: string, rows: seq<string>, k: nat)
    requires k < |rows|
    ensures Section(title, rows[..k + 1]) == Section(title, rows[..k]) + rows[k] + "\n"
  {
    assert [title] + rows[..k + 1] == ([title] + rows[..k]) + [rows[k]];
    TerminatedAppend([title] + rows[..k], rows[k], '\n');
  }

  function DebtsTitle(u: string): string { u + "'s debts:" }

  function CreditsTitle(u: string): string { u + "'s credits:" }

  const AllTitle := "Showing all debts:"

  function NotFound(u: string): string { "Could not find debts involving: " + u + "." }

  /** The sections of a party's statement; empty when the party has no records. */
  function PartyText(u: string, ds: seq<Record>): string
  {
    var debts, credits := DebtsOf(u, ds), CreditsOf(u, ds);
    (if |debts| > 0 then Section(DebtsTitle(u), DebtRows(debts)) else "") +
    (if |credits| > 0 then Section(CreditsTitle(u), CreditRows(credits)) else "")
  }

  /**
    * `showDebt(u)`: the statement of `u` or, with no party (the empty string is
    * as falsy as a missing argument), the listing of every record.
    */
  function Report(u: string, ds: seq<Record>): string
  {
    if u == "" then Section(AllTitle, AllRows(ds))
    else
      var text := PartyText(u, ds);
      if text == "" then NotFound(u) else text
  }

  /** A party's statement is empty exactly when the party has neither debts nor credits. */
  lemma PartyTextEmpty(u: string, ds: seq<Record>)
    ensures PartyText(u, ds) == "" <==> DebtsOf(u, ds) == [] && CreditsOf(u, ds) == []
  {
  }

  /** A nonempty statement ends with a newline. */
  lemma PartyTextEnd(u: string, ds: seq<Record>)
    requires PartyText(u, ds) != ""
    ensures var text := PartyText(u, ds); text[|text| - 1] == '\n'
  {
    var debts, credits := DebtsOf(u, ds), CreditsOf(u, ds);
    var first := if |debts| > 0 then Section(DebtsTitle(u), DebtRows(debts)) else "";
    var second := if |credits| > 0 then Section(CreditsTitle(u), CreditRows(credits)) else "";
    assert PartyText(u, ds) == first + second;
  }

  /** A party has neither debts nor credits exactly when no record names it. */
  lemma NoDebtsNorCredits(u: string, ds: seq<Record>)
    ensures DebtsOf(u, ds) == [] && CreditsOf(u, ds) == [] <==>
      forall r | r in ds :: r.debtor != u && r.creditor != u
  {
    var debts, credits := DebtsOf(u, ds), CreditsOf(u, ds);
    if debts != [] {
      assert debts[0] in debts;
    }
    if credits != [] {
      assert credits[0] in credits;
    }
  }

  /**
    * A party's statement is the "could not find" message exactly when no record
    * names the party as debtor or creditor.
    */
  lemma NotFoundIff(u: string, ds: seq<Record>)
    requires u != ""
    ensures Report(u, ds) == NotFound(u) <==> forall r | r in ds :: r.debtor != u && r.creditor != u
  {
    PartyTextEmpty(u, ds);
    NoDebtsNorCredits(u, ds);
    var text, msg := PartyText(u, ds), NotFound(u);
    if text != "" {
      // a statement ends with a newline, the message with a full stop
      PartyTextEnd(u, ds);
      assert msg[|msg| - 1] == '.';
    }
  }

  /** The lines of one section: its title and then its rows. */
  function SectionLines(title: string, rows: seq<string>): seq<string>
  {
    if |rows| > 0 then [title] + rows else []
  }

  lemma SectionLinesPlain(title: string, rows: seq<string>)
    requires '\n' !in title
    requires forall k :: 0 <= k < |rows| ==> '\n' !in rows[k]
    ensures forall k :: 0 <= k < |SectionLines(title, rows)| ==> '\n' !in SectionLines(title, rows)[k]
  {
    var lines := SectionLines(title, rows);
    forall k | 0 <= k < |lines| ensures '\n' !in lines[k] {
      if k > 0 {
        assert lines[k] == rows[k - 1];
      }
    }
  }

  lemma DebtRowsPlain(rs: seq<Record>)
    requires forall r | r in rs :: '\n' !in r.creditor
    ensures forall k :: 0 <= k < |DebtRows(rs)| ==> '\n' !in DebtRows(rs)[k]
  {
    forall k | 0 <= k < |rs| ensures '\n' !in DebtRow(rs[k]) {
      assert rs[k] in rs;
      NumberTextChars(rs[k].amount);
    }
  }

  lemma CreditRowsPlain(rs: seq<Record>)
    requires forall r | r in rs :: '\n' !in r.debtor
    ensures forall k :: 0 <= k < |CreditRows(rs)| ==> '\n' !in CreditRows(rs)[k]
  {
    forall k | 0 <= k < |rs| ensures '\n' !in CreditRow(rs[k]) {
      assert rs[k] in rs;
      NumberTextChars(rs[k].amount);
    }
  }

  /** The lines of a party's statement, before it is split. */
  function StatementParts(u: string, ds: seq<Record>): seq<string>
  {
    SectionLines(DebtsTitle(u), DebtRows(DebtsOf(u, ds))) +
    SectionLines(CreditsTitle(u), CreditRows(CreditsOf(u, ds)))
  }

  lemma PartyTextParts(u: string, ds: seq<Record>)
    ensures PartyText(u, ds) == Terminated(StatementParts(u, ds), '\n')
  {
    var a := SectionLines(DebtsTitle(u), DebtRows(DebtsOf(u, ds)));
    var b := SectionLines(CreditsTitle(u), CreditRows(CreditsOf(u, ds)));
    assert Terminated([], '\n') == "";
    TerminatedConcat(a, b, '\n');
  }

  lemma StatementPartsPlain(u: string, ds: seq<Record>)
    requires '\n' !in u
    requires forall r | r in ds :: '\n' !in r.debtor && '\n' !in r.creditor
    ensures forall k :: 0 <= k < |StatementParts(u, ds)| ==> '\n' !in StatementParts(u, ds)[k]
  {
    var debts, credits := DebtsOf(u, ds), CreditsOf(u, ds);
    DebtRowsPlain(debts);
    CreditRowsPlain(credits);
    SectionLinesPlain(DebtsTitle(u), DebtRows(debts));
    SectionLinesPlain(CreditsTitle(u), CreditRows(credits));
    SeparatorFreeConcat(SectionLines(DebtsTitle(u), DebtRows(debts)), SectionLines(CreditsTitle(u), CreditRows(credits)), '\n');
  }

  /**
    * The lines of a party's statement, provided no name holds a newline: the
    * debts title and one row per debt when there are debts, then the credits
    * title and one row per credit when there are credits.
    */
  lemma StatementLines(u: string, ds: seq<Record>)
    requires '\n' !in u
    requires forall r | r in ds :: '\n' !in r.debtor && '\n' !in r.creditor
    ensures Split(PartyText(u, ds), '\n') ==
      SectionLines(DebtsTitle(u), DebtRows(DebtsOf(u, ds))) +
      SectionLines(CreditsTitle(u), CreditRows(CreditsOf(u, ds))) + [""]
  {
    PartyTextParts(u, ds);
    StatementPartsPlain(u, ds);
    SplitTerminated(StatementParts(u, ds), '\n');
  }

  /**
    * The listing of the whole ledger is its title line followed by one line per
    * record, in ledger order, provided no name holds a newline.
    */
  lemma AllReportLines(ds: seq<Record>)
    requires forall r | r in ds :: '\n' !in r.debtor && '\n' !in r.creditor
    ensures Split(Report("", ds), '\n') == [AllTitle] + AllRows(ds) + [""]
    ensures forall k :: 0 <= k < |ds| ==> AllRows(ds)[k] == AllRow(ds[k])
  {
    var parts := [AllTitle] + AllRows(ds);
    forall k | 0 <= k < |parts| ensures '\n' !in parts[k] {
      if k > 0 {
        var r := ds[k - 1];
        assert r in ds;
        NumberTextChars(r.amount);
        assert '\n' !in NumberText(r.amount);
      }
    }
    SplitTerminated(parts, '\n');
  }
}
