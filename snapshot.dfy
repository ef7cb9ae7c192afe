/**
  * The snapshot text: one `debtor creditor amount` line per record, in ledger
  * order, each ended by a newline; and the loader that reads it back line by
  * line, skipping empty lines and starting over whenever a line's amount is
  * NaN or zero.
  */
module SnapshotStore {
  import opened Wrappers
  import opened Text
  import opened Numbers
  import opened Records
  import opened Sequences

  /** The line written for one record: its fields joined by single spaces. */
  function Line(r: Record): string
  {
    r.debtor + " " + (r.creditor + " " + NumberText(r.amount))
  }

  /** The lines of the records, in ledger order. */
  function LinesOf(ds: seq<Record>): (lines: seq<string>)
    ensures |lines| == |ds|
  {
    if ds == [] then [] else LinesOf(ds[..|ds| - 1]) + [Line(ds[|ds| - 1])]
  }

  lemma {:induction false} LinesOfIndex(ds: seq<Record>, k: nat)
    requires k < |ds|
    ensures LinesOf(ds)[k] == Line(ds[k])
  {
    var n := |ds| - 1;
    var front := LinesOf(ds[..n]);
    assert LinesOf(ds) == front + [Line(ds[n])];
    assert |front| == n;
    if k < n {
      LinesOfIndex(ds[..n], k);
      assert ds[..n][k] == ds[k];
      assert LinesOf(ds)[k] == front[k];
    } else {
      assert LinesOf(ds)[k] == Line(ds[n]);
    }
  }

  /** The text written to the snapshot file. */
  function Snapshot(ds: seq<Record>): string
  {
    Terminated(LinesOf(ds), '\n')
  }

  /** Writing one more record appends its line and a newline. */
  lemma SnapshotPrefix(ds: seq<Record>, i: nat)
    requires i < |ds|
    ensures Snapshot(ds[..i + 1]) == Snapshot(ds[..i]) + Line(ds[i]) + "\n"
  {
    var p := ds[..i + 1];
    assert p[..i] == ds[..i] && p[i] == ds[i];
    TerminatedAppend(LinesOf(ds[..i]), Line(ds[i]), '\n');
  }

  datatype LineResult = Blank | Corrupt | Entry(record: Record)

  /**
    * One line of the file: empty lines are skipped, a line whose third field
    * does not parse to a nonzero number is corrupt, any other line is a record
    * of its first two fields and that number.
    */
  function ParseLine(line: string): (res: LineResult)
    ensures res.Blank? <==> line == ""
    ensures res.Entry? ==> res.record.amount != 0
  {
    if line == "" then Blank
    else
      var items := Split(line, ' ');
      var amount := if |items| >= 3 then ParseInt(items[2]) else None;
      if amount.None? || amount.value == 0 then Corrupt
      else Entry(Record(items[0], items[1], amount.value))
  }

  /** The records held after the loader has gone through `lines` in order. */
  function LoadLines(lines: seq<string>): seq<Record>
  {
    if lines == [] then []
    else
      var before := LoadLines(lines[..|lines| - 1]);
      match ParseLine(lines[|lines| - 1])
      case Blank => before
      case Corrupt => []
      case Entry(r) => before + [r]
  }

  /** The ledger loaded from the snapshot file, `None` when it cannot be read. */
  function LoadSnapshot(saved: Option<string>): seq<Record>
  {
    match saved
    case None => []
    case Some(text) => LoadLines(Split(text, '\n'))
  }

  /** A name the snapshot can carry: the file separates fields by spaces and records by newlines. */
  predicate PlainName(name: string) { ' ' !in name && '\n' !in name }

  predicate Storable(r: Record) { PlainName(r.debtor) && PlainName(r.creditor) && r.amount != 0 }

  lemma NumberTextIsPlain(n: int)
    ensures PlainName(NumberText(n)) && NumberText(n) != ""
  {
    NumberTextChars(n);
  }

  /** A line of three space-free fields splits back into them. */
  lemma SplitFields(a: string, b: string, c: string)
    requires ' ' !in a && ' ' !in b && ' ' !in c
    ensures Split(a + " " + (b + " " + c), ' ') == [a, b, c]
  {
    assert Split(c, ' ') == [c];
    SplitCons(b, ' ', c);
    SplitCons(a, ' ', b + " " + c);
  }

  /** Every storable record's line reads back as that record. */
  lemma ParseLineOfLine(r: Record)
    requires Storable(r)
    ensures ParseLine(Line(r)) == Entry(r)
  {
    NumberTextIsPlain(r.amount);
    SplitFields(r.debtor, r.creditor, NumberText(r.amount));
    ParseNumberText(r.amount);
  }

  /** An empty line loads nothing. */
  lemma LoadBlank()
    ensures LoadLines([""]) == []
  {
    assert [""][..0] == [];
  }

  /** The loader's step for the next line of a file. */
  lemma LoadLinesPrefix(lines: seq<string>, i: nat)
    requires i < |lines|
    ensures LoadLines(lines[..i + 1]) ==
      match ParseLine(lines[i])
      case Blank => LoadLines(lines[..i])
      case Corrupt => []
      case Entry(r) => LoadLines(lines[..i]) + [r]
  {
    var p := lines[..i + 1];
    assert p[..i] == lines[..i] && p[i] == lines[i];
  }

  /** The loader's step for one more line. */
  lemma LoadLinesSnoc(lines: seq<string>, line: string)
    ensures LoadLines(lines + [line]) ==
      match ParseLine(line)
      case Blank => LoadLines(lines)
      case Corrupt => []
      case Entry(r) => LoadLines(lines) + [r]
  {
    assert (lines + [line])[..|lines|] == lines;
  }

  lemma {:induction false} LoadLinesOfLines(ds: seq<Record>)
    requires forall k :: 0 <= k < |ds| ==> Storable(ds[k])
    ensures LoadLines(LinesOf(ds)) == ds
  {
    if ds != [] {
      var n := |ds| - 1;
      var r := ds[n];
      ParseLineOfLine(r);
      assert LinesOf(ds) == LinesOf(ds[..n]) + [Line(r)];
      LoadLinesSnoc(LinesOf(ds[..n]), Line(r));
      LoadLinesOfLines(ds[..n]);
      SplitLast(ds);
    }
  }

  /**
    * Round trip: loading the text written for records whose names hold no
    * space or newline and whose amounts are nonzero gives the same records
    * in the same order.
    */
  lemma SnapshotRoundTrip(ds: seq<Record>)
    requires forall r | r in ds :: Storable(r)
    ensures LoadSnapshot(Some(Snapshot(ds))) == ds
  {
    var lines := LinesOf(ds);
    forall k | 0 <= k < |lines| ensures '\n' !in lines[k] {
      LinesOfIndex(ds, k);
      assert ds[k] in ds;
      NumberTextIsPlain(ds[k].amount);
    }
    SplitTerminated(lines, '\n');
    assert (lines + [""])[..|lines|] == lines;
    LoadLinesOfLines(ds);
  }

  /**
    * A corrupt line throws away every record loaded before it, and the lines
    * after it load as if the file started there.
    */
  lemma {:induction false} CorruptLineDiscardsEarlier(before: seq<string>, bad: string, after: seq<string>)
    requires ParseLine(bad).Corrupt?
    ensures LoadLines(before + [bad] + after) == LoadLines(after)
  {
    var head := before + [bad];
    if after == [] {
      AppendEmpty(head);
      LoadLinesSnoc(before, bad);
    } else {
      var n := |after| - 1;
      DropLastOfAppend(head, after);
      CorruptLineDiscardsEarlier(before, bad, after[..n]);
    }
  }

  /**
    * A line whose amount field is all decimal digits is corrupt exactly when
    * they stand for 0 (as "0" or "00" do), and otherwise loads as the record it names.
    */
  lemma DigitAmountLine(debtor: string, creditor: string, digits: string)
    requires ' ' !in debtor && ' ' !in creditor && digits != [] && AllDigits(digits)
    ensures ParseLine(debtor + " " + (creditor + " " + digits)) ==
      if DecimalValue(digits) == 0 then Corrupt else Entry(Record(debtor, creditor, DecimalValue(digits)))
  {
    assert ' ' !in digits by {
      forall k | 0 <= k < |digits| ensures digits[k] != ' ' {
        assert IsDigit(digits[k]);
      }
    }
    SplitFields(debtor, creditor, digits);
    ParseAllDigits(digits);
  }

  /** A line whose amount field is not a number is corrupt. */
  lemma NaNAmountIsCorrupt(debtor: string, creditor: string, amount: string)
    requires ' ' !in debtor && ' ' !in creditor && ' ' !in amount && ParseInt(amount).None?
    ensures ParseLine(debtor + " " + (creditor + " " + amount)) == Corrupt
  {
    SplitFields(debtor, creditor, amount);
  }

  /**
    * A snapshot whose last line is corrupt loads as an empty ledger, whatever
    * the lines before it hold.
    */
  lemma CorruptLastLineEmptiesLoad(lines: seq<string>, bad: string)
    requires forall k :: 0 <= k < |lines| ==> '\n' !in lines[k]
    requires '\n' !in bad && ParseLine(bad).Corrupt?
    ensures LoadSnapshot(Some(Terminated(lines + [bad], '\n'))) == []
  {
    var parts := lines + [bad];
    SeparatorFreeSnoc(lines, bad, '\n');
    SplitTerminated(parts, '\n');
    CorruptLineDiscardsEarlier(lines, bad, [""]);
    LoadBlank();
  }

  /**
    * The snapshot "A B 10\nA C x\n", whose last record line has a non-numeric
    * amount, loads as an empty ledger.
    */
  lemma NonNumericAmountEmptiesLoad(good: string, bad: string)
    requires good == "A B 10" && bad == "A C x"
    ensures LoadSnapshot(Some(Terminated([good, bad], '\n'))) == []
  {
    var x := "x";
    assert ParseInt(x) == None by {
      assert TrimStart(x) == x;
      assert DecimalPrefix(x) == [];
    }
    assert bad == "A" + " " + ("C" + " " + x);
    NaNAmountIsCorrupt("A", "C", x);
    assert '\n' !in good && '\n' !in bad;
    CorruptLastLineEmptiesLoad([good], bad);
    assert [good] + [bad] == [good, bad];
  }
}
