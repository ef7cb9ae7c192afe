# Debt ledger

A model of the `debt` command of the strapbots chat bot (`debt/index.js`).
The command keeps a ledger of obligations "debtor owes creditor amount" and
does four things with it:

- It merges each new obligation into the first record for the same ordered pair of parties.
- After each insertion it nets the debtor and then the creditor out of transitive chains. A party who both owes and is owed has the two flows replaced by a direct bypass record.
- It writes the ledger as a text snapshot of one `debtor creditor amount` line per record, and reads that snapshot back whenever a command finds the ledger empty.
- It answers queries with a statement of one party's debts and credits, or with a listing of the whole ledger.

The ledger is the class `Service.Ledger`. Its field `debts: seq<Record>` is the module-level array of the source.

- Its methods (`Load`, `MergeDebt`, `ReduceDebts`, `NetPair`, `TakeOff`,
  `Serialize`, `AddDebt`, `Partition`, `ShowDebt`, `Dispatch`) change or read that field.
- Their loops follow the source's loops: a `forEach`, the `some` scan, and the netting `while`.
- Each method is proved against a pure specification function:
  - `Merged` for the merge;
  - `NetAt`/`Step` and `Reduced` for one netting pass and for the netting loop run to its end;
  - `Snapshot` and `LoadLines` for the text format;
  - `Report` for the query text.
- The properties of the source are proved as lemmas about those functions.

Modules:

- `Records`: the record and the sums over a ledger. These are the balance of a party and the *exposure* of a party, which is the sum of the amounts of the records it takes part in.
- `Merge`: merge-on-insert.
- `Netting`: one pass of `reduceDebts` and the loop to its end. It holds balance conservation, well-formedness, termination, the exit condition, idempotence, and the preservation of the records not involving the party.
- `Insertion`: `addDebt` as merge, then netting of the debtor, then netting of the creditor. It also has worked scenarios.
- `Text` and `Numbers`: `String.prototype.split` with a one-character separator, JavaScript's rendering of an integer, and `parseInt` with no radix.
- `SnapshotStore`: the serialiser and the loader, the round trip, and corrupt-line behaviour.
- `QueryView`: the texts of `showDebt`.
- `Service`: the ledger class and the command dispatcher.
- `Sequences` and `Wrappers`: generic facts about sequences and the `Option` type (`None` also stands for NaN).

A *well-formed* ledger holds only records with a positive amount between two different parties. The positive amounts are what make the netting end: each pass lowers the party's exposure (`Netting.PositiveStepLowersExposure`), even when a self-debt is involved. The distinct parties are the other half, which the exit condition and the settled-party facts rely on. A positive self-debt is not netted away: `add A A 5` on an empty ledger stores `A owes A 5`. Every path through the corrected dispatcher keeps the ledger well formed.

## Model

| member | source | states |
|---|---|---|
| Merge.FirstPairIdx | debt/index.js:58-65 | finds the first record for the ordered pair, or reports that no record has that pair |
| Merge.Merged | debt/index.js:58-67 | if the pair occurs, only its first record changes, gaining `amount`, and the length stays the same; otherwise exactly one record is appended; well-formedness is kept for a positive amount between different parties |
| Merge.MergedBalance | debt/index.js:58-67 | for any amount and any two parties, the merge lowers the debtor's balance by `amount`, raises the creditor's by `amount` and leaves every other balance unchanged |
| Merge.MergedParties | debt/index.js:58-67 | the merge makes only the debtor a new debtor and only the creditor a new creditor |
| Netting.FirstDebtIdx | debt/index.js:129-136 | the first index at which the party is the debtor, or none |
| Netting.FirstCreditIdx | debt/index.js:129-136 | the first index at which the party is the creditor and not also the debtor (the `else if`), or none |
| Netting.PendingIff | debt/index.js:137 | the loop condition holds for a party exactly when it is among the debtors and among the creditors of the ledger |
| Netting.BypassAt | debt/index.js:140-146 | the bypass is at most one record, from C's debtor to D's creditor, carrying the netted amount; it is empty exactly when those two are the same party, so it is never a self-debt |
| Netting.Decrement | debt/index.js:151-161 | taking the netted amount off a record makes the ledger one record shorter exactly when the amount is all the record holds, and otherwise keeps its length |
| Netting.DecrementSlices | debt/index.js:151-161 | the records before and after the decremented one are untouched, and in its place stands nothing when the amount is all it holds, otherwise the same record with the amount taken off |
| Netting.NetAtShape | debt/index.js:138-161 | for `NetAt`, one pass of the loop body: one of the two matched records holds exactly the netted amount; every other record keeps its place and amount; the bypass is appended last |
| Netting.NetAtConservesBalance | debt/index.js:138-161 | `NetAt` on a credit to a party and a debt of that party leaves every party's net balance unchanged |
| Netting.StepConservesBalance | debt/index.js:138-161 | `Step`, the pass `reduceDebts(u)` takes on its first credit and first debt, keeps the balance of every party, including `u` and both counter-parties |
| Netting.NetAtWellFormed | debt/index.js:138-161 | on a well-formed ledger, one pass leaves every surviving amount positive, creates no self-debt, and never makes the ledger longer |
| Netting.NetAtExposure | debt/index.js:138-161 | one pass lowers the amounts the party takes part in by twice the netted amount when its debt is to another party |
| Netting.PositiveStepLowersExposure | debt/index.js:137-172 | when every amount is positive, each pass strictly lowers the party's exposure, self-debts included, so positive amounts alone make the loop end |
| Netting.NetAtParties | debt/index.js:138-161 | one pass makes nobody a debtor or a creditor who was not one already |
| Netting.StepProgress | debt/index.js:137-172 | each iteration keeps the ledger well formed, does not grow it, and strictly lowers the party's exposure, which stays non-negative, so the loop ends |
| Netting.Reduced | debt/index.js:126-174 | the loop's result is well formed, no longer than its input, and leaves the party with nothing to net |
| Netting.ReducedConservesBalance | debt/index.js:126-174 | the whole netting loop leaves every party's net balance unchanged |
| Netting.ReducedSettlesParty | debt/index.js:163-173 | on exit the party is not the debtor of any record, or is not the creditor of any record |
| Netting.ReducedIdempotent | debt/index.js:129-137 | netting a party right after it was netted changes nothing |
| Netting.ReducedParties | debt/index.js:126-174 | the whole loop makes nobody a new debtor or a new creditor |
| Netting.Bypasses | debt/index.js:140-146 | every bypass the loop for `u` appends has a positive amount between two different parties, neither of them `u` |
| Netting.NetAtKeepsUnrelated | debt/index.js:140-161 | the records not involving the party survive a pass in order and with their amounts, followed only by the bypass |
| Netting.StepKeepsUnrelated | debt/index.js:140-161 | the same, for the pass the loop takes on the first credit and the first debt |
| Netting.ReducedKeepsUnrelated | debt/index.js:137-173 | after the whole loop, the records not involving the party are exactly those of the input, in order and with their amounts, followed by the loop's bypasses (`Bypasses`) |
| Insertion.Added | debt/index.js:58-70 | after merge and netting of both ends, the ledger is well formed and neither the debtor nor the creditor has anything left to net |
| Insertion.AddedBalance | debt/index.js:58-70 | after `addDebt`, the debtor's balance is lower by `amount`, the creditor's higher by `amount` and every other balance unchanged |
| Insertion.AddedKeepsPartiesSettled | debt/index.js:58-70 | if no party both owes and is owed before an `addDebt`, none does after it, and the ledger after it holds no two debts in opposite directions between the same two parties |
| Insertion.AddToEmpty | debt/index.js:58-70 | `A owes B 10` on an empty ledger is stored as it is |
| Insertion.AddMergesSamePair | debt/index.js:58-67 | a second debt for the same pair is merged into one record of 15 |
| Insertion.AddNetsChain | debt/index.js:138-161 | A owes B 10, then B owes C 4: the ledger becomes A owes B 6 and A owes C 4 |
| Insertion.AddCancelsOpposite | debt/index.js:138-161 | A owes B 5, then B owes A 5: the two cancel, no bypass is created, and the ledger is empty |
| Insertion.BypassMayRepeatPair | debt/index.js:140-146 | the bypass is appended without merging, so the pair A, C can end up with two records |
| Numbers.Digits | debt/index.js:75 | the decimal digits of a number read back as the number and have no leading zero, except for 0 itself |
| Numbers.NumberTextChars | debt/index.js:75 | `NumberText`, the rendering of an integer, is nonempty and made of digits and a minus sign |
| Numbers.ParseDigits | debt/index.js:26 | `ParseInt` reads the digits of a non-negative number back as that number |
| Numbers.ParseMinusDigits | debt/index.js:26 | `ParseInt` reads a minus sign followed by digits back as the negated number |
| Numbers.ParseNumberText | debt/index.js:26 | `ParseInt`, `parseInt` with no radix, reads back every integer that `NumberText` writes |
| Numbers.ParseUnsignedDigits | debt/index.js:26 | a string of decimal digits is read in full as its decimal value, not as a hexadecimal prefix |
| Numbers.DecimalPrefix | debt/index.js:26 | `parseInt` stops at the first character that is not a digit |
| Numbers.TrimStartDrops | debt/index.js:26 | `parseInt` starts reading after the leading white space: what it reads is a suffix of the input, everything before that is white space, and it does not itself start with white space |
| Text.Split | debt/index.js:18-19 | `split` gives at least one piece, and no piece holds the separator |
| Text.SplitCons | debt/index.js:23 | splitting at the first separator peels off the piece before it |
| Text.TerminatedAppend | debt/index.js:74-76 | text accumulated piece by piece, each piece followed by the separator, grows by one piece and one separator at a time |
| Text.SplitTerminated | debt/index.js:18-19 | splitting such text gives the pieces back, followed by one empty piece after the last separator |
| SnapshotStore.LinesOf | debt/index.js:74-76 | one line per record |
| SnapshotStore.LinesOfIndex | debt/index.js:74-76 | line `k` is `Line` of record `k`, in ledger order |
| SnapshotStore.SnapshotPrefix | debt/index.js:74-76 | `Snapshot`, the text the serialiser accumulates, grows by one record's line and a newline at a time |
| SnapshotStore.ParseLine | debt/index.js:21-32 | a line is skipped exactly when it is empty, and a loaded record never has amount 0 |
| SnapshotStore.NumberTextIsPlain | debt/index.js:75 | a rendered amount holds no space and no newline |
| SnapshotStore.SplitFields | debt/index.js:23-26 | a line of three space-free fields splits back into them |
| SnapshotStore.ParseLineOfLine | debt/index.js:21-40 | `Line` of a storable record parses back as that record |
| SnapshotStore.LoadLinesOfLines | debt/index.js:20-43 | `LoadLines`, the loader's `forEach`, gives back the storable records whose lines it reads, in order |
| SnapshotStore.SnapshotRoundTrip | debt/index.js:18-40 | `LoadSnapshot` of the `Snapshot` written for records whose names hold no space or newline and whose amounts are nonzero gives the same records in the same order |
| SnapshotStore.CorruptLineDiscardsEarlier | debt/index.js:28-32 | a corrupt line throws away the records loaded before it, and the lines after it load as if the file started there |
| SnapshotStore.DigitAmountLine | debt/index.js:21-28 | a line whose amount field is all decimal digits is corrupt exactly when they stand for 0 (`0`, `00`, …), and otherwise loads as the record of its two names and that value, leading zeros ignored |
| Numbers.ParseAllDigits | debt/index.js:26 | `ParseInt` reads any nonempty string of decimal digits as its decimal value, leading zeros included |
| SnapshotStore.NaNAmountIsCorrupt | debt/index.js:23-28 | a line whose amount field is not a number is corrupt |
| SnapshotStore.CorruptLastLineEmptiesLoad | debt/index.js:28-32 | a snapshot whose last line is corrupt loads as an empty ledger, whatever the lines before it hold |
| SnapshotStore.NonNumericAmountEmptiesLoad | debt/index.js:28-32 | the snapshot `A B 10`, `A C x` loads as an empty ledger |
| QueryView.DebtsOf | debt/index.js:93-99 | a party's debts are the records in which it is the debtor, each as many times as the ledger holds it |
| QueryView.CreditsOf | debt/index.js:93-99 | a party's credits are the records in which it is the creditor and not the debtor, each as many times as the ledger holds it |
| QueryView.SectionStart | debt/index.js:102 | every section starts with its title line, and a section without rows is that line alone |
| QueryView.SectionAppend | debt/index.js:103-105 | a section grows by one row and one newline at a time |
| QueryView.PartyTextEmpty | debt/index.js:100-114 | `PartyText`, the accumulated statement of a party, is empty exactly when the party has neither debts nor credits |
| QueryView.PartyTextEnd | debt/index.js:100-113 | a nonempty statement ends with a newline |
| QueryView.NoDebtsNorCredits | debt/index.js:93-99 | a party has neither debts nor credits exactly when no record names it |
| QueryView.StatementLines | debt/index.js:100-113 | when no name holds a newline, a statement's lines are the debts title and one row per debt when there are debts, then the credits title and one row per credit when there are credits |
| QueryView.NotFoundIff | debt/index.js:114 | `Report` of a party is "Could not find debts involving: u." exactly when no record names the party, in both directions |
| QueryView.AllReportLines | debt/index.js:116-122 | the lines of `Report` with no party are "Showing all debts:" and then one row per record, in ledger order |
| Service.AppendSection | debt/index.js:102-105 | appends the title line and then one line per row to the response |
| Service.Ledger.constructor | debt/index.js:8 | the ledger starts empty |
| Service.Ledger.Load | debt/index.js:14-49 | a ledger that holds records is left alone; otherwise it becomes the records loaded from the snapshot, or empty when the file cannot be read |
| Service.Ledger.Scan | debt/index.js:129-136 | the scan finds the first debt and the first credit of the party, stopping once both are found |
| Service.Ledger.MergeDebt | debt/index.js:58-67 | the ledger becomes the merged ledger |
| Service.Ledger.TakeOff | debt/index.js:151-161 | the ledger becomes the record decremented in place, or with the record spliced out |
| Service.Ledger.NetPair | debt/index.js:138-161 | the loop body turns the ledger into `NetAt` of the matched credit and debt |
| Service.Ledger.ReduceDebts | debt/index.js:126-174 | the loop ends and leaves the ledger as the netting loop run to its end |
| Service.Ledger.Serialize | debt/index.js:72-76 | the accumulated text is the snapshot of the ledger |
| Service.Ledger.AddDebt | debt/index.js:51-86 | the ledger becomes the merged and netted ledger, and the returned text is its snapshot |
| Service.Ledger.Partition | debt/index.js:91-99 | the party's debts and credits, each in ledger order |
| Service.Ledger.ShowDebt | debt/index.js:88-124 | the response is the report of the party, or the full listing when no party is given; the ledger is read, never changed |
| Service.Ledger.Dispatch | debt/index.js:176-212 | fewer than two arguments, or an `add` the corrected check (`AcceptsAdd`) rejects, give the usage message and change nothing but the load; an accepted `add` records and nets the debt, writes its snapshot and replies with `SuccessReply`, the line at 200-204; `all` and a party name give their reports; the ledger stays well formed |
| Service.AsWrittenCheckAdmitsBadAdds | debt/index.js:192 | the argument check as written (`AcceptsAddAsWritten`) accepts `add B A -1` and `add A A 5` |
| Service.BadAddsReachNettingOfSelfDebt | debt/index.js:58-70 | after those two adds on an empty ledger, `reduceDebts(A)` has the self-debt of A to net |
| Service.SelfDebtNettingNeverEnds | debt/index.js:137-172 | from then on every pass rebuilds the same shape with the self-debt one larger, so the loop never ends |
| Service.AcceptedAddKeepsLedgerWellFormed | debt/index.js:192 | the corrected check accepts only a positive amount between different parties, and every accepted add keeps the ledger well formed and moves the two balances by exactly the amount |

## Left out

- File access (the `readFileSync` of the snapshot, the `writeFile`, their error logging and the callback): `Load` takes the file's text as `Option<string>`, with `None` when it cannot be read. `AddDebt` returns the text it would write. `Dispatch` replies with the success line once that text exists, as the source does: its callback is never handed an error.
- `console.log`, `console.error`, the `logger` and the `response` object: the model returns the reply text.
- `lfmt.format`: modelled as string concatenation with the literal templates.
- The `sort` calls in `showDebt` pass a one-argument comparator that returns a name, so their effect depends on the engine. Statements and the listing are modelled in ledger order, which is what a stable sort gives when every comparison is NaN.
- JavaScript numbers are doubles. Amounts here are unbounded integers: rounding above 2^53 and `parseInt` results that are not safe integers are not modelled.
- The "No debts have yet been added." reply cannot be reached. An array is always truthy, and the listing's title line makes the response nonempty, so the model has no such branch.
- The module-level state: the ledger is one `Ledger` object, and the process lifetime is that object's lifetime.
- The `slackwise` directory (the Splitwise, graphviz and image-upload glue) is not part of this model.
- Service.Ledger.ReduceDebts: requires a well-formed ledger. The positive amounts are needed: with a negative amount the loop need not end (see Findings), so no terminating method can model it there. The distinct parties are needed by the exit-condition proof, not by termination, so a ledger that holds a positive self-debt is not covered.
- Service.Ledger.AddDebt: requires a positive amount between two different parties, so that the ledger stays well formed for `ReduceDebts`. The source's `addDebt` does not check this.
- Service.Ledger.Dispatch: requires the ledger after the load step to be well formed. The loader accepts any nonzero amount and any pair of names, so a snapshot written by hand could hold a negative amount or a self-debt.
- Service.Ledger.Dispatch: uses the corrected argument check `AcceptsAdd` (see Findings), not the one at line 192. `debt add A B -5` and `debt add A A 5` are accepted by the source, which stores the record and replies with the success line. Here they get the usage message and leave the ledger unchanged. With the check as written, an accepted negative amount can make `reduceDebts` loop forever, so no terminating method can follow it. An accepted positive self-debt ends the netting but leaves the ledger outside the well-formed ledgers the model covers.
- Places where the code does something other than what a reader of the command's name and messages might expect. The model follows the code in each:
  - The bypass record is appended, not merged with an existing record for the pair (`Insertion.BypassMayRepeatPair`).
  - A corrupt snapshot line clears only the records loaded before it, and the lines after it still load (`SnapshotStore.CorruptLineDiscardsEarlier`). The log message says the load is aborted.
  - The loader accepts negative amounts.
  - Statements and the listing are not sorted by party.
  - The snapshot is read on every command while the ledger is empty, not once per process (lines 15 and 177; `AfterLoad`). So a ledger that netting emptied, after `add A B 5` and then `add B A 5`, is read back from the file on the next command.

## Findings

| source | as written | input that shows it | evidently intended | confidence | as-written member | corrected member |
|---|---|---|---|---|---|---|
| debt/index.js:192 | `!amount` rejects only 0 and NaN, and nothing compares debtor with creditor | `debt add B A -1` then `debt add A A 5` on an empty ledger: each pass of `reduceDebts(A)` turns `[A owes A k, B owes A -1]` into `[A owes A k+1, B owes A -1]`, so the loop runs forever | accept only a positive amount between two different parties | not executed | Service.SelfDebtNettingNeverEnds | Service.AcceptedAddKeepsLedgerWellFormed |
