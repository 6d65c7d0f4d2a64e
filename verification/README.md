# Verified model of the bank statement importer

This project models the logic of a desktop program that imports bank statements, classifies
their rows for Tally, reconciles them with a Tally daybook and shows a dashboard, and proves
what that logic keeps over all inputs and all runs. It covers six parts:

- **Reconciliation** (`Text`, `Reconciliation`, `ScoreLaws`, `Matcher`, `GreedyMatching`,
  `CsvReport`): the tiered scorer, the matcher that scores every pair, sorts stably and assigns
  greedily, and the CSV report with a decoder for RFC 4180 section 2 (line feeds as line ends).
- **Duplicates and classification** (`Duplicates`, `DuplicateLaws`, `DuplicateCauses`, `Classifier`,
  `ClassifierLaws`): the three in-place passes of duplicate detection, visited in any bucket order,
  and the auto-classification that runs again on every client load.
- **AI classification** (`AiClassifier`): the chunked run with arbitrary replies, failures and a
  cancel flag that may go up at any chunk.
- **Application state** (`Dedupe`, `DedupeLaws`, `BatchRun`, `BatchLaws`, `BatchBooks`, `UndoStack`,
  `UndoLaws`, `RowIndex`, `Calendar`, `Presets`): cross-import dedupe, the resumable batch import
  with its pause, abort and password prompt, the undo stack, the clicked-row translation, and the
  day-count-to-date arithmetic with the date presets.
- **Text safety** (`Utf8`, `TextSafety`): UTF-8 as in RFC 3629 sections 3 and 4, and the helpers
  that cut and search text by byte position.
- **Dashboard and amounts** (`Analytics`, `MonthOrder`, `Dates`, `Decimal`, `IndianFormat`): the accumulating
  loops, the drill-down filter, Indian digit grouping and the two readers of printed amounts.
  `Transactions` holds the row they all share, `Lists` two shapes of lists.

Code that changes state in the program is imperative here (arrays, classes, loops) and proved
against a specification function; the laws are proved about that function. Money is in whole
paise, scores in whole hundredths, similarities and tolerances are exact. What the program
borrows from its tables and libraries (upper-casing, the date normaliser, keyword tables, party
extraction, GST analysis, voucher inference) is an arbitrary function of the fields it reads, so
the theorems hold whatever those tables contain. Scores, repeated rows, locked rows, accepted
rows and batch books are also characterised directly by the fields of the rows and files, apart
from the functions that compute them.

## Where the code does less than one would expect

Each of these is a theorem in the table below.

- Greedy assignment can fall short of the best pairing by a factor of two, attained by inputs of
  the program, and never by more (`Reconciliation.ReportCanBeHalf`, `Reconciliation.ReportHalfOptimal`).
- Matched implies evidence in the texts exactly when the acceptance threshold is above 80
  hundredths; the program's is 90 (`Reconciliation.EvidenceThresholdIsExact`).
- A duplicate flag left over from an earlier run can cost a whole cluster of duplicates; the
  Dedupe button clears the flags first, auto-classification does not. A cluster keeps a row
  exactly when one of its rows is unflagged beforehand and the first with its fingerprint
  (`DuplicateLaws.ClusterKeepsARowIff`, with a cluster lost in `DuplicateLaws.StaleFlagWipesCluster`
  and one kept in `DuplicateLaws.StaleFlagCanSpareCluster`), and some row then leads to no standing
  row exactly when a row is flagged beforehand that repeats no earlier row
  (`DuplicateLaws.EveryRowLeadsToStandingIff`).
- Fingerprints are not unique. Two rows collide exactly when their texts roll to the same word,
  and where narrations differ in one place only that place counts: one changed character never
  collides, two neighbours do exactly like "Aa" and "BB" (`Dedupe.SameFingerprintIff`,
  `Dedupe.NarrationsCollideIff`, `Dedupe.TwoCharactersCollideIff`).
- Pressing Resume while a prompt or a scan is open, or while a stale tick still has a file to
  process, can end the batch by itself with a file missing from its results; in every other
  paused state it cannot (`BatchLaws.ResumeDropsAFileIff`, with runs in
  `BatchLaws.ResumeDuringPromptEndsTheBatch` and `BatchLaws.StaleTickEndsTheBatch`).
- A batch that ends without a single loaded row does not refresh the Batch Monitor
  (`BatchLaws.MonitorShowsResults`, with a run in `BatchLaws.MonitorMissesAFailedBatch`).
- Undo does not restore the classification source, so an undone row stays locked
  (`UndoLaws.UndoneRowStaysLocked`). It overwrites a suspense mark put on the row since the save
  (`UndoLaws.UndoTakesBackOnlyTheSaveIff`, with a session in `UndoLaws.SuspenseMarkIsLost`). Ids of hand-added rows can repeat after a delete, and
  undo then restores the wrong row (`UndoLaws.RepeatedIdUndoesWrongRow`); adding a row is safe
  exactly when no row and no undo entry has its id (`UndoLaws.AddIsSafeIff`).
- The clicked-row translation ignores the vendor and head filters, and skips the bank test on
  rows with an unreadable date while a date filter is on (`RowIndex.AgreeIffNoDivergentRow`,
  `RowIndex.SelectionsAgreeIff`). It would also take "All Banks" for a bank, but the selector
  stores an empty text for that choice.
- A drill-down differs from its bar as soon as some row has no readable date, or a day beyond the
  length the program gives its month (30 days for month numbers above 12)
  (`Analytics.DrillExactIff`, with a statement in `Analytics.UndatedRowSpoilsDrill`).
- The GST scan misses a tax number that ends the text (`TextSafety.ScanFindsAllButTheLast`, with
  texts in `TextSafety.FinalGstinIsMissed`).
- Month bars are sorted by the text of their keys, so years of more than four digits and negative
  years can be out of order (`MonthOrder.BarsAreChronologicalIff`, with a pair in
  `MonthOrder.LongYearSortsFirst`).
- The month presets cast the year to 32 bits before asking for a month's length: they are whole
  months exactly when that changes neither length (`Calendar.PresetsMeetIff`, with a year that
  fails in `Calendar.CastMakesALeapYear`).
- The comment on the AI scope "All" says that manually confirmed rows are left out; the code
  sends every row that is not Manual, Suspense or an opening balance, so a row saved by the user
  can be overwritten (`AiClassifier.SavedRowIsLeftAloneIff`). The model follows the code.

## Model

| member | source | states |
|---|---|---|
| Text.WordsAreRuns | src/reconciliation.rs:143-149 | splitting at non-alphanumeric characters yields exactly the maximal runs of ASCII letters and digits of the text, none lost and none invented |
| Text.TrimMeaning | src/reconciliation.rs:241-243 | trimming takes away the white space at both ends, all of it, and nothing else |
| Reconciliation.SimilarityMeaning | src/reconciliation.rs:155-162 | narration similarity is symmetric, within 0 and 1, positive exactly when a token is shared, and 1 exactly for equal non-empty token sets |
| Reconciliation.SimilarTextsShareARun | src/reconciliation.rs:143-162 | a positive similarity has a witness: a run of four or more characters that stands whole in both narrations |
| ScoreLaws.TokensAreRuns | src/reconciliation.rs:143-152 | the tokens compared are exactly the runs of four or more letters and digits of the upper-cased narration |
| ScoreLaws.SimilarityIsTheSharedPart | src/reconciliation.rs:155-163 | similarity is the number of shared tokens over the number of tokens of either narration, and 0 when one has none |
| Reconciliation.ScoreRange | src/reconciliation.rs:199-248 | a score is 0 or between 15 and 100 hundredths, and positive exactly when amounts are within twice the tolerance and the day gap within its outer window |
| Reconciliation.ScoreFallsWithDays | src/reconciliation.rs:216-230 | a wider day gap never raises the score |
| Reconciliation.ScoreRisesWithSimilarity | src/reconciliation.rs:232-248 | a closer narration never lowers the score |
| ScoreLaws.ScoreRisesWithCloserAmount | src/reconciliation.rs:199-214 | a voucher amount closer to the bank's, from above or from below, never lowers the score |
| ScoreLaws.AmountsAreSizes | src/reconciliation.rs:169-180 | only the sizes of the amounts count, and the two sides are treated alike |
| ScoreLaws.ReferenceBonusOfRows | src/reconciliation.rs:240-248 | equal trimmed references that are not blank add 20 hundredths, up to 100, to a pair that is not rejected; any other reference is as good as none |
| ScoreLaws.NarrationBonus | src/reconciliation.rs:232-238 | closeness of narrations alone adds 20 hundredths from 0.8 on, 15 times itself, rounded, from the minimum on, and nothing below it |
| ScoreLaws.NarrationBonusOfRows | src/reconciliation.rs:199-248 | in the rows' own fields: exactly that is what the voucher's narration adds to the score it has with a blank one |
| ScoreLaws.BareScore | src/reconciliation.rs:199-248 | the score of any two dated rows of positive amounts without text, tier by tier, from the amounts' distance in per cent and the dates' in milliseconds |
| ScoreLaws.UndatedIsRejected | src/reconciliation.rs:216-220 | an unreadable date on either side rejects the pair |
| ScoreLaws.TierRisesWithScore | src/reconciliation.rs:251-261 | a higher score never has a lower tier, under any thresholds |
| ScoreLaws.DefaultTiers | src/reconciliation.rs:251-261 | with the program's thresholds, Matched is exactly 90 and more, Likely 40 to 89, Possible 1 to 39 |
| ScoreLaws.DefaultNeedsTextEvidence | src/reconciliation.rs:199-261 | with the program's thresholds every Matched pair has equal references or a shared run, for every tolerance and window |
| Reconciliation.MatchedNeedsTextEvidence | src/reconciliation.rs:199-261 | above a threshold of 80 a pair is Matched only with equal non-blank references or a shared run of four or more characters |
| Reconciliation.BareEqualPairScores80 | src/reconciliation.rs:199-248 | any two equal positive amounts on one day, without any text, score exactly 80 and have no text evidence |
| Reconciliation.EvidenceThresholdIsExact | src/reconciliation.rs:199-261 | for every non-negative tolerance, Matched implies text evidence for all rows and vouchers of positive amounts if and only if the threshold is above 80 |
| GreedyMatching.SortKeepsElements | src/reconciliation.rs:282-284 | ranking the candidates is a permutation: none is lost, added or repeated |
| GreedyMatching.SortRanks | src/reconciliation.rs:282-284 | candidates generated in index order come out in strict order of score, then bank index, then voucher index: the sort is stable |
| GreedyMatching.GreedyShape | src/reconciliation.rs:286-301 | the greedy choice is one-to-one, ranked, drawn from the candidates, and every candidate left out is blocked by a chosen one that precedes it |
| GreedyMatching.UniqueStableChoice | src/reconciliation.rs:286-301 | any set of candidates that is one-to-one and blocks what it leaves out is the greedy one |
| GreedyMatching.ChargingBound | src/reconciliation.rs:286-301 | a one-to-one rival whose every pair shares an endpoint with a chosen pair scoring no lower totals at most twice the chosen total |
| GreedyMatching.GreedyHalfOptimal | src/reconciliation.rs:286-301 | every one-to-one rival among the candidates has at most twice the score and twice the number of pairs |
| Matcher.OfferedShape | src/reconciliation.rs:272-284 | what is offered to the assignment is exactly the pairs of positive score with their true score, ranked |
| Matcher.OutcomePartitions | src/reconciliation.rs:286-304 | matches and left-over lists account for every bank row and every voucher exactly once |
| Matcher.UniqueOutcome | src/reconciliation.rs:272-304 | for every score table, a set of pairs is a true-scored one-to-one assignment that misses no pair if and only if it is the greedy outcome |
| Matcher.OutcomeHalfOptimal | src/reconciliation.rs:272-304 | for every score table, no one-to-one pairing of rows and vouchers, whatever its scores, totals more than twice the outcome |
| Matcher.FactorTwoIsTight | src/reconciliation.rs:272-304 | at every score level, three equal scores and one rejected pair make a rival total exactly twice the outcome |
| Reconciliation.Score | src/reconciliation.rs:273-281 | the nested loops generate exactly the specified candidates, in order |
| Reconciliation.UnusedIndices | src/reconciliation.rs:303-304 | the left-over list is increasing and holds exactly the indices not marked as used |
| Reconciliation.Assign | src/reconciliation.rs:286-304 | the loop over used-flags makes the greedy choice, gives each match the status of its score, and lists exactly the free indices of both sides |
| Reconciliation.Reconcile | src/reconciliation.rs:272-311 | the report is an assignment without a missed pair, and matched plus unmatched is the number of rows on each side |
| Reconciliation.ReportIsTheOnlyStableOne | src/reconciliation.rs:272-311 | a set of pairs is an assignment without a missed pair of this problem if and only if it is the report's |
| Reconciliation.ReportHalfOptimal | src/reconciliation.rs:272-311 | no rival one-to-one pairing of rows and vouchers totals more than twice the report |
| Reconciliation.ReportCanBeHalf | src/reconciliation.rs:272-311 | equal payments on three consecutive days, with no date tolerance, make every report total 100 and a rival pairing 200 |
| Reconciliation.ReportedMatch | src/reconciliation.rs:272-311 | a reported match carries its true score, at least 15, never the tier Unmatched, and scores never rise down the list |
| CsvReport.DecodeDoubled | src/reconciliation.rs:393-395 | a text with its quotes doubled, read inside quotes, is the text, whatever it contains |
| CsvReport.DecodeLine | src/reconciliation.rs:398-455 | a printed line decodes to its fields, whatever commas, quotes or line feeds they contain |
| CsvReport.ReportDecodes | src/reconciliation.rs:398-457 | decoding a printed report gives the header and exactly its records, in order |
| CsvReport.PrintingIsInjective | src/reconciliation.rs:398-457 | reports that print alike have the same records: no field can imitate another field or line |
| CsvReport.ReportToCsv | src/reconciliation.rs:398-457 | the loops over matches and unmatched rows produce a text that decodes to the header and one nine-field record for each |
| CsvReport.MatchColumns | src/reconciliation.rs:399-420 | under each name of the header a match's line holds what the name says, amounts to the paisa and the score as a percentage |
| CsvReport.StatusColumns | src/reconciliation.rs:404-455 | the first column tells the tiers and the two kinds of left-over rows apart |
| CsvReport.LeftOverColumns | src/reconciliation.rs:421-455 | a left-over row fills the columns of its own side and leaves the other side's blank |
| CsvReport.RecordAt | src/reconciliation.rs:398-457 | the lines are the matches, then the bank rows left over, then the vouchers left over, each in the report's order |
| CsvReport.ReportCanBePrinted | src/reconciliation.rs:398-457 | every report of a reconciliation has its indices in range, and yields as many records as there are rows and vouchers, matches counted once |
| Duplicates.RunPass1 | src/classifier.rs:1287-1305 | marking in place while walking equals marking every row whose fingerprint occurs in an earlier eligible row |
| Duplicates.RunPass2 | src/classifier.rs:1307-1349 | the same for equal reference numbers with equal amounts, among eligible rows not yet flagged |
| Duplicates.ScanFrom | src/classifier.rs:1394-1406 | the inner loop marks exactly the later, unflagged rows of the bucket that are similar, and touches nothing else |
| Duplicates.ScanBucket | src/classifier.rs:1386-1408 | the nested loops mark exactly the rows of the bucket that fall to an earlier similar row that did not fall itself |
| Duplicates.FillBuckets | src/classifier.rs:1371-1385 | every bucket lists exactly its rows, in order, and no row is without its bucket |
| Duplicates.RunPass3 | src/classifier.rs:1351-1409 | visiting the buckets in any order gives one and the same result |
| Duplicates.DetectDuplicates | src/classifier.rs:1284-1409 | the three in-place passes compute a function of the rows, so bucket order cannot show |
| DuplicateCauses.RepeatsIffCause | src/classifier.rs:1284-1409 | one row repeats another if and only if, by their own fields, both are compared and they share the fingerprint of date, narration and amounts, a trimmed reference of four or more digits with a positive amount, or a day and a positive debit or credit with half of the tokens |
| DuplicateCauses.NewFlagHasACause | src/classifier.rs:1284-1409 | from any starting flags, a row that detection flags has such a cause in an earlier row |
| DuplicateCauses.UnflaggedRowsHaveNoCause | src/classifier.rs:1284-1409 | from any starting flags, no two rows left unflagged are causes for each other |
| DuplicateCauses.DetectionOnlyMarks | src/classifier.rs:1284-1409 | detection sets the flag and one tag and changes nothing else; opening balances and rows added by hand not even that |
| DuplicateCauses.DigitsCounted | src/classifier.rs:211-213 | the count behind a reference number is the number of its digit places |
| DuplicateLaws.SurvivorsDoNotRepeat | src/classifier.rs:1284-1409 | from any starting flags, no two rows left unflagged repeat each other by fingerprint, reference and amount, or similarity within a bucket |
| DuplicateLaws.EveryRowHasASurvivor | src/classifier.rs:1284-1409 | from any starting flags, every row leads through at most three strictly earlier repeats to a row left standing or one flagged from the start |
| DuplicateLaws.NoClusterWipedOut | src/classifier.rs:1284-1409 | from cleared flags that chain always ends in a row left standing: no cluster is wiped out |
| DuplicateLaws.EveryRowLeadsToStandingIff | src/classifier.rs:1284-1409 | from any starting flags, every eligible row leads through earlier repeats to a row left standing if and only if no eligible row is flagged beforehand without an earlier row that it repeats |
| DuplicateLaws.ClusterKeepsARowIff | src/classifier.rs:1284-1409 | from any starting flags, rows closed under repetition keep a standing row if and only if one of them is unflagged beforehand and the first with its fingerprint |
| DuplicateLaws.UnrepeatingRowStandsIff | src/classifier.rs:1284-1409 | a row that repeats no earlier row stands exactly when it is not flagged beforehand |
| DuplicateLaws.ClusterKeepsItsFirst | src/classifier.rs:1284-1409 | a cluster whose first row is not flagged beforehand keeps that row |
| DuplicateLaws.StaleFlagCanSpareCluster | src/classifier.rs:1284-1409 | three rows where the first is stale, the second falls to it, and the third, which repeats only the second, stands |
| DuplicateLaws.StaleFlagWipesCluster | src/main.rs:4686-4690 | why the flags are cleared first: with a stale flag on the first of two identical rows, both end up flagged |
| DuplicateLaws.DetectAgain | src/classifier.rs:1284-1409 | from any starting flags a second detection changes nothing |
| DuplicateLaws.DetectWithout | src/classifier.rs:1284-1409 | dropping an exempt row before detection is dropping it afterwards |
| DuplicateLaws.ExemptRowsHaveNoInfluence | src/classifier.rs:1284-1409 | deleting all manual and opening-balance rows changes no flag on the rows that remain |
| Classifier.FirstRuleWins | src/classifier.rs:216-221 | the rule applied is the first of the stored rules that applies |
| Classifier.NoRuleNoMatch | src/classifier.rs:216-221 | no rule is found exactly when none applies |
| ClassifierLaws.RuleOutcome | src/classifier.rs:216-324 | the first rule whose upper-cased pattern stands in the upper-cased narration and reference names vendor, head and type where it is not blank, with confidence 0.9 for a client's own rule and 0.6 otherwise; a type still unknown follows cash words, then the only side with an amount; a head still blank is filled by the tax analysis only when both switches are on |
| ClassifierLaws.KeywordOutcome | src/classifier.rs:223-324 | where no rule's pattern occurs, the keyword's vendor, head and type are taken whole, blanks too, with confidence 0.45, and completed in the same way |
| ClassifierLaws.PartyOutcome | src/classifier.rs:223-324 | where neither does, a party in the text becomes the vendor, head and type stay or are completed in the same way, and the row is unreviewed with confidence 0 |
| ClassifierLaws.TagOutcome | src/classifier.rs:223-324 | the tags afterwards are the old ones, the one of the tax words, and "GST" exactly when the analysis finds something |
| ClassifierLaws.GstOutcome | src/classifier.rs:223-324 | the tax fields are those of the analysis of the classified row when it is switched on and finds something, and stay otherwise |
| Classifier.RulesComeFirst | src/classifier.rs:223-324 | a row's source is "rule" exactly when a stored rule applies, and a row stays unreviewed only when neither a rule nor a keyword does |
| Classifier.ClassifyMeaning | src/classifier.rs:223-324 | classifying twice is classifying once; imported fields and the duplicate flag are untouched; classification never locks a row |
| Classifier.ClassifyOne | src/classifier.rs:223-324 | the field-by-field assignments, with inference, tagging and GST afterwards, compute the specified classification |
| Classifier.RunAuto | src/classifier.rs:26-72 | the loop classifies exactly the touchable rows and counts exactly those whose status, vendor, head or confidence differ |
| Classifier.RunClassifyAll | src/classifier.rs:26-80 | with duplicate detection on or off, the returned number is exactly the number of rows whose reported fields changed |
| ClassifierLaws.SettledRowsAreKept | src/classifier.rs:106-120 | opening balances, rows added by hand, suspense rows, rows of the user or the AI, and rows Classified with full confidence keep every field but the duplicate mark |
| ClassifierLaws.OtherRowsAreReclassified | src/classifier.rs:26-120 | every other row is classified afresh, its earlier source forgotten |
| ClassifierLaws.SuspenseStays | src/classifier.rs:106-120 | a suspense row is still one after every run, with its vendor and head |
| ClassifierLaws.MarksAfterwards | src/classifier.rs:26-80 | with detection on, no two rows left unflagged repeat each other as classified; with it off, no mark changes |
| ClassifierLaws.CountIsOfChangedRows | src/classifier.rs:26-80 | the number reported is the number of rows whose status, vendor, head or confidence differ |
| Classifier.MarkingIsNotAChange | src/classifier.rs:26-80 | duplicate detection never adds to the number of changed rows |
| Classifier.ClassifyAllAgain | src/classifier.rs:26-120 | with the same rules and settings a second run changes no field of any row and reports no change |
| Classifier.ClassifyAllFrame | src/classifier.rs:26-120 | every run keeps the set of locked rows, the classification of locked and opening-balance rows, and all imported fields |
| AiClassifier.EligibleIndices | src/ai_classifier.rs:60-77 | the rows to send are exactly the eligible ones, in order |
| AiClassifier.ParseAiResponse | src/ai_classifier.rs:533-565 | replies map back by position: extra items are dropped, missing ones leave their rows unanswered |
| AiClassifier.ApplyResults | src/ai_classifier.rs:137-168 | exactly the answered rows change, each to its own answer, and the count is their number |
| AiClassifier.SendChunk | src/ai_classifier.rs:117-174 | one chunk extends the run to its end and adds exactly the rows it answered to the count |
| AiClassifier.ClassifyWithAi | src/ai_classifier.rs:85-177 | for every sequence of replies and every cancellation point, rows end as answered, the count is the number of answered rows, and a blank key changes nothing |
| AiClassifier.ApplyMeaning | src/ai_classifier.rs:139-165 | an answered row is Classified by "ai", has a confidence within 0 and 1, keeps its imported fields and is locked |
| AiClassifier.RunFrame | src/ai_classifier.rs:60-177 | only eligible rows change, each at most once and only to its own answer, and the count never exceeds the eligible rows |
| AiClassifier.LeftAloneIff | src/ai_classifier.rs:60-177 | a row stays as it was in every world, whatever the replies, if and only if it is not eligible: every eligible row can be overwritten |
| AiClassifier.LeftAloneByFields | src/ai_classifier.rs:60-77 | in the row's own fields: it is safe if and only if it is an opening balance, Manual, Suspense or, outside scope "All", Classified with confidence at least 0.6 |
| AiClassifier.AnswerGoesToItsRow | src/ai_classifier.rs:117-168 | item q of the reply to chunk c goes, field by field, to eligible row 15c+q: blank names and unknown types leave the row's own, and the confidence is clamped |
| AiClassifier.AutoClassifyKeepsAiAnswers | src/classifier.rs:106-120 | a later auto-classification of the whole statement leaves every answered row as the AI set it |
| AiClassifier.SavedRowIsLeftAloneIff | src/ai_classifier.rs:37-77 | every run leaves a row saved by the user alone if and only if the scope is not "All" and its confidence is at least 0.6, though auto-classification treats it as locked throughout |
| Dedupe.FingerprintsCollide | src/parser/mod.rs:197-211 | swapping "Aa" for "BB" anywhere in a narration keeps the fingerprint, for every date and amounts |
| Dedupe.SameFingerprintIff | src/parser/mod.rs:197-211 | two rows, whatever their dates, narrations and amounts, share a fingerprint if and only if their texts roll to the same 32-bit word |
| Dedupe.NarrationsCollideIff | src/parser/mod.rs:197-211 | where narrations differ only in the middle, they collide if and only if the middles roll alike from what precedes them, and for equal lengths if and only if they roll alike from zero |
| Dedupe.OneCharacterShows | src/parser/mod.rs:197-211 | changing one character always changes the fingerprint |
| Dedupe.TwoCharactersCollideIff | src/parser/mod.rs:197-211 | changing two neighbours keeps the fingerprint if and only if the second makes up for 31 times the first |
| DedupeLaws.KnownFingerprint | src/parser/mod.rs:365-366 | a row with blank fields has the fingerprint b21e1f5c, the program's reference value |
| DedupeLaws.FingerprintIsHex | src/parser/mod.rs:197-211 | every fingerprint is one to eight hexadecimal digits |
| DedupeLaws.FloatTextReads | src/parser/mod.rs:197-211 | the text of an amount inside a fingerprint is read back as that amount |
| DedupeLaws.AmountTextIsInjective | src/parser/mod.rs:197-211 | different amounts, or an amount and none, have different texts |
| DedupeLaws.RowTextIsInjective | src/parser/mod.rs:197-211 | rows whose dates have no bar have the same text if and only if date, narration, debit and credit are the same, whatever bars the narrations have |
| DedupeLaws.BarsCanMove | src/parser/mod.rs:197-211 | with a bar in the date, different rows can have the same text |
| Dedupe.KeepNewMeaning | src/main.rs:1326-1329 | the filter keeps exactly the opening balances and the rows not known, and keeps no real row exactly when all are known |
| DedupeLaws.KeepNewByFields | src/main.rs:1326-1329 | a row passes exactly when it is an opening balance or the hash of its date, narration, debit and credit is not known |
| DedupeLaws.KeepNewInOrder | src/main.rs:1326-1329 | rows pass one by one, in order, whatever stands beside them |
| DedupeLaws.DroppedIffSameWord | src/main.rs:1312-1329 | with the program's fingerprint, a real row is dropped exactly when its text rolls to the same word as that of a real row held |
| DedupeLaws.RealRowsCounted | src/main.rs:1914 | the number of rows shown for a file is the number of its rows that are not opening balances |
| DedupeLaws.RefusedIffAllHeld | src/main.rs:1312-1365 | unless different rows at hand share a fingerprint, a file is refused exactly when each of its real rows is held with the same date, narration, debit and credit |
| DedupeLaws.LoadedAreTheRest | src/main.rs:1312-1365 | ... and otherwise exactly its opening balances and the real rows not so held are loaded |
| DedupeLaws.TakenAreTheRest | src/main.rs:1945-1955 | ... and a batch file adds exactly its opening balances and the rows neither in the session nor held |
| Dedupe.TakeFileMeaning | src/main.rs:1903-2003 | one batch file adds exactly its opening balances and unknown rows, keeps what was there, and counts every other row as skipped |
| Dedupe.TakeFilesMeaning | src/main.rs:1903-2003 | over any sequence of files no real row is accepted that was persisted or loaded before, and raw rows are rows kept plus rows skipped |
| Dedupe.LaterFilesAddOnlyNew | src/main.rs:1945-1955 | a real row accepted from a later file never repeats the fingerprint of a row from an earlier one |
| Dedupe.KnownFilesAddNothing | src/main.rs:1945-1955 | files whose real rows are all known add nothing but opening balances and count every real row as skipped |
| Dedupe.RerunAddsNothing | src/main.rs:2116-2128 | running files again after their fingerprints are kept adds no real row |
| Dedupe.LoadedOnce | src/main.rs:1312-1365 | a single file is refused exactly when all its real rows are known, and is refused the next time once loaded |
| BatchRun.Session.Start | src/main.rs:2420-2463 | starting a batch sets up the progress and processes the first file at once |
| BatchRun.Session.Finish | src/main.rs:2077-2208 | finishing takes the progress away, and refreshes the monitor only when a row is loaded |
| BatchRun.Session.Continue | src/main.rs:2469-2554 | one continuation records, fails or prompts for at most one file and schedules the next tick only when no prompt opens |
| BatchRun.Session.OnTick | src/main.rs:2540-2554 | a timer tick is the specified step |
| BatchRun.Session.OnPause | src/main.rs:3158-3180 | Pause only stops; Resume continues at once |
| BatchRun.Session.OnAbort | src/main.rs:3186-3204 | Abort finishes immediately, whatever file would have come next |
| BatchRun.Session.OnConfirm | src/main.rs:7052-7232 | a wrong password keeps the prompt; a right one settles the file in the batch or outside, or hands it to the background scan |
| BatchRun.Session.OnCancel | src/main.rs:7309-7341 | cancelling the prompt fails just that file and continues the batch |
| BatchRun.Session.OnScanDone | src/main.rs:7233-7303 | a finished scan settles its own file: recorded, failed, or prompted for again |
| BatchLaws.StepConserves | src/main.rs:2469-2554 | every event moves a file from one place to another and never loses or copies one |
| BatchLaws.FilesAreConserved | src/main.rs:1903-2554 | in every state of every run, each queued file is counted exactly once over results, queue, prompt, scans, overwritten prompts and files settled outside |
| BatchLaws.BooksInOrderAlways | src/main.rs:1903-2019 | in every state of every run the books are those of a fresh start that took in one file per success |
| BatchLaws.BooksBalance | src/main.rs:1903-2019 | in every state of every run loaded plus errors is the number of results, raw rows are kept plus skipped, and every real row kept is new |
| BatchBooks.StepEnters | src/main.rs:2469-2554 | every event enters exactly the files it settles or processes, in order, and no other |
| BatchBooks.BooksAreOfEntries | src/main.rs:1903-2019 | in every state of every run, results, rows, counts, errors, first bank and first opening balance are those of the files entered so far: the bank of the earliest file that names one, the opening balance of the earliest file that has one |
| BatchBooks.FirstOnesStay | src/main.rs:1957-1962 | once set, neither is changed by any event |
| BatchBooks.FirstOpeningWins | src/main.rs:1960-1962 | two files with opening balances 1000.00 and 2500.00 finish with 1000.00 |
| BatchBooks.AbortBeatsPause | src/main.rs:2307-2315 | an aborted batch ends even while paused |
| BatchLaws.SecondBatchAddsNothing | src/main.rs:2426-2436 | a second batch over files the first one took in, started from rows with the same fingerprints, adds no real row, in any two runs |
| BatchLaws.FinishKeepsFingerprints | src/main.rs:2145-2154 | auto-classification followed by any renaming of vendors and heads keeps every fingerprint |
| BatchLaws.SecondBatchAfterFinish | src/main.rs:2145-2183 | a second batch that starts from the first one's rows as its finish leaves them adds no real row over the same files, in any two runs |
| BatchLaws.FinishedIsFinal | src/main.rs:2077-2083 | after the finish no event changes the outcome, and a stale tick changes nothing but the number of timers |
| BatchLaws.TickMakesProgress | src/main.rs:2469-2554 | a tick on a running batch takes exactly one file off the queue, or ends the batch when it is empty |
| BatchLaws.CalmRunsLoseNothing | src/main.rs:3158-3180 | if Resume is only pressed when it overtakes no prompt, no scan and no tick with a file to process, no prompt is ever overwritten and a running batch always has exactly one continuation |
| BatchLaws.CalmRunsListEveryFile | src/main.rs:1903-2554 | such a run, ended without an abort, lists every file exactly as often as it was queued |
| BatchLaws.ResumeDropsAFileIff | src/main.rs:3158-3180 | from a paused state of a calm run, some continuation of Resume ends by itself with a file missing from its results if and only if Resume overtakes a prompt, a scan, or a tick with a file to process |
| BatchLaws.ResumeDuringPromptEndsTheBatch | src/main.rs:3158-3180 | with one file, whose prompt is open, Pause and Resume end the batch unaborted without the file |
| BatchLaws.StaleTickEndsTheBatch | src/main.rs:2469-2554 | with two files, Resume before the first tick and a prompt for the second, the stale tick ends the batch without the second |
| BatchLaws.PromptStaysIff | src/main.rs:3174-3179 | in a paused state of a calm run, no outcome of Resume and no event right after it overwrites an open prompt if and only if no outstanding prompt, scan or tick can meet another file |
| BatchLaws.ResumeDuringPromptLosesAFile | src/main.rs:3158-3180 | Pause and Resume during a prompt lose the prompted file when the next one needs a password too |
| BatchLaws.MonitorShowsResults | src/main.rs:2106-2114 | the monitor lists a finished batch's results exactly when a row is loaded or there is nothing to list |
| BatchLaws.MonitorMissesAFailedBatch | src/main.rs:2106-2114 | a batch whose only file fails ends with a result that the monitor does not show |
| UndoStack.EditSession.OnSave | src/main.rs:6730-6766 | saving remembers the five fields, overwrites those given, and makes the row the user's |
| UndoStack.EditSession.OnUndo | src/main.rs:5255-5275 | undo restores the five fields of the first row with the remembered id, or drops the entry when there is none |
| UndoStack.EditSession.OnDelete | src/main.rs:6867-6891 | delete removes the row and leaves the undo entries |
| UndoStack.EditSession.OnAdd | src/main.rs:6966-7010 | adding appends a Manual row of the user, named after the row count, and leaves the undo entries |
| UndoStack.EditSession.OnMarkSuspense | src/main.rs:6946-6955 | marking as suspense changes the status alone and leaves no undo entry |
| UndoLaws.SavedRow | src/main.rs:6750-6766 | a save takes what the form gives and keeps the rest, with confidence 1.0 when a rule is learnt and 0.75 otherwise |
| UndoLaws.UndoneRow | src/main.rs:5269-5275 | its undo gives the row's vendor, head, type, status and confidence back |
| UndoLaws.AddedRow | src/main.rs:6966-7010 | an added row keeps what was typed, and is Manual, the user's, and certain |
| UndoLaws.DeletedRow | src/main.rs:6867-6891 | a delete takes exactly its row out: those before it stay in place, those after it move up by one |
| UndoLaws.ParkedRow | src/main.rs:6946-6955 | parking changes the status of its row and no other row, and leaves no undo entry |
| UndoLaws.AllConsistent | src/main.rs:5255-5275 | after any interleaving of saves, undos, deletes, safe additions and suspense marks, rows and undo entries match the acts that still count |
| UndoLaws.UndoIsReplay | src/main.rs:5255-5275 | after any such interleaving every row's vendor, head, type, status and confidence are a replay, on the fields it came with, of just the saves not undone and the marks no undo overwrote |
| UndoLaws.LoadedRowIsReplay | src/main.rs:5255-5275 | for a row the session was loaded with, those are the fields it was loaded with |
| UndoLaws.UndoTakesBackOnlyTheSaveIff | src/main.rs:5269-5275 | an undo takes back the latest save and nothing else if and only if the row is not marked as suspense now, or was before the save |
| UndoLaws.SuspenseMarkIsLost | src/main.rs:6953-6955 | save a row, mark it as suspense, undo: the row has its old status again and the mark is gone |
| UndoLaws.SaveThenUndo | src/main.rs:5255-5275 | a save and its undo, in every session: which row gets the remembered fields and what the others keep |
| UndoLaws.UndoTakesBackIff | src/main.rs:5269-5275 | undo takes back every possible save of a row if and only if no earlier row has the same id |
| UndoLaws.UndoAfterSave | src/main.rs:5269-5275 | where it does, it gives the whole session back if and only if the row was already the user's |
| UndoLaws.UndoneRowStaysLocked | src/classifier.rs:106-120 | an undone row is still locked against auto-classification |
| UndoLaws.AddKeepsUniqueIds | src/main.rs:6976-6977 | adding a row by hand keeps ids unique exactly when no row already has the id made from the row count |
| UndoLaws.AddIsSafeIff | src/main.rs:6976-6977 | every save of an added row can be taken back and no older undo reaches it, if and only if no row and no undo entry has the id made from the row count |
| UndoLaws.RepeatedIdUndoesWrongRow | src/main.rs:6976-6977 | add, delete the first row, add: two rows share an id, and undo overwrites the first instead of restoring the second |
| RowIndex.VisibleToAbs | src/main.rs:6648-6700 | the counting loop finds the position of the k-th row its tests pass, and nothing past the end |
| RowIndex.PositionsMeaning | src/main.rs:208-253 | the visible positions are increasing and exactly those whose row passes |
| RowIndex.ChoicesNarrow | src/main.rs:249-251 | a bank, vendor or head keeps exactly its rows of those shown without it, "All Banks" all of them, and no opening balance is ever shown |
| RowIndex.RangeKeepsItsDays | src/main.rs:225-248 | a date range, open at either end or not, keeps exactly the rows of its days, the chosen ends included, and the rows whose date does not read |
| RowIndex.ChipsAdd | src/main.rs:219-224 | without status chips every status is shown, and each further chip adds exactly its own rows |
| RowIndex.AgreeIffNoDivergentRow | src/main.rs:6648-6700 | the translation agrees with the visible rows, at every row number and past the end, if and only if no row is divergent |
| RowIndex.SafeFiltersAgree | src/main.rs:6648-6700 | with vendor and head filters off and no "All Banks", the translation agrees when all dates are readable or bank and date filters are not combined |
| RowIndex.AgreeOnEveryListIffSafe | src/main.rs:6648-6700 | without status chips and with the bank filter as the selector stores it, a setting agrees on every list if and only if vendor and head filters are off and bank and date filters are not combined |
| RowIndex.SelectionsAgreeIff | src/main.rs:3953-3960 | without status chips, a choice of bank, dates, vendor and head agrees on every list if and only if vendor and head are off and no single bank is combined with a date |
| Calendar.FromDaysStep | src/main.rs:140-159 | one more day is the next calendar date, across month ends, leap days, centuries and eras |
| Calendar.FromDaysIsTheCalendar | src/main.rs:140-159 | for every day count the arithmetic gives the valid date reached from 1 January 1970 one day at a time |
| Calendar.RoundTrip | src/main.rs:140-159 | converting to a date and back gives the day count, so no two days share a date |
| Calendar.EveryDateIsReached | src/main.rs:140-159 | every valid date from 1970 on is the conversion of its day count |
| Calendar.PresetsMeet | src/main.rs:521-579 | in every year that fits 32 bits, "this month" is a whole month that contains today, "last month" a whole month that ends the day before it starts, and no date is in both |
| Calendar.PresetsMeetIff | src/main.rs:541-555 | for every day count, the same holds if and only if the 32-bit cast of the year changes the length of neither month |
| Calendar.CastMakesALeapYear | src/main.rs:541-547 | in February 2147483700 "this month" ends on a 29th that does not exist |
| Calendar.ThatFebruaryExists | src/main.rs:521-526 | that February is within the seconds a 64-bit clock counts |
| Calendar.PresetTextReads | src/main.rs:190-199 | the text of a preset date is read back, by the row filter, as that date |
| Presets.ThisMonthShowsTheMonth | src/main.rs:521-579 | the preset "this month", typed into the filter, shows exactly the rows of today's month and those whose date does not read |
| Utf8.BoundariesAreOffsets | src/text_safety.rs:26-32 | self-synchronisation: the boundaries of valid text are exactly the starts of its characters and its end |
| Utf8.BoundaryNearby | src/text_safety.rs:26-32 | a character starts at most three bytes before any position |
| Utf8.DecodeEncode | src/text_safety.rs:1-25 | decoding by the syntax of well-formed sequences undoes encoding |
| Utf8.ValidIffEncoding | src/text_safety.rs:1-25 | a byte string decodes to some characters if and only if it is their encoding |
| Utf8.PrefixOfEncoding | src/text_safety.rs:38-40 | an encoding that starts with another one starts with its characters |
| TextSafety.FloorCharBoundary | src/text_safety.rs:26-32 | the decrementing loop finds the greatest boundary not above the index |
| TextSafety.FloorOnText | src/text_safety.rs:26-32 | on valid text that is the start of the character under the index, at most three bytes below |
| TextSafety.SafePrefix | src/text_safety.rs:38-40 | the cut text is a prefix of at most the given length that ends at the greatest boundary |
| TextSafety.SafePrefixDecodes | src/text_safety.rs:38-40 | the cut prefix decodes to the longest run of whole characters that fits |
| TextSafety.ByteMatchIsCharMatch | src/text_safety.rs:54-62 | a byte match of valid text is a match of whole characters, with both ends on boundaries |
| TextSafety.FindIsCharSearch | src/text_safety.rs:54-62 | the search returns the byte position of the first character position that matches, and nothing exactly when none does |
| TextSafety.MatchIsCaseless | src/text_safety.rs:54-62 | a match is equality up to the case of ASCII letters |
| TextSafety.NoneMeansNowhere | src/text_safety.rs:54-62 | without a result the pattern occurs at no byte position at all, boundary or not |
| TextSafety.FindsGstin | src/classifier.rs:938-965 | the scan reports a tax number exactly when one starts at a tried position with both cuts on boundaries |
| TextSafety.GstinForm | src/classifier.rs:938-965 | what counts as a tax number, place by place of its fifteen bytes |
| TextSafety.GstinOnBoundaries | src/classifier.rs:938-965 | the boundary tests exclude no tax number |
| TextSafety.ScanFindsAllButTheLast | src/classifier.rs:938-965 | the scan finds a tax number if and only if there is one that does not end the text |
| TextSafety.FinalGstinIsMissed | src/classifier.rs:938-965 | behind any ASCII narration without digits, a tax number that ends the text is there and is not found |
| Decimal.DigitsValue | src/analytics.rs:165-193 | a printed numeral has the value it was printed from |
| Decimal.PlainAmountReads | src/main.rs:4531-4532 | a plain printed amount reads back, sign and paise included |
| Decimal.NumberNeedsADigit | src/main.rs:4531-4532 | a text without a digit is no number |
| IndianFormat.GroupFromRight | src/analytics.rs:175-190 | peeling groups off the right and joining them in reverse gives the Indian grouping |
| IndianFormat.GroupFromLeft | src/ui/mod.rs:227-239 | cutting pairs from the left after an odd digit gives the same groups |
| IndianFormat.GroupedShape | src/analytics.rs:165-193 | grouping only inserts commas: dropping them restores the digits, they stand at the third, fifth, seventh... digit from the right, and never first |
| IndianFormat.OnlyOneGrouping | src/analytics.rs:165-193 | a text has those digits and commas in those places if and only if it is the grouping |
| IndianFormat.DashboardFmtInr | src/analytics.rs:165-193 | the dashboard prints the screen's text behind the rupee sign |
| IndianFormat.ScreenFmtInr | src/ui/mod.rs:208-247 | the screen prints sign, grouped rupees and two digits of paise, for every amount |
| IndianFormat.ReimportReadsPrinted | src/main.rs:4523-4532 | the re-import reads every printed amount back, and zero as no amount, with or without the rupee sign |
| IndianFormat.TallyReadsPrinted | src/reconciliation.rs:353-357 | the Tally reader takes a printed amount to its absolute value, with or without the rupee sign |
| IndianFormat.TallyIgnoresMarks | src/reconciliation.rs:353-357 | a credit or debit mark behind a printed amount, in either case, does not change what is read |
| IndianFormat.NoDigitNoAmount | src/main.rs:4523-4532 | the re-import reads no amount in a text without a digit |
| Dates.DayTextReads | src/analytics.rs:135-149 | a printed date parses back to itself, whatever the sign of its year |
| Dates.MonthLengths | src/analytics.rs:297-310 | the lengths of the months, leap years included, and 30 days for month numbers outside 1 to 12 |
| Dates.KeyNamesItsMonth | src/analytics.rs:313-325 | a month key names exactly the first to the last day of its own month |
| Dates.NegativeYearHasNoRange | src/analytics.rs:313-325 | the key of a negative year names no range |
| Dates.KeyIsInjective | src/analytics.rs:146-149 | two dates, of any years, share a key exactly when they share year and month |
| Analytics.ComputeTotals | src/analytics.rs:400-405 | one pass gives credit and debit sums over real rows and the last balance |
| Analytics.LastBalanceMeaning | src/analytics.rs:405 | the balance shown is that of the last real row that carries one, and none exactly when none does |
| Analytics.SumsSkipOpenings | src/analytics.rs:400-404 | one more row adds its own amount to a sum, an opening balance nothing |
| Analytics.Tabulate | src/analytics.rs:419-427 | the accumulating loop gives every key that occurs its own sum, and no other key an entry |
| Analytics.Compute | src/analytics.rs:399-481 | totals, expense heads and months are the sums of their rows |
| Analytics.BucketsConserve | src/analytics.rs:463-481 | over any enumeration of the keys, bucket sums plus the rows without a key make the total |
| Analytics.TableConserves | src/analytics.rs:419-481 | however a table is listed, its entries plus the rows without a key make the total |
| Analytics.ExpensesAreAllDebits | src/analytics.rs:386-427 | the expense heads together hold the whole debit total |
| Analytics.PartyHeads | src/analytics.rs:386-396 | a debit to a named party without a ledger is spent under creditors, or under debtors when it is a receipt |
| Analytics.OtherHeads | src/analytics.rs:386-396 | every other debit is spent under the group of its head, narration and amount |
| Analytics.MonthsAreTheTotals | src/analytics.rs:463-481 | month sums differ from the totals by exactly the rows with an unreadable date, and are the totals when every real date is readable |
| Analytics.RangeOfMonth | src/analytics.rs:225-262 | a row passes the filter on a month's range exactly when its date is unreadable, or in that month with a day the program's month length allows |
| Analytics.DrillRows | src/analytics.rs:225-262 | a drill-down, open at either end or not, opens the real rows of its days, the chosen ends included, and those whose date does not read |
| Analytics.DrillExactIff | src/analytics.rs:225-262 | every bar selects exactly its own rows if and only if there is no bar, every real row has a readable date whose day fits the length the program gives its month, or the only bar is a month of a negative year |
| Analytics.UndatedRowSpoilsDrill | src/analytics.rs:225-262 | with one dated and one undated row, the bar of the dated row opens both |
| Analytics.DrillDownMatchesBar | src/analytics.rs:225-262 | on such rows the rows behind a bar add up to the bar, credits and debits alike |
| MonthOrder.KeyOrder | src/analytics.rs:146-149 | for any two dates, the texts of their keys are in the order that comparing years, then months, gives when the longer of two numerals is first cut to the length of the shorter |
| MonthOrder.BarsAreChronologicalIff | src/analytics.rs:463-481 | for all dates, the bars of an earlier and a later month are in that order if and only if the number that decides, so cut, is on the right side of the other |
| MonthOrder.BarsAreChronological | src/analytics.rs:463-481 | for years of up to four digits and two-digit months the sorted keys are in calendar order |
| MonthOrder.LongYearSortsFirst | src/analytics.rs:463-481 | every month of the year 10000 sorts before every month of the year 2000 |

## Left out

- IEEE rounding, NaN and saturating casts: amounts are exact paise, tolerances and similarities exact reals.
- Number texts with an exponent, `inf`, `nan` or a leading plus, which the floating-point reader also accepts.
- ScoreLaws.ScoreRisesWithCloserAmount: stated for non-negative tolerances and amounts on the same side of the bank's, because a tolerance is a share of the larger amount.
- ScoreLaws.NarrationBonus: stated for a positive minimum similarity, because a minimum of 0 counts narrations that share nothing, and without equal references, because a score ends at 100.
- ScoreLaws.NarrationBonusOfRows: stated for a voucher without a number and a blank narration that upper-cases to nothing shared, because upper-casing is an arbitrary function here.
- ScoreLaws.BareScore: stated for a positive minimum similarity, for the same reason.
- DedupeLaws.RowTextIsInjective: stated for dates without a bar, because it is false with one, as `BarsCanMove` shows.
- DedupeLaws.RefusedIffAllHeld, LoadedAreTheRest and TakenAreTheRest: stated for rows at hand that their fingerprints tell apart, because fingerprints collide; `DroppedIffSameWord` is exact for the program's own.
- Presets.ThisMonthShowsTheMonth: stated for years that fit 32 bits, because the date reader parses years as such, and for days from 1 on.
- Reconciliation.MatchedNeedsTextEvidence: stated for thresholds above 80, because it is false at and below 80; `EvidenceThresholdIsExact` proves both directions.
- Calendar.PresetTextReads: stated for years that fit a 32-bit integer, because the date reader parses years as such.
- MonthOrder.BarsAreChronological: stated for years of up to four digits and two-digit months, because it is false beyond; `BarsAreChronologicalIff` gives the exact condition for all dates.
- Calendar.PresetsMeet: stated for years that fit 32 bits, because the program casts the year; `PresetsMeetIff` gives the exact condition for every day count.
- RowIndex.AgreeOnEveryListIffSafe: stated without status chips, because chips may rule out every row; `AgreeIffNoDivergentRow` covers every filter.
- Reconciliation.EvidenceThresholdIsExact: stated for non-negative tolerances, because under a negative one no two positive amounts match at all.
- UndoLaws.UndoIsReplay: stated for unique ids and safe additions, because with repeated ids undo restores the first; `UndoTakesBackIff` and `AddIsSafeIff` give the exact conditions.
- Which names vendor normalisation chooses: it may change vendor and account head to anything, and nothing else.
- Keyword, vendor and GST tables, party extraction, voucher inference, the date normaliser and Unicode upper-casing are arbitrary functions.
- Persistence, failed database writes, the keyring, the network, threads and the user interface; handlers are atomic steps.
- Display details of the batch: truncated file names, account masking, period text, progress percentages.
- A second batch started while the first one's background scan still runs, and password prompts of single-file loads while a batch starts.
- The columns of the Tally grid, the batch review plan, rule derivation from a narration, and vendor-name clean-up beyond the search and cut helpers.
- The financial-year preset, which ignores leap years by design, and the time-of-day part of audit texts.
- Top-ten lists, percentages, cash-flow points, insights and axis scales of the dashboard: further sums of the same shape.
