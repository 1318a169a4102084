# Verification of the delivery-intelligence core

A Dafny model of the algorithms this repository's results rest on, with proofs. `dafny verify dfyconfig.toml` checks
the whole project.

What is modelled, one group of modules a subject:

- **The fixture containers.** `Bytes`, `Crc32`, `Zip`, `ZipReader`, `ZipStream`, `WorkbookParts`, `Xml`, `Columns`,
  `Workbook`, `Search`, `Elements`, `WorkbookXml`, `WorkbookSheets`, `WorkbookFile`, `PdfText`, `PdfExtract`, `PdfFile`
  and `PdfTree` model the CRC-32, ZIP, workbook and PDF writers together with the product's own bounded readers
  (`src/platform/parse`) and with readers by the standards: forward through the local headers of an archive, by A1
  reference in a sheet, by object reference in a PDF. The theorem each time is that the reader undoes the writer, with
  the exact condition where there is one.
- **The weekly simulation and its ledgers.** `Rng`, `Orders`, `Money`, `SCurve`, `Delivery`, `Scope`, `Recognition`,
  `Billing` and `Simulation` follow the weekly loop over every accumulator: hours, progress, cost, scope and change
  requests, estimate, contingency and recognised revenue, and then corrections, invoices and payments. `DriverLaws`,
  `RunLaws` and `Contingency` prove what each driver does over whole runs. Every draw is an arbitrary real of [0, 1)
  and every driver any value of its declared sign, so the results hold for every seed and archetype.
- **Curated scenarios and the as-of cut.** `Interpolation` models the sorted checkpoints and the line between them,
  `Curated` the emission of rows together with the reader that cuts them at a date; `Exactness` when their sum is
  exact; `Scope` the cut of change requests; `Quality` the weekly recount of open defects.
- **Runtime state.** `RateLimit` proves both fixed-window limiters against one specification and that specification
  over whole runs; `Base64Url` and `Token` the session token and its bearer header; `SingleFlight` the lazily built
  registry over every interleaving of requests and of the build's steps.
- **The filter runtime.** `Facts`, `Movement`, `Query` and `Filters` model the selection, the band-movement rows and
  the URL that one function writes, another edits as text and a third parses.

Loops and objects of the source are methods and classes here, each proved against a specification function; the
theorems are about those functions. Money that is emitted is whole cents, rounded as `toFixed(2)` rounds; decisions are
exact reals. Dates are day numbers, a period the number of its month. Compression, text encodings, the keyed hash, the
clock, the calendar and the draws are parameters.

## Where the code and its own words differ

The model follows the code.

- `server/access.ts` calls a token "five dot-separated fields"; it has six (`Token.IssuedHasSixFields`).
- `scripts/generator/simulate.ts` says recovery reverses the drag. The two terms add up to the one line the drag
  followed before (`Delivery.DragIgnoresRecovery`).
- It says that a project without drag, rework or blocked effort tracks its plan exactly. Before 87% elapsed it does
  (`Delivery.NoDriversNoDeparture`); from then on, catching up takes it ahead (`Delivery.RunsAhead`).
- It also says the whole-project total equals the planned hours. That holds exactly without drag or when the history
  starts with the project (`Delivery.WholePlanHours`).
- `scripts/generator/curated.ts` says EAC lands exactly on the target. It is the target and what rounding two rows a
  week adds, the same for all weeks between two checkpoints; so it is exact if and only if a sum over the checkpoints is
  zero (`Exactness.EacIsExactIff`). Scenario A misses by 4 and by 8 cents (`Exactness.HealthyReferenceMisses`).
- It also means the opening contingency balance to be drawn. It is emitted if the horizon's own week is; otherwise what
  had been consumed at the last skipped week is missing (`Curated.UnseenIs`, `Curated.OpeningBalanceCanVanish`). A
  balance of at most one is never drawn: like every increment of at most one it counts as dropped
  (`Curated.DrawdownsTelescope`).
- Invoices stay within 95% of recognised revenue before they are rounded. After rounding they do if and only if the
  billed fraction, one draw a project, is below 100016.5/105281, as all but about one in thirty thousand draws are
  (`Billing.NinetyFivePercentIff`, `Billing.PassingDraws`).
- The PDF writer does not escape a carriage return. The product's extractor keeps it; a reader by ISO 32000-1 turns it
  into a line feed (`PdfText.LineReadsBackInIsoIff`).
- A registry build that throws is never tried again, because its promise is never reset
  (`SingleFlight.FailureIsForever`).
- `scripts/generator/simulate.ts` lets open defects decay by 14% or 30% a week and rounds. One that is open rounds to
  one, so a project that has had a serious defect never gets rid of its last (`DriverLaws.DefectsNeverEnd`).

## Model

| member | source | states |
|---|---|---|
| Crc32.TableStep | scripts/fixtures/office.ts:23-31 | eight bit-serial steps of the reflected CRC on one byte are one table entry and one shift |
| Crc32.MakeTable | scripts/fixtures/office.ts:19-27 | the loop fills 256 entries, entry n being n after eight bit-serial steps |
| Crc32.Compute | scripts/fixtures/office.ts:29-33 | the table-driven loop gives the bit-serial CRC-32 of section 8 of RFC 1952, on every byte string |
| Crc32.FeedInjective | scripts/fixtures/office.ts:31 | no byte step, and no run of them, sends two register states to one |
| Crc32.BurstsAreDetected | scripts/fixtures/office.ts:29-33 | two messages that differ only inside a window of at most four bytes, so in particular in one byte, have different CRCs |
| Zip.Pack | scripts/fixtures/office.ts:43-49 | a member is kept deflated if and only if that is shorter than its bytes, and the scheme number says which was kept |
| Zip.WriteLocalRecord | scripts/fixtures/office.ts:51-62 | the in-place writes produce the local header of APPNOTE 4.3.7, or the range error of a value too wide for its field |
| Zip.WriteCentralRecord | scripts/fixtures/office.ts:65-82 | the same for the central directory header of APPNOTE 4.3.12, with the offset written |
| Zip.WriteEndRecord | scripts/fixtures/office.ts:89-97 | the same for the end record of APPNOTE 4.3.16 |
| Zip.Write | scripts/fixtures/office.ts:37-100 | the loop gives the specified archive exactly when every name, size, count and offset fits its field, and the range error otherwise |
| Zip.OffsetsAreExact | scripts/fixtures/office.ts:85 | the running offset is the position at which each member's local header starts |
| ZipReader.CentralReadsBack | src/platform/parse/zip.ts:75-95 | the reader gets from each central record the name, sizes, scheme and offset that were written, and where the next record starts |
| ZipReader.WalkReadsBack | src/platform/parse/zip.ts:73-96 | walking the directory gives all members in order, and fails exactly when some name is unsafe or some member exceeds its ceiling |
| ZipReader.OpenReadsBack | src/platform/parse/zip.ts:62-98 | from the end record: opening a written archive succeeds if and only if it is within the budgets and its names are safe, and then gives its members in order |
| ZipReader.PayloadPlaced | scripts/fixtures/office.ts:51-63 | at each stored offset stand the local signature, the CRC, the name and the payload |
| ZipReader.EntryReadsBack | src/platform/parse/zip.ts:110-131 | reading one entry gives the bytes written if the member is stored or within the output ceiling, and otherwise the error that the decompressor's refusal becomes, a parameter |
| ZipReader.ReadFindsFirst | src/platform/parse/zip.ts:110-112 | reading by name reads the first entry of that name |
| ZipReader.RoundTrip | src/platform/parse/zip.ts:62-131 | write, open, read by name: the bytes of the first member of that name come back, or the refusal's error, exactly by the output ceiling |
| ZipStream.ForwardReadsBack | scripts/fixtures/office.ts:51-63 | a reader that only goes forward by the local headers gets every member in order, its name, scheme, CRC, stored size, raw size and bytes, refuses any whose bytes disagree with these, and stops where the directory starts |
| ZipStream.DirectoryAgrees | scripts/fixtures/office.ts:65-86 | wherever the directory can be opened, its entries say what the forward reader found, one for one, and each one's offset is where that member was found |
| ZipStream.EndAgrees | scripts/fixtures/office.ts:89-98 | the end record is the last 22 bytes, both its counts are the number of members, its offset is where the forward reader stopped, and offset and size together are its own position |
| WorkbookParts.PartsDiffer | scripts/fixtures/office.ts:200-207 | no two parts of a written workbook share a name |
| WorkbookParts.PartIsSafe | src/platform/parse/zip.ts:149-156 | the reader's path check refuses none of the part names |
| WorkbookParts.EveryPartComesBack | scripts/fixtures/office.ts:200-207 | a written workbook opens if and only if it is within three ceilings, and then every part is found by name and holds what was written |
| Xml.EscapeIsTokens | scripts/fixtures/office.ts:114-115 | the four passes over the whole text amount to one token a character, for every text |
| Xml.DecodeUndoesEscape | src/platform/parse/xlsx.ts:238-247 | the reader's seven passes, numeric references included, undo the escape for every text |
| Xml.EscapedHoldsNoMarkup | scripts/fixtures/office.ts:114-115 | escaped text holds no markup character |
| Columns.ColumnName | scripts/fixtures/office.ts:117-122 | the loop computes the bijective base-26 name of every index |
| Columns.IndexOfName | scripts/fixtures/office.ts:117-122 | the name of an index reads back as that index |
| Columns.NameOfIndex | scripts/fixtures/office.ts:117-122 | every non-empty word of A to Z is the name of its index: with the row above, a bijection |
| Columns.ColumnOfReference | src/platform/parse/xlsx.ts:147-148 | the reader's column letters of a written cell reference are the column's name |
| Workbook.PlainNumberIff | scripts/fixtures/office.ts:154 | a text is written as a number if and only if it is a minus or nothing, digits, and a point with digits or nothing |
| Workbook.StringTable.Intern | scripts/fixtures/office.ts:126-135 | interning returns an index at which the value stands; strings are only ever appended, each once |
| Workbook.StringTable.HeaderCells | scripts/fixtures/office.ts:141-144 | the header cells read back, through the strings, as the headers in their columns and nothing else, each under the reference of its column and row 1 |
| Workbook.StringTable.RowCells | scripts/fixtures/office.ts:146-156 | the cells of a row read back as its non-blank values, an uncached formula as uncached and a blank as absent, each under the reference of its column and of that row |
| Workbook.StringTable.SheetRows | scripts/fixtures/office.ts:137-158 | the same for every row of a sheet, each under its row number and that number in every reference |
| Workbook.ReferencesDiffer | scripts/fixtures/office.ts:137-148 | a reference names one column and one row |
| WorkbookSheets.SheetIsPlaced | scripts/fixtures/office.ts:137-158 | placed by reference alone, no two cells of a sheet share one, none lies outside the sheet, and looking up any column and row, as A1, finds what the sheet shows there, or nothing |
| Workbook.StaysReadable | scripts/fixtures/office.ts:126-135 | what reads back through the strings of one moment reads the same after they grow |
| WorkbookXml.StringsTextIsRead | src/platform/parse/xlsx.ts:115-128 | from the text of the shared-strings part the reader's patterns for items and runs, and its decoding, give back every list of strings |
| Elements.WrittenAreFound | src/platform/parse/xlsx.ts:120-144 | over text that holds no opening tag elsewhere, a pattern with a lazy body finds exactly the elements written, in order, empty bodies and all |
| WorkbookXml.CellIsRead | src/platform/parse/xlsx.ts:144-184 | a written cell is read as its column and its shared text, its number or an uncached formula, whatever is done with other untyped text |
| WorkbookXml.SheetTextIsRead | src/platform/parse/xlsx.ts:139-185 | from the text of a sheet the reader's patterns for rows and cells, and its attributes, give exactly the rows and cells written |
| Workbook.Build | scripts/fixtures/office.ts:125-166 | every header and value of every sheet reads back through the final shared-string list, whichever sheet interned it |
| WorkbookSheets.BuildTexts | scripts/fixtures/office.ts:125-171 | read as text, every sheet gives its header as row 1 and its data rows from row 2, each value found in its column, and by its reference, through the strings read from the shared-strings text, and no other row, column or reference |
| WorkbookFile.TextIsFound | src/platform/parse/zip.ts:105-108 | wherever the written workbook opens, every part is read by name as the text that was written |
| WorkbookFile.BuildXlsx | scripts/fixtures/office.ts:125-208 | from the bytes of the file, wherever the ceilings let it open: the shared strings are read, and every sheet is found in its own part, each value in its row and column and by its reference |
| PdfText.EscapeIsFoldThenBackslash | scripts/fixtures/office.ts:227-234 | the seven passes are one folding to Latin-1 followed by a backslash before each delimiter |
| PdfText.LineReadsBack | src/platform/parse/pdf.ts:345-370 | the extractor reads an escaped literal back as the folded line, and stops right after it |
| PdfText.BalancedIsKept | src/platform/parse/pdf.ts:345-370 | parentheses that balance need no backslash: the extractor keeps them, and stops at the end of the literal |
| PdfText.EscapedIsLatin1 | scripts/fixtures/office.ts:219-234 | whatever the text, what is escaped holds no character beyond U+00FF |
| Text.Latin1ComesBackIff | scripts/fixtures/office.ts:265 | text written as latin1, the low byte of each code unit, and read again is the text if and only if it holds none beyond U+00FF |
| PdfText.LineReadsBackInIsoIff | scripts/fixtures/office.ts:227-234 | a reader by section 7.3.4.2 of ISO 32000-1 gets the folded line back if and only if the line holds no carriage return |
| PdfExtract.ContentReadsBack | src/platform/parse/pdf.ts:290-334 | over the content stream the writer emits, the extractor's scan gathers every line, folded and in order, blank lines as breaks, and nothing of the set-up operators |
| PdfFile.Objects | scripts/fixtures/office.ts:244-276 | the sparse table is filled for exactly the ids 1 to infoId, each with the object that belongs there: no two assignments collide |
| PdfFile.BuildPdf | scripts/fixtures/office.ts:243-305 | the two loops, with their running position, produce the specified file |
| PdfFile.FileIsLatin1 | scripts/fixtures/office.ts:243-305 | whatever lines and title, the file holds only what latin1 can write, one byte a character, so that its positions are byte positions |
| PdfFile.XrefFound | scripts/fixtures/office.ts:294-301 | read from the end (section 7.5.5 of ISO 32000-1), startxref is the position of the table, and the keyword stands there |
| PdfFile.PaddedWidth | scripts/fixtures/office.ts:297 | a padded position reads back, and is ten digits wide exactly below ten thousand million |
| PdfFile.EveryEntryFound | scripts/fixtures/office.ts:295-298 | reading twenty-byte entries (section 7.5.4) finds every object's position if and only if the last object starts below ten thousand million |
| PdfFile.ObjectStands | scripts/fixtures/office.ts:282-292 | at its position each object stands, its own number first |
| PdfFile.DocumentReadsBack | scripts/fixtures/office.ts:243-305 | trailer to table, table to position, position to object: every id of a document leads to its own planned object |
| PdfFile.PageReadsBack | scripts/fixtures/office.ts:258-274 | the content object of a page, inflated and scanned, gives that page's lines, for any compression that is undone on bytes |
| PdfTree.EveryPageIsShown | scripts/fixtures/office.ts:243-305 | a reader of the file's text that follows references alone, each through the table, from trailer to catalog, pages node, page and content stream, checking types, the count, every page's parent and font, filter and length: it finds as many pages as were written, and page i shows the lines of page i, for every i |
| PdfTree.TitleIsRead | scripts/fixtures/office.ts:276-302 | by way of the trailer's /Info it finds the title, folded |
| Rng.StateIsLinear | scripts/generator/rng.ts:31-34 | the state after n draws is the first plus n increments, modulo 2^32 |
| Rng.Period | scripts/generator/rng.ts:31-34 | from every state, n draws return to it if and only if 2^32 divides n |
| Rng.StatesAreDistinct | scripts/generator/rng.ts:31-34 | within one period no state occurs twice |
| Rng.EveryStateIsReached | scripts/generator/rng.ts:31-34 | from every state every other is reached within one period |
| Rng.RangeBounds | scripts/generator/rng.ts:61-63 | a draw scaled to a range stays in it, below its top unless the range is a point |
| Rng.IntBounds | scripts/generator/rng.ts:65-67 | an integer draw is never below the minimum nor above the maximum |
| Rng.IntIsEven | scripts/generator/rng.ts:65-67 | each value of the range is drawn on an interval of the same length |
| Rng.Jitter | scripts/generator/rng.ts:92-94 | the mean of three draws lies in [-1, 1) |
| Rng.JitterIsCentred | scripts/generator/rng.ts:92-94 | mirrored draws give the opposite value, and three zeros give -1 |
| Rng.Rng.Next | scripts/generator/rng.ts:31-39 | one draw advances the state once and gives that state's output |
| Rng.Rng.Shuffle | scripts/generator/rng.ts:78-85 | the in-place exchanges give the specified rearrangement from one draw an element but the last; a permutation of the items |
| Rng.ShuffleKeeps | scripts/generator/rng.ts:78-85 | whatever is drawn, the result is a permutation |
| Rng.EveryOrderHasPicks | scripts/generator/rng.ts:78-85 | for every permutation of the items there are exchange positions that give it |
| Rng.EveryOrderCanBeDrawn | scripts/generator/rng.ts:78-85 | and there are draws in [0, 1), taken as arbitrary reals, that give those positions |
| Orders.OrderTellsPicks | scripts/generator/rng.ts:78-85 | of different items no two choices of positions give one order |
| Orders.SomeOrderIsNeverDrawn | scripts/generator/rng.ts:31-85 | so for thirteen or more different items there is an order that none of the generator's 2^32 states leads to |
| Money.CentsAreClose | scripts/generator/rng.ts:103-105 | an emitted amount is within half a cent of the computed one, and of its sign |
| SCurve.PlanRises | scripts/generator/simulate.ts:39-42 | planned progress runs from 0 to 1, never falls, and rises strictly until the plan has elapsed |
| SCurve.PlanIsAnS | scripts/generator/simulate.ts:38-42 | slow start, fast middle, long tail: the second half mirrors the first, which is behind the straight line, and the pace rises to the middle and falls from it by six times the square of the step |
| Delivery.PlanLaws | scripts/generator/simulate.ts:291-292 | the weekly planned increment is positive exactly before the planned end, and zero after it |
| Delivery.DragIgnoresRecovery | scripts/generator/simulate.ts:208-226 | whatever week recovery starts in, the drag is one line of its two drivers, floored at 0.9: recovery does not bend it |
| Delivery.HoursSplit | scripts/generator/simulate.ts:308-313 | productive, rework and blocked hours are the gross hours of every week, none negative, at least 13% of them productive |
| Delivery.CapacityBounds | scripts/generator/simulate.ts:345 | the capacity ratio lies in [0, 1], at least 0.13 when there are hours, and times the gross hours is the productive hours |
| Delivery.OpeningProgress | scripts/generator/simulate.ts:185 | opening progress is at most the plan's, and equal to it if and only if there is no drag or nothing was planned yet |
| Delivery.ProgressNeverFalls | scripts/generator/simulate.ts:368-372 | in every run progress stays in [0, 1] and never falls |
| Delivery.GapIsAccountedFor | scripts/generator/simulate.ts:336-372 | in every run of any length and drag, the gap to the S-curve is the opening gap plus the sum of planned increment times (1 - capacity / drag) plus what the cap at one cuts off, less what catching up won back |
| Delivery.GapIsCaused | scripts/generator/simulate.ts:336-372 | before 87% elapsed, whatever the drag, nothing is caught up; with drag of at least one in every week nothing is cut off either, and the project is never ahead |
| Delivery.RunsAhead | scripts/generator/simulate.ts:369-372 | from 87% on, until the planned end, a project at or ahead of its plan with full capacity and no drag comes out ahead of it |
| Delivery.NoDriversNoDeparture | scripts/generator/simulate.ts:336-341 | with full capacity and no drag the gap never changes |
| Delivery.HoursFollowPlan | scripts/generator/simulate.ts:291-310 | total hours are the opening hours, the plan's hours since, and 30% of an average week for each week past the planned end |
| Delivery.WholePlanHours | scripts/generator/simulate.ts:295-297 | the whole-project total equals the planned hours if and only if there is no drag or the history starts with the project; otherwise 6% of what was planned before it is missing |
| Delivery.CostFollowsHours | scripts/generator/simulate.ts:376-378 | in every run the cost added is the hours added at the sold rate and 5% to 14.33% more, and neither falls |
| DriverLaws.RecoveryIsGradual | scripts/generator/simulate.ts:248-252 | recovery takes 3.5 points a week off the distance of defect intake and rework to the healthy baseline, and leaves a quarter of it after twenty-two weeks |
| DriverLaws.OpeningIs | scripts/generator/simulate.ts:185-200 | a project with drag starts at 4% above the cost of what it has done, and any starts without rework, open defects or dependencies |
| DriverLaws.SpellsEnd | scripts/generator/simulate.ts:259-271 | in every run an open dependency ends within the five weeks to come |
| DriverLaws.WeekIsBlockedIff | scripts/generator/simulate.ts:259-271 | in every week of every run effort is blocked if and only if an open dependency is not ending, or none was open and the draw is below the chance, of which recovery leaves 35%; then 15% to 45% of it is |
| DriverLaws.ReworkIsShare | scripts/generator/simulate.ts:311-313 | in every run rework is at most 42% of the hours since the start, and never falls |
| DriverLaws.DefectsFlow | scripts/generator/simulate.ts:424-440 | 60% to 140% of the intake is injected, of which the serious ones arrive, and 86% or 70% of all open stay, to half a defect |
| DriverLaws.DefectsNeverEnd | scripts/generator/simulate.ts:440 | rounding keeps the last open defect: a run that has had one always has one |
| DriverLaws.RemainingShrinks | scripts/generator/simulate.ts:368-372 | past the planned end what remains shrinks each week by 28% of the capacity there is |
| DriverLaws.OverrunsConverge | scripts/generator/simulate.ts:368-372 | so an overrun with full capacity leaves 0.72 to the power of its weeks |
| Scope.Facts.FindPending | scripts/generator/simulate.ts:476 | the position of the first pending row with an id, or that there is none |
| Scope.Facts.ArriveWeek | scripts/generator/simulate.ts:443-494 | one week's scope becomes absorbed, waiting or signed, with the rows inserted, the pending row replaced in place, and the totals moved accordingly |
| Scope.ArriveKeepsBalance | scripts/generator/simulate.ts:443-494 | all scope value is uncontracted, pending or executed, and each total is that of its rows, after every arrival |
| Scope.ArriveKeepsLinks | scripts/generator/simulate.ts:469-479 | executed rows and superseded pending rows name each other, one to one and for the same value, after every arrival |
| Scope.ExactlyOneCounted | scripts/assessment/curated-assessment.ts:95-104 | at every cut date exactly one of a linked pair is counted |
| Scope.CombinedValueIsConstant | scripts/assessment/curated-assessment.ts:95-104 | for any rows with mutual links, in any order, pending and executed value together are the same at every cut date |
| Scope.ProposedIsWaitingOrExecuted | scripts/generator/simulate.ts:443-494 | all that was ever proposed is still waiting or executed |
| RunLaws.CommercialisationIs | scripts/generator/simulate.ts:254-256 | recovery lifts the share of scope that becomes a change request by 1.75 points a week, up to 37.5, and never beyond 95% |
| RunLaws.ArrivalIff | scripts/generator/simulate.ts:443-468 | when a week's scope is nothing, absorbed, waiting or signed, by its draws; one that is signed is signed 21 to 63 days on and not after the as-of date |
| RunLaws.ScopeIsInTime | scripts/generator/simulate.ts:443-479 | in every run each scope item and change request is of one week and its date, at that run's scope value, and each executed change costs 74% of it |
| Quality.RecountIsFlow | scripts/assessment/curated-assessment.ts:302-313 | the recount changes by what is raised less what is closed, over every span of dates, if and only if no defect closes before it is raised |
| Quality.HistoryIsSweep | scripts/assessment/curated-assessment.ts:305-313 | then the weekly recount is the series of one incremental sweep |
| Recognition.Ledger.Recognise | scripts/generator/simulate.ts:619-628 | one tick posts the accrued amount for a period not posted yet, and changes nothing in one that is |
| Recognition.TargetBounds | scripts/generator/simulate.ts:609-611 | the recognition target is between nothing and the contractual value |
| Recognition.CostToCost | scripts/generator/simulate.ts:606-611 | what is earned is to the contract as the cost so far is to cost, estimate and commitments together, and all of it when nothing is left |
| Recognition.PostKeepsSound | scripts/generator/simulate.ts:612-628 | postings stay one a month with none skipped, not negative, summing to the cumulative within half a cent each; the cumulative rises within its bound |
| Recognition.ApplyCorrections | scripts/generator/recognition.ts:47-107 | the corrected list is the original list followed by the drawn adjustment, or reversal and restatement, or nothing |
| Recognition.CorrectedIff | scripts/generator/recognition.ts:47-66 | a history is corrected if and only if it has six postings, the one drawn is above 1000 and the draw of the kind is below 0.8; below a half by an adjustment, else by a reversal and a restatement |
| Recognition.CorrectedInTheMiddle | scripts/generator/recognition.ts:47-66 | the posting corrected lies between 25% and 55% of the history and is never the latest |
| Recognition.CorrectionShares | scripts/generator/recognition.ts:67-105 | an adjustment takes off 5% to 18% of the figure and a restatement leaves 82% to 96% of it, to the nearest unit |
| Recognition.CorrectionsCarryOn | scripts/generator/recognition.ts:67-105 | each correction carries the cumulative of the posting it corrects on by all the changes so far, never below nothing, 60 to 130 days later |
| Recognition.CorrectionEffect | scripts/generator/recognition.ts:67-105 | an adjustment, or a reversal with its restatement, lowers the period figure and leaves it above zero |
| Recognition.CorrectionsAreLocal | scripts/generator/recognition.ts:110-119 | every other period keeps its effective amount; the corrected one falls and stays above zero |
| Recognition.CorrectionsAreChained | scripts/generator/recognition.ts:67-105 | every chain of supersessions runs back to an ORIGINAL, one version and one earlier row at a time, and ids stay distinct |
| Recognition.CorrectionsAreNotOriginal | scripts/generator/recognition.ts:67-105 | the original postings of the corrected list are those of the uncorrected one |
| Billing.BuildBilling | scripts/generator/billing.ts:19-65 | the loop, with its running total and its place in the stream of draws, gives the specified invoices and payments |
| Billing.EveryPaymentHasItsInvoice | scripts/generator/billing.ts:48-61 | in every prefix each payment is of one invoice, in full and later, and no invoice is paid twice |
| Billing.RowsAreDated | scripts/generator/billing.ts:45-58 | in every prefix invoices go out two to nine days after their posting and fall due thirty days later; payments come 24 to 88 days after their invoice; nothing is after the as-of date |
| Billing.UnbilledIsSmall | scripts/generator/billing.ts:37-43 | after every posting at most 1000 of what is to be billed is not billed |
| Billing.EveryIncrementIsInvoiced | scripts/generator/billing.ts:37-51 | every increment above 1000 that goes out by the as-of date is invoiced, and stays so |
| Billing.PaidIff | scripts/generator/billing.ts:53-62 | an invoice is paid if and only if its draw is below 0.86 and the payment comes by the as-of date |
| Billing.DrawsAreUsedInTurn | scripts/generator/billing.ts:32-55 | no draw is used twice or passed over: one for the fraction, and then one for each increment above 1000, each invoice and each that is let be paid |
| Billing.AllIsInvoiced | scripts/generator/billing.ts:37-51 | when all of them go out in time, what is invoiced is what is billed, to half a cent an invoice |
| Billing.PaidWithinInvoicedWithinRecognised | scripts/generator/billing.ts:32-63 | in every prefix, for every draw: paid at most invoiced, and invoiced at most the billed fraction of the cumulative recognised, to half a cent an invoice |
| Billing.InvoicedWithinBilled | scripts/generator/billing.ts:32-50 | in every prefix, when the billed fraction is below 100016.5/105281 = 0.94999572...: what is invoiced, rounded and summed, is at most 95% of what is recognised |
| Billing.BilledBelowNinetyFivePercent | scripts/generator/billing.ts:32-43 | what is billed, before rounding, is below 95% of what is recognised |
| Billing.InvoicesCanPassNinetyFivePercent | scripts/generator/billing.ts:40-50 | at that fraction and above, rounded invoices pass 95%: a posting of 1052.81 is invoiced at 1000.17 |
| Billing.NinetyFivePercentIff | scripts/generator/billing.ts:32-50 | so invoices stay within 95% in every prefix of every list of postings, whatever the date, if and only if the one draw of the billed fraction is below the threshold |
| Billing.PassingDraws | scripts/generator/billing.ts:32 | in the generator's own draws: exactly the last 141,214 of the 2^32 |
| Billing.CorrectionsDoNotRebill | scripts/generator/billing.ts:34-37 | billing the corrected postings is billing the uncorrected ones |
| Simulation.SimulateProject | scripts/generator/simulate.ts:181-633 | the weekly loop over all its accumulators and rows leaves what the week-by-week specification says, and runs every week there is |
| Simulation.WorkIsDelivery | scripts/generator/simulate.ts:203-378 | the loop's hours, progress and cost obey the laws of Delivery |
| Simulation.CostRowsAddUp | scripts/generator/simulate.ts:402-410 | the emitted cost rows sum to the cost to date less the opening cost, which no row carries, to half a cent a row |
| Simulation.ScopeIsConserved | scripts/generator/simulate.ts:443-494 | in every run the three scope totals sum to all scope, and the links are mutual |
| Simulation.EveryCutIsWorthTheSame | scripts/assessment/curated-assessment.ts:95-104 | cut at any date, the changes of a run are together worth its pending and executed totals |
| Simulation.ContingencyStaysWithin | scripts/generator/simulate.ts:548-559 | in every run contingency consumed is the sum of its drawdowns, each above one, and within its budget |
| Contingency.ConsumedIsDemand | scripts/generator/simulate.ts:548-559 | in every run it is exactly what the weeks above the line, cost more than 102% of planned progress times budgeted cost, asked for, and once that passes the budget, the budget less at most one |
| Contingency.EveryDrawdownWasDue | scripts/generator/simulate.ts:549-557 | each drawdown names its week, no two the same; that week's cost was above the line, and it is at most what the week asked for |
| Contingency.EveryWeekAboveDraws | scripts/generator/simulate.ts:549-557 | every week above the line that asks for more than one has its drawdown, whole while the budget lasts |
| Contingency.BelowTheLineNothingIsDrawn | scripts/generator/simulate.ts:549 | a run whose cost never passes the line has no drawdown |
| Contingency.EveryWeekAboveCounts | scripts/generator/simulate.ts:548-559 | outside recovery, what is consumed is the number of weeks above the line times the declared rate times the budget, up to the budget less at most one |
| Contingency.RecoveryAsksForLess | scripts/generator/simulate.ts:253 | recovery asks for four tenths of the declared rate at first, never more than the week before, and never less than one tenth |
| RunLaws.EstimateIsOfTheRest | scripts/generator/simulate.ts:509-526 | an estimate is in proportion to the share of the plan that is left, and committed is 5% to 14% of it |
| RunLaws.EstimateIsInForce | scripts/generator/simulate.ts:509-526 | in every run the estimate in force is the one of the last week in four, from the progress by its end, and never more than three weeks old |
| RunLaws.NoEstimateYet | scripts/generator/simulate.ts:191-192 | before the first such week there is none |
| RunLaws.PostingsAreDated | scripts/generator/simulate.ts:608-628 | in every run a posting is the first version of its period, of a week in four whose month that is, three days after it |
| Simulation.RevenueIsSound | scripts/generator/simulate.ts:606-629 | in every run the ORIGINAL postings are one for each month in turn; the cumulative never falls nor exceeds contract value and executed changes; postings are only appended |
| Simulation.RunBillsWithinRecognised | scripts/generator/simulate.ts:656-665 | billing a run's corrected postings keeps paid within invoiced within the billed fraction of what was recognised, to half a cent an invoice, and within 95% of it to the cent when that fraction is below the threshold |
| Interpolation.SortKeeps | scripts/generator/curated.ts:451 | the sort is a rearrangement in descending order of weeks before |
| Interpolation.Interpolate | scripts/generator/curated.ts:450-477 | the search loop gives the specified interpolation |
| Interpolation.ExactAtCheckpoints | scripts/generator/curated.ts:454-473 | interpolation returns every checkpoint that is alone in its week, in every field |
| Interpolation.InterpolationIsMonotone | scripts/generator/curated.ts:456-469 | the interpolated cost never falls as weeks pass, if the checkpoints' costs do not, also where checkpoints share a week |
| Curated.BuildCuratedFacts | scripts/generator/curated.ts:522-606 | the loop gives the specified cost, estimate, commitment and contingency rows |
| Curated.WeeksAreDone | scripts/generator/curated.ts:533-563 | for all checkpoints, after every week the cost rows so far sum to what the weeks spent and what rounding added: an equation in cents |
| Curated.WeeklyCostsTelescope | scripts/generator/curated.ts:534-537 | what the weeks spent is never less than the interpolated cost, and equal to it if and only if that never falls over the emitted weeks |
| Curated.EacIsAccountedFor | scripts/assessment/curated-assessment.ts:124-128 | for all checkpoints, at every week that restates the estimate at completion is what was spent, the estimate, the commitment and the three rounding residues: an equation |
| Curated.CutIsFinal | scripts/assessment/curated-assessment.ts:82-85 | what is emitted for later weeks changes nothing that a cut at an earlier week reads |
| Curated.OneInSix | scripts/generator/curated.ts:573-574 | of any six consecutive weeks without a checkpoint exactly one restates, and the as-of week does |
| Curated.LatestIsLastRestated | scripts/assessment/curated-assessment.ts:82-128 | the estimate and the commitment that are read at a date are those of the last week that restated |
| Curated.EstimateIsFresh | scripts/assessment/curated-assessment.ts:82-128 | so they are at most five weeks old, and at the as-of date that day's |
| Curated.EacLandsOnTarget | scripts/assessment/curated-assessment.ts:124-128 | at every checkpoint alone in its week, of costs that do not fall, the sum is its target to half a cent a row read: two a week, two and one |
| Exactness.EacMissesBy | scripts/assessment/curated-assessment.ts:124-128 | for all checkpoints, at every week that restates, it is that week's target and what emission adds, week by week |
| Exactness.MissedFromCheckpoints | scripts/generator/curated.ts:533-563 | what emission adds down to a checkpoint is computed from the checkpoints: all weeks between two neighbours add one number, but for the entry to a week that several share |
| Exactness.EacIsExactIff | scripts/generator/curated.ts:533-592 | so at every emitted checkpoint alone in its week, whatever the others are, it is the target and a number computed from the checkpoints, and exactly the target if and only if that number is zero; a target that is met is of whole cents |
| Exactness.CostResidueIs | scripts/generator/curated.ts:556-563 | a week adds nothing if and only if its cost is whole cents and does not end in five |
| Exactness.EacInWholeCents | scripts/generator/curated.ts:533-592 | the case of whole cents: one cent above the target for each week whose cost ends in five, so exact if and only if there is none |
| Exactness.HealthyReferenceMisses | scripts/generator/curated.ts:139-145 | scenario A meets its first two targets and lands 4 and 8 cents below the others: weeks of 20833 and a third |
| Exactness.SegmentsCanCancel | scripts/generator/curated.ts:533-592 | three checkpoints whose two segments add and take four tenths of a cent: the target is met though no week spends whole cents |
| Exactness.EacCanMissItsTarget | scripts/generator/curated.ts:533-592 | one checkpoint of five cents, emitted as five and one |
| Curated.DrawdownsTelescope | scripts/generator/curated.ts:594-606 | drawdowns and the increments too small to emit sum to the contingency consumed, less what was consumed before the first emitted week, to half a cent a row |
| Curated.UnseenIs | scripts/generator/curated.ts:594-599 | what is missing is what had been consumed at the last skipped week, so nothing is if and only if the horizon's own week is emitted or nothing had been consumed by then |
| Curated.OpeningBalanceCanVanish | scripts/generator/curated.ts:594-599 | a scenario that starts a week after its first checkpoint and never draws the thousand consumed by then |
| RateLimit.CallerRateLimit.Allow | server/access.ts:264-275 | one call decides and moves its window as the shared specification says, and leaves other keys alone |
| RateLimit.FixedWindowRateLimiter.Check | src/app/api/rate-limit.ts:46-60 | the same, with the bucket's policy, and with the retry time of a refusal |
| RateLimit.KeysAreDistinct | server/access.ts:265 | two callers, or one in two buckets, never share a key, in either limiter's order of the parts |
| RateLimit.OthersDoNotMatter | server/access.ts:264-275 | in every run the calls of other keys can be taken out without changing a key's window or how many of its calls are admitted in any interval |
| RateLimit.AtMostTwiceTheLimit | server/access.ts:244-275 | in every run with a clock that never falls, every closed interval of one window's length admits at most twice the limit for a key; a limit below one acts as one |
| RateLimit.TwiceTheLimitHappens | server/access.ts:244-275 | and that bound is reached |
| RateLimit.RetryAfterIsExact | src/app/api/rate-limit.ts:53-58 | after a refusal with a retry time, whatever others do, every earlier call of the key is refused and the first from then on is admitted |
| Base64Url.DecodeUndoesEncode | server/access.ts:188 | decoding undoes encoding (section 5 of RFC 4648), all in the alphabet, four characters for three bytes |
| Token.StrIsPlain | server/access.ts:227-228 | a printed time has no dot and parses back |
| Token.IssuedHasSixFields | server/access.ts:182-191 | an issued token has exactly six dot-separated fields, for every persona |
| Token.HeaderReads | server/runtime.ts:286-290 | a bearer header gives its token back if and only if the token is within 512 characters |
| Token.HeaderIsReadIff | server/runtime.ts:286-290 | whatever the header, it is read as a token if and only if, trimmed, it is "Bearer", blanks and up to 512 characters of the alphabet with padding, and the token is what follows the blanks |
| Token.IssuedTokenComesBack | server/access.ts:182-239 | sent back before it expires an issued token gives the same caller, and from then on is refused as expired |
| Token.AcceptedTokenIsSigned | server/access.ts:208-239 | every accepted token is its own five-field body, a dot and that body's signature, and has not expired |
| Token.AcceptedTokensAreUnique | server/access.ts:222-223 | two accepted tokens with the same five fields are one token |
| Token.TokenIsJudged | server/access.ts:208-239 | whatever the token and the time: which of missing, malformed, wrongly signed, expired or accepted it is, and the caller an accepted one names |
| Token.SittingsDiffer | server/access.ts:182-191 | two caller ids are equal if and only if persona and random bytes are |
| SingleFlight.Server.KnowledgeRegistry | server/main.ts:196-198 | the step up to the await: the registry if it is known, else one build started and waited for; keeps the invariant |
| SingleFlight.Server.MakeRegistry | server/main.ts:204-217 | the one registry is made, none having been before; without stores the flag is set to not durable and the build resolved in the same step; keeps the invariant |
| SingleFlight.Server.Wake | server/main.ts:196-198 | a waiting request goes on with the registry of the resolved build, or fails with the rejected one; keeps the invariant |
| SingleFlight.Server.Hydrate | server/main.ts:218-240 | after hydration the flag says whether it succeeded, and the build is resolved in the same step; keeps the invariant |
| SingleFlight.Server.RefuseWhenNotDurable | server/main.ts:930-935 | after the await an ingest request is answered from the flag, which is settled by then; keeps the invariant |
| SingleFlight.EveryRunKeepsInvariant | server/main.ts:121-243 | registry, promise, flag and requests agree after every interleaving of steps |
| SingleFlight.OneRegistryForAll | server/main.ts:187-243 | over every interleaving at most one registry is built, and whoever holds one, whenever, holds the same |
| SingleFlight.FlagIsReadSettled | server/main.ts:921-935 | no ingest request reads the durability flag before the build has settled it |
| SingleFlight.FlagTellsStorage | server/main.ts:210-236 | over every interleaving the flag says durable if and only if a hydration has succeeded, and not durable if and only if there were no stores or it has failed |
| SingleFlight.AcceptedIsHydrated | server/main.ts:196-243 | an upload is accepted only of a request that arrived with one, after a build that was given stores, attached them and hydrated from them, and it was that hydration that settled the build |
| SingleFlight.NothingAcceptedWithoutStorage | server/main.ts:921-936 | where no stores are given, or no hydration succeeds, no upload is ever accepted |
| SingleFlight.UploadsFollowStorage | server/main.ts:921-936 | once the build has settled, every upload, answered or still waiting, is refused without stores or after a failed hydration, and accepted after one that succeeded |
| SingleFlight.RejectionTellsCause | server/main.ts:196-243 | a build is rejected if and only if its preparation threw or its stores could not be attached: a failed hydration rejects nothing |
| SingleFlight.FailureIsForever | server/main.ts:196-243 | after a failed build no request ever gets a registry, and each that waits fails: the rejected promise is never replaced |
| SingleFlight.SuccessServesAll | server/main.ts:196-243 | after a build that succeeds every waiting and every arriving request gets its registry |
| Facts.SelectedMatch | scripts/design/gl-runtime.ts:78-88 | the selection is exactly the facts that match the view |
| Facts.Match | scripts/design/gl-runtime.ts:78-87 | the tests one by one give that matching |
| Facts.EachFilterNarrows | scripts/design/gl-runtime.ts:78-87 | every filter is a condition of its own: setting it keeps, of what was selected, what has that value, driver, lens or membership |
| Facts.EverythingIsSelected | scripts/design/gl-runtime.ts:78-88 | without filters all facts are selected, in order |
| Facts.SelectedOnce | scripts/design/gl-runtime.ts:88 | each fact is selected as often as it occurs, or not at all |
| Facts.LensesAreFilters | scripts/design/gl-runtime.ts:24-26 | three lenses are driver and trajectory filters by another name |
| Facts.OtherLensesAre | scripts/design/gl-runtime.ts:20-23 | the others read how the action starts, two marks, and a word anywhere in the trajectory |
| Facts.DimensionsPart | scripts/design/gl-runtime.ts:78-88 | over all the values of a dimension the counts add up to the count without it |
| Facts.NarrowingIsExact | scripts/design/gl-runtime.ts:78-88 | a view narrowed to ids it already selects selects exactly the facts with those ids |
| Movement.Flow | scripts/design/gl-runtime.ts:580-588 | the loop gives the specified movement rows, in the order shown |
| Movement.ShownByValue | scripts/design/gl-runtime.ts:588 | that order falls by value, and is a rearrangement of the rows gathered, whatever order they were gathered in |
| Movement.EveryMoverHasOneRow | scripts/design/gl-runtime.ts:580-588 | each row lists exactly the projects that make its move, with their count, value and risk; each mover is in one row and one only |
| Movement.ShownRowsAreRight | scripts/design/gl-runtime.ts:580-588 | the same for the rows as shown |
| Movement.BandsAreConserved | scripts/design/gl-runtime.ts:580-591 | for every selection and band the 60-day count is today's, plus what the rows move in, less what they move out; the same for contract value |
| Query.ComponentComesBack | scripts/design/gl-runtime.ts:867-905 | a component written by encodeURIComponent and read by URLSearchParams is the text it was |
| Query.PrintedIsParsed | scripts/design/gl-runtime.ts:867-905 | the parameters of a printed query are parsed in order |
| Filters.IdsComeBack | scripts/design/gl-runtime.ts:901-902 | a population joined by commas and split again is the population |
| Filters.SyncUrl | scripts/design/gl-runtime.ts:867-874 | the steps of syncUrl give the specified query |
| Filters.Page.ReadUrl | scripts/design/gl-runtime.ts:891-905 | the steps of readUrl overwrite what is present and leave the rest of the view, for quick views by their own seven names |
| Filters.UrlComesBack | scripts/design/gl-runtime.ts:867-905 | a page opened on a canonical URL has the view it was written from, in whatever order its dimensions were set |
| Filters.RemoveIsWithout | scripts/design/gl-runtime.ts:402 | deleting a parameter by text, where another stands first, deletes the parameter |
| Filters.CutsAlone | scripts/design/gl-runtime.ts:402-403 | where the population stands first, its question mark goes with it and nothing is left |
| Filters.InvestigateWritesTheView | scripts/design/gl-runtime.ts:399-409 | from any canonical URL, investigating two or more ids goes to the URL syncUrl would write for the same filters with that population |
| Filters.InvestigationIsExact | scripts/design/gl-runtime.ts:399-409 | and the page that opens has those filters and that population, and selects exactly the ids clicked |
| Filters.MovementRowOpensItsProjects | scripts/design/gl-runtime.ts:613-625 | so a movement row of two or more projects opens exactly the projects that make the move |

## Left out

- PdfExtract.ContentReadsBack: states the text the extractor's scan gathers; the whitespace tidying that extractText does last (src/platform/parse/pdf.ts:336-342) is lossy by design and is not modelled.
- PdfTree.EveryPageIsShown: follows the references through the cross-reference table; the product's own object scan, which does not trust the table, is not modelled.
- PdfFile.PaddedWidth: positions are unbounded integers, so the ten-digit limit is stated and not assumed.
- WorkbookFile.BuildXlsx: sheets are read by the names of their parts; the workbook, relationship and content-type texts are given, so the way from a sheet's name to its part is not modelled; a file that does not fit the container's fields is a range error.
- WorkbookSheets.BuildTexts: indices and row numbers are within the fifteen digits the reader takes; the header trimming, formula neutralising and ceilings applied to the values afterwards are not modelled, nor what toDecimalString makes of text that is not a plain number.
- ZipReader.RoundTrip: text is sequences of Unicode scalar values, so lone surrogates, which UTF-8 replaces, do not occur; which error the decompressor's refusal becomes hangs on the text of its message (src/platform/bytes/index.ts) and is a parameter.
- Recognition.PostKeepsSound: takes months as numbers and the calendar as a parameter of which only this is asked: four weeks on is the same month or the next.
- Delivery.GapIsCaused: is about the weeks before 87% elapsed; GapIsAccountedFor says what the acceptance catch-up adds after that, where an undragged project runs ahead of its plan (RunsAhead).
- Billing.PaidWithinInvoicedWithinRecognised: allows half a cent an invoice, because it is about every draw; InvoicedWithinBilled and NinetyFivePercentIff say where none is needed for the 95% bound.
- Exactness.EacIsExactIff: asks that the checkpoint be emitted and alone in its week, because interpolation returns one of two in a week; nothing is asked of the costs.
- Curated.EacLandsOnTarget: asks that the checkpoint be alone in its week, because interpolation returns one of two in a week, and that costs do not fall, because the loop emits positive increments only (WeeklyCostsTelescope).
- Curated.BuildCuratedFacts: leaves out effort, claims, reports and defects, and recognised revenue, which follows the rule modelled in Recognition.
- Simulation.SimulateProject: leaves out team assignments, milestones, effort and claim rows, defect rows beyond how many serious ones stay open, status reports, estimate rows, risks and baseline revisions; the order in which one week's draws are taken from its stream is not modelled.
- Token.IssuedTokenComesBack: asks of the UTF-8 conversions that they give the persona back, and of no text but itself to have the bytes of a signature; the strength of the signature is not modelled.
- Filters.UrlComesBack: asks that the driver be a plain word, as the six known drivers are, because syncUrl does not encode it.
- Filters.Page.ReadUrl: a view named like a property every object inherits, as in `?view=toString`, is taken by the source's test of QUICK and not by the model.
- Filters.InvestigationIsExact: the binding of bars and rows to clicks is not modelled.
- RateLimit.AtMostTwiceTheLimit: is per process, as the limiters are.
- SingleFlight.OneRegistryForAll: awaits are atomic-step boundaries; what each step does besides the registry, the promise, the flag and the requests is not modelled, nor the per-persona state cache.
- Rng.EveryOrderCanBeDrawn: is about arbitrary draws; which orders some 32-bit state leads to is not modelled, except that some have none (Orders.SomeOrderIsNeverDrawn).
- Rng.IntBounds: is in exact arithmetic; floating-point rounding of draws is not modelled, nor the hash that turns a seed text into a first state.
- The request-body cap of server/runtime.ts, the code check and open-access switch of server/access.ts: single comparisons.
- HTTP, stores, assistants, narration, page rendering, portfolio and cohort tables: outside the algorithms modelled here.
