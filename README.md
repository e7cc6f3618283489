# Receipt-to-order matching, modelled in Dafny

The system reads a sales report workbook exported from a point-of-sale service. It keeps
the orders whose option text asks for parcel delivery ("택배요청" or
"채널추가무료배송"). It then matches a photographed receipt against those orders:
- the calendar date must be equal;
- the order start time must lie within ten seconds of the receipt;
- the product name must be similar (difflib ratio of at least 0.75).

It writes the customer's name, phone, address and an item description into the first
row of each matched order. This project models, as Dafny datatypes, functions, classes
and methods, the following parts:

- the spreadsheet serial-date codec of the openpyxl handler, with its 1900 leap-year
  correction (`serial.dfy`), and the `datetime`, `strftime` and `strptime` behaviour it
  relies on (`calendar.dfy`, `timefmt.dfy`);
- cell values and the Python operations applied to them (`cells.dfy`, `text.dfy`);
- worksheets, workbooks and the table view both handlers build from a sheet
  (`sheet.dfy`);
- the keyword filter on the option column (`optionfilter.dfy`);
- the openpyxl handler `ExcelHandlerPyXL` (`pyxl.dfy`): sheet selection, the delivery
  columns, the quantity repair and the filter-to-new-sheet step;
- the pandas handler `ExcelHandler` (`handler.dfy`): date-prefix parsing, the serial
  restoration of "fake" 1899–1901 dates, serial-to-text conversion and the column repairs;
- the matcher (`matching.dfy`, `writer.dfy`, `matcher.dfy`):
  - the validators and the receipt timestamp parser;
  - the three per-row checks, the row cascade with its debug trace, and the stable
    ordering by score;
  - the grouping of matched rows by order time and the customer-detail writes;
  - the status decision of `match_order`, and the display conversion of the date
    columns before saving;
- the Ratcliff/Obershelp similarity ratio of `difflib.SequenceMatcher` (`similarity.dfy`);
- the extractor's phone normalisation (`phone.dfy`).

Floating-point values are modelled as exact rationals (`real`). Every double is one. The
model spells out the rounding that Python itself specifies. For example, `timedelta` rounds
half-to-even to the microsecond (`SerialCodec.RoundHalfEven`). The rounding of double
arithmetic is not modelled. The serial properties carry over to the program's doubles for
serials below 65536, the dates up to mid-2079 that the data holds. There the spacing of
doubles near a serial is under one microsecond. "## Left out" names the members whose
promises can fail in doubles above that bound.

Where the written description of the system and the code disagree, the model follows
the code:

- The description says that "주이패턴이불(냉감나일론)" on a receipt matches the order
  name "주이패턴이불". The code's ratio for that pair is 12/19, below 0.75, so the pair
  does not match. `Matching.SuffixedNameDoesNotMatch` proves this.
- The description presents the leap-window correction as a round trip. In the code,
  converting a datetime from 1900-01-01 to 1900-02-28 to a serial and back lands one day
  early. The serial-to-datetime direction has no matching correction
  (`SerialCodec.RawSerialLeapWindow`).

## Model

| member | source | states |
|---|---|---|
| `SerialCodec.EpochDays` | modules/excel_handler_with_pyxl.py:16-17 | the epoch 1899-12-30 and the leap-bug bounds 1900-01-01 and 1900-03-01 are valid dates, with the day numbers the codec uses |
| `SerialCodec.SerialToDateTime` | modules/excel_handler_with_pyxl.py:20-22 | a serial of x days is 1899-12-30 plus x days, rounded half-even to the microsecond; OverflowError exactly when that leaves the years 1..9999 |
| `SerialCodec.SerialToStr` | modules/excel_handler_with_pyxl.py:24-26 | the "%Y-%m-%d %H:%M:%S" or "%Y-%m-%d" text of that date-time; it fails exactly when the conversion does |
| `SerialCodec.SerialToDateTimeSplits` | modules/excel_handler_with_pyxl.py:20-22 | the integer part of a serial picks the day after the epoch, and the fraction picks the time of day, to the microsecond |
| `SerialCodec.SerialOfWholeDay` | modules/excel_handler_with_pyxl.py:20-22 | a whole serial n is midnight of the n-th day after 1899-12-30 |
| `SerialCodec.Serial45870` | modules/matcher.py:873-878 | serial 45870.0 is midnight of 2025-08-01 |
| `SerialCodec.RawSerialRoundTrip` | modules/excel_handler_with_pyxl.py:28-34 | outside the leap-bug window, converting a date-time's serial back gives that date-time exactly |
| `SerialCodec.RawSerialLeapWindow` | modules/excel_handler_with_pyxl.py:28-34 | inside 1900-01-01..1900-02-28 the serial is one day less than the distance from the epoch, and converting it back lands one day early |
| `SerialCodec.DtToSerialAsWritten` | modules/excel_handler_with_pyxl.py:28-34 | the serial is an int exactly when it lies within 1e-9 of a whole number, and otherwise the exact fractional serial |
| `SerialCodec.DtToSerialAsWrittenTruncates` | modules/excel_handler_with_pyxl.py:34 | 2025-08-01 23:59:59.999950 is written as the int 45870, the start of that day, where rounding gives 45871 |
| `SerialCodec.DtToSerial` | modules/excel_handler_with_pyxl.py:28-34 | corrected conversion: an int result lies within 1e-9 of the serial, and a float result is the exact serial |
| `SerialCodec.DtToSerialNearlyInverse` | modules/excel_handler_with_pyxl.py:20-34 | outside the leap window, the corrected serial converts back to within 86 microseconds of the date-time, and a fractional one converts back exactly |
| `SerialCodec.DtToSerialWholeSeconds` | modules/excel_handler_with_pyxl.py:28-34 | for whole seconds the serial is an int exactly at midnight, where it equals the day count minus the leap correction, and the as-written and corrected conversions agree |
| `TimeFormat.StrptimeDateOfStrftime` | modules/matcher.py:376-377 | parsing "%Y-%m-%d" recovers the date of any date-time formatted that way |
| `TimeFormat.StrptimeDateTimeOfStrftime` | modules/matcher.py:372-373 | parsing "%Y-%m-%d %H:%M:%S" recovers any formatted date-time, to the second |
| `Cells.PyEqIsEquivalence` | modules/matcher.py:553-555 | the dictionary-key equality used for grouping is symmetric and transitive, and reflexive for everything but NaN |
| `Cells.ParseFloatOfIntToString` | modules/excel_handler_with_pyxl.py:318-320 | `float()` of an integer's decimal text is that integer |
| `Phone.NormalizePhone` | modules/info_extractor.py:63-79 | 11 digits starting 010 become 3-4-4 groups, 10 digits starting 01 become 3-3-4, and anything else, empty text included, is returned unchanged |
| `Phone.NormalizeKeepsDigits` | modules/info_extractor.py:63-79 | normalisation never changes the digits of the number |
| `Phone.NormalizeIdempotent` | modules/info_extractor.py:63-79 | normalising twice is normalising once |
| `Phone.NormalizedShape` | modules/info_extractor.py:71-77 | a normalised number holds only digits and hyphens, begins and ends with a digit, keeps the prefix and has 10 or 11 digits |
| `Similarity.LongestMatch` | modules/matcher.py:352 | the block found is a common block inside the ranges, and no common run starting inside them is longer |
| `Similarity.Ratio` | modules/matcher.py:352 | the similarity ratio lies between 0 and 1 |
| `Similarity.RatioSelf` | modules/matcher.py:352 | a string matches itself completely, with ratio 1 |
| `Similarity.RatioThreshold` | modules/matcher.py:352-356 | the ratio reaches 0.75 exactly when eight times the matched length is at least three times the total length |
| `Similarity.RatioLengthBound` | modules/matcher.py:352-356 | names whose lengths differ too much never reach 0.75, whatever their characters |
| `Sheets.RawFrame` | modules/excel_handler_with_pyxl.py:375-393 | the table of a sheet has the header row's texts as column names (None read as "") and one row per further sheet row, labelled 0, 1, 2, … |
| `Sheets.FindOptionColumn` | modules/excel_handler_with_pyxl.py:395-399 | the first column whose name contains "옵션", or none when no name does |
| `Sheets.Select` | modules/excel_handler_with_pyxl.py:294 | a boolean mask keeps exactly the marked rows with their labels, in order |
| `Sheets.SetConstant` | modules/excel_handler_with_pyxl.py:347-349 | assigning a constant column puts that value in every row and keeps rows and labels |
| `Sheets.WithColumnsOnlyAppends` | modules/excel_handler_with_pyxl.py:246-255 | adding missing columns keeps every existing column and cell, appends the missing names with None, and afterwards all names are present |
| `Sheets.AddMissingColumns` | modules/excel_handler_with_pyxl.py:253-255 | the column loop computes that table |
| `Sheets.AppendRows` | modules/excel_handler_with_pyxl.py:359-361 | appending rows to an empty sheet leaves exactly those rows in it |
| `Sheets.WrittenSheetReadsBack` | modules/excel_handler_with_pyxl.py:358-361 | reading the new sheet back gives the same columns and rows, relabelled 0, 1, 2, … |
| `Sheets.Workbook.Remove` | modules/excel_handler_with_pyxl.py:352-353 | deleting a sheet by name keeps the other sheets in order, and titles stay distinct |
| `Sheets.Workbook.CreateSheet` | modules/excel_handler_with_pyxl.py:358 | a fresh empty sheet with that title is added last |
| `Sheets.Workbook.ReplaceSheet` | modules/excel_handler_with_pyxl.py:352-361 | any sheet with that title is dropped, the others keep their order, and a fresh last sheet with that title holds exactly the given rows; titles stay distinct |
| `OptionFilter.KeepMask` | modules/excel_handler_with_pyxl.py:284-292 | a row is kept exactly when its option text (missing read as "") contains every keyword ("all") or some keyword ("any") |
| `OptionFilter.KeywordMask` | modules/excel_handler.py:251-260 | the keyword loop builds that mask, and with no keywords the indexing raises KeyError |
| `OptionFilter.KeywordFilterSubsequence` | modules/excel_handler.py:248-262 | the filtered table is the subsequence of rows whose option text passes, in the original order with their labels |
| `OptionFilter.KeywordFilterEmpty` | modules/matcher.py:61-65 | the filtered table is empty exactly when no row passes |
| `OptionFilter.AllImpliesAny` | modules/excel_handler.py:251-260 | a row kept in "all" mode is kept in "any" mode |
| `OptionFilter.DeliveryPattern` | modules/matcher.py:61 | the regular expression of the two keywords as alternatives keeps exactly the rows containing either keyword |
| `PyxlHandler.FixQty` | modules/excel_handler_with_pyxl.py:299-322 | blank becomes "", numbers keep their value (int when whole), date-times and "YYYY-MM-DD…" texts become serials by the truncating `_dt_to_excel_serial` as written, numeric texts (commas ignored) become numbers, and other values stay |
| `PyxlHandler.FixQtyIdempotent` | modules/excel_handler_with_pyxl.py:299-323 | repairing a repaired quantity changes nothing |
| `PyxlHandler.FixQtyOfIntText` | modules/excel_handler_with_pyxl.py:318-320 | the text of an integer becomes that integer |
| `PyxlHandler.FixQtyOfDisplayText` | modules/excel_handler_with_pyxl.py:309-314 | a displayed date or date-time text becomes the serial of that date or date-time; on such whole-second values the truncating and the corrected conversion agree |
| `PyxlHandler.FixQtyTruncates` | modules/excel_handler_with_pyxl.py:305-306 | the quantity repair inherits the truncation: a date-time 50 microseconds before midnight of 2025-08-01 becomes 45870, where the corrected conversion gives 45871 |
| `PyxlHandler.FixQuantityColumn` | modules/excel_handler_with_pyxl.py:298-323 | only the "수량" column changes, each cell by the repair, and nothing changes without that column |
| `PyxlHandler.WithExtrasKeepsColumns` | modules/excel_handler_with_pyxl.py:347-349 | the extra columns never displace existing columns |
| `PyxlHandler.WithExtrasValues` | modules/excel_handler_with_pyxl.py:347-349 | an extra column not assigned again later is present and holds its value in every row |
| `PyxlHandler.FilteredTableShape` | modules/excel_handler_with_pyxl.py:270-355 | ValueError on an empty sheet and KeyError without an option column or keywords; otherwise the filtered rows, with every original and every delivery column |
| `PyxlHandler.ExcelHandlerPyXL.SelectSheet` | modules/excel_handler_with_pyxl.py:197-205 | the sheet "상품 주문 상세내역" when the workbook has it, else the first sheet |
| `PyxlHandler.ExcelHandlerPyXL.SwitchToSheet` | modules/excel_handler_with_pyxl.py:226-243 | succeeds exactly when a workbook is loaded and has that sheet, which becomes the worksheet; otherwise nothing changes |
| `PyxlHandler.ExcelHandlerPyXL.AddDeliveryColumnsToDf` | modules/excel_handler_with_pyxl.py:246-255 | the nine delivery columns are present afterwards, and only missing ones are appended |
| `PyxlHandler.ExcelHandlerPyXL.BuildFilteredTable` | modules/excel_handler_with_pyxl.py:270-355 | computes the filtered table or the error of the steps before writing |
| `PyxlHandler.ExcelHandlerPyXL.FilterToNewSheetRaw` | modules/excel_handler_with_pyxl.py:257-370 | RuntimeError without a workbook or worksheet, and no sheet change on error; otherwise the old sheet of that name is replaced by a new last sheet holding the filtered table |
| `DfHandler.ParseDatePrefix` | modules/excel_handler.py:12-21 | a date exactly when the stripped text starts with four digits, two digits and two digits separated by hyphens, forming a valid date |
| `DfHandler.ParseDatePrefixOfDateText` | modules/excel_handler.py:12-21 | any displayed date, whatever follows it, parses back to its midnight |
| `DfHandler.InvalidMonthPrefix` | modules/excel_handler.py:12-21 | a month above 12 yields None rather than an error |
| `DfHandler.ExcelSerialIsWholePart` | modules/excel_handler.py:23-29 | the restored serial is the whole part of the openpyxl handler's serial, and at midnight both handlers agree |
| `DfHandler.ExcelSerialRoundTrip` | modules/excel_handler.py:23-29 | outside the leap window the restored serial converts back to the date's midnight |
| `DfHandler.From1900IsSerialCodec` | modules/excel_handler.py:54-63 | 1900-01-01 plus (x − 2) days is the same date-time as the epoch-based codec gives |
| `DfHandler.ConvertExcelSerialToDate` | modules/excel_handler.py:44-68 | a falsy value gives ""; a value `float()` rejects gives its text; otherwise the serial's text, with the time exactly when the value's text contains "." |
| `DfHandler.ConvertIntSerial` | modules/excel_handler.py:61-64 | a nonzero int serial gives the date only |
| `DfHandler.ConvertFloatSerial` | modules/excel_handler.py:57-60 | a nonzero float serial that `str()` writes in fixed notation (magnitude from 1e-4 up to below 1e16) gives date and time |
| `DfHandler.ConvertTinySerial` | modules/excel_handler.py:57-64 | `str(5e-05)` is "5e-05", without a point, so that float serial gives the date only |
| `DfHandler.FixNumericColumn` | modules/excel_handler.py:70-112 | blank gives "", numbers keep their value, numeric texts become numbers, date-times and date texts up to 1901 become restored serials, and later dates and other texts stay |
| `DfHandler.FixNumericRestoresSerial` | modules/excel_handler.py:97-101 | a fake date up to 1901 is restored to the serial that converts back to it |
| `DfHandler.FixNumericIdempotent` | modules/excel_handler.py:70-112 | repairing twice is repairing once |
| `DfHandler.ConvertAll` | modules/excel_handler.py:124-127 | the column maps cell by cell to the converted texts, or fails with the error of a cell |
| `DfHandler.ExcelHandler.FindOptionCol` | modules/excel_handler.py:230-237 | None without a table; otherwise the first column whose name contains "옵션", and None only when no column does |
| `DfHandler.ExcelHandler.FixDataTypes` | modules/excel_handler.py:114-137 | converts the two date columns, then repairs the quantity column; columns, labels and every other column stay as they were |
| `DfHandler.ExcelHandler.FilterByOptionKeywords` | modules/excel_handler.py:239-264 | RuntimeError without a table, KeyError without an option column or keywords, else the keyword-filtered table |
| `DfHandler.ExcelHandler.AddDeliveryColumns` | modules/excel_handler.py:266-288 | false without a table; otherwise the missing delivery columns are appended |
| `Matching.ParseReceiptDatetime` | modules/matcher.py:363-380 | the full timestamp format first, the date-only format second, ValueError when neither matches |
| `Matching.ParseFullTimestamp` | modules/matcher.py:372-373 | a displayed timestamp parses to itself, to the second |
| `Matching.ParseDateOnly` | modules/matcher.py:374-377 | a displayed date parses to its midnight |
| `Matching.CellDateTime` | modules/matcher.py:282-286 | a timestamp cell is its own date-time; a numeric cell is converted as a serial |
| `Matching.Distance` | modules/matcher.py:322 | the absolute difference of two date-times, zero exactly when they are equal |
| `Matching.MatchDateOfSerial` | modules/matcher.py:255-297 | the date check on a whole serial passes exactly when the receipt's day is that serial's day |
| `Matching.MatchDate45870` | modules/matcher.py:873-878 | any receipt time on 2025-08-01 passes the date check against 45870.0 |
| `Matching.MatchOwnSerial` | modules/matcher.py:255-333 | outside the leap window a receipt passes both checks against its own serial |
| `Matching.MatchSameMoment` | modules/matcher.py:255-333 | a cell holding the receipt's own moment passes both checks |
| `Matching.MatchTimeWindow` | modules/matcher.py:299-333 | a timestamp cell passes the time check exactly when it lies within ten seconds either side of the receipt |
| `Matching.MatchProductName` | modules/matcher.py:335-359 | a missing or empty name gives (false, 0); a non-text order raises AttributeError; otherwise the ratio of the lower-cased, space-free names, matching from 0.75 |
| `Matching.MatchSameCleanName` | modules/matcher.py:347-356 | names equal after cleaning match with similarity 1 |
| `Matching.SuffixedNameDoesNotMatch` | modules/matcher.py:342-357 | "주이패턴이불(냉감나일론)" does not match "주이패턴이불" |
| `Matching.PlainNamesOfDifferentLength` | modules/matcher.py:342-357 | lower-case, space-free names whose lengths differ too much never match |
| `Matching.Score` | modules/matcher.py:198-202 | the score 0.6 + 0.4 × similarity lies in [0.6, 1], and at least 0.9 for a matching name |
| `Matching.ValidReceiptOfTimestamp` | modules/matcher.py:565-597 | a receipt with a displayed timestamp is valid exactly when it has items and the first has a name |
| `Matching.NormalizedPhoneAccepted` | modules/matcher.py:600-628 | every normalised mobile number, with a non-blank name and address, passes the customer check |
| `Matching.PhoneWithLetterRefused` | modules/matcher.py:616-620 | a phone holding anything but digits and hyphens is refused |
| `Matching.DeliveryItemsSubsequence` | modules/matcher.py:476-487 | the delivery items are exactly the items whose options contain a delivery keyword, in order |
| `Matching.TotalQuantity` | modules/matcher.py:493-494 | the sum of the quantities (1 when missing), TypeError exactly when one is null |
| `Matching.ItemTexts` | modules/matcher.py:496-506 | each item is its bare name for quantity 1, otherwise "name q개" |
| `Matching.FormatItemsForDescription` | modules/matcher.py:466-520 | "" without delivery items, TypeError exactly on a null quantity, else "총N개) " with the total N followed by the delivery items' texts joined by "/" |
| `Matching.FormatTwoItems` | modules/matcher.py:493-520 | a receipt with two delivery items is described as "총N개) " with their total, then the first item's text, "/", and the second's |
| `Matching.FormatSingleItem` | modules/matcher.py:511-515 | a single delivery item of quantity 1 is described as "총1개) " and its name |
| `Matching.Examine` | modules/matcher.py:149-214 | the trace entry records which checks passed, each only after the previous one; a candidate exists exactly when the row has all values and passes all three checks, with its similarity and a score of at least 0.9; only the product check can raise |
| `Matching.SortByScore` | modules/matcher.py:249 | the candidates are permuted into descending score order |
| `Matching.SortByScoreStable` | modules/matcher.py:249 | candidates of equal score keep their original order |
| `Matcher.TalliedOk` | modules/matcher.py:149-214 | the scan succeeds exactly when no row raises, and otherwise fails with the first row's error |
| `Matcher.TalliedCounts` | modules/matcher.py:123-214 | every row is counted and traced once, the pass counters never increase from date to time to product, and the product count is the number of candidates |
| `Matcher.TalliedTrace` | modules/matcher.py:149-214 | the trace holds each row's attempt in row order |
| `Matcher.TalliedFound` | modules/matcher.py:198-217 | the candidates are exactly those rows that passed |
| `Matcher.TalliedRowOrder` | modules/matcher.py:149-214 | before sorting, candidates are in row order |
| `Matcher.FindMatches` | modules/matcher.py:117-251 | the result is sorted by score, and a receipt without time or items gives no candidates and one failure reason |
| `Matcher.FindMatchesRaises` | modules/matcher.py:149-214 | the search fails exactly when some row raises, with the first such row's error |
| `Matcher.FindMatchesDebug` | modules/matcher.py:123-251 | the debug record counts every row, its pass counts are ordered, and it carries the receipt info and every row's attempt |
| `Matcher.RowCandidate` | modules/matcher.py:160-214 | a row yields a candidate exactly when it has all values and passes the three checks; the candidate carries the row's label, values, option and score |
| `Matcher.FindMatchesCandidates` | modules/matcher.py:117-251 | the candidates returned are exactly those of the passing rows |
| `Matcher.FindMatchesTies` | modules/matcher.py:249 | candidates of equal score stay in row order |
| `Matcher.SortEachGroup` | modules/matcher.py:558-559 | every group's labels are sorted |
| `Matcher.WriteIfGiven` | modules/matcher.py:445-460 | a field is written only when its header exists and the value is truthy |
| `Matcher.WriteCustomerRow` | modules/matcher.py:444-460 | the five field writes, in order, at one row |
| `Matcher.HeaderColumns` | modules/matcher.py:415-421 | the header loop computes the column of each customer header |
| `Matcher.WriteGroup` | modules/matcher.py:436-462 | one group's writes at its first row, none for an empty group |
| `Matcher.WriteGroups` | modules/matcher.py:436-464 | all groups' writes in order; the count is the number of non-empty groups |
| `Matcher.ReceiptProduct` | modules/matcher.py:76-80 | the first item's name when the items are truthy, else "" |
| `Matcher.DeliveryOrders` | modules/matcher.py:54-62 | no table exactly when there is no option column; else a well-formed filtered table |
| `Matcher.DeliveryOrdersEmpty` | modules/matcher.py:61-65 | the delivery orders are empty exactly when no row's option text contains a delivery keyword |
| `Matcher.Answer` | modules/matcher.py:68-107 | no_match exactly when no candidate; success writes for the first candidate only; a failed search answers with the error it raised, and a raised error writes nothing |
| `Matcher.Decide` | modules/matcher.py:28-114 | invalid receipt, invalid customer and missing worksheet are reported in that order, and only success writes |
| `Matcher.DecideNoOrders` | modules/matcher.py:41-65 | no_orders exactly when the inputs are valid, the option column exists and no row is a delivery order |
| `Matcher.DecideNoMatch` | modules/matcher.py:68-81 | no_match means no delivery row passes all three checks |
| `Matcher.BestCandidate` | modules/matcher.py:96-99 | the first candidate passed the checks, has the highest score, and is the earliest row among equal scores |
| `Matcher.DecideSuccess` | modules/matcher.py:83-107 | success writes the best candidate's details into customer columns of data rows only, and counts exactly one updated group, since the matched row's order time is present |
| `Matcher.ConvertCell` | modules/matcher.py:790-797 | one date cell is converted or kept |
| `Matcher.ConvertRow` | modules/matcher.py:789-797 | the date cells of one row are converted |
| `Matcher.ConvertDateColumnsForDisplay` | modules/matcher.py:777-797 | the loops make exactly the display writes |
| `Matcher.OrderMatcher.constructor` | modules/matcher.py:18-24 | the matcher keeps its handler and a ten-second tolerance |
| `Matcher.OrderMatcher.FindMatchingOrders` | modules/matcher.py:117-251 | the row loop computes the search result |
| `Matcher.OrderMatcher.GroupByOrderTime` | modules/matcher.py:522-561 | the loop computes the grouping |
| `Matcher.OrderMatcher.UpdateCustomerInfo` | modules/matcher.py:397-464 | 0 without a worksheet; otherwise the sheet receives exactly the planned writes, or is unchanged when grouping or the description raises |
| `Matcher.OrderMatcher.MatchOrder` | modules/matcher.py:28-114 | the result is the decision, and the worksheet receives exactly its writes |
| `Matcher.OrderMatcher.SearchAndRecord` | modules/matcher.py:68-107 | searching the delivery orders and answering, with the answer's writes applied |
| `Writer.ApplyWritesTwice` | modules/matcher.py:445-460 | applying the same cell writes twice is applying them once |
| `Writer.HeaderMap` | modules/matcher.py:415-421 | every header found maps to a column in range holding exactly that name |
| `Writer.HeaderMapLast` | modules/matcher.py:418-421 | a name is found exactly when some header cell holds it, and a repeated header maps to its last column |
| `Writer.LabelPosition` | modules/matcher.py:537 | a label is found exactly when it is in the index, at a position holding it |
| `Writer.TimeAt` | modules/matcher.py:537-550 | KeyError without the column or the label, nothing for a missing value, ValueError for a text `float()` rejects |
| `Writer.FindKey` | modules/matcher.py:553 | the group whose key equals the value under dictionary equality, or none |
| `Writer.SortLabels` | modules/matcher.py:558-559 | the labels permuted into ascending order |
| `Writer.GroupsOfPartition` | modules/matcher.py:522-561 | grouping fails exactly when a lookup raises; otherwise keys are distinct, every group is non-empty, sorted and holds exactly the labels with that time, and every labelled time has a group |
| `Writer.GroupsCount` | modules/matcher.py:522-561 | there are never more groups than labels |
| `Writer.GroupsOfOneLabel` | modules/matcher.py:522-561 | a single label whose order time is present makes exactly one group |
| `Matcher.DeliveryRowTime` | modules/matcher.py:536-550 | a delivery row that passed the time check has its time found, present, when its label is looked up in the whole table |
| `Writer.MissingTimeInNoGroup` | modules/matcher.py:540-541 | a label without an order time is in no group |
| `Writer.WriteIf` | modules/matcher.py:445-460 | one write exactly when the header exists and the value is truthy, of that value at that column |
| `Writer.RowWritesTargets` | modules/matcher.py:441-460 | a row's writes touch only that row and customer columns |
| `Writer.WrittenAll` | modules/matcher.py:436-464 | when every group has members, every group is counted |
| `Writer.ItemsText` | modules/matcher.py:428-433 | the description comes only from a receipt with items |
| `Writer.UpdatePlan` | modules/matcher.py:397-464 | a plan exists exactly when grouping and the item description both succeed |
| `Writer.UpdatePlanTargets` | modules/matcher.py:397-464 | the plan writes only data rows inside the sheet, under customer headers, and counts one per group |
| `Writer.UpdateIdempotent` | modules/matcher.py:397-464 | repeating the update on the updated sheet plans the same writes and changes nothing more |
| `Writer.DisplayCell` | modules/matcher.py:792-797 | only truthy numbers are replaced, and only by text; a failing conversion keeps the cell |
| `Writer.DisplayOfWrittenSerial` | modules/matcher.py:792-797 | outside the leap window a fractional serial that `_dt_to_excel_serial` writes for a date-time displays as that date-time's text |
| `Writer.DisplayOfSerialDay` | modules/matcher.py:792-797 | a nonzero whole serial displays as its date |
| `Writer.DisplayWritesTargets` | modules/matcher.py:777-797 | the conversion writes only text, below the header, inside the sheet |
| `Writer.DisplayEffect` | modules/matcher.py:777-797 | each data cell of a date column becomes its display text when it converts, and otherwise stays |
| `Writer.DisplayOutside` | modules/matcher.py:777-797 | the header row and every other column stay unchanged |
| `Writer.DisplayIdempotent` | modules/matcher.py:777-797 | a second conversion finds nothing left to convert |

## Left out

- Reading and saving files: password decryption, the styles.xml workaround, read-only cloning and `workbook.save`. The model starts from a loaded workbook. `FilterToNewSheetRaw` returns the new table instead of the save path.
- The openpyxl and pandas internals. A worksheet is a map from (row, column) to cell; a table is a list of column names over rows with index labels. Column dtypes, pandas' handling of duplicate column names, and copy-versus-view semantics are not modelled. The dtypes have these visible effects that the model does not show:
  - A numeric column with an empty cell: pandas stores NaN for the None and floats for the ints. `_fix_qty` (modules/excel_handler_with_pyxl.py:299-304) then returns NaN, where `PyxlHandler.FixQty` gives "" for the empty cell.
  - A time column that mixes date-times with other values keeps plain `datetime` objects, which have no `to_pydatetime`. `match_time` (modules/matcher.py:317-320) then calls `float()` on the date-time, catches the TypeError and returns False. `Matching.MatchTime` matches such a cell as a timestamp.
- Boolean cells: `Cell` has no boolean case. A TRUE cell in a date column is an `int` to `isinstance`, so `convert_date_columns_for_display` (modules/matcher.py:792) rewrites it as "1899-12-31". The model reads no boolean cells.
- The calls to the language-model API in the extractor, the user interface, the console `print` debugging, the empty stubs (`extract_product_keywords`, `calculate_match_score`), and the test and demonstration functions.
- `process_receipt_and_customer` and `process_single_receipt_with_handler`: these only chain loading, filtering, sheet switching, `match_order` and saving, which are modelled one by one. Their catch-all exception handler around the chain is not modelled.
- The catch-all `except Exception` in `match_order`: a raised error becomes `Failed(Raised(e))`, but the error message text is not modelled.
- `match_order` status texts and messages: the model returns the status and its data fields, not the Korean message strings.
- IEEE double rounding: numbers are exact rationals. `str()` of a float chooses fixed or exponent notation as Python does (exponent notation below 1e-4 and from 1e16 on), but its digits are approximated: six fraction digits in fixed notation, and a mantissa of at most six fraction digits without trailing zeros in exponent notation, where Python prints the shortest round-trip text.
- RawSerialRoundTrip: holds for the program's doubles only for serials below 65536. Above that, the spacing of doubles near the serial passes one microsecond. For 2300-01-01 00:00:00.000100, `_dt_to_excel_serial` sums to 146099 + 40·2^-35 in doubles, and `excel_serial_to_datetime` turns that into .000101, where the lemma promises .000100.
- DtToSerialNearlyInverse: its "a fractional serial converts back exactly" holds in doubles only for serials below 65536, for the same reason and with the same example as RawSerialRoundTrip.
- DtToSerialAsWritten: the integer test is made on the exact serial. In doubles, above serial 65536 a time just before midnight can round to the next whole day. For 2300-01-01 23:59:59.999999 the double sum is 146100.0, so `int()` gives 146100, where the model truncates to 146099. Its 86 µs distance bound (`NearWholeOfFraction`) is likewise stated for the exact serial.
- DtToSerial: the corrected variant makes its rounding test on the exact serial too, so the DtToSerialAsWritten line applies to it above serial 65536.
- ConvertExcelSerialToDate: whether the time is printed depends on a "." in `str()` of the value. In fixed notation there always is one, as in Python. In exponent notation (a nonzero serial below 1e-4) the point depends on the mantissa digits, which the model approximates, so for such a serial the choice between date and date-time may differ from Python's; `DfHandler.ConvertTinySerial` shows the exact case "5e-05".
- ConvertFloatSerial: promises date and time only for floats in fixed notation; a serial below 1e-4 whose `str()` has no point prints as a date only (`DfHandler.ConvertTinySerial`).
- `float()` of text covers decimal digits, sign, point, exponent and surrounding whitespace. It does not cover "inf", "nan", underscores or non-ASCII digits.
- NormalizePhone: digits are ASCII only. Python's `[^\d]` also keeps other Unicode decimal digits (fullwidth "１", for example), so a number written with them is normalised by the source and returned unchanged by the model.
- ParseDatePrefix: digits are ASCII only, where the pattern's `\d` and `int()` also accept other Unicode decimal digits.
- ParseReceiptDatetime: `strptime` fields are read with ASCII digits only, where Python's `strptime` also accepts other Unicode decimal digits.
- PhoneWithLetterRefused: the customer check `PhoneAccepted` counts ASCII digits only. A phone written in fullwidth or other Unicode decimal digits passes the check in the source but counts as holding a non-digit, and is refused, in the model.
- CreateSheet: openpyxl's title checks are not modelled. A title containing any of `\ * ? : / [ ]` raises ValueError, and an empty title becomes "Sheet"; the model accepts every title as given. This applies to `FilterToNewSheetRaw` and `ReplaceSheet` too.
- `str.lower()` lowers ASCII letters only; Korean text, the case that matters here, has no case.
- `strftime("%Y")` is modelled zero-padded to four digits; glibc prints years below 1000 unpadded. Only years from 1900 on occur in the data.
- Keywords in `str.contains` are matched as literal text; regular-expression metacharacters in keywords are not interpreted. The matcher's own pattern is proved equal to the two literal keywords (`OptionFilter.DeliveryPattern`).
- difflib's autojunk heuristic is not modelled. It applies only when the second string has 200 or more characters, far beyond product names.
- Receipt item quantities are integers, and option values strings or null. Other JSON types in those fields are not modelled.
- A `Timestamp` group key is compared by its own value; the unused `timestamp()` float the source computes is not modelled.
- `Writer.DisplayCell`: a conversion that raises is modelled for date-times out of range (OverflowError). Other exceptions swallowed by the bare `except` cannot occur in the model.
- `DfHandler.ExcelHandler` constructor: the file-existence check (FileNotFoundError) is I/O and is left out; `read_excel`, `show_excel_info`, `save_excel` and `compare_data_before_after` are I/O or printing.

## Findings

| source | as written | input that shows it | evidently intended | confidence | as-written member | corrected member |
|---|---|---|---|---|---|---|
| modules/excel_handler_with_pyxl.py:34 | `int(serial)` truncates a serial lying within 1e-9 below a whole number | 2025-08-01 23:59:59.999950 (serial 45870.99999999942…) is written as 45870, the start of the same day, almost a whole day early | round to the nearest whole serial, 45871 (`round(serial)`, as the tolerance test itself does) | not executed | `SerialCodec.DtToSerialAsWrittenTruncates` | `SerialCodec.DtToSerialNearlyInverse` |
