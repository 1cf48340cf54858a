# ERP core logic, modelled and verified in Dafny

This project models the logic of an ERP-style web application and proves properties of that model. The application has a Vue front end and an Express and SQL Server back end, and it comes with Python and Node scripts. Each Dafny module stands for one source file, or for a helper that several source files share.

- **Shared vocabulary.**
  - `Common`: optional values, results, and string operations (trim, split, join, replace, case, decimal text).
  - `JsNumber`: JavaScript `Number(...)`, `Math.round`, `parseInt` and number arithmetic.
  - `Grouping`: counting over sequences of keys, as the report scripts do with dictionaries.
- **Spreadsheet drawing tools (Python).**
  - `Drawing`: the SpreadsheetML drawing anchors of ECMA-376 Part 1, section 20.5, as records.
  - `ColumnLetters`: column letters.
  - `DeleteImageXlsx`: anchor deletion in every drawing part.
  - `DeleteImage`: anchor deletion in the first drawing part only.
  - `RenameImages`: renaming pictures after column B.
  - `ImageProjectMapping`: the image/project mapping report.
  - `ImageNames`: display-name resolution.
  - `AnalyzeImages`: the column analysis.
- **Inventory store** (`Inventory`). A class whose item list, four record lists and id seeds are updated in place by upsert, inbound, outbound, transfer and stocktake.
- **Text and sheet parsers.**
  - `CavityExpression`: the cavity-expression normaliser.
  - `TechSpecParser`: the technical-specification sheet parser.
  - `PdfText`: PDF line reconstruction in the web client.
  - `MouldText`: text helpers shared by the two front-end mould-transfer notice parsers.
  - `MouldTransferLegacy`: the earlier front-end parser.
  - The newer front-end parser: `MouldTransferText` (its patterns), `MouldTransferRows` (its row steps), `MouldTransferColumns` (its column readers) and `MouldTransferParse` (its overall flow).
  - The back-end PDF parser: `MouldTransferPdfText` (its text rules), `MouldTransferPdfLayout` (its token layout) and `MouldTransferPdf` (the page reader).
  - `PlaceholderNames`, `RedText` and `OptimizeNames`: placeholder names for Word templates.
  - `WordTemplate`: the XML escaping of XML 1.0, section 4.6, and the template replacement.
- **Back-end routes.**
  - `Auth`: login.
  - `LocalUser`: local profile and password.
  - `Permission`: permissions and the escaping of directory filters under RFC 4515, section 3.
  - `Attendance`: attendance summaries.
  - `Salary`: payroll steps and the tax sheets.
  - `Customer`: customer status and delivery addresses.
  - `Goods`: goods.
  - `ProductionTask`: production tasks.
  - `ProjectInfo`: projects.
  - `OutboundDocument`: outbound documents.
  - `Quotation`: quotations.
  - The sales orders of `packages/backend`: `SalesOrders`.
  - The sales orders of `backend`: `LegacySalesOrders`, in the file `SalesOrdersLegacy.dfy`.
  - What several routes share: `DocNumber` (daily document numbers), `OrderList` (the order list, both versions) and `SortClause` (the sort whitelists).
- **Front-end access logic.**
  - `Routes`: route records.
  - `Breadcrumb`: breadcrumb filtering.
  - `RouteStore`: the permission store, a class.
  - `RouterGuard`: the router guard. The guard and the stores it changes form the class `Session`. The pending iframe auto-login is the class `IframeLogin`.
  - `RequestConfig`: the HTTP client's interceptors.
- **Import and template scripts.**
  - `AnalyzeExcel`: the project sheet.
  - `DeliveryAddressImport`: delivery addresses.
  - `OutboundHistoryImport`: historical outbound documents.

Databases, files, archives, clocks and the network are not modelled. A table is a sequence or a map of records. Where a route catches a failing statement, most models take as a parameter which statement fails; `ProjectInfo` does not (see "## Left out"). Dates, generated ids and the answers of the directory server are parameters too.

Money, hours and the quantities of the back-end routes are JavaScript numbers, modelled as exact reals (`JsNumber.Num`, whose finite case is `Finite(v: real)`). The front-end inventory store holds its quantities as integers. NaN and the infinities are kept as cases of their own. PDF coordinates are reals.

Where the code does something other than what it evidently means, the model defines both the code as written and the evident intent, and proves properties of each (see the Findings section at the end). The Attendance routes, `LegacySalesOrders.Update` and the Word template tool run the code as written, with the intended version beside it. The front-end mould-transfer parser flows (`MouldTransferColumns`, `MouldTransferRows`, `MouldTransferParse`) and the back-end PDF parser (`MouldTransferPdf`) are built on the corrected patterns; "## Left out" names each member this affects and what the program does instead.

## Model

| member | source | states |
|---|---|---|
| Drawing.DrawingMembers | delete_image_xlsx.py:34-39 | a name is listed iff it is a member of the package whose path contains `xl/drawings/drawing` and ends in `.xml` |
| Drawing.ResolveName | check_image_names.py:63-86 | the `pic` name wins when present, else the `sp` name, else the `grpSp` name |
| Drawing.OfKind | delete_image_xlsx.py:61-91 | a `findall` pass visits only anchors of its kind, never more than the drawing holds |
| ColumnLetters.GetColumnNumber | delete_image_xlsx.py:11-16 | the accumulator loop over the upper-cased letters computes the bijective base-26 value (the same loop is delete_image.py:166-171) |
| ColumnLetters.CaseInsensitive | delete_image_xlsx.py:14 | lower-case and upper-case letters name the same column |
| ColumnLetters.ColumnLetter | analyze_excel_images.py:271-272 | the letters of a column number ≥ 1 are non-empty upper-case ASCII |
| ColumnLetters.NumberOfLetter | delete_image_xlsx.py:11-16 | every column number ≥ 1 written as letters reads back as itself (A=1, Z=26, AA=27) |
| ColumnLetters.LetterOfNumber | delete_image_xlsx.py:11-16 | reading letters and writing the number back gives the same letters, so the conversion is a bijection |
| DeleteImageXlsx.RemoveOfKind | delete_image_xlsx.py:61-75 | one pass over the anchors of one kind leaves exactly the anchors of other kinds and the non-matching ones, in order |
| DeleteImageXlsx.RemoveMatching | delete_image_xlsx.py:61-91 | after both passes an anchor survives iff its zero-based from/col and from/row are not the target |
| DeleteImageXlsx.DrawingRoot.RemovePass | delete_image_xlsx.py:61-91 | a pass raises when an origin is not an integer; otherwise it removes every hit from the root in place and reports whether there was one |
| DeleteImageXlsx.RemoveMatchingIsFilter | delete_image_xlsx.py:72-73 | removal is a filter: an anchor survives iff it does not match, survivors keep their relative order; `to` and the end row play no part |
| DeleteImageXlsx.DeleteInAll | delete_image_xlsx.py:46-96 | every drawing member loses its matching anchors; other members are unchanged |
| DeleteImageXlsx.SummariesAreExistential | delete_image_xlsx.py:45-98 | "raised" and "found" each mean that some drawing member raises or matches |
| DeleteImageXlsx.DeleteOutcomeShape | delete_image_xlsx.py:93-113 | on success the rewritten package holds exactly the extracted members under their names; non-drawings are unchanged, each drawing keeps exactly its non-matching anchors in order, and something was removed |
| DeleteImageXlsx.NoMatchLeavesWorkbook | delete_image_xlsx.py:98-101 | when no drawing holds an anchor at the target, the call is a miss and the workbook is not rewritten |
| DeleteImageXlsx.DeleteImageFromXlsx | delete_image_xlsx.py:18-127 | returns true iff the outcome succeeds; on success the workbook is the rewritten package, the `.bak` holds the original and the temp dir is gone; on failure workbook and backup are unchanged; with no drawing member the temp dir is left behind |
| DeleteImageXlsx.RewriteAll | delete_image_xlsx.py:46-96 | the member loop raises iff some drawing raises, and otherwise finds a match iff some drawing matches and yields every drawing with its matches removed |
| DeleteImageXlsx.RewriteDrawing | delete_image_xlsx.py:49-91 | one member is parsed, then the two-cell and one-cell passes run over the same tree |
| DeleteImageXlsx.ProgressStep | delete_image_xlsx.py:46-96 | processing member i rewrites position i of the extracted tree and nothing else |
| DeleteImageXlsx.RaisesInPrefix | delete_image_xlsx.py:121-127 | a drawing that raises makes the whole call fail, wherever it sits in the package |
| DeleteImage.FirstDrawingFrom | delete_image.py:70 | the position found is a drawing member and no earlier position from k on is one |
| DeleteImage.FirstDrawing | delete_image.py:70-75 | `drawing_files[0]`: the first drawing member in archive order, none iff there is no drawing member |
| DeleteImage.LaterDrawingsIgnored | delete_image.py:75 | a later drawing is never examined: if the first drawing has no hit the call is a miss even when a later one has |
| DeleteImage.UnspellableColumnRaises | delete_image.py:106-132 | an anchor at column index -66 matches `target_col` -65, and the call still fails, because `chr(-1)` in the removal message raises |
| DeleteImage.MarkPass | delete_image.py:93-123 | a pass marks exactly the anchors of its kind whose origin is the target and keeps earlier marks |
| DeleteImage.RemoveMarked | delete_image.py:129-131 | the children left are exactly the unmarked ones, in order |
| DeleteImage.MarkAndRemove | delete_image.py:78-131 | all matching anchors of the first drawing are removed from the root; the rest keep their order |
| DeleteImage.Put | delete_image.py:140 | extracting a member overwrites a file of the same name and keeps every other file |
| DeleteImage.OverlayKeepsNames | delete_image.py:136-140 | after extraction no file already in the directory disappears and every member of the package is present |
| DeleteImage.OverlayFresh | delete_image.py:136-140 | into a directory holding none of the package's names, the package lands as itself after the existing files |
| DeleteImage.FindAndDeleteImageByPosition | delete_image.py:64-164 | returns false with the file unchanged when there is no drawing, the origin raises, `chr(64 + target_col)` in the message raises or nothing matches; on success the workbook is replaced by the repacked directory, written to `.new` first and renamed |
| DeleteImage.StaleFileIsPacked | delete_image.py:136-151 | a file left in the uncleared temp dir by an earlier run ends up in the rewritten workbook |
| DeleteImage.FindAndDeleteImageByPositionFresh | delete_image.py:64-164 | the corrected flow empties the temp dir before extraction and removes it afterwards, so the workbook becomes exactly the repacked package |
| DeleteImage.FreshRewriteKeepsMembers | delete_image.py:140-151 | with the temp dir cleared, the rewritten package holds exactly the workbook's members, only the first drawing changes, and it keeps exactly its non-matching anchors |
| RenameImages.GetBColumnValues | tools/rename_images_to_project.py:13-31 | returns `{}` when the sheet cannot be read; otherwise row `r` has an entry iff its column-B cell has non-blank text, and the entry is that text stripped |
| RenameImages.BColumnEntry | tools/rename_images_to_project.py:20-24 | an entry exists for a row exactly when its cell is present and not blank, and holds the stripped text |
| RenameImages.CellTextNonBlank | tools/rename_images_to_project.py:23 | a cell yields text iff it is present and non-blank after stripping; the text is never empty |
| RenameImages.ProjectFor | tools/rename_images_to_project.py:95-105 | the project number looked up for an anchor is the column-B entry of its zero-based row plus one, absent when the row has none |
| RenameImages.RenameAnchor | tools/rename_images_to_project.py:107-133 | the `pic` `cNvPr` name is set when present, else the `sp` one; a group is never renamed and nothing but that name changes |
| RenameImages.RenamedResolvesToProject | tools/rename_images_to_project.py:107-133 | after renaming, the name resolved pic → sp → grpSp is the project number whenever a `pic` or `sp` carries a `cNvPr` |
| RenameImages.RenameIdempotent | tools/rename_images_to_project.py:107-133 | renaming twice with the same column gives the same drawing as renaming once |
| RenameImages.CountsPartition | tools/rename_images_to_project.py:83-133 | every anchor is counted in exactly one case (renamed, skipped for no project, no origin, nothing to rename), so the counts add up to the anchors |
| RenameImages.RenameKind | tools/rename_images_to_project.py:83-133 | a pass renames exactly the anchors of its kind and leaves every other anchor as it was |
| RenameImages.RenamingRoot.RenamePass | tools/rename_images_to_project.py:83-133 | a pass raises iff an origin of its kind is not an integer; otherwise it renames those anchors in place and adds the renamed and skipped counts of that kind |
| RenameImages.RenameCells | tools/rename_images_to_project.py:83-133 | the two passes over one drawing rename every cell anchor, in place and in order |
| RenameImages.PassesCompose | tools/rename_images_to_project.py:83-133 | the one-cell pass after the two-cell pass sees the same rows, so the two passes equal one renaming of all cell anchors, with the same raise and the same counts |
| RenameImages.KindCountsAdd | tools/rename_images_to_project.py:83-133 | the renamed and skipped counts of the two passes add up to the counts over every cell anchor |
| RenameImages.RenameInDrawing | tools/rename_images_to_project.py:68-136 | parsing one member and running both passes raises iff some anchor raises, and otherwise yields the renamed drawing with its counts |
| RenameImages.RenameOutcomeShape | tools/rename_images_to_project.py:62-157 | a successful rename keeps every member name and every anchor in place; only `cNvPr` names of cell anchors change, and each renamed anchor resolves to its row's project number |
| RenameImages.RenameAll | tools/rename_images_to_project.py:62-136 | the loop over the drawing members rewrites each one in place, raises iff some member raises, and sums the counts |
| RenameImages.RenameInEntryMethod | tools/rename_images_to_project.py:62-136 | one extracted member: a drawing is parsed, renamed and written back; any other member is left alone |
| RenameImages.RenameImagesToProjectNumbers | tools/rename_images_to_project.py:33-174 | false with the workbook unchanged when the sheet cannot be opened, an origin raises or nothing is renamed; on success the `.bak` holds the original, the workbook is the repacked renamed package and the temp dir is removed |
| ImageProjectMapping.ImageOf | tools/check_image_project_mapping.py:45-62 | the record of an anchor is its zero-based `from` column and row plus one, with the name of the `pic`'s `cNvPr` only |
| ImageProjectMapping.PositionsOf | tools/check_image_project_mapping.py:31-62 | anchors lacking `from`, `col` or `row` are skipped; every other anchor yields one record, in document order |
| ImageProjectMapping.PositionsOfAnchors | tools/check_image_project_mapping.py:31-62 | when nothing raises, the records are exactly those of the anchors with a full origin |
| ImageProjectMapping.ScanKind | tools/check_image_project_mapping.py:31-62 | one `findall` pass raises iff an origin of its kind is not an integer, and otherwise appends that kind's records to the earlier ones |
| ImageProjectMapping.GetImagePositions | tools/check_image_project_mapping.py:12-69 | no drawing member or a raise gives `[]`; otherwise the two-cell records of the first drawing member followed by its one-cell records |
| ImageProjectMapping.NamesComeFromPicOnly | tools/check_image_project_mapping.py:50-55 | a record is named only when the anchor's `pic` is, and then by the name the pic → sp → grpSp resolution gives; a shape name is never used |
| ImageProjectMapping.LaterMembersIgnored | tools/check_image_project_mapping.py:16-20 | only the first drawing member is read: appending members after it changes nothing |
| ImageProjectMapping.Projects | tools/check_image_project_mapping.py:188-194 | the project numbers of the image rows that have one, in first-occurrence order |
| ImageProjectMapping.ProjectsMembers | tools/check_image_project_mapping.py:188-194 | a project number is listed iff some image row carries it |
| ImageProjectMapping.GroupsOfMeaning | tools/check_image_project_mapping.py:123-130 | a row has a group iff an image sits on it, and the group holds exactly that row's images |
| ImageProjectMapping.GroupByRow | tools/check_image_project_mapping.py:123-130 | `rows_with_images` groups every image under its row, each row once, in first-occurrence order |
| ImageProjectMapping.CountMatches | tools/check_image_project_mapping.py:136-157 | `matched` counts images whose row has a project, `no_match` those whose row has none, `multiple_images` the rows with more than one image |
| ImageProjectMapping.CountOneToOne | tools/check_image_project_mapping.py:173-185 | among mapped image rows, `one_to_one` counts those with one image and `one_to_many` those with several |
| ImageProjectMapping.ProjectGroupsMeaning | tools/check_image_project_mapping.py:188-194 | a project has a group iff a mapped image row carries it, with one entry per such row |
| ImageProjectMapping.GroupByProject | tools/check_image_project_mapping.py:188-194 | `project_to_rows` groups the mapped image rows by project number, each project once, in first-occurrence order |
| ImageProjectMapping.CountManyToOne | tools/check_image_project_mapping.py:196-198 | `many_to_one` is the number of rows summed over the projects carried by more than one image row |
| ImageProjectMapping.CountMapping | tools/check_image_project_mapping.py:123-209 | the counts of the report, each equal to its specification over the image rows |
| ImageProjectMapping.CheckImageProjectMapping | tools/check_image_project_mapping.py:93-231 | stops (no result) when the workbook cannot be opened for its sheet names; otherwise reports the counts of the images of the first drawing against column B |
| ImageProjectMapping.MatchedPlusNoMatch | tools/check_image_project_mapping.py:136-157 | matched plus no_match is the number of images |
| ImageProjectMapping.MappedRowsSplit | tools/check_image_project_mapping.py:173-185 | an image row is one-to-one or one-to-many exactly when it has a project number, never both |
| ImageProjectMapping.PerfectMeans | tools/check_image_project_mapping.py:209 | "perfect" holds iff every image row has a project, no row has two images and no two image rows share a project |
| ImageNames.LookUpName | check_image_names.py:63-86 | the name is the `pic`'s `cNvPr` name; when that is missing the `sp`'s; when still missing the `grpSp`'s |
| ImageNames.SightAnchor | check_image_names.py:42-96 | the loop body for picture number n reads the one-based origin, resolves the name, counts it as named iff the name is non-empty, and lists it iff named or n ≤ 10 |
| ImageNames.ScanNames | check_image_names.py:38-96 | one `findall` pass counts every anchor of its kind, raises iff an origin of that kind is not an integer, and otherwise adds the named count and the listed lines |
| ImageNames.CheckImageNames | check_image_names.py:10-107 | an unreadable package or a raise fails, no drawing member gives "no drawing"; otherwise the counts and lines are those of the two-cell anchors followed by the one-cell anchors of the first drawing member |
| ImageNames.CountsEveryCellAnchor | check_image_names.py:38-42 | the picture count is the number of two-cell and one-cell anchors of the first drawing member, whatever they hold |
| ImageNames.UnnamedIsRest | check_image_names.py:102 | the printed unnamed figure `image_count - named_count` is the number of anchors whose resolved name is missing or empty |
| ImageNames.ListedMeaning | check_image_names.py:88-96 | a picture gets a line iff it is named or among the first ten, and the line carries its number |
| AnalyzeImages.PositionOf | analyze_excel_images.py:144 | the position found holds the member of that name, and no earlier position does |
| AnalyzeImages.ChosenDrawing | analyze_excel_images.py:142-149 | `xl/drawings/drawing1.xml` when the package has it, else the first drawing member, none iff there is no drawing member |
| AnalyzeImages.ReadTwoCell | analyze_excel_images.py:165-198 | a two-cell anchor raises iff a present origin value is not an integer; it is recorded iff `from` has a `col`, with the one-based columns and rows and `in_target_column` = from ≤ target ≤ (to or from) |
| AnalyzeImages.ReadOneCell | analyze_excel_images.py:201-221 | a one-cell anchor is recorded iff `from` has a `col`, without end, with `in_target_column` = (from column = target) |
| AnalyzeImages.ScanKind | analyze_excel_images.py:165-221 | one of the two loops raises iff an anchor of its kind raises and otherwise appends that kind's records in document order |
| AnalyzeImages.ParseDrawingXml | analyze_excel_images.py:136-227 | `[]` when the package cannot be read, has no drawing or raises; otherwise the two-cell records followed by the one-cell records of the chosen drawing |
| AnalyzeImages.ClassifyMeaning | analyze_excel_images.py:327-340 | "fully inside" iff the picture starts in the column and has no end column or ends there too; "spanning" iff it has an end column and covers the target without sitting in it alone |
| AnalyzeImages.ClassifyAgreesWithFlag | analyze_excel_images.py:197 | for every record the parser builds, `get_column_letter` raises in its report (lines 326-328) exactly when the zero-based start column, or a present end column of a two-cell anchor other than -1, lies outside 0..18277; otherwise the printed verdict is "outside" exactly when the stored `in_target_column` flag is false |
| AnalyzeImages.RecordAndObjectAgree | analyze_excel_images.py:265-293 | for a two-cell anchor whose end column is non-zero, the drawing-part report (lines 326-340) and the openpyxl-object report either both raise in `get_column_letter` or print the same verdict |
| AnalyzeImages.Reported | analyze_excel_images.py:324-345 | the verdicts printed are those of the records before the first one whose report raises; the raise is caught at line 344, so no later record is reported, and all are reported exactly when none raises |
| AnalyzeImages.UnspellableStopsReport | analyze_excel_images.py:324-345 | a picture at drawing column -1 (report column 0) stops the report, so a picture in column R after it is never reported |
| AnalyzeImages.RecordsFromAnchors | analyze_excel_images.py:165-221 | every record comes from an anchor of its kind whose `from` has a `col` |
| AnalyzeImages.OneRecordPerFromCol | analyze_excel_images.py:191-221 | exactly the anchors whose `from` has a `col` are recorded, one record each |
| AnalyzeImages.PreferredWins | analyze_excel_images.py:142-149 | `drawing1.xml` is read whenever it exists, even when another drawing member comes first |
| Inventory.ResolveLevel | src/store/modules/inventory.ts:73-77 | low iff quantity < safety stock; over iff not low and quantity > maximum; healthy iff safety ≤ quantity ≤ maximum |
| Inventory.Find | src/store/modules/inventory.ts:270-273 | the first item with the material code and, when a warehouse is given, that warehouse; none iff no item matches |
| Inventory.StockUpdate | src/store/modules/inventory.ts:301 | replacing one item changes a material's stock by the difference of the two items' shares |
| Inventory.UpsertShape | src/store/modules/inventory.ts:275-308 | a missing item is put first with a fresh id, safety 100, maximum 800, warehouse 一号仓 when none is given and the payload quantity; an existing one keeps position, id, code, safety and maximum and takes the payload quantity; the touched item is resolved, every other item unchanged |
| Inventory.UpsertStock | src/store/modules/inventory.ts:275-308 | the upsert raises the stock of the payload's material by the payload quantity minus what the item held, and leaves every other material's stock alone |
| Inventory.UpsertConsistent | src/store/modules/inventory.ts:275-308 | an upsert keeps every item resolved and in a warehouse |
| Inventory.InboundAddsQuantity | src/store/modules/inventory.ts:310-326 | booking an inbound record adds exactly its quantity to the material's total stock |
| Inventory.Adjusted | src/store/modules/inventory.ts:348-349 | the adjusted item holds `q` more, is resolved again and keeps its id, code and warehouse |
| Inventory.OutboundEffect | src/store/modules/inventory.ts:337-349 | a permitted outbound lowers the found item, and the stock of its material wherever it is counted, by the quantity; without `allowNegative` the item does not go below zero; every other item is unchanged |
| Inventory.TransferConserves | src/store/modules/inventory.ts:358-391 | a transfer conserves every material's total quantity |
| Inventory.TransferMoves | src/store/modules/inventory.ts:376-391 | between two named warehouses the source's stock falls, and the destination's rises, by the quantity moved |
| Inventory.Counted | src/store/modules/inventory.ts:424-429 | the stocktaken item holds the counted quantity, is resolved, keeps id, code and warehouse, and takes the record's material name only when one is given |
| Inventory.TotalsMeaning | src/store/modules/inventory.ts:251-264 | with resolved levels `lowStock` counts items under their safety stock, `overStock` those over their maximum and not low, and the two never exceed `totalSku` |
| Inventory.QtySumIsStock | src/store/modules/inventory.ts:259 | `totalQty` is the stock of all materials in all warehouses |
| Inventory.Store.constructor | src/store/modules/inventory.ts:79-249 | the store starts with the four seeded items, consistent, and id seeds past every seeded id |
| Inventory.Store.FindInventoryItem | src/store/modules/inventory.ts:270-273 | the walk over the items returns the first match, as `Find` specifies |
| Inventory.Store.ComputeTotals | src/store/modules/inventory.ts:251-264 | the accumulation over the items gives the totals of the current inventory |
| Inventory.Store.FileInbound | src/store/modules/inventory.ts:327-334 | the record is put first with the next id, which no earlier record carries, and the seed advances by one |
| Inventory.Store.FileOutbound | src/store/modules/inventory.ts:350-355 | the record is put first with the next id, which no earlier record carries, and the seed advances by one |
| Inventory.Store.FileTransfer | src/store/modules/inventory.ts:393-406 | the record is put first with the next id, which no earlier record carries, and the seed advances by one |
| Inventory.Store.FileStocktake | src/store/modules/inventory.ts:430-444 | the record is put first with the next id, which no earlier record carries, and the seed advances by one |
| Inventory.Store.AdjustItem | src/store/modules/inventory.ts:348-349 | one item changes by `q` and is resolved again; everything else stays |
| Inventory.Store.Upsert | src/store/modules/inventory.ts:275-308 | the inventory becomes the upserted list and the id seed advances only when an item was created |
| Inventory.Store.AddInboundRecord | src/store/modules/inventory.ts:310-335 | the item is upserted with what it held plus the quantity, in the record's warehouse or the item's or 一号仓, and the record is filed first under a new id; the other lists are unchanged |
| Inventory.Store.AddOutboundRecord | src/store/modules/inventory.ts:337-356 | fails with `notFound` or, unless negative stock is allowed, `notEnough`, changing nothing; otherwise lowers the found item by the quantity and files the record first under a new id |
| Inventory.Store.MoveStock | src/store/modules/inventory.ts:379-391 | the source gives up the quantity, then the destination is upserted with what it held plus the quantity, at its location or 待分配 |
| Inventory.Store.AddTransferRecord | src/store/modules/inventory.ts:358-407 | fails with `transferSameWarehouse`, `transferFromNotFound` or `notEnough`, in that order, changing nothing; otherwise moves the quantity and files the record first with status `completed` by default |
| Inventory.Store.AddStocktakeRecord | src/store/modules/inventory.ts:409-445 | fails with `notFound`, changing nothing, when the item is missing; otherwise sets the counted quantity and files the record with the difference counted − held |
| CavityExpression.SafeCavity | src/utils/mould/cavityExpression.ts:1-5 | the result lies in 1..64: 1 for a non-finite number, the rounded value inside the range, clamped outside it |
| CavityExpression.PartCount | src/utils/mould/cavityExpression.ts:27-38 | a part with '*' counts by its last '*'-piece, one without by itself; the part is dropped when that text is not a finite number |
| CavityExpression.CountsOfRaw | src/utils/mould/cavityExpression.ts:11-44 | every count lies in 1..64: a plain number gives one count, else the usable parts' counts, else the whole input read as a number, else none |
| CavityExpression.CavityCounts | src/utils/mould/cavityExpression.ts:7-9 | null, undefined and blank input give no count; every count lies in 1..64 |
| CavityExpression.NormalizeCavityExpression | src/utils/mould/cavityExpression.ts:7-45 | the method returns the `1*k` terms of the input's counts joined by '+' |
| CavityExpression.CollectTerms | src/utils/mould/cavityExpression.ts:23-39 | the loop keeps one `1*k` term for each part whose count is finite, in order |
| CavityExpression.CountTextIsLastPiece | src/utils/mould/cavityExpression.ts:28-29 | the count text of a part with a '*' is the trimmed last piece of its '*'-split |
| CavityExpression.Idempotent | src/utils/mould/cavityExpression.ts:7-45 | normalising an already-normalised expression gives it back unchanged, with the same counts |
| CavityExpression.RenderFacts | src/utils/mould/cavityExpression.ts:15-41 | a rendered expression is made of digits, '*' and '+', and contains a '*' |
| CavityExpression.PartsOfRender | src/utils/mould/cavityExpression.ts:18-41 | the '+'-parts of a rendered expression are exactly its terms |
| CavityExpression.PartCountOfTerm | src/utils/mould/cavityExpression.ts:27-32 | a term `1*k` reads back as its count k |
| CavityExpression.RenderEmpty | src/utils/mould/cavityExpression.ts:41-44 | the output is empty iff no count was found; otherwise it starts with `1*` |
| CavityExpression.InitDoneValues | src/utils/mould/cavityExpression.ts:47-52 | `true` and 1 are done; `false`, 0, NaN, null and undefined are not |
| CavityExpression.InitDoneTexts | src/utils/mould/cavityExpression.ts:50-51 | the text "1" is done; the empty text, which converts to 0, is not |
| TechSpecParser.Overwritten | src/utils/excel/techSpecParser.ts:77-83 | the base's '.'-parts with the last |suffix| of them replaced by the suffix's parts, as many parts as the base |
| TechSpecParser.ExpandSlashToken | src/utils/excel/techSpecParser.ts:43-91 | a token with fewer than two non-empty '/'-segments stands for itself; otherwise the base segment comes first and each later segment is completed against it |
| TechSpecParser.ParseDrawings | src/utils/excel/techSpecParser.ts:33-97 | the drawing numbers a cell lists: its ';'/'；'/white-space tokens, each expanded, trimmed, empties dropped |
| TechSpecParser.ExpandSlash | src/utils/excel/techSpecParser.ts:43-91 | the push loop of `expandSlashToken` yields what `ExpandSlashToken` specifies |
| TechSpecParser.OverwriteTail | src/utils/excel/techSpecParser.ts:78-82 | the overwrite loop writes the suffix parts over the tail of a copy of the base parts |
| TechSpecParser.ExpandOne | src/utils/excel/techSpecParser.ts:60-87 | one segment is pushed as itself when either side has no part, as first base part plus the suffix when it is one part shorter, overwritten into the base when not longer, and as itself otherwise |
| TechSpecParser.ExpandSegments | src/utils/excel/techSpecParser.ts:59-88 | the loop over the segments after the base pushes one completion per segment, in order |
| TechSpecParser.BlankHasNoDrawings | src/utils/excel/techSpecParser.ts:34-35 | blank input lists no drawing |
| TechSpecParser.DrawingsAreTrimmed | src/utils/excel/techSpecParser.ts:93-96 | every drawing number listed is non-empty and equal to its own trim |
| TechSpecParser.SlashTokenShape | src/utils/excel/techSpecParser.ts:52-90 | a slash token yields one drawing per non-empty segment, the base segment first |
| TechSpecParser.SuffixCompletion | src/utils/excel/techSpecParser.ts:72-84 | a completed suffix, split back into '.'-parts, is the base's parts with the trailing ones replaced by the suffix's (or the first base part and the suffix when it is one part shorter) |
| TechSpecParser.PiecesOfJoin | src/utils/excel/techSpecParser.ts:53-56 | splitting, trimming and filtering the '.'-join of clean parts gives the parts back |
| TechSpecParser.FitSizes | src/utils/excel/techSpecParser.ts:258-264 | the size list after the broadcast and padding loops is `FittedSizes` of the drawing count and the sizes |
| TechSpecParser.FittedSizesShape | src/utils/excel/techSpecParser.ts:258-264 | a lone non-empty size with several drawings is repeated once per drawing; otherwise the sizes are kept in order and padded with empty ones to max(drawings, sizes) |
| TechSpecParser.FirstHeaderFrom | src/utils/excel/techSpecParser.ts:179-194 | the first header cell from `i` on that contains a keyword and passes the filter, or -1 when none does |
| TechSpecParser.FindColumnIndex | src/utils/excel/techSpecParser.ts:170-231 | the up-to-three scans, returning on the first hit, compute `ColumnIndex` |
| TechSpecParser.Scan | src/utils/excel/techSpecParser.ts:179-182 | one scan of a header row returns the first matching cell, or -1 |
| TechSpecParser.ColumnIndexMeaning | src/utils/excel/techSpecParser.ts:170-231 | the column found is a matching cell of the main or sub header; -1 iff no cell of either matches; a preferred sub-header wins whenever one of its cells matches, otherwise a matching main-header cell wins |
| TechSpecParser.MainHeaderFrom | src/utils/excel/techSpecParser.ts:145-165 | the header row found is among the top 20 and names a drawing and a name column; none iff no such row from `i` on |
| TechSpecParser.BuildSpecData | src/utils/excel/techSpecParser.ts:233-296 | one entry per drawing in the name, quantity and weight lists, the sizes fitted, the engineer falling back to the project manager, the image kept only when it starts with `http` or `data:` |
| TechSpecParser.ValueRightOf | src/utils/excel/techSpecParser.ts:308-311 | the first non-empty trimmed cell among the five right of the label, or nothing |
| TechSpecParser.LabelInRow | src/utils/excel/techSpecParser.ts:302-311 | the first labelled value in a row, scanning its first 50 cells |
| TechSpecParser.LabelHit | src/utils/excel/techSpecParser.ts:298-315 | where `findLabelValue` finds its value: the row, the label cell and the value cell, in scan order |
| TechSpecParser.LabelValueMeaning | src/utils/excel/techSpecParser.ts:298-315 | a label value is a non-empty trimmed cell at most five cells right of a cell holding a keyword, both inside the top-left 50×50 window; otherwise the value is empty |
| TechSpecParser.FormRecord | src/utils/excel/techSpecParser.ts:317-365 | no record without the title; otherwise one record read from labels, whose drawings are `parseDrawings` of the drawing label value with one name per drawing |
| TechSpecParser.RowRecord | src/utils/excel/techSpecParser.ts:445-474 | a row with an empty drawing cell gives no record; otherwise its record carries the row index and the drawings of that cell |
| TechSpecParser.TableRecords | src/utils/excel/techSpecParser.ts:445-475 | the records of the data rows in row order, one per row with a drawing |
| TechSpecParser.TableLayout | src/utils/excel/techSpecParser.ts:381-478 | no record when the drawing or the part-name column is missing; otherwise the records of the rows after the header (after the sub-header when there is one) |
| TechSpecParser.FormLayout | src/utils/excel/techSpecParser.ts:480-483 | at most one record, and only for a sheet that has the title or scores at least 8 |
| TechSpecParser.SheetRecords | src/utils/excel/techSpecParser.ts:367-486 | each record's drawings are `parseDrawings` of its raw drawing text with one name per drawing; table records lie inside the sheet and have a drawing; without a header row there is at most one record |
| TechSpecParser.ReadTable | src/utils/excel/techSpecParser.ts:445-475 | the record loop pushes exactly the table records |
| TechSpecParser.ReadRow | src/utils/excel/techSpecParser.ts:446-474 | one pass skips a row whose drawing cell is empty and otherwise builds its record |
| TechSpecParser.MissingColumnGivesNothing | src/utils/excel/techSpecParser.ts:397 | a header without a drawing column or without a part-name column yields no record |
| PdfText.FirstNear | src/utils/pdf/extractPdfText.ts:31 | the first line from `from` on whose baseline is within the tolerance of y; none iff no such line |
| PdfText.GroupByY | src/utils/pdf/extractPdfText.ts:28-39 | the loop builds the lines `Grouped` specifies |
| PdfText.FindLine | src/utils/pdf/extractPdfText.ts:31 | the index of the first line near y, or the number of lines when none is |
| PdfText.GroupedIsWellGrouped | src/utils/pdf/extractPdfText.ts:28-39 | every line is non-empty and has the baseline of its first item, every item lies within the tolerance of its line, and any two lines are more than the tolerance apart |
| PdfText.PlaceAddsItem | src/utils/pdf/extractPdfText.ts:31-36 | placing an item adds exactly that item to the lines |
| PdfText.GroupedKeepsItems | src/utils/pdf/extractPdfText.ts:28-39 | every item lands in exactly one line: the lines' items are the input items as a multiset |
| PdfText.GapSpaces | src/utils/pdf/extractPdfText.ts:55-61 | one space when the items touch or overlap, otherwise one per 8 units of gap, at least 1 and at most 10 |
| PdfText.GapSpacesCountSteps | src/utils/pdf/extractPdfText.ts:57 | between 8 and 88 units of gap the spaces count the whole 8-unit steps |
| PdfText.BuildLineText | src/utils/pdf/extractPdfText.ts:41-66 | sorting by x and one accumulating pass give `LineText` of the line |
| PdfText.FoldShape | src/utils/pdf/extractPdfText.ts:45-65 | the text so far never ends in white space and is empty exactly while no visible item has been met, so `trimEnd` changes nothing |
| PdfText.BlankItemAddsNothing | src/utils/pdf/extractPdfText.ts:46-47 | an item whose text is only white space contributes nothing |
| PdfText.LineTextShape | src/utils/pdf/extractPdfText.ts:41-66 | a line's text has no white space at its end and is empty exactly when every item's text is blank |
| PdfText.Positioned | src/utils/pdf/extractPdfText.ts:76-87 | entries without a string or with a transform of fewer than six numbers are dropped; never more items than entries |
| PdfText.CollectPositioned | src/utils/pdf/extractPdfText.ts:76-87 | the collecting loop gives `Positioned` of the entries |
| PdfText.PositionedMeaning | src/utils/pdf/extractPdfText.ts:77-87 | every positioned item comes from a usable entry (text, x and y from the transform, width), and every usable entry gives one |
| PdfText.PageLinesShape | src/utils/pdf/extractPdfText.ts:89 | the page's lines go from the highest baseline to the lowest and are a permutation of the grouped lines |
| PdfText.ExtractPdfText | src/utils/pdf/extractPdfText.ts:68-98 | the page loop yields the pages' texts joined by a blank line |
| PdfText.ReadPage | src/utils/pdf/extractPdfText.ts:73-94 | one page: collect, group with tolerance 2.5, sort top-down, keep non-blank line texts, join by newline |
| PdfText.KeepNonBlank | src/utils/pdf/extractPdfText.ts:90-92 | the line texts whose trim is non-empty, in order |
| MouldText.JsIndexOfMeaning | src/utils/pdf/mouldTransferParser.ts:214 | `indexOf` gives -1 exactly when the text does not occur, and otherwise the position of its first occurrence |
| MouldText.NormalizeText | src/utils/pdf/mouldTransferParser.ts:25-29 | carriage returns are dropped and tabs and no-break spaces become plain spaces; nothing else changes |
| MouldText.TextLines | src/utils/pdf/mouldTransferParser.ts:274 | the lines of the text with trailing white space removed, empty ones dropped, in order |
| MouldText.StripCheckboxPrefix | src/utils/pdf/mouldTransferParser.ts:114 | a leading checkbox and the white space around it are dropped; a line without one is unchanged |
| MouldText.FirstDigits | src/utils/pdf/mouldTransferParser.ts:116 | the first run of digits, whole, or "" when the text has no digit |
| MouldText.PartEnd | src/utils/pdf/mouldTransferParser.ts:22 | where `\b([A-Z]?\d[\w.]+)\b` matching at a position ends, the greedy run settling on the last word boundary |
| MouldText.StrictDate | src/utils/pdf/mouldTransferParser.ts:18 | the first `\b\d{4}-\d{2}-\d{2}\b` of the text, always of the `YYYY-MM-DD` form |
| MouldText.DatePartsAt | src/utils/pdf/mouldTransferParser.ts:19 | `(\d{4})\s*[-/]\s*(\d{2})\s*[-/]\s*(\d{2})` (or with one- or two-digit groups) at a position: the three groups and where the match ends |
| MouldText.DatePartsShape | src/utils/pdf/mouldTransferParser.ts:19 | the groups of a date match are four digits, then one or two digits twice (exactly two unless short groups are allowed) |
| MouldText.Pad2 | packages/frontend/src/utils/pdf/mouldTransferParser.ts:40 | a one-character string gets a leading zero; any other is unchanged |
| MouldText.JoinDate | packages/frontend/src/utils/pdf/mouldTransferParser.ts:39-52 | year, padded month and padded day joined by '-' always have the `YYYY-MM-DD` form |
| MouldText.KeyEnd | src/utils/pdf/mouldTransferParser.ts:51 | where `模具\s*移模\s*时间` starting at a position ends, never past the text |
| MouldText.LazyDate | src/utils/pdf/mouldTransferParser.ts:51 | the lazy gap of at most 80 characters before the loose date: the date starts 0..80 characters after the label and ends inside the text |
| MouldText.KeyLine | src/utils/pdf/mouldTransferParser.ts:58 | the first line that contains 模具移模时间 once white space is removed |
| MouldText.FirstCandidate | src/utils/pdf/mouldTransferParser.ts:61-70 | the first offset, in sort order, whose line yields a date; none iff no line within three of the label line does |
| MouldText.OffsetsSorted | src/utils/pdf/mouldTransferParser.ts:62-69 | the offsets -3..3 are taken nearest first, the line above before the line below at equal distance, each once |
| MouldText.MoveDateShape | src/utils/pdf/mouldTransferParser.ts:41-73 | the move date found is "" or of the `YYYY-MM-DD` form whenever the date parser only returns that form or "" |
| MouldText.ExtractTableSectionMeaning | src/utils/pdf/mouldTransferParser.ts:212-224 | the section is the whole text when 零件图号 is absent; otherwise it starts at the first 零件图号, holds neither 附件 nor 报告审批意见, and is cut exactly where the first of them begins |
| MouldTransferLegacy.TryParseDate | src/utils/pdf/mouldTransferParser.ts:31-39 | the first strict `YYYY-MM-DD`, else the first loose date rejoined with '-', else ""; a non-empty result always has the `YYYY-MM-DD` form |
| MouldTransferLegacy.TryParseDateMeaning | src/utils/pdf/mouldTransferParser.ts:31-39 | the parse gives "" exactly when neither date pattern matches anywhere in the text |
| MouldTransferLegacy.IsoDateKept | src/utils/pdf/mouldTransferParser.ts:32-33 | a date already in `YYYY-MM-DD` form comes back unchanged |
| MouldTransferLegacy.HeaderLine | src/utils/pdf/mouldTransferParser.ts:75-85 | the first line that, without white space, names all six columns; none iff no line does |
| MouldTransferLegacy.RowNumberDigits | src/utils/pdf/mouldTransferParser.ts:329 | the captured row number of `^\s*(\d+)\s+` is all digits |
| MouldTransferLegacy.SealEnd | src/utils/pdf/mouldTransferParser.ts:20 | where `ML-[A-Z0-9]+-\d{8}-\d+` matching at a position ends |
| MouldTransferLegacy.FirstSeal | src/utils/pdf/mouldTransferParser.ts:20 | the first seal number of the text, starting with `ML-`, or "" when there is none |
| MouldTransferLegacy.MouldNoEnd | src/utils/pdf/mouldTransferParser.ts:21 | `\b(ML\d+)\b` at a position takes the whole digit run, since a shorter one would end between two digits |
| MouldTransferLegacy.FirstMouldNo | src/utils/pdf/mouldTransferParser.ts:21 | the first mould number of the text, starting with `ML`, or "" when there is none |
| MouldTransferLegacy.SplitColumns | src/utils/pdf/mouldTransferParser.ts:94-110 | columns split at runs of two or more spaces, a leading `index partNo` column split in two; with fewer than two such columns, the white-space tokens |
| MouldTransferLegacy.TokensOfJoin | src/utils/pdf/mouldTransferParser.ts:133-141 | joining tokens with single spaces and splitting again gives the tokens back |
| MouldTransferLegacy.ResidualKeepsTokens | src/utils/pdf/mouldTransferParser.ts:133-147 | no token of the residue is lost: the name's tokens, then the factory and the destination when set, are the residue's tokens in order |
| MouldTransferLegacy.ParseSingleLineRow | src/utils/pdf/mouldTransferParser.ts:118-158 | the seal, mould and part numbers are taken out of the line in that order; the residue's last two tokens are factory and destination when there are three or more, with two they are name and factory, with one the name |
| MouldTransferLegacy.SingleLineNumbers | src/utils/pdf/mouldTransferParser.ts:124-128 | the seal and mould numbers of a one-line row are the first on the line and carry their patterns' prefixes |
| MouldTransferLegacy.CleanOfPattern | src/utils/pdf/mouldTransferParser.ts:151-156 | a value found by a pattern holds no white space, so compressing it changes nothing |
| MouldTransferLegacy.Leftover | src/utils/pdf/mouldTransferParser.ts:190-209 | leftover text goes to the first empty of name, factory and destination, and is appended to the name when all three are set |
| MouldTransferLegacy.TakeNumbers | src/utils/pdf/mouldTransferParser.ts:161-188 | the seal, mould and part numbers a line supplies, each only where the row has none, and the text left once they are taken out |
| MouldTransferLegacy.FillMissingFieldsFromLine | src/utils/pdf/mouldTransferParser.ts:160-210 | the step-by-step filling of the row gives `FilledRow` of the row and the line |
| MouldTransferLegacy.FillKeepsKnownFields | src/utils/pdf/mouldTransferParser.ts:160-210 | filling never overwrites a known seal, mould or part number, factory or destination; a number it fills in carries its pattern's prefix; and at most one of name, factory and destination changes |
| MouldTransferLegacy.GlobalMatchAt | src/utils/pdf/mouldTransferParser.ts:228-231 | the fallback pattern at a position: part number, lazy gap, mould number, lazy gap, seal number |
| MouldTransferLegacy.NextGlobal | src/utils/pdf/mouldTransferParser.ts:235 | the leftmost match of the fallback pattern at or after a position |
| MouldTransferLegacy.RowOfMatch | src/utils/pdf/mouldTransferParser.ts:236-264 | the text between part and mould number is the name; between mould and seal number the first word is the factory and the rest the destination |
| MouldTransferLegacy.MatchesFrom | src/utils/pdf/mouldTransferParser.ts:235 | every match from a position on, each search starting where the last one ended |
| MouldTransferLegacy.GlobalRowsShape | src/utils/pdf/mouldTransferParser.ts:226-268 | the fallback rows are numbered 1, 2, … in order, each with a part number starting with `C`, a mould number starting with `ML` and a seal number starting with `ML-` |
| MouldTransferLegacy.ParseRowsByGlobalRegex | src/utils/pdf/mouldTransferParser.ts:226-268 | compressing the white space and reading every match gives the fallback rows |
| MouldTransferLegacy.ExecAll | src/utils/pdf/mouldTransferParser.ts:235-265 | the `exec` loop collects the matches `MatchesFrom` specifies |
| MouldTransferLegacy.Apply | src/utils/pdf/mouldTransferParser.ts:302-375 | one line either keeps the rows, appends a row or replaces the last one: every earlier row is kept and at most one is added |
| MouldTransferLegacy.RowsSettled | src/utils/pdf/mouldTransferParser.ts:302-375 | the table gives at most one row per line, and once a later row has started the earlier rows never change again |
| MouldTransferLegacy.TableEnd | src/utils/pdf/mouldTransferParser.ts:304 | the first line at or after a position that mentions 附件 or 报告审批意见, or the end |
| MouldTransferLegacy.ApplyLine | src/utils/pdf/mouldTransferParser.ts:303-374 | one pass of the loop: a bare index starts a blank row, a numbered line a parsed (and, if incomplete, filled) row, a new part number a column row, any other line fills the current row |
| MouldTransferLegacy.ScanRows | src/utils/pdf/mouldTransferParser.ts:302-375 | the loop from the line after the header, stopping at the table's end, gives the rows of those lines |
| MouldTransferLegacy.NextRows | src/utils/pdf/mouldTransferParser.ts:302-375 | the rows of the first i lines and the next line give the rows of the first i + 1 lines |
| MouldTransferLegacy.ParseMouldTransferFromText | src/utils/pdf/mouldTransferParser.ts:270-403 | the parse returns what `ParseNotice` specifies: title, date and header errors, the table rows, else the fallback rows, else the no-rows error |
| MouldTransferLegacy.NoticeFailures | src/utils/pdf/mouldTransferParser.ts:276-297 | the title error iff the space-free text lacks the title; the date error iff the title is there and no date is found; the header error iff both are there and no line is a table header |
| MouldTransferLegacy.NoticeRead | src/utils/pdf/mouldTransferParser.ts:383-402 | a notice that is read has a `YYYY-MM-DD` move date, at least one row and the normalised text |
| MouldTransferPdfText.DropPrivate | packages/backend/utils/pdf/mouldTransferPdfParser.js:13 | the result holds no private-use character, and holds a character exactly when the input does and it is not private use |
| MouldTransferPdfText.NormalizeKey | packages/backend/utils/pdf/mouldTransferPdfParser.js:10-14 | the key holds neither white space nor a private-use character |
| MouldTransferPdfText.NormalizeKeyMeaning | packages/backend/utils/pdf/mouldTransferPdfParser.js:10-14 | the key keeps exactly the characters of the input that are neither white space nor private use; text already in key form is its own key; normalising twice changes nothing |
| MouldTransferPdfText.NormalizeHyphens | packages/backend/utils/pdf/mouldTransferPdfParser.js:16 | same length; each of the five dash variants becomes '-' and every other character is kept in place |
| MouldTransferPdfText.NormalizeHyphensDone | packages/backend/utils/pdf/mouldTransferPdfParser.js:16 | no dash variant survives, and a second pass changes nothing |
| MouldTransferPdfText.DashedSealEnd | packages/backend/utils/pdf/mouldTransferPdfParser.js:120 | a match of the dashed `ML` pattern is at least 14 characters long and ends inside the text |
| MouldTransferPdfText.PzEnd | packages/backend/utils/pdf/mouldTransferPdfParser.js:124 | a match of the `PZ_JYFY` pattern is at least 14 characters long and ends inside the text |
| MouldTransferPdfText.SerialAfter | packages/backend/utils/pdf/mouldTransferPdfParser.js:130 | after the code, the date group is eight digits and the serial group at least five digits, in that order |
| MouldTransferPdfText.CodeEnd | packages/backend/utils/pdf/mouldTransferPdfParser.js:130 | the code group is non-empty and ends where the rest of the pattern can still match |
| MouldTransferPdfText.SpacedSeal | packages/backend/utils/pdf/mouldTransferPdfParser.js:130 | a match yields a two-letter `ML`, a non-empty code of letters and digits, an eight-digit date and a serial of digits |
| MouldTransferPdfText.DashedSeal | packages/backend/utils/pdf/mouldTransferPdfParser.js:119-121 | a number found by the first tier is a dashed `ML` seal number |
| MouldTransferPdfText.PzSeal | packages/backend/utils/pdf/mouldTransferPdfParser.js:124-125 | a number found by the second tier has the `PZ_JYFY` shape with an underscore |
| MouldTransferPdfText.LostDashSeal | packages/backend/utils/pdf/mouldTransferPdfParser.js:128-131 | a number found by the third tier is a dashed `ML` seal number |
| MouldTransferPdfText.SealText | packages/backend/utils/pdf/mouldTransferPdfParser.js:131 | the rebuilt `ML-code-date-serial` text is a dashed `ML` seal number |
| MouldTransferPdfText.ExtractSealFromText | packages/backend/utils/pdf/mouldTransferPdfParser.js:117-134 | the result is empty or a dashed `ML` or `PZ_JYFY` seal number; it is empty exactly when none of the three tiers matches |
| MouldTransferPdfText.JoinedSeal | packages/backend/utils/pdf/mouldTransferPdfParser.js:115 | four dash-free pieces joined by dashes are left as they are by `normalizeSeal` and form a dashed seal number |
| MouldTransferPdfText.DashedPieces | packages/backend/utils/pdf/mouldTransferPdfParser.js:115-121 | four pieces cut apart by any kind of hyphen normalise to a dashed `ML` seal number |
| MouldTransferPdfText.DashedShape | packages/backend/utils/pdf/mouldTransferPdfParser.js:120-121 | the first-tier match, normalised, is a dashed `ML` seal number |
| MouldTransferPdfText.PzShape | packages/backend/utils/pdf/mouldTransferPdfParser.js:124-125 | the `PZ` match with its hyphens made underscores has the `PZ_JYFY` shape |
| MouldTransferPdfText.PrivateToSpace | packages/backend/utils/pdf/mouldTransferPdfParser.js:176 | same length; each private-use character becomes a space and every other character is kept |
| MouldTransferPdfText.LeadingIndex | packages/backend/utils/pdf/mouldTransferPdfParser.js:181 | the number removed from the front is a non-empty run of digits |
| MouldTransferPdfText.SpacedWordEnd | packages/backend/utils/pdf/mouldTransferPdfParser.js:182 | a match of `\s+W\s+` ends after where it starts and inside the text |
| MouldTransferPdfText.CleanMouldNameAsWritten | packages/backend/utils/pdf/mouldTransferPdfParser.js:174-184 | the name as the code cleans it has no white space at either end |
| MouldTransferPdfText.CleanMouldName | packages/backend/utils/pdf/mouldTransferPdfParser.js:174-184 | the name as the comment means it has no white space at either end |
| MouldTransferPdfText.ReplaceCopiesWord | packages/backend/utils/pdf/mouldTransferPdfParser.js:182 | a word without white space at the front is copied through the replacement unchanged |
| MouldTransferPdfText.RepeatedIndexKept | packages/backend/utils/pdf/mouldTransferPdfParser.js:179-183 | as written, `"D A D B"` cleans to `"A D B"`: the repeated number survives because `\1` has no group to refer to |
| MouldTransferPdfText.RepeatedIndexDropped | packages/backend/utils/pdf/mouldTransferPdfParser.js:179-183 | as intended, `"D A D B"` cleans to `"A B"` |
| MouldTransferPdfText.MarkNeverMatches | packages/backend/utils/pdf/mouldTransferPdfParser.js:182 | in a clean name no white space is followed by U+0001, so the as-written pattern never matches |
| MouldTransferPdfText.RotationPoint | packages/backend/utils/pdf/mouldTransferPdfParser.js:189 | when the pattern matches, the split leaves a dotted number in front, a letter right after it, and a final '.' |
| MouldTransferPdfText.NormalizePartNo | packages/backend/utils/pdf/mouldTransferPdfParser.js:186-192 | the part number holds no white space |
| MouldTransferPdfText.NormalizePartNoRotation | packages/backend/utils/pdf/mouldTransferPdfParser.js:186-192 | the result is the space-free text itself, or a rotation of it that starts with a letter and ends with the dotted number |
| MouldTransferPdfText.NormalizePartNoIdempotent | packages/backend/utils/pdf/mouldTransferPdfParser.js:186-192 | normalising a normalised part number changes nothing |
| MouldTransferPdfText.NormalizePartNoRotates | packages/backend/utils/pdf/mouldTransferPdfParser.js:188-190 | a dotted number followed by a piece that starts with a letter and ends with '.' is put the other way round, as in `2.1B22197.21.` to `B22197.21.2.1` |
| MouldTransferPdfText.LooseDateText | packages/backend/utils/pdf/mouldTransferPdfParser.js:32-36 | the matched date, padded and joined with '-', is an ISO `YYYY-MM-DD` date |
| MouldTransferPdfText.LazyLooseDate | packages/backend/utils/pdf/mouldTransferPdfParser.js:45 | the date the lazy gap reaches starts at most 80 characters after the label and matches the loose date pattern |
| MouldTransferPdfText.ExtractMoveDate | packages/backend/utils/pdf/mouldTransferPdfParser.js:20-57 | the move date is empty or an ISO `YYYY-MM-DD` date |
| MouldTransferPdfText.MoveDateFound | packages/backend/utils/pdf/mouldTransferPdfParser.js:42-43 | a text holding the label with an ISO date right after it (white space aside) always yields a date |
| MouldTransferPdfLayout.Nearest | packages/backend/utils/pdf/mouldTransferPdfParser.js:62-70 | the line chosen for a token is within the tolerance and strictly nearer than every earlier line within it, and no line nearer comes after it; none when no line is within the tolerance |
| MouldTransferPdfLayout.NearestUnique | packages/backend/utils/pdf/mouldTransferPdfParser.js:62-70 | at most one choice meets that description |
| MouldTransferPdfLayout.FindNearest | packages/backend/utils/pdf/mouldTransferPdfParser.js:62-70 | the scan over the lines with the best line and distance so far picks the nearest line as described |
| MouldTransferPdfLayout.GroupByTop | packages/backend/utils/pdf/mouldTransferPdfParser.js:59-79 | the lines built token by token, each joining its nearest line (whose top becomes the running mean) or starting a new one, then sorted by top |
| MouldTransferPdfLayout.JoinedIs | packages/backend/utils/pdf/mouldTransferPdfParser.js:72-73 | a joined line has the token appended and the top `(top * (n - 1) + token.top) / n` |
| MouldTransferPdfLayout.GroupedStep | packages/backend/utils/pdf/mouldTransferPdfParser.js:61-77 | one more token either updates its nearest line or appends a new line of its own |
| MouldTransferPdfLayout.PlaceAddsToken | packages/backend/utils/pdf/mouldTransferPdfParser.js:71-76 | placing a token adds exactly that token to the tokens of the lines |
| MouldTransferPdfLayout.GroupedKeepsTokens | packages/backend/utils/pdf/mouldTransferPdfParser.js:59-77 | the lines hold exactly the tokens, as a multiset |
| MouldTransferPdfLayout.AllTokensSort | packages/backend/utils/pdf/mouldTransferPdfParser.js:78 | sorting the lines by top keeps their tokens |
| MouldTransferPdfLayout.GroupByTopMeaning | packages/backend/utils/pdf/mouldTransferPdfParser.js:59-79 | every token lands in exactly one line, and the lines come out ordered by top |
| MouldTransferPdfLayout.JoinedMean | packages/backend/utils/pdf/mouldTransferPdfParser.js:72-73 | when a line's top is the mean of its tokens' tops, it still is after a token joins it |
| MouldTransferPdfLayout.GroupByTopMeans | packages/backend/utils/pdf/mouldTransferPdfParser.js:59-79 | every line returned holds a token, and its top is the mean of its tokens' tops |
| MouldTransferPdfLayout.BuildCompactLine | packages/backend/utils/pdf/mouldTransferPdfParser.js:81-94 | the loop over the tokens sorted by left x, appending each non-empty key and its piece, gives the compact line |
| MouldTransferPdfLayout.StepIs | packages/backend/utils/pdf/mouldTransferPdfParser.js:86-91 | a token with an empty key changes nothing; any other appends its key and one piece spanning it |
| MouldTransferPdfLayout.CompactLineTiles | packages/backend/utils/pdf/mouldTransferPdfParser.js:81-94 | the pieces cover the compact text end to end, one after another, with no gap and no overlap |
| MouldTransferPdfLayout.CompactFoldCovers | packages/backend/utils/pdf/mouldTransferPdfParser.js:85-92 | every position of the compact text lies in one of the pieces |
| MouldTransferPdfLayout.Hits | packages/backend/utils/pdf/mouldTransferPdfParser.js:101 | the pieces kept are exactly those that overlap the span of the target |
| MouldTransferPdfLayout.MinX0 | packages/backend/utils/pdf/mouldTransferPdfParser.js:104 | the least left x of the pieces: no piece is further left, and one piece is there |
| MouldTransferPdfLayout.MaxX1 | packages/backend/utils/pdf/mouldTransferPdfParser.js:105 | the greatest right x of the pieces: no piece is further right, and one piece is there |
| MouldTransferPdfLayout.BboxForSubstring | packages/backend/utils/pdf/mouldTransferPdfParser.js:96-108 | a box found for a target has the line's top, and the target occurs in the line's compact text |
| MouldTransferPdfLayout.BoxInSpan | packages/backend/utils/pdf/mouldTransferPdfParser.js:100-107 | the box spans exactly the pieces overlapped by the first occurrence of the target |
| MouldTransferPdfLayout.BoxInEmpty | packages/backend/utils/pdf/mouldTransferPdfParser.js:100-102 | an empty target overlaps no piece, so it has no box |
| MouldTransferPdfLayout.BboxFound | packages/backend/utils/pdf/mouldTransferPdfParser.js:96-108 | a box is found exactly when the target is non-empty and occurs in the line's compact text |
| MouldTransferPdfLayout.BboxSpan | packages/backend/utils/pdf/mouldTransferPdfParser.js:96-108 | the box of a label in a line spans the pieces the label overlaps |
| MouldTransferPdfLayout.CellTokens | packages/backend/utils/pdf/mouldTransferPdfParser.js:136-145 | a token is in the cell exactly when its centre x is in `[left, right)` and its top in `[bandTop, bandBottom)` |
| MouldTransferPdfLayout.CollectTokensInBand | packages/backend/utils/pdf/mouldTransferPdfParser.js:136-145 | the loop keeps the cell's tokens in their order |
| MouldTransferPdfLayout.CellsApart | packages/backend/utils/pdf/mouldTransferPdfParser.js:136-145 | two cells side by side share no token |
| MouldTransferPdfLayout.JoinCellText | packages/backend/utils/pdf/mouldTransferPdfParser.js:147-172 | no tokens give the empty text; the `nospace` text holds no white space; the `space` text has no white space at its ends |
| MouldTransferPdfLayout.JoinCellModes | packages/backend/utils/pdf/mouldTransferPdfParser.js:147-172 | the `space` text with its white space removed is the `nospace` text |
| MouldTransferPdf.TokenOf | packages/backend/utils/pdf/mouldTransferPdfParser.js:215-230 | no token for a blank item or one whose transform has fewer than six numbers, else one; a token keeps the item's text, its text is not blank, and its right x lies right of its left x |
| MouldTransferPdf.PageTokens | packages/backend/utils/pdf/mouldTransferPdfParser.js:214-231 | at most one token per item, each with a non-blank text and a right x right of its left x |
| MouldTransferPdf.CollectTokens | packages/backend/utils/pdf/mouldTransferPdfParser.js:214-231 | the loop over the items yields the page's tokens in item order |
| MouldTransferPdf.FirstHitMeaning | packages/backend/utils/pdf/mouldTransferPdfParser.js:261-267 | the first line, from a given line on, in which the label has a box: every line before it has none; none when no line has one |
| MouldTransferPdf.FindHeader | packages/backend/utils/pdf/mouldTransferPdfParser.js:261-267 | the scan over the lines that stops at the first box found yields the first line's box |
| MouldTransferPdf.FindHeaders | packages/backend/utils/pdf/mouldTransferPdfParser.js:259-270 | one entry per header label, in `HEADER_ORDER`, each the box of the first line holding that label's key |
| MouldTransferPdf.Midpoints | packages/backend/utils/pdf/mouldTransferPdfParser.js:290-292 | one fewer than the centres; each is the mean of two neighbouring centres |
| MouldTransferPdf.Boundaries | packages/backend/utils/pdf/mouldTransferPdfParser.js:288-293 | seven boundaries: the left edge, the five midpoints, the page width |
| MouldTransferPdf.ColumnBoundaries | packages/backend/utils/pdf/mouldTransferPdfParser.js:277-293 | the loops over the headers and centres yield the boundaries: a missing header's centre lies 120 units right of the previous centre |
| MouldTransferPdf.CentreInColumn | packages/backend/utils/pdf/mouldTransferPdfParser.js:277-293 | with increasing centres, each inner column's centre lies strictly between its own two boundaries |
| MouldTransferPdf.MaxHeaderTop | packages/backend/utils/pdf/mouldTransferPdfParser.js:296 | not below the top of any header found |
| MouldTransferPdf.AttachmentToken | packages/backend/utils/pdf/mouldTransferPdfParser.js:298 | the first token whose key contains `附件`; none exactly when no token's key does |
| MouldTransferPdf.TableEnd | packages/backend/utils/pdf/mouldTransferPdfParser.js:299-301 | with an attachment line the table ends at least ten units below its start |
| MouldTransferPdf.IndexAnchors | packages/backend/utils/pdf/mouldTransferPdfParser.js:305-313 | a token is a row-number anchor exactly when it lies in the table region, wholly left of the first data column with one unit to spare, and its trimmed text is one or two digits |
| MouldTransferPdf.MouldAnchors | packages/backend/utils/pdf/mouldTransferPdfParser.js:323-333 | a token is a mould-number anchor exactly when it lies in the table region, its centre x is in the column, and its key is `ML` followed by digits |
| MouldTransferPdf.Dedupe | packages/backend/utils/pdf/mouldTransferPdfParser.js:315-318 | a non-empty list of tops keeps at least one, and never more than it had |
| MouldTransferPdf.DedupeTops | packages/backend/utils/pdf/mouldTransferPdfParser.js:315-318 | the loop keeping a top only when it is more than the gap away from the last kept one |
| MouldTransferPdf.DedupeSpread | packages/backend/utils/pdf/mouldTransferPdfParser.js:315-318 | from ascending tops, the kept tops are among them, ascend, and lie more than the gap apart |
| MouldTransferPdf.RowTopsSpread | packages/backend/utils/pdf/mouldTransferPdfParser.js:305-338 | the row tops ascend, and neighbours lie more than six units apart |
| MouldTransferPdf.FallbackMissesMouldColumn | packages/backend/utils/pdf/mouldTransferPdfParser.js:321-338 | a mould number in the mould-number column of a table without row numbers: the fallback as written (boundaries 3 and 4) finds no row, the intended one (boundaries 2 and 3) finds it |
| MouldTransferPdf.FallbackFindsMouldColumn | packages/backend/utils/pdf/mouldTransferPdfParser.js:319-338 | in the intended fallback, a table without row numbers yields at least one row once a mould number stands in the mould-number column, and every row top is the top of such a mould number |
| MouldTransferPdf.BandsInOrder | packages/backend/utils/pdf/mouldTransferPdfParser.js:343-348 | with ascending row tops an earlier band ends at or above where a later one starts |
| MouldTransferPdf.TokenInOneRow | packages/backend/utils/pdf/mouldTransferPdfParser.js:343-390 | with ascending row tops no token of a column is collected into two rows |
| MouldTransferPdf.SealOf | packages/backend/utils/pdf/mouldTransferPdfParser.js:402-403 | the seal sample number is empty or a well-formed seal number; one found in its own cell wins |
| MouldTransferPdf.RowIn | packages/backend/utils/pdf/mouldTransferPdfParser.js:350-406 | the row read from a band carries the given number, a part number without white space, a mould number in key form, a trimmed mould name, and an empty or well-formed seal number |
| MouldTransferPdf.Kept | packages/backend/utils/pdf/mouldTransferPdfParser.js:408-420 | the kept rows are numbered 1, 2, ... in order and none is bogus |
| MouldTransferPdf.KeptFromCandidates | packages/backend/utils/pdf/mouldTransferPdfParser.js:408-420 | each kept row is the row of some band, renumbered |
| MouldTransferPdf.KeptAllGood | packages/backend/utils/pdf/mouldTransferPdfParser.js:408-420 | each band whose row is not bogus contributes its row, renumbered |
| MouldTransferPdf.KeptWellFormed | packages/backend/utils/pdf/mouldTransferPdfParser.js:408-420 | rows read well-formed stay well-formed when kept and numbered |
| MouldTransferPdf.ReadRows | packages/backend/utils/pdf/mouldTransferPdfParser.js:342-421 | the loop over the bands yields the kept, numbered rows |
| MouldTransferPdf.TableRows | packages/backend/utils/pdf/mouldTransferPdfParser.js:278-423 | the rows found are non-empty, numbered in order, not bogus and well formed; the only errors are "no anchor row" and "no rows" |
| MouldTransferPdf.ReadTable | packages/backend/utils/pdf/mouldTransferPdfParser.js:278-423 | the boundaries, region, anchors and rows step by step yield the table's result |
| MouldTransferPdf.FromHeaders | packages/backend/utils/pdf/mouldTransferPdfParser.js:273-425 | the header error comes exactly when the part-number or mould-number header is missing; a result carries the date given |
| MouldTransferPdf.FromLines | packages/backend/utils/pdf/mouldTransferPdfParser.js:247-425 | a result carries an ISO date and rows numbered in order; the first three errors cannot come from here |
| MouldTransferPdf.ReadLines | packages/backend/utils/pdf/mouldTransferPdfParser.js:236-425 | the date, the headers and the table step by step yield the result |
| MouldTransferPdf.ParseResult | packages/backend/utils/pdf/mouldTransferPdfParser.js:194-426 | "no pages" exactly when the document has no page; "no text" for a page without items; "too little text" below 30 tokens; a result means at least 30 tokens, an ISO date and non-empty rows numbered in order, none bogus, each well formed |
| MouldTransferPdf.ParseMouldTransferPdf | packages/backend/utils/pdf/mouldTransferPdfParser.js:194-426 | the parse run step by step yields the result described |
| MouldTransferText.Dehyphen | packages/frontend/src/utils/pdf/mouldTransferParser.ts:166-169 | the replacement of hyphen variants keeps the length of the text |
| MouldTransferText.DehyphenMeaning | packages/frontend/src/utils/pdf/mouldTransferParser.ts:166-169 | each character is kept, except that every hyphen variant (fullwidth, em, en, non-breaking, minus) becomes the hyphen-minus |
| MouldTransferText.DehyphenAppend | packages/frontend/src/utils/pdf/mouldTransferParser.ts:166-169 | replacing hyphen variants distributes over concatenation |
| MouldTransferText.RemoveSpacesOfSolid | packages/frontend/src/utils/pdf/mouldTransferParser.ts:165 | text without white space is left unchanged by the removal of white space |
| MouldTransferText.RemoveSpacesOfCollapse | packages/frontend/src/utils/pdf/mouldTransferParser.ts:159 | collapsing white space runs to one space and then removing white space equals removing it outright |
| MouldTransferText.RemoveSpacesOfTrim | packages/frontend/src/utils/pdf/mouldTransferParser.ts:159 | trimming before removing white space changes nothing |
| MouldTransferText.RemoveSpacesOfClean | packages/frontend/src/utils/pdf/mouldTransferParser.ts:159-165 | compressing white space (collapse and trim) before removing it changes nothing |
| MouldTransferText.NormalizeMouldNoMeaning | packages/frontend/src/utils/pdf/mouldTransferParser.ts:165 | a normalised mould number is the text with all white space removed, and holds no white space |
| MouldTransferText.NormalizeSealNoMeaning | packages/frontend/src/utils/pdf/mouldTransferParser.ts:166-169 | a normalised seal number is the text without white space and with each hyphen variant made the hyphen-minus; it holds no white space and no other hyphen variant |
| MouldTransferText.PaddedDate | packages/frontend/src/utils/pdf/mouldTransferParser.ts:35-49 | the three groups of a date match, month and day padded to two digits, form a YYYY-MM-DD date |
| MouldTransferText.TryParseDate | packages/frontend/src/utils/pdf/mouldTransferParser.ts:37-49 | the result is either empty or a YYYY-MM-DD date |
| MouldTransferText.TryParseDateMeaning | packages/frontend/src/utils/pdf/mouldTransferParser.ts:18-49 | the parse yields "" exactly when neither the strict, the separated nor the 年/月 date form occurs at any position |
| MouldTransferText.IsoDateKept | packages/frontend/src/utils/pdf/mouldTransferParser.ts:18-40 | a text that is already a YYYY-MM-DD date parses to itself |
| MouldTransferText.NoStrictInShort | packages/frontend/src/utils/pdf/mouldTransferParser.ts:18 | no strict date fits in fewer than ten characters |
| MouldTransferText.LooseDateExample | packages/frontend/src/utils/pdf/mouldTransferParser.ts:19-44 | "2024/3/5" parses to "2024-03-05": separators become "-", and month and day are padded |
| MouldTransferText.CnDateExample | packages/frontend/src/utils/pdf/mouldTransferParser.ts:20-48 | "2024年3月5日" parses to "2024-03-05" |
| MouldTransferText.CnDateNotLoose | packages/frontend/src/utils/pdf/mouldTransferParser.ts:19 | 年 is not a separator of the separated form, so that form finds nothing in "2024年3月5日" |
| MouldTransferText.HashRun | packages/frontend/src/utils/pdf/mouldTransferParser.ts:97 | the run of leading '#' removed from a compact line lies within the line |
| MouldTransferText.HashSpaceRun | packages/frontend/src/utils/pdf/mouldTransferParser.ts:173 | the run of leading '#' and white space removed from a header line lies within the line |
| MouldTransferText.FirstWhere | packages/frontend/src/utils/pdf/mouldTransferParser.ts:113-125 | the first line at or after a start index satisfying the test: every line before it fails the test; none when no line passes |
| MouldTransferText.FindTableHeaderBlock | packages/frontend/src/utils/pdf/mouldTransferParser.ts:110-127 | a header block found starts at a line of the input |
| MouldTransferText.FindTableHeaderBlockMeaning | packages/frontend/src/utils/pdf/mouldTransferParser.ts:102-127 | no header block exactly when no line mentions 零件图号; when some line names all six columns, the block starts at the first such line, otherwise at the first line that mentions 零件图号 |
| MouldTransferText.NewRowEnd | packages/frontend/src/utils/pdf/mouldTransferParser.ts:129 | the row-number prefix of a new table row, when present, ends within the line |
| MouldTransferText.RowNumberDigits | packages/frontend/src/utils/pdf/mouldTransferParser.ts:129-130 | the captured row number consists of decimal digits only |
| MouldTransferText.CodeRun | packages/frontend/src/utils/pdf/mouldTransferParser.ts:24 | the code run of a seal number covers code characters only and stops at the first character that is not one |
| MouldTransferText.HyphenGap | packages/frontend/src/utils/pdf/mouldTransferParser.ts:21-200 | a spaced hyphen, when found, covers at least one character and ends within the text |
| MouldTransferText.SepEnd | packages/frontend/src/utils/pdf/mouldTransferParser.ts:733-750 | a separator (a spaced hyphen, or white space alone), when found, covers at least one character |
| MouldTransferText.SealAt | packages/frontend/src/utils/pdf/mouldTransferParser.ts:23-25 | a seal-number match starts with "ML" and ends within the text, past the "ML" |
| MouldTransferText.SealEnd | packages/frontend/src/utils/pdf/mouldTransferParser.ts:23-25 | where a seal-number match ends: past the "ML" it starts with |
| MouldTransferText.SealAtShape | packages/frontend/src/utils/pdf/mouldTransferParser.ts:23-25 | a seal-number match holds "ML", a spaced hyphen, a non-empty run of capitals and digits, a spaced hyphen, eight digits, a spaced hyphen and a non-empty run of digits |
| MouldTransferText.CharRun | packages/frontend/src/utils/pdf/mouldTransferParser.ts:23-25 | the run of one character from a position ends within the text |
| MouldTransferText.Escaped | packages/frontend/src/utils/pdf/mouldTransferParser.ts:23-25 | a doubled-backslash class as compiled matches only where a literal backslash stands |
| MouldTransferText.SealAsWrittenEnd | packages/frontend/src/utils/pdf/mouldTransferParser.ts:23-25 | the seal pattern as compiled matches only where "ML" is followed by a literal backslash |
| MouldTransferText.MouldNoEnd | packages/frontend/src/utils/pdf/mouldTransferParser.ts:26 | a mould-number match starts with "ML" and ends within the text |
| MouldTransferText.DanglingEnd | packages/frontend/src/utils/pdf/mouldTransferParser.ts:137 | a part number cut off after a dot ends with that dot |
| MouldTransferText.SealLikeEnd | packages/frontend/src/utils/pdf/mouldTransferParser.ts:817 | a seal-like fragment removed from a mould name covers more than "ML" and ends within the text |
| MouldTransferText.DashNumberEnd | packages/frontend/src/utils/pdf/mouldTransferParser.ts:818 | a two-digit number, a dash and a number, when matched, covers at least three characters |
| MouldTransferText.SpacedNumberEnd | packages/frontend/src/utils/pdf/mouldTransferParser.ts:821 | a number standing between white space, when matched, ends within the text |
| MouldTransferText.SplitSealAt | packages/frontend/src/utils/pdf/mouldTransferParser.ts:745-770 | a split seal number of either kind covers more than its "ML" and ends within the text |
| MouldTransferText.MatchEnd | packages/frontend/src/utils/pdf/mouldTransferParser.ts:18-139 | every pattern match takes at least one character and ends within the text |
| MouldTransferText.First | packages/frontend/src/utils/pdf/mouldTransferParser.ts:131-163 | the leftmost match from a position on: it matches there, no match starts earlier, and none is reported when no position matches |
| MouldTransferText.FirstText | packages/frontend/src/utils/pdf/mouldTransferParser.ts:163 | the first captured text is empty exactly when the pattern matches nowhere |
| MouldTransferText.ReplaceEachNoMatch | packages/frontend/src/utils/pdf/mouldTransferParser.ts:817-821 | a global replacement leaves a text in which the pattern matches nowhere unchanged |
| MouldTransferText.AllMatches | packages/frontend/src/utils/pdf/mouldTransferParser.ts:693-731 | every match listed is a match of the pattern, starting from the given position |
| MouldTransferText.SealAsWrittenNeedsBackslash | packages/frontend/src/utils/pdf/mouldTransferParser.ts:23-25 | in a text without a backslash the seal pattern as compiled matches nowhere |
| MouldTransferText.SealNumberMissed | packages/frontend/src/utils/pdf/mouldTransferParser.ts:23-25 | the printed seal number "ML-FYJYD-20241105-1001642" is not found by the pattern as compiled |
| MouldTransferText.SealNumberFound | packages/frontend/src/utils/pdf/mouldTransferParser.ts:23-25 | the pattern as meant finds that seal number whole |
| MouldTransferText.SealTextOf | packages/frontend/src/utils/pdf/mouldTransferParser.ts:166-169 | "ML-" + code + "-" + eight-digit date + "-" + serial is a printed seal number |
| MouldTransferText.NormalIsDehyphen | packages/frontend/src/utils/pdf/mouldTransferParser.ts:166-169 | normalising in one pass equals removing white space and then replacing hyphen variants |
| MouldTransferText.NormalAppend | packages/frontend/src/utils/pdf/mouldTransferParser.ts:166-169 | seal normalisation distributes over concatenation |
| MouldTransferText.NormalOfPlain | packages/frontend/src/utils/pdf/mouldTransferParser.ts:166-169 | text without white space or hyphen variants is its own normal form |
| MouldTransferText.GapNormal | packages/frontend/src/utils/pdf/mouldTransferParser.ts:23-169 | a spaced hyphen normalises to "-" |
| MouldTransferText.SealPartsShape | packages/frontend/src/utils/pdf/mouldTransferParser.ts:23-25 | the code, date and serial parts of a seal match have the shapes of a printed seal number |
| MouldTransferText.SealNormalized | packages/frontend/src/utils/pdf/mouldTransferParser.ts:23-169 | every seal number the intended pattern finds normalises to the printed form ML-CODE-YYYYMMDD-NNN, whatever spaces and hyphen variants the text had |
| MouldTransferText.ExtractPartNoShape | packages/frontend/src/utils/pdf/mouldTransferParser.ts:131-139 | a part number found is a piece of the compressed line, at least two characters long, starting with a capital or a digit; "" exactly when none of the three patterns matches |
| MouldTransferText.PartNoInShape | packages/frontend/src/utils/pdf/mouldTransferParser.ts:133-138 | the same, for an already compressed line |
| MouldTransferText.JoinSplitPartNoMeaning | packages/frontend/src/utils/pdf/mouldTransferParser.ts:247-248 | joining a split part number gives the prefix then the suffix, with all white space removed |
| MouldTransferText.PrefixIsNoSuffix | packages/frontend/src/utils/pdf/mouldTransferParser.ts:239-245 | a part-number prefix token (letters, ending in a dot) is never a suffix token (digits and dots) |
| MouldTransferColumns.PushSeal | packages/frontend/src/utils/pdf/mouldTransferParser.ts:342-357 | a blank value leaves the seal column as it is; otherwise the compressed value is either appended or joined onto the last seal number |
| MouldTransferColumns.PushSealKeepsText | packages/frontend/src/utils/pdf/mouldTransferParser.ts:342-357 | ignoring white space, the seal column after a push reads as before followed by the value: joining a serial number onto its seal number loses no text |
| MouldTransferColumns.PushPart | packages/frontend/src/utils/pdf/mouldTransferParser.ts:398-412 | a part-number value either adds one entry or rewrites the last one; every earlier entry is unchanged |
| MouldTransferColumns.PushPartPrefix | packages/frontend/src/utils/pdf/mouldTransferParser.ts:400-404 | a prefix token is stored as one new entry carrying the marker |
| MouldTransferColumns.PushPartJoins | packages/frontend/src/utils/pdf/mouldTransferParser.ts:398-410 | a suffix token after a prefix token completes it: one entry, the prefix then the suffix without white space or marker |
| MouldTransferColumns.PrefixIsNoSuffixOther | packages/frontend/src/utils/pdf/mouldTransferParser.ts:239-245 | a suffix token is never read as a prefix token |
| MouldTransferColumns.DanglingPrefix | packages/frontend/src/utils/pdf/mouldTransferParser.ts:400-455 | a prefix token that no suffix completes leaves the row built as written with the "__PFX__" marker in its part number, while the corrected row holds the prefix itself |
| MouldTransferColumns.MarkedRow | packages/frontend/src/utils/pdf/mouldTransferParser.ts:424-445 | the one row of a part column holding a marked prefix, as written (marker kept) and corrected (marker dropped) |
| MouldTransferColumns.MarkedCell | packages/frontend/src/utils/pdf/mouldTransferParser.ts:424-441 | the part cell of a marked prefix keeps the marker as written and drops it when corrected; neither is a stray eight-digit date |
| MouldTransferColumns.Numbered | packages/frontend/src/utils/pdf/mouldTransferParser.ts:423-452 | the numbered rows of the first k positions are at most k |
| MouldTransferColumns.NumberedStep | packages/frontend/src/utils/pdf/mouldTransferParser.ts:423-452 | one more position adds its row, numbered one past the rows so far, exactly when it is kept |
| MouldTransferColumns.NumberedMeaning | packages/frontend/src/utils/pdf/mouldTransferParser.ts:423-452 | the rows are those of the kept positions, in increasing order and numbered 1, 2, …; no kept position is skipped |
| MouldTransferColumns.RowAtShape | packages/frontend/src/utils/pdf/mouldTransferParser.ts:424-443 | a kept position gives a row with its number, a part number, mould number or name, no stray date as part number without a mould number, and mould and seal numbers without white space |
| MouldTransferColumns.TableRowsShape | packages/frontend/src/utils/pdf/mouldTransferParser.ts:414-455 | the table's rows are numbered 1, 2, … in column order, one per kept position and none other; each has a part number, mould number or name, is not a stray date row, and has mould and seal numbers without white space |
| MouldTransferColumns.KeepAllMeaningful | packages/frontend/src/utils/pdf/mouldTransferParser.ts:454 | the final filter keeps every row, since the row loop already skipped the empty ones |
| MouldTransferColumns.ParseColumnTableByHeaders | packages/frontend/src/utils/pdf/mouldTransferParser.ts:327-455 | the column reader reads up to the line that ends the table and yields exactly the rows of the specified column table |
| MouldTransferColumns.ScanOne | packages/frontend/src/utils/pdf/mouldTransferParser.ts:358-412 | one line of the column loop updates the columns and the current column as the specified line step does |
| MouldTransferColumns.BuildRows | packages/frontend/src/utils/pdf/mouldTransferParser.ts:414-452 | the row loop over positions up to the longest column yields the specified rows |
| MouldTransferColumns.RowOfPosition | packages/frontend/src/utils/pdf/mouldTransferParser.ts:424-443 | one position gives whether it is kept and the row it yields, as specified |
| MouldTransferColumns.RowsUpToStep | packages/frontend/src/utils/pdf/mouldTransferParser.ts:423-452 | the rows up to position k+1 are those up to k plus the row of k when it is kept |
| MouldTransferColumns.Classify | packages/frontend/src/utils/pdf/mouldTransferParser.ts:470-550 | a seal line's seal is the first seal match of the line; a mould line's match is the first mould-number match; a name-only line contains a CJK character |
| MouldTransferColumns.LineKind | packages/frontend/src/utils/pdf/mouldTransferParser.ts:466-550 | the same for a raw line after the checkbox prefix is stripped and spaces compressed; a name-only line is not blank |
| MouldTransferColumns.KindOf | packages/frontend/src/utils/pdf/mouldTransferParser.ts:470-550 | the tests of a compressed line, applied in the parser's order, classify it as specified |
| MouldTransferColumns.ModeOne | packages/frontend/src/utils/pdf/mouldTransferParser.ts:466-550 | one line of the column-mode loop updates the gathered state as the specified line step does |
| MouldTransferColumns.ModeLineValid | packages/frontend/src/utils/pdf/mouldTransferParser.ts:466-550 | a line keeps the gathered-state invariant, adds at most one mould row, and leaves every row before the last unchanged |
| MouldTransferColumns.GatherValid | packages/frontend/src/utils/pdf/mouldTransferParser.ts:472-550 | recording a seal, a part number, a mould row, a short word or a name keeps the invariant |
| MouldTransferColumns.MouldLineValid | packages/frontend/src/utils/pdf/mouldTransferParser.ts:500-523 | a mould-number line appends exactly one row and leaves seals and names as they were |
| MouldTransferColumns.ShortWordValid | packages/frontend/src/utils/pdf/mouldTransferParser.ts:526-541 | a short CJK word changes no row count and only the last row, and leaves seals and names alone |
| MouldTransferColumns.ModeAllValid | packages/frontend/src/utils/pdf/mouldTransferParser.ts:466-550 | everything gathered from the lines satisfies the invariant: normalised mould and seal numbers |
| MouldTransferColumns.Unnamed | packages/frontend/src/utils/pdf/mouldTransferParser.ts:556-561 | the count of unnamed rows among the first i is at most i |
| MouldTransferColumns.UnnamedGrows | packages/frontend/src/utils/pdf/mouldTransferParser.ts:556-561 | the count of unnamed rows only grows along the rows |
| MouldTransferColumns.HandOutNames | packages/frontend/src/utils/pdf/mouldTransferParser.ts:554-562 | the name loop gives each unnamed row the next collected name, as specified |
| MouldTransferColumns.FillNamesComplete | packages/frontend/src/utils/pdf/mouldTransferParser.ts:554-562 | a row that had a name keeps it; when at least as many names were collected as rows lack one, every row ends up named |
| MouldTransferColumns.AssignByOrder | packages/frontend/src/utils/pdf/mouldTransferParser.ts:565-570 | the assignment loop fills move-to, seal and part number by position, as specified |
| MouldTransferColumns.DraftMeaningful | packages/frontend/src/utils/pdf/mouldTransferParser.ts:572 | the rows normalised and the empty ones dropped |
| MouldTransferColumns.KeepMeaningfulSnoc | packages/frontend/src/utils/pdf/mouldTransferParser.ts:572 | filtering a row appended to a list keeps it exactly when it is meaningful |
| MouldTransferColumns.Renumber | packages/frontend/src/utils/pdf/mouldTransferParser.ts:573 | the numbering loop numbers the rows 1, 2, … |
| MouldTransferColumns.DraftAt | packages/frontend/src/utils/pdf/mouldTransferParser.ts:552-573 | row j after names, lists and normalisation keeps its mould number, is meaningful, and takes the seal and part number listed at its position |
| MouldTransferColumns.ColumnModeShape | packages/frontend/src/utils/pdf/mouldTransferParser.ts:457-574 | column mode gives one row per mould-number line, numbered 1, 2, …: each keeps its mould number, takes the seal number at its own position (none when fewer were listed) and the part number at its own position |
| MouldTransferColumns.ModeRowsShape | packages/frontend/src/utils/pdf/mouldTransferParser.ts:552-574 | the same, for the rows laid out from a gathered state |
| MouldTransferColumns.ParseColumnMode | packages/frontend/src/utils/pdf/mouldTransferParser.ts:457-574 | the column-mode parser reads up to the line that ends the table and yields exactly the specified rows |
| MouldTransferColumns.NormalizeSealNoTwice | packages/frontend/src/utils/pdf/mouldTransferParser.ts:166-169 | normalising a seal number twice changes nothing more |
| MouldTransferColumns.MouldNoFixed | packages/frontend/src/utils/pdf/mouldTransferParser.ts:165 | a mould number in normal form is its own normal form |
| MouldTransferRows.JoinFrom | packages/frontend/src/utils/pdf/mouldTransferParser.ts:202-225 | joining split seal lines from a line on never yields more lines than there were |
| MouldTransferRows.JoinSealNoSplitLines | packages/frontend/src/utils/pdf/mouldTransferParser.ts:202-225 | the loop that joins a seal-number start line with the line completing it, and skips that line, yields the specified joined lines |
| MouldTransferRows.JoinSealLinesKeepsText | packages/frontend/src/utils/pdf/mouldTransferParser.ts:202-225 | joining loses no text: apart from white space the lines say the same before and after |
| MouldTransferRows.JoinFromKeepsText | packages/frontend/src/utils/pdf/mouldTransferParser.ts:202-225 | the same, from any line on |
| MouldTransferRows.JoinSealLinesPlain | packages/frontend/src/utils/pdf/mouldTransferParser.ts:197-225 | lines none of which starts a seal number are passed through unchanged |
| MouldTransferRows.JoinFromPlain | packages/frontend/src/utils/pdf/mouldTransferParser.ts:197-225 | the same, from any line on |
| MouldTransferRows.MergeInto | packages/frontend/src/utils/pdf/mouldTransferParser.ts:268-276 | the row a dropped row is merged into keeps its own index |
| MouldTransferRows.Settled | packages/frontend/src/utils/pdf/mouldTransferParser.ts:253-282 | a row, once the row before it may have been merged into it, keeps its index |
| MouldTransferRows.MergedUpTo | packages/frontend/src/utils/pdf/mouldTransferParser.ts:253-282 | merging the first n rows yields at most n rows |
| MouldTransferRows.JoinedIsNoPrefix | packages/frontend/src/utils/pdf/mouldTransferParser.ts:239-248 | a joined part number ends with the last digit of its suffix, so it never acts as a prefix token again |
| MouldTransferRows.SettledStep | packages/frontend/src/utils/pdf/mouldTransferParser.ts:253-282 | a settled row merges on exactly when the original row would, and a row that merges on was not itself merged into |
| MouldTransferRows.MergeSplitPartNoRows | packages/frontend/src/utils/pdf/mouldTransferParser.ts:253-282 | the loop that updates the following row in place and drops the current one yields the specified merged rows |
| MouldTransferRows.MergeAt | packages/frontend/src/utils/pdf/mouldTransferParser.ts:256-281 | one turn of the merging loop extends the merged rows by one position and settles the next row |
| MouldTransferRows.MergedPlain | packages/frontend/src/utils/pdf/mouldTransferParser.ts:253-282 | without a prefix-token part number no row merges: the rows are kept as they are |
| MouldTransferRows.MergedGrows | packages/frontend/src/utils/pdf/mouldTransferParser.ts:253-282 | rows already merged are never changed by later rows: each row merged from the first `n` rows keeps its place and value in any longer run |
| MouldTransferRows.MergedPair | packages/frontend/src/utils/pdf/mouldTransferParser.ts:260-277 | a dropped row passes its part number on: the following row is in the result with the two part numbers joined, white space removed |
| MouldTransferRows.Filled | packages/frontend/src/utils/pdf/mouldTransferParser.ts:306-315 | a row scores at most six, one per filled field |
| MouldTransferRows.ScoreBound | packages/frontend/src/utils/pdf/mouldTransferParser.ts:306-315 | the completeness score of the rows is at most six per row |
| MouldTransferRows.ScoreAppend | packages/frontend/src/utils/pdf/mouldTransferParser.ts:306-315 | the completeness score adds up over a split of the rows |
| MouldTransferRows.MouldNoNormal | packages/frontend/src/utils/pdf/mouldTransferParser.ts:26-165 | a mould number the pattern finds normalises to "ML" followed by its digits |
| MouldTransferRows.MlGapDigits | packages/frontend/src/utils/pdf/mouldTransferParser.ts:26-165 | "ML", white space and digits, with white space removed, is a mould number in printed form |
| MouldTransferRows.FoundSealNormal | packages/frontend/src/utils/pdf/mouldTransferParser.ts:23-169 | the seal number the intended pattern finds, normalised, is empty or a printed seal number |
| MouldTransferRows.FoundMouldNoNormal | packages/frontend/src/utils/pdf/mouldTransferParser.ts:26-165 | the mould number found, normalised, is empty or "ML" and digits |
| MouldTransferRows.NormalizeEmpty | packages/frontend/src/utils/pdf/mouldTransferParser.ts:165-169 | the empty text normalises to the empty seal and mould number |
| MouldTransferRows.SingleLineNumbers | packages/frontend/src/utils/pdf/mouldTransferParser.ts:576-617 | a row read from one line keeps the index it was given, and its seal and mould numbers are empty or in their printed forms |
| MouldTransferRows.FillMissingFieldsFromLine | packages/frontend/src/utils/pdf/mouldTransferParser.ts:619-674 | filling a row from a continuation line, step by step, gives the specified filled row |
| MouldTransferRows.FillKeepsKnownFields | packages/frontend/src/utils/pdf/mouldTransferParser.ts:619-674 | filling never overwrites a known seal, mould or part number, factory or destination; a number filled in is in printed form; a row still without a mould number only has its name extended; factory and destination are filled only once there is a mould number |
| MouldTransferRows.TakeNumbersShape | packages/frontend/src/utils/pdf/mouldTransferParser.ts:622-656 | the number-taking stage keeps the index, name, factory and destination, keeps known numbers, and fills numbers only in printed form |
| MouldTransferRows.LeftoverShape | packages/frontend/src/utils/pdf/mouldTransferParser.ts:658-673 | the leftover text fills the name before a mould number is known, and the factory, then the destination, after it; numbers are untouched |
| MouldTransferRows.BoundedMouldEnd | packages/frontend/src/utils/pdf/mouldTransferParser.ts:693 | a mould number bounded by word boundaries is a mould-number match |
| MouldTransferRows.MouldWithin | packages/frontend/src/utils/pdf/mouldTransferParser.ts:693 | the lazy gap of up to 220 characters ends at the start of a mould-number match |
| MouldTransferRows.PartBack | packages/frontend/src/utils/pdf/mouldTransferParser.ts:693 | the part number gives back characters one at a time, longest first, ending on a word character |
| MouldTransferRows.HitAt | packages/frontend/src/utils/pdf/mouldTransferParser.ts:693 | a match of the fallback pattern at a position starts there and has the shape of a part number followed by a mould number |
| MouldTransferRows.NextHit | packages/frontend/src/utils/pdf/mouldTransferParser.ts:693-698 | the leftmost match at or after a position starts no earlier than it |
| MouldTransferRows.Hits | packages/frontend/src/utils/pdf/mouldTransferParser.ts:693-728 | every match of the global search has the shape of a part number followed by a mould number |
| MouldTransferRows.RowOfHit | packages/frontend/src/utils/pdf/mouldTransferParser.ts:698-726 | the row of a match carries the index it is given and has the fallback row shape |
| MouldTransferRows.HitRowShape | packages/frontend/src/utils/pdf/mouldTransferParser.ts:699-726 | a row built from a part number, name, mould number and optional seal match has the fallback row shape: mould number and seal in printed form |
| MouldTransferRows.HitRows | packages/frontend/src/utils/pdf/mouldTransferParser.ts:698-728 | one row per match, numbered 1, 2, … in order, each with the fallback shape |
| MouldTransferRows.GlobalRows | packages/frontend/src/utils/pdf/mouldTransferParser.ts:690-731 | the fallback rows are numbered 1, 2, … in order, and each has the shape of a row |
| MouldTransferRows.ParseRowsByGlobalRegex | packages/frontend/src/utils/pdf/mouldTransferParser.ts:690-731 | the exec loop yields exactly the rows of all matches, in order |
| MouldTransferRows.ExecOnce | packages/frontend/src/utils/pdf/mouldTransferParser.ts:697-728 | one exec either finds the next match, moving the search past it and adding its row, or ends the loop with all matches taken |
| MouldTransferRows.HitsStep | packages/frontend/src/utils/pdf/mouldTransferParser.ts:697-698 | the matches from a position are none when there is no next match, else the next match followed by the matches after its end |
| MouldTransferRows.HitRowsSnoc | packages/frontend/src/utils/pdf/mouldTransferParser.ts:698-728 | one more match adds its row, numbered one past the rows so far |
| MouldTransferRows.AllAreMatches | packages/frontend/src/utils/pdf/mouldTransferParser.ts:741-746 | every entry matchAll lists is a match of the pattern |
| MouldTransferRows.CollectSealSampleNos | packages/frontend/src/utils/pdf/mouldTransferParser.ts:733-794 | the four passes push onto one list, which is then de-duplicated: the specified seal list |
| MouldTransferRows.PushPass | packages/frontend/src/utils/pdf/mouldTransferParser.ts:741-793 | one matchAll loop appends the texts of that pass's matches to the list |
| MouldTransferRows.PassTextsSnoc | packages/frontend/src/utils/pdf/mouldTransferParser.ts:741-793 | one more match adds its text to the pass's texts |
| MouldTransferRows.CollapseOfSolid | packages/frontend/src/utils/pdf/mouldTransferParser.ts:159 | text without white space is left unchanged by collapsing white space |
| MouldTransferRows.CleanOfSolid | packages/frontend/src/utils/pdf/mouldTransferParser.ts:159 | text without white space is left unchanged by compressing and trimming |
| MouldTransferRows.NormalizeOfDashed | packages/frontend/src/utils/pdf/mouldTransferParser.ts:166-169 | a text without white space whose only hyphen is "-" is its own normalised seal number |
| MouldTransferText.SplitGroupsShape | packages/frontend/src/utils/pdf/mouldTransferParser.ts:748-779 | the groups of a split spelling: a code of capitals and digits, six and two digits of the date, and a serial of digits |
| MouldTransferRows.SplitTextShape | packages/frontend/src/utils/pdf/mouldTransferParser.ts:756-779 | a seal number rebuilt from split groups is one printed seal number |
| MouldTransferRows.SplitTextIs | packages/frontend/src/utils/pdf/mouldTransferParser.ts:756-779 | the rebuilt seal number of groups that need no trimming is the normalised ML-code-date-serial |
| MouldTransferRows.RebuiltSeal | packages/frontend/src/utils/pdf/mouldTransferParser.ts:761-778 | "ML-code-date-serial", normalised, is a printed seal number |
| MouldTransferRows.DashedSealText | packages/frontend/src/utils/pdf/mouldTransferParser.ts:761-778 | a rebuilt seal text holds no white space and only "-" as hyphen |
| MouldTransferRows.MatchTextShape | packages/frontend/src/utils/pdf/mouldTransferParser.ts:741-793 | every entry one match of any pass adds is a printed seal number |
| MouldTransferRows.PassTextsShape | packages/frontend/src/utils/pdf/mouldTransferParser.ts:741-793 | every entry a pass adds is a printed seal number |
| MouldTransferRows.SealListShape | packages/frontend/src/utils/pdf/mouldTransferParser.ts:733-791 | every entry of the collected list before de-duplication is a printed seal number |
| MouldTransferRows.NonEmptyNoDups | packages/frontend/src/utils/pdf/mouldTransferParser.ts:793 | dropping entries keeps a list free of repeats |
| MouldTransferRows.CollectedSeals | packages/frontend/src/utils/pdf/mouldTransferParser.ts:733-794 | the collected seal numbers are printed seal numbers, each once, and exactly the ones the four passes find in the compressed text |
| MouldTransferRows.MaskPrivateUse | packages/frontend/src/utils/pdf/mouldTransferParser.ts:806 | every private-use character becomes a space and every other character is kept |
| MouldTransferRows.BadTokens | packages/frontend/src/utils/pdf/mouldTransferParser.ts:800-804 | the values of the other fields, compressed, that must not reappear in the name; none is empty |
| MouldTransferRows.KeepTokens | packages/frontend/src/utils/pdf/mouldTransferParser.ts:823-829 | a token is kept exactly when it is one of the tokens and is not the index, a bad token or a bare number |
| MouldTransferRows.DropRepeats | packages/frontend/src/utils/pdf/mouldTransferParser.ts:831-835 | dropping repeats keeps the same set of tokens, leaves no two equal neighbours, and keeps the last token |
| MouldTransferRows.FirstShortCjk | packages/frontend/src/utils/pdf/mouldTransferParser.ts:838 | the first short CJK token, when one exists, is one of the tokens and is short CJK; none means no token is |
| MouldTransferRows.CleanMouldName | packages/frontend/src/utils/pdf/mouldTransferParser.ts:796-841 | the clean-up loops (cut bad tokens out, drop repeated tokens) give the specified mould name |
| MouldTransferRows.RemoveBadTokens | packages/frontend/src/utils/pdf/mouldTransferParser.ts:810-812 | splitting on each bad token and joining with a space, one after another, gives the specified text |
| MouldTransferRows.DedupTokens | packages/frontend/src/utils/pdf/mouldTransferParser.ts:831-835 | the de-duplicating loop skips a token equal to the last one kept, giving the specified tokens |
| MouldTransferRows.MouldNameShape | packages/frontend/src/utils/pdf/mouldTransferParser.ts:796-841 | an empty name stays empty; a name with a short CJK word becomes the first such word left after the clean-up, which is no bad token, not the index, not a bare number, and has no white space |
| MouldTransferParse.FinalizeRows | packages/frontend/src/utils/pdf/mouldTransferParser.ts:1002-1010 | the finishing loop over the rows gives the specified finished rows |
| MouldTransferParse.FinalizeOne | packages/frontend/src/utils/pdf/mouldTransferParser.ts:1005-1007 | one row finished in place: a missing seal number taken from the collected ones at its position, then the name cleaned, as specified |
| MouldTransferParse.FinalizeShape | packages/frontend/src/utils/pdf/mouldTransferParser.ts:1001-1010 | finishing keeps every row in place with its number, part number, mould number, factory and destination; a seal number already read stays, a missing one becomes the collected one at the row's position; a named row stays named |
| MouldTransferParse.FinalizedShape | packages/frontend/src/utils/pdf/mouldTransferParser.ts:1004-1008 | one finished row from printed seal numbers: the same fields kept, and its seal number empty, unchanged, or a printed seal number |
| MouldTransferParse.WithPartNo | packages/frontend/src/utils/pdf/mouldTransferParser.ts:885-887 | the number of rows with a part number is at most the number of rows |
| MouldTransferParse.WithMouldNo | packages/frontend/src/utils/pdf/mouldTransferParser.ts:888-890 | the number of rows with a mould number is at most the number of rows |
| MouldTransferParse.CountPartNos | packages/frontend/src/utils/pdf/mouldTransferParser.ts:885-887 | the counting loop gives the number of rows with a part number |
| MouldTransferParse.CountMouldNos | packages/frontend/src/utils/pdf/mouldTransferParser.ts:888-890 | the counting loop gives the number of rows with a mould number |
| MouldTransferParse.AllWithPartNo | packages/frontend/src/utils/pdf/mouldTransferParser.ts:885-887 | every row has a part number exactly when the count equals the number of rows |
| MouldTransferParse.LineChange | packages/frontend/src/utils/pdf/mouldTransferParser.ts:922-995 | a line either continues the current row or opens a new one, and only when it is not a header label and is a row number, a numbered row, or a part-number line that opens one |
| MouldTransferParse.PartLineChange | packages/frontend/src/utils/pdf/mouldTransferParser.ts:975-995 | a part-number line opens a new row, built from its columns and filled from the line, only when its part number is likely and the current row is done with; otherwise it continues the current row |
| MouldTransferParse.ContinueKeepsFields | packages/frontend/src/utils/pdf/mouldTransferParser.ts:928-999 | a line that continues the current row never overwrites its number, part, mould or seal number, factory or destination already read |
| MouldTransferParse.OpensRow | packages/frontend/src/utils/pdf/mouldTransferParser.ts:928-995 | a line opens a row only when it is a row number, a numbered row, or a likely part number while the current row is done with; a row opened by a part number is numbered after the rows so far |
| MouldTransferParse.ScanRows | packages/frontend/src/utils/pdf/mouldTransferParser.ts:922-1000 | the row loop from the first data line, stopping at the first line that ends the table, gives the specified rows |
| MouldTransferParse.ApplyLine | packages/frontend/src/utils/pdf/mouldTransferParser.ts:923-999 | one line of the row loop updates the rows as the specified line step does |
| MouldTransferParse.PartLine | packages/frontend/src/utils/pdf/mouldTransferParser.ts:975-995 | the part-number branch of the row loop gives the specified change |
| MouldTransferParse.KeepNonBlank | packages/frontend/src/utils/pdf/mouldTransferParser.ts:1001-1004 | the filter keeps only rows with some field read, each one of the input rows |
| MouldTransferParse.KeepNonBlankDrops | packages/frontend/src/utils/pdf/mouldTransferParser.ts:1001-1004 | a row the filter drops has no field read |
| MouldTransferParse.ParseMouldTransferFromText | packages/frontend/src/utils/pdf/mouldTransferParser.ts:843-1081 | the parser gives the specified notice or failure for the text |
| MouldTransferParse.ReadRows | packages/frontend/src/utils/pdf/mouldTransferParser.ts:880-1081 | the rows, in the order the parser tries its readings: the column table when complete enough, else the row loop with its fallbacks |
| MouldTransferParse.ReadLoop | packages/frontend/src/utils/pdf/mouldTransferParser.ts:915-1070 | the row loop and the fallbacks after it give the specified reading |
| MouldTransferParse.LoopRowsOf | packages/frontend/src/utils/pdf/mouldTransferParser.ts:915-1004 | the row loop, merged, filtered and finished, as specified |
| MouldTransferParse.PreferRows | packages/frontend/src/utils/pdf/mouldTransferParser.ts:1015-1032 | column mode replaces the loop rows exactly when the rows look polluted and column mode is more complete |
| MouldTransferParse.HasSuspicious | packages/frontend/src/utils/pdf/mouldTransferParser.ts:317-325 | the scan over the rows tells whether any row is suspicious |
| MouldTransferParse.NoticeFailures | packages/frontend/src/utils/pdf/mouldTransferParser.ts:843-878 | the title, the move date and the header are required in that order, each failure carrying its message and the text; there is no header exactly when no line mentions 零件图号 |
| MouldTransferParse.NoticeFound | packages/frontend/src/utils/pdf/mouldTransferParser.ts:880-1081 | with title, date and header found, the notice is read with the found date and rows, or fails for want of rows |
| MouldTransferParse.NoticeRead | packages/frontend/src/utils/pdf/mouldTransferParser.ts:843-1081 | a notice that is read has a YYYY-MM-DD move date, at least one row, and the normalised text |
| MouldTransferParse.ColumnTableTaken | packages/frontend/src/utils/pdf/mouldTransferParser.ts:880-911 | a complete enough column table is the reading: one row per table row, in order, numbered 1, 2, …, with the table's part and mould numbers |
| Attendance.ToNumber | backend/routes/attendance.js:9-13 | null, undefined and the empty string read as 0, a value `Number` reads as NaN reads as 0, and any other number is kept; the result is never NaN |
| Attendance.DigitsReadAsValue | backend/routes/attendance.js:9-13 | a field typed as decimal digits reads as the number those digits spell |
| Attendance.Readings | backend/routes/attendance.js:22 | one reading per record, each the `toNumber` of that record's field |
| Attendance.TotalIsExact | backend/routes/attendance.js:22 | the `reduce` over finite readings totals their exact sum |
| Attendance.FullAttendanceCount | backend/routes/attendance.js:28-30 | the full-attendance count never exceeds the number of records |
| Attendance.FullAttendanceMeaning | backend/routes/attendance.js:28-30 | the count is 0 exactly when no record has a non-zero bonus, and equals the record count exactly when every record has one |
| Attendance.ComputeSummary | backend/routes/attendance.js:21-42 | the head count is the number of records and the full-attendance count is at most the head count |
| Attendance.SubtotalOfFinite | backend/routes/attendance.js:23-26 | with finite hours, the overtime subtotal is the sum of the normal, double and triple totals |
| Attendance.DateMonth | backend/routes/attendance.js:58-60 | `new Date(y, m, 1)` lands on a month index 0..11; for a year outside 0..99 and an index inside 0..11 it is that very month |
| Attendance.YearOf | backend/routes/attendance.js:56-58 | the year read from a `YYYY-MM` text is between 0 and 9999 |
| Attendance.MonthNumberOf | backend/routes/attendance.js:56-59 | the month number read from a `YYYY-MM` text is between 0 and 99 |
| Attendance.ThirteenthMonthAccepted | backend/routes/attendance.js:55-65 | in January 2025 both `2024-13` and `2025-01` pass `isEditableMonthString`, and `new Date` maps both to the same month |
| Attendance.Named | backend/routes/attendance.js:58-60 | a proper month text names a month with index 0..11 |
| Attendance.NamedIsInjective | backend/routes/attendance.js:55-65 | two proper month texts name the same month only when they are the same text |
| Attendance.EditableAgreesOnProperMonths | backend/routes/attendance.js:55-65 | for a proper month text and a clock past year 99, `isEditableMonthString` agrees with the range-checked guard |
| Attendance.OneSummaryPerMonth | backend/routes/attendance.js:345-394 | in tables the intended routes keep valid, no two summaries name the same calendar month |
| Attendance.NextId | backend/routes/attendance.js:268-282 | the identity a new summary receives is above every existing one |
| Attendance.UpdateWhere | backend/routes/attendance.js:237-249 | the `UPDATE ... WHERE ID = @id` rewrites exactly the rows with that id and leaves every other row as it was |
| Attendance.Appended | backend/routes/attendance.js:303-334 | inserting the records for a summary appends them to its detail rows in order and leaves every other summary's details alone |
| Attendance.InsertDetails | backend/routes/attendance.js:303-334 | the record loop inserts one detail row per record, in order: the result is the appended detail table |
| Attendance.Rewrite | backend/routes/attendance.js:222-256 | the update branch rewrites summary `sid` with the new month and totals, replaces its details by the records, and leaves the other summaries and details unchanged |
| Attendance.Insert | backend/routes/attendance.js:257-282 | the insert branch appends one summary row with the new id and makes the records its details, leaving all other details unchanged |
| Attendance.InsertOrUpdate | backend/routes/attendance.js:210-342 | fails exactly for an empty month or an update without an id or with an unknown id; otherwise updates by rewriting or inserts under the next id, with the records' totals and the records as details |
| Attendance.RewriteKeepsValid | backend/routes/attendance.js:222-256 | rewriting a known summary with a proper month held by no other summary keeps ids unique, months unique and details attached |
| Attendance.InsertKeepsValid | backend/routes/attendance.js:257-282 | inserting a summary with a fresh id and a proper month held by no summary keeps the tables valid |
| Attendance.CreateWith | backend/routes/attendance.js:345-363 | any answer other than 200 leaves the tables unchanged |
| Attendance.CreateGuarded | backend/routes/attendance.js:345-363 | any answer other than 200 leaves the tables unchanged; on 200 the tables are the insert branch of `insertOrUpdate` applied to the request |
| Attendance.Create | backend/routes/attendance.js:345-363 | the route as written changes nothing unless it answers 200 |
| Attendance.CreateIntended | backend/routes/attendance.js:345-363 | the intended route changes nothing unless it answers 200 |
| Attendance.UpdateWith | backend/routes/attendance.js:366-394 | any answer other than 200 leaves the tables unchanged |
| Attendance.UpdateGuarded | backend/routes/attendance.js:366-394 | any answer other than 200 leaves the tables unchanged; on 200 the tables are the update branch of `insertOrUpdate` applied to the request |
| Attendance.Update | backend/routes/attendance.js:366-394 | the route as written changes nothing unless it answers 200 |
| Attendance.UpdateIntended | backend/routes/attendance.js:366-394 | the intended route changes nothing unless it answers 200 |
| Attendance.CreateEffect | backend/routes/attendance.js:345-363 | creating answers 200 exactly for a non-empty editable month with no summary yet, and 403 exactly for a non-empty month the guard refuses; on 200 one summary with the next id, the month and the records' totals is added, with the records as its details |
| Attendance.CreateGuardedSucceeds | backend/routes/attendance.js:345-363 | past the guard, creating answers 200 exactly when the month is non-empty, editable and not yet taken |
| Attendance.CreateGuardedRefuses | backend/routes/attendance.js:347-355 | 403 exactly for a non-empty month the guard refuses; 400 exactly for an empty month or an editable month already taken |
| Attendance.UpdateEffect | backend/routes/attendance.js:366-394 | updating a non-zero id answers 404 exactly for an unknown id past the month checks, and 200 exactly for a known id and an editable month no other summary holds; on 200 that summary is rewritten with the records |
| Attendance.UpdateGuardedSucceeds | backend/routes/attendance.js:366-390 | past the guard, updating answers 200 exactly for a non-empty editable month, a known id and no other summary holding the month |
| Attendance.UpdateGuardedRefuses | backend/routes/attendance.js:368-386 | 404 exactly for an unknown id past the month checks; 400 exactly for an empty month or a month another summary holds |
| Attendance.CreateKeepsValid | backend/routes/attendance.js:345-363 | creating through the intended route keeps the tables valid |
| Attendance.UpdateKeepsValid | backend/routes/attendance.js:366-394 | updating through the intended route keeps the tables valid |
| Attendance.CreateStoresFreshMonth | backend/routes/attendance.js:345-363 | as written, a month the guard accepts and no summary holds is stored under the next id |
| Attendance.ThirteenthMonthStored | backend/routes/attendance.js:55-65 | as written, `2024-13` is accepted in January 2025 and stored on empty tables |
| Attendance.TwoSummariesForOneMonth | backend/routes/attendance.js:345-363 | as written, `2025-01` is then stored too, so two summaries name January 2025 |
| Auth.ParseUsername | backend/routes/auth.js:44-111 | an empty name is not parsed; a name is a domain account exactly when it has a backslash inside it, an `@`, or is not a local account while a default domain is set; a domain account always has a domain and a local one keeps the name as typed |
| Auth.SplitAtLeastTwo | backend/routes/auth.js:50-53 | splitting at a separator the text contains gives at least two parts |
| Auth.PatternImpliesInner | backend/routes/auth.js:63-73 | every name the `domain\user` regular expression matches was already split by the first backslash test, so that branch decides nothing |
| Auth.BackslashSplit | backend/routes/auth.js:48-61 | for `domain\user` the domain is the non-empty text before the first backslash, the user part is non-empty, and domain, backslash and user rebuild the name typed |
| Auth.UpnSplit | backend/routes/auth.js:75-85 | for `user@domain` the user is the text before the first `@`, the domain has no `@`, and with a single `@` user, `@` and domain rebuild the name |
| Auth.LocalAccountStaysLocal | backend/routes/auth.js:87-97 | `admin` in any case stays a local account under the name typed |
| Auth.PlainNameJoinsDefaultDomain | backend/routes/auth.js:99-108 | any other plain name becomes `name@defaultDomain` on the default domain when one is set |
| Auth.Lookup | backend/routes/auth.js:184-186 | a value is found exactly when some entry has the key, and the value found is stored under it |
| Auth.FindByUserPart | backend/routes/auth.js:188-211 | a key found has the same user part as the name in any case; none is found only when no key does |
| Auth.MockVerify | backend/routes/auth.js:164-222 | the stand-in accepts only a password stored under the name itself or under a key with the same user part |
| Auth.ExactKeyFirst | backend/routes/auth.js:184-186 | a name stored under its own key with a non-empty password is checked against that password only |
| Auth.MockByUserPart | backend/routes/auth.js:188-216 | with no exact key, the first key with the same user part decides, and its own password is accepted |
| Auth.FirstFound | backend/routes/auth.js:188-211 | the key search returns the first key whose user part matches |
| Auth.LookupAt | backend/routes/auth.js:184-186 | a key that does not occur earlier looks up its own value |
| Auth.MockWrongPassword | backend/routes/auth.js:164-222 | a stored name with a wrong password is refused |
| Auth.Matching | backend/routes/auth.js:256-259 | the query returns exactly the rows with this name and password |
| Auth.VerifyLocalUser | backend/routes/auth.js:231-277 | without a user table only `admin`/`admin` is accepted, as the administrator; with one, a login succeeds exactly when a row has this name and password, under that name |
| Auth.Login | backend/routes/auth.js:341-433 | a missing name or password answers 400; success and status 200 go together; every answer is 200, 400 or 401; success carries user data and a token |
| Auth.LoginToken | backend/routes/auth.js:380-420 | the token is `DOMAIN_LOGIN` exactly for names read as domain accounts, which get role 3 and their domain; local logins carry no domain |
| Auth.LocalLoginIff | backend/routes/auth.js:395-420 | a local account logs in exactly when `verifyLocalUser` accepts it |
| Auth.DevDomainLoginIff | backend/routes/auth.js:380-394 | in development a domain name logs in exactly when the stand-in accepts its user part with the password, whatever domain was typed |
| Auth.AdminFallback | backend/routes/auth.js:244-255 | without a user table `admin` logs in exactly with password `admin`, as the administrator with a local token |
| Auth.AutoLogin | backend/routes/auth.js:279-338 | in development auto-login always succeeds with the development token; otherwise no remote-user header answers 401, and a header logs in the parsed user part with role 3 and the single-sign-on token |
| Breadcrumb.Entry | packages/frontend/src/components/Breadcrumb/src/helper.ts:19-28 | a route with exactly one child and no `alwaysShow` collapses into that child under the joined path; any other route keeps its own name and meta; either way the path is resolved against the parent path |
| Breadcrumb.Breadcrumbs | packages/frontend/src/components/Breadcrumb/src/helper.ts:3-34 | the trail is never longer than the route list |
| Breadcrumb.KeptRoutes | packages/frontend/src/components/Breadcrumb/src/helper.ts:9-17 | the reference list keeps only routes with meta that are not hidden, or hidden but reachable (`canTo`) |
| Breadcrumb.BreadcrumbsOfKept | packages/frontend/src/components/Breadcrumb/src/helper.ts:3-34 | the trail holds exactly one entry per kept route, in route order, each the entry built from that route |
| Breadcrumb.NothingKept | packages/frontend/src/components/Breadcrumb/src/helper.ts:9-17 | a list with no kept route gives an empty trail |
| Breadcrumb.EntryChildren | packages/frontend/src/components/Breadcrumb/src/helper.ts:26-28 | the children of an entry are the trail of the children it was built from, under the entry's path |
| Breadcrumb.FilterBreadcrumb | packages/frontend/src/components/Breadcrumb/src/helper.ts:3-34 | the loop with its recursive call returns exactly the trail |
| Customer.FilterOf | backend/routes/customer.js:24-30 | the status filter is `active` exactly for the text `active` and `inactive` exactly for the text `inactive`; any other value filters nothing |
| Customer.Listed | backend/routes/customer.js:6-88 | the list holds exactly the customers the status filter selects |
| Customer.ListedStatus | backend/routes/customer.js:24-30 | `status=active` lists exactly the customers shown as active, `status=inactive` exactly those shown as inactive, and any other value lists every customer |
| Customer.OrNull | backend/routes/customer.js:519-534 | `x \|\| null` is either a truthy value or null |
| Customer.OrNulls | backend/routes/customer.js:519-534 | every optional column becomes its value or null, one for one |
| Customer.OrChina | backend/routes/customer.js:525 | the stored country `x \|\| '中国'` is never empty |
| Customer.StoredUsage | backend/routes/customer.js:470-530 | the stored usage is never empty and is the given usage whenever that is non-empty text |
| Customer.ClearDefaults | backend/routes/customer.js:492-503 | clearing defaults touches only the default flag of the rows of that customer and usage (other than the excepted id) and keeps every row in place |
| Customer.SetWhereId | backend/routes/customer.js:712-716 | the `UPDATE ... WHERE 收货地址ID` edits exactly the rows with the id and keeps the others |
| Customer.DeleteWhereId | backend/routes/customer.js:772-773 | the `DELETE` leaves exactly the rows without the id |
| Customer.MaxSort | backend/routes/customer.js:505-512 | the largest sort order of the customer's addresses, attained by one of them, or 0 when the customer has none |
| Customer.CreateOutcomes | backend/routes/customer.js:453-572 | creating answers 400 exactly for an empty receiver or address, changing nothing; otherwise it appends one enabled row under the next id with the stored usage, the country or `中国`, and the optional columns or null |
| Customer.CreateSortsLast | backend/routes/customer.js:513 | without a sort order the new address sorts after every address of its customer, one past the largest |
| Customer.CreateKeepsValid | backend/routes/customer.js:453-572 | creating keeps ids unique and below the id counter |
| Customer.CreateKeepsOneDefault | backend/routes/customer.js:490-503 | a created default address is the only default of its customer and usage, and the table keeps at most one default per customer and usage |
| Customer.CreateAsWrittenKeepsOldDefault | backend/routes/customer.js:492-530 | as written, a default sent with usage `""` clears the defaults of usage `""` but is stored as `SHIP_TO`, leaving two `SHIP_TO` defaults |
| Customer.FirstWithId | backend/routes/customer.js:616-631 | the row the update reads is the first with the id |
| Customer.Edited | backend/routes/customer.js:651-716 | the edit never changes the id, the customer or the enabled flag |
| Customer.UpdateOutcomes | backend/routes/customer.js:575-738 | updating answers 400 for an empty receiver or address, 404 for an unknown id and 500 for a null usage, each changing nothing; otherwise the rows with the id get the edited columns and other rows change at most their default flag |
| Customer.UpdateDefaultIsSole | backend/routes/customer.js:633-649 | an address that is default after an update is the only default of its customer and the usage it ends up with |
| Customer.UpdateKeepsValid | backend/routes/customer.js:575-738 | updating keeps ids unique and below the id counter |
| Customer.UpdateKeepsOneDefault | backend/routes/customer.js:633-716 | with distinct ids, updating keeps at most one default per customer and usage |
| Customer.UpdateAsWrittenKeepsTwoDefaults | backend/routes/customer.js:636-706 | as written, moving a default address to another usage without sending `是否默认` keeps it default next to that usage's own default |
| Customer.DeleteOutcomes | backend/routes/customer.js:741-790 | deleting is soft exactly when outbound lines use the address, and then reports their number and only clears the enabled flag; otherwise every row with the id is removed; no other row changes |
| Customer.DeleteKeepsInvariants | backend/routes/customer.js:741-790 | deleting keeps the table valid and at most one default per customer and usage |
| Customer.DeleteWhereIdKeeps | backend/routes/customer.js:772-773 | removing rows keeps every pair of remaining rows compatible |
| Customer.FirstEnabledWithId | backend/routes/customer.js:805-824 | the row set-default reads is an enabled row with the id |
| Customer.SetDefaultOutcomes | backend/routes/customer.js:793-868 | set-default answers 404, changing nothing, exactly when no enabled address has the id; otherwise the address becomes the only default of its customer and usage and only default flags change |
| Customer.SetDefaultKeepsOneDefault | backend/routes/customer.js:793-868 | set-default keeps the table valid and at most one default per customer and usage |
| DocNumber.Serial3 | packages/backend/routes/sales-orders.js:217 | the padded serial is all digits and at least three long, and exactly three long when the serial is below 1000 |
| DocNumber.SerialWidth | packages/backend/routes/sales-orders.js:217 | a serial has three or more digits from 100 on and at most three below 1000, so padding adds zeros only below 100 |
| DocNumber.LeadingZeros | packages/backend/routes/sales-orders.js:217 | padding with zeros keeps the digits' value |
| DocNumber.Serial3Value | packages/backend/routes/sales-orders.js:204-217 | a serial below 1000 reads back from its three-digit text with `parseInt` |
| DocNumber.Format | packages/backend/routes/sales-orders.js:219-220 | a generated number starts with `PREFIX-date-` |
| DocNumber.Parse | packages/backend/routes/sales-orders.js:201-205 | a number the pattern accepts has an eight-digit date and a serial below 1000, and is exactly the formatted number of those two |
| DocNumber.ThreeDigitsOfValue | packages/backend/routes/sales-orders.js:201-205 | two three-digit serial texts with the same value are the same text |
| DocNumber.NextSerial | packages/backend/routes/sales-orders.js:196-214 | the serial handed out is at least 1 |
| DocNumber.ParseFormat | packages/backend/routes/sales-orders.js:201-220 | a formatted number with a serial below 1000 parses back to its date and serial |
| DocNumber.NextNumberContinues | packages/backend/routes/sales-orders.js:196-214 | the next serial is the latest same-day serial plus one; it is above 1 only when the latest number is well formed and of the same day; otherwise the day restarts at 1 |
| DocNumber.LongSerialNotParsed | packages/backend/routes/sales-orders.js:201 | a number with a serial of four or more digits is not recognised by the pattern |
| DocNumber.ThousandthIsNotRecognised | packages/backend/routes/sales-orders.js:196-220 | after serial 999 the next number gets serial 1000, which the pattern no longer recognises |
| Goods.ClauseText | packages/backend/routes/goods.js:93-98 | every ORDER BY clause ends with the goods id descending |
| Goods.OrderByWhitelisted | packages/backend/routes/goods.js:84-98 | the list orders by a column exactly when the field is one of the five sortable fields and the direction is asc or desc in any case, and then by that field's column |
| Goods.OrderByClauseText | packages/backend/routes/goods.js:84-98 | the chosen column comes first with ASC or DESC, and the goods id descending always breaks ties; without a column the clause is `ORDER BY g.货物ID DESC` |
| Goods.OrderByAsWrittenAgrees | packages/backend/routes/goods.js:84-98 | the lookup as written agrees with the whitelist for every field that is not an inherited member name |
| Goods.OrderByAsWrittenAcceptsInherited | packages/backend/routes/goods.js:94-97 | as written, `sortField=constructor` passes the lookup and puts a text that is no column into the clause |
| Goods.FindCustomer | packages/backend/routes/goods.js:243-259 | a customer id found belongs to a customer with that name; none is found only when no customer has it |
| Goods.SetProjectCustomer | packages/backend/routes/goods.js:294-310 | the projects with the code get the customer and mould number, every other project is unchanged |
| Goods.CreateOutcomes | packages/backend/routes/goods.js:202-413 | creating answers 400 for a missing or blank code and for a code already taken, 500 for a code that is not text, each changing nothing; otherwise it appends one row with the next id, the code and `IsNew` set, and leaves a project row for the code |
| Goods.CreateKeepsValid | packages/backend/routes/goods.js:202-413 | creating keeps ids distinct and fresh and project codes unique among goods rows |
| Goods.RemoveGoods | packages/backend/routes/goods.js:561 | the goods rows left are exactly those not removed |
| Goods.RemoveTasks | packages/backend/routes/goods.js:550-553 | the production tasks left are exactly those not removed |
| Goods.FindGoods | packages/backend/routes/goods.js:516-531 | a row found has the id and is in the table; none is found only when no row has the id |
| Goods.ParseIds | packages/backend/routes/goods.js:612-614 | every id parses to its `parseInt` value, or the list is refused because one does not |
| Goods.BatchDeleteOutcomes | packages/backend/routes/goods.js:595-676 | the batch delete answers 400, changing nothing, exactly for a missing, non-array or empty list; otherwise no listed row is left, every other row stays, and exactly the production tasks of the listed rows' codes are gone |
| Goods.DeleteOneOutcomes | packages/backend/routes/goods.js:511-592 | deleting one row fails for an id that does not parse and answers 404 for an unknown id, changing nothing; otherwise every row with the id is removed with the production tasks of its code, and nothing else |
| Goods.BatchRouteShadowed | packages/backend/routes/goods.js:511-595 | as written, `DELETE /batch` reaches the single-row handler, which fails on the id `batch`: the batch delete is never reached |
| Goods.DeleteRouteDispatch | packages/backend/routes/goods.js:511-595 | with `/batch` registered first, `/batch` reaches the batch delete and every other segment the single-row delete |
| Goods.MaxSerial | packages/backend/routes/goods.js:681-693 | the largest serial at characters 9 to 11 of the category's codes, held by one of them, or 0 when none counts |
| Goods.Codes | packages/backend/routes/goods.js:681-693 | the codes the query sees are exactly the goods rows' codes |
| Goods.NextSerial | packages/backend/routes/goods.js:677-706 | the next serial is at least 1 |
| Goods.SerialOfCode | packages/backend/routes/goods.js:681-693 | a code `JH<category>-<yy>-<nnn>` with two-character category and year matches the pattern and holds its serial at characters 9 to 11 |
| Goods.NextSerialIsFree | packages/backend/routes/goods.js:677-706 | the next serial is above every serial of the category, so a code built from it with two-character category and year is not yet taken |
| LocalUser.Or | backend/routes/user.js:84-89 | `a \|\| b` is `a` when it is truthy and `b` otherwise |
| LocalUser.ReadLocalUsers | backend/routes/user.js:13-36 | a readable file gives its users; an unreadable one gives no users; a missing one gives the example's users when the example is readable, else none |
| LocalUser.FindKey | backend/routes/user.js:54 | the key found is the first that equals the name up to case; none is found only when no key does |
| LocalUser.CurrentLocalUser | backend/routes/user.js:48-57 | the user found is stored under the key found |
| LocalUser.CurrentLocalUserSpec | backend/routes/user.js:42-57 | a user is found exactly when the header name is non-empty, not a domain name, and matches some key up to case; it is the first such key |
| LocalUser.LowerKeepsMarks | backend/routes/user.js:45-54 | the ASCII lower-casing the model uses keeps the length and keeps backslashes and at signs where they are |
| LocalUser.CaseInsensitiveLookup | backend/routes/user.js:42-57 | two header names that differ only in case find the same user |
| LocalUser.FindKeySameName | backend/routes/user.js:54 | names equal up to case find the same key |
| LocalUser.FindKeySameKeys | backend/routes/user.js:54 | the key search depends only on the keys, not on the stored users |
| LocalUser.Status | backend/routes/user.js:59-189 | the status is 200 exactly for a profile, a profile update or a password change |
| LocalUser.ProfileOf | backend/routes/user.js:79-90 | the reply carries the key as user name, the display name (or the key) as both names, and the stored contacts, role and role id or their defaults |
| LocalUser.GetProfileOutcomes | backend/routes/user.js:59-92 | a domain name gets 400, a name without a local user 404, and otherwise the profile of the user found |
| LocalUser.Edited | backend/routes/user.js:116-121 | an edit keeps every stored field and changes none but the display name, e-mail and phone number |
| LocalUser.PutProfile | backend/routes/user.js:94-138 | the users are written back exactly when the profile is updated |
| LocalUser.PutProfileOutcomes | backend/routes/user.js:94-138 | a profile edit refuses domain names and unknown users, writing nothing; on success only the current user's entry changes, keeping its other fields |
| LocalUser.PutThenGet | backend/routes/user.js:94-138 | reading the profile back after an edit gives the profile the edit replied with |
| LocalUser.JsText | backend/routes/user.js:169-180 | `String(x)` of a truthy value is non-empty, and a number text stands for a non-zero finite number |
| LocalUser.StoredText | backend/routes/user.js:169-180 | a stored `String(x)` reads back as the same text, and a truthy value is stored as a truthy value |
| LocalUser.ChangePassword | backend/routes/user.js:140-189 | the users are written back exactly when the password is changed |
| LocalUser.ChangePasswordOutcomes | backend/routes/user.js:140-189 | a password change refuses domain names and unknown users, needs both passwords and the old one to read as the stored one; on success only the user's password changes |
| LocalUser.PasswordRoundTrip | backend/routes/user.js:161-182 | after a change the new password is accepted as the old one by the next change |
| LocalUser.UnreadableFileRefuses | backend/routes/user.js:13-36 | when the users file cannot be read, every route answers 400 or 404 and writes nothing |
| OrderList.LinesWith | packages/backend/routes/sales-orders.js:371-411 | the lines of one order are among the query rows and all carry its number |
| OrderList.LinesWithEmpty | packages/backend/routes/sales-orders.js:371-411 | an order number has lines exactly when it occurs in the rows |
| OrderList.IndexOfNo | packages/backend/routes/sales-orders.js:373-390 | the group found is the first with the order number; none is found only when no group has it |
| OrderList.OkGroupIsSeen | packages/backend/routes/sales-orders.js:373-390 | a group's order number occurs in the rows |
| OrderList.AddToExisting | packages/backend/routes/sales-orders.js:389-411 | a row of an order that already has a group extends that group and keeps the grouping right |
| OrderList.AddAsNew | packages/backend/routes/sales-orders.js:373-386 | a row of a new order opens a group at the end and keeps the grouping right |
| OrderList.GroupsOfMeaning | packages/backend/routes/sales-orders.js:369-411 | the groups hold every order number once, each with exactly its own lines in row order, the header of its first line and the totals of its lines; there are as many groups as distinct order numbers |
| OrderList.FindGroup | packages/backend/routes/sales-orders.js:373-390 | the scan finds the group the map lookup finds |
| OrderList.GroupLines | packages/backend/routes/sales-orders.js:371-411 | the `forEach` builds exactly the specified grouping |
| OrderList.CompareFlips | packages/backend/routes/sales-orders.js:417-427 | the comparator is antisymmetric: swapping the groups negates it |
| OrderList.PrecedesChains | packages/backend/routes/sales-orders.js:417-427 | the order the comparator defines is transitive |
| OrderList.Insert | packages/backend/routes/sales-orders.js:417-427 | inserting a group adds exactly that group |
| OrderList.Sort | packages/backend/routes/sales-orders.js:417-427 | the sorted list is a permutation of the groups |
| OrderList.InsertKeepsOrdered | packages/backend/routes/sales-orders.js:417-427 | inserting into an ordered list keeps it ordered |
| OrderList.SortIsOrdered | packages/backend/routes/sales-orders.js:417-427 | the sorted list is ordered by the comparator |
| OrderList.SortedListOrder | packages/backend/routes/sales-orders.js:417-427 | in the sorted list dated orders come before undated ones, dated orders are newest first, and among undated orders (and, in the current version, orders of the same date) the order number descends |
| OrderList.ListPage | packages/backend/routes/sales-orders.js:417-433 | the page is the slice of the sorted groups at `(page - 1) * pageSize`, and the total is the number of distinct order numbers |
| OrderList.PageMeaning | packages/backend/routes/sales-orders.js:429-433 | a page at a non-negative offset holds at most `pageSize` orders, is the stretch of the sorted list at the offset, and every entry is a complete order of the rows |
| OrderList.SortedMember | packages/backend/routes/sales-orders.js:417-427 | sorting adds no group |
| OutboundDocument.Clamped | backend/routes/outbound-document.js:84-85 | `Math.max(parseInt(v) \|\| fallback, 1)` is at least 1, the parsed value when it is a positive number, and the fallback when it does not parse or is 0 |
| OutboundDocument.PagingOf | backend/routes/outbound-document.js:84-86 | page and page size are at least 1, and the offset is `(page - 1) * size` |
| OutboundDocument.PagingDefaults | backend/routes/outbound-document.js:80-86 | without page and page size the list shows the first twenty lines, and a page size of 0 falls back to twenty |
| OutboundDocument.PagingNegative | backend/routes/outbound-document.js:84-85 | a negative page or page size is raised to 1 |
| OutboundDocument.SortDirection | backend/routes/outbound-document.js:115 | the direction is ASC exactly when the order lowers to `asc`, DESC otherwise |
| OutboundDocument.SortWhitelisted | backend/routes/outbound-document.js:108-115 | a whitelisted field sorts by its own column and any other field by the creation time; asc in any case sorts ascending, anything else descending |
| OutboundDocument.SortFieldAsWrittenAgrees | backend/routes/outbound-document.js:108-114 | the lookup as written agrees with the whitelist for every field that is not an inherited member name |
| OutboundDocument.SortFieldAsWrittenAcceptsInherited | backend/routes/outbound-document.js:114 | as written, `sortField=constructor` passes the lookup and orders by a text that is no column |
| OutboundDocument.BindingOf | backend/routes/outbound-document.js:52-67 | the binding keeps the key and, except for null and undefined, the value |
| OutboundDocument.BindingKinds | backend/routes/outbound-document.js:52-67 | null and undefined bind a NULL text, an integral number Int, any other number Float, a boolean Bit, a date DateTime2, anything else text |
| OutboundDocument.BindParams | backend/routes/outbound-document.js:50-69 | every key, in order, gets the binding its value calls for |
| OutboundDocument.Cell | backend/routes/outbound-document.js:201-222 | a line column takes the detail's truthy value, else the body's, else NULL; the quantity uses `??` instead; a header column takes the body's value or NULL |
| OutboundDocument.NewLine | backend/routes/outbound-document.js:199-236 | the line inserted for a detail has the id and number given and every column's cell |
| OutboundDocument.NewLines | backend/routes/outbound-document.js:199-237 | one line per detail, in order, with consecutive identities |
| OutboundDocument.DocNo | backend/routes/outbound-document.js:171 | a falsy number field gives the empty number |
| OutboundDocument.Items | backend/routes/outbound-document.js:177 | without a `details` array the body itself is the only detail |
| OutboundDocument.Objects | backend/routes/outbound-document.js:199-222 | the details are the items' objects, one for one |
| OutboundDocument.Create | backend/routes/outbound-document.js:167-249 | creating answers 400 exactly for a blank number or no details, 409 exactly for a number in use, 500 exactly when a detail is not an object, each leaving the table; otherwise it appends the new lines of the details and nothing else |
| OutboundDocument.SingleLineFromBody | backend/routes/outbound-document.js:177-222 | without a `details` array the body is the only line, and its line fields are the body's own values or NULL |
| OutboundDocument.CreatedLinesKeepInvariants | backend/routes/outbound-document.js:167-249 | appending the lines of a new number keeps ids increasing and every document's lines in agreement on the header fields |
| OutboundDocument.NewLinesShareHeader | backend/routes/outbound-document.js:201-222 | any two lines inserted for the same body agree on the header fields |
| OutboundDocument.Edited | backend/routes/outbound-document.js:262-297 | `COALESCE(@c, c)`: a given non-null value replaces the column, otherwise it is kept |
| OutboundDocument.EditedSameHeader | backend/routes/outbound-document.js:279-300 | editing two lines that agree on the header fields keeps them in agreement |
| OutboundDocument.EditLines | backend/routes/outbound-document.js:279-300 | every line of the number is edited and every other line is kept |
| OutboundDocument.UpdateOutcomes | backend/routes/outbound-document.js:251-307 | updating answers 400, changing nothing, exactly for a blank number; otherwise it answers done (no 404 for an unknown number), the document's lines take the given header values and other lines stay |
| OutboundDocument.UpdateKeepsInvariants | backend/routes/outbound-document.js:251-307 | updating keeps the table valid and every document's lines in agreement |
| OutboundDocument.Filter | backend/routes/outbound-document.js:317 | the lines kept are those whose number is (or is not) the one given, in table order |
| OutboundDocument.DeleteOutcomes | backend/routes/outbound-document.js:309-323 | deleting answers 400, changing nothing, exactly for a blank number; otherwise no line of the document is left and every other line stays |
| OutboundDocument.DeleteKeepsInvariants | backend/routes/outbound-document.js:309-323 | deleting keeps the table valid and every document's lines in agreement |
| OutboundDocument.FilterKeeps | backend/routes/outbound-document.js:317 | filtering keeps the order of the lines it keeps, so a valid and consistent table stays so |
| OutboundDocument.DetailOf | backend/routes/outbound-document.js:146-165 | a document found has lines, and its header is its first line |
| OutboundDocument.DetailOutcomes | backend/routes/outbound-document.js:146-165 | the detail holds exactly the document's lines in increasing id order, and there is no document exactly when no line has the number |
| OutboundDocument.FilterIncreasing | backend/routes/outbound-document.js:155-158 | the lines of one number keep increasing ids |
| OutboundDocument.LinesWithStatus | backend/routes/outbound-document.js:331-333 | the number of lines with the status, at most the number of lines |
| OutboundDocument.StatisticsAsWritten | backend/routes/outbound-document.js:325-342 | as written, the total counts distinct numbers while the status counts count lines |
| OutboundDocument.StatisticsAsWrittenCountsLines | backend/routes/outbound-document.js:328-335 | as written, a single document of two pending lines counts one document, two of them pending |
| OutboundDocument.StatisticsBounded | backend/routes/outbound-document.js:328-335 | counting documents, no status count exceeds the number of documents, and in a consistent table the three add up to at most the documents |
| Permission.RouteNames | backend/routes/permission.js:67-74 | one route name per permission row, in table order |
| Permission.Granted | backend/routes/permission.js:78-86 | the permissions kept are exactly those whose id is granted |
| Permission.UserRoutes | backend/routes/permission.js:61-161 | `admin` gets every route name of the permission table; anyone else gets a list without repeats |
| Permission.AdminSeesAll | backend/routes/permission.js:66-75 | `admin` sees every route of the permission table |
| Permission.UserRoutesUnion | backend/routes/permission.js:77-146 | anyone else sees a route exactly when it is granted to them directly or to one of the groups the directory lists for them |
| Permission.GroupNameRoutes | backend/routes/permission.js:167-199 | the group route lists, once each, exactly the routes granted under that group name |
| Permission.Found | backend/routes/permission.js:219-225 | the existence query finds at most as many rows as the table has |
| Permission.CheckIds | backend/routes/permission.js:211-233 | an empty id list is refused as empty |
| Permission.DistinctCount | backend/routes/permission.js:227 | a list has as many distinct ids as entries exactly when none repeats |
| Permission.CheckIdsIff | backend/routes/permission.js:211-233 | with unique permission ids the check passes exactly when the list is non-empty, every id names a permission and no id repeats |
| Permission.InsertMissing | backend/routes/permission.js:235-249 | `IF NOT EXISTS ... INSERT` keeps the old rows first, adds each new row whose key is absent, leaves every new key present, and keeps keys unique |
| Permission.AssignUser | backend/routes/permission.js:206-264 | assigning answers 400, changing nothing, exactly when the id check fails; otherwise every listed permission is granted to the user once and nothing else changes |
| Permission.RemoveUser | backend/routes/permission.js:271-305 | an empty list answers 400 and changes nothing; otherwise exactly the user's grants of the listed permissions go |
| Permission.AssignGroup | backend/routes/permission.js:312-378 | group assignment refuses an empty list, then a missing group DN, then unknown ids, each with 400 and no change; otherwise every listed permission is granted to the DN once |
| Permission.RemoveGroup | backend/routes/permission.js:385-427 | an empty list or a missing group DN answers 400 and changes nothing; otherwise exactly the DN's grants of the listed permissions go |
| Permission.SubstFacts | backend/routes/permission.js:459-464 | `replace(/c/g, to)` leaves no `c` when the replacement holds none and changes nothing in a text without `c` |
| Permission.EscapeIsPerChar | backend/routes/permission.js:456-465 | the replacement chain escapes each character on its own: since the backslash goes first, no escape is escaped again |
| Permission.LayersSkip | backend/routes/permission.js:459-464 | replacements whose character the text lacks leave it alone |
| Permission.EscapesSurviveLaterLayers | backend/routes/permission.js:459-464 | no escape holds the character of a later replacement |
| Permission.EscapeRoundTrip | backend/routes/permission.js:456-465 | an escaped value holds no `*`, parenthesis, slash or NUL, and reading its escapes back gives the value |
| Permission.UnescapeStep | backend/routes/permission.js:456-465 | reading back the escape of one character followed by more text gives the character followed by what the rest reads back as |
| Permission.UserFilterWildcard | backend/routes/permission.js:95 | as written, the name `*` makes the presence filter `(sAMAccountName=*)`, not an equality filter for that name |
| Permission.UserFilterExact | backend/routes/permission.js:95 | with the name escaped, the filter is an equality filter for exactly that name |
| Permission.MockAdUsers | backend/routes/permission.js:543-584 | without a keyword every development user is listed; with one, exactly those whose lower-cased user name contains the lower-cased keyword or whose display name contains it |
| Permission.PageStart | backend/routes/permission.js:631 | for a page from 1 and a non-negative size the page starts at a non-negative index |
| Permission.PageMeaning | backend/routes/permission.js:631-633 | a page holds at most `pageSize` entries, the ones from `(page - 1) * pageSize` on, and is empty past the end |
| ProductionTask.OrderByWhitelisted | backend/routes/production-task.js:11-26 | an ORDER BY on a column is built exactly when the field is one of the three sortable names and the lower-cased direction is `asc` or `desc`, and then it uses that name's mapped column |
| ProductionTask.DirectionIgnoresCase | backend/routes/production-task.js:21 | the direction is compared after lower-casing, so `DESC` sorts like `desc` |
| ProductionTask.OrderByAsWrittenAgrees | backend/routes/production-task.js:11-26 | the object lookup as written agrees with the whitelist for every field that is not a member every object inherits |
| ProductionTask.OrderByAsWrittenAcceptsInherited | backend/routes/production-task.js:20-24 | as written, the field `constructor` passes the lookup and yields a column outside the whitelist |
| ProductionTask.ListedTasks | backend/routes/production-task.js:72-80 | the list holds exactly the tasks the status condition selects |
| ProductionTask.DefaultHidesCompleted | backend/routes/production-task.js:72-80 | without a status the list shows every task not marked completed, tasks without a status included; with one, exactly the tasks of that status |
| ProductionTask.CountStatus | backend/routes/production-task.js:167-169 | a status count never exceeds the number of tasks |
| ProductionTask.StatisticsBounded | backend/routes/production-task.js:163-185 | in-progress, completed and pending together never exceed the total |
| ProductionTask.Detail | backend/routes/production-task.js:197-268 | a missing code is refused, an unknown code answers 404, and a found task carries the code asked for |
| ProductionTask.UpdateOutcomes | backend/routes/production-task.js:278-340 | update refuses a missing code, then a body with no editable defined field, changing nothing; otherwise it sets exactly the defined editable fields of the tasks with that code |
| ProductionTask.RemoveCode | backend/routes/production-task.js:367 | the DELETE keeps exactly the tasks with another code |
| ProductionTask.DeleteOutcomes | backend/routes/production-task.js:357-375 | delete refuses a missing code and changes nothing; otherwise exactly the tasks with that code go |
| ProjectInfo.Taken | backend/routes/project.js:110-116 | the key loop keeps at most as many pairs as the body has |
| ProjectInfo.TakenMembers | backend/routes/project.js:110-116 | a pair is kept exactly when it is in the body and its value is taken (insert: not undefined, null or empty text; update: not the project code key and not undefined or null) |
| ProjectInfo.ParamsOfKeys | backend/routes/project.js:114 | the parameter object has exactly the keys of the kept pairs |
| ProjectInfo.TakenDistinct | backend/routes/project.js:110-116 | keys stay distinct after filtering |
| ProjectInfo.TakenParams | backend/routes/project.js:110-116 | a body key is a parameter exactly when its value is taken, and then the parameter holds that value |
| ProjectInfo.InsertFields | backend/routes/project.js:106-116 | the loop builds one `[key]` column and one `@key` placeholder per kept pair, in key order, and the parameters of exactly those pairs |
| ProjectInfo.InsertOutcomes | backend/routes/project.js:101-136 | 400 without change exactly when no value is taken; 500 without change when a taken key is no column; otherwise one row is appended that holds exactly the taken keys with their values |
| ProjectInfo.UpdateFields | backend/routes/project.js:154-162 | the loop builds one `[key] = @key` assignment per kept pair, in key order, and the parameters are `projectCode` overridden by the kept pairs |
| ProjectInfo.UpdateOutcomes | backend/routes/project.js:148-183 | 400 without change exactly when nothing is taken; 500 without change when a taken key is no column; otherwise the project's rows take the given values, the empty text included, other rows stay and no project code changes |
| ProjectInfo.UpdateCodeFromBody | backend/routes/project.js:155-160 | a body key `projectCode` overwrites the route parameter, and since it is no column the statement fails |
| ProjectInfo.Detail | backend/routes/project.js:70-89 | 404 exactly when no row has the code; otherwise a row of the table with that code |
| ProjectInfo.Delete | backend/routes/project.js:195-207 | the rows kept are exactly those with another code |
| Quotation.GenerateNo | backend/routes/quotation.js:123-183 | the number is the shared daily `BJ-YYYYMMDD-NNN` rule applied to the latest stored number, and without one it is serial 001 of today |
| Quotation.GeneratedNumber | backend/routes/quotation.js:143-180 | a latest number of today that parses gives its serial plus one; none gives 1; a serial above 1 always continues today's latest number; below 1000 the result parses back to today and that serial |
| Quotation.LineFeeExact | backend/routes/quotation.js:311-318 | a line fee is a finite number exactly when both its price and its quantity read as finite, and then it is their product |
| Quotation.ItemsTotalExact | backend/routes/quotation.js:311-318 | over finite lines the reduce gives the exact sum of the line fees |
| Quotation.PriceOfNumbers | backend/routes/quotation.js:311-320 | when both line totals are finite numbers and both fees are numeric, the tax-included price is the sum of the two totals and the two fees |
| Quotation.TextFeeConcatenates | backend/routes/quotation.js:319-320 | a non-empty text fee turns `+` into string concatenation, so the price is a text |
| Quotation.IntOr | backend/routes/quotation.js:43-44 | `parseInt(v) \|\| fallback` is never 0 unless the fallback is |
| Quotation.PagingDefaults | backend/routes/quotation.js:43-45 | page and size are never 0, the offset is `(page - 1) * size`, and missing values give page 1 of 20 |
| Quotation.PagingOfText | backend/routes/quotation.js:43-45 | positive numbers given as text are used as they are |
| Quotation.IntOrOfText | backend/routes/quotation.js:43 | `parseInt` of the decimal text of a positive number gives that number |
| Quotation.PageZeroIsFirst | backend/routes/quotation.js:43 | page `0` falls back to page 1 |
| Quotation.FirstFalsy | backend/routes/quotation.js:223-293 | the first required field that is missing, if any, and every field before it is present |
| Quotation.CreateOutcomes | backend/routes/quotation.js:201-309 | create refuses the first missing one of the eight required fields, then a number already stored, each with 400 and no change; otherwise it saves |
| Quotation.CreateAppends | backend/routes/quotation.js:311-376 | a saved quotation is appended with the next id, the request's fields and the computed price, and nothing stored before changes |
| Quotation.CreateKeepsValid | backend/routes/quotation.js:201-376 | ids stay unique and below the next id, and numbers stay unique |
| Quotation.UpdateOutcomes | backend/routes/quotation.js:392-450 | update refuses a missing number (400), then an unknown id (404), then a number used by another quotation (400), changing nothing; otherwise it saves |
| Quotation.UpdateRewrites | backend/routes/quotation.js:452-518 | a save rewrites only the quotation with that id, with the request's fields and the computed price, keeping every id |
| Quotation.UpdateKeepsValid | backend/routes/quotation.js:392-518 | ids stay unique and below the next id, and numbers stay unique |
| Quotation.CellOf | backend/routes/quotation.js:622-631 | `setCell` blanks exactly undefined, null and the empty text, and writes numbers as numbers |
| Quotation.NumberOr0 | backend/routes/quotation.js:654-655 | `Number(v) \|\| 0` is never NaN |
| Quotation.ExportQuantity | backend/routes/quotation.js:597 | the exported quantity is neither NaN nor 0 |
| Quotation.PutMaterialRowAt | backend/routes/quotation.js:652-661 | writing a material row changes only columns C, E, F and G of that row |
| Quotation.PutProcessRowAt | backend/routes/quotation.js:664-671 | writing a process row changes only columns F and G of that row |
| Quotation.Export | backend/routes/quotation.js:619-675 | every cell of the exported sheet is the cell the fill order leaves: header cells, the two material rows, one row per process from row 14, then the fees and quantity, and template cells elsewhere |
| Quotation.ProcessRowsShown | backend/routes/quotation.js:664-671 | with at most ten processes, process `i` shows its hours and fee in row `14 + i` |
| Quotation.MaterialsAndTotalsShown | backend/routes/quotation.js:650-675 | material rows 8 and 9 show the name and fee of the first two materials, 0 for a missing one, and G24, G25 and C26 show the other fee, the transport fee and the quantity |
| Quotation.UnwrittenCellsKept | backend/routes/quotation.js:619-675 | a cell the export does not write keeps the template's value |
| Quotation.ProcessesOverflowIntoTotals | backend/routes/quotation.js:664-675 | an eleventh process writes its hours into F24, and the other fee then overwrites its fee in G24 |
| RequestConfig.StopAt | src/axios/config.ts:28-29 | the index of the first stop character, with none before it, or the length when there is none |
| RequestConfig.PathAndSearch | src/axios/config.ts:25-33 | an absolute URL that parses is cut to a path and query that start with `/` or `?` and hold no fragment |
| RequestConfig.BaseUrlOfAbsolute | src/axios/config.ts:23-33 | a relative URL is kept; an absolute one that parses is reduced to its path and query |
| RequestConfig.PathAndSearchOfParts | src/axios/config.ts:25-33 | an `http` URL made of a host, a path starting with `/`, a query longer than a bare `?` and a fragment is cut to exactly the path and the query |
| RequestConfig.Pieces | src/axios/config.ts:35-40 | at most one `key=value` piece per parameter |
| RequestConfig.AppendedIsJoin | src/axios/config.ts:36-41 | appending `piece&` per parameter and dropping the last character joins the pieces with `&` |
| RequestConfig.GetUrlShape | src/axios/config.ts:22-43 | a GET URL is the base followed by `&` or `?` and the given parameters joined by `&`, or the bare base when none is given |
| RequestConfig.PiecesStep | src/axios/config.ts:36-40 | each loop step appends `key=encoded&` exactly for a parameter that is neither undefined nor null |
| RequestConfig.UngivenLeaveNothing | src/axios/config.ts:37 | parameters that are all undefined or null add nothing |
| RequestConfig.QueryOf | src/axios/config.ts:35-40 | the loop builds exactly the appended pieces |
| RequestConfig.EncodedBody | src/axios/config.ts:9-21 | only posts are re-encoded, and a URL-encoded post becomes a query string |
| RequestConfig.Request.Intercept | src/axios/config.ts:8-46 | the body is encoded as above; a GET with parameters gets the URL built from them and an emptied parameter object; anything else keeps its URL and parameters |
| RequestConfig.RespondOutcomes | src/axios/config.ts:48-63 | files pass whole; others give their body; an error is shown exactly when the code is neither the success code nor 200; the user is logged out exactly when that code is 401 |
| RouteStore.RouterMapCases | src/store/modules/permission.ts:45-61 | static uses the whole async table; server uses it too for missing or empty records and otherwise builds from the records; front-end builds from the names, or from nothing when there are none |
| RouteStore.AddRouters | src/store/modules/permission.ts:63-73 | the added routes are the generated ones followed by the catch-all 404 route, last |
| RouteStore.MenuRouters | src/store/modules/permission.ts:75 | the menu routes are the constant routes followed by the generated ones |
| RouteStore.GeneratedTablesAgree | src/store/modules/permission.ts:63-75 | after generation the menu is the constant routes plus every added route except the catch-all |
| RouteStore.PermissionStore.constructor | src/store/modules/permission.ts:19-24 | the store starts with empty tables, no tab routes and the added flag off |
| RouteStore.PermissionStore.GenerateRoutes | src/store/modules/permission.ts:40-78 | both tables are rebuilt from the chosen route source, nothing else changes, and the tables agree afterwards |
| RouteStore.PermissionStore.SetIsAddRouters | src/store/modules/permission.ts:79-81 | only the added flag changes, and the getter reads it back |
| RouteStore.PermissionStore.SetMenuTabRouters | src/store/modules/permission.ts:82-84 | only the tab routes change |
| RouterGuard.AllowedIff | src/permission.ts:104-144 | a logged-in user may open a page exactly when they are `admin`, the page has no name or a name that needs no permission, they hold its name, or their permission list is empty in a development build |
| RouterGuard.RefusedRoutes | src/permission.ts:126-143 | a page outside a non-empty permission list is refused; with an empty list it is allowed exactly in a development build |
| RouterGuard.EventResult | src/permission.ts:66-88 | only a load with page text settles with a response, the parsed text; the timer, an error and an empty page settle with `null` |
| RouterGuard.IframeLogin.constructor | src/permission.ts:43-47 | the attempt starts unfinished, with the iframe attached |
| RouterGuard.IframeLogin.Finish | src/permission.ts:55-60 | the first finish settles the attempt and removes the iframe; later ones change nothing |
| RouterGuard.IframeLogin.Handle | src/permission.ts:62-88 | each event finishes the attempt with its result, and once finished nothing changes |
| RouterGuard.AutoLoginByIframe | src/permission.ts:36-92 | without a document the attempt resolves `null` at once; otherwise it settles with what the first event gives |
| RouterGuard.SettledByFirst | src/permission.ts:55-60 | events after the first never change the result |
| RouterGuard.LoggedInRedirects | src/permission.ts:100-143 | a logged-in user going to the login page is sent home and one refused a page goes to 403, with nothing changed |
| RouterGuard.RoutesAddedOnce | src/permission.ts:146-175 | an allowed page generates routes only while none were added and then marks them added, otherwise it just proceeds; the user, token and auto-login flag stay |
| RouterGuard.LoggedOutOutcomes | src/permission.ts:177-251 | a logged-out visitor reaches a whitelisted path; elsewhere, unless a first auto-login succeeds, they end on the login page with the target as redirect; a success logs them in, clears the flag, adds routes and replays the navigation |
| RouterGuard.AutoLoginAtMostOnce | src/permission.ts:181-184 | while the visitor stays logged out, a run of navigations tries the auto-login at most once, and never when it was already tried |
| RouterGuard.Session.constructor | src/permission.ts:94-99 | a session starts logged out, without token, role routes or an auto-login attempt |
| RouterGuard.Session.BeforeEach | src/permission.ts:94-253 | the guard's outcome, new flags and generated tables are those of the guard function, and the iframe result is used only when the guard tries the auto-login |
| SortClause.MemberText | packages/backend/routes/goods.js:97 | an inherited member placed in a template string never gives empty text |
| SortClause.PropertyText | packages/backend/routes/goods.js:94 | the own-key reading finds exactly the whitelist's keys with their columns; the reading as written can also find an inherited member, and nothing else outside the whitelist |
| SortClause.ReadingsAgree | packages/backend/routes/goods.js:94 | both readings agree on every key the whitelist has and on every name that is not inherited |
| SortClause.ConstructorText | packages/backend/routes/goods.js:94-97 | `constructor` read from a whitelist without it is the native function's text, starting with `f` |
| SortClause.AscSpellings | packages/backend/routes/goods.js:95-97 | `asc`, `ASC` and `Asc` all lower-case to `asc` |
| SortClause.DescSpellings | packages/backend/routes/goods.js:95-97 | `desc`, `DESC` and `Desc` all lower-case to `desc`, and a missing direction gives empty text |
| SortClause.UpperDirections | packages/backend/routes/goods.js:97 | upper-casing the accepted directions gives `ASC` and `DESC` |
| Salary.ToNumberOrNull | backend/routes/salary.js:49-53 | a read amount is never NaN |
| Salary.NumberIsItsOwnAmount | backend/routes/salary.js:49-53 | a number reads as itself, and NaN as no amount |
| Salary.BlankIsNullSpaceIsZero | backend/routes/salary.js:50-51 | the empty text is no amount, but a text of spaces is 0 |
| Salary.SafeMoney | backend/routes/salary.js:81 | `?? 0` keeps a finite amount and turns no amount into 0, never NaN |
| Salary.ToNumberOrZero | backend/routes/salary.js:55-58 | never NaN, and 0 whenever there is no amount |
| Salary.Round2 | backend/routes/salary.js:82 | a finite number rounds to whole cents within half a cent; NaN and the infinities stay as they are |
| Salary.NegativeMoney | backend/routes/salary.js:65-70 | a deduction keeps "no amount", is never positive, and is minus the entered amount's size rounded to the cent |
| Salary.NegativeMoneyInCents | backend/routes/salary.js:68-69 | a stored deduction is whole cents |
| Salary.ToNegativeMoney | backend/routes/salary.js:65-70 | no amount exactly when the input reads as none, otherwise never positive |
| Salary.NegativeMoneyIdempotent | backend/routes/salary.js:65-70 | saving a stored deduction again gives it back unchanged |
| Salary.MoneyOf | backend/routes/salary.js:60-63 | `toMoney` of a computed number is `toNumberOrNull` of it |
| Salary.PayablesOfFinite | backend/routes/salary.js:457-477 | with finite amounts the first payable is first pay plus the three fees, the second is second pay less the tax, and the two-payable total is their sum |
| Salary.Normalize | backend/routes/salary.js:456-510 | a row in normal form keeps its allowance and deduction counts, has every fee and deduction non-positive, and stores payables computed from its own amounts |
| Salary.DeductionsOf | backend/routes/salary.js:489-495 | the seven deduction fields are stored through `toNegativeMoney`: one amount per field, each missing or non-positive |
| Salary.StoredPayablesAdd | backend/routes/salary.js:463-477 | a stored row with finite pay, tax and fees has a two-payable total equal to its first plus second payable |
| Salary.SummaryTotals | backend/routes/salary.js:80-109 | the head count is the number of rows |
| Salary.ColumnSumIsExact | backend/routes/salary.js:87-97 | a column of finite amounts sums to its exact sum |
| Salary.NormalizeAll | backend/routes/salary.js:456-510 | one normal-form row per input row, in order, each with stored payables |
| Salary.StoredTotals | backend/routes/salary.js:80-109 | over stored rows the head count is the row count and the payable totals are the cent-rounded column sums, the two-payable total being the rounded sum of the first and second columns |
| Salary.PayableColumns | backend/routes/salary.js:95-97 | when every row's payables add up, the two-payable column sums to the first plus the second |
| Salary.PaddedMonthIsValid | backend/routes/salary.js:111 | a zero-padded year below 10000 and month below 100 pass the `YYYY-MM` check |
| Salary.FirstWithMonth | backend/routes/salary.js:129-133 | the row `TOP 1` finds has that month, and none is found exactly when no row has it |
| Salary.FirstWithId | backend/routes/salary.js:441 | the row `TOP 1` finds has that id, and none is found exactly when no row has it |
| Salary.NextId | backend/routes/salary.js:146-151 | a new summary's identity is at least 1 and above every existing id |
| Salary.Update | backend/routes/salary.js:155-161 | an `UPDATE ... WHERE ID` changes exactly the rows with that id |
| Salary.DetailsOf | backend/routes/salary.js:166 | a summary's details are exactly the detail rows with its id |
| Salary.Without | backend/routes/salary.js:166 | the DELETE keeps exactly the details of other summaries |
| Salary.DetailsOfReplaced | backend/routes/salary.js:452-580 | replacing one summary's details leaves every other summary's details as they were |
| Salary.DetailsOfOwn | backend/routes/salary.js:452-580 | after the replacement a summary's details are exactly the new rows, in order |
| Salary.Selected | backend/routes/salary.js:168-188 | step 1 lists exactly the named employees, or when none is named those in service |
| Salary.BlankDetails | backend/routes/salary.js:192-212 | one blank detail per employee, in order, for that summary |
| Salary.OpenMonthEffect | backend/routes/salary.js:129-162 | opening a month that is not completed gives it a draft summary at step 1 or later, keeps the other summaries and their unique ids, and never picks a completed summary |
| Salary.Step1 | backend/routes/salary.js:118-229 | step 1 fails exactly for a malformed month, a completed month or an empty employee selection, and never changes the employees |
| Salary.Step1Summaries | backend/routes/salary.js:118-229 | after step 1 the month's summary is a draft at step 1 or later with the selected head count; every other summary is kept and the store stays valid |
| Salary.SetCount | backend/routes/salary.js:214-221 | only the summary with that id gets the new head count |
| Salary.Step1Details | backend/routes/salary.js:164-212 | after step 1 the month's details are exactly one blank row per selected employee, and every other summary's details are unchanged |
| Salary.Step2 | backend/routes/salary.js:424-631 | a refused step 2 changes nothing |
| Salary.Step2Effect | backend/routes/salary.js:424-631 | step 2 saves exactly when there are rows and the summary exists and is not completed, answers 404 for an unknown summary, and a save stores the rows in normal form, in order, with their totals at step 2 |
| Salary.Step3 | backend/routes/salary.js:634-651 | a summary not completed moves to step 3; everything else stays |
| Salary.Complete | backend/routes/salary.js:654-676 | 404 without change exactly for an unknown id; otherwise the summary ends completed and the details stay |
| Salary.CompleteIdempotent | backend/routes/salary.js:659-670 | completing twice is completing once |
| Salary.Delete | backend/routes/salary.js:679-689 | exactly the summary with that id goes, its details go with it, and the employees stay |
| Salary.KeepOthers | backend/routes/salary.js:683 | the kept summaries are exactly the others, and ids stay unique |
| Salary.Step1KeepsCompleted | backend/routes/salary.js:139-141 | step 1 keeps the store valid and every completed month with its details |
| Salary.Step2KeepsCompleted | backend/routes/salary.js:447-450 | step 2 keeps the store valid and every completed month with its details |
| Salary.Step3KeepsCompleted | backend/routes/salary.js:642 | step 3 keeps the store valid and every completed month with its details |
| Salary.CompleteKeepsCompleted | backend/routes/salary.js:654-676 | completion keeps the store valid and every completed month with its details |
| Salary.DeleteKeepsOthers | backend/routes/salary.js:679-689 | deleting keeps the store valid and every other completed month with its details |
| Salary.IsSecondBatch | backend/routes/salary.js:973-974 | a missing batch is the first; the number 2 is the second; the second batch always reads as 2 |
| Salary.WrittenRows | backend/routes/salary.js:980-997 | at most one written row per input row |
| Salary.SheetLines | backend/routes/salary.js:979-1011 | the k-th written row goes on sheet row k + 2 |
| Salary.WrittenRowsMembers | backend/routes/salary.js:980-997 | exactly the rows with a name, and in the first batch with some fee, are written |
| Salary.SheetLinesMeaning | backend/routes/salary.js:979-1011 | every line has a name and the identity-card type; in the second batch its fees are 0, and in the first they are never all 0 |
| Salary.ExportRow | backend/routes/salary.js:981-1009 | one loop pass writes a row exactly when it passes the filter, and then builds its line for the current sheet row |
| Salary.ExportTaxSheet | backend/routes/salary.js:967-1012 | 400 with no lines for no rows; otherwise the lines of the written rows from sheet row 2 |
| Salary.TaxFileName | backend/routes/salary.js:1014-1015 | the file name starts with the batch, ends in `.xlsx`, and says `模板` when no month is given |
| Salary.ParseMoney | backend/routes/salary.js:1066-1073 | a read tax is never NaN, and a number cell is read exactly when it is finite |
| Salary.CommaIgnored | backend/routes/salary.js:1071 | a thousands separator is ignored: `12,345` reads as `12345` |
| Salary.DigitsParse | backend/routes/salary.js:1066-1073 | a plain decimal integer reads as its value |
| Salary.TaxItems | backend/routes/salary.js:1080-1091 | at most one item per sheet row, each with a name and an identity number |
| Salary.ReadRow | backend/routes/salary.js:1081-1090 | one pass keeps a row exactly when it has both a name and an identity number |
| Salary.ReadTaxSheet | backend/routes/salary.js:1033-1098 | 400 with no items exactly without a file, for another extension, without the declaration sheet or for an empty sheet; otherwise the items of the rows from row 9, or from the sheet's first row when that is later |
| SalesOrders.CategoryOf | packages/backend/routes/sales-orders.js:34-41 | the category is one of the four names, and an empty project code is `其他` |
| SalesOrders.UpperIsIdempotent | packages/backend/routes/sales-orders.js:36 | upper-casing twice is upper-casing once |
| SalesOrders.CategoryIgnoresCaseAndSpaces | packages/backend/routes/sales-orders.js:34-41 | the category of a code does not change when the code is trimmed and upper-cased first |
| SalesOrders.ReplaceUnsafe | packages/backend/routes/sales-orders.js:49 | exactly the path-unsafe characters `/ \ ? % * : \| " < >` become `_`, and the length stays |
| SalesOrders.SafeProjectCodeForPath | packages/backend/routes/sales-orders.js:45-50 | the result holds no path-unsafe character; an empty code gives `UNKNOWN`; otherwise it is the trimmed code with unsafe characters replaced by `_` |
| SalesOrders.BlankCodeIsEmptySegment | packages/backend/routes/sales-orders.js:46-48 | a code of spaces passes the emptiness test and then trims to an empty path segment |
| SalesOrders.SafeCodeIsStable | packages/backend/routes/sales-orders.js:45-50 | applying the rule to its own non-empty result changes nothing |
| SalesOrders.DatePrefix | packages/backend/routes/sales-orders.js:75 | the date pattern reads a four-digit year and a month and day of one or two digits |
| SalesOrders.DatePrefixReads | packages/backend/routes/sales-orders.js:75 | a text that starts with `YYYY-M-D`, with `-` or `/` between and no digit after, reads as those three parts |
| SalesOrders.DateTextCompacts | packages/backend/routes/sales-orders.js:71-86 | such a text becomes eight digits: the year, then the month and the day padded to two digits, whatever the date parser would say |
| SalesOrders.Compacted | packages/backend/routes/sales-orders.js:77 | the padded pieces make eight digits holding the same year, month and day values |
| SalesOrders.PaddedValue | packages/backend/routes/sales-orders.js:77 | `padStart(2, '0')` of one or two digits gives two digits of the same value |
| SalesOrders.PositiveId | packages/backend/routes/sales-orders.js:1137-1138 | only whole positive numbers are kept as ids |
| SalesOrders.NormalizedIds | packages/backend/routes/sales-orders.js:1136-1139 | every kept id is a line of the source order |
| SalesOrders.Selected | packages/backend/routes/sales-orders.js:1133-1145 | at most one new group per requested group, each with a non-empty key other than `origin` and at least one id |
| SalesOrders.MovedWithin | packages/backend/routes/sales-orders.js:1131-1147 | the moved ids are lines of the source order, and there are some exactly when some group is kept |
| SalesOrders.MovedMembers | packages/backend/routes/sales-orders.js:1143 | an id is moved exactly when a kept group lists it |
| SalesOrders.SelectGroups | packages/backend/routes/sales-orders.js:1131-1145 | the loop collects exactly the kept groups and the set of their ids |
| SalesOrders.SerialOf | packages/backend/routes/sales-orders.js:1173-1179 | a serial read from an `XS-date-NNN` number is below 1000 |
| SalesOrders.LastSerialIsMax | packages/backend/routes/sales-orders.js:1173-1181 | the last serial is at least the serial of every number of that date |
| SalesOrders.SerialOfFormat | packages/backend/routes/sales-orders.js:1175-1178 | a number formatted for the date with serial k reads back as k |
| SalesOrders.CreatedOf | packages/backend/routes/sales-orders.js:1183-1192 | one created order per new group, in order, with the group's key, ids and its numbered order number |
| SalesOrders.FormattedIsUnused | packages/backend/routes/sales-orders.js:1173-1185 | a serial above the last one of the date formats to a number no row has |
| SalesOrders.CreatedIsFresh | packages/backend/routes/sales-orders.js:1183-1190 | while serials stay below 1000 the i-th new number is serial last + 1 + i of the date and no row has it |
| SalesOrders.Moved | packages/backend/routes/sales-orders.js:1220-1241 | one group's updates move exactly the source order's rows of its ids to its new number |
| SalesOrders.MoveDetails | packages/backend/routes/sales-orders.js:1195-1242 | the loop gives the lines and attachments the new numbers of every group in turn |
| SalesOrders.AppliedEntry | packages/backend/routes/sales-orders.js:1195-1242 | a row of the source order whose id a group lists takes the first such group's number; other rows stay |
| SalesOrders.FirstGroupFound | packages/backend/routes/sales-orders.js:1195-1242 | a first group is found for an id exactly when some group lists it |
| SalesOrders.FirstRowOf | packages/backend/routes/sales-orders.js:1110-1124 | the first row with that number, or none exactly when no row has it |
| SalesOrders.SplitSpec | packages/backend/routes/sales-orders.js:1095-1263 | a refused split answers 400 or 404 |
| SalesOrders.Split | packages/backend/routes/sales-orders.js:1095-1263 | the route computes exactly the split specification |
| SalesOrders.SomeStay | packages/backend/routes/sales-orders.js:1154 | `all - moved >= 1` holds exactly when some line is not moved |
| SalesOrders.SplitOutcomes | packages/backend/routes/sales-orders.js:1099-1160 | 404 exactly for a non-empty number and group list and no such order; success exactly when moreover some line moves and some line stays |
| SalesOrders.SplitCreates | packages/backend/routes/sales-orders.js:1183-1192 | a successful split creates the orders computed from the groups and the source's date |
| SalesOrders.CreatedAreDistinct | packages/backend/routes/sales-orders.js:1183-1190 | two new orders never share a number |
| SalesOrders.SplitNumbersAreFresh | packages/backend/routes/sales-orders.js:1166-1192 | each new number is the next serial of the date and no row had it |
| SalesOrders.SplitMovesEntries | packages/backend/routes/sales-orders.js:1195-1242 | after a split every line or attachment of the source order whose id a group lists carries that group's new number, and everything else is unchanged |
| SalesOrders.SplitKeepsSource | packages/backend/routes/sales-orders.js:1154-1160 | after a split the source order still has a line |
| SalesOrders.StayingLine | packages/backend/routes/sales-orders.js:1154 | a successful split leaves at least one line of the source unmoved |
| LegacySalesOrders.Flag | backend/routes/sales-orders.js:504-505 | a flag is stored as 1 exactly for a truthy value and as 0 otherwise |
| LegacySalesOrders.InsertValue | backend/routes/sales-orders.js:491-508 | the customer id is stored as given; amounts, price and quantity fall back to 0; the two flags become 1 or 0; every other column falls back to null |
| LegacySalesOrders.NewRowCells | backend/routes/sales-orders.js:480-510 | a new line has the next id, the order number, and every header and line column stored by that rule |
| LegacySalesOrders.Inserted | backend/routes/sales-orders.js:480-510 | one new line per detail, in order, with consecutive ids and the order's number |
| LegacySalesOrders.ItemCodes | backend/routes/sales-orders.js:512-515 | only truthy item codes are collected |
| LegacySalesOrders.ClearNew | backend/routes/sales-orders.js:519-530 | exactly the goods whose code was collected lose their new mark |
| LegacySalesOrders.LinesOf | backend/routes/sales-orders.js:460-466 | an order's lines all carry its number |
| LegacySalesOrders.CreateSpec | backend/routes/sales-orders.js:433-548 | create answers 0 or 400, and a 400 changes nothing |
| LegacySalesOrders.Create | backend/routes/sales-orders.js:433-548 | the route computes exactly the create specification |
| LegacySalesOrders.InsertDetails | backend/routes/sales-orders.js:480-516 | the loop inserts exactly the specified lines and collects exactly the truthy item codes |
| LegacySalesOrders.FindOrder | backend/routes/sales-orders.js:460-468 | an order is found exactly when a line has its number |
| LegacySalesOrders.CreateOutcomes | backend/routes/sales-orders.js:437-475 | 400 exactly for a missing number, a missing customer, no details, or a number already used |
| LegacySalesOrders.CreateAddsOrder | backend/routes/sales-orders.js:480-510 | a created order appends exactly its lines, with fresh ids, and the order then has one line per detail |
| LegacySalesOrders.CreatedLine | backend/routes/sales-orders.js:480-510 | the k-th new line has id first + k and every column stored by the insert rule |
| LegacySalesOrders.CreateClearsNew | backend/routes/sales-orders.js:519-537 | unless that update fails, which the route ignores, the goods of the collected codes lose their new mark and other goods stay |
| LegacySalesOrders.UpdateValue | backend/routes/sales-orders.js:585-668 | the flags become 1 or 0; dates, remark, cost source and handler fall back to null; every other column is written as given |
| LegacySalesOrders.SetsForEffect | backend/routes/sales-orders.js:622-668 | a column is set exactly when it is listed and given, to its stored value; other columns stay |
| LegacySalesOrders.RowsAfter | backend/routes/sales-orders.js:602-677 | each row is updated on its own |
| LegacySalesOrders.HeaderUpdate | backend/routes/sales-orders.js:602-609 | the header update touches each row on its own |
| LegacySalesOrders.DetailUpdate | backend/routes/sales-orders.js:669-677 | a line update touches each row on its own |
| LegacySalesOrders.RowAfterMeaning | backend/routes/sales-orders.js:585-677 | after an update a cell holds the last value a detail with the row's id gave it, else the header's value on the order's rows, else its old value; ids and order numbers stay |
| LegacySalesOrders.FirstMissingId | backend/routes/sales-orders.js:612-620 | the first detail without an id, every detail before it having one |
| LegacySalesOrders.UpdateAsWritten | backend/routes/sales-orders.js:560-693 | as written, update answers 0 or 400 |
| LegacySalesOrders.UpdateSpec | backend/routes/sales-orders.js:560-693 | update answers 0 or 400, a 400 changes nothing, and the ids, goods and row count stay |
| LegacySalesOrders.Update | backend/routes/sales-orders.js:560-693 | the route as written: the header UPDATE first, then each detail in turn, a detail without an id answering 400 with the writes before it kept |
| LegacySalesOrders.UpdateOutcomes | backend/routes/sales-orders.js:564-677 | 400 exactly for a missing number, no details, or a detail without an id, and in the last case the header and the details before the first missing id are already written; otherwise every row is updated as described |
| LegacySalesOrders.UpdateIntendedOutcomes | backend/routes/sales-orders.js:602-620 | the intended route rejects exactly the requests the route as written rejects, then writes nothing; when it succeeds it agrees with the route as written |
| LegacySalesOrders.PartialUpdateOnMissingId | backend/routes/sales-orders.js:602-620 | as written, a detail without an id answers 400 after the header update has already been written |
| LegacySalesOrders.Without | backend/routes/sales-orders.js:736-741 | no kept line has the deleted number |
| LegacySalesOrders.DeleteSpec | backend/routes/sales-orders.js:696-746 | delete answers 0, 400 or 404, and only 0 changes anything |
| LegacySalesOrders.WithoutKeepsOthers | backend/routes/sales-orders.js:736-741 | exactly the other orders' lines are kept, and the removed count is the order's line count |
| LegacySalesOrders.DeleteOutcomes | backend/routes/sales-orders.js:696-746 | 404 exactly for a number no line has; a delete removes exactly that order's lines, at least one |
| AnalyzeExcel.Get | backend/analyze-excel.js:39 | a column value is found exactly when the row has a column of that name |
| AnalyzeExcel.WrittenMeaning | backend/analyze-excel.js:137-144 | the object holds exactly the kept names some header renames to, each with the text of the last such column |
| AnalyzeExcel.ProjectDataMeaning | backend/analyze-excel.js:49-144 | a project holds exactly the project columns some header maps to, each with the text of the last such column |
| AnalyzeExcel.CodeColumns | backend/analyze-excel.js:52-95 | both `项目编号` and `projectCode` end up as the kept column `项目编号` |
| AnalyzeExcel.DesignerColumn | backend/analyze-excel.js:103 | `designer` is renamed to the kept column `设计师` |
| AnalyzeExcel.ProductColumns | backend/analyze-excel.js:52-91 | `产品名称` and `产品图号` are not project columns |
| AnalyzeExcel.ProjectCodeIsKept | backend/analyze-excel.js:39-144 | a row with a project number keeps it, whichever of the two headers carried it |
| AnalyzeExcel.ProductNameIsNeverKept | backend/analyze-excel.js:97-98 | `productName` and `productDrawing` are renamed to columns that are not kept, so no project carries them |
| AnalyzeExcel.AnalyzeRows | backend/analyze-excel.js:32-147 | the row loop with the column loop inside gives exactly the analysis of the rows |
| AnalyzeExcel.AnalysisCounts | backend/analyze-excel.js:35-147 | the projects and the errors together number the rows, and every project is the data of a row that has a project number |
| AnalyzeExcel.AnalysisErrors | backend/analyze-excel.js:36-46 | the errors are exactly the rows without a project number, each with its sheet row number (index + 2), in sheet order |
| AnalyzeExcel.AnalyzedProjectsHaveCodes | backend/analyze-excel.js:39-146 | every analysed project carries a project number |
| AnalyzeExcel.AnalysisExample | backend/analyze-excel.js:35-147 | a row without a number in sheet row 3 is reported, and a renamed English column is kept |
| AnalyzeExcel.UpdateFields | backend/analyze-excel.js:202-213 | an update sets exactly the item's non-empty columns other than the number and the timestamp |
| AnalyzeExcel.InsertFields | backend/analyze-excel.js:230-241 | an insert writes exactly the item's non-empty columns other than the timestamp |
| AnalyzeExcel.UpdateRows | backend/analyze-excel.js:216-217 | exactly the rows with that number take the fields |
| AnalyzeExcel.ImportToDatabase | backend/analyze-excel.js:181-280 | the item loop gives exactly the table and results of the import run |
| AnalyzeExcel.StepShape | backend/analyze-excel.js:191-259 | one item files exactly one result; the table grows only by an insert, and every existing row keeps its project number |
| AnalyzeExcel.ImportRunShape | backend/analyze-excel.js:181-280 | every item is counted exactly once as a success, a failure or a skip; the table grows by one row per insert; no existing row changes its number |
| AnalyzeExcel.ExistingProjectIsNotInserted | backend/analyze-excel.js:197-223 | a project already in the table is never inserted again: the table keeps its length, and a success it records is an update |
| AnalyzeExcel.UpdateMeaning | backend/analyze-excel.js:199-218 | an update writes the item's non-empty columns into every row with its number, leaving other columns and other rows alone |
| DeliveryAddressImport.FirstCity | backend/batch-import-delivery-addresses.js:322-335 | a city is found exactly when the address contains a keyword from that position on, and it is the city of the first such keyword |
| DeliveryAddressImport.CityMeaning | backend/batch-import-delivery-addresses.js:321-337 | a city is written exactly when the address is not `test` in any case and contains a keyword, and then it is the city of the earliest keyword in the list |
| DeliveryAddressImport.JiangyinBeforeWuxi | backend/batch-import-delivery-addresses.js:323-328 | an address containing 江阴 is given 江阴市 whatever else it names |
| DeliveryAddressImport.CustomerMax | backend/batch-import-delivery-addresses.js:257-265 | no value exactly when the customer has no rows; otherwise the largest sort number among the customer's rows |
| DeliveryAddressImport.ImportAddresses | backend/batch-import-delivery-addresses.js:221-389 | no customer changes nothing; a failing insert rolls the whole batch back; a committed batch gives exactly the table and counts of the run that starts after the customer's largest sort number |
| DeliveryAddressImport.StepCounts | backend/batch-import-delivery-addresses.js:278-378 | one address is either inserted or skipped; the sort number moves on only for an insert; the table grows by exactly the inserted row and keeps its old rows |
| DeliveryAddressImport.RunCounts | backend/batch-import-delivery-addresses.js:278-379 | every address is counted once as inserted or skipped; the sort number moves on once per insert; the table only grows, by one row per insert |
| DeliveryAddressImport.RunSortOrders | backend/batch-import-delivery-addresses.js:307-318 | the added rows carry the customer and the consecutive sort numbers after the starting one, in insertion order |
| DeliveryAddressImport.RunGrows | backend/batch-import-delivery-addresses.js:278-379 | importing a longer prefix of the list never leaves a shorter table |
| DeliveryAddressImport.RunDefaults | backend/batch-import-delivery-addresses.js:317 | an added row is default exactly when it is the first row added and comes from the first address of the list |
| DeliveryAddressImport.RunKeepsKeysUnique | backend/batch-import-delivery-addresses.js:288-305 | a table without repeated (customer, receiver, address) triples has none after the run, repeats inside the list included |
| OutboundHistoryImport.EnvOr | backend/scripts/import-outbound-history-20260101.js:20-25 | an unset variable gives the fallback and a non-empty one gives its value |
| OutboundHistoryImport.SettingsFrom | backend/scripts/import-outbound-history-20260101.js:20-26 | a dry run exactly when `DRY_RUN` is `1` or `true`; with no variables set every setting is its documented default |
| OutboundHistoryImport.PositiveIntMeaning | backend/scripts/import-outbound-history-20260101.js:28-33 | the result is n exactly when the value converts to the integer n of at least 1, and null exactly when it converts to anything else |
| OutboundHistoryImport.PositiveIntCases | backend/scripts/import-outbound-history-20260101.js:28-33 | fractions, zero, negatives and NaN give null; the text of a count and `true` give numbers |
| OutboundHistoryImport.ToInsertMeaning | backend/scripts/import-outbound-history-20260101.js:119-130 | a candidate is kept exactly when its trimmed project code is non-empty and its completed quantity is a positive integer, and a kept row carries that candidate's other fields |
| OutboundHistoryImport.LinesOf | backend/scripts/import-outbound-history-20260101.js:148-176 | one line per row, in order, each carrying that row and the fixed document settings |
| OutboundHistoryImport.InsertInTransaction | backend/scripts/import-outbound-history-20260101.js:144-184 | the batch commits exactly when no insert throws, and then the table gains all the lines in order; otherwise it is unchanged |
| OutboundHistoryImport.Import | backend/scripts/import-outbound-history-20260101.js:71-185 | an existing document stops the run; no row to insert stops it; a dry run previews the first 20 rows; otherwise the lines of all the rows are inserted in one transaction or none are |
| OutboundHistoryImport.ToInsertImportable | backend/scripts/import-outbound-history-20260101.js:128-130 | every kept row has a quantity |
| OutboundHistoryImport.CommittedLinesShape | backend/scripts/import-outbound-history-20260101.js:148-176 | every inserted line carries the document number, a positive quantity and a non-empty trimmed project code |
| OutboundHistoryImport.SecondRunStops | backend/scripts/import-outbound-history-20260101.js:81-87 | once a non-empty import is committed, the document exists, so a second run stops at the existence check |
| WordTemplate.EntityChars | packages/backend/scripts/tools/create-word-template.js:48-53 | an entity starts with `&` and holds no other `&` and no markup character |
| WordTemplate.EntitiesDiffer | packages/backend/scripts/tools/create-word-template.js:48-53 | two different entities differ in their second or third character |
| WordTemplate.EscapeStep | packages/backend/scripts/tools/create-word-template.js:48-53 | each step of the escape chain adds one character to the escaped set |
| WordTemplate.UnescapeStep | packages/backend/scripts/tools/create-word-template.js:61-66 | each step of the unescape chain takes one character out of the escaped set, `&amp;` last |
| WordTemplate.OtherEntitySkipped | packages/backend/scripts/tools/create-word-template.js:61-66 | the scan for one entity passes over a different entity unchanged |
| WordTemplate.EscapeXmlIsPerCharacter | packages/backend/scripts/tools/create-word-template.js:46-54 | the replace chain writes every markup character as its entity, character by character |
| WordTemplate.UnescapeOfEscape | packages/backend/scripts/tools/create-word-template.js:46-67 | unescaping an escaped string gives the string back |
| WordTemplate.EscapedIsCharacterData | packages/backend/scripts/tools/create-word-template.js:46-54 | escaped text holds no `<`, `>`, `"` or `'`, and every `&` in it starts an entity |
| WordTemplate.NonStringsGiveEmpty | packages/backend/scripts/tools/create-word-template.js:47-60 | escaping or unescaping a non-string gives the empty string |
| WordTemplate.CharFrom | packages/backend/scripts/tools/create-word-template.js:101 | the first index at or after the start holding the character, or none when there is none |
| WordTemplate.CloseFrom | packages/backend/scripts/tools/create-word-template.js:101 | when it matches, the close tag is found after text without `<` and lies inside the document |
| WordTemplate.ValueFrom | packages/backend/scripts/tools/create-word-template.js:101 | a match it finds has the value after text without `<`, then text without `<` and the close tag, all inside the document |
| WordTemplate.MatchAt | packages/backend/scripts/tools/create-word-template.js:101 | a match starting at an index is an opening `<w:t` tag, text without `<`, the value, text without `<` and `</w:t>`, all inside the document |
| WordTemplate.PieceReplacesOnlyTheValue | packages/backend/scripts/tools/create-word-template.js:103-107 | the intended replacement is the matched text with the value's span, and only that span, replaced by the placeholder |
| WordTemplate.NoMatchNoChange | packages/backend/scripts/tools/create-word-template.js:101-107 | with no match from a position on, the rest of the document is left as it is, with the callback as written and with the intended one |
| WordTemplate.NoRunNoChange | packages/backend/scripts/tools/create-word-template.js:99-101 | text outside `<w:t>` runs is never touched by either callback: a document with no `<w:t` is left as it is |
| WordTemplate.ExampleMatch | packages/backend/scripts/tools/create-word-template.js:101 | `<w:t>ab</w:t>` with the value `a` has exactly one match, spanning the whole run |
| WordTemplate.CallbackDropsTextAfterValue | packages/backend/scripts/tools/create-word-template.js:103-107 | the callback as written gets the text after the value in the wrong parameter, so `<w:t>ab</w:t>` with value `a` becomes `<w:t>{{k}}</w:t>0` |
| WordTemplate.CallbackAsIntended | packages/backend/scripts/tools/create-word-template.js:103-107 | the intended callback keeps the text after the value: `<w:t>{{k}}b</w:t>` |
| WordTemplate.UsableEntries | packages/backend/scripts/tools/create-word-template.js:82 | exactly the entries whose value is present and not blank are kept, and no more entries than were given |
| WordTemplate.ReplacementOrder | packages/backend/scripts/tools/create-word-template.js:81-83 | every entry in the replacement order has a present, non-blank value |
| WordTemplate.ReplacementOrderMeaning | packages/backend/scripts/tools/create-word-template.js:80-90 | exactly the usable entries are replaced, each once, the longest value first |
| WordTemplate.SortKeepsUsable | packages/backend/scripts/tools/create-word-template.js:83 | sorting usable entries leaves them usable |
| WordTemplate.ReplaceContentWithPlaceholders | packages/backend/scripts/tools/create-word-template.js:77-118 | the loop gives the document rewritten entry by entry in replacement order, each entry replacing every run match of its trimmed value; with `intended` false the callback is the one as written, which drops the text after the value and appends the match offset |
| WordTemplate.NoRunsNoChange | packages/backend/scripts/tools/create-word-template.js:77-118 | a document without `<w:t>` runs comes out unchanged, whatever the data map and whichever callback |
| WordTemplate.TemplateOf | packages/backend/scripts/tools/create-word-template.js:162-184 | an empty data map stops the tool with no document; otherwise the document text is the rewritten one (the code as written with `intended` false), and a document with no `<w:t` comes back as it was |
| WordTemplate.TemplateOfExample | packages/backend/scripts/tools/create-word-template.js:77-118 | on `<w:t>ab</w:t>` with the entry `k` = `a`, the tool as written gives `<w:t>{{k}}</w:t>0` and the intended one `<w:t>{{k}}b</w:t>` |
| PlaceholderNames.CollapseUnderscores | packages/backend/scripts/tools/extract-red-text-from-word.js:81 | the result has no two underscores in a row, holds the same characters, is empty exactly when the input is, keeps the first and last characters, and leaves a text without double underscores alone |
| PlaceholderNames.StripEdges | packages/backend/scripts/tools/extract-red-text-from-word.js:82 | only underscores are removed; a text without double underscores comes out with no underscore at either end; one with none at the ends is left alone |
| PlaceholderNames.CleanedShape | packages/backend/scripts/tools/extract-red-text-from-word.js:79-82 | the cleaned text holds only ideographs, ASCII letters, digits and single inner underscores, and is empty exactly when the text has no such word character |
| PlaceholderNames.FallbackShape | packages/backend/scripts/tools/extract-red-text-from-word.js:86 | `field_<index + 1>` holds only name characters and no double underscore |
| PlaceholderNames.GeneratedNameIsWellFormed | packages/backend/scripts/tools/extract-red-text-from-word.js:77-95 | every generated name is non-empty, at most 50 characters, of name characters only, with no double underscore |
| PlaceholderNames.GeneratedNameSource | packages/backend/scripts/tools/extract-red-text-from-word.js:79-92 | a text with a word character gives a prefix of its cleaned text, whatever the index; any other text gives a prefix of `field_<index + 1>` |
| PlaceholderNames.CleanNameIsFixedPoint | packages/backend/scripts/tools/extract-red-text-from-word.js:77-95 | a name that is already clean and at most 50 characters long is given back unchanged |
| PlaceholderNames.GenerateIsIdempotent | packages/backend/scripts/tools/extract-red-text-from-word.js:77-95 | generating from a generated name without edge underscores gives the same name, whatever the index |
| PlaceholderNames.PunctuationBecomesOneUnderscore | packages/backend/scripts/tools/extract-red-text-from-word.js:80-81 | `A-1  B` gives `A_1_B` |
| PlaceholderNames.EdgeUnderscoresStripped | packages/backend/scripts/tools/extract-red-text-from-word.js:82 | ` (x) ` gives `x` |
| PlaceholderNames.SymbolsFallBackToIndex | packages/backend/scripts/tools/extract-red-text-from-word.js:85-87 | `--` at index 4 gives `field_5` |
| RedText.ExtractRedText | packages/backend/scripts/tools/extract-red-text-from-word.js:32-72 | the run loop with the inner text loop gives exactly the extracted texts of the runs |
| RedText.KeptTextsMembers | packages/backend/scripts/tools/extract-red-text-from-word.js:53-62 | a text is kept from a run exactly when it is the non-empty trim of one of its text elements |
| RedText.RedTextsMembers | packages/backend/scripts/tools/extract-red-text-from-word.js:43-66 | a text is extracted exactly when it is the non-empty trim of a text element of a red run; other runs contribute nothing |
| RedText.FirstTexts | packages/backend/scripts/tools/extract-red-text-from-word.js:146-159 | every non-empty trimmed text appears exactly once, and nothing else appears |
| RedText.EntriesSnoc | packages/backend/scripts/tools/extract-red-text-from-word.js:153-157 | appending a text adds one entry, named from that text at the next index and numbered one more |
| RedText.DedupeTexts | packages/backend/scripts/tools/extract-red-text-from-word.js:146-159 | the loop with its seen set gives exactly one entry per distinct text, in first-occurrence order, each with its generated name and 1-based number |
| RedText.FirstPositions | packages/backend/scripts/tools/extract-red-text-from-word.js:149-158 | each distinct text comes from the first input position whose trim equals it, and the positions increase, so first-occurrence order is kept |
| RedText.BuildDataMap | packages/backend/scripts/tools/extract-red-text-from-word.js:171-174 | the loop gives exactly the data map of the entries |
| RedText.DataMapKeys | packages/backend/scripts/tools/extract-red-text-from-word.js:171-174 | the keys of the data map are exactly the placeholders of the entries |
| RedText.DataMapLast | packages/backend/scripts/tools/extract-red-text-from-word.js:171-174 | each placeholder maps to the text of the last entry carrying it |
| RedText.DistinctPlaceholdersKeepEveryText | packages/backend/scripts/tools/extract-red-text-from-word.js:171-174 | with pairwise different placeholders every entry's text is in the map under its placeholder |
| RedText.PlaceholderCollision | packages/backend/scripts/tools/extract-red-text-from-word.js:155-174 | `a b` and `a-b` are two texts but share the name `a_b`, so the map keeps only `a-b` |
| RedText.NoMapIffNoRedText | packages/backend/scripts/tools/extract-red-text-from-word.js:120-140 | no map is written exactly when no red run has a text element with more than white space |
| RedText.MapEntriesComeFromRedTexts | packages/backend/scripts/tools/extract-red-text-from-word.js:145-178 | every key of a written map is a well-formed name and every value one of the extracted texts |
| RedText.ExtractedTextsAreTrimmed | packages/backend/scripts/tools/extract-red-text-from-word.js:56 | every extracted text is its own trim |
| RedText.DataMapValues | packages/backend/scripts/tools/extract-red-text-from-word.js:171-174 | every key and value of the map comes from one entry |
| RedText.TrimKeepsTexts | packages/backend/scripts/tools/extract-red-text-from-word.js:150 | the second trim finds each extracted text unchanged, so every distinct text is one of the extracted texts |
| OptimizeNames.DigitPrefix | backend/scripts/tools/optimize-placeholder-names.js:24-25 | the length of the leading run of ASCII digits: everything before it is a digit and the character after it is not |
| OptimizeNames.FirstMatch | backend/scripts/tools/optimize-placeholder-names.js:32-36 | the position of the first pattern the text matches, and none exactly when it matches no pattern |
| OptimizeNames.InferredNameOrigin | backend/scripts/tools/optimize-placeholder-names.js:13-49 | the name of the first matching pattern; with none, 盖, 件 or 品 give product_name, then 模 gives mould_no, and only then is the generator used |
| OptimizeNames.CustomerNamePatternIsShadowed | backend/scripts/tools/optimize-placeholder-names.js:21-28 | every text the customer-name pattern matches is matched first by the Chinese product-name pattern, so customer_name is never inferred |
| OptimizeNames.PatternNamesAreWellFormed | backend/scripts/tools/optimize-placeholder-names.js:19-28 | every pattern's name is a well-formed placeholder name without edge underscores |
| OptimizeNames.InferredNameIsWellFormed | backend/scripts/tools/optimize-placeholder-names.js:13-66 | whatever branch decides, the inferred name is a well-formed placeholder name |
| OptimizeNames.MouldNumberShape | backend/scripts/tools/optimize-placeholder-names.js:20 | `ML01` is inferred as mould_no |
| OptimizeNames.YearShape | backend/scripts/tools/optimize-placeholder-names.js:24 | `2024` is inferred as year |
| OptimizeNames.ShortChineseNameIsProductName | backend/scripts/tools/optimize-placeholder-names.js:21-28 | 张三 matches the customer-name pattern but is inferred as product_name |
| OptimizeNames.SuffixedIsInjective | backend/scripts/tools/optimize-placeholder-names.js:98 | different suffixes give different keys |
| OptimizeNames.TriedCount | backend/scripts/tools/optimize-placeholder-names.js:96-100 | before suffix n the loop has tried exactly n - 1 suffixed keys |
| OptimizeNames.TriedBound | backend/scripts/tools/optimize-placeholder-names.js:97-100 | while every suffix below n is taken there are at least n - 1 taken names, so the suffix search ends |
| OptimizeNames.FreeKey | backend/scripts/tools/optimize-placeholder-names.js:95-100 | the key is the name itself when free, else the name with the smallest free suffix; it is free, counting the names an object inherits |
| OptimizeNames.OptimizeKeys | backend/scripts/tools/optimize-placeholder-names.js:88-113 | one distinct key per entry, each derived from the name inferred for its value and position, none an inherited name; the map holds exactly those keys, each with its entry's value |
| OptimizeNames.CollidingYears | backend/scripts/tools/optimize-placeholder-names.js:95-100 | a second year is filed under `year_1` |
| ImageNames.KindsAddUp | check_image_names.py:38-42 | the two-cell and one-cell passes together count every cell anchor |
| ImageNames.NamedAndUnnamed | check_image_names.py:88-102 | the named and unnamed pictures together are all the pictures |
| ImageNames.NumbersBelow | check_image_names.py:41-42 | every listed picture number lies after the count before the pass and at most the count after it |
| ImageProjectMapping.ProjectsNoDups | tools/check_image_project_mapping.py:188-198 | over distinct image rows, no project number is listed twice exactly when no two mapped rows share a project, which is when many_to_one stays 0 |
| RenameImages.FirstPassLeavesOneCell | tools/rename_images_to_project.py:83-86 | the two-cell pass keeps every anchor's kind and leaves every one-cell anchor as it was |
| Inventory.FindIsFirst | src/store/modules/inventory.ts:270-273 | the first matching position is the one found |
| Inventory.FindNone | src/store/modules/inventory.ts:270-273 | with no matching item nothing is found |
| ColumnLetters.Examples | delete_image_xlsx.py:11-16 | A is 1, Z is 26, AA is 27, and lower-case b is 2 |

## Left out

**Numbers, text and the outside world**

- Salary.Round2: JavaScript numbers are IEEE 754 doubles, but the model takes them as exact reals, so rounding to cents is exact here. Every money and hour total in `Salary`, `Quotation`, `Attendance`, `Goods`, `SalesOrders` and `OutboundDocument` is exact in the same way. Binary rounding error is not modelled.
- Quotation.PriceOfNumbers: the tax-included price is the exact real sum of the two totals and the two other fees (and, with `Quotation.ItemsTotalExact`, of the line fees). The double sum it stands for may round.
- Lengths and indices of JavaScript strings count UTF-16 code units, while the model's strings count characters. They differ only outside the Basic Multilingual Plane.
- `Common.IsSpace` is the white space of JavaScript's `trim` and `\s`, and the Python scripts' `strip()` is modelled with it too. Python also strips U+001C to U+001F and U+0085, and keeps U+FEFF.
- SQL Server, its transactions and concurrent requests are not modelled. A table is a value, and a transaction either commits all of its statements or none of them.
- ZIP reading and writing, ElementTree, openpyxl, LibreOffice, Word files and pdf.js loading are not modelled. The models start from the parsed XML, cells, runs or text items. The PDF parsers take page 1 only, as the code does.
- The clock, random numbers, generated ids, JWT signing, bcrypt hashing and the LDAP directory are parameters or abstract values. `Auth` takes the result of `verifyDomainUser` as an input, because the LDAP bind is not part of this model.
- Console output and log lines are left out, except where a script's report is its result (the image mapping and name reports).

**Spreadsheet drawing tools**

- ImageProjectMapping.CheckImageProjectMapping: an image whose one-based column lies outside 1..18278 (a negative `xdr:col` in the drawing) makes `get_column_letter` raise at tools/check_image_project_mapping.py:148 or 155, outside any `try`, and the script stops with a traceback. The model takes the column letter only for the report lines it does not model, and reports the counts.
- ImageNames.CheckImageNames: likewise, `get_column_letter` raises at check_image_names.py:91 or 95 for a listed image whose column is outside 1..18278 but not 0; the `except` at line 104 then prints the error and no statistics. The model counts those images as for any other column.
- DeleteImageXlsx.DeleteOutcomeShape: the model keeps the archive's members in their original order. The script writes them back in `os.walk` order, which the model does not fix. It also does not model ElementTree's re-serialisation: attribute quoting and rewritten namespace prefixes (delete_image_xlsx.py:93-95).
- DeleteImage.FreshRewriteKeepsMembers: states membership and content, not the order of members in the rewritten archive, for the same reason.
- AnalyzeImages: how openpyxl loads `ws._images` and reads anchor types is not modelled. The analysis starts from the loaded anchors.
- AnalyzeImages.ObjectVerdict: covers one picture of the openpyxl pass. A `get_column_letter` raise there (lines 271-293) is not caught inside the loop. It leaves the function through the re-raise at line 354, so the remaining pictures and the drawing-part pass are never reported. The model does not fold the verdicts over the picture list.
- ImageProjectMapping: `images.sort` changes only the order of printed lines, and that order is not modelled.

**Inventory store**

- The `warehouses` getter (inventory.ts:266-268) is not modelled. It only lists the distinct warehouse names for the views.

**Parsers and templates**

- TechSpecParser: the loop in `buildSpecDataFromRow` that pops sizes beyond `maxLength` (techSpecParser.ts:264) never runs, because `maxLength` is at least the number of sizes. It is left out.
- WordTemplate.ReplacementOrder: orders the keys as they come in the data map. `Object.entries` lists integer-like keys first, in ascending order, and the model does not reorder them.

**Back-end routes**

- Attendance: `GET /list` and `GET /:id` (attendance.js:67-128 and 130-208) are plain queries and are not modelled.
- Customer: the routes from `/statistics` to `GET /delivery-addresses/:addressId` (customer.js:90-452) are left out. So is `ensureDeliveryAddressTable`, which is schema set-up. The status rules and the delivery-address create, update and delete are modelled.
- `Goods` (packages): `/new-products`, `GET /:id` and `PUT /:id` (goods.js:8, 157 and 415) are not modelled.
- Permission: `GET /list`, `/ad/groups` and `/ad/user/:username/groups` (permission.js:29, 683 and 813) are directory or table reads and are not modelled. Of `/sync-routes`, only the insertion of missing routes is modelled. The LDAP client is not modelled.
- LocalUser: writing the user file is not modelled. The model updates the in-memory user table.
- OutboundDocument: `ensureTables` and the list filters other than the sort are not modelled.
- Salary: the tax-parameter routes (salary.js:695-965), `/list`, `/by-month` and `GET /draft/:id` are not modelled. Nor is the row order that `ORDER BY 工号` gives the employee query of step one (salary.js:179-186). `parseDateOrNull` is not modelled: the entry date is carried as given. `computeTotal` (salary.js:72) is never called, so it is not modelled.
- `ProjectInfo` and `ProductionTask`: the paging and keyword filters of `GET /list` are not modelled. The sort whitelist of `ProductionTask` is modelled.
- Quotation: the `GET /list` query is not modelled, apart from its sort.
- `SalesOrders` (packages): not modelled are `/by-orderNo`, `/statistics`, `GET /:id`, the create, update and delete handlers beyond the rules the model states, and the attachment routes (sales-orders.js:1268-1677) with `normalizeAttachmentFileName` and `moveFileWithFallback`.
- LegacySalesOrders: `/by-orderNo` and `GET /:id` (backend/routes/sales-orders.js:277 and 381) are not modelled. `/statistics` (line 749) is registered after `/:id`, so Express never reaches it. It is not modelled.
- DocNumber: the legacy route takes the date from `toISOString()`, which is UTC. The packages route uses UTC+8. The model takes the date as a parameter in both cases.

**Front end**

- RequestConfig: `objToFormData` and the abort controllers are not modelled.

**Flows built on the corrected patterns**

The seal pattern `SEAL_NO_RE` as written (mouldTransferParser.ts:23-25) needs a literal backslash after `ML`, so on PDF text it never matches (`MouldTransferText.SealNumberMissed`). A part-number prefix that no suffix completes keeps its `__PFX__` marker in the row as written (mouldTransferParser.ts:400-455; `MouldTransferColumns.DanglingPrefix`). The front-end flows below use the intended pattern and drop the marker. So wherever a seal number is printed, or a prefix dangles, their rows differ from the program's. As written, the seal number found by that pattern is always empty, and the part number keeps `__PFX__`.
- MouldTransferColumns.ParseColumnTableByHeaders: built on the intended seal pattern and `TableRows`; the program's column table has no seal numbers from `SEAL_NO_RE` and keeps `__PFX__` on a dangling prefix.
- MouldTransferColumns.Classify: classifies a line with the intended seal pattern; as written no line is a seal-number line by that pattern.
- MouldTransferColumns.LineKind: the same difference as `Classify`.
- MouldTransferColumns.KindOf: the same difference as `Classify`.
- MouldTransferColumns.ModeOne: folds lines classified with the intended seal pattern.
- MouldTransferColumns.ColumnModeShape: states the shape of the rows read with the intended seal pattern.
- MouldTransferColumns.ParseColumnMode: reads with the intended seal pattern; as written its seal column stays empty.
- MouldTransferRows.FillMissingFieldsFromLine: fills a missing seal number with the intended pattern; as written no seal number is filled in from a line.
- MouldTransferRows.ParseRowsByGlobalRegex: takes each fallback row's seal number from its segment with the intended pattern; as written `SEAL_NO_RE` never matches there (mouldTransferParser.ts:704), so every fallback row's seal number is empty and its destination runs to the segment's end.
- MouldTransferRows.CollectSealSampleNos: collects with the intended patterns; as written all four passes (mouldTransferParser.ts:738-789) are compiled from `String.raw` texts with doubled backslashes, need literal backslashes in the text, and so collect nothing from PDF text.
- MouldTransferRows.CollectedSeals: states the list collected with the intended patterns, which as written is empty.
- MouldTransferParse.FinalizeRows: finalizes rows read with the intended seal pattern and without `__PFX__` markers.
- MouldTransferParse.FinalizeShape: states the shape of those rows.
- MouldTransferParse.ScanRows: scans with the intended seal pattern.
- MouldTransferParse.ApplyLine: applies a line classified with the intended seal pattern.
- MouldTransferParse.PartLine: the part line handling of `ApplyLine`, with the same difference.
- MouldTransferParse.ParseMouldTransferFromText: the whole parse on the intended pattern and marker handling; as written the program's notice has no seal number found by `SEAL_NO_RE` and may keep `__PFX__` in a part number.
- MouldTransferParse.ReadRows: the same difference as `ParseMouldTransferFromText`.
- MouldTransferParse.ReadLoop: the same difference as `ScanRows`.
- MouldTransferParse.LoopRowsOf: the same difference as `ScanRows`.
- MouldTransferParse.ColumnTableTaken: decides on the column table read with the intended pattern and marker handling.

In the back-end PDF parser, the fallback for a table without row numbers reads boundaries 3 and 4 (mouldTransferPdfParser.js:321-338), the mould-maker column, where the mould number column lies between boundaries 2 and 3 (`MouldTransferPdf.FallbackMissesMouldColumn`). `cleanMouldName`'s second `replace` (line 182) reads `\1` as U+0001, so a row number repeated inside the name survives (`MouldTransferPdfText.RepeatedIndexKept`). The members below use the intended boundaries and `CleanMouldName`.
- MouldTransferPdf.ReadRows: on a table without row numbers the program finds no row, and the model finds one per mould number.
- MouldTransferPdf.ReadTable: the same difference as `ReadRows`; a name that repeats its row number also keeps it as written.
- MouldTransferPdf.ReadLines: the same difference as `ReadTable`.
- MouldTransferPdf.ParseMouldTransferPdf: the same difference as `ReadTable`, for the whole parse.

**Case folding, number texts, collation, SQL and URLs**

- LocalUser.FindKey: `toLowerCase` (user.js:54) is modelled by `Common.ToLower`, which folds only ASCII letters. With the header `JOSÉ` and the key `josé` the program finds the user and the model does not.
- LocalUser.CurrentLocalUser: rests on `FindKey`, with the same ASCII-only folding.
- LocalUser.CurrentLocalUserSpec: states the lookup up to ASCII case only.
- LocalUser.CaseInsensitiveLookup: holds for the ASCII folding; two names that differ in a non-ASCII letter's case find different users here, but the same one in the program.
- LocalUser.FindKeySameName: the same limitation as `CaseInsensitiveLookup`.
- LocalUser.LowerKeepsMarks: a fact about the ASCII folding; JavaScript `toLowerCase` can change the length (`İ` becomes two code units).
- Auth.FindByUserPart: `toLowerCase` at auth.js:201-202 is folded on ASCII letters only, as in `LocalUser`.
- Permission.MockAdUsers: `toLowerCase` at permission.js:570 is folded on ASCII letters only, as in `LocalUser`.
- LocalUser.JsText: `String(x)` of a number that is not an integer, or that is 1e21 or more, is kept as an opaque number text. The model does not spell it out, so it never equals a stored string: the stored "1.5" and the old password 1.5 compare equal at user.js:169 and differ here.
- LocalUser.StoredText: a new password 1.5 is stored as a number text here, where user.js:180 stores the string "1.5".
- LocalUser.ChangePassword: refuses the change above, which the program accepts, for the reason given under `JsText`.
- LocalUser.ChangePasswordOutcomes: states the outcomes with `JsText`'s number texts, so the same case is refused.
- OrderList.SortIsOrdered: `localeCompare` (sales-orders.js:421, 425) is modelled by `Common.CompareText`, code-point order. ICU collation orders `a` before `B`, and code-point order does the reverse.
- OrderList.SortedListOrder: orders by code points, as `SortIsOrdered` says.
- OrderList.ListPage: pages the list sorted by code points, as `SortIsOrdered` says.
- Goods.MaxSerial: reads the category literally and a serial as three ASCII digits. `LIKE 'JH<category>-%-%'` (goods.js:681-693) also treats `%`, `_` and `[` in the category as wildcards and ignores case. `ISNUMERIC` also accepts ` 12`, `+12` and `1.2`; for `1.2` the `CAST` then fails and the route answers 500.
- SalesOrders.SerialOf: reads three ASCII digits after a literal `XS-`. `TRY_CAST(RIGHT(no, 3) AS INT)` (sales-orders.js:1173-1181) also reads ` 12`, `+12` and `-12`, and `LIKE N'XS-________-___'` ignores case.
- SalesOrders.LastSerialIsMax: the maximum over `SerialOf`, so it reads fewer serials than the query does.
- SalesOrders.FirstRowOf: SQL `=` under the database's collation ignores case and trailing spaces; the model compares document numbers exactly. The same holds for the document lookups of `OutboundDocument`, `DeliveryAddressImport.HasSame`, `OutboundHistoryImport.HasDocument`, `AnalyzeExcel.Exists` and `ProjectInfo.Detail`, `Update` and `Delete`.
- ProjectInfo.InsertOutcomes: fails only when a key is not a column. A value SQL Server cannot convert, a duplicate key or a missing NOT NULL column answers 500 at project.js:130-143, and the model stores the row.
- ProjectInfo.UpdateOutcomes: fails only when a key is not a column. A value SQL Server cannot convert answers 500, and the model updates the rows.
- RequestConfig.PathAndSearch: cuts the text at `/`, `?` and `#`. `new URL` (config.ts:25) also resolves dot segments, percent-encodes spaces and non-ASCII characters, and reads `\` as `/`.
- RequestConfig.BaseUrlOfAbsolute: rests on `PathAndSearch`, without `new URL`'s normalisation.
- RedText.ExtractRedText: takes the document as already cut into runs. The run pattern `<w:r[^>]*>` (extract-red-text-from-word.js:40) also starts at `<w:rPr>`, including one inside `<w:pPr>`. So a red paragraph mark makes the text of the run after it count as red, and the model does not capture that.
- RouterGuard.Session.BeforeEach: `decode` stands for `decodeURIComponent` (permission.ts:172) and is total. On a malformed redirect such as `%E0` the program throws, and the model redirects.
- Inventory: the store's quantities are JavaScript numbers in inventory.ts; the model holds them as integers, so fractional quantities and NaN are not modelled.


## Findings

| source | as written | input that shows it | evidently intended | confidence | as-written member | corrected member |
|---|---|---|---|---|---|---|
| backend/routes/attendance.js:55-65 | `isEditableMonthString` accepts any `YYYY-MM` text that is not after the current month, months 00 and 13 to 99 included | in January 2025, create `2024-13` and then `2025-01`: both are stored | only the months 01 to 12 are editable, so a month is stored once | not executed | Attendance.TwoSummariesForOneMonth | Attendance.CreateKeepsValid |
| delete_image.py:136-151 | the fixed temporary directory is not emptied before extraction, and everything in it is packed | a file left in `/tmp/excel_delete_img` by an earlier run | the rewritten workbook holds exactly the original members, with the new drawing | not executed | DeleteImage.StaleFileIsPacked | DeleteImage.FreshRewriteKeepsMembers |
| packages/backend/scripts/tools/create-word-template.js:103-107 | the callback names five groups where the pattern has four, so the text after the value is dropped and the match offset is written after the closing tag | `<w:t>ab</w:t>` with the value `a` becomes `<w:t>{{k}}</w:t>0` | `<w:t>{{k}}b</w:t>`: only the value is replaced | not executed | WordTemplate.CallbackDropsTextAfterValue | WordTemplate.CallbackAsIntended |
| backend/routes/permission.js:95 | the user name goes into the directory filter unescaped | the user name `*` gives the presence filter `(sAMAccountName=*)`, which every account matches | the value escaped as section 3 of RFC 4515 requires, so that the filter matches that one name | not executed | Permission.UserFilterWildcard | Permission.UserFilterExact |
| backend/routes/customer.js:492-530 | the other defaults are cleared under the usage as sent, but the address is stored with the usage defaulted to `SHIP_TO` | a default address sent with usage `""` while a `SHIP_TO` default exists | at most one default address per customer and usage | not executed | Customer.CreateAsWrittenKeepsOldDefault | Customer.CreateKeepsOneDefault |
| backend/routes/customer.js:636-706 | a default address moved to another usage, with no default flag sent, stays default without clearing that usage's default | a `SHIP_TO` default moved to `BILL_TO`, which already has a default | at most one default address per customer and usage | not executed | Customer.UpdateAsWrittenKeepsTwoDefaults | Customer.UpdateKeepsOneDefault |
| packages/backend/routes/goods.js:94-97 | the sort field is looked up by indexing a plain object, which also finds inherited members | `sortField=constructor&sortOrder=desc` puts the text of `Object` into the ORDER BY clause | only the whitelisted columns can be sorted by | not executed | Goods.OrderByAsWrittenAcceptsInherited | Goods.OrderByWhitelisted |
| backend/routes/outbound-document.js:114 | the sort field is looked up by indexing a plain object, which also finds inherited members | `sortField=constructor` | only the whitelisted columns can be sorted by, and anything else falls back to the creation time | not executed | OutboundDocument.SortFieldAsWrittenAcceptsInherited | OutboundDocument.SortWhitelisted |
| backend/routes/production-task.js:20-24 | the sort field is looked up by indexing a plain object, which also finds inherited members | `sortField=constructor&sortOrder=asc` | only the whitelisted columns can be sorted by | not executed | ProductionTask.OrderByAsWrittenAcceptsInherited | ProductionTask.OrderByWhitelisted |
| packages/backend/routes/goods.js:511-595 | `DELETE /:id` is registered before `DELETE /batch`, so the single-row handler takes `batch` as an id and fails | `DELETE /goods/batch` with any body | the batch handler answers `/goods/batch` | not executed | Goods.BatchRouteShadowed | Goods.DeleteRouteDispatch |
| backend/routes/outbound-document.js:328-335 | the status counts add up detail lines, while the total counts distinct documents | one document with two pending lines: one document, two pending | each status counts documents, so no count exceeds the total | not executed | OutboundDocument.StatisticsAsWrittenCountsLines | OutboundDocument.StatisticsBounded |
| backend/routes/sales-orders.js:602-620 | the order fields are written before the detail ids are checked, outside a transaction | a request whose first detail has no id: the answer is 400, but the order is changed | a 400 answer leaves the database as it was | not executed | LegacySalesOrders.PartialUpdateOnMissingId | LegacySalesOrders.UpdateSpec |
| packages/frontend/src/utils/pdf/mouldTransferParser.ts:23-25 | the pattern is written in `String.raw` with doubled backslashes, so it looks for literal backslashes | `ML-FYJYD-20241105-1001642` is not found | seal numbers are found, whatever hyphen variants and spaces they have, and normalised | not executed | MouldTransferText.SealNumberMissed | MouldTransferText.SealNormalized |
| packages/frontend/src/utils/pdf/mouldTransferParser.ts:400-455 | a part-number prefix that no suffix completes keeps its `__PFX__` marker in the row | a prefix token with no suffix after it | the row holds the prefix itself | not executed | MouldTransferColumns.DanglingPrefix | MouldTransferColumns.TableRowsShape |
| packages/backend/utils/pdf/mouldTransferPdfParser.js:179-183 | the back-reference `\1` of the second replacement refers to no group of its own pattern, so it stands for the character U+0001 and a repeated index is kept | `2 A 2 B` becomes `A 2 B` | `A B`: the repeated index is dropped too | not executed | MouldTransferPdfText.RepeatedIndexKept | MouldTransferPdfText.RepeatedIndexDropped |
| packages/backend/utils/pdf/mouldTransferPdfParser.js:321-338 | with no row numbers, the fallback looks for mould numbers between boundaries 3 and 4, the mould maker's column | a table without row numbers, with a mould number in the mould-number column: no row is found | the fallback reads the mould-number column, between boundaries 2 and 3 | not executed | MouldTransferPdf.FallbackMissesMouldColumn | MouldTransferPdf.FallbackFindsMouldColumn |
