# Paperless-ngx tag exporter, modelled in Dafny

The tag exporter reads tags, documents and custom-field definitions from a
Paperless-ngx server. For every tag whose directory exists under the export
directory, it writes each tagged document's PDF and JSON into that
directory, plus one spreadsheet listing them. A synthetic "ALLDocs" export
covers every document. This project models the data shaping and the file
bookkeeping of that program and proves what each step promises:

- **Sanitize**: `sanitize_filename`.
- **Currency**: the character filtering and fallbacks of `parse_currency` and `format_currency`. Amounts are exact decimals.
- **Dates**: `parse_date`, `format_date` and the date stamps used in file names.
- **CustomFields**: `process_custom_fields`, as a loop over the entries of one document.
- **Rows**: the spreadsheet row of one document, the `api_url.rstrip("/api")` base URL and the ID-column hyperlink.
- **Folders**: the export directory. Each tag directory is a map from file name to file, and each file carries its modification day and what it holds. This module also has the archive-then-clear step and the spreadsheet-name counter.
- **Exporter**: class `ExportRoot`, whose field `dirs` the operations update in place:
  - `has_file_from_today`;
  - `prepare_tag_directory_for_export`;
  - `export_pdf` and `export_json`;
  - the document loop of `process_documents_by_tag`;
  - the naming loop of `export_to_excel`;
  - `export_for_tags`.
- **Fetch**: the pagination loop of `fetch_data` and `get_name_from_id`. The legacy script `paperless-ngx-tag-exporter.a.py` contains the same code, so these model both scripts.
- **Legacy**: the rest of the legacy script:
  - case-insensitive resolution of a directory name to a tag;
  - `tag_not_found.log`;
  - its `process_documents_by_tag`: the `export-<tag>` directory, one row per tagged document, and the hyperlinks of column B.
- **Wrappers, Strings, Dicts, Json**: support modules. Python's `str()` of a number, `.lower()` on the Latin-1 letters, and insertion-ordered dicts (`dict` and `OrderedDict`) as sequences of pairs.

HTTP becomes data:
- a finite run of pages, after which every page answers 404;
- a function from document id to the status of its download;
- a function from document id to its custom-field entries;
- the answer of a name lookup.

The clock is a `now` parameter. `dateutil.parser.isoparse` is a function parameter. `os.listdir`, the host name and the user name are parameters of the legacy run.

The model follows the code in three places where the repository's own description says otherwise:
- `export_to_excel` ignores the file name its caller computes (`paperless-ngx-tag-exporter.py:390`). It names the spreadsheet `##export-<tag>-<yyyymmdd>.xlsx`, then tries `-1`, `-2`, …, so the model uses that name.
- `export_for_tags` does not archive the ALLDocs directory before exporting into it. Only the directories of real tags are archived.
- Each selected document's row is appended to `document_data` twice (lines 384 and 388), so the logged count is twice the number of documents. An exception raised while a document's custom fields are read (`format_currency` on an integer value) is not caught. It ends the whole run, and the files already written stay.

## Model

| member | source | states |
|---|---|---|
| Strings.Lower | paperless-ngx-tag-exporter.a.py:144 | definition: `str.lower()` character by character, keeping the length |
| Sanitize.ReplaceForbidden | paperless-ngx-tag-exporter.py:139 | each of `< > : " / \ \| ? *` becomes `-`, every other character is kept, and the length is unchanged |
| Sanitize.SanitizeFilename | paperless-ngx-tag-exporter.py:135-140 | the result is the first min(n, 255) characters of the title with forbidden characters replaced |
| Sanitize.NoForbiddenCharacter | paperless-ngx-tag-exporter.py:139 | a sanitised name holds no forbidden character |
| Sanitize.SanitizeIdempotent | paperless-ngx-tag-exporter.py:135-140 | sanitising twice equals sanitising once |
| Sanitize.SafeTitleUnchanged | paperless-ngx-tag-exporter.py:135-140 | a title of at most 255 safe characters is its own file name |
| Sanitize.ExampleSeparators | paperless-ngx-tag-exporter.py:139 | `a/b:c*d` becomes `a-b-c-d` |
| Currency.NumericPart | paperless-ngx-tag-exporter.py:432 | only digits, `.` and `-` survive the filter |
| Currency.DigitsOf | paperless-ngx-tag-exporter.py:442 | only digits survive the filter |
| Currency.PointIndex | paperless-ngx-tag-exporter.py:433 | the position of the first `.` (or the length when there is none) |
| Currency.ParseCurrency | paperless-ngx-tag-exporter.py:428-436 | non-text values and text whose filtered part is not a float fall back to 0.0 |
| Currency.FormatCurrency | paperless-ngx-tag-exporter.py:438-451 | None gives `""`; an integer raises; no digits gives `"0,00"`; otherwise the digit string is the amount in minor units |
| Currency.PadDigits | paperless-ngx-tag-exporter.py:433 | zero-padded digits of n that read back as n |
| Currency.ParseDecimalText | paperless-ngx-tag-exporter.py:433 | float() reads back every decimal written as sign, digits, point and digits |
| Currency.ParseMagnitude | paperless-ngx-tag-exporter.py:433 | the unsigned text reads back with and without a leading `-` |
| Currency.ParsePointText | paperless-ngx-tag-exporter.py:433 | digits with a point before the last `scale` of them read as (digits, scale) |
| Currency.ParseWithPoint | paperless-ngx-tag-exporter.py:433 | `whole.frac` reads as the digits of whole and frac, over 10^\|frac\| |
| Currency.ParseWithoutPoint | paperless-ngx-tag-exporter.py:433 | a digit string reads as its value with scale 0 |
| Currency.DecimalTextNumeric | paperless-ngx-tag-exporter.py:432 | every character of a written decimal survives the filter |
| Currency.ParseCurrencyIgnoresOtherCharacters | paperless-ngx-tag-exporter.py:432-433 | characters other than digits, `.` and `-` never change the amount |
| Currency.ParseCurrencyWithCode | paperless-ngx-tag-exporter.py:428-433 | a currency code in front of a written decimal is dropped and the decimal read back exactly, e.g. `EUR5.00` is 5.00 |
| Currency.TwoDotsFallBack | paperless-ngx-tag-exporter.py:433-436 | a filtered value with two points is not a float, so the amount is 0.0 |
| Currency.TwoDotsNoNumber | paperless-ngx-tag-exporter.py:433 | a body with two points never parses |
| Currency.ParseCodeWholeFrac | paperless-ngx-tag-exporter.py:428-433 | `<code><whole>.<frac>` reads as whole and frac over 10^\|frac\| |
| Currency.NumericPartDropsCode | paperless-ngx-tag-exporter.py:432 | a prefix without numeric characters is dropped and the rest kept |
| Currency.FormatCodeWholeFrac | paperless-ngx-tag-exporter.py:442-445 | format_currency of `<code><whole>.<frac>` is the digits of whole and frac in minor units |
| Currency.ExampleTwoDotsFallBack | paperless-ngx-tag-exporter.py:433-436 | `"1.2.3"` parses to 0.0 |
| Currency.ExampleGarbageFallsBack | paperless-ngx-tag-exporter.py:433-436 | example: `"garbage"` parses to 0.0 |
| Currency.NoDigitFallsBack | paperless-ngx-tag-exporter.py:428-436 | every value without a digit parses to 0.0, whatever `.` and `-` it holds |
| Currency.UnsignedNeedsDigit | paperless-ngx-tag-exporter.py:433 | float() reads nothing from a text without a digit |
| Currency.FormatCurrencyMinorUnits | paperless-ngx-tag-exporter.py:442-445 | `<code><n>` formats as n minor units |
| Currency.TwoDecimalsAgree | paperless-ngx-tag-exporter.py:428-451 | with exactly two decimals, both readings give the same amount |
| Currency.OneDecimalDisagrees | paperless-ngx-tag-exporter.py:428-451 | with one decimal, format_currency reads ten times less than parse_currency |
| Currency.DigitsOfPointText | paperless-ngx-tag-exporter.py:442 | the digit filter removes exactly the point a decimal text inserts |
| Currency.ParseFloat | paperless-ngx-tag-exporter.py:433 | definition: `float()` of the filtered text: an optional `-`, digits with at most one `.`, at least one digit; None otherwise |
| Dates.Pad2 | paperless-ngx-tag-exporter.py:509 | a two-digit field that reads back as n |
| Dates.Pad4 | paperless-ngx-tag-exporter.py:509 | a four-digit year that reads back as n |
| Dates.DayText | paperless-ngx-tag-exporter.py:509 | `%d.%m.%Y` is ten characters |
| Dates.MinuteText | paperless-ngx-tag-exporter.py:511 | `%d.%m.%Y %H:%M` is sixteen characters |
| Dates.Stamp | paperless-ngx-tag-exporter.py:167 | `%Y%m%d` is eight digits |
| Dates.SecondStamp | paperless-ngx-tag-exporter.py:526 | `%Y%m%d_%H%M%S` is fifteen characters |
| Dates.ParseDate | paperless-ngx-tag-exporter.py:493-514 | None for empty or unparseable input; exactly `%d.%m.%Y` of the timestamp when hour and minute are both 0; otherwise a text that strptime `%d.%m.%Y %H:%M` reads back as the timestamp's day, hour and minute |
| Dates.DayTextHasNoSpace | paperless-ngx-tag-exporter.py:509 | the date-only form holds no space |
| Dates.ParseDayText | paperless-ngx-tag-exporter.py:479 | strptime `%d.%m.%Y` accepts only real calendar days |
| Dates.ParseMinuteText | paperless-ngx-tag-exporter.py:477 | strptime `%d.%m.%Y %H:%M` accepts only real calendar days, hours below 24 and minutes below 60, and yields all three |
| Dates.FormatDate | paperless-ngx-tag-exporter.py:456-491 | None for empty input and for any format other than `yyyy-mm`/`yyyy-mm-dd`; 7 and 10 characters otherwise |
| Dates.MonthIsPrefixOfDay | paperless-ngx-tag-exporter.py:482-485 | `yyyy-mm` succeeds exactly when `yyyy-mm-dd` does and is its first seven characters |
| Dates.ReadDayText | paperless-ngx-tag-exporter.py:479 | strptime reads back the day parse_date wrote |
| Dates.ReadMinuteText | paperless-ngx-tag-exporter.py:477 | strptime reads back the day, hour and minute parse_date wrote |
| Dates.ParseThenFormat | paperless-ngx-tag-exporter.py:355-373 | format_date of parse_date's output is the ISO month and ISO day of the timestamp |
| Dates.IsoInputIsNotCanonical | paperless-ngx-tag-exporter.py:476-479 | the ISO string itself is in neither accepted shape and formats to None |
| Dates.MinuteDay | paperless-ngx-tag-exporter.py:476-477 | the day of a text strptime `%d.%m.%Y %H:%M` accepts, and None exactly when it rejects it |
| Dates.NotCanonicalFormatsToNone | paperless-ngx-tag-exporter.py:476-479 | any text with neither a space nor a `.` fits neither strptime pattern, so it formats to None, for every pattern |
| CustomFields.Falsy | paperless-ngx-tag-exporter.py:401-403 | definition: `not field_id`, a missing, null or 0 id |
| CustomFields.ValueOf | paperless-ngx-tag-exporter.py:411 | definition: `custom_field.get("value", "")` |
| CustomFields.Lookup | paperless-ngx-tag-exporter.py:405-410 | an unknown id gets name `Feld <id>` and type `string`; a known id gets its definition |
| CustomFields.SelectLabel | paperless-ngx-tag-exporter.py:418-422 | the option's label when the value is one of the choices, otherwise `Wert <value>` |
| CustomFields.ProcessCustomFields | paperless-ngx-tag-exporter.py:395-426 | no `custom_fields` key gives an empty result; otherwise the loop ends as the entry-by-entry fold does |
| CustomFields.StepApplies | paperless-ngx-tag-exporter.py:400-424 | proof step: one more entry is one more loop step |
| CustomFields.FailureSticks | paperless-ngx-tag-exporter.py:414-416 | once an entry raises, the rest of the entries change nothing |
| CustomFields.Truthy | paperless-ngx-tag-exporter.py:402-403 | keeps only entries with a truthy field id |
| CustomFields.FailsIffIntMonetary | paperless-ngx-tag-exporter.py:413-416 | among null, text and integer values, the loop raises exactly when a monetary entry holds an integer |
| CustomFields.ApplyKeys | paperless-ngx-tag-exporter.py:413-424 | one step keeps distinct keys and adds exactly the keys it writes |
| CustomFields.ApplyCurrency | paperless-ngx-tag-exporter.py:417 | a monetary step appends the field's name to the currency list, any other adds nothing |
| CustomFields.ResolveSnoc | paperless-ngx-tag-exporter.py:400-424 | proof step: the fold over entries plus one is one step after the fold |
| CustomFields.KeysAreWritten | paperless-ngx-tag-exporter.py:413-424 | the dict's keys are distinct and exactly the names the entries write |
| CustomFields.CurrencyListIsMonetaryNames | paperless-ngx-tag-exporter.py:417 | the currency list is the monetary field names in entry order, repeats kept |
| CustomFields.CurrencyColumnsPresent | paperless-ngx-tag-exporter.py:415-417 | every listed monetary field has both `name` and `name_formatted` keys |
| CustomFields.ApplyKeepsMonetaryColumns | paperless-ngx-tag-exporter.py:415-417 | one step keeps every monetary column's two keys |
| CustomFields.ApplyFalsy | paperless-ngx-tag-exporter.py:402-403 | an entry with a falsy id changes nothing |
| CustomFields.FalsyEntriesIgnored | paperless-ngx-tag-exporter.py:402-403 | dropping every falsy-id entry gives the same result |
| CustomFields.LastEntryDecides | paperless-ngx-tag-exporter.py:413-424 | the final entry of the list sets its name's value: parsed and formatted amounts, the choice label, or the raw value |
| CustomFields.UnknownFieldPassesThrough | paperless-ngx-tag-exporter.py:409-411 | an undefined id stores the raw value under `Feld <id>` |
| CustomFields.Apply | paperless-ngx-tag-exporter.py:400-424 | definition: one entry of the loop; a falsy id is skipped, a monetary field writes both columns or raises on an integer, a select field writes its label, any other field its raw value |
| CustomFields.ResolveAll | paperless-ngx-tag-exporter.py:399-424 | definition: the loop over the entries as a fold of Apply that stops at the first raise |
| Json.Str | paperless-ngx-tag-exporter.py:420-422 | str() of text, None and integers |
| Rows.Selected | paperless-ngx-tag-exporter.py:341-343 | definition: a document is processed when the export covers all documents or the tag is among its tags |
| Rows.DateCell | paperless-ngx-tag-exporter.py:363-373 | definition: the cell of a parsed or formatted date, or None |
| Rows.Name | paperless-ngx-tag-exporter.py:356-376 | definition: the cell of a get_name_from_id answer for an endpoint and id |
| Rows.TagLabel | paperless-ngx-tag-exporter.py:358 | a tag's name, or `Tag <id>` when the tag is unknown |
| Rows.TagLabels | paperless-ngx-tag-exporter.py:358 | one label per tag of the document, in order |
| Rows.LeadingCells | paperless-ngx-tag-exporter.py:353-358 | one cell per leading column |
| Rows.TrailingCells | paperless-ngx-tag-exporter.py:363-381 | one cell per trailing column |
| Rows.RowColumns | paperless-ngx-tag-exporter.py:353-382 | the row's keys are the leading names, the custom fields and the trailing names; the first five are ID, AddDateFull, Korrespondent, Titel, Tags |
| Rows.AssembleKeys | paperless-ngx-tag-exporter.py:353-382 | the pairs' keys are the leading names, the custom keys, then the trailing names |
| Rows.RowCustomValue | paperless-ngx-tag-exporter.py:361 | a custom field keeps its value in the row unless a trailing column has its name |
| Rows.RowNotesLast | paperless-ngx-tag-exporter.py:381 | the Notes column always holds the document's value under the key `Notes` |
| Rows.RStripChars | paperless-ngx-tag-exporter.py:161 | rstrip removes the longest suffix made of the given characters |
| Rows.AsWrittenBaseUrl | paperless-ngx-tag-exporter.py:161 | definition: `api_url.rstrip("/api")`, which strips the characters `/`, `a`, `p`, `i` from the end |
| Rows.BaseUrl | paperless-ngx-tag-exporter.py:160-161 | a URL ending in `/api` loses exactly that suffix, and any other URL is kept |
| Rows.BaseUrlDropsApi | paperless-ngx-tag-exporter.py:160-161 | `<base>/api` gives back `<base>` |
| Rows.AsWrittenAgrees | paperless-ngx-tag-exporter.py:161 | the code as written is right when the server part ends in none of `/`, `a`, `p`, `i` |
| Rows.AsWrittenCutsHostName | paperless-ngx-tag-exporter.py:161 | as written, `http://raspi/api` becomes `http://ras` instead of `http://raspi` |
| Rows.LinkFormula | paperless-ngx-tag-exporter.py:251 | the formula starts `=HYPERLINK("` and links to `<base>/documents/<id>/details` |
| Rows.DetailsLink | paperless-ngx-tag-exporter.py:247-252 | as written: an ID of 0 is left as is; any other ID becomes a formula linking to `<rstrip base URL>/documents/<id>/details` |
| Rows.CorrectedDetailsLink | paperless-ngx-tag-exporter.py:247-252 | as intended: the same cell, linking to `<API URL without its /api ending>/documents/<id>/details` |
| Rows.LinkTarget | paperless-ngx-tag-exporter.py:251 | corrected, the formula for `<server>/api` links to `<server>/documents/<id>/details` for every server |
| Rows.DetailsLinksAgree | paperless-ngx-tag-exporter.py:161 | the cell as written is the intended one when the server part ends in none of `/`, `a`, `p`, `i` |
| Rows.LinkCutsHostName | paperless-ngx-tag-exporter.py:161 | as written, document 7 under `http://raspi/api` links into `http://ras/` instead of `http://raspi/` |
| Rows.Row | paperless-ngx-tag-exporter.py:353-382 | definition: the OrderedDict built from the leading pairs, the custom fields and the trailing pairs, later keys overwriting earlier values in place |
| Folders.HasFileFrom | paperless-ngx-tag-exporter.py:314-321 | definition: some file of the directory was last modified today |
| Folders.IsZip | paperless-ngx-tag-exporter.py:533-541 | definition: `file.endswith('.zip')`, case-sensitive |
| Folders.Packed | paperless-ngx-tag-exporter.py:530-536 | definition: the files other than `.zip` files, which the archive packs |
| Folders.ArchiveName | paperless-ngx-tag-exporter.py:524-527 | the archive's name ends in `.zip` |
| Folders.PreparedFolder | paperless-ngx-tag-exporter.py:530-542 | afterwards only `.zip` files remain, earlier archives are kept, and the new archive holds exactly the non-`.zip` files |
| Folders.Candidate | paperless-ngx-tag-exporter.py:167-177 | every name tried extends the base and ends in `.xlsx` |
| Folders.CandidateInjective | paperless-ngx-tag-exporter.py:173-177 | different counters give different names |
| Folders.TriedCount | paperless-ngx-tag-exporter.py:173-177 | n turns of the loop try n different names |
| Folders.TriedMisses | paperless-ngx-tag-exporter.py:173-177 | a name not yet reached was not tried |
| Folders.TriedWithin | paperless-ngx-tag-exporter.py:173-177 | the names the loop passed over are all in the folder |
| Folders.CandidatesFit | paperless-ngx-tag-exporter.py:173-177 | the loop passes over no more names than the folder holds, so it ends |
| Folders.FirstFreeUnique | paperless-ngx-tag-exporter.py:172-177 | the chosen name is determined by the folder and overwrites nothing |
| Folders.Prepared | paperless-ngx-tag-exporter.py:516-544 | definition: the `.zip` files kept, everything else removed, and the new archive `##<tag>_<stamp>.zip` packing the rest |
| Folders.SheetBase | paperless-ngx-tag-exporter.py:167 | definition: `##export-<tag>-<yyyymmdd>` |
| Folders.FirstFree | paperless-ngx-tag-exporter.py:172-177 | definition: the name the loop stops at: a free candidate with every earlier candidate taken |
| Exporter.CustomOf | paperless-ngx-tag-exporter.py:395-426 | definition: no `custom_fields` key gives the empty result, otherwise the fold over the entries |
| Exporter.FolderOr | paperless-ngx-tag-exporter.py:335 | definition: the tag directory's content, empty when makedirs creates it |
| Exporter.WithPdf | paperless-ngx-tag-exporter.py:124-133 | the PDF is saved only on status 200, and no other file changes |
| Exporter.WithJson | paperless-ngx-tag-exporter.py:142-147 | the JSON is written or replaced, and no other file changes |
| Exporter.WriteFiles | paperless-ngx-tag-exporter.py:386-387 | no file is lost, the JSON is present, and the PDF is present on status 200 |
| Exporter.StepWrites | paperless-ngx-tag-exporter.py:341-388 | proof step: a selected document's turn writes its files, appends its row twice and extends the currency list |
| Exporter.RunSnoc | paperless-ngx-tag-exporter.py:341-388 | proof step: the loop over one more document is one more turn, unless it has already raised |
| Exporter.ErrorSticks | paperless-ngx-tag-exporter.py:349 | once the loop raises, later documents change nothing |
| Exporter.RunEnds | paperless-ngx-tag-exporter.py:341-388 | stopping at the end or at the first raise gives the whole loop's result |
| Exporter.SelectedDocs | paperless-ngx-tag-exporter.py:343-344 | a document is processed exactly when the export covers all documents or it carries the tag |
| Exporter.Twice | paperless-ngx-tag-exporter.py:384-388 | each element is given twice, in a row |
| Exporter.StepError | paperless-ngx-tag-exporter.py:349 | a turn raises exactly when it is a selected document whose custom fields raise |
| Exporter.RunFailsIff | paperless-ngx-tag-exporter.py:341-388 | the loop raises exactly when some selected document's custom fields raise |
| Exporter.StepRows | paperless-ngx-tag-exporter.py:343-388 | a skipped document changes nothing; a selected one appends its row twice |
| Exporter.RunRows | paperless-ngx-tag-exporter.py:384-388 | without a raise, document_data is every selected document's row, each twice, in order |
| Exporter.LoggedCount | paperless-ngx-tag-exporter.py:392 | the logged count is twice the number of selected documents |
| Exporter.StepFolder | paperless-ngx-tag-exporter.py:386-387 | a selected document writes its files, and a skipped one writes none |
| Exporter.RunWritesFiles | paperless-ngx-tag-exporter.py:386-387 | no file is lost, every selected document's JSON is present, and its PDF is present when the download answers 200 |
| Exporter.OutcomeOf | paperless-ngx-tag-exporter.py:349-392 | the export fails exactly when the loop raised |
| Exporter.Names | paperless-ngx-tag-exporter.py:594-595 | the names of the tags |
| Exporter.Missing | paperless-ngx-tag-exporter.py:613-615 | exactly the listed tags with no directory |
| Exporter.ExportRoot.HasFileFromToday | paperless-ngx-tag-exporter.py:306-322 | true exactly when the directory exists and holds a file modified today |
| Exporter.ExportRoot.PrepareTagDirectory | paperless-ngx-tag-exporter.py:516-544 | the tag directory becomes its prepared form, and nothing else changes |
| Exporter.ExportRoot.SpreadsheetName | paperless-ngx-tag-exporter.py:167-177 | the name chosen is free, and every candidate before it is taken |
| Exporter.ExportRoot.ExportPdf | paperless-ngx-tag-exporter.py:124-133 | the tag directory gains the download on status 200 |
| Exporter.ExportRoot.ExportJson | paperless-ngx-tag-exporter.py:142-147 | the tag directory gains the document's JSON |
| Exporter.ExportRoot.ExportDocument | paperless-ngx-tag-exporter.py:341-388 | one turn of the loop, as the function Step describes it |
| Exporter.ExportRoot.ExportRow | paperless-ngx-tag-exporter.py:353-388 | the row is appended twice and the files are written |
| Exporter.ExportRoot.WriteDocumentFiles | paperless-ngx-tag-exporter.py:386-387 | export_pdf then export_json |
| Exporter.ExportRoot.ExportDocuments | paperless-ngx-tag-exporter.py:341-388 | the loop matches RunDocs and leaves its folder in the tag directory |
| Exporter.ExportRoot.ExportNext | paperless-ngx-tag-exporter.py:341-388 | one more document of the loop |
| Exporter.ExportRoot.ExportTag | paperless-ngx-tag-exporter.py:337-392 | the loop runs, then the spreadsheet is saved under the first free name unless the loop raised |
| Exporter.ExportRoot.SaveSheet | paperless-ngx-tag-exporter.py:167-185 | the spreadsheet goes under the first free name |
| Exporter.ExportRoot.ProcessDocumentsByTag | paperless-ngx-tag-exporter.py:327-393 | ALLDocs is skipped with no change exactly when its directory holds a file from today; otherwise the directory is created and exported into |
| Exporter.ExportRoot.ExportIntoDirectory | paperless-ngx-tag-exporter.py:335-392 | makedirs, then the export |
| Exporter.ExportRoot.ExportJob | paperless-ngx-tag-exporter.py:588-591 | the job's directory exists afterwards and no other directory changes; a skipped ALLDocs changes nothing, otherwise the directory is the loop's result plus the spreadsheet under the first free name, and the raise is the loop's |
| Exporter.ExportRoot.ExportIfPresent | paperless-ngx-tag-exporter.py:595-615 | a tag with no directory is reported and changes nothing; otherwise only its own directory changes: it is archived, then exported into, and the raise is that export's |
| Exporter.ExportRoot.ArchiveAndExport | paperless-ngx-tag-exporter.py:606-612 | a present tag's directory is archived, then exported into, the raise is that export's, and no other directory changes |
| Exporter.ExportRoot.ExportTags | paperless-ngx-tag-exporter.py:594-615 | the loop creates no directory, reports the tags with none, touches no directory of an unlisted tag, and leaves each present tag of a unique name archived and exported into |
| Exporter.ExportRoot.ExportTagAt | paperless-ngx-tag-exporter.py:595-615 | one turn of the tag loop keeps the directories of earlier unique tags and exports into its own |
| Exporter.TagsExportedSnoc | paperless-ngx-tag-exporter.py:594-615 | proof step: one more turn extends the exported tags by the tag of that turn |
| Exporter.ExportRoot.ExportForTags | paperless-ngx-tag-exporter.py:577-615 | ALLDocs first, then each listed tag whose directory exists; only ALLDocs is added; the tags skipped are those without a directory; each present tag of a unique name other than ALLDocs ends archived and exported into |
| Exporter.Step | paperless-ngx-tag-exporter.py:341-388 | definition: one turn of the document loop: skip, raise on the custom fields, or append the row, write the files and append the row again |
| Exporter.RunDocs | paperless-ngx-tag-exporter.py:341-388 | definition: the document loop as turns of Step, stopping at the first raise |
| Fetch.LastPage | paperless-ngx-tag-exporter.py:95-112 | the first page from n on after which nothing more is requested; every page before it has a `next` |
| Fetch.UpTo | paperless-ngx-tag-exporter.py:94 | the pages 1 to k, in order |
| Fetch.FetchData | paperless-ngx-tag-exporter.py:90-114 | requests exactly pages 1..k; raises at page k on a bad status or a non-JSON body; otherwise returns the results of pages 1..k in order |
| Fetch.WholeRunGathered | paperless-ngx-tag-exporter.py:109-111 | when every page but the last has a `next`, the fetch stops at the last page |
| Fetch.FailureEndsFetch | paperless-ngx-tag-exporter.a.py:38-51 | the first page that is not a 200 is the last one requested |
| Fetch.LastPageFrom | paperless-ngx-tag-exporter.a.py:42-50 | from page m on, the fetch stops at the first page that does not go on |
| Fetch.GetNameFromId | paperless-ngx-tag-exporter.py:116-121 | the record's name (or `""`) on 200, `Unknown` on any other status |
| Fetch.Respond | paperless-ngx-tag-exporter.py:96 | definition: the answer to page n; 404 after the last page |
| Fetch.Gathered | paperless-ngx-tag-exporter.py:109 | definition: the `results` of pages 1..k, concatenated in order |
| Legacy.SameName | paperless-ngx-tag-exporter.a.py:144 | definition: `tname.lower() == tag_name.lower()` |
| Legacy.MatchAt | paperless-ngx-tag-exporter.a.py:144 | the position of the first tag whose name equals the directory's ignoring case |
| Legacy.FirstMatch | paperless-ngx-tag-exporter.a.py:144 | None exactly when no tag matches; otherwise the id of the first match in dict order |
| Legacy.ResolveTag | paperless-ngx-tag-exporter.a.py:144-145 | a match counts only when its id is not 0 |
| Legacy.MatchIgnoresCase | paperless-ngx-tag-exporter.a.py:144 | names equal ignoring case match the same tag |
| Legacy.UmlautIgnoresCase | paperless-ngx-tag-exporter.a.py:144 | `Ärzte` matches the directory `ärzte` |
| Legacy.ResolveIgnoresCase | paperless-ngx-tag-exporter.a.py:144-145 | names equal ignoring case resolve alike, and alike to their lower-case form |
| Legacy.SelectionMembers | paperless-ngx-tag-exporter.a.py:114-116 | a document gets a row exactly when it carries the tag, and there are no more rows than documents |
| Legacy.Ids | paperless-ngx-tag-exporter.a.py:122 | the rows' document ids, in order |
| Legacy.Links | paperless-ngx-tag-exporter.a.py:102-104 | the link of row k is `<url>/documents/<id of row k>` |
| Legacy.LinkInjective | paperless-ngx-tag-exporter.a.py:103 | different documents get different links |
| Legacy.LinksDistinct | paperless-ngx-tag-exporter.a.py:102-104 | rows of different documents never share a link |
| Legacy.HyperlinkColumn | paperless-ngx-tag-exporter.a.py:102-105 | the loop gives data row k (sheet row k + 2) the link of its document |
| Legacy.AddLink | paperless-ngx-tag-exporter.a.py:103-104 | one more row's link |
| Legacy.WrittenFiles | paperless-ngx-tag-exporter.a.py:113-130 | the loop loses no file, writes the JSON of every tagged document, and adds nothing but those documents' PDF and JSON |
| Legacy.SelectionSnoc | paperless-ngx-tag-exporter.a.py:114-130 | proof step: a tagged document adds one row; any other adds none |
| Legacy.TagExportSheet | paperless-ngx-tag-exporter.a.py:130-133 | the spreadsheet `export-<tag>-<yyyymmdd>.xlsx` holds one row per tagged document, in order, each linked to its document |
| Legacy.ProcessDocumentsByTag | paperless-ngx-tag-exporter.a.py:108-134 | only `export-<tag>` changes: it is created when missing, and ends with the documents' files and the spreadsheet |
| Legacy.WriteSheet | paperless-ngx-tag-exporter.a.py:132-133 | the spreadsheet replaces any file of its name |
| Legacy.MakeDirs | paperless-ngx-tag-exporter.a.py:111 | the directory exists afterwards, with its files kept |
| Legacy.ExportSelected | paperless-ngx-tag-exporter.a.py:113-130 | document_data is the tagged documents in order, and the directory gains their files |
| Legacy.ExportFiles | paperless-ngx-tag-exporter.a.py:128-129 | export_pdf then export_json, with the current exporter's file naming (see Left out) |
| Legacy.WithLogLine | paperless-ngx-tag-exporter.a.py:146-150 | the log gains exactly the new line at its end, and no other file changes |
| Legacy.ProcessTagsFromDirectories | paperless-ngx-tag-exporter.a.py:137-153 | the directory after the loop is the listing visited in order |
| Legacy.VisitAllKeys | paperless-ngx-tag-exporter.a.py:137-153 | no directory is removed, and every new one is `export-<a listed name>` |
| Legacy.WrittenKeepsLog | paperless-ngx-tag-exporter.a.py:113-133 | the export never touches a `tag_not_found.log` |
| Legacy.VisitKeepsLines | paperless-ngx-tag-exporter.a.py:139-153 | one entry keeps every directory and every line of its log |
| Legacy.VisitAllKeepsLines | paperless-ngx-tag-exporter.a.py:139-153 | the whole listing keeps every directory and every line of its log |
| Legacy.VisitLogs | paperless-ngx-tag-exporter.a.py:144-151 | a present directory that resolves to no tag gets the not-found line |
| Legacy.UnresolvedLogged | paperless-ngx-tag-exporter.a.py:139-151 | a directory resolving to no tag, or to id 0, ends with its not-found line in its own `tag_not_found.log` |
| Legacy.Selection | paperless-ngx-tag-exporter.a.py:114-116 | definition: the documents carrying the tag, in order |
| Legacy.TagDir | paperless-ngx-tag-exporter.a.py:110 | definition: `export-<tag>` |
| Legacy.SheetName | paperless-ngx-tag-exporter.a.py:131 | definition: `export-<tag>-<yyyymmdd>.xlsx` |
| Legacy.Link | paperless-ngx-tag-exporter.a.py:103 | definition: `<url>/documents/<id>` |
| Legacy.Written | paperless-ngx-tag-exporter.a.py:113-130 | definition: the folder after export_pdf and export_json of every tagged document, in order, with the current exporter's file naming (see Left out) |
| Legacy.TagExport | paperless-ngx-tag-exporter.a.py:108-133 | definition: the folder after the loop, with the spreadsheet of ids and links under SheetName |
| Legacy.NotFoundLine | paperless-ngx-tag-exporter.a.py:150 | definition: `<now> - Tag '<name>' not found on <host> by <user>` and a newline |
| Legacy.Visit | paperless-ngx-tag-exporter.a.py:139-153 | definition: one listed name; not a directory: nothing; no tag or id 0: the not-found line; otherwise the tag's export |
| Legacy.VisitAll | paperless-ngx-tag-exporter.a.py:137-153 | definition: the listing visited in order |

## Left out

- HTTP: every `requests.get` is replaced by its answer, given as data. Network failures, timeouts and the bodies of failed responses are not modelled.
- Spreadsheet rendering (paperless-ngx-tag-exporter.py:180-260; the styling at paperless-ngx-tag-exporter.a.py:80-99): fonts, fills, the merged header, SUM rows, banding and the auto-filter are calls into pandas and openpyxl. The spreadsheet is kept as its rows and the currency column list (legacy: its ids and links).
- `float()` and `locale.currency`: amounts are exact decimals and `format_currency` returns its amount in minor units. Rounding, the binary float value and the German locale text are not modelled.
- `dateutil.parser.isoparse` is a function parameter. strptime is modelled for the two-digit fields parse_date writes, not for the one-digit fields it also accepts.
- The clock, the host name, the user name and `os.listdir` are parameters. A failing `os.getlogin()` is not modelled.
- Zip compression: the archive is modelled as the set of names it packs. Subdirectories of a tag directory are not modelled (the folder is flat), so the `os.rmdir` clearing of paperless-ngx-tag-exporter.py:543-544 is not.
- Logging (`log_message`, `initialize_log`, `finalize_log`, `get_log_filename`), progress printing, tqdm and configuration loading are process plumbing.
- `get_custom_field_definitions` is an HTTP call. The definitions it builds are a parameter, and its exits on a bad answer are not modelled.
- `export_all_documents` (paperless-ngx-tag-exporter.py:553-574) is never called.
- The legacy row (paperless-ngx-tag-exporter.a.py:121-126) reads an undefined `tag_dict` and calls `.get` on a list. The legacy `main` calls the undefined `get_custom_field_definitions` (paperless-ngx-tag-exporter.a.py:173), so as written the script stops with a NameError before it exports anything. The model keeps each legacy row as its document and shows no cells.
- Legacy.ExportFiles: the legacy script defines no `sanitize_filename`, so its export_pdf and export_json (paperless-ngx-tag-exporter.a.py:63, :74) raise NameError on the first tagged document. The model instead names the files with the current exporter's `sanitize_filename` (paperless-ngx-tag-exporter.py:135-140) and writes them.
- Legacy.Written: the same borrowing. The folder it gives holds `<sanitized title>.pdf` and `.json` files that the legacy script as written never writes, since it raises NameError first.
- Legacy.LogLines: earlier content of a `tag_not_found.log` that the model did not write is not kept. The model knows only the lines it appended.
- Legacy.SameName: `str.lower()` is modelled on the ASCII and Latin-1 letters only. Case folding of other scripts (Greek, Cyrillic, Latin Extended) is not, so such names that differ only in case are reported not found.
- Strings.IsDigit: `str.isdigit()` and `float()` are modelled on the ASCII digits. Other Unicode digits (Arabic-Indic digits, superscripts) are dropped by the model. Python keeps them, so `float()` may read them or fail.
- Dates.Pad4: years below 1000 are zero-padded to four digits. glibc's `strftime("%Y")` writes them unpadded, and `strptime("%Y")` then rejects the text. The model covers four-digit years only.
- Fetch.GetNameFromId and Exporter.Remote: an answer to a name lookup or to a document's detail request is assumed to be JSON. A body that is not JSON (such as a proxy's HTML error page) makes `.json()` raise (paperless-ngx-tag-exporter.py:120, :347; paperless-ngx-tag-exporter.a.py:57, :119), which ends the run; this is not modelled. A JSON `null` name, which gives None rather than `""`, is not modelled either.
- Json.Value: floats, booleans, lists and objects are not modelled, so boolean, float and document-link custom fields are not. For a monetary field, any value that is neither a string nor null makes `filter(str.isdigit, value)` raise TypeError (paperless-ngx-tag-exporter.py:442), as an integer does; CustomFields.FailsIffIntMonetary states this for integers only.
- A `makedirs` over a plain file of the same name, which raises, is not modelled.
- Exporter.ExportRoot.ExportTags and Exporter.ExportRoot.ExportForTags: the content of a tag's directory is stated only for a tag that is the only one of its name in the list, since a repeated name is archived and exported again. ExportForTags does not state the ALLDocs content; Exporter.ExportRoot.ExportJob states it for that call.
- Exporter.ExportRoot.ProcessDocumentsByTag: `has_file_from_today` counts every regular file in the directory. Files in subdirectories are not modelled.

## Findings

| source | as written | input that shows it | evidently intended | confidence | as-written member | corrected member |
|---|---|---|---|---|---|---|
| paperless-ngx-tag-exporter.py:161 | `api_url.rstrip("/api")` removes every trailing `/`, `a`, `p` and `i` | `http://raspi/api` gives `http://ras`, so every ID hyperlink points to the wrong host | drop the `/api` suffix only (the comment beside it), giving `http://raspi` | not executed | Rows.LinkCutsHostName | Rows.LinkTarget |
