# ca-tools, modelled in Dafny

ca-tools is the American Numismatic Society's glue between its CollectiveAccess cataloguing
database and its publishing systems. This project models these parts of it:

- **The exporters.** They query CollectiveAccess for records, route each record, write
  NUDS/XML with a digital-representation block built from an image inventory, push the
  documents to eXist-db and queue Solr re-indexing.
- **The Mantis importer.** It stores the XML files of an extracted archive and re-indexes them.
- **reindex-query.** It re-indexes the public records of a query and lists the rest for deletion.
- **The QR-code resolver.** It redirects an accession number to its CollectiveAccess record.
- **The two CollectiveAccess information-service plugins.** Koha handles the ANS library
  catalogue. Numishare-Hoards handles the hoard gazetteers.

One Dafny module stands for each source file. Shared concepts are defined once:

- `Common`: PHP string functions as the scripts use them: `trim`, `explode`/`implode`,
  `ucfirst`, `substr`, and `$` matching before a final newline.
- `Assoc`: PHP's ordered associative arrays, with `ksort`.
- `Records`: a CollectiveAccess find response, record routing and the find query.
- `Store`: eXist-db URLs and staging file names.
- `IndexBatch`: the batching of stored accession numbers into Solr ingest jobs of
  `INDEX_COUNT`. It is a `RunState` class, because the scripts grow global arrays in place.
- `Inventory`, `DigRep`, `Xml`, `Sanitizer`: the NUDS export of export-ca.php.
- `ExportCa`, `ExportOnly`, `CaToMantis`, `ImportMantis`, `Reindex`: one per exporter script.
- `Koha`, `NumishareHoards`, `Resolver`: the plugins and the resolver.

The scripts loop over responses and append to global arrays. Those loops are methods with
loop invariants, proved equal to functions over the input. The properties that matter are
proved about those functions:

- routing by type and access;
- which accession numbers are stored and indexed;
- that every batch job is full but the last one, and that together they cover every stored
  number exactly once;
- round trips through the URL and file-name encodings;
- the ordering of plugin results;
- the attribute clean-up in the NUDS document being complete and idempotent.

Network replies (login tokens, find responses, eXist-db status codes, fetched JSON-LD) enter
as parameters. So do file contents, directory listings, the date and the existence of files.

## Model

| member | source | states |
|---|---|---|
| Common.Chomp | plugins/donum/Koha.php:111-112 | a `$` anchor accepts the subject with or without one trailing newline |
| Common.TrimLeftSpec | exporters/export-ca.php:36 | the result is a suffix that starts with no whitespace, and everything dropped was whitespace |
| Common.TrimRightSpec | exporters/export-ca.php:36 | the result is a prefix that ends with no whitespace, and everything dropped was whitespace |
| Common.TrimKeeps | exporters/export-ca.php:36 | trim leaves a string without surrounding whitespace unchanged |
| Common.TrimDropsNewline | exporters/export-ca.php:36 | trim removes the line terminator that fgets keeps |
| Common.TrimEnds | exporters/export-ca.php:36 | a trimmed string neither starts nor ends with whitespace |
| Common.SplitOn | exporters/export-ca.php:426 | explode always returns at least one part |
| Common.JoinSplit | exporters/export-ca.php:426 | implode with the same separator undoes explode |
| Common.SplitJoin | exporters/ca-to-mantis.php:323 | explode undoes implode when no part contains the separator |
| Common.SplitOnPrefix | exporters/export-ca.php:426 | a leading part free of the separator becomes the first segment |
| Common.FirstSegment | exporters/export-ca.php:305 | the first explode segment is everything before the first separator |
| Common.JoinCons | exporters/ca-to-mantis.php:323 | implode of a list with a new head is the head, the separator, then the rest |
| Common.JoinSnoc | exporters/ca-to-mantis.php:323 | implode of a list with a new last part appends the separator and that part |
| Common.Before | plugins/donum/Koha.php:164 | the result is the longest prefix before the first occurrence of the character |
| Common.Prefix | exporters/ca-to-mantis.php:183 | substr from 0 keeps a prefix of exactly the asked length, or the whole string |
| Common.UcFirst | plugins/numishare/Numishare-Hoards.php:159 | only the first character changes, and a lower-case ASCII letter becomes upper case |
| Common.AfterScheme | plugins/numishare/Numishare-Hoards.php:221 | what follows an `http://` or `https://` scheme is a proper suffix |
| Common.AfterSchemeOf | plugins/numishare/Numishare-Hoards.php:221 | both schemes are recognised and stripped exactly |
| Assoc.KeysCons | plugins/donum/Koha.php:193 | the keys of an array with a new head entry begin with that entry's key |
| Assoc.PutExisting | exporters/export-ca.php:287 | assigning an existing key keeps the key order and every other entry |
| Assoc.PutNew | plugins/donum/Koha.php:193 | assigning a new key appends it at the end |
| Assoc.GetPut | exporters/export-ca.php:287 | after assignment the key reads back the new value, and other keys are unchanged |
| Assoc.GetIsIn | exporters/export-ca.php:287 | a key reads back a value exactly when it is present, and that entry is in the array |
| Assoc.GetUnique | exporters/export-ca.php:287 | with unique keys, a read gives v exactly when the pair is stored |
| Assoc.PutUnique | exporters/export-ca.php:287 | assignment keeps keys unique |
| Assoc.Remove | exporters/export-ca.php:464 | removing a key (removeAttribute) never grows the array |
| Assoc.GetRemove | exporters/export-ca.php:464 | after removing a key (removeAttribute) it is absent, and other keys are unchanged |
| Assoc.RemoveAbsent | exporters/export-ca.php:464 | removing an absent key (removeAttribute) changes nothing |
| Assoc.BelowIrreflexive | plugins/numishare/Numishare-Hoards.php:119 | the key order is strict |
| Assoc.BelowTransitive | plugins/numishare/Numishare-Hoards.php:119 | the key order is transitive |
| Assoc.BelowTotal | plugins/numishare/Numishare-Hoards.php:119 | any two distinct keys are ordered |
| Assoc.InsertByKeyElements | plugins/numishare/Numishare-Hoards.php:119 | insertion adds exactly the one entry |
| Assoc.InsertByKeySorted | plugins/numishare/Numishare-Hoards.php:119 | insertion into a sorted array with a fresh key keeps it sorted |
| Assoc.KSortCorrect | plugins/numishare/Numishare-Hoards.php:119 | ksort returns a permutation of the same entries, sorted by key |
| Assoc.SortedUnique | plugins/numishare/Numishare-Hoards.php:119 | a strictly key-sorted array has unique keys |
| Records.Classify | exporters/export-ca.php:188-209 | hoards are ignored, and the other records are published iff public, withdrawn iff not |
| Records.ClassifyDependsOnTypeAndAccess | exporters/ca-to-mantis.php:152-158 | routing depends on nothing but the type and, for non-hoards, the access |
| Records.QueryFor | exporters/export-ca.php:53-63 | no argument or `yesterday` queries yesterday's changes, `today` today's, anything else is the query itself |
| Records.FindUrl | exporters/export-ca.php:69 | the find request carries the query after the JSON find path and ends with the token |
| Records.ExportCommandShape | exporters/export-ca.php:295 | the caUtils NUDS export for the record id writes to the named file |
| Records.DeleteUrlInjective | exporters/export-ca.php:202 | distinct accession numbers get distinct delete requests |
| Store.StoreUrl | exporters/ca-to-mantis.php:182-187 | the document URL sits under the collection's objects path and ends with the accession number and `.xml` |
| Store.StoreUrlInjective | exporters/import-mantis.php:103-108 | distinct accession numbers are stored at distinct URLs |
| Store.StagingPath | exporters/export-ca.php:293 | the staging file sits directly in the staging directory under its staging name |
| Store.StagingName | exporters/import-mantis.php:110 | the staging name starts with the accession number and ends in `.xml` |
| Store.AccnumOfPlain | exporters/import-mantis.php:56 | stripping `.xml` from a name that lacks it returns the name |
| Store.AccnumOfStagingName | exporters/import-mantis.php:54-58 | the accession number is recovered from its staging name when it contains no `.xml` |
| Store.AccnumOfLossy | exporters/import-mantis.php:56 | str_replace strips every `.xml`, so a number that contains one is not recovered |
| IndexBatch.ChunksSizes | exporters/ca-to-mantis.php:233-239 | there are floor(n / INDEX_COUNT) flushed jobs, each of exactly INDEX_COUNT numbers |
| IndexBatch.ChunksCover | exporters/ca-to-mantis.php:233-239 | the flushed jobs concatenate to the prefix of the stored numbers |
| IndexBatch.AllJobsCover | exporters/ca-to-mantis.php:92-98 | the flushed jobs and the final job together cover every stored number once, in order |
| IndexBatch.FinalJobSize | exporters/ca-to-mantis.php:92-98 | the final flush holds the n mod INDEX_COUNT remaining numbers, is empty when they divide evenly, and is absent when nothing was stored |
| IndexBatch.AllJobsBounded | exporters/reindex-query.php:120-128 | no job exceeds INDEX_COUNT numbers |
| IndexBatch.OpenFailureShape | exporters/ca-to-mantis.php:198-200 | the logged error line names the accession number and ends the line |
| IndexBatch.RunState.constructor | exporters/ca-to-mantis.php:20-30 | a run starts with no stored numbers, no errors and no jobs |
| IndexBatch.RunState.Add | exporters/ca-to-mantis.php:230-239 | a stored number is appended, and a job of the last INDEX_COUNT numbers is queued exactly when the count reaches a multiple |
| IndexBatch.RunState.AddError | exporters/ca-to-mantis.php:197-200 | an error is appended and nothing else changes |
| IndexBatch.RunState.Finish | exporters/ca-to-mantis.php:92-98 | the final job is queued, and the jobs then cover every stored number in order |
| IndexBatch.IngestUrlIds | exporters/ca-to-mantis.php:323 | the ingest URL carries exactly the job's accession numbers, `%7C`-separated |
| IndexBatch.TerminatedJoin | exporters/ca-to-mantis.php:326-330 | the script is its lines, each terminated by a newline |
| IndexBatch.IndexScriptLines | exporters/ca-to-mantis.php:326-330 | the indexing script is exactly five commands, each on its own line |
| Inventory.DigitRun | exporters/export-ca.php:35 | the run of digits found is all digits and maximal |
| Inventory.DigitRunOver | exporters/export-ca.php:35 | a digit run followed by a non-digit ends where it should |
| Inventory.ImageNameSound | exporters/export-ca.php:35 | every accepted name is four digits, digits, digits, then a side, with `.noscale.jpg` |
| Inventory.ImageNameComplete | exporters/export-ca.php:35 | every name of that shape is accepted |
| Inventory.ImageNameIff | exporters/export-ca.php:35 | acceptance is exactly that shape |
| Inventory.ImageNameOneLine | exporters/export-ca.php:35 | an accepted name contains no newline |
| Inventory.ReadInventory | exporters/export-ca.php:29-39 | the loop keeps, trimmed and in file order, exactly the lines that match the pattern |
| Inventory.TrimMatchingLine | exporters/export-ca.php:35-36 | trimming a matching line only drops its line terminator |
| Inventory.InventoryNames | exporters/export-ca.php:32-38 | every kept name matches the image-name pattern |
| Inventory.InventoryComplete | exporters/export-ca.php:32-38 | every matching line is kept |
| Inventory.InventorySound | exporters/export-ca.php:32-38 | every kept name comes from a matching line |
| Inventory.SideOfIff | exporters/export-ca.php:284-285 | an image belongs to an accession number with a side exactly when it is named `<accnum>.<side>.noscale.jpg` |
| Inventory.CollectImages | exporters/export-ca.php:283-289 | the loop builds the side-to-file array of the record's images |
| Inventory.ImagesForLastWins | exporters/export-ca.php:287 | each side is listed once, with the last file of that side in inventory order |
| Inventory.ImagesForKeys | exporters/export-ca.php:283-289 | a side is present exactly when some inventory file shows it for this record |
| Inventory.LastOfSideFinds | exporters/export-ca.php:287 | a side shown by some file has a last file |
| Inventory.LastOfSideIndex | exporters/export-ca.php:287 | the last file of a side is an inventory file showing that side |
| Inventory.YearFromPrefix | exporters/export-ca.php:305-306 | the year is the four-digit segment before the first dot |
| Inventory.YearOfImageName | exporters/export-ca.php:305-306 | the year is the first four characters of a matching image name |
| Inventory.MatchedYearIsFourDigits | exporters/export-ca.php:305-306 | a record with a matching image has a four-digit year |
| DigRep.DecimalValue4 | exporters/export-ca.php:308-321 | a four-digit year has its decimal value |
| DigRep.YearBucketRange | exporters/export-ca.php:308-321 | years from 2050 on get no image path; earlier years get the bucket whose range holds them |
| DigRep.WriteDigRep | exporters/export-ca.php:323-445 | the DOM calls build the digRep block of obverse, reverse and other-image groups |
| DigRep.OtherGroupsCount | exporters/export-ca.php:425-442 | every image that is neither obverse nor reverse gets one group |
| DigRep.FileGroupsCount | exporters/export-ca.php:338-442 | there is exactly one file group per collected image |
| DigRep.SplitOnDot | exporters/export-ca.php:426 | a dot-free head becomes the first segment |
| DigRep.SplitOnFourth | exporters/export-ca.php:426 | the fourth segment of a dotted name is its fourth part |
| DigRep.OtherGroupUse | exporters/export-ca.php:426-430 | for an accession number of three dot-free parts and a dot-free side, the USE of an other image is its side |
| DigRep.SideGroupNamesMatchedFile | exporters/export-ca.php:341-358 | the obverse group's IIIF and archive links name the matched image file |
| Xml.AppendChild | exporters/export-ca.php:490 | the child is appended last, and the existing children, name and attributes are kept |
| Sanitizer.ApplySettles | exporters/export-ca.php:458-485 | after one rule runs, its attribute is settled |
| Sanitizer.SettledFixed | exporters/export-ca.php:458-485 | a rule leaves a settled element unchanged |
| Sanitizer.ApplyKeeps | exporters/export-ca.php:458-485 | a rule touches no attribute it does not write |
| Sanitizer.Rules | exporters/export-ca.php:458-541 | five rules with the date rules, three without; no rule writes an attribute another rule reads |
| Sanitizer.RulesChosen | exporters/export-ca.php:458-541 | the certainty, variant and link rules always run, the two empty-date rules exactly when `dates` is set (the record has no images) |
| Sanitizer.ApplyAllKeeps | exporters/export-ca.php:458-485 | the rules together touch no attribute they do not write |
| Sanitizer.ApplyAllSettles | exporters/export-ca.php:458-485 | a rule stays settled after the later rules run |
| Sanitizer.ApplyAllFixed | exporters/export-ca.php:458-485 | rules all settled on an element change nothing |
| Sanitizer.SanitizeAttrsClean | exporters/export-ca.php:502-541 | after clean-up every rule's attribute is settled |
| Sanitizer.SanitizeAttrsIdempotent | exporters/export-ca.php:502-541 | cleaning a second time changes nothing |
| Sanitizer.SanitizeAttrsKeeps | exporters/export-ca.php:458-541 | attributes other than certainty, variant, the xlink pair and (with dates) calendar and standardDate are untouched |
| Sanitizer.SanitizeCertainty | exporters/export-ca.php:458-469 | a true certainty (`true`, `boolean_true`) becomes the uncertain value, a false one (`false`, `boolean_false`, `""`) is removed, any other value is kept |
| Sanitizer.SanitizeVariant | exporters/export-ca.php:471-478 | variant is removed exactly when it reads false |
| Sanitizer.SanitizeLink | exporters/export-ca.php:480-485 | an empty href loses the href and the xlink type; a non-empty one is kept |
| Sanitizer.SanitizeDates | exporters/export-ca.php:531-541 | on the no-image path an empty calendar or standardDate is removed and any other value is kept; on the image path both are untouched |
| Sanitizer.Pass | exporters/export-ca.php:458-460 | one XPath pass keeps the element's name and number of children |
| Sanitizer.Passes | exporters/export-ca.php:458-541 | the passes keep the element's name |
| Sanitizer.Sanitize | exporters/export-ca.php:458-541 | clean-up keeps the element's name |
| Sanitizer.MapAttrs | exporters/export-ca.php:458-541 | per-element clean-up keeps the tree's shape |
| Sanitizer.MapAfterPass | exporters/export-ca.php:458-541 | a whole-document pass followed by the rest equals every rule applied per element |
| Sanitizer.MapAttrsNone | exporters/export-ca.php:458-541 | no rules leave the document unchanged |
| Sanitizer.PassesPerElement | exporters/export-ca.php:458-541 | running the rules as successive document passes equals running them all on each element |
| Sanitizer.MapClean | exporters/export-ca.php:458-541 | every element of the cleaned tree is clean |
| Sanitizer.SanitizeClean | exporters/export-ca.php:458-541 | the exported document has no element left for any rule to change |
| Sanitizer.MapIdempotent | exporters/export-ca.php:458-541 | per-element clean-up is idempotent |
| Sanitizer.SanitizeIdempotent | exporters/export-ca.php:458-541 | cleaning an exported document again changes nothing |
| Sanitizer.SanitizeShape | exporters/export-ca.php:458-541 | clean-up keeps the document's tree shape and root name |
| ExportCa.OutcomeOf | exporters/export-ca.php:45-69 | the first query is sent exactly when the credentials are readable and the login gives a token, with the argument's query |
| ExportCa.NewImageFindUrl | exporters/export-ca.php:109-110 | a new image's record is looked up by `idno:<accnum>` |
| ExportCa.ProcessResponse | exporters/export-ca.php:166-219 | with a positive total the records from START on are routed in order; otherwise nothing happens |
| ExportCa.ActionsSkip | exporters/export-ca.php:181-188 | the records before START contribute nothing |
| ExportCa.ActionsBelow | exporters/export-ca.php:181-188 | a response no longer than START gives no actions |
| ExportCa.ActionsExport | exporters/export-ca.php:183-197 | a record is exported iff it is at or after START, not a hoard and public |
| ExportCa.ActionsDelete | exporters/export-ca.php:198-210 | a delete request is sent iff some record at or after START is a non-public non-hoard with that accession number |
| ExportCa.TrimIdempotent | exporters/export-ca.php:98-101 | trimming twice is trimming once |
| ExportCa.ReadNewImages | exporters/export-ca.php:96-104 | the loop trims each line and array_filter drops the falsy ones |
| ExportCa.KeepTruthyExact | exporters/export-ca.php:104 | a value survives array_filter iff it was present and is neither "" nor "0" |
| ExportCa.NewImageAccnumsExact | exporters/export-ca.php:96-106 | the accession numbers re-queried are exactly the trimmed lines that are neither "" nor "0", and they are trimmed |
| ExportCa.ExportRecordRun | exporters/export-ca.php:275-545 | the export writes to the staging path with a background caUtils command; without images it cleans dates, with images it appends the digRep |
| ExportCa.ExportedDocument | exporters/export-ca.php:487-491 | the exported document is the cleaned NUDS with the digRep as its last child |
| ExportCa.ExportYear | exporters/export-ca.php:304-321 | a record with images has a four-digit year, and it gets an image path iff that year is before 2050 |
| ExportOnly.ExportTargetPath | exporters/export_ca.php:159 | the export file is `/tmp/nuds/<accnum>.xml` |
| ExportOnly.ProcessResponse | exporters/export_ca.php:116-150 | with a positive total every public non-hoard record is exported in order; otherwise nothing |
| ExportOnly.CommandsExact | exporters/export_ca.php:128-141 | a command is run iff it is the export of some public non-hoard record |
| ExportOnly.CommandsIgnoreOthers | exporters/export_ca.php:133-140 | hoards and non-public records add no command |
| CaToMantis.OutcomeOf | exporters/ca-to-mantis.php:37-69 | the query is sent iff the credentials are readable, a known collection is given and the login gives a token; a missing collection argument stops the run |
| CaToMantis.SolrDeleteXmlInjective | exporters/ca-to-mantis.php:291 | distinct accession numbers get distinct Solr delete documents |
| CaToMantis.SameDocument | exporters/ca-to-mantis.php:182-187 | the eXist-db document an update stores is the one a delete removes |
| CaToMantis.Update | exporters/ca-to-mantis.php:170-250 | an update stores the export, records the number only on 201, and logs an error only when the file cannot be opened |
| CaToMantis.Handle | exporters/ca-to-mantis.php:151-158 | a record is updated, deleted or ignored as routed, with the same state change as its update |
| CaToMantis.ProcessResponse | exporters/ca-to-mantis.php:140-165 | with a positive total the records' requests, stored numbers and errors accumulate in order; otherwise nothing changes |
| CaToMantis.Run | exporters/ca-to-mantis.php:89-98 | the stored numbers are the response's, and the queued jobs cover them in batches |
| CaToMantis.StoredExact | exporters/ca-to-mantis.php:224-230 | a number is stored iff some public non-hoard record with it was answered 201 |
| CaToMantis.ErrorsExact | exporters/ca-to-mantis.php:197-200 | an error is logged iff some record's export file could not be opened |
| ImportMantis.Update | exporters/import-mantis.php:94-165 | one file is stored; the number is recorded only on 201, and an error is logged only when the file cannot be opened |
| ImportMantis.ImportFiles | exporters/import-mantis.php:54-60 | every listed file except `.` and `..` is imported, in listing order |
| ImportMantis.OutcomeOf | exporters/import-mantis.php:34-48 | files are imported iff a known collection is given and the archive opens |
| ImportMantis.Run | exporters/import-mantis.php:34-87 | a failed start sends nothing; otherwise the files are imported and the jobs cover the stored numbers |
| ImportMantis.StoredInListingOrder | exporters/import-mantis.php:54-60 | the stored numbers follow the listing order of their files |
| ImportMantis.StoredComplete | exporters/import-mantis.php:140-146 | every listed file answered 201 has its number stored |
| ImportMantis.StagedListing | exporters/import-mantis.php:54-58 | a file staged by the exporter is imported under its own accession number and URL |
| Reindex.OutcomeOf | exporters/reindex-query.php:19-62 | the query is sent iff the credentials are readable, a query argument is given and the login gives a token |
| Reindex.ProcessResponse | exporters/reindex-query.php:94-164 | the response's public records from START on are batched and the rest listed for deletion; the jobs cover the batch; with the batch started empty (corrected), a response with nothing to batch ends normally after its deletes with no job |
| Reindex.FinalCountFails | exporters/reindex-query.php:117-150 | as written, the final count reads `$accnums` undefined exactly when a positive total brings no public non-hoard record at or after START |
| Reindex.FinalCountFailsIff | exporters/reindex-query.php:117-150 | the as-written failure strikes exactly the responses with a positive total whose batch stays empty |
| Reindex.UndefinedBatchExample | exporters/reindex-query.php:108-150 | one non-public record at START 0: the delete is sent, then the final count fails |
| Reindex.BatchExact | exporters/reindex-query.php:111-117 | a number is batched iff a public non-hoard record at or after START has it |
| Reindex.BatchCount | exporters/reindex-query.php:113-128 | the batch has one number per public record at or after START, and batch and deletes together never exceed the response |
| Reindex.FullJobs | exporters/reindex-query.php:120-128 | every job but the last holds exactly INDEX_COUNT numbers |
| Koha.LibraryIdRest | plugins/donum/Koha.php:111-112 | a library URL yields the id after the library path |
| Koha.LibraryIdOf | plugins/donum/Koha.php:111-112 | any character where the unescaped dot stands is accepted, with or without a trailing newline |
| Koha.LibraryIdSound | plugins/donum/Koha.php:111-112 | an extracted id is non-empty and sits at the end of a library URL |
| Koha.JsonQueryBiblio | plugins/donum/Koha.php:111-113 | a library URL is queried by its biblio id |
| Koha.JsonQueryAuthorTitle | plugins/donum/Koha.php:115-119 | `author:title` becomes an author-and-title `-like` query |
| Koha.AuthorTitleSegments | plugins/donum/Koha.php:116-117 | the author is the text before the first colon and the title the text between the first and second |
| Koha.JsonQueryTitle | plugins/donum/Koha.php:120-122 | other text becomes a title prefix query |
| Common.TrimEach | exporters/export-ca.php:98-101 | every line is trimmed, none dropped (the same trim serves the title parts of plugins/donum/Koha.php:153-155) |
| Common.TrimEachAt | plugins/donum/Koha.php:153-155 | the i-th trimmed part is the i-th part trimmed |
| Koha.CollectTitle | plugins/donum/Koha.php:151-156 | the loop joins the trimmed title parts |
| Koha.ReplaceAllRemoves | plugins/donum/Koha.php:156 | replacing a character with text that lacks it leaves none |
| Koha.TitleClean | plugins/donum/Koha.php:156 | a title has no slash and no surrounding whitespace |
| Koha.LastName | plugins/donum/Koha.php:164-168 | an extracted last name is non-empty and has no comma |
| Koha.BeforeComma | plugins/donum/Koha.php:164-168 | the text before the first comma is the comma-free head |
| Koha.LastNameIff | plugins/donum/Koha.php:164-168 | a last name is extracted iff the trimmed field starts with it and a comma |
| Koha.LastNames | plugins/donum/Koha.php:160-169 | every collected last name is non-empty and comma-free |
| Koha.CollectLastNames | plugins/donum/Koha.php:160-169 | the loop collects the last names of the author fields in order |
| Koha.CombineAuthors | plugins/donum/Koha.php:171-188 | no authors keep the previous author text; otherwise the names are combined |
| Koha.AuthorsSplit | plugins/donum/Koha.php:176-188 | three or more names are comma-separated, with `and` before the last |
| Koha.Listed | plugins/donum/Koha.php:192-200 | each result keeps its label and id and links the library URL of the id |
| Koha.FileRecord | plugins/donum/Koha.php:145-193 | a record's label is the carried author and its title |
| Koha.FileInto | plugins/donum/Koha.php:145-194 | one foreach step extends the author and the items by that record |
| Koha.Lookup | plugins/donum/Koha.php:92-204 | a non-empty invalid service or a negative `count` gives no query and no results; otherwise the query is sent once and the records are listed by label |
| Koha.AuthorCarried | plugins/donum/Koha.php:160-190 | a record without authors inherits the author of the last record that had some |
| Koha.LabelAtPrefix | plugins/donum/Koha.php:190 | a record's label depends only on it and the records before it |
| Koha.ItemsLastWins | plugins/donum/Koha.php:193 | each label is listed once, for the last record with that label |
| Koha.LastWithLabelFinds | plugins/donum/Koha.php:193 | a label some record has is listed |
| Koha.LastWithLabelIndex | plugins/donum/Koha.php:193 | a listed label belongs to some record |
| Koha.ItemsKeys | plugins/donum/Koha.php:193 | a label is listed iff some record has it |
| Koha.ResultUrlRoundTrip | plugins/donum/Koha.php:192 | a result's URL looked up again finds the same biblio id |
| Koha.ExtendedInformationInjective | plugins/donum/Koha.php:213-214 | distinct URLs give distinct link texts |
| NumishareHoards.NameRunEnd | plugins/numishare/Numishare-Hoards.php:222 | the catalogue-name run found is maximal |
| NumishareHoards.NameRunOver | plugins/numishare/Numishare-Hoards.php:222 | a name run followed by another character ends where it should |
| NumishareHoards.HostLength | plugins/numishare/Numishare-Hoards.php:221-227 | a matched host ends with a slash inside the subject |
| NumishareHoards.ServicePrefix | plugins/numishare/Numishare-Hoards.php:221-227 | a recognised service is a non-empty prefix of the URL ending in a slash |
| NumishareHoards.IsServiceUrl | plugins/numishare/Numishare-Hoards.php:219-229 | falsy input gives no service; a service found is a prefix of the URL ending in a slash |
| NumishareHoards.NumismaticsHost | plugins/numishare/Numishare-Hoards.php:222 | the numismatics.org host pattern matches up to the slash after a catalogue name of letters and underscores |
| NumishareHoards.NumismaticsService | plugins/numishare/Numishare-Hoards.php:222 | a numismatics.org catalogue URL is recognised up to its catalogue's slash |
| NumishareHoards.CoinHoardsService | plugins/numishare/Numishare-Hoards.php:224 | a coinhoards.org URL is recognised up to the host's slash |
| NumishareHoards.CoinHoardsRecognised | plugins/numishare/Numishare-Hoards.php:42-45 | the coinhoards.org service is recognised and valid |
| NumishareHoards.ChrrRecognised | plugins/numishare/Numishare-Hoards.php:42-45 | the CHRR catalogue is recognised and valid |
| NumishareHoards.HttpsNotValid | plugins/numishare/Numishare-Hoards.php:238-240 | an https URL is recognised but its service fails validation |
| NumishareHoards.ServiceFieldLost | plugins/numishare/Numishare-Hoards.php:203-210 | as written, the service field of a coinhoards.org URL is null; corrected, it is the service |
| NumishareHoards.ServiceFieldRoundTrip | plugins/numishare/Numishare-Hoards.php:203-210 | corrected, a valid service URL fills the drop-down with that service |
| NumishareHoards.NoServiceNoField | plugins/numishare/Numishare-Hoards.php:203-210 | an unrecognised URL fills no field |
| NumishareHoards.SearchFor | plugins/numishare/Numishare-Hoards.php:93-96 | a search that is no URL is sent as typed, to the requested service |
| NumishareHoards.IdAfterSlashes | plugins/numishare/Numishare-Hoards.php:94 | the id follows any run of slashes and `id/` |
| NumishareHoards.RecordIdRewrite | plugins/numishare/Numishare-Hoards.php:94-96 | a record URL becomes a `recordId` search on its own service |
| NumishareHoards.ListIndex | plugins/numishare/Numishare-Hoards.php:112 | an index reads a value exactly when it is in range |
| NumishareHoards.IdnoNeverSet | plugins/numishare/Numishare-Hoards.php:112 | as written, index -1 of the exploded URL is always null, although a last segment exists |
| NumishareHoards.LastSegment | plugins/numishare/Numishare-Hoards.php:112 | the result is the slash-free tail of the URL after its last slash |
| NumishareHoards.CatalogueIdno | plugins/numishare/Numishare-Hoards.php:112 | corrected, a record URL's idno is its final id |
| NumishareHoards.Listed | plugins/numishare/Numishare-Hoards.php:106-121 | each result keeps its title and URL; its idno is the corrected one of the Findings, the URL's slash-free tail, where line 112 as written gives null |
| NumishareHoards.Lookup | plugins/numishare/Numishare-Hoards.php:80-122 | an invalid non-empty service or a negative `count` gives no search and no results; otherwise the search is sent once and the entries come back ksorted by title, with the corrected idno of Listed |
| NumishareHoards.ItemsLastWins | plugins/numishare/Numishare-Hoards.php:112 | each title is listed once, with the last URL given for it |
| NumishareHoards.LastUrlFinds | plugins/numishare/Numishare-Hoards.php:112 | every entry's title is listed |
| NumishareHoards.LastUrlIndex | plugins/numishare/Numishare-Hoards.php:112 | a listed URL is the one some entry with that title gave |
| NumishareHoards.ResultsSortedByTitle | plugins/numishare/Numishare-Hoards.php:106-121 | the results are strictly ordered by title, and each title an entry has is listed once, with its last URL |
| NumishareHoards.Values | plugins/numishare/Numishare-Hoards.php:160 | a scalar is displayed as itself, and an array as its members |
| NumishareHoards.PairTexts | plugins/numishare/Numishare-Hoards.php:164-168 | one text per member |
| NumishareHoards.ValueLines | plugins/numishare/Numishare-Hoards.php:162-173 | one line per value |
| NumishareHoards.MemberLines | plugins/numishare/Numishare-Hoards.php:153-174 | `@id` gives one line, and any other key gives one line per value |
| NumishareHoards.DisplayLines | plugins/numishare/Numishare-Hoards.php:147-178 | the display begins with the link to the URL |
| NumishareHoards.RenderValues | plugins/numishare/Numishare-Hoards.php:162-173 | the loop renders one line per value, in order |
| NumishareHoards.RenderNode | plugins/numishare/Numishare-Hoards.php:152-176 | the loop renders a graph node's members in order |
| NumishareHoards.ExtendedInformation | plugins/numishare/Numishare-Hoards.php:131-180 | an unmatched URL gives nothing; an invalid service is reported; otherwise the JSON-LD is fetched and rendered when it decodes to an array |
| NumishareHoards.ExtendedMatchOf | plugins/numishare/Numishare-Hoards.php:132-138 | a numismatics.org record URL splits into its service and id |
| NumishareHoards.BeforeNoChar | plugins/numishare/Numishare-Hoards.php:132 | text without a newline is matched whole by `(.*)` |
| NumishareHoards.DisplayStartsWithLink | plugins/numishare/Numishare-Hoards.php:147-179 | the joined display starts with the link line |
| Resolver.RequestedAccnum | qr/resolver.php:18-22 | the query parameter wins over the command-line argument, and there is none only when both are missing |
| Resolver.DbFor | qr/resolver.php:27-31 | an accession number that starts with `2222.1.` and a digit goes to the uro database, everything else to the main one |
| Resolver.UroSeries | qr/resolver.php:27-28 | every number in that series goes to uro |
| Resolver.NeighbourSeries | qr/resolver.php:27-31 | neighbouring series such as `2222.10` or `2222.1a` go to the main database: after `2222.1` the pattern demands a literal dot |
| Resolver.SeriesWithoutNumber | qr/resolver.php:27-31 | the prefix without a following digit goes to the main database |
| Resolver.ReplaceAllAbsent | qr/resolver.php:65 | str_replace on a string without the pattern changes nothing |
| Resolver.LoginUrlForm | qr/resolver.php:65 | the login URL embeds the credentials after the scheme and addresses the database's login path |
| Resolver.RedirectUrlInjective | qr/resolver.php:92 | distinct database and record pairs redirect to distinct URLs |
| Resolver.ErrorPageInjective | qr/resolver.php:112-119 | distinct messages give distinct error pages |
| Resolver.HttpError | qr/resolver.php:108-123 | only codes 404 and 400 answer, with that status and no redirect |
| Resolver.ProcessResponse | qr/resolver.php:85-106 | the loop builds the response of one find result |
| Resolver.RedirectsShape | qr/resolver.php:89-102 | the location is the last record's, and the body starts with the first record's page |
| Resolver.SingleHit | qr/resolver.php:88-99 | one hit gives a 302 to that record with one page |
| Resolver.BadRequest | qr/resolver.php:14-83 | a 400 answers exactly missing credentials, a missing accession number or a failed login, and then no query is sent |
| Resolver.RedirectOnlyOnHit | qr/resolver.php:36-106 | a redirect needs a token and exactly one hit, and points at that response's last record in the number's database |
| Resolver.NotFoundAfterLogin | qr/resolver.php:36-105 | after login, one query is sent, and anything but exactly one hit is a 404 naming the database |

## Findings

| source | as written | input that shows it | evidently intended | confidence | as-written member | corrected member |
|---|---|---|---|---|---|---|
| plugins/numishare/Numishare-Hoards.php:112 | `explode('/', $vs_url)[-1]` reads key -1, which explode never creates, so every result's idno is null | any URL, e.g. `http://coinhoards.org/id/x` | the last path segment, `x` | high, not executed | NumishareHoards.IdnoNeverSet | NumishareHoards.CatalogueIdno, NumishareHoards.Listed, NumishareHoards.Lookup |
| exporters/reindex-query.php:117-150 | `$accnums` is local to process_response (the file-level `$accnums = array()` is not declared `global`) and first assigned when a record is batched, so `count($accnums)` at line 150 reads an undefined variable, a TypeError in PHP 8, after the deletes were sent | total 1 with one non-public record and START 0 | the batch starts empty, nothing is indexed and the run ends normally | high, not executed | Reindex.FinalCountFails, Reindex.UndefinedBatchExample | Reindex.ProcessResponse |
| plugins/numishare/Numishare-Hoards.php:203-210 | the service value is `$m[1]`, but `$m` is never assigned in getAdditionalFieldValues, so the drop-down gets null | `http://coinhoards.org/id/x` | the service isServiceUrl returned, `http://coinhoards.org/` | high, not executed | NumishareHoards.ServiceFieldLost | NumishareHoards.ServiceFieldRoundTrip |

## Left out

- HTTP, curl, eXist-db, Solr, the file system and SSH are not modelled as effects. Their replies are inputs, and the requests sent are outputs.
- The clock is not modelled: dates enter as parameters (`today`, `yesterday`, `date`). `uniqid()` is a parameter too.
- PHP's urlencode and urldecode are not modelled. Decoded text is an input.
- Koha's validateService is not part of this model; its verdict is the input `serviceValid`. isURL is an input of the Numishare-Hoards lookup.
- `caUcFirstUTF8Safe` is modelled for ASCII only. `_t` translation is the identity.
- Numishare-Hoards getAdditionalFields builds UI HTML and is not modelled. The drop-down values are.
- The DOM is modelled on values: an element tree with ordered attributes. XPath queries other than `//*[@certainty]` and its siblings are not modelled. The NUDS that caUtils writes is an input, not parsed from a file.
- The race between the background `nohup` export and reading its output is not modelled. The document read is taken to be the finished export.
- zip_and_upload, rmdir_recursive and the SSH/SFTP transfer in export-ca.php are left out (remote effects only).
- Logging and echo output are left out, except the error lines collected in `RunState.errors`.
- The uniqid shell script is modelled as text. Writing it to /tmp and running it with shell_exec are left out.
- Malformed credential JSON is not modelled. The credentials either read or not.
- In ca-to-mantis.php and import-mantis.php, the `curl_error(...) === FALSE` branches are dead: curl_error returns a string, so upload and delete failures are never logged. The model logs nothing there, as the code does.
- The export_ca.php start-up (credentials, login, first query) is the same as ExportCa.OutcomeOf without the SSH file, so it has no member of its own.
- Koha.Lookup: the `maxcount` paging loop runs zero times for a negative `count` option (no request, no results) and otherwise exactly once, because it always breaks after its first fetch; the model has both cases. The clobbering of `$count` inside it has no effect after that break and is not modelled.
- Koha.Lookup: the exception thrown at plugins/donum/Koha.php:201-203 when curl is unavailable (the `else` of `if (caCurlIsAvailable())` at line 103) is not modelled; curl is taken to be available.
- ksort's treatment of numeric-string keys (compared as numbers) is not modelled: titles are compared as strings.
- DigRep.YearBucketRange: only four-digit years are bucketed. exporters/export-ca.php:308 is `switch ($collection_year)` with boolean cases: PHP compares the year text loosely with each case, which picks the first true case only for a truthy year; what it does on other texts (such as "0") is not modelled. A digRep is only written for records whose images match the four-digit pattern (ExportCa.ExportYear).
- Resolver.HttpError: codes other than 404 and 400 are modelled as a blank response, but the script never passes one.
- The regular expressions are modelled only for the patterns the scripts use, not as general PCRE.
- Inventory.SideOfIff (and Inventory.SideOf): the pattern of exporters/export-ca.php:284 is built from the accession number with only its dots escaped; the model matches the accession number literally, so a number holding other regular-expression metacharacters (`2020.1+` would also match `2020.11.obv.noscale.jpg`) or the `/` delimiter is not modelled.
- NumishareHoards.SearchFor (and NumishareHoards.IdAt): the pattern of plugins/numishare/Numishare-Hoards.php:94 interpolates `$service` with no escaping at all; the model matches the service literally. A service holding metacharacters, such as the `|` the host pattern of line 222 accepts in place of the dot (`http://numismatics|org/chrr/`), turns into a different pattern in PHP (there an alternation, so `recordId:""` is sent) and is not modelled.
- CaToMantis.ProcessResponse: the eXist-db reply to a PUT is a function of the record, so two identical records in one response get the same status, where the script sends two separate requests.
- Reindex.ProcessResponse: starts the batch empty (the corrected behaviour); when a positive total brings no public non-hoard record at or after START, PHP 8 stops with a TypeError at exporters/reindex-query.php:150 after the deletes, and PHP 7 warns and goes on as the model does (Reindex.FinalCountFails).
- NumishareHoards.Listed: the idno is the corrected one (the URL's last segment); as written, `explode('/', $vs_url)[-1]` is always null (NumishareHoards.IdnoNeverSet).
- NumishareHoards.Lookup: the `count` option never caps the results, as in the code (the loop breaks after one fetch); the model follows the code. An entry without a title reads `->nodeValue` of null at plugins/numishare/Numishare-Hoards.php:110, which PHP 8 answers with a warning and null, so it is filed under the key "" with a null label and the loop goes on; the model can express it as the pair ("", url), but its label is "" where PHP has null. Only an entry without a rel-less `atom:link` stops PHP with an Error, at line 111 (`getAttribute` on null); entries are modelled as (title, url) pairs, so that case is not represented.
