# LINZ WFS synchroniser — a Dafny model

`LINZ_WFS.py` keeps a local ArcGIS feature class in step with a layer published by
Land Information New Zealand (LINZ). It works in two ways:

- A full download asks the LINZ export API for a file geodatabase, polls until the export
  is complete and downloads it.
- A changeset run asks the WFS service for the rows changed since the last recorded time
  and applies the INSERT, UPDATE and DELETE rows to the target.

Around these sit the configuration loader, the command-line check, the retention purge
of old downloads, and a step that turns the id field into a LONG column with a unique index.

This project models that logic over abstract data:

- A table is a `FeatureClass` object with a field list, an index list and rows. Each row
  is a map from lower-cased field name to value.
- Files and feature classes to purge are `(name, ctime)` pairs, or names held in
  `Directory` and `Geodatabase` objects.
- The clock is an integer.
- Each HTTP reply is a value passed in as a parameter.
- `exit(n)` and a raised Python exception are the two kinds of `Stop`.

Modules, one per file:

| file | module | models |
|---|---|---|
| wrappers.dfy | Wrappers | `Option`, `Result`, `Stop`, Python error kinds |
| strings.dfy | Strings | ASCII predicates, `str.lower`, `in`, `endswith`, Python string order |
| slugify.dfy | Slug | `slugify` |
| arguments.dfy | Arguments | `checkArguments` |
| nested_dict.dfy | NestedDict | `update_nested_dict` |
| geometry_parts.dfy | GeometryParts | `part_split_at_nones` inside `geometryToGeojson` |
| feed_request.dfy | FeedRequest | the request parameters of `loadConfiguration`; the changeset window, `numberReturned` and `timeStamp` handling of `downloadChangeSet`; `update_last_updated_file` |
| dates.dfy | Dates | `datetime.strptime(val, '%Y-%m-%dT%H:%M:%SZ')` as a strict fixed-width parser |
| export_job.dfy | ExportJob | the validation gate and submission of `initiate_export`; the poll loop of `download_export` |
| tables.dfy | Tables | the `arcpy.management` field and index operations, on a `FeatureClass` |
| id_field.dfy | IdField | `convertIdFieldToInteger` |
| updates.dfy | Updates | `processUpdates` |
| changeset.dfy | Changeset | `applyChangeset` |
| purge.dfy | Purge | `purgeChangesets` |

The imperative parts are methods proved against specification functions. These have
loops, with loop invariants:

- the update dictionary loop and the update cursor loop;
- the poll loop;
- the purge deletion loops;
- the loop of `update_nested_dict`.

These change the table in place without a loop of their own:

- the delete and insert steps of a changeset;
- the field and index operations on a table;
- the schema steps of the id migration.

The pure parts are functions: `slugify`, `checkArguments`, the parameter rule,
`part_split_at_nones` and the date parser.

## Model

| member | source | states |
|---|---|---|
| Slug.Slugify | LINZ_WFS.py:246-268 | The result holds only ASCII letters, digits and `_`; it never starts with a digit; with `to_lower` it holds no upper-case letter. |
| Slug.NoHyphenSurvives | LINZ_WFS.py:253-260 | No `-` is left after the translation and the regex, because `-` is translated to `_` before the regex keeps hyphens. |
| Slug.SlugifyIdempotent | LINZ_WFS.py:246-268 | Slugifying a slug gives the same slug, with or without lower-casing. |
| Slug.SlugCharsFixed | LINZ_WFS.py:251-260 | A string already made of slug characters passes through the strip and the character clean-up unchanged. |
| Slug.AlnumsSurvive | LINZ_WFS.py:253-260 | The translation and the regex keep every ASCII letter and digit, in order. |
| Slug.SlugifyKeepsAlphanumerics | LINZ_WFS.py:246-264 | Without lower-casing, the slug holds exactly the ASCII letters and digits of the stripped input, in order. |
| Arguments.CheckArguments | LINZ_WFS.py:1089-1110 | Proceeds exactly when one selector is truthy; `exit()` (code 0) exactly when none is; `exit(1)` exactly when two or more are. |
| Arguments.CountTrueZero | LINZ_WFS.py:1096-1097 | The truthy count is zero exactly when no selector is set. |
| Arguments.CountTrueMany | LINZ_WFS.py:1096-1103 | The truthy count is above one exactly when two distinct selectors are set. |
| Arguments.CountTrueOne | LINZ_WFS.py:1096-1110 | The truthy count is one exactly when exactly one selector is set. |
| NestedDict.Merged | LINZ_WFS.py:271-282 | The merged dictionary has the keys of both inputs; keys only in `d` keep their value; a key of `u` whose value is not a dictionary, or that `d` lacks, takes `u`'s value. |
| NestedDict.UpdateNestedDict | LINZ_WFS.py:271-282 | The loop succeeds exactly when no nested dictionary of `u` meets a non-dictionary in `d`; it then returns the merge, otherwise it raises `TypeError`. |
| NestedDict.SelfMerge | LINZ_WFS.py:271-282 | Merging a dictionary into itself never raises and changes nothing. |
| NestedDict.MergeIdempotent | LINZ_WFS.py:271-282 | Merging the same update a second time never raises and changes nothing more. |
| GeometryParts.SplitFrom | LINZ_WFS.py:378-388 | Every yielded part is non-empty; the parts concatenated are the coordinates of the non-None items, in order; there are at most one more parts than None separators. |
| GeometryParts.NoSeparatorOneRing | LINZ_WFS.py:378-388 | Without None separators the generator yields one part holding every coordinate, or nothing for an empty input. |
| GeometryParts.ConcatAppend | LINZ_WFS.py:378-388 | Concatenating parts distributes over appending part lists. |
| GeometryParts.SplitAtNone | LINZ_WFS.py:378-388 | Wherever the generator stands, a `None` ends the current part: what comes after it is split on its own and never joins the part before it. |
| GeometryParts.PartsSplitAtEachNone | LINZ_WFS.py:378-388 | The parts of `x + [None] + y` are the parts of `x` followed by those of `y`; with `NoSeparatorOneRing` the parts are exactly the maximal runs of vertices between `None`s. |
| FeedRequest.LoadConfiguration | LINZ_WFS.py:302-351 | Fails with `exit()` exactly when `layer_id` or `id_field` is missing; `cql_filter` and `bbox` are never both set; `bbox` is the extent only when there is no `cql_filter`; the type name is `layer-<id>-changeset`; the spatial reference is `EPSG:<wkid>`, with 2193 by default. |
| FeedRequest.ViewParamsRoundTrip | LINZ_WFS.py:672 | The `from:..;to:..` string splits back into its two instants when the start holds no `;`. |
| FeedRequest.ChangesetWindow | LINZ_WFS.py:654-672 | The window is built exactly when the watermark file exists and holds a non-empty `last_updated`; it then starts there; otherwise the run ends with `exit(1)`. |
| FeedRequest.ReadChangesetFile | LINZ_WFS.py:695-713 | Unparseable JSON ends with `exit(1)`; a null `numberReturned` raises `TypeError`; otherwise the watermark is the reply's `timeStamp` and there are changes exactly when `numberReturned` is non-zero. |
| FeedRequest.WatermarkFollowsTimeStamp | LINZ_WFS.py:285-299 | Whatever `numberReturned` says, a changeset reply that is read back makes the recorded watermark its `timeStamp`; only a reply without one records the time at the end of the run. |
| FeedRequest.EmptyChangesetStillAdvances | LINZ_WFS.py:699-704 | A reply with zero features skips applying changes but still moves the watermark to its `timeStamp`. |
| Dates.ParseDateTime | LINZ_WFS.py:977 | A parsed value is a valid calendar date and time that formats back to the parsed text. |
| Dates.ParseFormatRoundTrip | LINZ_WFS.py:977 | Formatting any valid date and time and parsing the text gives it back. |
| Dates.DecimalOfPadded | LINZ_WFS.py:977 | Reading a zero-padded decimal field gives back the number written. |
| Dates.PaddedOfDecimal | LINZ_WFS.py:977 | Writing back the number read from a digit field of width w gives the same text. |
| Dates.FormatOfFields | LINZ_WFS.py:977 | Text in the fixed layout whose fields form a valid date formats back to itself. |
| ExportJob.ValidationGateAsWritten | LINZ_WFS.py:456-474 | As written, the gate passes exactly when the reply's status is 200 or 201 and every item is valid; an accepted reply holding an invalid item raises `NameError` rather than exiting. |
| ExportJob.ValidationGate | LINZ_WFS.py:456-474 | Corrected: the gate passes under the same condition; an accepted reply that fails the check exits with code 0. |
| ExportJob.InitiateExportAsWritten | LINZ_WFS.py:430-494 | As written, a submitted export needs a passing validation and an accepted submission, and records no watermark, because the assignment is to a local. |
| ExportJob.InitiateExport | LINZ_WFS.py:430-494 | Corrected: the export is submitted exactly when validation passes and the submission reply is accepted JSON; it returns that reply's id and records the submission time as the watermark. |
| ExportJob.NothingSubmittedWhenInvalid | LINZ_WFS.py:456-476 | When validation fails, the outcome is a stop that does not depend on the submission reply or the clock. |
| ExportJob.SameJobsAccepted | LINZ_WFS.py:430-494 | The as-written and corrected versions accept the same jobs with the same export id; they differ only in the watermark. |
| ExportJob.InvalidItemRaisesNameError | LINZ_WFS.py:460-465 | A 200 reply with one item whose `is_valid` is false raises `NameError` as written and exits with code 0 when corrected. |
| ExportJob.AsWrittenWatermarkSkipsWindow | LINZ_WFS.py:479 | Submitted at time 100 in a run that ends at 700: as written the recorded watermark is 700; corrected it is 100. |
| ExportJob.Classify | LINZ_WFS.py:514-536 | One poll leaves the loop as complete exactly on a reply with status 200 or 201 whose state is `complete` and whose progress parses; a refused reply always leaves; a reply without progress raises `TypeError`. |
| ExportJob.PollFrom | LINZ_WFS.py:510-546 | Each way out is justified by the trace: a time-out happens only at an expired clock reading; a break or a raise happens only before the deadline; every poll before the last is a quiet non-complete poll. |
| ExportJob.PollExport | LINZ_WFS.py:510-546 | The `while ... else` loop, with its attempt counter, ends exactly as the specification function says. |
| ExportJob.DownloadExport | LINZ_WFS.py:497-565 | The file is downloaded exactly when the loop breaks and the download reply's status is 200 or 201; a time-out stops with the export id to resume; a break followed by a failed download exits with code 0; an exception raised in the loop ends the run with that error. |
| ExportJob.CeilDivBounds | LINZ_WFS.py:512 | `ceil(max_polling_time / poll_interval)` intervals reach the deadline, and any smaller count does not. |
| ExportJob.TimedOutFrom | LINZ_WFS.py:510-546 | From attempt k, with a uniform clock and no complete reply, the loop times out after `ceil(max_polling_time / poll_interval)` attempts in all. |
| ExportJob.AttemptsUntilTimeOut | LINZ_WFS.py:510-546 | With a clock that advances by `poll_interval > 0` per iteration and no complete reply, there are exactly `ceil(max_polling_time / poll_interval)` attempts before the time-out. |
| ExportJob.SixtyAttemptsByDefault | LINZ_WFS.py:510-546 | With the default 10 s interval and 600 s limit, an export that never completes is polled exactly 60 times. |
| Tables.Without | LINZ_WFS.py:800-802 | Deleting a field keeps exactly the fields with another (case-insensitive) name. |
| Tables.WithoutKeySet | LINZ_WFS.py:800-802 | After deleting a field, the set of field names is the old set less that name. |
| Tables.WithoutKeepsDistinct | LINZ_WFS.py:800-802 | Deleting a field keeps field names distinct. |
| Tables.DropIndexes | LINZ_WFS.py:800-802 | Deleting a field drops exactly the indexes on it; with none on it, the index list is unchanged. |
| Tables.ToLong | LINZ_WFS.py:791-799 | A value stored in a LONG field is null or a 32-bit integer; a whole number in range is kept with the same value; anything kept was that number. |
| Tables.AddColumn | LINZ_WFS.py:784-790 | Adding a field gives every row one more cell, null, for it; every other cell keeps its value. |
| Tables.CopyColumn | LINZ_WFS.py:791-799 | Calculating a LONG field from another gives every row that field, holding the other cell's value as a LONG; every other cell keeps its value. |
| Tables.DropColumn | LINZ_WFS.py:800-802 | Deleting a field removes exactly its cell from every row; every other cell keeps its value. |
| Tables.FeatureClass.AddField | LINZ_WFS.py:784-790 | The field is appended, every row gains a null cell for it, and the indexes are unchanged. |
| Tables.FeatureClass.CalculateField | LINZ_WFS.py:791-799 | Only the target column's cells change, each to the source cell's value as a LONG. |
| Tables.FeatureClass.DeleteField | LINZ_WFS.py:800-802 | The field, its indexes and its cells are removed, and nothing else changes. |
| Tables.FeatureClass.AddIndex | LINZ_WFS.py:810-816 | The index is appended; fields and rows are unchanged. |
| IdField.FirstNamed | LINZ_WFS.py:760-764 | Finds the first field with exactly that name, or none exactly when no field has it. |
| IdField.Decide | LINZ_WFS.py:760-781 | The outcome is not-found exactly when no field has the name; already-integer exactly when the first such field is `Integer`; migrate exactly when it is another number type. |
| IdField.MigrateIdField | LINZ_WFS.py:783-827 | After the migration the id field is an `Integer` field at the end of the field list; the only new index is the unique `id_idx2` on it; the temporary field is gone; and each row differs only in its id cell, which holds the old value as a LONG. |
| IdField.MigratedRows | LINZ_WFS.py:784-828 | The six column steps together change only the id cell of each row, to its LONG value. |
| IdField.ConvertIdFieldToInteger | LINZ_WFS.py:748-831 | A missing or non-numeric id field leaves the table unchanged; an `Integer` one only gains the unique index; any other number type is migrated as above. |
| IdField.MigrationSettles | LINZ_WFS.py:760-781 | After a migration, running the function again only adds the index. |
| IdField.MigrationKeepsWholeIds | LINZ_WFS.py:783-827 | An integral id in LONG range reads the same after the migration, whether it was stored as an integer or as a whole `Double`. |
| Updates.Strptime | LINZ_WFS.py:977 | A date cell parses exactly when it is text in the fixed layout naming a valid instant, and the result formats back to that text; other text raises `ValueError` and a non-text value `TypeError`. |
| Updates.CursorFields | LINZ_WFS.py:943-954 | The cursor field list holds exactly the lower-cased field names that are not excluded. |
| Updates.AssignFieldsOk | LINZ_WFS.py:974-980 | A matched row is written exactly when every field's value can be read, and parsed where it is a date. |
| Updates.AssignFieldsFirstFailure | LINZ_WFS.py:974-980 | A failure is the error of the first field whose value cannot be read or parsed. |
| Updates.AssignFieldsValues | LINZ_WFS.py:974-980 | A written row holds, in every writable field, the value read from the UPDATE row, and its old value everywhere else. |
| Updates.UpdateOne | LINZ_WFS.py:971-981 | Without the id among the target fields the cursor raises `ValueError`; a row whose id is not a dictionary key is unchanged; a matched row keeps its keys and read-only cells and takes every other target field from its UPDATE row; it fails exactly when one of those values cannot be read. |
| Updates.UpdateRows | LINZ_WFS.py:962 | The rows read by the search cursor are the rows tagged exactly `UPDATE`. |
| Updates.LastUpdatesDomain | LINZ_WFS.py:961-966 | Every id read is a key of the dictionary, and every key maps to a row read under that id. |
| Updates.LastUpdateWins | LINZ_WFS.py:961-966 | For an id read more than once, the dictionary holds the last UPDATE row read. |
| Updates.UpdatesDict | LINZ_WFS.py:961-966 | Building the dictionary raises `ValueError` exactly when there is an UPDATE row and the id field is not a source field. |
| Updates.CollectUpdates | LINZ_WFS.py:961-966 | The search cursor loop builds exactly the specified dictionary, or raises its error. |
| Updates.AssignRow | LINZ_WFS.py:974-980 | The field loop for one row computes exactly the specified row or error. |
| Updates.UpdateRowAt | LINZ_WFS.py:970-981 | One step of the update cursor: on success one more row has been through the update; on failure the rows are unchanged and that row's update raised the error. |
| Updates.UpdatePass | LINZ_WFS.py:969-982 | The update cursor rewrites each row in order with its update; an error leaves the rows before the failing one updated and the rest untouched; no row is added or removed and the schema is unchanged. |
| Updates.ProcessUpdates | LINZ_WFS.py:932-984 | A dictionary error leaves the target unchanged; otherwise the target is the update pass over its rows; no row is added or removed and fields and indexes are unchanged. |
| Changeset.CountTagged | LINZ_WFS.py:860-880 | A selection by exact tag counts at most the rows of the changeset. |
| Changeset.DeleteIdSet | LINZ_WFS.py:883-888 | The delete list holds the id of every row tagged `delete` in any case, and nothing else. |
| Changeset.AfterDeletes | LINZ_WFS.py:890-900 | Deleting keeps exactly the target rows whose id is not in the delete list, so the count drops by the number of matching rows. |
| Changeset.AfterDeletesOne | LINZ_WFS.py:890-900 | A single target row is deleted exactly when its id is in the list. |
| Changeset.AfterDeletesAppend | LINZ_WFS.py:890-900 | Deleting works row by row and keeps the survivors in their order: the rows left from `a + b` are those left from `a` followed by those left from `b`. |
| Changeset.Project | LINZ_WFS.py:905-915 | An appended row has exactly the target's fields; fields the changeset shares keep their value, the others are null. |
| Changeset.Inserted | LINZ_WFS.py:905-915 | One row is appended per row tagged exactly `INSERT`; each has exactly the target's fields and is the projection of such a row. |
| Changeset.InsertedOne | LINZ_WFS.py:905-915 | A single changeset row is appended, projected onto the target's fields, exactly when it is tagged `INSERT`. |
| Changeset.InsertedAppend | LINZ_WFS.py:905-915 | The INSERT rows are appended in changeset order: those of `a + b` are those of `a` followed by those of `b`. |
| Changeset.Stage | LINZ_WFS.py:883-915 | Fails with an `arcpy` error exactly when the changeset lacks the id field, or deletes are needed and the target lacks it. Otherwise the new target is the kept rows followed by the projected INSERT rows. The kept rows are those surviving the case-insensitive delete list when there is an exact-case `DELETE` row, and all the old rows when there is none. Every row has the target's fields. |
| Changeset.Summary | LINZ_WFS.py:920-929 | A warning is given exactly when the final count differs from `count_target - count_deletes + count_inserts`, and it reports that difference. |
| Changeset.DeleteAndInsert | LINZ_WFS.py:883-915 | The delete and insert steps leave the target as the staging function says, or unchanged with its error. |
| Changeset.ApplyChangeset | LINZ_WFS.py:835-929 | Deletes and inserts as staged; runs the update pass only when there are UPDATE rows; never adds or removes a field; a row-count mismatch is reported, never raised. |
| Changeset.CountMarkedExact | LINZ_WFS.py:877-888 | With exact-case tags, the case-insensitive delete rows are exactly the exact-case `DELETE` rows. |
| Changeset.DeleteIdsDistinct | LINZ_WFS.py:883-888 | With distinct delete ids, the delete list has one id per delete row. |
| Changeset.CountInOnce | LINZ_WFS.py:890-900 | When each delete id names exactly one target row, the delete removes exactly as many rows as there are ids. |
| Changeset.RowCountAddsUp | LINZ_WFS.py:847-929 | With exact-case tags, distinct delete ids and each naming one target row, the final count is `count_target - count_deletes + count_inserts`, so no warning is given. |
| Changeset.LoneLowerCaseDeleteKeepsAll | LINZ_WFS.py:877-890 | A changeset whose only delete row is tagged `delete` deletes nothing. |
| Changeset.LowerCaseDeleteBesideUpperCase | LINZ_WFS.py:877-890 | Beside a row tagged `DELETE`, a row tagged `delete` is deleted as well. |
| Changeset.LowerCaseDeleteNeedsAnUpperCaseOne | LINZ_WFS.py:877-890 | The same lower-case delete row deletes nothing alone but takes effect next to an upper-case one. |
| Purge.SliceIndex | LINZ_WFS.py:1049 | A Python slice bound is clamped into the list, and a negative one counts from the end. |
| Purge.SortNewestFirst | LINZ_WFS.py:1048 | The sorted listing is a permutation of the listing, ordered by creation time, newest first. |
| Purge.SortNames | LINZ_WFS.py:1078 | The sorted names are a permutation of the names, in ascending Python string order. |
| Purge.Directory.UnlinkEach | LINZ_WFS.py:1050-1055 | Every file of the list that can be removed is removed; each one that cannot is reported and the loop goes on. |
| Purge.Geodatabase.DeleteEach | LINZ_WFS.py:1080-1085 | Every feature class of the list that can be deleted is deleted; each one that cannot is reported and the loop goes on. |
| Purge.PurgeFiles | LINZ_WFS.py:1044-1055 | The files deleted are those after the first N of the matching files sorted newest first, except those whose deletion fails. |
| Purge.PurgeTables | LINZ_WFS.py:1070-1085 | The feature classes deleted are those in `[:-N]` of the sorted changeset feature classes, except those whose deletion fails. |
| Purge.PurgeChangesets | LINZ_WFS.py:1035-1086 | A falsy retention count, 0 included, changes nothing; otherwise the json files, the zip files and the changeset feature classes are each purged as above. |
| Purge.OtherFilesSurvive | LINZ_WFS.py:1047-1055 | A file without the suffix is never deleted. |
| Purge.NewestFilesCount | LINZ_WFS.py:1047-1055 | With distinct entries and every deletion succeeding, exactly min(N, M) matching files remain. |
| Purge.NewestFilesKept | LINZ_WFS.py:1047-1055 | Every matching file kept is at least as new as every file deleted. |
| Purge.OtherTablesSurvive | LINZ_WFS.py:1077-1085 | A feature class whose name does not contain `changeset` is never deleted. |
| Purge.GreatestTablesCount | LINZ_WFS.py:1077-1085 | With distinct names and every deletion succeeding, exactly min(N, M) changeset feature classes remain. |
| Purge.GreatestTablesKept | LINZ_WFS.py:1077-1085 | Every changeset feature class kept sorts after every one deleted. |

## Left out

- Everything `arcpy` does beyond the table operations modelled in `Tables`, because it is a foreign library: spatial filters, projection, buffering and extents, `JSONToFeatures`, `ExportFeatures`, `TruncateTable`, the copy to staging, and geodatabase creation in `init`.
- HTTP through `requests`, streamed chunk writes, zip extraction and JSON file reading and writing, because they are I/O. HTTP replies and file contents are parameters.
- `time.time`, `time.sleep` and `datetime.utcnow`, because they are clocks. The clock is an integer parameter and timestamps are plain values. The `isoformat` text of a `datetime` is not modelled, and neither is the `datetime` branch of `update_last_updated_file`.
- Logging, log rotation, `timing_decorator`, `ensure_folder`, configuration bootstrapping in `init`, and argparse, because they do not affect the synchronisation logic.
- `main` and `updateTarget`, because they orchestrate the modelled pieces with `arcpy` calls. The wrong keyword passed to `updateTarget` at LINZ_WFS.py:1189-1193 is therefore not modelled.
- The file and table names built from clock readings, because they come from the clock.
- Pathlib glob order is taken to be the listing order. Matching on the `.json` and `.zip` suffix is case-sensitive, as on POSIX file systems, not Windows.
- `retain_after_purge` is taken to be an integer. JSON could give it another type, but only its truthiness and slicing are modelled.
- Tables.ToLong: a non-integral or out-of-range value becomes null. What ArcGIS does with such a value is not modelled beyond that.
- Changeset.Project, Changeset.Inserted: the fresh object ids that `Append` gives new rows are not modelled. An appended row holds only the fields the target has, and a changeset cell for the target's object-id column is copied into it as it stands.
- Tables.FeatureClass.AddIndex: neither index-name collisions nor unique-index violations on duplicate ids are modelled. The index is simply recorded.
- Changeset.DeleteIdSet: a null id in the SQL `IN` list is not modelled. Ids are compared as values, with an integral float equal to the integer.
- NestedDict.UpdateNestedDict: modelled on values. The update in place, and the aliasing of nested dictionaries it allows, are not captured.
- IdField.MigrateIdField, IdField.ConvertIdFieldToInteger: a table that still holds `_uniqueIdentifier`, left by an earlier run stopped between LINZ_WFS.py:784 and :828, is not modelled. The migration path requires the temporary field to be absent, because what `AddField` does with a name that already exists is `arcpy` behaviour not visible here.
- Dates.ParseDateTime, Updates.Strptime: `datetime.strptime` with `%Y-%m-%dT%H:%M:%SZ` also accepts one-digit month, day, hour, minute and second fields, a space-padded day such as `" 1"`, non-ASCII decimal digits, and a lower-case `t` or `z`. The parser here accepts only the full-width upper-case layout with ASCII digits, so Updates.Strptime raises `ValueError` on those inputs where Python would parse them.
- Updates.UpdateOne, Updates.UpdatePass: the update cursor also writes the OID and GlobalID columns, because the exclude list holds their names as `Describe` gives them while the cursor fields are lower-cased (LINZ_WFS.py:950-954). The model assumes `updateRow` leaves those columns unchanged, which is `arcpy` behaviour not visible here.
- NestedDict.UpdateNestedDict: every failure is reported as `TypeError`. When `d[k]` is a string that contains the first key of `u[k]`, and that key's value is a dictionary, Python raises `AttributeError` (`str.get`) instead.
- Purge.SortNewestFirst: does not state that files with equal creation times keep their listing order, as Python's stable sort does. Which of several equally old files is deleted is therefore not pinned.
- Purge.NewestFilesCount: assumes distinct listing entries and no failed deletions. With failures more files remain, as `OtherFilesSurvive` and `Directory.UnlinkEach` state.
- Purge.GreatestTablesCount: assumes distinct names and no failed deletions, for the same reason.
- The source differs from its own description in three places; the model follows the source:
  - `checkArguments` with no selector calls `exit()`, which ends with status 0, not a failure status.
  - A poll reply without `progress` raises `TypeError` through `float(None)`; it is not read as zero.
  - Changeset feature classes are purged by name order, not creation time.

## Findings

| source | as written | input that shows it | evidently intended | confidence | as-written member | corrected member |
|---|---|---|---|---|---|---|
| LINZ_WFS.py:464 | `logger.error(json_response[items])` refers to an undefined name `items`, so an invalid validation reply raises `NameError` instead of reaching `exit()` | a 200 validation reply whose only item has `is_valid` false | log the items and exit with code 0 | not executed | ExportJob.ValidationGateAsWritten | ExportJob.ValidationGate |
| LINZ_WFS.py:479 | `last_updated_datetime = datetime.utcnow()` assigns a local variable, so the submission time is lost and the watermark written at the end of the run is the end time | export submitted at time 100, run ends at time 700: the watermark is 700, so changes made between 100 and 700 are never requested | record the submission time as the global watermark (100) | not executed | ExportJob.InitiateExportAsWritten | ExportJob.InitiateExport |
