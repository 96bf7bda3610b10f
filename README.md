# bazaars: the ad query engine and its HTTP handlers, in Dafny

bazaars is a small classified-ads backend. An axum HTTP server sits in front
of a PostgreSQL `ads` table, reached through Diesel. This project models two
parts of it and proves properties of the model.

- **The ad repository** (`PostgresAdRepo`) works over an abstract database.
  The database holds the `ads` table as a sequence of rows in storage order,
  the `serial` sequence that numbers new rows, and the cursors each server
  session holds. The model covers:
  - the sparse `AdFilter` and the two builders that turn it into WHERE
    clauses (the typed boxed query, and the cursor declaration with its
    positional placeholders and separately built bind list);
  - `OFFSET`/`LIMIT` paging;
  - `DECLARE … CURSOR WITH HOLD` with PostgreSQL's `FETCH FORWARD n`;
  - the cursor name built from a UUID;
  - `get_by_id`, `create`, `update` and `delete`.
- **The HTTP handlers** cover:
  - request defaults and the page number in `GET /ads`;
  - how repository results map to status codes in `GET /ads/:id` and
    `GET /images/:id`;
  - the upload loop of `POST /ads`;
  - the stub `PUT` and `DELETE` handlers.

The image store is modelled as a collaborator: a map from image id to name,
mime type and bytes.

Files:
- `wrappers.dfy`: Option and Result.
- `ints.dfy`: fixed-width integers, `i32` to text and back.
- `ads.dfy`: the row, the column limits and `VARCHAR` assignment.
- `filter.dfy`: the filter, both builders, placeholder binding, selection.
- `table.dfy`: row operations as functions.
- `cursor.dfy`: cursor state and cursor names.
- `ad_repo.dfy`: the repository class.
- `image_store.dfy`: the image store.
- `handlers.dfy`: the handlers.

Some outcomes come from outside the program. These are parameters:
- the pool's and the server's faults (`Access`);
- the two clock readings;
- the UUIDs;
- the image store's disk outcomes;
- the server's `ILIKE` matcher.

The model follows the code and PostgreSQL's documented behaviour. Five
points are easy to get wrong:
- `FETCH FORWARD 0` is not "always empty". PostgreSQL re-fetches the current
  row, so it returns one row when the cursor stands on a row and none
  otherwise. `Cursors.Fetch` models that.
- With `per_page = 0`, `get_page` does return an empty list (`LIMIT 0`). But
  `get_ads` then divides by zero and panics, unless the fetch already failed
  (then it answers 500). `Handlers.GetAds` answers `Aborted` there.
- A cursor is visible only on the server session that declared it. A fetch
  whose pooled connection lands on another session finds no cursor.
  `AdRepo.FetchStep` keys cursors by session and name.
- A string longer than its `VARCHAR(n)` column is refused only when a
  character past the n-th is not a space; otherwise it is stored cut to n
  characters. `Ads.ToVarchar` models that assignment.
- A bind list longer than the statement's highest `$n` is accepted, the
  surplus unused; only a shorter one is refused. `Filter.BindParams` models
  that.

## Model

| member | source | states |
|---|---|---|
| `Ads.ToVarchar` | src/db/schema.rs:6-15 | assignment to `VARCHAR(n)`: accepted iff every character past n is a space; the stored value is the prefix of length min(len, n), and a value within the limit is stored unchanged |
| `Ads.TrailingSpacesCut` | src/db/schema.rs:6-15 | a value of exactly n characters followed by spaces is stored as those n characters |
| `Ads.StoredAd` | src/db/schema.rs:3-21 | the row as the table stores it: each varchar column through `ToVarchar` with its schema limit, other columns unchanged, the result within every limit; refused iff one column refuses; a row within the limits is stored as is |
| `Filter.PageClausesFollowFieldOrder` | src/repos/ad_repo.rs:183-207 | get_page's clause list holds exactly one clause per present filter field (the clause that field stands for) and none for absent fields, in the fixed order title, description, price_lt, price_gt, updated_at_lt, updated_at_gt |
| `Filter.CursorAndPageClausesAgree` | src/repos/ad_repo.rs:73-97 | new_cursor's boxed query builds the same clause sequence as get_page's (ad_repo.rs:183-207) for every filter |
| `Filter.CursorBindsAlign` | src/repos/ad_repo.rs:120-144 | the cursor's bind list is, one for one and in order, the operands of the cursor query's clauses (ILIKE terms as `%term%`) |
| `Filter.PageQueryClauses` | src/repos/ad_repo.rs:183-207 | definition: get_page's WHERE conjuncts, one per present filter field, in the order the filters are applied |
| `Filter.CursorQueryClauses` | src/repos/ad_repo.rs:73-97 | definition: new_cursor's boxed-query conjuncts, built by the same chain of optional filters |
| `Filter.CursorBinds` | src/repos/ad_repo.rs:120-144 | definition: the bind list, one value per present field in the same order, ILIKE terms wrapped as `%term%` |
| `Filter.BindParams` | src/repos/ad_repo.rs:118-148 | definition: executing placeholder text with a typed bind list; refused when the list is shorter than the highest `$n`, and a type mismatch is refused; surplus binds are unused |
| `Filter.PositionalBinding` | src/repos/ad_repo.rs:110-118 | with at least as many binds as placeholders `$1..$n`, and the first n of the columns' SQL types, the k-th placeholder takes the k-th bind and any surplus binds are ignored |
| `Filter.ShortBindListRefused` | src/repos/ad_repo.rs:110-118 | a bind list shorter than the placeholder list is refused with a count mismatch |
| `Filter.CursorDeclarationMatchesPageQuery` | src/repos/ad_repo.rs:110-148 | the DECLARE statement with its binds succeeds and selects by exactly get_page's clauses |
| `Filter.BuiltClausesWellTyped` | src/repos/ad_repo.rs:75-97 | every built clause compares a column with a value of its SQL type; ILIKE is used on text only |
| `Filter.SelectionIsConjunction` | src/repos/ad_repo.rs:183-207 | a row satisfies every built clause iff it matches each present field (title/description ILIKE `%term%`, price and updated_at strictly below/above) |
| `Filter.EmptyFilterSelectsAll` | src/bin/main.rs:102 | the default filter constrains no row |
| `Filter.Render` | src/repos/ad_repo.rs:110-114 | the k-th clause becomes placeholder number first+k, same column and operator |
| `Table.FindById` | src/repos/ad_repo.rs:163-175 | None iff no row has the id; otherwise a row of the table with that id |
| `Table.RemoveId` | src/repos/ad_repo.rs:258-268 | the remaining rows are exactly the rows without the id |
| `Table.RemoveIdCount` | src/repos/ad_repo.rs:258-268 | with unique ids, delete removes one row if the id was present and none otherwise |
| `Table.DeleteTwice` | src/repos/ad_repo.rs:258-268 | after a delete the id finds nothing, and a second delete changes nothing |
| `Table.RemoveIdUnique` | src/repos/ad_repo.rs:258-268 | deleting keeps ids unique |
| `Table.ReplaceById` | src/repos/ad_repo.rs:245-256 | same length; each row with the id is replaced, every other row kept |
| `Table.FindAfterReplace` | src/repos/ad_repo.rs:245-256 | after an update the id finds the new row; every other id finds what it found before |
| `Table.FindAfterAppend` | src/repos/ad_repo.rs:221-243 | a row inserted under a fresh id is what that id then finds; other ids are unaffected |
| `Table.Filtered` | src/repos/ad_repo.rs:183-216 | at most as many rows as the table; a row is selected iff it is in the table and satisfies every clause |
| `Table.FilteredByFilter` | src/repos/ad_repo.rs:183-216 | the rows selected by a filter are exactly the table rows matching it |
| `Table.EmptyFilterKeepsTable` | src/bin/main.rs:102 | the default filter selects the whole table, in order |
| `Table.Page` | src/repos/ad_repo.rs:209 | OFFSET/LIMIT: length min(limit, rows left after offset), and the i-th item is row offset+i |
| `Table.EmptyPages` | src/repos/ad_repo.rs:209 | `LIMIT 0`, or an offset at or past the end, gives an empty page and not an error |
| `Table.PagesAdjoin` | src/repos/ad_repo.rs:209 | two adjacent pages concatenate to the page spanning both |
| `Cursors.Declared` | src/repos/ad_repo.rs:110-114 | a cursor just declared holds the query result as its snapshot and stands before the first row |
| `Cursors.Fetch` | src/repos/ad_repo.rs:153-161 | FETCH FORWARD n>0 returns the page of n rows after the position and moves forward by n, or past the end iff it ran out; FORWARD 0 re-fetches the current row, and returns nothing when the cursor is on no row; it does not move |
| `Cursors.ConsecutiveFetches` | src/repos/ad_repo.rs:153-161 | two successive fetches return adjacent slices of the snapshot, without overlap or gap |
| `Cursors.RepeatedFetchesArePages` | src/repos/ad_repo.rs:153-161 | k fetches of n rows from a position return the k*n rows after it, fewer at the end |
| `Cursors.BatchesFromDeclaration` | src/repos/ad_repo.rs:110-114 | from a fresh cursor, k batches of n rows are the first k*n rows of the declaration-time result |
| `Cursors.ExhaustedCursorIsEmpty` | src/repos/ad_repo.rs:153-161 | a cursor past its last row returns no rows and stays there |
| `Cursors.StripDashes` | src/repos/ad_repo.rs:107 | removes every dash and keeps every other character |
| `Cursors.StripDashesOfUuid` | src/repos/ad_repo.rs:107 | dash-stripping a UUID gives its 32 hex digits in order |
| `Cursors.CursorName` | src/repos/ad_repo.rs:105-108 | `c_` and the first ten characters of the dash-stripped UUID: twelve characters starting `c_` |
| `Cursors.CursorNameShape` | src/repos/ad_repo.rs:105-108 | the cursor name is `c_`, the first UUID group and two digits of the second: 12 characters of `[a-f0-9_]` |
| `AdRepo.FetchStep` | src/repos/ad_repo.rs:153-161 | success iff a connection was granted and its session holds the cursor; then the rows are that cursor's FETCH rows and only that cursor moves, to its state after the FETCH; at most n rows (1 for n=0) |
| `AdRepo.Database.NewCursor` | src/repos/ad_repo.rs:72-151 | pool failure, statement failure, or a name the session already uses are errors; otherwise the cursor is declared over the filtered rows at position 0, and the table is unchanged |
| `AdRepo.Database.FetchFromCursor` | src/repos/ad_repo.rs:153-161 | the result and the new cursors are those of one FETCH step; rows unchanged |
| `AdRepo.Cursor.GetNext` | src/repos/ad_repo.rs:28-35 | the same FETCH step, applied to this cursor's name |
| `AdRepo.Database.GetById` | src/repos/ad_repo.rs:163-175 | pool and statement faults are errors; otherwise None iff no row has the id, or a table row with the id |
| `AdRepo.Database.GetPage` | src/repos/ad_repo.rs:177-219 | on a granted connection, the filtered rows with offset skipped and per_page kept; at most per_page rows, each a table row matching the filter |
| `AdRepo.Database.Create` | src/repos/ad_repo.rs:221-243 | on success, one row appended with the next sequence id (fresh), status `active`, images equal to the given ids in order, the clock readings and the content copied, each varchar string as its column stores it (cut to the column's length when the excess is spaces); exhausted sequence, refused strings and faults are errors that add no row; success iff the content is accepted |
| `AdRepo.Database.Update` | src/repos/ad_repo.rs:245-256 | a missing id is an error, decided first; a string its column refuses is an error that changes nothing; otherwise every column except the id is set from the given ad as the columns store it, and the stored row is returned |
| `AdRepo.Database.Delete` | src/repos/ad_repo.rs:258-268 | removes exactly the rows with the id and returns how many: 0 or 1 |
| `Images.ImageStore.CreateImage` | src/repos/image_repo.rs:56-75 | stores name, mime type and bytes under the fresh id and returns that id, or fails and stores nothing |
| `Images.ImageStore.GetImage` | src/repos/image_repo.rs:39-54 | the stored name, mime type and bytes tagged with the id; a missing id or failed read is an error |
| `Handlers.EffectiveRequest` | src/bin/main.rs:88-102 | a missing body gives per_page 10, offset 0 and no filters; each missing field defaults on its own |
| `Handlers.PageNumber` | src/bin/main.rs:107 | the 1-based page the offset falls in: (page-1)*per_page <= offset < page*per_page |
| `Handlers.PageNumberU32` | src/bin/main.rs:107 | `offset / per_page + 1` with u32 wrap-around |
| `Handlers.PageNumberU32Wraps` | src/bin/main.rs:107 | offset 4294967295 with per_page 1 is reported as page 0 |
| `Handlers.PageNumberAgreement` | src/bin/main.rs:107 | the u32 formula equals the true page number except at offset u32::MAX with per_page 1 |
| `Handlers.GetAds` | src/bin/main.rs:83-111 | repository faults give 500; per_page 0 after a successful fetch panics; otherwise the page of filtered rows with the corrected page number, which equals the u32 formula wherever that does not wrap |
| `Handlers.GetAd` | src/bin/main.rs:130-141 | unparsable id gives 400; fault gives 500; missing row gives 404; otherwise the row with that id |
| `Handlers.GetImage` | src/bin/main.rs:113-127 | a store error gives 500; otherwise the stored bytes with Content-Type set to the mime type, and a panic when the mime type is no valid header value |
| `Handlers.RunUploads` | src/bin/main.rs:157-171 | definition: the first n rounds of the upload loop, stopping at the first missing field or failed store |
| `Handlers.UploadStep` | src/bin/main.rs:157-171 | definition: one round of the loop; a missing file name or content type stops it, a failed store stops it, otherwise the image is stored and its id pushed |
| `Handlers.UploadsInOrder` | src/bin/main.rs:157-171 | while the loop runs, upload j was stored and its id is the j-th pushed; a stop at k means all earlier uploads were stored and upload k lacked a field or failed |
| `Handlers.StoredUploadsReadBack` | src/bin/main.rs:159-170 | each stored upload is in the store under its id with its file name, content type and bytes |
| `Handlers.CreateAd` | src/bin/main.rs:144-180 | a missing field panics and a store failure gives 500, both without creating the ad; once every upload is stored, a failing create (fault, exhausted sequence, too-long content) gives 500 and otherwise the ad is created with exactly the stored ids in upload order, its varchar strings as their columns store them, and answered as its decimal id, which parses back to that id and finds the ad |
| `Handlers.UpdateAd` | src/bin/main.rs:182-189 | always 200, no state change |
| `Handlers.DeleteAd` | src/bin/main.rs:191-194 | always 204, no state change |
| `Ints.ParseInt32` | src/bin/main.rs:134 | `i32` parsing: an accepted text starts with a sign or a digit and continues with digits only, and an unsigned text gives a non-negative value |
| `Ints.ParseInt32Exactly` | src/bin/main.rs:134 | a text parses iff it is an optional sign and at least one digit whose value fits in i32, and then yields that value |
| `Ints.ParseDecimalText` | src/bin/main.rs:179 | every i32 rendered by `to_string` parses back to itself |
| `Ints.NatTextValue` | src/bin/main.rs:179 | the decimal digits of n denote n |

## Left out

- SQL text: `debug_query` output, the `println!` logging, and the exact
  `FETCH` statement string are not modelled. Because that text is not
  modelled, the model also does not capture that the cursor name is spliced
  into the FETCH text unescaped.
- Diesel and r2d2: the mechanics of getting a connection are one `Access`
  parameter per call. The read pool and the write pool are the same pool
  (src/db/mod.rs).
- Row order: no query has an ORDER BY. The model fixes one storage order and
  uses it for both paging and cursors. It does not claim the server keeps
  that order between calls.
- `ILIKE`: case folding and the unescaped `%`/`_` in user terms are an
  abstract matcher parameter.
- `BigDecimal::from_f64(ad.price).unwrap()`: price is an exact number, so the
  NaN and infinity panic is not modelled.
- `chrono::Utc::now()` and `uuid::Uuid::new_v4()` are parameters. The two
  clock readings of `create` are independent, so `created_at` and
  `updated_at` need not be equal.
- Concurrency and async: each call runs alone. The `WITH HOLD` snapshot is
  taken at declaration, and later row changes leave cursors untouched.
- `Handlers.GetAds`: reports the corrected page number (`Handlers.PageNumber`), not the `u32` value of main.rs:107. The two differ only for `offset` 4294967295 with `per_page` 1, where the source wraps to 0 (release) or panics (debug); see Findings.
- `AdRepo.Database.Create`: the model draws the sequence value before the
  strings are assigned to their columns, so a refused value uses up an id. The JSON encoding
  of `images` is a sequence of strings and cannot fail.
- `Images.ImageStore.CreateImage`: a write that fails half-way (bytes
  written, metadata not) is modelled as storing nothing. `delete_image` is
  never called by the handlers and is not modelled.
- Extractor rejections are not modelled. These are axum's: a malformed
  multipart form, or a path that does not match a route.
- Also not modelled: routing, the listener and `main`.
- Multipart decoding: an upload's bytes are given as read, so the dropped
  read errors of `filter_map(Result::ok)` are not modelled.
- `Image`'s custom `Serialize` is not modelled. The `build.rs` dotenv script
  is not part of this model.
- The test module of ad_repo.rs needs a live database. Its scenario (ten
  creates, a cursor with a title filter, a fetch of 2) is covered by
  `Cursors.BatchesFromDeclaration` and `AdRepo.Database.NewCursor`.

## Findings

| source | as written | input that shows it | evidently intended | confidence | as-written member | corrected member |
|---|---|---|---|---|---|---|
| src/bin/main.rs:107 | `page = offset / per_page + 1` is computed in `u32`: release builds wrap it to 0, debug builds panic | `offset` = 4294967295, `per_page` = 1 | page 4294967296, the 1-based page holding the offset | not executed | `Handlers.PageNumberU32` (`Handlers.PageNumberU32Wraps`) | `Handlers.PageNumber` |
