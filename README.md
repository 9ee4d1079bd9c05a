# gobooks in Dafny

gobooks is a small HTTP service that keeps a table of books. A client can
create a book, read one or all, update one, and delete one. This project
models the service's core, which is the one file `main.go`:

- **The `Book` record** (`Books.Book`). Its text fields are byte strings,
  because Go's `len` counts bytes.
- **`validateBook`** (`Books.ValidateBook`). It applies three length limits
  of 255 bytes, the rating rule, and the publish-date rule. It returns the
  diagnostics map (field → complaint). The book is accepted exactly when
  that map is empty.
- **The publish-date rule**: Go's `time.Parse("2006-Jan-02", …)`, written out
  in module `ShortDate`. A date is four year digits, a dash, a three-letter
  month name, a dash and two day digits. The month name is matched ignoring
  ASCII case. The day must exist in that month; leap years count. Nothing
  may follow the day. `ShortDate.Format` is the partner: it writes a date in
  that layout, and the lemmas show the two are inverse up to the case of the
  month name.
- **`Book.Merge`** (`Books.Merge`). It builds the partial update field by
  field. It is specified by the function `Books.Merged`.
- **The five handlers** (`Handlers.Store`). CreateBook, GetBook, GetBooks,
  UpdateBook and DeleteBook run on a store. The store holds the live
  (not soft-deleted) records keyed by id, and the id the next insert will
  get. Each handler returns the HTTP status and its payload.

Module `Scenarios` replays the service's tests (`main_test.go`) on the model.
They cover the example dates, ratings and lengths, and the
create / update / get / delete sequences run against a fresh store.

Three consequences of the code are proved, because they are easy to miss:

- **An empty `publish_date` is always rejected.** `time.Parse` fails on it,
  and `validateBook` has no exemption. So a create request without a date
  gets 400. That includes the empty JSON object, which gets 400 for its date
  alone (`Scenarios.BlankBookExample`). An update that sets a rating but no
  date is refused in every case (`Handlers.RatingWithoutDateRejected`).
- **Month names match whatever their case.** "2010-dEC-26" is accepted
  (`Scenarios.MixedCaseAccepted`).
- **Update does not always validate.** It validates only when the patch
  sets a date or a rating. A too-long title in a patch that sets neither
  reaches the merged record (`Handlers.UnvalidatedPatchBreaksRules`).

## Model

| member | source | states |
|---|---|---|
| `ShortDate.LookupMonth` | main.go:230 | the month number is the first short month name that the text matches ignoring ASCII case; it is 0 exactly when none matches |
| `ShortDate.Parse` | main.go:230-233 | a parsed date is a real calendar date (leap years included); the text is 11 bytes: four digits that spell the year, a dash, a month name matched ignoring case, a dash, and two digits that spell the day |
| `ShortDate.ParseFormat` | main.go:230 | parsing the layout text of any valid date gives that date back |
| `ShortDate.AcceptedIsFormatted` | main.go:230-233 | every accepted text is the layout of the date it parses to, up to the case of the month name |
| `ShortDate.FormattedIsAccepted` | main.go:230-233 | the layout of a valid date parses to that date, whatever the case of its month name |
| `ShortDate.AcceptedIffFormatted` | main.go:230-233 | a text is accepted if and only if it is the layout of some valid date, up to the month's case |
| `ShortDate.LookupOwnName` | main.go:230 | no two month names match each other, so each canonical name looks up to its own month |
| `ShortDate.MatchesSameLookup` | main.go:230 | two texts equal up to ASCII case look up to the same month |
| `Books.ValidateBook` | main.go:216-239 | the map has one entry per broken rule and nothing else: "too long" for title, author or publisher over 255 bytes, the rating when it is above 3 or negative, the raw text when the date does not parse; ok holds exactly when the map is empty |
| `Books.KeysDistinct` | main.go:219-232 | the five diagnostics keys are distinct, so no complaint overwrites another |
| `Books.NoEntries` | main.go:234-238 | the check `len(resultMap) == 0` is true exactly when the map is empty |
| `Books.ReportsEveryBrokenRule` | main.go:217-233 | a map holding, for each field, that field's complaint exactly when its rule is broken is the diagnostics map |
| `Books.AcceptableIffRulesHold` | main.go:218-238 | a book is accepted if and only if all three texts are at most 255 bytes, the rating is 0 to 3, and the date parses |
| `Books.BrokenRuleReported` | main.go:218-233 | each broken rule shows up in the diagnostics with its complaint, and then the book is rejected |
| `Books.EmptyDateRejected` | main.go:230-233 | a book with an empty date is rejected, and the complaint is the empty text |
| `Books.Merge` | main.go:22-41 | each text field takes the patch's value when it is non-empty, the rating the patch's when non-zero, `checkedOut` always the patch's, and the id is kept |
| `Books.MergeIdempotent` | main.go:22-41 | applying the same patch a second time changes nothing |
| `Books.MergeBlankPatch` | main.go:22-41 | an all-zero patch only clears `checkedOut`; with the base's own `checkedOut` it changes nothing |
| `Books.MergeKeepsAcceptable` | main.go:22-41 | merging an accepted patch into an accepted book gives an accepted book |
| `Handlers.IdsBelow` | main.go:146 | the scan gives exactly the stored ids below the bound, in strictly ascending order |
| `Handlers.Listing` | main.go:143-148 | when every id is below the bound and records carry their own ids, the listing holds every live record and only those, in ascending id order |
| `Handlers.RatingWithoutDateRejected` | main.go:172-177 | a patch that sets a rating but no date is validated and always refused |
| `Handlers.UnvalidatedPatchBreaksRules` | main.go:172-181 | a patch with neither date nor rating skips validation, and an over-long title in it makes the merged record one that validateBook would refuse |
| `Handlers.Store.constructor` | main.go:11-19 | the model's starting state for a fresh database (no rows, first id 1); it keeps the store invariant that every handler requires |
| `Handlers.Store.CreateBook` | main.go:105-116 | a refused candidate gives 400 with its diagnostics and leaves the store unchanged; an accepted one is stored under a fresh id, the counter advances, and the stored record is returned with 200 |
| `Handlers.Store.GetBook` | main.go:124-135 | 200 with the stored record, or 404 with no body when there is none |
| `Handlers.Store.GetBooks` | main.go:143-148 | always 200; the list holds exactly the stored records, with distinct ids in ascending order |
| `Handlers.Store.UpdateBook` | main.go:161-182 | 404 and no change for an unknown id; 400 with the diagnostics and no change when the patch sets a date or rating and is refused; otherwise the record becomes the merge of the stored record and the patch, returned with 200 |
| `Handlers.Store.DeleteBook` | main.go:190-201 | 404 and no change for an unknown id; otherwise the record is removed and returned as it was, with 200 |
| `Scenarios.Dec26Accepted` | main_test.go:58 | "2010-Dec-26" is the layout of 26 December 2010 and parses back to it |
| `Scenarios.Jan20Accepted` | main_test.go:120 | "2001-Jan-20" is the layout of 20 January 2001 and parses back to it |
| `Scenarios.Dec01Accepted` | main_test.go:172 | "2001-Dec-01" is the layout of 1 December 2001 and parses back to it |
| `Scenarios.Jan01Accepted` | main_test.go:242 | "2016-Jan-01" is the layout of 1 January 2016 and parses back to it |
| `Scenarios.RejectedDateExamples` | main_test.go:78-84 | every bad date the tests send is rejected, as are "10/10/2001" and the empty text |
| `Scenarios.LeapDayAccepted` | main.go:230 | "2000-Feb-29" parses, because 2000 is a leap year |
| `Scenarios.NoLeapDayRejected` | main.go:230 | "1900-Feb-29" is rejected, because 1900 is not a leap year |
| `Scenarios.MixedCaseAccepted` | main.go:230 | "2010-dEC-26" parses to 26 December 2010 |
| `Scenarios.RatingExamples` | main_test.go:85-90 | every bad rating the tests send is out of range, as are the update test's ±50000000; 0 to 3 never are |
| `Scenarios.TooLongExamples` | main_test.go:119-140 | a 256-byte title, a 1000-byte author or a 10000-byte publisher, each with a good date, is reported for that field alone |
| `Scenarios.BlankBookExample` | main_test.go:143-164 | the all-zero book that an empty JSON object decodes to is refused for its date alone |
| `Scenarios.BadRatingWithoutDate` | main_test.go:105-116 | a book with a bad rating and no date is reported for the rating and for the date |
| `Scenarios.GetBooksBasic` | main_test.go:15-29 | listing an empty store answers 200 with no book |
| `Scenarios.CreateBookBasic` | main_test.go:56-71 | creating a titled, dated book gives 200 and echoes the title; reading it back gives the same record |
| `Scenarios.UpdateBookBasic` | main_test.go:168-205 | a new book is not checked out; the patch {title "Beef", checked out} changes exactly those two fields, and a read returns the updated record |
| `Scenarios.UpdateBookBadValues` | main_test.go:208-235 | the three bad patches are each refused with 400, and the stored record is unchanged |
| `Scenarios.DeleteBookBasic` | main_test.go:238-261 | a created book can be read, then deleted (the delete returns it), and a later read gives 404 |
| `Scenarios.DeleteTwice` | main_test.go:263-280 | the first listed book can be deleted once; deleting it again gives 404 |

## Left out

- Startup and the HTTP layer are not modelled: `main`, the database session, the gin engine, middleware, routing and bad URIs. The handlers take the already-routed request.
- JSON binding is not modelled. A handler receives the decoded book, with absent fields at their zero values. Nothing models what `BindJSON` does with malformed bodies: it writes a 400, and the handler then goes on with the zero-valued book.
- Path ids are not parsed from text. The handlers pass the raw path text to gorm's `First` (main.go:128, 166, 194), and what gorm does with non-numeric text is not part of this model. The model takes an id as a natural number, and it treats text that is not one as an unknown id.
- gorm's timestamps are not modelled. Soft delete is modelled as removal from the live records, which is all a later read can tell.
- A create body that carries its own `ID` is not modelled. The model always stores under the next id. What gorm and the database do with an explicit key is database behaviour outside the model: it may insert under that key, or fail on a duplicate, an error the handler ignores.
- Database errors are not modelled, and neither is the column limit from the `size:255` tag (main.go:13-15). The store accepts any text. That tag makes a varchar(255) column, which limits characters, not bytes. So a title of more than 255 characters that reaches `db.Save` through UpdateBook would fail in the database. The handler ignores that error and still answers 200 with the merged book. A title of more than 255 bytes but at most 255 characters, such as 200 two-byte characters, would be stored on that same path, even though `validateBook` refuses it.
- Store order is not modelled. The database lists rows in its natural order, which is unspecified; the model fixes ascending id order.
- The rating's width is not modelled. Go's `int` is 64 bits wide, but the model's rating is an unbounded integer. `validateBook` only compares the rating (main.go:227), so every value in the 64-bit range behaves the same in both. A JSON number outside that range fails to bind, and JSON binding is left out.
- Parts of `time.Parse` that the layout "2006-Jan-02" never reaches are not modelled, such as time zones, fractional seconds and other layout elements, and so is the text of its error values. Only success or failure matters to the caller.
- The service may start with rows. `AutoMigrate` (main.go:53) keeps a table's existing rows, and the tests rely on rows left by earlier tests (main_test.go:269-274). The scenarios start from an empty store. The handlers only require the store invariant, so their contracts cover a store that already has rows.
- Concurrency between requests is not modelled. Each handler runs atomically on the store.
