/** The service's own test scenarios replayed on the model: the example dates,
    ratings and lengths the tests send, and the create / update / get /
    delete sequences they run, here against a fresh store. */
module Scenarios {
  import opened Wrappers
  import opened Text
  import opened ShortDate
  import opened Books
  import opened Handlers

  // The texts the tests send, as bytes.
  const Dec26: Bytes := [50, 48, 49, 48, 45, 68, 101, 99, 45, 50, 54] // 2010-Dec-26
  const Jan20: Bytes := [50, 48, 48, 49, 45, 74, 97, 110, 45, 50, 48] // 2001-Jan-20
  const Dec01: Bytes := [50, 48, 48, 49, 45, 68, 101, 99, 45, 48, 49] // 2001-Dec-01
  const Jan01: Bytes := [50, 48, 49, 54, 45, 74, 97, 110, 45, 48, 49] // 2016-Jan-01
  const Numeric: Bytes := [50, 48, 49, 50, 45, 49, 50, 45, 50, 54] // 2012-12-26
  const LongMonth: Bytes := [50, 48, 49, 50, 45, 83, 101, 112, 116, 101, 109, 98, 101, 114, 45, 51, 48] // 2012-September-30
  const Prose: Bytes := [68, 101, 99, 101, 109, 98, 101, 114, 32, 50, 49, 115, 116, 44, 32, 50, 48, 48, 49] // December 21st, 2001
  const Json: Bytes := [123, 34, 106, 115, 111, 110, 34, 58, 32, 34, 115, 116, 114, 117, 99, 116, 117, 114, 101, 34, 125] // {"json": "structure"}
  const Jan35: Bytes := [50, 48, 48, 49, 45, 74, 97, 110, 45, 51, 53] // 2001-Jan-35
  const Slashes: Bytes := [50, 48, 49, 50, 47, 48, 54, 47, 49, 54] // 2012/06/16
  const DayFirst: Bytes := [49, 48, 47, 74, 97, 110, 47, 50, 48, 48, 56] // 10/Jan/2008
  const AllNumeric: Bytes := [49, 48, 47, 49, 48, 47, 50, 48, 48, 49] // 10/10/2001
  const LeapDay: Bytes := [50, 48, 48, 48, 45, 70, 101, 98, 45, 50, 57] // 2000-Feb-29
  const NoLeapDay: Bytes := [49, 57, 48, 48, 45, 70, 101, 98, 45, 50, 57] // 1900-Feb-29
  const MixedCase: Bytes := [50, 48, 49, 48, 45, 100, 69, 67, 45, 50, 54] // 2010-dEC-26
  const Tale: Bytes := [65, 32, 84, 97, 108, 101, 32, 111, 102, 32, 84, 119, 111, 32, 67, 111, 100, 101, 32, 67, 104, 97, 108, 108, 101, 110, 103, 101, 115] // A Tale of Two Code Challenges
  const Crudz: Bytes := [99, 114, 85, 100, 122] // crUdz
  const Ghost: Bytes := [71, 104, 111, 115, 116] // Ghost
  const Beef: Bytes := [66, 101, 101, 102] // Beef
  const Vacation: Bytes := [86, 97, 99, 97, 116, 105, 111, 110] // Vacation
  const Vouchers: Bytes := [86, 111, 117, 99, 104, 101, 114, 115] // Vouchers
  const BringDollars: Bytes := [66, 114, 105, 110, 103, 68, 111, 108, 108, 97, 114, 115] // BringDollars
  const NotLong: Bytes := [78, 111, 116, 32, 76, 111, 110, 103, 32, 70, 111, 114, 32, 84, 104, 105, 115, 32, 80, 111, 115, 105, 116, 105, 111, 110] // Not Long For This Position
  const Dennison: Bytes := [68, 97, 118, 105, 100, 32, 68, 101, 110, 110, 105, 115, 111, 110] // David Dennison

  /** The short dates the tests expect to be accepted, one lemma each: each is
      how the layout writes its date, and parses back to it. */
  lemma Dec26Accepted()
    ensures Format(Date(2010, 12, 26)) == Dec26 && Parse(Dec26) == Some(Date(2010, 12, 26))
  {
    assert YearText(2010) == [50, 48, 49, 48] && DayText(26) == [50, 54];
    assert Format(Date(2010, 12, 26)) == Dec26;
    ParseFormat(Date(2010, 12, 26));
  }

  lemma Jan20Accepted()
    ensures Format(Date(2001, 1, 20)) == Jan20 && Parse(Jan20) == Some(Date(2001, 1, 20))
  {
    assert YearText(2001) == [50, 48, 48, 49] && DayText(20) == [50, 48];
    assert Format(Date(2001, 1, 20)) == Jan20;
    ParseFormat(Date(2001, 1, 20));
  }

  lemma Dec01Accepted()
    ensures Format(Date(2001, 12, 1)) == Dec01 && Parse(Dec01) == Some(Date(2001, 12, 1))
  {
    assert YearText(2001) == [50, 48, 48, 49] && DayText(1) == [48, 49];
    assert Format(Date(2001, 12, 1)) == Dec01;
    ParseFormat(Date(2001, 12, 1));
  }

  lemma Jan01Accepted()
    ensures Format(Date(2016, 1, 1)) == Jan01 && Parse(Jan01) == Some(Date(2016, 1, 1))
  {
    assert YearText(2016) == [50, 48, 49, 54] && DayText(1) == [48, 49];
    assert Format(Date(2016, 1, 1)) == Jan01;
    ParseFormat(Date(2016, 1, 1));
  }

  /** The date texts the tests expect to be rejected, and the empty text. */
  lemma RejectedDateExamples()
    ensures !ValidShortDate(Numeric)
    ensures !ValidShortDate(LongMonth)
    ensures !ValidShortDate(Prose)
    ensures !ValidShortDate(Json)
    ensures !ValidShortDate(Jan35)
    ensures !ValidShortDate(Slashes)
    ensures !ValidShortDate(DayFirst)
    ensures !ValidShortDate(AllNumeric)
    ensures !ValidShortDate([])
  {
  }

  /** The layout knows leap years: 29 February 2000 exists, 29 February 1900
      does not. */
  lemma LeapDayAccepted()
    ensures Format(Date(2000, 2, 29)) == LeapDay && Parse(LeapDay) == Some(Date(2000, 2, 29))
  {
    assert YearText(2000) == [50, 48, 48, 48] && DayText(29) == [50, 57];
    assert Format(Date(2000, 2, 29)) == LeapDay;
    ParseFormat(Date(2000, 2, 29));
  }

  lemma NoLeapDayRejected()
    ensures !ValidShortDate(NoLeapDay)
  {
    assert NoLeapDay[5..8] == MonthNames[1];
    LookupOwnName(2);
  }

  /** The month name is matched whatever its case. */
  lemma MixedCaseAccepted()
    ensures Parse(MixedCase) == Some(Date(2010, 12, 26))
  {
    FormattedIsAccepted(MixedCase, Date(2010, 12, 26));
  }

  /** The ratings the tests expect to be flagged; 0 to 3 never are. */
  lemma RatingExamples()
    ensures forall r | r in [-2, 20, 4, 203003, -49849, 9999999, 50000000, -50000000] :: RatingOutOfRange(r)
    ensures forall r | 0 <= r <= 3 :: !RatingOutOfRange(r)
  {
  }

  /** `n` bytes of text. */
  function Filler(n: nat): (r: Bytes)
    ensures |r| == n
  {
    seq(n, i => 97)
  }

  /** The over-long strings of the tests: each is reported, and nothing else is. */
  lemma TooLongExamples()
    ensures Diagnostics(Blank.(title := Filler(256), publishDate := Jan20))
      == map[Title := TooLong]
    ensures Diagnostics(Blank.(author := Filler(1000), publishDate := Jan20))
      == map[Author := TooLong]
    ensures Diagnostics(Blank.(publisher := Filler(10000), publishDate := Jan20))
      == map[Publisher := TooLong]
  {
    Jan20Accepted();
    var date := Jan20;
    ReportsEveryBrokenRule(Blank.(title := Filler(256), publishDate := date), map[Title := TooLong]);
    ReportsEveryBrokenRule(Blank.(author := Filler(1000), publishDate := date), map[Author := TooLong]);
    ReportsEveryBrokenRule(Blank.(publisher := Filler(10000), publishDate := date), map[Publisher := TooLong]);
  }

  /** An empty JSON object decodes to the blank book, which is rejected for
      its missing date alone. */
  lemma BlankBookExample()
    ensures Diagnostics(Blank) == map[PublishDate := BadDate([])]
  {
    ReportsEveryBrokenRule(Blank, map[PublishDate := BadDate([])]);
  }

  /** A book with a bad rating and no date, as the rating tests send it, is
      reported for both. */
  lemma BadRatingWithoutDate(b: Book)
    requires RatingOutOfRange(b.rating) && b.publishDate == []
    requires |b.title| <= MaxLength && |b.author| <= MaxLength && |b.publisher| <= MaxLength
    ensures Diagnostics(b) == map[Rating := BadRating(b.rating), PublishDate := BadDate([])]
  {
    ReportsEveryBrokenRule(b, map[Rating := BadRating(b.rating), PublishDate := BadDate([])]);
  }

  /** GET /books on an empty store answers 200 with a list holding no book. */
  method GetBooksBasic() returns (listed: Response)
    ensures listed.status == OK && listed.payload.All?
    ensures forall b :: b !in listed.payload.books
  {
    var store := new Store();
    listed := store.GetBooks();
  }

  /** A fresh store after one accepted create: the book is the first record. */
  method StoreWith(book: Book) returns (store: Store, created: Response)
    requires Acceptable(book)
    ensures fresh(store) && store.Valid()
    ensures store.books == map[1 := book.(id := 1)] && store.nextId == 2
    ensures created == Response(OK, One(book.(id := 1)))
  {
    store := new Store();
    created := store.CreateBook(book);
  }

  /** A created book echoes its title, and reading it back gives the same record. */
  method CreateBookBasic() returns (created: Response, fetched: Response)
    ensures created.status == OK && created.payload.One?
    ensures created.payload.book.title == Tale
    ensures fetched == created
  {
    var book := Blank.(title := Tale, publishDate := Dec26);
    Dec26Accepted();
    AcceptableIffRulesHold(book);
    var store;
    store, created := StoreWith(book);
    fetched := store.GetBook(created.payload.book.id);
  }

  /** A created book is not checked out; a patch setting the title and
      `checked_out` changes those two fields, keeps the rest, and a read gives
      the updated record. */
  method UpdateBookBasic() returns (created: Response, updated: Response, fetched: Response)
    ensures created.status == OK && created.payload.One? && !created.payload.book.checkedOut
    ensures updated.status == OK && updated.payload.One?
    ensures updated.payload.book == created.payload.book.(title := Beef, checkedOut := true)
    ensures fetched == updated
  {
    var book := Blank.(title := Crudz, author := Ghost, rating := 3, publishDate := Dec01);
    Dec01Accepted();
    AcceptableIffRulesHold(book);
    var store;
    store, created := StoreWith(book);
    updated := store.UpdateBook(1, Blank.(title := Beef, checkedOut := true));
    fetched := store.GetBook(1);
  }

  /** Patches with an out-of-range rating or an unparsable date are refused
      with 400, and the stored record stays as it was. */
  method UpdateBookBadValues() returns (created: Response, refused: seq<Response>, fetched: Response)
    ensures created.status == OK && created.payload.One?
    ensures |refused| == 3
    ensures refused[0].status == BadRequest && refused[1].status == BadRequest && refused[2].status == BadRequest
    ensures fetched == created
  {
    var book := Blank.(title := Crudz, author := Ghost, rating := 3, publishDate := Dec01);
    Dec01Accepted();
    AcceptableIffRulesHold(book);
    var store;
    store, created := StoreWith(book);
    var first := Blank.(title := Vacation, rating := 50000000);
    RatingWithoutDateRejected(first);
    var r1 := store.UpdateBook(1, first);
    var second := Blank.(title := Vouchers, rating := -50000000);
    RatingWithoutDateRejected(second);
    var r2 := store.UpdateBook(1, second);
    var third := Blank.(title := BringDollars, publishDate := AllNumeric);
    RejectedDateExamples();
    BrokenRuleReported(third, PublishDate);
    var r3 := store.UpdateBook(1, third);
    refused := [r1, r2, r3];
    fetched := store.GetBook(1);
  }

  /** A created book can be read, deleted (returning it), and then is gone. */
  method DeleteBookBasic() returns (fetched: Response, deleted: Response, gone: Response)
    ensures fetched.status == OK && deleted == fetched
    ensures gone == Response(NotFound, NoBody)
  {
    var book := Blank.(title := NotLong, author := Dennison, rating := 3, publishDate := Jan01);
    Jan01Accepted();
    AcceptableIffRulesHold(book);
    var store, created := StoreWith(book);
    fetched := store.GetBook(1);
    deleted := store.DeleteBook(1);
    gone := store.GetBook(1);
  }

  /** A listed book can be deleted once; deleting it again is a 404. */
  method DeleteTwice() returns (listed: Response, deleted: Response, again: Response)
    ensures listed.status == OK && listed.payload.All? && |listed.payload.books| > 0
    ensures deleted == Response(OK, One(listed.payload.books[0]))
    ensures again == Response(NotFound, NoBody)
  {
    var book := Blank.(title := Tale, publishDate := Dec26);
    Dec26Accepted();
    AcceptableIffRulesHold(book);
    var store, created := StoreWith(book);
    listed := store.GetBooks();
    var list := listed.payload.books;
    var stored := book.(id := 1);
    assert store.books[1] == stored;
    assert stored in list;
    assert list[0] in list;
    assert list[0] == stored;
    deleted := store.DeleteBook(list[0].id);
    again := store.DeleteBook(list[0].id);
  }
}
