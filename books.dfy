/** The Book record of the service, its field validation (validateBook) and
    its partial-update merge (Book.Merge). */
module Books {
  import opened Text
  import opened ShortDate

  /** The most bytes `title`, `author` and `publisher` may hold. */
  const MaxLength: nat := 255

  /** A book as decoded from a request or read from the store.  `id` is the
      store's primary key (0 until the store assigns one); the store's
      timestamps and soft-delete marker are not part of the model.  Text
      fields are byte strings, so their lengths are byte lengths, as Go's
      `len` counts them. */
  datatype Book = Book(
    id: nat,
    title: Bytes,
    author: Bytes,
    publisher: Bytes,
    publishDate: Bytes,
    rating: int,
    checkedOut: bool)

  /** What decoding an empty JSON body produces: every field at its zero value. */
  const Blank: Book := Book(0, [], [], [], [], 0, false)

  /** The keys of the diagnostics map: "title", "author", "publisher",
      "rating" and "publish_date". */
  datatype Field = Title | Author | Publisher | Rating | PublishDate

  /** The value reported for a field: the text "too long" for the length
      rules, the offending rating, or the offending date text. */
  datatype Diag = TooLong | BadRating(rating: int) | BadDate(date: Bytes)

  const AllFields: set<Field> := {Title, Author, Publisher, Rating, PublishDate}

  /** The JSON key each field is reported under. */
  function Key(f: Field): string {
    match f
    case Title => "title"
    case Author => "author"
    case Publisher => "publisher"
    case Rating => "rating"
    case PublishDate => "publish_date"
  }

  /** The five keys are distinct, so no complaint overwrites another. */
  lemma KeysDistinct(f: Field, g: Field)
    requires f != g
    ensures Key(f) != Key(g)
  {
  }

  predicate RatingOutOfRange(rating: int) {
    rating > 3 || (rating < 1 && rating != 0)
  }

  /** The rule each field must keep. */
  predicate Breaks(b: Book, f: Field) {
    match f
    case Title => |b.title| > MaxLength
    case Author => |b.author| > MaxLength
    case Publisher => |b.publisher| > MaxLength
    case Rating => RatingOutOfRange(b.rating)
    case PublishDate => !ValidShortDate(b.publishDate)
  }

  /** What is reported for a field that breaks its rule. */
  function Complaint(b: Book, f: Field): Diag {
    match f
    case Title | Author | Publisher => TooLong
    case Rating => BadRating(b.rating)
    case PublishDate => BadDate(b.publishDate)
  }

  /** The diagnostics of a book: one entry for every rule it breaks. */
  function Diagnostics(b: Book): map<Field, Diag> {
    map f | f in AllFields && Breaks(b, f) :: Complaint(b, f)
  }

  /** A book validateBook accepts. */
  predicate Acceptable(b: Book) {
    Diagnostics(b) == map[]
  }

  /** validateBook: every rule is checked, none short-circuits another, and
      the book is accepted exactly when no rule is broken. */
  method ValidateBook(b: Book) returns (ok: bool, reasons: map<Field, Diag>)
    ensures reasons == Diagnostics(b)
    ensures ok <==> reasons == map[]
  {
    reasons := map[];
    if |b.title| > MaxLength {
      reasons := reasons[Title := TooLong];
    }
    assert Title in reasons <==> Breaks(b, Title);
    if |b.author| > MaxLength {
      reasons := reasons[Author := TooLong];
    }
    assert Author in reasons <==> Breaks(b, Author);
    if |b.publisher| > MaxLength {
      reasons := reasons[Publisher := TooLong];
    }
    assert Publisher in reasons <==> Breaks(b, Publisher);
    if b.rating > 3 || (b.rating < 1 && b.rating != 0) {
      reasons := reasons[Rating := BadRating(b.rating)];
    }
    assert Rating in reasons <==> Breaks(b, Rating);
    var parsed := Parse(b.publishDate);
    if parsed.None? {
      reasons := reasons[PublishDate := BadDate(b.publishDate)];
    }
    ok := NoEntries(reasons);
    ReportsEveryBrokenRule(b, reasons);
  }

  /** Go's `len(resultMap) == 0`. */
  method NoEntries(m: map<Field, Diag>) returns (empty: bool)
    ensures empty <==> m == map[]
  {
    if |m| == 0 {
      empty := true;
    } else {
      empty := false;
    }
  }

  /** A map holding the complaint for exactly the broken rules is the
      diagnostics map. */
  lemma ReportsEveryBrokenRule(b: Book, m: map<Field, Diag>)
    requires Title in m <==> Breaks(b, Title)
    requires Author in m <==> Breaks(b, Author)
    requires Publisher in m <==> Breaks(b, Publisher)
    requires Rating in m <==> Breaks(b, Rating)
    requires PublishDate in m <==> Breaks(b, PublishDate)
    requires Title in m ==> m[Title] == TooLong
    requires Author in m ==> m[Author] == TooLong
    requires Publisher in m ==> m[Publisher] == TooLong
    requires Rating in m ==> m[Rating] == BadRating(b.rating)
    requires PublishDate in m ==> m[PublishDate] == BadDate(b.publishDate)
    ensures m == Diagnostics(b)
  {
    var d := Diagnostics(b);
    forall f ensures f in m <==> f in d {
      assert f == Title || f == Author || f == Publisher || f == Rating || f == PublishDate;
    }
    assert m.Keys == d.Keys;
  }

  /** A book is accepted exactly when it keeps all five rules; in particular
      the ratings 0, 1, 2 and 3 are never flagged, and an empty date always is. */
  lemma AcceptableIffRulesHold(b: Book)
    ensures Acceptable(b) <==>
      && |b.title| <= MaxLength && |b.author| <= MaxLength && |b.publisher| <= MaxLength
      && 0 <= b.rating <= 3
      && ValidShortDate(b.publishDate)
  {
    var d := Diagnostics(b);
    if !Acceptable(b) {
      var f :| f in d;
      assert Breaks(b, f);
    }
    if Acceptable(b) {
      forall f | f in AllFields ensures !Breaks(b, f) {
        assert f !in d;
      }
    }
  }

  /** A broken rule is reported with its complaint, so the book is rejected. */
  lemma BrokenRuleReported(b: Book, f: Field)
    requires Breaks(b, f)
    ensures f in Diagnostics(b) && Diagnostics(b)[f] == Complaint(b, f) && !Acceptable(b)
  {
    assert f in AllFields;
  }

  /** The empty text is not a date, so a book without one is never accepted. */
  lemma EmptyDateRejected(b: Book)
    requires b.publishDate == []
    ensures !Acceptable(b) && Diagnostics(b)[PublishDate] == BadDate([])
  {
    BrokenRuleReported(b, PublishDate);
  }

  /** The text kept by the merge: the patch's when it is non-empty,
      otherwise the base's. */
  function Override(patch: Bytes, base: Bytes): Bytes {
    if patch != [] then patch else base
  }

  /** The merge policy as one value: "non-empty / non-zero wins" for the
      text fields and the rating; `checkedOut` ends up as the patch's. */
  function Merged(base: Book, patch: Book): Book {
    base.(
      title := Override(patch.title, base.title),
      author := Override(patch.author, base.author),
      publisher := Override(patch.publisher, base.publisher),
      publishDate := Override(patch.publishDate, base.publishDate),
      rating := if patch.rating != 0 then patch.rating else base.rating,
      checkedOut := patch.checkedOut)
  }

  /** Book.Merge: the receiver's fields are overwritten one at a time by the
      present fields of the patch; `checkedOut` is overwritten when it differs. */
  method Merge(base: Book, patch: Book) returns (b: Book)
    ensures b == Merged(base, patch)
    ensures b.id == base.id
    ensures b.title == (if patch.title != [] then patch.title else base.title)
    ensures b.author == (if patch.author != [] then patch.author else base.author)
    ensures b.publisher == (if patch.publisher != [] then patch.publisher else base.publisher)
    ensures b.publishDate == (if patch.publishDate != [] then patch.publishDate else base.publishDate)
    ensures b.rating == (if patch.rating != 0 then patch.rating else base.rating)
    ensures b.checkedOut == patch.checkedOut
  {
    b := base;
    if patch.title != [] {
      b := b.(title := patch.title);
    }
    if patch.author != [] {
      b := b.(author := patch.author);
    }
    if patch.publisher != [] {
      b := b.(publisher := patch.publisher);
    }
    if patch.publishDate != [] {
      b := b.(publishDate := patch.publishDate);
    }
    if patch.rating != 0 {
      b := b.(rating := patch.rating);
    }
    if patch.checkedOut != b.checkedOut {
      b := b.(checkedOut := patch.checkedOut);
    }
  }

  /** Applying the same patch twice changes nothing more. */
  lemma MergeIdempotent(base: Book, patch: Book)
    ensures Merged(Merged(base, patch), patch) == Merged(base, patch)
  {
  }

  /** A patch with no present field leaves the book as it is, except that
      `checkedOut` is cleared: false cannot be told apart from "absent". */
  lemma MergeBlankPatch(base: Book)
    ensures Merged(base, Blank) == base.(checkedOut := false)
    ensures Merged(base, Blank.(checkedOut := base.checkedOut)) == base
  {
  }

  /** Merging a patch that validateBook accepts into an accepted book gives an
      accepted book. */
  lemma MergeKeepsAcceptable(base: Book, patch: Book)
    requires Acceptable(base) && Acceptable(patch)
    ensures Acceptable(Merged(base, patch))
  {
    AcceptableIffRulesHold(base);
    AcceptableIffRulesHold(patch);
    AcceptableIffRulesHold(Merged(base, patch));
  }
}
