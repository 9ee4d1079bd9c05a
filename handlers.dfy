/** The five request handlers (CreateBook, GetBook, GetBooks, UpdateBook,
    DeleteBook) run against an abstract store: the live (not soft-deleted)
    records keyed by id, and the next id the store will assign.  A handler
    receives the already-decoded request (the id from the path, the book
    from the JSON body, absent fields at their zero values) and returns the
    HTTP status with its payload. */
module Handlers {
  import opened Books

  const OK: int := 200
  const BadRequest: int := 400
  const NotFound: int := 404

  /** What a handler writes back: nothing (a bare 404), a book, a list of
      books, or the diagnostics map of a rejected book. */
  datatype Payload = NoBody | One(book: Book) | All(books: seq<Book>) | Rejected(diagnostics: map<Field, Diag>)

  datatype Response = Response(status: int, payload: Payload)

  /** The ids in `ids` below `bound`, in ascending order: a scan of the
      id range. */
  function IdsBelow(ids: set<nat>, bound: nat): (r: seq<nat>)
    ensures forall i | 0 <= i < |r| :: r[i] in ids && r[i] < bound
    ensures forall x | x in ids && x < bound :: x in r
    ensures forall i, j | 0 <= i < j < |r| :: r[i] < r[j]
  {
    if bound == 0 then []
    else IdsBelow(ids, bound - 1) + (if bound - 1 in ids then [bound - 1] else [])
  }

  /** GET /books's query: when every record carries its own id and all ids
      are below `bound`, the live records, each exactly once, in ascending id
      order (the store's natural order is not specified; the model fixes this
      one). */
  function Listing(books: map<nat, Book>, bound: nat): (r: seq<Book>)
    requires forall id | id in books :: id < bound && books[id].id == id
    ensures forall b :: b in r <==> b in books.Values
    ensures forall i, j | 0 <= i < j < |r| :: r[i].id < r[j].id
  {
    var ids := IdsBelow(books.Keys, bound);
    var r := seq(|ids|, i requires 0 <= i < |ids| => books[ids[i]]);
    ScanListsLiveRecords(books, bound, r);
    r
  }

  /** The validation UpdateBook runs: only when the patch sets a date or a
      rating. */
  predicate NeedsValidation(patch: Book) {
    patch.publishDate != [] || patch.rating != 0
  }

  /** A patch that sets a rating but no date is always refused: the empty
      date fails the layout, so UpdateBook can never change a rating alone. */
  lemma RatingWithoutDateRejected(patch: Book)
    requires patch.rating != 0 && patch.publishDate == []
    ensures NeedsValidation(patch) && !Acceptable(patch)
  {
    EmptyDateRejected(patch);
  }

  /** A patch that sets neither a date nor a rating skips validation, so an
      over-long title, author or publisher in it reaches the stored record. */
  lemma UnvalidatedPatchBreaksRules(base: Book, patch: Book)
    requires patch.publishDate == [] && patch.rating == 0 && |patch.title| > MaxLength
    ensures !NeedsValidation(patch)
    ensures Merged(base, patch).title == patch.title && !Acceptable(Merged(base, patch))
  {
    BrokenRuleReported(Merged(base, patch), Title);
  }

  class Store {
    /** The live records by id. */
    var books: map<nat, Book>
    /** The id the next insert is given. */
    var nextId: nat

    /** Ids are positive, below the next one to assign, and each record
        carries its own id. */
    ghost predicate Valid()
      reads this
    {
      0 < nextId && forall id | id in books :: 0 < id < nextId && books[id].id == id
    }

    constructor ()
      ensures Valid() && books == map[] && nextId == 1
    {
      books := map[];
      nextId := 1;
    }

    /** POST /books: validate the whole candidate; store it under a fresh id
        when it passes. */
    method CreateBook(candidate: Book) returns (response: Response)
      requires Valid()
      modifies this
      ensures Valid()
      ensures !Acceptable(candidate) ==>
        && response == Response(BadRequest, Rejected(Diagnostics(candidate)))
        && books == old(books) && nextId == old(nextId)
      ensures Acceptable(candidate) ==>
        var id := old(nextId);
        && id !in old(books)
        && books == old(books)[id := candidate.(id := id)]
        && nextId == id + 1
        && response == Response(OK, One(candidate.(id := id)))
    {
      var ok, reasons := ValidateBook(candidate);
      if !ok {
        response := Response(BadRequest, Rejected(reasons));
        return;
      }
      var stored := candidate.(id := nextId);
      books := books[nextId := stored];
      nextId := nextId + 1;
      response := Response(OK, One(stored));
    }

    /** GET /books/{id}: the record, or a bare 404. */
    method GetBook(id: nat) returns (response: Response)
      ensures id in books ==> response == Response(OK, One(books[id]))
      ensures id !in books ==> response == Response(NotFound, NoBody)
    {
      if id !in books {
        response := Response(NotFound, NoBody);
        return;
      }
      response := Response(OK, One(books[id]));
    }

    /** GET /books: every live record, always with 200. */
    method GetBooks() returns (response: Response)
      requires Valid()
      ensures response.status == OK && response.payload.All?
      ensures var list := response.payload.books;
        && (forall b :: b in list <==> b in books.Values)
        && (forall i, j | 0 <= i < j < |list| :: list[i].id < list[j].id)
    {
      var list := Listing(books, nextId);
      response := Response(OK, All(list));
    }

    /** PUT /books/{id}: 404 for an unknown id; the patch is validated only
        when it sets a date or a rating; otherwise the record becomes the
        merge of the stored record and the patch. */
    method UpdateBook(id: nat, patch: Book) returns (response: Response)
      requires Valid()
      modifies this
      ensures Valid() && nextId == old(nextId)
      ensures id !in old(books) ==>
        response == Response(NotFound, NoBody) && books == old(books)
      ensures id in old(books) && NeedsValidation(patch) && !Acceptable(patch) ==>
        response == Response(BadRequest, Rejected(Diagnostics(patch))) && books == old(books)
      ensures id in old(books) && (!NeedsValidation(patch) || Acceptable(patch)) ==>
        && books == old(books)[id := Merged(old(books)[id], patch)]
        && response == Response(OK, One(Merged(old(books)[id], patch)))
    {
      if id !in books {
        response := Response(NotFound, NoBody);
        return;
      }
      var original := books[id];
      if patch.publishDate != [] || patch.rating != 0 {
        var ok, reasons := ValidateBook(patch);
        if !ok {
          response := Response(BadRequest, Rejected(reasons));
          return;
        }
      }
      var merged := Merge(original, patch);
      books := books[id := merged];
      response := Response(OK, One(merged));
    }

    /** DELETE /books/{id}: 404 for an unknown id; otherwise the record is
        removed and returned as it was. */
    method DeleteBook(id: nat) returns (response: Response)
      requires Valid()
      modifies this
      ensures Valid() && nextId == old(nextId)
      ensures id !in old(books) ==>
        response == Response(NotFound, NoBody) && books == old(books)
      ensures id in old(books) ==>
        response == Response(OK, One(old(books)[id])) && books == old(books) - {id}
    {
      if id !in books {
        response := Response(NotFound, NoBody);
        return;
      }
      var book := books[id];
      books := books - {id};
      response := Response(OK, One(book));
    }
  }

  /** The records read off the id scan are the live records, in ascending
      id order. */
  lemma ScanListsLiveRecords(books: map<nat, Book>, bound: nat, r: seq<Book>)
    requires forall id | id in books :: id < bound && books[id].id == id
    requires |r| == |IdsBelow(books.Keys, bound)|
    requires forall i | 0 <= i < |r| :: r[i] == books[IdsBelow(books.Keys, bound)[i]]
    ensures forall b :: b in r <==> b in books.Values
    ensures forall i, j | 0 <= i < j < |r| :: r[i].id < r[j].id
  {
    var ids := IdsBelow(books.Keys, bound);
    forall b | b in books.Values ensures b in r {
      var id :| id in books && books[id] == b;
      var i :| 0 <= i < |ids| && ids[i] == id;
      assert r[i] == b;
    }
    forall i | 0 <= i < |r| ensures r[i].id == ids[i] {
    }
  }
}
