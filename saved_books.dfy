/** The two array updates the resolvers send to the document store for a
    user's `savedBooks`: MongoDB's `$addToSet` and `$pull`. */
module SavedBooks {

  /** An element of `savedBooks`: `saveBook` stores `{ bookId }` and nothing
      else, so two elements are equal exactly when their `bookId`s are. */
  datatype BookEntry = BookEntry(bookId: string)

  /** No element occurs twice. */
  ghost predicate IsSet(books: seq<BookEntry>) {
    forall e :: multiset(books)[e] <= 1
  }

  /** `$addToSet: { savedBooks: entry }`: the array unchanged when an equal
      element is already there, otherwise the array with `entry` appended. */
  function AddToSet(books: seq<BookEntry>, entry: BookEntry): (r: seq<BookEntry>)
    ensures books <= r && entry in r
    ensures |r| == |books| || (|r| == |books| + 1 && entry !in books)
  {
    if entry in books then books else books + [entry]
  }

  /** `$pull: { savedBooks: { bookId } }`: every element with that `bookId`
      removed, every other element kept as often as it occurred. */
  function Pull(books: seq<BookEntry>, bookId: string): (r: seq<BookEntry>)
    ensures forall e :: e in r <==> e in books && e.bookId != bookId
    ensures forall e: BookEntry :: e.bookId != bookId ==> multiset(r)[e] == multiset(books)[e]
    ensures |r| <= |books|
  {
    if books == [] then []
    else
      var rest := Pull(books[1..], bookId);
      assert books == [books[0]] + books[1..];
      if books[0].bookId == bookId then rest else [books[0]] + rest
  }

  /** `$pull` works element by element, so it keeps the order of what stays. */
  lemma {:induction false} PullDistributes(a: seq<BookEntry>, b: seq<BookEntry>, bookId: string)
    ensures Pull(a + b, bookId) == Pull(a, bookId) + Pull(b, bookId)
  {
    if a == [] {
      assert a + b == b;
    } else {
      assert (a + b)[0] == a[0];
      assert (a + b)[1..] == a[1..] + b;
      PullDistributes(a[1..], b, bookId);
    }
  }

  /** Pulling a `bookId` that is not there is a no-op. */
  lemma {:induction false} PullAbsentIsNoOp(books: seq<BookEntry>, bookId: string)
    requires BookEntry(bookId) !in books
    ensures Pull(books, bookId) == books
  {
    if books != [] {
      assert books[0] in books;
      assert books == [books[0]] + books[1..];
      PullAbsentIsNoOp(books[1..], bookId);
    }
  }

  /** Saving twice is saving once. */
  lemma AddToSetIdempotent(books: seq<BookEntry>, entry: BookEntry)
    ensures AddToSet(AddToSet(books, entry), entry) == AddToSet(books, entry)
  {
  }

  /** Saving a book that was not saved and then deleting it gives back the
      original array. */
  lemma SaveThenDeleteRestores(books: seq<BookEntry>, bookId: string)
    requires BookEntry(bookId) !in books
    ensures Pull(AddToSet(books, BookEntry(bookId)), bookId) == books
  {
    PullDistributes(books, [BookEntry(bookId)], bookId);
    PullAbsentIsNoOp(books, bookId);
  }

  /** Save, delete, save again: the book is there exactly once. */
  lemma SaveDeleteSaveLeavesOne(books: seq<BookEntry>, bookId: string)
    ensures var e := BookEntry(bookId);
            multiset(AddToSet(Pull(AddToSet(books, e), bookId), e))[e] == 1
  {
    var e := BookEntry(bookId);
    var pulled := Pull(AddToSet(books, e), bookId);
    assert e !in pulled;
    assert multiset(pulled)[e] == 0;
  }

  /** Both updates keep an array free of duplicates. */
  lemma UpdatesKeepSet(books: seq<BookEntry>, bookId: string)
    requires IsSet(books)
    ensures IsSet(AddToSet(books, BookEntry(bookId)))
    ensures IsSet(Pull(books, bookId))
  {
    var added := AddToSet(books, BookEntry(bookId));
    forall e: BookEntry ensures multiset(added)[e] <= 1 {
      if BookEntry(bookId) !in books {
        assert added == books + [BookEntry(bookId)];
        assert multiset(added) == multiset(books) + multiset{BookEntry(bookId)};
      }
    }
    var pulled := Pull(books, bookId);
    forall e: BookEntry ensures multiset(pulled)[e] <= 1 {
      if e.bookId == bookId {
        assert e !in pulled;
      }
    }
  }
}
