/** The catalogue page: the search-and-availability filter over the list of
    books, and the page state that loading the catalogue and borrowing a
    book update. */
module Books {
  import opened JsString
  import opened Library
  import opened Interact

  /** The search box matches a book when the lower-cased title or author
      contains the lower-cased search term. */
  predicate MatchesSearch(b: Book, term: string) {
    Includes(ToLower(b.title), ToLower(term)) || Includes(ToLower(b.author), ToLower(term))
  }

  /** Whether the page keeps a book: the search must match, and the filter
      "available" or "borrowed" also asks for that availability; any other
      filter value keeps every match. */
  predicate Keep(b: Book, term: string, filter: string) {
    var matches := MatchesSearch(b, term);
    if filter == "available" then matches && b.available
    else if filter == "borrowed" then matches && !b.available
    else matches
  }

  /** `books.filter(...)`: the books the page shows, in catalogue order. */
  function FilteredBooks(books: seq<Book>, term: string, filter: string): (r: seq<Book>)
    ensures |r| <= |books|
    ensures forall b :: b in r <==> b in books && Keep(b, term, filter)
  {
    if books == [] then []
    else (if Keep(books[0], term, filter) then [books[0]] else []) + FilteredBooks(books[1..], term, filter)
  }

  /** `idx` lists, in increasing order, positions of `s` holding the
      elements of `r`. */
  ghost predicate Embeds(r: seq<Book>, s: seq<Book>, idx: seq<nat>) {
    && |idx| == |r|
    && (forall k :: 0 <= k < |idx| ==> idx[k] < |s| && s[idx[k]] == r[k])
    && (forall j, k :: 0 <= j < k < |idx| ==> idx[j] < idx[k])
  }

  /** `r` is `s` with some elements left out and the rest in their order. */
  ghost predicate IsSubsequence(r: seq<Book>, s: seq<Book>) {
    exists idx :: Embeds(r, s, idx)
  }

  /** Every position of `idx`, one further along. */
  function Shift(idx: seq<nat>): (r: seq<nat>)
    ensures |r| == |idx|
    ensures forall k :: 0 <= k < |r| ==> r[k] == idx[k] + 1
  {
    seq(|idx|, k requires 0 <= k < |idx| => idx[k] + 1)
  }

  /** An embedding into the tail of `s` is one into `s`, shifted by one. */
  lemma ShiftEmbeds(r: seq<Book>, s: seq<Book>, idx: seq<nat>)
    requires s != [] && Embeds(r, s[1..], idx)
    ensures Embeds(r, s, Shift(idx))
  {
  }

  /** Putting the head of `s` in front of an embedding that avoids position 0. */
  lemma ConsEmbeds(r: seq<Book>, s: seq<Book>, idx: seq<nat>)
    requires s != [] && Embeds(r, s, idx)
    requires forall k :: 0 <= k < |idx| ==> idx[k] > 0
    ensures Embeds([s[0]] + r, s, [0] + idx)
  {
  }

  /** The shown list is a subsequence of the catalogue: nothing is invented
      and the order is kept. */
  lemma {:induction false} FilteredIsSubsequence(books: seq<Book>, term: string, filter: string)
    ensures IsSubsequence(FilteredBooks(books, term, filter), books)
  {
    if books == [] {
      assert Embeds([], [], []);
    } else {
      FilteredIsSubsequence(books[1..], term, filter);
      var rest := FilteredBooks(books[1..], term, filter);
      var idx :| Embeds(rest, books[1..], idx);
      ShiftEmbeds(rest, books, idx);
      if Keep(books[0], term, filter) {
        ConsEmbeds(rest, books, Shift(idx));
        assert FilteredBooks(books, term, filter) == [books[0]] + rest;
      } else {
        assert FilteredBooks(books, term, filter) == rest;
      }
    }
  }

  /** An empty search term matches every book. */
  lemma EmptyTermMatches(b: Book)
    ensures MatchesSearch(b, "")
  {
  }

  /** With an empty search term and a filter other than "available" and
      "borrowed", the page shows the whole catalogue. */
  lemma {:induction false} EmptySearchShowsAll(books: seq<Book>, filter: string)
    requires filter != "available" && filter != "borrowed"
    ensures FilteredBooks(books, "", filter) == books
  {
    if books != [] {
      EmptyTermMatches(books[0]);
      EmptySearchShowsAll(books[1..], filter);
      assert books == [books[0]] + books[1..];
    }
  }

  /** Every filter value other than "available" and "borrowed" behaves as
      "all". */
  lemma {:induction false} OtherFilterIsAll(books: seq<Book>, term: string, filter: string)
    requires filter != "available" && filter != "borrowed"
    ensures FilteredBooks(books, term, filter) == FilteredBooks(books, term, "all")
  {
    if books != [] {
      OtherFilterIsAll(books[1..], term, filter);
    }
  }

  /** The "available" and "borrowed" views split the matching books between
      them: every match is in exactly one, counted with repetition. */
  lemma {:induction false} AvailableBorrowedPartition(books: seq<Book>, term: string)
    ensures multiset(FilteredBooks(books, term, "available")) + multiset(FilteredBooks(books, term, "borrowed"))
         == multiset(FilteredBooks(books, term, "all"))
  {
    if books != [] {
      AvailableBorrowedPartition(books[1..], term);
    }
  }

  const RegisterFirstStatus := "Please register an account first to borrow books"

  /** The state of the catalogue page. */
  class BooksPage {
    var books: seq<Book>
    var loading: bool
    var status: string
    var searchTerm: string
    var filter: string
    var isRegistered: bool

    /** A freshly mounted page: nothing loaded yet, filter "all". */
    constructor ()
      ensures books == [] && loading && status == ""
      ensures searchTerm == "" && filter == "all" && !isRegistered
    {
      books := [];
      loading := true;
      status := "";
      searchTerm := "";
      filter := "all";
      isRegistered := false;
    }

    /** `fetchBooks`: loads the catalogue from the ledger; `failure` is the
        message of a call that did not reach the ledger. */
    method FetchBooks(ledger: Ledger, failure: Option<string>)
      requires ledger.Valid()
      modifies this
      ensures !loading
      ensures failure.None? ==>
        && |books| == ledger.bookCount
        && (forall k :: 0 <= k < |books| ==> k + 1 in ledger.books && books[k] == ledger.books[k + 1])
        && status == old(status)
      ensures failure.Some? ==> books == old(books) && status == ErrorStatus(failure.value)
      ensures searchTerm == old(searchTerm) && filter == old(filter) && isRegistered == old(isRegistered)
    {
      loading := true;
      if failure.None? {
        books := ledger.GetAllBooks();
      } else {
        status := ErrorStatus(failure.value);
      }
      loading := false;
    }

    /** `checkRegistration`: reads whether `account` is registered; a failed
        call leaves the flag as it was. */
    method CheckRegistration(ledger: Ledger, account: Address, failure: Option<string>)
      requires ledger.Valid()
      modifies this
      ensures isRegistered == if failure.None? then account in ledger.users else old(isRegistered)
      ensures books == old(books) && loading == old(loading) && status == old(status)
      ensures searchTerm == old(searchTerm) && filter == old(filter)
    {
      if failure.None? {
        isRegistered := ledger.UserInfo(account).isRegistered;
      }
    }

    /** `handleBorrowBook(id, price)`: an unregistered visitor only gets a
        message and the ledger is not called; otherwise `account` sends
        `price` to borrow book `id` (`borrowFailure` is the message of a
        call that did not reach the ledger), the status reports the outcome,
        and a success reloads the catalogue (`refreshFailure` as for
        FetchBooks). */
    method HandleBorrowBook(ledger: Ledger, account: Address, id: nat, price: nat,
                            borrowFailure: Option<string>, refreshFailure: Option<string>)
      requires ledger.Valid()
      modifies this, ledger
      ensures ledger.Valid()
      ensures searchTerm == old(searchTerm) && filter == old(filter) && isRegistered == old(isRegistered)
      ensures !isRegistered ==>
        && unchanged(ledger)
        && status == RegisterFirstStatus
        && books == old(books) && loading == old(loading)
      ensures isRegistered && borrowFailure.Some? ==>
        && unchanged(ledger)
        && status == ErrorStatus(borrowFailure.value)
        && books == old(books) && loading == old(loading)
      ensures isRegistered && borrowFailure.None? && old(ledger.BorrowError(account, id, price)).Some? ==>
        && unchanged(ledger)
        && status == ErrorStatus(RevertReason(old(ledger.BorrowError(account, id, price)).value))
        && books == old(books) && loading == old(loading)
      ensures isRegistered && borrowFailure.None? && old(ledger.BorrowError(account, id, price)) == None ==>
        && id in old(ledger.books)
        && ledger.books == old(ledger.books)[id := old(ledger.books)[id].(available := false)]
        && ledger.borrowers == old(ledger.borrowers)[id := account]
        && ledger.balance == old(ledger.balance) + price
        && ledger.fees == old(ledger.fees) + [price]
        && ledger.users == old(ledger.users) && ledger.owner == old(ledger.owner)
        && ledger.initialized == old(ledger.initialized) && ledger.bookCount == old(ledger.bookCount)
        && !loading
        && (refreshFailure.None? ==>
              status == BorrowedStatus
              && |books| == ledger.bookCount
              && forall k :: 0 <= k < |books| ==> k + 1 in ledger.books && books[k] == ledger.books[k + 1])
        && (refreshFailure.Some? ==> status == ErrorStatus(refreshFailure.value) && books == old(books))
    {
      if !isRegistered {
        status := RegisterFirstStatus;
        return;
      }
      if borrowFailure.Some? {
        status := ErrorStatus(borrowFailure.value);
        return;
      }
      var result := ledger.BorrowBook(account, id, price);
      if result.Err? {
        status := ErrorStatus(RevertReason(result.error));
      } else {
        status := BorrowedStatus;
        FetchBooks(ledger, refreshFailure);
      }
    }
  }
}
