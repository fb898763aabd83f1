/** The library ledger: one store holding the owner's address, the book
    catalogue, the borrower record of every borrowed book, the user
    registry and the balance of borrowing fees, changed only through a
    fixed set of guarded operations. Each operation either fails with a
    revert reason and leaves the store exactly as it was, or applies all of
    its effects at once. */
module Library {
  import opened JsString

  /** An account address; the zero address is never a valid owner. */
  type Address = nat
  const ZeroAddress: Address := 0

  /** 0.1 ether in wei, the price the test suite uses for every book. */
  const PointOneEther: nat := 100_000_000_000_000_000

  datatype Option<T> = None | Some(value: T)

  datatype Book = Book(id: nat, title: string, author: string, borrowPrice: nat, available: bool)

  datatype User = User(name: string, email: string, registrationDate: nat, isRegistered: bool)

  /** What the ledger reports for an address that never registered. */
  const NoUser := User("", "", 0, false)

  /** The reasons an operation reverts. */
  datatype LedgerError =
    | AlreadyInitialized
    | OnlyOwner
    | InvalidArgument
    | InvalidAddress
    | BookNotFound
    | BookNotAvailable
    | BookAlreadyAvailable
    | NotRegistered
    | AlreadyRegistered
    | InsufficientFunds
    | NoFunds
    | TransferFailed
    | NotBorrowed

  datatype Result<T> = Ok(value: T) | Err(error: LedgerError)

  /** The revert reason string of each error. */
  function RevertReason(e: LedgerError): (reason: string) {
    match e
    case OnlyOwner => "Only the library owner can perform this action"
    case BookNotAvailable => "Book is not available"
    case InsufficientFunds => "Insufficient funds to borrow this book"
    case AlreadyRegistered => "User already registered"
    case NoFunds => "No funds to withdraw"
    case AlreadyInitialized => "System already initialized"
    case InvalidArgument => "Invalid argument"
    case InvalidAddress => "Invalid address"
    case BookNotFound => "Book does not exist"
    case BookAlreadyAvailable => "Book is already available"
    case NotRegistered => "User not registered"
    case TransferFailed => "Transfer failed"
    case NotBorrowed => "Book is not borrowed"
  }

  /** The total of a list of fees. */
  function Sum(fees: seq<nat>): (total: nat) {
    if fees == [] then 0 else fees[0] + Sum(fees[1..])
  }

  /** Collecting one more fee adds exactly that fee to the total. */
  lemma {:induction false} SumAppend(fees: seq<nat>, fee: nat)
    ensures Sum(fees + [fee]) == Sum(fees) + fee
  {
    if fees != [] {
      assert (fees + [fee])[1..] == fees[1..] + [fee];
      SumAppend(fees[1..], fee);
    }
  }

  /** The ledger's syntactic check of an email address: an '@' that is not
      the first character, no second '@', and a '.' after the '@'. */
  predicate EmailAccepted(email: string) {
    var at := IndexOf(email, '@');
    && 0 < at < |email|
    && '@' !in email[at + 1..]
    && '.' in email[at + 1..]
  }

  /** An accepted address has exactly one '@', and a '.' after it. */
  lemma EmailAcceptedShape(email: string)
    requires EmailAccepted(email)
    ensures multiset(email)['@'] == 1
    ensures exists i | 0 < i < |email| :: email[i] == '@' && '.' in email[i + 1..]
  {
    var at := IndexOf(email, '@');
    assert email == email[..at] + [email[at]] + email[at + 1..];
    assert '@' !in email[..at];
    assert multiset(email) == multiset(email[..at]) + multiset{'@'} + multiset(email[at + 1..]);
  }

  class Ledger {
    var owner: Address
    var initialized: bool
    var bookCount: nat
    var books: map<nat, Book>
    var borrowers: map<nat, Address>
    var users: map<Address, User>
    var balance: nat
    /** The fees collected since the last withdrawal, oldest first. */
    ghost var fees: seq<nat>

    /** The ledger's invariant: books are numbered 1..bookCount, a book is
        unavailable exactly when a borrower is recorded for it, every user
        record is a registered one, and the balance is the sum of the fees
        collected since the last withdrawal. */
    ghost predicate Valid()
      reads this
    {
      && (forall id :: id in books <==> 1 <= id <= bookCount)
      && (forall id :: id in books ==> books[id].id == id)
      && (forall id :: id in borrowers ==> id in books)
      && (forall id :: id in books ==> (books[id].available <==> id !in borrowers))
      && (forall a :: a in users ==> users[a].isRegistered)
      && balance == Sum(fees)
    }

    /** Deployment: the deployer becomes the owner of an empty library. */
    constructor (deployer: Address)
      ensures Valid()
      ensures owner == deployer && !initialized && bookCount == 0
      ensures books == map[] && borrowers == map[] && users == map[]
      ensures balance == 0 && fees == []
    {
      owner := deployer;
      initialized := false;
      bookCount := 0;
      books := map[];
      borrowers := map[];
      users := map[];
      balance := 0;
      fees := [];
    }

    /** Why `initialize` is refused, if it is. */
    function InitializeError(): (e: Option<LedgerError>)
      reads this
      ensures e == None <==> !initialized
      ensures e != None ==> e == Some(AlreadyInitialized)
    {
      if initialized then Some(AlreadyInitialized) else None
    }

    /** One-time set-up: the caller becomes the owner. */
    method Initialize(caller: Address) returns (r: Result<()>)
      requires Valid()
      modifies this
      ensures Valid()
      ensures old(InitializeError()).Some? ==> r == Err(old(InitializeError()).value) && unchanged(this)
      ensures old(InitializeError()) == None ==>
        && r == Ok(())
        && owner == caller && initialized
        && bookCount == old(bookCount) && books == old(books) && borrowers == old(borrowers)
        && users == old(users) && balance == old(balance) && fees == old(fees)
    {
      var e := InitializeError();
      if e.Some? {
        return Err(e.value);
      }
      owner := caller;
      initialized := true;
      r := Ok(());
    }

    /** Why `transferOwnership(newOwner)` from `caller` is refused, if it is. */
    function TransferError(caller: Address, newOwner: Address): (e: Option<LedgerError>)
      reads this
      ensures e == None <==> caller == owner && newOwner != ZeroAddress
      ensures caller != owner ==> e == Some(OnlyOwner)
    {
      if caller != owner then Some(OnlyOwner)
      else if newOwner == ZeroAddress then Some(InvalidAddress)
      else None
    }

    /** Hands the owner's rights to `newOwner`, effective immediately. */
    method TransferOwnership(caller: Address, newOwner: Address) returns (r: Result<()>)
      requires Valid()
      modifies this
      ensures Valid()
      ensures old(TransferError(caller, newOwner)).Some? ==>
        r == Err(old(TransferError(caller, newOwner)).value) && unchanged(this)
      ensures old(TransferError(caller, newOwner)) == None ==>
        && r == Ok(())
        && owner == newOwner && initialized == old(initialized)
        && bookCount == old(bookCount) && books == old(books) && borrowers == old(borrowers)
        && users == old(users) && balance == old(balance) && fees == old(fees)
    {
      var e := TransferError(caller, newOwner);
      if e.Some? {
        return Err(e.value);
      }
      owner := newOwner;
      r := Ok(());
    }

    /** Why `addBook` from `caller` is refused, if it is. */
    function AddBookError(caller: Address, title: string, author: string): (e: Option<LedgerError>)
      reads this
      ensures e == None <==> caller == owner && title != "" && author != ""
      ensures caller != owner ==> e == Some(OnlyOwner)
    {
      if caller != owner then Some(OnlyOwner)
      else if title == "" || author == "" then Some(InvalidArgument)
      else None
    }

    /** The owner adds an available book under the next id and gets that id. */
    method AddBook(caller: Address, title: string, author: string, borrowPrice: nat) returns (r: Result<nat>)
      requires Valid()
      modifies this
      ensures Valid()
      ensures old(AddBookError(caller, title, author)).Some? ==>
        r == Err(old(AddBookError(caller, title, author)).value) && unchanged(this)
      ensures old(AddBookError(caller, title, author)) == None ==>
        && r == Ok(old(bookCount) + 1)
        && bookCount == old(bookCount) + 1
        && books == old(books)[bookCount := Book(bookCount, title, author, borrowPrice, true)]
        && owner == old(owner) && initialized == old(initialized) && borrowers == old(borrowers)
        && users == old(users) && balance == old(balance) && fees == old(fees)
    {
      var e := AddBookError(caller, title, author);
      if e.Some? {
        return Err(e.value);
      }
      bookCount := bookCount + 1;
      books := books[bookCount := Book(bookCount, title, author, borrowPrice, true)];
      r := Ok(bookCount);
    }

    /** Why `registerUser` from `caller` is refused, if it is. */
    function RegisterError(caller: Address, name: string, email: string): (e: Option<LedgerError>)
      reads this
      ensures e == None <==> caller !in users && name != "" && EmailAccepted(email)
      ensures caller in users ==> e == Some(AlreadyRegistered)
    {
      if caller in users then Some(AlreadyRegistered)
      else if name == "" || email == "" || !EmailAccepted(email) then Some(InvalidArgument)
      else None
    }

    /** Records a user for the caller's address; no address registers twice. */
    method RegisterUser(caller: Address, name: string, email: string, now: nat) returns (r: Result<()>)
      requires Valid()
      modifies this
      ensures Valid()
      ensures old(RegisterError(caller, name, email)).Some? ==>
        r == Err(old(RegisterError(caller, name, email)).value) && unchanged(this)
      ensures old(RegisterError(caller, name, email)) == None ==>
        && r == Ok(())
        && users == old(users)[caller := User(name, email, now, true)]
        && owner == old(owner) && initialized == old(initialized) && bookCount == old(bookCount)
        && books == old(books) && borrowers == old(borrowers) && balance == old(balance) && fees == old(fees)
    {
      var e := RegisterError(caller, name, email);
      if e.Some? {
        return Err(e.value);
      }
      users := users[caller := User(name, email, now, true)];
      r := Ok(());
    }

    /** Why `borrowBook(id)` from `caller` paying `paid` is refused, if it is. */
    function BorrowError(caller: Address, id: nat, paid: nat): (e: Option<LedgerError>)
      reads this
      requires Valid()
      ensures e == None <==>
        id in books && caller in users && books[id].available && paid >= books[id].borrowPrice
      ensures e == Some(BookNotAvailable) ==> id in borrowers
      ensures id !in books ==> e == Some(BookNotFound)
    {
      if id !in books then Some(BookNotFound)
      else if caller !in users then Some(NotRegistered)
      else if !books[id].available then Some(BookNotAvailable)
      else if paid < books[id].borrowPrice then Some(InsufficientFunds)
      else None
    }

    /** A registered user pays at least the price of an available book and
        becomes its borrower; the whole payment goes to the balance. */
    method BorrowBook(caller: Address, id: nat, paid: nat) returns (r: Result<()>)
      requires Valid()
      modifies this
      ensures Valid()
      ensures old(BorrowError(caller, id, paid)).Some? ==>
        r == Err(old(BorrowError(caller, id, paid)).value) && unchanged(this)
      ensures old(BorrowError(caller, id, paid)) == None ==>
        && r == Ok(())
        && id in old(books)
        && books == old(books)[id := old(books)[id].(available := false)]
        && borrowers == old(borrowers)[id := caller]
        && balance == old(balance) + paid
        && fees == old(fees) + [paid]
        && owner == old(owner) && initialized == old(initialized) && bookCount == old(bookCount)
        && users == old(users)
    {
      var e := BorrowError(caller, id, paid);
      if e.Some? {
        return Err(e.value);
      }
      SumAppend(fees, paid);
      books := books[id := books[id].(available := false)];
      borrowers := borrowers[id := caller];
      balance := balance + paid;
      fees := fees + [paid];
      r := Ok(());
    }

    /** Why `returnBook(id)` from `caller` is refused, if it is. */
    function ReturnError(caller: Address, id: nat): (e: Option<LedgerError>)
      reads this
      requires Valid()
      ensures e == None <==> caller == owner && id in borrowers
      ensures caller != owner ==> e == Some(OnlyOwner)
    {
      if caller != owner then Some(OnlyOwner)
      else if id !in books then Some(BookNotFound)
      else if books[id].available then Some(BookAlreadyAvailable)
      else None
    }

    /** The owner marks a borrowed book as available again and forgets its
        borrower; the fee is not refunded. */
    method ReturnBook(caller: Address, id: nat) returns (r: Result<()>)
      requires Valid()
      modifies this
      ensures Valid()
      ensures old(ReturnError(caller, id)).Some? ==>
        r == Err(old(ReturnError(caller, id)).value) && unchanged(this)
      ensures old(ReturnError(caller, id)) == None ==>
        && r == Ok(())
        && id in old(books)
        && books == old(books)[id := old(books)[id].(available := true)]
        && borrowers == old(borrowers) - {id}
        && owner == old(owner) && initialized == old(initialized) && bookCount == old(bookCount)
        && users == old(users) && balance == old(balance) && fees == old(fees)
    {
      var e := ReturnError(caller, id);
      if e.Some? {
        return Err(e.value);
      }
      books := books[id := books[id].(available := true)];
      borrowers := borrowers - {id};
      r := Ok(());
    }

    /** Why `withdrawFunds` from `caller` is refused before any payout. */
    function WithdrawError(caller: Address): (e: Option<LedgerError>)
      reads this
      ensures e == None <==> caller == owner && balance > 0
      ensures caller != owner ==> e == Some(OnlyOwner)
    {
      if caller != owner then Some(OnlyOwner)
      else if balance == 0 then Some(NoFunds)
      else None
    }

    /** The owner takes the whole balance. `payoutSucceeds` is the outcome
        of the transfer to the owner's address; when it fails the withdrawal
        is rolled back. On success the result is the amount paid out. */
    method WithdrawFunds(caller: Address, payoutSucceeds: bool) returns (r: Result<nat>)
      requires Valid()
      modifies this
      ensures Valid()
      ensures old(WithdrawError(caller)).Some? ==>
        r == Err(old(WithdrawError(caller)).value) && unchanged(this)
      ensures old(WithdrawError(caller)) == None && !payoutSucceeds ==>
        r == Err(TransferFailed) && unchanged(this)
      ensures old(WithdrawError(caller)) == None && payoutSucceeds ==>
        && r == Ok(old(balance))
        && r.value == Sum(old(fees))
        && balance == 0 && fees == []
        && owner == old(owner) && initialized == old(initialized) && bookCount == old(bookCount)
        && books == old(books) && borrowers == old(borrowers) && users == old(users)
    {
      var e := WithdrawError(caller);
      if e.Some? {
        return Err(e.value);
      }
      if !payoutSucceeds {
        return Err(TransferFailed);
      }
      var amount := balance;
      balance := 0;
      fees := [];
      r := Ok(amount);
    }

    /** `getUserInfo(who)`: the user record, or an unregistered blank one. */
    function UserInfo(who: Address): (u: User)
      reads this
      requires Valid()
      ensures u.isRegistered <==> who in users
      ensures who in users ==> u == users[who]
      ensures who !in users ==> u == NoUser
    {
      if who in users then users[who] else NoUser
    }

    /** `getBookBorrower(id)`: only the owner may ask, and only a borrowed
        book has a borrower. */
    function BookBorrower(caller: Address, id: nat): (r: Result<Address>)
      reads this
      requires Valid()
      ensures r.Ok? <==> caller == owner && id in books && !books[id].available
      ensures r.Ok? ==> id in borrowers && r.value == borrowers[id]
      ensures caller != owner ==> r == Err(OnlyOwner)
    {
      if caller != owner then Err(OnlyOwner)
      else if id in borrowers then Ok(borrowers[id])
      else Err(NotBorrowed)
    }

    /** `getAllBooks()`: the whole catalogue, ordered by id. */
    method GetAllBooks() returns (r: seq<Book>)
      requires Valid()
      ensures |r| == bookCount
      ensures forall k :: 0 <= k < |r| ==> r[k].id == k + 1 && k + 1 in books && r[k] == books[k + 1]
    {
      r := [];
      var id := 1;
      while id <= bookCount
        invariant 1 <= id <= bookCount + 1
        invariant |r| == id - 1
        invariant forall k :: 0 <= k < |r| ==> r[k].id == k + 1 && k + 1 in books && r[k] == books[k + 1]
      {
        r := r + [books[id]];
        id := id + 1;
      }
    }

    /** `b` is the catalogue entry of a book currently borrowed by `who`. */
    ghost predicate BorrowedBy(b: Book, who: Address)
      reads this
    {
      b.id in books && books[b.id] == b && b.id in borrowers && borrowers[b.id] == who
    }

    /** `getBorrowedBooks()`: the books the caller currently holds, ordered by id. */
    method GetBorrowedBooks(caller: Address) returns (r: seq<Book>)
      requires Valid()
      ensures forall b :: b in r <==> BorrowedBy(b, caller)
      ensures forall b :: b in r ==> !b.available
      ensures forall j, k :: 0 <= j < k < |r| ==> r[j].id < r[k].id
    {
      r := [];
      var id := 1;
      while id <= bookCount
        invariant 1 <= id <= bookCount + 1
        invariant forall b :: b in r <==> BorrowedBy(b, caller) && b.id < id
        invariant forall k :: 0 <= k < |r| ==> r[k].id < id
        invariant forall j, k :: 0 <= j < k < |r| ==> r[j].id < r[k].id
      {
        if id in borrowers && borrowers[id] == caller {
          r := r + [books[id]];
        }
        id := id + 1;
      }
    }
  }
}
