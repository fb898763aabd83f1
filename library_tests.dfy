/** The ledger's test suite, one method per test case. Each method deploys
    a fresh ledger from `owner` (as the suite's `beforeEach` does), runs the
    test's calls, and states in its postcondition what the test expects to
    read back. */
module LibraryTests {
  import opened Library
  import opened JsString

  const Hobbit := "The Hobbit"
  const Tolkien := "J.R.R. Tolkien"
  /** 0.05 ether in wei. */
  const PointZeroFiveEther: nat := 50_000_000_000_000_000
  const JohnDoe := "John Doe"
  const JaneSmith := "Jane Smith"
  const JohnEmail := "john" + "@" + "example.com"
  const JaneEmail := "jane" + "@" + "example.com"

  const HobbitBook := Book(1, Hobbit, Tolkien, PointOneEther, true)

  /** The address book of the suite: three distinct signers. */
  predicate Signers(owner: Address, user1: Address, user2: Address) {
    owner != user1 && owner != user2 && user1 != user2
  }

  /** An address `local@domain` with no other '@' and a '.' in its domain
      passes the ledger's check. */
  lemma SimpleEmailAccepted(local: string, domain: string)
    requires local != [] && '@' !in local && '@' !in domain && '.' in domain
    ensures EmailAccepted(local + "@" + domain)
  {
    var email := local + "@" + domain;
    assert email[|local|] == '@' && email[|local| + 1..] == domain;
    assert forall i :: 0 <= i < |local| ==> email[i] == local[i];
  }

  lemma JohnEmailAccepted()
    ensures EmailAccepted(JohnEmail)
  {
    assert "example.com"[7] == '.';
    SimpleEmailAccepted("john", "example.com");
  }

  lemma JaneEmailAccepted()
    ensures EmailAccepted(JaneEmail)
  {
    assert "example.com"[7] == '.';
    SimpleEmailAccepted("jane", "example.com");
  }

  /** Deployment sets the owner to the deployer and starts with no books. */
  method Deployment(owner: Address) returns (libraryOwner: Address, count: nat)
    ensures libraryOwner == owner
    ensures count == 0
  {
    var library := new Ledger(owner);
    libraryOwner := library.owner;
    count := library.bookCount;
  }

  /** The owner adds a book: it becomes book 1, available, with the given data. */
  method OwnerAddsBook(owner: Address) returns (count: nat, book: Book)
    ensures count == 1
    ensures book == Book(1, Hobbit, Tolkien, PointOneEther, true)
  {
    var library := new Ledger(owner);
    var added := library.AddBook(owner, Hobbit, Tolkien, PointOneEther);
    assert library.books == map[1 := HobbitBook];
    count := library.bookCount;
    book := library.books[1];
  }

  /** A non-owner cannot add a book, and the catalogue stays empty. */
  method NonOwnerCannotAddBook(owner: Address, user1: Address) returns (r: Result<nat>, count: nat)
    requires owner != user1
    ensures r == Err(OnlyOwner)
    ensures count == 0
  {
    var library := new Ledger(owner);
    r := library.AddBook(user1, Hobbit, Tolkien, PointOneEther);
    count := library.bookCount;
  }

  /** A registered user who pays the price borrows the book and is recorded
      as its borrower. */
  method RegisteredUserBorrows(owner: Address, user1: Address) returns (available: bool, borrower: Address)
    requires owner != user1
    ensures !available
    ensures borrower == user1
  {
    var library := new Ledger(owner);
    var added := library.AddBook(owner, Hobbit, Tolkien, PointOneEther);
    assert library.books == map[1 := HobbitBook];
    JohnEmailAccepted();
    var registered := library.RegisterUser(user1, JohnDoe, JohnEmail, 0);
    assert user1 in library.users && library.books == map[1 := HobbitBook];
    var borrowed := library.BorrowBook(user1, 1, PointOneEther);
    available := library.books[1].available;
    borrower := library.borrowers[1];
  }

  /** A second borrower of the same book is refused, and the first one stays
      recorded. */
  method CannotBorrowUnavailable(owner: Address, user1: Address, user2: Address)
    returns (r: Result<()>, borrower: Address)
    requires Signers(owner, user1, user2)
    ensures r == Err(BookNotAvailable)
    ensures borrower == user1
  {
    JohnEmailAccepted();
    JaneEmailAccepted();
    var library := new Ledger(owner);
    var added := library.AddBook(owner, Hobbit, Tolkien, PointOneEther);
    var first := library.RegisterUser(user1, JohnDoe, JohnEmail, 0);
    var second := library.RegisterUser(user2, JaneSmith, JaneEmail, 0);
    var borrowed := library.BorrowBook(user1, 1, PointOneEther);
    r := library.BorrowBook(user2, 1, PointOneEther);
    borrower := library.borrowers[1];
  }

  /** Only the owner returns books; after the owner's return the book is
      available again. */
  method OnlyAdminReturns(owner: Address, user1: Address)
    returns (byUser: Result<()>, byOwner: Result<()>, available: bool)
    requires owner != user1
    ensures byUser == Err(OnlyOwner)
    ensures byOwner == Ok(())
    ensures available
  {
    var library := new Ledger(owner);
    var added := library.AddBook(owner, Hobbit, Tolkien, PointOneEther);
    assert library.books == map[1 := HobbitBook];
    JohnEmailAccepted();
    var registered := library.RegisterUser(user1, JohnDoe, JohnEmail, 0);
    assert user1 in library.users && library.books == map[1 := HobbitBook];
    var borrowed := library.BorrowBook(user1, 1, PointOneEther);
    byUser := library.ReturnBook(user1, 1);
    byOwner := library.ReturnBook(owner, 1);
    available := library.books[1].available;
  }

  /** Paying 0.05 ether for a 0.1 ether book is refused; the book stays
      available and nothing is collected. */
  method RequiresSufficientFunds(owner: Address, user1: Address)
    returns (r: Result<()>, available: bool, balance: nat)
    requires owner != user1
    ensures r == Err(InsufficientFunds)
    ensures available && balance == 0
  {
    var library := new Ledger(owner);
    var added := library.AddBook(owner, Hobbit, Tolkien, PointOneEther);
    assert library.books == map[1 := HobbitBook];
    JohnEmailAccepted();
    var registered := library.RegisterUser(user1, JohnDoe, JohnEmail, 0);
    assert user1 in library.users && library.books == map[1 := HobbitBook];
    r := library.BorrowBook(user1, 1, PointZeroFiveEther);
    available := library.books[1].available;
    balance := library.balance;
  }

  /** After a borrow the balance is the fee; the owner's withdrawal pays out
      exactly that fee and leaves the balance at zero. */
  method OwnerWithdraws(owner: Address, user1: Address)
    returns (before: nat, paidOut: Result<nat>, after: nat)
    requires owner != user1
    ensures before == PointOneEther
    ensures paidOut == Ok(PointOneEther)
    ensures after == 0
  {
    var library := new Ledger(owner);
    var added := library.AddBook(owner, Hobbit, Tolkien, PointOneEther);
    assert library.books == map[1 := HobbitBook];
    JohnEmailAccepted();
    var registered := library.RegisterUser(user1, JohnDoe, JohnEmail, 0);
    assert user1 in library.users && library.books == map[1 := HobbitBook];
    var borrowed := library.BorrowBook(user1, 1, PointOneEther);
    before := library.balance;
    paidOut := library.WithdrawFunds(owner, true);
    after := library.balance;
  }

  /** A non-owner's withdrawal is refused and the fee stays in the ledger. */
  method NonOwnerCannotWithdraw(owner: Address, user1: Address) returns (r: Result<nat>, balance: nat)
    requires owner != user1
    ensures r == Err(OnlyOwner)
    ensures balance == PointOneEther
  {
    var library := new Ledger(owner);
    var added := library.AddBook(owner, Hobbit, Tolkien, PointOneEther);
    assert library.books == map[1 := HobbitBook];
    JohnEmailAccepted();
    var registered := library.RegisterUser(user1, JohnDoe, JohnEmail, 0);
    assert user1 in library.users && library.books == map[1 := HobbitBook];
    var borrowed := library.BorrowBook(user1, 1, PointOneEther);
    r := library.WithdrawFunds(user1, true);
    balance := library.balance;
  }

  /** A registered user's info carries the name and email given. */
  method UserRegisters(owner: Address, user1: Address, now: nat) returns (info: User)
    ensures info.name == JohnDoe && info.email == JohnEmail && info.isRegistered
  {
    var library := new Ledger(owner);
    JohnEmailAccepted();
    var registered := library.RegisterUser(user1, JohnDoe, JohnEmail, now);
    info := library.UserInfo(user1);
  }

  /** Registering twice from one address is refused and keeps the first record. */
  method NoDuplicateRegistration(owner: Address, user1: Address, now: nat)
    returns (r: Result<()>, info: User)
    ensures r == Err(AlreadyRegistered)
    ensures info.name == JohnDoe
  {
    var library := new Ledger(owner);
    JohnEmailAccepted();
    var first := library.RegisterUser(user1, JohnDoe, JohnEmail, now);
    r := library.RegisterUser(user1, "John Smith", JohnEmail, now);
    info := library.UserInfo(user1);
  }

  /** An unregistered caller cannot borrow; the book and the balance are
      untouched. */
  method UnregisteredCannotBorrow(owner: Address, user1: Address)
    returns (r: Result<()>, available: bool, balance: nat)
    ensures r == Err(NotRegistered)
    ensures available && balance == 0
  {
    var library := new Ledger(owner);
    var added := library.AddBook(owner, Hobbit, Tolkien, PointOneEther);
    assert library.books == map[1 := HobbitBook];
    r := library.BorrowBook(user1, 1, PointOneEther);
    available := library.books[1].available;
    balance := library.balance;
  }

  /** The whole life of one book: borrowed, returned by the owner, the fee
      withdrawn; afterwards the book is available with no borrower, its data
      unchanged, and the owner was paid the fee. */
  method BookLifecycle(owner: Address, user1: Address)
    returns (book: Book, hasBorrower: bool, paidOut: Result<nat>, balance: nat)
    requires owner != user1
    ensures book == Book(1, Hobbit, Tolkien, PointOneEther, true)
    ensures !hasBorrower
    ensures paidOut == Ok(PointOneEther) && balance == 0
  {
    var library := new Ledger(owner);
    var added := library.AddBook(owner, Hobbit, Tolkien, PointOneEther);
    assert library.books == map[1 := HobbitBook];
    JohnEmailAccepted();
    var registered := library.RegisterUser(user1, JohnDoe, JohnEmail, 0);
    assert user1 in library.users && library.books == map[1 := HobbitBook];
    var borrowed := library.BorrowBook(user1, 1, PointOneEther);
    var returned := library.ReturnBook(owner, 1);
    paidOut := library.WithdrawFunds(owner, true);
    book := library.books[1];
    hasBorrower := 1 in library.borrowers;
    balance := library.balance;
  }
}
