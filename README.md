# Decentralized library management, modelled in Dafny

The system is a lending library whose records live in one ledger. The ledger holds:

- the owner's address;
- a catalogue of books numbered from 1;
- a borrower record for each borrowed book;
- a registry of users;
- the balance of borrowing fees.

A fixed set of guarded operations changes it: initialize, transfer ownership, add a book, register, borrow, return, and withdraw the fees. Each operation either reverts and leaves the ledger exactly as it was, or applies all of its effects at once. Two pages of the web front end sit on top:

- The catalogue page searches and filters the books and lets a registered user borrow one.
- The registration form validates a name and an email address before registering the connected account.

The model has six modules:

- `JsString` (`js_string.dfy`): the JavaScript string operations the pages use: `trim`, `toLowerCase` (ASCII letters only), `includes`, and the whitespace class `\s` that `trim` and the email pattern share. `trim` and `includes` are related to independent positional definitions. `toLowerCase` is shown to fold each ASCII capital to its lower-case letter, to keep every other character, and to change nothing when applied twice. The module also holds `IndexOf`, the first position of a character, a helper for the model's two email checks; the pages do not call it.
- `Library` (`library.dfy`): the ledger as a class with map fields.
  - Every operation is a method with a `modifies` clause.
  - A guard function gives the first check that fails, in the order the ledger checks them.
  - The invariant `Valid` ties the fields together. It covers ids numbered 1..`bookCount`, a book being unavailable exactly when a borrower is recorded, and the balance equalling the sum of the fees collected since the last withdrawal.
- `LibraryTests` (`library_tests.dfy`): each case of the ledger's test suite as a method. The method deploys a fresh ledger, makes the case's calls, and proves the case's expectations in its postcondition.
- `Interact` (`interact.dfy`): the status messages that the front end's ledger wrappers return.
- `Books` (`books.dfy`): the catalogue filter as a function with its properties, and the catalogue page as a class.
- `Register` (`register.dfy`): the email check, read as the language of its regular expression; the ordered checks of the form; and the form as a class.

The Solidity contract of the ledger is not part of this model. The ledger's behaviour follows the test suite (owner, guards, revert reasons, effects) and the way the front end calls it (`frontend/src/utils/interact.js`). Where both are silent, the model assumes the following:

- `borrowBook` checks, in this order, that the book exists, that the caller is registered, that the book is available, and that the payment covers the price.
- `addBook` refuses an empty title or author, and `registerUser` an empty name or an email that lacks a single '@' after the first character with a '.' after it. Both revert with "invalid argument".
- `getBookBorrower` reverts with "Book is not borrowed" for a book that has no borrower.
- A withdrawal whose transfer to the owner fails is rolled back entirely.
- Operations are not gated on `initialize`. The test suite deploys and then calls `addBook` straight away as the deployer, and expects it to succeed. So the deployer is the owner from deployment on, and `Initialize` only sets the owner once.

## Model

| member | source | states |
|---|---|---|
| JsString.TrimStart | decentralized-library-management/frontend/src/components/Register.js:33-41 | the result is a suffix of the input; what was dropped is all whitespace; the result does not start with whitespace |
| JsString.TrimEnd | decentralized-library-management/frontend/src/components/Register.js:33-41 | the result is a prefix of the input; what was dropped is all whitespace; the result does not end with whitespace |
| JsString.TrimEmptyIffBlank | decentralized-library-management/frontend/src/components/Register.js:33-41 | `trim()` gives the empty string exactly when the input is blank (only whitespace, or empty) |
| JsString.TrimEnds | decentralized-library-management/frontend/src/components/Register.js:33-41 | a non-empty trimmed string neither starts nor ends with whitespace |
| JsString.TrimIsPiece | decentralized-library-management/frontend/src/components/Register.js:33-41 | the trimmed string occurs contiguously in the input |
| JsString.IncludesIff | decentralized-library-management/frontend/src/components/Books.js:53-54 | `includes` holds exactly when the term occurs at some position of the string |
| JsString.IncludesHasPosition | decentralized-library-management/frontend/src/components/Books.js:53-54 | when `includes` holds, the term occurs at some position |
| JsString.PositionIncludes | decentralized-library-management/frontend/src/components/Books.js:53-54 | a term occurring at a position is found by `includes` |
| JsString.ToLower | decentralized-library-management/frontend/src/components/Books.js:53-54 | `toLowerCase` keeps the length, turns each ASCII capital into its lower-case letter, keeps every other character, and so leaves no ASCII capital |
| JsString.ToLowerIdempotent | decentralized-library-management/frontend/src/components/Books.js:53-54 | lower-casing twice gives the same string as lower-casing once |
| Library.SumAppend | decentralized-library-management/test/LibraryManagement.test.js:133-137 | collecting one more fee raises the total by exactly that fee |
| Library.EmailAcceptedShape | decentralized-library-management/frontend/src/utils/interact.js:246-261 | an email the ledger accepts on registration has exactly one '@', not first, with a '.' after it |
| Library.Ledger.constructor | decentralized-library-management/test/LibraryManagement.test.js:12-29 | deployment makes the deployer the owner of an empty ledger with no books, users, borrowers or balance |
| Library.Ledger.InitializeError | decentralized-library-management/frontend/src/utils/interact.js:209-238 | `initialize` is refused exactly when it already ran, with `AlreadyInitialized` |
| Library.Ledger.Initialize | decentralized-library-management/frontend/src/utils/interact.js:209-238 | the first call makes the caller the owner; a later call reverts and changes nothing |
| Library.Ledger.TransferError | decentralized-library-management/frontend/src/utils/interact.js:448-463 | transfer is allowed exactly for the owner and a non-zero new owner; a non-owner gets the owner-only error |
| Library.Ledger.TransferOwnership | decentralized-library-management/frontend/src/utils/interact.js:448-463 | an allowed transfer changes the owner and nothing else; a refused one changes nothing |
| Library.Ledger.AddBookError | decentralized-library-management/test/LibraryManagement.test.js:47-51 | adding is allowed exactly for the owner with a non-empty title and author; a non-owner gets the owner-only error |
| Library.Ledger.AddBook | decentralized-library-management/test/LibraryManagement.test.js:33-51 | the owner's book gets the next id, is available, carries the given data, and that id is returned; a refused call changes nothing |
| Library.Ledger.RegisterError | decentralized-library-management/test/LibraryManagement.test.js:179-198 | registration is allowed exactly for a new address with a non-empty name and an accepted email; a registered address gets `AlreadyRegistered` |
| Library.Ledger.RegisterUser | decentralized-library-management/test/LibraryManagement.test.js:179-198 | a new user is stored with the given name, email and time and marked registered; nothing else changes |
| Library.Ledger.BorrowError | decentralized-library-management/test/LibraryManagement.test.js:53-122 | borrowing is allowed exactly for an existing, available book, a registered caller and a payment of at least the price; an unknown id is reported first |
| Library.Ledger.BorrowBook | decentralized-library-management/test/LibraryManagement.test.js:53-122 | a borrow marks the book unavailable, records the caller as its borrower, and adds the whole payment to the balance and the fee list; a refused borrow changes nothing |
| Library.Ledger.ReturnError | decentralized-library-management/test/LibraryManagement.test.js:88-109 | a return is allowed exactly for the owner and a borrowed book; a non-owner gets the owner-only error |
| Library.Ledger.ReturnBook | decentralized-library-management/test/LibraryManagement.test.js:88-109 | a return makes the book available and removes its borrower, keeping the fee; a refused return changes nothing |
| Library.Ledger.WithdrawError | decentralized-library-management/test/LibraryManagement.test.js:126-175 | withdrawal is allowed exactly for the owner with a positive balance; a non-owner gets the owner-only error |
| Library.Ledger.WithdrawFunds | decentralized-library-management/test/LibraryManagement.test.js:126-175 | the owner receives the whole balance, which is the sum of the fees collected since the last withdrawal, and the balance becomes zero; a failed payout or a refused call changes nothing |
| Library.Ledger.UserInfo | decentralized-library-management/test/LibraryManagement.test.js:179-188 | the record of a registered address, or a blank unregistered record for any other address |
| Library.Ledger.BookBorrower | decentralized-library-management/frontend/src/utils/interact.js:549-564 | only the owner may ask; the answer is the recorded borrower exactly when the book exists and is borrowed |
| Library.Ledger.GetAllBooks | decentralized-library-management/frontend/src/utils/interact.js:469-490 | the whole catalogue in id order: entry k is book k+1 |
| Library.Ledger.GetBorrowedBooks | decentralized-library-management/frontend/src/utils/interact.js:570-591 | exactly the books currently borrowed by the caller, all unavailable, in increasing id order |
| LibraryTests.SimpleEmailAccepted | decentralized-library-management/test/LibraryManagement.test.js:58 | an address of the shape of the suite's emails passes the ledger's email check |
| LibraryTests.Deployment | decentralized-library-management/test/LibraryManagement.test.js:22-30 | after deployment the owner is the deployer and there are no books |
| LibraryTests.OwnerAddsBook | decentralized-library-management/test/LibraryManagement.test.js:33-45 | after the owner's first `addBook` the count is 1 and book 1 has the given title, author and price, and is available |
| LibraryTests.NonOwnerCannotAddBook | decentralized-library-management/test/LibraryManagement.test.js:47-51 | a non-owner's `addBook` reverts with the owner-only error and the count stays 0 |
| LibraryTests.RegisteredUserBorrows | decentralized-library-management/test/LibraryManagement.test.js:53-69 | after a registered user's paid borrow the book is unavailable and that user is its borrower |
| LibraryTests.CannotBorrowUnavailable | decentralized-library-management/test/LibraryManagement.test.js:71-86 | a second borrower is refused with "not available" and the first borrower stays recorded |
| LibraryTests.OnlyAdminReturns | decentralized-library-management/test/LibraryManagement.test.js:88-109 | the borrower's return is refused with the owner-only error; the owner's succeeds and the book is available again |
| LibraryTests.RequiresSufficientFunds | decentralized-library-management/test/LibraryManagement.test.js:111-122 | paying 0.05 ether for a 0.1 ether book is refused as insufficient; the book stays available and the balance 0 |
| LibraryTests.OwnerWithdraws | decentralized-library-management/test/LibraryManagement.test.js:126-159 | after the borrow the balance is 0.1 ether; the owner's withdrawal pays exactly that and leaves 0 |
| LibraryTests.NonOwnerCannotWithdraw | decentralized-library-management/test/LibraryManagement.test.js:161-175 | a non-owner's withdrawal is refused with the owner-only error and the fee stays |
| LibraryTests.UserRegisters | decentralized-library-management/test/LibraryManagement.test.js:179-188 | after registering, the user info carries the name and email and says registered |
| LibraryTests.NoDuplicateRegistration | decentralized-library-management/test/LibraryManagement.test.js:190-198 | a second registration from one address is refused as already registered and the first name is kept |
| LibraryTests.UnregisteredCannotBorrow | decentralized-library-management/test/LibraryManagement.test.js:53-69 | the converse of the borrow case: without registering, the borrow is refused as not registered, and the book and balance are untouched |
| LibraryTests.BookLifecycle | decentralized-library-management/test/LibraryManagement.test.js:88-159 | borrow, owner's return and withdrawal in sequence leave book 1 as added, with no borrower, and pay the owner exactly the fee |
| Interact.ErrorStatus | decentralized-library-management/frontend/src/utils/interact.js:513-518 | a failure status contains "Error" and the reason it reports |
| Interact.RegisteredStatus | decentralized-library-management/frontend/src/utils/interact.js:251-254 | the registration success status contains "success" and the registered name |
| Interact.ErrorStatusStyled | decentralized-library-management/frontend/src/components/Books.js:156-160 | every failure status is shown in the error style, whatever its reason |
| Interact.BorrowedStatusStyled | decentralized-library-management/frontend/src/components/Books.js:156-160 | the borrow success status is shown in the success style |
| Interact.RegisteredStatusError | decentralized-library-management/frontend/src/utils/interact.js:251-254 | the registration success status includes "Error" exactly when the registered name does |
| Interact.RegisteredStatusStyled | decentralized-library-management/frontend/src/components/Register.js:124-128 | the registration success status is shown in the success style when the name does not include "Error", and in the error style when it does |
| Interact.MissingCharExcludes | decentralized-library-management/frontend/src/components/Books.js:157 | a string lacking the first character of `t` does not include `t`, so it is not matched by the style's `includes` test for `t` |
| Books.FilteredBooks | decentralized-library-management/frontend/src/components/Books.js:51-64 | a book is shown exactly when it is in the catalogue and the search matches it, and it is available under "available" or borrowed under "borrowed" |
| Books.FilteredIsSubsequence | decentralized-library-management/frontend/src/components/Books.js:51 | the shown list is a subsequence of the catalogue: order kept, nothing invented |
| Books.EmptyTermMatches | decentralized-library-management/frontend/src/components/Books.js:53-54 | the empty search term matches every book |
| Books.EmptySearchShowsAll | decentralized-library-management/frontend/src/components/Books.js:53-63 | with an empty term and the "all" filter, the whole catalogue is shown |
| Books.OtherFilterIsAll | decentralized-library-management/frontend/src/components/Books.js:61-63 | any filter value other than "available" and "borrowed" shows the same list as "all" |
| Books.AvailableBorrowedPartition | decentralized-library-management/frontend/src/components/Books.js:57-60 | the "available" and "borrowed" lists together hold exactly the matching books, each once |
| Books.BooksPage.constructor | decentralized-library-management/frontend/src/components/Books.js:5-10 | the page starts loading, with no books, empty status and search, filter "all", and not registered |
| Books.BooksPage.FetchBooks | decentralized-library-management/frontend/src/components/Books.js:17-26 | a successful load shows the catalogue in id order; a failed one keeps the books and shows the error; loading ends either way |
| Books.BooksPage.CheckRegistration | decentralized-library-management/frontend/src/components/Books.js:28-33 | a successful check sets the flag to whether the account is registered; a failed one leaves it |
| Books.BooksPage.HandleBorrowBook | decentralized-library-management/frontend/src/components/Books.js:35-48 | an unregistered visitor gets the register-first message and the ledger is not touched; a call that does not reach the ledger or a refused borrow leaves the ledger unchanged and shows the error; a successful borrow changes only the book's availability, its borrower, the balance and the fees, shows the success message and reloads the catalogue |
| Register.ValidateEmailIff | decentralized-library-management/frontend/src/components/Register.js:20-23 | `validateEmail` accepts exactly the strings `a@b.c` whose three parts are non-empty runs of characters other than whitespace and '@' |
| Register.ValidateEmailMatches | decentralized-library-management/frontend/src/components/Register.js:20-23 | every accepted string splits as the pattern requires |
| Register.PatternValidates | decentralized-library-management/frontend/src/components/Register.js:20-23 | every string that splits as the pattern requires is accepted |
| Register.ValidEmailAccepted | decentralized-library-management/frontend/src/components/Register.js:20-23 | an accepted email has exactly one '@', is not blank, and passes the ledger's email check |
| Register.ValidEmailDomain | decentralized-library-management/frontend/src/components/Register.js:21 | an accepted email has no whitespace, and its domain has a '.' that is neither its first nor its last character |
| Register.LedgerLooserThanForm | decentralized-library-management/frontend/src/components/Register.js:21 | "a@.b" passes the ledger's check but not the form's |
| Register.FirstProblem | decentralized-library-management/frontend/src/components/Register.js:28-48 | the checks run in order (wallet, non-blank name, non-blank email, valid email) and the first failure is reported; there is none exactly when all four pass |
| Register.FormCheckedRegistration | decentralized-library-management/frontend/src/components/Register.js:43-52 | once the form's checks pass, the ledger refuses the registration only for an address already registered |
| Register.RegisterForm.constructor | decentralized-library-management/frontend/src/components/Register.js:5-10 | the form starts with all fields empty and nothing loading |
| Register.RegisterForm.HandleRegister | decentralized-library-management/frontend/src/components/Register.js:25-61 | a failed check shows its message and never reaches the ledger; when all pass, the email error is cleared and the ledger's answer decides the status; a success adds only the user record and schedules completion, a failure schedules nothing |
| Register.RegisterForm.Stop | decentralized-library-management/frontend/src/components/Register.js:28-48 | each failed check sets its own message (the invalid email in the email error, the others in the status) and nothing else |
| Register.RegisterForm.Submit | decentralized-library-management/frontend/src/components/Register.js:50-60 | the registration call: on success only the user record changes in the ledger, the status names the user and completion is scheduled; on a revert or a failed call the ledger is unchanged, the status shows the error and nothing is scheduled |

## Left out

- The Solidity contract of the ledger is not part of this model. Its behaviour is taken from the tests and the front end's calls, with the assumptions listed above.
- Library.Ledger.Initialize: does not gate the other operations until initialization, because the test suite calls them right after deployment.
- Library.RevertReason: the tests pin four revert strings (owner-only, not available, insufficient funds, already registered). "No funds to withdraw" is the string the front end looks for (`interact.js:429`). The other reasons are descriptive placeholders.
- Interact.ErrorStatus: the ethers error message is modelled as the bare revert reason or a given message. The provider's own wording around it is not modelled.
- `interact.js` wallet and contract plumbing (providers, signers, `window.ethereum`, transaction waits) is left out. A call that does not reach the ledger is modelled as a failure message parameter (`failure`, `borrowFailure`, `refreshFailure`). The signing account and the block time are parameters.
- Ether/wei string conversion is left out. Prices and payments are natural numbers in wei, and the catalogue page keeps the price in wei rather than as an ether string.
- Gas accounting and provider-level balance reads are left out, so the owner's payout is the withdrawn amount.
- Case folding is ASCII only: `toLowerCase` on other letters is left out.
- The transient status messages that are overwritten before the handler ends ("Borrowing book..." and "Registering user...") are not modelled.
- The two-second delay before the registration form's completion callback is left out. The model records only that the callback was scheduled.
- The special status `withdrawFunds` shows for "No funds to withdraw" (`interact.js:429`) is left out: it belongs to the admin dashboard, not to a modelled page.
- React rendering, effects and other pages are left out. So are concurrency and transaction ordering; each ledger operation is one atomic step.
