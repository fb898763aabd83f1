/** The registration form: the email syntax check, the ordered checks run
    before anything is sent, and the form state that submitting updates. */
module Register {
  import opened JsString
  import opened Library
  import opened Interact

  /** A character of the class `[^\s@]`: neither whitespace nor '@'. */
  predicate Plain(c: char) {
    !IsSpace(c) && c != '@'
  }

  ghost predicate AllPlain(s: string) {
    forall i :: 0 <= i < |s| ==> Plain(s[i])
  }

  /** `s` splits as `a@b.c` with the '@' at `at` and the '.' at `dot`, and
      `a`, `b`, `c` non-empty runs of `[^\s@]`: one way for the pattern
      `^[^\s@]+@[^\s@]+\.[^\s@]+$` to match. */
  ghost predicate EmailSplit(s: string, at: nat, dot: nat) {
    && 0 < at && at + 1 < dot && dot + 1 < |s|
    && s[at] == '@' && s[dot] == '.'
    && AllPlain(s[..at]) && AllPlain(s[at + 1..dot]) && AllPlain(s[dot + 1..])
  }

  /** The language of the pattern `^[^\s@]+@[^\s@]+\.[^\s@]+$`. */
  ghost predicate EmailPattern(s: string) {
    exists at: nat, dot: nat :: EmailSplit(s, at, dot)
  }

  /** `validateEmail(s)`: no whitespace, a single '@' with something before
      it, and a '.' after the '@' that has a character on each side. */
  predicate ValidateEmail(s: string) {
    var at := IndexOf(s, '@');
    && 0 < at && at + 3 <= |s|
    && '@' !in s[at + 1..]
    && (forall i :: 0 <= i < |s| ==> !IsSpace(s[i]))
    && '.' in s[at + 2..|s| - 1]
  }

  lemma ValidateEmailMatches(s: string)
    requires ValidateEmail(s)
    ensures EmailPattern(s)
  {
    var at := IndexOf(s, '@');
    var j :| 0 <= j < |s[at + 2..|s| - 1]| && s[at + 2..|s| - 1][j] == '.';
    var dot := at + 2 + j;
    assert s[dot] == '.';
    forall i | at < i < |s|
      ensures s[i] != '@'
    {
      assert s[i] == s[at + 1..][i - at - 1];
    }
    assert AllPlain(s[..at]);
    assert AllPlain(s[at + 1..dot]);
    assert AllPlain(s[dot + 1..]);
    assert EmailSplit(s, at, dot);
  }

  lemma PatternValidates(s: string, at: nat, dot: nat)
    requires EmailSplit(s, at, dot)
    ensures ValidateEmail(s)
  {
    forall i | 0 <= i < |s|
      ensures Plain(s[i]) || i == at || i == dot
    {
      if i < at {
        assert s[i] == s[..at][i];
      } else if at < i < dot {
        assert s[i] == s[at + 1..dot][i - at - 1];
      } else if dot < i {
        assert s[i] == s[dot + 1..][i - dot - 1];
      }
    }
    assert IndexOf(s, '@') == at;
    assert s[at + 2..|s| - 1][dot - at - 2] == '.';
  }

  /** `validateEmail` accepts exactly the language of its pattern. */
  lemma ValidateEmailIff(s: string)
    ensures ValidateEmail(s) <==> EmailPattern(s)
  {
    if ValidateEmail(s) {
      ValidateEmailMatches(s);
    }
    if EmailPattern(s) {
      var at: nat, dot: nat :| EmailSplit(s, at, dot);
      PatternValidates(s, at, dot);
    }
  }

  /** An address the form accepts has exactly one '@', is not blank, and
      passes the ledger's own email check. */
  lemma ValidEmailAccepted(s: string)
    requires ValidateEmail(s)
    ensures multiset(s)['@'] == 1
    ensures !IsBlank(s)
    ensures EmailAccepted(s)
  {
    var at := IndexOf(s, '@');
    assert s[at + 2..|s| - 1] == s[at + 1..][1..|s| - at - 2];
    assert EmailAccepted(s);
    EmailAcceptedShape(s);
    assert !IsSpace(s[0]);
  }

  /** An address the form accepts has no whitespace, and its domain, the
      part after the '@', has a '.' that is neither its first nor its last
      character. */
  lemma ValidEmailDomain(s: string)
    requires ValidateEmail(s)
    ensures forall i :: 0 <= i < |s| ==> !IsSpace(s[i])
    ensures exists d :: IndexOf(s, '@') + 1 < d < |s| - 1 && s[d] == '.'
  {
  }

  /** The ledger's check is looser than the form's: it takes "a@.b", which
      the form refuses because nothing stands between '@' and '.'. */
  lemma LedgerLooserThanForm()
    ensures EmailAccepted("a@.b") && !ValidateEmail("a@.b")
  {
  }

  /** What stops a submission, in the order the form checks. */
  datatype FormProblem = WalletMissing | NameMissing | EmailMissing | EmailInvalid

  /** The first failing check of `handleRegister`: no wallet connected, a
      blank name, a blank email, or an email `validateEmail` refuses. */
  function FirstProblem(wallet: string, name: string, email: string): (p: Option<FormProblem>)
    ensures p == None <==> wallet != "" && !IsBlank(name) && ValidateEmail(email)
    ensures p == Some(WalletMissing) <==> wallet == ""
    ensures p == Some(NameMissing) <==> wallet != "" && IsBlank(name)
    ensures p == Some(EmailMissing) <==> wallet != "" && !IsBlank(name) && IsBlank(email)
    ensures p == Some(EmailInvalid) <==>
      wallet != "" && !IsBlank(name) && !IsBlank(email) && !ValidateEmail(email)
  {
    TrimEmptyIffBlank(name);
    TrimEmptyIffBlank(email);
    if wallet == "" then Some(WalletMissing)
    else if Trim(name) == "" then Some(NameMissing)
    else if Trim(email) == "" then Some(EmailMissing)
    else if !ValidateEmail(email) then Some(EmailInvalid)
    else None
  }

  /** A submission that passes the form's checks fails at the ledger only
      for an address that is already registered. */
  lemma FormCheckedRegistration(ledger: Ledger, signer: Address, wallet: string, name: string, email: string)
    requires ledger.Valid()
    requires FirstProblem(wallet, name, email) == None
    ensures ledger.RegisterError(signer, name, email) == None <==> signer !in ledger.users
    ensures ledger.RegisterError(signer, name, email) != None ==>
      ledger.RegisterError(signer, name, email) == Some(AlreadyRegistered)
  {
  }

  const ConnectWalletStatus := "Please connect your wallet first"
  const EnterNameStatus := "Please enter your name"
  const EnterEmailStatus := "Please enter your email"
  const InvalidEmailError := "Please enter a valid email address"

  /** The state of the registration form. */
  class RegisterForm {
    var userName: string
    var userEmail: string
    var walletAddress: string
    var status: string
    var loading: bool
    var emailError: string
    /** Whether the completion callback has been scheduled. */
    var completionScheduled: bool

    /** A freshly mounted form: every field empty, nothing loading. */
    constructor ()
      ensures userName == "" && userEmail == "" && walletAddress == ""
      ensures status == "" && !loading && emailError == "" && !completionScheduled
    {
      userName := "";
      userEmail := "";
      walletAddress := "";
      status := "";
      loading := false;
      emailError := "";
      completionScheduled := false;
    }

    /** `handleRegister`: runs the form's checks in order and stops at the
        first failing one with its message; when all pass, clears the email
        error and registers `signer` with the ledger (`failure` is the
        message of a call that did not reach the ledger, `now` the block
        time), reports the outcome and, on success, schedules completion. */
    method HandleRegister(ledger: Ledger, signer: Address, now: nat, failure: Option<string>)
      requires ledger.Valid()
      modifies this, ledger
      ensures ledger.Valid()
      ensures userName == old(userName) && userEmail == old(userEmail) && walletAddress == old(walletAddress)
      ensures FirstProblem(walletAddress, userName, userEmail).Some? ==>
        && unchanged(ledger)
        && loading == old(loading) && completionScheduled == old(completionScheduled)
      ensures FirstProblem(walletAddress, userName, userEmail) == Some(WalletMissing) ==>
        status == ConnectWalletStatus && emailError == old(emailError)
      ensures FirstProblem(walletAddress, userName, userEmail) == Some(NameMissing) ==>
        status == EnterNameStatus && emailError == old(emailError)
      ensures FirstProblem(walletAddress, userName, userEmail) == Some(EmailMissing) ==>
        status == EnterEmailStatus && emailError == old(emailError)
      ensures FirstProblem(walletAddress, userName, userEmail) == Some(EmailInvalid) ==>
        status == old(status) && emailError == InvalidEmailError
      ensures FirstProblem(walletAddress, userName, userEmail) == None ==>
        emailError == "" && !loading
      ensures FirstProblem(walletAddress, userName, userEmail) == None && failure.Some? ==>
        && unchanged(ledger)
        && status == ErrorStatus(failure.value)
        && completionScheduled == old(completionScheduled)
      ensures FirstProblem(walletAddress, userName, userEmail) == None && failure.None?
              && old(ledger.RegisterError(signer, userName, userEmail)).Some? ==>
        && unchanged(ledger)
        && status == ErrorStatus(RevertReason(old(ledger.RegisterError(signer, userName, userEmail)).value))
        && completionScheduled == old(completionScheduled)
      ensures FirstProblem(walletAddress, userName, userEmail) == None && failure.None?
              && old(ledger.RegisterError(signer, userName, userEmail)) == None ==>
        && ledger.users == old(ledger.users)[signer := User(userName, userEmail, now, true)]
        && ledger.books == old(ledger.books) && ledger.borrowers == old(ledger.borrowers)
        && ledger.balance == old(ledger.balance) && ledger.fees == old(ledger.fees)
        && ledger.owner == old(ledger.owner) && ledger.initialized == old(ledger.initialized)
        && ledger.bookCount == old(ledger.bookCount)
        && status == RegisteredStatus(userName)
        && completionScheduled
    {
      var problem := FirstProblem(walletAddress, userName, userEmail);
      if problem.None? {
        emailError := "";
        Submit(ledger, signer, now, failure);
      } else {
        Stop(problem.value);
      }
    }

    /** The effect of a failed check: its message in the status line, or the
        email error for an invalid address. */
    method Stop(problem: FormProblem)
      modifies this
      ensures userName == old(userName) && userEmail == old(userEmail) && walletAddress == old(walletAddress)
      ensures loading == old(loading) && completionScheduled == old(completionScheduled)
      ensures problem == WalletMissing ==> status == ConnectWalletStatus && emailError == old(emailError)
      ensures problem == NameMissing ==> status == EnterNameStatus && emailError == old(emailError)
      ensures problem == EmailMissing ==> status == EnterEmailStatus && emailError == old(emailError)
      ensures problem == EmailInvalid ==> status == old(status) && emailError == InvalidEmailError
    {
      match problem {
        case WalletMissing => status := ConnectWalletStatus;
        case NameMissing => status := EnterNameStatus;
        case EmailMissing => status := EnterEmailStatus;
        case EmailInvalid => emailError := InvalidEmailError;
      }
    }

    /** The part of `handleRegister` after the checks pass: the call to the
        ledger and the status it leaves. */
    method Submit(ledger: Ledger, signer: Address, now: nat, failure: Option<string>)
      requires ledger.Valid()
      modifies this, ledger
      ensures ledger.Valid()
      ensures userName == old(userName) && userEmail == old(userEmail) && walletAddress == old(walletAddress)
      ensures emailError == old(emailError) && !loading
      ensures failure.Some? ==>
        && unchanged(ledger)
        && status == ErrorStatus(failure.value)
        && completionScheduled == old(completionScheduled)
      ensures failure.None? && old(ledger.RegisterError(signer, userName, userEmail)).Some? ==>
        && unchanged(ledger)
        && status == ErrorStatus(RevertReason(old(ledger.RegisterError(signer, userName, userEmail)).value))
        && completionScheduled == old(completionScheduled)
      ensures failure.None? && old(ledger.RegisterError(signer, userName, userEmail)) == None ==>
        && ledger.users == old(ledger.users)[signer := User(userName, userEmail, now, true)]
        && ledger.books == old(ledger.books) && ledger.borrowers == old(ledger.borrowers)
        && ledger.balance == old(ledger.balance) && ledger.fees == old(ledger.fees)
        && ledger.owner == old(ledger.owner) && ledger.initialized == old(ledger.initialized)
        && ledger.bookCount == old(ledger.bookCount)
        && status == RegisteredStatus(userName)
        && completionScheduled
    {
      loading := true;
      if failure.Some? {
        status := ErrorStatus(failure.value);
      } else {
        var result := ledger.RegisterUser(signer, userName, userEmail, now);
        if result.Err? {
          status := ErrorStatus(RevertReason(result.error));
        } else {
          status := RegisteredStatus(userName);
          completionScheduled := true;
        }
      }
      loading := false;
    }
  }
}
