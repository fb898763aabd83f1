/** The status messages that the front end's ledger wrappers hand back to
    the pages, and how the pages style a status line. */
module Interact {
  import opened JsString

  /** How a page shows its status line. */
  datatype StatusStyle = ErrorStyle | SuccessStyle | PlainStyle

  /** A status mentioning "Error" is shown as an error; otherwise one
      mentioning "success" is shown as a success. */
  function Style(status: string): (st: StatusStyle) {
    if Includes(status, "Error") then ErrorStyle
    else if Includes(status, "success") then SuccessStyle
    else PlainStyle
  }

  /** The status after a call that failed: "Error: " and the reason. */
  function ErrorStatus(reason: string): (s: string)
    ensures Includes(s, "Error")
    ensures Includes(s, reason)
  {
    var s := "Error: " + reason;
    assert s[7..7 + |reason|] == reason;
    PositionIncludes(s, reason, 7);
    assert "Error" <= s;
    s
  }

  /** The status after a successful borrow. */
  const BorrowedStatus: string := BorrowedHead + BorrowedMiddle + BorrowedTail
  const BorrowedHead: string := "Book borrowed successfully!"
  const BorrowedMiddle: string := " The fee has been collected"
  const BorrowedTail: string := " in the contract for admin withdrawal."

  const RegisteredPrefix: string := "User registered successfully as \""

  /** The status after a successful registration under `name`. */
  function RegisteredStatus(name: string): (s: string)
    ensures Includes(s, "success")
    ensures Includes(s, name)
  {
    var s := RegisteredPrefix + name + "\"";
    assert s[16..23] == "success";
    PositionIncludes(s, "success", 16);
    assert s[33..33 + |name|] == name;
    PositionIncludes(s, name, 33);
    s
  }

  /** A string without the first character of `t` does not include `t`. */
  lemma {:induction false} MissingCharExcludes(s: string, t: string)
    requires t != [] && t[0] !in s
    ensures !Includes(s, t)
    decreases |s|
  {
    if s != [] {
      assert forall c :: c in s[1..] ==> c in s;
      MissingCharExcludes(s[1..], t);
    }
  }

  /** Every failure status is styled as an error, whatever its reason. */
  lemma ErrorStatusStyled(reason: string)
    ensures Style(ErrorStatus(reason)) == ErrorStyle
  {
  }

  /** Each piece of the borrow success status lacks a capital E. */
  lemma BorrowedHeadLacksE() ensures 'E' !in BorrowedHead { }
  lemma BorrowedMiddleLacksE() ensures 'E' !in BorrowedMiddle { }
  lemma BorrowedTailLacksE() ensures 'E' !in BorrowedTail { }

  /** The borrow success status never contains a capital E. */
  lemma BorrowedStatusLacksE()
    ensures 'E' !in BorrowedStatus
  {
    BorrowedHeadLacksE();
    BorrowedMiddleLacksE();
    BorrowedTailLacksE();
  }

  /** The borrow success status is styled as a success. */
  lemma BorrowedStatusStyled()
    ensures Style(BorrowedStatus) == SuccessStyle
  {
    BorrowedStatusLacksE();
    MissingCharExcludes(BorrowedStatus, "Error");
    assert BorrowedStatus[14..21] == BorrowedHead[14..21] == "success";
    PositionIncludes(BorrowedStatus, "success", 14);
  }

  lemma RegisteredPrefixLacksE() ensures 'E' !in RegisteredPrefix { }

  /** An occurrence of `t` in `p + m + q` lies inside `m` when `p` lacks
      the first character of `t` and `q` is one character other than the
      last of `t`. */
  lemma InnerOccurrence(p: string, m: string, q: string, t: string, i: nat)
    requires t != [] && t[0] !in p
    requires |q| == 1 && q[0] != t[|t| - 1]
    requires OccursAt(p + m + q, t, i)
    ensures Includes(m, t)
  {
    var s := p + m + q;
    assert s[i] == t[0] && s[i + |t| - 1] == t[|t| - 1];
    assert forall j :: 0 <= j < |p| ==> s[j] == p[j];
    assert |p| <= i;
    assert s[|s| - 1] == q[0];
    var k := i - |p|;
    assert m[k..k + |t|] == s[i..i + |t|];
    PositionIncludes(m, t, k);
  }

  /** Wrapping `m` in a prefix lacking the first character of `t` and in
      one closing character other than the last of `t` neither adds nor
      removes an occurrence of `t`. */
  lemma WrappedIncludes(p: string, m: string, q: string, t: string)
    requires t != [] && t[0] !in p
    requires |q| == 1 && q[0] != t[|t| - 1]
    ensures Includes(p + m + q, t) <==> Includes(m, t)
  {
    var s := p + m + q;
    if Includes(s, t) {
      IncludesHasPosition(s, t);
      var i: nat :| OccursAt(s, t, i);
      InnerOccurrence(p, m, q, t, i);
    }
    if Includes(m, t) {
      IncludesHasPosition(m, t);
      var k: nat :| OccursAt(m, t, k);
      assert s[|p| + k..|p| + k + |t|] == m[k..k + |t|];
      PositionIncludes(s, t, |p| + k);
    }
  }

  /** The registration success status includes "Error" exactly when the
      registered name does. */
  lemma RegisteredStatusError(name: string)
    ensures Includes(RegisteredStatus(name), "Error") <==> Includes(name, "Error")
  {
    assert RegisteredStatus(name) == RegisteredPrefix + name + "\"";
    RegisteredPrefixLacksE();
    WrappedIncludes(RegisteredPrefix, name, "\"", "Error");
  }

  /** The registration success status is styled as a success, unless the
      registered name itself includes "Error", which turns it into an
      error-styled line. */
  lemma RegisteredStatusStyled(name: string)
    ensures Style(RegisteredStatus(name)) == if Includes(name, "Error") then ErrorStyle else SuccessStyle
  {
    RegisteredStatusError(name);
  }
}
