/**
 * The signup page's validation: four field validators and the submit
 * decision, which runs all four and then focuses the first field left
 * marked invalid.
 */
module Signup {
  import opened Wrappers
  import opened Text
  import opened EmailPattern

  /** `nonEmpty(v)`: `String(v || "")` has text once trimmed; a missing value reads as "". */
  predicate NonEmpty(v: Option<string>) {
    Trim(v.GetOr("")) != []
  }

  /** A value is non-empty exactly when it is present and not only whitespace. */
  lemma {:induction false} NonEmptyIff(v: Option<string>)
    ensures NonEmpty(v) <==> v.Some? && !AllSpace(v.value)
  {
    TrimEmptyIff(v.GetOr(""));
    if v.None? {
      assert Trim("") == "";
    }
  }

  /** The four input values, as typed. */
  datatype SignupForm = SignupForm(username: string, email: string, password: string, confirm: string)

  /** The fields in the order the submit handler looks for the first invalid one. */
  datatype SignupField = Username | Email | Password | Confirm

  const FocusOrder: seq<SignupField> := [Username, Email, Password, Confirm]

  /** `validateUsername`. */
  predicate UsernameOk(u: string) {
    NonEmpty(Some(u))
  }

  /** `validateEmail`: the trimmed value is non-empty and matches the e-mail pattern. */
  predicate EmailOk(e: string) {
    var v := Trim(e);
    NonEmpty(Some(v)) && IsEmail(v)
  }

  /** The non-empty test in `validateEmail` is implied by the pattern: only the pattern decides. */
  lemma {:induction false} EmailOkIff(e: string)
    ensures EmailOk(e) <==> IsEmail(Trim(e))
  {
    var v := Trim(e);
    TrimmedUnchanged(v);
    if IsEmail(v) {
      var k := FirstIndex(v, IsAt).value;
      assert v[..k] != [] && v[0] == v[..k][0];
    }
  }

  /** `validatePassword`. */
  predicate PasswordOk(p: string) {
    NonEmpty(Some(p))
  }

  /** `validateConfirmPassword`: non-empty and identical to the raw, untrimmed password. */
  predicate ConfirmOk(c: string, p: string) {
    NonEmpty(Some(c)) && c == p
  }

  /** The value each validator returns, which is also the mark it leaves on its field. */
  predicate FieldOk(f: SignupForm, k: SignupField) {
    match k
    case Username => UsernameOk(f.username)
    case Email => EmailOk(f.email)
    case Password => PasswordOk(f.password)
    case Confirm => ConfirmOk(f.confirm, f.password)
  }

  /** The position of each field in the focus order. */
  function Position(k: SignupField): (i: nat)
    ensures i < |FocusOrder| && FocusOrder[i] == k
  {
    match k
    case Username => 0
    case Email => 1
    case Password => 2
    case Confirm => 3
  }

  /** What a submit decides: show the success banner, or block and focus a field. */
  datatype Decision = Accepted | Blocked(focus: SignupField)

  /** A submit's effect: the validity mark left on each field, in focus order, and the decision. */
  datatype Submission = Submission(marks: seq<bool>, decision: Decision)

  /** The mark every validator leaves on its field, in focus order. */
  function Marks(f: SignupForm): (m: seq<bool>)
    ensures |m| == |FocusOrder|
    ensures forall k :: m[Position(k)] == FieldOk(f, k)
  {
    [FieldOk(f, Username), FieldOk(f, Email), FieldOk(f, Password), FieldOk(f, Confirm)]
  }

  /**
   * The submit handler. All four validators run, so every field is marked,
   * valid or invalid, whatever the others hold; the banner shows exactly when
   * all pass, and otherwise the first field in the order username, e-mail,
   * password, confirmation that is marked invalid receives the focus.
   */
  function SubmitSignup(f: SignupForm): (r: Submission)
    ensures |r.marks| == |FocusOrder|
    ensures forall k :: r.marks[Position(k)] == FieldOk(f, k)
    ensures r.decision.Accepted? <==> forall k :: FieldOk(f, k)
    ensures r.decision.Blocked? ==> !r.marks[Position(r.decision.focus)]
    ensures r.decision.Blocked? ==> forall i :: 0 <= i < Position(r.decision.focus) ==> r.marks[i]
  {
    var marks := Marks(f);
    if !marks[0] then Submission(marks, Blocked(Username))
    else if !marks[1] then Submission(marks, Blocked(Email))
    else if !marks[2] then Submission(marks, Blocked(Password))
    else if !marks[3] then Submission(marks, Blocked(Confirm))
    else
      assert forall k :: FieldOk(f, k) by {
        forall k ensures FieldOk(f, k) {
          assert marks[Position(k)];
        }
      }
      Submission(marks, Accepted)
  }

  /** Only the password is compared untrimmed: a confirmation with a trailing blank does not match. */
  lemma ConfirmIsExact(f: SignupForm)
    requires f.password == "abc" && f.confirm == "abc "
    ensures !ConfirmOk(f.confirm, f.password)
    ensures UsernameOk(f.username) && EmailOk(f.email) ==> SubmitSignup(f).decision == Blocked(Confirm)
  {
    assert PasswordOk(f.password) by {
      assert !IsSpace(f.password[0]);
      NonEmptyIff(Some(f.password));
    }
  }

  /** A password made only of whitespace is rejected. */
  lemma {:induction false} BlankPasswordRejected(p: string)
    requires AllSpace(p)
    ensures !PasswordOk(p)
  {
    NonEmptyIff(Some(p));
  }

  /** A blank username is always the field that gets the focus. */
  lemma BlankUsernameFocused(f: SignupForm)
    requires AllSpace(f.username)
    ensures SubmitSignup(f).decision == Blocked(Username)
  {
    NonEmptyIff(Some(f.username));
  }
}
