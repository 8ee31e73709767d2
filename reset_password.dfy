/** The password recovery page. Its first step asks for the account's
    email and requests a recovery link; its second step, reached from that
    link, validates a new password against five ordered rules before
    asking the auth service to store it. The auth service's answers are
    inputs. */
module ResetPassword {
  import opened Common

  // ---------------------------------------------------------------
  // The email test, `/\S+@\S+\.\S+/.test(email)`.

  /** s[i..j] is a non-empty run without white space (`\S+`). */
  predicate NonSpaceRun(s: string, i: int, j: int)
    requires 0 <= i <= j <= |s|
  {
    i < j && forall t :: i <= t < j ==> !IsJsSpace(s[t])
  }

  /** The pattern matches s[i..e], with its '@' at j and its '.' at k. */
  predicate PatternAt(s: string, i: int, j: int, k: int, e: int)
  {
    0 <= i < j && j + 1 <= k && k + 1 <= e <= |s| &&
    NonSpaceRun(s, i, j) && s[j] == '@' && NonSpaceRun(s, j + 1, k) && s[k] == '.' && NonSpaceRun(s, k + 1, e)
  }

  /** The regular expression is not anchored: it passes when it matches
      anywhere in the text. */
  predicate EmailRegexTest(s: string)
  {
    exists i, j, k, e | 0 <= i < j < k < e <= |s| :: PatternAt(s, i, j, k, e)
  }

  /** The same test described by its shape: somewhere the text holds an
      '@' and, later, a '.' such that the '@' has a character before it,
      at least one character separates the two, a character follows the
      '.', and this whole stretch contains no white space. */
  predicate EmailShape(s: string)
  {
    exists j, k | 0 < j < k < |s| - 1 :: j + 1 < k && s[j] == '@' && s[k] == '.' &&
      forall t | j - 1 <= t <= k + 1 :: !IsJsSpace(s[t])
  }

  lemma EmailRegexIsShape(s: string)
    ensures EmailRegexTest(s) <==> EmailShape(s)
  {
    if EmailRegexTest(s) {
      var i, j, k, e :| 0 <= i < j < k < e <= |s| && PatternAt(s, i, j, k, e);
      assert !IsJsSpace(s[j - 1]);
      assert forall t :: j - 1 <= t <= k + 1 ==> !IsJsSpace(s[t]) by {
        forall t | j - 1 <= t <= k + 1
          ensures !IsJsSpace(s[t])
        {
          if t == j {
            assert s[t] == '@';
          } else if t == k {
            assert s[t] == '.';
          }
        }
      }
    }
    if EmailShape(s) {
      var j, k :| 0 < j < k < |s| - 1 && j + 1 < k && s[j] == '@' && s[k] == '.' &&
        forall t | j - 1 <= t <= k + 1 :: !IsJsSpace(s[t]);
      assert PatternAt(s, j - 1, j, k, k + 2);
    }
  }

  /** `!email || !regex.test(email)` rejects; the empty text never matches,
      so only the pattern decides. */
  predicate ValidEmail(email: string)
    ensures ValidEmail(email) <==> EmailShape(email)
  {
    EmailRegexIsShape(email);
    email != [] && EmailRegexTest(email)
  }

  /** Being unanchored, the test also accepts an address with text
      around it. */
  lemma EmailAccepted()
    ensures ValidEmail("a@b.c")
    ensures ValidEmail("nome a@b.c")
  {
    assert PatternAt("a@b.c", 0, 1, 3, 5);
    assert PatternAt("nome a@b.c", 5, 6, 8, 10);
  }

  /** Texts the test refuses: nothing after the '.', nothing between '@'
      and '.', nothing before the '@', white space before the '@'. */
  lemma EmailRefused()
    ensures !ValidEmail("")
    ensures !ValidEmail("a@b.")
    ensures !ValidEmail("a@.c")
    ensures !ValidEmail("@b.c")
    ensures !ValidEmail("a @b.c")
  {
    EmailRegexIsShape("a@b.");
    EmailRegexIsShape("a@.c");
    EmailRegexIsShape("@b.c");
    EmailRegexIsShape("a @b.c");
    var s := "a @b.c";
    assert forall j | 0 < j < |s| - 1 && s[j] == '@' :: j == 2;
    assert IsJsSpace(s[1]);
  }

  // ---------------------------------------------------------------
  // The password rules.

  predicate HasUpper(s: string)
  {
    exists i :: 0 <= i < |s| && 'A' <= s[i] <= 'Z'
  }

  predicate HasLower(s: string)
  {
    exists i :: 0 <= i < |s| && 'a' <= s[i] <= 'z'
  }

  predicate HasDigit(s: string)
  {
    exists i :: 0 <= i < |s| && '0' <= s[i] <= '9'
  }

  /** The rule a rejected password breaks, in the order they are checked. */
  datatype PasswordError = TooShort | NoUpperCase | NoLowerCase | NoDigit | Mismatch

  /** handleResetPassword's checks: the first rule broken is reported and
      nothing is sent; None lets the update go ahead. */
  function PasswordCheck(password: string, confirmation: string): (r: Option<PasswordError>)
    ensures r.None? <==>
      |password| >= 8 && HasUpper(password) && HasLower(password) && HasDigit(password) &&
      password == confirmation
    // The empty-password test is subsumed by the length rule.
    ensures r == Some(TooShort) <==> |password| < 8
    ensures r == Some(Mismatch) ==> |password| >= 8 && password != confirmation
  {
    if password == [] || |password| < 8 then Some(TooShort)
    else if !HasUpper(password) then Some(NoUpperCase)
    else if !HasLower(password) then Some(NoLowerCase)
    else if !HasDigit(password) then Some(NoDigit)
    else if password != confirmation then Some(Mismatch)
    else None
  }

  /** The requirement list under the form, in its order, green or not:
      length, upper case, lower case, digit, and the two fields non-empty
      and equal. */
  function Checklist(password: string, confirmation: string): (r: seq<bool>)
    ensures |r| == 5
    // All green: the last item's non-emptiness tests follow from the first.
    ensures (forall i :: 0 <= i < 5 ==> r[i]) <==>
      |password| >= 8 && HasUpper(password) && HasLower(password) && HasDigit(password) &&
      password == confirmation
  {
    var r := [|password| >= 8, HasUpper(password), HasLower(password), HasDigit(password),
              password != [] && confirmation != [] && password == confirmation];
    assert r[0] == (|password| >= 8) && r[4] == (password != [] && confirmation != [] && password == confirmation);
    assert r[1] == HasUpper(password) && r[2] == HasLower(password) && r[3] == HasDigit(password);
    r
  }

  /** The position of a rule in the requirement list. */
  function ItemOf(e: PasswordError): (i: nat)
    ensures i < 5
  {
    match e
    case TooShort => 0
    case NoUpperCase => 1
    case NoLowerCase => 2
    case NoDigit => 3
    case Mismatch => 4
  }

  /** The submit check and the requirement list agree: the update is sent
      exactly when every item is green, and a rejection names the first
      item that is not. */
  lemma CheckMatchesChecklist(password: string, confirmation: string)
    ensures PasswordCheck(password, confirmation).None? <==>
      forall i :: 0 <= i < 5 ==> Checklist(password, confirmation)[i]
    ensures PasswordCheck(password, confirmation).Some? ==>
      var i := ItemOf(PasswordCheck(password, confirmation).value);
      !Checklist(password, confirmation)[i] && forall h :: 0 <= h < i ==> Checklist(password, confirmation)[h]
  {
    var c := Checklist(password, confirmation);
    assert c[0] == (|password| >= 8) && c[1] == HasUpper(password) && c[2] == HasLower(password);
    assert c[3] == HasDigit(password) && c[4] == (password != [] && confirmation != [] && password == confirmation);
  }

  /** Two of the rules in action. */
  lemma PasswordExamples()
    ensures PasswordCheck("", "") == Some(TooShort)
    ensures PasswordCheck("abcdefgh", "abcdefgh") == Some(NoUpperCase)
    ensures PasswordCheck("Abcdefg1", "Abcdefg2") == Some(Mismatch)
    ensures PasswordCheck("Abcdefg1", "Abcdefg1") == None
  {
    assert !HasUpper("abcdefgh");
    assert "Abcdefg1"[0] == 'A' && "Abcdefg1"[1] == 'b' && "Abcdefg1"[7] == '1';
  }

  // ---------------------------------------------------------------
  // The page.

  datatype Step = EmailStep | ResetStep

  /** The step on the first render: the new-password form when the URL
      carries a non-empty `token` and `type=recovery`. */
  function InitialStep(token: Option<string>, linkType: Option<string>): (s: Step)
    ensures s == ResetStep <==> token.Some? && token.value != [] && linkType == Some("recovery")
  {
    if token.Some? && token.value != [] && linkType == Some("recovery") then ResetStep else EmailStep
  }

  /** The toasts the page raises. */
  datatype Notice =
    | InvalidEmail
    | EmailSent
    | SendFailed
    | Rejected(rule: PasswordError)
    | PasswordChanged
    | ResetFailed

  /** A call to the auth service's resetPasswordForEmail. */
  datatype LinkRequest = LinkRequest(email: string, redirectTo: string)

  /** What the page shows. */
  datatype Screen = EmailForm | EmailSentAlert | NewPasswordForm

  class ResetPasswordPage {
    var step: Step
    var loading: bool
    var emailSent: bool

    constructor(token: Option<string>, linkType: Option<string>)
      ensures step == InitialStep(token, linkType)
      ensures !loading && !emailSent
    {
      step := InitialStep(token, linkType);
      loading := false;
      emailSent := false;
    }

    /** handleSendResetEmail: an invalid address is refused without a
        request; otherwise a link back to `/reset-password` on this origin
        is requested, and the page switches to the confirmation once the
        service accepts. */
    method SendResetEmail(email: string, origin: string, serviceFails: bool)
      returns (request: Option<LinkRequest>, notice: Notice)
      modifies this
      ensures !ValidEmail(email) ==>
        request == None && notice == InvalidEmail && emailSent == old(emailSent) && loading == old(loading)
      ensures ValidEmail(email) ==> request == Some(LinkRequest(email, origin + "/reset-password")) && !loading
      ensures ValidEmail(email) && !serviceFails ==> notice == EmailSent && emailSent
      ensures ValidEmail(email) && serviceFails ==> notice == SendFailed && emailSent == old(emailSent)
      ensures step == old(step)
    {
      if !ValidEmail(email) {
        return None, InvalidEmail;
      }
      loading := true;
      request := Some(LinkRequest(email, origin + "/reset-password"));
      if serviceFails {
        notice := SendFailed;
      } else {
        emailSent := true;
        notice := EmailSent;
      }
      loading := false;
    }

    /** handleResetPassword: a password breaking a rule is refused with
        that rule's message; otherwise the new password is sent, and on
        success the user is sent to `/login` (after a two-second timer). */
    method SubmitNewPassword(password: string, confirmation: string, serviceFails: bool)
      returns (update: Option<string>, notice: Notice, goToLogin: bool)
      modifies this
      ensures PasswordCheck(password, confirmation).Some? ==>
        update == None && !goToLogin && notice == Rejected(PasswordCheck(password, confirmation).value) &&
        loading == old(loading)
      ensures PasswordCheck(password, confirmation).None? ==> update == Some(password) && !loading
      ensures PasswordCheck(password, confirmation).None? ==>
        (goToLogin <==> !serviceFails) && notice == (if serviceFails then ResetFailed else PasswordChanged)
      ensures step == old(step) && emailSent == old(emailSent)
    {
      var rejected := PasswordCheck(password, confirmation);
      if rejected.Some? {
        return None, Rejected(rejected.value), false;
      }
      loading := true;
      update := Some(password);
      if serviceFails {
        notice, goToLogin := ResetFailed, false;
      } else {
        notice, goToLogin := PasswordChanged, true;
      }
      loading := false;
    }

    /** The email step shows the form until a link was sent, then the
        confirmation; the reset step shows the new-password form. */
    function View(): (s: Screen)
      reads this
      ensures s == NewPasswordForm <==> step == ResetStep
      ensures s == EmailSentAlert <==> step.EmailStep? && emailSent
    {
      if step == ResetStep then NewPasswordForm
      else if emailSent then EmailSentAlert
      else EmailForm
    }
  }
}
