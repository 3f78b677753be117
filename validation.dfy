/**
 * Validation of a contact-form submission: presence of the four fields, the
 * shape of the email address, and the length bounds of name, phone and
 * message, checked in that order with the first failing rule deciding.
 */
module Validation {
  import opened Wrappers

  // ---------------------------------------------------------------------
  // The email shape  ^[^\s@]+@[^\s@]+\.[^\s@]+$
  // ---------------------------------------------------------------------

  /** The characters ECMAScript's `\s` class matches: white space and line terminators. */
  predicate IsWhitespace(c: char)
  {
    || c == '\t' || c == '\n' || c == '\U{000B}' || c == '\U{000C}' || c == '\r' || c == ' '
    || c == '\U{00A0}' || c == '\U{1680}' || ('\U{2000}' <= c <= '\U{200A}')
    || c == '\U{2028}' || c == '\U{2029}' || c == '\U{202F}' || c == '\U{205F}'
    || c == '\U{3000}' || c == '\U{FEFF}'
  }

  /** The characters the class `[^\s@]` matches. */
  predicate IsAddressChar(c: char)
  {
    !IsWhitespace(c) && c != '@'
  }

  predicate AllAddressChars(s: string)
  {
    forall k :: 0 <= k < |s| ==> IsAddressChar(s[k])
  }

  /** The position of the first '@' in `s`, if there is one. */
  function FirstAt(s: string): (r: Option<nat>)
    ensures r.None? ==> '@' !in s
    ensures r.Some? ==> r.value < |s| && s[r.value] == '@' && '@' !in s[..r.value]
  {
    if s == [] then None
    else if s[0] == '@' then Some(0)
    else match FirstAt(s[1..])
      case None => None
      case Some(k) => Some(k + 1)
  }

  /** `d` has a '.' that is neither its first nor its last character. */
  predicate HasInnerDot(d: string)
  {
    |d| >= 3 && '.' in d[1..|d| - 1]
  }

  /**
   * The email check of the endpoint, written structurally: a non-empty part
   * before the first '@', no whitespace and no further '@' anywhere, and a
   * domain with an inner '.'.
   */
  predicate IsValidEmail(s: string)
  {
    match FirstAt(s)
    case None => false
    case Some(a) =>
      0 < a && AllAddressChars(s[..a]) && AllAddressChars(s[a + 1..]) && HasInnerDot(s[a + 1..])
  }

  /**
   * The regular expression read literally: `s` splits at an '@' at index `a`
   * and a '.' at index `d` into three non-empty runs of `[^\s@]`.
   */
  ghost predicate PatternSplit(s: string, a: int, d: int)
  {
    && 0 < a && a + 1 < d && d + 1 < |s|
    && s[a] == '@' && s[d] == '.'
    && AllAddressChars(s[..a]) && AllAddressChars(s[a + 1..d]) && AllAddressChars(s[d + 1..])
  }

  ghost predicate MatchesEmailPattern(s: string)
  {
    exists a, d :: PatternSplit(s, a, d)
  }

  /** The structural check accepts exactly the strings the regular expression matches. */
  lemma EmailCheckMatchesPattern(s: string)
    ensures IsValidEmail(s) <==> MatchesEmailPattern(s)
  {
    if IsValidEmail(s) {
      var a := FirstAt(s).value;
      var dom := s[a + 1..];
      var j :| 0 <= j < |dom[1..|dom| - 1]| && dom[1..|dom| - 1][j] == '.';
      var k := j + 1;
      assert dom[k] == '.';
      var d := a + 1 + k;
      assert s[a + 1..d] == dom[..k];
      assert s[d + 1..] == dom[k + 1..];
      assert PatternSplit(s, a, d);
    }
    if MatchesEmailPattern(s) {
      var a, d :| PatternSplit(s, a, d);
      AtIsFirst(s, a);
      var dom := s[a + 1..];
      assert dom == s[a + 1..d] + [s[d]] + s[d + 1..];
      assert AllAddressChars(dom) by {
        forall k | 0 <= k < |dom| ensures IsAddressChar(dom[k]) {
          if k < d - a - 1 {
            assert dom[k] == s[a + 1..d][k];
          } else if k > d - a - 1 {
            assert dom[k] == s[d + 1..][k - (d - a)];
          }
        }
      }
      assert dom[1..|dom| - 1][d - a - 2] == '.';
    }
  }

  /** An '@' preceded only by address characters is the first '@'. */
  lemma AtIsFirst(s: string, a: int)
    requires 0 <= a < |s| && s[a] == '@' && AllAddressChars(s[..a])
    ensures FirstAt(s) == Some(a)
  {
  }

  /** An accepted address holds exactly one '@'. */
  lemma ValidEmailHasOneAt(s: string)
    requires IsValidEmail(s)
    ensures multiset(s)['@'] == 1
  {
    var a := FirstAt(s).value;
    assert s == s[..a] + [s[a]] + s[a + 1..];
    assert '@' !in s[a + 1..];
    assert multiset(s) == multiset(s[..a]) + multiset{s[a]} + multiset(s[a + 1..]);
  }

  /** An accepted address contains no whitespace anywhere. */
  lemma ValidEmailHasNoWhitespace(s: string, i: int)
    requires IsValidEmail(s) && 0 <= i < |s|
    ensures !IsWhitespace(s[i])
  {
  }

  /** "a@b.c" is accepted. */
  lemma ShortAddressAccepted()
    ensures IsValidEmail("a@b.c")
  {
    AtIsFirst("a@b.c", 1);
    assert "a@b.c"[..1] == "a";
    assert "a@b.c"[2..] == "b.c";
    assert "b.c"[1..2] == ".";
  }

  /** "a@b" is rejected: its domain has no dot. */
  lemma DotlessAddressRejected()
    ensures !IsValidEmail("a@b")
  {
  }

  /** "not-an-email" is rejected: it has no '@'. */
  lemma AtlessAddressRejected()
    ensures !IsValidEmail("not-an-email")
  {
  }

  // ---------------------------------------------------------------------
  // The submission and the ordered validation chain
  // ---------------------------------------------------------------------

  const NameMin: nat := 2
  const NameMax: nat := 100
  const PhoneMin: nat := 7
  const PhoneMax: nat := 20
  const MessageMin: nat := 10
  const MessageMax: nat := 1000

  /** The parsed request body: each field may be absent. */
  datatype RawSubmission = RawSubmission(
    name: Option<string>, email: Option<string>, phone: Option<string>, message: Option<string>)

  /** A submission that passed validation. */
  datatype Submission = Submission(name: string, email: string, phone: string, message: string)

  datatype ValidationError = MissingField | InvalidEmail | InvalidName | InvalidPhone | InvalidMessage

  /** A field is truthy when it is present and not the empty string. */
  predicate Present(f: Option<string>)
  {
    f.Some? && f.value != []
  }

  predicate AllPresent(b: RawSubmission)
  {
    Present(b.name) && Present(b.email) && Present(b.phone) && Present(b.message)
  }

  predicate InBounds(s: string, lo: nat, hi: nat)
  {
    lo <= |s| <= hi
  }

  /** Everything a valid submission satisfies. */
  predicate IsValidSubmission(s: Submission)
  {
    && IsValidEmail(s.email)
    && InBounds(s.name, NameMin, NameMax)
    && InBounds(s.phone, PhoneMin, PhoneMax)
    && InBounds(s.message, MessageMin, MessageMax)
  }

  /** The validation chain: the first failing rule decides, and nothing is normalised. */
  function Validate(b: RawSubmission): (r: Result<Submission, ValidationError>)
    ensures r.Success? ==> AllPresent(b) && IsValidSubmission(r.value)
    ensures r.Success? ==> r.value == Submission(b.name.value, b.email.value, b.phone.value, b.message.value)
  {
    if !AllPresent(b) then Failure(MissingField)
    else if !IsValidEmail(b.email.value) then Failure(InvalidEmail)
    else if !InBounds(b.name.value, NameMin, NameMax) then Failure(InvalidName)
    else if !InBounds(b.phone.value, PhoneMin, PhoneMax) then Failure(InvalidPhone)
    else if !InBounds(b.message.value, MessageMin, MessageMax) then Failure(InvalidMessage)
    else Success(Submission(b.name.value, b.email.value, b.phone.value, b.message.value))
  }

  /** The position of each rule in the chain. */
  function Rank(e: ValidationError): nat
  {
    match e
    case MissingField => 0
    case InvalidEmail => 1
    case InvalidName => 2
    case InvalidPhone => 3
    case InvalidMessage => 4
  }

  /** Whether the rule whose failure is reported as `e` holds of `b`, on its own. */
  predicate RuleHolds(b: RawSubmission, e: ValidationError)
  {
    match e
    case MissingField => AllPresent(b)
    case InvalidEmail => b.email.Some? && IsValidEmail(b.email.value)
    case InvalidName => b.name.Some? && InBounds(b.name.value, NameMin, NameMax)
    case InvalidPhone => b.phone.Some? && InBounds(b.phone.value, PhoneMin, PhoneMax)
    case InvalidMessage => b.message.Some? && InBounds(b.message.value, MessageMin, MessageMax)
  }

  /** Validation reports `e` exactly when rule `e` fails and every earlier rule holds. */
  lemma FirstFailureWins(b: RawSubmission, e: ValidationError)
    ensures Validate(b) == Failure(e) <==>
      !RuleHolds(b, e) && forall e' :: Rank(e') < Rank(e) ==> RuleHolds(b, e')
  {
    if !RuleHolds(b, e) && forall e' :: Rank(e') < Rank(e) ==> RuleHolds(b, e') {
      match e
      case MissingField =>
      case InvalidEmail => assert RuleHolds(b, MissingField);
      case InvalidName =>
        assert RuleHolds(b, MissingField) && RuleHolds(b, InvalidEmail);
      case InvalidPhone =>
        assert RuleHolds(b, MissingField) && RuleHolds(b, InvalidEmail) && RuleHolds(b, InvalidName);
      case InvalidMessage =>
        assert RuleHolds(b, MissingField) && RuleHolds(b, InvalidEmail) && RuleHolds(b, InvalidName);
        assert RuleHolds(b, InvalidPhone);
    }
  }

  /** Validation succeeds exactly when every rule holds. */
  lemma ValidateSucceedsIff(b: RawSubmission)
    ensures Validate(b).Success? <==> forall e :: RuleHolds(b, e)
  {
    if Validate(b).Success? {
      forall e ensures RuleHolds(b, e) {
        match e
        case MissingField =>
        case InvalidEmail =>
        case InvalidName =>
        case InvalidPhone =>
        case InvalidMessage =>
      }
    } else {
      assert !(RuleHolds(b, MissingField) && RuleHolds(b, InvalidEmail) && RuleHolds(b, InvalidName)
        && RuleHolds(b, InvalidPhone) && RuleHolds(b, InvalidMessage));
    }
  }

  /** A missing or empty field is reported as such, whatever the other fields hold. */
  lemma MissingFieldWins(b: RawSubmission)
    requires !Present(b.name) || !Present(b.email) || !Present(b.phone) || !Present(b.message)
    ensures Validate(b) == Failure(MissingField)
  {
  }

  /** The human-readable message for each failed rule. */
  function ErrorMessage(e: ValidationError): string
  {
    match e
    case MissingField => "All fields are required"
    case InvalidEmail => "Invalid email address"
    case InvalidName => "Name must be between 2 and 100 characters"
    case InvalidPhone => "Phone number must be between 7 and 20 characters"
    case InvalidMessage => "Message must be between 10 and 1000 characters"
  }

  /** Different failures are reported with different messages. */
  lemma ErrorMessagesDistinct(e1: ValidationError, e2: ValidationError)
    requires e1 != e2
    ensures ErrorMessage(e1) != ErrorMessage(e2)
  {
  }

  /** A string of `n` copies of one character. */
  function Repeat(c: char, n: nat): (s: string)
    ensures |s| == n
  {
    seq(n, _ => c)
  }

  /**
   * The boundaries of the name and message lengths, with a valid email and
   * phone: lengths 1 and 101 (9 and 1001) fail, 2 and 100 (10 and 1000) pass.
   */
  lemma LengthBoundaries(email: string, phone: string)
    requires IsValidEmail(email) && |phone| == PhoneMin
    ensures Validate(RawSubmission(Some(Repeat('n', 1)), Some(email), Some(phone), Some(Repeat('m', 10))))
      == Failure(InvalidName)
    ensures Validate(RawSubmission(Some(Repeat('n', 2)), Some(email), Some(phone), Some(Repeat('m', 10)))).Success?
    ensures Validate(RawSubmission(Some(Repeat('n', 100)), Some(email), Some(phone), Some(Repeat('m', 10)))).Success?
    ensures Validate(RawSubmission(Some(Repeat('n', 101)), Some(email), Some(phone), Some(Repeat('m', 10))))
      == Failure(InvalidName)
    ensures Validate(RawSubmission(Some(Repeat('n', 2)), Some(email), Some(phone), Some(Repeat('m', 9))))
      == Failure(InvalidMessage)
    ensures Validate(RawSubmission(Some(Repeat('n', 2)), Some(email), Some(phone), Some(Repeat('m', 1000)))).Success?
    ensures Validate(RawSubmission(Some(Repeat('n', 2)), Some(email), Some(phone), Some(Repeat('m', 1001))))
      == Failure(InvalidMessage)
  {
  }
}
