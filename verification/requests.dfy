/** The create/update request body and the bean-validation constraints declared on it. */
module UserRequests {
  import opened Common

  /** Name, email and age of a user, as sent by a client. The age is a boxed
      integer and may be missing; a missing age is a validation failure. */
  datatype Request = Request(name: string, email: string, age: Option<int>)

  const NAME_MIN: int := 2
  const NAME_MAX: int := 50
  const AGE_MIN: int := 1
  const AGE_MAX: int := 150

  /** A string is blank when trimming removes all of it; trimming drops every
      leading and trailing character at or below U+0020. */
  predicate IsBlank(s: string)
  {
    forall i :: 0 <= i < |s| ==> s[i] <= ' '
  }

  /** One failed field constraint, reported by bean validation. */
  datatype Violation =
    | NameBlank
    | NameSize
    | EmailBlank
    | EmailFormat
    | AgeMissing
    | AgeTooSmall
    | AgeTooLarge
  {
    /** The message declared on the constraint annotation. */
    function Message(): string
    {
      match this
      case NameBlank => "Name is mandatory"
      case NameSize => "Name must be between 2 and 50 characters"
      case EmailBlank => "Email is mandatory"
      case EmailFormat => "Email should be valid"
      case AgeMissing => "Age is mandatory"
      case AgeTooSmall => "Age must be at least 1"
      case AgeTooLarge => "Age must be at most 150"
    }
  }

  /** What an `@Email` checker may accept: the checker is a parameter of the model,
      but it returns false on every non-empty string that has no '@' (it splits the
      address at its last '@' and rejects when there is none; the empty string is
      accepted and left to the not-blank constraint). */
  ghost predicate EmailCheckSound(emailSyntax: string -> bool)
  {
    forall s :: emailSyntax(s) ==> s == [] || '@' in s
  }

  /** Every constraint violated by `r`, each annotation checked on its own. Size,
      email-format and range constraints accept a missing value; only the
      not-blank and not-null constraints reject it. */
  function Violations(r: Request, emailSyntax: string -> bool): set<Violation>
  {
    (if IsBlank(r.name) then {NameBlank} else {})
    + (if |r.name| < NAME_MIN || NAME_MAX < |r.name| then {NameSize} else {})
    + (if IsBlank(r.email) then {EmailBlank} else {})
    + (if !emailSyntax(r.email) then {EmailFormat} else {})
    + (match r.age
       case None => {AgeMissing}
       case Some(a) =>
         (if a < AGE_MIN then {AgeTooSmall} else {})
         + (if AGE_MAX < a then {AgeTooLarge} else {}))
  }

  /** The messages reported for `r`, one per violated constraint. */
  function ViolationMessages(r: Request, emailSyntax: string -> bool): set<string>
  {
    set v | v in Violations(r, emailSyntax) :: v.Message()
  }

  /** A request passes validation when no constraint is violated. */
  predicate ValidRequest(r: Request, emailSyntax: string -> bool)
  {
    Violations(r, emailSyntax) == {}
  }

  /** Validity, field by field: a non-blank name of 2 to 50 characters, a
      non-blank email the checker accepts, and an age that is present and in
      [1, 150]. */
  lemma ValidRequestMeaning(r: Request, emailSyntax: string -> bool)
    ensures ValidRequest(r, emailSyntax) <==>
              && !IsBlank(r.name)
              && NAME_MIN <= |r.name| <= NAME_MAX
              && !IsBlank(r.email)
              && emailSyntax(r.email)
              && r.age.Some?
              && AGE_MIN <= r.age.value <= AGE_MAX
  {
    var v := Violations(r, emailSyntax);
    if IsBlank(r.name) { assert NameBlank in v; }
    if |r.name| < NAME_MIN || NAME_MAX < |r.name| { assert NameSize in v; }
    if IsBlank(r.email) { assert EmailBlank in v; }
    if !emailSyntax(r.email) { assert EmailFormat in v; }
    if r.age.None? { assert AgeMissing in v; }
    if r.age.Some? && r.age.value < AGE_MIN { assert AgeTooSmall in v; }
    if r.age.Some? && AGE_MAX < r.age.value { assert AgeTooLarge in v; }
  }

  /** The two rejected requests of the controller tests: an address without '@'
      fails the format constraint and age 0 fails the minimum, each reported
      with the message declared on its annotation. */
  lemma RejectedRequests(emailSyntax: string -> bool)
    requires EmailCheckSound(emailSyntax)
    ensures EmailFormat in Violations(Request("John", "invalid-email", Some(30)), emailSyntax)
    ensures Violations(Request("John", "john@example.com", Some(0)), emailSyntax) * {AgeMissing, AgeTooSmall, AgeTooLarge} == {AgeTooSmall}
    ensures !ValidRequest(Request("John", "invalid-email", Some(30)), emailSyntax)
    ensures !ValidRequest(Request("John", "john@example.com", Some(0)), emailSyntax)
    ensures "Email should be valid" in ViolationMessages(Request("John", "invalid-email", Some(30)), emailSyntax)
    ensures "Age must be at least 1" in ViolationMessages(Request("John", "john@example.com", Some(0)), emailSyntax)
  {
    var bad := "invalid-email";
    assert bad[0] == 'i';
    assert '@' !in bad by {
      forall i | 0 <= i < |bad| ensures bad[i] != '@' { }
    }
    assert !emailSyntax(bad);
    var young := Request("John", "john@example.com", Some(0));
    assert AgeTooSmall in Violations(young, emailSyntax);
    assert EmailFormat.Message() in ViolationMessages(Request("John", bad, Some(30)), emailSyntax);
    assert AgeTooSmall.Message() in ViolationMessages(young, emailSyntax);
  }

  /** Setting a field replaces that field and keeps the other two; reading a
      field back returns exactly what the constructor or setter stored. */
  function SetName(r: Request, name: string): (r': Request)
    ensures r'.name == name && r'.email == r.email && r'.age == r.age
  {
    r.(name := name)
  }

  function SetEmail(r: Request, email: string): (r': Request)
    ensures r'.email == email && r'.name == r.name && r'.age == r.age
  {
    r.(email := email)
  }

  function SetAge(r: Request, age: Option<int>): (r': Request)
    ensures r'.age == age && r'.name == r.name && r'.email == r.email
  {
    r.(age := age)
  }

  /** Building a request from its three getters gives the same request, and
      setting the three fields of any request gives the constructed one. */
  lemma AccessorsRoundTrip(r: Request, name: string, email: string, age: Option<int>)
    ensures Request(r.name, r.email, r.age) == r
    ensures SetAge(SetEmail(SetName(r, name), email), age) == Request(name, email, age)
  {
  }
}
