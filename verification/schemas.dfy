/** The pydantic schemas of the signup API and the two validation helpers.
    A schema is checked against a parsed JSON object; validation collects
    at most one issue per field, in declaration order, as pydantic does.
    Types are checked strictly (a `str` field takes only a JSON string, a
    `bool` field only a JSON boolean, an `int` field only a JSON integer),
    digits are ASCII, and `EmailStr` is approximated by `IsEmail`. */
module Schemas {
  import opened Wrappers
  import opened Text
  import opened JsonValues

  // ---------------------------------------------------------------------
  // Schemas, issues and their text
  // ---------------------------------------------------------------------

  datatype Schema = SignupRequest | SignupSuccessResponse | ErrorDetail | SignupErrorResponse

  /** Where an issue sits: a key of an object or an index of a list. */
  datatype Loc = Key(key: string) | Index(index: nat)

  /** Why a value was refused. */
  datatype Kind =
    | Missing
    | WrongType(expected: string)
    | TooShort(min: nat)
    | TooLong(max: nat)
    | NameHasDigit
    | NotAnEmail
    | PasswordsDiffer

  datatype Issue = Issue(loc: seq<Loc>, kind: Kind)

  function SchemaName(schema: Schema): string {
    match schema
    case SignupRequest => "SignupRequestSchema"
    case SignupSuccessResponse => "SignupSuccessResponseSchema"
    case ErrorDetail => "ErrorDetailSchema"
    case SignupErrorResponse => "SignupErrorResponseSchema"
  }

  const NameDigitMessage := "Name should not contain numbers"
  const MismatchMessage := "Passwords do not match"

  function KindText(kind: Kind): string {
    match kind
    case Missing => "field required"
    case WrongType(t) => t + " type expected"
    case TooShort(n) => "ensure this value has at least " + NatToString(n) + " characters"
    case TooLong(n) => "ensure this value has at most " + NatToString(n) + " characters"
    case NameHasDigit => NameDigitMessage
    case NotAnEmail => "value is not a valid email address"
    case PasswordsDiffer => MismatchMessage
  }

  function LocText(loc: seq<Loc>): string {
    if |loc| == 0 then ""
    else
      var head := match loc[0] case Key(k) => k case Index(i) => NatToString(i);
      if |loc| == 1 then head else head + " -> " + LocText(loc[1..])
  }

  /** The line pair of one issue: its location, then its reason. */
  function IssueLine(issue: Issue): (r: string)
    ensures Contains(r, KindText(issue.kind))
  {
    var lead := "\n" + LocText(issue.loc) + "\n  ";
    ContainsHead(KindText(issue.kind), "");
    assert KindText(issue.kind) + "" == KindText(issue.kind);
    ContainsAfter(lead, KindText(issue.kind), KindText(issue.kind));
    lead + KindText(issue.kind)
  }

  function IssueLines(issues: seq<Issue>): string {
    if |issues| == 0 then "" else IssueLine(issues[0]) + IssueLines(issues[1..])
  }

  /** The rest of the count line after the number. */
  function ErrorTitle(schema: Schema, count: nat): string {
    " validation error" + (if count == 1 then "" else "s") + " for " + SchemaName(schema)
  }

  /** `str(ValidationError)`: a count line, then the issues. */
  function ErrorText(schema: Schema, issues: seq<Issue>): (r: string)
    requires |issues| > 0
    ensures NatToString(|issues|) <= r
    ensures forall p :: Contains(IssueLines(issues), p) ==> Contains(r, p)
  {
    var count := NatToString(|issues|);
    var head := count + ErrorTitle(schema, |issues|);
    var lines := IssueLines(issues);
    PrefixExtended(count, count, ErrorTitle(schema, |issues|));
    PrefixExtended(count, head, lines);
    forall p | Contains(lines, p)
      ensures Contains(head + lines, p)
    {
      ContainsAfter(head, lines, p);
    }
    head + lines
  }

  /** A refused password confirmation is reported in the text with the
      validator's own message. */
  lemma {:induction false} MismatchIsReported(issues: seq<Issue>, i: nat)
    requires i < |issues| && issues[i].kind == PasswordsDiffer
    ensures Contains(IssueLines(issues), MismatchMessage)
    decreases i
  {
    if i == 0 {
      ContainsBefore(IssueLine(issues[0]), IssueLines(issues[1..]), MismatchMessage);
    } else {
      MismatchIsReported(issues[1..], i - 1);
      ContainsAfter(IssueLine(issues[0]), IssueLines(issues[1..]), MismatchMessage);
    }
  }

  // ---------------------------------------------------------------------
  // Field rules
  // ---------------------------------------------------------------------

  /** An approximation of `EmailStr`: exactly one "@", a non-empty local
      part before it, and a domain after it with a "." that is neither its
      first nor its last character. */
  predicate IsEmail(s: string) {
    exists i :: 0 < i < |s| && s[i] == '@' && '@' !in s[..i] && DomainLike(s[i + 1..])
  }

  predicate DomainLike(d: string) {
    '@' !in d && exists j :: 0 < j < |d| - 1 && d[j] == '.'
  }

  /** At most one issue per field; None when the field passes. */
  function Report(key: string, kind: Option<Kind>): seq<Issue> {
    match kind
    case None => []
    case Some(k) => [Issue([Key(key)], k)]
  }

  /** A required `str` field. */
  function StrKind(v: Option<Json>): Option<Kind> {
    match v
    case None => Some(Missing)
    case Some(JString(_)) => None
    case Some(_) => Some(WrongType("str"))
  }

  /** A `str | None = None` field. */
  function OptStrKind(v: Option<Json>): Option<Kind> {
    match v
    case None => None
    case Some(JNull) => None
    case Some(JString(_)) => None
    case Some(_) => Some(WrongType("str"))
  }

  /** A required `str` field with `min_length`. */
  function MinStrKind(v: Option<Json>, min: nat): Option<Kind> {
    match v
    case None => Some(Missing)
    case Some(JString(s)) => if |s| < min then Some(TooShort(min)) else None
    case Some(_) => Some(WrongType("str"))
  }

  /** `name: str = Field(..., min_length=3, max_length=80)`, then the
      no-digit validator, which runs only on a value that passed. */
  function NameKind(v: Option<Json>): Option<Kind> {
    match v
    case None => Some(Missing)
    case Some(JString(s)) =>
      if |s| < 3 then Some(TooShort(3))
      else if |s| > 80 then Some(TooLong(80))
      else if HasDigit(s) then Some(NameHasDigit)
      else None
    case Some(_) => Some(WrongType("str"))
  }

  function EmailKind(v: Option<Json>): Option<Kind> {
    match v
    case None => Some(Missing)
    case Some(JString(s)) => if IsEmail(s) then None else Some(NotAnEmail)
    case Some(_) => Some(WrongType("email"))
  }

  const MinPasswordLength: nat := 8

  /** `confirm_password` with its own rules, then the match validator, which
      compares only when `password` itself passed (pydantic leaves a failed
      field out of `values`). */
  function ConfirmKind(v: Option<Json>, password: Option<Json>): Option<Kind> {
    match MinStrKind(v, MinPasswordLength)
    case Some(k) => Some(k)
    case None =>
      if MinStrKind(password, MinPasswordLength).None? && v.value != password.value then Some(PasswordsDiffer)
      else None
  }

  function BoolKind(v: Option<Json>): Option<Kind> {
    match v
    case None => Some(Missing)
    case Some(JBool(_)) => None
    case Some(_) => Some(WrongType("bool"))
  }

  /** `data: dict | None = None`. */
  function OptDictKind(v: Option<Json>): Option<Kind> {
    match v
    case None => None
    case Some(JNull) => None
    case Some(JObject(_)) => None
    case Some(_) => Some(WrongType("dict"))
  }

  /** `status_code: int | None = None`. */
  function OptIntKind(v: Option<Json>): Option<Kind> {
    match v
    case None => None
    case Some(JNull) => None
    case Some(JInt(_)) => None
    case Some(_) => Some(WrongType("int"))
  }

  // ---------------------------------------------------------------------
  // Validation
  // ---------------------------------------------------------------------

  function RequestIssues(data: map<string, Json>): (r: seq<Issue>)
    ensures r == [] <==> RequestConforms(data)
  {
    Report("name", NameKind(Get(data, "name")))
    + Report("email", EmailKind(Get(data, "email")))
    + Report("password", MinStrKind(Get(data, "password"), MinPasswordLength))
    + Report("confirm_password", ConfirmKind(Get(data, "confirm_password"), Get(data, "password")))
  }

  function SuccessIssues(data: map<string, Json>): (r: seq<Issue>)
    ensures r == [] <==> SuccessConforms(data)
  {
    Report("message", StrKind(Get(data, "message")))
    + Report("error", BoolKind(Get(data, "error")))
    + Report("code", StrKind(Get(data, "code")))
    + Report("data", OptDictKind(Get(data, "data")))
  }

  function DetailIssues(data: map<string, Json>): (r: seq<Issue>)
    ensures r == [] <==> DetailMapConforms(data)
  {
    Report("field", OptStrKind(Get(data, "field")))
    + Report("message", StrKind(Get(data, "message")))
    + Report("code", OptStrKind(Get(data, "code")))
  }

  /** Issues of one element of `errors`, located under its index. */
  function ItemIssues(item: Json, i: nat): seq<Issue> {
    match item
    case JObject(f) => seq(|DetailIssues(f)|, k requires 0 <= k < |DetailIssues(f)| =>
                         Issue([Key("errors"), Index(i)] + DetailIssues(f)[k].loc, DetailIssues(f)[k].kind))
    case _ => [Issue([Key("errors"), Index(i)], WrongType("dict"))]
  }

  /** Issues of the elements of `errors` from index `i` on. */
  function ItemsIssues(items: seq<Json>, i: nat): (r: seq<Issue>)
    requires i <= |items|
    ensures r == [] <==> forall k :: i <= k < |items| ==> DetailConforms(items[k])
    decreases |items| - i
  {
    if i == |items| then []
    else ItemIssues(items[i], i) + ItemsIssues(items, i + 1)
  }

  /** `errors: list[ErrorDetailSchema] | None = None`. */
  function ErrorsIssues(v: Option<Json>): (r: seq<Issue>)
    ensures r == [] <==>
              (v.None? || v.value.JNull?
               || (v.value.JArray? && forall k :: 0 <= k < |v.value.items| ==> DetailConforms(v.value.items[k])))
  {
    match v
    case None => []
    case Some(JNull) => []
    case Some(JArray(items)) => ItemsIssues(items, 0)
    case Some(_) => [Issue([Key("errors")], WrongType("list"))]
  }

  function ErrorResponseIssues(data: map<string, Json>): (r: seq<Issue>)
    ensures r == [] <==> ErrorResponseConforms(data)
  {
    Report("error", OptStrKind(Get(data, "error")))
    + ErrorsIssues(Get(data, "errors"))
    + Report("message", OptStrKind(Get(data, "message")))
    + Report("detail", OptStrKind(Get(data, "detail")))
    + Report("status_code", OptIntKind(Get(data, "status_code")))
  }

  /** Every issue `schema(**data)` raises, in field order. */
  function Issues(schema: Schema, data: map<string, Json>): (r: seq<Issue>)
    ensures r == [] <==> Conforms(schema, data)
  {
    match schema
    case SignupRequest => RequestIssues(data)
    case SignupSuccessResponse => SuccessIssues(data)
    case ErrorDetail => DetailIssues(data)
    case SignupErrorResponse => ErrorResponseIssues(data)
  }

  // ---------------------------------------------------------------------
  // What each schema accepts, stated field by field
  // ---------------------------------------------------------------------

  predicate IsStr(data: map<string, Json>, key: string) {
    key in data && data[key].JString?
  }

  predicate IsOptStr(data: map<string, Json>, key: string) {
    key in data ==> data[key].JString? || data[key].JNull?
  }

  /** The signup request: a 3..80 character name without digits, an email,
      and two equal passwords of at least 8 characters. */
  predicate RequestConforms(data: map<string, Json>) {
    && IsStr(data, "name") && 3 <= |data["name"].s| <= 80 && !HasDigit(data["name"].s)
    && IsStr(data, "email") && IsEmail(data["email"].s)
    && IsStr(data, "password") && |data["password"].s| >= MinPasswordLength
    && IsStr(data, "confirm_password") && |data["confirm_password"].s| >= MinPasswordLength
    && data["confirm_password"].s == data["password"].s
  }

  /** The success response: string message and code, boolean error, and
      data absent, null or an object; other keys are allowed. */
  predicate SuccessConforms(data: map<string, Json>) {
    && IsStr(data, "message") && IsStr(data, "code")
    && "error" in data && data["error"].JBool?
    && ("data" in data ==> data["data"].JNull? || data["data"].JObject?)
  }

  /** An error detail: a string message; field and code optional. */
  predicate DetailMapConforms(data: map<string, Json>) {
    IsStr(data, "message") && IsOptStr(data, "field") && IsOptStr(data, "code")
  }

  predicate DetailConforms(item: Json) {
    item.JObject? && DetailMapConforms(item.fields)
  }

  /** The error response: every field optional; `errors`, when a list, holds
      only conforming details. */
  predicate ErrorResponseConforms(data: map<string, Json>) {
    && IsOptStr(data, "error") && IsOptStr(data, "message") && IsOptStr(data, "detail")
    && ("status_code" in data ==> data["status_code"].JInt? || data["status_code"].JNull?)
    && ("errors" in data ==>
          data["errors"].JNull?
          || (data["errors"].JArray?
              && forall k :: 0 <= k < |data["errors"].items| ==> DetailConforms(data["errors"].items[k])))
  }

  predicate Conforms(schema: Schema, data: map<string, Json>) {
    match schema
    case SignupRequest => RequestConforms(data)
    case SignupSuccessResponse => SuccessConforms(data)
    case ErrorDetail => DetailMapConforms(data)
    case SignupErrorResponse => ErrorResponseConforms(data)
  }

  /** The mismatch is reported exactly when the password passed, the
      confirmation passed its own rules, and the two differ. */
  lemma MismatchReportedIff(data: map<string, Json>)
    ensures (exists i :: 0 <= i < |RequestIssues(data)| && RequestIssues(data)[i].kind == PasswordsDiffer)
        <==> (IsStr(data, "password") && |data["password"].s| >= MinPasswordLength
              && IsStr(data, "confirm_password") && |data["confirm_password"].s| >= MinPasswordLength
              && data["confirm_password"].s != data["password"].s)
  {
    var r := RequestIssues(data);
    var head := Report("name", NameKind(Get(data, "name")))
      + Report("email", EmailKind(Get(data, "email")))
      + Report("password", MinStrKind(Get(data, "password"), MinPasswordLength));
    var last := Report("confirm_password", ConfirmKind(Get(data, "confirm_password"), Get(data, "password")));
    assert r == head + last;
    assert forall i :: 0 <= i < |head| ==> head[i].kind != PasswordsDiffer;
    if IsStr(data, "password") && |data["password"].s| >= MinPasswordLength
       && IsStr(data, "confirm_password") && |data["confirm_password"].s| >= MinPasswordLength
       && data["confirm_password"].s != data["password"].s {
      assert r[|head|] == last[0];
    }
  }

  // ---------------------------------------------------------------------
  // The helpers
  // ---------------------------------------------------------------------

  /** `validate_response_schema(data, schema)`: `(True, None)` when the data
      conforms, otherwise `(False, message)`. */
  function ValidateResponseSchema(data: map<string, Json>, schema: Schema): (r: (bool, Option<string>))
    ensures r.0 <==> Conforms(schema, data)
    ensures r.0 ==> r.1 == None
    ensures !r.0 ==> r.1.Some? && |r.1.value| > 0
  {
    var issues := Issues(schema, data);
    if issues == [] then (true, None) else (false, Some(ErrorText(schema, issues)))
  }

  const DefaultAssertMessage := "Schema validation failed"

  /** `assert_response_schema(data, schema, error_message)`: passes exactly
      when the data conforms; the failure message is the caller's prefix,
      ": ", and the validation message. */
  function AssertResponseSchema(data: map<string, Json>, schema: Schema, errorMessage: string): (r: Outcome<string>)
    ensures r.Pass? <==> Conforms(schema, data)
    ensures r.Fail? ==> ValidateResponseSchema(data, schema).1.Some?
                        && r.error == errorMessage + ": " + ValidateResponseSchema(data, schema).1.value
  {
    var (ok, err) := ValidateResponseSchema(data, schema);
    if ok then Pass else Fail(errorMessage + ": " + err.value)
  }

  /** A refused password confirmation shows up in the validation message. */
  lemma MismatchInMessage(data: map<string, Json>)
    requires IsStr(data, "password") && |data["password"].s| >= MinPasswordLength
    requires IsStr(data, "confirm_password") && |data["confirm_password"].s| >= MinPasswordLength
    requires data["confirm_password"].s != data["password"].s
    ensures ValidateResponseSchema(data, SignupRequest).1.Some?
    ensures Contains(ValidateResponseSchema(data, SignupRequest).1.value, MismatchMessage)
  {
    MismatchReportedIff(data);
    var issues := RequestIssues(data);
    var i :| 0 <= i < |issues| && issues[i].kind == PasswordsDiffer;
    MismatchIsReported(issues, i);
  }

  // ---------------------------------------------------------------------
  // Concrete cases
  // ---------------------------------------------------------------------

  /** A success response with a data object passes. */
  lemma SuccessExampleValid()
    ensures AssertResponseSchema(
              map["message" := JString("User created successfully"), "error" := JBool(false),
                  "code" := JString("SUCCESS"),
                  "data" := JObject(map["user_id" := JString("123"), "email" := JString("test@example.com")])],
              SignupSuccessResponse, DefaultAssertMessage) == Pass
  {
    var data := map["message" := JString("User created successfully"), "error" := JBool(false),
                    "code" := JString("SUCCESS"),
                    "data" := JObject(map["user_id" := JString("123"), "email" := JString("test@example.com")])];
    assert SuccessConforms(data);
  }

  /** An object with none of the success fields fails with a message. */
  lemma WrongFieldInvalid()
    ensures !ValidateResponseSchema(map["wrong_field" := JString("value")], SignupSuccessResponse).0
    ensures ValidateResponseSchema(map["wrong_field" := JString("value")], SignupSuccessResponse).1.Some?
  {
  }

  /** Every error-response field is optional. */
  lemma EmptyErrorResponseValid()
    ensures ValidateResponseSchema(map[], SignupErrorResponse) == (true, None)
  {
  }

  /** A well-formed request passes. */
  lemma RequestExampleValid()
    ensures ValidateResponseSchema(
              map["name" := JString("John Doe"), "email" := JString("john@example.com"),
                  "password" := JString("SecurePass123!"), "confirm_password" := JString("SecurePass123!")],
              SignupRequest) == (true, None)
  {
    var data := map["name" := JString("John Doe"), "email" := JString("john@example.com"),
                    "password" := JString("SecurePass123!"), "confirm_password" := JString("SecurePass123!")];
    ExampleEmail();
    ExampleName();
    assert RequestConforms(data);
  }

  lemma ExampleEmail()
    ensures IsEmail("john@example.com")
  {
    var domain := "example" + "." + "com";
    assert "john" + "@" + domain == "john@example.com" by {
      assert domain == "example.com";
    }
    DomainOfParts("example", "com");
    EmailOfParts("john", domain);
  }

  /** `local@domain` is an email when the local part is non-empty and has no
      "@" and the domain is domain-like. */
  lemma EmailOfParts(local: string, domain: string)
    requires |local| > 0 && '@' !in local && DomainLike(domain)
    ensures IsEmail(local + "@" + domain)
  {
    var s := local + "@" + domain;
    var i := |local|;
    assert s[..i] == local && s[i] == '@' && s[i + 1..] == domain;
  }

  /** `a.b` is domain-like when both labels are non-empty and have no "@". */
  lemma DomainOfParts(a: string, b: string)
    requires |a| > 0 && |b| > 0 && '@' !in a && '@' !in b
    ensures DomainLike(a + "." + b)
  {
    var d := a + "." + b;
    assert d[|a|] == '.';
    assert forall k :: 0 <= k < |d| ==> d[k] in a || d[k] == '.' || d[k] in b;
  }

  lemma ExampleName()
    ensures !HasDigit("John Doe")
  {
    var name := "John Doe";
    forall i | 0 <= i < |name|
      ensures !IsDigit(name[i])
    {
    }
  }

  /** Any name containing a digit is refused, whatever the other fields. */
  lemma NameWithDigitRefused(data: map<string, Json>, i: nat)
    requires IsStr(data, "name") && i < |data["name"].s| && IsDigit(data["name"].s[i])
    ensures !ValidateResponseSchema(data, SignupRequest).0
  {
  }

  /** Any name shorter than 3 or longer than 80 characters is refused. */
  lemma NameLengthRefused(data: map<string, Json>)
    requires IsStr(data, "name") && (|data["name"].s| < 3 || |data["name"].s| > 80)
    ensures !ValidateResponseSchema(data, SignupRequest).0
  {
  }

  /** Passwords shorter than 8 characters are refused. */
  lemma ShortPasswordRefused(data: map<string, Json>)
    requires IsStr(data, "password") && |data["password"].s| < MinPasswordLength
    ensures !ValidateResponseSchema(data, SignupRequest).0
  {
  }
}
