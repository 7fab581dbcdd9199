/** The signup API object of `apiObjects/api_objects.py`: the three POST
    operations and their endpoints, the resend-code rate-limit probe, and
    the email and payload helpers. A request is a value; the server is the
    oracle `server`, whose `server(k)` is the reply to the k-th call
    (counting from 0). Clock readings are parameters. */
module ApiObjects {
  import opened Wrappers
  import opened Text
  import opened JsonValues
  import opened Http
  import DataFactory

  // ---------------------------------------------------------------------
  // Endpoints and requests
  // ---------------------------------------------------------------------

  const SignupEndpoint := "/api/authentication/signup/"
  const SignupConfirmEndpoint := "/api/authentication/signup/confirm/"
  const SignupResendCodeEndpoint := "/api/authentication/signup/resend-code/"

  /** The three POST operations of the client. */
  datatype Operation = CreateUserOp | ConfirmSignupOp | ResendCodeOp

  /** The endpoint constant each operation posts to. */
  function Endpoint(op: Operation): (r: string)
    ensures SignupEndpoint <= r
  {
    match op
    case CreateUserOp => SignupEndpoint
    case ConfirmSignupOp => SignupConfirmEndpoint
    case ResendCodeOp => SignupResendCodeEndpoint
  }

  /** Which operation a request path belongs to, if any. */
  function Route(path: string): (r: Option<Operation>)
    ensures r.Some? ==> Endpoint(r.value) == path
    ensures r.None? ==> forall op :: Endpoint(op) != path
  {
    if path == SignupEndpoint then Some(CreateUserOp)
    else if path == SignupConfirmEndpoint then Some(ConfirmSignupOp)
    else if path == SignupResendCodeEndpoint then Some(ResendCodeOp)
    else None
  }

  /** Every operation has its own endpoint: routing a request's path gives
      back the operation that sent it. */
  lemma RouteEndpoint(op: Operation)
    ensures Route(Endpoint(op)) == Some(op)
  {
    assert |SignupEndpoint| != |SignupConfirmEndpoint|;
    assert |SignupEndpoint| != |SignupResendCodeEndpoint|;
    assert |SignupConfirmEndpoint| != |SignupResendCodeEndpoint|;
  }

  /** One POST of `payload`, unchanged, to the operation's endpoint. */
  function Send(op: Operation, payload: map<string, Json>): (r: Request)
    ensures Route(r.path) == Some(op) && r.body == payload
  {
    RouteEndpoint(op);
    Post(Endpoint(op), payload)
  }

  /** `create_user(payload)`. */
  function CreateUser(payload: map<string, Json>): (r: Request)
    ensures Route(r.path) == Some(CreateUserOp) && r.body == payload
  {
    Send(CreateUserOp, payload)
  }

  /** `confirm_signup(payload)`. */
  function ConfirmSignup(payload: map<string, Json>): (r: Request)
    ensures Route(r.path) == Some(ConfirmSignupOp) && r.body == payload
  {
    Send(ConfirmSignupOp, payload)
  }

  /** `resend_confirmation_code(payload)`. */
  function ResendConfirmationCode(payload: map<string, Json>): (r: Request)
    ensures Route(r.path) == Some(ResendCodeOp) && r.body == payload
  {
    Send(ResendCodeOp, payload)
  }

  // ---------------------------------------------------------------------
  // The resend rate-limit probe
  // ---------------------------------------------------------------------

  /** What `test_resend_rate_limit` returns. */
  datatype ProbeResult = ProbeResult(successfulAttempts: nat, blockedResponse: Response)

  /** Python's `range(lo, hi)`: lo, lo + 1, ... while below `hi`. */
  function PyRange(lo: int, hi: int): (r: seq<int>)
    decreases hi - lo
  {
    if lo < hi then [lo] + PyRange(lo + 1, hi) else []
  }

  /** `range(lo, hi)` has `hi - lo` elements, and none when `hi <= lo`;
      its k-th element is `lo + k`. */
  lemma {:induction false} PyRangeShape(lo: int, hi: int)
    ensures |PyRange(lo, hi)| == if lo < hi then hi - lo else 0
    ensures forall k :: 0 <= k < |PyRange(lo, hi)| ==> PyRange(lo, hi)[k] == lo + k
    decreases hi - lo
  {
    if lo < hi {
      PyRangeShape(lo + 1, hi);
    }
  }

  /** How many times `for attempt in range(1, max_attempts + 1)` runs at
      most: none for a negative bound. */
  function Cap(maxAttempts: int): (n: nat)
    ensures n == |PyRange(1, maxAttempts + 1)|
    ensures maxAttempts <= 0 ==> n == 0
    ensures maxAttempts >= 0 ==> n == maxAttempts
  {
    PyRangeShape(1, maxAttempts + 1);
    if maxAttempts < 0 then 0 else maxAttempts
  }

  /** Length of the run of 200 replies that opens the reply sequence, looking
      at the first `cap` replies only. */
  function LeadingOk(server: nat -> Response, cap: nat): (n: nat)
    ensures n <= cap
    ensures forall k :: 0 <= k < n ==> server(k).status == StatusOk
    ensures n < cap ==> server(n).status != StatusOk
    decreases cap
  {
    if cap == 0 then 0
    else
      var m := LeadingOk(server, cap - 1);
      if m == cap - 1 && server(cap - 1).status == StatusOk then cap else m
  }

  /** The three facts LeadingOk promises determine it. */
  lemma LeadingOkUnique(server: nat -> Response, cap: nat, n: nat)
    requires n <= cap
    requires forall k :: 0 <= k < n ==> server(k).status == StatusOk
    requires n < cap ==> server(n).status != StatusOk
    ensures LeadingOk(server, cap) == n
  {
    var m := LeadingOk(server, cap);
    assert m <= n by {
      assert n < cap ==> server(n).status != StatusOk;
    }
    assert n <= m by {
      assert m < cap ==> server(m).status != StatusOk;
    }
  }

  /** `test_resend_rate_limit(email, max_attempts)`: resend the code up to
      `max_attempts` times, stopping at the first reply that is not 200,
      then resend once more and report that reply. `calls` are the requests
      sent, in order. */
  method TestResendRateLimit(email: string, maxAttempts: int, server: nat -> Response)
    returns (result: ProbeResult, calls: seq<Request>)
    ensures result.successfulAttempts == LeadingOk(server, Cap(maxAttempts))
    ensures result.successfulAttempts <= Cap(maxAttempts)
    ensures |calls| == if result.successfulAttempts == Cap(maxAttempts) then Cap(maxAttempts) + 1
                       else result.successfulAttempts + 2
    ensures |calls| <= Cap(maxAttempts) + 1
    ensures forall i :: 0 <= i < |calls| ==> calls[i] == ResendConfirmationCode(map["email" := JString(email)])
    ensures result.blockedResponse == server(|calls| - 1)
    ensures maxAttempts <= 0 ==> result.successfulAttempts == 0 && |calls| == 1
  {
    var payload := map["email" := JString(email)];
    var request := ResendConfirmationCode(payload);
    var cap := Cap(maxAttempts);
    var successful: nat := 0;
    calls := [];
    var attempt := 1;
    while attempt <= cap
      invariant 1 <= attempt <= cap + 1
      invariant successful == attempt - 1 == |calls|
      invariant forall k :: 0 <= k < successful ==> server(k).status == StatusOk
      invariant forall i :: 0 <= i < |calls| ==> calls[i] == request
      decreases cap + 1 - attempt
    {
      var response := server(|calls|);
      calls := calls + [request];
      if response.status == StatusOk {
        successful := successful + 1;
      } else {
        break;
      }
      attempt := attempt + 1;
    }
    LeadingOkUnique(server, cap, successful);
    var blocked := server(|calls|);
    calls := calls + [request];
    result := ProbeResult(successful, blocked);
  }

  /** The probe counts `cap` successes exactly when the first `cap` replies
      are all 200. */
  lemma LeadingOkAllOk(server: nat -> Response, cap: nat)
    ensures LeadingOk(server, cap) == cap <==> forall k :: 0 <= k < cap ==> server(k).status == StatusOk
  {
    if forall k :: 0 <= k < cap ==> server(k).status == StatusOk {
      LeadingOkUnique(server, cap, cap);
    }
  }

  // ---------------------------------------------------------------------
  // Email and payload helpers
  // ---------------------------------------------------------------------

  const EmailDomain := "example.com"
  const DefaultEmailPrefix := "test"
  const DefaultPayloadEmailPrefix := "user"
  const DefaultPassword := "Password123!"
  const NamePrefix := "Test User "

  /** `generate_unique_email(prefix)` at the millisecond clock reading
      `millis`. */
  function GenerateUniqueEmail(prefix: string, millis: nat): (r: string)
    ensures DataFactory.StampOf(prefix, EmailDomain, r) == Some(millis)
  {
    SameEmailAsFactory(prefix, millis);
    prefix + "_" + NatToString(millis) + "@example.com"
  }

  /** The client's email is the factory's email for the domain
      "example.com". */
  lemma SameEmailAsFactory(prefix: string, millis: nat)
    ensures prefix + "_" + NatToString(millis) + "@example.com"
         == DataFactory.UniqueEmail(prefix, DataFactory.DefaultDomain, millis)
  {
  }

  /** The defaults: emails start with "test_", payload emails with
      "user_". */
  lemma DefaultPrefixes(seconds: nat, millis: nat)
    ensures GenerateUniqueEmail(DefaultEmailPrefix, millis)
         == DataFactory.UniqueEmail(DataFactory.DefaultEmailPrefix, DataFactory.DefaultDomain, millis)
    ensures DefaultPayload(DefaultPayloadEmailPrefix, seconds, millis)["email"]
         == JString("user_" + NatToString(millis) + "@example.com")
  {
    SameEmailAsFactory(DefaultEmailPrefix, millis);
    assert DefaultPayload(DefaultPayloadEmailPrefix, seconds, millis)["email"]
        == JString(GenerateUniqueEmail(DefaultPayloadEmailPrefix, millis));
  }

  /** `default_payload(email_prefix)` with the clock read as `seconds` for
      the name and `millis` for the email. */
  function DefaultPayload(emailPrefix: string, seconds: nat, millis: nat): (r: map<string, Json>)
    ensures r.Keys == {"name", "email", "password"}
    ensures r["name"] == JString(NamePrefix + NatToString(seconds))
    ensures r["password"] == JString(DefaultPassword)
    ensures r["email"].JString? && DataFactory.StampOf(emailPrefix, EmailDomain, r["email"].s) == Some(millis)
  {
    map[
      "name" := JString(NamePrefix + NatToString(seconds)),
      "email" := JString(GenerateUniqueEmail(emailPrefix, millis)),
      "password" := JString(DefaultPassword)]
  }

  /** Payloads built at different seconds carry different names. */
  lemma DefaultPayloadNamesDiffer(prefix: string, s1: nat, s2: nat, m1: nat, m2: nat)
    requires s1 != s2
    ensures DefaultPayload(prefix, s1, m1)["name"] != DefaultPayload(prefix, s2, m2)["name"]
  {
    var a, b := NamePrefix + NatToString(s1), NamePrefix + NatToString(s2);
    if a == b {
      assert a[|NamePrefix|..] == NatToString(s1);
      assert b[|NamePrefix|..] == NatToString(s2);
      NatToStringInjective(s1, s2);
    }
  }
}

/** The older signup API object of the top-level `api_objects.py`: only
    `create_user`, and a default payload that also carries
    `confirm_password`. */
module RootApiObjects {
  import opened Text
  import opened JsonValues
  import opened Http
  import ApiObjects
  import Schemas

  const SignupEndpoint := "/api/authentication/signup/"

  /** `create_user(payload)`: one POST of the unchanged payload to the
      signup endpoint, the same endpoint the newer client uses. */
  function CreateUser(payload: map<string, Json>): (r: Request)
    ensures r == ApiObjects.CreateUser(payload)
  {
    Post(SignupEndpoint, payload)
  }

  /** `generate_unique_email(prefix)`, identical to the newer client's. */
  function GenerateUniqueEmail(prefix: string, millis: nat): (r: string)
    ensures r == ApiObjects.GenerateUniqueEmail(prefix, millis)
  {
    prefix + "_" + NatToString(millis) + "@example.com"
  }

  /** `default_payload(email_prefix)`: four keys, with the password
      repeated as `confirm_password`. */
  function DefaultPayload(emailPrefix: string, seconds: nat, millis: nat): (r: map<string, Json>)
    ensures r.Keys == {"name", "email", "password", "confirm_password"}
    ensures r["confirm_password"] == r["password"] == JString(ApiObjects.DefaultPassword)
  {
    map[
      "name" := JString(ApiObjects.NamePrefix + NatToString(seconds)),
      "email" := JString(GenerateUniqueEmail(emailPrefix, millis)),
      "password" := JString(ApiObjects.DefaultPassword),
      "confirm_password" := JString(ApiObjects.DefaultPassword)]
  }

  /** The four-key payload is the newer three-key payload plus
      `confirm_password`. */
  lemma DefaultPayloadExtendsNewer(emailPrefix: string, seconds: nat, millis: nat)
    ensures DefaultPayload(emailPrefix, seconds, millis)
         == ApiObjects.DefaultPayload(emailPrefix, seconds, millis)["confirm_password" := JString(ApiObjects.DefaultPassword)]
  {
  }

  /** The default name "Test User <seconds>" always holds a digit, so the
      default payload never passes the signup request schema. */
  lemma DefaultPayloadRefusedBySchema(emailPrefix: string, seconds: nat, millis: nat)
    ensures !Schemas.ValidateResponseSchema(DefaultPayload(emailPrefix, seconds, millis), Schemas.SignupRequest).0
  {
    var data := DefaultPayload(emailPrefix, seconds, millis);
    var name := ApiObjects.NamePrefix + NatToString(seconds);
    assert data["name"].s == name;
    assert name[|ApiObjects.NamePrefix|] == NatToString(seconds)[0];
    Schemas.NameWithDigitRefused(data, |ApiObjects.NamePrefix|);
  }
}
