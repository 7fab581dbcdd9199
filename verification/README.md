# Signup API test-suite cores, in Dafny

This project models four pure cores of an API test suite for a signup
service and proves properties of them:

- **The README synchroniser** (`sync_readme_test_results.py`). It summarises
  pytest's verbose output into counts, an execution time and per-suite test
  counts. It renders the "📈 Test Execution Results" Markdown section and
  splices that section into the README text in place of the old one.
- **The user test-data factory** (`data_factory.py`). It builds timestamped
  unique emails and random passwords. A password gets its mandatory
  character classes, padding draws, and then a shuffle that repeatedly
  removes a chosen index. It also builds signup payloads with falsy defaults
  and extra fields.
- **The signup API objects** (`apiObjects/api_objects.py` and the older
  top-level `api_objects.py`). These are the POST operations and their
  endpoints, the resend-code rate-limit probe, and the email and
  default-payload helpers.
- **The pydantic schemas** (`schemas.py`). They cover the signup request,
  the success response, the error detail and the error response, plus the
  `validate_response_schema` and `assert_response_schema` helpers.

Module layout:

- `Wrappers` holds `Option` and `Outcome`.
- `Text` holds literal occurrence counting and decimal rendering.
- `JsonValues` and `Http` hold JSON values, requests and responses.
- `ReadmeSync`, `DataFactory`, `ApiObjects`, `RootApiObjects` and `Schemas`
  follow the source files.

Effects become parameters:

- The clock is a parameter: `timestamp`, `millis`, `seconds`.
- `secrets.choice` is the oracle `rand: nat -> nat`. The k-th draw of a call
  picks `options[rand(k) % |options|]`.
- The server is the oracle `server: nat -> Response`, the reply to the
  k-th call.
- Faker's name is the parameter `fakeName`.
- The README read is a `ReadmeFile`: `Missing`, `Unreadable` (any other read
  failure) or `Present(content)`. Whether the write back succeeds is the flag
  `writeOk`.

The model shows that the default payload of the top-level `api_objects.py`
never passes `SignupRequestSchema`. Its name "Test User <seconds>" always
holds a digit (`RootApiObjects.DefaultPayloadRefusedBySchema`).

## Model

| member | source | states |
|---|---|---|
| Text.CountMatchesIsOccurrences | sync_readme_test_results.py:35-38 | For a literal that cannot overlap itself, the resuming `findall` count equals the number of positions where the literal occurs |
| Text.CountMatchesPositive | sync_readme_test_results.py:45-50 | The `findall` count is non-zero exactly when the literal occurs, which is the condition of the `or` fallback |
| Text.SkipUnmatched | sync_readme_test_results.py:45-47 | Text in which the literal cannot start adds no match, whatever follows it |
| Text.NatToString | data_factory.py:29-30 | The decimal rendering of a natural is non-empty, all digits, and has no leading zero |
| Text.DigitsValueOfNatToString | data_factory.py:29-30 | Reading the decimal rendering back gives the number |
| Text.NatToStringInjective | data_factory.py:29-30 | Different numbers render differently |
| Text.CountMatches | sync_readme_test_results.py:35-38 | `len(re.findall(literal, output))`: the matches found never overlap, so they fit in the text; CountMatchesIsOccurrences and CountMatchesPositive state what is counted |
| ReadmeSync.TimeRun | sync_readme_test_results.py:41 | The greedy `[\d.]+` run is the longest prefix of time characters: all before it match, the next does not |
| ReadmeSync.TimeAt | sync_readme_test_results.py:41 | A group reported at a position is a real match of `in ([\d.]+)s` there |
| ReadmeSync.TimeAtFindsMatch | sync_readme_test_results.py:41 | Any match of the pattern at a position is the one TimeAt reports, so the group is unique |
| ReadmeSync.SearchTime | sync_readme_test_results.py:41-42 | `re.search` from a position: a reported group is a non-empty run that starts with a digit or dot; SearchTimeFindsLeftmost states which match it is |
| ReadmeSync.SearchTimeFindsLeftmost | sync_readme_test_results.py:41-42 | `re.search` reports the group of the leftmost match, and None only when no position starts a match |
| ReadmeSync.OrElse | sync_readme_test_results.py:45-50 | Python's `a or b` on counts: the result is a or b; it is non-zero exactly when one of them is; a non-zero a wins |
| ReadmeSync.ParseTestResults | sync_readme_test_results.py:31-64 | The counts are the occurrence counts of PASSED/FAILED/XFAIL/SKIPPED; total is their sum; the execution time is the leftmost match's group, or "N/A" exactly when nothing matches; the per-suite counts use the forward-slash id and fall back to the backslash id only when that count is zero; the timestamp is the clock reading |
| ReadmeSync.EmptyOutputStats | sync_readme_test_results.py:35-52 | Empty output gives all counts 0 and execution time "N/A" |
| ReadmeSync.VerificationIdIsNotSignupId | sync_readme_test_results.py:45-50 | A `test_signup_verification.py::` id adds nothing to the signup count, in either path form |
| ReadmeSync.NoSignupStartInVerification | sync_readme_test_results.py:45-50 | The signup id cannot start anywhere inside the verification id, with either separator |
| ReadmeSync.SectionOpening | sync_readme_test_results.py:72-80 | The section opens with the "## 📈 Test Execution Results" header |
| ReadmeSync.ResultsSection | sync_readme_test_results.py:67-97 | The section starts with the header and contains "{passed} passed", "{xfailed} xfailed (security issues documented)" and "**Total Tests**: {total}" |
| ReadmeSync.SectionIgnoresUnrenderedCounts | sync_readme_test_results.py:67-70 | The section does not depend on failed, skipped or the per-suite counts, because the status emoji is computed and discarded |
| ReadmeSync.SectionEnd | sync_readme_test_results.py:110 | The lazy section pattern `.*?` with its lookahead stops at the first "\n## " at or after its start, or at the end |
| ReadmeSync.SpliceCopies | sync_readme_test_results.py:113 | Text in which no header starts is copied unchanged by the substitution |
| ReadmeSync.ReplaceFirstSection | sync_readme_test_results.py:110-113 | Text before the first header is kept, the span from the header to the next "\n## " or the end becomes the new section, and substitution resumes there |
| ReadmeSync.ReplaceOnlySection | sync_readme_test_results.py:110-113 | With one header, the result is the text before it, the new section, and the text from the next "\n## " on, unchanged |
| ReadmeSync.ReplaceSection | sync_readme_test_results.py:110-113 | `re.sub` of the section pattern: without a header the content comes back unchanged and nothing is appended; with a header the new section appears in the result |
| ReadmeSync.UpdateReadme | sync_readme_test_results.py:100-127 | True exactly when the README was read and the write succeeded; a missing or unreadable README gives False and writes nothing; a README that was read is rewritten with ReplaceSection of its text, which is the old text when it has no header |
| DataFactory.UniqueEmail | data_factory.py:18-30 | The clock value read back out of `prefix_<ms>@domain` is the one it was built from |
| DataFactory.UniqueEmailInjective | data_factory.py:29-30 | For a fixed prefix and domain, distinct timestamps give distinct emails |
| DataFactory.DefaultUniqueEmail | data_factory.py:18 | The defaults are prefix "test" and domain "example.com" |
| DataFactory.Alphabet | data_factory.py:73-75 | Every fill character is a letter or digit, or a special only when specials are enabled |
| DataFactory.Choice | data_factory.py:63-69 | A draw returns a member of the options |
| DataFactory.RequiredChars | data_factory.py:62-69 | The mandatory part is one uppercase letter, one lowercase letter and one digit, plus one special when enabled |
| DataFactory.Fill | data_factory.py:72-77 | The padding has the requested count and draws only from the alphabet |
| DataFactory.PreShuffle | data_factory.py:62-77 | The list before the shuffle has length max(length, 4) with specials and max(length, 3) without; a negative remainder adds nothing; it has the classes in front and only alphabet characters |
| DataFactory.RemoveFirst | data_factory.py:86 | `list.remove` takes exactly one copy of the value out |
| DataFactory.PickRemoveFirst | data_factory.py:84-86 | Removing an index removes exactly its character from the characters still to be chosen |
| DataFactory.Shuffle | data_factory.py:81-87 | The shuffle takes each index exactly once; output position k holds the character at the k-th chosen index, so the output is a permutation of the input |
| DataFactory.RandomPassword | data_factory.py:47-87 | The password has the promised length, at least one uppercase letter, one lowercase letter and one digit, a special when enabled and none otherwise, and only alphabet characters; it is a permutation of the pre-shuffle list |
| DataFactory.MergePayload | data_factory.py:105-112 | `payload.update(kwargs)` keeps the three keys and adds every extra field with its value |
| DataFactory.CreateSignupPayload | data_factory.py:90-114 | The keys are exactly name, email and password plus the extras. A truthy argument is kept verbatim. None or "" is replaced by the Faker name, the default unique email for the clock, or a generated password meeting the password rules |
| ApiObjects.Endpoint | apiObjects/api_objects.py:7-9 | Every endpoint lies under the signup path "/api/authentication/signup/" |
| ApiObjects.Route | apiObjects/api_objects.py:7-9 | Routing a path gives an operation whose endpoint is that path, and no operation when no endpoint equals it |
| ApiObjects.RouteEndpoint | apiObjects/api_objects.py:7-9 | The three endpoints are distinct, so a path identifies its operation |
| ApiObjects.Send | apiObjects/api_objects.py:18-28 | One POST of the unchanged payload to the operation's own endpoint |
| ApiObjects.CreateUser | apiObjects/api_objects.py:18-20 | A POST of the unchanged payload to the signup endpoint |
| ApiObjects.ConfirmSignup | apiObjects/api_objects.py:22-24 | A POST of the unchanged payload to the confirm endpoint |
| ApiObjects.ResendConfirmationCode | apiObjects/api_objects.py:26-28 | A POST of the unchanged payload to the resend-code endpoint |
| ApiObjects.PyRangeShape | apiObjects/api_objects.py:44 | Python's `range(lo, hi)` has hi - lo elements (none when hi <= lo), and its k-th element is lo + k |
| ApiObjects.Cap | apiObjects/api_objects.py:44 | The loop bound is the length of `range(1, max_attempts + 1)`, which is max_attempts, or 0 when that is not positive |
| ApiObjects.LeadingOk | apiObjects/api_objects.py:44-49 | The length of the all-200 run opening the replies, capped: every reply before it is 200, and the reply at it is not 200 unless the cap is reached |
| ApiObjects.LeadingOkUnique | apiObjects/api_objects.py:44-49 | Those facts determine the count |
| ApiObjects.LeadingOkAllOk | apiObjects/api_objects.py:44-49 | The count reaches the cap exactly when every reply within the cap is 200 |
| ApiObjects.TestResendRateLimit | apiObjects/api_objects.py:30-57 | successful_attempts is the capped all-200 run. Calls made are cap + 1 when every loop call got 200, otherwise successful + 2, and never more than cap + 1. Every call sends the same {"email": email} to the resend endpoint. blocked_response is the reply to the last call. With max_attempts <= 0 there is one call and no success |
| ApiObjects.GenerateUniqueEmail | apiObjects/api_objects.py:59-63 | The clock value read back out of the email is the one it was built from |
| ApiObjects.SameEmailAsFactory | apiObjects/api_objects.py:59-63 | The client's email is the data factory's email for domain "example.com" |
| ApiObjects.DefaultPrefixes | apiObjects/api_objects.py:59-69 | The email default prefix is "test"; the payload's email uses "user" |
| ApiObjects.DefaultPayload | apiObjects/api_objects.py:65-74 | Exactly name, email and password; password "Password123!", name "Test User " + seconds, and an email whose clock value reads back |
| ApiObjects.DefaultPayloadNamesDiffer | apiObjects/api_objects.py:68-71 | Payloads built at different seconds have different names |
| RootApiObjects.CreateUser | api_objects.py:7-18 | The same request as the newer client's create_user: one POST to "/api/authentication/signup/" with the payload unchanged |
| RootApiObjects.GenerateUniqueEmail | api_objects.py:20-24 | The same email as the newer client's |
| RootApiObjects.DefaultPayload | api_objects.py:26-36 | Exactly four keys, and confirm_password equals password equals "Password123!" |
| RootApiObjects.DefaultPayloadExtendsNewer | api_objects.py:26-36 | The four-key payload is the three-key payload plus confirm_password |
| RootApiObjects.DefaultPayloadRefusedBySchema | api_objects.py:29-32 | The default name holds a digit, so the payload never passes the signup request schema |
| Schemas.ErrorText | schemas.py:84-85 | The validation message starts with the issue count, and every text found in an issue line is found in the message |
| Schemas.MismatchIsReported | schemas.py:29-30 | A mismatch issue appears in the message as "Passwords do not match" |
| Schemas.ItemsIssues | schemas.py:58 | The `errors` elements raise nothing exactly when every element is an object conforming to ErrorDetailSchema |
| Schemas.RequestIssues | schemas.py:11-31 | SignupRequestSchema raises nothing exactly when name is a 3..80 character string without digits, email is an email, and password and confirm_password are equal strings of at least 8 characters |
| Schemas.SuccessIssues | schemas.py:34-43 | SignupSuccessResponseSchema raises nothing exactly when message and code are strings, error is a bool, and data is absent, null or an object; other keys are allowed |
| Schemas.DetailIssues | schemas.py:46-51 | ErrorDetailSchema raises nothing exactly when message is a string and field and code are absent, null or strings |
| Schemas.ErrorResponseIssues | schemas.py:54-64 | SignupErrorResponseSchema raises nothing exactly when every field present has its type: error, message and detail strings or null, status_code an int or null, errors null or a list of conforming details |
| Schemas.Issues | schemas.py:11-64 | Each schema raises nothing exactly when its field-by-field rules hold |
| Schemas.ErrorsIssues | schemas.py:58 | `errors` passes when it is absent, null, or a list of conforming details |
| Schemas.MismatchReportedIff | schemas.py:26-31 | The mismatch is reported exactly when password passed its own rules, confirm_password passed its own, and the two differ |
| Schemas.ValidateResponseSchema | schemas.py:70-85 | (True, None) exactly when the data conforms, otherwise (False, a non-empty message) |
| Schemas.AssertResponseSchema | schemas.py:88-103 | Passes exactly when the data conforms; the failure message is "{error_message}: {error}" |
| Schemas.MismatchInMessage | schemas.py:26-31 | Differing valid passwords make validation fail with "Passwords do not match" in the message |
| Schemas.SuccessExampleValid | tests/test_utils.py:453-465 | A success response with a data object passes the assertion |
| Schemas.WrongFieldInvalid | tests/test_utils.py:494-504 | {"wrong_field": "value"} fails the success schema with a message |
| Schemas.EmptyErrorResponseValid | schemas.py:54-64 | Every error-response field is optional, so {} is valid |
| Schemas.RequestExampleValid | tests/test_utils.py:886-898 | A well-formed signup request passes |
| Schemas.NameWithDigitRefused | schemas.py:19-24 | Any name containing a digit is refused |
| Schemas.NameLengthRefused | schemas.py:14 | A name shorter than 3 or longer than 80 characters is refused |
| Schemas.ShortPasswordRefused | schemas.py:16 | A password shorter than 8 characters is refused |

## Left out

- The file and process I/O of `sync_readme_test_results.py` is left out: running pytest (12-28), reading and writing README.md (105-118), the printing and `main` (130-164). The captured output, the README text and the clock reading are parameters.
- `datetime.now().strftime(...)` (line 63) is not modelled. The formatted timestamp is a parameter.
- `time.time()` in both api_objects files and in data_factory.py is a parameter (`millis`, `seconds`). Readings before 1970 (negative) are not modelled. The relation between the two readings in `default_payload` is not modelled.
- `secrets.choice` is an oracle. Uniformity and unpredictability are not modelled.
- `UserDataFactory.random_name` wraps Faker, a foreign library, so its result is the parameter `fakeName`.
- The Playwright request context and the HTTP transport are not modelled. A request is a value and the server is a reply oracle.
- ReadmeSync.UpdateReadme: the failures that `except Exception` (125-127) turns into False are abstracted. A failed read (bytes that are not UTF-8, no permission, a directory named README.md) is the input `Unreadable`, and a failed write is `writeOk` false. A write that fails after truncating or partly writing the file is not modelled.
- ReadmeSync.ReplaceSection: the replacement text is taken literally. `re.sub` expands backslash escapes in it and raises `re.error` on an unknown one, which `update_readme` reports as False. The rendered section holds a backslash only if the timestamp string does.
- ReadmeSync.ParseTestResults: `\d` is taken as the ASCII digits; Python's `\d` on str also matches other Unicode decimal digits.
- Schemas.ValidateResponseSchema: the message only approximates pydantic's `str(ValidationError)`. It has a count line and one location/reason pair per issue, and the wording of the type errors differs.
- Schemas.Issues: pydantic's type coercion is replaced by strict types. Numbers or bools given for `str` fields and numeric strings for `int` fields are refused here. `EmailStr` is approximated by `IsEmail`. `str.isdigit` is taken as the ASCII digits.
- JSON numbers are integers only (`JInt`). A float such as `status_code: 400.0` or a float inside `data` cannot be given to the schema model, so pydantic's handling of floats for `int` fields is not modelled.
- DataFactory.CreateSignupPayload: extra fields named name, email or password are excluded by its precondition. Python binds those keywords to the parameters, so they can never reach `**kwargs`.
- The assertions in tests/test_utils.py that expect a ✅/❌ in the header (130, 150) or a section appended when the header is missing (220-249) are not modelled. The code does neither: the emoji at line 70 is discarded, and `re.sub` without a match changes nothing, which ReadmeSync.ReplaceSection states.
- `create_invalid_payload`, `random_email`, `random_phone_number`, `AttackVectorFactory` and `PerformanceAssertion` are used by tests/test_utils.py but are not part of this model: they do not appear in data_factory.py or schemas.py.
- decorators.py, config.py, reportportal_helpers.py, conftest.py and setup.py are glue (test marks, environment loading, logging, fixtures, installation). The scenario tests describe live-server behaviour. None of them is part of this model.
