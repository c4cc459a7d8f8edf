# FBUtils login helper — a Dafny model

This project models the self-contained logic of `FBUtils`, the helper class a
sample web application uses to sign its users in with the platform's OAuth:

* **Signed-request verification** (`parse_signed_request`, `base64_url_decode`):
  a token `<signature>.<payload>` in URL-safe base64 (section 5 of RFC 4648) is
  split at its first `.`, translated back to the standard alphabet (section 4
  of RFC 4648), decoded, checked for an `algorithm` claim of `HMAC-SHA256`
  (case-insensitively), and its signature is compared with the HMAC-SHA256
  (RFC 2104) of the still-encoded payload segment under the application secret.
  Every failure yields `null`.
* **The login decision** (`login`): on the canvas (a `signed_request` is
  present) the token is taken from the verified signed request, after a
  redirect to the login dialog when the unverified payload has no `user_id`;
  on an external site the authorization-code flow of section 4.1 of RFC 6749
  runs, with a fresh `state` stored in a cookie and compared on the callback
  (section 10.12 of RFC 6749) before the code is exchanged for a token.

Modules, one per concern:

| file | module | what it holds |
|---|---|---|
| `wrappers.dfy` | `Wrappers` | `Option`, standing for PHP's `null` |
| `php_strings.dfy` | `PhpStrings` | `empty()`, `strtoupper`, `explode` with limit 2 |
| `url.dfy` | `Url` | `urlencode`/`urldecode`, and the reading of a query or form body as `name=value` pairs |
| `base64.dfy` | `Base64` | PHP's non-strict `base64_decode` and the standard encoder it inverts |
| `signed_request.dfy` | `SignedRequest` | `base64_url_decode`, `parse_signed_request`, signing as the platform does |
| `login.dfy` | `Login` | `LoginOutcome` (what one call does), the `Login` method performing it on a `Response` |

The environment is explicit. The request parameters and cookies are a
`Request`; `AppInfo` is an `AppConfig`; `md5(uniqid(rand(), TRUE))` is the
`freshState` argument; the token endpoint is a function from the POST to its
reply as `parse_str` reads it; `hash_hmac` and `json_decode` are the two
function fields of a `Library`, left uninterpreted. A call's effects (the
redirect script and the warning it echoes, the cookie it sets, the POST it
makes) are the fields of an `Outcome`, and the `Login` method appends exactly
those effects to a `Response` object.

Where this code departs from the usual account of the flow, the model follows
the code:

* The canvas redirect is only echoed; the call goes on to verify the signed
  request and return its `oauth_token` (`Login.CanvasBranch`).
* The state check is PHP's `===`, so a callback with a code but with neither a
  `state` parameter nor the state cookie passes it and reaches the token
  endpoint (`Login.MissingStateAndCookieAccepted`).
* The signature is compared with plain `!==`, not in constant time.
* The state cookie is set with an empty path (the current path), not `/`.
* `empty()` treats the string `"0"` as empty, so `signed_request=0` or
  `code=0` takes the "absent" branch.

## Model

| member | source | states |
|---|---|---|
| `PhpStrings.IsEmpty` | FBUtils.php:113-137 | `empty()` on a parameter or field holds exactly for null, the empty string and the one-character string `"0"` |
| `PhpStrings.Upper` | FBUtils.php:68 | `strtoupper` keeps the length, upper-cases each ASCII letter and leaves every other byte unchanged |
| `PhpStrings.UpperEqualsIff` | FBUtils.php:68 | comparing the upper-cased claim with an upper-case constant is a case-insensitive comparison, in both directions |
| `PhpStrings.SplitAtFirst` | FBUtils.php:62 | `explode('.', $s, 2)` gives the `.`-free text before the first `.` and, when there is one, everything after it; without a `.` the second part is null |
| `PhpStrings.SplitAtFirstOfJoin` | FBUtils.php:62 | the split is at the first `.`: a `.`-free prefix and the rest (further dots included) are recovered exactly |
| `Url.UrlEncode` | FBUtils.php:116-117 | `urlencode` output consists only of unreserved characters, `%` and `+`: no `&`, `=`, `?`, `#` or quote |
| `Url.UrlDecodeEncode` | FBUtils.php:116-117 | `urldecode` recovers the canvas page from its `urlencode` form, for every byte string |
| `Base64.DecodeSextets` | FBUtils.php:84 | the decoder yields three bytes per four alphabet characters, rounded down |
| `Base64.Sextets` | FBUtils.php:84 | the characters kept by non-strict decoding are never more than the input's, and are all of them when every character is in the alphabet |
| `Base64.Decode` | FBUtils.php:84 | `base64_decode` never yields more than three bytes per four input characters, and exactly that many when every character is in the alphabet |
| `Base64.SkipsForeignCharacter` | FBUtils.php:84 | non-strict `base64_decode` ignores any character outside the standard alphabet, wherever it stands |
| `Base64.DecodeEncode` | FBUtils.php:84 | `base64_decode` inverts standard padded base64 on every byte string |
| `SignedRequest.ToStandardAlphabet` | FBUtils.php:84 | `strtr($input, '-_', '+/')` keeps the length, maps `-` to `+` and `_` to `/`, and keeps every other character |
| `SignedRequest.Base64UrlDecode` | FBUtils.php:83-85 | `base64_url_decode` agrees with `base64_decode` on text without `-` and `_`, never yields more than three bytes per four characters, and exactly that many on URL-safe-alphabet text |
| `SignedRequest.Base64UrlRoundTrip` | FBUtils.php:83-85 | `base64_url_decode` inverts unpadded URL-safe base64 on every byte string, including bytes whose encoding uses `-` or `_` |
| `SignedRequest.ParseSignedRequest` | FBUtils.php:61-81 | whatever is returned as verified declares an `algorithm` that upper-cases to `HMAC-SHA256` |
| `SignedRequest.AlgorithmClaimIgnoresCase` | FBUtils.php:68-71 | the algorithm check accepts exactly the claims equal to `HMAC-SHA256` up to the case of its letters |
| `SignedRequest.AlgorithmCheckedFirst` | FBUtils.php:62-71 | with the payload after the first `.` (dots allowed), a claim other than HMAC-SHA256 rejects whatever the signature |
| `SignedRequest.SignatureMismatchRejected` | FBUtils.php:73-78 | with a valid claim, a signature other than the HMAC of the encoded payload segment under the secret is rejected |
| `SignedRequest.VerifiedIsPayloadData` | FBUtils.php:80 | when both checks pass, the result is the decoded payload data, unchanged |
| `SignedRequest.NoSeparatorRejected` | FBUtils.php:62-71 | a token without `.` is rejected: its missing payload decodes as the empty string, which is not JSON |
| `SignedRequest.SignedRequestAccepted` | FBUtils.php:61-81 | a request signed with the secret over a payload claiming HMAC-SHA256 verifies to that payload's data |
| `SignedRequest.TamperedSignatureRejected` | FBUtils.php:73-78 | replacing the signature by the encoding of any other byte string makes the same payload fail |
| `Login.LoginOutcome` | FBUtils.php:94-176 | a cookie is only set together with a redirect, and a token exchange never comes with a redirect, a warning or a cookie |
| `Login.CanvasBranch` | FBUtils.php:113-129 | a non-empty `signed_request` sets no cookie, makes no POST, redirects exactly when the unverified `user_id` is empty, and still returns the verified payload's `oauth_token`, null when verification fails |
| `Login.UnverifiedPayload` | FBUtils.php:119-121 | the payload decoded without verification is the one the verifier examines: whenever verification succeeds under some secret, its data is this payload, and a payload not claiming HMAC-SHA256 fails under every secret |
| `Login.CanvasAuthUrl` | FBUtils.php:116-117 | for an application id without `&` or `#`, the query the dialog receives (the fragment is never sent) splits into the raw, not yet percent-decoded pairs client id, URL-encoded canvas page and scope, and `urldecode` of the `redirect_uri` value gives the canvas page back |
| `Login.RedirectScript` | FBUtils.php:124 | for a URL without `'`, the string literal assigned to `top.location.href` in the echoed script is written as that URL |
| `Login.StateCookie` | FBUtils.php:141-148 | on the next request, with `$_COOKIE` built as PHP builds it (`setcookie` sets nothing for a name with a refused character and sends a deletion for an empty value; `.` and space in incoming names become `_`), the cookie named `<appId>-fb-app` is found under the name the state check looks up, holding the state, if and only if that name is plain and the state is non-empty; otherwise the check finds nothing |
| `Login.DigitAppIdIsPlain` | FBUtils.php:142 | for an all-digit application id, as the platform issues, the state cookie name is plain |
| `Login.UnplainCookieNameRejectsCallback` | FBUtils.php:141-174 | when the state cookie name is not plain (an application id with `.`, say), the callback returning the state with the browser's cookies echoes the CSRF warning, returns `false` and makes no POST |
| `Login.FirstVisitSetsState` | FBUtils.php:137-154 | with no code, one HTTP-only, session-long cookie under the state cookie name holds the fresh state, the login dialog is the redirect, no POST is made and `false` is returned |
| `Login.AuthorizeUrl` | FBUtils.php:150-151 | for an application id, home URL and state without `&` or `#`, the query the dialog receives splits into the raw, not yet percent-decoded pairs client id, home, state and scope |
| `Login.MatchingCallbackExchanges` | FBUtils.php:157-168 | a code with `state` identical to the cookie makes one POST to the token endpoint and returns the reply's `access_token` (null when missing) |
| `Login.ExchangeBody` | FBUtils.php:159-161 | for an application id, home URL, secret and code without `&`, the POST body splits into the raw, not yet percent-decoded pairs client id, home, secret, code and scope |
| `Login.MismatchedCallbackRejected` | FBUtils.php:171-174 | a code with `state` different from the cookie echoes the CSRF warning, returns `false` and makes no POST |
| `Login.ExchangeOnlyOnMatchingCallback` | FBUtils.php:137-174 | a token exchange happens if and only if there is no signed request, the code is non-empty and `state` equals the cookie |
| `Login.CookieOnlyOnFirstVisit` | FBUtils.php:137-154 | a cookie is set if and only if both the signed request and the code are empty |
| `Login.MissingStateAndCookieAccepted` | FBUtils.php:157 | a callback with a code but neither `state` nor cookie passes the `===` check and reaches the token endpoint |
| `Login.ExternalFlowRoundTrip` | FBUtils.php:137-168 | for a fresh state that is 32 lower-case hex digits (an `md5` result), an application id, home URL, secret and non-empty code without `&`, an application id and home URL without `#`, and a plain state cookie name: the state the first visit puts in its cookie and URL, returned with the cookies as PHP registers them and a code, leads to one POST whose `code` field is that code |
| `Login.Response.Echo` | FBUtils.php:124 | `echo` appends its text to the output and changes neither the cookies nor the POSTs |
| `Login.Response.SetCookie` | FBUtils.php:141-148 | `setcookie` appends one cookie and changes neither the output nor the POSTs |
| `Login.Response.Post` | FBUtils.php:158-164 | `curl_exec` of the POST records the request once and returns the endpoint's reply to it, leaving output and cookies alone |
| `Login.Login` | FBUtils.php:94-176 | performed step by step, the call echoes, sets cookies and posts exactly what `LoginOutcome` describes and returns its result |

## Left out

- `fetchFromFBGraph`, `fql` and `curl` (FBUtils.php:28-54): outbound HTTP requests and JSON decoding of the replies; they hold no logic of their own.
- `hash_hmac` and `json_decode`: foreign functions, kept as the uninterpreted fields of `Library`. A decoded payload keeps only its string-valued fields, and a JSON document that is not an object counts as a failed decode.
- `SignedRequest.Fields` holds string values only, so a non-string field reads as missing. A numeric `user_id` therefore counts as empty: the model echoes the canvas redirect where PHP, for a non-zero number, would not. A non-string `oauth_token` is returned as null where PHP returns the value. A non-string `algorithm` is rejected with `UnknownAlgorithm`, so `login` returns null; that matches PHP for a number, a boolean or null, but on PHP 8 an array- or object-valued claim such as `{"algorithm":[1]}` makes `strtoupper` throw a `TypeError` and ends the request, which the model does not capture.
- `parse_str` of the token reply: the endpoint is given as the parsed map it returns; transport failures are replies without `access_token`.
- `md5(uniqid(rand(), TRUE))`: randomness, passed in as `freshState`.
- `session_start`, `error_log` and the unused `$redirect` argument: no effect on the decision. The two failure kinds of `Verdict` stand for the two log messages.
- The HTTP form of `setcookie` and of the echoed `<script>`: the model records the cookie's arguments and the echoed text, not headers.
- `$_REQUEST` merging cookies into parameters, and array-valued parameters such as `state[]=`: request parameters are single optional strings.
- `strtoupper` is modelled in the "C" locale (ASCII letters only); other locales are not modelled.
- The PHP version modelled is PHP 8 throughout. `base64_decode` is modelled in its non-strict mode as PHP 7 and 8 implement it (padding and foreign characters skipped); older versions' treatment of `=` inside the text and of NUL bytes is not modelled.
- The canvas page is typed as a byte string (`PhpStrings.ByteString`), since `urlencode` works per byte; PHP strings always are.
- Constant-time comparison of signatures: the code uses plain `!==`, and so does the model.
- `Login.CanvasAuthUrl`: the application id is not encoded, so the reading back of the URL is proved only for an application id free of `&` (which would add parameters) and of `#` (which would start the fragment, never sent); the pairs are read raw, before the receiver's percent-decoding.
- `Login.AuthorizeUrl`: the URL is built by concatenation without encoding, so its reading back is proved only for an application id, home URL and state free of `&` and `#`; the pairs are read raw, before the receiver's percent-decoding.
- `Login.ExchangeBody`: the body is built by concatenation without encoding, so its reading back is proved only for an application id, home URL, secret and code free of `&`; the pairs are read raw, before the receiver's percent-decoding of `+` and `%XX`.
- `Login.ExternalFlowRoundTrip`: proved only for an `md5`-shaped fresh state, an application id, home URL, secret and code free of `&`, an application id and home URL free of `#`, for the reasons above, and a plain state cookie name; `Login.UnplainCookieNameRejectsCallback` gives the outcome for the other names.
- `Login.ReturnedCookies`: a cookie that `setcookie` did set is assumed to come back with the next request as set (not expired, refused or altered on the client side); PHP's reading of `[` in an incoming cookie name as an array subscript is not modelled (the state cookie name of a platform application id has none), and `setcookie`'s failure on a refused name is modelled as no cookie arriving, not as its warning or exception.
- `Login.RedirectScript`: the URL is not escaped inside the script; the contract gives the string literal written, for a URL free of `'`, not the navigation target, which a backslash (a JavaScript escape), a line break (which ends the literal with a syntax error) or `</script>` (which closes the element) in the URL would also change.
