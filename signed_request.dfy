/**
 * Verification of a signed request: `<signature>.<payload>`, both segments in
 * the URL-safe base64 alphabet (section 5 of RFC 4648), the signature being
 * the HMAC-SHA256 (RFC 2104) of the still-encoded payload segment under the
 * application secret. Every failure yields PHP's `null`; the kind of failure
 * is kept only because the two failures are logged differently.
 */
module SignedRequest {
  import opened Wrappers
  import opened PhpStrings
  import opened Base64

  /** A decoded JSON object, reduced to its string-valued fields. */
  type Fields = map<string, string>

  /**
   * The foreign functions the verifier calls, left uninterpreted:
   * `hmacSha256(key, message)` is `hash_hmac('sha256', message, key, true)`,
   * `jsonDecode` is `json_decode(..., true)`, None when the text is not a JSON object.
   */
  datatype Library = Library(
    hmacSha256: (string, string) -> seq<byte>,
    jsonDecode: seq<byte> -> Option<Fields>)

  /** The only algorithm accepted. */
  const Algorithm: string := "HMAC-SHA256"

  /** Outcome of `parse_signed_request`; both failures are `null` to the caller. */
  datatype Verdict = Verified(data: Fields) | UnknownAlgorithm | BadSignature {
    /** The value PHP returns: the data array, or None for `null`. */
    function AsPhpValue(): Option<Fields> {
      if Verified? then Some(data) else None
    }
  }

  /** `$data[key]` on a decoded payload that may be null or lack the key. */
  function Lookup(data: Option<Fields>, key: string): Option<string> {
    if data.Some? && key in data.value then Some(data.value[key]) else None
  }

  /** `strtoupper($data['algorithm']) === 'HMAC-SHA256'`; a missing field reads as "". */
  predicate ClaimsHmacSha256(data: Option<Fields>) {
    Upper(Lookup(data, "algorithm").GetOr("")) == Algorithm
  }

  /** `strtr($input, '-_', '+/')` on one character. */
  function StandardChar(c: char): char {
    if c == '-' then '+' else if c == '_' then '/' else c
  }

  /**
   * `strtr($input, '-_', '+/')`: the URL-safe alphabet back to the standard
   * one. Length is preserved, `-` becomes `+`, `_` becomes `/`, and every
   * other character is kept.
   */
  function ToStandardAlphabet(s: string): (r: string)
    ensures |r| == |s|
    ensures forall i :: 0 <= i < |s| ==> r[i] == StandardChar(s[i])
  {
    if s == [] then [] else [StandardChar(s[0])] + ToStandardAlphabet(s[1..])
  }

  /** The URL-safe form of one standard-alphabet character. */
  function UrlSafeChar(c: char): char {
    if c == '+' then '-' else if c == '/' then '_' else c
  }

  /** The standard alphabet to the URL-safe one, the inverse translation. */
  function ToUrlAlphabet(s: string): (r: string)
    ensures |r| == |s|
    ensures forall i :: 0 <= i < |s| ==> r[i] == UrlSafeChar(s[i])
  {
    if s == [] then [] else [UrlSafeChar(s[0])] + ToUrlAlphabet(s[1..])
  }

  /**
   * `base64_url_decode`. It reads text without `-` and `_` exactly as plain
   * `base64_decode` does, and yields three bytes for every four characters,
   * rounded down, when every character is in the URL-safe alphabet.
   */
  function Base64UrlDecode(input: string): (r: seq<byte>)
    ensures '-' !in input && '_' !in input ==> r == Base64.Decode(input)
    ensures |r| <= |input| * 3 / 4
    ensures (forall i | 0 <= i < |input| :: SextetOf(StandardChar(input[i])).Some?) ==>
      |r| == |input| * 3 / 4
  {
    var std := ToStandardAlphabet(input);
    assert '-' !in input && '_' !in input ==> std == input;
    assert (forall i | 0 <= i < |input| :: SextetOf(StandardChar(input[i])).Some?) ==> InAlphabet(std);
    Base64.Decode(std)
  }

  /** Unpadded URL-safe base64, the form in which the platform sends both segments. */
  function Base64UrlEncode(x: seq<byte>): (s: string)
    ensures '.' !in s
  {
    ToUrlAlphabet(Chars(EncodeSextets(x)))
  }

  /**
   * `parse_signed_request($signed_request, $secret)`. The token is split at
   * its first `.`; a missing payload segment reads as "". The algorithm claim
   * is checked before the signature, and the signature is compared with the
   * HMAC of the payload segment as sent, not of its decoded bytes.
   */
  function ParseSignedRequest(signedRequest: string, secret: string, lib: Library): (v: Verdict)
    ensures v.Verified? ==> "algorithm" in v.data && Upper(v.data["algorithm"]) == Algorithm
  {
    var (encodedSig, rest) := SplitAtFirst(signedRequest, '.');
    var payload := rest.GetOr("");
    var sig := Base64UrlDecode(encodedSig);
    var data := lib.jsonDecode(Base64UrlDecode(payload));
    if !ClaimsHmacSha256(data) then UnknownAlgorithm
    else if sig != lib.hmacSha256(secret, payload) then BadSignature
    else Verified(data.value)
  }

  /** A signed request as the platform builds it for `payload` and `secret`. */
  function Sign(payload: string, secret: string, lib: Library): string {
    Base64UrlEncode(lib.hmacSha256(secret, payload)) + "." + payload
  }

  /** The data of the payload segment, decoded but not verified. */
  function PayloadData(payload: string, lib: Library): Option<Fields> {
    lib.jsonDecode(Base64UrlDecode(payload))
  }

  /**
   * The algorithm claim is compared case-insensitively: it must have the
   * length of "HMAC-SHA256", and each position holds that character or, for
   * a letter, its lower-case form.
   */
  lemma AlgorithmClaimIgnoresCase(data: Fields)
    ensures ClaimsHmacSha256(Some(data)) <==>
      "algorithm" in data && |data["algorithm"]| == |Algorithm| &&
      forall i :: 0 <= i < |Algorithm| ==>
        data["algorithm"][i] == Algorithm[i] ||
        ('A' <= Algorithm[i] <= 'Z' && data["algorithm"][i] == (Algorithm[i] as int + 32) as char)
  {
    if "algorithm" in data {
      UpperEqualsIff(data["algorithm"], Algorithm);
    } else {
      assert Upper("") == "";
    }
  }

  /**
   * Only the first `.` separates the segments: for a signature segment free
   * of `.`, the payload segment is everything after it, dots included, and
   * an algorithm claim other than HMAC-SHA256 rejects whatever the signature.
   */
  lemma AlgorithmCheckedFirst(encodedSig: string, payload: string, secret: string, lib: Library)
    requires '.' !in encodedSig
    requires !ClaimsHmacSha256(PayloadData(payload, lib))
    ensures ParseSignedRequest(encodedSig + "." + payload, secret, lib) == UnknownAlgorithm
  {
    SplitAtFirstOfJoin(encodedSig, payload, '.');
  }

  /**
   * With a valid algorithm claim, a signature that is not the HMAC of the
   * encoded payload segment under `secret` is rejected.
   */
  lemma SignatureMismatchRejected(encodedSig: string, payload: string, secret: string, lib: Library)
    requires '.' !in encodedSig
    requires ClaimsHmacSha256(PayloadData(payload, lib))
    requires Base64UrlDecode(encodedSig) != lib.hmacSha256(secret, payload)
    ensures ParseSignedRequest(encodedSig + "." + payload, secret, lib) == BadSignature
  {
    SplitAtFirstOfJoin(encodedSig, payload, '.');
  }

  /** When both checks pass, the result is the decoded payload data, unchanged. */
  lemma VerifiedIsPayloadData(encodedSig: string, payload: string, secret: string, lib: Library)
    requires '.' !in encodedSig
    requires ClaimsHmacSha256(PayloadData(payload, lib))
    requires Base64UrlDecode(encodedSig) == lib.hmacSha256(secret, payload)
    ensures PayloadData(payload, lib).Some?
    ensures ParseSignedRequest(encodedSig + "." + payload, secret, lib)
         == Verified(PayloadData(payload, lib).value)
  {
    SplitAtFirstOfJoin(encodedSig, payload, '.');
    assert Upper("") == "";
  }

  /**
   * A token without a `.` has no payload segment; it decodes as the empty
   * string, which is not JSON, so the token is rejected for its algorithm.
   */
  lemma NoSeparatorRejected(signedRequest: string, secret: string, lib: Library)
    requires '.' !in signedRequest
    requires lib.jsonDecode([]) == None
    ensures ParseSignedRequest(signedRequest, secret, lib) == UnknownAlgorithm
  {
  }

  /** The URL-safe translation undone: every standard-alphabet character survives the round trip. */
  lemma {:induction false} StandardOfUrlSafe(s: string)
    requires forall i :: 0 <= i < |s| ==> s[i] != '-' && s[i] != '_'
    ensures ToStandardAlphabet(ToUrlAlphabet(s)) == s
  {
    var r := ToStandardAlphabet(ToUrlAlphabet(s));
    forall i | 0 <= i < |s| ensures r[i] == s[i] {
      assert ToUrlAlphabet(s)[i] == UrlSafeChar(s[i]);
    }
  }

  /** `base64_url_decode` inverts unpadded URL-safe base64 on every byte string. */
  lemma Base64UrlRoundTrip(x: seq<byte>)
    ensures Base64UrlDecode(Base64UrlEncode(x)) == x
  {
    var std := Chars(EncodeSextets(x));
    StandardOfUrlSafe(std);
    SextetsOfChars(EncodeSextets(x));
    DecodeEncodeSextets(x);
  }

  /**
   * A request signed with `secret` over a payload claiming HMAC-SHA256 is
   * accepted, and its data is the payload's data.
   */
  lemma SignedRequestAccepted(payload: string, secret: string, lib: Library)
    requires ClaimsHmacSha256(PayloadData(payload, lib))
    ensures PayloadData(payload, lib).Some?
    ensures ParseSignedRequest(Sign(payload, secret, lib), secret, lib)
         == Verified(PayloadData(payload, lib).value)
  {
    var mac := lib.hmacSha256(secret, payload);
    Base64UrlRoundTrip(mac);
    VerifiedIsPayloadData(Base64UrlEncode(mac), payload, secret, lib);
  }

  /**
   * Replacing the signature by the encoding of any other byte string (one
   * flipped byte, say) makes the same payload fail verification.
   */
  lemma TamperedSignatureRejected(forged: seq<byte>, payload: string, secret: string, lib: Library)
    requires ClaimsHmacSha256(PayloadData(payload, lib))
    requires forged != lib.hmacSha256(secret, payload)
    ensures ParseSignedRequest(Base64UrlEncode(forged) + "." + payload, secret, lib) == BadSignature
  {
    Base64UrlRoundTrip(forged);
    SignatureMismatchRejected(Base64UrlEncode(forged), payload, secret, lib);
  }
}
