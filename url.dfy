/**
 * URL text: PHP's `urlencode`/`urldecode` pair, and the reading of a query
 * string (or a form-encoded POST body) as raw, not yet percent-decoded
 * `name=value` pairs separated by `&`, which is how the receiving server
 * splits the URLs and bodies built by plain string concatenation.
 */
module Url {
  import opened Wrappers
  import opened PhpStrings

  /** Upper-case hexadecimal digit for `n`, as `urlencode` writes it. */
  function HexDigit(n: int): (c: char)
    requires 0 <= n < 16
    ensures HexValue(c) == Some(n)
  {
    if n < 10 then ('0' as int + n) as char else ('A' as int + n - 10) as char
  }

  /** The value of a hexadecimal digit of either case, as `urldecode` reads it. */
  function HexValue(c: char): Option<int> {
    if '0' <= c <= '9' then Some(c as int - '0' as int)
    else if 'a' <= c <= 'f' then Some(c as int - 'a' as int + 10)
    else if 'A' <= c <= 'F' then Some(c as int - 'A' as int + 10)
    else None
  }

  predicate IsAlphanumeric(c: char) {
    'a' <= c <= 'z' || 'A' <= c <= 'Z' || '0' <= c <= '9'
  }

  /** Characters `urlencode` leaves as they are. */
  predicate IsUnreserved(c: char) {
    IsAlphanumeric(c) || c == '-' || c == '_' || c == '.'
  }

  /** Characters that may appear in the output of `urlencode`. */
  predicate IsUrlEncodedChar(c: char) {
    IsUnreserved(c) || c == '%' || c == '+'
  }

  /** `urlencode` of one byte. */
  function UrlEncodeChar(c: char): (r: string)
    requires c as int < 256
    ensures forall i :: 0 <= i < |r| ==> IsUrlEncodedChar(r[i])
  {
    if IsUnreserved(c) then [c]
    else if c == ' ' then "+"
    else ['%', HexDigit(c as int / 16), HexDigit(c as int % 16)]
  }

  /**
   * `urlencode`: unreserved bytes stay, a space becomes `+`, every other byte
   * becomes `%` and two hexadecimal digits. The result holds no `&`, `=`, `?`,
   * `#` or quote, so it cannot end a query parameter or a quoted string.
   */
  function UrlEncode(s: ByteString): (r: string)
    ensures forall i :: 0 <= i < |r| ==> IsUrlEncodedChar(r[i])
  {
    if s == [] then [] else UrlEncodeChar(s[0]) + UrlEncode(s[1..])
  }

  /** `urldecode`: `+` is a space, `%` with two hex digits is that byte, anything else is kept. */
  function UrlDecode(s: string): string {
    if s == [] then []
    else if s[0] == '+' then " " + UrlDecode(s[1..])
    else if s[0] == '%' && |s| >= 3 && HexValue(s[1]).Some? && HexValue(s[2]).Some? then
      [(HexValue(s[1]).value * 16 + HexValue(s[2]).value) as char] + UrlDecode(s[3..])
    else [s[0]] + UrlDecode(s[1..])
  }

  lemma UrlDecodeEncodeChar(c: char, rest: string)
    requires c as int < 256
    ensures UrlDecode(UrlEncodeChar(c) + rest) == [c] + UrlDecode(rest)
  {
  }

  /** `urldecode` undoes `urlencode` on every byte string. */
  lemma {:induction false} UrlDecodeEncode(s: ByteString)
    ensures UrlDecode(UrlEncode(s)) == s
  {
    if s != [] {
      UrlDecodeEncodeChar(s[0], UrlEncode(s[1..]));
      UrlDecodeEncode(s[1..]);
      assert [s[0]] + s[1..] == s;
    }
  }

  /** `parts` joined with `d` between consecutive parts. */
  function Join(parts: seq<string>, d: char): string
    requires |parts| >= 1
  {
    if |parts| == 1 then parts[0] else parts[0] + [d] + Join(parts[1..], d)
  }

  /**
   * Every piece of `s` between occurrences of `d`, in order: the pieces hold
   * no `d`, and joining them with `d` gives `s` back.
   */
  function SplitAll(s: string, d: char): (parts: seq<string>)
    ensures |parts| >= 1
    ensures forall i :: 0 <= i < |parts| ==> d !in parts[i]
    ensures Join(parts, d) == s
    decreases |s|
  {
    var (head, rest) := SplitAtFirst(s, d);
    if rest.None? then [head]
    else
      var tail := SplitAll(rest.value, d);
      assert ([head] + tail)[1..] == tail;
      [head] + tail
  }

  /** Splitting at `d` takes a `d`-free prefix off as the first piece. */
  lemma SplitAllCons(a: string, b: string, d: char)
    requires d !in a
    ensures SplitAll(a + [d] + b, d) == [a] + SplitAll(b, d)
  {
    SplitAtFirstOfJoin(a, b, d);
  }

  /** A `d`-free string is a single piece. */
  lemma SplitAllAbsent(s: string, d: char)
    requires d !in s
    ensures SplitAll(s, d) == [s]
  {
  }

  /** One form field `name=value` read as a pair; a field without `=` has an empty value. */
  function PairOf(field: string): (string, string) {
    var (name, value) := SplitAtFirst(field, '=');
    (name, value.GetOr(""))
  }

  function PairsOf(fields: seq<string>): seq<(string, string)> {
    if fields == [] then [] else [PairOf(fields[0])] + PairsOf(fields[1..])
  }

  /** The raw (not yet percent-decoded) pairs of a form-encoded string. */
  function FormPairs(q: string): seq<(string, string)> {
    PairsOf(SplitAll(q, '&'))
  }

  /**
   * The pairs of the query of `url` as its server receives it: the fragment,
   * from the first `#` on, is never sent, and the query is the text after
   * the first `?` of what remains.
   */
  function QueryPairs(url: string): seq<(string, string)> {
    var (sent, _) := SplitAtFirst(url, '#');
    var (_, query) := SplitAtFirst(sent, '?');
    if query.None? then [] else FormPairs(query.value)
  }

  /** A pair written as `name=value`. */
  function Field(p: (string, string)): string {
    p.0 + "=" + p.1
  }

  /** Pairs written as `name=value` fields separated by `&`. */
  function EncodeForm(pairs: seq<(string, string)>): string
    requires |pairs| >= 1
  {
    if |pairs| == 1 then Field(pairs[0]) else Field(pairs[0]) + "&" + EncodeForm(pairs[1..])
  }

  /** A pair whose name holds neither `&` nor `=` and whose value holds no `&`. */
  predicate IsPlainPair(p: (string, string)) {
    '&' !in p.0 && '=' !in p.0 && '&' !in p.1
  }

  lemma PairOfField(p: (string, string))
    requires '=' !in p.0
    ensures PairOf(Field(p)) == p
  {
    SplitAtFirstOfJoin(p.0, p.1, '=');
    assert Field(p) == p.0 + ['='] + p.1;
  }

  /** Reading back form fields written by concatenation gives the pairs written. */
  lemma {:induction false} FormPairsOfEncoded(pairs: seq<(string, string)>)
    requires |pairs| >= 1
    requires forall i :: 0 <= i < |pairs| ==> IsPlainPair(pairs[i])
    ensures FormPairs(EncodeForm(pairs)) == pairs
  {
    var f := Field(pairs[0]);
    assert IsPlainPair(pairs[0]);
    assert '&' !in f by {
      assert f == pairs[0].0 + "=" + pairs[0].1;
    }
    PairOfField(pairs[0]);
    if |pairs| == 1 {
      SplitAllAbsent(f, '&');
      assert [f][1..] == [];
      assert PairsOf([f]) == [PairOf(f)];
      assert pairs == [pairs[0]];
    } else {
      var rest := EncodeForm(pairs[1..]);
      assert EncodeForm(pairs) == f + ['&'] + rest;
      SplitAllCons(f, rest, '&');
      FormPairsOfEncoded(pairs[1..]);
      assert ([f] + SplitAll(rest, '&'))[1..] == SplitAll(rest, '&');
      assert [pairs[0]] + pairs[1..] == pairs;
    }
  }

  /** A single plain field is read back as its pair. */
  lemma FormPairsSingle(p: (string, string))
    requires IsPlainPair(p)
    ensures FormPairs(Field(p)) == [p]
  {
    FormPairsOfEncoded([p]);
  }

  /** A plain field in front of a form is read back as the first pair. */
  lemma FormPairsCons(p: (string, string), rest: string)
    requires IsPlainPair(p)
    ensures FormPairs(Field(p) + "&" + rest) == [p] + FormPairs(rest)
  {
    assert '&' !in Field(p) by {
      assert Field(p) == p.0 + "=" + p.1;
    }
    assert Field(p) + "&" + rest == Field(p) + ['&'] + rest;
    SplitAllCons(Field(p), rest, '&');
    PairOfField(p);
    assert ([Field(p)] + SplitAll(rest, '&'))[1..] == SplitAll(rest, '&');
  }

  /** The query of a URL is read from the text after its first `?`. */
  lemma QueryPairsOfBase(base: string, q: string)
    requires '?' !in base
    requires '#' !in base && '#' !in q
    ensures QueryPairs(base + "?" + q) == FormPairs(q)
  {
    SplitAtFirstAbsent(base + "?" + q, '#');
    SplitAtFirstOfJoin(base, q, '?');
    assert base + "?" + q == base + ['?'] + q;
  }

  /** Neither the name nor the value of `p` holds `#`, so its field stays in the part of a URL that is sent. */
  predicate HasNoHash(p: (string, string)) {
    '#' !in p.0 && '#' !in p.1
  }

  /** The query of `base?a&b&c` read back. */
  lemma QueryPairsOfThree(base: string, a: (string, string), b: (string, string), c: (string, string))
    requires '?' !in base
    requires IsPlainPair(a) && IsPlainPair(b) && IsPlainPair(c)
    requires '#' !in base && HasNoHash(a) && HasNoHash(b) && HasNoHash(c)
    ensures QueryPairs(base + "?" + Field(a) + "&" + Field(b) + "&" + Field(c)) == [a, b, c]
  {
    var fa, fb, fc := Field(a), Field(b), Field(c);
    assert base + "?" + fa + "&" + fb + "&" + fc == base + "?" + (fa + "&" + (fb + "&" + fc));
    QueryPairsOfBase(base, fa + "&" + (fb + "&" + fc));
    FormPairsSingle(c);
    FormPairsCons(b, fc);
    FormPairsCons(a, fb + "&" + fc);
  }

  /** The query of `base?a&b&c&d` read back. */
  lemma QueryPairsOfFour(
    base: string, a: (string, string), b: (string, string), c: (string, string), d: (string, string))
    requires '?' !in base
    requires IsPlainPair(a) && IsPlainPair(b) && IsPlainPair(c) && IsPlainPair(d)
    requires '#' !in base && HasNoHash(a) && HasNoHash(b) && HasNoHash(c) && HasNoHash(d)
    ensures QueryPairs(base + "?" + Field(a) + "&" + Field(b) + "&" + Field(c) + "&" + Field(d)) == [a, b, c, d]
  {
    var fa, fb, fc, fd := Field(a), Field(b), Field(c), Field(d);
    assert base + "?" + fa + "&" + fb + "&" + fc + "&" + fd
        == base + "?" + (fa + "&" + (fb + "&" + (fc + "&" + fd)));
    QueryPairsOfBase(base, fa + "&" + (fb + "&" + (fc + "&" + fd)));
    FormPairsSingle(d);
    FormPairsCons(c, fd);
    FormPairsCons(b, fc + "&" + fd);
    FormPairsCons(a, fb + "&" + (fc + "&" + fd));
  }

  /** The form body `a&b&c&d&e` read back. */
  lemma FormPairsOfFive(
    a: (string, string), b: (string, string), c: (string, string), d: (string, string), e: (string, string))
    requires IsPlainPair(a) && IsPlainPair(b) && IsPlainPair(c) && IsPlainPair(d) && IsPlainPair(e)
    ensures FormPairs(Field(a) + "&" + Field(b) + "&" + Field(c) + "&" + Field(d) + "&" + Field(e))
         == [a, b, c, d, e]
  {
    var fa, fb, fc, fd, fe := Field(a), Field(b), Field(c), Field(d), Field(e);
    assert fa + "&" + fb + "&" + fc + "&" + fd + "&" + fe
        == fa + "&" + (fb + "&" + (fc + "&" + (fd + "&" + fe)));
    FormPairsSingle(e);
    FormPairsCons(d, fe);
    FormPairsCons(c, fd + "&" + fe);
    FormPairsCons(b, fc + "&" + (fd + "&" + fe));
    FormPairsCons(a, fb + "&" + (fc + "&" + (fd + "&" + fe)));
  }

  /** A URL with three parameters written as literal `?name=` / `&name=` pieces and values. */
  lemma RegroupThree(base: string, n1: string, v1: string, n2: string, v2: string, n3: string, v3: string)
    ensures base + ("?" + n1 + "=") + v1 + ("&" + n2 + "=") + v2 + ("&" + n3 + "=") + v3
         == base + "?" + Field((n1, v1)) + "&" + Field((n2, v2)) + "&" + Field((n3, v3))
  {
  }

  /** A URL with four parameters written as literal `?name=` / `&name=` pieces and values. */
  lemma RegroupFour(
    base: string, n1: string, v1: string, n2: string, v2: string, n3: string, v3: string,
    n4: string, v4: string)
    ensures base + ("?" + n1 + "=") + v1 + ("&" + n2 + "=") + v2 + ("&" + n3 + "=") + v3 + ("&" + n4 + "=") + v4
         == base + "?" + Field((n1, v1)) + "&" + Field((n2, v2)) + "&" + Field((n3, v3)) + "&" + Field((n4, v4))
  {
  }

  /** A form body with five fields written as literal `name=` / `&name=` pieces and values. */
  lemma RegroupFive(
    n1: string, v1: string, n2: string, v2: string, n3: string, v3: string,
    n4: string, v4: string, n5: string, v5: string)
    ensures (n1 + "=") + v1 + ("&" + n2 + "=") + v2 + ("&" + n3 + "=") + v3 + ("&" + n4 + "=") + v4
            + ("&" + n5 + "=") + v5
         == Field((n1, v1)) + "&" + Field((n2, v2)) + "&" + Field((n3, v3)) + "&" + Field((n4, v4))
            + "&" + Field((n5, v5))
  {
  }

  /** No output of `urlencode` contains `#`, so it never starts a fragment. */
  lemma UrlEncodedHasNoHash(s: ByteString)
    ensures '#' !in UrlEncode(s)
  {
  }

  /** No output of `urlencode` contains `&`, so it is a plain query value. */
  lemma UrlEncodedHasNoAmpersand(s: ByteString)
    ensures '&' !in UrlEncode(s)
  {
  }
}
