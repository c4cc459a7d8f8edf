/**
 * The few PHP string built-ins the helper class relies on, in the byte-string
 * reading PHP gives them: `empty()`, `strtoupper()` and `explode()` with a limit of 2.
 */
module PhpStrings {
  import opened Wrappers

  /** A PHP string is a string of bytes: every character code is below 256. */
  predicate IsByteString(s: string) {
    forall i | 0 <= i < |s| :: s[i] as int < 256
  }

  type ByteString = s: string | IsByteString(s)

  /**
   * PHP's `empty()` applied to a lookup that may be missing: a missing value
   * (null), the empty string and the string "0" are all empty.
   */
  predicate IsEmpty(v: Option<string>)
    ensures IsEmpty(v) <==>
      v.None? || (|v.value| <= 1 && forall i | 0 <= i < |v.value| :: v.value[i] == '0')
  {
    assert v.Some? && |v.value| == 1 && v.value[0] == '0' ==> v.value == "0";
    v == None || v == Some("") || v == Some("0")
  }

  /** `strtoupper` on one byte in the "C" locale: only `a`..`z` change. */
  function UpperChar(c: char): char {
    if 'a' <= c <= 'z' then (c as int - 32) as char else c
  }

  /** `strtoupper`: upper-cases every ASCII letter and keeps every other byte. */
  function Upper(s: string): (r: string)
    ensures |r| == |s|
    ensures forall i :: 0 <= i < |s| ==> r[i] == UpperChar(s[i])
  {
    if s == [] then [] else [UpperChar(s[0])] + Upper(s[1..])
  }

  /** No lower-case ASCII letter occurs in `t`. */
  predicate HasNoLowerCase(t: string) {
    forall i | 0 <= i < |t| :: !('a' <= t[i] <= 'z')
  }

  /**
   * Comparing `Upper(s)` with an upper-case constant is a case-insensitive
   * comparison: each position of `s` holds the constant's character or, for a
   * letter, its lower-case form.
   */
  lemma {:induction false} UpperEqualsIff(s: string, t: string)
    requires HasNoLowerCase(t)
    ensures Upper(s) == t <==>
      |s| == |t| &&
      forall i :: 0 <= i < |s| ==>
        s[i] == t[i] || ('A' <= t[i] <= 'Z' && s[i] == (t[i] as int + 32) as char)
  {
    if Upper(s) == t {
      forall i | 0 <= i < |s|
        ensures s[i] == t[i] || ('A' <= t[i] <= 'Z' && s[i] == (t[i] as int + 32) as char)
      {
        assert UpperChar(s[i]) == t[i];
      }
    }
    if |s| == |t| && forall i :: 0 <= i < |s| ==>
        s[i] == t[i] || ('A' <= t[i] <= 'Z' && s[i] == (t[i] as int + 32) as char) {
      forall i | 0 <= i < |s| ensures Upper(s)[i] == t[i] {
        assert !('a' <= t[i] <= 'z');
      }
    }
  }

  /**
   * `list($head, $rest) = explode($d, $s, 2)`: the text before the first `d`
   * and, when `d` occurs, everything after it (which may contain further
   * `d`s). Without a `d` the second part is missing (null).
   */
  function SplitAtFirst(s: string, d: char): (parts: (string, Option<string>))
    ensures d !in parts.0
    ensures parts.1.None? ==> parts.0 == s
    ensures parts.1.Some? ==> s == parts.0 + [d] + parts.1.value
  {
    if s == [] then ([], None)
    else if s[0] == d then ([], Some(s[1..]))
    else
      var (head, rest) := SplitAtFirst(s[1..], d);
      ([s[0]] + head, rest)
  }

  /** The split is at the FIRST occurrence: a prefix free of `d` is recovered exactly. */
  lemma {:induction false} SplitAtFirstOfJoin(a: string, b: string, d: char)
    requires d !in a
    ensures SplitAtFirst(a + [d] + b, d) == (a, Some(b))
  {
    if a == [] {
      assert a + [d] + b == [d] + b;
      assert ([d] + b)[1..] == b;
    } else {
      assert (a + [d] + b)[1..] == a[1..] + [d] + b;
      SplitAtFirstOfJoin(a[1..], b, d);
      assert [a[0]] + a[1..] == a;
    }
  }

  /** A string free of `d` is not split at all. */
  lemma SplitAtFirstAbsent(s: string, d: char)
    requires d !in s
    ensures SplitAtFirst(s, d) == (s, None)
  {
  }
}
