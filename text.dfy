/**
 * Text helpers used by the webhook: normalising the message body
 * (Python's `str.strip()` followed by `str.lower()`), upper-casing a
 * slot choice, extracting the caller identity from the `From` field
 * (`split(':')[-1]`), and joining / splitting lines.
 */
module Text {

  /** The characters Python's `str.isspace()` accepts, which `str.strip()` removes. */
  predicate IsSpace(c: char) {
    || c == ' '
    || ('\t' <= c <= '\r')
    || ('\U{1C}' <= c <= '\U{1F}')
    || c == '\U{85}' || c == '\U{A0}' || c == '\U{1680}'
    || ('\U{2000}' <= c <= '\U{200A}')
    || c == '\U{2028}' || c == '\U{2029}' || c == '\U{202F}' || c == '\U{205F}' || c == '\U{3000}'
  }

  predicate AllSpace(s: string) {
    forall k :: 0 <= k < |s| ==> IsSpace(s[k])
  }

  /** Number of whitespace characters at the start of `s`. */
  function LeadingSpace(s: string): (n: nat)
    ensures n <= |s|
    ensures AllSpace(s[..n])
    ensures n < |s| ==> !IsSpace(s[n])
  {
    if s == [] || !IsSpace(s[0]) then 0 else 1 + LeadingSpace(s[1..])
  }

  /** Number of whitespace characters at the end of `s`. */
  function TrailingSpace(s: string): (n: nat)
    ensures n <= |s|
    ensures AllSpace(s[|s| - n..])
    ensures n < |s| ==> !IsSpace(s[|s| - n - 1])
  {
    if s == [] || !IsSpace(s[|s| - 1]) then 0 else 1 + TrailingSpace(s[..|s| - 1])
  }

  /**
   * `s.strip()`: the result is a slice of `s` such that everything cut off on
   * either side is whitespace, and the result neither starts nor ends with it.
   */
  function Strip(s: string): (r: string)
    ensures exists i :: 0 <= i <= |s| - |r| && r == s[i..i + |r|] && AllSpace(s[..i]) && AllSpace(s[i + |r|..])
    ensures r == [] || (!IsSpace(r[0]) && !IsSpace(r[|r| - 1]))
  {
    var i := LeadingSpace(s);
    var t := s[i..];
    var j := TrailingSpace(t);
    var r := t[..|t| - j];
    assert r == s[i..i + |r|] && s[i + |r|..] == t[|t| - j..];
    assert AllSpace(s[..i]) && AllSpace(s[i + |r|..]);
    assert r != [] ==> r[0] == s[i] && r[|r| - 1] == t[|t| - j - 1];
    r
  }

  /** ASCII lower-casing of one character; every other character is left alone. */
  function LowerChar(c: char): char {
    if 'A' <= c <= 'Z' then (c as int + 32) as char else c
  }

  /** ASCII upper-casing of one character; every other character is left alone. */
  function UpperChar(c: char): char {
    if 'a' <= c <= 'z' then (c as int - 32) as char else c
  }

  /** `s.lower()`, restricted to ASCII letters. */
  function Lower(s: string): (r: string)
    ensures |r| == |s|
    ensures forall k :: 0 <= k < |s| ==> r[k] == LowerChar(s[k])
  {
    if s == [] then [] else [LowerChar(s[0])] + Lower(s[1..])
  }

  /** `s.upper()`, restricted to ASCII letters. */
  function Upper(s: string): (r: string)
    ensures |r| == |s|
    ensures forall k :: 0 <= k < |s| ==> r[k] == UpperChar(s[k])
  {
    if s == [] then [] else [UpperChar(s[0])] + Upper(s[1..])
  }

  /** The message as the webhook compares it: stripped, then lower-cased. */
  function Normalize(body: string): string {
    Lower(Strip(body))
  }

  /**
   * `s.split(':')[-1]`: the text after the last ':' of `s`, or all of `s`
   * when it has none.
   */
  function CallerId(s: string): (r: string)
    ensures ':' !in r
    ensures |r| <= |s| && r == s[|s| - |r|..]
    ensures |r| == |s| || s[|s| - |r| - 1] == ':'
    ensures ':' !in s ==> r == s
  {
    if s == [] then []
    else if s[|s| - 1] == ':' then []
    else
      var init := s[..|s| - 1];
      var r := CallerId(init) + [s[|s| - 1]];
      assert init[|init| - |CallerId(init)|..] + [s[|s| - 1]] == s[|s| - |r|..];
      r
  }

  /**
   * Only one text is a colon-free suffix of `s` that is either all of `s` or
   * preceded by ':'.
   */
  lemma CallerIdUnique(s: string, r: string)
    requires ':' !in r && |r| <= |s| && r == s[|s| - |r|..]
    requires |r| == |s| || s[|s| - |r| - 1] == ':'
    ensures r == CallerId(s)
  {
  }

  /**
   * The last piece of `s.split(c)`: a suffix of `s` without `c` that is
   * either all of `s` or preceded by `c`.
   */
  lemma {:induction false} SplitLast(s: string, c: char)
    ensures var r := Split(s, c); var l := r[|r| - 1];
      |l| <= |s| && l == s[|s| - |l|..] && (|l| == |s| || s[|s| - |l| - 1] == c)
  {
    if s != [] {
      var t := s[1..];
      var rest := Split(t, c);
      SplitLast(t, c);
      var lt := rest[|rest| - 1];
      assert s[|s| - |lt|..] == t[|t| - |lt|..];
      if s[0] != c && |rest| == 1 {
        assert Join(rest, [c]) == rest[0];
        assert [s[0]] + rest[0] == s;
      }
    }
  }

  /** The caller id is literally the last piece of `From.split(':')`. */
  lemma CallerIdIsLastPiece(s: string)
    ensures CallerId(s) == Split(s, ':')[|Split(s, ':')| - 1]
  {
    SplitLast(s, ':');
    var r := Split(s, ':');
    CallerIdUnique(s, r[|r| - 1]);
  }

  /** `sep.join(parts)`. */
  function Join(parts: seq<string>, sep: string): string {
    if |parts| == 0 then []
    else if |parts| == 1 then parts[0]
    else parts[0] + sep + Join(parts[1..], sep)
  }

  /**
   * `s.split(c)` for a one-character separator: the pieces between the
   * separators, which never contain it and which `Join` puts back together.
   */
  function Split(s: string, c: char): (r: seq<string>)
    ensures |r| > 0
    ensures forall k :: 0 <= k < |r| ==> c !in r[k]
    ensures Join(r, [c]) == s
  {
    if s == [] then [[]]
    else
      var rest := Split(s[1..], c);
      if s[0] == c then
        assert Join([[]] + rest, [c]) == [c] + Join(rest, [c]);
        [[]] + rest
      else
        var r := [[s[0]] + rest[0]] + rest[1..];
        assert |rest| > 1 ==> Join(rest, [c]) == rest[0] + [c] + Join(rest[1..], [c]);
        assert r[1..] == rest[1..];
        r
  }

  /** A first character other than the separator starts the first piece. */
  lemma SplitCons(x: char, t: string, c: char)
    requires x != c
    ensures Split([x] + t, c) == [[x] + Split(t, c)[0]] + Split(t, c)[1..]
  {
    assert ([x] + t)[0] == x && ([x] + t)[1..] == t;
  }

  /** Splitting a separator-free prefix onto the front of `s` glues it to the first piece. */
  lemma {:induction false} SplitPrefix(p: string, s: string, c: char)
    requires c !in p
    ensures Split(p + s, c) == [p + Split(s, c)[0]] + Split(s, c)[1..]
  {
    var r := Split(s, c);
    if p == [] {
      assert p + s == s && p + r[0] == r[0];
      assert [r[0]] + r[1..] == r;
    } else {
      SplitPrefix(p[1..], s, c);
      assert p + s == [p[0]] + (p[1..] + s);
      SplitCons(p[0], p[1..] + s, c);
      assert [p[0]] + (p[1..] + r[0]) == p + r[0];
    }
  }

  /** Round trip: splitting a join of separator-free pieces gives the pieces back. */
  lemma {:induction false} SplitJoin(parts: seq<string>, c: char)
    requires |parts| > 0
    requires forall k :: 0 <= k < |parts| ==> c !in parts[k]
    ensures Split(Join(parts, [c]), c) == parts
  {
    if |parts| == 1 {
      SplitPrefix(parts[0], [], c);
      assert parts[0] + [] == parts[0];
    } else {
      var tail := Join(parts[1..], [c]);
      SplitJoin(parts[1..], c);
      assert parts[0] + [c] + tail == parts[0] + ([c] + tail);
      SplitPrefix(parts[0], [c] + tail, c);
      assert ([c] + tail)[0] == c && ([c] + tail)[1..] == tail;
      assert Split([c] + tail, c) == [[]] + parts[1..];
      assert parts[0] + [] == parts[0];
      assert parts == [parts[0]] + parts[1..];
    }
  }

  /** Upper-casing after lower-casing is the same as upper-casing: slot matching ignores case. */
  lemma UpperOfLower(s: string)
    ensures Upper(Lower(s)) == Upper(s)
  {
  }
}
