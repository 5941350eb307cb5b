/**
 * Values, errors and the text search shared by the DAO model: the loosely typed
 * operands a caller hands to the criteria builders, the exceptions the modelled
 * code throws, the "blank" test of StringUtil/Spring's Assert, and the
 * first-occurrence search of String.indexOf and StringUtils.indexOfIgnoreCase.
 */
module Values {

  datatype Option<+T> = None | Some(value: T)

  datatype Result<+T> = Ok(value: T) | Err(error: Error)

  /** Outcome of an operation that returns nothing but may throw. */
  datatype Outcome = Pass | Fail(error: Error)

  /** One constructor per exception the modelled code throws. */
  datatype Error =
    | BlankPropertyName            // Assert.hasText on a property name
    | IndexOutOfBounds(index: int) // an array read past its end (ArrayIndexOutOfBoundsException)
    | MissingFrom                  // prepareCountHql: the query has no "from "
    | GroupByUnsupported           // prepareCountHql: the query has " group by "
    | DuplicateOrderBy             // appendOrderBy: the query already says "order by"
    | BlankQuery                   // createQuery: Assert.hasText on the query text
    | InvalidUuid                  // uncompress: the text is not 22 characters long
    | QueryFailed(reason: string)  // uniqueResult / list: the database or Hibernate threw

  /**
   * An operand as the DAO receives it, typed Object in the source: null, a
   * string, a number, or an Object[] / List of further operands.
   */
  datatype Value =
    | Null
    | Text(text: string)
    | Number(number: int)
    | Items(elements: seq<Value>)

  /** Character.isWhitespace. */
  predicate IsWhitespace(c: char) {
    || c == ' ' || c == '\t' || c == '\n' || c == '\r'
    || c == '\U{000B}' || c == '\U{000C}'
    || ('\U{001C}' <= c <= '\U{001F}')
    || c == '\U{1680}'
    || ('\U{2000}' <= c <= '\U{2006}')
    || ('\U{2008}' <= c <= '\U{200A}')
    || c == '\U{2028}' || c == '\U{2029}' || c == '\U{205F}' || c == '\U{3000}'
  }

  /** A string that is empty or all whitespace: what Assert.hasText rejects. */
  predicate IsBlankText(s: string) {
    forall i :: 0 <= i < |s| ==> IsWhitespace(s[i])
  }

  /** StringUtil.isBlank on an operand: null, or a string that is blank. */
  predicate IsBlank(v: Value) {
    v.Null? || (v.Text? && IsBlankText(v.text))
  }

  /** ASCII case folding, the only folding the patterns searched here depend on. */
  function LowerAscii(c: char): char {
    if 'A' <= c <= 'Z' then (c as int + 32) as char else c
  }

  /** String.toLowerCase, restricted to ASCII letters. */
  function LowerText(s: string): (r: string)
    ensures |r| == |s|
    ensures forall i :: 0 <= i < |s| ==> r[i] == LowerAscii(s[i])
  {
    seq(|s|, i requires 0 <= i < |s| => LowerAscii(s[i]))
  }

  predicate SameChar(a: char, b: char, ignoreCase: bool) {
    if ignoreCase then LowerAscii(a) == LowerAscii(b) else a == b
  }

  /** `pattern` occurs in `s` at index `i`. */
  predicate MatchesAt(s: string, i: int, pattern: string, ignoreCase: bool) {
    && 0 <= i
    && i + |pattern| <= |s|
    && forall j :: 0 <= j < |pattern| ==> SameChar(s[i + j], pattern[j], ignoreCase)
  }

  /**
   * The first index at or after `from` where `pattern` occurs, or -1:
   * String.indexOf(pattern, from), or StringUtils.indexOfIgnoreCase when
   * `ignoreCase` holds.
   */
  function IndexFrom(s: string, pattern: string, ignoreCase: bool, from: nat): (r: int)
    decreases |s| - from
    ensures r == -1 || (from <= r && MatchesAt(s, r, pattern, ignoreCase))
    ensures forall i :: from <= i && (r == -1 || i < r) ==> !MatchesAt(s, i, pattern, ignoreCase)
  {
    if from + |pattern| > |s| then -1
    else if MatchesAt(s, from, pattern, ignoreCase) then from
    else IndexFrom(s, pattern, ignoreCase, from + 1)
  }

  function IndexOf(s: string, pattern: string, ignoreCase: bool): (r: int)
    ensures r == -1 || MatchesAt(s, r, pattern, ignoreCase)
    ensures forall i :: 0 <= i && (r == -1 || i < r) ==> !MatchesAt(s, i, pattern, ignoreCase)
  {
    IndexFrom(s, pattern, ignoreCase, 0)
  }

  /** String.contains. */
  predicate Contains(s: string, pattern: string) {
    IndexOf(s, pattern, false) >= 0
  }

  /**
   * Searching the lower-cased text for a lower-case pattern finds the same
   * index as the case-insensitive search of the original text.
   */
  lemma {:induction false} LowerSearchIsCaseInsensitive(s: string, pattern: string, from: nat)
    requires forall j :: 0 <= j < |pattern| ==> LowerAscii(pattern[j]) == pattern[j]
    ensures IndexFrom(LowerText(s), pattern, false, from) == IndexFrom(s, pattern, true, from)
    decreases |s| - from
  {
    var t := LowerText(s);
    assert MatchesAt(t, from, pattern, false) <==> MatchesAt(s, from, pattern, true) by {
      if from + |pattern| <= |s| {
        forall j | 0 <= j < |pattern|
          ensures SameChar(t[from + j], pattern[j], false) <==> SameChar(s[from + j], pattern[j], true)
        {
          assert LowerAscii(LowerAscii(pattern[j])) == LowerAscii(pattern[j]);
        }
      }
    }
    if from + |pattern| <= |s| && !MatchesAt(s, from, pattern, true) {
      LowerSearchIsCaseInsensitive(s, pattern, from + 1);
    }
  }

  /**
   * StringUtils.substring(s, start, end) for the arguments it receives here:
   * the end is clamped to the length, and an end before the start gives "".
   */
  function Substring(s: string, start: nat, end: nat): (r: string)
    requires start <= |s|
    ensures |r| <= |s| - start
    ensures r <= s[start..]
  {
    var e := if end > |s| then |s| else end;
    if e <= start then "" else s[start..e]
  }

  /**
   * String.length(): the number of UTF-16 code units, where a character
   * outside the Basic Multilingual Plane takes two.
   */
  function Utf16Length(s: string): (r: nat)
    ensures |s| <= r <= 2 * |s|
  {
    if s == [] then 0 else (if s[0] as int >= 0x1_0000 then 2 else 1) + Utf16Length(s[1..])
  }

  /** A text of Basic Multilingual Plane characters has one code unit per character. */
  lemma {:induction false} Utf16LengthOfBmp(s: string)
    requires forall k :: 0 <= k < |s| ==> s[k] as int < 0x1_0000
    ensures Utf16Length(s) == |s|
  {
    if s != [] {
      Utf16LengthOfBmp(s[1..]);
    }
  }

  /** A text of characters outside the Basic Multilingual Plane has two code units per character. */
  lemma {:induction false} Utf16LengthOfSupplementary(s: string)
    requires forall k :: 0 <= k < |s| ==> s[k] as int >= 0x1_0000
    ensures Utf16Length(s) == 2 * |s|
  {
    if s != [] {
      Utf16LengthOfSupplementary(s[1..]);
    }
  }
}
