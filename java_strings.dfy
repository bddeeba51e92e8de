/**
 * The three pieces of java.lang.String / commons-lang behaviour that Metric relies on:
 * Character.isWhitespace (behind StringUtils.isBlank), String.trim and String.compareTo.
 */
module JavaStrings {

  /** Character.isWhitespace: the Unicode space, line and paragraph separators other than
      the no-break spaces U+00A0, U+2007 and U+202F, plus nine ASCII control characters. */
  predicate IsWhitespace(c: char) {
    ('\t' <= c <= '\r') || ('\U{001C}' <= c <= ' ')
    || c == '\U{1680}' || ('\U{2000}' <= c <= '\U{2006}') || ('\U{2008}' <= c <= '\U{200A}')
    || c == '\U{2028}' || c == '\U{2029}' || c == '\U{205F}' || c == '\U{3000}'
  }

  /** StringUtils.isBlank: empty, or made of whitespace only. */
  predicate IsBlank(s: string) {
    forall i :: 0 <= i < |s| ==> IsWhitespace(s[i])
  }

  /** The characters String.trim removes: every code point up to and including the space. */
  predicate IsTrimmed(c: char) {
    c <= ' '
  }

  /** Where String.trim's result starts: after the longest prefix of trimmable characters. */
  function TrimStartIndex(s: string): (st: nat)
    ensures st <= |s|
    ensures forall k :: 0 <= k < st ==> IsTrimmed(s[k])
    ensures st == |s| || !IsTrimmed(s[st])
  {
    if s != [] && IsTrimmed(s[0]) then 1 + TrimStartIndex(s[1..]) else 0
  }

  /** Where String.trim's result ends: before the longest suffix of trimmable characters
      that does not reach back past st. */
  function TrimEndIndex(s: string, st: nat): (len: nat)
    requires st <= |s|
    ensures st <= len <= |s|
    ensures forall k :: len <= k < |s| ==> IsTrimmed(s[k])
    ensures len == st || !IsTrimmed(s[len - 1])
  {
    if st < |s| && IsTrimmed(s[|s| - 1]) then TrimEndIndex(s[..|s| - 1], st) else |s|
  }

  /** String.trim: the piece of s between the leading and the trailing run of trimmable
      characters; it neither starts nor ends with one, and everything dropped after it is
      trimmable too. */
  function Trim(s: string): (r: string)
    ensures |r| <= |s| - TrimStartIndex(s) && r == s[TrimStartIndex(s)..TrimStartIndex(s) + |r|]
    ensures forall k :: TrimStartIndex(s) + |r| <= k < |s| ==> IsTrimmed(s[k])
    ensures r == [] || (!IsTrimmed(r[0]) && !IsTrimmed(r[|r| - 1]))
  {
    var st := TrimStartIndex(s);
    s[st..TrimEndIndex(s, st)]
  }

  /** Trimming gives the empty string exactly when every character is trimmable. */
  lemma TrimEmptyIff(s: string)
    ensures Trim(s) == [] <==> forall k :: 0 <= k < |s| ==> IsTrimmed(s[k])
  {
  }

  /** A string that neither starts nor ends with a trimmable character is its own trim. */
  lemma TrimFixed(s: string)
    requires s == [] || (!IsTrimmed(s[0]) && !IsTrimmed(s[|s| - 1]))
    ensures Trim(s) == s
  {
    assert TrimStartIndex(s) == 0;
    assert TrimEndIndex(s, 0) == |s|;
  }

  /** String.compareTo(a, b) < 0: the first differing character decides; if there is none,
      the shorter string comes first. */
  predicate Less(a: string, b: string) {
    if a == [] then b != []
    else if b == [] then false
    else if a[0] != b[0] then a[0] < b[0]
    else Less(a[1..], b[1..])
  }

  lemma {:induction false} LessIrreflexive(a: string)
    ensures !Less(a, a)
  {
    if a != [] {
      LessIrreflexive(a[1..]);
    }
  }

  lemma {:induction false} LessAsymmetric(a: string, b: string)
    ensures Less(a, b) ==> !Less(b, a)
  {
    if a != [] && b != [] && a[0] == b[0] {
      LessAsymmetric(a[1..], b[1..]);
    }
  }

  lemma {:induction false} LessTransitive(a: string, b: string, c: string)
    requires Less(a, b) && Less(b, c)
    ensures Less(a, c)
  {
    if a != [] && a[0] == b[0] && b[0] == c[0] {
      LessTransitive(a[1..], b[1..], c[1..]);
    }
  }

  /** compareTo is a total order: two different strings are ordered one way or the other. */
  lemma {:induction false} LessTotal(a: string, b: string)
    requires a != b
    ensures Less(a, b) || Less(b, a)
  {
    if a != [] && b != [] && a[0] == b[0] {
      assert a == [a[0]] + a[1..] && b == [b[0]] + b[1..];
      LessTotal(a[1..], b[1..]);
    }
  }
}
