/** The trimming that `addTask` applies to the text box before accepting a task:
    JavaScript's `String.prototype.trim`, which removes leading and trailing
    characters of the ECMAScript WhiteSpace and LineTerminator classes. */
module TaskText {

  /** ECMAScript WhiteSpace (TAB, VT, FF, SP, NBSP, ZWNBSP and the Unicode
      space separators) and LineTerminator (LF, CR, LS, PS), by code point. */
  predicate IsWhitespace(c: char)
    ensures c == ' ' || c == '\t' || c == '\n' || c == '\r' ==> IsWhitespace(c)
    ensures IsWhitespace(c) ==> !('0' <= c <= '9' || 'a' <= c <= 'z' || 'A' <= c <= 'Z')
  {
    var n := c as int;
    || 0x09 <= n <= 0x0D || n == 0x20 || n == 0xA0 || n == 0x1680
    || 0x2000 <= n <= 0x200A || n == 0x2028 || n == 0x2029 || n == 0x202F
    || n == 0x205F || n == 0x3000 || n == 0xFEFF
  }

  /** `s[lo..hi]` is all whitespace. */
  predicate BlankBetween(s: string, lo: nat, hi: nat)
    requires lo <= hi <= |s|
  {
    forall k :: lo <= k < hi ==> IsWhitespace(s[k])
  }

  predicate AllWhitespace(s: string) {
    BlankBetween(s, 0, |s|)
  }

  /** The first position at or after `i` that holds no whitespace (or the
      end): where the text starts once leading whitespace is dropped. */
  function SkipLeading(s: string, i: nat): (lo: nat)
    requires i <= |s|
    ensures i <= lo <= |s| && BlankBetween(s, i, lo)
    ensures lo < |s| ==> !IsWhitespace(s[lo])
    decreases |s| - i
  {
    if i == |s| || !IsWhitespace(s[i]) then i else SkipLeading(s, i + 1)
  }

  /** The last position at or before `j`, and not before `lo`, that follows
      no whitespace: where the text ends once trailing whitespace is dropped. */
  function SkipTrailing(s: string, lo: nat, j: nat): (hi: nat)
    requires lo <= j <= |s|
    ensures lo <= hi <= j && BlankBetween(s, hi, j)
    ensures hi > lo ==> !IsWhitespace(s[hi - 1])
    decreases j
  {
    if j == lo || !IsWhitespace(s[j - 1]) then j else SkipTrailing(s, lo, j - 1)
  }

  /** `String.prototype.trim`: the text between the leading and the trailing
      whitespace. It is empty exactly when `s` is blank, and otherwise starts
      and ends with a non-whitespace character. */
  function Trim(s: string): (r: string)
    ensures r == [] <==> AllWhitespace(s)
    ensures r != [] ==> !IsWhitespace(r[0]) && !IsWhitespace(r[|r| - 1])
  {
    var lo := SkipLeading(s, 0);
    var hi := SkipTrailing(s, lo, |s|);
    s[lo..hi]
  }

  /** Trimming cuts off whitespace at both ends and nothing else. */
  lemma TrimInfix(s: string)
    ensures exists lo, hi :: 0 <= lo <= hi <= |s| && Trim(s) == s[lo..hi]
                             && BlankBetween(s, 0, lo) && BlankBetween(s, hi, |s|)
  {
    var lo := SkipLeading(s, 0);
    var hi := SkipTrailing(s, lo, |s|);
    assert Trim(s) == s[lo..hi];
  }

  /** Text that neither starts nor ends with whitespace is accepted as it is. */
  lemma TrimUnpadded(s: string)
    requires s != [] && !IsWhitespace(s[0]) && !IsWhitespace(s[|s| - 1])
    ensures Trim(s) == s
  {
    assert SkipLeading(s, 0) == 0;
    assert SkipTrailing(s, 0, |s|) == |s|;
  }

  /** Trimming twice is trimming once. */
  lemma TrimIdempotent(s: string)
    ensures Trim(Trim(s)) == Trim(s)
  {
    var r := Trim(s);
    if r != [] {
      TrimUnpadded(r);
    }
  }
}
