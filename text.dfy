/**
 * The two .NET string operations that command normalisation applies to chat
 * text: String.Trim (drop leading and trailing white space as Char.IsWhiteSpace
 * defines it) and String.ToLower.
 */
module Text {

  /** Char.IsWhiteSpace: the Unicode space, line and paragraph separators, U+0009..U+000D and U+0085. */
  predicate IsWhiteSpace(c: char)
  {
    ('\U{0009}' <= c <= '\U{000D}') || c == '\U{0020}' || c == '\U{0085}' || c == '\U{00A0}' ||
    c == '\U{1680}' || ('\U{2000}' <= c <= '\U{200A}') || c == '\U{2028}' || c == '\U{2029}' ||
    c == '\U{202F}' || c == '\U{205F}' || c == '\U{3000}'
  }

  /** An upper-case letter that ToLower changes: A..Z and the Latin-1 capitals U+00C0..U+00DE except U+00D7. */
  predicate IsUpper(c: char)
  {
    ('A' <= c <= 'Z') || ('\U{00C0}' <= c <= '\U{00DE}' && c != '\U{00D7}')
  }

  function LowerChar(c: char): (d: char)
    ensures IsUpper(c) ==> d as int == c as int + 32
    ensures !IsUpper(c) ==> d == c
    ensures !IsUpper(d)
    ensures IsWhiteSpace(d) <==> IsWhiteSpace(c)
  {
    if IsUpper(c) then (c as int + 32) as char else c
  }

  /** A string in which ToLower has nothing left to change. */
  predicate IsLower(s: string)
  {
    forall i :: 0 <= i < |s| ==> !IsUpper(s[i])
  }

  /**
   * String.ToLower, character by character: each capital becomes its small
   * letter, every other character stays, so the result holds no capital and
   * keeps white space where it was; a string without capitals is left as it is
   * (hence lowering is idempotent).
   */
  function ToLower(s: string): (r: string)
    ensures |r| == |s| && IsLower(r)
    ensures forall i {:trigger r[i]} :: 0 <= i < |s| ==> (IsWhiteSpace(r[i]) <==> IsWhiteSpace(s[i]))
    ensures forall i {:trigger r[i]} :: 0 <= i < |s| && !IsUpper(s[i]) ==> r[i] == s[i]
    ensures forall i {:trigger r[i]} :: 0 <= i < |s| && IsUpper(s[i]) ==> r[i] as int == s[i] as int + 32
    ensures IsLower(s) ==> r == s
  {
    seq(|s|, i requires 0 <= i < |s| => LowerChar(s[i]))
  }

  /** The number of white-space characters at the front of s. */
  function LeadingWhiteSpace(s: string): (k: nat)
    ensures k <= |s|
    ensures forall i :: 0 <= i < k ==> IsWhiteSpace(s[i])
    ensures k < |s| ==> !IsWhiteSpace(s[k])
  {
    if |s| > 0 && IsWhiteSpace(s[0]) then 1 + LeadingWhiteSpace(s[1..]) else 0
  }

  /** The number of white-space characters at the back of s. */
  function TrailingWhiteSpace(s: string): (k: nat)
    ensures k <= |s|
    ensures forall i :: |s| - k <= i < |s| ==> IsWhiteSpace(s[i])
    ensures k < |s| ==> !IsWhiteSpace(s[|s| - 1 - k])
  {
    if |s| > 0 && IsWhiteSpace(s[|s| - 1]) then 1 + TrailingWhiteSpace(s[..|s| - 1]) else 0
  }

  /** String.Trim: the longest slice of s that neither starts nor ends with white space. */
  function Trim(s: string): (r: string)
    ensures exists lo, hi :: (0 <= lo <= hi <= |s| && r == s[lo..hi] &&
                               (forall i :: 0 <= i < lo ==> IsWhiteSpace(s[i])) &&
                               (forall i :: hi <= i < |s| ==> IsWhiteSpace(s[i])))
    ensures |r| > 0 ==> !IsWhiteSpace(r[0]) && !IsWhiteSpace(r[|r| - 1])
  {
    var lo := LeadingWhiteSpace(s);
    var hi := |s| - TrailingWhiteSpace(s[lo..]);
    assert s[lo..][..hi - lo] == s[lo..hi];
    s[lo..hi]
  }

  lemma {:induction false} LeadingWhiteSpaceOfLower(s: string)
    ensures LeadingWhiteSpace(ToLower(s)) == LeadingWhiteSpace(s)
  {
    if |s| > 0 {
      assert ToLower(s)[1..] == ToLower(s[1..]);
      LeadingWhiteSpaceOfLower(s[1..]);
    }
  }

  lemma {:induction false} TrailingWhiteSpaceOfLower(s: string)
    ensures TrailingWhiteSpace(ToLower(s)) == TrailingWhiteSpace(s)
  {
    if |s| > 0 {
      assert ToLower(s)[..|s| - 1] == ToLower(s[..|s| - 1]);
      TrailingWhiteSpaceOfLower(s[..|s| - 1]);
    }
  }

  /** Lowering commutes with slicing. */
  lemma ToLowerSlice(s: string, lo: nat, hi: nat)
    requires lo <= hi <= |s|
    ensures ToLower(s)[lo..hi] == ToLower(s[lo..hi])
  {
  }

  /** Lowering commutes with dropping a prefix. */
  lemma ToLowerSuffix(s: string, lo: nat)
    requires lo <= |s|
    ensures ToLower(s)[lo..] == ToLower(s[lo..])
  {
  }

  /** Trimming and lowering commute, because ToLower never creates or removes white space. */
  lemma TrimToLowerCommute(s: string)
    ensures Trim(ToLower(s)) == ToLower(Trim(s))
  {
    var lo, hi := TrimOfLower(s);
    ToLowerSlice(s, lo, hi);
  }

  /** Trim cuts a lowered string where it cuts the original. */
  lemma TrimOfLower(s: string) returns (lo: nat, hi: nat)
    ensures lo <= hi <= |s|
    ensures Trim(s) == s[lo..hi] && Trim(ToLower(s)) == ToLower(s)[lo..hi]
  {
    lo := LeadingWhiteSpace(s);
    hi := |s| - TrailingWhiteSpace(s[lo..]);
    TrimAt(s, lo, hi);
    var t := ToLower(s);
    LeadingWhiteSpaceOfLower(s);
    assert LeadingWhiteSpace(t) == lo;
    ToLowerSuffix(s, lo);
    assert t[lo..] == ToLower(s[lo..]);
    TrailingWhiteSpaceOfLower(s[lo..]);
    assert |t| - TrailingWhiteSpace(t[lo..]) == hi;
    TrimAt(t, lo, hi);
  }

  /** Trim keeps what lies between the leading and the trailing white space. */
  lemma TrimAt(t: string, lo: nat, hi: nat)
    requires lo <= hi <= |t| && LeadingWhiteSpace(t) == lo && |t| - TrailingWhiteSpace(t[lo..]) == hi
    ensures Trim(t) == t[lo..hi]
  {
  }

  /** Trim is idempotent. */
  lemma TrimIdempotent(s: string)
    ensures Trim(Trim(s)) == Trim(s)
  {
    var t := Trim(s);
    if |t| > 0 {
      assert LeadingWhiteSpace(t) == 0;
      assert TrailingWhiteSpace(t) == 0;
      assert t[0..|t|] == t;
    }
  }
}
