/** The string operations the search box relies on: `toLowerCase`, `trim` and `includes`. */
module Text {

  /** The characters `String.prototype.trim` removes: ECMAScript WhiteSpace and LineTerminator. */
  predicate IsJsWhitespace(c: char) {
    c == '\t' || c == '\n' || c == '\U{B}' || c == '\U{C}' || c == '\r' || c == ' '
    || c == '\U{A0}' || c == '\U{1680}' || ('\U{2000}' <= c <= '\U{200A}')
    || c == '\U{2028}' || c == '\U{2029}' || c == '\U{202F}' || c == '\U{205F}'
    || c == '\U{3000}' || c == '\U{FEFF}'
  }

  predicate IsUpperAscii(c: char) {
    'A' <= c <= 'Z'
  }

  function LowerChar(c: char): char {
    if IsUpperAscii(c) then (c as int + 32) as char else c
  }

  /** `toLowerCase`, restricted to the ASCII letters. */
  function ToLower(s: string): (r: string)
    ensures |r| == |s|
  {
    if s == [] then [] else [LowerChar(s[0])] + ToLower(s[1..])
  }

  /** Lowercasing leaves no upper-case letter, moves each upper-case letter to its lower-case
      partner and keeps every other character. */
  lemma {:induction false} ToLowerSpec(s: string)
    ensures forall i :: 0 <= i < |s| ==> !IsUpperAscii(ToLower(s)[i])
    ensures forall i :: 0 <= i < |s| && !IsUpperAscii(s[i]) ==> ToLower(s)[i] == s[i]
    ensures forall i :: 0 <= i < |s| && IsUpperAscii(s[i]) ==> ToLower(s)[i] as int == s[i] as int + 32
  {
    if s != [] {
      ToLowerSpec(s[1..]);
      assert forall i :: 1 <= i < |s| ==> ToLower(s)[i] == ToLower(s[1..])[i - 1] && s[i] == s[1..][i - 1];
    }
  }

  /** Lowercasing twice is lowercasing once, so a lowercased query is a fixed point. */
  lemma {:induction false} ToLowerIdempotent(s: string)
    ensures ToLower(ToLower(s)) == ToLower(s)
  {
    if s != [] {
      ToLowerIdempotent(s[1..]);
      assert ToLower(s)[1..] == ToLower(s[1..]);
    }
  }

  /** `trimStart`: drops the leading whitespace. */
  function TrimStart(s: string): string {
    if |s| > 0 && IsJsWhitespace(s[0]) then TrimStart(s[1..]) else s
  }

  /** `trimEnd`: drops the trailing whitespace. */
  function TrimEnd(s: string): string {
    if |s| > 0 && IsJsWhitespace(s[|s| - 1]) then TrimEnd(s[..|s| - 1]) else s
  }

  /** What `trimStart` leaves is a suffix; everything it drops is whitespace, and it keeps the
      first character that is not. */
  lemma {:induction false} TrimStartSpec(s: string)
    ensures |TrimStart(s)| <= |s| && TrimStart(s) == s[|s| - |TrimStart(s)|..]
    ensures forall i :: 0 <= i < |s| - |TrimStart(s)| ==> IsJsWhitespace(s[i])
    ensures TrimStart(s) == [] || !IsJsWhitespace(TrimStart(s)[0])
  {
    if |s| > 0 && IsJsWhitespace(s[0]) {
      TrimStartSpec(s[1..]);
      assert forall i :: 1 <= i < |s| ==> s[i] == s[1..][i - 1];
    }
  }

  /** What `trimEnd` leaves is a prefix; everything it drops is whitespace, and it keeps the
      last character that is not. */
  lemma {:induction false} TrimEndSpec(s: string)
    ensures |TrimEnd(s)| <= |s| && TrimEnd(s) == s[..|TrimEnd(s)|]
    ensures forall i :: |TrimEnd(s)| <= i < |s| ==> IsJsWhitespace(s[i])
    ensures TrimEnd(s) == [] || !IsJsWhitespace(TrimEnd(s)[|TrimEnd(s)| - 1])
  {
    if |s| > 0 && IsJsWhitespace(s[|s| - 1]) {
      TrimEndSpec(s[..|s| - 1]);
    }
  }

  /** `s[lo..hi]` is what trimming `s` leaves: only whitespace lies outside it, and it neither
      starts nor ends with whitespace. */
  ghost predicate IsTrimmingOf(s: string, lo: int, hi: int) {
    0 <= lo <= hi <= |s|
    && (forall k :: 0 <= k < lo ==> IsJsWhitespace(s[k]))
    && (forall k :: hi <= k < |s| ==> IsJsWhitespace(s[k]))
    && (lo == hi || (!IsJsWhitespace(s[lo]) && !IsJsWhitespace(s[hi - 1])))
  }

  /** Trimming `s` leaves `r`, found at offset `lo` of `s`. */
  ghost predicate TrimsTo(s: string, lo: int, r: string) {
    IsTrimmingOf(s, lo, lo + |r|) && r == s[lo..lo + |r|]
  }

  /** `trim`: removes the leading and the trailing whitespace. */
  function Trim(s: string): string {
    TrimEnd(TrimStart(s))
  }

  /** Trimming leaves the infix of `s` that has only whitespace around it and that neither starts
      nor ends with whitespace. */
  lemma TrimSpec(s: string)
    ensures exists lo :: TrimsTo(s, lo, Trim(s))
  {
    var t := TrimStart(s);
    var r := TrimEnd(t);
    TrimStartSpec(s);
    TrimEndSpec(t);
    var lo := |s| - |t|;
    assert r == s[lo..lo + |r|];
    assert TrimsTo(s, lo, r) && Trim(s) == r;
  }

  /** Trimming has exactly one possible outcome: any infix that meets the trimming conditions is
      the one `Trim` returns. */
  lemma TrimUnique(s: string, lo: int, hi: int)
    requires IsTrimmingOf(s, lo, hi)
    ensures Trim(s) == s[lo..hi]
  {
    var r := Trim(s);
    TrimSpec(s);
    var lo' :| TrimsTo(s, lo', r);
    var hi' := lo' + |r|;
    // a character that is not whitespace lies inside every trimming, so the end characters of
    // either trimming lie inside the other
    assert 0 <= lo < |s| && !IsJsWhitespace(s[lo]) ==> lo' <= lo < hi';
    assert 0 <= hi - 1 < |s| && !IsJsWhitespace(s[hi - 1]) ==> lo' <= hi - 1 < hi';
    assert 0 <= lo' < |s| && !IsJsWhitespace(s[lo']) ==> lo <= lo' < hi;
    assert 0 <= hi' - 1 < |s| && !IsJsWhitespace(s[hi' - 1]) ==> lo <= hi' - 1 < hi;
  }

  /** `needle` occurs in `hay` starting at position `i`. */
  ghost predicate OccursAt(needle: string, hay: string, i: int) {
    0 <= i <= |hay| - |needle| && hay[i..i + |needle|] == needle
  }

  /** `needle` occurs in `hay` at some position. */
  ghost predicate IsInfix(needle: string, hay: string) {
    exists i :: OccursAt(needle, hay, i)
  }

  /** `hay.includes(needle)`: tries the start positions of `hay` from left to right. */
  predicate Includes(hay: string, needle: string) {
    needle <= hay || (|hay| > 0 && Includes(hay[1..], needle))
  }

  lemma {:induction false} IncludesIsInfix(hay: string, needle: string)
    ensures Includes(hay, needle) <==> IsInfix(needle, hay)
  {
    if needle <= hay {
      assert OccursAt(needle, hay, 0);
    } else if |hay| == 0 {
    } else {
      IncludesIsInfix(hay[1..], needle);
      if IsInfix(needle, hay[1..]) {
        var i :| OccursAt(needle, hay[1..], i);
        assert hay[i + 1..i + 1 + |needle|] == hay[1..][i..i + |needle|];
        assert OccursAt(needle, hay, i + 1);
      }
      if IsInfix(needle, hay) {
        var i :| OccursAt(needle, hay, i);
        assert i == 0 ==> needle <= hay;
        assert hay[1..][i - 1..i - 1 + |needle|] == hay[i..i + |needle|];
        assert OccursAt(needle, hay[1..], i - 1);
      }
    }
  }
}
