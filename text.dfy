/**
 The string normalisation the validator applies to column names and cell
 values: upper-case, then strip leading and trailing whitespace.

 Upper-casing is ASCII only. Stripping removes the characters that Python's
 `str.isspace` accepts, which is what `str.strip()` with no argument removes.
 */
module Text {

  /** Whitespace as Python's `str.strip()` understands it. */
  predicate IsSpace(c: char) {
    || ('\t' <= c <= '\r')                 // tab, line feed, vertical tab, form feed, carriage return
    || ('\U{1C}' <= c <= '\U{1F}')          // file, group, record and unit separators
    || c == ' '
    || c == '\U{85}' || c == '\U{A0}' || c == '\U{1680}'
    || ('\U{2000}' <= c <= '\U{200A}')
    || c == '\U{2028}' || c == '\U{2029}' || c == '\U{202F}' || c == '\U{205F}' || c == '\U{3000}'
  }

  predicate IsLower(c: char) {
    'a' <= c <= 'z'
  }

  function UpperChar(c: char): (u: char)
    ensures IsLower(c) ==> 'A' <= u <= 'Z' && u as int == c as int - 32
    ensures !IsLower(c) ==> u == c
  {
    if IsLower(c) then (c as int - 32) as char else c
  }

  /** No character that upper-casing would change. */
  predicate NoLower(s: string) {
    forall i :: 0 <= i < |s| ==> !IsLower(s[i])
  }

  /** `str.upper()`, restricted to ASCII letters. */
  function Upper(s: string): string {
    if s == [] then [] else [UpperChar(s[0])] + Upper(s[1..])
  }

  /** Upper-casing maps every character on its own and keeps the length. */
  lemma {:induction false} UpperEach(s: string)
    ensures |Upper(s)| == |s|
    ensures forall i :: 0 <= i < |s| ==> Upper(s)[i] == UpperChar(s[i])
  {
    if s != [] {
      UpperEach(s[1..]);
    }
  }

  /** Drops the leading whitespace. */
  function TrimStart(s: string): string {
    if s != [] && IsSpace(s[0]) then TrimStart(s[1..]) else s
  }

  /** Drops the trailing whitespace. */
  function TrimEnd(s: string): string {
    if s != [] && IsSpace(s[|s| - 1]) then TrimEnd(s[..|s| - 1]) else s
  }

  /** What is left after dropping the leading whitespace is a suffix that does
      not start with whitespace, and everything dropped is whitespace. */
  lemma {:induction false} TrimStartSuffix(s: string)
    ensures var r := TrimStart(s);
            && |r| <= |s| && (forall i :: 0 <= i < |r| ==> r[i] == s[|s| - |r| + i])
            && (r == [] || !IsSpace(r[0]))
            && (forall i :: 0 <= i < |s| - |r| ==> IsSpace(s[i]))
  {
    if s != [] && IsSpace(s[0]) {
      var rest := s[1..];
      TrimStartSuffix(rest);
      var r := TrimStart(rest);
      assert TrimStart(s) == r;
      forall i | 0 <= i < |r|
        ensures r[i] == s[|s| - |r| + i]
      {
        assert s[|s| - |r| + i] == rest[|rest| - |r| + i];
      }
      forall i | 0 <= i < |s| - |r|
        ensures IsSpace(s[i])
      {
        if i > 0 {
          assert s[i] == rest[i - 1];
        }
      }
    }
  }

  /** What is left after dropping the trailing whitespace is a prefix that does
      not end with whitespace, and everything dropped is whitespace. */
  lemma {:induction false} TrimEndPrefix(s: string)
    ensures var r := TrimEnd(s);
            && |r| <= |s| && (forall i :: 0 <= i < |r| ==> r[i] == s[i])
            && (r == [] || !IsSpace(r[|r| - 1]))
            && (forall i :: |r| <= i < |s| ==> IsSpace(s[i]))
  {
    if s != [] && IsSpace(s[|s| - 1]) {
      TrimEndPrefix(s[..|s| - 1]);
    }
  }

  /** Neither starts nor ends with whitespace. */
  predicate IsStripped(s: string) {
    s == [] || (!IsSpace(s[0]) && !IsSpace(s[|s| - 1]))
  }

  /** `str.strip()`. */
  function Strip(s: string): string {
    TrimEnd(TrimStart(s))
  }

  /** The result of stripping is a slice of `s` that neither starts nor ends
      with whitespace, and everything cut away is whitespace. */
  lemma StripSlice(s: string)
    ensures IsStripped(Strip(s))
    ensures exists lo, hi :: 0 <= lo <= hi <= |s| && Strip(s) == s[lo..hi]
              && (forall i :: 0 <= i < lo ==> IsSpace(s[i]))
              && (forall i :: hi <= i < |s| ==> IsSpace(s[i]))
  {
    StripEnds(s);
    var lo, hi := StripBounds(s);
    assert Strip(s) == s[lo..hi];
  }

  /** Stripping leaves no whitespace at either end. */
  lemma StripEnds(s: string)
    ensures IsStripped(Strip(s))
  {
    var t := TrimStart(s);
    TrimStartSuffix(s);
    TrimEndPrefix(t);
  }

  /** Where the stripped result sits in `s`: from `lo` to `hi`, with only
      whitespace outside. */
  lemma StripBounds(s: string) returns (lo: nat, hi: nat)
    ensures lo <= hi <= |s| && |Strip(s)| == hi - lo
    ensures forall i :: 0 <= i < hi - lo ==> Strip(s)[i] == s[lo + i]
    ensures forall i :: 0 <= i < lo ==> IsSpace(s[i])
    ensures forall i :: hi <= i < |s| ==> IsSpace(s[i])
  {
    var t := TrimStart(s);
    TrimStartSuffix(s);
    TrimEndPrefix(t);
    lo, hi := TrimmedSlice(s, t, TrimEnd(t));
  }

  /** A suffix of `s` cut after leading whitespace, then a prefix of that cut
      before trailing whitespace, is a slice of `s` with only whitespace around it. */
  lemma TrimmedSlice(s: string, t: string, r: string) returns (lo: nat, hi: nat)
    requires |t| <= |s| && forall i :: 0 <= i < |t| ==> t[i] == s[|s| - |t| + i]
    requires forall i :: 0 <= i < |s| - |t| ==> IsSpace(s[i])
    requires |r| <= |t| && forall i :: 0 <= i < |r| ==> r[i] == t[i]
    requires forall i :: |r| <= i < |t| ==> IsSpace(t[i])
    ensures lo <= hi <= |s| && |r| == hi - lo
    ensures forall i :: 0 <= i < hi - lo ==> r[i] == s[lo + i]
    ensures forall i :: 0 <= i < lo ==> IsSpace(s[i])
    ensures forall i :: hi <= i < |s| ==> IsSpace(s[i])
  {
    lo, hi := |s| - |t|, |s| - |t| + |r|;
    forall i | hi <= i < |s|
      ensures IsSpace(s[i])
    {
      assert s[i] == t[i - lo];
    }
  }

  /** The normal form of a column name or cell, `x.upper().strip()`. */
  function Normalize(s: string): string {
    Strip(Upper(s))
  }

  /** A normal form has no lower-case letter and no surrounding whitespace. */
  lemma NormalizeIsNormal(s: string)
    ensures NoLower(Normalize(s)) && IsStripped(Normalize(s))
  {
    UpperNoLower(s);
    StripKeepsNoLower(Upper(s));
    StripSlice(Upper(s));
  }

  /** `s.endswith(suffix)`. */
  predicate EndsWith(s: string, suffix: string) {
    |suffix| <= |s| && s[|s| - |suffix|..] == suffix
  }

  lemma {:induction false} EndsWithAppend(p: string, suffix: string)
    ensures EndsWith(p + suffix, suffix)
  {
    assert (p + suffix)[|p|..] == suffix;
  }

  lemma UpperNoLower(s: string)
    ensures NoLower(Upper(s))
  {
    UpperEach(s);
  }

  /** Upper-casing changes nothing exactly when there is no lower-case letter. */
  lemma UpperFixed(s: string)
    ensures Upper(s) == s <==> NoLower(s)
  {
    UpperEach(s);
    if NoLower(s) {
      assert forall i :: 0 <= i < |s| ==> Upper(s)[i] == s[i];
    } else {
      var i :| 0 <= i < |s| && IsLower(s[i]);
      assert Upper(s)[i] != s[i];
    }
  }

  /** Stripping a string that is already stripped changes nothing. */
  lemma StripStripped(s: string)
    requires IsStripped(s)
    ensures Strip(s) == s
  {
    TrimStartSuffix(s);
    TrimEndPrefix(TrimStart(s));
  }

  /** Stripping never introduces a lower-case letter. */
  lemma StripKeepsNoLower(s: string)
    requires NoLower(s)
    ensures NoLower(Strip(s))
  {
    var r := Strip(s);
    StripSlice(s);
    var lo, hi :| 0 <= lo <= hi <= |s| && r == s[lo..hi];
    forall i | 0 <= i < |r|
      ensures !IsLower(r[i])
    {
      assert r[i] == s[lo + i];
    }
  }

  /** A string is its own normal form exactly when it is upper-case and stripped. */
  lemma NormalizeFixed(s: string)
    ensures Normalize(s) == s <==> NoLower(s) && IsStripped(s)
  {
    if NoLower(s) && IsStripped(s) {
      UpperFixed(s);
      StripStripped(s);
    } else {
      NormalizeIsNormal(s);
    }
  }

  /** Normalising twice is normalising once. */
  lemma NormalizeIdempotent(s: string)
    ensures Normalize(Normalize(s)) == Normalize(s)
  {
    NormalizeIsNormal(s);
    NormalizeFixed(Normalize(s));
  }
}
