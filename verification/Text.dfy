/**
 * The few string operations of Python's `str` that the statement converter
 * relies on, over `seq<char>`: `strip`, `lower`, `upper`, `capitalize`,
 * `in` (substring) and `replace(old, '')`.
 */
module Text {

  /** `str.isspace()` for one character: the characters `str.strip()` removes. */
  predicate IsSpace(c: char) {
    if c <= ' ' then c == ' ' || ('\t' <= c <= '\r') || '\U{1C}' <= c
    else '\U{85}' <= c && IsWideSpace(c)
  }

  /** The whitespace characters above U+0020. */
  predicate IsWideSpace(c: char) {
    || c == '\U{85}' || c == '\U{A0}' || c == '\U{1680}'
    || ('\U{2000}' <= c <= '\U{200A}')
    || c == '\U{2028}' || c == '\U{2029}' || c == '\U{202F}' || c == '\U{205F}' || c == '\U{3000}'
  }

  predicate AllSpace(s: string) {
    forall i :: 0 <= i < |s| ==> IsSpace(s[i])
  }

  /** No whitespace at either end: what `strip()` returns. */
  predicate Trimmed(s: string) {
    s == [] || (!IsSpace(s[0]) && !IsSpace(s[|s| - 1]))
  }

  /** `s.lstrip()`: the longest suffix of `s` that does not start with whitespace. */
  function TrimStart(s: string): (r: string)
    ensures |r| <= |s|
    ensures r == [] || !IsSpace(r[0])
  {
    if s != [] && IsSpace(s[0]) then TrimStart(s[1..]) else s
  }

  /** `s.rstrip()`: the longest prefix of `s` that does not end with whitespace. */
  function TrimEnd(s: string): (r: string)
    ensures |r| <= |s|
    ensures r == [] || !IsSpace(r[|r| - 1])
  {
    if s != [] && IsSpace(s[|s| - 1]) then TrimEnd(s[..|s| - 1]) else s
  }

  /** `lstrip()` drops a run of whitespace from the front and nothing else. */
  lemma {:induction false} TrimStartDropsSpace(s: string)
    ensures var r := TrimStart(s); r == s[|s| - |r|..] && AllSpace(s[..|s| - |r|])
  {
    if s != [] && IsSpace(s[0]) {
      TrimStartDropsSpace(s[1..]);
      var r := TrimStart(s);
      assert s[1..][|s| - 1 - |r|..] == s[|s| - |r|..];
      var dropped, rest := s[..|s| - |r|], s[1..][..|s| - 1 - |r|];
      forall i | 0 <= i < |dropped|
        ensures IsSpace(dropped[i])
      {
        if i > 0 {
          assert dropped[i] == rest[i - 1];
        }
      }
    }
  }

  /** `rstrip()` drops a run of whitespace from the back and nothing else. */
  lemma {:induction false} TrimEndDropsSpace(s: string)
    ensures var r := TrimEnd(s); r == s[..|r|] && AllSpace(s[|r|..])
  {
    if s != [] && IsSpace(s[|s| - 1]) {
      TrimEndDropsSpace(s[..|s| - 1]);
      var r := TrimEnd(s);
      assert s[..|s| - 1][..|r|] == s[..|r|];
      assert forall i :: 0 <= i < |s| - 1 - |r| ==> s[|r|..][i] == s[..|s| - 1][|r|..][i];
    }
  }

  /** `s.strip()`. */
  function Trim(s: string): (r: string)
    ensures Trimmed(r) && |r| <= |s|
  {
    var t := TrimStart(s);
    TrimEndDropsSpace(t);
    TrimEnd(t)
  }

  /**
   * `strip()` keeps a contiguous middle part of `s` and drops only whitespace
   * on either side of it.
   */
  lemma TrimDropsSpace(s: string)
    ensures var lead := |s| - |TrimStart(s)|;
            lead + |Trim(s)| <= |s| && Trim(s) == s[lead..lead + |Trim(s)|]
            && AllSpace(s[..lead]) && AllSpace(s[lead + |Trim(s)|..])
  {
    var t := TrimStart(s);
    TrimStartDropsSpace(s);
    TrimEndDropsSpace(t);
    MiddleSlice(s, |s| - |t|, t, Trim(s));
  }

  /**
   * A prefix `r` of the suffix `t` of `s` that starts at `lead` is a middle
   * slice of `s`, and what follows it in `t` is what follows it in `s`.
   */
  lemma MiddleSlice(s: string, lead: nat, t: string, r: string)
    requires lead <= |s| && t == s[lead..] && |r| <= |t| && r == t[..|r|] && AllSpace(t[|r|..])
    ensures r == s[lead..lead + |r|] && AllSpace(s[lead + |r|..])
  {
    assert s[lead + |r|..] == t[|r|..];
  }

  lemma TrimStartOfTrimmed(s: string)
    requires s == [] || !IsSpace(s[0])
    ensures TrimStart(s) == s
  {
  }

  lemma TrimEndOfTrimmed(s: string)
    requires s == [] || !IsSpace(s[|s| - 1])
    ensures TrimEnd(s) == s
  {
  }

  /** Stripping a string that has no whitespace at its ends changes nothing. */
  lemma TrimOfTrimmed(s: string)
    requires Trimmed(s)
    ensures Trim(s) == s
  {
    TrimStartOfTrimmed(s);
    TrimEndOfTrimmed(s);
  }

  /** `strip()` is idempotent. */
  lemma TrimIdempotent(s: string)
    ensures Trim(Trim(s)) == Trim(s)
  {
    TrimOfTrimmed(Trim(s));
  }

  function LowerChar(c: char): char {
    if 'A' <= c <= 'Z' then (c as int - 'A' as int + 'a' as int) as char else c
  }

  function UpperChar(c: char): char {
    if 'a' <= c <= 'z' then (c as int - 'a' as int + 'A' as int) as char else c
  }

  /** `str.lower()` on the letters A to Z; other characters are kept. */
  function Lower(s: string): (r: string)
    ensures |r| == |s|
  {
    if s == [] then [] else [LowerChar(s[0])] + Lower(s[1..])
  }

  /** `str.upper()` on the letters a to z; other characters are kept. */
  function Upper(s: string): (r: string)
    ensures |r| == |s|
  {
    if s == [] then [] else [UpperChar(s[0])] + Upper(s[1..])
  }

  /** `str.capitalize()`: first character upper-cased, the rest lower-cased. */
  function Capitalize(s: string): (r: string)
    ensures |r| == |s|
  {
    if s == [] then [] else [UpperChar(s[0])] + Lower(s[1..])
  }

  /**
   * `lower()` maps each character on its own: afterwards no letter A to Z is
   * left, and only such letters were changed.
   */
  lemma {:induction false} LowerAsciiOnly(s: string)
    ensures forall i :: 0 <= i < |s| ==> Lower(s)[i] == LowerChar(s[i])
    ensures forall i :: 0 <= i < |s| ==> !('A' <= Lower(s)[i] <= 'Z')
    ensures forall i :: 0 <= i < |s| ==> Lower(s)[i] != s[i] ==> 'A' <= s[i] <= 'Z'
  {
    if s != [] {
      LowerAsciiOnly(s[1..]);
      forall i | 1 <= i < |s|
        ensures Lower(s)[i] == LowerChar(s[i])
      {
        assert Lower(s)[i] == Lower(s[1..])[i - 1];
      }
    }
  }

  /**
   * `upper()` maps each character on its own: afterwards no letter a to z is
   * left, and only such letters were changed.
   */
  lemma {:induction false} UpperAsciiOnly(s: string)
    ensures forall i :: 0 <= i < |s| ==> Upper(s)[i] == UpperChar(s[i])
    ensures forall i :: 0 <= i < |s| ==> !('a' <= Upper(s)[i] <= 'z')
    ensures forall i :: 0 <= i < |s| ==> Upper(s)[i] != s[i] ==> 'a' <= s[i] <= 'z'
  {
    if s != [] {
      UpperAsciiOnly(s[1..]);
      forall i | 1 <= i < |s|
        ensures Upper(s)[i] == UpperChar(s[i])
      {
        assert Upper(s)[i] == Upper(s[1..])[i - 1];
      }
    }
  }

  /** `capitalize()` upper-cases the first character and lower-cases the others, and nothing else. */
  lemma CapitalizeAsciiOnly(s: string)
    requires s != []
    ensures Capitalize(s)[0] == UpperChar(s[0]) && !('a' <= Capitalize(s)[0] <= 'z')
    ensures Capitalize(s)[1..] == Lower(s[1..])
  {
  }

  /** `s.startswith(p)`, compared character by character. */
  predicate StartsWith(s: string, p: string)
    ensures StartsWith(s, p) ==> |p| <= |s|
  {
    if p == [] then true
    else if s == [] then false
    else s[0] == p[0] && StartsWith(s[1..], p[1..])
  }

  /** `p in s` for strings: `p` occurs somewhere in `s`. */
  predicate Contains(s: string, p: string)
    decreases |s|
  {
    if StartsWith(s, p) then true
    else if s == [] then false
    else Contains(s[1..], p)
  }

  /**
   * `s.replace(p, '')`: scanning left to right, every occurrence of `p` that
   * does not overlap an earlier removed one is deleted, in a single pass
   * (what the deletion brings together is not scanned again).
   */
  function RemoveAll(s: string, p: string): (r: string)
    requires p != []
    ensures |r| <= |s|
    decreases |s|
  {
    if s == [] then []
    else if StartsWith(s, p) then RemoveAll(s[|p|..], p)
    else [s[0]] + RemoveAll(s[1..], p)
  }

  /** `startswith` compares the first `|p|` characters of `s` with `p`. */
  lemma {:induction false} StartsWithSlice(s: string, p: string)
    ensures StartsWith(s, p) <==> |p| <= |s| && s[..|p|] == p
  {
    if p != [] && s != [] {
      StartsWithSlice(s[1..], p[1..]);
      if |p| <= |s| && s[..|p|] == p {
        assert s[1..][..|p| - 1] == p[1..];
      }
    }
  }

  /** Replacing a string that does not occur changes nothing. */
  lemma {:induction false} RemoveAllAbsent(s: string, p: string)
    requires p != [] && !Contains(s, p)
    ensures RemoveAll(s, p) == s
    decreases |s|
  {
    if s != [] {
      RemoveAllAbsent(s[1..], p);
    }
  }

  /** Something is deleted exactly when `p` occurs. */
  lemma {:induction false} RemoveAllShortensIffContains(s: string, p: string)
    requires p != []
    ensures |RemoveAll(s, p)| < |s| <==> Contains(s, p)
    decreases |s|
  {
    if s != [] && !StartsWith(s, p) {
      RemoveAllShortensIffContains(s[1..], p);
    }
  }
}
