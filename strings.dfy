/**
 * The Python string operations the validators rely on: `str.strip()` (which
 * every Django REST framework CharField applies to its input) and the
 * lower-casing `validate_username` compares with.
 */
module Strings {

  /** Python's `str.isspace()` for one character. */
  predicate IsSpace(c: char)
  {
    || c == ' '
    || '\t' <= c <= '\r'                  // \t \n \v \f \r
    || '\U{1C}' <= c <= '\U{1F}'          // file, group, record and unit separators
    || c == '\U{85}' || c == '\U{A0}' || c == '\U{1680}'
    || '\U{2000}' <= c <= '\U{200A}'
    || c == '\U{2028}' || c == '\U{2029}' || c == '\U{202F}' || c == '\U{205F}' || c == '\U{3000}'
  }

  predicate AllSpace(s: string)
  {
    forall i :: 0 <= i < |s| ==> IsSpace(s[i])
  }

  /** Neither end of `s` is whitespace. */
  predicate Unpadded(s: string)
  {
    s == [] || (!IsSpace(s[0]) && !IsSpace(s[|s| - 1]))
  }

  /** `s.lstrip()`: the suffix that is left after dropping leading whitespace. */
  function StripStart(s: string): (r: string)
    ensures |r| <= |s| && r == s[|s| - |r|..]
    ensures AllSpace(s[..|s| - |r|])
    ensures r == [] || !IsSpace(r[0])
  {
    if s != [] && IsSpace(s[0]) then
      var r := StripStart(s[1..]);
      assert s[..|s| - |r|] == [s[0]] + s[1..][..|s| - 1 - |r|];
      r
    else s
  }

  /** `s.rstrip()`: the prefix that is left after dropping trailing whitespace. */
  function StripEnd(s: string): (r: string)
    ensures |r| <= |s| && r == s[..|r|]
    ensures AllSpace(s[|r|..])
    ensures r == [] || !IsSpace(r[|r| - 1])
  {
    if s != [] && IsSpace(s[|s| - 1]) then
      var r := StripEnd(s[..|s| - 1]);
      assert s[|r|..] == s[..|s| - 1][|r|..] + [s[|s| - 1]];
      r
    else s
  }

  /** `s.strip()`. */
  function Strip(s: string): (r: string)
    ensures |r| <= |s|
    ensures Unpadded(r)
    ensures r == [] <==> AllSpace(s)
    ensures Unpadded(s) ==> r == s
    ensures exists pre, post :: s == pre + r + post && AllSpace(pre) && AllSpace(post)
  {
    StrippedEmptyIffAllSpace(s);
    StrippedIsUnpadded(s);
    StripKeepsUnpadded(s);
    StrippedIsInfix(s);
    StripEnd(StripStart(s))
  }

  /** Nothing is left exactly when `s` is all whitespace. */
  lemma StrippedEmptyIffAllSpace(s: string)
    ensures StripEnd(StripStart(s)) == [] <==> AllSpace(s)
  {
    var t := StripStart(s);
    var r := StripEnd(t);
    if r == [] {
      assert s == s[..|s| - |t|] + t;
      assert AllSpace(t[|r|..]) && t[|r|..] == t;
    }
  }

  /** Neither end of what is left is whitespace. */
  lemma StrippedIsUnpadded(s: string)
    ensures Unpadded(StripEnd(StripStart(s)))
  {
    var t := StripStart(s);
    var r := StripEnd(t);
    if r != [] {
      assert r[0] == t[0];
    }
  }

  /** An input with no whitespace at either end is left as it is. */
  lemma StripKeepsUnpadded(s: string)
    ensures Unpadded(s) ==> StripEnd(StripStart(s)) == s
  {
  }

  /** What the two stripping steps leave is `s` without whitespace on either side. */
  lemma StrippedIsInfix(s: string)
    ensures exists pre, post :: s == pre + StripEnd(StripStart(s)) + post && AllSpace(pre) && AllSpace(post)
  {
    var t := StripStart(s);
    var r := StripEnd(t);
    SuffixThenPrefix(s, t, r);
    var pre, post := s[..|s| - |t|], t[|r|..];
    assert s == pre + r + post && AllSpace(pre) && AllSpace(post);
  }

  /** Cutting a suffix `t` off `s` and then a prefix `r` off `t` splits `s` in three. */
  lemma SuffixThenPrefix<T>(s: seq<T>, t: seq<T>, r: seq<T>)
    requires |t| <= |s| && t == s[|s| - |t|..]
    requires |r| <= |t| && r == t[..|r|]
    ensures s == s[..|s| - |t|] + r + t[|r|..]
  {
    assert s == s[..|s| - |t|] + t;
    assert t == r + t[|r|..];
  }

  function LowerChar(c: char): (d: char)
  {
    if 'A' <= c <= 'Z' then (c as int + 32) as char else c
  }

  /**
   * `s.lower()` on the ASCII letters. Python lowers every cased letter, but
   * no non-ASCII character lowers to 'm' or 'e', so for the one comparison
   * the validators make (`value.lower() == 'me'`) this gives the same answer.
   */
  function LowerAscii(s: string): (r: string)
    ensures |r| == |s|
    ensures forall i :: 0 <= i < |s| ==> !('A' <= r[i] <= 'Z')
    ensures forall i :: 0 <= i < |s| ==> r[i] == s[i] || ('A' <= s[i] <= 'Z' && r[i] as int == s[i] as int + 32)
  {
    seq(|s|, i requires 0 <= i < |s| => LowerChar(s[i]))
  }

  /** Exactly the four spellings of "me" lower to "me". */
  lemma LowerIsMe(s: string)
    ensures LowerAscii(s) == "me" <==> s in {"me", "ME", "Me", "mE"}
  {
    if LowerAscii(s) == "me" {
      var l := LowerAscii(s);
      assert l[0] == 'm' && l[1] == 'e';
      assert LowerChar(s[0]) == 'm' && LowerChar(s[1]) == 'e';
      assert s[0] in {'m', 'M'} && s[1] in {'e', 'E'};
      assert s == [s[0], s[1]];
    }
  }
}
