/** The two pieces of Python string behaviour the detector relies on:
    `str.strip()` with no argument and the slice `s[:-1]`. */
module PythonStr {

  /** Python's `str.isspace()` for a single character: exactly the
      characters that `str.strip()` with no argument removes (ASCII
      whitespace, the information separators U+001C..U+001F, and the
      Unicode space and line/paragraph separators). */
  predicate IsSpace(c: char)
  {
    c == ' ' || ('\t' <= c <= '\r') || ('\U{1c}' <= c <= '\U{1f}')
    || c == '\U{85}' || c == '\U{a0}' || c == '\U{1680}'
    || ('\U{2000}' <= c <= '\U{200a}') || c == '\U{2028}' || c == '\U{2029}'
    || c == '\U{202f}' || c == '\U{205f}' || c == '\U{3000}'
  }

  predicate AllSpace(s: string)
  {
    forall i :: 0 <= i < |s| ==> IsSpace(s[i])
  }

  /** `w` sits at offset `i` of `s` with nothing but whitespace around it. */
  predicate PaddedAt(s: string, i: int, w: string)
  {
    0 <= i && i + |w| <= |s| && AllSpace(s[..i]) && s[i..i + |w|] == w && AllSpace(s[i + |w|..])
  }

  /** `str.lstrip()`. */
  function StripLeft(s: string): string
    decreases |s|
  {
    if s != [] && IsSpace(s[0]) then StripLeft(s[1..]) else s
  }

  /** `str.rstrip()`. */
  function StripRight(s: string): string
    decreases |s|
  {
    if s != [] && IsSpace(s[|s| - 1]) then StripRight(s[..|s| - 1]) else s
  }

  /** `str.strip()`. */
  function Strip(s: string): string
  {
    StripRight(StripLeft(s))
  }

  /** `lstrip()` keeps the longest suffix that does not start with
      whitespace, and what it removes is all whitespace. */
  lemma {:induction false} StripLeftSuffix(s: string)
    ensures |StripLeft(s)| <= |s| && StripLeft(s) == s[|s| - |StripLeft(s)|..]
    ensures AllSpace(s[..|s| - |StripLeft(s)|])
    ensures StripLeft(s) == [] || !IsSpace(StripLeft(s)[0])
    decreases |s|
  {
    if s != [] && IsSpace(s[0]) {
      StripLeftSuffix(s[1..]);
      var k := |s| - |StripLeft(s)|;
      assert s[..k] == [s[0]] + s[1..][..k - 1];
    }
  }

  /** `rstrip()` keeps the longest prefix that does not end with
      whitespace, and what it removes is all whitespace. */
  lemma {:induction false} StripRightPrefix(s: string)
    ensures |StripRight(s)| <= |s| && StripRight(s) == s[..|StripRight(s)|]
    ensures AllSpace(s[|StripRight(s)|..])
    ensures StripRight(s) == [] || !IsSpace(StripRight(s)[|StripRight(s)| - 1])
    decreases |s|
  {
    if s != [] && IsSpace(s[|s| - 1]) {
      StripRightPrefix(s[..|s| - 1]);
      var k := |StripRight(s)|;
      assert s[k..] == s[..|s| - 1][k..] + [s[|s| - 1]];
    }
  }

  /** `strip()` leaves no whitespace at either end, and removes only
      whitespace, only at the ends. */
  lemma StripIsPadded(s: string)
    ensures Strip(s) == [] || (!IsSpace(Strip(s)[0]) && !IsSpace(Strip(s)[|Strip(s)| - 1]))
    ensures exists i :: PaddedAt(s, i, Strip(s))
  {
    var left := StripLeft(s);
    var r := StripRight(left);
    StripLeftSuffix(s);
    StripRightPrefix(left);
    if r != [] {
      assert r[0] == left[0];
    }
    assert s[|s| - |left|..][..|r|] == s[|s| - |left|..|s| - |left| + |r|];
    assert s[|s| - |left|..][|r|..] == s[|s| - |left| + |r|..];
    assert PaddedAt(s, |s| - |left|, r);
  }

  /** Once the leading whitespace ends at a non-space character, `lstrip()`
      keeps everything from that character on. */
  lemma {:induction false} StripLeftFrom(s: string, i: int)
    requires 0 <= i < |s| && AllSpace(s[..i]) && !IsSpace(s[i])
    ensures StripLeft(s) == s[i..]
    decreases i
  {
    if i > 0 {
      assert IsSpace(s[..i][0]);
      assert s[1..][..i - 1] == s[1..i];
      StripLeftFrom(s[1..], i - 1);
    }
  }

  /** Once the trailing whitespace starts after a non-space character,
      `rstrip()` keeps everything up to that character. */
  lemma {:induction false} StripRightUpTo(s: string, j: int)
    requires 0 < j <= |s| && AllSpace(s[j..]) && !IsSpace(s[j - 1])
    ensures StripRight(s) == s[..j]
    decreases |s| - j
  {
    if j < |s| {
      assert IsSpace(s[j..][|s| - 1 - j]);
      assert s[..|s| - 1][j..] == s[j..|s| - 1];
      StripRightUpTo(s[..|s| - 1], j);
    }
  }

  /** `strip()` gives back a word that is surrounded only by whitespace. */
  lemma StripPadded(s: string, w: string, i: int)
    requires w != [] && !IsSpace(w[0]) && !IsSpace(w[|w| - 1])
    requires PaddedAt(s, i, w)
    ensures Strip(s) == w
  {
    assert s[i] == s[i..i + |w|][0];
    StripLeftFrom(s, i);
    var left := s[i..];
    assert left[..|w|] == w;
    assert left[|w|..] == s[i + |w|..];
    StripRightUpTo(left, |w|);
  }

  /** A word with no whitespace at either end is what `strip()` returns
      exactly when the input is that word surrounded by whitespace. */
  lemma StripIsWord(s: string, w: string)
    requires w != [] && !IsSpace(w[0]) && !IsSpace(w[|w| - 1])
    ensures Strip(s) == w <==> exists i :: PaddedAt(s, i, w)
  {
    StripIsPadded(s);
    if i :| PaddedAt(s, i, w) {
      StripPadded(s, w, i);
    }
  }

  /** Python's `s[:-1]`: `s` without its last character, whatever that
      character is; the empty string stays empty. */
  function DropLast(s: string): (r: string)
    ensures |s| == 0 ==> r == []
    ensures |s| > 0 ==> r + [s[|s| - 1]] == s
  {
    if |s| == 0 then [] else s[..|s| - 1]
  }
}
