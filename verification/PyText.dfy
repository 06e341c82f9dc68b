/**
  Python string operations: `str.lstrip`, `str.rstrip`, `str.strip`, slices that stop at the end and `in`.
*/
module PyText {

  /** The white space of Python's `str.strip`. */
  predicate IsSpace(c: char) {
    || '\U{9}' <= c <= '\U{D}' || '\U{1C}' <= c <= ' ' || c == '\U{85}' || c == '\U{A0}' || c == '\U{1680}'
    || '\U{2000}' <= c <= '\U{200A}' || c == '\U{2028}' || c == '\U{2029}' || c == '\U{202F}'
    || c == '\U{205F}' || c == '\U{3000}'
  }

  function LStrip(s: string): string {
    if s != [] && IsSpace(s[0]) then LStrip(s[1..]) else s
  }

  function RStrip(s: string): string {
    if s != [] && IsSpace(s[|s| - 1]) then RStrip(s[..|s| - 1]) else s
  }

  function Strip(s: string): string {
    RStrip(LStrip(s))
  }

  /** `s[:n]`. */
  function Take(s: string, n: nat): string {
    if |s| <= n then s else s[..n]
  }

  /** The longest prefix of at most `n` characters. */
  lemma TakeIsPrefix(s: string, n: nat)
    ensures Take(s, n) <= s && |Take(s, n)| == if |s| < n then |s| else n
  {
  }

  /** `part in s`. */
  predicate Contains(s: string, part: string) {
    part <= s || (s != [] && Contains(s[1..], part))
  }

  lemma {:induction false} ContainsMeans(s: string, part: string)
    ensures Contains(s, part) <==> exists i :: 0 <= i <= |s| && part <= s[i..]
  {
    if part <= s {
      assert s[0..] == s;
    } else if s != [] {
      ContainsMeans(s[1..], part);
      if i :| 0 <= i <= |s| && part <= s[i..] {
        assert i > 0 && s[1..][i - 1..] == s[i..];
      }
      if Contains(s[1..], part) {
        var i :| 0 <= i <= |s[1..]| && part <= s[1..][i..];
        assert s[i + 1..] == s[1..][i..];
      }
    }
  }

  /** A string without white space at its ends is its own strip. */
  lemma StripOfTrimmed(s: string)
    requires s == "" || (!IsSpace(s[0]) && !IsSpace(s[|s| - 1]))
    ensures Strip(s) == s
  {
  }

  lemma {:induction false} RStripTrims(s: string)
    ensures RStrip(s) <= s
    ensures RStrip(s) == "" || !IsSpace(RStrip(s)[|RStrip(s)| - 1])
  {
    if s != [] && IsSpace(s[|s| - 1]) {
      RStripTrims(s[..|s| - 1]);
    }
  }

  lemma {:induction false} LStripTrims(s: string)
    ensures LStrip(s) == "" || !IsSpace(LStrip(s)[0])
  {
    if s != [] && IsSpace(s[0]) {
      LStripTrims(s[1..]);
    }
  }

  lemma StripTrims(s: string)
    ensures var t := Strip(s); t == "" || (!IsSpace(t[0]) && !IsSpace(t[|t| - 1]))
  {
    LStripTrims(s);
    RStripTrims(LStrip(s));
  }

  /** The ASCII white space is the tabulators, the line ends, the separators and the space, and nothing printable. */
  lemma AsciiSpaces()
    ensures forall c: char | c < '\U{80}' :: IsSpace(c) <==> c in "\t\n\r \U{B}\U{C}\U{1C}\U{1D}\U{1E}\U{1F}"
  {
  }
}
