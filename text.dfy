/** Character classes and small string helpers shared by the pipeline model. */
module Text {

  /** Python's `str.isspace()`, which is also what the regular-expression class `\s` matches. */
  predicate IsSpace(c: char) {
    || c == ' '
    || ('\t' <= c <= '\r')
    || ('\U{1c}' <= c <= '\U{1f}')
    || c == '\U{85}' || c == '\U{a0}' || c == '\U{1680}'
    || ('\U{2000}' <= c <= '\U{200a}')
    || c == '\U{2028}' || c == '\U{2029}' || c == '\U{202f}' || c == '\U{205f}' || c == '\U{3000}'
  }

  /** The class `[A-Za-z]`. */
  predicate IsLetter(c: char) {
    ('A' <= c <= 'Z') || ('a' <= c <= 'z')
  }

  function UpperChar(c: char): char {
    if 'a' <= c <= 'z' then (c as int - 32) as char else c
  }

  function LowerChar(c: char): char {
    if 'A' <= c <= 'Z' then (c as int + 32) as char else c
  }

  /** `s.upper()` on ASCII letters. */
  function Upper(s: string): (r: string)
    ensures |r| == |s|
    ensures forall i :: 0 <= i < |s| ==> r[i] == UpperChar(s[i])
  {
    seq(|s|, i requires 0 <= i < |s| => UpperChar(s[i]))
  }

  /** `s.lower()` on ASCII letters. */
  function Lower(s: string): (r: string)
    ensures |r| == |s|
    ensures forall i :: 0 <= i < |s| ==> r[i] == LowerChar(s[i])
  {
    seq(|s|, i requires 0 <= i < |s| => LowerChar(s[i]))
  }

  /** Every character of `s` from `lo` up to `hi` is one that `drop` selects. */
  predicate AllDropped(s: string, lo: nat, hi: nat, drop: char -> bool) {
    lo <= hi <= |s| && forall k :: lo <= k < hi ==> drop(s[k])
  }

  /** A dropped first character extends a dropped prefix of the rest. */
  lemma DroppedFirst(s: string, n: nat, drop: char -> bool)
    requires s != [] && drop(s[0]) && AllDropped(s[1..], 0, n, drop)
    ensures AllDropped(s, 0, n + 1, drop)
  {
    forall k | 0 < k < n + 1 ensures drop(s[k]) {
      assert s[k] == s[1..][k - 1];
    }
  }

  /** A dropped last character extends a dropped suffix of the rest. */
  lemma DroppedLast(s: string, n: nat, drop: char -> bool)
    requires s != [] && drop(s[|s| - 1]) && AllDropped(s[..|s| - 1], n, |s| - 1, drop)
    ensures AllDropped(s, n, |s|, drop)
  {
    forall k | n <= k < |s| - 1 ensures drop(s[k]) {
      assert s[k] == s[..|s| - 1][k];
    }
  }

  /** `l` is `s` without a prefix made only of characters that `drop` selects. */
  predicate DropsPrefix(s: string, l: string, drop: char -> bool) {
    |l| <= |s| && l == s[|s| - |l|..] && AllDropped(s, 0, |s| - |l|, drop)
  }

  /** `r` is `l` without a suffix made only of characters that `drop` selects. */
  predicate DropsSuffix(l: string, r: string, drop: char -> bool) {
    |r| <= |l| && r == l[..|r|] && AllDropped(l, |r|, |l|, drop)
  }

  /** Drops every leading character that `drop` selects: the result is the longest such suffix. */
  function StripLeft(s: string, drop: char -> bool): (r: string)
    ensures DropsPrefix(s, r, drop)
    ensures r == [] || !drop(r[0])
    decreases |s|
  {
    if s != [] && drop(s[0]) then
      var r := StripLeft(s[1..], drop);
      DroppedFirst(s, |s| - 1 - |r|, drop);
      r
    else s
  }

  /** Drops every trailing character that `drop` selects: the result is the longest such prefix. */
  function StripRight(s: string, drop: char -> bool): (r: string)
    ensures DropsSuffix(s, r, drop)
    ensures r == [] || !drop(r[|r| - 1])
    decreases |s|
  {
    if s != [] && drop(s[|s| - 1]) then
      var r := StripRight(s[..|s| - 1], drop);
      DroppedLast(s, |r|, drop);
      r
    else s
  }

  /** `r` is the piece of `s` at `a`, and every character of `s` around it is one that `drop` selects. */
  predicate TrimmedAt(s: string, r: string, a: nat, drop: char -> bool) {
    && a + |r| <= |s| && r == s[a..a + |r|]
    && AllDropped(s, 0, a, drop)
    && AllDropped(s, a + |r|, |s|, drop)
  }

  /** Taking `n` characters after the first `a` is the slice from `a` to `a + n`. */
  lemma TakeOfDrop(s: string, a: nat, n: nat)
    requires a + n <= |s|
    ensures s[a..][..n] == s[a..a + n]
  {
  }

  /** The characters after `s[a..][..n]` are those after `s[a..][n..]`: all dropped, if those are. */
  lemma DroppedSuffix(s: string, a: nat, n: nat, drop: char -> bool)
    requires a + n <= |s| && AllDropped(s[a..], n, |s| - a, drop)
    ensures AllDropped(s, a + n, |s|, drop)
  {
    forall k | a + n <= k < |s|
      ensures drop(s[k])
    {
      assert s[k] == s[a..][k - a];
    }
  }

  /** A dropped prefix of `s` leaves `l`, and a dropped suffix of `l` leaves `r`: `r` is `s` trimmed. */
  lemma TrimmedOf(s: string, l: string, r: string, drop: char -> bool)
    requires DropsPrefix(s, l, drop) && DropsSuffix(l, r, drop)
    ensures TrimmedAt(s, r, |s| - |l|, drop)
  {
    var a := |s| - |l|;
    TakeOfDrop(s, a, |r|);
    DroppedSuffix(s, a, |r|, drop);
  }

  /** Stripping the left end, then the right end, trims `s`. */
  lemma StripsTrim(s: string, drop: char -> bool)
    ensures var l := StripLeft(s, drop);
      TrimmedAt(s, StripRight(l, drop), |s| - |l|, drop)
  {
    var l := StripLeft(s, drop);
    TrimmedOf(s, l, StripRight(l, drop), drop);
  }

  /**
   * Python's `s.strip(chars)`, for the character set `drop`: the piece of `s` that starts
   * after the leading run of dropped characters and ends before the trailing one. Only
   * dropped characters are removed, and the piece neither starts nor ends with one.
   */
  function Strip(s: string, drop: char -> bool): (r: string)
    ensures TrimmedAt(s, r, |s| - |StripLeft(s, drop)|, drop)
    ensures r == [] || (!drop(r[0]) && !drop(r[|r| - 1]))
  {
    var l := StripLeft(s, drop);
    var r := StripRight(l, drop);
    assert r != [] ==> r[0] == l[0];
    StripsTrim(s, drop);
    r
  }

  /** Where the stripped piece starts. */
  lemma StripOffset(s: string, drop: char -> bool) returns (a: nat)
    ensures TrimmedAt(s, Strip(s, drop), a, drop)
  {
    a := |s| - |StripLeft(s, drop)|;
  }

  /** Stripping twice strips nothing more. */
  lemma StripIdempotent(s: string, drop: char -> bool)
    ensures Strip(Strip(s, drop), drop) == Strip(s, drop)
  {
    var r := Strip(s, drop);
    assert StripLeft(r, drop) == r;
    assert StripRight(r, drop) == r;
  }

  /** Python's `s.strip()` with no argument: surrounding whitespace. */
  function Trim(s: string): string {
    Strip(s, IsSpace)
  }

  /** Text with no surrounding whitespace is its own trim. */
  lemma TrimKeeps(s: string)
    requires s != [] && !IsSpace(s[0]) && !IsSpace(s[|s| - 1])
    ensures Trim(s) == s
  {
    assert StripLeft(s, IsSpace) == s;
  }

  /** The escape applied to one character by `_escape_q`. */
  function EscapeChar(c: char): string {
    if c == '\'' then "\\'" else [c]
  }

  /**
   * `_escape_q`: every single quote becomes backslash-quote, and nothing else changes.
   * Every quote of the result is preceded by a backslash; backslashes already in the name
   * are not escaped, so a name ending in a backslash can still end the quoted literal early.
   */
  function EscapeQ(s: string): (r: string)
    ensures |r| >= |s|
    ensures r != [] ==> r[0] != '\''
    ensures forall k :: 0 <= k < |r| && r[k] == '\'' ==> k > 0 && r[k - 1] == '\\'
  {
    if s == [] then [] else EscapeChar(s[0]) + EscapeQ(s[1..])
  }

  /** Reads an escaped name back, left to right: backslash-quote stands for a quote. */
  function UnescapeQ(t: string): string {
    if t == [] then []
    else if |t| >= 2 && t[0] == '\\' && t[1] == '\'' then "'" + UnescapeQ(t[2..])
    else [t[0]] + UnescapeQ(t[1..])
  }

  /** `_escape_q` loses nothing: the escaped name reads back as the name. */
  lemma {:induction false} EscapeRoundTrip(s: string)
    ensures UnescapeQ(EscapeQ(s)) == s
  {
    if s != [] {
      EscapeRoundTrip(s[1..]);
      var rest := EscapeQ(s[1..]);
      if s[0] == '\'' {
        assert EscapeQ(s) == "\\'" + rest;
        assert EscapeQ(s)[2..] == rest;
      } else {
        assert EscapeQ(s) == [s[0]] + rest;
        assert EscapeQ(s)[1..] == rest;
        if s[0] == '\\' {
          assert rest != [] ==> rest[0] != '\'';
        }
      }
    }
  }
}
