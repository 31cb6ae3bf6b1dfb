/** Character and string operations of Python's `str` that the crawler uses:
    whitespace splitting and joining, stripping, substring tests, digit strings. */
module Text {

  /** The characters for which Python's `str.isspace()` holds; `str.split()` with no
      separator and `str.strip()` with no argument break on exactly these: U+0009 to U+000D,
      U+001C to U+0020, U+0085, U+00A0, U+1680, U+2000 to U+200A, U+2028, U+2029, U+202F,
      U+205F and U+3000. */
  predicate IsSpace(c: char) {
    || '\t' <= c <= '\r'
    || '\U{1C}' <= c <= ' '
    || c == '\U{85}' || c == '\U{A0}' || c == '\U{1680}'
    || '\U{2000}' <= c <= '\U{200A}'
    || c == '\U{2028}' || c == '\U{2029}' || c == '\U{202F}' || c == '\U{205F}' || c == '\U{3000}'
  }

  /** `sub in s` for strings. */
  predicate Contains(s: string, sub: string) {
    exists i | 0 <= i <= |s| :: sub <= s[i..]
  }

  /** `s.startswith(p)`. */
  predicate StartsWith(s: string, p: string) { p <= s }

  // ---------------------------------------------------------------- split / join

  /** Length of the run of non-whitespace characters at the start of `s`. */
  function WordLen(s: string): (n: nat)
    ensures n <= |s|
    ensures forall i | 0 <= i < n :: !IsSpace(s[i])
    ensures n < |s| ==> IsSpace(s[n])
  {
    if s == [] || IsSpace(s[0]) then 0 else 1 + WordLen(s[1..])
  }

  /** A word of `str.split()`: non-empty and free of whitespace. */
  predicate IsWord(w: string) {
    w != [] && forall i | 0 <= i < |w| :: !IsSpace(w[i])
  }

  /** `s.split()`: the maximal runs of non-whitespace characters, in order. */
  function Split(s: string): (ws: seq<string>)
    decreases |s|
  {
    if s == [] then []
    else if IsSpace(s[0]) then Split(s[1..])
    else
      var n := WordLen(s);
      [s[..n]] + Split(s[n..])
  }

  /** `' '.join(ws)`. */
  function JoinWords(ws: seq<string>): string {
    if ws == [] then ""
    else if |ws| == 1 then ws[0]
    else ws[0] + " " + JoinWords(ws[1..])
  }

  /** A string with no leading or trailing whitespace, whose only whitespace characters
      are single spaces, each between two non-whitespace characters. */
  predicate Normalized(s: string) {
    && (s != [] ==> !IsSpace(s[0]) && !IsSpace(s[|s| - 1]))
    && forall i | 0 <= i < |s| && IsSpace(s[i]) :: s[i] == ' ' && i + 1 < |s| && !IsSpace(s[i + 1])
  }

  /** Every piece `Split` produces is a word. */
  lemma {:induction false} SplitYieldsWords(s: string)
    ensures forall k | 0 <= k < |Split(s)| :: IsWord(Split(s)[k])
    decreases |s|
  {
    if s == [] {
    } else if IsSpace(s[0]) {
      SplitYieldsWords(s[1..]);
    } else {
      var n := WordLen(s);
      SplitYieldsWords(s[n..]);
    }
  }

  /** Joining words with single spaces gives a normalized string. */
  lemma {:induction false} JoinIsNormalized(ws: seq<string>)
    requires forall k | 0 <= k < |ws| :: IsWord(ws[k])
    ensures Normalized(JoinWords(ws))
  {
    if |ws| > 1 {
      JoinIsNormalized(ws[1..]);
      var w, rest := ws[0], JoinWords(ws[1..]);
      var s := w + " " + rest;
      assert s == JoinWords(ws);
      assert IsWord(ws[1]);
      assert ws[1] <= rest;
      assert forall i | 0 <= i < |w| :: s[i] == w[i];
      forall i | 0 <= i < |s| && IsSpace(s[i])
        ensures s[i] == ' ' && i + 1 < |s| && !IsSpace(s[i + 1])
      {
        if i < |w| {
          assert false;
        } else if i == |w| {
          assert s[i + 1] == rest[0];
        } else {
          assert s[i] == rest[i - |w| - 1];
          assert i + 1 < |s| ==> s[i + 1] == rest[i - |w|];
        }
      }
      assert s[0] == w[0];
      assert s[|s| - 1] == rest[|rest| - 1];
    }
  }

  /** `WordLen` stops exactly at the end of a leading word followed by whitespace or the end. */
  lemma {:induction false} WordLenOfWord(w: string, t: string)
    requires IsWord(w)
    requires t == [] || IsSpace(t[0])
    ensures WordLen(w + t) == |w|
    decreases |w|
  {
    if |w| > 1 {
      assert (w + t)[1..] == w[1..] + t;
      WordLenOfWord(w[1..], t);
    } else {
      assert (w + t)[1..] == t;
    }
  }

  /** Splitting the single-space join of words gives the words back. */
  lemma {:induction false} SplitJoin(ws: seq<string>)
    requires forall k | 0 <= k < |ws| :: IsWord(ws[k])
    ensures Split(JoinWords(ws)) == ws
  {
    if |ws| == 1 {
      WordLenOfWord(ws[0], "");
      assert ws[0] + "" == ws[0];
      assert ws[0][|ws[0]|..] == [];
    } else if |ws| > 1 {
      var w, rest := ws[0], JoinWords(ws[1..]);
      var s := w + " " + rest;
      WordLenOfWord(w, " " + rest);
      assert s == w + (" " + rest);
      assert s[..|w|] == w;
      assert s[|w|..] == " " + rest;
      assert (" " + rest)[1..] == rest;
      SplitJoin(ws[1..]);
      assert ws == [w] + ws[1..];
    }
  }

  // ---------------------------------------------------------------- strip

  /** Every character of `w` is whitespace. */
  predicate AllSpace(w: string) {
    forall i | 0 <= i < |w| :: IsSpace(w[i])
  }

  /** `s.lstrip()`: the longest suffix of `s` that does not start with whitespace; only
      whitespace is removed. */
  function TrimStart(s: string): (r: string)
    ensures |r| <= |s| && r == s[|s| - |r|..]
    ensures AllSpace(s[..|s| - |r|])
    ensures r != [] ==> !IsSpace(r[0])
  {
    if s != [] && IsSpace(s[0]) then TrimStart(s[1..]) else s
  }

  /** `s.rstrip()`: the longest prefix of `s` that does not end with whitespace; only
      whitespace is removed. */
  function TrimEnd(s: string): (r: string)
    ensures r <= s
    ensures AllSpace(s[|r|..])
    ensures r != [] ==> !IsSpace(r[|r| - 1])
  {
    if s != [] && IsSpace(s[|s| - 1]) then TrimEnd(s[..|s| - 1]) else s
  }

  /** `r` is the slice of `s` at offset `a`, with only whitespace around it. */
  predicate PaddedAt(s: string, a: nat, r: string) {
    && a + |r| <= |s|
    && r == s[a..a + |r|]
    && AllSpace(s[..a])
    && AllSpace(s[a + |r|..])
  }

  /** `s.strip()`: a slice of `s` with only whitespace before and after it, and neither
      starting nor ending with whitespace. */
  function Strip(s: string): (r: string)
    ensures exists a: nat :: PaddedAt(s, a, r)
    ensures r != [] ==> !IsSpace(r[0]) && !IsSpace(r[|r| - 1])
  {
    var t := TrimStart(s);
    var r := TrimEnd(t);
    TrimsArePadding(s, t, r);
    r
  }

  /** A whitespace prefix cut from `s`, then a whitespace suffix cut from what remains,
      leave a padded slice of `s`. */
  lemma TrimsArePadding(s: string, t: string, r: string)
    requires |t| <= |s| && t == s[|s| - |t|..] && AllSpace(s[..|s| - |t|])
    requires r <= t && AllSpace(t[|r|..])
    ensures PaddedAt(s, |s| - |t|, r)
  {
    var a := |s| - |t|;
    assert r == s[a..a + |r|];
    assert s[a + |r|..] == t[|r|..];
  }

  // ---------------------------------------------------------------- digits

  predicate IsDigit(c: char) { '0' <= c <= '9' }

  /** `s.isdigit()` restricted to the ASCII digits: non-empty and all digits. */
  predicate IsDigits(s: string) {
    s != [] && forall i | 0 <= i < |s| :: IsDigit(s[i])
  }

  /** `int(s)` for a string of decimal digits (leading zeros allowed). */
  function ParseNat(s: string): nat
    requires forall i | 0 <= i < |s| :: IsDigit(s[i])
  {
    if s == [] then 0
    else 10 * ParseNat(s[..|s| - 1]) + DigitValue(s[|s| - 1])
  }

  function DigitValue(c: char): nat
    requires IsDigit(c)
  {
    c as int - '0' as int
  }

  // ---------------------------------------------------------------- split on a separator

  /** `s.split(sep)[0]`: the part of `s` before the first occurrence of `sep`,
      or the whole of `s` when `sep` does not occur. */
  function SplitFirst(s: string, sep: string): (r: string)
    requires sep != []
  {
    if s == [] || sep <= s then [] else [s[0]] + SplitFirst(s[1..], sep)
  }

  /** `SplitFirst` gives a prefix of `s` free of `sep`, cut at the first occurrence. */
  lemma {:induction false} SplitFirstCut(s: string, sep: string)
    requires sep != []
    ensures SplitFirst(s, sep) <= s
    ensures !Contains(SplitFirst(s, sep), sep)
    ensures SplitFirst(s, sep) == s || sep <= s[|SplitFirst(s, sep)|..]
    ensures forall i | 0 <= i < |SplitFirst(s, sep)| :: !(sep <= s[i..])
  {
    var r := SplitFirst(s, sep);
    if s == [] || sep <= s {
      assert r == [];
      assert forall i | 0 <= i <= |r| :: !(sep <= r[i..]);
    } else {
      SplitFirstCut(s[1..], sep);
      var r' := SplitFirst(s[1..], sep);
      assert r == [s[0]] + r';
      assert s == [s[0]] + s[1..];
      forall i | 0 <= i <= |r| ensures !(sep <= r[i..]) {
        if i == 0 {
          assert r[i..] == r && r <= s;
        } else {
          assert r[i..] == r'[i - 1..];
        }
      }
      assert s[|r|..] == s[1..][|r'|..];
      forall i | 0 <= i < |r| ensures !(sep <= s[i..]) {
        if i > 0 {
          assert s[i..] == s[1..][i - 1..];
        }
      }
    }
  }
}
