/**
 * The Python string primitives the loader relies on: `str.isspace`, `str.strip`,
 * `str.lstrip`, `str.replace(c, '')`, `str.split(sep)`, `str.split(maxsplit=1)` and
 * `str.endswith`. Strings are sequences of Unicode scalar values, as in Python 3.
 */
module PyStr {

  /** Python's `str.isspace`: the whitespace set used by `\s`, `strip()` and `split()`. */
  predicate IsSpace(c: char) {
    || '\t' <= c <= '\r'
    || '\U{1C}' <= c <= '\U{1F}'
    || c == ' ' || c == '\U{85}' || c == '\U{A0}' || c == '\U{1680}'
    || '\U{2000}' <= c <= '\U{200A}'
    || c == '\U{2028}' || c == '\U{2029}' || c == '\U{202F}' || c == '\U{205F}' || c == '\U{3000}'
  }

  predicate AllSpace(s: string) {
    forall i :: 0 <= i < |s| ==> IsSpace(s[i])
  }

  predicate NoSpace(s: string) {
    forall i :: 0 <= i < |s| ==> !IsSpace(s[i])
  }

  /** Neither end of `s` is whitespace. */
  predicate IsTrimmed(s: string) {
    s == [] || (!IsSpace(s[0]) && !IsSpace(s[|s| - 1]))
  }

  /** Whitespace followed by whitespace is whitespace. */
  lemma SpacesJoin(a: string, b: string)
    requires AllSpace(a) && AllSpace(b)
    ensures AllSpace(a + b)
  {
    forall i | 0 <= i < |a + b| ensures IsSpace((a + b)[i]) {
      if i >= |a| {
        assert (a + b)[i] == b[i - |a|];
      }
    }
  }

  /** `s.lstrip()`: the longest suffix of `s` that does not start with whitespace. */
  function LStrip(s: string): (r: string)
    ensures |r| <= |s| && r == s[|s| - |r|..]
    ensures AllSpace(s[..|s| - |r|])
    ensures r == [] || !IsSpace(r[0])
    decreases |s|
  {
    if s != [] && IsSpace(s[0]) then
      var q := s[1..];
      var r := LStrip(q);
      assert s[..|s| - |r|] == [s[0]] + q[..|q| - |r|];
      assert q[|q| - |r|..] == s[|s| - |r|..];
      SpacesJoin([s[0]], q[..|q| - |r|]);
      r
    else s
  }

  /** `s.rstrip()`: the longest prefix of `s` that does not end with whitespace. */
  function RStrip(s: string): (r: string)
    ensures |r| <= |s| && r == s[..|r|]
    ensures AllSpace(s[|r|..])
    ensures r == [] || !IsSpace(r[|r| - 1])
    decreases |s|
  {
    if s != [] && IsSpace(s[|s| - 1]) then
      var p := s[..|s| - 1];
      var r := RStrip(p);
      assert s[|r|..] == p[|r|..] + [s[|s| - 1]];
      assert p[..|r|] == s[..|r|];
      SpacesJoin(p[|r|..], [s[|s| - 1]]);
      r
    else s
  }

  /** Where `s.strip()` starts in `s`: the length of the leading whitespace. */
  function StripStart(s: string): (a: nat)
    ensures a <= |s|
  {
    |s| - |LStrip(s)|
  }

  /**
   * `r` is `s` without its first `a` characters and without the rest past
   * `r`, all of which are whitespace.
   */
  predicate PaddedBy(s: string, a: nat, r: string) {
    && a + |r| <= |s| && r == s[a..a + |r|]
    && AllSpace(s[..a]) && AllSpace(s[a + |r|..])
  }

  /** `s.strip()`: `s` with only whitespace removed from its two ends, and none left there. */
  function Strip(s: string): (r: string)
    ensures IsTrimmed(r) && PaddedBy(s, StripStart(s), r)
  {
    var l := LStrip(s);
    var r := RStrip(l);
    StripParts(s, StripStart(s), l, r);
    r
  }

  /** The facts `Strip` states, from those of its two halves. */
  lemma StripParts(s: string, a: nat, l: string, r: string)
    requires a <= |s| && l == s[a..] && AllSpace(s[..a]) && (l == [] || !IsSpace(l[0]))
    requires |r| <= |l| && r == l[..|r|] && AllSpace(l[|r|..]) && (r == [] || !IsSpace(r[|r| - 1]))
    ensures IsTrimmed(r) && PaddedBy(s, a, r)
  {
    assert s[a + |r|..] == l[|r|..];
    assert r != [] ==> r[0] == l[0];
  }

  lemma {:induction false} LStripSpaces(w: string, t: string)
    requires AllSpace(w)
    requires t == [] || !IsSpace(t[0])
    ensures LStrip(w + t) == t
    decreases |w|
  {
    if w != [] {
      assert (w + t)[1..] == w[1..] + t;
      LStripSpaces(w[1..], t);
    } else {
      assert w + t == t;
    }
  }

  lemma {:induction false} RStripSpaces(t: string, w: string)
    requires AllSpace(w)
    requires t == [] || !IsSpace(t[|t| - 1])
    ensures RStrip(t + w) == t
    decreases |w|
  {
    if w != [] {
      assert (t + w)[..|t + w| - 1] == t + w[..|w| - 1];
      RStripSpaces(t, w[..|w| - 1]);
    } else {
      assert t + w == t;
    }
  }

  /** Stripping removes exactly the padding around a trimmed string. */
  lemma StripPadded(w1: string, t: string, w2: string)
    requires AllSpace(w1) && AllSpace(w2) && IsTrimmed(t)
    ensures Strip(w1 + t + w2) == t
  {
    assert w1 + t + w2 == w1 + (t + w2);
    if t == [] {
      assert AllSpace(w1 + w2);
      LStripSpaces(w1 + w2, []);
      assert w1 + w2 + [] == w1 + w2;
    } else {
      LStripSpaces(w1, t + w2);
      RStripSpaces(t, w2);
    }
  }

  /** Stripping only removes characters: one absent before is absent after. */
  lemma StripWithin(s: string, c: char)
    requires c !in s
    ensures c !in Strip(s)
  {
    var r := Strip(s);
    var a := StripStart(s);
    forall i | 0 <= i < |r| ensures r[i] != c {
      assert r[i] == s[a + i];
    }
  }

  /** Number of occurrences of `c` in `s`. */
  function Count(s: string, c: char): nat {
    if s == [] then 0 else (if s[0] == c then 1 else 0) + Count(s[1..], c)
  }

  lemma {:induction false} CountZero(s: string, c: char)
    ensures Count(s, c) == 0 <==> c !in s
  {
    if s != [] {
      CountZero(s[1..], c);
      assert s == [s[0]] + s[1..];
    }
  }

  lemma {:induction false} CountAppend(a: string, b: string, c: char)
    ensures Count(a + b, c) == Count(a, c) + Count(b, c)
  {
    if a == [] {
      assert a + b == b;
    } else {
      assert (a + b)[1..] == a[1..] + b;
      CountAppend(a[1..], b, c);
    }
  }

  /** `s.replace(c, '')`: `s` with every `c` deleted and the other characters kept in order. */
  function RemoveChar(s: string, c: char): (r: string)
    ensures c !in r
    ensures |r| == |s| - Count(s, c)
    ensures forall x :: x != c ==> (x in r <==> x in s)
  {
    if s == [] then []
    else if s[0] == c then RemoveChar(s[1..], c)
    else [s[0]] + RemoveChar(s[1..], c)
  }

  /** Deleting a character that is absent leaves the string unchanged. */
  lemma {:induction false} RemoveAbsent(s: string, c: char)
    requires c !in s
    ensures RemoveChar(s, c) == s
  {
    if s != [] {
      assert c !in s[1..];
      RemoveAbsent(s[1..], c);
    }
  }

  lemma {:induction false} RemoveAppend(a: string, b: string, c: char)
    ensures RemoveChar(a + b, c) == RemoveChar(a, c) + RemoveChar(b, c)
  {
    if a == [] {
      assert a + b == b;
    } else {
      assert (a + b)[1..] == a[1..] + b;
      RemoveAppend(a[1..], b, c);
    }
  }

  /** Index of the first `c` in `s`, or `|s|` when there is none. */
  function IndexOf(s: string, c: char): (k: nat)
    ensures k <= |s|
    ensures c !in s[..k]
    ensures k < |s| ==> s[k] == c
    ensures k == |s| <==> c !in s
  {
    if s == [] then 0
    else if s[0] == c then 0
    else 1 + IndexOf(s[1..], c)
  }

  /** `sep.join(parts)` for a one-character separator. */
  function Join(parts: seq<string>, sep: char): string
    decreases |parts|
  {
    if parts == [] then []
    else if |parts| == 1 then parts[0]
    else parts[0] + [sep] + Join(parts[1..], sep)
  }

  /**
   * `s.split(sep)` for a one-character separator: the pieces between separators,
   * in order, one more piece than there are separators.
   */
  function SplitOn(s: string, sep: char): (parts: seq<string>)
    ensures |parts| == Count(s, sep) + 1
    ensures forall i :: 0 <= i < |parts| ==> sep !in parts[i]
    decreases |s|
  {
    var k := IndexOf(s, sep);
    if k == |s| then
      CountZero(s, sep);
      [s]
    else
      assert s == s[..k] + ([sep] + s[k + 1..]);
      CountAppend(s[..k], [sep] + s[k + 1..], sep);
      CountAppend([sep], s[k + 1..], sep);
      CountZero(s[..k], sep);
      assert Count([sep], sep) == 1 by { assert [sep][1..] == []; }
      [s[..k]] + SplitOn(s[k + 1..], sep)
  }

  /** Splitting and joining again gives back the original string. */
  lemma {:induction false} JoinSplit(s: string, sep: char)
    ensures Join(SplitOn(s, sep), sep) == s
    decreases |s|
  {
    var k := IndexOf(s, sep);
    if k < |s| {
      JoinSplit(s[k + 1..], sep);
      assert s == s[..k] + [sep] + s[k + 1..];
    }
  }

  /** Joining two pieces puts one separator between them. */
  lemma JoinPair(a: string, b: string, sep: char)
    ensures Join([a, b], sep) == a + [sep] + b
  {
    assert [a, b][1..] == [b];
  }

  /** Joining separator-free pieces and splitting again gives back the pieces. */
  lemma {:induction false} SplitJoin(parts: seq<string>, sep: char)
    requires parts != []
    requires forall i :: 0 <= i < |parts| ==> sep !in parts[i]
    ensures SplitOn(Join(parts, sep), sep) == parts
    decreases |parts|
  {
    if |parts| > 1 {
      var s := Join(parts, sep);
      var rest := Join(parts[1..], sep);
      assert s == parts[0] + ([sep] + rest);
      assert IndexOf(s, sep) == |parts[0]| by {
        IndexOfAfter(parts[0], sep, rest);
      }
      assert s[|parts[0]| + 1..] == rest;
      SplitJoin(parts[1..], sep);
    }
  }

  lemma {:induction false} IndexOfAfter(a: string, c: char, b: string)
    requires c !in a
    ensures IndexOf(a + ([c] + b), c) == |a|
    decreases |a|
  {
    if a != [] {
      assert (a + ([c] + b))[1..] == a[1..] + ([c] + b);
      IndexOfAfter(a[1..], c, b);
    }
  }

  /** Index of the first whitespace character of `s`, or `|s|`. */
  function FirstSpace(s: string): (k: nat)
    ensures k <= |s| && NoSpace(s[..k])
    ensures k < |s| ==> IsSpace(s[k])
  {
    if s == [] || IsSpace(s[0]) then 0 else 1 + FirstSpace(s[1..])
  }

  /**
   * What `split(maxsplit=1)` gives: no piece exactly for a blank string, at
   * most two non-empty pieces, a whitespace-free first piece and a second one
   * that does not start with whitespace.
   */
  predicate SplitOnceShape(s: string, parts: seq<string>) {
    && |parts| <= 2
    && (parts == [] <==> AllSpace(s))
    && (forall i :: 0 <= i < |parts| ==> parts[i] != [])
    && (|parts| >= 1 ==> NoSpace(parts[0]))
    && (|parts| == 2 ==> !IsSpace(parts[1][0]))
  }

  /**
   * `s.split(maxsplit=1)`: no piece for a blank string; otherwise the first
   * whitespace-free token and, when anything follows the whitespace after it,
   * that remainder with its leading whitespace dropped.
   */
  function SplitOnce(s: string): (parts: seq<string>)
    ensures SplitOnceShape(s, parts)
  {
    var t := LStrip(s);
    if t == [] then
      assert s == s[..|s| - |t|];
      []
    else
      var k := FirstSpace(t);
      var rest := LStrip(t[k..]);
      var parts := if rest == [] then [t[..k]] else [t[..k], rest];
      SplitOnceParts(s, t, k, rest, parts);
      parts
  }

  /** The shape of `SplitOnce` on a string that is not blank. */
  lemma SplitOnceParts(s: string, t: string, k: nat, rest: string, parts: seq<string>)
    requires |t| <= |s| && t == s[|s| - |t|..] && t != [] && !IsSpace(t[0])
    requires k <= |t| && NoSpace(t[..k]) && (k < |t| ==> IsSpace(t[k]))
    requires rest == [] || !IsSpace(rest[0])
    requires parts == if rest == [] then [t[..k]] else [t[..k], rest]
    ensures SplitOnceShape(s, parts)
  {
    assert !AllSpace(s) by { assert s[|s| - |t|] == t[0]; }
    assert k > 0;
  }

  /** The first whitespace after a whitespace-free token is right after it. */
  lemma {:induction false} FirstSpaceAt(code: string, rest: string)
    requires NoSpace(code) && rest != [] && IsSpace(rest[0])
    ensures FirstSpace(code + rest) == |code|
    decreases |code|
  {
    if code != [] {
      assert (code + rest)[1..] == code[1..] + rest;
      assert !IsSpace((code + rest)[0]);
      FirstSpaceAt(code[1..], rest);
    } else {
      assert code + rest == rest;
    }
  }

  /** A string without whitespace has its first whitespace at its end. */
  lemma {:induction false} FirstSpaceNone(code: string)
    requires NoSpace(code)
    ensures FirstSpace(code) == |code|
    decreases |code|
  {
    if code != [] {
      assert NoSpace(code[1..]);
      FirstSpaceNone(code[1..]);
    }
  }

  /**
   * Leading whitespace, a token, whitespace, then a remainder that does not
   * start with whitespace: `split(maxsplit=1)` gives back the token and the
   * remainder, or just the token when the remainder is empty (the whitespace
   * after the token may then be empty too).
   */
  lemma SplitOnceOf(w: string, code: string, gap: string, name: string)
    requires AllSpace(w) && code != [] && NoSpace(code)
    requires AllSpace(gap) && (gap == [] ==> name == [])
    requires name == [] || !IsSpace(name[0])
    ensures SplitOnce(w + code + gap + name) == if name == [] then [code] else [code, name]
  {
    var rest := gap + name;
    var t := code + rest;
    assert w + code + gap + name == w + t;
    assert t[0] == code[0];
    LStripSpaces(w, t);
    if gap == [] {
      assert t == code;
      FirstSpaceNone(code);
      assert t[|code|..] == [];
    } else {
      FirstSpaceAt(code, rest);
      LStripSpaces(gap, name);
    }
    assert t[..|code|] == code && t[|code|..] == rest;
    SplitOnceStep(w + t, t, |code|, name);
  }

  /** One unfolding of `SplitOnce`, given what its leading whitespace strips to. */
  lemma SplitOnceStep(s: string, t: string, k: nat, rest: string)
    requires LStrip(s) == t && t != []
    requires FirstSpace(t) == k && LStrip(t[k..]) == rest
    ensures SplitOnce(s) == if rest == [] then [t[..k]] else [t[..k], rest]
  {
  }

  /** `w` occurs in `s` starting at position `i`. */
  predicate OccursAt(s: string, w: string, i: nat) {
    i + |w| <= |s| && s[i..i + |w|] == w
  }

  /** Python's `w in s` for strings. */
  predicate Contains(s: string, w: string) {
    exists i: nat | i <= |s| :: OccursAt(s, w, i)
  }

  /** An ASCII decimal digit. */
  predicate IsDigit(c: char) {
    '0' <= c <= '9'
  }

  predicate AllDigits(s: string) {
    forall i :: 0 <= i < |s| ==> IsDigit(s[i])
  }

  /** The digit character for `d`. */
  function DigitChar(d: nat): (c: char)
    requires d < 10
    ensures IsDigit(c) && (c - '0') as nat == d
  {
    ('0' as int + d) as char
  }

  /** `int(ds)` for a string of ASCII digits (0 for the empty string). */
  function DigitsValue(ds: string): nat
    requires AllDigits(ds)
  {
    if ds == [] then 0 else 10 * DigitsValue(ds[..|ds| - 1]) + (ds[|ds| - 1] - '0') as nat
  }

  /** `s.endswith(suffix)`. */
  predicate EndsWith(s: string, suffix: string) {
    |suffix| <= |s| && s[|s| - |suffix|..] == suffix
  }
}
