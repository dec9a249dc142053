/**
 * The part of Python's `re` module the loader uses: patterns built from literal
 * characters, `\s`, `\d` and `.` (no DOTALL), single characters, greedy (`*`, `+`)
 * and lazy (`*?`) repetition, and capturing groups; `re.search` (leftmost match,
 * backtracking in the order Python's engine tries alternatives) and `re.sub`.
 */
module Regex {
  import opened Wrappers
  import PyStr

  /** A character class: one literal character, `\s`, `\d` or `.`. */
  datatype Class = Lit(c: char) | Space | Digit | AnyButNewline

  predicate InClass(k: Class, x: char) {
    match k
    case Lit(c) => x == c
    case Space => PyStr.IsSpace(x)
    case Digit => '0' <= x <= '9'
    case AnyButNewline => x != '\n'
  }

  /** One element of a pattern. */
  datatype Piece =
    | One(k: Class)                          // exactly one character of the class
    | Rep(k: Class, min: nat, greedy: bool)  // at least `min` of them; greedy tries most first, lazy fewest
    | Open                                   // start of a capturing group
    | Close                                  // end of a capturing group

  /** A successful match: where it ends and the positions recorded by the group markers, in order. */
  datatype Found = Found(end: nat, caps: seq<nat>)

  /** The pattern that matches the literal text `w`. */
  function Lits(w: string): (p: seq<Piece>)
    ensures |p| == |w| && forall i :: 0 <= i < |w| ==> p[i] == One(Lit(w[i]))
  {
    seq(|w|, i requires 0 <= i < |w| => One(Lit(w[i])))
  }

  predicate IsMarker(x: Piece) {
    x.Open? || x.Close?
  }

  /** Number of group markers in `p`, so a pattern with `g` groups has `2 * g`. */
  function Markers(p: seq<Piece>): nat {
    if p == [] then 0 else (if IsMarker(p[0]) then 1 else 0) + Markers(p[1..])
  }

  /** The fewest characters any match of `p` consumes. */
  function MinLen(p: seq<Piece>): nat {
    if p == [] then 0
    else
      match p[0]
      case One(_) => 1 + MinLen(p[1..])
      case Rep(_, m, _) => m + MinLen(p[1..])
      case _ => MinLen(p[1..])
  }

  /** The recorded positions never decrease. */
  predicate Sorted(c: seq<nat>) {
    forall a, b :: 0 <= a < b < |c| ==> c[a] <= c[b]
  }

  predicate AtMost(c: seq<nat>, n: nat) {
    forall a :: 0 <= a < |c| ==> c[a] <= n
  }

  /** How many characters of class `k` follow position `i` without interruption. */
  function Run(k: Class, s: string, i: nat): (n: nat)
    requires i <= |s|
    ensures i + n <= |s|
    ensures forall j :: i <= j < i + n ==> InClass(k, s[j])
    ensures i + n < |s| ==> !InClass(k, s[i + n])
    decreases |s| - i
  {
    if i < |s| && InClass(k, s[i]) then 1 + Run(k, s, i + 1) else 0
  }

  /**
   * What every match of `p` from position `i` with recorded positions `caps` satisfies:
   * it consumes at least `MinLen(p)` characters, appends one position per marker,
   * and the recorded positions stay in order and inside the match.
   */
  predicate Fits(p: seq<Piece>, s: string, i: nat, caps: seq<nat>, f: Found) {
    && i + MinLen(p) <= f.end <= |s|
    && |f.caps| == |caps| + Markers(p)
    && f.caps[..|caps|] == caps
    && Sorted(f.caps)
    && AtMost(f.caps, f.end)
  }

  /** Python's backtracking match of `p` anchored at position `i`. */
  function Match(p: seq<Piece>, s: string, i: nat, caps: seq<nat>): (r: Option<Found>)
    requires i <= |s| && Sorted(caps) && AtMost(caps, i)
    ensures r.Some? ==> Fits(p, s, i, caps, r.value)
    decreases |p|, 1, 0
  {
    if p == [] then
      Some(Found(i, caps))
    else
      match p[0]
      case One(k) =>
        if i < |s| && InClass(k, s[i]) then Match(p[1..], s, i + 1, caps) else None
      case Open =>
        var r := Match(p[1..], s, i, caps + [i]);
        assert r.Some? ==> r.value.caps[..|caps|] == (caps + [i])[..|caps|];
        r
      case Close =>
        var r := Match(p[1..], s, i, caps + [i]);
        assert r.Some? ==> r.value.caps[..|caps|] == (caps + [i])[..|caps|];
        r
      case Rep(k, min, greedy) =>
        var n := Run(k, s, i);
        if n < min then None
        else if greedy then TryGreedy(p, s, i, caps, n)
        else TryLazy(p, s, i, caps, min, n)
  }

  /** A greedy repetition: try `k` characters, then fewer, down to the minimum. */
  function TryGreedy(p: seq<Piece>, s: string, i: nat, caps: seq<nat>, k: nat): (r: Option<Found>)
    requires p != [] && p[0].Rep? && p[0].min <= k && i + k <= |s|
    requires Sorted(caps) && AtMost(caps, i)
    ensures r.Some? ==> Fits(p, s, i, caps, r.value)
    decreases |p|, 0, k
  {
    var m := Match(p[1..], s, i + k, caps);
    if m.Some? then m
    else if k > p[0].min then TryGreedy(p, s, i, caps, k - 1)
    else None
  }

  /** A lazy repetition: try `k` characters, then more, up to `n`. */
  function TryLazy(p: seq<Piece>, s: string, i: nat, caps: seq<nat>, k: nat, n: nat): (r: Option<Found>)
    requires p != [] && p[0].Rep? && p[0].min <= k <= n && i + n <= |s|
    requires Sorted(caps) && AtMost(caps, i)
    ensures r.Some? ==> Fits(p, s, i, caps, r.value)
    decreases |p|, 0, n - k
  {
    var m := Match(p[1..], s, i + k, caps);
    if m.Some? then m
    else if k < n then TryLazy(p, s, i, caps, k + 1, n)
    else None
  }

  /**
   * `re.search` from position `st` on: the leftmost start at which `p` matches,
   * with that match; `None` when it matches at no start.
   */
  function SearchFrom(p: seq<Piece>, s: string, st: nat): (r: Option<(nat, Found)>)
    requires st <= |s|
    ensures r.Some? ==> st <= r.value.0 <= |s| && Match(p, s, r.value.0, []) == Some(r.value.1)
    ensures r.Some? ==> forall t :: st <= t < r.value.0 ==> Match(p, s, t, []).None?
    ensures r.None? ==> forall t :: st <= t <= |s| ==> Match(p, s, t, []).None?
    decreases |s| - st
  {
    var m := Match(p, s, st, []);
    if m.Some? then Some((st, m.value))
    else if st < |s| then SearchFrom(p, s, st + 1)
    else None
  }

  /**
   * `re.search`: the match of `SearchFrom` from position 0. The contract below
   * gives only its bounds; that the match is the leftmost one, and that `None`
   * means no start matches, are stated on `SearchFrom`.
   */
  function Search(p: seq<Piece>, s: string): (r: Option<(nat, Found)>)
    ensures r.Some? ==> r.value.0 <= r.value.1.end <= |s|
    ensures r.Some? ==> |r.value.1.caps| == Markers(p)
    ensures r.Some? ==> Sorted(r.value.1.caps) && AtMost(r.value.1.caps, |s|)
  {
    var r := SearchFrom(p, s, 0);
    assert r.Some? ==> Fits(p, s, r.value.0, [], r.value.1);
    r
  }

  /** The text of group `g` (numbered from 0) of a match. */
  function Group(s: string, f: Found, g: nat): string
    requires 2 * g + 1 < |f.caps| && Sorted(f.caps) && AtMost(f.caps, |s|)
  {
    s[f.caps[2 * g]..f.caps[2 * g + 1]]
  }

  /**
   * `re.sub(p, '', s)` for a pattern whose matches are never empty: every
   * leftmost non-overlapping match deleted, scanning left to right. Its one
   * use in the loader, deleting a trailing `(note)` from a date, is stated in
   * full by `Dates.DropTrailingNote`.
   */
  function Sub(p: seq<Piece>, s: string): (r: string)
    requires MinLen(p) >= 1
    ensures |r| <= |s|
    ensures Search(p, s).None? ==> r == s
    decreases |s|
  {
    match Search(p, s)
    case None => s
    case Some((st, f)) =>
      assert Fits(p, s, st, [], f);
      s[..st] + Sub(p, s[f.end..])
  }

  // ---------------------------------------------------------------------------
  // Facts about matches

  lemma {:induction false} GreedyWitness(p: seq<Piece>, s: string, i: nat, caps: seq<nat>, k: nat, f: Found)
    returns (n: nat)
    requires p != [] && p[0].Rep? && p[0].min <= k && i + k <= |s|
    requires Sorted(caps) && AtMost(caps, i)
    requires TryGreedy(p, s, i, caps, k) == Some(f)
    ensures p[0].min <= n <= k && Match(p[1..], s, i + n, caps) == Some(f)
    decreases k
  {
    if Match(p[1..], s, i + k, caps).Some? {
      n := k;
    } else {
      n := GreedyWitness(p, s, i, caps, k - 1, f);
    }
  }

  lemma {:induction false} LazyWitness(p: seq<Piece>, s: string, i: nat, caps: seq<nat>, k: nat, m: nat, f: Found)
    returns (n: nat)
    requires p != [] && p[0].Rep? && p[0].min <= k <= m && i + m <= |s|
    requires Sorted(caps) && AtMost(caps, i)
    requires TryLazy(p, s, i, caps, k, m) == Some(f)
    ensures k <= n <= m && Match(p[1..], s, i + n, caps) == Some(f)
    decreases m - k
  {
    if Match(p[1..], s, i + k, caps).Some? {
      n := k;
    } else {
      n := LazyWitness(p, s, i, caps, k + 1, m, f);
    }
  }

  /**
   * A repetition that matched consumed between `min` and `Run` characters: `n` is
   * the count after which the rest of the pattern produced the match.
   */
  lemma RepWitness(p: seq<Piece>, s: string, i: nat, caps: seq<nat>, f: Found) returns (n: nat)
    requires p != [] && p[0].Rep?
    requires i <= |s| && Sorted(caps) && AtMost(caps, i)
    requires Match(p, s, i, caps) == Some(f)
    ensures p[0].min <= n <= Run(p[0].k, s, i) && Match(p[1..], s, i + n, caps) == Some(f)
  {
    var m := Run(p[0].k, s, i);
    if p[0].greedy {
      n := GreedyWitness(p, s, i, caps, m, f);
    } else {
      n := LazyWitness(p, s, i, caps, p[0].min, m, f);
    }
  }

  /**
   * Sequencing: whenever `p + q` matches, `q` alone produced that match from the
   * later position `j`, with the positions `p`'s markers recorded appended to `caps`.
   */
  lemma {:induction false} MatchSplit(p: seq<Piece>, q: seq<Piece>, s: string, i: nat, caps: seq<nat>, f: Found)
    returns (j: nat, c: seq<nat>)
    requires i <= |s| && Sorted(caps) && AtMost(caps, i)
    requires Match(p + q, s, i, caps) == Some(f)
    ensures i + MinLen(p) <= j <= |s| && |c| == |caps| + Markers(p) && c[..|caps|] == caps
    ensures Sorted(c) && AtMost(c, j) && Match(q, s, j, c) == Some(f)
    decreases |p|
  {
    if p == [] {
      assert p + q == q;
      j, c := i, caps;
    } else {
      var pq := p + q;
      assert pq[0] == p[0] && pq[1..] == p[1..] + q;
      match p[0]
      case One(k) =>
        j, c := MatchSplit(p[1..], q, s, i + 1, caps, f);
      case Open =>
        j, c := MatchSplit(p[1..], q, s, i, caps + [i], f);
        assert c[..|caps|] == c[..|caps| + 1][..|caps|];
      case Close =>
        j, c := MatchSplit(p[1..], q, s, i, caps + [i], f);
        assert c[..|caps|] == c[..|caps| + 1][..|caps|];
      case Rep(k, min, greedy) =>
        var n := RepWitness(pq, s, i, caps, f);
        j, c := MatchSplit(p[1..], q, s, i + n, caps, f);
    }
  }

  /** A pattern made of single characters only matches exactly `|p|` characters, one per piece. */
  lemma {:induction false} SinglesPrefix(p: seq<Piece>, q: seq<Piece>, s: string, i: nat, caps: seq<nat>, f: Found)
    requires forall t :: 0 <= t < |p| ==> p[t].One?
    requires i <= |s| && Sorted(caps) && AtMost(caps, i)
    requires Match(p + q, s, i, caps) == Some(f)
    ensures i + |p| <= |s|
    ensures forall t :: 0 <= t < |p| ==> InClass(p[t].k, s[i + t])
    ensures Match(q, s, i + |p|, caps) == Some(f)
    decreases |p|
  {
    if p == [] {
      assert p + q == q;
    } else {
      var pq := p + q;
      assert pq[0] == p[0] && pq[1..] == p[1..] + q;
      SinglesPrefix(p[1..], q, s, i + 1, caps, f);
      forall t | 0 <= t < |p| ensures InClass(p[t].k, s[i + t]) {
        if t > 0 {
          assert p[t] == p[1..][t - 1];
        }
      }
    }
  }

  /** Matching `(k{min,})` then `q`: the repetition took `n` characters, then `q` matched. */
  lemma RepGroupStep(k: Class, min: nat, greedy: bool, q: seq<Piece>, s: string, j: nat, c: seq<nat>, f: Found)
    returns (n: nat)
    requires j <= |s| && Sorted(c) && AtMost(c, j)
    requires Match([Open, Rep(k, min, greedy), Close] + q, s, j, c) == Some(f)
    ensures min <= n <= Run(k, s, j)
    ensures Sorted(c + [j, j + n]) && AtMost(c + [j, j + n], j + n)
    ensures Match(q, s, j + n, c + [j, j + n]) == Some(f)
  {
    var p := [Open, Rep(k, min, greedy), Close] + q;
    var p1 := [Rep(k, min, greedy), Close] + q;
    assert p[0] == Open && p[1..] == p1;
    var c1 := c + [j];
    Push(c, j, j);
    assert Match(p1, s, j, c1) == Some(f);
    n := RepWitness(p1, s, j, c1, f);
    assert p1[1..] == [Close] + q && ([Close] + q)[1..] == q;
    Push(c1, j + n, j + n);
    assert Match([Close] + q, s, j + n, c1) == Some(f);
    assert c1 + [j + n] == c + [j, j + n];
  }

  /**
   * A group around one repetition `(k{min,})` or `(k{min,}?)`: it starts where the
   * group opens, holds at least `min` characters, all of class `k`.
   */
  lemma RepGroup(k: Class, min: nat, greedy: bool, q: seq<Piece>, s: string, j: nat, c: seq<nat>, f: Found)
    requires j <= |s| && Sorted(c) && AtMost(c, j)
    requires Match([Open, Rep(k, min, greedy), Close] + q, s, j, c) == Some(f)
    ensures |c| + 1 < |f.caps| && f.caps[|c|] == j && j + min <= f.caps[|c| + 1] <= |s|
    ensures forall x :: j <= x < f.caps[|c| + 1] ==> InClass(k, s[x])
  {
    var n := RepGroupStep(k, min, greedy, q, s, j, c, f);
    var c2 := c + [j, j + n];
    assert Fits(q, s, j + n, c2, f);
    assert f.caps[..|c2|] == c2;
    assert f.caps[|c|] == f.caps[..|c2|][|c|] == c2[|c|];
    assert f.caps[|c| + 1] == f.caps[..|c2|][|c| + 1] == c2[|c| + 1];
  }

  lemma Push(c: seq<nat>, x: nat, y: nat)
    requires Sorted(c) && AtMost(c, x) && x <= y
    ensures Sorted(c + [x]) && AtMost(c + [x], y)
  {
  }

  /** Matching `(ab\d)` then `q`: the group took `|g|` characters, then `q` matched. */
  lemma SinglesGroupStep(g: seq<Piece>, q: seq<Piece>, s: string, j: nat, c: seq<nat>, f: Found)
    requires forall t :: 0 <= t < |g| ==> g[t].One?
    requires j <= |s| && Sorted(c) && AtMost(c, j)
    requires Match([Open] + g + [Close] + q, s, j, c) == Some(f)
    ensures j + |g| <= |s|
    ensures forall t :: 0 <= t < |g| ==> InClass(g[t].k, s[j + t])
    ensures Sorted(c + [j, j + |g|]) && AtMost(c + [j, j + |g|], j + |g|)
    ensures Match(q, s, j + |g|, c + [j, j + |g|]) == Some(f)
  {
    var rest := [Close] + q;
    var p := [Open] + g + [Close] + q;
    assert p == [Open] + (g + rest);
    assert p[0] == Open && p[1..] == g + rest;
    var c1 := c + [j];
    Push(c, j, j);
    assert Match(g + rest, s, j, c1) == Some(f);
    SinglesPrefix(g, rest, s, j, c1, f);
    assert rest[0] == Close && rest[1..] == q;
    Push(c1, j + |g|, j + |g|);
    assert c1 + [j + |g|] == c + [j, j + |g|];
  }

  /** A group around single characters only `(ab\d)` holds exactly one character per piece. */
  lemma SinglesGroup(g: seq<Piece>, q: seq<Piece>, s: string, j: nat, c: seq<nat>, f: Found)
    requires forall t :: 0 <= t < |g| ==> g[t].One?
    requires j <= |s| && Sorted(c) && AtMost(c, j)
    requires Match([Open] + g + [Close] + q, s, j, c) == Some(f)
    ensures |c| + 1 < |f.caps| && f.caps[|c|] == j && f.caps[|c| + 1] == j + |g| <= |s|
    ensures forall t :: 0 <= t < |g| ==> InClass(g[t].k, s[j + t])
  {
    SinglesGroupStep(g, q, s, j, c, f);
    var c2 := c + [j, j + |g|];
    assert Fits(q, s, j + |g|, c2, f);
    assert f.caps[..|c2|] == c2;
    assert f.caps[|c|] == f.caps[..|c2|][|c|] == c2[|c|];
    assert f.caps[|c| + 1] == f.caps[..|c2|][|c| + 1] == c2[|c| + 1];
  }

  /** `\s+` then a literal word: some whitespace, then the word itself. */
  lemma SpacesThenLits(w: string, s: string, i: nat, caps: seq<nat>, f: Found) returns (n: nat)
    requires i <= |s| && Sorted(caps) && AtMost(caps, i)
    requires Match([Rep(Space, 1, true)] + Lits(w), s, i, caps) == Some(f)
    ensures 1 <= n && i + n <= |s|
    ensures forall x :: i <= x < i + n ==> PyStr.IsSpace(s[x])
    ensures PyStr.OccursAt(s, w, i + n)
  {
    var p := [Rep(Space, 1, true)] + Lits(w);
    n := RepWitness(p, s, i, caps, f);
    forall x | i <= x < i + n ensures PyStr.IsSpace(s[x]) {
      assert InClass(Space, s[x]);
    }
    assert p[1..] == Lits(w) + [];
    SinglesPrefix(Lits(w), [], s, i + n, caps, f);
    assert s[i + n..i + n + |w|] == w by {
      forall t | 0 <= t < |w| ensures s[i + n + t] == w[t] {
        assert Lits(w)[t] == One(Lit(w[t]));
      }
    }
  }

  lemma {:induction false} MarkersAppend(p: seq<Piece>, q: seq<Piece>)
    ensures Markers(p + q) == Markers(p) + Markers(q)
    ensures MinLen(p + q) == MinLen(p) + MinLen(q)
    decreases |p|
  {
    if p == [] {
      assert p + q == q;
    } else {
      assert (p + q)[0] == p[0] && (p + q)[1..] == p[1..] + q;
      MarkersAppend(p[1..], q);
    }
  }

  lemma {:induction false} NoMarkers(p: seq<Piece>)
    requires forall t :: 0 <= t < |p| ==> !IsMarker(p[t])
    ensures Markers(p) == 0
    decreases |p|
  {
    if p != [] {
      NoMarkers(p[1..]);
    }
  }

  /** A match of a pattern that begins with literal text starts with that text. */
  lemma LiteralHead(w: string, q: seq<Piece>, s: string, i: nat, f: Found)
    requires i <= |s|
    requires Match(Lits(w) + q, s, i, []) == Some(f)
    ensures PyStr.OccursAt(s, w, i)
  {
    SinglesPrefix(Lits(w), q, s, i, [], f);
  }

  /** `re.search` for a pattern that begins with literal text finds nothing in a text without it. */
  lemma SearchNeedsHead(w: string, q: seq<Piece>, s: string)
    requires !PyStr.Contains(s, w)
    ensures Search(Lits(w) + q, s).None?
  {
    var r := Search(Lits(w) + q, s);
    if r.Some? {
      LiteralHead(w, q, s, r.value.0, r.value.1);
    }
  }
}
