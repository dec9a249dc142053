/**
 * What `parse_award_file` guarantees about the record it returns: which fields
 * are present, what a missing label gives, what the labelled values and the
 * sponsor parts look like, and how the dates and the amount come out.
 */
module AwardFacts {
  import opened Wrappers
  import PyStr
  import Regex
  import Dates
  import Amount
  import opened AwardData
  import opened Award

  // ---------------------------------------------------------------------------
  // Text facts

  /** Stripping a slice that holds no line break leaves no line break. */
  lemma StripOneLine(s: string, lo: nat, hi: nat)
    requires lo <= hi <= |s|
    requires forall x :: lo <= x < hi ==> s[x] != '\n'
    ensures '\n' !in PyStr.Strip(s[lo..hi])
  {
    LineSlice(s, lo, hi);
    PyStr.StripWithin(s[lo..hi], '\n');
  }

  /** A slice with no line break in it. */
  lemma LineSlice(s: string, lo: nat, hi: nat)
    requires lo <= hi <= |s|
    requires forall x :: lo <= x < hi ==> s[x] != '\n'
    ensures '\n' !in s[lo..hi]
  {
    var g := s[lo..hi];
    forall i | 0 <= i < |g| ensures g[i] != '\n' {
      assert g[i] == s[lo + i];
    }
  }

  // ---------------------------------------------------------------------------
  // The labelled fields

  /** The value group of a labelled pattern holds at least one character and no line break. */
  lemma CaptureOneLine(f: Field, text: string)
    requires IsLabelled(f) && Regex.Search(Pattern(f), text).Some?
    ensures var m := Regex.Search(Pattern(f), text).value.1;
            |m.caps| == 2 && m.caps[0] < m.caps[1] <= |text|
            && forall x :: m.caps[0] <= x < m.caps[1] ==> text[x] != '\n'
  {
    var st := Regex.Search(Pattern(f), text).value.0;
    var m := Regex.Search(Pattern(f), text).value.1;
    assert Regex.Match(Pattern(f), text, st, []) == Some(m);
    var pre := Regex.Lits(Head(f)) + Gap(f);
    PlainParts(f);
    Regex.NoMarkers(pre);
    var j, c := Regex.MatchSplit(pre, Capture + Trailer(f), text, st, [], m);
    assert c == [];
    assert Capture + Trailer(f) == [Regex.Open, Regex.Rep(Regex.AnyButNewline, 1, true), Regex.Close] + Trailer(f);
    Regex.RepGroup(Regex.AnyButNewline, 1, true, Trailer(f), text, j, c, m);
  }

  /** A labelled value is the rest of one line: it holds no line break. */
  lemma LabelOneLine(f: Field, text: string)
    requires IsLabelled(f) && LabelValue(f, text).Some?
    ensures '\n' !in LabelValue(f, text).value
  {
    var m := Regex.Search(Pattern(f), text).value.1;
    CaptureOneLine(f, text);
    var lo, hi := m.caps[0], m.caps[1];
    assert LabelValue(f, text).value == PyStr.Strip(text[lo..hi]);
    StripOneLine(text, lo, hi);
  }

  /** A field whose label word does not occur in the text is `None`. */
  lemma LabelAbsent(f: Field, text: string)
    requires IsLabelled(f) && !PyStr.Contains(text, Head(f))
    ensures LabelValue(f, text).None?
    ensures LabelEntry(f, text) == Null
  {
    PatternAbsent(f, text);
  }

  /** The pattern starts with the head word, so it cannot match without it. */
  lemma PatternAbsent(f: Field, text: string)
    requires IsLabelled(f) && !PyStr.Contains(text, Head(f))
    ensures Regex.Search(Pattern(f), text).None?
  {
    var rest := PatternHead(f);
    Regex.SearchNeedsHead(Head(f), rest, text);
  }

  /** A field's pattern is its head word's literals and then the rest. */
  lemma PatternHead(f: Field) returns (rest: seq<Regex.Piece>)
    requires IsLabelled(f)
    ensures Pattern(f) == Regex.Lits(Head(f)) + rest
  {
    var a, b, c := Regex.Lits(Head(f)), Gap(f), Capture + Trailer(f);
    assert Pattern(f) == (a + b) + c;
    rest := b + c;
  }

  /** The amount pattern, cut before the `$` and before the captured value. */
  lemma AmountPatternParts()
    ensures Pattern(ExpectedTotalAmt)
         == (Regex.Lits("Expected") + [Spaces(1)] + Regex.Lits("Total Amt.") + Colon(1))
          + ([Regex.One(Regex.Lit('$'))] + (Capture + Trailer(ExpectedTotalAmt)))
  {
  }

  /** Some whitespace starting at `e`, then the word `(Estimated)`. */
  predicate EstimatedAfter(s: string, e: nat) {
    exists k :: e < k <= |s| && PyStr.AllSpace(s[e..k]) && PyStr.OccursAt(s, "(Estimated)", k)
  }

  /** `\s+\(Estimated\)` matches only where whitespace and then `(Estimated)` follow. */
  lemma EstimatedTrailer(s: string, e: nat, c: seq<nat>, f: Regex.Found)
    requires e <= |s| && Regex.Sorted(c) && Regex.AtMost(c, e)
    requires Regex.Match(Trailer(ExpectedTotalAmt), s, e, c) == Some(f)
    ensures EstimatedAfter(s, e)
  {
    AmountTrailer();
    var n := Regex.SpacesThenLits("(Estimated)", s, e, c, f);
    EstimatedAt(s, e, n);
  }

  /** The amount's trailer is `\s+` and then the literal `(Estimated)`. */
  lemma AmountTrailer()
    ensures Trailer(ExpectedTotalAmt) == [Regex.Rep(Regex.Space, 1, true)] + Regex.Lits("(Estimated)")
  {
  }

  /** Whitespace from `e` up to an occurrence of `(Estimated)`. */
  lemma EstimatedAt(s: string, e: nat, n: nat)
    requires 1 <= n && e + n <= |s|
    requires forall x :: e <= x < e + n ==> PyStr.IsSpace(s[x])
    requires PyStr.OccursAt(s, "(Estimated)", e + n)
    ensures EstimatedAfter(s, e)
  {
    var g := s[e..e + n];
    forall x | 0 <= x < |g| ensures PyStr.IsSpace(g[x]) {
      assert g[x] == s[e + x];
    }
  }

  /**
   * The amount is captured right after a `$` and is followed, after some
   * whitespace, by `(Estimated)`.
   */
  predicate AmountShape(text: string, m: Regex.Found) {
    && |m.caps| == 2 && 1 <= m.caps[0] <= |text| && text[m.caps[0] - 1] == '$'
    && EstimatedAfter(text, m.caps[1])
  }

  /** The match of the amount pattern has the shape `AmountShape` describes. */
  lemma AmountBetween(text: string)
    requires Regex.Search(Pattern(ExpectedTotalAmt), text).Some?
    ensures AmountShape(text, Regex.Search(Pattern(ExpectedTotalAmt), text).value.1)
  {
    var st := Regex.Search(Pattern(ExpectedTotalAmt), text).value.0;
    var m := Regex.Search(Pattern(ExpectedTotalAmt), text).value.1;
    AmountMatch(Pattern(ExpectedTotalAmt), text, st, m);
  }

  /** `AmountBetween` for one match of the amount pattern `p`. */
  lemma AmountMatch(p: seq<Regex.Piece>, text: string, st: nat, m: Regex.Found)
    requires p == Pattern(ExpectedTotalAmt)
    requires st <= |text| && Regex.Match(p, text, st, []) == Some(m)
    ensures AmountShape(text, m)
  {
    var pre := Regex.Lits("Expected") + [Spaces(1)] + Regex.Lits("Total Amt.") + Colon(1);
    var dollar := [Regex.One(Regex.Lit('$'))];
    var rest := Capture + Trailer(ExpectedTotalAmt);
    AmountPatternParts();
    assert Regex.Match(pre + (dollar + rest), text, st, []) == Some(m);
    Regex.NoMarkers(pre);
    var e, c2 := AfterDollar(pre, Trailer(ExpectedTotalAmt), text, st, m);
    EstimatedTrailer(text, e, c2, m);
  }

  /** A marker-free prefix, then `\$(.+)`, then `q`. */
  lemma AfterDollar(pre: seq<Regex.Piece>, q: seq<Regex.Piece>, s: string, st: nat, f: Regex.Found)
    returns (e: nat, c2: seq<nat>)
    requires st <= |s| && Regex.Markers(pre) == 0
    requires Regex.Match(pre + ([Regex.One(Regex.Lit('$'))] + (Capture + q)), s, st, []) == Some(f)
    ensures |f.caps| >= 2 && 1 <= f.caps[0] && s[f.caps[0] - 1] == '$' && f.caps[1] == e
    ensures e <= |s| && Regex.Sorted(c2) && Regex.AtMost(c2, e) && Regex.Match(q, s, e, c2) == Some(f)
  {
    var j0, c0 := Regex.MatchSplit(pre, [Regex.One(Regex.Lit('$'))] + (Capture + q), s, st, [], f);
    assert c0 == [];
    e, c2 := DollarGroup(q, s, j0, f);
  }

  /** `\$(.+)` then `q`: a dollar sign, then the group, which `q` follows. */
  lemma DollarGroup(q: seq<Regex.Piece>, s: string, j: nat, f: Regex.Found) returns (e: nat, c2: seq<nat>)
    requires j <= |s|
    requires Regex.Match([Regex.One(Regex.Lit('$'))] + (Capture + q), s, j, []) == Some(f)
    ensures j < |s| && s[j] == '$'
    ensures |f.caps| >= 2 && f.caps[0] == j + 1 && f.caps[1] == e
    ensures e <= |s| && Regex.Sorted(c2) && Regex.AtMost(c2, e) && Regex.Match(q, s, e, c2) == Some(f)
  {
    Regex.SinglesPrefix([Regex.One(Regex.Lit('$'))], Capture + q, s, j, [], f);
    assert Regex.InClass(Regex.Lit('$'), s[j]);
    assert Capture + q == [Regex.Open, Regex.Rep(Regex.AnyButNewline, 1, true), Regex.Close] + q;
    e, c2 := GroupSpan(Regex.AnyButNewline, 1, true, q, s, j + 1, [], f);
  }

  // ---------------------------------------------------------------------------
  // The sponsor block

  /** `\d{3}/\d{3}-\d{4}`. */
  predicate IsPhone(p: string) {
    && |p| == 12 && p[3] == '/' && p[7] == '-'
    && forall i :: 0 <= i < 12 && i != 3 && i != 7 ==> PyStr.IsDigit(p[i])
  }

  /** A phone number starts at position `i`. */
  predicate PhoneAt(s: string, i: nat) {
    i + 12 <= |s| && IsPhone(s[i..i + 12])
  }

  /** A group around one repetition records where it starts and ends, and holds only its class. */
  lemma GroupSpan(k: Regex.Class, min: nat, greedy: bool, q: seq<Regex.Piece>, s: string, j: nat, c: seq<nat>, f: Regex.Found)
    returns (j2: nat, c2: seq<nat>)
    requires j <= |s| && Regex.Sorted(c) && Regex.AtMost(c, j)
    requires Regex.Match([Regex.Open, Regex.Rep(k, min, greedy), Regex.Close] + q, s, j, c) == Some(f)
    ensures c2 == c + [j, j2] && |c2| == |c| + 2
    ensures j + min <= j2 <= |s| && Regex.Sorted(c2) && Regex.AtMost(c2, j2)
    ensures Regex.Match(q, s, j2, c2) == Some(f)
    ensures |c| + 1 < |f.caps| && f.caps[|c|] == j && f.caps[|c| + 1] == j2
    ensures forall x :: j <= x < j2 ==> Regex.InClass(k, s[x])
  {
    var n := Regex.RepGroupStep(k, min, greedy, q, s, j, c, f);
    j2 := j + n;
    c2 := c + [j, j2];
    assert Regex.Fits(q, s, j2, c2, f);
    assert f.caps[..|c2|] == c2;
    assert f.caps[|c|] == f.caps[..|c2|][|c|] == c2[|c|];
    assert f.caps[|c| + 1] == f.caps[..|c2|][|c| + 1] == c2[|c| + 1];
  }

  /** A lazy line group `(.*?)` records where it starts and ends, and spans no line break. */
  lemma LineGroup(q: seq<Regex.Piece>, s: string, j: nat, c: seq<nat>, f: Regex.Found)
    returns (j2: nat, c2: seq<nat>)
    requires j <= |s| && Regex.Sorted(c) && Regex.AtMost(c, j)
    requires Regex.Match(LazyLine + q, s, j, c) == Some(f)
    ensures c2 == c + [j, j2] && |c2| == |c| + 2
    ensures j <= j2 <= |s| && Regex.Sorted(c2) && Regex.AtMost(c2, j2)
    ensures Regex.Match(q, s, j2, c2) == Some(f)
    ensures |c| + 1 < |f.caps| && f.caps[|c|] == j && f.caps[|c| + 1] == j2
    ensures forall x :: j <= x < j2 ==> s[x] != '\n'
  {
    assert LazyLine + q == [Regex.Open, Regex.Rep(Regex.AnyButNewline, 0, false), Regex.Close] + q;
    j2, c2 := GroupSpan(Regex.AnyButNewline, 0, false, q, s, j, c, f);
  }

  /** `\n\s*` moves past at least one character and records nothing. */
  lemma BreakStep(q: seq<Regex.Piece>, s: string, j: nat, c: seq<nat>, f: Regex.Found) returns (j2: nat)
    requires j <= |s| && Regex.Sorted(c) && Regex.AtMost(c, j)
    requires Regex.Match(LineBreak + q, s, j, c) == Some(f)
    ensures j < j2 <= |s| && Regex.AtMost(c, j2) && Regex.Match(q, s, j2, c) == Some(f)
  {
    Regex.NoMarkers(LineBreak);
    var c2;
    j2, c2 := Regex.MatchSplit(LineBreak, q, s, j, c, f);
    assert c2 == c2[..|c|] == c;
  }

  /** `(\d{3}/\d{3}-\d{4})`: the phone group. */
  const PhoneGroup: seq<Regex.Piece> := [Regex.Open] + PhonePieces + [Regex.Close]

  /** The sponsor pattern, cut where the line groups and the phone group begin. */
  lemma SponsorPatternParts()
    ensures SponsorPattern()
         == (Regex.Lits("Sponsor") + Colon0())
          + (LazyLine + (LineBreak + (LazyLine + (LineBreak + (LazyLine + PhoneGroup)))))
  {
  }

  /** The phone group holds twelve characters of phone shape. */
  lemma PhoneMatch(s: string, j: nat, c: seq<nat>, f: Regex.Found)
    requires j <= |s| && Regex.Sorted(c) && Regex.AtMost(c, j)
    requires Regex.Match(PhoneGroup, s, j, c) == Some(f)
    ensures |c| + 1 < |f.caps| && f.caps[|c|] == j && f.caps[|c| + 1] == j + 12 <= |s|
    ensures PhoneAt(s, j)
  {
    assert PhoneGroup == [Regex.Open] + PhonePieces + [Regex.Close] + [];
    Regex.SinglesGroup(PhonePieces, [], s, j, c, f);
    var p := s[j..j + 12];
    forall i | 0 <= i < 12 ensures Regex.InClass(PhonePieces[i].k, p[i]) {
      assert p[i] == s[j + i];
    }
  }

  /**
   * In a match of the sponsor pattern, the three line groups span no line break
   * and the phone group is twelve characters of phone shape.
   */
  lemma SponsorGroups(text: string)
    requires Regex.Search(SponsorPattern(), text).Some?
    ensures var m := Regex.Search(SponsorPattern(), text).value.1;
            && |m.caps| == 8
            && (forall x :: m.caps[0] <= x < m.caps[1] ==> text[x] != '\n')
            && (forall x :: m.caps[2] <= x < m.caps[3] ==> text[x] != '\n')
            && (forall x :: m.caps[4] <= x < m.caps[5] ==> text[x] != '\n')
            && m.caps[7] == m.caps[6] + 12 && PhoneAt(text, m.caps[6])
  {
    var st := Regex.Search(SponsorPattern(), text).value.0;
    var m := Regex.Search(SponsorPattern(), text).value.1;
    assert Regex.Match(SponsorPattern(), text, st, []) == Some(m);
    var pre := Regex.Lits("Sponsor") + Colon0();
    var r3 := LazyLine + PhoneGroup;
    var r2 := LazyLine + (LineBreak + r3);
    var r1 := LazyLine + (LineBreak + r2);
    SponsorPatternParts();
    Regex.NoMarkers(pre);
    var j1, c0 := Regex.MatchSplit(pre, r1, text, st, [], m);
    assert c0 == [];
    var k1, c2 := LineGroup(LineBreak + r2, text, j1, [], m);
    var j2 := BreakStep(r2, text, k1, c2, m);
    var k2, c4 := LineGroup(LineBreak + r3, text, j2, c2, m);
    var j3 := BreakStep(r3, text, k2, c4, m);
    var k3, c6 := LineGroup(PhoneGroup, text, j3, c4, m);
    PhoneMatch(text, k3, c6, m);
  }

  /** A phone number has nothing to strip. */
  lemma PhoneStripped(p: string)
    requires IsPhone(p)
    ensures PyStr.Strip(p) == p
  {
    assert PyStr.IsDigit(p[0]) && PyStr.IsDigit(p[11]);
    PyStr.StripPadded([], p, []);
    assert [] + p + [] == p;
  }

  /**
   * The shape of a matched sponsor: a one-line trimmed name, an address made of
   * two one-line trimmed parts joined by `, `, and a phone of shape `ddd/ddd-dddd`.
   */
  ghost predicate SponsorShaped(info: SponsorInfo) {
    && IsPhone(info.phone)
    && '\n' !in info.name && PyStr.IsTrimmed(info.name)
    && exists a, b :: info.address == a + ", " + b
        && '\n' !in a && '\n' !in b && PyStr.IsTrimmed(a) && PyStr.IsTrimmed(b)
  }

  /** Stripping three one-line groups and a phone number gives that shape. */
  lemma ShapedSponsor(n: string, a: string, b: string, p: string)
    requires '\n' !in n && '\n' !in a && '\n' !in b && IsPhone(p)
    ensures SponsorShaped(SponsorInfo(PyStr.Strip(n), PyStr.Strip(a) + ", " + PyStr.Strip(b), PyStr.Strip(p)))
  {
    PyStr.StripWithin(n, '\n');
    PyStr.StripWithin(a, '\n');
    PyStr.StripWithin(b, '\n');
    PhoneStripped(p);
    var sa, sb := PyStr.Strip(a), PyStr.Strip(b);
    assert SponsorInfo(PyStr.Strip(n), sa + ", " + sb, PyStr.Strip(p)).address == sa + ", " + sb;
  }

  /** Every sponsor match has the shape above. */
  lemma SponsorShape(text: string)
    requires SponsorMatch(text).Some?
    ensures SponsorShaped(SponsorMatch(text).value)
  {
    var m := Regex.Search(SponsorPattern(), text).value.1;
    SponsorGroups(text);
    LineSlice(text, m.caps[0], m.caps[1]);
    LineSlice(text, m.caps[2], m.caps[3]);
    LineSlice(text, m.caps[4], m.caps[5]);
    ShapedSponsor(Regex.Group(text, m, 0), Regex.Group(text, m, 1), Regex.Group(text, m, 2), Regex.Group(text, m, 3));
  }

  // ---------------------------------------------------------------------------
  // The record returned

  /** The conversion `parse_award_file` applies to one field's raw entry. */
  function Converted(f: Field, v: Value): Value {
    if IsDateField(f) then DateValue(v)
    else if f == ExpectedTotalAmt && AmountValue(v).Ok? then AmountValue(v).value
    else v
  }

  /** One entry of a finished record: the amount converted, then cleaned. */
  lemma FinishEntry(dated: Record, f: Field)
    requires ExpectedTotalAmt in dated && f in dated && Finish(dated).Ok?
    ensures AmountValue(dated[ExpectedTotalAmt]).Ok?
    ensures Finish(dated).value[f]
         == CleanValue(if f == ExpectedTotalAmt then AmountValue(dated[f]).value else dated[f])
  {
  }

  /**
   * Each entry of the returned record depends on its own pattern only: it is the
   * field's raw entry, converted and cleaned.
   */
  lemma ParseAwardEntry(text: string, f: Field)
    requires ParseAward(text).Ok?
    ensures ParseAward(text).value[f] == CleanValue(Converted(f, Extracted(text)[f]))
  {
    var raw := Extracted(text);
    var dated := WithDates(raw);
    assert ParseAward(text) == Finish(dated);
    assert dated[f] == if IsDateField(f) then DateValue(raw[f]) else raw[f];
    FinishEntry(dated, f);
  }

  /** `parse_award_file` raises exactly when the amount text is set and `float` rejects it. */
  lemma ParseAwardError(text: string)
    ensures ParseAward(text).Err?
        <==> var v := LabelValue(ExpectedTotalAmt, text);
             v.Some? && v.value != [] && Amount.AmountOf(v.value).None?
  {
    var raw := Extracted(text);
    var dated := WithDates(raw);
    assert ParseAward(text) == Finish(dated);
    ExtractedEntry(text, ExpectedTotalAmt);
    assert dated[ExpectedTotalAmt] == raw[ExpectedTotalAmt];
  }

  /** A field whose label does not occur in the text comes out `None`. */
  lemma MissingLabel(text: string, f: Field)
    requires ParseAward(text).Ok?
    requires IsLabelled(f) && !PyStr.Contains(text, Head(f))
    ensures ParseAward(text).value[f] == Null
  {
    ParseAwardEntry(text, f);
    ExtractedEntry(text, f);
    LabelAbsent(f, text);
  }

  /**
   * A labelled field that is neither a date nor the amount holds its pattern's
   * value, cleaned, or `None`; the value is the trimmed rest of a single line.
   */
  lemma TextFieldEntry(text: string, f: Field)
    requires ParseAward(text).Ok?
    requires IsLabelled(f) && !IsDateField(f) && f != ExpectedTotalAmt
    ensures ParseAward(text).value[f]
         == if LabelValue(f, text).None? then Null else Str(CleanString(LabelValue(f, text).value))
    ensures LabelValue(f, text).Some? ==>
              PyStr.IsTrimmed(LabelValue(f, text).value) && '\n' !in LabelValue(f, text).value
  {
    ParseAwardEntry(text, f);
    ExtractedEntry(text, f);
    if LabelValue(f, text).Some? {
      LabelOneLine(f, text);
    }
  }

  /** A date field comes out `None`, empty, or a valid calendar date; a bad date never raises. */
  lemma DateFieldEntry(text: string, f: Field)
    requires ParseAward(text).Ok? && IsDateField(f)
    ensures var v := ParseAward(text).value[f];
            v == Null || v == Str("") || (v.DateVal? && Dates.ValidDate(v.d))
  {
    ParseAwardEntry(text, f);
    ExtractedEntry(text, f);
    assert IsLabelled(f);
    DatedClean(Extracted(text)[f]);
  }

  /** A date key's raw text, converted and then cleaned. */
  lemma DatedClean(raw: Value)
    requires raw.Null? || raw.Str?
    ensures var v := CleanValue(DateValue(raw));
            v == Null || v == Str("") || (v.DateVal? && Dates.ValidDate(v.d))
  {
    assert CleanString("") == "";
  }

  /** A set date text comes out as the date `strptime` reads after the notes are dropped, or `None`. */
  lemma DateTextEntry(text: string, f: Field, x: string)
    requires ParseAward(text).Ok? && IsDateField(f)
    requires LabelValue(f, text) == Some(x) && x != []
    ensures ParseAward(text).value[f]
         == if Dates.ParseDateField(x).Some? then DateVal(Dates.ParseDateField(x).value) else Null
  {
    ParseAwardEntry(text, f);
    ExtractedEntry(text, f);
  }

  /** The note of a one-line annotated date holds no line break. */
  lemma NoteOneLine(x: string, note: string)
    requires '\n' !in x + " (" + note + ")"
    ensures '\n' !in note
  {
    var v := x + " (" + note + ")";
    forall i | 0 <= i < |note| ensures note[i] != '\n' {
      assert note[i] == v[|x| + 2 + i];
    }
  }

  /** A date field written `Month D, YYYY (note)` comes out as that date. */
  lemma AnnotatedDateEntry(text: string, f: Field, d: Dates.Date, note: string)
    requires ParseAward(text).Ok? && IsDateField(f) && Dates.ValidDate(d)
    requires LabelValue(f, text) == Some(Dates.FormatDate(d) + " (" + note + ")")
    ensures ParseAward(text).value[f] == DateVal(d)
  {
    var x := Dates.FormatDate(d) + " (" + note + ")";
    LabelOneLine(f, text);
    NoteOneLine(Dates.FormatDate(d), note);
    Dates.ParseAnnotatedDate(d, note);
    DateTextEntry(text, f, x);
  }

  /**
   * The amount comes out `None`, empty, or the number `float` reads from the
   * captured text once its commas are removed.
   */
  lemma AmountEntry(text: string)
    requires ParseAward(text).Ok?
    ensures var v := ParseAward(text).value[ExpectedTotalAmt];
            || v == Null || v == Str("")
            || (&& v.Amount? && LabelValue(ExpectedTotalAmt, text).Some?
                && Amount.AmountOf(LabelValue(ExpectedTotalAmt, text).value) == Some(v.x))
  {
    ParseAwardEntry(text, ExpectedTotalAmt);
    ExtractedEntry(text, ExpectedTotalAmt);
    assert CleanString("") == "";
  }

  /** An amount written with thousands separators is stored as the number it spells, without error. */
  lemma GroupedAmountEntry(text: string, ds: string)
    requires ds != [] && PyStr.AllDigits(ds)
    requires LabelValue(ExpectedTotalAmt, text) == Some(Amount.Grouped(ds))
    ensures ParseAward(text).Ok?
    ensures ParseAward(text).value[ExpectedTotalAmt] == Amount(PyStr.DigitsValue(ds) as real)
  {
    Amount.GroupedAmount(ds);
    AmountRead(text, Amount.Grouped(ds), PyStr.DigitsValue(ds) as real);
  }

  /** A set amount text that `float` reads is stored as that number, without error. */
  lemma AmountRead(text: string, v: string, x: real)
    requires LabelValue(ExpectedTotalAmt, text) == Some(v) && v != [] && Amount.AmountOf(v) == Some(x)
    ensures ParseAward(text).Ok? && ParseAward(text).value[ExpectedTotalAmt] == Amount(x)
  {
    ParseAwardError(text);
    ParseAwardEntry(text, ExpectedTotalAmt);
    ExtractedEntry(text, ExpectedTotalAmt);
  }

  /** A phone number holds neither NUL nor U+FFFD, so cleaning keeps it. */
  lemma PhoneClean(p: string)
    requires IsPhone(p)
    ensures CleanString(p) == p
  {
    forall i | 0 <= i < |p| ensures p[i] != NUL && p[i] != REPLACEMENT {
      assert i == 3 || i == 7 || PyStr.IsDigit(p[i]);
    }
    CleanStringClean(p);
  }

  /** A sponsor field holds its part of the sponsor match, cleaned, or `None` without a match. */
  lemma SponsorFieldEntry(text: string, f: Field)
    requires ParseAward(text).Ok? && !IsLabelled(f)
    ensures ParseAward(text).value[f] == CleanValue(SponsorEntry(f, SponsorMatch(text)))
  {
    ParseAwardEntry(text, f);
    ExtractedEntry(text, f);
  }

  /**
   * The three sponsor fields are all set or all `None`, set exactly when the
   * sponsor pattern occurs.
   */
  lemma SponsorAllOrNone(text: string)
    requires ParseAward(text).Ok?
    ensures var r := ParseAward(text).value;
            && (r[Sponsor] == Null <==> SponsorMatch(text).None?)
            && (r[SponsorAddress] == Null <==> SponsorMatch(text).None?)
            && (r[SponsorPhone] == Null <==> SponsorMatch(text).None?)
            && (SponsorMatch(text).None? <==> Regex.Search(SponsorPattern(), text).None?)
  {
    SponsorFieldEntry(text, Sponsor);
    SponsorFieldEntry(text, SponsorAddress);
    SponsorFieldEntry(text, SponsorPhone);
  }

  /** A sponsor match's phone has the shape `ddd/ddd-dddd`. */
  lemma SponsorPhoneShape(text: string)
    requires SponsorMatch(text).Some?
    ensures IsPhone(SponsorMatch(text).value.phone)
  {
    SponsorShape(text);
  }

  /** The cleaned phone entry of a match with a phone-shaped phone is that phone. */
  lemma PhoneEntryOf(m: Option<SponsorInfo>)
    requires m.Some? ==> IsPhone(m.value.phone)
    ensures var v := CleanValue(SponsorEntry(SponsorPhone, m));
            v != Null ==> v.Str? && IsPhone(v.s)
  {
    if m.Some? {
      PhoneClean(m.value.phone);
    }
  }

  /** A set sponsor phone has the shape `ddd/ddd-dddd`. */
  lemma SponsorPhoneEntry(text: string)
    requires ParseAward(text).Ok?
    ensures var v := ParseAward(text).value[SponsorPhone];
            v != Null ==> v.Str? && IsPhone(v.s)
  {
    SponsorFieldEntry(text, SponsorPhone);
    var m := SponsorMatch(text);
    if m.Some? {
      SponsorPhoneShape(text);
    }
    PhoneEntryOf(m);
  }
}
