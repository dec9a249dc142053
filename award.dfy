/**
 * `parse_award_file`: reads the labelled fields and the sponsor block of an NSF
 * award text with regular expressions, turns the three date fields into dates and
 * the expected total amount into a number, then cleans the record.
 */
module Award {
  import opened Wrappers
  import PyStr
  import Regex
  import Dates
  import Amount
  import opened AwardData

  // ---------------------------------------------------------------------------
  // The patterns

  /** `\s+` (min 1) or `\s*` (min 0). */
  function Spaces(min: nat): Regex.Piece {
    Regex.Rep(Regex.Space, min, true)
  }

  /** `(.+)`: the captured value, the rest of the line. */
  const Capture: seq<Regex.Piece> := [Regex.Open, Regex.Rep(Regex.AnyButNewline, 1, true), Regex.Close]

  /** `<gap>:\s+` after a label, where the gap before the colon is `\s+` or `\s*`. */
  function Colon(gapMin: nat): seq<Regex.Piece> {
    [Spaces(gapMin), Regex.One(Regex.Lit(':')), Spaces(1)]
  }

  /** The literal word a field's pattern starts with. */
  function Head(f: Field): string
    requires IsLabelled(f)
  {
    match f
    case Title => "Title"
    case Type => "Type"
    case NsfOrg => "NSF Org"
    case LatestAmendmentDate => "Latest"
    case File => "File"
    case AwardNumber => "Award Number"
    case AwardInstr => "Award Instr."
    case PrgmManager => "Prgm Manager"
    case StartDate => "Start Date"
    case Expires => "Expires"
    case ExpectedTotalAmt => "Expected"
    case Investigator => "Investigator"
    case Abstract => "Abstract"
    case NsfProgram => "NSF Program"
    case FldApplictn => "Fld Applictn"
    case ProgramRef => "Program Ref"
  }

  /** What a field's pattern requires between its head word and the captured value. */
  function Gap(f: Field): seq<Regex.Piece>
    requires IsLabelled(f)
  {
    match f
    case LatestAmendmentDate =>
      [Spaces(1)] + Regex.Lits("Amendment") + [Spaces(1)] + Regex.Lits("Date") + Colon(1)
    case ExpectedTotalAmt =>
      [Spaces(1)] + Regex.Lits("Total Amt.") + Colon(1) + [Regex.One(Regex.Lit('$'))]
    case AwardNumber => Colon(0)
    case AwardInstr => Colon(0)
    case PrgmManager => Colon(0)
    case Investigator => Colon(0)
    case FldApplictn => Colon(0)
    case _ => Colon(1)
  }

  /** What must follow the captured value: `\s+\(Estimated\)` for the amount, nothing otherwise. */
  function Trailer(f: Field): seq<Regex.Piece>
    requires IsLabelled(f)
  {
    if f == ExpectedTotalAmt then [Spaces(1)] + Regex.Lits("(Estimated)") else []
  }

  /** Patterns without group markers. */
  predicate Plain(p: seq<Regex.Piece>) {
    forall t :: 0 <= t < |p| ==> !Regex.IsMarker(p[t])
  }

  /** Concatenating patterns without group markers gives one without them. */
  lemma PlainAppend(a: seq<Regex.Piece>, b: seq<Regex.Piece>)
    requires Plain(a) && Plain(b)
    ensures Plain(a + b)
  {
    forall t | 0 <= t < |a + b| ensures !Regex.IsMarker((a + b)[t]) {
      if t >= |a| {
        assert (a + b)[t] == b[t - |a|];
      }
    }
  }

  /** A gap of spaces, a literal word, then more. */
  lemma PlainWord(w: string, q: seq<Regex.Piece>)
    requires Plain(q)
    ensures Plain([Spaces(1)] + Regex.Lits(w) + q)
  {
    PlainAppend([Spaces(1)], Regex.Lits(w));
    PlainAppend([Spaces(1)] + Regex.Lits(w), q);
  }

  /** No field's gap holds a group marker. */
  lemma PlainGap(f: Field)
    requires IsLabelled(f)
    ensures Plain(Gap(f))
  {
    if f == LatestAmendmentDate {
      PlainWord("Date", Colon(1));
      PlainWord("Amendment", [Spaces(1)] + Regex.Lits("Date") + Colon(1));
      assert Gap(f) == [Spaces(1)] + Regex.Lits("Amendment") + ([Spaces(1)] + Regex.Lits("Date") + Colon(1));
    } else if f == ExpectedTotalAmt {
      PlainWord("Total Amt.", Colon(1) + [Regex.One(Regex.Lit('$'))]);
      assert Gap(f) == [Spaces(1)] + Regex.Lits("Total Amt.") + (Colon(1) + [Regex.One(Regex.Lit('$'))]);
    } else {
      assert Gap(f) == Colon(0) || Gap(f) == Colon(1);
    }
  }

  /** A field's pattern holds group markers only around its captured value. */
  lemma PlainParts(f: Field)
    requires IsLabelled(f)
    ensures Plain(Regex.Lits(Head(f)) + Gap(f)) && Plain(Trailer(f))
  {
    PlainGap(f);
    PlainAppend(Regex.Lits(Head(f)), Gap(f));
    if f == ExpectedTotalAmt {
      PlainWord("(Estimated)", []);
      assert Trailer(f) == [Spaces(1)] + Regex.Lits("(Estimated)") + [];
    }
  }

  /** The pattern of a labelled field: head word, gap, `(.+)`, trailer. */
  function Pattern(f: Field): (p: seq<Regex.Piece>)
    requires IsLabelled(f)
    ensures Regex.Markers(p) == 2
  {
    var pre := Regex.Lits(Head(f)) + Gap(f);
    PlainParts(f);
    Regex.NoMarkers(pre);
    Regex.NoMarkers(Trailer(f));
    Regex.MarkersAppend(pre, Capture + Trailer(f));
    Regex.MarkersAppend(Capture, Trailer(f));
    assert Capture[1..][1..][1..] == [];
    pre + (Capture + Trailer(f))
  }

  /** `\d{3}/\d{3}-\d{4}`. */
  const PhonePieces: seq<Regex.Piece> :=
    [Regex.One(Regex.Digit), Regex.One(Regex.Digit), Regex.One(Regex.Digit), Regex.One(Regex.Lit('/')),
     Regex.One(Regex.Digit), Regex.One(Regex.Digit), Regex.One(Regex.Digit), Regex.One(Regex.Lit('-')),
     Regex.One(Regex.Digit), Regex.One(Regex.Digit), Regex.One(Regex.Digit), Regex.One(Regex.Digit)]

  /** `(.*?)`: one sponsor line, as short as the rest of the pattern allows. */
  const LazyLine: seq<Regex.Piece> := [Regex.Open, Regex.Rep(Regex.AnyButNewline, 0, false), Regex.Close]

  /** `\n\s*` between sponsor lines. */
  const LineBreak: seq<Regex.Piece> := [Regex.One(Regex.Lit('\n')), Spaces(0)]

  /** Everything of the sponsor pattern before the phone group. */
  function SponsorLines(): (p: seq<Regex.Piece>)
    ensures Regex.Markers(p) == 6
  {
    var pre := Regex.Lits("Sponsor") + Colon0();
    var p := pre + LazyLine + LineBreak + LazyLine + LineBreak + LazyLine;
    assert p == pre + (LazyLine + (LineBreak + (LazyLine + (LineBreak + LazyLine))));
    Regex.NoMarkers(pre);
    Regex.NoMarkers(LineBreak);
    assert Regex.Markers(LazyLine) == 2 by { assert LazyLine[1..][1..][1..] == []; }
    Regex.MarkersAppend(LineBreak, LazyLine);
    Regex.MarkersAppend(LazyLine, LineBreak + LazyLine);
    Regex.MarkersAppend(LineBreak, LazyLine + (LineBreak + LazyLine));
    Regex.MarkersAppend(LazyLine, LineBreak + (LazyLine + (LineBreak + LazyLine)));
    Regex.MarkersAppend(pre, LazyLine + (LineBreak + (LazyLine + (LineBreak + LazyLine))));
    p
  }

  /** `\s*:\s*` after `Sponsor`. */
  function Colon0(): seq<Regex.Piece> {
    [Spaces(0), Regex.One(Regex.Lit(':')), Spaces(0)]
  }

  /** `Sponsor\s*:\s*(.*?)\n\s*(.*?)\n\s*(.*?)(\d{3}/\d{3}-\d{4})`. */
  function SponsorPattern(): (p: seq<Regex.Piece>)
    ensures Regex.Markers(p) == 8
  {
    var phone := [Regex.Open] + PhonePieces + [Regex.Close];
    Regex.NoMarkers(PhonePieces);
    Regex.MarkersAppend([Regex.Open], PhonePieces);
    Regex.MarkersAppend([Regex.Open] + PhonePieces, [Regex.Close]);
    Regex.MarkersAppend(SponsorLines(), phone);
    SponsorLines() + phone
  }

  // ---------------------------------------------------------------------------
  // The fields as the regular expressions read them

  /** The first occurrence of the field's pattern: its captured value, trimmed. */
  function LabelValue(f: Field, text: string): (r: Option<string>)
    requires IsLabelled(f)
    ensures r.Some? ==> PyStr.IsTrimmed(r.value)
  {
    match Regex.Search(Pattern(f), text)
    case None => None
    case Some((_, m)) => Some(PyStr.Strip(Regex.Group(text, m, 0)))
  }

  /** The sponsor name, address and phone, or `None` when the sponsor pattern does not occur. */
  datatype SponsorInfo = SponsorInfo(name: string, address: string, phone: string)

  function SponsorMatch(text: string): Option<SponsorInfo> {
    match Regex.Search(SponsorPattern(), text)
    case None => None
    case Some((_, m)) =>
      Some(SponsorInfo(
        PyStr.Strip(Regex.Group(text, m, 0)),
        PyStr.Strip(Regex.Group(text, m, 1)) + ", " + PyStr.Strip(Regex.Group(text, m, 2)),
        PyStr.Strip(Regex.Group(text, m, 3))))
  }

  /** A sponsor field's entry: its part of the sponsor match, or `None` without one. */
  function SponsorEntry(f: Field, m: Option<SponsorInfo>): Value {
    match m
    case None => Null
    case Some(info) =>
      Str(if f == Sponsor then info.name else if f == SponsorAddress then info.address else info.phone)
  }

  /** A labelled field's entry: its trimmed value, or `None` when its pattern does not occur. */
  function LabelEntry(f: Field, text: string): (r: Value)
    requires IsLabelled(f)
    ensures r.Null? || r.Str?
  {
    match LabelValue(f, text)
    case None => Null
    case Some(v) => Str(v)
  }

  /** The record after the loop over the pattern table. */
  function Labelled(text: string): (r: Record)
    ensures forall f :: f in r <==> IsLabelled(f)
  {
    LabelledMembers();
    map f | f in LabelledFields :: LabelEntry(f, text)
  }

  lemma LabelledMembers()
    ensures forall f :: f in LabelledFields <==> IsLabelled(f)
  {
    forall f ensures f in LabelledFields <==> IsLabelled(f) {
      FieldsCovered(f);
    }
  }

  /** `labels` with the three sponsor entries of `m` stored over it. */
  function WithSponsor(labels: Record, m: Option<SponsorInfo>): (r: Record)
    ensures forall f :: f in labels && IsLabelled(f) ==> f in r && r[f] == labels[f]
    ensures forall f :: !IsLabelled(f) ==> f in r && r[f] == SponsorEntry(f, m)
  {
    labels[Sponsor := SponsorEntry(Sponsor, m)][SponsorAddress := SponsorEntry(SponsorAddress, m)]
          [SponsorPhone := SponsorEntry(SponsorPhone, m)]
  }

  /** The record after the labelled and sponsor searches: every field has an entry. */
  function Extracted(text: string): (r: Record)
    ensures forall f :: f in r
  {
    WithSponsor(Labelled(text), SponsorMatch(text))
  }

  /** A field's entry right after the regular expressions ran. */
  lemma ExtractedEntry(text: string, f: Field)
    ensures Extracted(text)[f] == if IsLabelled(f) then LabelEntry(f, text) else SponsorEntry(f, SponsorMatch(text))
  {
    if IsLabelled(f) {
      LabelledMembers();
    }
  }

  // ---------------------------------------------------------------------------
  // Dates and the amount

  /** A truthy date text becomes its date, or `None` when `strptime` rejects it. */
  function DateValue(v: Value): (r: Value)
    ensures v.Str? && v.s != [] ==> r.Null? || (r.DateVal? && Dates.ValidDate(r.d))
    ensures !(v.Str? && v.s != []) ==> r == v
  {
    if v.Str? && v.s != [] then
      match Dates.ParseDateField(v.s)
      case Some(d) => DateVal(d)
      case None => Null
    else v
  }

  /** The error that escapes `parse_award_file`: `float` rejecting the amount text. */
  datatype ParseError = AmountNotNumeric(text: string)

  /** A truthy amount text becomes its number; `float` raising is an error. */
  function AmountValue(v: Value): (r: Result<Value, ParseError>)
    ensures r.Err? <==> v.Str? && v.s != [] && Amount.AmountOf(v.s).None?
    ensures r.Ok? && v.Str? && v.s != [] ==> r.value == Amount(Amount.AmountOf(v.s).value)
    ensures r.Ok? && !(v.Str? && v.s != []) ==> r.value == v
  {
    if v.Str? && v.s != [] then
      match Amount.AmountOf(v.s)
      case Some(x) => Ok(Amount(x))
      case None => Err(AmountNotNumeric(v.s))
    else Ok(v)
  }

  /** The record after the date loop. */
  function WithDates(raw: Record): (r: Record)
    ensures r.Keys == raw.Keys
  {
    map f | f in raw :: if IsDateField(f) then DateValue(raw[f]) else raw[f]
  }

  /**
   * What `parse_award_file(text)` returns: every field present, dates parsed,
   * the amount converted and every string cleaned; an error when `float` raises.
   */
  function ParseAward(text: string): (r: Result<Record, ParseError>)
    ensures r.Ok? ==> forall f :: f in r.value
    ensures r.Ok? ==> forall f :: f in r.value ==> IsClean(r.value[f])
  {
    Finish(WithDates(Extracted(text)))
  }

  /** The amount conversion and the cleaning, which end the parse. */
  function Finish(dated: Record): (r: Result<Record, ParseError>)
    requires ExpectedTotalAmt in dated
    ensures r.Ok? ==> r.value.Keys == dated.Keys
    ensures r.Ok? ==> forall f :: f in r.value ==> IsClean(r.value[f])
  {
    match AmountValue(dated[ExpectedTotalAmt])
    case Err(e) => Err(e)
    case Ok(v) => Ok(Cleaned(dated[ExpectedTotalAmt := v]))
  }

  // ---------------------------------------------------------------------------
  // The parser as the program runs it

  /** The record after the first `n` entries of the pattern table. */
  function LabelsUpTo(text: string, n: nat): (r: Record)
    requires n <= |LabelledFields|
  {
    LabelledMembers();
    map f | f in LabelledFields[..n] :: LabelEntry(f, text)
  }

  /** One more entry of the pattern table stores that field's entry. */
  lemma LabelsStep(text: string, i: nat)
    requires i < |LabelledFields|
    ensures IsLabelled(LabelledFields[i])
    ensures LabelsUpTo(text, i + 1) == LabelsUpTo(text, i)[LabelledFields[i] := LabelEntry(LabelledFields[i], text)]
  {
    LabelledMembers();
    assert LabelledFields[..i + 1] == LabelledFields[..i] + [LabelledFields[i]];
  }

  /** The loop over the pattern table: one entry per labelled field, `None` where the pattern is absent. */
  method SearchLabels(text: string) returns (data: Record)
    ensures data == Labelled(text)
  {
    data := map[];
    for i := 0 to |LabelledFields|
      invariant data == LabelsUpTo(text, i)
    {
      var f := LabelledFields[i];
      LabelsStep(text, i);
      var v := LabelValue(f, text);
      if v.Some? {
        data := data[f := Str(v.value)];
      } else {
        data := data[f := Null];
      }
    }
    assert LabelledFields[..|LabelledFields|] == LabelledFields;
  }

  /** Position of a date field in the date loop. */
  function DateIndex(f: Field): (r: nat)
    requires IsDateField(f)
    ensures r < |DateFields| && DateFields[r] == f
  {
    match f
    case LatestAmendmentDate => 0
    case StartDate => 1
    case Expires => 2
  }

  /** One date entry: a truthy text loses its notes and is parsed; `None` when parsing fails. */
  method ParseDateEntry(v: Value) returns (r: Value)
    ensures r == DateValue(v)
  {
    r := v;
    if v.Str? && v.s != [] {
      var cleanedDate := Dates.DropNotes(v.s);
      match Dates.ParseDate(cleanedDate) {
        case Some(d) => r := DateVal(d);
        case None => r := Null;
      }
    }
  }

  /** The loop over the date fields. */
  method ParseDates(raw: Record) returns (data: Record)
    requires forall f :: IsDateField(f) ==> f in raw
    ensures data == WithDates(raw)
  {
    data := raw;
    for i := 0 to |DateFields|
      invariant data.Keys == raw.Keys
      invariant forall f :: f in data ==> data[f] == if IsDateField(f) && DateIndex(f) < i then DateValue(raw[f]) else raw[f]
    {
      var f := DateFields[i];
      assert IsDateField(f) && DateIndex(f) == i;
      var v := ParseDateEntry(data[f]);
      data := data[f := v];
    }
  }

  /** The labelled searches, then the sponsor search. */
  method ExtractFields(text: string) returns (data: Record)
    ensures data == Extracted(text)
  {
    data := SearchLabels(text);
    var name, address, phone := SponsorEntries(SponsorMatch(text));
    data := data[Sponsor := name][SponsorAddress := address][SponsorPhone := phone];
  }

  /** The sponsor entries: the three parts of the sponsor match, or three `None`s without one. */
  method SponsorEntries(m: Option<SponsorInfo>) returns (name: Value, address: Value, phone: Value)
    ensures name == SponsorEntry(Sponsor, m)
    ensures address == SponsorEntry(SponsorAddress, m)
    ensures phone == SponsorEntry(SponsorPhone, m)
  {
    match m {
      case Some(info) =>
        name, address, phone := Str(info.name), Str(info.address), Str(info.phone);
      case None =>
        name, address, phone := Null, Null, Null;
    }
  }

  /**
   * `parse_award_file(text)`: fills the record field by field, adds the sponsor
   * entries, rewrites the date entries, then the amount, and finally cleans the record.
   */
  method ParseAwardFile(text: string) returns (r: Result<Record, ParseError>)
    ensures r == ParseAward(text)
  {
    var data := ExtractFields(text);
    assert forall f :: f in data by {
      forall f ensures f in data { FieldsCovered(f); }
    }
    data := ParseDates(data);
    r := ConvertAmount(data);
  }

  /** The amount conversion, which lets `float`'s error escape, then `clean_data`. */
  method ConvertAmount(dated: Record) returns (r: Result<Record, ParseError>)
    requires ExpectedTotalAmt in dated
    ensures r == Finish(dated)
  {
    var data := dated;
    var amount := data[ExpectedTotalAmt];
    if amount.Str? && amount.s != [] {
      match Amount.AmountOf(amount.s) {
        case None =>
          assert AmountValue(amount) == Err(AmountNotNumeric(amount.s));
          return Err(AmountNotNumeric(amount.s));
        case Some(x) =>
          data := data[ExpectedTotalAmt := Amount(x)];
      }
    }
    assert AmountValue(amount) == Ok(data[ExpectedTotalAmt]);
    assert data == dated[ExpectedTotalAmt := data[ExpectedTotalAmt]];
    var cleaned := CleanData(data);
    r := Ok(cleaned);
  }
}
