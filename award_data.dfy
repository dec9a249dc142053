/**
 * The dictionary `parse_award_file` builds: one entry per field, holding `None`,
 * a string, a `datetime.date` or a float, and `clean_data`, which deletes NUL and
 * U+FFFD characters from every string entry.
 */
module AwardData {
  import PyStr
  import Dates

  /** The keys of an award record, in the order the parser inserts them. */
  datatype Field =
    | Title | Type | NsfOrg | LatestAmendmentDate | File | AwardNumber | AwardInstr
    | PrgmManager | StartDate | Expires | ExpectedTotalAmt | Investigator | Abstract
    | NsfProgram | FldApplictn | ProgramRef
    | Sponsor | SponsorAddress | SponsorPhone

  /** The 16 fields read by their own labelled pattern, in pattern order. */
  const LabelledFields: seq<Field> := [
    Title, Type, NsfOrg, LatestAmendmentDate, File, AwardNumber, AwardInstr,
    PrgmManager, StartDate, Expires, ExpectedTotalAmt, Investigator, Abstract,
    NsfProgram, FldApplictn, ProgramRef]

  /** The fields the sponsor pattern fills. */
  const SponsorFields: set<Field> := {Sponsor, SponsorAddress, SponsorPhone}

  /** The fields whose text is parsed as a date. */
  const DateFields: seq<Field> := [LatestAmendmentDate, StartDate, Expires]

  predicate IsLabelled(f: Field) {
    !f.Sponsor? && !f.SponsorAddress? && !f.SponsorPhone?
  }

  predicate IsDateField(f: Field) {
    f.LatestAmendmentDate? || f.StartDate? || f.Expires?
  }

  /** Every field is a labelled one or a sponsor one. */
  lemma FieldsCovered(f: Field)
    ensures IsLabelled(f) <==> f in LabelledFields
    ensures !IsLabelled(f) <==> f in SponsorFields
    ensures IsDateField(f) <==> f in DateFields
  {
    if IsLabelled(f) {
      LabelledListed(f);
    } else {
      SponsorUnlisted(f);
    }
    SponsorKeys(f);
    DateKeys(f);
  }

  /** The three sponsor keys are exactly the unlabelled ones. */
  lemma SponsorKeys(f: Field)
    ensures !IsLabelled(f) <==> f in SponsorFields
  {
  }

  /** The date loop visits exactly the date keys. */
  lemma DateKeys(f: Field)
    ensures IsDateField(f) <==> f in DateFields
  {
    if IsDateField(f) {
      var i := if f.LatestAmendmentDate? then 0 else if f.StartDate? then 1 else 2;
      assert DateFields[i] == f;
    }
  }

  /** Each of the 16 pattern keys has its place in the pattern table. */
  lemma LabelledListed(f: Field)
    requires IsLabelled(f)
    ensures f in LabelledFields
  {
    var i := match f
      case Title => 0 case Type => 1 case NsfOrg => 2 case LatestAmendmentDate => 3
      case File => 4 case AwardNumber => 5 case AwardInstr => 6 case PrgmManager => 7
      case StartDate => 8 case Expires => 9 case ExpectedTotalAmt => 10 case Investigator => 11
      case Abstract => 12 case NsfProgram => 13 case FldApplictn => 14 case _ => 15;
    assert LabelledFields[i] == f;
  }

  /** No sponsor key is in the pattern table. */
  lemma SponsorUnlisted(f: Field)
    requires !IsLabelled(f)
    ensures f !in LabelledFields
  {
    forall i | 0 <= i < |LabelledFields| ensures LabelledFields[i] != f {
    }
  }

  /** A Python value stored in the record. */
  datatype Value = Null | Str(s: string) | DateVal(d: Dates.Date) | Amount(x: real)

  /** Python truthiness: `None`, `''` and `0.0` are false; every date is true. */
  predicate Truthy(v: Value) {
    match v
    case Null => false
    case Str(s) => s != []
    case DateVal(_) => true
    case Amount(x) => x != 0.0
  }

  type Record = map<Field, Value>

  // ---------------------------------------------------------------------------
  // clean_data

  const NUL: char := '\0'
  const REPLACEMENT: char := '\U{FFFD}'

  /** The string with every NUL and every U+FFFD deleted, all else kept in order. */
  function CleanString(s: string): (r: string)
    ensures NUL !in r && REPLACEMENT !in r
    ensures forall c :: c != NUL && c != REPLACEMENT ==> (c in r <==> c in s)
    ensures |r| == |s| - PyStr.Count(s, NUL) - PyStr.Count(s, REPLACEMENT)
  {
    var t := PyStr.RemoveChar(s, NUL);
    var r := PyStr.RemoveChar(t, REPLACEMENT);
    assert PyStr.Count(t, REPLACEMENT) == PyStr.Count(s, REPLACEMENT) by {
      CountRemoved(s, NUL, REPLACEMENT);
    }
    r
  }

  /** Removing one character does not change how often another occurs. */
  lemma {:induction false} CountRemoved(s: string, c: char, d: char)
    requires c != d
    ensures PyStr.Count(PyStr.RemoveChar(s, c), d) == PyStr.Count(s, d)
  {
    if s != [] {
      CountRemoved(s[1..], c, d);
      PyStr.RemoveAppend([s[0]], s[1..], c);
      PyStr.CountAppend([s[0]], s[1..], d);
      assert [s[0]] + s[1..] == s;
      if s[0] == c {
        assert PyStr.RemoveChar([s[0]], c) == [] by { assert [s[0]][1..] == []; }
        assert PyStr.Count([s[0]], d) == 0 by { PyStr.CountZero([s[0]], d); }
      } else {
        assert PyStr.RemoveChar([s[0]], c) == [s[0]] by { PyStr.RemoveAbsent([s[0]], c); }
        PyStr.CountAppend([s[0]], PyStr.RemoveChar(s[1..], c), d);
      }
    }
  }

  /** A value as `clean_data` leaves it: strings cleaned, everything else as it was. */
  function CleanValue(v: Value): Value {
    if v.Str? then Str(CleanString(v.s)) else v
  }

  /** No string value holds NUL or U+FFFD. */
  predicate IsClean(v: Value) {
    v.Str? ==> NUL !in v.s && REPLACEMENT !in v.s
  }

  /** The record `clean_data` returns. */
  function Cleaned(data: Record): (r: Record)
    ensures r.Keys == data.Keys
    ensures forall k :: k in r ==> IsClean(r[k])
    ensures forall k :: k in r && data[k].Str? ==> r[k] == Str(CleanString(data[k].s))
    ensures forall k :: k in r && !data[k].Str? ==> r[k] == data[k]
  {
    map k | k in data :: CleanValue(data[k])
  }

  /** Cleaning a clean string changes nothing. */
  lemma CleanStringClean(s: string)
    requires NUL !in s && REPLACEMENT !in s
    ensures CleanString(s) == s
  {
    PyStr.RemoveAbsent(s, NUL);
    PyStr.RemoveAbsent(s, REPLACEMENT);
  }

  /** Cleaning twice is cleaning once. */
  lemma CleanedIdempotent(data: Record)
    ensures Cleaned(Cleaned(data)) == Cleaned(data)
  {
    var once := Cleaned(data);
    forall k | k in once && once[k].Str?
      ensures CleanValue(once[k]) == once[k]
    {
      CleanStringClean(once[k].s);
    }
  }

  /**
   * `clean_data(data)`: visits every entry and overwrites each string entry with
   * its cleaned text, in place; the keys stay as they are.
   */
  method CleanData(data: Record) returns (cleaned: Record)
    ensures cleaned == Cleaned(data)
  {
    cleaned := data;
    var pending := data.Keys;
    while pending != {}
      invariant pending <= data.Keys
      invariant cleaned.Keys == data.Keys
      invariant forall k :: k in data && k in pending ==> cleaned[k] == data[k]
      invariant forall k :: k in data && k !in pending ==> cleaned[k] == CleanValue(data[k])
      decreases pending
    {
      var key :| key in pending;
      var value := cleaned[key];
      if value.Str? {
        cleaned := cleaned[key := Str(CleanString(value.s))];
      }
      pending := pending - {key};
    }
  }
}
