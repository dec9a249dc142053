/**
 * `load_data_to_rds(records)` as the rows it commits: the award rows of the
 * whole batch, then the child rows of each record paired (`zip`) with the id
 * the award insert returned for it. A splitting error raises past the
 * `psycopg2.Error` handler, so the batch commits nothing.
 */
module Load {
  import opened Wrappers
  import PyStr
  import opened AwardData
  import opened Award
  import AwardFacts
  import opened Rows

  /** The award rows of a batch, one per record, in order. */
  function AwardRows(records: seq<Record>): (rows: seq<Row>)
    requires forall i :: 0 <= i < |records| ==> Loadable(records[i])
    ensures |rows| == |records|
    ensures forall i :: 0 <= i < |records| ==> rows[i] == AwardRowOf(records[i])
  {
    seq(|records|, i requires 0 <= i < |records| => AwardRowOf(records[i]))
  }

  /** Every row is a child row of one of the awards whose id is in `ids`. */
  predicate ChildRowsIn(rows: seq<Row>, ids: seq<int>) {
    forall k :: 0 <= k < |rows| ==> !rows[k].AwardRow? && rows[k].awardId in ids
  }

  /** Child rows of the first id, then child rows of later ids, stay among the ids. */
  lemma ChildRowsWiden(a: seq<Row>, b: seq<Row>, ids: seq<int>)
    requires |ids| >= 1
    requires ChildRowsOf(a, ids[0]) && ChildRowsIn(b, ids[1..])
    ensures ChildRowsIn(a + b, ids)
  {
    forall k | 0 <= k < |a + b| ensures !(a + b)[k].AwardRow? && (a + b)[k].awardId in ids {
      if k < |a| {
        assert (a + b)[k] == a[k];
      } else {
        assert (a + b)[k] == b[k - |a|];
        assert b[k - |a|].awardId in ids[1..];
      }
    }
  }

  /** The concatenation of a sequence of sequences, one after the other. */
  function Flatten<T>(ss: seq<seq<T>>): seq<T>
    decreases |ss|
  {
    if ss == [] then [] else ss[0] + Flatten(ss[1..])
  }

  /** The rows of each result, when every one of them succeeded. */
  function Values(results: seq<Result<seq<Row>, LoadError>>): (parts: seq<seq<Row>>)
    requires forall i :: 0 <= i < |results| ==> results[i].Ok?
    ensures |parts| == |results|
    ensures forall i :: 0 <= i < |results| ==> results[i] == Ok(parts[i])
  {
    seq(|results|, i requires 0 <= i < |results| => results[i].value)
  }

  /** The rows of every result in order, or the first error among them. */
  function Concat(results: seq<Result<seq<Row>, LoadError>>, ids: seq<int>): (r: Result<seq<Row>, LoadError>)
    requires |results| <= |ids|
    requires forall i :: 0 <= i < |results| && results[i].Ok? ==> ChildRowsOf(results[i].value, ids[i])
    ensures r.Err? <==> exists i :: 0 <= i < |results| && results[i].Err?
    ensures r.Ok? ==> r.value == Flatten(Values(results))
    ensures r.Ok? ==> ChildRowsIn(r.value, ids)
    decreases |results|
  {
    if results == [] then Ok([])
    else
      assert forall i :: 1 <= i < |results| ==> results[i] == results[1..][i - 1] && ids[i] == ids[1..][i - 1];
      var tail := Concat(results[1..], ids[1..]);
      var r := Then(results[0], tail);
      if r.Ok? then
        assert Values(results)[1..] == Values(results[1..]);
        ChildRowsWiden(results[0].value, tail.value, ids);
        r
      else r
  }

  /** The row-building result of each record that has an id (`zip` stops at the shorter). */
  function RecordResults(records: seq<Record>, ids: seq<int>): (results: seq<Result<seq<Row>, LoadError>>)
    requires forall i :: 0 <= i < |records| ==> Loadable(records[i])
    ensures |results| == if |records| < |ids| then |records| else |ids|
    ensures forall i :: 0 <= i < |results| ==> results[i] == RecordRows(records[i], ids[i])
  {
    var n := if |records| < |ids| then |records| else |ids|;
    seq(n, i requires 0 <= i < n => RecordRows(records[i], ids[i]))
  }

  /** The child rows of each record that has an id, when none of them raises. */
  function EachRecordRows(records: seq<Record>, ids: seq<int>): (parts: seq<seq<Row>>)
    requires forall i :: 0 <= i < |records| ==> Loadable(records[i])
    requires forall i :: 0 <= i < |records| && i < |ids| ==> RecordRows(records[i], ids[i]).Ok?
    ensures |parts| == if |records| < |ids| then |records| else |ids|
    ensures forall i :: 0 <= i < |parts| ==> RecordRows(records[i], ids[i]) == Ok(parts[i])
  {
    var results := RecordResults(records, ids);
    assert forall i :: 0 <= i < |results| ==> results[i].Ok?;
    Values(results)
  }

  /**
   * The child rows of the records zipped with the returned ids: the rows of
   * the first record with the first id, then those of the second, and so on;
   * a record without an id contributes nothing; the first splitting error raises.
   */
  function ChildRows(records: seq<Record>, ids: seq<int>): (r: Result<seq<Row>, LoadError>)
    requires forall i :: 0 <= i < |records| ==> Loadable(records[i])
    ensures r.Err? <==> exists i :: 0 <= i < |records| && i < |ids| && RecordRows(records[i], ids[i]).Err?
    ensures r.Ok? ==> forall i :: 0 <= i < |records| && i < |ids| ==> RecordRows(records[i], ids[i]).Ok?
    ensures r.Ok? ==> r.value == Flatten(EachRecordRows(records, ids))
    ensures r.Ok? ==> ChildRowsIn(r.value, ids)
  {
    var results := RecordResults(records, ids);
    assert forall i :: 0 <= i < |results| && results[i].Ok? ==> ChildRowsOf(results[i].value, ids[i]);
    var r := Concat(results, ids);
    ResultsErr(records, ids);
    if r.Ok? then
      ResultsOk(records, ids);
      r
    else r
  }

  /** When every zipped result is `Ok`, their values are the rows of each record. */
  lemma ResultsOk(records: seq<Record>, ids: seq<int>)
    requires forall i :: 0 <= i < |records| ==> Loadable(records[i])
    requires forall i :: 0 <= i < |RecordResults(records, ids)| ==> RecordResults(records, ids)[i].Ok?
    ensures forall i :: 0 <= i < |records| && i < |ids| ==> RecordRows(records[i], ids[i]).Ok?
    ensures EachRecordRows(records, ids) == Values(RecordResults(records, ids))
  {
    var results := RecordResults(records, ids);
    forall i | 0 <= i < |records| && i < |ids| ensures RecordRows(records[i], ids[i]).Ok? {
      assert results[i].Ok?;
    }
  }

  /** Some record's rows raise exactly when one of the zipped results is an error. */
  lemma ResultsErr(records: seq<Record>, ids: seq<int>)
    requires forall i :: 0 <= i < |records| ==> Loadable(records[i])
    ensures var results := RecordResults(records, ids);
            (exists i :: 0 <= i < |results| && results[i].Err?)
            <==> exists i :: 0 <= i < |records| && i < |ids| && RecordRows(records[i], ids[i]).Err?
  {
    var results := RecordResults(records, ids);
    if exists i :: 0 <= i < |results| && results[i].Err? {
      var i :| 0 <= i < |results| && results[i].Err?;
      assert RecordRows(records[i], ids[i]).Err?;
    } else {
      forall i | 0 <= i < |records| && i < |ids| ensures RecordRows(records[i], ids[i]).Ok? {
        assert results[i].Ok?;
      }
    }
  }

  /**
   * What one batch commits: its award rows, in record order, followed by the
   * child rows of each record in turn; nothing when any line fails to split.
   */
  function BatchRows(records: seq<Record>, ids: seq<int>): (r: Result<seq<Row>, LoadError>)
    requires forall i :: 0 <= i < |records| ==> Loadable(records[i])
    ensures r.Err? <==> exists i :: 0 <= i < |records| && i < |ids| && RecordRows(records[i], ids[i]).Err?
    ensures r.Ok? ==> r.value == AwardRows(records) + Flatten(EachRecordRows(records, ids))
    ensures r.Ok? ==> |r.value| >= |records|
    ensures r.Ok? ==> forall i :: 0 <= i < |records| ==> r.value[i] == AwardRowOf(records[i])
    ensures r.Ok? ==> ChildRowsIn(r.value[|records|..], ids)
  {
    match ChildRows(records, ids)
    case Err(e) => Err(e)
    case Ok(children) =>
      var rows := AwardRows(records) + children;
      assert rows[|records|..] == children;
      Ok(rows)
  }

  // ---------------------------------------------------------------------------
  // Parsed records

  /** A field split into child rows holds `None` or a string after parsing. */
  lemma ParsedChildField(text: string, f: Field)
    requires ParseAward(text).Ok? && IsChildField(f)
    ensures ParseAward(text).value[f].Null? || ParseAward(text).value[f].Str?
  {
    if IsLabelled(f) {
      assert !IsDateField(f) && f != ExpectedTotalAmt;
      AwardFacts.TextFieldEntry(text, f);
    } else {
      AwardFacts.SponsorFieldEntry(text, f);
      var m := SponsorMatch(text);
      assert SponsorEntry(f, m).Null? || SponsorEntry(f, m).Str?;
    }
  }

  /** A record `parse_award_file` returns can go to the row builder. */
  lemma ParsedLoadable(text: string)
    requires ParseAward(text).Ok?
    ensures Loadable(ParseAward(text).value)
  {
    forall f | IsChildField(f) ensures ParseAward(text).value[f].Null? || ParseAward(text).value[f].Str? {
      ParsedChildField(text, f);
    }
  }

  /** A value without a line break is one line. */
  lemma OneLine(v: Value)
    requires v.Str? ==> '\n' !in v.s
    ensures |Lines(v)| == 1
  {
    PyStr.CountZero(TextOf(v), '\n');
  }

  /** A cleaned label value, or its absence, is one line when the value had no line break. */
  lemma EntryOneLine(lv: Option<string>, v: Value)
    requires lv.Some? ==> '\n' !in lv.value
    requires v == if lv.None? then Null else Str(CleanString(lv.value))
    ensures |Lines(v)| == 1
  {
    if lv.Some? {
      assert '\n' !in CleanString(lv.value);
    }
    OneLine(v);
  }

  /**
   * Every labelled text field of a parsed record, the investigator, program
   * and field-application values among them, is a single line, so each gives
   * at most one row.
   */
  lemma ParsedOneLine(text: string, f: Field)
    requires ParseAward(text).Ok?
    requires IsLabelled(f) && !IsDateField(f) && f != ExpectedTotalAmt
    ensures |Lines(ParseAward(text).value[f])| == 1
  {
    AwardFacts.TextFieldEntry(text, f);
    EntryOneLine(LabelValue(f, text), ParseAward(text).value[f]);
  }

  /**
   * A parsed record whose investigator field is set gives exactly one
   * investigator row, of the name and role its line splits into, or raises.
   */
  lemma ParsedInvestigatorRow(text: string, id: int)
    requires ParseAward(text).Ok? && Truthy(ParseAward(text).value[Investigator])
    ensures Loadable(ParseAward(text).value)
    ensures var rec := ParseAward(text).value;
            var split := SplitInvestigator(TextOf(rec[Investigator]));
            && (split.Err? <==> InvestigatorPart(rec, id).Err?)
            && (split.Ok? ==> InvestigatorPart(rec, id) == Ok([InvestigatorRow(split.value.0, split.value.1, id)]))
  {
    ParsedLoadable(text);
    ParsedOneLine(text, Investigator);
    OneInvestigator(ParseAward(text).value, id);
  }

  /**
   * A parsed record whose program or field-application field is set gives
   * exactly one row, of the code and name its line splits into, or raises.
   */
  lemma ParsedCodeRow(text: string, f: Field, table: CodeTable, id: int)
    requires f == NsfProgram || f == FldApplictn
    requires ParseAward(text).Ok? && Truthy(ParseAward(text).value[f])
    ensures Loadable(ParseAward(text).value)
    ensures var rec := ParseAward(text).value;
            var split := SplitCodeName(TextOf(rec[f]));
            && (split.Err? <==> CodePart(rec, f, table, id).Err?)
            && (split.Ok? ==> CodePart(rec, f, table, id) == Ok([CodeRow(table, split.value.0, split.value.1, id)]))
  {
    ParsedLoadable(text);
    ParsedOneLine(text, f);
    OneCode(ParseAward(text).value, f, table, id);
  }
}
