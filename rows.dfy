/**
 * The rows `load_data_to_rds` inserts for a batch of parsed records: one award
 * row per record, then, for each record paired with its returned id, its
 * investigator, sponsor, program, field-application and program-reference rows.
 * A line the splitters cannot take apart raises; the exception is not a
 * database error, so nothing of the batch is committed.
 */
module Rows {
  import opened Wrappers
  import PyStr
  import opened AwardData

  /** The exceptions the splitting raises. */
  datatype LoadError =
    | InvestigatorUnpack(line: string)  // `name, role = inv.split('(')` without exactly two pieces
    | BlankCodeLine(line: string)       // `parts[0]` of an empty `split(maxsplit=1)`

  // ---------------------------------------------------------------------------
  // Investigator lines: `Name (Role)`

  /** `name, role = inv.split('(')`, the role without `)`, both trimmed. */
  function SplitInvestigator(line: string): (r: Result<(string, string), LoadError>)
    ensures r.Ok? <==> PyStr.Count(line, '(') == 1
    ensures r.Ok? ==> PyStr.IsTrimmed(r.value.0) && PyStr.IsTrimmed(r.value.1)
    ensures r.Ok? ==> '(' !in r.value.0 && '(' !in r.value.1 && ')' !in r.value.1
  {
    var parts := PyStr.SplitOn(line, '(');
    if |parts| != 2 then Err(InvestigatorUnpack(line))
    else
      var role := PyStr.RemoveChar(parts[1], ')');
      PyStr.StripWithin(parts[0], '(');
      PyStr.StripWithin(role, '(');
      PyStr.StripWithin(role, ')');
      Ok((PyStr.Strip(parts[0]), PyStr.Strip(role)))
  }

  /** `Name (Role)` is taken apart into the name and the role. */
  lemma InvestigatorRoundTrip(name: string, role: string)
    requires PyStr.IsTrimmed(name) && PyStr.IsTrimmed(role)
    requires '(' !in name && '(' !in role && ')' !in role
    ensures SplitInvestigator(name + " (" + role + ")") == Ok((name, role))
  {
    InvestigatorParts(name, role);
    RoleClosed(role);
    PyStr.StripPadded([], name, " ");
    assert [] + name + " " == name + " ";
    PyStr.StripPadded([], role, []);
    assert [] + role + [] == role;
  }

  /**
   * Any line with one `(`, written as the text `a` before it and `b` after it,
   * gives the trimmed `a` as the name and the trimmed `b` without its `)`s as
   * the role: `Name(Role)`, `Name (Role`, `(Role)` and `Name ( Role ) x` alike.
   */
  lemma InvestigatorSplit(a: string, b: string)
    requires '(' !in a && '(' !in b
    ensures SplitInvestigator(a + "(" + b) == Ok((PyStr.Strip(a), PyStr.Strip(PyStr.RemoveChar(b, ')'))))
  {
    PyStr.JoinPair(a, b, '(');
    assert a + ['('] + b == a + "(" + b;
    PyStr.SplitJoin([a, b], '(');
  }

  lemma InvestigatorParts(name: string, role: string)
    requires '(' !in name && '(' !in role
    ensures PyStr.SplitOn(name + " (" + role + ")", '(') == [name + " ", role + ")"]
  {
    var a, b := name + " ", role + ")";
    assert '(' !in a && '(' !in b;
    PyStr.JoinPair(a, b, '(');
    InvestigatorText(name, role);
    PyStr.SplitJoin([a, b], '(');
  }

  /** `f"{name} ({role})"` is the name and a space, the parenthesis, then the role and `)`. */
  lemma InvestigatorText(name: string, role: string)
    ensures (name + " ") + ['('] + (role + ")") == name + " (" + role + ")"
  {
  }

  lemma RoleClosed(role: string)
    requires ')' !in role
    ensures PyStr.RemoveChar(role + ")", ')') == role
  {
    PyStr.RemoveAppend(role, ")", ')');
    PyStr.RemoveAbsent(role, ')');
    assert PyStr.RemoveChar(")", ')') == [] by { assert ")"[1..] == []; }
    assert role + [] == role;
  }

  // ---------------------------------------------------------------------------
  // Program and field-application lines: `CODE Name of the program`

  /** `parts = line.split(maxsplit=1)`: the code and the rest, or the code and `''`. */
  function SplitCodeName(line: string): (r: Result<(string, string), LoadError>)
    ensures r.Err? <==> PyStr.AllSpace(line)
    ensures r.Ok? ==> r.value.0 != [] && PyStr.NoSpace(r.value.0)
    ensures r.Ok? ==> r.value.1 == [] || !PyStr.IsSpace(r.value.1[0])
  {
    var parts := PyStr.SplitOnce(line);
    if |parts| == 2 then Ok((parts[0], parts[1]))
    else if |parts| == 1 then Ok((parts[0], ""))
    else Err(BlankCodeLine(line))
  }

  /**
   * Any line that is not blank is leading whitespace, the code, whitespace and
   * the name: it is taken apart into that code and that name, and a line with
   * only a code (whatever whitespace surrounds it) gets the name `''`.
   */
  lemma CodeNameRoundTrip(w: string, code: string, gap: string, name: string)
    requires PyStr.AllSpace(w) && code != [] && PyStr.NoSpace(code)
    requires PyStr.AllSpace(gap) && (gap == [] ==> name == [])
    requires name == [] || !PyStr.IsSpace(name[0])
    ensures SplitCodeName(w + code + gap + name) == Ok((code, name))
  {
    PyStr.SplitOnceOf(w, code, gap, name);
  }

  /** A stripped line holding only a code, such as `1263`, gives that code and the name `''`. */
  lemma CodeAlone(code: string)
    requires code != [] && PyStr.NoSpace(code)
    ensures SplitCodeName(code) == Ok((code, ""))
  {
    assert [] + code + [] + [] == code;
    CodeNameRoundTrip([], code, [], []);
  }

  // ---------------------------------------------------------------------------
  // Program references: `ref1, ref2, ...`

  /** `[ref.strip() for ref in s.split(',')]`. */
  function ProgramRefs(s: string): (refs: seq<string>)
    ensures |refs| == PyStr.Count(s, ',') + 1
    ensures forall i :: 0 <= i < |refs| ==> PyStr.IsTrimmed(refs[i]) && ',' !in refs[i]
  {
    var parts := PyStr.SplitOn(s, ',');
    StripAllWithin(parts, ',');
    seq(|parts|, i requires 0 <= i < |parts| => PyStr.Strip(parts[i]))
  }

  lemma StripAllWithin(parts: seq<string>, c: char)
    requires forall i :: 0 <= i < |parts| ==> c !in parts[i]
    ensures forall i :: 0 <= i < |parts| ==> c !in PyStr.Strip(parts[i])
  {
    forall i | 0 <= i < |parts| ensures c !in PyStr.Strip(parts[i]) {
      PyStr.StripWithin(parts[i], c);
    }
  }

  /** References joined by commas come back one by one, in order, each trimmed. */
  lemma RefsRoundTrip(parts: seq<string>)
    requires parts != [] && forall i :: 0 <= i < |parts| ==> ',' !in parts[i]
    ensures var refs := ProgramRefs(PyStr.Join(parts, ','));
            |refs| == |parts| && forall i :: 0 <= i < |parts| ==> refs[i] == PyStr.Strip(parts[i])
  {
    PyStr.SplitJoin(parts, ',');
  }

  // ---------------------------------------------------------------------------
  // Rows

  /** The two tables whose rows are a code and a name. */
  datatype CodeTable = Programs | FieldApplications

  /** One inserted row; every row but the award row carries the award's id. */
  datatype Row =
    | AwardRow(cols: seq<Value>)
    | InvestigatorRow(name: string, role: string, awardId: int)
    | SponsorRow(sponsorName: Value, address: Value, phone: Value, awardId: int)
    | CodeRow(table: CodeTable, code: string, codeName: string, awardId: int)
    | RefRow(reference: string, awardId: int)

  /** The columns of the award row, in insertion order. */
  const AwardColumns: seq<Field> := [
    Title, Type, NsfOrg, LatestAmendmentDate, File, AwardNumber, AwardInstr,
    PrgmManager, StartDate, Expires, ExpectedTotalAmt, Abstract]

  /** The award row of a record: its twelve columns, in insertion order. */
  function AwardRowOf(rec: Record): (row: Row)
    requires Loadable(rec)
    ensures row.AwardRow? && |row.cols| == |AwardColumns| == 12
    ensures forall i :: 0 <= i < 12 ==> row.cols[i] == rec[AwardColumns[i]]
  {
    AwardRow(seq(12, i requires 0 <= i < 12 => rec[AwardColumns[i]]))
  }

  /** The fields the child rows are split from. */
  predicate IsChildField(f: Field) {
    f in {Investigator, NsfProgram, FldApplictn, ProgramRef, Sponsor, SponsorAddress, SponsorPhone}
  }

  /** The award row holds every labelled field except those split into child rows. */
  lemma AwardColumnsExact(f: Field)
    ensures f in AwardColumns <==> IsLabelled(f) && !IsChildField(f)
  {
  }

  /** A record the row builder can take: every field present, the split fields text or `None`. */
  predicate Loadable(rec: Record) {
    && (forall f :: f in rec)
    && (forall f :: IsChildField(f) ==> rec[f].Null? || rec[f].Str?)
  }

  /** Every record of a batch can go to the row builder. */
  predicate AllLoadable(records: seq<Record>) {
    forall i :: 0 <= i < |records| ==> Loadable(records[i])
  }

  /** The values of a run of results, or the first error among them. */
  function AllOk<T>(rs: seq<Result<T, LoadError>>): (r: Result<seq<T>, LoadError>)
    ensures r.Err? <==> exists i :: 0 <= i < |rs| && rs[i].Err?
    ensures r.Ok? ==> |r.value| == |rs| && forall i :: 0 <= i < |rs| ==> rs[i] == Ok(r.value[i])
  {
    if rs == [] then Ok([])
    else if rs[0].Err? then Err(rs[0].error)
    else
      match AllOk(rs[1..])
      case Err(e) =>
        ghost var i :| 0 <= i < |rs[1..]| && rs[1..][i].Err?;
        assert rs[i + 1].Err?;
        Err(e)
      case Ok(vs) =>
        assert forall i :: 1 <= i < |rs| ==> rs[i] == rs[1..][i - 1];
        Ok([rs[0].value] + vs)
  }

  /** Every line taken apart by `split`, or the first error, as the loop over the lines raises it. */
  function SplitAll<T>(lines: seq<string>, split: string -> Result<T, LoadError>): (r: Result<seq<T>, LoadError>)
    ensures r.Err? <==> exists i :: 0 <= i < |lines| && split(lines[i]).Err?
    ensures r.Ok? ==> |r.value| == |lines| && forall i :: 0 <= i < |lines| ==> split(lines[i]) == Ok(r.value[i])
  {
    var results := seq(|lines|, i requires 0 <= i < |lines| => split(lines[i]));
    assert forall i :: 0 <= i < |lines| ==> results[i] == split(lines[i]);
    AllOk(results)
  }

  /** Every line split into name and role, or the first line that does not split. */
  function InvestigatorPairs(lines: seq<string>): (r: Result<seq<(string, string)>, LoadError>)
    ensures r.Err? <==> exists i :: 0 <= i < |lines| && SplitInvestigator(lines[i]).Err?
    ensures r.Ok? ==> |r.value| == |lines| && forall i :: 0 <= i < |lines| ==> SplitInvestigator(lines[i]) == Ok(r.value[i])
  {
    SplitAll(lines, SplitInvestigator)
  }

  /** Every line split into code and name, or the first blank line. */
  function CodePairs(lines: seq<string>): (r: Result<seq<(string, string)>, LoadError>)
    ensures r.Err? <==> exists i :: 0 <= i < |lines| && SplitCodeName(lines[i]).Err?
    ensures r.Ok? ==> |r.value| == |lines| && forall i :: 0 <= i < |lines| ==> SplitCodeName(lines[i]) == Ok(r.value[i])
  {
    SplitAll(lines, SplitCodeName)
  }

  /** One investigator row per line, in order; a line that does not split raises. */
  function InvestigatorRows(lines: seq<string>, id: int): (r: Result<seq<Row>, LoadError>)
    ensures r.Err? <==> InvestigatorPairs(lines).Err?
    ensures r.Ok? ==> var pairs := InvestigatorPairs(lines).value;
              |r.value| == |pairs| && forall i :: 0 <= i < |pairs| ==> r.value[i] == InvestigatorRow(pairs[i].0, pairs[i].1, id)
    ensures r.Ok? ==> |r.value| == |lines| && forall i :: 0 <= i < |lines| ==>
              && r.value[i].InvestigatorRow? && r.value[i].awardId == id
              && SplitInvestigator(lines[i]) == Ok((r.value[i].name, r.value[i].role))
    ensures r.Ok? ==> ChildRowsOf(r.value, id)
  {
    match InvestigatorPairs(lines)
    case Err(e) => Err(e)
    case Ok(pairs) => Ok(seq(|pairs|, i requires 0 <= i < |pairs| => InvestigatorRow(pairs[i].0, pairs[i].1, id)))
  }

  /** One code row per line, in order; a blank line raises. */
  function CodeRows(table: CodeTable, lines: seq<string>, id: int): (r: Result<seq<Row>, LoadError>)
    ensures r.Err? <==> CodePairs(lines).Err?
    ensures r.Ok? ==> var pairs := CodePairs(lines).value;
              |r.value| == |pairs| && forall i :: 0 <= i < |pairs| ==> r.value[i] == CodeRow(table, pairs[i].0, pairs[i].1, id)
    ensures r.Ok? ==> |r.value| == |lines| && forall i :: 0 <= i < |lines| ==>
              && r.value[i].CodeRow? && r.value[i].table == table && r.value[i].awardId == id
              && SplitCodeName(lines[i]) == Ok((r.value[i].code, r.value[i].codeName))
    ensures r.Ok? ==> ChildRowsOf(r.value, id)
  {
    match CodePairs(lines)
    case Err(e) => Err(e)
    case Ok(pairs) => Ok(seq(|pairs|, i requires 0 <= i < |pairs| => CodeRow(table, pairs[i].0, pairs[i].1, id)))
  }

  /** One reference row per comma-separated piece. */
  function RefRows(s: string, id: int): (rows: seq<Row>)
    ensures |rows| == PyStr.Count(s, ',') + 1
    ensures forall i :: 0 <= i < |rows| ==> rows[i] == RefRow(ProgramRefs(s)[i], id)
  {
    var refs := ProgramRefs(s);
    seq(|refs|, i requires 0 <= i < |refs| => RefRow(refs[i], id))
  }

  /** The rows of `a` then those of `b`, or the first error. */
  function Then(a: Result<seq<Row>, LoadError>, b: Result<seq<Row>, LoadError>): (r: Result<seq<Row>, LoadError>)
    ensures r.Err? <==> a.Err? || b.Err?
    ensures r.Ok? ==> r.value == a.value + b.value
  {
    if a.Err? then a else if b.Err? then b else Ok(a.value + b.value)
  }

  /** The text of a split field, `''` for `None`. */
  function TextOf(v: Value): string {
    if v.Str? then v.s else ""
  }

  /** `v.split('\n')`. */
  function Lines(v: Value): (lines: seq<string>)
    ensures |lines| == PyStr.Count(TextOf(v), '\n') + 1
  {
    PyStr.SplitOn(TextOf(v), '\n')
  }

  /** Every row is a child row of the award with id `id`. */
  predicate ChildRowsOf(rows: seq<Row>, id: int) {
    forall k :: 0 <= k < |rows| ==> !rows[k].AwardRow? && rows[k].awardId == id
  }

  lemma ChildRowsJoin(a: seq<Row>, b: seq<Row>, id: int)
    requires ChildRowsOf(a, id) && ChildRowsOf(b, id)
    ensures ChildRowsOf(a + b, id)
  {
    forall k | 0 <= k < |a + b| ensures !(a + b)[k].AwardRow? && (a + b)[k].awardId == id {
      if k >= |a| {
        assert (a + b)[k] == b[k - |a|];
      }
    }
  }

  /**
   * The investigator rows of a record: none when its investigator field is not
   * set, otherwise row `i` holds the name and role line `i` splits into.
   */
  function InvestigatorPart(rec: Record, id: int): (r: Result<seq<Row>, LoadError>)
    requires Loadable(rec)
    ensures r.Err? <==> Truthy(rec[Investigator]) && InvestigatorPairs(Lines(rec[Investigator])).Err?
    ensures r.Ok? ==> |r.value| == if Truthy(rec[Investigator]) then |Lines(rec[Investigator])| else 0
    ensures r.Ok? ==> forall i :: 0 <= i < |r.value| ==>
              && r.value[i].InvestigatorRow? && r.value[i].awardId == id
              && SplitInvestigator(Lines(rec[Investigator])[i]) == Ok((r.value[i].name, r.value[i].role))
    ensures r.Ok? ==> ChildRowsOf(r.value, id)
  {
    if Truthy(rec[Investigator]) then InvestigatorRows(Lines(rec[Investigator]), id) else Ok([])
  }

  /**
   * The sponsor row of a record: one row carrying the sponsor's name, address
   * and phone when the sponsor field is set, none otherwise.
   */
  function SponsorPart(rec: Record, id: int): (rows: seq<Row>)
    requires Loadable(rec)
    ensures ChildRowsOf(rows, id)
    ensures |rows| == if Truthy(rec[Sponsor]) then 1 else 0
    ensures forall k :: 0 <= k < |rows| ==>
              && rows[k].SponsorRow? && rows[k].sponsorName == rec[Sponsor] && rows[k].address == rec[SponsorAddress]
              && rows[k].phone == rec[SponsorPhone]
  {
    if Truthy(rec[Sponsor]) then [SponsorRow(rec[Sponsor], rec[SponsorAddress], rec[SponsorPhone], id)] else []
  }

  /**
   * The program or field-application rows of a record: none when the field is
   * not set, otherwise row `i` of `table` holds the code and name line `i`
   * splits into.
   */
  function CodePart(rec: Record, f: Field, table: CodeTable, id: int): (r: Result<seq<Row>, LoadError>)
    requires Loadable(rec)
    ensures r.Err? <==> Truthy(rec[f]) && CodePairs(Lines(rec[f])).Err?
    ensures r.Ok? ==> |r.value| == if Truthy(rec[f]) then |Lines(rec[f])| else 0
    ensures r.Ok? ==> forall i :: 0 <= i < |r.value| ==>
              && r.value[i].CodeRow? && r.value[i].table == table && r.value[i].awardId == id
              && SplitCodeName(Lines(rec[f])[i]) == Ok((r.value[i].code, r.value[i].codeName))
    ensures r.Ok? ==> ChildRowsOf(r.value, id)
  {
    if Truthy(rec[f]) then CodeRows(table, Lines(rec[f]), id) else Ok([])
  }

  /**
   * The reference rows of a record: none when its reference field is not set,
   * otherwise one per comma-separated reference, trimmed, in order.
   */
  function RefPart(rec: Record, id: int): (rows: seq<Row>)
    requires Loadable(rec)
    ensures |rows| == if Truthy(rec[ProgramRef]) then PyStr.Count(TextOf(rec[ProgramRef]), ',') + 1 else 0
    ensures forall i :: 0 <= i < |rows| ==> rows[i] == RefRow(ProgramRefs(TextOf(rec[ProgramRef]))[i], id)
    ensures ChildRowsOf(rows, id)
  {
    if Truthy(rec[ProgramRef]) then RefRows(TextOf(rec[ProgramRef]), id) else []
  }

  /**
   * The child rows of one record with its award id: investigators, sponsor,
   * programs, field applications, references, in that order, each only when
   * its field is set; the first line that does not split raises.
   */
  function RecordRows(rec: Record, id: int): (r: Result<seq<Row>, LoadError>)
    requires Loadable(rec)
    ensures r.Err? <==>
              || (Truthy(rec[Investigator]) && InvestigatorPairs(Lines(rec[Investigator])).Err?)
              || (Truthy(rec[NsfProgram]) && CodePairs(Lines(rec[NsfProgram])).Err?)
              || (Truthy(rec[FldApplictn]) && CodePairs(Lines(rec[FldApplictn])).Err?)
    ensures r.Ok? ==> ChildRowsOf(r.value, id)
  {
    var inv := InvestigatorPart(rec, id);
    var sponsor := SponsorPart(rec, id);
    var programs := CodePart(rec, NsfProgram, Programs, id);
    var fields := CodePart(rec, FldApplictn, FieldApplications, id);
    var refs := RefPart(rec, id);
    var r := Assemble(inv, sponsor, programs, fields, refs);
    if r.Ok? then
      ChildRowsJoin(inv.value, sponsor, id);
      ChildRowsJoin(inv.value + sponsor, programs.value, id);
      ChildRowsJoin(inv.value + sponsor + programs.value, fields.value, id);
      ChildRowsJoin(inv.value + sponsor + programs.value + fields.value, refs, id);
      r
    else r
  }

  /** The five parts of a record's rows one after the other, or the first error among them. */
  function Assemble(inv: Result<seq<Row>, LoadError>, sponsor: seq<Row>, programs: Result<seq<Row>, LoadError>,
                    fields: Result<seq<Row>, LoadError>, refs: seq<Row>): (r: Result<seq<Row>, LoadError>)
    ensures r.Err? <==> inv.Err? || programs.Err? || fields.Err?
    ensures r.Ok? ==> r.value == inv.value + sponsor + programs.value + fields.value + refs
  {
    var r := Then(Then(Then(inv, Ok(sponsor)), programs), Then(fields, Ok(refs)));
    if r.Ok? then
      assert r.value == inv.value + sponsor + programs.value + (fields.value + refs);
      r
    else r
  }

  /**
   * The rows of a record that splits are its investigator rows, its sponsor
   * row, its program rows, its field-application rows and its reference rows,
   * in that order.
   */
  lemma RecordRowsOrder(rec: Record, id: int)
    requires Loadable(rec) && RecordRows(rec, id).Ok?
    ensures && InvestigatorPart(rec, id).Ok?
            && CodePart(rec, NsfProgram, Programs, id).Ok?
            && CodePart(rec, FldApplictn, FieldApplications, id).Ok?
    ensures RecordRows(rec, id).value
              == InvestigatorPart(rec, id).value + SponsorPart(rec, id)
                 + CodePart(rec, NsfProgram, Programs, id).value
                 + CodePart(rec, FldApplictn, FieldApplications, id).value + RefPart(rec, id)
  {
  }

  /** A value with one line is that line. */
  lemma SingleLine(v: Value)
    requires |Lines(v)| == 1
    ensures Lines(v) == [TextOf(v)]
  {
  }

  /**
   * A set investigator field holding one line gives exactly the one row of the
   * name and role that line splits into, or raises when it does not split.
   */
  lemma OneInvestigator(rec: Record, id: int)
    requires Loadable(rec) && Truthy(rec[Investigator]) && |Lines(rec[Investigator])| == 1
    ensures var split := SplitInvestigator(TextOf(rec[Investigator]));
            && (split.Err? <==> InvestigatorPart(rec, id).Err?)
            && (split.Ok? ==> InvestigatorPart(rec, id) == Ok([InvestigatorRow(split.value.0, split.value.1, id)]))
  {
    var line := TextOf(rec[Investigator]);
    SingleLine(rec[Investigator]);
    var r := InvestigatorRows([line], id);
    assert InvestigatorPart(rec, id) == r;
    var split := SplitInvestigator(line);
    assert [line][0] == line;
    if split.Err? {
      assert InvestigatorPairs([line]).Err?;
    } else if r.Ok? {
      assert split == Ok(InvestigatorPairs([line]).value[0]);
      assert r.value == [InvestigatorRow(split.value.0, split.value.1, id)];
    }
  }

  /**
   * A set program or field-application field holding one line gives exactly
   * the one row of the code and name that line splits into, or raises when
   * the line is blank.
   */
  lemma OneCode(rec: Record, f: Field, table: CodeTable, id: int)
    requires Loadable(rec) && Truthy(rec[f]) && |Lines(rec[f])| == 1
    ensures var split := SplitCodeName(TextOf(rec[f]));
            && (split.Err? <==> CodePart(rec, f, table, id).Err?)
            && (split.Ok? ==> CodePart(rec, f, table, id) == Ok([CodeRow(table, split.value.0, split.value.1, id)]))
  {
    var line := TextOf(rec[f]);
    SingleLine(rec[f]);
    var r := CodeRows(table, [line], id);
    assert CodePart(rec, f, table, id) == r;
    var split := SplitCodeName(line);
    assert [line][0] == line;
    if split.Err? {
      assert CodePairs([line]).Err?;
    } else if r.Ok? {
      assert split == Ok(CodePairs([line]).value[0]);
      assert r.value == [CodeRow(table, split.value.0, split.value.1, id)];
    }
  }
}
