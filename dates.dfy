/**
 * The date fields of an award file: removing the trailing parenthesised note
 * (`re.sub(r'\s+\(.*\)', '', value)`) and `datetime.strptime(value, '%B %d, %Y').date()`
 * in the C locale, where a failure is a `ValueError` the parser turns into `None`.
 */
module Dates {
  import opened Wrappers
  import PyStr
  import Regex

  datatype Date = Date(year: int, month: int, day: int)

  predicate IsLeapYear(y: int) {
    y % 4 == 0 && (y % 100 != 0 || y % 400 == 0)
  }

  function DaysInMonth(y: int, m: int): int
    requires 1 <= m <= 12
  {
    if m == 2 then (if IsLeapYear(y) then 29 else 28)
    else if m == 4 || m == 6 || m == 9 || m == 11 then 30
    else 31
  }

  /** A date `datetime.date` accepts: years 1 to 9999 and a day that exists in its month. */
  predicate ValidDate(d: Date) {
    1 <= d.year <= 9999 && 1 <= d.month <= 12 && 1 <= d.day <= DaysInMonth(d.year, d.month)
  }

  /** Full English month names, as `%B` prints them. */
  function MonthName(m: int): string
    requires 1 <= m <= 12
  {
    match m
    case 1 => "January"   case 2 => "February"  case 3 => "March"
    case 4 => "April"     case 5 => "May"       case 6 => "June"
    case 7 => "July"      case 8 => "August"    case 9 => "September"
    case 10 => "October"  case 11 => "November" case _ => "December"
  }

  /** ASCII lower-casing. */
  function Lower(c: char): char {
    if 'A' <= c <= 'Z' then (c as int + 32) as char else c
  }

  /** `s` starts with the month name `w`, ignoring ASCII case as `%B` does. */
  predicate StartsWithName(s: string, w: string) {
    |w| <= |s| && forall i :: 0 <= i < |w| ==> Lower(s[i]) == Lower(w[i])
  }

  /** The first month, from `m` on, whose name `s` starts with. */
  function MonthFrom(s: string, m: int): (r: Option<int>)
    requires 1 <= m <= 13
    ensures r.Some? ==> m <= r.value <= 12 && StartsWithName(s, MonthName(r.value))
    ensures r.None? ==> forall m' :: m <= m' <= 12 ==> !StartsWithName(s, MonthName(m'))
    decreases 13 - m
  {
    if m == 13 then None
    else if StartsWithName(s, MonthName(m)) then Some(m)
    else MonthFrom(s, m + 1)
  }

  /**
   * The `%d` directive followed by the comma of the format: `3[01]`, `[12]\d`,
   * `0[1-9]` or `[1-9]`, tried in that order. Gives the day and its length.
   */
  function DayToken(t: string): (r: Option<(int, nat)>)
    ensures r.Some? ==> 1 <= r.value.0 <= 31 && 1 <= r.value.1 < |t| && t[r.value.1] == ','
  {
    if |t| >= 3 && PyStr.IsDigit(t[0]) && PyStr.IsDigit(t[1]) && t[2] == ','
       && ((t[0] == '3' && (t[1] == '0' || t[1] == '1')) || t[0] == '1' || t[0] == '2' || (t[0] == '0' && t[1] != '0'))
    then Some((10 * (t[0] - '0') as int + (t[1] - '0') as int, 2))
    else if |t| >= 2 && '1' <= t[0] <= '9' && t[1] == ',' then Some(((t[0] - '0') as int, 1))
    else None
  }

  /**
   * What `strptime` reads after the month name `m`: whitespace, the day, a comma,
   * whitespace, exactly four digits and nothing more, making an existing date.
   */
  function ParseAfterMonth(m: int, t: string): (r: Option<Date>)
    requires 1 <= m <= 12
    ensures r.Some? ==> ValidDate(r.value) && r.value.month == m
  {
    var t1 := PyStr.LStrip(t);
    if |t1| == |t| then None else AfterSpace(m, t1)
  }

  /** The day token and the year after the spaces that follow the month. */
  function AfterSpace(m: int, t1: string): (r: Option<Date>)
    requires 1 <= m <= 12
    ensures r.Some? ==> ValidDate(r.value) && r.value.month == m
  {
    var tok := DayToken(t1);
    if tok.None? then None else AfterDay(m, tok.value.0, t1[tok.value.1 + 1..])
  }

  /** What `strptime` reads after the day's comma: whitespace, then exactly four digits. */
  function AfterDay(m: int, day: int, v: string): (r: Option<Date>)
    requires 1 <= m <= 12 && 1 <= day
    ensures r.Some? ==> ValidDate(r.value) && r.value.month == m && r.value.day == day
  {
    var v1 := PyStr.LStrip(v);
    if |v1| == |v| || |v1| != 4 || !PyStr.AllDigits(v1) then None
    else
      var year := PyStr.DigitsValue(v1);
      if 1 <= year <= 9999 && day <= DaysInMonth(year, m) then Some(Date(year, m, day)) else None
  }

  /**
   * `datetime.strptime(s, '%B %d, %Y').date()`: a month name, whitespace, the day,
   * a comma, whitespace and exactly four digits, making up the whole of `s`, and a
   * calendar date that exists; `None` where `strptime` raises `ValueError`.
   */
  function ParseDate(s: string): (r: Option<Date>)
    ensures r.Some? ==> ValidDate(r.value)
  {
    match MonthFrom(s, 1)
    case None => None
    case Some(m) => ParseAfterMonth(m, s[|MonthName(m)|..])
  }

  /** `\s+\(.*\)`: whitespace, an opening parenthesis, then up to the last `)` on the line. */
  function NotePattern(): (p: seq<Regex.Piece>)
    ensures Regex.MinLen(p) == 3
  {
    var p := [Regex.Rep(Regex.Space, 1, true), Regex.One(Regex.Lit('(')),
              Regex.Rep(Regex.AnyButNewline, 0, true), Regex.One(Regex.Lit(')'))];
    assert p[1..][1..][1..][1..] == [];
    p
  }

  /** `re.sub(r'\s+\(.*\)', '', s)`. */
  function DropNotes(s: string): string {
    Regex.Sub(NotePattern(), s)
  }

  /** The date fields' treatment: drop the notes, then parse. */
  function ParseDateField(s: string): (r: Option<Date>)
    ensures r.Some? ==> ValidDate(r.value)
  {
    ParseDate(DropNotes(s))
  }

  // ---------------------------------------------------------------------------
  // Printing dates, and the round trip

  function DayText(day: int): (t: string)
    requires 1 <= day <= 31
    ensures 1 <= |t| <= 2 && PyStr.AllDigits(t)
  {
    if day < 10 then [PyStr.DigitChar(day)] else [PyStr.DigitChar(day / 10), PyStr.DigitChar(day % 10)]
  }

  /** `%Y`: the year as four digits. */
  function YearText(y: int): (t: string)
    requires 1 <= y <= 9999
    ensures |t| == 4 && PyStr.AllDigits(t) && PyStr.DigitsValue(t) == y
  {
    var q1 := y / 10;
    var q2 := q1 / 10;
    var a := q2 / 10;
    var b, c, e := q2 % 10, q1 % 10, y % 10;
    var t := [PyStr.DigitChar(a), PyStr.DigitChar(b), PyStr.DigitChar(c), PyStr.DigitChar(e)];
    assert t[..3][..2][..1] == [t[0]] && [t[0]][..0] == [];
    assert PyStr.DigitsValue(t[..1]) == a;
    assert PyStr.DigitsValue(t[..2]) == 10 * a + b by { assert t[..2][..1] == t[..1]; }
    assert PyStr.DigitsValue(t[..3]) == 10 * (10 * a + b) + c by { assert t[..3][..2] == t[..2]; }
    assert PyStr.DigitsValue(t) == 10 * (10 * (10 * a + b) + c) + e by { assert t[..3] == t[..3]; }
    t
  }

  /** A date as `'%B %d, %Y'` prints it, without the zero padding of `%d`. */
  function FormatDate(d: Date): string
    requires ValidDate(d)
  {
    MonthName(d.month) + " " + DayText(d.day) + ", " + YearText(d.year)
  }

  lemma MonthOf(m: int, rest: string)
    requires 1 <= m <= 12
    ensures MonthFrom(MonthName(m) + rest, 1) == Some(m)
  {
    var s := MonthName(m) + rest;
    assert StartsWithName(s, MonthName(m));
    assert s[0] == MonthName(m)[0] && s[1] == MonthName(m)[1] && s[2] == MonthName(m)[2];
    forall m' | 1 <= m' < m
      ensures !StartsWithName(s, MonthName(m'))
    {
      NameHead(s, MonthName(m'));
    }
    MonthFromFirst(s, 1, m);
  }

  /** Starting with a name means agreeing with it, up to case, on its first three letters. */
  lemma NameHead(s: string, w: string)
    requires |w| >= 3
    ensures StartsWithName(s, w) ==> |s| >= 3 && Lower(s[0]) == Lower(w[0]) && Lower(s[1]) == Lower(w[1]) && Lower(s[2]) == Lower(w[2])
  {
  }

  lemma {:induction false} MonthFromFirst(s: string, from: int, m: int)
    requires 1 <= from <= m <= 12
    requires StartsWithName(s, MonthName(m))
    requires forall m' :: from <= m' < m ==> !StartsWithName(s, MonthName(m'))
    ensures MonthFrom(s, from) == Some(m)
    decreases m - from
  {
    if from < m {
      MonthFromFirst(s, from + 1, m);
    }
  }

  lemma DayTokenOf(day: int, rest: string)
    requires 1 <= day <= 31
    ensures DayToken(DayText(day) + [','] + rest) == Some((day, |DayText(day)|))
  {
    var t := DayText(day) + [','] + rest;
    if day >= 10 {
      assert t[0] == PyStr.DigitChar(day / 10) && t[1] == PyStr.DigitChar(day % 10) && t[2] == ',';
    } else {
      assert t[0] == PyStr.DigitChar(day) && t[1] == ',';
    }
  }

  lemma AfterMonthPrinted(d: Date)
    requires ValidDate(d)
    ensures ParseAfterMonth(d.month, " " + DayText(d.day) + ", " + YearText(d.year)) == Some(d)
  {
    var day, year := DayText(d.day), YearText(d.year);
    var tail := day + [','] + (" " + year);
    assert " " + day + ", " + year == " " + tail;
    DayTokenOf(d.day, " " + year);
    assert tail[|day| + 1..] == " " + year;
    AfterMonthTail(d.month, d.day, |day|, tail, year);
  }

  /** What follows the month, once the day is read: the year's four digits after whitespace. */
  lemma AfterMonthTail(m: int, day: int, len: nat, tail: string, year: string)
    requires 1 <= m <= 12
    requires DayToken(tail) == Some((day, len))
    requires tail[len + 1..] == " " + year
    requires |year| == 4 && PyStr.AllDigits(year)
    requires !PyStr.IsSpace(tail[0])
    ensures var y := PyStr.DigitsValue(year);
            ParseAfterMonth(m, " " + tail)
            == if 1 <= y <= 9999 && day <= DaysInMonth(y, m) then Some(Date(y, m, day)) else None
  {
    assert ParseAfterMonth(m, " " + tail) == AfterDay(m, day, " " + year) by {
      PyStr.LStripSpaces(" ", tail);
      AfterMonthStep(m, " " + tail, tail, day, len);
    }
    YearAfterSpace(m, day, year);
  }

  /** Whitespace, then a four-digit year. */
  lemma YearAfterSpace(m: int, day: int, year: string)
    requires 1 <= m <= 12 && 1 <= day
    requires |year| == 4 && PyStr.AllDigits(year)
    ensures var y := PyStr.DigitsValue(year);
            AfterDay(m, day, " " + year) == if 1 <= y <= 9999 && day <= DaysInMonth(y, m) then Some(Date(y, m, day)) else None
  {
    assert PyStr.IsDigit(year[0]);
    PyStr.LStripSpaces(" ", year);
    AfterDayStep(m, day, " " + year, year);
  }

  /** `ParseAfterMonth` past whitespace and a day. */
  lemma AfterMonthStep(m: int, t: string, t1: string, day: int, len: nat)
    requires 1 <= m <= 12
    requires PyStr.LStrip(t) == t1 && |t1| != |t|
    requires DayToken(t1) == Some((day, len))
    ensures ParseAfterMonth(m, t) == AfterDay(m, day, t1[len + 1..])
  {
    assert ParseAfterMonth(m, t) == AfterSpace(m, t1);
    AfterSpaceStep(m, t1, day, len);
  }

  /** One unfolding of `AfterSpace` once the day token is known. */
  lemma AfterSpaceStep(m: int, t1: string, day: int, len: nat)
    requires 1 <= m <= 12
    requires DayToken(t1) == Some((day, len))
    ensures AfterSpace(m, t1) == AfterDay(m, day, t1[len + 1..])
  {
    var tok := DayToken(t1);
    assert tok.value == (day, len);
  }

  /** `AfterDay` past whitespace and four digits. */
  lemma AfterDayStep(m: int, day: int, v: string, v1: string)
    requires 1 <= m <= 12 && 1 <= day
    requires PyStr.LStrip(v) == v1 && |v1| != |v|
    requires |v1| == 4 && PyStr.AllDigits(v1)
    ensures var y := PyStr.DigitsValue(v1);
            AfterDay(m, day, v) == if 1 <= y <= 9999 && day <= DaysInMonth(y, m) then Some(Date(y, m, day)) else None
  {
  }

  /** What `strptime` reads back is the date that was printed. */
  lemma ParsePrinted(d: Date)
    requires ValidDate(d)
    ensures ParseDate(FormatDate(d)) == Some(d)
  {
    var rest := " " + DayText(d.day) + ", " + YearText(d.year);
    var s := FormatDate(d);
    assert s == MonthName(d.month) + rest;
    MonthOf(d.month, rest);
    assert s[|MonthName(d.month)|..] == rest;
    AfterMonthPrinted(d);
  }

  // ---------------------------------------------------------------------------
  // Dropping a trailing note

  /**
   * A match of the note pattern in `x + y` from inside `x` runs over whitespace up
   * to a `(`: that `(` is in `x`, or the whitespace reaches the last character of `x`.
   */
  lemma NoteMatchStart(x: string, y: string, t: nat, f: Regex.Found)
    requires t < |x|
    requires Regex.Match(NotePattern(), x + y, t, []) == Some(f)
    ensures (exists u :: t < u < |x| && x[u] == '(') || PyStr.IsSpace(x[|x| - 1])
  {
    var s := x + y;
    var n := NoteParen(s, t, f);
    if t + n < |x| {
      assert x[t + n] == s[t + n];
    } else {
      assert x[|x| - 1] == s[|x| - 1];
    }
  }

  /** A match of the note pattern is whitespace and then `(`. */
  lemma NoteParen(s: string, t: nat, f: Regex.Found) returns (n: nat)
    requires t <= |s|
    requires Regex.Match(NotePattern(), s, t, []) == Some(f)
    ensures 1 <= n && t + n < |s| && s[t + n] == '('
    ensures forall j :: t <= j < t + n ==> PyStr.IsSpace(s[j])
  {
    var p := NotePattern();
    n := Regex.RepWitness(p, s, t, [], f);
    assert p[1..] == [Regex.One(Regex.Lit('('))] + p[2..];
    Regex.SinglesPrefix([Regex.One(Regex.Lit('('))], p[2..], s, t + n, [], f);
    forall j | t <= j < t + n ensures PyStr.IsSpace(s[j]) {
      assert Regex.InClass(Regex.Space, s[j]);
    }
  }
  /** No match of the note pattern starts inside a text without `(` that does not end in whitespace. */
  lemma NoNoteInside(x: string, y: string, t: nat)
    requires '(' !in x && x != [] && !PyStr.IsSpace(x[|x| - 1])
    requires t < |x|
    ensures Regex.Match(NotePattern(), x + y, t, []).None?
  {
    var m := Regex.Match(NotePattern(), x + y, t, []);
    if m.Some? {
      NoteMatchStart(x, y, t, m.value);
    }
  }

  /** `\(.*\)` matches from an opening parenthesis to the closing one that ends a line-free text. */
  lemma ParenNoteMatches(s: string, j: nat)
    requires j + 2 <= |s| && s[j] == '(' && s[|s| - 1] == ')'
    requires forall u :: j <= u < |s| ==> s[u] != '\n'
    ensures Regex.Match(NotePattern()[1..], s, j, []) == Some(Regex.Found(|s|, []))
  {
    var p2 := NotePattern()[2..];
    var p3 := NotePattern()[3..];
    assert p3 == [Regex.One(Regex.Lit(')'))];
    assert Regex.Match(p3, s, |s|, []).None?;
    assert Regex.Match(p3, s, |s| - 1, []) == Some(Regex.Found(|s|, [])) by {
      assert p3[1..] == [];
    }
    RunToEnd(s, j + 1);
    assert Regex.TryGreedy(p2, s, j + 1, [], |s| - j - 2) == Some(Regex.Found(|s|, []));
    assert Regex.TryGreedy(p2, s, j + 1, [], |s| - j - 1) == Some(Regex.Found(|s|, []));
    assert NotePattern()[1..][1..] == p2;
  }

  /** The note pattern matches ` (note)` to its end when the note is on one line. */
  lemma NoteMatches(x: string, note: string)
    requires '\n' !in note
    ensures var s := x + " (" + note + ")";
            Regex.Match(NotePattern(), s, |x|, []) == Some(Regex.Found(|s|, []))
  {
    var s := x + " (" + note + ")";
    assert s[|x|] == ' ' && s[|x| + 1] == '(' && s[|s| - 1] == ')';
    forall u | |x| + 1 <= u < |s| ensures s[u] != '\n' {
      if |x| + 2 <= u < |s| - 1 {
        assert s[u] == note[u - |x| - 2];
      }
    }
    NoteMatchesAt(s, |x|);
  }

  /** From ` (` to a `)` that ends a line-free text, the note pattern matches all of it. */
  lemma NoteMatchesAt(s: string, i: nat)
    requires i + 3 <= |s| && s[i] == ' ' && s[i + 1] == '(' && s[|s| - 1] == ')'
    requires forall u :: i + 1 <= u < |s| ==> s[u] != '\n'
    ensures Regex.Match(NotePattern(), s, i, []) == Some(Regex.Found(|s|, []))
  {
    ParenNoteMatches(s, i + 1);
    SpaceThenNote(s, i, Regex.Found(|s|, []));
  }

  /** One space before the `(`: the note pattern matches from the space as from the `(`. */
  lemma SpaceThenNote(s: string, i: nat, f: Regex.Found)
    requires i + 1 < |s| && s[i] == ' ' && s[i + 1] == '('
    requires Regex.Match(NotePattern()[1..], s, i + 1, []) == Some(f)
    ensures Regex.Match(NotePattern(), s, i, []) == Some(f)
  {
    var p := NotePattern();
    assert Regex.Run(Regex.Space, s, i + 1) == 0;
    assert Regex.Run(Regex.Space, s, i) == 1;
    assert Regex.TryGreedy(p, s, i, [], 1) == Some(f);
  }

  lemma {:induction false} RunToEnd(s: string, i: nat)
    requires i <= |s| && forall j :: i <= j < |s| ==> s[j] != '\n'
    ensures Regex.Run(Regex.AnyButNewline, s, i) == |s| - i
    decreases |s| - i
  {
    if i < |s| {
      RunToEnd(s, i + 1);
    }
  }

  /** Removing the note: `"<date> (note)"` becomes `"<date>"`. */
  lemma DropTrailingNote(x: string, note: string)
    requires '(' !in x && x != [] && !PyStr.IsSpace(x[|x| - 1])
    requires '\n' !in note
    ensures DropNotes(x + " (" + note + ")") == x
  {
    var p := NotePattern();
    var s := x + " (" + note + ")";
    assert s == x + (" (" + note + ")");
    forall t | 0 <= t < |x| ensures Regex.Match(p, s, t, []).None? {
      NoNoteInside(x, " (" + note + ")", t);
    }
    NoteMatches(x, note);
    SearchAt(p, s, |x|);
    assert Regex.Search(p, s) == Some((|x|, Regex.Found(|s|, [])));
    assert s[..|x|] == x;
    assert s[|s|..] == [];
    assert Regex.Search(p, []).None?;
  }

  lemma {:induction false} SearchAt(p: seq<Regex.Piece>, s: string, t: nat)
    requires t <= |s|
    requires forall u :: 0 <= u < t ==> Regex.Match(p, s, u, []).None?
    requires Regex.Match(p, s, t, []).Some?
    ensures Regex.Search(p, s) == Some((t, Regex.Match(p, s, t, []).value))
  {
    var r := Regex.Search(p, s);
    assert r.Some?;
  }

  /** A printed date with its note, as award files write it, reads back as that date. */
  lemma ParseAnnotatedDate(d: Date, note: string)
    requires ValidDate(d)
    requires '\n' !in note
    ensures ParseDateField(FormatDate(d) + " (" + note + ")") == Some(d)
  {
    var x := FormatDate(d);
    assert '(' !in x;
    assert x[|x| - 1] == YearText(d.year)[3];
    DropTrailingNote(x, note);
    ParsePrinted(d);
  }
}
