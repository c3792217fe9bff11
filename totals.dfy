/**
 * The totals rows of the statistics tables: the last row of a table that reads "Всего" or
 * "Всего за карьеру" (club career) or "Итого" (national team). Their figures only ever raise
 * the figures collected from the infobox.
 */
module Totals {
  import opened Failures
  import opened Text
  import opened Markup

  /** Matches and goals of a totals row; the goals are conceded for a goalkeeper and scored
      for anyone else. */
  datatype Totals = Totals(caps: int, goals: int)

  function Max(a: int, b: int): (m: int)
    ensures m >= a && m >= b && (m == a || m == b)
  {
    if a < b then b else a
  }

  /** Both figures raised to at least the new ones. */
  function Raise(acc: Totals, t: Totals): (r: Totals)
    ensures r.caps == Max(acc.caps, t.caps) && r.goals == Max(acc.goals, t.goals)
  {
    Totals(Max(acc.caps, t.caps), Max(acc.goals, t.goals))
  }

  // ---------------------------------------------------------------- club totals

  predicate IsClubTotalsLabel(text: string) {
    text == "Всего за карьеру" || text == "Всего"
  }

  /** A club totals row: its first header cell or its first data cell reads a totals label. */
  predicate IsClubTotalsRow(row: LastRow) {
    (|row.ths| != 0 && IsClubTotalsLabel(Strip(row.ths[0])))
    || (|row.tds| != 0 && IsClubTotalsLabel(Strip(row.tds[0])))
  }

  /** The cells read: the data cells when there are more of them than header cells, the
      header cells otherwise (a tie included). */
  function TotalsColumns(row: LastRow): (cols: seq<string>)
    ensures cols == row.tds || cols == row.ths
    ensures |cols| >= |row.tds| && |cols| >= |row.ths|
    ensures |row.tds| <= |row.ths| ==> cols == row.ths
  {
    if |row.tds| > |row.ths| then row.tds else row.ths
  }

  /** A goalkeeper's goals-conceded text: "?" reads as zero, a leading non-digit is dropped. */
  function ConcededText(g: string): (r: Result<string>)
    ensures g == "?" ==> r == Ok("0")
    ensures r.Err? <==> g == []
  {
    if g == [] then Err(IndexOutOfRange)
    else if !IsDigit(g[0]) && g != "?" then Ok(g[1..])
    else if g == "?" then Ok("0")
    else Ok(g)
  }

  /**
   * The figures of a club totals row, read from the stripped texts of its last three columns
   * (the third from last may be missing). The matches are the second-to-last column; when
   * that does not start with a digit the layout is shifted: it holds the goals after a sign
   * and the matches are the column before. A goalkeeper's goals in the plain layout are the
   * last column read as conceded; an outfield player's goals are always the last column.
   */
  function ClubFigures(third: Option<string>, second: string, last: string, gk: bool): (r: Result<Totals>)
  {
    if second == [] then Err(IndexOutOfRange)
    else if !IsDigit(second[0]) then
      match ParseInt(second[1..])
      case Err(e) => Err(e)
      case Ok(shifted) =>
        if third.None? then Err(IndexOutOfRange)
        else
          match ParseInt(third.value)
          case Err(e) => Err(e)
          case Ok(caps) => if gk then Ok(Totals(caps, shifted)) else WithGoals(caps, ParseInt(last))
    else
      match ParseInt(second)
      case Err(e) => Err(e)
      case Ok(caps) =>
        if !gk then WithGoals(caps, ParseInt(last))
        else
          match ConcededText(last)
          case Err(e) => Err(e)
          case Ok(text) => WithGoals(caps, ParseInt(text))
  }

  /** The matches with the goals read, if they could be read. */
  function WithGoals(caps: int, goals: Result<int>): (r: Result<Totals>)
    ensures r.Ok? <==> goals.Ok?
    ensures r.Ok? ==> r.value == Totals(caps, goals.value)
  {
    match goals
    case Err(e) => Err(e)
    case Ok(g) => Ok(Totals(caps, g))
  }

  /** The figures of a club totals row: at least two columns are needed. */
  function ClubTotals(row: LastRow, gk: bool): (r: Result<Totals>)
    ensures |TotalsColumns(row)| < 2 ==> r == Err(IndexOutOfRange)
  {
    var cols := TotalsColumns(row);
    if |cols| < 2 then Err(IndexOutOfRange)
    else
      var n := |cols|;
      ClubFigures(if n >= 3 then Some(Strip(cols[n - 3])) else None, Strip(cols[n - 2]), Strip(cols[n - 1]), gk)
  }

  /** The plain layout: matches second to last, goals (scored, or conceded without sign) last. */
  lemma ClubFiguresPlain(third: Option<string>, m: nat, g: nat, gk: bool)
    ensures ClubFigures(third, NatToString(m), NatToString(g), gk) == Ok(Totals(m, g))
  {
    var second, last := NatToString(m), NatToString(g);
    assert IsDigit(second[0]) && IsDigit(last[0]);
    ParseIntRendered(m);
    ParseIntRendered(g);
    assert ConcededText(last) == Ok(last);
  }

  /** A goalkeeper whose conceded goals are unknown ("?") is read as having conceded none. */
  lemma ClubFiguresUnknownConceded(third: Option<string>, m: nat)
    ensures ClubFigures(third, NatToString(m), "?", true) == Ok(Totals(m, 0))
  {
    var second := NatToString(m);
    assert IsDigit(second[0]);
    ParseIntRendered(m);
    assert ConcededText("?") == Ok("0");
    assert NatToString(0) == "0";
    ParseIntRendered(0);
  }

  /** A goalkeeper's conceded goals written after a sign in the last column. */
  lemma ClubFiguresSignedConceded(third: Option<string>, m: nat, sign: char, c: nat)
    requires !IsDigit(sign) && sign != '?'
    ensures ClubFigures(third, NatToString(m), [sign] + NatToString(c), true) == Ok(Totals(m, c))
  {
    ParseIntRendered(m);
    var last := [sign] + NatToString(c);
    assert last[1..] == NatToString(c);
    assert last != "?";
    ParseIntRendered(c);
  }

  /** The shifted layout: a goalkeeper's conceded goals after a sign second to last, the
      matches one column further left. */
  lemma ClubFiguresShifted(m: nat, sign: char, c: nat, last: string)
    requires !IsDigit(sign)
    ensures ClubFigures(Some(NatToString(m)), [sign] + NatToString(c), last, true) == Ok(Totals(m, c))
  {
    ParseIntRendered(m);
    var second := [sign] + NatToString(c);
    assert second[1..] == NatToString(c);
    ParseIntRendered(c);
  }

  /** The shifted layout for an outfield player: the goals after the sign second to last are
      read and then discarded, and the goals scored are the last column. */
  lemma ClubFiguresShiftedOutfield(m: nat, sign: char, c: nat, g: nat)
    requires !IsDigit(sign)
    ensures ClubFigures(Some(NatToString(m)), [sign] + NatToString(c), NatToString(g), false) == Ok(Totals(m, g))
  {
    ParseIntRendered(m);
    var second := [sign] + NatToString(c);
    assert second[1..] == NatToString(c);
    ParseIntRendered(c);
    ParseIntRendered(g);
  }

  /** What one table says about the club totals: nothing (its last row is not a totals row),
      the figures of its totals row, or a failure (a table without rows, an unreadable row). */
  function ClubReading(table: Table, gk: bool): (r: Result<Option<Totals>>)
    ensures r == Ok(None) <==> table.lastRow.Some? && !IsClubTotalsRow(table.lastRow.value)
    ensures table.lastRow.None? ==> r == Err(IndexOutOfRange)
  {
    if table.lastRow.None? then Err(IndexOutOfRange)
    else if !IsClubTotalsRow(table.lastRow.value) then Ok(None)
    else
      match ClubTotals(table.lastRow.value, gk)
      case Err(e) => Err(e)
      case Ok(t) => Ok(Some(t))
  }

  /** The readings of the tables, in page order. */
  function ClubReadings(tables: seq<Table>, gk: bool): (rs: seq<Result<Option<Totals>>>)
    ensures |rs| == |tables| && forall k :: 0 <= k < |tables| ==> rs[k] == ClubReading(tables[k], gk)
  {
    seq(|tables|, k requires 0 <= k < |tables| => ClubReading(tables[k], gk))
  }

  /** The first reading that says something decides: a failure or figures; none gives nothing. */
  function FirstFinding(rs: seq<Result<Option<Totals>>>, i: nat): (r: Result<Option<Totals>>)
    ensures r == Ok(None) || exists k :: i <= k < |rs| && r == rs[k]
    decreases |rs| - i
  {
    if i >= |rs| then Ok(None)
    else if rs[i] != Ok(None) then rs[i]
    else FirstFinding(rs, i + 1)
  }

  /** The finding is the first reading that is not empty: the readings after it are never
      consulted. */
  lemma {:induction false} FirstFindingAt(rs: seq<Result<Option<Totals>>>, i: nat, j: nat)
    requires i <= j < |rs| && rs[j] != Ok(None)
    requires forall k :: i <= k < j ==> rs[k] == Ok(None)
    ensures FirstFinding(rs, i) == rs[j]
    decreases j - i
  {
    if i < j {
      FirstFindingAt(rs, i + 1, j);
    }
  }

  /** Without any reading the search finds nothing. */
  lemma {:induction false} FirstFindingNone(rs: seq<Result<Option<Totals>>>, i: nat)
    requires forall k :: i <= k < |rs| ==> rs[k] == Ok(None)
    ensures FirstFinding(rs, i) == Ok(None)
    decreases |rs| - i
  {
    if i < |rs| {
      FirstFindingNone(rs, i + 1);
    }
  }

  /** The club totals of a page: those of the first table whose last row is a totals row, a
      failure at the first table without rows before it. */
  function ClubTotalsOf(tables: seq<Table>, gk: bool): Result<Option<Totals>> {
    FirstFinding(ClubReadings(tables, gk), 0)
  }

  /** The search over the tables of a page: it stops at the first table that fails or holds
      a club totals row. */
  method FindClubTotals(tables: seq<Table>, gk: bool) returns (r: Result<Option<Totals>>)
    ensures r == ClubTotalsOf(tables, gk)
  {
    ghost var rs := ClubReadings(tables, gk);
    var i := 0;
    while i < |tables|
      invariant i <= |tables|
      invariant ClubTotalsOf(tables, gk) == FirstFinding(rs, i)
      decreases |tables| - i
    {
      var reading := ClubReading(tables[i], gk);
      if reading != Ok(None) {
        return reading;
      }
      i := i + 1;
    }
    return Ok(None);
  }

  /** Only the first totals table counts: a later totals table never changes the outcome. */
  lemma ClubTotalsFirst(tables: seq<Table>, j: nat, gk: bool)
    requires j < |tables| && tables[j].lastRow.Some? && IsClubTotalsRow(tables[j].lastRow.value)
    requires forall k :: 0 <= k < j ==> tables[k].lastRow.Some? && !IsClubTotalsRow(tables[k].lastRow.value)
    ensures ClubTotalsOf(tables, gk) == ClubReading(tables[j], gk) != Ok(None)
  {
    FirstFindingAt(ClubReadings(tables, gk), 0, j);
  }

  /** Without any totals row, and with rows in every table, the page has no club totals. */
  lemma ClubTotalsNone(tables: seq<Table>, gk: bool)
    requires forall k :: 0 <= k < |tables| ==> tables[k].lastRow.Some? && !IsClubTotalsRow(tables[k].lastRow.value)
    ensures ClubTotalsOf(tables, gk) == Ok(None)
  {
    FirstFindingNone(ClubReadings(tables, gk), 0);
  }

  // ---------------------------------------------------------------- national totals

  /** A national totals row: its first header cell reads "Итого". */
  predicate IsNationalTotalsRow(ths: seq<string>) {
    |ths| != 0 && Strip(ths[0]) == "Итого"
  }

  /** The figures of a national totals row from the stripped texts of its second and third
      header cells (the third may be missing): a goalkeeper's goals lose a leading non-digit. */
  function NationalFigures(second: string, third: Option<string>, gk: bool): (r: Result<Totals>)
  {
    match ParseInt(second)
    case Err(e) => Err(e)
    case Ok(caps) =>
      if third.None? then Err(IndexOutOfRange)
      else if !gk then WithGoals(caps, ParseInt(third.value))
      else
        match UnsignedText(third.value)
        case Err(e) => Err(e)
        case Ok(text) => WithGoals(caps, ParseInt(text))
  }

  /** A goalkeeper's national goals text: a leading non-digit is dropped; an empty text has no
      first character to look at. */
  function UnsignedText(g: string): (r: Result<string>)
    ensures r.Err? <==> g == []
    ensures g != [] && IsDigit(g[0]) ==> r == Ok(g)
    ensures g != [] && !IsDigit(g[0]) ==> r == Ok(g[1..])
  {
    if g == [] then Err(IndexOutOfRange)
    else if !IsDigit(g[0]) then Ok(g[1..])
    else Ok(g)
  }

  /** The figures of a national totals row: matches in the second header cell, goals in the
      third. */
  function NationalTotals(ths: seq<string>, gk: bool): (r: Result<Totals>)
    ensures |ths| < 2 ==> r == Err(IndexOutOfRange)
  {
    if |ths| < 2 then Err(IndexOutOfRange)
    else NationalFigures(Strip(ths[1]), if |ths| >= 3 then Some(Strip(ths[2])) else None, gk)
  }

  /** An outfield player's national totals: matches, then goals scored. */
  lemma NationalFiguresScored(m: nat, g: nat)
    ensures NationalFigures(NatToString(m), Some(NatToString(g)), false) == Ok(Totals(m, g))
  {
    ParseIntRendered(m);
    ParseIntRendered(g);
  }

  /** A goalkeeper's national totals: matches, then the goals conceded after a sign. */
  lemma NationalFiguresConceded(m: nat, sign: char, c: nat)
    requires !IsDigit(sign)
    ensures NationalFigures(NatToString(m), Some([sign] + NatToString(c)), true) == Ok(Totals(m, c))
  {
    ParseIntRendered(m);
    var g := [sign] + NatToString(c);
    assert g[1..] == NatToString(c);
    ParseIntRendered(c);
  }

  /** A goalkeeper's national conceded goals written without a sign. */
  lemma NationalFiguresConcededPlain(m: nat, c: nat)
    ensures NationalFigures(NatToString(m), Some(NatToString(c)), true) == Ok(Totals(m, c))
  {
    ParseIntRendered(m);
    var g := NatToString(c);
    assert IsDigit(g[0]);
    ParseIntRendered(c);
  }

  /** A goalkeeper's unknown conceded goals ("?") are not a number: the row fails. */
  lemma NationalFiguresUnknown(m: nat)
    ensures NationalFigures(NatToString(m), Some("?"), true) == Err(NotAnInteger)
  {
    ParseIntRendered(m);
    assert "?"[1..] == [];
    ParseIntEmpty();
  }

  /** What one table says about the national totals: nothing unless it is a wikitable whose
      last row is a totals row. */
  function NationalReading(table: Table, gk: bool): (r: Result<Option<Totals>>)
    ensures !table.isWikitable ==> r == Ok(None)
    ensures table.isWikitable && table.lastRow.None? ==> r == Err(IndexOutOfRange)
  {
    if !table.isWikitable then Ok(None)
    else if table.lastRow.None? then Err(IndexOutOfRange)
    else if !IsNationalTotalsRow(table.lastRow.value.ths) then Ok(None)
    else
      match NationalTotals(table.lastRow.value.ths, gk)
      case Err(e) => Err(e)
      case Ok(t) => Ok(Some(t))
  }

  function NationalReadings(tables: seq<Table>, gk: bool): (rs: seq<Result<Option<Totals>>>)
    ensures |rs| == |tables| && forall k :: 0 <= k < |tables| ==> rs[k] == NationalReading(tables[k], gk)
  {
    seq(|tables|, k requires 0 <= k < |tables| => NationalReading(tables[k], gk))
  }

  /** Every reading from position i raises the figures; the first failure stops the merge. */
  function MergeFindings(rs: seq<Result<Option<Totals>>>, i: nat, acc: Totals): (r: Result<Totals>)
    ensures r.Err? <==> exists k :: i <= k < |rs| && rs[k].Err?
    decreases |rs| - i
  {
    if i >= |rs| then Ok(acc)
    else if rs[i].Err? then Err(rs[i].error)
    else MergeFindings(rs, i + 1, if rs[i].value.Some? then Raise(acc, rs[i].value.value) else acc)
  }

  /** The merge fails with the error of the first failing reading. */
  lemma {:induction false} MergeFindingsFirstError(rs: seq<Result<Option<Totals>>>, i: nat, acc: Totals, k: nat)
    requires i <= k < |rs| && rs[k].Err?
    requires forall j :: i <= j < k ==> rs[j].Ok?
    ensures MergeFindings(rs, i, acc) == Err(rs[k].error)
    decreases k - i
  {
    if i < k {
      var next := i + 1;
      MergeFindingsFirstError(rs, next, if rs[i].value.Some? then Raise(acc, rs[i].value.value) else acc, k);
    }
  }

  /** The national totals merged into the figures collected so far. */
  function NationalTotalsOf(tables: seq<Table>, gk: bool, acc: Totals): Result<Totals> {
    MergeFindings(NationalReadings(tables, gk), 0, acc)
  }

  /** The merge over the wikitables of a page: every national totals row raises the figures
      collected so far, and the first failure stops it. */
  method MergeNationalTotals(tables: seq<Table>, gk: bool, acc: Totals) returns (r: Result<Totals>)
    ensures r == NationalTotalsOf(tables, gk, acc)
  {
    ghost var rs := NationalReadings(tables, gk);
    var figures := acc;
    var i := 0;
    while i < |tables|
      invariant i <= |tables|
      invariant NationalTotalsOf(tables, gk, acc) == MergeFindings(rs, i, figures)
      decreases |tables| - i
    {
      var reading := NationalReading(tables[i], gk);
      if reading.Err? {
        return Err(reading.error);
      }
      if reading.value.Some? {
        figures := Raise(figures, reading.value.value);
      }
      i := i + 1;
    }
    return Ok(figures);
  }

  /**
   * The merged figures are at least the starting ones and at least those of every reading,
   * and each is either the starting figure or the figure of one of the readings.
   */
  lemma {:induction false} MergeFindingsBounds(rs: seq<Result<Option<Totals>>>, i: nat, acc: Totals)
    requires MergeFindings(rs, i, acc).Ok?
    ensures var r := MergeFindings(rs, i, acc).value;
            r.caps >= acc.caps && r.goals >= acc.goals
            && (forall k :: i <= k < |rs| && rs[k].Ok? && rs[k].value.Some? ==>
                  r.caps >= rs[k].value.value.caps && r.goals >= rs[k].value.value.goals)
            && (r.caps == acc.caps || exists k :: i <= k < |rs| && rs[k].Ok? && rs[k].value.Some? && r.caps == rs[k].value.value.caps)
            && (r.goals == acc.goals || exists k :: i <= k < |rs| && rs[k].Ok? && rs[k].value.Some? && r.goals == rs[k].value.value.goals)
    decreases |rs| - i
  {
    if i < |rs| {
      var next := if rs[i].value.Some? then Raise(acc, rs[i].value.value) else acc;
      MergeFindingsBounds(rs, i + 1, next);
    }
  }

  /** With no national totals row on the page the figures are left as they were. */
  lemma {:induction false} MergeFindingsNone(rs: seq<Result<Option<Totals>>>, i: nat, acc: Totals)
    requires forall k :: i <= k < |rs| ==> rs[k] == Ok(None)
    ensures MergeFindings(rs, i, acc) == Ok(acc)
    decreases |rs| - i
  {
    if i < |rs| {
      MergeFindingsNone(rs, i + 1, acc);
    }
  }
}
