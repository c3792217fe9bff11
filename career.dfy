/**
 * Career cells of the infobox: a cell reads "<matches> (<goals>)", and the club-career rows
 * add their figures up. A goalkeeper's goal figure counts goals conceded, written with a
 * leading sign; an outfield player's counts goals scored.
 */
module Career {
  import opened Failures
  import opened Text
  import opened Markup

  /** The position text that marks a goalkeeper. */
  const Goalkeeper: string := "вратарь"

  /**
   * What the two scanning loops read from a career cell: the text before the first "(" and
   * the text from there up to the next ")". A missing bracket runs the scan off the end.
   */
  function CareerCell(text: string): (r: Result<(string, string)>)
    ensures r.Err? ==> r.error == IndexOutOfRange
    ensures r.Ok? ==> '(' !in r.value.0 && ')' !in r.value.1
                      && StartsWith(text, r.value.0 + "(" + r.value.1 + ")")
  {
    if '(' !in text then Err(IndexOutOfRange)
    else
      var open := IndexOf(text, '(');
      var rest := text[open + 1..];
      if ')' !in rest then Err(IndexOutOfRange)
      else
        var close := IndexOf(rest, ')');
        assert text[..open + 1 + close + 1] == text[..open] + "(" + rest[..close] + ")";
        Ok((text[..open], rest[..close]))
  }

  /** A career cell as it is written: the matches text, then the goals text in brackets. */
  function WrittenCell(matches: string, goals: string): string {
    matches + "(" + goals + ")"
  }

  /** A cell written from two texts without the closing brackets reads back as those texts. */
  lemma CareerCellOfWritten(matches: string, goals: string)
    requires '(' !in matches && ')' !in goals
    ensures CareerCell(WrittenCell(matches, goals)) == Ok((matches, goals))
  {
    var text := WrittenCell(matches, goals);
    assert text[..|matches|] == matches;
    IndexOfAt(text, '(', |matches|);
    var rest := text[|matches| + 1..];
    assert rest == goals + ")";
    assert rest[..|goals|] == goals;
    IndexOfAt(rest, ')', |goals|);
  }

  /** One `while text[ind] != stop` loop: the characters from `start` up to the first `stop`
      or the end of the text. */
  method ReadUntil(text: string, start: nat, stop: char) returns (part: string, ind: nat)
    requires start <= |text|
    ensures start <= ind <= |text| && part == text[start..ind] && stop !in part
    ensures ind < |text| ==> text[ind] == stop
  {
    part := "";
    ind := start;
    while ind < |text| && text[ind] != stop
      invariant start <= ind <= |text| && part == text[start..ind] && stop !in part
    {
      part := part + [text[ind]];
      ind := ind + 1;
    }
  }

  /** The two `while text[ind] != ...` loops that split a career cell; running off the end of
      the text is the index error. */
  method SplitCareerCell(text: string) returns (r: Result<(string, string)>)
    ensures r == CareerCell(text)
  {
    var matches, open := ReadUntil(text, 0, '(');
    if open == |text| {
      assert text[..open] == text;
      return Err(IndexOutOfRange);
    }
    IndexOfAt(text, '(', open);
    var goals, close := ReadUntil(text, open + 1, ')');
    ghost var rest := text[open + 1..];
    assert goals == rest[..close - (open + 1)];
    if close == |text| {
      assert rest[..|rest|] == rest;
      return Err(IndexOutOfRange);
    }
    IndexOfAt(rest, ')', |goals|);
    return Ok((matches, goals));
  }

  /** Matches played and goals conceded and scored, as summed over career rows. */
  datatype Tally = Tally(caps: int, conceded: int, scored: int)

  const NoTally := Tally(0, 0, 0)

  function Add(a: Tally, b: Tally): Tally {
    Tally(a.caps + b.caps, a.conceded + b.conceded, a.scored + b.scored)
  }

  /** A matches figure: unknown ("?" anywhere) counts nothing, otherwise int() of the text. */
  function MatchesFigure(matches: string): (r: Result<int>)
    ensures '?' in matches ==> r == Ok(0)
  {
    if '?' in matches then Ok(0) else ParseInt(matches)
  }

  /**
   * A club goal figure. For a goalkeeper a figure other than "0" and without "?" is cut at its
   * first "/" and read without its first character (the sign of goals conceded); for an
   * outfield player a figure without "?" is cut at its first "/" and read as it is. Any other
   * figure counts nothing.
   */
  function ClubGoalsFigure(goals: string, gk: bool): (r: Result<int>)
    ensures '?' in goals ==> r == Ok(0)
    ensures gk && goals == "0" ==> r == Ok(0)
  {
    if gk then
      if goals != "0" && '?' !in goals then ParseInt(Drop1(BeforeFirst(goals, '/'))) else Ok(0)
    else
      if '?' !in goals then ParseInt(BeforeFirst(goals, '/')) else Ok(0)
  }

  /** Goals conceded go to a goalkeeper's tally, goals scored to anyone else's. */
  function RoleTally(caps: int, goals: int, gk: bool): (t: Tally)
    ensures t.caps == caps
    ensures gk ==> t.conceded == goals && t.scored == 0
    ensures !gk ==> t.scored == goals && t.conceded == 0
  {
    if gk then Tally(caps, goals, 0) else Tally(caps, 0, goals)
  }

  /** The figures one club-career cell adds; the matches figure is read before the goals. */
  function ClubCellDelta(text: string, gk: bool): (r: Result<Tally>)
    ensures r.Ok? && gk ==> r.value.scored == 0
    ensures r.Ok? && !gk ==> r.value.conceded == 0
  {
    match CareerCell(text)
    case Err(e) => Err(e)
    case Ok((matches, goals)) =>
      match MatchesFigure(matches)
      case Err(e) => Err(e)
      case Ok(caps) =>
        match ClubGoalsFigure(goals, gk)
        case Err(e) => Err(e)
        case Ok(g) => Ok(RoleTally(caps, g, gk))
  }

  /** The figures of a cell whose two texts are known. */
  lemma ClubCellDeltaOf(text: string, gk: bool, matches: string, goals: string, caps: int, g: int)
    requires CareerCell(text) == Ok((matches, goals))
    requires MatchesFigure(matches) == Ok(caps) && ClubGoalsFigure(goals, gk) == Ok(g)
    ensures ClubCellDelta(text, gk) == Ok(RoleTally(caps, g, gk))
  {
  }

  /** Figures of one row followed by those of the rows after it; the first failure wins. */
  function Then(head: Result<Tally>, rest: Result<Tally>): Result<Tally> {
    if head.Err? then Err(head.error)
    else if rest.Err? then Err(rest.error)
    else Ok(Add(head.value, rest.value))
  }

  /**
   * The club-career loop over row positions lo up to hi (exclusive): it stops early at the
   * first row whose number of cells is not three, and adds the figures of the third cell of
   * every row before it. A position past the last row fails.
   */
  function ClubTally(rows: seq<InfoRow>, lo: nat, hi: int, gk: bool): (r: Result<Tally>)
    ensures r.Ok? && gk ==> r.value.scored == 0
    ensures r.Ok? && !gk ==> r.value.conceded == 0
    decreases |rows| - lo
  {
    if lo >= hi then Ok(NoTally)
    else if lo >= |rows| then Err(IndexOutOfRange)
    else if |rows[lo].cells| != 3 then Ok(NoTally)
    else Then(ClubCellDelta(Strip(rows[lo].cells[2].text), gk), ClubTally(rows, lo + 1, hi, gk))
  }

  /** Rows from the first one without three cells onwards are never read. */
  lemma {:induction false} ClubTallyStopsAt(rows: seq<InfoRow>, lo: nat, hi: int, stop: nat, gk: bool)
    requires lo <= stop < hi && stop < |rows| && |rows[stop].cells| != 3
    ensures ClubTally(rows, lo, hi, gk) == ClubTally(rows, lo, stop, gk)
    decreases stop - lo
  {
    if lo < stop && |rows[lo].cells| == 3 {
      var next := lo + 1;
      ClubTallyStopsAt(rows, next, hi, stop, gk);
      ClubTallyStep(rows, lo, next, hi, gk);
      ClubTallyStep(rows, lo, next, stop, gk);
    }
  }

  /** Rows at hi and after are never read, however many there are. */
  lemma {:induction false} ClubTallyWindow(rows: seq<InfoRow>, more: seq<InfoRow>, lo: nat, hi: int, gk: bool)
    requires hi <= |rows|
    ensures ClubTally(rows + more, lo, hi, gk) == ClubTally(rows, lo, hi, gk)
    decreases |rows| - lo
  {
    if lo < hi {
      assert (rows + more)[lo] == rows[lo];
      ClubTallyWindow(rows, more, lo + 1, hi, gk);
    }
  }

  /** A figure written as a number and a blank reads as that number. */
  lemma MatchesFigureWritten(m: nat)
    ensures MatchesFigure(NatToString(m) + " ") == Ok(m)
  {
    ParseIntPadded(m);
    NotInDigits(NatToString(m), '?');
  }

  /** An outfield cell "m (g)" adds m matches and g goals scored. */
  lemma OutfieldCell(m: nat, g: nat)
    ensures ClubCellDelta(WrittenCell(NatToString(m) + " ", NatToString(g)), false) == Ok(Tally(m, 0, g))
  {
    var ms := NatToString(m) + " ";
    var gs := NatToString(g);
    NotInDigits(gs, '?');
    NotInDigits(gs, '/');
    NotInDigits(gs, ')');
    CareerCellOfWritten(ms, gs);
    MatchesFigureWritten(m);
    ParseIntRendered(g);
    ClubCellDeltaOf(WrittenCell(ms, gs), false, ms, gs, m, g);
  }

  /** Only the figure before "/" counts: "m (g/a)" adds g goals scored for an outfield player. */
  lemma OutfieldCellWithSlash(m: nat, g: nat, a: nat)
    ensures ClubCellDelta(WrittenCell(NatToString(m) + " ", NatToString(g) + "/" + NatToString(a)), false)
            == Ok(Tally(m, 0, g))
  {
    var ms := NatToString(m) + " ";
    var d := NatToString(g);
    var gs := d + "/" + NatToString(a);
    NotInDigits(d, '?');
    NotInDigits(d, '/');
    NotInDigits(d, ')');
    NotInDigits(NatToString(a), '?');
    NotInDigits(NatToString(a), ')');
    CareerCellOfWritten(ms, gs);
    MatchesFigureWritten(m);
    BeforeFirstOf(d, '/', NatToString(a));
    ParseIntRendered(g);
    ClubCellDeltaOf(WrittenCell(ms, gs), false, ms, gs, m, g);
  }

  /** A goalkeeper's figure written after a sign reads as the number after the sign. */
  lemma SignedConceded(sign: char, c: nat)
    requires sign != '?' && sign != '/'
    ensures ClubGoalsFigure([sign] + NatToString(c), true) == Ok(c)
  {
    var d := NatToString(c);
    var gs := [sign] + d;
    NotInDigits(d, '?');
    NotInDigits(d, '/');
    assert '?' !in gs && '/' !in gs;
    assert gs != "0" by { assert |gs| >= 2; }
    assert Drop1(BeforeFirst(gs, '/')) == d;
    ParseIntRendered(c);
  }

  /** A goalkeeper's signed figure loses its sign: "m (−c)" adds m matches and c goals conceded. */
  lemma GoalkeeperCell(m: nat, sign: char, c: nat)
    requires sign != '?' && sign != '/' && sign != ')'
    ensures ClubCellDelta(WrittenCell(NatToString(m) + " ", [sign] + NatToString(c)), true) == Ok(Tally(m, c, 0))
  {
    var ms := NatToString(m) + " ";
    var gs := [sign] + NatToString(c);
    NotInDigits(NatToString(c), ')');
    assert ')' !in gs;
    CareerCellOfWritten(ms, gs);
    MatchesFigureWritten(m);
    SignedConceded(sign, c);
    ClubCellDeltaOf(WrittenCell(ms, gs), true, ms, gs, m, c);
  }

  /** Figures written "?" are unknown and add nothing. */
  lemma UnknownCell(gk: bool)
    ensures ClubCellDelta(WrittenCell("? ", "?"), gk) == Ok(NoTally)
  {
    CareerCellOfWritten("? ", "?");
    assert '?' in "? ";
    ClubCellDeltaOf(WrittenCell("? ", "?"), gk, "? ", "?", 0, 0);
  }

  /** A row whose third cell holds the given text. */
  function CareerRow(text: string): InfoRow {
    InfoRow(None, [Cell("", [], false), Cell("", [], false), Cell(text, [], false)], text, None, None, None)
  }

  /** A cell whose goals are unknown adds its matches only. */
  lemma UnknownGoalsCell(m: nat, gk: bool)
    ensures ClubCellDelta(WrittenCell(NatToString(m) + " ", "?"), gk) == Ok(RoleTally(m, 0, gk))
  {
    var ms := NatToString(m) + " ";
    NotInDigits(NatToString(m), '(');
    CareerCellOfWritten(ms, "?");
    MatchesFigureWritten(m);
    assert '?' in "?";
    ClubCellDeltaOf(WrittenCell(ms, "?"), gk, ms, "?", m, 0);
  }

  /** A written cell that starts with a digit has nothing to strip. */
  lemma StripWrittenCell(m: nat, goals: string)
    ensures Strip(WrittenCell(NatToString(m) + " ", goals)) == WrittenCell(NatToString(m) + " ", goals)
  {
    var d := NatToString(m);
    var text := WrittenCell(d + " ", goals);
    assert text == d + (" (" + goals + ")");
    assert text[0] == d[0] && !IsSpace(d[0]);
    assert text[|text| - 1] == ')';
    StripUnpadded(text);
  }

  lemma AddNothing(t: Tally)
    ensures Add(t, NoTally) == t
  {
  }

  /** One step of the club-career loop over a career row. */
  lemma ClubTallyStep(rows: seq<InfoRow>, lo: nat, next: nat, hi: int, gk: bool)
    requires lo < hi && lo < |rows| && |rows[lo].cells| == 3 && next == lo + 1
    ensures ClubTally(rows, lo, hi, gk)
            == Then(ClubCellDelta(Strip(rows[lo].cells[2].text), gk), ClubTally(rows, next, hi, gk))
  {
  }

  /** Two career rows add up. */
  lemma ClubTallyOfTwo(t1: string, t2: string, a: Tally, b: Tally, gk: bool)
    requires ClubCellDelta(Strip(t1), gk) == Ok(a)
    requires ClubCellDelta(Strip(t2), gk) == Ok(b)
    ensures ClubTally([CareerRow(t1), CareerRow(t2)], 0, 2, gk) == Ok(Add(a, b))
  {
    var rows := [CareerRow(t1), CareerRow(t2)];
    AddNothing(b);
    ClubTallyStep(rows, 1, 2, 2, gk);
    ClubTallyStep(rows, 0, 1, 2, gk);
  }

  /**
   * Rows "m1 (g1)" and "m2 (?)" give an outfield player m1 + m2 matches and g1 goals
   * ("15 (3)" and "10 (?)" give 25 and 3).
   */
  lemma OutfieldTwoRows(m1: nat, g1: nat, m2: nat)
    ensures ClubTally([CareerRow(WrittenCell(NatToString(m1) + " ", NatToString(g1))),
                       CareerRow(WrittenCell(NatToString(m2) + " ", "?"))], 0, 2, false)
            == Ok(Tally(m1 + m2, 0, g1))
  {
    var t1 := WrittenCell(NatToString(m1) + " ", NatToString(g1));
    var t2 := WrittenCell(NatToString(m2) + " ", "?");
    StripWrittenCell(m1, NatToString(g1));
    StripWrittenCell(m2, "?");
    OutfieldCell(m1, g1);
    UnknownGoalsCell(m2, false);
    ClubTallyOfTwo(t1, t2, Tally(m1, 0, g1), Tally(m2, 0, 0), false);
    AddOutfield(m1, g1, m2);
  }

  lemma AddOutfield(m1: int, g1: int, m2: int)
    ensures Add(Tally(m1, 0, g1), Tally(m2, 0, 0)) == Tally(m1 + m2, 0, g1)
  {
  }

  /**
   * The figures of one club-career cell as the loop reads them: the matches count unless
   * written with "?"; a goalkeeper's goals unless "0" or written with "?", cut at "/" and
   * without their first character; anyone else's goals unless written with "?", cut at "/".
   */
  method ReadClubCell(text: string, gk: bool) returns (r: Result<Tally>)
    ensures r == ClubCellDelta(text, gk)
  {
    var cell := SplitCareerCell(text);
    if cell.Err? {
      return Err(cell.error);
    }
    var matches := cell.value.0;
    var goals := cell.value.1;
    var caps := 0;
    if '?' !in matches {
      var m := ParseInt(matches);
      if m.Err? {
        return Err(m.error);
      }
      caps := m.value;
    }
    var g := 0;
    if gk {
      if goals != "0" && '?' !in goals {
        var v := ParseInt(Drop1(BeforeFirst(goals, '/')));
        if v.Err? {
          return Err(v.error);
        }
        g := v.value;
      }
    } else {
      if '?' !in goals {
        var v := ParseInt(BeforeFirst(goals, '/'));
        if v.Err? {
          return Err(v.error);
        }
        g := v.value;
      }
    }
    ClubCellDeltaOf(text, gk, matches, goals, caps, g);
    return Ok(RoleTally(caps, g, gk));
  }

  lemma ThenUnit(r: Result<Tally>)
    ensures Then(Ok(NoTally), r) == r
  {
  }

  lemma ThenShift(acc: Tally, delta: Tally, rest: Result<Tally>)
    ensures Then(Ok(acc), Then(Ok(delta), rest)) == Then(Ok(Add(acc, delta)), rest)
  {
  }

  /**
   * The club-career loop over row positions lo up to hi: the figures of each row of three
   * cells are added up, and the first row of another shape ends the career.
   */
  method SumClubCareer(rows: seq<InfoRow>, lo: nat, hi: int, gk: bool) returns (r: Result<Tally>)
    ensures r == ClubTally(rows, lo, hi, gk)
  {
    var total := NoTally;
    ThenUnit(ClubTally(rows, lo, hi, gk));
    var i := lo;
    while i < hi
      invariant lo <= i
      invariant ClubTally(rows, lo, hi, gk) == Then(Ok(total), ClubTally(rows, i, hi, gk))
      decreases hi - i
    {
      if i >= |rows| {
        return Err(IndexOutOfRange);
      }
      var cells := rows[i].cells;
      if |cells| != 3 {
        break;
      }
      var next := i + 1;
      ClubTallyStep(rows, i, next, hi, gk);
      var delta := ReadClubCell(Strip(cells[2].text), gk);
      if delta.Err? {
        return Err(delta.error);
      }
      ThenShift(total, delta.value, ClubTally(rows, next, hi, gk));
      total := Add(total, delta.value);
      i := next;
    }
    AddNothing(total);
    return Ok(total);
  }
}
