/**
 * The national-career rows of the infobox: which rows name a national team, what they
 * record, and how the senior team is chosen among them.
 */
module National {
  import opened Failures
  import opened Text
  import opened Markup
  import opened Career

  // ---------------------------------------------------------------- candidate rows

  /** A national goal figure: "?" counts nothing; otherwise the text before the first "/" is
      read, and for a goalkeeper without its first character when that is not a digit. */
  function NationalGoalsFigure(goals: string, gk: bool): (r: Result<int>)
    ensures '?' in goals ==> r == Ok(0)
  {
    if '?' in goals then Ok(0)
    else
      var g := BeforeFirst(goals, '/');
      if !gk then ParseInt(g)
      else if g == [] then Err(IndexOutOfRange)
      else if !IsDigit(g[0]) then ParseInt(g[1..])
      else ParseInt(g)
  }

  /** The title of a candidate team: non-empty, mentioning no flag, without a bracket. */
  predicate IsCandidateTitle(title: string) {
    |title| > 0 && !Contains(title, "Флаг") && '(' !in title
  }

  /** A row names a national team when the last link's title is a candidate title and the
      link's text has no bracket either. */
  predicate IsCandidate(title: string, text: string) {
    IsCandidateTitle(title) && '(' !in text
  }

  /** What a candidate row records: its team, its matches (none when written with "?") and the
      goals appropriate to the position. */
  datatype Found = Found(team: string, caps: Option<int>, goals: int)

  /** The title and the text, stripped, of the last link of the team cell. */
  function TeamLink(cell: Cell): (r: Result<(string, string)>)
    ensures r.Err? <==> cell.anchors == [] || cell.anchors[|cell.anchors| - 1].title.None?
    ensures r.Ok? ==> var link := cell.anchors[|cell.anchors| - 1];
                      r.value == (Strip(link.title.value), Strip(link.text))
  {
    if cell.anchors == [] then Err(IndexOutOfRange)
    else
      var link := cell.anchors[|cell.anchors| - 1];
      if link.title.None? then Err(MissingElement)
      else Ok((Strip(link.title.value), Strip(link.text)))
  }

  /** The record of a career cell of a candidate row: the matches figure first, then the goals. */
  function FoundOf(team: string, text: string, gk: bool): (r: Result<Found>)
    ensures CareerCell(text).Err? ==> r == Err(CareerCell(text).error)
    ensures r.Ok? ==> r.value.team == team && CareerCell(text).Ok?
    ensures r.Ok? ==> var (matches, goals) := CareerCell(text).value;
                      (r.value.caps.None? <==> '?' in matches)
                      && (r.value.caps.Some? ==> ParseInt(matches) == Ok(r.value.caps.value))
                      && NationalGoalsFigure(goals, gk) == Ok(r.value.goals)
  {
    match CareerCell(text)
    case Err(e) => Err(e)
    case Ok((matches, goals)) =>
      match (if '?' in matches then Ok(None) else Known(ParseInt(matches)))
      case Err(e) => Err(e)
      case Ok(caps) =>
        match NationalGoalsFigure(goals, gk)
        case Err(e) => Err(e)
        case Ok(g) => Ok(Found(team, caps, g))
  }

  /** An outfield player's national goals: only the figure before "/" counts. */
  lemma NationalGoalsWithSlash(g: nat, a: nat)
    ensures NationalGoalsFigure(NatToString(g) + "/" + NatToString(a), false) == Ok(g)
  {
    var d := NatToString(g);
    NotInDigits(d, '?');
    NotInDigits(d, '/');
    NotInDigits(NatToString(a), '?');
    assert '?' !in d + "/" + NatToString(a);
    BeforeFirstOf(d, '/', NatToString(a));
    ParseIntRendered(g);
  }

  /** A goalkeeper's national conceded goals written after a sign lose the sign. */
  lemma NationalConcededSigned(sign: char, c: nat)
    requires !IsDigit(sign) && sign != '?' && sign != '/'
    ensures NationalGoalsFigure([sign] + NatToString(c), true) == Ok(c)
  {
    var d := NatToString(c);
    var gs := [sign] + d;
    NotInDigits(d, '?');
    NotInDigits(d, '/');
    assert '?' !in gs && '/' !in gs;
    assert BeforeFirst(gs, '/') == gs;
    assert gs[1..] == d;
    ParseIntRendered(c);
  }

  /**
   * A goalkeeper's national conceded goals written without a sign are read whole: unlike the
   * club career, the first character is dropped only when it is not a digit.
   */
  lemma NationalConcededPlain(c: nat)
    ensures NationalGoalsFigure(NatToString(c), true) == Ok(c)
  {
    var d := NatToString(c);
    NotInDigits(d, '?');
    NotInDigits(d, '/');
    ParseIntRendered(c);
  }

  /** A goalkeeper's empty goals text fails: its first character is read. */
  lemma NationalConcededEmpty()
    ensures NationalGoalsFigure([], true) == Err(IndexOutOfRange)
  {
    assert BeforeFirst([], '/') == [];
  }

  /** A figure that was read, as a known value. */
  function Known(r: Result<int>): Result<Option<int>> {
    if r.Err? then Err(r.error) else Ok(Some(r.value))
  }

  /** One row of the national career with three cells and no footnote: nothing when it does not
      name a candidate team, otherwise what it records. */
  function RowCandidate(row: InfoRow, gk: bool): (r: Result<Option<Found>>)
    requires |row.cells| == 3
    ensures TeamLink(row.cells[1]).Err? ==> r == Err(TeamLink(row.cells[1]).error)
    ensures r.Ok? ==> (r.value.Some? <==> NamesCandidate(row))
    ensures r.Ok? && r.value.Some? ==> r.value.value.team == TeamLink(row.cells[1]).value.0
  {
    match TeamLink(row.cells[1])
    case Err(e) => Err(e)
    case Ok((title, text)) =>
      if !IsCandidate(title, text) then Ok(None)
      else
        match FoundOf(title, Strip(row.cells[2].text), gk)
        case Err(e) => Err(e)
        case Ok(f) => Ok(Some(f))
  }

  /** A row of three cells whose team link names a candidate team. */
  predicate NamesCandidate(row: InfoRow) {
    |row.cells| == 3 && TeamLink(row.cells[1]).Ok?
    && IsCandidate(TeamLink(row.cells[1]).value.0, TeamLink(row.cells[1]).value.1)
  }

  /** The parallel lists the national loop builds: team titles, matches figures (only those
      not written with "?") and the goal figures appropriate to the position. */
  datatype Candidates = Candidates(teams: seq<string>, matches: seq<int>, goals: seq<int>)

  const NoCandidates := Candidates([], [], [])

  /** The lists of a candidate collection: the matches list never runs ahead of the others. */
  predicate Aligned(c: Candidates) {
    |c.matches| <= |c.teams| == |c.goals|
  }

  function Append(a: Candidates, b: Candidates): (r: Candidates)
    ensures Aligned(a) && Aligned(b) ==> Aligned(r)
  {
    Candidates(a.teams + b.teams, a.matches + b.matches, a.goals + b.goals)
  }

  function FoundList(f: Option<Found>): (r: Candidates)
    ensures Aligned(r) && |r.teams| <= 1
  {
    if f.None? then NoCandidates
    else Candidates([f.value.team], if f.value.caps.Some? then [f.value.caps.value] else [], [f.value.goals])
  }

  /** Two partial results in sequence; the first failure wins. */
  function Join(a: Result<Candidates>, b: Result<Candidates>): Result<Candidates> {
    if a.Err? then Err(a.error)
    else if b.Err? then Err(b.error)
    else Ok(Append(a.value, b.value))
  }

  /** A row that ends the national career: not three cells, or a footnote in the third. */
  predicate EndsCareer(row: InfoRow) {
    |row.cells| != 3 || row.cells[2].hasReference
  }

  /**
   * The national loop from row position i to the last row, stopping at the first row that
   * ends the career. Every candidate adds a team title and a goal figure; only a known
   * matches figure adds to the matches list, so that list can fall behind.
   */
  function CandidatesFrom(rows: seq<InfoRow>, i: nat, gk: bool): (r: Result<Candidates>)
    ensures r.Ok? ==> Aligned(r.value)
    decreases |rows| - i
  {
    if i >= |rows| || EndsCareer(rows[i]) then Ok(NoCandidates)
    else
      match RowCandidate(rows[i], gk)
      case Err(e) => Err(e)
      case Ok(f) => Join(Ok(FoundList(f)), CandidatesFrom(rows, i + 1, gk))
  }

  lemma AppendAssociative(a: Candidates, b: Candidates, c: Candidates)
    ensures Append(Append(a, b), c) == Append(a, Append(b, c))
  {
    assert (a.teams + b.teams) + c.teams == a.teams + (b.teams + c.teams);
    assert (a.matches + b.matches) + c.matches == a.matches + (b.matches + c.matches);
    assert (a.goals + b.goals) + c.goals == a.goals + (b.goals + c.goals);
  }

  lemma JoinAssociative(a: Result<Candidates>, b: Result<Candidates>, c: Result<Candidates>)
    ensures Join(Join(a, b), c) == Join(a, Join(b, c))
  {
    if a.Ok? && b.Ok? && c.Ok? {
      AppendAssociative(a.value, b.value, c.value);
    }
  }

  lemma JoinNothing(b: Result<Candidates>)
    ensures Join(Ok(NoCandidates), b) == b
  {
    if b.Ok? {
      assert [] + b.value.teams == b.value.teams;
      assert [] + b.value.matches == b.value.matches;
      assert [] + b.value.goals == b.value.goals;
    }
  }

  lemma AppendNothing(a: Candidates)
    ensures Append(a, NoCandidates) == a
  {
    assert a.teams + [] == a.teams && a.matches + [] == a.matches && a.goals + [] == a.goals;
  }

  /** The position of the first row from i that ends the national career, or the number of
      rows when none does. */
  function CareerEnd(rows: seq<InfoRow>, i: nat): (e: nat)
    ensures i <= e && (i <= |rows| ==> e <= |rows|)
    ensures forall j :: i <= j < e ==> j < |rows| && !EndsCareer(rows[j])
    ensures e < |rows| ==> EndsCareer(rows[e])
    decreases |rows| - i
  {
    if i >= |rows| || EndsCareer(rows[i]) then i else CareerEnd(rows, i + 1)
  }

  /** The titles of the rows at positions i up to e that name a candidate team, in row order. */
  function CandidateTitles(rows: seq<InfoRow>, i: nat, e: nat): (r: seq<string>)
    ensures forall k :: 0 <= k < |r| ==> IsCandidateTitle(r[k])
    decreases e - i
  {
    if i >= e || i >= |rows| then []
    else (if NamesCandidate(rows[i]) then [TeamLink(rows[i].cells[1]).value.0] else [])
         + CandidateTitles(rows, i + 1, e)
  }

  /**
   * The teams the national loop collects are exactly the titles of the candidate rows before
   * the first row that ends the career, in row order.
   */
  lemma {:induction false} CandidatesTeams(rows: seq<InfoRow>, i: nat, gk: bool)
    requires CandidatesFrom(rows, i, gk).Ok?
    ensures CandidatesFrom(rows, i, gk).value.teams == CandidateTitles(rows, i, CareerEnd(rows, i))
    decreases |rows| - i
  {
    if i < |rows| && !EndsCareer(rows[i]) {
      var j := i + 1;
      var e := CareerEnd(rows, i);
      assert e == CareerEnd(rows, j);
      CandidatesStep(rows, i, j, gk);
      CandidatesTeams(rows, j, gk);
      var f := RowCandidate(rows[i], gk).value;
      assert CandidateTitles(rows, i, e)
             == (if NamesCandidate(rows[i]) then [TeamLink(rows[i].cells[1]).value.0] else [])
                + CandidateTitles(rows, j, e);
      assert FoundList(f).teams == (if NamesCandidate(rows[i]) then [TeamLink(rows[i].cells[1]).value.0] else []);
    }
  }

  /** Rows from the first one that ends the career onwards are never read. */
  lemma {:induction false} CandidatesStopAt(rows: seq<InfoRow>, i: nat, stop: nat, gk: bool)
    requires i <= stop < |rows| && EndsCareer(rows[stop])
    ensures CandidatesFrom(rows, i, gk) == CandidatesFrom(rows[..stop], i, gk)
    decreases stop - i
  {
    var cut := rows[..stop];
    if i < stop {
      assert cut[i] == rows[i];
      if !EndsCareer(rows[i]) {
        var j := i + 1;
        CandidatesStopAt(rows, j, stop, gk);
        CandidatesStep(rows, i, j, gk);
        CandidatesStep(cut, i, j, gk);
      }
    }
  }

  /** One step of the national loop over a row that does not end the career. */
  lemma CandidatesStep(rows: seq<InfoRow>, i: nat, j: nat, gk: bool)
    requires i < |rows| && !EndsCareer(rows[i]) && j == i + 1
    ensures CandidatesFrom(rows, i, gk)
            == if RowCandidate(rows[i], gk).Err? then Err(RowCandidate(rows[i], gk).error)
               else Join(Ok(FoundList(RowCandidate(rows[i], gk).value)), CandidatesFrom(rows, j, gk))
  {
  }

  /** The title of the team link, then the career cell of a candidate row, read as the loop
      body reads them. */
  method ReadCandidateRow(row: InfoRow, gk: bool) returns (r: Result<Option<Found>>)
    requires |row.cells| == 3
    ensures r == RowCandidate(row, gk)
  {
    var text := Strip(row.cells[2].text);
    var link := TeamLink(row.cells[1]);
    if link.Err? {
      return Err(link.error);
    }
    var (title, linkText) := link.value;
    if !IsCandidate(title, linkText) {
      return Ok(None);
    }
    var cell := SplitCareerCell(text);
    if cell.Err? {
      return Err(cell.error);
    }
    var (m, g) := cell.value;
    var caps: Option<int> := None;
    if '?' !in m {
      var figure := ParseInt(m);
      if figure.Err? {
        return Err(figure.error);
      }
      caps := Some(figure.value);
    }
    var goal := NationalGoalsFigure(g, gk);
    if goal.Err? {
      return Err(goal.error);
    }
    return Ok(Some(Found(title, caps, goal.value)));
  }

  /** The three lists after a candidate row's record is appended. */
  lemma AppendFound(before: Candidates, f: Found)
    ensures Append(before, FoundList(Some(f)))
            == Candidates(before.teams + [f.team],
                          if f.caps.Some? then before.matches + [f.caps.value] else before.matches,
                          before.goals + [f.goals])
  {
    assert before.matches + [] == before.matches;
  }

  /** `for i in range(...)` over the national rows, appending to the three lists. */
  method CollectCandidates(rows: seq<InfoRow>, lo: nat, gk: bool) returns (r: Result<Candidates>)
    ensures r == CandidatesFrom(rows, lo, gk)
  {
    var teams: seq<string> := [];
    var matches: seq<int> := [];
    var goals: seq<int> := [];
    JoinNothing(CandidatesFrom(rows, lo, gk));
    var i := lo;
    while i < |rows|
      invariant lo <= i
      invariant CandidatesFrom(rows, lo, gk) == Join(Ok(Candidates(teams, matches, goals)), CandidatesFrom(rows, i, gk))
      decreases |rows| - i
    {
      var row := rows[i];
      if |row.cells| != 3 || row.cells[2].hasReference {
        break;
      }
      var next := i + 1;
      CandidatesStep(rows, i, next, gk);
      var found := ReadCandidateRow(row, gk);
      if found.Err? {
        return Err(found.error);
      }
      ghost var rest := CandidatesFrom(rows, next, gk);
      assert CandidatesFrom(rows, i, gk) == Join(Ok(FoundList(found.value)), rest);
      JoinAssociative(Ok(Candidates(teams, matches, goals)), Ok(FoundList(found.value)), rest);
      if found.value.Some? {
        var f := found.value.value;
        AppendFound(Candidates(teams, matches, goals), f);
        teams := teams + [f.team];
        if f.caps.Some? {
          matches := matches + [f.caps.value];
        }
        goals := goals + [f.goals];
      } else {
        AppendNothing(Candidates(teams, matches, goals));
      }
      i := next;
    }
    AppendNothing(Candidates(teams, matches, goals));
    return Ok(Candidates(teams, matches, goals));
  }

  // ---------------------------------------------------------------- senior team

  /** A senior team: its title has no bracket and is not a youth, Olympic or foreign-wiki team. */
  predicate IsSeniorTitle(team: string) {
    '(' !in team && !Contains(team, "Молодёжная") && !Contains(team, "Олимпийская") && !Contains(team, "en:")
  }

  /** The senior titles among some titles, in order. */
  function SeniorTitles(ts: seq<string>): (r: seq<string>)
    ensures forall k :: 0 <= k < |r| ==> IsSeniorTitle(r[k])
    decreases |ts|
  {
    if ts == [] then []
    else (if IsSeniorTitle(ts[0]) then [ts[0]] else []) + SeniorTitles(ts[1..])
  }

  /** A kept candidate: its team, matches and goals. */
  datatype Entry = Entry(team: string, caps: int, goals: int)

  /**
   * The selection loop from position i: a senior team keeps its title and the matches and goal
   * figures at the same position of their lists, and fails when the matches list (which may
   * have fallen behind) has no figure at that position.
   */
  function Selected(c: Candidates, i: nat): (r: Result<seq<Entry>>)
    ensures r.Ok? && i <= |c.teams| ==> |r.value| <= |c.teams| - i
    decreases |c.teams| - i
  {
    if i >= |c.teams| then Ok([])
    else if !IsSeniorTitle(c.teams[i]) then Selected(c, i + 1)
    else if i >= |c.matches| || i >= |c.goals| then Err(IndexOutOfRange)
    else Concat(Ok([Entry(c.teams[i], c.matches[i], c.goals[i])]), Selected(c, i + 1))
  }

  function TeamsOf(sel: seq<Entry>): (r: seq<string>)
    ensures |r| == |sel| && forall k :: 0 <= k < |sel| ==> r[k] == sel[k].team
  {
    seq(|sel|, k requires 0 <= k < |sel| => sel[k].team)
  }

  function CapsOf(sel: seq<Entry>): (r: seq<int>)
    ensures |r| == |sel| && forall k :: 0 <= k < |sel| ==> r[k] == sel[k].caps
  {
    seq(|sel|, k requires 0 <= k < |sel| => sel[k].caps)
  }

  function GoalsOf(sel: seq<Entry>): (r: seq<int>)
    ensures |r| == |sel| && forall k :: 0 <= k < |sel| ==> r[k] == sel[k].goals
  {
    seq(|sel|, k requires 0 <= k < |sel| => sel[k].goals)
  }

  /** list.pop(k) */
  function RemoveAt<T>(s: seq<T>, k: nat): (r: seq<T>)
    requires k < |s|
    ensures |r| == |s| - 1
    ensures forall j :: 0 <= j < k ==> r[j] == s[j]
    ensures forall j :: k <= j < |r| ==> r[j] == s[j + 1]
  {
    s[..k] + s[k + 1..]
  }

  /** The teams the selection never reports, removed in this order. */
  const RestrictedTeams: seq<string> := [
    "Сборная Каталонии по футболу",
    "Сборная Арубы по футболу",
    "Сборная ДР Конго по футболу",
    "Сборная Ирландии по футболу",
    "Сборная Северной Македонии по футболу"
  ]

  /** Remove the first entry of the given team, if there is one. */
  function RemoveTeam(sel: seq<Entry>, name: string): (r: seq<Entry>)
    ensures name !in TeamsOf(sel) ==> r == sel
    ensures name in TeamsOf(sel) ==> |r| == |sel| - 1
  {
    if name in TeamsOf(sel) then RemoveAt(sel, IndexOf(TeamsOf(sel), name)) else sel
  }

  /** Remove the first entry of each name, the names taken in order. */
  function WithoutTeams(sel: seq<Entry>, names: seq<string>): (r: seq<Entry>)
    ensures |r| <= |sel|
    decreases |names|
  {
    if names == [] then sel else WithoutTeams(RemoveTeam(sel, names[0]), names[1..])
  }

  /**
   * The senior team of the national career: no senior candidate fails explicitly; removing
   * the restricted teams can leave nothing, and then reading the first entry fails.
   */
  function Senior(c: Candidates): (r: Result<Entry>)
  {
    match Selected(c, 0)
    case Err(e) => Err(e)
    case Ok(sel) =>
      if sel == [] then Err(NoNationalTeam)
      else
        var kept := WithoutTeams(sel, RestrictedTeams);
        if kept == [] then Err(IndexOutOfRange) else Ok(kept[0])
  }

  /** The candidates at position i and after of which the title is senior. */
  predicate NoSeniorFrom(c: Candidates, i: nat) {
    forall j :: i <= j < |c.teams| ==> !IsSeniorTitle(c.teams[j])
  }

  /** With no senior title there is nothing to select, and the selection reads no figure. */
  lemma {:induction false} SelectedNone(c: Candidates, i: nat)
    requires NoSeniorFrom(c, i)
    ensures Selected(c, i) == Ok([])
    decreases |c.teams| - i
  {
    if i < |c.teams| {
      SelectedNone(c, i + 1);
    }
  }

  /** When every candidate has its figures, selection never fails, and it is empty exactly
      when no title is senior. */
  lemma {:induction false} SelectedAligned(c: Candidates, i: nat)
    requires |c.matches| == |c.teams| == |c.goals|
    ensures Selected(c, i).Ok?
    ensures Selected(c, i).value == [] <==> NoSeniorFrom(c, i)
    decreases |c.teams| - i
  {
    if i < |c.teams| {
      SelectedAligned(c, i + 1);
    }
  }

  /** Every selected entry is a senior candidate with the figures at its own position. */
  lemma {:induction false} SelectedEntries(c: Candidates, i: nat)
    requires Selected(c, i).Ok?
    ensures forall e :: e in Selected(c, i).value ==>
              exists j :: i <= j < |c.teams| && j < |c.matches| && j < |c.goals| && IsSeniorTitle(c.teams[j])
                          && e == Entry(c.teams[j], c.matches[j], c.goals[j])
    decreases |c.teams| - i
  {
    if i < |c.teams| {
      SelectedEntries(c, i + 1);
    }
  }

  /**
   * The selection is complete and keeps the order: its teams are exactly the senior titles
   * from position i on, in list order.
   */
  lemma {:induction false} SelectedTitles(c: Candidates, i: nat)
    requires Selected(c, i).Ok? && i <= |c.teams|
    ensures TeamsOf(Selected(c, i).value) == SeniorTitles(c.teams[i..])
    decreases |c.teams| - i
  {
    var ts := c.teams[i..];
    if i < |c.teams| {
      var j := i + 1;
      assert ts[0] == c.teams[i] && ts[1..] == c.teams[j..];
      SelectedTitles(c, j);
      var rest := Selected(c, j).value;
      if IsSeniorTitle(c.teams[i]) {
        var e := Entry(c.teams[i], c.matches[i], c.goals[i]);
        assert Selected(c, i).value == [e] + rest;
        TeamsOfPrepend(e, rest);
      }
    } else {
      assert ts == [];
    }
  }

  lemma TeamsOfPrepend(e: Entry, sel: seq<Entry>)
    ensures TeamsOf([e] + sel) == [e.team] + TeamsOf(sel)
  {
  }

  /** Removing a team only ever removes an entry. */
  lemma RemoveTeamKeeps(sel: seq<Entry>, name: string)
    ensures forall e :: e in RemoveTeam(sel, name) ==> e in sel
  {
    if name in TeamsOf(sel) {
      var k := IndexOf(TeamsOf(sel), name);
      var r := RemoveAt(sel, k);
      forall e | e in r ensures e in sel {
        var j :| 0 <= j < |r| && r[j] == e;
        if j < k { assert sel[j] == e; } else { assert sel[j + 1] == e; }
      }
    }
  }

  /** Removing teams only ever removes entries. */
  lemma {:induction false} WithoutTeamsKeeps(sel: seq<Entry>, names: seq<string>)
    ensures forall e :: e in WithoutTeams(sel, names) ==> e in sel
    decreases |names|
  {
    if names != [] {
      RemoveTeamKeeps(sel, names[0]);
      WithoutTeamsKeeps(RemoveTeam(sel, names[0]), names[1..]);
    }
  }

  /** Names that are not selected change nothing. */
  lemma {:induction false} WithoutAbsentTeams(sel: seq<Entry>, names: seq<string>)
    requires forall n :: n in names ==> n !in TeamsOf(sel)
    ensures WithoutTeams(sel, names) == sel
    decreases |names|
  {
    if names != [] {
      assert names[0] in names;
      assert forall n :: n in names[1..] ==> n in names;
      WithoutAbsentTeams(sel, names[1..]);
    }
  }

  predicate Distinct<T(==)>(s: seq<T>) {
    forall i, j :: 0 <= i < j < |s| ==> s[i] != s[j]
  }

  /** With distinct teams, removing a team leaves it absent and the rest distinct. */
  lemma RemoveTeamDistinct(sel: seq<Entry>, name: string)
    requires Distinct(TeamsOf(sel))
    ensures Distinct(TeamsOf(RemoveTeam(sel, name)))
    ensures name !in TeamsOf(RemoveTeam(sel, name))
    ensures forall n :: n !in TeamsOf(sel) ==> n !in TeamsOf(RemoveTeam(sel, name))
  {
    RemoveTeamKeeps(sel, name);
    var r := RemoveTeam(sel, name);
    var ts, rs := TeamsOf(sel), TeamsOf(r);
    forall n | n in rs ensures n in ts {
      var j :| 0 <= j < |r| && rs[j] == n;
      assert r[j] in sel;
      var i :| 0 <= i < |sel| && sel[i] == r[j];
      assert ts[i] == n;
    }
    if name in ts {
      var k := IndexOf(ts, name);
      forall j | 0 <= j < |rs| ensures rs[j] == ts[if j < k then j else j + 1] {
        assert r[j] == (if j < k then sel[j] else sel[j + 1]);
      }
      forall i, j | 0 <= i < j < |rs| ensures rs[i] != rs[j] {
        assert rs[i] == ts[if i < k then i else i + 1];
        assert rs[j] == ts[if j < k then j else j + 1];
      }
      forall j | 0 <= j < |rs| ensures rs[j] != name {
        assert rs[j] == ts[if j < k then j else j + 1];
      }
    }
  }

  /** With distinct teams, no removed name is left. */
  lemma {:induction false} WithoutTeamsDistinct(sel: seq<Entry>, names: seq<string>)
    requires Distinct(TeamsOf(sel))
    ensures forall n :: n in names ==> n !in TeamsOf(WithoutTeams(sel, names))
    ensures forall n :: n !in TeamsOf(sel) ==> n !in TeamsOf(WithoutTeams(sel, names))
    decreases |names|
  {
    if names != [] {
      RemoveTeamDistinct(sel, names[0]);
      WithoutTeamsDistinct(RemoveTeam(sel, names[0]), names[1..]);
      forall n | n in names ensures n !in TeamsOf(WithoutTeams(sel, names)) {
        if n != names[0] {
          assert n in names[1..];
        }
      }
    }
  }

  /**
   * The chosen team is a senior candidate, reported with the matches and goal figures found
   * at its own position of the lists; when the selected titles are distinct it is never one
   * of the restricted teams.
   */
  lemma SeniorChosen(c: Candidates)
    requires Senior(c).Ok?
    ensures exists j :: 0 <= j < |c.teams| && j < |c.matches| && j < |c.goals| && IsSeniorTitle(c.teams[j])
                        && Senior(c).value == Entry(c.teams[j], c.matches[j], c.goals[j])
    ensures Distinct(TeamsOf(Selected(c, 0).value)) ==> Senior(c).value.team !in RestrictedTeams
  {
    var sel := Selected(c, 0).value;
    var kept := WithoutTeams(sel, RestrictedTeams);
    SelectedEntries(c, 0);
    WithoutTeamsKeeps(sel, RestrictedTeams);
    assert kept[0] in kept;
    if Distinct(TeamsOf(sel)) {
      WithoutTeamsDistinct(sel, RestrictedTeams);
      assert TeamsOf(kept)[0] == kept[0].team;
    }
  }

  /** With no senior title the extraction fails with the explicit error; when every candidate
      has its figures, that is the only way to get that error. */
  lemma SeniorNone(c: Candidates)
    ensures NoSeniorFrom(c, 0) ==> Senior(c) == Err(NoNationalTeam)
    ensures |c.matches| == |c.teams| == |c.goals| && Senior(c) == Err(NoNationalTeam) ==> NoSeniorFrom(c, 0)
  {
    if NoSeniorFrom(c, 0) {
      SelectedNone(c, 0);
    }
    if |c.matches| == |c.teams| == |c.goals| {
      SelectedAligned(c, 0);
    }
  }

  /** One step of the selection loop over a senior title whose figures exist. */
  lemma SelectedStep(c: Candidates, i: nat)
    requires i < |c.teams| && IsSeniorTitle(c.teams[i]) && i < |c.matches| && i < |c.goals|
    ensures Selected(c, i) == Concat(Ok([Entry(c.teams[i], c.matches[i], c.goals[i])]), Selected(c, i + 1))
  {
  }

  /** Removing the names of a + b is removing those of a, then those of b. */
  lemma {:induction false} WithoutTeamsSplit(sel: seq<Entry>, a: seq<string>, b: seq<string>)
    ensures WithoutTeams(sel, a + b) == WithoutTeams(WithoutTeams(sel, a), b)
    decreases |a|
  {
    if a == [] {
      assert a + b == b;
    } else {
      assert (a + b)[0] == a[0] && (a + b)[1..] == a[1..] + b;
      WithoutTeamsSplit(RemoveTeam(sel, a[0]), a[1..], b);
    }
  }

  lemma RestrictedDistinct(i: nat, j: nat)
    requires i < j < |RestrictedTeams|
    ensures RestrictedTeams[i] != RestrictedTeams[j]
  {
  }

  /** A sequence is what comes before position k, the element there, and what comes after. */
  lemma SplitAround<T>(s: seq<T>, k: nat)
    requires k < |s|
    ensures s == s[..k] + ([s[k]] + s[k + 1..])
  {
  }

  /** Each restricted name occurs once: the names before and after it are other names. */
  lemma RestrictedSplit(r: string) returns (k: nat)
    requires r in RestrictedTeams
    ensures k < |RestrictedTeams| && RestrictedTeams == RestrictedTeams[..k] + ([r] + RestrictedTeams[k + 1..])
    ensures r !in RestrictedTeams[..k] && r !in RestrictedTeams[k + 1..]
  {
    k := IndexOf(RestrictedTeams, r);
    SplitAround(RestrictedTeams, k);
    forall j | k + 1 <= j < |RestrictedTeams| ensures RestrictedTeams[j] != r {
      RestrictedDistinct(k, j);
    }
  }

  /** Removing a team that heads the entries removes the head. */
  lemma RemoveHeadTeam(sel: seq<Entry>, r: string)
    requires sel != [] && sel[0].team == r
    ensures RemoveTeam(sel, r) == sel[1..]
  {
    IndexOfAt(TeamsOf(sel), r, 0);
  }

  /** Removing the names of a list headed by r removes r first. */
  lemma WithoutTeamsHead(sel: seq<Entry>, r: string, post: seq<string>)
    ensures WithoutTeams(sel, [r] + post) == WithoutTeams(RemoveTeam(sel, r), post)
  {
    assert ([r] + post)[0] == r && ([r] + post)[1..] == post;
  }

  /** Entries of one team hold no other team. */
  lemma OneTeamOnly(sel: seq<Entry>, r: string, names: seq<string>)
    requires r !in names && forall e :: e in sel ==> e.team == r
    ensures forall n :: n in names ==> n !in TeamsOf(sel)
  {
  }

  /** Removing the restricted names from entries that all belong to one restricted team
      removes exactly the first entry. */
  lemma WithoutRestrictedOfOne(sel: seq<Entry>, r: string)
    requires r in RestrictedTeams && sel != [] && forall e :: e in sel ==> e.team == r
    ensures WithoutTeams(sel, RestrictedTeams) == sel[1..]
  {
    var k := RestrictedSplit(r);
    var pre := RestrictedTeams[..k];
    var post := RestrictedTeams[k + 1..];
    WithoutTeamsSplit(sel, pre, [r] + post);
    OneTeamOnly(sel, r, pre);
    WithoutAbsentTeams(sel, pre);
    WithoutTeamsHead(sel, r, post);
    assert sel[0] in sel;
    RemoveHeadTeam(sel, r);
    assert forall e :: e in sel[1..] ==> e in sel;
    OneTeamOnly(sel[1..], r, post);
    WithoutAbsentTeams(sel[1..], post);
  }

  /** The senior team once the selection is known and not empty. */
  lemma SeniorOfSelected(c: Candidates, sel: seq<Entry>)
    requires Selected(c, 0) == Ok(sel) && sel != []
    ensures var kept := WithoutTeams(sel, RestrictedTeams);
            Senior(c) == if kept == [] then Err(IndexOutOfRange) else Ok(kept[0])
  {
  }

  /** A single candidate that is a restricted senior team is removed, and reading the first
      entry of the emptied list fails with an index error instead of the explicit error. */
  lemma OnlyRestrictedTeam(r: string, m: int, g: int)
    requires r in RestrictedTeams && IsSeniorTitle(r)
    ensures Senior(Candidates([r], [m], [g])) == Err(IndexOutOfRange)
  {
    var c := Candidates([r], [m], [g]);
    var sel := [Entry(r, m, g)];
    SelectedStep(c, 0);
    assert sel + [] == sel;
    assert Selected(c, 0) == Ok(sel);
    WithoutRestrictedOfOne(sel, r);
    SeniorOfSelected(c, sel);
  }

  lemma SelectedTwoSenior(r: string, m1: int, g1: int, m2: int, g2: int)
    requires IsSeniorTitle(r)
    ensures Selected(Candidates([r, r], [m1, m2], [g1, g2]), 0) == Ok([Entry(r, m1, g1), Entry(r, m2, g2)])
  {
    var c := Candidates([r, r], [m1, m2], [g1, g2]);
    SelectedStep(c, 1);
    assert [Entry(r, m2, g2)] + [] == [Entry(r, m2, g2)];
    SelectedStep(c, 0);
    assert [Entry(r, m1, g1)] + [Entry(r, m2, g2)] == [Entry(r, m1, g1), Entry(r, m2, g2)];
  }

  /** Two entries of the same restricted team: only the first is removed. */
  lemma RestrictedPair(r: string, e1: Entry, e2: Entry)
    requires r in RestrictedTeams && e1.team == r && e2.team == r
    ensures WithoutTeams([e1, e2], RestrictedTeams) == [e2]
  {
    var sel := [e1, e2];
    assert forall e :: e in sel ==> e.team == r;
    WithoutRestrictedOfOne(sel, r);
    assert sel[1..] == [e2];
  }

  /** A restricted team listed twice loses only its first entry: the second one is chosen. */
  lemma RestrictedTwice(r: string, m1: int, g1: int, m2: int, g2: int)
    requires r in RestrictedTeams && IsSeniorTitle(r)
    ensures Senior(Candidates([r, r], [m1, m2], [g1, g2])) == Ok(Entry(r, m2, g2))
  {
    var c := Candidates([r, r], [m1, m2], [g1, g2]);
    SelectedTwoSenior(r, m1, g1, m2, g2);
    RestrictedPair(r, Entry(r, m1, g1), Entry(r, m2, g2));
    SeniorOfSelected(c, [Entry(r, m1, g1), Entry(r, m2, g2)]);
  }

  /**
   * The matches list falls behind when a candidate's matches are written "?". A youth team
   * with unknown matches followed by the senior team makes the selection read past the end
   * of the matches list.
   */
  lemma MatchesBehindFails(youth: string, senior: string, m: int, g1: int, g2: int)
    requires !IsSeniorTitle(youth) && IsSeniorTitle(senior)
    ensures Senior(Candidates([youth, senior], [m], [g1, g2])) == Err(IndexOutOfRange)
  {
    var c := Candidates([youth, senior], [m], [g1, g2]);
    assert Selected(c, 1) == Err(IndexOutOfRange);
  }

  /** A senior team with unknown matches followed by a youth team with m matches is credited
      with the youth team's m matches. */
  lemma MatchesBehindShifts(senior: string, youth: string, m: int, g1: int, g2: int)
    requires IsSeniorTitle(senior) && !IsSeniorTitle(youth) && senior !in RestrictedTeams
    ensures Senior(Candidates([senior, youth], [m], [g1, g2])) == Ok(Entry(senior, m, g1))
  {
    var c := Candidates([senior, youth], [m], [g1, g2]);
    assert Selected(c, 2) == Ok([]);
    assert Selected(c, 1) == Ok([]);
    var sel := [Entry(senior, m, g1)];
    assert sel + [] == sel;
    assert Selected(c, 0) == Ok(sel);
    assert TeamsOf(sel) == [senior];
    WithoutAbsentTeams(sel, RestrictedTeams);
  }

  /** The three projections of entries with one more entry. */
  lemma ProjectAppend(sel: seq<Entry>, e: Entry)
    ensures TeamsOf(sel + [e]) == TeamsOf(sel) + [e.team]
    ensures CapsOf(sel + [e]) == CapsOf(sel) + [e.caps]
    ensures GoalsOf(sel + [e]) == GoalsOf(sel) + [e.goals]
  {
    assert TeamsOf(sel + [e]) == TeamsOf(sel) + [e.team];
    assert CapsOf(sel + [e]) == CapsOf(sel) + [e.caps];
    assert GoalsOf(sel + [e]) == GoalsOf(sel) + [e.goals];
  }

  /** The three projections of entries with one entry popped. */
  lemma ProjectRemove(sel: seq<Entry>, k: nat)
    requires k < |sel|
    ensures TeamsOf(RemoveAt(sel, k)) == RemoveAt(TeamsOf(sel), k)
    ensures CapsOf(RemoveAt(sel, k)) == RemoveAt(CapsOf(sel), k)
    ensures GoalsOf(RemoveAt(sel, k)) == RemoveAt(GoalsOf(sel), k)
  {
    assert TeamsOf(RemoveAt(sel, k)) == RemoveAt(TeamsOf(sel), k);
    assert CapsOf(RemoveAt(sel, k)) == RemoveAt(CapsOf(sel), k);
    assert GoalsOf(RemoveAt(sel, k)) == RemoveAt(GoalsOf(sel), k);
  }

  /**
   * The selection over parallel lists: keep the senior titles with the figures at their
   * positions, fail explicitly when none is kept, pop the first entry of each restricted team,
   * and report the first entry left.
   */
  method SelectSenior(c: Candidates) returns (r: Result<Entry>)
    ensures r == Senior(c)
  {
    var teams: seq<string> := [];
    var caps: seq<int> := [];
    var goals: seq<int> := [];
    ghost var sel: seq<Entry> := [];
    ConcatUnit(Selected(c, 0));
    for i := 0 to |c.teams|
      invariant teams == TeamsOf(sel) && caps == CapsOf(sel) && goals == GoalsOf(sel)
      invariant Selected(c, 0) == Concat(Ok(sel), Selected(c, i))
    {
      if IsSeniorTitle(c.teams[i]) {
        if i >= |c.matches| || i >= |c.goals| {
          return Err(IndexOutOfRange);
        }
        var e := Entry(c.teams[i], c.matches[i], c.goals[i]);
        SelectedStep(c, i);
        ConcatAssociative(Ok(sel), Ok([e]), Selected(c, i + 1));
        ProjectAppend(sel, e);
        teams := teams + [c.teams[i]];
        caps := caps + [c.matches[i]];
        goals := goals + [c.goals[i]];
        sel := sel + [e];
      }
    }
    assert sel + [] == sel;
    if teams == [] {
      return Err(NoNationalTeam);
    }
    ghost var kept := sel;
    for k := 0 to |RestrictedTeams|
      invariant teams == TeamsOf(kept) && caps == CapsOf(kept) && goals == GoalsOf(kept)
      invariant WithoutTeams(kept, RestrictedTeams[k..]) == WithoutTeams(sel, RestrictedTeams)
    {
      var name := RestrictedTeams[k];
      assert RestrictedTeams[k..][0] == name && RestrictedTeams[k..][1..] == RestrictedTeams[k + 1..];
      if name in teams {
        var ind := IndexOf(teams, name);
        ProjectRemove(kept, ind);
        teams := RemoveAt(teams, ind);
        caps := RemoveAt(caps, ind);
        goals := RemoveAt(goals, ind);
        kept := RemoveAt(kept, ind);
      }
    }
    if caps == [] {
      return Err(IndexOutOfRange);
    }
    return Ok(Entry(teams[0], caps[0], goals[0]));
  }
}
