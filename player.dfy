/**
 * The record of a player page, built in stages: the name, the biography rows of the infobox,
 * the club career, the national career, and the totals rows of the statistics tables. Each
 * stage is a function from the record before it to the record after it (or a failure), and
 * `PlayerRecord` is the mutable record whose methods carry the stages out field by field.
 */
module Player {
  import opened Failures
  import opened Text
  import opened Markup
  import opened Fields
  import opened Career
  import opened National
  import opened Totals

  /**
   * The fields of the record. The birth timestamp and text are absent until a birth row is
   * read (the record is created without them); every other field starts at zero or empty.
   */
  datatype PlayerData = PlayerData(
    url: string,
    name: seq<string>,
    height: int,
    position: string,
    currentClub: string,
    clubCaps: int,
    clubConceded: int,
    clubScored: int,
    nationalCaps: int,
    nationalConceded: int,
    nationalScored: int,
    nationalTeam: string,
    birth: Option<int>,
    birthText: Option<string>)

  /** The record as created: the page's URL and zero or empty everywhere else. */
  function Initial(url: string): PlayerData {
    PlayerData(url, [], 0, "", "", 0, 0, 0, 0, 0, 0, "", None, None)
  }

  /** Whether the record is that of a goalkeeper. */
  predicate IsGoalkeeper(d: PlayerData) {
    d.position == Goalkeeper
  }

  // ---------------------------------------------------------------- name

  function Reverse<T>(s: seq<T>): (r: seq<T>)
    ensures |r| == |s| && forall k :: 0 <= k < |s| ==> r[k] == s[|s| - 1 - k]
    decreases |s|
  {
    if s == [] then [] else Reverse(s[1..]) + [s[0]]
  }

  /** The name as stored: the first two of three or more words joined, then the order
      reversed (surname first). */
  function NameParts(words: seq<string>): (r: seq<string>)
    ensures |r| <= 2
    ensures |words| > 2 ==> r == [words[2], words[0] + " " + words[1]]
    ensures |words| <= 2 ==> r == Reverse(words)
  {
    Reverse(if |words| > 2 then [words[0] + " " + words[1], words[2]] else words)
  }

  /**
   * Read back in order and joined with blanks, the stored name is the text of the first three
   * words: nothing of them is lost, and every later word is dropped.
   */
  lemma NamePartsJoin(words: seq<string>)
    ensures JoinWith(Reverse(NameParts(words)), " ") == JoinWith(words[..if |words| < 3 then |words| else 3], " ")
  {
    var r := NameParts(words);
    var kept := if |words| > 2 then [words[0] + " " + words[1], words[2]] else words;
    assert Reverse(r) == kept;
    if |words| > 2 {
      var w := words[..3];
      assert w[1..] == [words[1], words[2]] && w[1..][1..] == [words[2]];
      assert kept[1..] == [words[2]];
    } else {
      assert words[..|words|] == words;
    }
  }

  /** The name stage: the words of the name block of the first infobox row. */
  function WithName(d: PlayerData, rows: seq<InfoRow>): (r: Result<PlayerData>)
    ensures rows == [] ==> r == Err(IndexOutOfRange)
    ensures r.Ok? ==> rows != [] && rows[0].nameDiv.Some?
                      && r.value == d.(name := NameParts(Words(Strip(rows[0].nameDiv.value))))
  {
    if rows == [] then Err(IndexOutOfRange)
    else if rows[0].nameDiv.None? then Err(MissingElement)
    else Ok(d.(name := NameParts(Words(Strip(rows[0].nameDiv.value)))))
  }

  // ---------------------------------------------------------------- biography

  const BornLabel: string := "Родился"
  const HeightLabel: string := "Рост"
  const PositionLabel: string := "Позиция"
  const ClubLabel: string := "Клуб"
  const ClubCareerLabel: string := "Клубная карьера"
  const NationalCareerLabel: string := "Национальная сборная"

  /** The heading of an infobox row: none without a header cell, otherwise the stripped header
      cut back to its last letter (which fails when it has no letter). */
  function RowLabel(row: InfoRow): Result<Option<string>> {
    if row.header.None? then Ok(None)
    else
      match TrimToLetter(Strip(row.header.value))
      case Err(e) => Err(e)
      case Ok(heading) => Ok(Some(heading))
  }

  predicate Labelled(row: InfoRow, heading: string) {
    RowLabel(row) == Ok(Some(heading))
  }

  /**
   * The birth row: its date links give "day month" and the year; the date is read by
   * `GetBday`. A missing date block, fewer than two links, or a first link that is not exactly
   * two words fails.
   */
  function BirthOf(row: InfoRow): (r: Result<(int, string)>)
    ensures row.dateLinks.None? ==> r == Err(MissingElement)
  {
    if row.dateLinks.None? then Err(MissingElement)
    else
      var links := row.dateLinks.value;
      if |links| < 2 then Err(IndexOutOfRange)
      else
        var dayMonth := Words(links[0]);
        if |dayMonth| != 2 then Err(Unpacking)
        else GetBday(dayMonth[0], dayMonth[1], links[1])
  }

  /** The height row: the third line of the row's stripped text, read by `Height`. */
  function HeightOf(row: InfoRow): Result<nat> {
    var lines := SplitAt(Strip(row.text), '\n');
    if |lines| < 3 then Err(IndexOutOfRange) else Height(lines[2])
  }

  /** The state of the biography scan: the record and the positions of the last club-career
      and national-career heading rows seen (zero when none was). */
  datatype Scan = Scan(data: PlayerData, clubAt: nat, nationalAt: nat)

  /** Nothing but the biography fields differ. */
  predicate SameFigures(a: PlayerData, b: PlayerData) {
    a.url == b.url && a.name == b.name
    && a.clubCaps == b.clubCaps && a.clubConceded == b.clubConceded && a.clubScored == b.clubScored
    && a.nationalCaps == b.nationalCaps && a.nationalConceded == b.nationalConceded
    && a.nationalScored == b.nationalScored && a.nationalTeam == b.nationalTeam
  }

  /** The birth row sets the birth timestamp and text. */
  function SetBirth(d: PlayerData, row: InfoRow): (r: Result<PlayerData>)
    ensures r.Ok? <==> BirthOf(row).Ok?
    ensures r.Err? ==> r.error == BirthOf(row).error
    ensures r.Ok? ==> r.value.birth.Some? && r.value.birthText.Some?
                      && BirthOf(row) == Ok((r.value.birth.value, r.value.birthText.value))
                      && r.value.(birth := d.birth, birthText := d.birthText) == d
  {
    match BirthOf(row)
    case Err(e) => Err(e)
    case Ok((stamp, text)) => Ok(d.(birth := Some(stamp), birthText := Some(text)))
  }

  /** The height row sets the height. */
  function SetHeight(d: PlayerData, row: InfoRow): (r: Result<PlayerData>)
    ensures r.Ok? <==> HeightOf(row).Ok?
    ensures r.Err? ==> r.error == HeightOf(row).error
    ensures r.Ok? ==> r.value.height >= 0 && HeightOf(row) == Ok(r.value.height)
                      && r.value.(height := d.height) == d
  {
    match HeightOf(row)
    case Err(e) => Err(e)
    case Ok(h) => Ok(d.(height := h))
  }

  /** The position row sets the position to the stripped text of its first cell. */
  function SetPosition(d: PlayerData, row: InfoRow): (r: Result<PlayerData>)
    ensures r.Ok? <==> row.cells != []
    ensures r.Ok? ==> r.value == d.(position := Strip(row.cells[0].text))
  {
    if row.cells == [] then Err(MissingElement)
    else Ok(d.(position := Strip(row.cells[0].text)))
  }

  /** The club row sets the current club to its club text without surrounding blanks. */
  function SetClub(d: PlayerData, row: InfoRow): (r: Result<PlayerData>)
    ensures r.Ok? <==> row.clubSpan.Some?
    ensures r.Ok? ==> r.value == d.(currentClub := StripBlanks(row.clubSpan.value))
  {
    if row.clubSpan.None? then Err(MissingElement)
    else Ok(d.(currentClub := StripBlanks(row.clubSpan.value)))
  }

  /** The scan state with the record a field setter produced. */
  function WithData(s: Scan, r: Result<PlayerData>): Result<Scan> {
    if r.Err? then Err(r.error) else Ok(s.(data := r.value))
  }

  /**
   * What one labelled row at position k does: the birth, height, position and club rows set
   * their field, the two career headings record their position, any other heading does nothing.
   */
  function ApplyLabel(s: Scan, heading: string, row: InfoRow, k: nat): (r: Result<Scan>)
    ensures r.Ok? ==> SameFigures(s.data, r.value.data)
    ensures r.Ok? ==> r.value.clubAt == (if heading == ClubCareerLabel then k else s.clubAt)
    ensures r.Ok? ==> r.value.nationalAt == (if heading == NationalCareerLabel then k else s.nationalAt)
    ensures heading == BornLabel ==> r == WithData(s, SetBirth(s.data, row))
    ensures heading == HeightLabel ==> r == WithData(s, SetHeight(s.data, row))
    ensures heading == PositionLabel ==> r == WithData(s, SetPosition(s.data, row))
    ensures heading == ClubLabel ==> r == WithData(s, SetClub(s.data, row))
    ensures heading != BornLabel && heading != HeightLabel && heading != PositionLabel && heading != ClubLabel
            ==> r.Ok? && r.value.data == s.data
  {
    if heading == BornLabel then WithData(s, SetBirth(s.data, row))
    else if heading == HeightLabel then WithData(s, SetHeight(s.data, row))
    else if heading == PositionLabel then WithData(s, SetPosition(s.data, row))
    else if heading == ClubLabel then WithData(s, SetClub(s.data, row))
    else if heading == ClubCareerLabel then Ok(s.(clubAt := k))
    else if heading == NationalCareerLabel then Ok(s.(nationalAt := k))
    else Ok(s)
  }

  /** One row of the scan at position k: rows without a header are skipped. */
  function ApplyRow(s: Scan, row: InfoRow, k: nat): (r: Result<Scan>)
    ensures r.Ok? ==> SameFigures(s.data, r.value.data)
    ensures r.Ok? ==> r.value.clubAt == (if Labelled(row, ClubCareerLabel) then k else s.clubAt)
    ensures r.Ok? ==> r.value.nationalAt == (if Labelled(row, NationalCareerLabel) then k else s.nationalAt)
    ensures RowLabel(row).Err? ==> r == Err(RowLabel(row).error)
    ensures RowLabel(row) == Ok(None) ==> r == Ok(s)
    ensures RowLabel(row).Ok? && RowLabel(row).value.Some? ==> r == ApplyLabel(s, RowLabel(row).value.value, row, k)
  {
    match RowLabel(row)
    case Err(e) => Err(e)
    case Ok(None) => Ok(s)
    case Ok(Some(heading)) => ApplyLabel(s, heading, row, k)
  }

  /** The biography scan over the rows from position i; the first failing row stops it. */
  function ScanFrom(rows: seq<InfoRow>, i: nat, s: Scan): (r: Result<Scan>)
    decreases |rows| - i
  {
    if i >= |rows| then Ok(s)
    else
      match ApplyRow(s, rows[i], i)
      case Err(e) => Err(e)
      case Ok(next) => ScanFrom(rows, i + 1, next)
  }

  /** One step of the scan. */
  lemma ScanStep(rows: seq<InfoRow>, k: nat, s: Scan)
    requires k < |rows|
    ensures var r := ApplyRow(s, rows[k], k);
            ScanFrom(rows, k, s) == if r.Err? then Err(r.error) else ScanFrom(rows, k + 1, r.value)
  {
  }

  /** The position recorded for a heading after the scan from i: the last row from i on
      carrying it, or the position held before when there is none. */
  predicate LastLabelled(rows: seq<InfoRow>, i: nat, heading: string, before: nat, at: nat) {
    (at == before && forall k :: i <= k < |rows| ==> !Labelled(rows[k], heading))
    || (i <= at < |rows| && Labelled(rows[at], heading)
        && forall k :: at < k < |rows| ==> !Labelled(rows[k], heading))
  }

  /** The last row from i carrying a heading, from the last row after i carrying it. */
  lemma LastLabelledStep(rows: seq<InfoRow>, i: nat, heading: string, before: nat, mid: nat, at: nat)
    requires i < |rows| && mid == (if Labelled(rows[i], heading) then i else before)
    requires LastLabelled(rows, i + 1, heading, mid, at)
    ensures LastLabelled(rows, i, heading, before, at)
  {
  }

  /**
   * The scan never changes the name or any figure, and the career positions it records are
   * those of the last club-career and national-career heading rows.
   */
  lemma {:induction false} ScanMarks(rows: seq<InfoRow>, i: nat, s: Scan)
    requires ScanFrom(rows, i, s).Ok?
    ensures SameFigures(s.data, ScanFrom(rows, i, s).value.data)
    ensures LastLabelled(rows, i, ClubCareerLabel, s.clubAt, ScanFrom(rows, i, s).value.clubAt)
    ensures LastLabelled(rows, i, NationalCareerLabel, s.nationalAt, ScanFrom(rows, i, s).value.nationalAt)
    decreases |rows| - i
  {
    if i < |rows| {
      var j := i + 1;
      var next := ApplyRow(s, rows[i], i).value;
      assert ScanFrom(rows, i, s) == ScanFrom(rows, j, next);
      ScanMarks(rows, j, next);
      var last := ScanFrom(rows, j, next).value;
      LastLabelledStep(rows, i, ClubCareerLabel, s.clubAt, next.clubAt, last.clubAt);
      LastLabelledStep(rows, i, NationalCareerLabel, s.nationalAt, next.nationalAt, last.nationalAt);
    }
  }

  // ---------------------------------------------------------------- club career

  /** The figures of the record with the club figures replaced. */
  function WithClubFigures(d: PlayerData, caps: int, conceded: int, scored: int): PlayerData {
    d.(clubCaps := caps, clubConceded := conceded, clubScored := scored)
  }

  /** The club figures of the record raised by a tally, if there is one. */
  function AddClubTally(d: PlayerData, t: Result<Tally>): (r: Result<PlayerData>)
    ensures r.Ok? <==> t.Ok?
    ensures r.Ok? ==> WithClubFigures(r.value, d.clubCaps, d.clubConceded, d.clubScored) == d
    ensures r.Ok? ==> r.value.clubCaps == d.clubCaps + t.value.caps
                      && r.value.clubConceded == d.clubConceded + t.value.conceded
                      && r.value.clubScored == d.clubScored + t.value.scored
  {
    if t.Err? then Err(t.error)
    else Ok(WithClubFigures(d, d.clubCaps + t.value.caps, d.clubConceded + t.value.conceded, d.clubScored + t.value.scored))
  }

  /**
   * The club-career stage over row positions lo up to hi: the figures of the career rows are
   * added to the club figures, goals conceded for a goalkeeper and goals scored otherwise.
   */
  function WithClubCareer(d: PlayerData, rows: seq<InfoRow>, lo: nat, hi: int): (r: Result<PlayerData>)
    ensures r.Ok? ==> WithClubFigures(r.value, d.clubCaps, d.clubConceded, d.clubScored) == d
    ensures r.Ok? && IsGoalkeeper(d) ==> r.value.clubScored == d.clubScored
    ensures r.Ok? && !IsGoalkeeper(d) ==> r.value.clubConceded == d.clubConceded
    ensures var t := ClubTally(rows, lo, hi, IsGoalkeeper(d));
            (r.Ok? <==> t.Ok?) && (r.Err? ==> r.error == t.error)
            && (r.Ok? ==> r.value.clubCaps == d.clubCaps + t.value.caps
                          && r.value.clubConceded == d.clubConceded + t.value.conceded
                          && r.value.clubScored == d.clubScored + t.value.scored)
  {
    AddClubTally(d, ClubTally(rows, lo, hi, IsGoalkeeper(d)))
  }

  // ---------------------------------------------------------------- national career

  /** The record with the chosen national team and its figures: the goals go to the conceded
      figure of a goalkeeper and to the scored figure of anyone else. */
  function WithNationalEntry(d: PlayerData, e: Entry): PlayerData {
    if IsGoalkeeper(d) then d.(nationalTeam := e.team, nationalCaps := e.caps, nationalConceded := e.goals)
    else d.(nationalTeam := e.team, nationalCaps := e.caps, nationalScored := e.goals)
  }

  /** The national-career stage: the candidate rows from position `from` on, then the senior
      team chosen among them. */
  function WithNationalTeam(d: PlayerData, rows: seq<InfoRow>, from: nat): (r: Result<PlayerData>)
    ensures r.Ok? ==> IsSeniorTitle(r.value.nationalTeam) && IsCandidateTitle(r.value.nationalTeam)
    ensures r.Ok? ==> r.value.position == d.position && r.value.clubCaps == d.clubCaps
                      && r.value.clubConceded == d.clubConceded && r.value.clubScored == d.clubScored
    ensures r.Ok? ==> r.value.(nationalTeam := d.nationalTeam, nationalCaps := d.nationalCaps,
                               nationalConceded := d.nationalConceded, nationalScored := d.nationalScored) == d
    ensures var c := CandidatesFrom(rows, from, IsGoalkeeper(d));
            (r.Ok? <==> c.Ok? && Senior(c.value).Ok?)
            && (r.Ok? ==> var e := Senior(c.value).value;
                          r.value.nationalTeam == e.team && r.value.nationalCaps == e.caps
                          && NationalCounts(r.value) == Totals(e.caps, e.goals)
                          && (IsGoalkeeper(d) ==> r.value.nationalScored == d.nationalScored)
                          && (!IsGoalkeeper(d) ==> r.value.nationalConceded == d.nationalConceded))
  {
    match CandidatesFrom(rows, from, IsGoalkeeper(d))
    case Err(e) => Err(e)
    case Ok(c) =>
      match Senior(c)
      case Err(e) => Err(e)
      case Ok(entry) =>
        SeniorChosen(c);
        CandidatesTeams(rows, from, IsGoalkeeper(d));
        Ok(WithNationalEntry(d, entry))
  }

  /** Past the last row there is no candidate, so the stage fails with the explicit error. */
  lemma NoNationalRows(d: PlayerData, rows: seq<InfoRow>, from: nat)
    requires from >= |rows|
    ensures WithNationalTeam(d, rows, from) == Err(NoNationalTeam)
  {
    SeniorNone(NoCandidates);
  }

  lemma NoNationalRowsIf(d: PlayerData, rows: seq<InfoRow>, from: nat)
    ensures from >= |rows| ==> WithNationalTeam(d, rows, from) == Err(NoNationalTeam)
  {
    if from >= |rows| {
      NoNationalRows(d, rows, from);
    }
  }

  // ---------------------------------------------------------------- totals rows

  /** The club figures raised to those of a club totals row. */
  function RaiseClub(d: PlayerData, t: Totals): PlayerData {
    if IsGoalkeeper(d) then d.(clubCaps := Max(d.clubCaps, t.caps), clubConceded := Max(d.clubConceded, t.goals))
    else d.(clubCaps := Max(d.clubCaps, t.caps), clubScored := Max(d.clubScored, t.goals))
  }

  /** The club-totals stage: the first club totals row, if any, raises the club figures. */
  function WithClubTotals(d: PlayerData, tables: seq<Table>): (r: Result<PlayerData>)
    ensures r.Ok? ==> r.value.clubCaps >= d.clubCaps && r.value.clubConceded >= d.clubConceded
                      && r.value.clubScored >= d.clubScored
    ensures r.Ok? ==> WithClubFigures(r.value, d.clubCaps, d.clubConceded, d.clubScored) == d
    ensures r.Ok? ==> r.value.nationalTeam == d.nationalTeam && r.value.url == d.url && r.value.name == d.name
                      && r.value.position == d.position
    ensures var t := ClubTotalsOf(tables, IsGoalkeeper(d));
            (t.Err? ==> r == Err(t.error))
            && (t == Ok(None) ==> r == Ok(d))
            && (t.Ok? && t.value.Some? ==>
                  r.Ok? && r.value.clubCaps == Max(d.clubCaps, t.value.value.caps)
                  && (IsGoalkeeper(d) ==> r.value.clubConceded == Max(d.clubConceded, t.value.value.goals)
                                          && r.value.clubScored == d.clubScored)
                  && (!IsGoalkeeper(d) ==> r.value.clubScored == Max(d.clubScored, t.value.value.goals)
                                           && r.value.clubConceded == d.clubConceded))
  {
    match ClubTotalsOf(tables, IsGoalkeeper(d))
    case Err(e) => Err(e)
    case Ok(None) => Ok(d)
    case Ok(Some(t)) => Ok(RaiseClub(d, t))
  }

  /** The national figures the totals rows may raise: the matches and the goals appropriate to
      the position. */
  function NationalCounts(d: PlayerData): Totals {
    Totals(d.nationalCaps, if IsGoalkeeper(d) then d.nationalConceded else d.nationalScored)
  }

  /** The record with the given national figures. */
  function WithNationalFigures(d: PlayerData, t: Totals): (r: PlayerData)
    ensures NationalCounts(r) == t
  {
    if IsGoalkeeper(d) then d.(nationalCaps := t.caps, nationalConceded := t.goals)
    else d.(nationalCaps := t.caps, nationalScored := t.goals)
  }

  /** The national-totals stage: when the page has a national statistics section every
      national totals row raises the national figures. */
  function WithNationalTotals(d: PlayerData, tables: seq<Table>, hasNationalStats: bool): (r: Result<PlayerData>)
    ensures !hasNationalStats ==> r == Ok(d)
    ensures hasNationalStats ==>
              var t := NationalTotalsOf(tables, IsGoalkeeper(d), NationalCounts(d));
              (r.Ok? <==> t.Ok?) && (r.Err? ==> r.error == t.error)
              && (r.Ok? ==> t == Ok(NationalCounts(r.value)))
  {
    if !hasNationalStats then Ok(d)
    else
      match NationalTotalsOf(tables, IsGoalkeeper(d), NationalCounts(d))
      case Err(e) => Err(e)
      case Ok(t) => Ok(WithNationalFigures(d, t))
  }

  /** The national totals never lower a national figure, and leave the rest of the record. */
  lemma NationalTotalsRaise(d: PlayerData, tables: seq<Table>, hasNationalStats: bool)
    ensures var r := WithNationalTotals(d, tables, hasNationalStats);
            r.Ok? ==>
              r.value.nationalCaps >= d.nationalCaps && r.value.nationalConceded >= d.nationalConceded
              && r.value.nationalScored >= d.nationalScored
              && r.value.(nationalCaps := d.nationalCaps, nationalConceded := d.nationalConceded, nationalScored := d.nationalScored) == d
    ensures var r := WithNationalTotals(d, tables, hasNationalStats);
            r.Ok? ==> r.value.nationalTeam == d.nationalTeam && r.value.url == d.url && r.value.name == d.name
  {
    if hasNationalStats && WithNationalTotals(d, tables, hasNationalStats).Ok? {
      MergeFindingsBounds(NationalReadings(tables, IsGoalkeeper(d)), 0, NationalCounts(d));
    }
  }

  // ---------------------------------------------------------------- the whole page

  /** The position the national career starts after: that of the national-career heading,
      or the number of rows when there is none. */
  function NationalFrom(rows: seq<InfoRow>, s: Scan): nat {
    if s.nationalAt == 0 then |rows| else s.nationalAt
  }

  /** The stages after the national team is chosen: the totals rows. */
  function AfterNationalTeam(d: PlayerData, tables: seq<Table>, hasNationalStats: bool): (r: Result<PlayerData>)
    ensures r.Ok? ==> r.value.nationalTeam == d.nationalTeam && r.value.url == d.url && r.value.name == d.name
  {
    match WithClubTotals(d, tables)
    case Err(e) => Err(e)
    case Ok(totals) =>
      NationalTotalsRaise(totals, tables, hasNationalStats);
      WithNationalTotals(totals, tables, hasNationalStats)
  }

  /** The stages after the club career: the national team chosen among the rows after
      position natAt, then the totals rows. */
  function AfterClubCareer(d: PlayerData, rows: seq<InfoRow>, natAt: nat, tables: seq<Table>, hasNationalStats: bool)
    : (r: Result<PlayerData>)
    ensures r.Ok? ==> natAt + 1 < |rows| && IsSeniorTitle(r.value.nationalTeam) && r.value.url == d.url
                      && IsCandidateTitle(r.value.nationalTeam)
  {
    NoNationalRowsIf(d, rows, natAt + 1);
    match WithNationalTeam(d, rows, natAt + 1)
    case Err(e) => Err(e)
    case Ok(national) => AfterNationalTeam(national, tables, hasNationalStats)
  }

  /** The stages after the biography scan, given the positions of the two career headings:
      the club career in the rows between them, the national career after natAt, then the
      totals rows. */
  function Careers(d: PlayerData, rows: seq<InfoRow>, clubAt: nat, natAt: nat, tables: seq<Table>, hasNationalStats: bool)
    : (r: Result<PlayerData>)
    ensures r.Ok? ==> natAt + 1 < |rows| && IsSeniorTitle(r.value.nationalTeam) && r.value.url == d.url
                      && IsCandidateTitle(r.value.nationalTeam)
  {
    match WithClubCareer(d, rows, clubAt + 1, natAt)
    case Err(e) => Err(e)
    case Ok(club) => AfterClubCareer(club, rows, natAt, tables, hasNationalStats)
  }

  /** The stages after the biography scan, given what the scan found: the careers between
      and after the two career headings. */
  function AfterScan(scanned: Result<Scan>, rows: seq<InfoRow>, tables: seq<Table>, hasNationalStats: bool)
    : (r: Result<PlayerData>)
    ensures r.Ok? ==> IsSeniorTitle(r.value.nationalTeam) && IsCandidateTitle(r.value.nationalTeam)
  {
    match scanned
    case Err(e) => Err(e)
    case Ok(s) => Careers(s.data, rows, s.clubAt, NationalFrom(rows, s), tables, hasNationalStats)
  }

  /** The stages after the name: the biography scan over the rows after the first, then the
      careers it delimits. */
  function AfterName(named: PlayerData, rows: seq<InfoRow>, tables: seq<Table>, hasNationalStats: bool)
    : (r: Result<PlayerData>)
    ensures r.Ok? ==> IsSeniorTitle(r.value.nationalTeam) && IsCandidateTitle(r.value.nationalTeam)
  {
    AfterScan(ScanFrom(rows, 1, Scan(named, 0, 0)), rows, tables, hasNationalStats)
  }

  /** `_player_parse`: the name from the first row, then the stages that follow it. */
  function PlayerSpec(url: string, rows: seq<InfoRow>, tables: seq<Table>, hasNationalStats: bool): Result<PlayerData> {
    match WithName(Initial(url), rows)
    case Err(e) => Err(e)
    case Ok(named) => AfterName(named, rows, tables, hasNationalStats)
  }

  /**
   * Every record extracted from a player page names a senior national team and keeps the
   * page's URL, and the page has a national-career heading row after the first row: a player
   * without one always fails with the explicit error.
   */
  lemma PlayerHasNationalTeam(url: string, rows: seq<InfoRow>, tables: seq<Table>, hasNationalStats: bool)
    requires PlayerSpec(url, rows, tables, hasNationalStats).Ok?
    ensures var d := PlayerSpec(url, rows, tables, hasNationalStats).value;
            IsSeniorTitle(d.nationalTeam) && IsCandidateTitle(d.nationalTeam) && d.url == url
    ensures exists k :: 1 <= k < |rows| && Labelled(rows[k], NationalCareerLabel)
  {
    var named := WithName(Initial(url), rows).value;
    ScanMarks(rows, 1, Scan(named, 0, 0));
  }

  // ---------------------------------------------------------------- the mutable record

  /** `player_data`: the record a player page is read into, stage by stage. */
  class PlayerRecord {
    var url: string
    var name: seq<string>
    var height: int
    var position: string
    var currentClub: string
    var clubCaps: int
    var clubConceded: int
    var clubScored: int
    var nationalCaps: int
    var nationalConceded: int
    var nationalScored: int
    var nationalTeam: string
    var birth: Option<int>
    var birthText: Option<string>

    /** The record's fields as a value. */
    function Snapshot(): PlayerData
      reads this
    {
      PlayerData(url, name, height, position, currentClub, clubCaps, clubConceded, clubScored,
                 nationalCaps, nationalConceded, nationalScored, nationalTeam, birth, birthText)
    }

    constructor(url: string)
      ensures Snapshot() == Initial(url)
    {
      this.url := url;
      name := [];
      height := 0;
      position := "";
      currentClub := "";
      clubCaps := 0;
      clubConceded := 0;
      clubScored := 0;
      nationalCaps := 0;
      nationalConceded := 0;
      nationalScored := 0;
      nationalTeam := "";
      birth := None;
      birthText := None;
    }

    /** Stage 1: the name from the first infobox row. */
    method ReadName(rows: seq<InfoRow>) returns (o: Outcome)
      modifies this
      ensures o == Status(WithName(old(Snapshot()), rows))
      ensures o == Pass ==> Snapshot() == WithName(old(Snapshot()), rows).value
    {
      if rows == [] {
        return Fail(IndexOutOfRange);
      }
      var div := rows[0].nameDiv;
      if div.None? {
        return Fail(MissingElement);
      }
      var words := Words(Strip(div.value));
      if |words| > 2 {
        words := [words[0] + " " + words[1], words[2]];
      }
      name := Reverse(words);
      return Pass;
    }

    /** The birth row: day and month from the first date link, the year from the second. */
    method ReadBirth(row: InfoRow) returns (o: Outcome)
      modifies this
      ensures o == Status(SetBirth(old(Snapshot()), row))
      ensures o == Pass ==> Snapshot() == SetBirth(old(Snapshot()), row).value
    {
      var bday := BirthOf(row);
      if bday.Err? {
        return Fail(bday.error);
      }
      birth := Some(bday.value.0);
      birthText := Some(bday.value.1);
      return Pass;
    }

    /** The height row: the third line of its text, read by `CalcHeight`. */
    method ReadHeight(row: InfoRow) returns (o: Outcome)
      modifies this
      ensures o == Status(SetHeight(old(Snapshot()), row))
      ensures o == Pass ==> Snapshot() == SetHeight(old(Snapshot()), row).value
    {
      var lines := SplitAt(Strip(row.text), '\n');
      if |lines| < 3 {
        return Fail(IndexOutOfRange);
      }
      var h := CalcHeight(lines[2]);
      if h.Err? {
        return Fail(h.error);
      }
      height := h.value;
      return Pass;
    }

    /** The position row: the text of its first cell. */
    method ReadPosition(row: InfoRow) returns (o: Outcome)
      modifies this
      ensures o == Status(SetPosition(old(Snapshot()), row))
      ensures o == Pass ==> Snapshot() == SetPosition(old(Snapshot()), row).value
    {
      if row.cells == [] {
        return Fail(MissingElement);
      }
      var text := Strip(row.cells[0].text);
      position := text;
      assert Snapshot() == old(Snapshot()).(position := text);
      return Pass;
    }

    /** The current-club row: the text of its club block. */
    method ReadClub(row: InfoRow) returns (o: Outcome)
      modifies this
      ensures o == Status(SetClub(old(Snapshot()), row))
      ensures o == Pass ==> Snapshot() == SetClub(old(Snapshot()), row).value
    {
      ghost var before := Snapshot();
      if row.clubSpan.None? {
        return Fail(MissingElement);
      }
      currentClub := StripBlanks(row.clubSpan.value);
      assert Snapshot() == before.(currentClub := currentClub);
      return Pass;
    }

    /**
     * One labelled biography row at position k, with the career heading positions seen so
     * far: the birth, height, position and current-club rows set their fields, and the career
     * headings move their position to k.
     */
    method ApplyHeading(text: string, row: InfoRow, k: nat, clubAt: nat, nationalAt: nat)
      returns (o: Outcome, club: nat, national: nat)
      modifies this
      ensures var r := ApplyLabel(Scan(old(Snapshot()), clubAt, nationalAt), text, row, k);
              o == Status(r) && (r.Ok? ==> Snapshot() == r.value.data && club == r.value.clubAt && national == r.value.nationalAt)
    {
      club, national := clubAt, nationalAt;
      o := Pass;
      if text == BornLabel {
        o := ReadBirth(row);
      } else if text == HeightLabel {
        o := ReadHeight(row);
      } else if text == PositionLabel {
        o := ReadPosition(row);
      } else if text == ClubLabel {
        o := ReadClub(row);
      } else if text == ClubCareerLabel {
        club := k;
      } else if text == NationalCareerLabel {
        national := k;
      }
    }

    /** One biography row at position k: a row without a header cell is skipped. */
    method ReadBiographyRow(row: InfoRow, k: nat, clubAt: nat, nationalAt: nat)
      returns (o: Outcome, club: nat, national: nat)
      modifies this
      ensures var r := ApplyRow(Scan(old(Snapshot()), clubAt, nationalAt), row, k);
              o == Status(r) && (r.Ok? ==> Snapshot() == r.value.data && club == r.value.clubAt && national == r.value.nationalAt)
    {
      if row.header.None? {
        return Pass, clubAt, nationalAt;
      }
      var heading := StandartTextData(Strip(row.header.value));
      if heading.Err? {
        return Fail(heading.error), clubAt, nationalAt;
      }
      o, club, national := ApplyHeading(heading.value, row, k, clubAt, nationalAt);
    }

    /** Stage 2: the biography scan over every infobox row after the first; it returns the
        positions of the last club-career and national-career heading rows (zero for none). */
    method ScanBiography(rows: seq<InfoRow>) returns (o: Outcome, clubAt: nat, nationalAt: nat)
      modifies this
      ensures var r := ScanFrom(rows, 1, Scan(old(Snapshot()), 0, 0));
              o == Status(r) && (r.Ok? ==> Snapshot() == r.value.data && clubAt == r.value.clubAt && nationalAt == r.value.nationalAt)
    {
      clubAt, nationalAt := 0, 0;
      var k := 1;
      while k < |rows|
        invariant ScanFrom(rows, 1, Scan(old(Snapshot()), 0, 0)) == ScanFrom(rows, k, Scan(Snapshot(), clubAt, nationalAt))
        decreases |rows| - k
      {
        ScanStep(rows, k, Scan(Snapshot(), clubAt, nationalAt));
        o, clubAt, nationalAt := ReadBiographyRow(rows[k], k, clubAt, nationalAt);
        if o.Fail? {
          return;
        }
        k := k + 1;
      }
      return Pass, clubAt, nationalAt;
    }

    /** The club figures raised by a tally. */
    method AddTally(t: Tally)
      modifies this
      ensures Ok(Snapshot()) == AddClubTally(old(Snapshot()), Ok(t))
    {
      clubCaps := clubCaps + t.caps;
      clubConceded := clubConceded + t.conceded;
      clubScored := clubScored + t.scored;
    }

    /**
     * Stage 3: the club career over row positions lo up to hi, its figures added to the club
     * figures of the record.
     */
    method AccumulateClubCareer(rows: seq<InfoRow>, lo: nat, hi: int) returns (o: Outcome)
      modifies this
      ensures var r := WithClubCareer(old(Snapshot()), rows, lo, hi);
              o == Status(r) && (r.Ok? ==> Snapshot() == r.value)
    {
      var gk := position == Goalkeeper;
      var tally := SumClubCareer(rows, lo, hi, gk);
      if tally.Err? {
        return Fail(tally.error);
      }
      AddTally(tally.value);
      return Pass;
    }

    /** The chosen national team and its figures written into the record. */
    method SetNationalEntry(e: Entry)
      modifies this
      ensures Snapshot() == WithNationalEntry(old(Snapshot()), e)
    {
      nationalTeam := e.team;
      nationalCaps := e.caps;
      if position == Goalkeeper {
        nationalConceded := e.goals;
      } else {
        nationalScored := e.goals;
      }
    }

    /** Stage 4: the national team from the career rows from position `from` on. */
    method ResolveNationalTeam(rows: seq<InfoRow>, from: nat) returns (o: Outcome)
      modifies this
      ensures var r := WithNationalTeam(old(Snapshot()), rows, from);
              o == Status(r) && (r.Ok? ==> Snapshot() == r.value)
    {
      var gk := position == Goalkeeper;
      var candidates := CollectCandidates(rows, from, gk);
      if candidates.Err? {
        return Fail(candidates.error);
      }
      var entry := SelectSenior(candidates.value);
      if entry.Err? {
        return Fail(entry.error);
      }
      SetNationalEntry(entry.value);
      return Pass;
    }

    /** The club figures raised to those of a club totals row. */
    method RaiseClubFigures(t: Totals)
      modifies this
      ensures Snapshot() == RaiseClub(old(Snapshot()), t)
    {
      if clubCaps < t.caps {
        clubCaps := t.caps;
      }
      if position == Goalkeeper {
        if clubConceded < t.goals {
          clubConceded := t.goals;
        }
      } else {
        if clubScored < t.goals {
          clubScored := t.goals;
        }
      }
    }

    /** Stage 5: the first club totals row of the page, if any, raises the club figures. */
    method ReadClubTotals(tables: seq<Table>) returns (o: Outcome)
      modifies this
      ensures var r := WithClubTotals(old(Snapshot()), tables);
              o == Status(r) && (r.Ok? ==> Snapshot() == r.value)
    {
      var found := FindClubTotals(tables, position == Goalkeeper);
      if found.Err? {
        return Fail(found.error);
      }
      if found.value.Some? {
        RaiseClubFigures(found.value.value);
      }
      return Pass;
    }

    /** The national figures replaced by the merged ones. */
    method SetNationalFigures(t: Totals)
      modifies this
      ensures Snapshot() == WithNationalFigures(old(Snapshot()), t)
    {
      nationalCaps := t.caps;
      if position == Goalkeeper {
        nationalConceded := t.goals;
      } else {
        nationalScored := t.goals;
      }
    }

    /** Stage 6: with a national statistics section, every national totals row raises the
        national figures. */
    method ReadNationalTotals(tables: seq<Table>, hasNationalStats: bool) returns (o: Outcome)
      modifies this
      ensures var r := WithNationalTotals(old(Snapshot()), tables, hasNationalStats);
              o == Status(r) && (r.Ok? ==> Snapshot() == r.value)
    {
      if !hasNationalStats {
        return Pass;
      }
      var gk := position == Goalkeeper;
      var merged := MergeNationalTotals(tables, gk, Totals(nationalCaps, if gk then nationalConceded else nationalScored));
      if merged.Err? {
        return Fail(merged.error);
      }
      SetNationalFigures(merged.value);
      return Pass;
    }

    /** The totals stages, once the national team is chosen. */
    method ReadTotals(tables: seq<Table>, hasNationalStats: bool) returns (o: Outcome)
      modifies this
      ensures var r := AfterNationalTeam(old(Snapshot()), tables, hasNationalStats);
              o == Status(r) && (r.Ok? ==> Snapshot() == r.value)
    {
      o := ReadClubTotals(tables);
      if o.Fail? {
        return;
      }
      o := ReadNationalTotals(tables, hasNationalStats);
    }

    /** The national team and the totals stages, after the club career. */
    method ReadNationalCareer(rows: seq<InfoRow>, natAt: nat, tables: seq<Table>, hasNationalStats: bool)
      returns (o: Outcome)
      modifies this
      ensures var r := AfterClubCareer(old(Snapshot()), rows, natAt, tables, hasNationalStats);
              o == Status(r) && (r.Ok? ==> Snapshot() == r.value)
    {
      o := ResolveNationalTeam(rows, natAt + 1);
      if o.Fail? {
        return;
      }
      o := ReadTotals(tables, hasNationalStats);
    }

    /** The stages after the biography scan, given the positions of the career headings. */
    method ReadCareers(rows: seq<InfoRow>, clubAt: nat, natAt: nat, tables: seq<Table>, hasNationalStats: bool)
      returns (o: Outcome)
      modifies this
      ensures var r := Careers(old(Snapshot()), rows, clubAt, natAt, tables, hasNationalStats);
              o == Status(r) && (r.Ok? ==> Snapshot() == r.value)
    {
      o := AccumulateClubCareer(rows, clubAt + 1, natAt);
      if o.Fail? {
        return;
      }
      o := ReadNationalCareer(rows, natAt, tables, hasNationalStats);
    }

    /** Stage 2 and after: the biography scan, then the careers it delimits. */
    method ReadBiography(rows: seq<InfoRow>, tables: seq<Table>, hasNationalStats: bool) returns (o: Outcome)
      modifies this
      ensures var r := AfterName(old(Snapshot()), rows, tables, hasNationalStats);
              o == Status(r) && (r.Ok? ==> Snapshot() == r.value)
    {
      ghost var named := Snapshot();
      var clubAt, nationalAt;
      o, clubAt, nationalAt := ScanBiography(rows);
      if o.Fail? {
        return;
      }
      ghost var s := Scan(Snapshot(), clubAt, nationalAt);
      assert ScanFrom(rows, 1, Scan(named, 0, 0)) == Ok(s);
      var natAt := if nationalAt == 0 then |rows| else nationalAt;
      assert natAt == NationalFrom(rows, s);
      o := ReadCareers(rows, clubAt, natAt, tables, hasNationalStats);
    }
  }

  /**
   * `_player_parse`: a fresh record for the page, then the stages in order; the first stage
   * that fails fails the page.
   */
  method PlayerParse(url: string, rows: seq<InfoRow>, tables: seq<Table>, hasNationalStats: bool)
    returns (r: Result<PlayerData>)
    ensures r == PlayerSpec(url, rows, tables, hasNationalStats)
  {
    var record := new PlayerRecord(url);
    var o := record.ReadName(rows);
    if o.Pass? {
      o := record.ReadBiography(rows, tables, hasNationalStats);
    }
    r := if o.Fail? then Err(o.error) else Ok(record.Snapshot());
  }
}
