# Football wiki page extractor, modelled in Dafny

`css_selector_parser.py` reads pages of the Russian-language Wikipedia about football. It
classifies a page by the `data-name` attribute of its infobox. A tournament page yields the
links of the national teams that qualified. A national-team page yields the links of the
players in its roster tables. A player page yields a record built in stages:

- the name;
- a scan of the biography rows (birth date, height, position, current club, and the rows
  where the club and national careers start);
- the sum of the club-career rows;
- the choice of a senior national team among the national-career rows;
- the "Всего"/"Итого" totals rows, which may only raise the figures.

The model takes the page after the markup queries have been answered. `Markup` holds the
infobox rows, the tables with their last rows, the roster sections and the qualified-teams
table as plain data. Every Python exception becomes an `Error` value, and the first one fails
the whole parse. The modules follow the stages:

- `Failures`: results.
- `Text`: the string built-ins the code relies on.
- `Fields`: `_standart_text_data`, `calc_height`, `get_bday`.
- `Links`: `_main_page_parse`, `find_relevant_tags`, `_team_parse`.
- `Career`: the club-career cells.
- `National`: the national-career candidates and the senior-team selection.
- `Totals`: the totals rows.
- `Player`: the record and its stages.
- `Parser`: `parse`.

The mutable `player_data` dictionary is the class `Player.PlayerRecord`. It has one method per
stage. Each stage method is proved against a function giving the record after that stage, or
the failure. `Player.PlayerParse` runs the stages on a fresh record and is proved equal to
`Player.PlayerSpec`. The loops of the source are methods with loop invariants, proved against
recursive specification functions:

- the character loops of `calc_height` and of the career cells;
- the row loops;
- the list appends and pops of the national selection;
- the table searches.

## Model

| member | source | states |
|---|---|---|
| `Parser.Classify` | css_selector_parser.py:26-33 | the page is a tournament iff its marker holds "Соревнование футбольных сборных"; a national team iff not that but "Сборная страны по футболу"; a player iff neither but "Футболист"; every other marker is `Other` |
| `Parser.KindOf` | css_selector_parser.py:15-24 | a page without an infobox fails with the explicit "404" error; an infobox without `data-name` fails; otherwise the kind is the classification of the marker, exactly |
| `Parser.Parse` | css_selector_parser.py:9-33 | exactly one extractor runs, chosen by the kind; a tournament page yields the links of its qualified-teams rows after the header, or the first row's failure; a team page yields the roster links; a player page yields the record `PlayerSpec` gives and no links; other pages yield no record and no links; only player pages carry a record |
| `Links.DirectoryRowLink` | css_selector_parser.py:45-49 | a row has a link iff it has a first cell whose last link has an `href`; the link is the domain followed by that `href` |
| `Links.MainPageParse` | css_selector_parser.py:35-51 | a missing table fails; otherwise, over the rows after the header: success iff every row has a link; the links are those of the rows, in order; a failure is that of the first row without a link |
| `Links.DirectoryLinkedUnique` | css_selector_parser.py:44-51 | the rows determine the result: two results that both fit them are equal |
| `Links.PresentHeadings` | css_selector_parser.py:53-61 | a heading is kept iff it is one of the given headings and its anchor is on the page; never more headings than given |
| `Links.FindRelevantTags` | css_selector_parser.py:53-61 | the loop returns exactly the present headings, in heading order |
| `Links.TablesAfterTags` | css_selector_parser.py:75-81 | the tables collected are those following the anchors, in anchor order, with anchors that have no table after them skipped |
| `Links.RosterRowLink` | css_selector_parser.py:88-94 | a row succeeds iff it has at most one cell, or at least three cells with a first link in the third cell that has an `href`; a row of at most one cell contributes nothing; a contributed link is exactly the domain followed by the `href` of the first link of the third cell |
| `Links.RowsLinks` | css_selector_parser.py:87-94 | on success there is one link per row of at least two cells, each starting with the domain, and no row has exactly two cells (its third cell would be missing) |
| `Links.RowsLinksStep` | css_selector_parser.py:87-94 | the links of a row followed by more rows are the row's links, then those of the rest; the first failure wins |
| `Links.RowsLinksAppend` | css_selector_parser.py:83-94 | the links of two runs of rows concatenate, and the first failure wins |
| `Links.TableLinks` | css_selector_parser.py:87-94 | the row loop over one table returns the links `RowsLinks` gives |
| `Links.RosterLinks` | css_selector_parser.py:83-94 | the loop over the tables returns the links of all their data rows, table after table |
| `Links.TeamParse` | css_selector_parser.py:63-96 | a team page yields the links of the data rows of the roster tables found after the five headings, in heading order |
| `Fields.TrimToLetterMeaning` | css_selector_parser.py:98-102 | the trim fails with an index error iff the text has no letter; otherwise it returns the prefix ending at the last letter, and what it removed holds no letter |
| `Fields.TrimToLetterIdempotent` | css_selector_parser.py:98-102 | trimming an already trimmed label changes nothing |
| `Fields.StandartTextData` | css_selector_parser.py:98-102 | the while loop that drops the last character while it is not a letter returns the trim |
| `Fields.DigitRun` | css_selector_parser.py:133-135 | the run is all digits, and the character after it, if any, is not a digit |
| `Fields.DigitRunOfDigits` | css_selector_parser.py:133-135 | the run of a text that starts with digits is those digits plus the run of the rest |
| `Fields.HeightOfRendered` | css_selector_parser.py:129-141 | a number followed by a non-digit reads back as that number |
| `Fields.HeightOfDigitsOnly` | css_selector_parser.py:133-135 | a text made only of digits fails, because the scan runs off its end |
| `Fields.HeightOfNonDigit` | css_selector_parser.py:133-137 | a text that does not start with a digit fails, because the collected run is empty |
| `Fields.CalcHeight` | css_selector_parser.py:129-141 | the character loop returns the height function of its text |
| `Fields.MonthNumber` | css_selector_parser.py:105-120 | a name has a number iff it is one of the twelve month names; the number n is between 1 and 12 and the n-th name is the given one; an unknown name fails |
| `Fields.MonthNumberOfName` | css_selector_parser.py:105-120 | the number of the m-th month name is m |
| `Fields.UtcMidnight` | css_selector_parser.py:122-125 | the timestamp of a date is a whole number of days |
| `Fields.GetBday` | css_selector_parser.py:104-127 | an unknown month fails; on success the timestamp is a whole number of days and the text is `year + "." + month number + "." + day`, with the day and year as given |
| `Fields.GetBdayRendered` | css_selector_parser.py:104-127 | a valid date written with its month name yields the timestamp of midnight of that date and its "y.m.d" text |
| `Fields.EpochIsZero` | css_selector_parser.py:122-125 | 1 January 1970 is timestamp zero |
| `Fields.NextDay` | css_selector_parser.py:122-125 | the next day of the same month is 86400 seconds later |
| `Fields.NextMonth` | css_selector_parser.py:122-125 | the first of the next month is 86400 seconds after the last day of this month |
| `Fields.NextYear` | css_selector_parser.py:122-125 | 1 January is 86400 seconds after the 31 December before it, across the leap-year rules |
| `Text.IndexOf` | css_selector_parser.py:120 | `list.index`: the position holds the element, and no earlier position does |
| `Text.IndexOfAt` | css_selector_parser.py:120 | a position holding the element with no earlier occurrence is the index |
| `Text.BeforeFirst` | css_selector_parser.py:242-243 | `goals[: goals.index("/")]`: a prefix without the separator, the whole text when the separator is absent |
| `Text.BeforeFirstOf` | css_selector_parser.py:242-243 | cutting `a + "/" + b` gives back `a` when `a` has no separator |
| `Text.Strip` | css_selector_parser.py:168 | `str.strip()`: the result neither starts nor ends with whitespace |
| `Text.StripMeaning` | css_selector_parser.py:168 | `str.strip()` removes only whitespace, and only around the text: the text is some whitespace, the result, then some whitespace |
| `Text.StripBlanks` | css_selector_parser.py:203 | `str.strip(" ")`: the result neither starts nor ends with a blank |
| `Text.StripBlanksMeaning` | css_selector_parser.py:203 | `str.strip(" ")` removes only blanks, and only around the text: the text is some blanks, the result, then some blanks |
| `Text.StripUnpadded` | css_selector_parser.py:168 | a text without surrounding whitespace strips to itself |
| `Text.Words` | css_selector_parser.py:168 | `str.split()`: every word is non-empty and holds no whitespace, and there are no words iff the text is all whitespace |
| `Text.WordsOfJoined` | css_selector_parser.py:168-174 | words without whitespace, joined with blanks, split back into the same words: nothing is lost or merged |
| `Text.SplitAt` | css_selector_parser.py:197 | `str.split("\n")`: at least one part, and no part holds the separator |
| `Text.SplitAtJoin` | css_selector_parser.py:197 | joining the parts with the separator gives the text back |
| `Text.NatToString` | css_selector_parser.py:121 | the decimal rendering of a number is a non-empty run of digits, without a leading zero unless the number is zero |
| `Text.NatToStringValue` | css_selector_parser.py:121 | the digits of a rendered number have that number's value |
| `Text.IntLiteral` | css_selector_parser.py:237 | `int()` on a stripped text succeeds iff the text is digits, or a sign followed by digits; it fails only with the not-a-number error; digits read as their value, "+" keeps it and "-" negates it |
| `Text.ParseInt` | css_selector_parser.py:237 | `int()` with surrounding whitespace ignored: it succeeds iff the stripped text is digits or a signed run of digits, fails only with the not-a-number error, and reads the value with its sign |
| `Text.ParseIntEmpty` | css_selector_parser.py:237 | `int("")` fails |
| `Text.ParseIntRendered` | css_selector_parser.py:237 | `int(str(n)) == n` |
| `Text.ParseIntPadded` | css_selector_parser.py:237 | a trailing blank after a rendered number is ignored |
| `Player.NameParts` | css_selector_parser.py:167-174 | the stored name never has more than two entries; with more than two words it is the third word, then the first two joined with a blank; otherwise it is the words reversed |
| `Player.NamePartsJoin` | css_selector_parser.py:167-174 | reversed back and joined with blanks, the stored name is exactly the first three words joined: nothing of them is lost, and later words are dropped |
| `Player.WithName` | css_selector_parser.py:163-174 | a page without rows fails with an index error; a success needs a first row with a name block |
| `Player.PlayerRecord.constructor` | css_selector_parser.py:148-161 | the record starts with the page's URL and zero or empty everywhere else |
| `Player.PlayerRecord.ReadName` | css_selector_parser.py:163-174 | the name stage on the record: it fails as `WithName` fails, and otherwise leaves the record `WithName` gives |
| `Player.BirthOf` | css_selector_parser.py:185-192 | a row without a date block fails with a missing-element error |
| `Player.SetBirth` | css_selector_parser.py:184-195 | it succeeds iff the birth row reads, and fails with the row's error; on success the birth timestamp and text are those the row reads, and nothing else changes |
| `Player.PlayerRecord.ReadBirth` | css_selector_parser.py:184-195 | the birth row on the record, as `SetBirth` gives it |
| `Player.SetHeight` | css_selector_parser.py:196-198 | it succeeds iff the third line of the row reads as a height, and fails with its error; on success the height is the one read, it is not negative, and nothing else changes |
| `Player.PlayerRecord.ReadHeight` | css_selector_parser.py:196-198 | the height row on the record, as `SetHeight` gives it |
| `Player.SetPosition` | css_selector_parser.py:199-201 | it succeeds iff the row has a cell; only the position changes, to the stripped text of the first cell |
| `Player.PlayerRecord.ReadPosition` | css_selector_parser.py:199-201 | the position row on the record, as `SetPosition` gives it |
| `Player.SetClub` | css_selector_parser.py:202-204 | it succeeds iff the row has a club block; only the current club changes, to its text without surrounding blanks |
| `Player.PlayerRecord.ReadClub` | css_selector_parser.py:202-204 | the club row on the record, as `SetClub` gives it |
| `Player.ApplyLabel` | css_selector_parser.py:184-208 | the birth, height, position and club headings apply their setter to the record; any other heading leaves the record as it is; a labelled row never changes the name or a figure; the club-career heading moves the club position to the row, the national-career heading moves the national position, and other labels move neither |
| `Player.PlayerRecord.ApplyHeading` | css_selector_parser.py:184-208 | the label dispatch on the record gives the outcome, record and positions of `ApplyLabel` |
| `Player.ApplyRow` | css_selector_parser.py:176-208 | a row whose heading cannot be trimmed fails with that error; a row without a header cell changes nothing; a labelled row does what `ApplyLabel` does for its heading |
| `Player.PlayerRecord.ReadBiographyRow` | css_selector_parser.py:176-208 | one biography row on the record, as `ApplyRow` gives it |
| `Player.ScanStep` | css_selector_parser.py:176-208 | the scan from a row is that row's step followed by the scan from the next row; a failing row stops it |
| `Player.LastLabelledStep` | css_selector_parser.py:205-208 | the last row carrying a heading from position i is found from the last one after i |
| `Player.ScanMarks` | css_selector_parser.py:176-208 | the scan never changes the name or a figure; the club and national positions it records are those of the last row with each heading, or the starting ones when no row has it |
| `Player.PlayerRecord.ScanBiography` | css_selector_parser.py:176-208 | the loop over the rows after the first gives the outcome, record and positions of the scan |
| `Career.CareerCell` | css_selector_parser.py:223-234 | a cell splits into a matches text without "(" and a goals text without ")"; a cell missing either bracket fails with an index error |
| `Career.CareerCellOfWritten` | css_selector_parser.py:223-234 | a cell written `matches + "(" + goals + ")"…` splits back into those two texts |
| `Career.ReadUntil` | css_selector_parser.py:226-228 | one `while text[ind] != stop` loop: the part read runs from the start up to the first stop character, and the loop ends at that character or at the end of the text |
| `Career.SplitCareerCell` | css_selector_parser.py:223-234 | the two character loops return the split `CareerCell` gives |
| `Career.MatchesFigure` | css_selector_parser.py:236-237 | a matches text containing "?" adds nothing |
| `Career.ClubGoalsFigure` | css_selector_parser.py:239-249 | a goals text containing "?" adds nothing, and neither does a goalkeeper's "0" |
| `Career.RoleTally` | css_selector_parser.py:239-249 | the goals go to the conceded figure of a goalkeeper and to the scored figure of anyone else, never to both |
| `Career.ClubCellDelta` | css_selector_parser.py:220-249 | a goalkeeper's cell never adds goals scored, and anyone else's never adds goals conceded |
| `Career.ClubCellDeltaOf` | css_selector_parser.py:220-249 | a cell whose matches and goals figures are known adds exactly those figures, by role |
| `Career.ReadClubCell` | css_selector_parser.py:220-249 | the loop body on one cell returns `ClubCellDelta` |
| `Career.ClubTally` | css_selector_parser.py:214-249 | the sum over the rows between the two headings keeps the same role split |
| `Career.ClubTallyStep` | css_selector_parser.py:214-249 | the sum from a career row is that row's figures followed by the sum from the next row |
| `Career.ClubTallyStopsAt` | css_selector_parser.py:215-218 | the first row without three cells ends the sum: no later row is read |
| `Career.ClubTallyWindow` | css_selector_parser.py:214 | rows at or after the national heading are never read |
| `Career.SumClubCareer` | css_selector_parser.py:214-249 | the club-career loop returns `ClubTally` |
| `Career.MatchesFigureWritten` | css_selector_parser.py:236-237 | a matches text "m " adds m matches |
| `Career.OutfieldCell` | css_selector_parser.py:245-249 | an outfield cell "m (g)" adds m matches and g goals scored |
| `Career.OutfieldCellWithSlash` | css_selector_parser.py:246-249 | an outfield cell "m (g/a)" adds m matches and only the g before "/" |
| `Career.SignedConceded` | css_selector_parser.py:240-244 | a goalkeeper's goals text loses its first character: a sign followed by c reads as c |
| `Career.GoalkeeperCell` | css_selector_parser.py:240-244 | a goalkeeper's cell "m (−c)" adds m matches and c goals conceded |
| `Career.UnknownCell` | css_selector_parser.py:236-249 | a cell "? (?)" adds nothing, for any position |
| `Career.UnknownGoalsCell` | css_selector_parser.py:236-249 | a cell "m (?)" adds m matches and no goals |
| `Career.ClubTallyOfTwo` | css_selector_parser.py:214-249 | two career rows add up |
| `Career.OutfieldTwoRows` | css_selector_parser.py:214-249 | rows "m1 (g1)" and "m2 (?)" give an outfield player m1 + m2 matches and g1 goals ("15 (3)" and "10 (?)" give 25 and 3) |
| `Player.AddClubTally` | css_selector_parser.py:237-249 | a tally raises the three club figures by its amounts and changes nothing else; a failed tally fails |
| `Player.WithClubCareer` | css_selector_parser.py:210-249 | the club-career stage fails iff the sum of the career rows fails, with its error; otherwise each club figure is raised by the sum's amount, only the conceded figure of a goalkeeper or only the scored figure of anyone else moves, and nothing but the club figures changes |
| `Player.PlayerRecord.AddTally` | css_selector_parser.py:237-249 | adding a tally to the record's fields gives the record `AddClubTally` gives |
| `Player.PlayerRecord.AccumulateClubCareer` | css_selector_parser.py:214-249 | the club-career stage on the record, as `WithClubCareer` gives it |
| `National.NationalGoalsFigure` | css_selector_parser.py:303-322 | a national goals text containing "?" reads as zero |
| `National.NationalGoalsWithSlash` | css_selector_parser.py:318-322 | an outfield player's national goals "g/a" read as g |
| `National.NationalConcededSigned` | css_selector_parser.py:306-313 | a goalkeeper's national conceded goals after a non-digit sign read as the figure after it |
| `National.NationalConcededPlain` | css_selector_parser.py:306-313 | a goalkeeper's national conceded goals starting with a digit are read whole, unlike the club career |
| `National.NationalConcededEmpty` | css_selector_parser.py:306-313 | a goalkeeper's empty national goals text fails with an index error, because its first character is read |
| `National.TeamLink` | css_selector_parser.py:274-275 | reading the team link fails iff the team cell has no link or its last link has no title; otherwise it gives that link's title and text, both stripped |
| `National.FoundOf` | css_selector_parser.py:283-322 | a cell without its brackets fails as the split fails; on success the record carries the given team, no matches exactly when the matches text holds "?", otherwise the matches `int()` reads, and the goals the position-appropriate reading gives |
| `National.RowCandidate` | css_selector_parser.py:271-322 | a team cell whose link cannot be read fails with that error; a row is recorded iff its last link has a non-empty title mentioning no flag and no bracket, and a text without a bracket; the record carries that title |
| `National.Append` | css_selector_parser.py:283-322 | appending keeps the matches list no longer than the team and goals lists, which stay equally long |
| `National.FoundList` | css_selector_parser.py:283-322 | one row appends at most one team, and keeps the lists aligned |
| `National.CandidatesFrom` | css_selector_parser.py:262-322 | the collected lists are aligned: the matches list never runs ahead of the others |
| `National.CareerEnd` | css_selector_parser.py:262-269 | the first row from a position that has not three cells or has a footnote: no row before it ends the career, and it does unless it is the end of the rows |
| `National.CandidateTitles` | css_selector_parser.py:274-283 | every title it lists is a non-empty title with no flag and no bracket |
| `National.CandidatesTeams` | css_selector_parser.py:262-284 | the team list the national loop builds is exactly the titles of the candidate rows before the first row that ends the career, in row order |
| `National.CandidatesStopAt` | css_selector_parser.py:262-269 | rows from the first one that ends the career onwards are never read |
| `National.CandidatesStep` | css_selector_parser.py:262-322 | the candidates from a row that does not end the career are that row's record followed by the candidates from the next row |
| `National.ReadCandidateRow` | css_selector_parser.py:271-322 | the loop body on one row returns `RowCandidate` |
| `National.AppendFound` | css_selector_parser.py:283-322 | a record appends its team and goals, and its matches only when they were known |
| `National.CollectCandidates` | css_selector_parser.py:257-322 | the national-career loop, appending to the three lists, returns `CandidatesFrom` |
| `National.Selected` | css_selector_parser.py:329-342 | the selection from position i has no more entries than there are candidates from i |
| `National.SelectedTitles` | css_selector_parser.py:329-342 | the selection is complete and in order: its teams are exactly the senior titles from position i on, in list order |
| `National.RemoveAt` | css_selector_parser.py:357-363 | `list.pop(k)`: one element fewer; those before k stay, those after shift down by one |
| `National.RemoveTeam` | css_selector_parser.py:354-363 | an absent team changes nothing; a present one loses exactly one entry |
| `National.WithoutTeams` | css_selector_parser.py:353-363 | removing names never adds entries |
| `National.SelectedNone` | css_selector_parser.py:329-342 | with no senior title there is nothing to select, and no figure is read |
| `National.SelectedAligned` | css_selector_parser.py:329-342 | with aligned lists the selection never fails, and it is empty iff no senior title remains |
| `National.SelectedEntries` | css_selector_parser.py:329-342 | every selected entry is a senior candidate with the figures found at its own position |
| `National.SelectedStep` | css_selector_parser.py:329-342 | a senior title with figures is selected, followed by the selection from the next position |
| `National.RemoveTeamKeeps` | css_selector_parser.py:353-363 | removing a team only removes entries |
| `National.WithoutTeamsKeeps` | css_selector_parser.py:353-363 | removing teams only removes entries |
| `National.WithoutAbsentTeams` | css_selector_parser.py:353-354 | names that are not selected change nothing |
| `National.RemoveTeamDistinct` | css_selector_parser.py:353-363 | with distinct teams, a removed team is gone, the rest stay distinct, and no new team appears |
| `National.WithoutTeamsDistinct` | css_selector_parser.py:353-363 | with distinct teams, no restricted name is left after the removals |
| `National.WithoutTeamsSplit` | css_selector_parser.py:353-363 | removing the names of `a + b` removes those of `a`, then those of `b` |
| `National.RestrictedSplit` | css_selector_parser.py:345-351 | each restricted name occurs once in the restricted list |
| `National.WithoutRestrictedOfOne` | css_selector_parser.py:353-363 | entries that all belong to one restricted team lose only their first entry |
| `National.SeniorOfSelected` | css_selector_parser.py:344-373 | with a non-empty selection, the team is the first entry left after the removals, or an index error when none is left |
| `National.SeniorChosen` | css_selector_parser.py:329-371 | the chosen team is a senior candidate, reported with the matches and goals at its own position; with distinct selected titles it is never a restricted team |
| `National.SeniorNone` | css_selector_parser.py:344-373 | with no senior title the explicit "not played for a national team" error is raised; with aligned lists that error means no senior title |
| `National.OnlyRestrictedTeam` | css_selector_parser.py:353-366 | a single restricted senior candidate is removed, and reading the first survivor fails with an index error, not the explicit error |
| `National.SelectedTwoSenior` | css_selector_parser.py:329-342 | two senior candidates of the same team are both selected, in order |
| `National.RestrictedPair` | css_selector_parser.py:353-363 | of two entries of the same restricted team only the first is removed |
| `National.RestrictedTwice` | css_selector_parser.py:344-371 | a restricted team listed twice loses only its first entry, and its second entry is chosen |
| `National.MatchesBehindFails` | css_selector_parser.py:298-337 | a youth team with unknown matches before the senior team makes the selection read past the end of the matches list |
| `National.MatchesBehindShifts` | css_selector_parser.py:298-337 | a senior team with unknown matches before a youth team with m matches is credited with m |
| `National.ProjectAppend` | css_selector_parser.py:336-342 | appending an entry appends to each of the three parallel lists |
| `National.ProjectRemove` | css_selector_parser.py:357-363 | popping an entry pops the same position of each of the three parallel lists |
| `National.SelectSenior` | css_selector_parser.py:324-373 | the selection loop, the removal loop with its pops, and the reads of the first survivor return `Senior` |
| `Player.WithNationalTeam` | css_selector_parser.py:256-373 | the stage succeeds iff the candidate rows read and a senior team is chosen among them; the record then carries the chosen team, which is senior and passed the candidate filter, its matches, and its goals in the position-appropriate field; the other goal field, the position, the club figures and every other field stay as they were |
| `Player.NoNationalRows` | css_selector_parser.py:210-211 | with no row after the national heading position (no heading at all included), the stage fails with the explicit error |
| `Player.PlayerRecord.SetNationalEntry` | css_selector_parser.py:365-371 | the record gets the chosen team, its matches, and its goals in the position-appropriate field |
| `Player.PlayerRecord.ResolveNationalTeam` | css_selector_parser.py:256-373 | the national stage on the record, as `WithNationalTeam` gives it |
| `Totals.Max` | css_selector_parser.py:408-409 | the larger of two figures |
| `Totals.Raise` | css_selector_parser.py:450-461 | both figures are raised to at least the new ones |
| `Totals.TotalsColumns` | css_selector_parser.py:385-388 | the cells read are the data cells when there are more of them than header cells, and the header cells otherwise |
| `Totals.ConcededText` | css_selector_parser.py:413-418 | a goalkeeper's "?" reads as "0"; an empty text fails |
| `Totals.WithGoals` | css_selector_parser.py:418-423 | the matches with goals, failing when the goals fail |
| `Totals.ClubTotals` | css_selector_parser.py:397-426 | a totals row with fewer than two cells fails with an index error |
| `Totals.ClubFiguresPlain` | css_selector_parser.py:401-426 | matches second to last and goals last read as written |
| `Totals.ClubFiguresUnknownConceded` | css_selector_parser.py:411-421 | a goalkeeper's unknown conceded figure reads as zero |
| `Totals.ClubFiguresSignedConceded` | css_selector_parser.py:411-421 | a goalkeeper's conceded figure after a sign loses the sign |
| `Totals.ClubFiguresShifted` | css_selector_parser.py:401-421 | a goalkeeper's row whose second-to-last cell starts with a non-digit holds the conceded goals after their sign there, and the matches move one cell left |
| `Totals.ClubFiguresShiftedOutfield` | css_selector_parser.py:401-423 | an outfield player's row in the shifted layout takes the matches one cell left, discards the goals after the sign, and reads the goals scored from the last cell |
| `Totals.ClubReading` | css_selector_parser.py:380-396 | a table tells nothing iff its last row is not a totals row; a table without rows fails |
| `Totals.ClubReadings` | css_selector_parser.py:379-380 | one reading per table, in page order |
| `Totals.FirstFinding` | css_selector_parser.py:379-428 | the finding is nothing or one of the readings |
| `Totals.FirstFindingAt` | css_selector_parser.py:379-428 | the first reading that says something is the finding |
| `Totals.FirstFindingNone` | css_selector_parser.py:379-428 | without any reading nothing is found |
| `Totals.FindClubTotals` | css_selector_parser.py:377-428 | the table loop with its `break` returns `ClubTotalsOf` |
| `Totals.ClubTotalsFirst` | css_selector_parser.py:390-428 | only the first totals table counts |
| `Totals.ClubTotalsNone` | css_selector_parser.py:379-428 | without a totals row, and with rows in every table, the page has no club totals |
| `Totals.UnsignedText` | css_selector_parser.py:445-447 | an empty text fails; a leading digit is kept; a leading non-digit is dropped |
| `Totals.NationalTotals` | css_selector_parser.py:441-461 | an "Итого" row with fewer than two header cells fails with an index error |
| `Totals.NationalFiguresScored` | css_selector_parser.py:455-456 | an outfield player's row reads matches and goals scored as written |
| `Totals.NationalFiguresConceded` | css_selector_parser.py:443-448 | a goalkeeper's conceded goals after a sign lose the sign |
| `Totals.NationalFiguresConcededPlain` | css_selector_parser.py:443-448 | a goalkeeper's conceded goals without a sign read as written |
| `Totals.NationalFiguresUnknown` | css_selector_parser.py:445-448 | a goalkeeper's "?" is not a number: the row fails |
| `Totals.NationalReading` | css_selector_parser.py:435-441 | a table that is not a wikitable tells nothing; a wikitable without rows fails |
| `Totals.NationalReadings` | css_selector_parser.py:435-438 | one reading per table, in page order |
| `Totals.MergeFindings` | css_selector_parser.py:437-461 | the merge fails iff some reading fails |
| `Totals.MergeFindingsFirstError` | css_selector_parser.py:437-461 | the merge fails with the error of the first failing reading |
| `Totals.MergeNationalTotals` | css_selector_parser.py:431-461 | the loop over all tables returns `NationalTotalsOf` |
| `Totals.MergeFindingsBounds` | css_selector_parser.py:450-461 | the merged figures are at least the starting ones and those of every totals row, and each is the starting one or that of some row |
| `Totals.MergeFindingsNone` | css_selector_parser.py:437-461 | with no national totals row the figures stay as they were |
| `Player.WithClubTotals` | css_selector_parser.py:377-428 | a failing search for the club totals fails the stage with its error; without a totals row the record is unchanged; otherwise the club matches become the larger of the current and the totals figure, and so do the goals in the position-appropriate field, while the other goal field and everything but the club figures stay |
| `Player.PlayerRecord.RaiseClubFigures` | css_selector_parser.py:408-426 | the record's club figures are raised by a totals row |
| `Player.PlayerRecord.ReadClubTotals` | css_selector_parser.py:377-428 | the club-totals stage on the record, as `WithClubTotals` gives it |
| `Player.WithNationalFigures` | css_selector_parser.py:450-461 | the record carries the given national figures |
| `Player.WithNationalTotals` | css_selector_parser.py:431-461 | without a national statistics section the record is unchanged; with one, the stage fails iff the merge of the totals rows fails, with its error, and otherwise the record carries exactly the merged national figures |
| `Player.NationalTotalsRaise` | css_selector_parser.py:450-461 | the national totals never lower a national figure and change nothing but the national figures |
| `Player.PlayerRecord.SetNationalFigures` | css_selector_parser.py:450-461 | the record's national figures are set |
| `Player.PlayerRecord.ReadNationalTotals` | css_selector_parser.py:431-461 | the national-totals stage on the record, as `WithNationalTotals` gives it |
| `Player.AfterNationalTeam` | css_selector_parser.py:377-461 | the totals stages keep the national team, the URL and the name |
| `Player.PlayerRecord.ReadTotals` | css_selector_parser.py:377-461 | the totals stages on the record |
| `Player.AfterClubCareer` | css_selector_parser.py:256-461 | a success needs a row after the national heading position, names a senior team that passed the candidate filter, and keeps the URL |
| `Player.PlayerRecord.ReadNationalCareer` | css_selector_parser.py:256-461 | the national stage and the totals stages on the record |
| `Player.Careers` | css_selector_parser.py:210-461 | a success needs a row after the national heading position, names a senior team that passed the candidate filter, and keeps the URL |
| `Player.PlayerRecord.ReadCareers` | css_selector_parser.py:214-461 | the club career, the national career and the totals on the record |
| `Player.AfterScan` | css_selector_parser.py:176-461 | a success names a senior team that passed the candidate filter |
| `Player.AfterName` | css_selector_parser.py:176-461 | a success names a senior team that passed the candidate filter |
| `Player.PlayerRecord.ReadBiography` | css_selector_parser.py:176-461 | the scan and the careers on the record, with the national position defaulting to the number of rows |
| `Player.PlayerHasNationalTeam` | css_selector_parser.py:143-463 | every extracted record names a senior national team whose title is non-empty and mentions no flag and no bracket, keeps the page's URL, and the page has a national-career heading after the first row |
| `Player.PlayerParse` | css_selector_parser.py:143-463 | the stages on a fresh record give exactly `PlayerSpec`, and the first failing stage fails the page |

## Left out

- BeautifulSoup is not part of this model. Every lookup (`select_one`, `find`, `find_next`, `find_all`, `.text`, attributes) is replaced by its answer, held in the `Markup` data. A lookup that finds nothing becomes a missing element. Python's `TypeError` and `AttributeError` on a missing element become `MissingElement`, and `KeyError` on a link without a title does too.
- `urlparse` is not modelled. The scheme and the host of the URL are parameters of `Parser.Parse`; only their concatenation with `"://"` and the `href` is modelled.
- `datetime` and `calendar.timegm` are replaced by a proleptic Gregorian day count times 86400. Dates outside years 1 to 9999, or with a day outside its month, fail with `InvalidDate`.
- `int()` is modelled on ASCII digits with an optional sign and surrounding whitespace. Underscores between digits and non-ASCII digits are not modelled. `str.isnumeric` is restricted to ASCII digits. `str.isalpha` is restricted to the ASCII letters, ª, µ and º, U+00C0 to U+024F without × and ÷, and the Cyrillic letters U+0400 to U+0481 and U+048A to U+052F; letters of other scripts are not modelled.
- `rows.index(row)` is modelled as the row's position. BeautifulSoup compares tags by content, so the two differ only when an identical earlier row exists.
- The `"]"` branch of `calc_height` is unreachable, since the collected run holds digits only. The model states this, so `Fields.CalcHeight` has no footnote cut.
- The national loop builds both goal lists. Only the one appropriate to the position is ever read, so the model keeps one goals list.
- The birth text is stored under the key `birt_str`, as written. `PlayerData.birthText` holds it.
- `Career.SumClubCareer` sums the club-career rows into a tally that is added to the record once, instead of updating the record row by row. The result is the same, because a failing row fails the whole page.
- The code keeps no registry of known teams and has no fallback to zero for unreadable figures: an exclusion list decides which teams count, and `int()` fails on noise, which fails the page.
- A directory row without a link in its first cell raises `IndexError`, which fails the whole tournament page; the model keeps that failure.
- When the matches list falls behind the team list, the code reads the wrong figure or an index past the end. The model keeps both behaviours as written, and `National.MatchesBehindFails` and `National.MatchesBehindShifts` exhibit them.
