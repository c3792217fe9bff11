/**
 * The entry point: a page is classified by the `data-name` attribute of its infobox and
 * handed to the tournament, national-team or player extractor, with the links built on the
 * scheme and host of the page's URL.
 */
module Parser {
  import opened Failures
  import opened Text
  import opened Markup
  import opened Links
  import opened Player

  /** The three kinds of page the extractor knows, and every other page. */
  datatype PageKind = Tournament | NationalTeam | Footballer | Other

  const TournamentMark: string := "Соревнование футбольных сборных"
  const NationalTeamMark: string := "Сборная страны по футболу"
  const FootballerMark: string := "Футболист"

  /** The kind of a page, by the first mark its infobox name contains, tried in this order. */
  function Classify(dataName: string): (k: PageKind)
    ensures k == Tournament <==> Contains(dataName, TournamentMark)
    ensures k == NationalTeam <==> !Contains(dataName, TournamentMark) && Contains(dataName, NationalTeamMark)
    ensures k == Footballer <==> !Contains(dataName, TournamentMark) && !Contains(dataName, NationalTeamMark)
                                 && Contains(dataName, FootballerMark)
  {
    if Contains(dataName, TournamentMark) then Tournament
    else if Contains(dataName, NationalTeamMark) then NationalTeam
    else if Contains(dataName, FootballerMark) then Footballer
    else Other
  }

  /** The kind of a page: a page without an infobox is the explicit "404"; an infobox without
      a `data-name` attribute cannot be searched. */
  function KindOf(page: Page): (r: Result<PageKind>)
    ensures r.Err? <==> page.infobox.None? || page.infobox.value.dataName.None?
    ensures page.infobox.None? ==> r == Err(PageNotFound)
    ensures r.Ok? ==> r.value == Classify(page.infobox.value.dataName.value)
  {
    if page.infobox.None? then Err(PageNotFound)
    else if page.infobox.value.dataName.None? then Err(MissingElement)
    else Ok(Classify(page.infobox.value.dataName.value))
  }

  /** What a page yields: the player record (only for a player page) and the links to follow. */
  datatype Parsed = Parsed(record: Option<PlayerData>, urls: seq<string>)

  /** The links of a result, or its failure. */
  function Urls(r: Result<Parsed>): Result<seq<string>> {
    if r.Err? then Err(r.error) else Ok(r.value.urls)
  }

  /**
   * `parse`: the page's kind decides the extractor. A tournament page yields the links of its
   * qualified teams, a national-team page the links of its roster players, a player page its
   * record and no links, and any other page nothing at all. The scheme and the host are
   * those of `currentUrl`; splitting the URL into them is not part of this model.
   */
  method Parse(currentUrl: string, scheme: string, netloc: string, page: Page) returns (r: Result<Parsed>)
    ensures KindOf(page).Err? ==> r == Err(KindOf(page).error)
    ensures KindOf(page) == Ok(Other) ==> r == Ok(Parsed(None, []))
    ensures KindOf(page) == Ok(Tournament) ==>
              (page.qualifiedTeams.None? ==> r == Err(MissingElement))
              && (page.qualifiedTeams.Some? ==>
                    DirectoryLinked(Domain(scheme, netloc), Drop1(page.qualifiedTeams.value), Urls(r))
                    && (r.Ok? ==> r.value.record.None?))
    ensures KindOf(page) == Ok(NationalTeam) ==>
              Urls(r) == RowsLinks(Domain(scheme, netloc), DataRows(RosterTables(page.rosterSections)))
              && (r.Ok? ==> r.value.record.None?)
    ensures KindOf(page) == Ok(Footballer) ==>
              var p := PlayerSpec(currentUrl, page.infobox.value.rows, page.tables, page.hasNationalStats);
              (r.Ok? <==> p.Ok?) && (r.Ok? ==> r.value == Parsed(Some(p.value), []))
              && (r.Err? ==> r.error == p.error)
  {
    var domain := Domain(scheme, netloc);
    if page.infobox.None? {
      return Err(PageNotFound);
    }
    var name := page.infobox.value.dataName;
    if name.None? {
      return Err(MissingElement);
    }
    var kind := Classify(name.value);
    if kind == Tournament {
      var links := MainPageParse(domain, page.qualifiedTeams);
      if links.Err? {
        return Err(links.error);
      }
      return Ok(Parsed(None, links.value));
    } else if kind == NationalTeam {
      var links := TeamParse(domain, page.rosterSections);
      if links.Err? {
        return Err(links.error);
      }
      return Ok(Parsed(None, links.value));
    } else if kind == Footballer {
      var record := PlayerParse(currentUrl, page.infobox.value.rows, page.tables, page.hasNationalStats);
      if record.Err? {
        return Err(record.error);
      }
      return Ok(Parsed(Some(record.value), []));
    }
    return Ok(Parsed(None, []));
  }
}
