/**
 * A page as the extractor sees it once the markup queries have been answered: the infobox
 * rows, the tables with their last rows, the section anchors and the links in cells.
 */
module Markup {
  import opened Failures

  /** An `<a>` element: its `href` and `title` attributes (when present) and its text. */
  datatype Anchor = Anchor(href: Option<string>, title: Option<string>, text: string)

  /** A `<td>` cell: its text, its links in document order, and whether it holds a
      `span.reference-text` footnote. */
  datatype Cell = Cell(text: string, anchors: seq<Anchor>, hasReference: bool)

  /** The `<td>` cells of a table row. */
  type CellRow = seq<Cell>

  /**
   * A row of the infobox: the text of its first `<th>` (if any), its `<td>` cells, its whole
   * text, the texts of the links inside its `span.nowrap` (the birth date), the text of its
   * `span.no-wikidata` (the current club) and the text of its `div.ts_Спортсмен_имя` (the name).
   */
  datatype InfoRow = InfoRow(
    header: Option<string>,
    cells: seq<Cell>,
    text: string,
    dateLinks: Option<seq<string>>,
    clubSpan: Option<string>,
    nameDiv: Option<string>)

  /** The texts of the `<th>` and of the `<td>` cells of a table's last row. */
  datatype LastRow = LastRow(ths: seq<string>, tds: seq<string>)

  /** A table of the page: whether it has the class `wikitable`, and its last row (none when
      the table has no rows). */
  datatype Table = Table(isWikitable: bool, lastRow: Option<LastRow>)

  /** `table.infobox`: its `data-name` attribute and its rows. */
  datatype Infobox = Infobox(dataName: Option<string>, rows: seq<InfoRow>)

  /** Roster section anchors: the id of each `<span>` present, mapped to the rows of the next
      `wikitable` after it (none when no such table follows). */
  type RosterSections = map<string, Option<seq<CellRow>>>

  /**
   * A fetched page. `qualifiedTeams` holds the rows of the `standard sortable` table after the
   * element with id `Квалифицировались_в_финальный_турнир` (none when either is missing);
   * `tables` holds every table of the page in document order; `hasNationalStats` says whether
   * an element with id `Статистика_в_сборной` or `Матчи_за_сборную` exists.
   */
  datatype Page = Page(
    infobox: Option<Infobox>,
    qualifiedTeams: Option<seq<CellRow>>,
    rosterSections: RosterSections,
    tables: seq<Table>,
    hasNationalStats: bool)
}
