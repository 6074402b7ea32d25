/**
 * The parsed race page, seen only through the text lookup the extractors use.
 *
 * The HTML parser and the CSS selector engine behind the lookup are not part
 * of this model: a page is any finite assignment of texts to the selectors the
 * extractors build, and a selector that matches nothing has no text.
 */
module Page {
  import opened Base

  /** The CSS selectors the extractors build, one constructor per shape. */
  datatype Selector =
    | RiderName(n: int)                       // tr.player-color-{n} div.race-table__player-info div.race-table__name a
    | RiderInfo(n: int)                       // tr.player-color-{n} div.race-table__player-info div.race-table__info
    | RowCell(n: int, row: int, col: int)     // tr.player-color-{n}:nth-of-type({row}) td.race-table__txt:nth-of-type({col})
    | WeatherSpan(k: int)                     // div.race-detail__weather span:nth-of-type({k})
    | Title                                   // .race-detail__ttl
    | SubTitle                                // div.race-detail__sub-ttl

  datatype Doc = Doc(texts: map<Selector, string>)

  /** The text of the first element matching `sel`, or None when nothing matches. */
  function GetText(doc: Doc, sel: Selector): Option<string>
  {
    if sel in doc.texts then Some(doc.texts[sel]) else None
  }
}
