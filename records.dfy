/**
 * One movie row as a dictionary from column name to cell value, and the
 * truthiness rules the reconciler applies to cell values.
 */
module Records {

  /**
   * A cell value. Scraped rows hold strings, an integer running time and
   * `None` for a missing local poster path; rows read back from the sheet
   * hold strings and numbers.
   */
  datatype Value = Text(s: string) | Number(n: int) | NoValue

  type Row = map<string, Value>

  const TitleKey: string := "Movie Title"
  const ScrapeDateKey: string := "Scrape Date"

  /** The "not available" marker the scraper stores for a missing field. */
  const Sentinel: string := "N/A"

  /** Python truthiness: the empty string, `0` and `None` are false. */
  predicate Truthy(v: Value): (b: bool)
    ensures !b <==> v in {Text(""), Number(0), NoValue}
  {
    match v
    case Text(s) => s != ""
    case Number(n) => n != 0
    case NoValue => false
  }

  /** A fresh value replaces a stored one only when this holds (`value and value != 'N/A'`). */
  predicate Overrides(v: Value): (b: bool)
    ensures b <==> v !in {Text(""), Number(0), NoValue, Text(Sentinel)}
  {
    Truthy(v) && v != Text(Sentinel)
  }

  /** `row.get('Movie Title', '')`, the sort key of the merged output. */
  function TitleOf(row: Row): string {
    if TitleKey in row && row[TitleKey].Text? then row[TitleKey].s else ""
  }

  lemma KeysDiffer()
    ensures TitleKey != ScrapeDateKey
  {
    assert TitleKey[0] != ScrapeDateKey[0];
  }
}
