/** The fortune records the application shows and the scraper scripts produce. */
module Fortunes {

  /** One fortune stick: its label, its auspice level, its verse (newline-separated lines) and
      its explanation. The level may be empty when a scraper could not find one. */
  datatype Fortune = Fortune(title: string, level: string, poem: string, explain: string)
}
