/** The `Output` record the scraper returns: either a result (the event URL and
    its runners in page order) or an error message. */
module OddsTypes {
  import opened Wrappers

  /** One runner: its name and its first listed price, both as the page shows them. */
  datatype Horse = Horse(name: string, odds: string)

  datatype ScrapeResult = ScrapeResult(eventUrl: string, horses: seq<Horse>)

  /** Both fields are optional in the declared shape. */
  datatype Output = Output(result: Option<ScrapeResult>, error: Option<string>)

  /** Exactly one of `result` and `error` is set. */
  predicate WellFormed(o: Output) {
    o.result.Some? != o.error.Some?
  }

  function ErrorOutput(message: string): (o: Output)
    ensures WellFormed(o) && o.error == Some(message)
  {
    Output(None, Some(message))
  }
}
