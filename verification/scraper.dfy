/** `scrapeOdds`: the ordered failure classification of one scrape, with the browser
    and the page treated as oracles, and the process-wide browser handle as state. */
module Scraper {
  import opened Wrappers
  import opened OddsTypes
  import opened RowMessages
  import Js
  import OutputJson

  const BookmakerHost: string := "www.betmgm.co.uk"
  const InvalidUrlPrefix: string := "Invalid URL: "
  const WrongSiteMessage: string := "Invalid URL: must be a www.betmgm.co.uk URL"
  const TimeoutMessage: string :=
    "Timeout error. Rows not found. This may happen for past events. Please make sure to input a future event."
  const NoHorsesMessage: string := "No horses found"

  /** The URL parser: the hostname of a parseable URL, `None` when parsing throws. */
  type UrlParser = string -> Option<string>

  /** What the two `querySelector(...)?.textContent` reads give for one row element;
      `None` is a missing element or a null text. */
  datatype Row = Row(name: Option<string>, odds: Option<string>)

  /** What the browser does for one page: whether navigation succeeds, whether the
      rows selector appears before the wait times out, and the matched rows. */
  datatype PageView = PageView(navigates: bool, rowsAppear: bool, rows: seq<Row>)

  /** The process-wide browser handle (`launched` is "not null"), how many times the
      browser was launched, and how many pages are open and not yet closed. */
  datatype Session = Session(launched: bool, launches: nat, openPages: nat)

  /** The state at process start: no browser, no page. */
  const Initial: Session := Session(false, 0, 0)

  /** Exceptions that escape `scrapeOdds` instead of becoming an `Output`. */
  datatype Failure = NavigationFailed | RowFailed(error: RowError)

  datatype Outcome = Returned(output: Output) | Raised(failure: Failure)

  datatype Step = Step(outcome: Outcome, session: Session)

  predicate Succeeded(o: Outcome) {
    o.Returned? && o.output.result.Some?
  }

  /** Parses to a URL whose hostname is exactly the bookmaker's. */
  predicate PassesSiteCheck(parse: UrlParser, url: string) {
    parse(url) == Some(BookmakerHost)
  }

  /** The callback's `!text` test fails: the text is present and non-empty. */
  predicate HasText(t: Option<string>) {
    t.Some? && t.value != ""
  }

  predicate RowOk(r: Row) {
    HasText(r.name) && HasText(r.odds)
  }

  /** The horses are the rows' texts, verbatim and in row order. */
  predicate Verbatim(rows: seq<Row>, horses: seq<Horse>) {
    && |horses| == |rows|
    && forall k :: 0 <= k < |rows| ==>
         rows[k].name == Some(horses[k].name) && rows[k].odds == Some(horses[k].odds)
  }

  /** `e` reports the first row at or after `from` that fails the callback,
      naming the missing name before the missing odds. */
  predicate FirstFault(rows: seq<Row>, from: nat, e: RowError) {
    && from <= e.index < |rows|
    && !RowOk(rows[e.index])
    && (forall j :: from <= j < e.index ==> RowOk(rows[j]))
    && (e.NameNotFound? <==> !HasText(rows[e.index].name))
    && (e.OddsNotFound? ==> rows[e.index].name == Some(e.name))
  }

  /** The `elements.map(...)` callback from row `from` on: all or nothing. */
  function ExtractFrom(rows: seq<Row>, from: nat): (r: Result<seq<Horse>, RowError>)
    requires from <= |rows|
    ensures r.Success? <==> forall j :: from <= j < |rows| ==> RowOk(rows[j])
    ensures r.Success? ==> Verbatim(rows[from..], r.value)
    ensures r.Failure? ==> FirstFault(rows, from, r.error)
    decreases |rows| - from
  {
    if from == |rows| then Success([])
    else
      var row := rows[from];
      if !HasText(row.name) then Failure(NameNotFound(from))
      else if !HasText(row.odds) then Failure(OddsNotFound(row.name.value, from))
      else match ExtractFrom(rows, from + 1)
        case Failure(e) => Failure(e)
        case Success(hs) =>
          assert rows[from..][1..] == rows[from + 1..];
          Success([Horse(row.name.value, row.odds.value)] + hs)
  }

  function ExtractRows(rows: seq<Row>): Result<seq<Horse>, RowError> {
    ExtractFrom(rows, 0)
  }

  /** `if (browser === null) browser = await puppeteer.launch()`. */
  function AcquireBrowser(s: Session): (s': Session)
    ensures s'.launched && s'.openPages == s.openPages
    ensures s'.launches == if s.launched then s.launches else s.launches + 1
  {
    if s.launched then s else s.(launched := true, launches := s.launches + 1)
  }

  /** One call of `scrapeOdds(eventUrl)` against session `s`. */
  function ScrapeOdds(parse: UrlParser, s: Session, eventUrl: string, view: PageView): (r: Step)
    // an unparseable URL is reported before anything else, and touches nothing
    ensures parse(eventUrl).None? ==>
              r == Step(Returned(ErrorOutput(InvalidUrlPrefix + eventUrl)), s)
    // a parseable URL for another host is reported next, and touches nothing
    ensures parse(eventUrl).Some? && !PassesSiteCheck(parse, eventUrl) ==>
              r == Step(Returned(ErrorOutput(WrongSiteMessage)), s)
    // past the site check the browser exists afterwards, launched only if it was not
    ensures PassesSiteCheck(parse, eventUrl) ==>
              && r.session.launched
              && r.session.launches == (if s.launched then s.launches else s.launches + 1)
    // the page opened past the site check is closed on success only
    ensures PassesSiteCheck(parse, eventUrl) ==>
              r.session.openPages == s.openPages + (if Succeeded(r.outcome) then 0 else 1)
    ensures PassesSiteCheck(parse, eventUrl) && !view.navigates ==>
              r.outcome == Raised(NavigationFailed)
    ensures PassesSiteCheck(parse, eventUrl) && view.navigates && !view.rowsAppear ==>
              r.outcome == Returned(ErrorOutput(TimeoutMessage))
    // success exactly when every stage passes and every row has both texts
    ensures Succeeded(r.outcome) <==>
              && PassesSiteCheck(parse, eventUrl) && view.navigates && view.rowsAppear
              && forall j :: 0 <= j < |view.rows| ==> RowOk(view.rows[j])
    ensures Succeeded(r.outcome) ==>
              && r.outcome.output.result.value.eventUrl == eventUrl
              && Verbatim(view.rows, r.outcome.output.result.value.horses)
    // a bad row raises, reporting the first bad row
    ensures PassesSiteCheck(parse, eventUrl) && view.navigates && view.rowsAppear
            && !(forall j :: 0 <= j < |view.rows| ==> RowOk(view.rows[j])) ==>
              r.outcome.Raised? && r.outcome.failure.RowFailed?
    ensures r.outcome.Raised? && r.outcome.failure.RowFailed? ==>
              FirstFault(view.rows, 0, r.outcome.failure.error)
    // every returned Output carries exactly one of result / error
    ensures r.outcome.Returned? ==> WellFormed(r.outcome.output)
  {
    match parse(eventUrl)
    case None => Step(Returned(ErrorOutput(InvalidUrlPrefix + eventUrl)), s)
    case Some(host) =>
      if host != BookmakerHost then Step(Returned(ErrorOutput(WrongSiteMessage)), s)
      else
        var withPage := AcquireBrowser(s).(openPages := s.openPages + 1);
        if !view.navigates then Step(Raised(NavigationFailed), withPage)
        else if !view.rowsAppear then Step(Returned(ErrorOutput(TimeoutMessage)), withPage)
        else match ExtractRows(view.rows)
          case Failure(e) => Step(Raised(RowFailed(e)), withPage)
          case Success(horses) =>
            assert view.rows[0..] == view.rows;
            if !Js.Truthy(Some(OutputJson.HorsesToJs(horses))) then
              Step(Returned(ErrorOutput(NoHorsesMessage)), withPage)
            else
              Step(Returned(Output(Some(ScrapeResult(eventUrl, horses)), None)),
                   withPage.(openPages := s.openPages))
  }
}
