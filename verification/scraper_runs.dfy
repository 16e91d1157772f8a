/** Properties of `scrapeOdds` across a sequence of calls sharing one browser handle. */
module ScraperRuns {
  import opened Wrappers
  import opened OddsTypes
  import opened Scraper

  /** One call: the URL passed in and what the browser shows for it. */
  datatype Call = Call(eventUrl: string, view: PageView)

  /** The outcome of a call does not depend on the session it runs against. */
  function OutcomeOf(parse: UrlParser, c: Call): Outcome {
    ScrapeOdds(parse, Initial, c.eventUrl, c.view).outcome
  }

  /** The call opens a page and leaves it open. */
  predicate Leaks(parse: UrlParser, c: Call) {
    PassesSiteCheck(parse, c.eventUrl) && !Succeeded(OutcomeOf(parse, c))
  }

  function LeakCount(parse: UrlParser, calls: seq<Call>): nat {
    if calls == [] then 0
    else (if Leaks(parse, calls[0]) then 1 else 0) + LeakCount(parse, calls[1..])
  }

  /** Some call in the sequence gets past the site check. */
  predicate AnyPassesSiteCheck(parse: UrlParser, calls: seq<Call>) {
    exists k :: 0 <= k < |calls| && PassesSiteCheck(parse, calls[k].eventUrl)
  }

  /** Sessions reachable from `Initial`: the browser was launched once iff the
      handle is set, and no page is open before the browser exists. */
  predicate Consistent(s: Session) {
    && s.launches == (if s.launched then 1 else 0)
    && (!s.launched ==> s.openPages == 0)
  }

  /** Session-independence: a call's outcome is the same whatever state the handle is in. */
  lemma OutcomeIndependentOfSession(parse: UrlParser, s: Session, c: Call)
    ensures ScrapeOdds(parse, s, c.eventUrl, c.view).outcome == OutcomeOf(parse, c)
  {
  }

  /** The session after running `calls` in order, starting from `s`. The handle is
      never reset, the browser is launched at most once, and it is launched exactly
      when some call gets past the site check while the handle is still null. */
  function Run(parse: UrlParser, s: Session, calls: seq<Call>): (s': Session)
    ensures s.launched ==> s'.launched && s'.launches == s.launches
    ensures s'.launches <= s.launches + 1
    ensures s'.launched <==> s.launched || AnyPassesSiteCheck(parse, calls)
    ensures s'.launches == s.launches + 1 <==> !s.launched && AnyPassesSiteCheck(parse, calls)
    ensures !s.launched && !AnyPassesSiteCheck(parse, calls) ==> s'.launches == s.launches
    ensures s'.openPages == s.openPages + LeakCount(parse, calls)
    decreases |calls|
  {
    if calls == [] then s
    else
      var next := ScrapeOdds(parse, s, calls[0].eventUrl, calls[0].view).session;
      OutcomeIndependentOfSession(parse, s, calls[0]);
      var s' := Run(parse, next, calls[1..]);
      assert AnyPassesSiteCheck(parse, calls) <==>
        PassesSiteCheck(parse, calls[0].eventUrl) || AnyPassesSiteCheck(parse, calls[1..]) by {
        if AnyPassesSiteCheck(parse, calls[1..]) {
          var k :| 0 <= k < |calls[1..]| && PassesSiteCheck(parse, calls[1..][k].eventUrl);
          assert calls[k + 1] == calls[1..][k];
        }
        if AnyPassesSiteCheck(parse, calls) && !PassesSiteCheck(parse, calls[0].eventUrl) {
          var k :| 0 <= k < |calls| && PassesSiteCheck(parse, calls[k].eventUrl);
          assert calls[1..][k - 1] == calls[k];
        }
      }
      s'
  }

  /** From process start, the browser is launched at most once over any sequence of calls. */
  lemma LaunchedAtMostOnce(parse: UrlParser, calls: seq<Call>)
    ensures Run(parse, Initial, calls).launches <= 1
    ensures Consistent(Run(parse, Initial, calls))
  {
  }

  /** A single call keeps a reachable session reachable. */
  lemma ScrapePreservesConsistent(parse: UrlParser, s: Session, eventUrl: string, view: PageView)
    requires Consistent(s)
    ensures Consistent(ScrapeOdds(parse, s, eventUrl, view).session)
  {
  }

  /** Idempotence for a fixed page: calling twice with the same URL against an unchanged
      page yields the same outcome. It is the session-independence above, restated for
      two consecutive calls; a page whose content changes between calls is a different
      `PageView` and outside this statement. */
  lemma RepeatedCallSameOutcome(parse: UrlParser, s: Session, eventUrl: string, view: PageView)
    ensures
      var first := ScrapeOdds(parse, s, eventUrl, view);
      ScrapeOdds(parse, first.session, eventUrl, view).outcome == first.outcome
  {
  }

  /** The `!horses` guard never fires: the "No horses found" error is never returned,
      and a page with zero rows succeeds with an empty runner list. */
  lemma NoHorsesNeverReturned(parse: UrlParser, s: Session, eventUrl: string, view: PageView)
    ensures ScrapeOdds(parse, s, eventUrl, view).outcome != Returned(ErrorOutput(NoHorsesMessage))
    ensures PassesSiteCheck(parse, eventUrl) && view.navigates && view.rowsAppear && view.rows == [] ==>
              ScrapeOdds(parse, s, eventUrl, view).outcome
                == Returned(Output(Some(ScrapeResult(eventUrl, [])), None))
  {
    // every other error message differs from it in its first letter or its length
    assert (InvalidUrlPrefix + eventUrl)[0] != NoHorsesMessage[0];
    assert WrongSiteMessage[0] != NoHorsesMessage[0];
    assert |TimeoutMessage| != |NoHorsesMessage|;
  }

  /** The callback checks only that the odds text is non-empty: a price that is neither
      `SP` nor a fraction is passed through unchanged. */
  lemma OddsTextUnchecked(parse: UrlParser, s: Session, eventUrl: string)
    requires PassesSiteCheck(parse, eventUrl)
    ensures
      var view := PageView(true, true, [Row(Some("A"), Some("Evens"))]);
      ScrapeOdds(parse, s, eventUrl, view).outcome
        == Returned(Output(Some(ScrapeResult(eventUrl, [Horse("A", "Evens")])), None))
  {
    var view := PageView(true, true, [Row(Some("A"), Some("Evens"))]);
    var horses := ScrapeOdds(parse, s, eventUrl, view).outcome.output.result.value.horses;
    assert Verbatim(view.rows, horses);
    assert horses == [Horse("A", "Evens")];
  }

  /** The invalid-URL message for an unparseable text can equal the wrong-site message. */
  lemma UrlErrorsCanCoincide(parse: UrlParser, s: Session, view: PageView)
    requires parse("must be a www.betmgm.co.uk URL").None?
    ensures ScrapeOdds(parse, s, "must be a www.betmgm.co.uk URL", view).outcome
              == Returned(ErrorOutput(WrongSiteMessage))
  {
    assert InvalidUrlPrefix + "must be a www.betmgm.co.uk URL" == WrongSiteMessage;
  }
}
