/** The `GET /odds` handler: three ordered body checks, then one call of `scrapeOdds`
    whose `Output` is sent as JSON at the default status. */
module OddsRoute {
  import opened Wrappers
  import opened OddsTypes
  import Js
  import OutputJson
  import Scraper

  const StatusOk: nat := 200
  const StatusBadRequest: nat := 400

  const MissingBody: string := "Missing request body"
  const MissingEventUrl: string := "Missing eventUrl query parameter"
  const NotAString: string := "eventUrl expected to be a string"

  /** What leaves the handler: a response, or the exception `scrapeOdds` raised
      (what the framework then sends is outside this model). */
  datatype Reply = Sent(status: nat, body: Js.Value) | Rejected(failure: Scraper.Failure)

  datatype Handled = Handled(reply: Reply, session: Scraper.Session)

  /** `{ error: message }`. */
  function ErrorBody(message: string): (v: Js.Value)
    ensures v == OutputJson.OutputToJs(ErrorOutput(message))
  {
    Js.Obj(map["error" := Js.Str(message)])
  }

  /** The three checks on `req.body` (`None` is an undefined body), first failure wins;
      on success the `eventUrl` string. */
  function Validate(body: Option<Js.Value>): (r: Result<string, string>)
    ensures r == Failure(MissingBody) <==> !Js.Truthy(body)
    ensures r == Failure(MissingEventUrl) <==>
              Js.Truthy(body) && !Js.Truthy(Js.Get(body, "eventUrl"))
    ensures r == Failure(NotAString) <==>
              && Js.Truthy(body) && Js.Truthy(Js.Get(body, "eventUrl"))
              && !Js.IsString(Js.Get(body, "eventUrl"))
    ensures r.Success? ==> r.value != "" && Js.Get(body, "eventUrl") == Some(Js.Str(r.value))
  {
    if !Js.Truthy(body) then Failure(MissingBody)
    else
      var eventUrl := Js.Get(body, "eventUrl");
      if !Js.Truthy(eventUrl) then Failure(MissingEventUrl)
      else if !Js.IsString(eventUrl) then Failure(NotAString)
      else Success(eventUrl.value.s)
  }

  /** Accepted bodies are exactly the objects whose `eventUrl` is a non-empty string. */
  lemma ValidateAcceptsExactly(body: Option<Js.Value>, u: string)
    ensures Validate(body) == Success(u) <==>
              && body.Some? && body.value.Obj? && "eventUrl" in body.value.fields
              && body.value.fields["eventUrl"] == Js.Str(u) && u != ""
  {
  }

  /** Falsy `eventUrl` values, the empty string among them, are reported as missing. */
  lemma FalsyEventUrlIsMissing(fields: map<string, Js.Value>, v: Js.Value)
    requires "eventUrl" !in fields || fields["eventUrl"] == v
    requires v in {Js.Null, Js.Bool(false), Js.Num(0.0), Js.Str("")}
    ensures Validate(Some(Js.Obj(fields))) == Failure(MissingEventUrl)
  {
  }

  /** Truthy values of any other type are reported as not being a string. */
  lemma TruthyNonStringIsRejected(fields: map<string, Js.Value>)
    requires "eventUrl" in fields && !fields["eventUrl"].Str?
    requires Js.Truthy(Some(fields["eventUrl"]))
    ensures Validate(Some(Js.Obj(fields))) == Failure(NotAString)
  {
  }

  /** One request to `GET /odds` against browser session `s`. */
  function HandleOdds(parse: Scraper.UrlParser, s: Scraper.Session, body: Option<Js.Value>,
                      view: Scraper.PageView): (h: Handled)
    // a rejected body is answered with 400 and its message, and nothing is scraped
    ensures Validate(body).Failure? ==>
              h == Handled(Sent(StatusBadRequest, ErrorBody(Validate(body).error)), s)
    // 400 is sent for rejected bodies only
    ensures h.reply.Sent? && h.reply.status == StatusBadRequest <==> Validate(body).Failure?
    // an accepted body is scraped with its own eventUrl, and the Output goes out at 200
    ensures Validate(body).Success? ==>
              var step := Scraper.ScrapeOdds(parse, s, Validate(body).value, view);
              && h.session == step.session
              && (step.outcome.Returned? ==>
                    h.reply == Sent(StatusOk, OutputJson.OutputToJs(step.outcome.output)))
              && (step.outcome.Raised? ==> h.reply == Rejected(step.outcome.failure))
    // every body sent decodes as an Output with exactly one of result / error
    ensures h.reply.Sent? ==>
              var decoded := OutputJson.OutputFromJs(h.reply.body);
              decoded.Some? && WellFormed(decoded.value)
  {
    match Validate(body)
    case Failure(message) =>
      OutputJson.OutputRoundTrip(ErrorOutput(message));
      Handled(Sent(StatusBadRequest, ErrorBody(message)), s)
    case Success(eventUrl) =>
      var step := Scraper.ScrapeOdds(parse, s, eventUrl, view);
      match step.outcome
      case Returned(output) =>
        OutputJson.OutputRoundTrip(output);
        Handled(Sent(StatusOk, OutputJson.OutputToJs(output)), step.session)
      case Raised(failure) => Handled(Rejected(failure), step.session)
  }

  /** Scrape errors are not remapped: an unparseable or foreign URL in a valid body
      is answered with status 200 and the scraper's error message. */
  lemma ScrapeErrorsSentAtStatusOk(parse: Scraper.UrlParser, s: Scraper.Session, u: string,
                                   view: Scraper.PageView)
    requires u != ""
    requires !Scraper.PassesSiteCheck(parse, u)
    ensures
      var h := HandleOdds(parse, s, Some(Js.Obj(map["eventUrl" := Js.Str(u)])), view);
      && h.session == s
      && h.reply.Sent? && h.reply.status == StatusOk
      && h.reply.body == ErrorBody(if parse(u).None? then Scraper.InvalidUrlPrefix + u
                                   else Scraper.WrongSiteMessage)
  {
  }
}
