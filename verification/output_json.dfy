/** How `res.json` serialises an `Output` (absent fields are omitted), and a decoder
    that recovers the `Output` from the serialised value. */
module OutputJson {
  import opened Wrappers
  import opened OddsTypes
  import Js

  function HorseToJs(h: Horse): Js.Value {
    Js.Obj(map["name" := Js.Str(h.name), "odds" := Js.Str(h.odds)])
  }

  function HorseItems(hs: seq<Horse>): (items: seq<Js.Value>)
    ensures |items| == |hs|
  {
    if hs == [] then [] else [HorseToJs(hs[0])] + HorseItems(hs[1..])
  }

  /** The `horses` array. */
  function HorsesToJs(hs: seq<Horse>): Js.Value {
    Js.Arr(HorseItems(hs))
  }

  function ResultToJs(r: ScrapeResult): Js.Value {
    Js.Obj(map["eventUrl" := Js.Str(r.eventUrl), "horses" := HorsesToJs(r.horses)])
  }

  /** The JSON object sent for an `Output`: one key per field that is set. */
  function OutputToJs(o: Output): (v: Js.Value)
    ensures v.Obj?
    ensures "result" in v.fields <==> o.result.Some?
    ensures "error" in v.fields <==> o.error.Some?
    ensures WellFormed(o) ==> |v.fields| == 1
  {
    var withResult := if o.result.Some? then map["result" := ResultToJs(o.result.value)] else map[];
    var withError := if o.error.Some? then map["error" := Js.Str(o.error.value)] else map[];
    Js.Obj(withResult + withError)
  }

  function StringOf(v: Js.Value): Option<string> {
    if v.Str? then Some(v.s) else None
  }

  function HorseFromJs(v: Js.Value): Option<Horse> {
    if v.Obj? && "name" in v.fields && "odds" in v.fields
       && v.fields["name"].Str? && v.fields["odds"].Str?
    then Some(Horse(v.fields["name"].s, v.fields["odds"].s))
    else None
  }

  function HorsesFromItems(items: seq<Js.Value>): Option<seq<Horse>> {
    if items == [] then Some([])
    else match (HorseFromJs(items[0]), HorsesFromItems(items[1..]))
      case (Some(h), Some(hs)) => Some([h] + hs)
      case _ => None
  }

  function ResultFromJs(v: Js.Value): Option<ScrapeResult> {
    if v.Obj? && "eventUrl" in v.fields && "horses" in v.fields
       && v.fields["eventUrl"].Str? && v.fields["horses"].Arr?
    then match HorsesFromItems(v.fields["horses"].items)
      case Some(hs) => Some(ScrapeResult(v.fields["eventUrl"].s, hs))
      case None => None
    else None
  }

  /** Reads a response body back into an `Output`; `None` when it is not one. */
  function OutputFromJs(v: Js.Value): Option<Output> {
    if !v.Obj? then None
    else
      var result := if "result" in v.fields then ResultFromJs(v.fields["result"]) else None;
      var error := if "error" in v.fields then StringOf(v.fields["error"]) else None;
      if ("result" in v.fields && result.None?) || ("error" in v.fields && error.None?) then None
      else Some(Output(result, error))
  }

  lemma {:induction false} HorsesRoundTrip(hs: seq<Horse>)
    ensures HorsesFromItems(HorseItems(hs)) == Some(hs)
  {
    if hs != [] {
      HorsesRoundTrip(hs[1..]);
      assert HorseItems(hs)[1..] == HorseItems(hs[1..]);
      assert [hs[0]] + hs[1..] == hs;
    }
  }

  /** A client decoding the response body gets back exactly the `Output` that was sent. */
  lemma OutputRoundTrip(o: Output)
    ensures OutputFromJs(OutputToJs(o)) == Some(o)
  {
    if o.result.Some? {
      HorsesRoundTrip(o.result.value.horses);
    }
  }
}
