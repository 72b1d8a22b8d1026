/**
 * The `ContentIFrame2` component: HTML responses go into an iframe, JSON
 * responses get a Twitter-data section followed by the pretty-printed JSON,
 * and anything else renders nothing. The markup is reduced to a datatype;
 * the JSON parser and pretty-printer of serde_json are passed in.
 */
module ContentIFrame2 {
  import opened Optional
  import opened Text
  import opened Classify
  import opened TwitterScan
  import opened JsonValue
  import ContentIFrame3

  /** The Twitter-data section (nested `render_twitter_data`). */
  datatype TwitterSection = TwitterData(screenName: string, isVerified: bool) | NotRecognized

  /** What the component renders. */
  datatype Frame2View =
    | HtmlFrame(srcdoc: string)
    | JsonPanel(twitter: TwitterSection, json: string)
    | Nothing

  /** `render_json`: the pretty-printed document, or the text itself when it is not JSON. */
  function RenderJson(content: string, parse: string -> Option<Json>, pretty: Json -> string): (out: string)
    ensures parse(content).None? ==> out == content
    ensures parse(content).Some? ==> out == pretty(parse(content).value)
  {
    match parse(content)
    case Some(json) => pretty(json)
    case None => content
  }

  /** The nested `render_twitter_data`. */
  function RenderTwitterSection(content: string): (section: TwitterSection)
    ensures section.NotRecognized? <==> !StartsWith(content, UsersPrefix)
    ensures section.TwitterData? ==>
      section.screenName == ExtractScreenName(content) && section.isVerified == ExtractIsVerified(content)
  {
    if StartsWith(content, UsersPrefix) then
      TwitterData(ExtractScreenName(content), ExtractIsVerified(content))
    else
      NotRecognized
  }

  /** The component's output for one parsed response. */
  function View(response: ParsedResponse, parse: string -> Option<Json>, pretty: Json -> string): (view: Frame2View)
    ensures view.HtmlFrame? <==> GetContentType(response).0 == Html
    ensures view.JsonPanel? <==> GetContentType(response).0 == Json
    ensures view.HtmlFrame? ==> view.srcdoc == GetContentType(response).1
    ensures view.JsonPanel? ==>
      view.twitter == RenderTwitterSection(GetContentType(response).1) &&
      view.json == RenderJson(GetContentType(response).1, parse, pretty)
  {
    match GetContentType(response)
    case (Html, contentHtml) => HtmlFrame(contentHtml)
    case (Json, contentJson) => JsonPanel(RenderTwitterSection(contentJson), RenderJson(contentJson, parse, pretty))
    case _ => Nothing
  }

  /** A response the HTTP parser rejects renders nothing. */
  lemma ParseFailureRendersNothing(error: string, parse: string -> Option<Json>, pretty: Json -> string)
    ensures View(ParseFailure(error), parse, pretty) == Nothing
  {
  }

  /** So does a response without a `Content-Type` header. */
  lemma MissingHeaderRendersNothing(body: Option<string>, parse: string -> Option<Json>, pretty: Json -> string)
    ensures View(Parsed(None, body), parse, pretty) == Nothing
  {
  }

  /**
   * The section shows the same record that `ContentIFrame3` renders as text
   * and stores, or stands where that component shows its not-recognized message.
   */
  lemma SectionAgreesWithStoredText(content: string)
    ensures match RenderTwitterSection(content)
      case TwitterData(name, verified) =>
        ContentIFrame3.ReadRecord(ContentIFrame3.RenderTwitterData(content)) == Some((name, verified))
      case NotRecognized =>
        ContentIFrame3.RenderTwitterData(content) == ContentIFrame3.NotRecognizedMessage
  {
    ContentIFrame3.RenderTwitterDataReadsBack(content);
  }

  /**
   * When the pretty-printer's output parses back to the document it came
   * from, rendering an already rendered text changes nothing.
   */
  lemma RenderJsonStable(content: string, parse: string -> Option<Json>, pretty: Json -> string)
    requires forall json :: parse(pretty(json)) == Some(json)
    ensures RenderJson(RenderJson(content, parse, pretty), parse, pretty) == RenderJson(content, parse, pretty)
  {
  }
}
