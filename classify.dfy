/**
 * Content classification of a captured HTTP response (`get_content_type`,
 * written out identically in content_iframe_3.rs and content_iframe_2.rs).
 * HTTP parsing itself belongs to an outside library; its outcome, with the
 * `Content-Type` lookup already done and the texts already decoded, is the
 * input here.
 */
module Classify {
  import opened Optional
  import opened Text

  datatype ContentType = Html | Json | Other

  /** What the HTTP parser hands back for one response. */
  datatype ParsedResponse =
    | ParseFailure(error: string)
    | Parsed(contentType: Option<string>, body: Option<string>)

  const HtmlMime: string := "text/html"
  const JsonMime: string := "application/json"

  /** The category and the body text the rest of the pipeline works on. */
  function GetContentType(response: ParsedResponse): (r: (ContentType, string))
    ensures response.ParseFailure? ==> r == (Other, response.error)
    ensures response.Parsed? && response.body.None? ==> r.1 == ""
    ensures response.Parsed? && response.body.Some? ==> r.1 == response.body.value
    ensures r.0 == Html <==>
      response.Parsed? && response.contentType.Some? && Contains(response.contentType.value, HtmlMime)
    ensures r.0 == Json <==>
      response.Parsed? && response.contentType.Some? &&
      !Contains(response.contentType.value, HtmlMime) && Contains(response.contentType.value, JsonMime)
  {
    match response
    case ParseFailure(e) => (Other, e)
    case Parsed(header, body) =>
      var category :=
        match header
        case None => Other
        case Some(value) =>
          if Contains(value, HtmlMime) then Html
          else if Contains(value, JsonMime) then Json
          else Other;
      (category, match body case None => "" case Some(b) => b)
  }

  /** An occurrence stays an occurrence when text is added on either side. */
  lemma ContainsInContext(before: string, s: string, after: string, key: string)
    requires Contains(s, key)
    ensures Contains(before + s + after, key)
  {
    var j: nat :| OccursAt(s, key, j);
    var t := before + s + after;
    assert t[|before| + j..|before| + j + |key|] == s[j..j + |key|];
    assert OccursAt(t, key, |before| + j);
  }

  /**
   * Media-type parameters after `application/json` keep the response JSON,
   * unless they themselves bring in `text/html`.
   */
  lemma ParametersKeepJson(parameters: string, body: Option<string>)
    requires !Contains(JsonMime + parameters, HtmlMime)
    ensures GetContentType(Parsed(Some(JsonMime + parameters), body)).0 == Json
  {
    assert OccursAt(JsonMime, JsonMime, 0);
    ContainsInContext([], JsonMime, parameters, JsonMime);
    assert [] + JsonMime + parameters == JsonMime + parameters;
  }

  /** A header naming both types is HTML: `text/html` is tested first. */
  lemma HtmlBeforeJson(header: string, body: Option<string>)
    requires Contains(header, HtmlMime) && Contains(header, JsonMime)
    ensures GetContentType(Parsed(Some(header), body)).0 == Html
  {
  }
}
