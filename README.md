# Content pipeline of tlsn-proof_viz, modelled in Dafny

The viewer shows a captured HTTP response. Three Yew components hold the
logic modelled here:

- `ContentIFrame3` classifies the response by its `Content-Type` header. For
  JSON it renders the Twitter user data as text with a lenient text scanner,
  writes that text to the browser storage slot `app::twitter_data` and shows
  it. For anything that is neither JSON nor HTML it shows a fallback message.
  On mount it shows what the slot holds.
- `ContentIFrame2` uses the same classification and the same scanner. It
  renders HTML in an iframe, and JSON as a Twitter-data section followed by
  the pretty-printed document.
- `PassportStamps` parses the JSON of a response from `api.twitter.com`,
  walks its `users` array and shows the screen name and verified flag of the
  last user.

Modules, one per file:

- `Optional` (optional.dfy) is Rust's `Option`.
- `Text` (text.dfy) holds the `str` operations the scanner uses: `starts_with`,
  `find`, `contains`, `split(c).next()` and `trim`. Each has a contract that
  characterises it, for example the first occurrence or the text before the
  first delimiter.
- `Classify` (classify.dfy) is `get_content_type` over the outcome of the HTTP
  parser.
- `TwitterScan` (twitter_scan.dfy) holds `extract_screen_name` and
  `extract_is_verified`, which both iframe files contain word for word. It
  also holds lemmas that run the scanner over a users array that starts with
  one user object.
- `ContentIFrame3` (content_iframe3.dfy) holds `render_twitter_data`, a reader
  that recovers the record from the rendered text, and the mount and update
  effects. The effects are written twice: as functions over a `FrameState`
  value, and as the class `Frame3` with `display` and `storage` fields, whose
  methods are proved equal to those functions.
- `ContentIFrame2` (content_iframe2.dfy) holds the view of the second
  component as a datatype.
- `JsonValue` (json_value.dfy) and `PassportStamps` (passport_stamps.dfy)
  hold the parsed JSON value and the walk over the users. The walk is a
  method with a loop, proved equal to a specification function.

Inputs that come from outside the core become parameters:

- the HTTP parser's result, with the `Content-Type` lookup done and the texts
  decoded (`ParsedResponse`);
- whether browser storage accepts a write (`accepted`);
- the results of `serde_json::from_str`, and the pretty-printer as a function;
- the value the Yew state holder has before a render (`current`).

Behaviour of the code worth knowing:

- Empty response bytes are not treated specially: they go to the HTTP parser
  like any other input. The model assumes the parser rejects them. They are
  then classified `Other`, and the fallback message is shown.
- The scanner cuts the verified value at the next `,` only.
  `{"users":[{"screen_name":"alice","is_verified":true}]}` therefore scans as
  `alice` with the flag **false**, because `true}]}` does not trim to `true`.
  `TwitterScan.VerifiedClosingObjectReadsFalse` proves this.
  `TwitterScan.ScanSingleUser` states the general rule.
- `PassportStamps` keeps a single record, which the walk overwrites for each
  user, so the last user is the one shown. The markup reads the record as it
  was when the render began. A fresh component's first render therefore shows
  the fallback text, and the last user appears from the next render on
  (`PassportStamps.TwoUsersShowsLast`).
- The slot is written on every JSON response, even when the text is
  unchanged. Only the display update is skipped when nothing changed. The
  write stores the same value, so the storage contents are still idempotent
  (`ContentIFrame3.UpdateIdempotent`).
- An `Other` response never writes the slot.

## Model

| member | source | states |
|---|---|---|
| `Text.StartsWith` | src/components/content_iframe_3.rs:85 | `starts_with` holds exactly when the text begins with the prefix |
| `Text.Find` | src/components/content_iframe_3.rs:102 | `str::find`: a result is an occurrence of the key with no occurrence before it; `None` exactly when the key occurs nowhere |
| `Text.FindFrom` | src/components/content_iframe_3.rs:102 | the search from a position returns the first occurrence at or after it, and only returns `None` if there is none |
| `Text.Contains` | src/components/content_iframe_3.rs:41-42 | `str::contains` holds exactly when some occurrence exists |
| `Text.Before` | src/components/content_iframe_3.rs:104 | `split(d).next()` is a prefix of the text, contains no `d`, and is followed by `d` unless it is the whole text |
| `Text.TrimStart` | src/components/content_iframe_3.rs:115 | the result is a suffix, everything removed is white space, and the result does not start with white space |
| `Text.TrimEnd` | src/components/content_iframe_3.rs:115 | the result is a prefix, everything removed is white space, and the result does not end with white space |
| `Text.Trim` | src/components/content_iframe_3.rs:115 | `trim()` is no longer than the text and has no white space at either end |
| `Text.IsWhitespace` | src/components/content_iframe_3.rs:115 | space, tab, newline and carriage return are white space; ASCII letters and digits are not (the full Unicode White_Space set is the body) |
| `Text.TrimStartAt` | src/components/content_iframe_3.rs:115 | leading white space up to a non-white character is exactly what is removed |
| `Text.TrimEndAt` | src/components/content_iframe_3.rs:115 | trailing white space after a non-white character is exactly what is removed |
| `Text.TrimmedIsPadded` | src/components/content_iframe_3.rs:115 | a text that trims to a word is that word with white space around it |
| `Text.PaddedTrims` | src/components/content_iframe_3.rs:115 | a word without white space at its ends, padded with white space, trims back to the word |
| `Text.TrimEqualsIff` | src/components/content_iframe_3.rs:115 | `trim() == w` holds exactly when the text is `w` padded with white space (both directions) |
| `Classify.GetContentType` | src/components/content_iframe_3.rs:31-57 | a parse failure gives `Other` with the error text as body; a missing body gives `""`; `Html` iff the header contains `text/html`; `Json` iff it contains `application/json` and not `text/html`; a missing header gives `Other`. The same function is at content_iframe_2.rs:29-55 |
| `Classify.ContainsInContext` | src/components/content_iframe_3.rs:41-42 | a substring match survives text added before or after it |
| `Classify.ParametersKeepJson` | src/components/content_iframe_3.rs:42 | `application/json` followed by parameters such as `; charset=utf-8` is still `Json`, unless the parameters bring in `text/html` |
| `Classify.HtmlBeforeJson` | src/components/content_iframe_3.rs:40-44 | a header containing both media types is `Html` |
| `TwitterScan.BoolText` | src/components/content_iframe_3.rs:91 | a flag is printed as `true` exactly when it is true |
| `TwitterScan.ExtractScreenName` | src/components/content_iframe_3.rs:99-106 | `""` when the key is absent; otherwise the text right after the first `"screen_name":"` up to the next `"` or the end; never contains `"` (also content_iframe_2.rs:85-92) |
| `TwitterScan.VerifiedField` | src/components/content_iframe_3.rs:109-114 | absent exactly when the key is absent; otherwise the text after the first `"is_verified":` up to the next `,` or the end |
| `TwitterScan.ExtractIsVerified` | src/components/content_iframe_3.rs:109-118 | true iff the key is present and that text is `true` padded with white space; false when the key is absent (also content_iframe_2.rs:95-104) |
| `TwitterScan.BeforeSkips` | src/components/content_iframe_3.rs:104 | cutting at a delimiter passes over a leading part that does not contain it |
| `TwitterScan.OccursAtChar` | src/components/content_iframe_3.rs:102 | an occurrence places each character of the key |
| `TwitterScan.FirstScreenNameKey` | src/components/content_iframe_3.rs:101-102 | in a users array that starts with one user object, the first screen-name key is at position 11 |
| `TwitterScan.FirstVerifiedKey` | src/components/content_iframe_3.rs:111-112 | if the name has no quote, the first verified key is right after the name |
| `TwitterScan.SingleUserScreenName` | src/components/content_iframe_3.rs:99-106 | the scanner reads back a screen name that has no quote |
| `TwitterScan.SingleUserVerifiedField` | src/components/content_iframe_3.rs:109-114 | for a screen name without a quote, the compared text is the flag followed by the tail up to its first comma |
| `TwitterScan.ScanSingleUser` | src/components/content_iframe_3.rs:99-118 | for one user object at the head of the array and a screen name without a quote, the name is found, and the flag reads true iff it is `true` and only white space follows it up to the next comma |
| `TwitterScan.PaddedFlag` | src/components/content_iframe_3.rs:115 | a printed flag followed by more text is padded `true` iff the flag is true and the rest is white space |
| `TwitterScan.VerifiedClosingObjectReadsFalse` | src/components/content_iframe_3.rs:109-118 | `{"users":[{"screen_name":"alice","is_verified":true}]}` scans as `alice` with the flag false |
| `TwitterScan.VerifiedBeforeCommaReadsFlag` | src/components/content_iframe_3.rs:109-118 | for a screen name without a quote, a flag directly followed by a comma is read as written |
| `ContentIFrame3.FormatRecord` | src/components/content_iframe_3.rs:91 | the record is the name label, the name, then the verified line with `true` or `false` and a blank line |
| `ContentIFrame3.ReadFormattedRecord` | src/components/content_iframe_3.rs:91 | every formatted record reads back as the name and flag it was made from |
| `ContentIFrame3.NotRecognizedIsNoRecord` | src/components/content_iframe_3.rs:94 | the not-recognized message does not read as a record |
| `ContentIFrame3.RenderTwitterData` | src/components/content_iframe_3.rs:82-96 | the output is the not-recognized message iff the content lacks the `{"users":[` prefix; it is never empty and never the non-JSON message |
| `ContentIFrame3.RenderTwitterDataReadsBack` | src/components/content_iframe_3.rs:82-96 | with the prefix, the output reads back as the two extractors' results; without it, as no record |
| `ContentIFrame3.RenderSingleUser` | src/components/content_iframe_3.rs:82-96 | a users array starting with one user whose screen name has no quote renders that name and the flag as scanned |
| `ContentIFrame3.LoadFromStorage` | src/components/content_iframe_3.rs:13-16 | the stored text if the key is present, nothing otherwise |
| `ContentIFrame3.SaveToStorage` | src/components/content_iframe_3.rs:18-23 | an accepted write puts the text under the key; a refused write changes nothing; no other key changes |
| `ContentIFrame3.DataToSet` | src/components/content_iframe_3.rs:147-170 | nothing exactly for HTML; the rendering for JSON; the non-JSON message otherwise; never an empty text |
| `ContentIFrame3.AfterMount` | src/components/content_iframe_3.rs:130-135 | storage is unchanged; the display becomes the slot's text when there is one and stays as it was otherwise |
| `ContentIFrame3.AfterUpdate` | src/components/content_iframe_3.rs:142-179 | the update effect changes no storage key other than `app::twitter_data` |
| `ContentIFrame3.HtmlChangesNothing` | src/components/content_iframe_3.rs:160-162 | an HTML response changes neither display nor storage and sets nothing |
| `ContentIFrame3.OtherShowsFallback` | src/components/content_iframe_3.rs:163-169 | any other response shows the non-JSON message and leaves storage unchanged |
| `ContentIFrame3.JsonShowsAndStoresRendering` | src/components/content_iframe_3.rs:150-159 | a JSON response shows the rendering of its body; an accepted write puts the same text in the slot; a refused write leaves storage unchanged |
| `ContentIFrame3.UpdateIdempotent` | src/components/content_iframe_3.rs:172-176 | the same response applied twice gives the same state as once, and the second application does not set the display |
| `ContentIFrame3.RemountShowsStoredRendering` | src/components/content_iframe_3.rs:128-135 | a fresh component mounted after an accepted JSON write shows the same text as the old one |
| `ContentIFrame3.SequentialEffectsMatchFirstRender` | src/components/content_iframe_3.rs:123-180 | running the mount and update effects one after the other ends where Yew's first render ends; in Yew both effects read the display as it was rendered |
| `ContentIFrame3.Frame3.constructor` | src/components/content_iframe_3.rs:123 | the display starts empty and the storage is what the browser holds |
| `ContentIFrame3.Frame3.Mount` | src/components/content_iframe_3.rs:128-136 | the display becomes the stored text if the slot holds one; otherwise it is unchanged |
| `ContentIFrame3.Frame3.Update` | src/components/content_iframe_3.rs:139-180 | the new state is `AfterUpdate` of the old one; it reports a display update exactly when some text is to be shown and differs from the current display |
| `ContentIFrame2.RenderJson` | src/components/content_iframe_2.rs:13-20 | text that does not parse is returned unchanged; parsed text is returned pretty-printed |
| `ContentIFrame2.RenderJsonStable` | src/components/content_iframe_2.rs:13-20 | if pretty-printed output parses back to its document, rendering twice equals rendering once |
| `ContentIFrame2.RenderTwitterSection` | src/components/content_iframe_2.rs:61-82 | not recognized iff the content lacks the users prefix; otherwise the name and flag come from the two extractors |
| `ContentIFrame2.View` | src/components/content_iframe_2.rs:107-132 | an iframe iff the category is `Html`, with the body as `srcdoc`; a JSON panel iff `Json`, holding the Twitter section and `render_json` of the same body; nothing otherwise |
| `ContentIFrame2.ParseFailureRendersNothing` | src/components/content_iframe_2.rs:53 | a response the parser rejects renders nothing |
| `ContentIFrame2.MissingHeaderRendersNothing` | src/components/content_iframe_2.rs:34-36 | a response without `Content-Type` renders nothing |
| `ContentIFrame2.SectionAgreesWithStoredText` | src/components/content_iframe_2.rs:61-82 | the section shows exactly the record that `ContentIFrame3` renders and stores, or stands where it shows the not-recognized message |
| `JsonValue.Get` | src/components/passport_stamps.rs:22 | `get` finds a member of an object, and nothing for any other kind of value |
| `JsonValue.AsStr` | src/components/passport_stamps.rs:24 | `as_str` gives the text of a string value and nothing for any other kind |
| `JsonValue.AsBool` | src/components/passport_stamps.rs:25 | `as_bool` gives the flag of a boolean value and nothing for any other kind |
| `JsonValue.AsArray` | src/components/passport_stamps.rs:22 | `as_array` gives the elements of an array value and nothing for any other kind |
| `PassportStamps.Users` | src/components/passport_stamps.rs:22 | the elements of the `users` member exactly when the document is an object whose `users` member is an array |
| `PassportStamps.Summarize` | src/components/passport_stamps.rs:24-25 | the screen name is the string member or `""`; the flag is true only for a boolean `true` member |
| `PassportStamps.Selected` | src/components/passport_stamps.rs:15-33 | off the Twitter domain, on a parse failure, or without a `users` array, the holder keeps its value; otherwise it holds the last user, or keeps its value when the array is empty |
| `PassportStamps.UpdateData` | src/components/passport_stamps.rs:13-33 | the loop over the users leaves the holder equal to `Selected` |
| `PassportStamps.Display` | src/components/passport_stamps.rs:35-44 | the fallback line iff no data; otherwise the screen-name and verified lines |
| `PassportStamps.Render` | src/components/passport_stamps.rs:12-45 | one render shows the lines of the holder as it was when the render began and leaves the holder equal to `Selected` |
| `PassportStamps.SelectedFixedPoint` | src/components/passport_stamps.rs:13-33 | walking the same users again leaves the holder as the first walk did |
| `PassportStamps.RendersSettle` | src/components/passport_stamps.rs:13-36 | after any positive number of renders with the same properties the holder is what the first walk left |
| `PassportStamps.OtherDomainShowsFallback` | src/components/passport_stamps.rs:15 | for any other server domain the holder of a fresh component stays empty, so every render shows `No Twitter data available. :(` |
| `PassportStamps.NoUsersLeavesDataUnset` | src/components/passport_stamps.rs:16-32 | unparsable JSON, a missing or non-array `users`, or an empty array leaves the data as it was |
| `PassportStamps.LastUserWins` | src/components/passport_stamps.rs:23-28 | the last element of `users` is the one kept |
| `PassportStamps.MalformedUserDefaults` | src/components/passport_stamps.rs:24-25 | a user that is not an object, or has no string or boolean members, shows as `""` and false |
| `PassportStamps.TwoUsersShowsLast` | src/components/passport_stamps.rs:23-40 | for alice and bob, the first render of a fresh component shows the fallback text and every later render shows only bob's lines |

## Left out

- HTTP parsing (`spansy::http::parse_response`) is an outside library. Its result, including the `Content-Type` lookup and that lookup's case rules, is an input.
- `String::from_utf8_lossy` is not modelled: header value and body are already-decoded strings. Positions count characters where Rust counts bytes; both pick the same places in the same text.
- `serde_json::from_str`, `to_string` and `to_string_pretty` are outside libraries. Parse results and the pretty-printer are inputs. Number values are kept as their literal text.
- Browser storage is a `map<string, string>`. A write that `set` refuses, for example because the quota is full, is dropped and leaves the map unchanged. A failed read reads as absent, as `unwrap_or_default` makes it. `LocalStorage::raw()` belongs to gloo and is not part of this model, so what happens when the browser offers no storage at all is not modelled.
- The Yew machinery is not modelled: `use_state`, the scheduling of `use_effect`, re-rendering and the `html!` markup. Views are datatypes or lists of lines. `ContentIFrame3.Frame3.Update` reports whether it set the display, which is the point where Yew schedules a re-render.
- ContentIFrame3.Frame3.Update: compares with the display as the methods left it, not with the value captured at render time. The two orders agree (`ContentIFrame3.SequentialEffectsMatchFirstRender`).
- Syntax highlighting through `wasm_bindgen` and Prism, and the `gloo` console logging, have no effect on the data.
- The commented-out serde-based `render_twitter_data` in content_iframe_3.rs is dead code and is not modelled.
- TwitterScan.ScanSingleUser: covers only screen names without a quote, as do the single-user lemmas built on it. Twitter screen names never contain one.
- PassportStamps.TwoUsersShowsLast: the lines it states for renders after the first are what the re-render shows. Each render calls `set` during the walk, and the `use_state` setter schedules a re-render whether or not the value changed, so nothing in the source stops the renders. The model counts renders with `HolderAfter` and does not capture that the sequence never stops.
