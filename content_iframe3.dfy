/**
 * The `ContentIFrame3` component: render the Twitter data of a JSON
 * response as text, keep the text on display, and persist it in a browser
 * storage slot so that it is shown again on the next mount.
 */
module ContentIFrame3 {
  import opened Optional
  import opened Text
  import opened Classify
  import opened TwitterScan

  /** The storage slot the component reads on mount and writes on JSON input. */
  const StorageKey: string := "app::twitter_data"
  const NotRecognizedMessage: string := "No Twitter data found " + "or format is not recognized."
  const NonJsonMessage: string := "Non-JSON format or unrecognized data."

  const NameLabel: string := "Screen Name: "
  const FlagLabel: string := "\nIs Verified: "
  const RecordEnd: string := "\n\n"

  /**
   * `format!("Screen Name: {}\nIs Verified: {}\n\n", ...)`: the name label,
   * then the name, then the verified line and the blank line.
   */
  function FormatRecord(name: string, verified: bool): (text: string)
    ensures StartsWith(text, NameLabel) && |NameLabel| + |name| <= |text|
    ensures text[|NameLabel|..|NameLabel| + |name|] == name
    ensures text[|NameLabel| + |name|..] == FlagLabel + BoolText(verified) + RecordEnd
  {
    var text := NameLabel + name + FlagLabel + BoolText(verified) + RecordEnd;
    assert text == NameLabel + name + (FlagLabel + BoolText(verified) + RecordEnd);
    text
  }

  /**
   * `render_twitter_data`: one record, formatted, or the not-recognized
   * message. The rendered text is never empty and never the non-JSON message.
   */
  function RenderTwitterData(content: string): (text: string)
    ensures text == NotRecognizedMessage <==> !StartsWith(content, UsersPrefix)
    ensures text != "" && text != NonJsonMessage
  {
    if StartsWith(content, UsersPrefix) then
      var text := FormatRecord(ExtractScreenName(content), ExtractIsVerified(content));
      assert text[2] == NameLabel[2];
      assert text[2] != NonJsonMessage[2] && text[2] != NotRecognizedMessage[2];
      text
    else
      assert NotRecognizedMessage[2] != NonJsonMessage[2];
      NotRecognizedMessage
  }

  /**
   * Reads a formatted record back: the text between the name label and the
   * verified tail, and which tail it has.
   */
  function ReadRecord(text: string): Option<(string, bool)> {
    var trueTail := FlagLabel + "true" + RecordEnd;
    var falseTail := FlagLabel + "false" + RecordEnd;
    if StartsWith(text, NameLabel) && |text| >= |NameLabel| + |trueTail| && text[|text| - |trueTail|..] == trueTail then
      Some((text[|NameLabel|..|text| - |trueTail|], true))
    else if StartsWith(text, NameLabel) && |text| >= |NameLabel| + |falseTail| && text[|text| - |falseTail|..] == falseTail then
      Some((text[|NameLabel|..|text| - |falseTail|], false))
    else
      None
  }

  /** Every formatted record reads back as the name and flag it was made from. */
  lemma ReadFormattedRecord(name: string, verified: bool)
    ensures ReadRecord(FormatRecord(name, verified)) == Some((name, verified))
  {
    var text := FormatRecord(name, verified);
    var tail := FlagLabel + BoolText(verified) + RecordEnd;
    assert text == NameLabel + name + tail;
    assert text[..|NameLabel|] == NameLabel;
    assert text[|text| - |tail|..] == tail;
    assert text[|NameLabel|..|text| - |tail|] == name;
    if !verified {
      var trueTail := FlagLabel + "true" + RecordEnd;
      assert text[|text| - |trueTail|] == tail[1];
    }
  }

  /** The not-recognized message is not a formatted record. */
  lemma NotRecognizedIsNoRecord()
    ensures ReadRecord(NotRecognizedMessage) == None
  {
    assert NotRecognizedMessage[0] != NameLabel[0];
  }

  /**
   * The rendered text reads back as the screen name and verified flag the two
   * extractors find when the content has the users prefix, and as no record
   * otherwise.
   */
  lemma RenderTwitterDataReadsBack(content: string)
    ensures ReadRecord(RenderTwitterData(content)) ==
      if StartsWith(content, UsersPrefix) then Some((ExtractScreenName(content), ExtractIsVerified(content))) else None
  {
    if StartsWith(content, UsersPrefix) {
      ReadFormattedRecord(ExtractScreenName(content), ExtractIsVerified(content));
      NotRecognizedIsNoRecord();
    } else {
      NotRecognizedIsNoRecord();
    }
  }

  /**
   * A users array whose head object starts with the screen name and the
   * verified flag renders as that name, with the flag as the scanner reads it.
   */
  lemma RenderSingleUser(name: string, verified: bool, tail: string)
    requires '"' !in name
    ensures RenderTwitterData(SingleUserJson(name, verified, tail)) ==
      FormatRecord(name, verified && AllWhitespace(Before(tail, ',')))
  {
    var content := SingleUserJson(name, verified, tail);
    assert content[..|UsersPrefix|] == UserFront()[..|UsersPrefix|] == UsersPrefix;
    ScanSingleUser(name, verified, tail);
  }

  /** What the component shows and what the browser storage holds. */
  datatype FrameState = FrameState(display: string, storage: map<string, string>)

  /** `load_from_storage`: the text stored under `key`; a read that fails reads as absent. */
  function LoadFromStorage(storage: map<string, string>, key: string): (r: Option<string>)
    ensures r.Some? <==> key in storage
    ensures r.Some? ==> r.value == storage[key]
  {
    if key in storage then Some(storage[key]) else None
  }

  /**
   * `save_to_storage`: an accepted write puts `data` under `key`; a write
   * that `set` refuses (the quota is full) is dropped. No other key changes.
   */
  function SaveToStorage(storage: map<string, string>, key: string, data: string, accepted: bool): (r: map<string, string>)
    ensures accepted ==> key in r && r[key] == data
    ensures !accepted ==> r == storage
    ensures forall k :: k != key ==> (k in r <==> k in storage) && (k in storage ==> r[k] == storage[k])
  {
    if accepted then storage[key := data] else storage
  }

  /**
   * `data_to_set` in the update effect: nothing for HTML, the rendering for
   * JSON and the non-JSON message otherwise; what it holds is never empty.
   */
  function DataToSet(category: ContentType, content: string): (r: Option<string>)
    ensures r.None? <==> category == Html
    ensures category == Json ==> r == Some(RenderTwitterData(content))
    ensures category == Other ==> r == Some(NonJsonMessage)
    ensures r.Some? ==> r.value != ""
  {
    match category
    case Json => Some(RenderTwitterData(content))
    case Html => None
    case Other => Some(NonJsonMessage)
  }

  /** The mount effect: show what the slot holds, if anything; storage is only read. */
  function AfterMount(s: FrameState): (t: FrameState)
    ensures t.storage == s.storage
    ensures StorageKey in s.storage ==> t.display == s.storage[StorageKey]
    ensures StorageKey !in s.storage ==> t == s
  {
    match LoadFromStorage(s.storage, StorageKey)
    case Some(loaded) => FrameState(loaded, s.storage)
    case None => s
  }

  /**
   * The update effect for one response: JSON writes its rendering to the
   * slot (the write may be refused) and asks to show it, HTML does nothing,
   * anything else asks to show the non-JSON message; the display is set only
   * when the text differs from what is shown.
   */
  function AfterUpdate(s: FrameState, response: ParsedResponse, accepted: bool): (t: FrameState)
    ensures forall key :: key != StorageKey ==>
      (key in t.storage <==> key in s.storage) && (key in s.storage ==> t.storage[key] == s.storage[key])
  {
    var (category, content) := GetContentType(response);
    var storage :=
      if category == Json then SaveToStorage(s.storage, StorageKey, RenderTwitterData(content), accepted)
      else s.storage;
    var display :=
      match DataToSet(category, content)
      case Some(data) => if s.display != data then data else s.display
      case None => s.display;
    FrameState(display, storage)
  }

  /** The update effect calls `set` on the display state, which schedules a re-render. */
  predicate SetsDisplay(display: string, response: ParsedResponse) {
    var (category, content) := GetContentType(response);
    DataToSet(category, content).Some? && DataToSet(category, content).value != display
  }

  /** An HTML response changes neither the display nor the slot. */
  lemma HtmlChangesNothing(s: FrameState, response: ParsedResponse, accepted: bool)
    requires GetContentType(response).0 == Html
    ensures AfterUpdate(s, response, accepted) == s
    ensures !SetsDisplay(s.display, response)
  {
  }

  /** Any other response shows the non-JSON message and leaves the slot alone. */
  lemma OtherShowsFallback(s: FrameState, response: ParsedResponse, accepted: bool)
    requires GetContentType(response).0 == Other
    ensures AfterUpdate(s, response, accepted) == FrameState(NonJsonMessage, s.storage)
  {
  }

  /**
   * A JSON response shows the rendering of its body; when storage accepts
   * the write the slot holds that same text, otherwise the slot is unchanged.
   */
  lemma JsonShowsAndStoresRendering(s: FrameState, response: ParsedResponse, accepted: bool)
    requires GetContentType(response).0 == Json
    ensures var t := AfterUpdate(s, response, accepted);
      t.display == RenderTwitterData(GetContentType(response).1) &&
      t.display != NonJsonMessage &&
      (accepted ==> LoadFromStorage(t.storage, StorageKey) == Some(t.display)) &&
      (!accepted ==> t.storage == s.storage)
  {
  }

  /**
   * Applying the same response twice leaves display and storage as the
   * first application left them, and the second one sets nothing.
   */
  lemma UpdateIdempotent(s: FrameState, response: ParsedResponse, accepted: bool)
    ensures AfterUpdate(AfterUpdate(s, response, accepted), response, accepted) == AfterUpdate(s, response, accepted)
    ensures !SetsDisplay(AfterUpdate(s, response, accepted).display, response)
  {
  }

  /**
   * After a JSON response whose write was accepted, a freshly mounted
   * component shows the text the old one was showing.
   */
  lemma RemountShowsStoredRendering(s: FrameState, response: ParsedResponse)
    requires GetContentType(response).0 == Json
    ensures var t := AfterUpdate(s, response, true);
      AfterMount(FrameState("", t.storage)).display == t.display
  {
  }

  /**
   * On the first render both effects run against the state as rendered:
   * the mount effect sets the stored text, and the update effect compares
   * its text with the empty initial display, so its set wins whenever that
   * text is not empty.
   */
  function FirstRenderAsScheduled(persisted: map<string, string>, response: ParsedResponse, accepted: bool): FrameState {
    var (category, content) := GetContentType(response);
    var storage :=
      if category == Json then SaveToStorage(persisted, StorageKey, RenderTwitterData(content), accepted)
      else persisted;
    var mounted := match LoadFromStorage(persisted, StorageKey) case Some(loaded) => loaded case None => "";
    var display :=
      match DataToSet(category, content)
      case Some(data) => if data != "" then data else mounted
      case None => mounted;
    FrameState(display, storage)
  }

  /**
   * Running the mount effect and then the update effect one after the other
   * ends in the same state as the first render's scheduling, because the
   * text the update effect asks to show is never empty.
   */
  lemma SequentialEffectsMatchFirstRender(persisted: map<string, string>, response: ParsedResponse, accepted: bool)
    ensures AfterUpdate(AfterMount(FrameState("", persisted)), response, accepted) ==
      FirstRenderAsScheduled(persisted, response, accepted)
  {
  }

  /** The component: its display state and the browser storage it reads and writes. */
  class Frame3 {
    var display: string
    var storage: map<string, string>

    function State(): FrameState
      reads this
    {
      FrameState(display, storage)
    }

    /** `use_state(|| String::new())` over the storage the browser already has. */
    constructor (persisted: map<string, string>)
      ensures State() == FrameState("", persisted)
    {
      display := "";
      storage := persisted;
    }

    /** The mount effect. */
    method Mount()
      modifies this
      ensures State() == AfterMount(old(State()))
    {
      var loaded := LoadFromStorage(storage, StorageKey);
      if loaded.Some? {
        display := loaded.value;
      }
    }

    /**
     * The update effect for the response the component was given;
     * `accepted` says whether storage takes the write. Reports whether the
     * display was set.
     */
    method Update(response: ParsedResponse, accepted: bool) returns (setDisplay: bool)
      modifies this
      ensures State() == AfterUpdate(old(State()), response, accepted)
      ensures setDisplay == SetsDisplay(old(display), response)
    {
      var (category, content) := GetContentType(response);
      var dataToSet: Option<string> := None;
      match category {
        case Json =>
          var data := RenderTwitterData(content);
          storage := SaveToStorage(storage, StorageKey, data, accepted);
          dataToSet := Some(data);
        case Html =>
        case Other =>
          dataToSet := Some(NonJsonMessage);
      }
      setDisplay := false;
      if dataToSet.Some? && display != dataToSet.value {
        display := dataToSet.value;
        setDisplay := true;
      }
    }
  }
}
