/**
 * The lenient text scanner for Twitter user data (`extract_screen_name`,
 * `extract_is_verified`). Both iframe components carry the same two
 * extractors, so they are defined once here. The scan never parses JSON: it
 * looks for the first occurrence of a key and cuts the text after it at a
 * delimiter.
 */
module TwitterScan {
  import opened Optional
  import opened Text

  const UsersPrefix: string := "{\"users\":["
  const ScreenNameKey: string := "\"screen_name\":\""
  const VerifiedKey: string := "\"is_verified\":"

  /** Rust's `Display` for `bool`. */
  function BoolText(b: bool): (s: string)
    ensures s == "true" <==> b
  {
    if b then "true" else "false"
  }

  /**
   * The text between the first `"screen_name":"` and the next `"`, or the
   * empty string when the key is absent.
   */
  function ExtractScreenName(content: string): (name: string)
    ensures '"' !in name
    ensures Find(content, ScreenNameKey).None? ==> name == ""
    ensures Find(content, ScreenNameKey).Some? ==>
      var start := Find(content, ScreenNameKey).value + |ScreenNameKey|;
      start <= |content| && name <= content[start..] &&
      (start + |name| == |content| || content[start + |name|] == '"')
  {
    match Find(content, ScreenNameKey)
    case None => ""
    case Some(k) => Before(content[k + |ScreenNameKey|..], '"')
  }

  /** The text after the first `"is_verified":` up to the next `,`, if the key occurs. */
  function VerifiedField(content: string): (field: Option<string>)
    ensures field.None? <==> Find(content, VerifiedKey).None?
    ensures field.Some? ==>
      var start := Find(content, VerifiedKey).value + |VerifiedKey|;
      start <= |content| && field.value <= content[start..] && ',' !in field.value &&
      (start + |field.value| == |content| || content[start + |field.value|] == ',')
  {
    match Find(content, VerifiedKey)
    case None => None
    case Some(k) => Some(Before(content[k + |VerifiedKey|..], ','))
  }

  /**
   * True exactly when the text after the first `"is_verified":`, cut at the
   * next `,`, is `true` with nothing but white space around it; false when
   * the key is absent.
   */
  function ExtractIsVerified(content: string): (verified: bool)
    ensures verified <==> VerifiedField(content).Some? && PaddedBy(VerifiedField(content).value, "true")
  {
    match VerifiedField(content)
    case None => false
    case Some(field) =>
      TrimEqualsIff(field, "true");
      Trim(field) == "true"
  }

  /** Cutting at `d` passes over a leading part that has no `d` in it. */
  lemma {:induction false} BeforeSkips(a: string, b: string, d: char)
    requires d !in a
    ensures Before(a + b, d) == a + Before(b, d)
    decreases |a|
  {
    if a == [] {
      assert a + b == b;
    } else {
      assert (a + b)[0] == a[0] && (a + b)[1..] == a[1..] + b;
      BeforeSkips(a[1..], b, d);
    }
  }

  /** The text in front of one user's screen name, in pieces none of which holds a colon. */
  const FrontBeforeColon: string := "{\"users\""
  const ScreenNameField: string := "\"screen_name\""

  /** `{"users":[{"screen_name":"`: the users prefix, an object brace and the screen-name key. */
  function UserFront(): (front: string)
    ensures front == UsersPrefix + "{" + ScreenNameKey
    ensures |front| == 26 && front[11..] == ScreenNameKey && front[12] == 's'
    ensures forall x :: 0 <= x < |front| && front[x] == ':' ==> x == 8 || x == 24
  {
    var prefix := FrontBeforeColon + ":" + "[";
    var key := ScreenNameField + ":" + "\"";
    assert prefix == UsersPrefix;
    assert key == ScreenNameKey;
    assert ':' !in FrontBeforeColon && ':' !in ScreenNameField;
    var front := prefix + "{" + key;
    assert forall x :: 0 <= x < 8 ==> front[x] == FrontBeforeColon[x];
    assert forall x :: 11 <= x < 24 ==> front[x] == ScreenNameField[x - 11];
    front
  }

  /**
   * One user object at the head of the users array:
   * `{"users":[{"screen_name":"<name>","is_verified":<flag><tail>`.
   */
  function SingleUserJson(name: string, verified: bool, tail: string): string {
    UserFront() + (name + AfterName(verified, tail))
  }

  /** `","is_verified":<flag><tail>`: what follows the screen name. */
  function AfterName(verified: bool, tail: string): (after: string)
    ensures after == "\"," + (VerifiedKey + (BoolText(verified) + tail))
    ensures after[0] == '"' && after[2..] == VerifiedKey + (BoolText(verified) + tail)
    ensures |after| > 16 && forall k :: 0 <= k < 15 ==> after[k] != ':'
  {
    var after := "\"," + (VerifiedKey + (BoolText(verified) + tail));
    assert ':' !in VerifiedKey[..13];
    assert forall k :: 2 <= k < 15 ==> after[k] == VerifiedKey[..13][k - 2];
    after
  }

  /** In such a text the screen-name key first occurs right after the object brace. */
  lemma FirstScreenNameKey(name: string, verified: bool, tail: string)
    ensures Find(SingleUserJson(name, verified, tail), ScreenNameKey) == Some(11)
  {
    var content := SingleUserJson(name, verified, tail);
    var front := UserFront();
    assert content[..26] == front;
    assert content[11..26] == ScreenNameKey;
    assert OccursAt(content, ScreenNameKey, 11);
    forall j: nat | j < 11
      ensures !OccursAt(content, ScreenNameKey, j)
    {
      OccursAtChar(content, ScreenNameKey, j, 13);
      assert content[j + 13] == front[j + 13];
    }
  }

  /** Which piece each character of the single-user text comes from. */
  lemma SingleUserCharAt(name: string, verified: bool, tail: string, x: nat)
    requires x < |SingleUserJson(name, verified, tail)|
    ensures x < 26 ==> SingleUserJson(name, verified, tail)[x] == UserFront()[x]
    ensures 26 <= x < 26 + |name| ==> SingleUserJson(name, verified, tail)[x] == name[x - 26]
    ensures 26 + |name| <= x ==> SingleUserJson(name, verified, tail)[x] == AfterName(verified, tail)[x - 26 - |name|]
  {
  }

  /** A character out of place rules an occurrence out. */
  lemma NotOccursAt(s: string, key: string, j: nat, p: nat)
    requires p < |key| && (j + p < |s| ==> s[j + p] != key[p])
    ensures !OccursAt(s, key, j)
  {
    OccursAtChar(s, key, j, p);
  }

  /** Inside the screen-name key of the front text there is no quote until its closing one. */
  lemma FrontQuotes()
    ensures forall x :: 12 <= x < 23 ==> UserFront()[x] != '"'
    ensures UserFront()[24] == ':'
  {
    var front := UserFront();
    assert '"' !in ScreenNameKey[1..12];
    assert forall x :: 12 <= x < 23 ==> front[x] == ScreenNameKey[1..12][x - 12];
    assert front[24] == ScreenNameKey[13];
  }

  /** The characters of the verified key that rule out the early starts. */
  lemma VerifiedKeyChars()
    ensures VerifiedKey[0] == '"' && VerifiedKey[1] == 'i' && VerifiedKey[12] == '"' && VerifiedKey[13] == ':'
    ensures forall p :: 1 <= p < 12 ==> VerifiedKey[p] != '"'
  {
    assert '"' !in VerifiedKey[1..12];
    assert forall p :: 1 <= p < 12 ==> VerifiedKey[p] == VerifiedKey[1..12][p - 1];
  }

  /** The verified key does not start inside the front text. */
  lemma VerifiedKeyNotInFront(name: string, verified: bool, tail: string, j: nat)
    requires '"' !in name
    requires j < 26
    ensures !OccursAt(SingleUserJson(name, verified, tail), VerifiedKey, j)
  {
    var content := SingleUserJson(name, verified, tail);
    VerifiedKeyChars();
    if j <= 12 {
      // The key's colon would fall inside the front, where colons sit only at 8 and 24.
      var x := j + 13;
      SingleUserCharAt(name, verified, tail, x);
      if x == 24 {
        SingleUserCharAt(name, verified, tail, 12);
        NotOccursAt(content, VerifiedKey, j, 1);
      } else {
        NotOccursAt(content, VerifiedKey, j, 13);
      }
    } else if j < 25 {
      FrontQuotes();
      SingleUserCharAt(name, verified, tail, j);
      if j == 23 {
        SingleUserCharAt(name, verified, tail, 24);
        NotOccursAt(content, VerifiedKey, j, 1);
      } else {
        NotOccursAt(content, VerifiedKey, j, 0);
      }
    } else {
      // At the front's last quote the key would have to run through the name.
      VerifiedKeyAtNameQuote(name, verified, tail);
    }
  }

  /** The verified key does not start at the quote that opens the name. */
  lemma VerifiedKeyAtNameQuote(name: string, verified: bool, tail: string)
    requires '"' !in name
    ensures !OccursAt(SingleUserJson(name, verified, tail), VerifiedKey, 25)
  {
    var content := SingleUserJson(name, verified, tail);
    var after := AfterName(verified, tail);
    VerifiedKeyChars();
    if |name| > 11 {
      SingleUserCharAt(name, verified, tail, 37);
      assert name[11] in name;
      NotOccursAt(content, VerifiedKey, 25, 12);
    } else if |name| == 11 {
      SingleUserCharAt(name, verified, tail, 38);
      assert after[1] == ',';
      NotOccursAt(content, VerifiedKey, 25, 13);
    } else {
      SingleUserCharAt(name, verified, tail, 26 + |name|);
      NotOccursAt(content, VerifiedKey, 25, 1 + |name|);
    }
  }

  /** Before the end of the name's closing `",` the verified key cannot start. */
  lemma VerifiedKeyNotBefore(name: string, verified: bool, tail: string, j: nat)
    requires '"' !in name
    requires j < 28 + |name|
    ensures !OccursAt(SingleUserJson(name, verified, tail), VerifiedKey, j)
  {
    var content := SingleUserJson(name, verified, tail);
    var after := AfterName(verified, tail);
    VerifiedKeyChars();
    if j < 26 {
      VerifiedKeyNotInFront(name, verified, tail, j);
    } else if j < 26 + |name| {
      SingleUserCharAt(name, verified, tail, j);
      assert name[j - 26] in name;
      NotOccursAt(content, VerifiedKey, j, 0);
    } else if j == 26 + |name| {
      SingleUserCharAt(name, verified, tail, j + 1);
      assert after[1] == ',';
      NotOccursAt(content, VerifiedKey, j, 1);
    } else {
      SingleUserCharAt(name, verified, tail, j);
      assert after[1] == ',';
      NotOccursAt(content, VerifiedKey, j, 0);
    }
  }

  /** After the name and its closing `",` comes the verified key. */
  lemma SingleUserFlagPart(name: string, verified: bool, tail: string)
    ensures SingleUserJson(name, verified, tail)[28 + |name|..] == VerifiedKey + (BoolText(verified) + tail)
  {
    var content := SingleUserJson(name, verified, tail);
    var q := 26 + |name|;
    var after := AfterName(verified, tail);
    assert content[26..] == name + after;
    assert content[q..] == after;
    assert content[q + 2..] == content[q..][2..];
  }

  /** With no quote in the name, the verified key first occurs after the name. */
  lemma FirstVerifiedKey(name: string, verified: bool, tail: string)
    requires '"' !in name
    ensures Find(SingleUserJson(name, verified, tail), VerifiedKey) == Some(28 + |name|)
  {
    var content := SingleUserJson(name, verified, tail);
    SingleUserFlagPart(name, verified, tail);
    OccursAtHead(content, VerifiedKey, 28 + |name|, BoolText(verified) + tail);
    forall j: nat | j < 28 + |name|
      ensures !OccursAt(content, VerifiedKey, j)
    {
      VerifiedKeyNotBefore(name, verified, tail, j);
    }
    FindFirst(content, VerifiedKey, 28 + |name|);
  }

  /** An occurrence with none before it is what `Find` returns. */
  lemma FindFirst(s: string, key: string, k: nat)
    requires OccursAt(s, key, k)
    requires forall j: nat :: j < k ==> !OccursAt(s, key, j)
    ensures Find(s, key) == Some(k)
  {
  }

  /** A text whose part from `k` on starts with `key` has an occurrence at `k`. */
  lemma OccursAtHead(s: string, key: string, k: nat, rest: string)
    requires k <= |s| && s[k..] == key + rest
    ensures OccursAt(s, key, k)
  {
    assert s[k..k + |key|] == s[k..][..|key|];
  }

  /** An occurrence of `key` at `j` puts each character of `key` in its place. */
  lemma OccursAtChar(s: string, key: string, j: nat, p: nat)
    ensures OccursAt(s, key, j) && p < |key| ==> s[j + p] == key[p]
  {
    if OccursAt(s, key, j) && p < |key| {
      assert s[j..j + |key|][p] == key[p];
    }
  }

  /** The scanner reads the screen name of the head user object. */
  lemma SingleUserScreenName(name: string, verified: bool, tail: string)
    requires '"' !in name
    ensures ExtractScreenName(SingleUserJson(name, verified, tail)) == name
  {
    var content := SingleUserJson(name, verified, tail);
    var after := AfterName(verified, tail);
    FirstScreenNameKey(name, verified, tail);
    assert content[26..] == name + after;
    BeforeSkips(name, after, '"');
    assert Before(after, '"') == [];
  }

  /** The cut-off text the scanner compares with `true` for the head user object. */
  lemma SingleUserVerifiedField(name: string, verified: bool, tail: string)
    requires '"' !in name
    ensures VerifiedField(SingleUserJson(name, verified, tail)) == Some(BoolText(verified) + Before(tail, ','))
  {
    var content := SingleUserJson(name, verified, tail);
    FirstVerifiedKey(name, verified, tail);
    SingleUserFlagPart(name, verified, tail);
    var k := 28 + |name|;
    assert content[k + |VerifiedKey|..] == content[k..][|VerifiedKey|..];
    BeforeSkips(BoolText(verified), tail, ',');
  }

  /**
   * For one user object at the head of the users array, the scanner finds
   * the screen name, and finds the flag true exactly when it is `true` and
   * the text after it, up to the next comma, is only white space. A `true`
   * that closes its object (`true}]}`) is therefore read as false.
   */
  lemma ScanSingleUser(name: string, verified: bool, tail: string)
    requires '"' !in name
    ensures ExtractScreenName(SingleUserJson(name, verified, tail)) == name
    ensures ExtractIsVerified(SingleUserJson(name, verified, tail)) <==> verified && AllWhitespace(Before(tail, ','))
  {
    SingleUserScreenName(name, verified, tail);
    SingleUserVerifiedField(name, verified, tail);
    PaddedFlag(verified, Before(tail, ','));
  }

  /** `true` or `false` followed by `rest` is `true` padded exactly when it is `true` and `rest` is white space. */
  lemma PaddedFlag(verified: bool, rest: string)
    ensures PaddedBy(BoolText(verified) + rest, "true") <==> verified && AllWhitespace(rest)
  {
    var v := BoolText(verified) + rest;
    if verified && AllWhitespace(rest) {
      assert v[0..4] == "true" && v[..0] == [] && v[4..] == rest;
      assert PaddedAt(v, "true", 0, 4);
    }
    if PaddedBy(v, "true") {
      var i: nat, j: nat :| PaddedAt(v, "true", i, j);
      if i > 0 {
        assert v[..i][0] == v[0];
      }
      assert v[1..4] == "rue";
      assert v[4..] == rest;
    }
  }

  /**
   * The payload `{"users":[{"screen_name":"alice","is_verified":true}]}`
   * scans as screen name `alice` with the flag false: after
   * `"is_verified":` the scanner compares `true}]}` with `true`.
   */
  lemma VerifiedClosingObjectReadsFalse()
    ensures ExtractScreenName(SingleUserJson("alice", true, "}]}")) == "alice"
    ensures !ExtractIsVerified(SingleUserJson("alice", true, "}]}"))
  {
    ScanSingleUser("alice", true, "}]}");
    assert !IsWhitespace(Before("}]}", ',')[0]);
  }

  /** A flag followed directly by a comma is read as written. */
  lemma VerifiedBeforeCommaReadsFlag(name: string, verified: bool, tail: string)
    requires '"' !in name
    ensures ExtractIsVerified(SingleUserJson(name, verified, "," + tail)) == verified
  {
    ScanSingleUser(name, verified, "," + tail);
  }
}
