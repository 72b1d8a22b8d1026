/**
 * The `PassportStamps` component: for a response from the Twitter API it
 * walks the `users` array of the parsed JSON and keeps the screen name and
 * verified flag of a user, overwriting them for each element, so the last
 * user is the one shown.
 */
module PassportStamps {
  import opened Optional
  import opened JsonValue
  import opened TwitterScan

  const TwitterDomain: string := "api.twitter.com"
  const NoDataMessage: string := "No Twitter data available. :("

  datatype UserSummary = UserSummary(screenName: string, isVerified: bool)

  /** `json.get("users").and_then(|u| u.as_array())`: the elements of an array-valued `users` member. */
  function Users(json: Json): (r: Option<seq<Json>>)
    ensures r.Some? <==> json.Object? && "users" in json.members && json.members["users"].Array?
    ensures r.Some? ==> r.value == json.members["users"].items
  {
    match Get(json, "users")
    case Some(users) => AsArray(users)
    case None => None
  }

  /** The fields of one user, with `""` and `false` for what is missing or of another type. */
  function Summarize(user: Json): (r: UserSummary)
    ensures r.screenName == (if Get(user, "screen_name").Some? && Get(user, "screen_name").value.Str?
                             then Get(user, "screen_name").value.s else "")
    ensures r.isVerified <==> Get(user, "is_verified") == Some(Bool(true))
  {
    var screenName := match Get(user, "screen_name") case Some(n) => AsStr(n) case None => None;
    var isVerified := match Get(user, "is_verified") case Some(v) => AsBool(v) case None => None;
    UserSummary(match screenName case Some(s) => s case None => "",
                match isVerified case Some(b) => b case None => false)
  }

  /**
   * What the walk over the users leaves in the state holder: the last user
   * when the domain is the Twitter API, the JSON parsed and `users` is a
   * non-empty array; otherwise the holder keeps what it had.
   */
  function Selected(serverDomain: string, parsed: Option<Json>, current: Option<UserSummary>): (r: Option<UserSummary>)
    ensures serverDomain != TwitterDomain || parsed.None? ==> r == current
    ensures parsed.Some? && Users(parsed.value).None? ==> r == current
    ensures serverDomain == TwitterDomain && parsed.Some? && Users(parsed.value).Some? ==>
      var users := Users(parsed.value).value;
      r == if users == [] then current else Some(Summarize(users[|users| - 1]))
  {
    if serverDomain == TwitterDomain && parsed.Some? && Users(parsed.value).Some? && Users(parsed.value).value != [] then
      var users := Users(parsed.value).value;
      Some(Summarize(users[|users| - 1]))
    else
      current
  }

  /**
   * The body of `passport_stamps` before the markup: `parsed` is the outcome
   * of `serde_json::from_str` on the JSON data, `current` the value of the
   * `data` state holder, and `data` what it holds afterwards.
   */
  method UpdateData(serverDomain: string, parsed: Option<Json>, current: Option<UserSummary>)
    returns (data: Option<UserSummary>)
    ensures data == Selected(serverDomain, parsed, current)
  {
    data := current;
    if serverDomain == TwitterDomain {
      if parsed.Some? {
        var users := Users(parsed.value);
        if users.Some? {
          var i := 0;
          while i < |users.value|
            invariant 0 <= i <= |users.value|
            invariant data == if i == 0 then current else Some(Summarize(users.value[i - 1]))
          {
            data := Some(Summarize(users.value[i]));
            i := i + 1;
          }
        }
      }
    }
  }

  /** The lines the component shows for the state holder's value. */
  function Display(data: Option<UserSummary>): (lines: seq<string>)
    ensures data.None? <==> lines == [NoDataMessage]
    ensures data.Some? ==>
      lines == ["Screen Name: " + data.value.screenName, "Is Verified: " + BoolText(data.value.isVerified)]
  {
    match data
    case Some(user) => ["Screen Name: " + user.screenName, "Is Verified: " + BoolText(user.isVerified)]
    case None => [NoDataMessage]
  }

  /**
   * One run of the component body. The markup reads the state holder as it
   * was when the render began, so `lines` shows `current`; the `set` calls in
   * the walk only take effect in the next render, which sees `next`.
   */
  method Render(serverDomain: string, parsed: Option<Json>, current: Option<UserSummary>)
    returns (lines: seq<string>, next: Option<UserSummary>)
    ensures lines == Display(current)
    ensures next == Selected(serverDomain, parsed, current)
  {
    next := UpdateData(serverDomain, parsed, current);
    lines := Display(current);
  }

  /** What the state holder holds after `n` renders with the same properties. */
  function HolderAfter(n: nat, serverDomain: string, parsed: Option<Json>, initial: Option<UserSummary>): Option<UserSummary>
  {
    if n == 0 then initial else Selected(serverDomain, parsed, HolderAfter(n - 1, serverDomain, parsed, initial))
  }

  /** A second walk over the same properties leaves the holder as the first one did. */
  lemma SelectedFixedPoint(serverDomain: string, parsed: Option<Json>, current: Option<UserSummary>)
    ensures Selected(serverDomain, parsed, Selected(serverDomain, parsed, current)) == Selected(serverDomain, parsed, current)
  {
  }

  /** From the second render on, every render shows the holder as the first walk left it. */
  lemma {:induction false} RendersSettle(n: nat, serverDomain: string, parsed: Option<Json>, initial: Option<UserSummary>)
    requires n >= 1
    ensures HolderAfter(n, serverDomain, parsed, initial) == Selected(serverDomain, parsed, initial)
  {
    if n > 1 {
      RendersSettle(n - 1, serverDomain, parsed, initial);
      SelectedFixedPoint(serverDomain, parsed, initial);
    }
  }

  /** With any server other than the Twitter API every render of a fresh component shows the fallback text. */
  lemma {:induction false} OtherDomainShowsFallback(n: nat, serverDomain: string, parsed: Option<Json>)
    requires serverDomain != TwitterDomain
    ensures HolderAfter(n, serverDomain, parsed, None) == None
    ensures Display(HolderAfter(n, serverDomain, parsed, None)) == [NoDataMessage]
  {
    if n > 0 {
      OtherDomainShowsFallback(n - 1, serverDomain, parsed);
    }
  }

  /** JSON that does not parse, or has no `users` array, leaves the data unset. */
  lemma NoUsersLeavesDataUnset(serverDomain: string, parsed: Option<Json>, current: Option<UserSummary>)
    requires parsed.None? || Users(parsed.value).None? || Users(parsed.value) == Some([])
    ensures Selected(serverDomain, parsed, current) == current
  {
  }

  /** Appending a user to the array makes that user the one shown. */
  lemma LastUserWins(members: map<string, Json>, users: seq<Json>, last: Json, current: Option<UserSummary>)
    requires "users" in members && members["users"] == Array(users + [last])
    ensures Selected(TwitterDomain, Some(Object(members)), current) == Some(Summarize(last))
  {
  }

  /** A user that is not an object, or has fields of other types, shows as `""` and false. */
  lemma MalformedUserDefaults(user: Json)
    requires !user.Object? || (forall key :: key in user.members ==> !user.members[key].Str? && !user.members[key].Bool?)
    ensures Summarize(user) == UserSummary("", false)
  {
  }

  /**
   * Two users, alice (verified) and bob (not verified): the first render of a
   * fresh component shows the fallback text, and every later render shows
   * only bob, although the walk visits both.
   */
  lemma TwoUsersShowsLast(n: nat)
    ensures var alice := Object(map["screen_name" := Str("alice"), "is_verified" := Bool(true)]);
      var bob := Object(map["screen_name" := Str("bob"), "is_verified" := Bool(false)]);
      var json := Object(map["users" := Array([alice, bob])]);
      Display(HolderAfter(0, TwitterDomain, Some(json), None)) == [NoDataMessage] &&
      (n >= 1 ==> Display(HolderAfter(n, TwitterDomain, Some(json), None)) == ["Screen Name: bob", "Is Verified: false"])
  {
    var bob := Object(map["screen_name" := Str("bob"), "is_verified" := Bool(false)]);
    assert "screen_name"[0] != "is_verified"[0];
    assert Summarize(bob) == UserSummary("bob", false);
    var alice := Object(map["screen_name" := Str("alice"), "is_verified" := Bool(true)]);
    var json := Object(map["users" := Array([alice, bob])]);
    assert Users(json) == Some([alice, bob]);
    assert Selected(TwitterDomain, Some(json), None) == Some(UserSummary("bob", false));
    if n >= 1 {
      RendersSettle(n, TwitterDomain, Some(json), None);
    }
    assert "Screen Name: " + "bob" == "Screen Name: bob";
    assert "Is Verified: " + BoolText(false) == "Is Verified: false";
  }
}
