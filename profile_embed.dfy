/**
 * The profile pane of the bot-detection dashboard: resolving an account's
 * handle from the user-lookup response and deciding between the oEmbed widget
 * of its profile and the fixed error banner.
 *
 * The two HTTP calls are not modelled: the user-lookup response and the
 * oEmbed endpoint are given as values (a decoded JSON object, and a function
 * from the requested URL to the decoded JSON object it answers with).
 */
module ProfileEmbed {
  import opened Wrappers

  /** A decoded JSON object whose values are strings. */
  type JsonObject = map<string, string>

  /** The decoded user-lookup response: its optional 'data' member. */
  datatype LookupResponse = LookupResponse(data: Option<JsonObject>)

  /** Why the profile pane raises instead of returning HTML. */
  datatype EmbedError =
    | MissingUsername   // 'data' is present but holds no 'username'
    | MissingHtml       // the oEmbed answer holds no 'html'

  const ProfilePrefix: string := "https://twitter.com/"
  const OembedPrefix: string := "https://publish.twitter.com/oembed?url="

  /** The banner shown when no handle could be resolved. */
  const ErrorHtml: string :=
    "<h2 style='color:white;'> There was an error while embedding this profile. </h2>"

  /**
   * The handle of the account: no handle when the response has no 'data';
   * a KeyError when 'data' has no 'username'.
   */
  function LookupUsername(response: LookupResponse): (r: Result<Option<string>, EmbedError>)
    ensures response.data.None? ==> r == Ok(None)
    ensures r.Ok? && r.value.Some? <==>
              response.data.Some? && "username" in response.data.value
    ensures r.Ok? && r.value.Some? ==> r.value.value == response.data.value["username"]
    ensures response.data.Some? && "username" !in response.data.value ==> r == Err(MissingUsername)
  {
    match response.data
    case None => Ok(None)
    case Some(data) =>
      if "username" in data then Ok(Some(data["username"])) else Err(MissingUsername)
  }

  /** Python truthiness of the handle: neither None nor the empty string. */
  predicate Truthy(handle: Option<string>)
  {
    handle.Some? && handle.value != ""
  }

  /** The public profile URL of a handle. */
  function ProfileUrl(handle: string): string
  {
    ProfilePrefix + handle
  }

  /** The handle a URL built by `OembedQuery` was built from, if it is one. */
  function QueriedHandle(url: string): (r: Option<string>)
    ensures r.Some? ==> url == OembedPrefix + ProfilePrefix + r.value
  {
    var prefix := OembedPrefix + ProfilePrefix;
    if |prefix| <= |url| && url[..|prefix|] == prefix then Some(url[|prefix|..]) else None
  }

  /**
   * The oEmbed URL requested for a handle, or no request at all when the
   * handle is missing or empty (the error banner is shown instead).
   */
  function OembedQuery(handle: Option<string>): (url: Option<string>)
    ensures url.Some? <==> Truthy(handle)
    ensures url.Some? ==> QueriedHandle(url.value) == handle
    ensures url.Some? ==> url.value == OembedPrefix + ProfileUrl(handle.value)
  {
    if Truthy(handle) then
      var prefix := OembedPrefix + ProfilePrefix;
      var url := OembedPrefix + ProfileUrl(handle.value);
      assert url == prefix + handle.value;
      assert url[..|prefix|] == prefix && url[|prefix|..] == handle.value;
      Some(url)
    else None
  }

  /** Different handles are sent to the oEmbed endpoint as different URLs. */
  lemma OembedQueryInjective(h1: string, h2: string)
    requires Truthy(Some(h1)) && Truthy(Some(h2))
    ensures OembedQuery(Some(h1)) == OembedQuery(Some(h2)) <==> h1 == h2
  {
    if OembedQuery(Some(h1)) == OembedQuery(Some(h2)) {
      assert QueriedHandle(OembedQuery(Some(h1)).value) == Some(h1);
    }
  }

  /**
   * The HTML of the profile pane: the 'html' member of the oEmbed answer for
   * the account's profile when a handle was resolved, the error banner when not.
   */
  function EmbedTweet(response: LookupResponse, oembed: string -> JsonObject): (r: Result<string, EmbedError>)
    ensures response.data.None? ==> r == Ok(ErrorHtml)
    ensures LookupUsername(response).Err? ==> r == Err(MissingUsername)
  {
    match LookupUsername(response)
    case Err(e) => Err(e)
    case Ok(handle) =>
      match OembedQuery(handle)
      case None => Ok(ErrorHtml)
      case Some(url) =>
        var answer := oembed(url);
        if "html" in answer then Ok(answer["html"]) else Err(MissingHtml)
  }

  /**
   * With a resolved non-empty handle `h` the pane shows exactly the 'html' the
   * endpoint returns for "https://publish.twitter.com/oembed?url=https://twitter.com/" + h;
   * with no handle or an empty one it shows the error banner.
   */
  lemma EmbedTweetByHandle(response: LookupResponse, oembed: string -> JsonObject)
    requires LookupUsername(response).Ok?
    ensures var handle := LookupUsername(response).value;
            EmbedTweet(response, oembed) ==
              if !Truthy(handle) then Ok(ErrorHtml)
              else
                var url := "https://publish.twitter.com/oembed?url=https://twitter.com/" + handle.value;
                if "html" in oembed(url) then Ok(oembed(url)["html"]) else Err(MissingHtml)
  {
    var handle := LookupUsername(response).value;
    if Truthy(handle) {
      assert OembedPrefix + ProfileUrl(handle.value)
          == "https://publish.twitter.com/oembed?url=https://twitter.com/" + handle.value;
    }
  }

  /**
   * The pane depends on the oEmbed endpoint only through its answer to the
   * one URL queried; without a handle it does not depend on it at all.
   */
  lemma EmbedTweetQueriesOnce(response: LookupResponse, oembed1: string -> JsonObject, oembed2: string -> JsonObject)
    requires LookupUsername(response).Ok?
    requires var q := OembedQuery(LookupUsername(response).value);
             q.Some? ==> oembed1(q.value) == oembed2(q.value)
    ensures EmbedTweet(response, oembed1) == EmbedTweet(response, oembed2)
  {
  }

  /**
   * An account the directory does not know, or one whose username is empty,
   * gets the error banner, whatever the endpoint does.
   */
  lemma UnknownAccountGetsBanner(data: JsonObject, oembed: string -> JsonObject)
    requires "username" in data && data["username"] == ""
    ensures EmbedTweet(LookupResponse(None), oembed) == Ok(ErrorHtml)
    ensures EmbedTweet(LookupResponse(Some(data)), oembed) == Ok(ErrorHtml)
  {
    EmbedTweetByHandle(LookupResponse(Some(data)), oembed);
  }
}
