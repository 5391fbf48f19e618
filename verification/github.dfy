/** The client that asks GitHub to record a submitted artwork by sending a
    `repository_dispatch` event. The transport is abstracted: the request is
    built here, and what the network did with it is an input. */
module GitHubDispatch {
  import opened Wrappers

  const RepoOwner: string := "JNeubau"
  const RepoName: string := "PortfolioPageProject"
  const DispatchUrl: string := "https://api.github.com/repos/" + RepoOwner + "/" + RepoName + "/dispatches"
  const EventType: string := "artwork-submission"

  const SubmittedMessage: string := "Artwork submitted successfully. It will be processed soon."
  const NotConfiguredMessage: string := "GitHub token is not configured. Your artwork was saved locally but not to the server."
  const GenericErrorMessage: string := "Error submitting artwork. Please try again later."

  /** The token the build was configured with, from the value of its
      environment variable; an unset variable reads as the empty string. */
  function ConfiguredToken(environment: Option<string>): (token: string)
    ensures token == "" <==> environment.None? || environment.value == ""
    ensures token != "" ==> environment == Some(token)
  {
    match environment
    case None => ""
    case Some(value) => value
  }

  datatype Header = Header(name: string, value: string)

  /** The JSON body of a dispatch: the event name and the artwork, untouched. */
  datatype ClientPayload<A> = ClientPayload(artwork: A)
  datatype DispatchBody<A> = DispatchBody(eventType: string, clientPayload: ClientPayload<A>)

  datatype Request<A> = Request(url: string, httpMethod: string, headers: seq<Header>, body: DispatchBody<A>)

  /** The value of the first header called `name`, if any. */
  function HeaderValue(headers: seq<Header>, name: string): (v: Option<string>)
    ensures v.Some? <==> exists i :: 0 <= i < |headers| && headers[i].name == name
    ensures v.Some? ==> Header(name, v.value) in headers
    ensures v.Some? ==>
      exists i :: (0 <= i < |headers| && headers[i] == Header(name, v.value)
                   && forall j :: 0 <= j < i ==> headers[j].name != name)
  {
    if headers == [] then None
    else if headers[0].name == name then Some(headers[0].value)
    else HeaderValue(headers[1..], name)
  }

  /** The three header names the client sends are distinct. */
  lemma HeaderNamesDistinct()
    ensures "Authorization" != "Accept" && "Authorization" != "Content-Type" && "Accept" != "Content-Type"
  {
    assert "Authorization"[1] != "Accept"[1];
    assert "Authorization"[0] != "Content-Type"[0] && "Accept"[0] != "Content-Type"[0];
  }

  /** The headers of a dispatch request: the credential, the GitHub v3 JSON
      media type, and the JSON content type. */
  function DispatchHeaders(token: string): seq<Header> {
    [Header("Authorization", "token " + token),
     Header("Accept", "application/vnd.github.v3+json"),
     Header("Content-Type", "application/json")]
  }

  /** Each of the three headers is found by name with its value. */
  lemma DispatchHeaderValues(token: string)
    ensures var hs := DispatchHeaders(token);
      && HeaderValue(hs, "Authorization") == Some("token " + token)
      && HeaderValue(hs, "Accept") == Some("application/vnd.github.v3+json")
      && HeaderValue(hs, "Content-Type") == Some("application/json")
  {
    var hs := DispatchHeaders(token);
    HeaderNamesDistinct();
    assert HeaderValue(hs[1..][1..], "Content-Type") == Some("application/json");
    assert HeaderValue(hs[1..], "Content-Type") == Some("application/json");
    assert HeaderValue(hs[1..], "Accept") == Some("application/vnd.github.v3+json");
  }

  /** No header other than the three is sent, and none is sent twice. */
  lemma DispatchHeaderNames(token: string)
    ensures var hs := DispatchHeaders(token);
      && (forall i :: 0 <= i < |hs| ==> hs[i].name in ["Authorization", "Accept", "Content-Type"])
      && (forall i, j :: 0 <= i < j < |hs| ==> hs[i].name != hs[j].name)
  {
    HeaderNamesDistinct();
  }

  /** The POST the client builds for `artwork`, with `token` as its credential. */
  function BuildRequest<A>(artwork: A, token: string): (req: Request<A>)
    ensures req.url == DispatchUrl && req.httpMethod == "POST"
    ensures HeaderValue(req.headers, "Authorization") == Some("token " + token)
    ensures HeaderValue(req.headers, "Accept") == Some("application/vnd.github.v3+json")
    ensures HeaderValue(req.headers, "Content-Type") == Some("application/json")
    ensures forall i :: 0 <= i < |req.headers| ==> req.headers[i].name in ["Authorization", "Accept", "Content-Type"]
    ensures forall i, j :: 0 <= i < j < |req.headers| ==> req.headers[i].name != req.headers[j].name
    ensures req.body.eventType == EventType
    ensures req.body.clientPayload.artwork == artwork
  {
    DispatchHeaderValues(token);
    DispatchHeaderNames(token);
    Request(DispatchUrl, "POST", DispatchHeaders(token), DispatchBody(EventType, ClientPayload(artwork)))
  }

  /** What the network call did: it threw, or it came back with a status and
      a body that `response.json()` either parses (`Some`) or fails on (`None`). */
  datatype FetchOutcome = Threw | Returned(status: int, json: Option<string>)

  /** Why a dispatch failed, as carried in the result's `error` field. */
  datatype ErrorCause =
    /** Anything thrown before a response arrives: encoding the body,
        `fetch` rejecting the headers, or the network itself. */
    | Thrown
    | ApiError(status: int, json: string) | UnreadableBody

  /** The object the client resolves to. */
  datatype DispatchResult = DispatchResult(success: bool, message: string, error: Option<ErrorCause>)

  /** One call: the request it built and the result it resolved to. */
  datatype Dispatch<A> = Dispatch(request: Request<A>, result: DispatchResult)

  /** `submitArtworkToGitHub`: the request is built and handed to the network
      before the token is checked; only a call that came back is then judged,
      first on whether a token is configured and then on its status. Every
      path resolves to a result. */
  function SubmitArtwork<A>(artwork: A, token: string, fetch: FetchOutcome): (d: Dispatch<A>)
    ensures d.request == BuildRequest(artwork, token)
    ensures HeaderValue(d.request.headers, "Authorization") == Some("token " + token)
    ensures d.request.body.clientPayload.artwork == artwork && d.request.body.eventType == EventType
    ensures d.result.success <==> fetch.Returned? && token != "" && fetch.status == 204
    ensures d.result.success ==> d.result.message == SubmittedMessage && d.result.error == None
    ensures fetch.Returned? && token == "" ==> d.result.message == NotConfiguredMessage && d.result.error == None
    ensures fetch.Threw? ==> d.result.message == GenericErrorMessage && d.result.error == Some(Thrown)
    ensures fetch.Returned? && token != "" && fetch.status != 204 ==>
      && d.result.message == GenericErrorMessage
      && (fetch.json.Some? ==> d.result.error == Some(ApiError(fetch.status, fetch.json.value)))
      && (fetch.json.None? ==> d.result.error == Some(UnreadableBody))
  {
    var request := BuildRequest(artwork, token);
    var result :=
      match fetch
      case Threw => DispatchResult(false, GenericErrorMessage, Some(Thrown))
      case Returned(status, json) =>
        if token == "" then DispatchResult(false, NotConfiguredMessage, None)
        else if status == 204 then DispatchResult(true, SubmittedMessage, None)
        else match json
          case Some(data) => DispatchResult(false, GenericErrorMessage, Some(ApiError(status, data)))
          case None => DispatchResult(false, GenericErrorMessage, Some(UnreadableBody));
    Dispatch(request, result)
  }

  /** The three messages are distinct, so the message alone tells which path
      the call took: success, missing token, or the generic failure. */
  lemma MessageIdentifiesPath<A>(artwork: A, token: string, fetch: FetchOutcome)
    ensures var r := SubmitArtwork(artwork, token, fetch).result;
      && r.message in [SubmittedMessage, NotConfiguredMessage, GenericErrorMessage]
      && (r.success <==> r.message == SubmittedMessage)
      && (r.message == NotConfiguredMessage <==> fetch.Returned? && token == "")
      && (r.message == GenericErrorMessage <==> r.error.Some?)
  {}

  /** With no token configured, the outcome still turns on the network: a call
      that came back reports the missing token, whatever its status, and a call
      that threw reports the generic failure, since the token is only looked
      at after the request returns. */
  lemma EmptyTokenCheckedAfterRequest<A>(artwork: A, fetch: FetchOutcome)
    ensures var r := SubmitArtwork(artwork, "", fetch).result;
      && !r.success
      && (fetch.Returned? ==> r == DispatchResult(false, NotConfiguredMessage, None))
      && (fetch.Threw? ==> r == DispatchResult(false, GenericErrorMessage, Some(Thrown)))
  {}

  /** The request is built the same way whatever the token and whatever the
      network does with it; the token only fills the Authorization header,
      and distinct tokens give distinct headers. */
  lemma RequestBuiltUnconditionally<A>(artwork: A, t1: string, t2: string, f1: FetchOutcome, f2: FetchOutcome)
    ensures var q1 := SubmitArtwork(artwork, t1, f1).request;
            var q2 := SubmitArtwork(artwork, t2, f2).request;
      && q1.url == q2.url && q1.httpMethod == q2.httpMethod && q1.body == q2.body
      && (HeaderValue(q1.headers, "Authorization") == HeaderValue(q2.headers, "Authorization") <==> t1 == t2)
  {
    var p := "token ";
    if p + t1 == p + t2 {
      assert t1 == (p + t1)[|p|..];
      assert t2 == (p + t2)[|p|..];
    }
  }

  /** A token variable that is set but empty behaves like an unset one: a call
      that came back reports the missing token exactly in those two cases. */
  lemma EmptyVariableActsUnset<A>(artwork: A, environment: Option<string>, status: int, json: Option<string>)
    ensures SubmitArtwork(artwork, ConfiguredToken(environment), Returned(status, json)).result.message == NotConfiguredMessage
      <==> environment.None? || environment.value == ""
  {}
}
