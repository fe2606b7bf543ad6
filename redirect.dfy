// A redirect component: chooses where to send the browser (a component page,
// an explicit url, a request handler, or a direct action) and writes either a
// 302 redirect or, for Ajax requests, a script that changes the location.

module Redirect {
  import opened Wrappers

  /** Query parameters, each value in its string form. */
  type Params = map<string, string>

  /** A page component, known by its name. */
  datatype Component = Component(name: string)

  /** The bindings of a redirect, as its setters leave them. */
  datatype Bindings = Bindings(
    url: Option<string>,
    requestHandlerKey: Option<string>,
    requestHandlerPath: Option<string>,
    secure: Option<bool>,
    includeSessionID: bool,
    directActionClass: Option<string>,
    directActionName: Option<string>,
    component: Option<Component>,
    queryParameters: Option<Params>)

  /** What the application, the session and the request say about the current request. */
  datatype Environment = Environment(
    pageCacheSize: int,
    componentRequestHandlerKey: string,
    sessionIdKey: string,
    storesIDsInURLs: bool,
    sessionID: string,
    contextID: string,
    requestSecure: bool,
    ajax: bool,
    updateContainerID: Option<string>)

  /**
   * The context's URL generators and the query-string encoder, which this model
   * does not look into. The last boolean of each generator is whether complete
   * URLs are being generated.
   */
  datatype UrlBuilders = UrlBuilders(
    handlerURL: (string, Option<string>, Option<string>, bool, bool) -> string,
    directActionURL: (string, Params, bool, bool) -> string,
    encode: Params -> string)

  datatype RedirectError =
    | UrlWithSecure   // a url and an explicit secure flag were both given
    | NoTarget        // none of component, url, requestHandlerKey, directActionName

  /** Where a redirect goes, by the first binding present. */
  datatype Target =
    | ToComponent(component: Component)
    | ToUrl(url: string)
    | ToHandler(key: string)
    | ToDirectAction(name: string)

  // ---------------------------------------------------------------------------
  // Pure decisions
  // ---------------------------------------------------------------------------

  /** The target by precedence component, url, requestHandlerKey, directActionName; a url together with secure is refused. */
  function TargetOf(b: Bindings): (r: Result<Target, RedirectError>)
    ensures r == Err(NoTarget) <==>
      b.component.None? && b.url.None? && b.requestHandlerKey.None? && b.directActionName.None?
    ensures r == Err(UrlWithSecure) <==> b.component.None? && b.url.Some? && b.secure.Some?
    ensures b.component.Some? ==> r == Ok(ToComponent(b.component.value))
    ensures r.Ok? && r.value.ToUrl? ==> b.component.None? && b.secure.None? && b.url == Some(r.value.url)
    ensures r.Ok? && r.value.ToHandler? ==> b.component.None? && b.url.None? && b.requestHandlerKey == Some(r.value.key)
    ensures r.Ok? && r.value.ToDirectAction? ==>
      b.component.None? && b.url.None? && b.requestHandlerKey.None? && b.directActionName == Some(r.value.name)
  {
    if b.component.Some? then Ok(ToComponent(b.component.value))
    else if b.url.Some? then
      if b.secure.Some? then Err(UrlWithSecure) else Ok(ToUrl(b.url.value))
    else if b.requestHandlerKey.Some? then Ok(ToHandler(b.requestHandlerKey.value))
    else if b.directActionName.Some? then Ok(ToDirectAction(b.directActionName.value))
    else Err(NoTarget)
  }

  /** The encoded query string, absent for missing or empty parameters. */
  function QueryParametersString(params: Option<Params>, encode: Params -> string): (r: Option<string>)
    ensures r.None? <==> params.None? || params.value == map[]
    ensures r.Some? ==> r.value == encode(params.value)
  {
    if params.Some? && |params.value| > 0 then Some(encode(params.value)) else None
  }

  /** The parameters of a direct-action URL: a copy of the given ones, with the session id turned off unless it is to be included. */
  function DirectActionQueryParameters(params: Option<Params>, includeSessionID: bool, sessionIdKey: string): (r: Params)
    ensures r.Keys == params.GetOr(map[]).Keys + (if includeSessionID then {} else {sessionIdKey})
    ensures !includeSessionID ==> r[sessionIdKey] == "false"
    ensures forall k :: k in params.GetOr(map[]) && (includeSessionID || k != sessionIdKey) ==> r[k] == params.GetOr(map[])[k]
  {
    var copy := params.GetOr(map[]);
    if includeSessionID then copy else copy[sessionIdKey := "false"]
  }

  /** The path of a component page, built the way the request handler expects it. */
  function ComponentPath(name: string, env: Environment): string {
    if env.pageCacheSize == 0 then
      if env.storesIDsInURLs then name + "/" + env.sessionID + "/" + env.contextID + ".0"
      else name + "/" + env.contextID + ".0"
    else if env.storesIDsInURLs then env.sessionID + "/" + env.contextID + ".0"
    else env.contextID + ".0"
  }

  /** Segments joined by '/'. */
  function Joined(segments: seq<string>): string {
    if |segments| == 0 then ""
    else if |segments| == 1 then segments[0]
    else segments[0] + "/" + Joined(segments[1..])
  }

  /** The component path is the '/'-joined segments [name only without a page cache] [session id only when kept in URLs] contextID, then ".0". */
  lemma ComponentPathSegments(name: string, env: Environment)
    ensures ComponentPath(name, env) ==
      Joined((if env.pageCacheSize == 0 then [name] else [])
        + (if env.storesIDsInURLs then [env.sessionID] else [])
        + [env.contextID]) + ".0"
  {
    var tail := [env.contextID];
    assert Joined(tail) == env.contextID;
    if env.storesIDsInURLs {
      assert Joined([env.sessionID] + tail) == env.sessionID + "/" + env.contextID by {
        assert ([env.sessionID] + tail)[1..] == tail;
      }
      if env.pageCacheSize == 0 {
        var segments := [name] + [env.sessionID] + tail;
        assert segments[1..] == [env.sessionID] + tail;
        assert Joined(segments) == name + "/" + (env.sessionID + "/" + env.contextID);
      }
    } else if env.pageCacheSize == 0 {
      var segments := [name] + tail;
      assert segments[1..] == tail;
    }
  }

  /** The path of a direct action: "class/name" when a class is given, else the name. */
  function DirectActionPath(className: Option<string>, name: string): (r: string)
    ensures className.None? ==> r == name
    ensures className.Some? ==> r == Joined([className.value, name])
  {
    if className.Some? then className.value + "/" + name else name
  }

  /** Whether the redirect asks for a secure URL: its own binding, else the request's security. */
  function Secure(b: Bindings, env: Environment): bool {
    b.secure.GetOr(env.requestSecure)
  }

  /** The URL of the target, generated with complete URLs or not. */
  function Location(b: Bindings, env: Environment, urls: UrlBuilders, complete: bool): (r: Result<string, RedirectError>)
    ensures r.Err? <==> TargetOf(b).Err?
    ensures r.Err? ==> r.error == TargetOf(b).error
    ensures TargetOf(b) == Ok(ToUrl(b.url.GetOr(""))) && b.url.Some? ==>
      r == Ok(if QueryParametersString(b.queryParameters, urls.encode).Some?
              then b.url.value + "?" + QueryParametersString(b.queryParameters, urls.encode).value
              else b.url.value)
  {
    var secure := Secure(b, env);
    match TargetOf(b)
    case Err(e) => Err(e)
    case Ok(ToComponent(c)) =>
      Ok(urls.handlerURL(env.componentRequestHandlerKey, Some(ComponentPath(c.name, env)),
        QueryParametersString(b.queryParameters, urls.encode), secure, complete))
    case Ok(ToUrl(u)) =>
      if b.queryParameters.Some? && |b.queryParameters.value| > 0
      then Ok(u + "?" + urls.encode(b.queryParameters.value))
      else Ok(u)
    case Ok(ToHandler(key)) =>
      Ok(urls.handlerURL(key, b.requestHandlerPath, QueryParametersString(b.queryParameters, urls.encode), secure, complete))
    case Ok(ToDirectAction(name)) =>
      Ok(urls.directActionURL(DirectActionPath(b.directActionClass, name),
        DirectActionQueryParameters(b.queryParameters, b.includeSessionID, env.sessionIdKey), secure, complete))
  }

  const ScriptOpen: string := "<script type=\"text/javascript\">"
  const ScriptClose: string := "</script>"

  /** The statement that sends the browser to `url`. */
  function LocationScript(url: string): string {
    "document.location.href='" + url + "';"
  }

  /** The script written for an Ajax request: wrapped in script tags exactly when an update container is present. */
  function AjaxContent(url: string, wrapped: bool): (r: string)
    ensures wrapped ==> r == ScriptOpen + LocationScript(url) + ScriptClose
    ensures !wrapped ==> r == LocationScript(url)
  {
    (if wrapped then ScriptOpen else "") + LocationScript(url) + (if wrapped then ScriptClose else "")
  }

  /** The wrapped script is the bare statement between the two tags, so unwrapping recovers the target URL's statement. */
  lemma AjaxContentUnwrap(url: string)
    ensures var w := AjaxContent(url, true);
      |w| == |ScriptOpen| + |LocationScript(url)| + |ScriptClose|
      && w[|ScriptOpen|..|w| - |ScriptClose|] == AjaxContent(url, false)
  {
    var w := AjaxContent(url, true);
    assert w == ScriptOpen + LocationScript(url) + ScriptClose;
    assert w[|ScriptOpen|..|w| - |ScriptClose|] == LocationScript(url);
  }

  // ---------------------------------------------------------------------------
  // Objects the redirect writes to
  // ---------------------------------------------------------------------------

  class Context {
    /** Whether URLs are generated complete (with scheme and host) rather than relative. */
    var completeURLs: bool
    var page: Option<Component>

    constructor(completeURLs: bool, page: Option<Component>)
      ensures this.completeURLs == completeURLs && this.page == page
    {
      this.completeURLs := completeURLs;
      this.page := page;
    }
  }

  class Response {
    var headers: map<string, string>
    var status: int
    var content: string
    var forceStorePage: bool

    constructor()
      ensures headers == map[] && status == 200 && content == "" && !forceStorePage
    {
      headers := map[];
      status := 200;
      content := "";
      forceStorePage := false;
    }
  }

  class Redirect {
    var bindings: Bindings
    /** The page of the context the redirect was created in. */
    const originalComponent: Option<Component>

    constructor(page: Option<Component>)
      ensures originalComponent == page
      ensures bindings == Bindings(None, None, None, None, false, None, None, None, None)
    {
      originalComponent := page;
      bindings := Bindings(None, None, None, None, false, None, None, None, None);
    }

    method SetSecure(secure: bool)
      modifies this`bindings
      ensures bindings == old(bindings).(secure := Some(secure))
    {
      bindings := bindings.(secure := Some(secure));
    }

    method SetIncludeSessionID(includeSessionID: bool)
      modifies this`bindings
      ensures bindings == old(bindings).(includeSessionID := includeSessionID)
    {
      bindings := bindings.(includeSessionID := includeSessionID);
    }

    method SetUrl(url: Option<string>)
      modifies this`bindings
      ensures bindings == old(bindings).(url := url)
    {
      bindings := bindings.(url := url);
    }

    method SetRequestHandlerKey(key: Option<string>)
      modifies this`bindings
      ensures bindings == old(bindings).(requestHandlerKey := key)
    {
      bindings := bindings.(requestHandlerKey := key);
    }

    method SetRequestHandlerPath(path: Option<string>)
      modifies this`bindings
      ensures bindings == old(bindings).(requestHandlerPath := path)
    {
      bindings := bindings.(requestHandlerPath := path);
    }

    method SetDirectActionClass(className: Option<string>)
      modifies this`bindings
      ensures bindings == old(bindings).(directActionClass := className)
    {
      bindings := bindings.(directActionClass := className);
    }

    method SetDirectActionName(name: Option<string>)
      modifies this`bindings
      ensures bindings == old(bindings).(directActionName := name)
    {
      bindings := bindings.(directActionName := name);
    }

    method SetComponent(component: Option<Component>)
      modifies this`bindings
      ensures bindings == old(bindings).(component := component)
    {
      bindings := bindings.(component := component);
    }

    /** Redirects back to the page the redirect was created on. */
    method SetComponentToPage()
      modifies this`bindings
      ensures bindings == old(bindings).(component := originalComponent)
    {
      bindings := bindings.(component := originalComponent);
    }

    method SetQueryParameters(params: Option<Params>)
      modifies this`bindings
      ensures bindings == old(bindings).(queryParameters := params)
    {
      bindings := bindings.(queryParameters := params);
    }

    /**
     * Writes the redirect: a location header and status 302, or for an Ajax
     * request a script assigning the location. Complete URLs are switched on
     * while the URL is built when the wanted security differs from the
     * request's, and the context's URL mode is restored afterwards, also on error.
     */
    method AppendToResponse(response: Response, context: Context, env: Environment, urls: UrlBuilders)
      returns (error: Option<RedirectError>)
      modifies response, context
      ensures context.completeURLs == old(context.completeURLs)
      ensures error.Some? <==> Location(bindings, env, urls, Complete(bindings, env, old(context.completeURLs))).Err?
      ensures error.Some? ==>
        error == Some(Location(bindings, env, urls, Complete(bindings, env, old(context.completeURLs))).error)
        && context.page == old(context.page)
        && response.headers == old(response.headers) && response.status == old(response.status)
        && response.content == old(response.content) && response.forceStorePage == old(response.forceStorePage)
      ensures error.None? ==>
        Written(old(response.headers), old(response.status), old(response.content), response,
          Location(bindings, env, urls, Complete(bindings, env, old(context.completeURLs))).value, env)
      ensures error.None? ==>
        response.forceStorePage == (old(response.forceStorePage) || bindings.component.Some?)
        && context.page == (if bindings.component.Some? then bindings.component else old(context.page))
    {
      var secure := Secure(bindings, env);
      var generatingCompleteURLs := context.completeURLs;
      if secure != env.requestSecure {
        context.completeURLs := true;
      }
      var location := Location(bindings, env, urls, context.completeURLs);
      if location.Err? {
        error := Some(location.error);
      } else {
        error := None;
        if bindings.component.Some? {
          context.page := bindings.component;
        }
        WriteLocation(response, location.value, env);
        if bindings.component.Some? {
          response.forceStorePage := true;
        }
      }
      context.completeURLs := generatingCompleteURLs;
    }
  }

  /** Whether complete URLs are generated while the redirect builds its URL. */
  function Complete(b: Bindings, env: Environment, mode: bool): bool {
    mode || Secure(b, env) != env.requestSecure
  }

  /** The response after writing a redirect to `url`, from headers, status and content as they were. */
  ghost predicate Written(headers: map<string, string>, status: int, content: string, response: Response, url: string, env: Environment)
    reads response
  {
    if env.ajax then
      response.content == content + AjaxContent(url, env.updateContainerID.Some?)
      && response.status == status
      && response.headers == (if env.updateContainerID.Some? then headers else headers["Content-Type" := "text/javascript"])
    else
      response.headers == headers["location" := url] && response.status == 302 && response.content == content
  }

  /** Writes the redirect to `url`: a 302 with a location header, or the Ajax script. */
  method WriteLocation(response: Response, url: string, env: Environment)
    modifies response`headers, response`status, response`content
    ensures Written(old(response.headers), old(response.status), old(response.content), response, url, env)
  {
    if env.ajax {
      var hasUpdateContainer := env.updateContainerID.Some?;
      if hasUpdateContainer {
        response.content := response.content + ScriptOpen;
      } else {
        response.headers := response.headers["Content-Type" := "text/javascript"];
      }
      response.content := response.content + LocationScript(url);
      if hasUpdateContainer {
        response.content := response.content + ScriptClose;
      }
    } else {
      response.headers := response.headers["location" := url];
      response.status := 302;
    }
  }
}
