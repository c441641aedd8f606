/**
  The client half that reads a response: how BackendManager.HandleRequest
  sorts a finished request into exactly one ResponseType and calls back
  (at most once) with it.
 */
module BackendResponse {
  import opened Wrappers
  import opened Decimal

  datatype ResponseType = Success | ErrorFromClient | ErrorFromServer | ParseError | BackendDisabled | RequestError

  const StatusHeader: string := "REAL_STATUS"

  /**
    A finished request as the engine's HTTP client reports it. The error
    string is "" both when it is null and when it is empty; the body text
    is what the server sent.
   */
  datatype WwwResult = WwwResult(error: string, responseHeaders: map<string, string>, text: string)

  /** One call of the response delegate. */
  datatype Invocation<J> = Invocation(kind: ResponseType, json: Option<J>, callee: string)

  /** The delegate calls one handled request made, and whether an exception ended it instead. */
  datatype Run<J> = Run(calls: seq<Invocation<J>>, threw: bool)

  /** `s.Split(' ')[0]`: everything before the first space. */
  function FirstField(s: string): (f: string)
    ensures f <= s
    ensures forall i :: 0 <= i < |f| ==> f[i] != ' '
    ensures |f| < |s| ==> s[|f|] == ' '
  {
    if s == [] || s[0] == ' ' then [] else [s[0]] + FirstField(s[1..])
  }

  /** The status code HandleRequest works with; None when int.Parse throws. */
  function ReadStatusCode(headers: map<string, string>): (r: Option<int>)
    ensures StatusHeader !in headers ==> r == Some(200)
    ensures r.Some? ==> MinInt32 <= r.value <= MaxInt32
    ensures StatusHeader in headers && r.Some? ==> ParseNetInteger(FirstField(headers[StatusHeader])) == r
    ensures StatusHeader in headers && r.None? ==>
      var n := ParseNetInteger(FirstField(headers[StatusHeader]));
      n.None? || n.value < MinInt32 || MaxInt32 < n.value
  {
    if StatusHeader in headers then ParseInt32(FirstField(headers[StatusHeader])) else Some(200)
  }

  /** The success window: 2xx codes only, though not all of them. */
  predicate IsSuccessful(code: int)
    ensures IsSuccessful(code) ==> 200 <= code < 300
    ensures code == 200 ==> IsSuccessful(code)
    ensures code == 207 ==> !IsSuccessful(code)
    ensures IsSuccessful(code) <==> 200 <= code <= 206
  {
    200 <= code <= 206
  }

  predicate StatusSucceeded(w: WwwResult) {
    var c := ReadStatusCode(w.responseHeaders);
    c.Some? && IsSuccessful(c.value)
  }

  predicate StatusFailed(w: WwwResult) {
    var c := ReadStatusCode(w.responseHeaders);
    c.Some? && !IsSuccessful(c.value)
  }

  /**
    The JSON parse, with the parsers themselves left abstract: a body that
    starts with '[' goes to the array parser, anything else to the object
    parser; None is a parse exception.
   */
  function ParseBody<J>(text: string, parseArray: string -> Option<J>, parseObject: string -> Option<J>): (r: Option<J>)
    ensures "[" <= text ==> r == parseArray(text)
    ensures !("[" <= text) ==> r == parseObject(text)
  {
    if |text| > 0 && text[0] == '[' then parseArray(text) else parseObject(text)
  }

  predicate Fired<J>(r: Run<J>, kind: ResponseType) {
    |r.calls| == 1 && r.calls[0].kind == kind
  }

  /**
    HandleRequest once the request is done. A transport error wins over
    everything; then the status code (200 unless REAL_STATUS says
    otherwise); then the parse. The delegate is called at most once and
    never when it is null.
   */
  function HandleRequest<J>(request: WwwResult, hasCallback: bool, callee: string,
                            parseArray: string -> Option<J>, parseObject: string -> Option<J>): (r: Run<J>)
    ensures |r.calls| <= 1
    ensures !hasCallback ==> r.calls == []
    ensures r.threw <==> request.error == "" && ReadStatusCode(request.responseHeaders).None?
    ensures r.threw ==> r.calls == []
    ensures hasCallback && !r.threw ==> |r.calls| == 1
    ensures forall inv :: inv in r.calls ==> inv.callee == callee
    ensures hasCallback ==> (Fired(r, RequestError) <==> request.error != "")
    ensures hasCallback ==>
      (Fired(r, ErrorFromServer) <==>
         request.error == "" && StatusFailed(request) && ParseBody(request.text, parseArray, parseObject).Some?)
    ensures hasCallback ==>
      (Fired(r, Success) <==>
         request.error == "" && StatusSucceeded(request)
         && (ParseBody(request.text, parseArray, parseObject).Some? || request.text == ""))
    ensures hasCallback ==>
      (Fired(r, ParseError) <==>
         request.error == "" && ReadStatusCode(request.responseHeaders).Some?
         && ParseBody(request.text, parseArray, parseObject).None?
         && (StatusFailed(request) || request.text != ""))
    ensures !Fired(r, ErrorFromClient) && !Fired(r, BackendDisabled)
    ensures |r.calls| == 1 ==>
      r.calls[0].json ==
        if r.calls[0].kind == Success || r.calls[0].kind == ErrorFromServer
        then ParseBody(request.text, parseArray, parseObject) else None
  {
    if request.error != "" then
      Run(if hasCallback then [Invocation(RequestError, None, callee)] else [], false)
    else
      match ReadStatusCode(request.responseHeaders)
      case None => Run([], true)
      case Some(statusCode) =>
        var responseSuccessful := IsSuccessful(statusCode);
        match ParseBody(request.text, parseArray, parseObject)
        case None =>
          if !hasCallback then Run([], false)
          else if !responseSuccessful then Run([Invocation(ParseError, None, callee)], false)
          else if request.text == "" then Run([Invocation(Success, None, callee)], false)
          else Run([Invocation(ParseError, None, callee)], false)
        case Some(responseObj) =>
          if !responseSuccessful then
            Run(if hasCallback then [Invocation(ErrorFromServer, Some(responseObj), callee)] else [], false)
          else
            Run(if hasCallback then [Invocation(Success, Some(responseObj), callee)] else [], false)
  }

  /** A transport error settles the outcome without looking at the headers or the body. */
  lemma RequestErrorIgnoresResponse<J>(w1: WwwResult, w2: WwwResult, hasCallback: bool, callee: string,
                                       parseArray: string -> Option<J>, parseObject: string -> Option<J>)
    requires w1.error != "" && w2.error != ""
    ensures HandleRequest(w1, hasCallback, callee, parseArray, parseObject)
         == HandleRequest(w2, hasCallback, callee, parseArray, parseObject)
    ensures hasCallback ==>
      HandleRequest(w1, hasCallback, callee, parseArray, parseObject).calls == [Invocation(RequestError, None, callee)]
  {
  }
}
