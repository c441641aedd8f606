/**
  The two halves of the status-wrapping protocol together: what the client
  concludes from a response the server has finalized.
 */
module StatusProtocol {
  import opened Wrappers
  import opened Decimal
  import UnityApiView
  import opened BackendResponse
  import Endpoints

  /** Splitting the header at its first space gives back the decimal code, whatever the phrase. */
  lemma FirstFieldOfRealStatus(code: int, text: string)
    ensures FirstField(UnityApiView.RealStatus(code, text)) == Show(code)
  {
    var v := UnityApiView.RealStatus(code, text);
    var s := Show(code);
    assert v[..|s|] == s;
  }

  /** Round trip: for any 32-bit code the server writes, the client reads back exactly that code. */
  lemma ClientRecoversServerStatus(headers: map<string, string>, code: int, text: string)
    requires MinInt32 <= code <= MaxInt32
    ensures ReadStatusCode(headers[UnityApiView.RealStatusHeader := UnityApiView.RealStatus(code, text)]) == Some(code)
  {
    FirstFieldOfRealStatus(code, text);
    ParseInt32Show(code);
  }

  /** What a finalized response says about its real status is what the client reads: for any 32-bit code and any other headers. */
  lemma FinalizedStatusReadBack(headers: map<string, string>, code: int)
    requires MinInt32 <= code <= MaxInt32
    ensures ReadStatusCode(UnityApiView.Finalized(headers, code)) == Some(code)
  {
    ClientRecoversServerStatus(headers, code, UnityApiView.StatusText(code));
  }

  /**
    The statuses the views answer with reach the client as they are meant:
    200, 201 and 204 as successes, 400 as a failure.
   */
  lemma ViewStatusesClassified()
    ensures IsSuccessful(Endpoints.HTTP_200_OK) && IsSuccessful(Endpoints.HTTP_201_CREATED)
    ensures IsSuccessful(Endpoints.HTTP_204_NO_CONTENT) && !IsSuccessful(Endpoints.HTTP_400_BAD_REQUEST)
    ensures forall code :: code in {Endpoints.HTTP_200_OK, Endpoints.HTTP_201_CREATED, Endpoints.HTTP_204_NO_CONTENT, Endpoints.HTTP_400_BAD_REQUEST} ==>
      ReadStatusCode(UnityApiView.Finalized(map[], code)) == Some(code)
  {
    forall code | code in {Endpoints.HTTP_200_OK, Endpoints.HTTP_201_CREATED, Endpoints.HTTP_204_NO_CONTENT, Endpoints.HTTP_400_BAD_REQUEST}
      ensures ReadStatusCode(UnityApiView.Finalized(map[], code)) == Some(code)
    {
      FinalizedStatusReadBack(map[], code);
    }
  }

  /** A code outside 32 bits makes int.Parse throw: the request ends without a callback. */
  lemma OutOfRangeStatusThrows<J>(headers: map<string, string>, code: int, body: string, callee: string,
                                  parseArray: string -> Option<J>, parseObject: string -> Option<J>)
    requires code < MinInt32 || MaxInt32 < code
    ensures var r := HandleRequest(WwwResult("", UnityApiView.Finalized(headers, code), body), true, callee, parseArray, parseObject);
      r.threw && r.calls == []
  {
    FirstFieldOfRealStatus(code, UnityApiView.StatusText(code));
    ParseNetShow(code);
  }

  /**
    End to end: a finalized response reaches the client's delegate exactly
    once; the kind depends only on the server's real code and on the parse.
   */
  lemma FinalizedResponseOutcome<J>(headers: map<string, string>, code: int, body: string, callee: string,
                                  parseArray: string -> Option<J>, parseObject: string -> Option<J>)
    requires MinInt32 <= code <= MaxInt32
    ensures var r := HandleRequest(WwwResult("", UnityApiView.Finalized(headers, code), body), true, callee, parseArray, parseObject);
      var parsed := ParseBody(body, parseArray, parseObject);
      && !r.threw
      && (parsed.Some? ==>
            r.calls == [Invocation(if 200 <= code <= 206 then Success else ErrorFromServer, parsed, callee)])
      && (parsed.None? ==>
            r.calls == [Invocation(if 200 <= code <= 206 && body == "" then Success else ParseError, None, callee)])
  {
    ClientRecoversServerStatus(headers, code, UnityApiView.StatusText(code));
  }

  /** The account-deletion success (204, no body) arrives as Success without JSON when "" does not parse. */
  lemma NoContentIsSuccess<J>(headers: map<string, string>, callee: string,
                              parseArray: string -> Option<J>, parseObject: string -> Option<J>)
    requires parseObject("") == None
    ensures HandleRequest(WwwResult("", UnityApiView.Finalized(headers, 204), ""), true, callee, parseArray, parseObject).calls
         == [Invocation(Success, None, callee)]
  {
    FinalizedResponseOutcome(headers, 204, "", callee, parseArray, parseObject);
  }

  /** A response without REAL_STATUS is read as 200. */
  lemma MissingHeaderMeansOk(w: WwwResult)
    requires StatusHeader !in w.responseHeaders
    ensures ReadStatusCode(w.responseHeaders) == Some(200) && StatusSucceeded(w)
  {
  }
}
