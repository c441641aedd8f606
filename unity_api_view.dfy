/**
  The server half of the status-wrapping protocol: every response leaves the
  view with wire status 200 and its real status saved in the REAL_STATUS
  header as "<code> <reason phrase>".
 */
module UnityApiView {
  import opened Decimal

  const RealStatusHeader: string := "REAL_STATUS"
  const WireStatus: int := 200

  /**
    The reason phrase the REST framework reports for a status code: Python 2's
    httplib.responses table, and "" for a code it does not list.
   */
  function StatusText(code: int): (t: string)
    ensures t != "" ==> 100 <= code <= 505
    ensures 200 <= code <= 206 ==> t != ""
  {
    match code
    case 100 => "Continue"
    case 101 => "Switching Protocols"
    case 200 => "OK"
    case 201 => "Created"
    case 202 => "Accepted"
    case 203 => "Non-Authoritative Information"
    case 204 => "No Content"
    case 205 => "Reset Content"
    case 206 => "Partial Content"
    case 300 => "Multiple Choices"
    case 301 => "Moved Permanently"
    case 302 => "Found"
    case 303 => "See Other"
    case 304 => "Not Modified"
    case 305 => "Use Proxy"
    case 306 => "(Unused)"
    case 307 => "Temporary Redirect"
    case 400 => "Bad Request"
    case 401 => "Unauthorized"
    case 402 => "Payment Required"
    case 403 => "Forbidden"
    case 404 => "Not Found"
    case 405 => "Method Not Allowed"
    case 406 => "Not Acceptable"
    case 407 => "Proxy Authentication Required"
    case 408 => "Request Timeout"
    case 409 => "Conflict"
    case 410 => "Gone"
    case 411 => "Length Required"
    case 412 => "Precondition Failed"
    case 413 => "Request Entity Too Large"
    case 414 => "Request-URI Too Long"
    case 415 => "Unsupported Media Type"
    case 416 => "Requested Range Not Satisfiable"
    case 417 => "Expectation Failed"
    case 500 => "Internal Server Error"
    case 501 => "Not Implemented"
    case 502 => "Bad Gateway"
    case 503 => "Service Unavailable"
    case 504 => "Gateway Timeout"
    case 505 => "HTTP Version Not Supported"
    case _ => ""
  }

  /** The header value `'%s %s' % (status_code, status_text)`. */
  function RealStatus(code: int, text: string): (v: string)
    ensures Show(code) <= v && |v| > |Show(code)| && v[|Show(code)|] == ' '
    ensures v[|Show(code)| + 1..] == text
  {
    Show(code) + " " + text
  }

  /** The headers of a response finalized with real status `code`: REAL_STATUS set (replacing any earlier value), every other header kept. */
  function Finalized(headers: map<string, string>, code: int): (h: map<string, string>)
    ensures h.Keys == headers.Keys + {RealStatusHeader}
    ensures h[RealStatusHeader] == RealStatus(code, StatusText(code))
    ensures forall k :: k in headers && k != RealStatusHeader ==> h[k] == headers[k]
  {
    headers[RealStatusHeader := RealStatus(code, StatusText(code))]
  }

  /** A response on its way out of a view: status, headers and payload. */
  class HttpResponse<Body> {
    var statusCode: int
    var headers: map<string, string>
    var data: Body

    constructor (status: int, data: Body)
      ensures statusCode == status && headers == map[] && this.data == data
    {
      statusCode := status;
      headers := map[];
      this.data := data;
    }

    /**
      UnityAPIView.finalize_response: record the real status in REAL_STATUS
      (replacing any earlier value) and force the status code to 200.
     */
    method FinalizeResponse()
      modifies this
      ensures statusCode == WireStatus
      ensures headers == Finalized(old(headers), old(statusCode))
      ensures data == old(data)
    {
      headers := Finalized(headers, statusCode);
      statusCode := WireStatus;
    }
  }
}
