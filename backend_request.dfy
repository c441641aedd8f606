/**
  The client half that builds a request: the base URL, the body and the
  headers BackendManager.Send hands to the engine's HTTP client.
 */
module BackendRequest {
  import opened Wrappers

  type byte = x: int | 0 <= x < 256

  datatype RequestType = Get | Post | Update | Delete

  /** The enum's ToString(): the member's name as declared. */
  function RequestTypeName(t: RequestType): (n: string)
    ensures n != [] && 'A' <= n[0] <= 'Z'
    ensures forall i :: 1 <= i < |n| ==> 'a' <= n[i] <= 'z'
  {
    match t
    case Get => "Get"
    case Post => "Post"
    case Update => "Update"
    case Delete => "Delete"
  }

  function UpperChar(c: char): (u: char)
    ensures 'a' <= c <= 'z' ==> 'A' <= u <= 'Z' && u as int == c as int - 'a' as int + 'A' as int
    ensures !('a' <= c <= 'z') ==> u == c
  {
    if 'a' <= c <= 'z' then (c as int - 'a' as int + 'A' as int) as char else c
  }

  /** String.ToUpper on ASCII text; none of the request type names holds a letter whose upper case depends on the culture. */
  function ToUpper(s: string): (u: string)
    ensures |u| == |s|
    ensures forall i :: 0 <= i < |s| ==> u[i] == UpperChar(s[i])
  {
    if s == [] then [] else [UpperChar(s[0])] + ToUpper(s[1..])
  }

  /** The UNITY_METHOD header value: `type.ToString().ToUpper()`. */
  function UnityMethod(t: RequestType): (m: string)
    ensures |m| == |RequestTypeName(t)|
    ensures forall i :: 0 <= i < |m| ==> 'A' <= m[i] <= 'Z'
  {
    ToUpper(RequestTypeName(t))
  }

  /** The four header values, and so distinct request types give distinct headers. */
  lemma UnityMethodValues(t: RequestType)
    ensures t == Get ==> UnityMethod(t) == "GET"
    ensures t == Post ==> UnityMethod(t) == "POST"
    ensures t == Update ==> UnityMethod(t) == "UPDATE"
    ensures t == Delete ==> UnityMethod(t) == "DELETE"
  {
    var name := RequestTypeName(t);
    var upper := UnityMethod(t);
    assert |upper| == |name|;
    forall i | 0 <= i < |name| ensures upper[i] == UpperChar(name[i]) { }
  }

  /** The server can tell the request type back from the header. */
  lemma UnityMethodInjective(t1: RequestType, t2: RequestType)
    ensures UnityMethod(t1) == UnityMethod(t2) <==> t1 == t2
  {
    UnityMethodValues(t1);
    UnityMethodValues(t2);
  }

  /** The serialized URL settings of a BackendManager. */
  datatype Settings = Settings(useProduction: bool, productionUrl: string, developmentUrl: string)

  const DefaultSettings: Settings := Settings(false, "http://foobar:8000/api/", "http://localhost:8000/api/")

  /** The hostUrl property. */
  function HostUrl(s: Settings): (url: string)
    ensures s.useProduction ==> url == s.productionUrl
    ensures !s.useProduction ==> url == s.developmentUrl
  {
    if s.useProduction then s.productionUrl else s.developmentUrl
  }

  /** A freshly added BackendManager talks to the development server. */
  lemma DefaultIsDevelopment()
    ensures HostUrl(DefaultSettings) == "http://localhost:8000/api/"
    ensures HostUrl(DefaultSettings.(useProduction := true)) == "http://foobar:8000/api/"
  {
  }

  /** A form: its encoded body and the headers it asks for. */
  datatype Form = Form(data: seq<byte>, headers: map<string, string>)

  /** What is handed to the engine's HTTP client. */
  datatype OutgoingRequest = OutgoingRequest(url: string, postData: seq<byte>, headers: map<string, string>)

  /** Hashtable.Add raises on a key already present; Send lets that exception escape. */
  datatype SendError = DuplicateHeader(name: string)

  const AcceptHeader: string := "Accept"
  const MethodHeader: string := "UNITY_METHOD"
  const AuthorizationHeader: string := "Authorization"

  /** The header table Send fills in place. */
  class HeaderTable {
    var entries: map<string, string>

    constructor (initial: map<string, string>)
      ensures entries == initial
    {
      entries := initial;
    }

    /** Hashtable.Add: a new key is stored; a key already present is refused and nothing changes. */
    method Add(key: string, value: string) returns (ok: bool)
      modifies this
      ensures ok <==> key !in old(entries)
      ensures entries == if ok then old(entries)[key := value] else old(entries)
    {
      ok := key !in entries;
      if ok {
        entries := entries[key := value];
      }
    }
  }

  /**
    BackendManager.Send up to the hand-over to the HTTP client. `blank` is
    the form the engine builds when the caller passes none (its own headers
    are the engine's business). The request goes to the chosen host plus
    the command; a missing form sends the single byte 1; the headers are the
    form's plus Accept, UNITY_METHOD and, for a non-empty token,
    Authorization, each added in that order and each failing on a clash.
   */
  method Send(settings: Settings, t: RequestType, command: string, form: Option<Form>, blank: Form, authToken: string)
    returns (r: Result<OutgoingRequest, SendError>)
    ensures var base := if form.None? then blank.headers else form.value.headers;
      && (AcceptHeader in base ==> r == Err(DuplicateHeader(AcceptHeader)))
      && (AcceptHeader !in base && MethodHeader in base ==> r == Err(DuplicateHeader(MethodHeader)))
      && (AcceptHeader !in base && MethodHeader !in base && authToken != "" && AuthorizationHeader in base ==>
            r == Err(DuplicateHeader(AuthorizationHeader)))
      && (r.Ok? <==> AcceptHeader !in base && MethodHeader !in base && (authToken != "" ==> AuthorizationHeader !in base))
    ensures r.Ok? ==> r.value.url == HostUrl(settings) + command
    ensures r.Ok? ==> r.value.postData == if form.None? then [1] else form.value.data
    ensures r.Ok? ==> var base := if form.None? then blank.headers else form.value.headers;
      && r.value.headers.Keys == base.Keys + {AcceptHeader, MethodHeader} + (if authToken != "" then {AuthorizationHeader} else {})
      && r.value.headers[AcceptHeader] == "application/json"
      && r.value.headers[MethodHeader] == UnityMethod(t)
      && (authToken != "" ==> r.value.headers[AuthorizationHeader] == "Token " + authToken)
      && forall k :: k in base ==> r.value.headers[k] == base[k]
  {
    var url := HostUrl(settings) + command;
    var wwwForm: Form;
    var postData: seq<byte>;
    if form.None? {
      wwwForm := blank;
      postData := [1];
    } else {
      wwwForm := form.value;
      postData := wwwForm.data;
    }
    var headers := new HeaderTable(wwwForm.headers);
    var ok := headers.Add(AcceptHeader, "application/json");
    if !ok {
      return Err(DuplicateHeader(AcceptHeader));
    }
    ok := headers.Add(MethodHeader, UnityMethod(t));
    if !ok {
      return Err(DuplicateHeader(MethodHeader));
    }
    if authToken != "" {
      ok := headers.Add(AuthorizationHeader, "Token " + authToken);
      if !ok {
        return Err(DuplicateHeader(AuthorizationHeader));
      }
    }
    r := Ok(OutgoingRequest(url, postData, headers.entries));
  }
}
