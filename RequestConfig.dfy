/** The default interceptors of the front end's HTTP client. Before a request is sent, form
    posts have their body encoded, and a GET request has its parameters written into the
    URL (an absolute URL is first cut down to its path and query), after which the
    parameter object is emptied. When a response comes back, file downloads pass through
    whole, success codes give the response body, and a 401 logs the user out. */
module RequestConfig {
  import opened Common
  import opened JsNumber

  // ---------------------------------------------------------------- absolute URLs

  /** The index of the first character of `s` in `stops`, or `|s|` when there is none. */
  function StopAt(s: string, stops: set<char>): (k: nat)
    ensures k <= |s|
    ensures k < |s| ==> s[k] in stops
    ensures forall j :: 0 <= j < k ==> s[j] !in stops
  {
    if s == [] then 0
    else if s[0] in stops then 0
    else 1 + StopAt(s[1..], stops)
  }

  predicate IsAbsolute(url: string)
  {
    StartsWith(url, "http://") || StartsWith(url, "https://")
  }

  /** `new URL(url)` then `pathname + search` for an absolute URL: the host runs up to the
      first `/`, `?` or `#`; the path up to the first `?` or `#`, `/` when empty; the query up
      to the `#`, dropped when it is a bare `?`. An empty host makes the parse fail (`None`). */
  function PathAndSearch(url: string): (r: Option<string>)
    requires IsAbsolute(url)
    ensures r.Some? ==> r.value != [] && r.value[0] in {'/', '?'} && '#' !in r.value
  {
    AfterScheme(if StartsWith(url, "http://") then url[7..] else url[8..])
  }

  /** The cut of what follows `http://` or `https://`. */
  function AfterScheme(rest: string): (r: Option<string>)
    ensures r.Some? ==> r.value != [] && r.value[0] in {'/', '?'} && '#' !in r.value
  {
    var hostEnd := StopAt(rest, {'/', '?', '#'});
    if hostEnd == 0 then None
    else
      var after := rest[hostEnd..];
      var pathEnd := StopAt(after, {'?', '#'});
      var pathname := if pathEnd == 0 then "/" else after[..pathEnd];
      var tail := after[pathEnd..];
      var queryEnd := StopAt(tail, {'#'});
      var search := if queryEnd <= 1 then "" else tail[..queryEnd];
      assert forall j :: 0 <= j < |pathname| ==> pathname[j] != '#';
      Some(pathname + search)
  }

  /** The URL a GET request's parameters are appended to. */
  function BaseUrl(url: string): string
  {
    if IsAbsolute(url) then
      var cut := PathAndSearch(url);
      if cut.Some? then cut.value else url
    else url
  }

  /** An absolute URL is reduced to its path and query; a relative one, or one that does not
      parse, is kept. */
  lemma BaseUrlOfAbsolute(url: string)
    ensures !IsAbsolute(url) ==> BaseUrl(url) == url
    ensures IsAbsolute(url) && PathAndSearch(url).Some? ==>
      BaseUrl(url) != [] && BaseUrl(url)[0] in {'/', '?'} && '#' !in BaseUrl(url)
  {
  }

  /** The first stop of a text is where the stop-free part before it ends. */
  lemma {:induction false} StopAtAfter(a: string, b: string, stops: set<char>)
    requires forall j :: 0 <= j < |a| ==> a[j] !in stops
    requires b == [] || b[0] in stops
    ensures StopAt(a + b, stops) == |a|
  {
    if a != [] {
      assert (a + b)[0] == a[0];
      assert (a + b)[1..] == a[1..] + b;
      StopAtAfter(a[1..], b, stops);
    } else {
      assert a + b == b;
    }
  }

  /** An `http` URL made of a host, a path, a query of more than the bare `?` and a fragment
      is cut to the path and the query. */
  lemma PathAndSearchOfParts(host: string, path: string, query: string, frag: string)
    requires host != [] && forall j :: 0 <= j < |host| ==> host[j] !in {'/', '?', '#'}
    requires path != [] && path[0] == '/' && forall j :: 0 <= j < |path| ==> path[j] !in {'?', '#'}
    requires |query| >= 2 && query[0] == '?' && forall j :: 0 <= j < |query| ==> query[j] != '#'
    requires frag == [] || frag[0] == '#'
    ensures PathAndSearch("http://" + host + path + query + frag) == Some(path + query)
  {
    var url := "http://" + host + path + query + frag;
    var rest := host + (path + query + frag);
    assert url == "http://" + rest;
    assert url[..7] == "http://";
    assert url[7..] == rest;
    AfterSchemeOfParts(host, path, query, frag);
  }

  lemma AfterSchemeOfParts(host: string, path: string, query: string, frag: string)
    requires host != [] && forall j :: 0 <= j < |host| ==> host[j] !in {'/', '?', '#'}
    requires path != [] && path[0] == '/' && forall j :: 0 <= j < |path| ==> path[j] !in {'?', '#'}
    requires |query| >= 2 && query[0] == '?' && forall j :: 0 <= j < |query| ==> query[j] != '#'
    requires frag == [] || frag[0] == '#'
    ensures AfterScheme(host + (path + query + frag)) == Some(path + query)
  {
    var after := path + query + frag;
    var tail := query + frag;
    StopAtAfter(host, after, {'/', '?', '#'});
    assert (host + after)[|host|..] == after;
    assert after == path + tail;
    StopAtAfter(path, tail, {'?', '#'});
    assert after[..|path|] == path && after[|path|..] == tail;
    StopAtAfter(query, frag, {'#'});
    assert tail[..|query|] == query;
  }

  // ---------------------------------------------------------------- GET parameters

  /** The request parameters, in `Object.keys` order. */
  type Params = seq<(string, Value)>

  predicate Given(v: Value)
  {
    !v.Undefined? && !v.Null?
  }

  /** The `key=value` pieces the URL receives: one per parameter that is neither undefined
      nor null, in order; `encode` is `encodeURIComponent` of the value. */
  function Pieces(params: Params, encode: Value -> string): (r: seq<string>)
    ensures |r| <= |params|
  {
    if params == [] then []
    else
      var last := params[|params| - 1];
      Pieces(params[..|params| - 1], encode) + (if Given(last.1) then [last.0 + "=" + encode(last.1)] else [])
  }

  /** Each piece followed by `&`: what the loop appends. */
  function Appended(pieces: seq<string>): string
  {
    if pieces == [] then ""
    else Appended(pieces[..|pieces| - 1]) + pieces[|pieces| - 1] + "&"
  }

  /** The URL of a GET request with parameters: the base, `&` when the base already holds a
      `?` and `?` otherwise, the pieces each followed by `&`, and the last character cut. */
  function GetUrl(url: string, params: Params, encode: Value -> string): string
  {
    var base := BaseUrl(url);
    var s := base + (if '?' in base then "&" else "?") + Appended(Pieces(params, encode));
    s[..|s| - 1]
  }

  lemma {:induction false} JoinSnoc(parts: seq<string>, p: string, sep: string)
    ensures Join(parts + [p], sep) == if parts == [] then p else Join(parts, sep) + sep + p
  {
    if parts != [] {
      if |parts| == 1 {
        assert parts + [p] == [parts[0], p];
        assert [parts[0], p][1..] == [p];
      } else {
        assert (parts + [p])[1..] == parts[1..] + [p];
        JoinSnoc(parts[1..], p, sep);
      }
    }
  }

  lemma {:induction false} AppendedIsJoin(pieces: seq<string>)
    requires pieces != []
    ensures Appended(pieces) == Join(pieces, "&") + "&"
  {
    var front := pieces[..|pieces| - 1];
    assert pieces == front + [pieces[|pieces| - 1]];
    JoinSnoc(front, pieces[|pieces| - 1], "&");
    if front != [] {
      AppendedIsJoin(front);
    }
  }

  /** The URL holds every given parameter as `key=value`, joined with `&` after the right
      separator; when no parameter is given the URL is the base alone. */
  lemma GetUrlShape(url: string, params: Params, encode: Value -> string)
    ensures var base := BaseUrl(url);
      var pieces := Pieces(params, encode);
      GetUrl(url, params, encode) ==
        if pieces == [] then base
        else base + (if '?' in base then "&" else "?") + Join(pieces, "&")
  {
    var base := BaseUrl(url);
    var pieces := Pieces(params, encode);
    var sep := if '?' in base then "&" else "?";
    if pieces == [] {
      assert base + sep + Appended(pieces) == base + sep;
    } else {
      AppendedIsJoin(pieces);
      assert base + sep + Appended(pieces) == (base + sep + Join(pieces, "&")) + "&";
    }
  }

  /** One more parameter adds its piece, followed by `&`, when it is given. */
  lemma PiecesStep(ps: Params, i: nat, encode: Value -> string)
    requires i < |ps|
    ensures Appended(Pieces(ps[..i + 1], encode)) ==
      Appended(Pieces(ps[..i], encode)) + (if Given(ps[i].1) then ps[i].0 + "=" + encode(ps[i].1) + "&" else "")
  {
    assert ps[..i + 1][..i] == ps[..i];
    var pieces := Pieces(ps[..i], encode);
    assert ps[..i + 1][i] == ps[i];
    if Given(ps[i].1) {
      var more := pieces + [ps[i].0 + "=" + encode(ps[i].1)];
      assert Pieces(ps[..i + 1], encode) == more;
      assert more[..|more| - 1] == pieces;
    } else {
      assert Pieces(ps[..i + 1], encode) == pieces;
    }
  }

  /** Undefined and null parameters leave nothing in the URL. */
  lemma {:induction false} UngivenLeaveNothing(params: Params, encode: Value -> string)
    requires forall i :: 0 <= i < |params| ==> !Given(params[i].1)
    ensures Pieces(params, encode) == []
  {
    if params != [] {
      UngivenLeaveNothing(params[..|params| - 1], encode);
    }
  }

  /** The loop over the parameter keys: each given parameter appends `key=value&`. */
  method QueryOf(params: Params, encode: Value -> string) returns (query: string)
    ensures query == Appended(Pieces(params, encode))
  {
    query := "";
    for i := 0 to |params|
      invariant query == Appended(Pieces(params[..i], encode))
    {
      PiecesStep(params, i, encode);
      if params[i].1 != Undefined && params[i].1 != Null {
        query := query + (params[i].0 + "=" + encode(params[i].1) + "&");
      }
    }
    assert params[..|params|] == params;
  }

  // ---------------------------------------------------------------- the request interceptor

  /** How the request body stands: as the caller gave it, encoded as a query string
      (`qs.stringify`), or turned into form data (`objToFormData`). */
  datatype Body = AsGiven(isFormData: bool) | QueryString | Form

  /** The body encoding of a request: a URL-encoded post becomes a query string; a multipart
      post whose body is not yet form data becomes form data when the transform is on. */
  function EncodedBody(verb: string, contentType: Option<string>, body: Body, transform: bool): (r: Body)
    ensures verb != "post" ==> r == body
    ensures verb == "post" && contentType == Some("application/x-www-form-urlencoded") ==> r == QueryString
  {
    if verb == "post" && contentType == Some("application/x-www-form-urlencoded") then QueryString
    else if transform && verb == "post" && contentType == Some("multipart/form-data") &&
      !(body.AsGiven? && body.isFormData) then Form
    else body
  }

  class Request {
    var verb: string
    var contentType: Option<string>
    var url: string
    /** `config.params`; `None` when absent. */
    var params: Option<Params>
    var body: Body

    constructor(verb: string, contentType: Option<string>, url: string, params: Option<Params>, body: Body)
      ensures this.verb == verb && this.contentType == contentType && this.url == url
      ensures this.params == params && this.body == body
    {
      this.verb := verb;
      this.contentType := contentType;
      this.url := url;
      this.params := params;
      this.body := body;
    }

    /** `defaultRequestInterceptors`. */
    method Intercept(transform: bool, encode: Value -> string)
      modifies this
      ensures verb == old(verb) && contentType == old(contentType)
      ensures body == EncodedBody(verb, contentType, old(body), transform)
      ensures verb == "get" && old(params).Some? ==>
        url == GetUrl(old(url), old(params).value, encode) && params == Some([])
      ensures !(verb == "get" && old(params).Some?) ==> url == old(url) && params == old(params)
    {
      body := EncodedBody(verb, contentType, body, transform);
      if verb == "get" && params.Some? {
        var u := BaseUrl(url);
        u := u + (if '?' in u then "&" else "?");
        var query := QueryOf(params.value, encode);
        u := u + query;
        u := u[..|u| - 1];
        params := Some([]);
        url := u;
      }
    }
  }

  // ---------------------------------------------------------------- the response interceptor

  datatype Reply = Reply(code: Value, message: Value)

  /** A response: whether it was asked for as a file (`responseType: 'blob'`), and its body. */
  datatype Response = Response(blob: bool, data: Reply)

  /** What the interceptor hands on: the whole response, or its body. */
  datatype Handed = Whole(response: Response) | Body(data: Reply)

  /** `defaultResponseInterceptors`: the handed value, the error message shown (if any), and
      whether the user is logged out. */
  function Respond(response: Response, successCode: Value): (r: (Handed, Option<Value>, bool))
  {
    if response.blob then (Whole(response), None, false)
    else if response.data.code == successCode || response.data.code == Number(Finite(200.0)) then
      (Body(response.data), None, false)
    else (Body(response.data), Some(response.data.message), response.data.code == Number(Finite(401.0)))
  }

  /** Files pass through whole; any other response hands on its body; an error message is
      shown exactly for non-file responses whose code is neither the success code nor 200;
      the user is logged out exactly when such a response has code 401. */
  lemma RespondOutcomes(response: Response, successCode: Value)
    ensures var r := Respond(response, successCode);
      (response.blob <==> r.0 == Whole(response)) &&
      (!response.blob ==> r.0 == Body(response.data)) &&
      (r.1.Some? <==>
        !response.blob && response.data.code != successCode && response.data.code != Number(Finite(200.0))) &&
      (r.2 <==>
        !response.blob && response.data.code != successCode && response.data.code != Number(Finite(200.0)) &&
        response.data.code == Number(Finite(401.0)))
  {
  }
}
