/**
 * The WSGI picoframework of vial.py: the `Response` object, which normalises a
 * handler's body, collects headers and finalises itself into what a WSGI
 * server is given (status line, header list, encoded chunks), and the route
 * scan of `Vial.dispath_request`, which picks the view of the first pattern
 * in the URL map that matches the request path.
 */
module Vial {
  import opened Wrappers
  import Utf8
  import Decimal

  /** The module-level `ENCODING` every new Response starts with. */
  const ENCODING: string := "utf-8"
  /** The status line a Response without one is finalised with. */
  const INTERNAL_SERVER_ERROR: string := "500 Internal Server Error"
  const NOT_FOUND_BODY: string := "Not found."
  const NOT_FOUND_STATUS: string := "404 Not Found"

  type Header = (string, string)
  type Chunk = seq<Utf8.Byte>

  // ---------------------------------------------------------------------
  // Response

  /**
   * The `body` argument of `Response(...)`: nothing (`None`), a single `str`,
   * or a list (or other sized collection) of `str` items.
   */
  datatype BodyArg = NoBody | Text(text: string) | Items(items: seq<string>)

  /** Python's `not body` for None, a `str` and a sized collection of `str`. */
  predicate IsFalsyBody(b: BodyArg) {
    match b
    case NoBody => true
    case Text(s) => s == ""
    case Items(xs) => xs == []
  }

  /** Python's truth value of the `status_line` attribute: `None` and `""` are false. */
  predicate IsSet(statusLine: Option<string>) {
    statusLine.Some? && statusLine.value != ""
  }

  /**
   * What the constructor stores in `self.body`: always a list, empty for a
   * falsy argument, a one-item list for a string, the items in order otherwise.
   */
  function NormaliseBody(b: BodyArg): (r: seq<string>)
    ensures r == [] <==> IsFalsyBody(b)
    ensures b.Text? && b.text != "" ==> r == [b.text]
    ensures b.Items? ==> |r| == |b.items| && forall i :: 0 <= i < |r| ==> r[i] == b.items[i]
  {
    match b
    case NoBody => []
    case Text(s) => if s == "" then [] else [s]
    // `not body` holds for the empty list, which `list(body)` would copy anyway
    case Items(xs) => xs
  }

  /** The fields of a Response object, as a value. */
  datatype ResponseState = ResponseState(
    body: seq<string>,
    statusLine: Option<string>,
    headers: seq<Header>,
    encoding: string)

  /** What finalisation hands to `start_response` and returns to the server. */
  datatype Delivery = Delivery(statusLine: string, headers: seq<Header>, chunks: seq<Chunk>)

  /** Every item's UTF-8 encoding decodes back to the item. */
  lemma DecodeEncodeEach(body: seq<string>)
    ensures forall i :: 0 <= i < |body| ==> Utf8.Decode(Utf8.Encode(body[i])) == Some(body[i])
  {
    forall i | 0 <= i < |body|
      ensures Utf8.Decode(Utf8.Encode(body[i])) == Some(body[i])
    {
      Utf8.DecodeEncode(body[i]);
    }
  }

  /**
   * `[item.encode(self.encoding) for item in self.body]` with the UTF-8 codec:
   * one chunk per item, in order, each decoding back to its item.
   */
  function EncodeBody(body: seq<string>): (r: seq<Chunk>)
    ensures |r| == |body|
    ensures forall i :: 0 <= i < |r| ==> Utf8.Decode(r[i]) == Some(body[i])
  {
    DecodeEncodeEach(body);
    seq(|body|, i requires 0 <= i < |body| => Utf8.Encode(body[i]))
  }

  /** `sum(map(len, encoded_body))`: the number of octets sent. */
  function TotalLength(chunks: seq<Chunk>): (n: nat)
    ensures n == |Flatten(chunks)|
  {
    if chunks == [] then 0 else |chunks[0]| + TotalLength(chunks[1..])
  }

  /** `"".join(body)`: the text the body items make up together. */
  function Concat(body: seq<string>): string
  {
    if body == [] then "" else body[0] + Concat(body[1..])
  }

  /** `b"".join(chunks)`: the octets actually sent. */
  function Flatten(chunks: seq<Chunk>): seq<Utf8.Byte>
  {
    if chunks == [] then [] else chunks[0] + Flatten(chunks[1..])
  }

  function ContentLengthHeader(length: nat): Header {
    ("Content-Length", Decimal.NatToString(length))
  }

  function ContentTypeHeader(encoding: string): Header {
    ("Content-Type", "text/html; charset = " + encoding)
  }

  /** The Content-Type header a UTF-8 response carries. */
  lemma ContentTypeUtf8()
    ensures ContentTypeHeader(ENCODING) == ("Content-Type", "text/html; charset = utf-8")
  {
    var ct := "text/html; charset = " + ENCODING;
    assert |ct| == |"text/html; charset = utf-8"|;
    assert forall i :: 0 <= i < |ct| ==> ct[i] == "text/html; charset = utf-8"[i];
    assert ct == "text/html; charset = utf-8";
  }

  /** The body kept by finalisation: the given one, unless the status line was unset. */
  function FinalBody(s: ResponseState): seq<string> {
    if IsSet(s.statusLine) then s.body else []
  }

  /**
   * `Response.__call__` on a Response in state `s`: its new state and what
   * it delivers. Only the UTF-8 codec is modelled, hence the precondition.
   */
  function Finalise(s: ResponseState): (r: (ResponseState, Delivery))
    requires s.encoding == ENCODING
    ensures r.1.statusLine != "" && r.0.statusLine == Some(r.1.statusLine)
    ensures r.0.body == FinalBody(s) && r.0.encoding == s.encoding
    ensures r.0.headers == r.1.headers
    ensures |r.1.chunks| == |r.0.body|
    ensures |s.headers| < |r.1.headers| <= |s.headers| + 2
    ensures r.1.headers[..|s.headers|] == s.headers
  {
    var status := if IsSet(s.statusLine) then s.statusLine.value else INTERNAL_SERVER_ERROR;
    var body := FinalBody(s);
    var chunks := EncodeBody(body);
    var length := TotalLength(chunks);
    var headers := s.headers + [ContentLengthHeader(length)]
                   + (if length > 0 then [ContentTypeHeader(s.encoding)] else []);
    (ResponseState(body, Some(status), headers, s.encoding), Delivery(status, headers, chunks))
  }

  /** A Response object: its fields are updated in place by AddHeader and Call. */
  class Response {
    var body: seq<string>
    var statusLine: Option<string>
    var headers: seq<Header>
    var encoding: string

    /** Nothing in vial.py reassigns `encoding`; UTF-8 is the one codec modelled. */
    ghost predicate Valid()
      reads this
    {
      encoding == ENCODING
    }

    function State(): ResponseState
      reads this
    {
      ResponseState(body, statusLine, headers, encoding)
    }

    constructor (b: BodyArg, status: Option<string>)
      ensures Valid()
      ensures body == NormaliseBody(b)
      ensures statusLine == status
      ensures headers == []
    {
      body := NormaliseBody(b);
      statusLine := status;
      headers := [];
      encoding := ENCODING;
    }

    method AddHeader(name: string, value: string)
      modifies this
      ensures headers == old(headers) + [(name, value)]
      ensures body == old(body) && statusLine == old(statusLine) && encoding == old(encoding)
    {
      headers := headers + [(name, value)];
    }

    /** `__call__`: the `start_response` arguments and the returned chunks make up `out`. */
    method Call() returns (out: Delivery)
      requires Valid()
      modifies this
      ensures Valid()
      ensures State() == Finalise(old(State())).0
      ensures out == Finalise(old(State())).1
    {
      if !IsSet(statusLine) {
        statusLine := Some(INTERNAL_SERVER_ERROR);
        body := [];
      }
      var encoded := EncodeBody(body);
      var length := TotalLength(encoded);
      var contentLength := ContentLengthHeader(length);
      AddHeader(contentLength.0, contentLength.1);
      if length > 0 {
        var contentType := ContentTypeHeader(encoding);
        AddHeader(contentType.0, contentType.1);
      }
      out := Delivery(statusLine.value, headers, encoded);
    }
  }

  // ---------------------------------------------------------------------
  // Properties of finalisation

  /** Sending the chunks one after the other sends the UTF-8 encoding of the whole text. */
  lemma {:induction false} FlattenEncodeBody(body: seq<string>)
    ensures Flatten(EncodeBody(body)) == Utf8.Encode(Concat(body))
  {
    if body != [] {
      assert EncodeBody(body)[1..] == EncodeBody(body[1..]);
      FlattenEncodeBody(body[1..]);
      Utf8.EncodeAppend(body[0], Concat(body[1..]));
    }
  }

  /** The payload is empty exactly when every body item is the empty string. */
  lemma {:induction false} TotalLengthZero(body: seq<string>)
    ensures TotalLength(EncodeBody(body)) == 0 <==> forall i :: 0 <= i < |body| ==> body[i] == ""
  {
    if body != [] {
      assert EncodeBody(body)[1..] == EncodeBody(body[1..]);
      TotalLengthZero(body[1..]);
      assert forall i :: 1 <= i < |body| ==> body[i] == body[1..][i - 1];
    }
  }

  /**
   * An unset status line (`None` or `""`) becomes "500 Internal Server Error"
   * and the body is dropped, whatever it was: no chunks, Content-Length 0 and
   * no Content-Type. A set status line is kept unchanged.
   */
  lemma FinaliseStatus(s: ResponseState)
    requires s.encoding == ENCODING
    ensures var (t, out) := Finalise(s);
      out.statusLine != "" && t.statusLine == Some(out.statusLine)
      && (IsSet(s.statusLine) ==> out.statusLine == s.statusLine.value && t.body == s.body)
      && (!IsSet(s.statusLine) ==>
            out == Delivery(INTERNAL_SERVER_ERROR, s.headers + [("Content-Length", "0")], [])
            && t.body == [])
  {
  }

  /**
   * The returned chunks are the body items' UTF-8 encodings, one per item in
   * the same order: each chunk decodes back to its item.
   */
  lemma FinaliseChunks(s: ResponseState)
    requires s.encoding == ENCODING
    ensures var out := Finalise(s).1;
      |out.chunks| == |FinalBody(s)|
      && forall i :: 0 <= i < |out.chunks| ==> Utf8.Decode(out.chunks[i]) == Some(FinalBody(s)[i])
  {
  }

  /**
   * Finalisation appends a Content-Length header whose value is the decimal
   * number of octets in the UTF-8 encoding of the whole body, then a
   * Content-Type header exactly when that number is positive, that is, when
   * some body item is non-empty. Headers added before stay first, unchanged.
   */
  lemma FinaliseHeaders(s: ResponseState)
    requires s.encoding == ENCODING
    ensures var out := Finalise(s).1;
      var octets := |Utf8.Encode(Concat(FinalBody(s)))|;
      var hasContent := exists i :: 0 <= i < |FinalBody(s)| && FinalBody(s)[i] != "";
      |out.headers| == |s.headers| + (if hasContent then 2 else 1)
      && out.headers[..|s.headers|] == s.headers
      && out.headers[|s.headers|].0 == "Content-Length"
      && out.headers[|s.headers|].1 == Decimal.NatToString(octets)
      && Decimal.ParseDigits(out.headers[|s.headers|].1) == octets
      && (hasContent <==> octets > 0)
      && (hasContent ==> out.headers[|s.headers| + 1] == ("Content-Type", "text/html; charset = utf-8"))
  {
    var body := FinalBody(s);
    var length := TotalLength(EncodeBody(body));
    FlattenEncodeBody(body);
    TotalLengthZero(body);
    Decimal.ParseNatToString(length);
    ContentTypeUtf8();
    var out := Finalise(s).1;
    if length > 0 {
      assert out.headers == s.headers + [ContentLengthHeader(length), ContentTypeHeader(ENCODING)];
    }
  }

  /**
   * Finalising twice appends the length headers a second time (and keeps the
   * status line, body and chunks of the first finalisation).
   */
  lemma FinaliseTwice(s: ResponseState)
    requires s.encoding == ENCODING
    ensures var (t, first) := Finalise(s);
      var (_, second) := Finalise(t);
      second.statusLine == first.statusLine && second.chunks == first.chunks
      && second.headers == first.headers + first.headers[|s.headers|..]
  {
    var (t, first) := Finalise(s);
    assert IsSet(t.statusLine);
    assert first.headers[|s.headers|..] == [ContentLengthHeader(TotalLength(first.chunks))]
      + (if TotalLength(first.chunks) > 0 then [ContentTypeHeader(ENCODING)] else []);
  }

  // ---------------------------------------------------------------------
  // Dispatch

  /** An entry of the URL map: a regular expression and the view it selects. */
  datatype Route<V> = Route(pattern: string, view: V)

  /** What `dispath_request` returns: a view from the map, or the bound `self.not_found`. */
  datatype Handler<V> = View(view: V) | NotFound

  /** Index of the first entry of `urlmap` whose pattern `matches` the path. */
  function FirstMatch<V>(urlmap: seq<Route<V>>, path: string, matches: (string, string) -> bool): (r: Option<nat>)
    ensures r.Some? ==> r.value < |urlmap| && matches(urlmap[r.value].pattern, path)
    ensures r.Some? ==> forall j :: 0 <= j < r.value ==> !matches(urlmap[j].pattern, path)
    ensures r.None? ==> forall j :: 0 <= j < |urlmap| ==> !matches(urlmap[j].pattern, path)
  {
    if urlmap == [] then None
    else if matches(urlmap[0].pattern, path) then Some(0)
    else match FirstMatch(urlmap[1..], path, matches)
      case None => None
      case Some(i) => Some(i + 1)
  }

  /**
   * The handler the route scan selects for `path`: not_found exactly when no
   * pattern matches, otherwise the view of an entry whose pattern matches.
   */
  function Dispatch<V>(urlmap: seq<Route<V>>, path: string, matches: (string, string) -> bool): (h: Handler<V>)
    ensures h.NotFound? <==> forall j :: 0 <= j < |urlmap| ==> !matches(urlmap[j].pattern, path)
    ensures h.View? ==> exists k :: 0 <= k < |urlmap| && matches(urlmap[k].pattern, path)
                                    && urlmap[k].view == h.view
  {
    match FirstMatch(urlmap, path, matches)
    case Some(i) => View(urlmap[i].view)
    case None => NotFound
  }

  /**
   * The application object. Its URL map is fixed at construction; `matches`
   * stands for `re.search(pattern, path) is not None`, whose regular-expression
   * semantics are not modelled.
   */
  class Vial<V> {
    const urlmap: seq<Route<V>>
    const matches: (string, string) -> bool

    constructor (urlmap: seq<Route<V>>, matches: (string, string) -> bool)
      ensures this.urlmap == urlmap && this.matches == matches
    {
      this.urlmap := urlmap;
      this.matches := matches;
    }

    /** `dispath_request`: scan the map in order and return the first matching view. */
    method DispatchRequest(path: string) returns (h: Handler<V>)
      ensures h == Dispatch(urlmap, path, matches)
    {
      var i := 0;
      while i < |urlmap|
        invariant 0 <= i <= |urlmap|
        invariant forall j :: 0 <= j < i ==> !matches(urlmap[j].pattern, path)
      {
        if matches(urlmap[i].pattern, path) {
          return View(urlmap[i].view);
        }
        i := i + 1;
      }
      return NotFound;
    }

    /** `not_found`: a fresh `Response("Not found.", "404 Not Found")`. */
    method NotFoundView() returns (r: Response)
      ensures fresh(r) && r.Valid()
      ensures r.State() == ResponseState([NOT_FOUND_BODY], Some(NOT_FOUND_STATUS), [], ENCODING)
    {
      r := new Response(Text(NOT_FOUND_BODY), Some(NOT_FOUND_STATUS));
    }
  }

  // ---------------------------------------------------------------------
  // Properties of dispatch

  /**
   * First match wins: the view of entry k is selected exactly when k's
   * pattern matches and no earlier one does, whatever later entries match.
   */
  lemma DispatchFirstMatch<V>(urlmap: seq<Route<V>>, path: string, matches: (string, string) -> bool, k: nat)
    requires k < |urlmap| && matches(urlmap[k].pattern, path)
    requires forall j :: 0 <= j < k ==> !matches(urlmap[j].pattern, path)
    ensures Dispatch(urlmap, path, matches) == View(urlmap[k].view)
  {
  }

  /**
   * Entries appended to the map never override a match among the earlier
   * ones; they are consulted only when none of those matches.
   */
  lemma {:induction false} DispatchAppend<V>(urlmap: seq<Route<V>>, more: seq<Route<V>>, path: string, matches: (string, string) -> bool)
    ensures Dispatch(urlmap + more, path, matches)
            == if Dispatch(urlmap, path, matches).View? then Dispatch(urlmap, path, matches)
               else Dispatch(more, path, matches)
  {
    if urlmap == [] {
      assert urlmap + more == more;
    } else {
      assert (urlmap + more)[1..] == urlmap[1..] + more;
      DispatchAppend(urlmap[1..], more, path, matches);
    }
  }
}
