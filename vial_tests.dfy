/**
 * The unit tests of tests/test_vial.py and the two URL maps of the
 * repository, stated against the model.
 */
module VialTests {
  import opened Wrappers
  import Utf8
  import Decimal
  import opened Vial

  const CYRILLIC: string := "строка2"
  const CYRILLIC_UTF8: seq<Utf8.Byte> :=
    [0xD1, 0x81, 0xD1, 0x82, 0xD1, 0x80, 0xD0, 0xBE, 0xD0, 0xBA, 0xD0, 0xB0, 0x32]

  /** `"строка2".encode("utf-8")`: six two-octet letters and one ASCII digit. */
  lemma EncodeCyrillic()
    ensures Utf8.Encode(CYRILLIC) == CYRILLIC_UTF8
  {
    var s := CYRILLIC;
    assert s[1..][1..][1..][1..][1..][1..][1..] == [];
    assert Utf8.EncodeScalar(s[0]) == [0xD1, 0x81];
    assert Utf8.EncodeScalar(s[1]) == [0xD1, 0x82];
    assert Utf8.EncodeScalar(s[2]) == [0xD1, 0x80];
    assert Utf8.EncodeScalar(s[3]) == [0xD0, 0xBE];
    assert Utf8.EncodeScalar(s[4]) == [0xD0, 0xBA];
    assert Utf8.EncodeScalar(s[5]) == [0xD0, 0xB0];
    assert Utf8.EncodeScalar(s[6]) == [0x32];
  }

  const LINE1_UTF8: seq<Utf8.Byte> := [0x6C, 0x69, 0x6E, 0x65, 0x31]

  /** The chunks of test_call_ok and their total length. */
  lemma TestCallOkChunks()
    ensures EncodeBody(["line1", CYRILLIC]) == [LINE1_UTF8, CYRILLIC_UTF8]
    ensures TotalLength([LINE1_UTF8, CYRILLIC_UTF8]) == 18
  {
    EncodeCyrillic();
    var s := "line1";
    assert s[1..][1..][1..][1..][1..] == [];
    assert Utf8.Encode(s) == LINE1_UTF8;
    var chunks: seq<Chunk> := [LINE1_UTF8, CYRILLIC_UTF8];
    assert |chunks[1..][1..]| == 0;
    assert TotalLength(chunks[1..]) == 13;
  }

  lemma ContentLength18()
    ensures ContentLengthHeader(18) == ("Content-Length", "18")
  {
    assert Decimal.NatToString(18) == Decimal.NatToString(1) + [Decimal.DigitChar(8)];
    assert Decimal.NatToString(18) == "18";
  }

  /** test_call_ok: Content-Length 18, a Content-Type, and the two encoded items. */
  lemma TestCallOk()
    ensures Finalise(ResponseState(["line1", CYRILLIC], Some("000 test_status"), [], ENCODING)).1
         == Delivery("000 test_status",
                     [("Content-Length", "18"), ("Content-Type", "text/html; charset = utf-8")],
                     [LINE1_UTF8, CYRILLIC_UTF8])
  {
    var st := ResponseState(["line1", CYRILLIC], Some("000 test_status"), [], ENCODING);
    assert IsSet(st.statusLine) && FinalBody(st) == st.body;
    TestCallOkChunks();
    ContentTypeUtf8();
    ContentLength18();
    var out := Finalise(st).1;
    assert out.statusLine == "000 test_status";
    assert out.chunks == [LINE1_UTF8, CYRILLIC_UTF8];
    assert TotalLength(out.chunks) == 18;
    assert out.headers == [ContentLengthHeader(18), ContentTypeHeader(ENCODING)];
  }

  /** test_call_empty_body: no body gives Content-Length 0, no Content-Type, no chunks. */
  lemma TestCallEmptyBody()
    ensures Finalise(ResponseState(NormaliseBody(NoBody), Some("200 OK"), [], ENCODING)).1
         == Delivery("200 OK", [("Content-Length", "0")], [])
  {
    assert Decimal.NatToString(0) == "0";
  }

  /** test_call_empty_status_line: the body is discarded behind a 500 status line. */
  lemma TestCallEmptyStatusLine()
    ensures Finalise(ResponseState(NormaliseBody(Items(["line1", CYRILLIC])), None, [], ENCODING)).1
         == Delivery(INTERNAL_SERVER_ERROR, [("Content-Length", "0")], [])
  {
    FinaliseStatus(ResponseState(["line1", CYRILLIC], None, [], ENCODING));
  }

  /** The not-found response finalises to ten octets of HTML. */
  lemma NotFoundDelivery()
    ensures var out := Finalise(ResponseState([NOT_FOUND_BODY], Some(NOT_FOUND_STATUS), [], ENCODING)).1;
      out.statusLine == "404 Not Found"
      && out.headers == [("Content-Length", "10"), ("Content-Type", "text/html; charset = utf-8")]
      && Utf8.Decode(Flatten(out.chunks)) == Some("Not found.")
  {
    var s := NOT_FOUND_BODY;
    assert s[1..][1..][1..][1..][1..][1..][1..][1..][1..][1..] == [];
    assert |Utf8.Encode(s)| == 10;
    var chunks := EncodeBody([s]);
    assert TotalLength(chunks) == 10;
    assert Decimal.NatToString(10) == "10";
    assert "text/html; charset = " + ENCODING == "text/html; charset = utf-8";
    assert Flatten(chunks) == Utf8.Encode(s);
    Utf8.DecodeEncode(s);
  }

  /** test_init and test_add_header, verified against the Response class contracts. */
  method TestInitAndAddHeader() {
    var r := new Response(Text("test body"), Some("test_status"));
    assert r.body == ["test body"] && r.statusLine == Some("test_status");
    assert r.headers == [] && r.encoding == "utf-8";
    var empty := new Response(NoBody, None);
    assert empty.body == [];
    var items := new Response(Items(["a", "b", "c"]), None);
    assert items.body == ["a", "b", "c"];
    r.AddHeader("header_name", "header_value");
    assert ("header_name", "header_value") in r.headers;
  }

  /** test_call_ok calling one object twice, verified against the class contracts: the second call repeats the length headers. */
  method TestCallTwice() {
    var r := new Response(Items(["line1", CYRILLIC]), Some("000 test_status"));
    var first := r.Call();
    TestCallOk();
    assert first.headers == [("Content-Length", "18"), ("Content-Type", "text/html; charset = utf-8")];
    var second := r.Call();
    FinaliseTwice(ResponseState(["line1", CYRILLIC], Some("000 test_status"), [], ENCODING));
    assert second.chunks == first.chunks;
    assert second.chunks == [LINE1_UTF8, CYRILLIC_UTF8];
    assert second.headers == first.headers + first.headers;
    assert |second.headers| == 4;
  }

  // ---------------------------------------------------------------------
  // The URL maps

  const TEST_URLMAP: seq<Route<string>> := [
    Route("^/$", "viewA"),
    Route("^/some_path/(?P<id>\\d+)$", "viewB"),
    Route("^/(?P<param>\\w+)/(?P<id>\\d+)$", "viewC")
  ]

  const EXAMPLE_URLMAP: seq<Route<string>> := [
    Route("^/$", "index"),
    Route("^/hello$", "hello"),
    Route("^/item/(?P<item_id>\\d+)$", "item"),
    Route("^/logo$", "logo")
  ]

  /**
   * In tests/urlmap.py `/some_path/7` matches both the second and the third
   * pattern; the second, declared first, wins.
   */
  lemma TestUrlmapOverlap(matches: (string, string) -> bool)
    requires !matches(TEST_URLMAP[0].pattern, "/some_path/7")
    requires matches(TEST_URLMAP[1].pattern, "/some_path/7")
    requires matches(TEST_URLMAP[2].pattern, "/some_path/7")
    ensures Dispatch(TEST_URLMAP, "/some_path/7", matches) == View("viewB")
  {
    DispatchFirstMatch(TEST_URLMAP, "/some_path/7", matches, 1);
  }

  /** In example/urlmap.py `/item/42` reaches the item view. */
  lemma ExampleUrlmapItem(matches: (string, string) -> bool)
    requires !matches(EXAMPLE_URLMAP[0].pattern, "/item/42")
    requires !matches(EXAMPLE_URLMAP[1].pattern, "/item/42")
    requires matches(EXAMPLE_URLMAP[2].pattern, "/item/42")
    ensures Dispatch(EXAMPLE_URLMAP, "/item/42", matches) == View("item")
  {
    DispatchFirstMatch(EXAMPLE_URLMAP, "/item/42", matches, 2);
  }

  /** A path no pattern of example/urlmap.py matches falls through to not_found. */
  lemma ExampleUrlmapMissing(matches: (string, string) -> bool)
    requires forall k :: 0 <= k < |EXAMPLE_URLMAP| ==> !matches(EXAMPLE_URLMAP[k].pattern, "/missing")
    ensures Dispatch(EXAMPLE_URLMAP, "/missing", matches) == NotFound
  {
  }
}
