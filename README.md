# Vial core in Dafny

Vial is a small Python WSGI framework. This project models its core, `vial.py`:

- the `Response` object. Its constructor normalises the body argument into a list of text items. `add_header` appends to an ordered header list. Calling the object finalises it: an unset status line becomes `500 Internal Server Error` and the body is dropped. Each item is then encoded as UTF-8 (section 3 of RFC 3629). A `Content-Length` header is appended (section 8.6 of RFC 9110), followed by a `Content-Type: text/html; charset = utf-8` header only when the payload is non-empty. The status line, the headers and the encoded chunks are handed to the server.
- the route scan `Vial.dispath_request`, which returns the view of the first URL-map entry whose pattern matches the path, or the `not_found` view.

Files:

- `wrappers.dfy`: `Option`, which stands for Python's `None`.
- `utf8.dfy`: module `Utf8`. It has the UTF-8 encoder behind `str.encode("utf-8")`, a decoder, and round-trip lemmas in both directions.
- `decimal.dfy`: module `Decimal`. It has `str(n)` for a non-negative `int` and its inverse.
- `vial.dfy`: module `Vial`. It holds the `Response` class, the pure function `Finalise` that specifies `Response.Call`, the `Vial` class with `DispatchRequest`, and the properties of both.
- `vial_tests.dfy`: module `VialTests`. It restates the cases of `tests/test_vial.py` and the route tables of `tests/urlmap.py` and `example/urlmap.py` as lemmas. Two client methods, `TestInitAndAddHeader` and `TestCallTwice`, are verified against the class contracts alone.

`Response` is a class whose methods update its fields in place. `Response.Call` is proved to leave the object in the state `Finalise(old state).0` and to return `Finalise(old state).1`. The lemmas `FinaliseStatus`, `FinaliseChunks`, `FinaliseHeaders` and `FinaliseTwice` state what that means. `dispath_request` is a `for` loop with an early return. It is modelled as the loop method `Vial.Vial.DispatchRequest` and is proved equal to the recursive specification `Dispatch`/`FirstMatch`.

Facts about `vial.py` that shape the model:

- Finalisation keeps the existing headers first, then appends `Content-Length`, then `Content-Type` (vial.py:36-39).
- `Content-Type` is always `text/html; charset = <encoding>`. It is appended only when the payload is non-empty (vial.py:38-39).
- A route-table miss returns `Response("Not found.", "404 Not Found")` (vial.py:61-62).
- `wsgi_app` calls the selected view with `environ` only, so the named groups of a pattern are never passed to the view (vial.py:52).

## Model

| member | source | states |
|---|---|---|
| `Utf8.EncodeScalar` | vial.py:35 | one character encodes to 1 to 4 octets (its width), a lead octet followed by continuation octets only |
| `Utf8.DecodeEncodeScalar` | vial.py:35 | the decoder reads a character's octets back as that character and width, whatever follows |
| `Utf8.EncodeDecodeScalar` | vial.py:35 | a well-formed sequence the decoder accepts is exactly the encoding of the character it yields |
| `Utf8.DecodeEncode` | vial.py:35 | round trip: decoding the UTF-8 encoding of any string gives the string back |
| `Utf8.EncodeDecode` | vial.py:35 | round trip the other way: a byte string that decodes re-encodes to exactly those bytes |
| `Utf8.Encode` | vial.py:35 | `item.encode("utf-8")`: never shorter than the string, and empty only for the empty string; its meaning is pinned by the round trips `Utf8.DecodeEncode` and `Utf8.EncodeDecode` |
| `Utf8.EncodeLength` | vial.py:35-36 | the encoding is as long as the sum of the character widths |
| `Utf8.EncodeAppend` | vial.py:35 | encoding distributes over concatenation |
| `Decimal.NatToString` | vial.py:37 | `str(n)` is a non-empty string of decimal digits, with no leading zero when it has more than one digit, and exactly "0" for 0 |
| `Decimal.ParseNatToString` | vial.py:37 | reading the numeral back gives n |
| `Decimal.NatToStringInjective` | vial.py:37 | distinct lengths give distinct Content-Length values |
| `Vial.IsFalsyBody` | vial.py:17 | `not body` for None, a string and a list (or other sized collection) of strings; its effect is stated by `Vial.NormaliseBody` |
| `Vial.NormaliseBody` | vial.py:15-22 | the stored body is empty exactly when the argument is falsy; a non-empty string gives exactly `[body]`; a list gives its items, same number, same order |
| `Vial.IsSet` | vial.py:31 | the truth value of `status_line` (None and "" are false); its effect is stated by `Vial.FinaliseStatus` |
| `Vial.Response.constructor` | vial.py:15-25 | body normalised, status line stored unchanged, no headers, encoding "utf-8" |
| `Vial.Response.AddHeader` | vial.py:27-28 | appends exactly (name, value) at the end of the headers; body, status line and encoding unchanged |
| `Vial.Response.Call` | vial.py:30-41 | the new state and the delivered status line, headers and chunks are those of `Finalise` on the old state |
| `Vial.EncodeBody` | vial.py:35 | the list comprehension gives one chunk per item, in order, each decoding back to its item |
| `Vial.TotalLength` | vial.py:36 | `sum(map(len, ...))` is the number of octets sent (the length of the chunks joined) |
| `Vial.ContentLengthHeader` | vial.py:37 | the pair ("Content-Length", `str(encoded_body_length)`); its meaning is stated by `Vial.FinaliseHeaders` (exactly `str` of the octet count) and `VialTests.ContentLength18` |
| `Vial.ContentTypeHeader` | vial.py:39 | the pair ("Content-Type", "text/html; charset = " + encoding); its value for UTF-8 is stated by `Vial.ContentTypeUtf8` |
| `Vial.FinalBody` | vial.py:31-33 | the body kept at finalisation: the given one if the status line is set, otherwise []; its effect is stated by `Vial.FinaliseStatus` |
| `Vial.ContentTypeUtf8` | vial.py:39 | for the "utf-8" encoding the Content-Type value is exactly "text/html; charset = utf-8" |
| `Vial.Finalise` | vial.py:30-41 | after finalisation the status line is always set and equals the delivered one, the kept body is the given one or empty, the delivered headers are the new ones, one chunk per kept item, and one or two headers are appended after the unchanged earlier ones |
| `Vial.FlattenEncodeBody` | vial.py:35-36 | the chunks sent one after another are the UTF-8 encoding of the whole body text |
| `Vial.TotalLengthZero` | vial.py:36-38 | the payload is empty exactly when every body item is empty |
| `Vial.FinaliseStatus` | vial.py:31-33 | a set status line is kept with its body; an unset one becomes "500 Internal Server Error" with no chunks and only `Content-Length: 0` added, whatever the body |
| `Vial.FinaliseChunks` | vial.py:35-41 | one chunk per body item, in order, each decoding back to its item |
| `Vial.FinaliseHeaders` | vial.py:36-39 | earlier headers kept first; then Content-Length whose value is exactly `str` of the octet count of the UTF-8 body (and reads back as that count); then Content-Type "text/html; charset = utf-8" if and only if some item is non-empty |
| `Vial.FinaliseTwice` | vial.py:30-41 | finalising again keeps status and chunks and appends the length headers a second time |
| `Vial.FirstMatch` | vial.py:55-59 | the index found is the lowest whose pattern matches; none is found only when no pattern matches |
| `Vial.Dispatch` | vial.py:55-59 | not_found is selected if and only if no pattern matches; a selected view belongs to an entry whose pattern matches |
| `Vial.Vial.constructor` | vial.py:45-47 | the URL map is stored as given |
| `Vial.Vial.DispatchRequest` | vial.py:55-59 | the loop returns the view of the first matching entry, or not_found |
| `Vial.Vial.NotFoundView` | vial.py:61-62 | a fresh Response with body ["Not found."] and status "404 Not Found" |
| `Vial.DispatchFirstMatch` | vial.py:55-59 | entry k's view is selected when k matches and no earlier entry does, whatever later entries match |
| `Vial.DispatchAppend` | vial.py:55-59 | entries appended to the map never override an earlier match and are consulted only after a miss |
| `VialTests.EncodeCyrillic` | tests/test_vial.py:34 | "строка2" encodes to the 13 octets the test expects |
| `VialTests.TestCallOkChunks` | tests/test_vial.py:26-34 | ["line1", "строка2"] encodes to the two chunks the test expects, 18 octets in all |
| `VialTests.ContentLength18` | tests/test_vial.py:30 | the Content-Length header for 18 octets is exactly ("Content-Length", "18") |
| `VialTests.TestCallOk` | tests/test_vial.py:23-34 | ["line1", "строка2"] finalises to Content-Length "18", the Content-Type header and the two encoded chunks |
| `VialTests.TestCallEmptyBody` | tests/test_vial.py:36-41 | no body gives only `Content-Length: 0` and no chunks |
| `VialTests.TestInitAndAddHeader` | tests/test_vial.py:6-21 | through the class contracts alone: a string body is stored as a one-item list, the status line unchanged, no headers, encoding "utf-8"; no body gives [], a list its items; after add_header the pair is in the headers |
| `VialTests.TestCallTwice` | tests/test_vial.py:26-34 | through the class contracts alone: the first call delivers the two expected headers; a second call on the same object returns the same chunks and repeats the length headers, four in all |
| `VialTests.TestCallEmptyStatusLine` | tests/test_vial.py:43-47 | no status line gives "500 Internal Server Error", `Content-Length: 0` and no chunks |
| `VialTests.NotFoundDelivery` | vial.py:61-62 | the not-found response finalises to Content-Length "10", the Content-Type header and the octets of "Not found." |
| `VialTests.TestUrlmapOverlap` | tests/urlmap.py:4-8 | `/some_path/7` matches entries 2 and 3; entry 2's viewB wins |
| `VialTests.ExampleUrlmapItem` | example/urlmap.py:4-9 | `/item/42` reaches the item view |
| `VialTests.ExampleUrlmapMissing` | example/urlmap.py:4-9 | a path no pattern matches falls through to not_found |

## Left out

- `Vial.Vial.DispatchRequest`: `re.search` is a parameter `matches(pattern, path)` supplied at construction. Regular-expression semantics are not modelled, so the route-table lemmas take the relevant match results as preconditions.
- `Vial.Finalise`: only the UTF-8 codec is modelled. `Response.Valid()` keeps `encoding` equal to "utf-8". Nothing in `vial.py` reassigns it, but Python code outside could set another codec name.
- `Vial.NormaliseBody`: a lazy iterator argument (a generator, `iter([])`, `map(...)`) is truthy in Python even when it yields nothing, so `not body` is false for it and vial.py:22 stores `list(body)`. The model identifies such an argument with the list of its items, `Items(xs)`. The stored body is the same either way, `[]` when nothing is yielded, but `IsFalsyBody` then describes the list, not the iterator's own truth value.
- `Vial.BodyArg`: body items are Python `str` values. Items of another type, such as `bytes`, make `item.encode` raise `AttributeError` in the source. That path is not modelled.
- `Utf8.Encode`: a Dafny `char` is a Unicode scalar value. Python strings that contain lone surrogates, for which `encode` raises `UnicodeEncodeError`, cannot be represented.
- `Vial.Response.Call`: the status line is a string or `None`. A non-string status, such as the `Status.OK` that `example/views.py` expects, is not modelled. `vial.py` defines no `Status`.
- `Vial.Response.Call`: the `start_response` callback is replaced by the returned `Delivery`, and the ignored `environ` argument is dropped. The source passes the same header list object that later calls mutate. That aliasing is not modelled: `Delivery` holds a value copy.
- `render_template` (vial.py:68-75): it reads files and relies on `string.Template` and `html.escape`, which are library code.
- `Vial.__init__`'s dynamic `from urlmap import urlmap` (vial.py:46-47) becomes a constructor argument. `wsgi_app` and `Vial.__call__` (vial.py:49-53, 64-65) are WSGI glue and are not modelled.
- `example/application.py` (socket server), `example/views.py` and `tests/views.py` (view functions): views are opaque values of a type parameter.
