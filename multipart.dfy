/**
 * `_MultipartPostHandler`: how a POST's data becomes its body, either URL-encoded
 * or as multipart/form-data (RFC 7578, delimiters after section 5.1.1 of RFC 2046).
 */
module Multipart {
  import opened Wrappers
  import opened Strings
  import opened ParamDict

  /** An open file: its `name` and everything `read()` returns after `seek(0)`. */
  datatype FileObj = FileObj(name: string, content: string)

  /**
   * A parameter value: a file object, or a byte string (`str`). Other Python values
   * are not modelled: the multipart encoder cannot join them to its buffer.
   */
  datatype Value = Text(text: string) | Upload(file: FileObj)

  /** What `request.get_data()` holds: nothing, a string, or a mapping. */
  datatype Data = NoData | Raw(text: string) | Fields(items: Items<Value>)

  /** `mimetypes.guess_type(filename)[0]`. */
  type Guesser = string -> Option<string>

  /** The scalar items, in order. */
  function Scalars(items: Items<Value>): Items<string> {
    if items == [] then []
    else
      var last := items[|items| - 1];
      Scalars(items[..|items| - 1]) + (if last.1.Text? then [(last.0, last.1.text)] else [])
  }

  /** The file items, in order. */
  function Uploads(items: Items<Value>): Items<FileObj> {
    if items == [] then []
    else
      var last := items[|items| - 1];
      Uploads(items[..|items| - 1]) + (if last.1.Upload? then [(last.0, last.1.file)] else [])
  }

  /** Which items are files. */
  function IsUploadTags(items: Items<Value>): seq<bool> {
    seq(|items|, i requires 0 <= i < |items| => items[i].1.Upload?)
  }

  /** Interleaves files and scalars back by the tags, last item first. */
  function Merge(tags: seq<bool>, files: Items<FileObj>, params: Items<string>): Items<Value> {
    if tags == [] then []
    else if tags[|tags| - 1] && files != [] then
      var f := files[|files| - 1];
      Merge(tags[..|tags| - 1], files[..|files| - 1], params) + [(f.0, Upload(f.1))]
    else if !tags[|tags| - 1] && params != [] then
      var p := params[|params| - 1];
      Merge(tags[..|tags| - 1], files, params[..|params| - 1]) + [(p.0, Text(p.1))]
    else []
  }

  /** Every item lands in exactly one of the two lists, in iteration order: merging them back gives the data. */
  lemma {:induction false} SplitIsLossless(items: Items<Value>)
    ensures |Uploads(items)| + |Scalars(items)| == |items|
    ensures Merge(IsUploadTags(items), Uploads(items), Scalars(items)) == items
  {
    if items != [] {
      var init := items[..|items| - 1];
      SplitIsLossless(init);
      var tags := IsUploadTags(items);
      assert tags[..|tags| - 1] == IsUploadTags(init);
      var last := items[|items| - 1];
      var u, sc := Uploads(items), Scalars(items);
      if last.1.Upload? {
        assert u == Uploads(init) + [(last.0, last.1.file)];
        assert sc == Scalars(init);
        assert u[..|u| - 1] == Uploads(init);
        assert Merge(tags, u, sc) == Merge(IsUploadTags(init), Uploads(init), Scalars(init)) + [(last.0, Upload(last.1.file))];
      } else {
        assert sc == Scalars(init) + [(last.0, last.1.text)];
        assert u == Uploads(init);
        assert sc[..|sc| - 1] == Scalars(init);
        assert Merge(tags, u, sc) == Merge(IsUploadTags(init), Uploads(init), Scalars(init)) + [(last.0, Text(last.1.text))];
      }
      assert items == init + [last];
    }
  }

  /** The loop of `http_request` that sorts the items into `files` and `params`. */
  method SplitFields(items: Items<Value>) returns (files: Items<FileObj>, params: Items<string>)
    ensures files == Uploads(items) && params == Scalars(items)
  {
    files, params := [], [];
    var i := 0;
    while i < |items|
      invariant 0 <= i <= |items|
      invariant files == Uploads(items[..i]) && params == Scalars(items[..i])
    {
      var (key, value) := items[i];
      assert items[..i + 1][..i] == items[..i];
      match value {
        case Upload(fd) =>
          files := files + [(key, fd)];
        case Text(s) =>
          params := params + [(key, s)];
      }
      i := i + 1;
    }
    assert items[..i] == items;
  }

  function Delimiter(boundary: string): string {
    "--" + boundary + "\r\n"
  }

  function CloseDelimiter(boundary: string): string {
    "--" + boundary + "--\r\n\r\n"
  }

  const Disposition := "Content-Disposition: form-data; "
  const ContentTypeLabel := "Content-Type: "
  const CRLF := "\r\n"

  function ScalarPart(boundary: string, key: string, value: string): (r: string)
    ensures IsPrefix(Delimiter(boundary), r)
  {
    Delimiter(boundary) + (("Content-Disposition: form-data; name=\"" + key + "\"") + ("\r\n\r\n" + value + "\r\n"))
  }

  const DefaultContentType := "application/octet-stream"

  /** The guessed type of a file name, or the default when there is no (or an empty) guess. */
  function ContentTypeOf(filename: string, guess: Guesser): (r: string)
    ensures r == DefaultContentType <==> (guess(filename).None? || guess(filename).value in {"", DefaultContentType})
    ensures guess(filename).Some? && guess(filename).value != "" ==> r == guess(filename).value
  {
    match guess(filename)
    case Some(t) => if t != "" then t else DefaultContentType
    case None => DefaultContentType
  }

  function FilePart(boundary: string, key: string, fd: FileObj, guess: Guesser): (r: string)
    ensures IsPrefix(Delimiter(boundary), r)
  {
    var filename := LastSegment(fd.name);
    Delimiter(boundary)
      + (Disposition
         + ("name=\"" + key + "\"; filename=\"" + filename + "\"" + CRLF)
         + (ContentTypeLabel + ContentTypeOf(filename, guess) + CRLF)
         + (CRLF + fd.content + CRLF))
  }

  function ScalarParts(boundary: string, params: Items<string>): (r: seq<string>)
    ensures |r| == |params|
  {
    seq(|params|, i requires 0 <= i < |params| => ScalarPart(boundary, params[i].0, params[i].1))
  }

  function FileParts(boundary: string, files: Items<FileObj>, guess: Guesser): (r: seq<string>)
    ensures |r| == |files|
  {
    seq(|files|, j requires 0 <= j < |files| => FilePart(boundary, files[j].0, files[j].1, guess))
  }

  /** One part per scalar, in order, then one part per file, in order, each opened by the delimiter line. */
  function Parts(boundary: string, params: Items<string>, files: Items<FileObj>, guess: Guesser): (r: seq<string>)
    ensures |r| == |params| + |files|
    ensures forall i :: 0 <= i < |r| ==> IsPrefix(Delimiter(boundary), r[i])
    ensures forall i :: 0 <= i < |params| ==> r[i] == ScalarPart(boundary, params[i].0, params[i].1)
    ensures forall j :: 0 <= j < |files| ==> r[|params| + j] == FilePart(boundary, files[j].0, files[j].1, guess)
  {
    ScalarParts(boundary, params) + FileParts(boundary, files, guess)
  }

  function Concat(ss: seq<string>): string {
    if ss == [] then "" else Concat(ss[..|ss| - 1]) + ss[|ss| - 1]
  }

  lemma {:induction false} ConcatAppend(a: seq<string>, b: seq<string>)
    ensures Concat(a + b) == Concat(a) + Concat(b)
    decreases |b|
  {
    if b == [] {
      assert a + b == a;
    } else {
      var b' := b[..|b| - 1];
      ConcatAppend(a, b');
      assert (a + b)[..|a + b| - 1] == a + b';
    }
  }

  lemma AppendAssoc(a: string, b: string, c: string)
    ensures (a + b) + c == a + (b + c)
  {
  }

  /** One more part appended to a buffer that holds the parts before it. */
  lemma AppendPart(init: string, parts: seq<string>, k: nat, before: string)
    requires k < |parts| && before == init + Concat(parts[..k])
    ensures before + parts[k] == init + Concat(parts[..k + 1])
  {
    assert parts[..k + 1][..k] == parts[..k];
  }

  lemma AppendThree(s: string, a: string, b: string, c: string)
    ensures s + a + b + c == s + (a + (b + c))
  {
  }

  lemma AppendFive(s: string, a: string, b: string, c: string, d: string, e: string)
    ensures s + a + b + c + d + e == s + (a + (b + c + d + e))
  {
  }

  lemma {:induction false} ConcatStartsWithFirst(ss: seq<string>)
    requires |ss| > 0
    ensures IsPrefix(ss[0], Concat(ss))
  {
    if |ss| > 1 {
      ConcatStartsWithFirst(ss[..|ss| - 1]);
    }
  }

  /** The body `multipart_encode` builds from an initial buffer. */
  /** The buffer, the parts in order, then the close delimiter. */
  function Body(boundary: string, init: string, params: Items<string>, files: Items<FileObj>, guess: Guesser): (r: string)
    ensures IsPrefix(init, r)
    ensures IsSuffix(CloseDelimiter(boundary), r)
    ensures |r| == |init| + |Concat(Parts(boundary, params, files, guess))| + |CloseDelimiter(boundary)|
  {
    var c := Concat(Parts(boundary, params, files, guess));
    var r := init + c + CloseDelimiter(boundary);
    assert r[..|init|] == init;
    r
  }

  method MultipartEncode(params: Items<string>, files: Items<FileObj>, boundary: Option<string>,
                         buffer: Option<string>, chosen: string, guess: Guesser)
    returns (b: string, body: string)
    ensures b == if Truthy(boundary) then boundary.value else chosen
    ensures body == Body(b, if Truthy(buffer) then buffer.value else "", params, files, guess)
  {
    b := if Truthy(boundary) then boundary.value else chosen;
    var init := if Truthy(buffer) then buffer.value else "";
    ghost var sp, fp := ScalarParts(b, params), FileParts(b, files, guess);
    body := init;
    var i := 0;
    while i < |params|
      invariant 0 <= i <= |params|
      invariant body == init + Concat(sp[..i])
    {
      var (key, value) := params[i];
      ghost var before := body;
      body := body + ("--" + b + "\r\n");
      body := body + ("Content-Disposition: form-data; name=\"" + key + "\"");
      body := body + ("\r\n\r\n" + value + "\r\n");
      AppendThree(before, "--" + b + "\r\n", "Content-Disposition: form-data; name=\"" + key + "\"", "\r\n\r\n" + value + "\r\n");
      AppendPart(init, sp, i, before);
      i := i + 1;
    }
    assert sp[..i] == sp;
    ghost var afterScalars := body;
    var j := 0;
    while j < |files|
      invariant 0 <= j <= |files|
      invariant body == afterScalars + Concat(fp[..j])
    {
      var (key, fd) := files[j];
      var filename := LastSegment(fd.name);
      var contentType := ContentTypeOf(filename, guess);
      ghost var before := body;
      body := body + ("--" + b + "\r\n");
      body := body + Disposition;
      body := body + ("name=\"" + key + "\"; filename=\"" + filename + "\"" + CRLF);
      body := body + (ContentTypeLabel + contentType + CRLF);
      body := body + (CRLF + fd.content + CRLF);
      AppendFive(before, "--" + b + "\r\n", Disposition,
        "name=\"" + key + "\"; filename=\"" + filename + "\"" + CRLF,
        ContentTypeLabel + contentType + CRLF, CRLF + fd.content + CRLF);
      AppendPart(afterScalars, fp, j, before);
      j := j + 1;
    }
    assert fp[..j] == fp;
    ConcatAppend(sp, fp);
    AppendAssoc(init, Concat(sp), Concat(fp));
    assert body == init + Concat(Parts(b, params, files, guess));
    body := body + ("--" + b + "--\r\n\r\n");
  }

  /** The body and the added Content-Type header that `http_request` leaves on the request. */
  datatype Prepared = Prepared(body: Option<string>, contentType: Option<string>)

  function ContentTypeHeader(boundary: string): string {
    "multipart/form-data; boundary=" + boundary
  }

  /** The specification of `http_request` for a request with data `data`. */
  function Prepare(data: Data, enc: Encoder, chosen: string, guess: Guesser): (r: Prepared)
    ensures r.body.None? <==> data.NoData?
    ensures r.contentType.Some? <==> data.Fields? && Uploads(data.items) != []
    ensures data.Raw? ==> r.body == Some(data.text)
    ensures r.contentType.Some? ==> r.contentType == Some(ContentTypeHeader(chosen))
  {
    match data
    case NoData => Prepared(None, None)
    case Raw(s) => Prepared(Some(s), None)
    case Fields(items) =>
      if Uploads(items) == [] then Prepared(Some(enc(Scalars(items))), None)
      else Prepared(Some(Body(chosen, "", Scalars(items), Uploads(items), guess)), Some(ContentTypeHeader(chosen)))
  }

  /** `http_request` (and `https_request`). */
  method HttpRequestBody(data: Data, enc: Encoder, chosen: string, guess: Guesser) returns (p: Prepared)
    ensures p == Prepare(data, enc, chosen, guess)
  {
    match data
    case NoData =>
      p := Prepared(None, None);
    case Raw(s) =>
      p := Prepared(Some(s), None);
    case Fields(items) =>
      var files, params := SplitFields(items);
      if |files| == 0 {
        p := Prepared(Some(enc(params)), None);
      } else {
        var boundary, body := MultipartEncode(params, files, None, None, chosen, guess);
        p := Prepared(Some(body), Some("multipart/form-data; boundary=" + boundary));
      }
  }
}

/** Properties of the bodies `http_request` produces. */
module MultipartFacts {
  import opened Wrappers
  import opened Strings
  import opened ParamDict
  import opened Multipart

  /**
   * Strings and `None` pass through; a mapping without files is URL-encoded with no
   * header; one with files becomes a multipart body whose delimiters use the same
   * boundary as the Content-Type header.
   */
  lemma PrepareSelectsEncoding(data: Data, enc: Encoder, chosen: string, guess: Guesser)
    ensures var p := Prepare(data, enc, chosen, guess);
            && (data.NoData? ==> p == Prepared(None, None))
            && (data.Raw? ==> p == Prepared(Some(data.text), None))
            && (p.contentType.Some? <==> data.Fields? && Uploads(data.items) != [])
            && (data.Fields? && Uploads(data.items) == [] ==> p.body == Some(enc(Scalars(data.items))))
            && (data.Fields? && Uploads(data.items) != [] ==>
                  && p.contentType == Some("multipart/form-data; boundary=" + chosen)
                  && p.body.Some?
                  && IsPrefix(Delimiter(chosen), p.body.value)
                  && IsSuffix(CloseDelimiter(chosen), p.body.value))
  {
    if data.Fields? && Uploads(data.items) != [] {
      MultipartFrame(chosen, Scalars(data.items), Uploads(data.items), guess);
    }
  }

  lemma PrefixOfPrefix(a: string, x: string, y: string)
    requires IsPrefix(a, x) && IsPrefix(x, y)
    ensures IsPrefix(a, y)
  {
    assert y[..|a|] == y[..|x|][..|a|];
  }

  /** Parts that each open with `d`, concatenated and closed by `close`, open with `d` and end with `close`. */
  lemma {:induction false} FramedConcat(parts: seq<string>, d: string, close: string)
    requires |parts| > 0 && IsPrefix(d, parts[0])
    ensures IsPrefix(d, Concat(parts) + close) && IsSuffix(close, Concat(parts) + close)
  {
    ConcatStartsWithFirst(parts);
    var body := Concat(parts) + close;
    assert IsPrefix(Concat(parts), body) by {
      assert body[..|Concat(parts)|] == Concat(parts);
    }
    PrefixOfPrefix(parts[0], Concat(parts), body);
    PrefixOfPrefix(d, parts[0], body);
  }

  lemma BodyWithoutBuffer(b: string, params: Items<string>, files: Items<FileObj>, guess: Guesser)
    ensures Body(b, "", params, files, guess) == Concat(Parts(b, params, files, guess)) + CloseDelimiter(b)
  {
    var c := Concat(Parts(b, params, files, guess));
    assert "" + c == c;
  }

  /** A multipart body with at least one part opens with the delimiter line and ends with the close delimiter. */
  lemma MultipartFrame(b: string, params: Items<string>, files: Items<FileObj>, guess: Guesser)
    requires |params| + |files| > 0
    ensures IsPrefix(Delimiter(b), Body(b, "", params, files, guess))
    ensures IsSuffix(CloseDelimiter(b), Body(b, "", params, files, guess))
  {
    BodyWithoutBuffer(b, params, files, guess);
    FramedConcat(Parts(b, params, files, guess), Delimiter(b), CloseDelimiter(b));
  }

  /** One scalar and one file give exactly two parts, the scalar first, then the closing line. */
  lemma OneScalarOneFile(b: string, key: string, value: string, fileKey: string, fd: FileObj, guess: Guesser)
    ensures Body(b, "", [(key, value)], [(fileKey, fd)], guess)
         == ScalarPart(b, key, value) + FilePart(b, fileKey, fd, guess) + CloseDelimiter(b)
  {
    var parts := Parts(b, [(key, value)], [(fileKey, fd)], guess);
    var first, second := ScalarPart(b, key, value), FilePart(b, fileKey, fd, guess);
    assert parts == [first, second];
    assert parts[..1] == [first];
    assert parts[..1][..0] == [];
    assert Concat(parts[..1]) == first by {
      assert Concat(parts[..1]) == "" + first;
    }
    assert Concat(parts) == first + second;
    BodyWithoutBuffer(b, [(key, value)], [(fileKey, fd)], guess);
  }

  /** The first item's scalar part comes first. */
  lemma {:induction false} ScalarsPrepend(x: (string, Value), rest: Items<Value>)
    ensures Scalars([x] + rest) == (if x.1.Text? then [(x.0, x.1.text)] else []) + Scalars(rest)
    decreases |rest|
  {
    var items := [x] + rest;
    if rest != [] {
      assert items[..|items| - 1] == [x] + rest[..|rest| - 1];
      ScalarsPrepend(x, rest[..|rest| - 1]);
    } else {
      assert items[..|items| - 1] == [];
    }
  }

  /** A text value of a key is what the URL-encoded scalars give for that key. */
  lemma {:induction false} ScalarLookup(items: Items<Value>, k: string, v: string)
    requires Lookup(items, k) == Some(Text(v))
    ensures Lookup(Scalars(items), k) == Some(v)
  {
    assert items == [items[0]] + items[1..];
    ScalarsPrepend(items[0], items[1..]);
    if items[0].0 != k {
      ScalarLookup(items[1..], k, v);
      var rest := Scalars(items[1..]);
      if items[0].1.Text? {
        var both := [(items[0].0, items[0].1.text)] + rest;
        assert both[1..] == rest;
      } else {
        assert Scalars(items) == rest;
      }
    }
  }
}
