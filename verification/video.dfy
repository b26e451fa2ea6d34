/** Byte-range serving of media files: parsing a `Range: bytes=start-end`
    header, streaming the inclusive range in chunks, and the status and
    headers of the response. A file is its sequence of bytes. */
module Video {
  import opened Results
  import opened Text
  import opened Records
  import Crud

  type Byte = b: int | 0 <= b < 256

  /** An inclusive byte range of a file. */
  datatype ByteRange = ByteRange(start: int, end: int)

  // ---------------------------------------------------------------------------
  // Reading a file

  /** `f.seek(pos); f.read(n)` on a file holding `file`: a negative `n` reads
      to the end, and a read never goes past the end. */
  function ReadAt(file: seq<Byte>, pos: nat, n: int): (data: seq<Byte>)
    ensures pos <= |file| ==> data == file[pos..if n < 0 || pos + n > |file| then |file| else pos + n]
    ensures pos > |file| ==> data == []
  {
    if pos > |file| then []
    else if n < 0 || pos + n > |file| then file[pos..]
    else file[pos..pos + n]
  }

  /** The bytes of a stream of chunks, in order. */
  function Concat(chunks: seq<seq<Byte>>): seq<Byte> {
    if |chunks| == 0 then [] else Concat(chunks[..|chunks| - 1]) + chunks[|chunks| - 1]
  }

  lemma ConcatSnoc(chunks: seq<seq<Byte>>, c: seq<Byte>)
    ensures Concat(chunks + [c]) == Concat(chunks) + c
  {
    assert (chunks + [c])[..|chunks|] == chunks;
  }

  // ---------------------------------------------------------------------------
  // _get_range_header

  const RangeUnit := "bytes="

  /** The `-`-separated parts of a range header once every "bytes=" is removed. */
  function RangeParts(header: string): (h: seq<string>)
    ensures |h| >= 1
  {
    Split(ReplaceAll(header, RangeUnit, ""), '-')
  }

  /** `_get_range_header`. The parts are read in order: a bad start is a
      `ValueError` (416); a header without `-` then fails on `h[1]` with an
      `IndexError` that the handler does not catch; a bad end is 416; and the
      pair must satisfy 0 <= start <= end <= size - 1, else 416. An empty start
      means 0 and an empty end means size - 1. */
  function GetRangeHeader(header: string, fileSize: int): (r: Result<ByteRange>)
    ensures r.Ok? ==> 0 <= r.value.start <= r.value.end <= fileSize - 1
    ensures r.Err? ==> r.error == Http(RANGE_NOT_SATISFIABLE_416) || r.error == Raised("IndexError")
  {
    var h := RangeParts(header);
    var start := if h[0] != "" then ParseInt(h[0]) else Some(0);
    if start.None? then Err(Http(RANGE_NOT_SATISFIABLE_416))
    else if |h| < 2 then Err(Raised("IndexError"))
    else
      var end := if h[1] != "" then ParseInt(h[1]) else Some(fileSize - 1);
      if end.None? then Err(Http(RANGE_NOT_SATISFIABLE_416))
      else if start.value > end.value || start.value < 0 || end.value > fileSize - 1 then
        Err(Http(RANGE_NOT_SATISFIABLE_416))
      else Ok(ByteRange(start.value, end.value))
  }

  /** Only `ValueError` is turned into 416: the header escapes as an
      `IndexError` exactly when it has no `-` and its start part is empty or an integer. */
  lemma GetRangeHeaderIndexError(header: string, fileSize: int)
    ensures GetRangeHeader(header, fileSize) == Err(Raised("IndexError")) <==>
      var t := ReplaceAll(header, RangeUnit, "");
      '-' !in t && (t == "" || ParseInt(t).Some?)
  {
    var t := ReplaceAll(header, RangeUnit, "");
    if '-' !in t {
      assert RangeParts(header) == [t];
    } else {
      assert |RangeParts(header)| >= 2;
    }
  }

  /** A start part that is neither empty nor an integer is 416, whatever follows. */
  lemma GetRangeHeaderBadStart(a: string, rest: string, fileSize: int)
    requires 'b' !in a + rest && '-' !in a
    requires a != "" && ParseInt(a).None?
    ensures GetRangeHeader(RangeUnit + a + "-" + rest, fileSize) == Err(Http(RANGE_NOT_SATISFIABLE_416))
  {
    assert RangeUnit + a + "-" + rest == RangeUnit + (a + "-" + rest);
    StripRangeUnit(a + "-" + rest);
    SplitAt(a, '-', rest);
  }

  /** An end part that is not an integer is 416, whatever the start and the size. */
  lemma GetRangeHeaderBadEnd(a: nat, b: string, fileSize: int)
    requires 'b' !in b && '-' !in b
    requires b != "" && ParseInt(b).None?
    ensures GetRangeHeader(RangeUnit + NatToString(a) + "-" + b, fileSize) == Err(Http(RANGE_NOT_SATISFIABLE_416))
  {
    DigitsLack(a, 'b');
    DigitsLack(a, '-');
    RangePartsOf(NatToString(a), b);
    ParseNatToString(a);
  }

  lemma StripRangeUnitAbsent(s: string)
    requires 'b' !in s
    ensures ReplaceAll(s, RangeUnit, "") == s
  {
    ReplaceAllAbsent(s, RangeUnit, "");
  }

  lemma StripRangeUnit(s: string)
    requires 'b' !in s
    ensures ReplaceAll(RangeUnit + s, RangeUnit, "") == s
  {
    ReplaceAllAtStart(RangeUnit, s, "");
    StripRangeUnitAbsent(s);
  }

  lemma DigitsLack(n: nat, c: char)
    requires !IsDigit(c)
    ensures c !in NatToString(n)
  {
  }

  /** The parts of "bytes=" + a + "-" + b for digit strings a and b. */
  lemma RangePartsOf(a: string, b: string)
    requires 'b' !in a && '-' !in a && 'b' !in b && '-' !in b
    ensures RangeParts(RangeUnit + a + "-" + b) == [a, b]
  {
    assert RangeUnit + a + "-" + b == RangeUnit + (a + "-" + b);
    StripRangeUnit(a + "-" + b);
    SplitAt(a, '-', b);
  }

  /** Round trip: the header "bytes=<a>-<b>" of a range inside the file gives that range back. */
  lemma GetRangeHeaderRoundTrip(a: nat, b: nat, fileSize: int)
    requires a <= b <= fileSize - 1
    ensures GetRangeHeader(RangeUnit + NatToString(a) + "-" + NatToString(b), fileSize) == Ok(ByteRange(a, b))
  {
    DigitsLack(a, 'b');
    DigitsLack(a, '-');
    DigitsLack(b, 'b');
    DigitsLack(b, '-');
    RangePartsOf(NatToString(a), NatToString(b));
    ParseNatToString(a);
    ParseNatToString(b);
  }

  /** An empty start means 0: "bytes=-<n>" is the range 0..n, not the last n bytes. */
  lemma GetRangeHeaderEmptyStart(n: nat, fileSize: int)
    ensures GetRangeHeader(RangeUnit + "-" + NatToString(n), fileSize) ==
      if n <= fileSize - 1 then Ok(ByteRange(0, n)) else Err(Http(RANGE_NOT_SATISFIABLE_416))
  {
    DigitsLack(n, 'b');
    DigitsLack(n, '-');
    assert RangeUnit + "-" + NatToString(n) == RangeUnit + "" + "-" + NatToString(n);
    RangePartsOf("", NatToString(n));
    ParseNatToString(n);
  }

  /** An empty end means the last byte: "bytes=<a>-" is the range a..size-1. */
  lemma GetRangeHeaderEmptyEnd(a: nat, fileSize: int)
    ensures GetRangeHeader(RangeUnit + NatToString(a) + "-", fileSize) ==
      if a <= fileSize - 1 then Ok(ByteRange(a, fileSize - 1)) else Err(Http(RANGE_NOT_SATISFIABLE_416))
  {
    DigitsLack(a, 'b');
    DigitsLack(a, '-');
    assert RangeUnit + NatToString(a) + "-" == RangeUnit + NatToString(a) + "-" + "";
    RangePartsOf(NatToString(a), "");
    ParseNatToString(a);
  }

  // ---------------------------------------------------------------------------
  // send_bytes_range_requests

  function Min(a: int, b: int): int {
    if a <= b then a else b
  }

  /** `send_bytes_range_requests`: from `start`, read chunks of at most
      `chunkSize` bytes while the file position is at most `end`. Its callers
      pass a range inside the file (or an empty one, start > end). */
  method SendBytesRange(file: seq<Byte>, start: int, end: int, chunkSize: int) returns (chunks: seq<seq<Byte>>)
    requires 0 <= start && end < |file| && chunkSize > 0
    ensures Concat(chunks) == if start <= end then file[start..end + 1] else []
    ensures forall i :: 0 <= i < |chunks| ==> 1 <= |chunks[i]| <= chunkSize
    ensures forall i :: 0 <= i < |chunks| - 1 ==> |chunks[i]| == chunkSize
  {
    chunks := [];
    var pos := start;
    while pos <= end
      invariant start <= pos && (start <= end ==> pos <= end + 1)
      invariant start <= end ==> Concat(chunks) == file[start..pos]
      invariant start > end ==> chunks == []
      invariant forall i :: 0 <= i < |chunks| ==> 1 <= |chunks[i]| <= chunkSize
      invariant forall i :: 0 <= i < |chunks| && (i < |chunks| - 1 || pos <= end) ==> |chunks[i]| == chunkSize
      decreases end + 1 - pos
    {
      var readSize := Min(chunkSize, end + 1 - pos);
      var data := ReadAt(file, pos, readSize);
      ConcatSnoc(chunks, data);
      assert file[start..pos] + file[pos..pos + readSize] == file[start..pos + readSize];
      chunks := chunks + [data];
      pos := pos + |data|;
    }
  }

  // ---------------------------------------------------------------------------
  // range_requests_response

  datatype StreamingResponse = StreamingResponse(status: int, headers: map<string, string>, body: seq<seq<Byte>>)

  const ExposedHeaders := "content-type, accept-ranges, content-length, content-range, content-encoding"
  const STREAM_CHUNK_SIZE := 10000

  /** The headers that `range_requests_response` always sends. */
  predicate FixedHeaders(h: map<string, string>, contentType: string) {
    && "content-type" in h && h["content-type"] == contentType
    && "accept-ranges" in h && h["accept-ranges"] == "bytes"
    && "content-encoding" in h && h["content-encoding"] == "identity"
    && "access-control-expose-headers" in h && h["access-control-expose-headers"] == ExposedHeaders
    && "content-length" in h
  }

  /** The header names differ from each other, so setting one keeps the others. */
  lemma HeaderKeysDistinct()
    ensures "content-range" != "content-type" && "content-range" != "accept-ranges"
    ensures "content-range" != "content-encoding" && "content-range" != "access-control-expose-headers"
    ensures "content-range" != "content-length"
    ensures "content-length" != "content-type" && "content-length" != "accept-ranges"
    ensures "content-length" != "content-encoding" && "content-length" != "access-control-expose-headers"
  {
    assert "content-range"[8] != "content-length"[8];
    assert "content-range"[8] != "content-type"[8];
    assert "content-range"[8] != "content-encoding"[8];
    assert "content-length"[8] != "content-type"[8];
    assert "content-length"[8] != "content-encoding"[8];
    assert "content-range"[0] != "accept-ranges"[0] && "content-length"[0] != "accept-ranges"[0];
    assert "content-range"[1] != "access-control-expose-headers"[1];
    assert "content-length"[1] != "access-control-expose-headers"[1];
  }

  /** The headers of a full answer: the fixed ones and the whole file's length. */
  function BaseHeaders(contentType: string, fileSize: int): (h: map<string, string>)
    ensures FixedHeaders(h, contentType) && "content-range" !in h
    ensures h["content-length"] == IntToString(fileSize)
  {
    HeaderKeysDistinct();
    map[
      "content-type" := contentType,
      "accept-ranges" := "bytes",
      "content-encoding" := "identity",
      "content-length" := IntToString(fileSize),
      "access-control-expose-headers" := ExposedHeaders]
  }

  /** The headers of a partial answer: the length of the range and its position in the file. */
  function PartialHeaders(h: map<string, string>, contentType: string, start: int, end: int, fileSize: int)
    : (h': map<string, string>)
    requires FixedHeaders(h, contentType)
    ensures FixedHeaders(h', contentType)
    ensures "content-range" in h' && h'["content-length"] == IntToString(end - start + 1)
    ensures h'["content-range"] == "bytes " + IntToString(start) + "-" + IntToString(end) + "/" + IntToString(fileSize)
  {
    HeaderKeysDistinct();
    h["content-length" := IntToString(end - start + 1)]
     ["content-range" := "bytes " + IntToString(start) + "-" + IntToString(end) + "/" + IntToString(fileSize)]
  }

  /** A `content-length` written with `str` reads back as the length. */
  lemma ContentLengthParses(h: map<string, string>, n: nat)
    requires "content-length" in h && h["content-length"] == IntToString(n)
    ensures ParseInt(h["content-length"]) == Some(n)
  {
    ParseNatToString(n);
  }

  /** The answer to a request without a Range header: the whole file, status 200. */
  predicate IsFullAnswer(resp: StreamingResponse, file: seq<Byte>, contentType: string) {
    && resp.status == OK_200
    && FixedHeaders(resp.headers, contentType) && "content-range" !in resp.headers
    && resp.headers["content-length"] == IntToString(|file|)
    && Concat(resp.body) == file
  }

  /** The answer for a range: its bytes, status 206, its length and its `content-range`. */
  predicate IsPartialAnswer(resp: StreamingResponse, file: seq<Byte>, br: ByteRange, contentType: string) {
    && resp.status == PARTIAL_CONTENT_206
    && FixedHeaders(resp.headers, contentType) && "content-range" in resp.headers
    && resp.headers["content-length"] == IntToString(br.end - br.start + 1)
    && resp.headers["content-range"] ==
         "bytes " + IntToString(br.start) + "-" + IntToString(br.end) + "/" + IntToString(|file|)
    && 0 <= br.start <= br.end < |file|
    && Concat(resp.body) == file[br.start..br.end + 1]
  }

  /** Either way, `content-length` is the length of the body and reads back as it. */
  lemma AnswerLengthIsBodyLength(resp: StreamingResponse, file: seq<Byte>, br: ByteRange, contentType: string)
    requires IsFullAnswer(resp, file, contentType) || IsPartialAnswer(resp, file, br, contentType)
    ensures "content-length" in resp.headers
    ensures resp.headers["content-length"] == IntToString(|Concat(resp.body)|)
    ensures ParseInt(resp.headers["content-length"]) == Some(|Concat(resp.body)|)
  {
    ContentLengthParses(resp.headers, |Concat(resp.body)|);
  }

  method FullResponse(file: seq<Byte>, contentType: string) returns (resp: StreamingResponse)
    ensures IsFullAnswer(resp, file, contentType)
  {
    var fileSize := |file|;
    var body := SendBytesRange(file, 0, fileSize - 1, STREAM_CHUNK_SIZE);
    assert file[0..fileSize] == file;
    resp := StreamingResponse(OK_200, BaseHeaders(contentType, fileSize), body);
  }

  method PartialResponse(file: seq<Byte>, br: ByteRange, contentType: string) returns (resp: StreamingResponse)
    requires 0 <= br.start <= br.end < |file|
    ensures IsPartialAnswer(resp, file, br, contentType)
  {
    var fileSize := |file|;
    var headers := BaseHeaders(contentType, fileSize);
    var start, end := br.start, br.end;
    headers := PartialHeaders(headers, contentType, start, end, fileSize);
    var body := SendBytesRange(file, start, end, STREAM_CHUNK_SIZE);
    resp := StreamingResponse(PARTIAL_CONTENT_206, headers, body);
  }

  /** `range_requests_response`: without a Range header, the whole file with
      status 200; with one, the range `_get_range_header` parses, with status
      206 and `content-range`; a header it rejects propagates its error. */
  method RangeRequestsResponse(file: seq<Byte>, rangeHeader: Option<string>, contentType: string)
    returns (r: Result<StreamingResponse>)
    ensures rangeHeader.None? ==> r.Ok? && IsFullAnswer(r.value, file, contentType)
    ensures rangeHeader.Some? ==> (r.Ok? <==> GetRangeHeader(rangeHeader.value, |file|).Ok?)
    ensures rangeHeader.Some? && r.Err? ==> r.error == GetRangeHeader(rangeHeader.value, |file|).error
    ensures rangeHeader.Some? && r.Ok? ==>
      IsPartialAnswer(r.value, file, GetRangeHeader(rangeHeader.value, |file|).value, contentType)
  {
    if rangeHeader.None? {
      var resp := FullResponse(file, contentType);
      return Ok(resp);
    }
    var parsed := GetRangeHeader(rangeHeader.value, |file|);
    if parsed.Err? {
      return Err(parsed.error);
    }
    var resp := PartialResponse(file, parsed.value, contentType);
    return Ok(resp);
  }

  // ---------------------------------------------------------------------------
  // video_endpoint

  datatype VideoResponse = VideoResponse(status: int, contentRange: string, acceptRanges: string, data: seq<Byte>)

  const VIDEO_CHUNK_SIZE := 1024 * 1024

  /** The file part of `video_endpoint` once start and end are known:
      `seek(start)` refuses a negative position (the OS call fails, an
      `OSError`), and `read(end - start)` refuses a size below -1 (a
      `ValueError`) and reads to the end of the file for -1. */
  function ServeVideo(file: seq<Byte>, start: int, end: int): (r: Result<VideoResponse>)
    ensures r.Ok? ==> r.value.status == PARTIAL_CONTENT_206
    ensures r.Err? <==> start < 0 || end - start < -1
    ensures start < 0 ==> r == Err(Raised("OSError"))
    ensures start >= 0 && end - start < -1 ==> r == Err(Raised("ValueError"))
  {
    if start < 0 then Err(Raised("OSError"))
    else if end - start < -1 then Err(Raised("ValueError"))
    else
      Ok(VideoResponse(PARTIAL_CONTENT_206,
        "bytes " + IntToString(start) + "-" + IntToString(end) + "/" + IntToString(|file|),
        "bytes",
        ReadAt(file, start, end - start)))
  }

  /** `video_endpoint`: the older handler, which treats `end` as exclusive.
      Without a (non-empty) Range header it serves from 0; the header must
      split into exactly two parts (else the unpacking raises `ValueError`),
      both parts go through `int()`, and an empty end means start + 1048576. */
  function VideoEndpoint(rangeHeader: Option<string>, file: seq<Byte>): (r: Result<VideoResponse>)
    ensures r.Ok? ==> r.value.status == PARTIAL_CONTENT_206 && r.value.acceptRanges == "bytes"
    ensures r.Err? ==> r.error == Raised("ValueError")
  {
    if rangeHeader.Some? && rangeHeader.value != "" then
      var parts := RangeParts(rangeHeader.value);
      if |parts| != 2 then Err(Raised("ValueError"))
      else
        var start := ParseInt(parts[0]);
        if start.None? then Err(Raised("ValueError"))
        else if parts[1] == "" then ServeVideo(file, start.value, start.value + VIDEO_CHUNK_SIZE)
        else
          var end := ParseInt(parts[1]);
          if end.None? then Err(Raised("ValueError"))
          else ServeVideo(file, start.value, end.value)
    else ServeVideo(file, 0, 0 + VIDEO_CHUNK_SIZE)
  }

  /** Without a Range header: the first 1048576 bytes (or the whole, shorter file). */
  lemma VideoEndpointNoRange(file: seq<Byte>)
    ensures VideoEndpoint(None, file).Ok?
    ensures VideoEndpoint(None, file).value.data == file[..Min(VIDEO_CHUNK_SIZE, |file|)]
    ensures VideoEndpoint(None, file).value.contentRange ==
      "bytes 0-" + IntToString(VIDEO_CHUNK_SIZE) + "/" + IntToString(|file|)
  {
  }

  /** "bytes=<a>-<b>" with a <= b <= size reads exactly b - a bytes: the end is exclusive. */
  lemma VideoEndpointReadsEndMinusStart(file: seq<Byte>, a: nat, b: nat)
    requires a <= b <= |file|
    ensures VideoEndpoint(Some(RangeUnit + NatToString(a) + "-" + NatToString(b)), file).Ok?
    ensures VideoEndpoint(Some(RangeUnit + NatToString(a) + "-" + NatToString(b)), file).value.data == file[a..b]
  {
    var sa, sb := NatToString(a), NatToString(b);
    var h := RangeUnit + sa + "-" + sb;
    DigitsLack(a, 'b');
    DigitsLack(a, '-');
    DigitsLack(b, 'b');
    DigitsLack(b, '-');
    RangePartsOf(sa, sb);
    assert RangeParts(h) == [sa, sb];
    assert |h| > 0;
    ParseNatToString(a);
    ParseNatToString(b);
    assert sb != "";
    assert VideoEndpoint(Some(h), file) == ServeVideo(file, a, b);
    assert ReadAt(file, a, b - a) == file[a..b];
  }

  /** "bytes=<a>-" serves from a to a + 1048576. */
  lemma VideoEndpointMissingEnd(file: seq<Byte>, a: nat)
    ensures VideoEndpoint(Some(RangeUnit + NatToString(a) + "-"), file).Ok?
    ensures VideoEndpoint(Some(RangeUnit + NatToString(a) + "-"), file).value.contentRange ==
      "bytes " + IntToString(a) + "-" + IntToString(a + VIDEO_CHUNK_SIZE) + "/" + IntToString(|file|)
    ensures VideoEndpoint(Some(RangeUnit + NatToString(a) + "-"), file).value.data == ReadAt(file, a, VIDEO_CHUNK_SIZE)
  {
    DigitsLack(a, 'b');
    DigitsLack(a, '-');
    assert RangeUnit + NatToString(a) + "-" == RangeUnit + NatToString(a) + "-" + "";
    RangePartsOf(NatToString(a), "");
    ParseNatToString(a);
  }

  // ---------------------------------------------------------------------------
  // project_video_endpoint

  /** `project_video_endpoint`: the project guard (404, 500, 401) decides
      before the file is opened; then `range_requests_response` serves the
      file of the project's upload directory as "video/mp4". */
  method ProjectVideoEndpoint(current: User, proj: Option<Project>, tag: Option<Tag>,
                              file: seq<Byte>, rangeHeader: Option<string>)
    returns (r: Result<StreamingResponse>)
    ensures Crud.ProjectGuard(current, proj, tag).Err? ==> r == Err(Crud.ProjectGuard(current, proj, tag).error)
    ensures Crud.ProjectGuard(current, proj, tag).Ok? && rangeHeader.None? ==>
      r.Ok? && IsFullAnswer(r.value, file, "video/mp4")
    ensures Crud.ProjectGuard(current, proj, tag).Ok? && rangeHeader.Some? ==>
      && (r.Ok? <==> GetRangeHeader(rangeHeader.value, |file|).Ok?)
      && (r.Err? ==> r.error == GetRangeHeader(rangeHeader.value, |file|).error)
      && (r.Ok? ==> IsPartialAnswer(r.value, file, GetRangeHeader(rangeHeader.value, |file|).value, "video/mp4"))
  {
    var g := Crud.ProjectGuard(current, proj, tag);
    if g.Err? {
      return Err(g.error);
    }
    r := RangeRequestsResponse(file, rangeHeader, "video/mp4");
  }
}
