/** The handler of `GET file`: status and headers, and, joined with the windowed reader, the bytes a
client receives.  Sections 14.4 (Content-Range) and 15.5.17 (416) of RFC 9110. */
module Delivery {
  import opened Options
  import opened ByteRanges
  import opened WindowedRead
  import opened WindowedReadRuns
  import opened WindowedReadTermination

  type Headers = map<string, string>

  datatype Body = Nothing | Stream(start: int, end: int)
  datatype Answer = Answer(status: nat, headers: Headers, body: Body)

  datatype StatResult = Found(size: nat) | NotFound | Forbidden
  datatype Reply = BadRequest | StatFailed(why: StatResult) | Sent(body: Body)

  const CONTENT_RANGE := "Content-Range"
  const CONTENT_LENGTH := "Content-Length"
  const NO_HEADERS: Headers := map[]

  predicate EndsWith(s: string, suffix: string) {
    |suffix| <= |s| && s[|s| - |suffix|..] == suffix
  }

  function ContentType(path: string): string {
    if EndsWith(path, ".mp4") then "video/mp4"
    else if EndsWith(path, ".jpg") || EndsWith(path, ".jpeg") then "image/jpeg"
    else "application/octet-stream"
  }

  function ContentRange(start: nat, end: nat, size: nat): string {
    "bytes " + Print(start) + "-" + Print(end) + "/" + Print(size)
  }

  function CommonHeaders(path: string): Headers {
    NO_HEADERS["Accept-Ranges" := "bytes"]["Content-Type" := ContentType(path)]
      ["Cache-Control" := "private, max-age=86400, immutable"]
  }

  /** Status, headers and the span that is streamed, for a file of the given size. */
  function FileAnswer(path: string, range: Option<string>, isHead: bool, size: nat): Answer {
    AnswerFor(path, ParseRange(range, size), isHead, size)
  }

  function AnswerFor(path: string, parsed: Parsed, isHead: bool, size: nat): Answer
    requires parsed.Span? ==> 0 <= parsed.start <= parsed.end
  {
    var common := CommonHeaders(path);
    match parsed
    case Unsatisfiable => Answer(416, NO_HEADERS[CONTENT_RANGE := "bytes */" + Print(size)], Nothing)
    case WholeFile =>
      Answer(200, common[CONTENT_LENGTH := Print(size)], if isHead then Nothing else Stream(0, size as int - 1))
    case Span(start, end) =>
      Answer(206, common[CONTENT_RANGE := ContentRange(start, end, size)][CONTENT_LENGTH := Print(end - start + 1)],
             if isHead then Nothing else Stream(start, end))
  }

  class Response {
    var status: nat
    var headers: Headers
    var ended: bool
    var destroyed: bool

    constructor ()
      ensures status == 200 && headers == NO_HEADERS && !ended && !destroyed
    {
      status, headers, ended, destroyed := 200, NO_HEADERS, false, false;
    }

    method SetHeader(name: string, value: string)
      modifies this`headers
      ensures headers == old(headers)[name := value]
    {
      headers := headers[name := value];
    }
  }

  method SetCommon(path: string, res: Response)
    requires res.headers == NO_HEADERS
    modifies res`headers
    ensures res.headers == CommonHeaders(path)
  {
    res.SetHeader("Accept-Ranges", "bytes");
    res.SetHeader("Content-Type", ContentType(path));
    res.SetHeader("Cache-Control", "private, max-age=86400, immutable");
  }

  method SetPartial(start: nat, end: nat, size: nat, res: Response)
    requires start <= end
    modifies res`status, res`headers
    ensures res.status == 206
    ensures res.headers == old(res.headers)[CONTENT_RANGE := ContentRange(start, end, size)][CONTENT_LENGTH := Print(end - start + 1)]
  {
    res.status := 206;
    res.SetHeader(CONTENT_RANGE, ContentRange(start, end, size));
    res.SetHeader(CONTENT_LENGTH, Print(end - start + 1));
  }

  /** The handler up to the stream; `stat` is what the storage answers for the path. */
  method File(path: string, range: Option<string>, isHead: bool, stat: StatResult, res: Response) returns (reply: Reply)
    requires res.status == 200 && res.headers == NO_HEADERS && !res.ended && !res.destroyed
    modifies res
    ensures path == "" ==> reply == BadRequest && unchanged(res)
    ensures path != "" && !stat.Found? ==> reply == StatFailed(stat) && unchanged(res)
    ensures path != "" && stat.Found? ==>
      var a := FileAnswer(path, range, isHead, stat.size);
      && reply == Sent(a.body) && res.status == a.status && res.headers == a.headers
      && res.ended == a.body.Nothing? && !res.destroyed
  {
    if path == "" { return BadRequest; }
    if !stat.Found? { return StatFailed(stat); }
    var body := AnswerParsed(path, ParseRange(range, stat.size), isHead, stat.size, res);
    return Sent(body);
  }

  // The handler once the header is parsed.
  method AnswerParsed(path: string, parsed: Parsed, isHead: bool, size: nat, res: Response) returns (body: Body)
    requires res.status == 200 && res.headers == NO_HEADERS && !res.ended && !res.destroyed
    requires parsed.Span? ==> 0 <= parsed.start <= parsed.end
    modifies res
    ensures var a := AnswerFor(path, parsed, isHead, size);
      && body == a.body && res.status == a.status && res.headers == a.headers
      && res.ended == a.body.Nothing? && !res.destroyed
  {
    if parsed == Unsatisfiable {
      SetUnsatisfiable(size, res);
      return Nothing;
    }
    SetCommon(path, res);
    if parsed.Span? {
      SetPartial(parsed.start, parsed.end, size, res);
    } else {
      res.status := 200;
      res.SetHeader(CONTENT_LENGTH, Print(size));
    }
    if isHead {
      res.ended := true;
      return Nothing;
    }
    return if parsed.Span? then Stream(parsed.start, parsed.end) else Stream(0, size as int - 1);
  }

  method SetUnsatisfiable(size: nat, res: Response)
    requires res.headers == NO_HEADERS
    modifies res`status, res`headers, res`ended
    ensures res.status == 416 && res.ended && res.headers == NO_HEADERS[CONTENT_RANGE := "bytes */" + Print(size)]
  {
    res.status := 416;
    res.SetHeader(CONTENT_RANGE, "bytes */" + Print(size));
    res.ended := true;
  }

  // ---- The header names the bytes

  /** A Content-Range header names one span and one size. */
  lemma ContentRangeNamesOneSpan(s: nat, e: nat, z: nat, s': nat, e': nat, z': nat)
    requires ContentRange(s, e, z) == ContentRange(s', e', z')
    ensures s == s' && e == e' && z == z'
  {
    var u, u' := Print(e) + "/" + Print(z), Print(e') + "/" + Print(z');
    ContentRangeTail(s, e, z);
    ContentRangeTail(s', e', z');
    NumberThen(s, s', "-", u, u');
    NumberThen(e, e', "/", Print(z), Print(z'));
    PrintInjective(z, z');
  }

  lemma ContentRangeTail(s: nat, e: nat, z: nat)
    ensures ContentRange(s, e, z)[6..] == Print(s) + "-" + (Print(e) + "/" + Print(z))
  {
    AfterPrefix("bytes ", Print(s), "-", Print(e), "/", Print(z));
  }

  lemma AfterPrefix(a: string, b: string, c: string, d: string, e: string, f: string)
    ensures (a + b + c + d + e + f)[|a|..] == b + c + (d + e + f)
  {}

  // A number, a mark and the rest can be told apart.
  lemma NumberThen(m: nat, n: nat, mark: string, x: string, y: string)
    requires |mark| == 1 && !IsDigit(mark[0]) && Print(m) + mark + x == Print(n) + mark + y
    ensures m == n && x == y
  {
    assert Print(m) + mark + x == Print(m) + (mark + x) && Print(n) + mark + y == Print(n) + (mark + y);
    SameDigits(Print(m), Print(n), mark + x, mark + y);
    assert (mark + x)[1..] == x && (mark + y)[1..] == y;
    PrintInjective(m, n);
  }

  lemma SameDigits(a: string, b: string, x: string, y: string)
    requires AllDigits(a) && AllDigits(b) && x != "" && y != "" && !IsDigit(x[0]) && !IsDigit(y[0])
    requires a + x == b + y
    ensures a == b && x == y
  {
    DigitRunStops(a, x);
    DigitRunStops(b, y);
    assert (a + x)[..|a|] == a && (b + y)[..|b|] == b;
    assert (a + x)[|a|..] == x && (b + y)[|b|..] == y;
  }

  // ---- What is answered

  predicate AnswersWhole(a: Answer, path: string, size: nat) {
    && a.status == 200 && a.body == Stream(0, size - 1)
    && CarriesCommon(a.headers, path) && "Content-Range" !in a.headers
    && "Content-Length" in a.headers && a.headers["Content-Length"] == Print(size)
  }

  predicate AnswersSpan(a: Answer, path: string, start: int, end: int, size: nat) {
    && 0 <= start <= end < size && a.status == 206 && a.body == Stream(start, end)
    && CarriesCommon(a.headers, path)
    && "Content-Length" in a.headers && a.headers["Content-Length"] == Print(end - start + 1)
    && "Content-Range" in a.headers
    && a.headers["Content-Range"] == "bytes " + Print(start) + "-" + Print(end) + "/" + Print(size)
  }

  predicate Refuses(a: Answer, size: nat) {
    a == Answer(416, map["Content-Range" := "bytes */" + Print(size)], Nothing)
  }

  lemma HeaderNamesDiffer(name: string, other: string)
    requires |name| != |other|
    ensures name != other
  {}

  lemma AnswerForWhole(path: string, size: nat)
    ensures AnswersWhole(AnswerFor(path, WholeFile, false, size), path, size)
  {
    HeaderNamesDiffer("Content-Length", "Content-Range");
    HeaderNamesDiffer("Content-Length", "Content-Type");
    HeaderNamesDiffer("Content-Range", "Content-Type");
  }

  lemma AnswerForSpan(path: string, start: int, end: int, size: nat)
    requires 0 <= start <= end < size
    ensures AnswersSpan(AnswerFor(path, Span(start, end), false, size), path, start, end, size)
  {
    HeaderNamesDiffer("Content-Length", "Content-Range");
    HeaderNamesDiffer("Content-Length", "Content-Type");
    HeaderNamesDiffer("Content-Range", "Content-Type");
  }

  /** The answer to a GET, in the terms of the protocol: the whole file streamed with 200, the span that Content-Range
  names with 206, or 416 and the size alone. */
  lemma GetAnswers(path: string, range: Option<string>, size: nat)
    ensures var a, p := FileAnswer(path, range, false, size), ParseRange(range, size);
      match p
      case WholeFile => AnswersWhole(a, path, size)
      case Span(start, end) => AnswersSpan(a, path, start, end, size)
      case Unsatisfiable => Refuses(a, size)
  {
    match ParseRange(range, size)
    case WholeFile => AnswerForWhole(path, size);
    case Span(start, end) => AnswerForSpan(path, start, end, size);
    case Unsatisfiable =>
  }

  predicate CarriesCommon(headers: Headers, path: string) {
    && "Accept-Ranges" in headers && headers["Accept-Ranges"] == "bytes"
    && "Cache-Control" in headers && headers["Cache-Control"] == "private, max-age=86400, immutable"
    && "Content-Type" in headers && headers["Content-Type"] == ContentType(path)
  }

  /** HEAD gets the status and the headers that GET gets, and no body. */
  lemma HeadIsGetWithoutBody(path: string, range: Option<string>, size: nat)
    ensures FileAnswer(path, range, true, size) == FileAnswer(path, range, false, size).(body := Nothing)
  {}

  /** Videos and pictures are known by their suffix, and all else is bytes. */
  lemma TypeFollowsSuffix(stem: string, path: string)
    ensures ContentType(stem + ".mp4") == "video/mp4"
    ensures ContentType(stem + ".jpg") == "image/jpeg" && ContentType(stem + ".jpeg") == "image/jpeg"
    ensures ContentType(path) != "application/octet-stream" <==>
      exists before :: path == before + ".mp4" || path == before + ".jpg" || path == before + ".jpeg"
  {
    SuffixTold(stem, ".mp4");
    SuffixTold(stem, ".jpg");
    SuffixTold(stem, ".jpeg");
    assert (stem + ".jpg")[|stem|] == '.' && (stem + ".jpg")[|stem| + 3] == 'g';
    assert (stem + ".jpeg")[|stem| + 4] == 'g';
    SuffixFound(path, ".mp4");
    SuffixFound(path, ".jpg");
    SuffixFound(path, ".jpeg");
  }

  lemma SuffixTold(before: string, suffix: string)
    ensures EndsWith(before + suffix, suffix)
  {}

  lemma SuffixFound(path: string, suffix: string)
    ensures EndsWith(path, suffix) <==> exists before :: path == before + suffix
  {
    if EndsWith(path, suffix) {
      assert path == path[..|path| - |suffix|] + suffix;
    }
    if before :| path == before + suffix {
      SuffixTold(before, suffix);
    }
  }

  // ---- End to end

  // c is the reader that the handler starts for this answer.
  predicate Serves(c: Config, a: Answer) {
    c.Valid() && a.body == Stream(c.start, c.end)
  }

  /** At every moment of every run the client has a prefix of what the headers announce: at most
  Content-Length bytes, all of them exactly when the body is ended, and never an ended body that is
  shorter; a 206 body is then the slice that Content-Range names, and a 200 body the whole file. */
  lemma ClientReceivesWhatHeadersSay(path: string, range: Option<string>, size: nat, c: Config, es: seq<Event>)
    requires Serves(c, FileAnswer(path, range, false, size)) && Feasible(c, es)
    ensures var a := FileAnswer(path, range, false, size); var s := Run(c, es); var n := SpanLength(c);
      && CONTENT_LENGTH in a.headers && a.headers[CONTENT_LENGTH] == Print(n)
      && |s.written| <= n && (s.ends == 1 <==> |s.written| == n) && s.ends <= 1
      && (s.ends == 1 && a.status == 206 ==>
            && CONTENT_RANGE in a.headers && a.headers[CONTENT_RANGE] == ContentRange(c.start, c.end, size)
            && c.start <= c.end < size && c.end < |c.file| && s.written == c.file[c.start..c.end + 1])
      && (s.ends == 1 && a.status == 200 ==> CONTENT_RANGE !in a.headers && size <= |c.file| && s.written == c.file[..size])
      && (a.status == 200 || a.status == 206)
  {
    WrittenIsPrefixOfSpan(c, es);
  }

  /** The bytes denoted by a well-formed Range header, in the file, in order: no other byte, and none missing. */
  lemma ClientReceivesDenotedBytes(path: string, header: string, first: string, last: string, c: Config, es: seq<Event>)
    requires Spells(header, first, last) && (first != "" || last != "")
    requires Serves(c, FileAnswer(path, Some(header), false, |c.file|)) && Feasible(c, es) && Run(c, es).ends == 1
    ensures FileAnswer(path, Some(header), false, |c.file|).status == 206
    ensures Run(c, es).written == c.file[c.start..c.end + 1]
    ensures forall i :: (0 <= i < |c.file| && Denotes(first, last, |c.file|, i)) <==> c.start <= i <= c.end
  {
    ParseRangeIsDenotation(header, first, last, |c.file|);
    ClientReceivesWhatHeadersSay(path, Some(header), |c.file|, c, es);
  }

  /** A range is answered 416 exactly when it denotes no byte of the file. */
  lemma UnsatisfiableIs416(path: string, header: string, first: string, last: string, isHead: bool, size: nat)
    requires Spells(header, first, last) && (first != "" || last != "")
    ensures FileAnswer(path, Some(header), isHead, size).status == 416 <==>
      forall i :: 0 <= i < size ==> !Denotes(first, last, size, i)
    ensures FileAnswer(path, Some(header), isHead, size).status == 416 ==>
      FileAnswer(path, Some(header), isHead, size) == Answer(416, NO_HEADERS[CONTENT_RANGE := "bytes */" + Print(size)], Nothing)
  {
    ParseRangeIsDenotation(header, first, last, size);
  }

  /** Every GET that is not refused can be delivered: whatever the chunk size, the window and the refusals of the
  destination, the reader that the handler starts can be brought to the end of what the headers announce. */
  lemma GetCanBeDelivered(path: string, range: Option<string>, file: seq<Byte>, chunkSize: nat, window: nat, full: set<int>)
    returns (c: Config, es: seq<Event>)
    requires chunkSize >= 1 && window >= 1 && FileAnswer(path, range, false, |file|).status != 416
    ensures c.file == file && Serves(c, FileAnswer(path, range, false, |file|))
    ensures Feasible(c, es) && Run(c, es).ends == 1 && !Run(c, es).settled
    ensures FileAnswer(path, range, false, |file|).status == 200 ==> Run(c, es).written == file
  {
    GetAnswers(path, range, |file|);
    var body := FileAnswer(path, range, false, |file|).body;
    c := Config(file, body.start, body.end, chunkSize, window, full);
    es := CanComplete(c, []);
    ClientReceivesWhatHeadersSay(path, range, |file|, c, es);
    assert file[..|file|] == file;
  }

  // ---- How a stream ends

  predicate Rejects(s: State) {
    s.settlements != [] && s.settlements[0].Rejected?
  }

  /** A body that stops short is never left standing: once the reader has settled, either the client has the whole of
  it, or the reader rejected, or the client itself went away. */
  lemma NoSilentTruncation(c: Config, es: seq<Event>)
    requires c.Valid() && Feasible(c, es) && Run(c, es).settled
    ensures |Run(c, es).written| == SpanLength(c) || Rejects(Run(c, es)) || DstClose in es
    ensures |Run(c, es).written| == SpanLength(c) <==> Run(c, es).ends == 1
    ensures c.start <= c.end && |c.file| <= c.end ==> Rejects(Run(c, es)) || DstClose in es
  {
    WrittenIsPrefixOfSpan(c, es);
    SettlesAndClosesOnce(c, es);
    if !Rejects(Run(c, es)) {
      assert Run(c, es).settlements == [Resolved];
      ResolvedMeansDstClosed(c, es);
    }
  }

  /** What the handler does when the reader has settled: after the headers are out an error can only cut the
  connection.  A response that is then neither ended nor cut belongs to a client that went away. */
  method StreamSettled(res: Response, outcome: Outcome, ghost c: Config, ghost es: seq<Event>)
    requires c.Valid() && Feasible(c, es) && Run(c, es).settlements == [outcome]
    requires !res.destroyed && res.ended == (Run(c, es).ends == 1)
    modifies res`destroyed
    ensures res.destroyed <==> Rejects(Run(c, es))
    ensures !res.ended && !res.destroyed ==> DstClose in es
    ensures |Run(c, es).written| < SpanLength(c) ==> res.destroyed || DstClose in es
  {
    SettlesAndClosesOnce(c, es);
    NoSilentTruncation(c, es);
    if outcome.Rejected? { res.destroyed := true; }
  }

  // ---- Consecutive ranges

  // A finished run for the bytes from lo up to hi.
  datatype Part = Part(lo: nat, hi: nat, c: Config, es: seq<Event>)

  ghost predicate Delivers(path: string, file: seq<Byte>, p: Part) {
    && p.lo < p.hi <= |file| && p.c.file == file
    && Serves(p.c, FileAnswer(path, Some(RangeHeader(p.lo, p.hi - 1)), false, |file|))
    && Feasible(p.c, p.es) && Run(p.c, p.es).ends == 1
  }

  // The parts follow one another from the first byte of the file up to hi.
  ghost predicate Consecutive(path: string, file: seq<Byte>, parts: seq<Part>, hi: nat) {
    if parts == [] then hi == 0 else
      var p := parts[|parts| - 1];
      p.hi == hi && Delivers(path, file, p) && Consecutive(path, file, parts[..|parts| - 1], p.lo)
  }

  ghost function Joined(path: string, file: seq<Byte>, parts: seq<Part>, hi: nat): seq<Byte>
    requires Consecutive(path, file, parts, hi)
  {
    if parts == [] then [] else
      var p := parts[|parts| - 1];
      Joined(path, file, parts[..|parts| - 1], p.lo) + Run(p.c, p.es).written
  }

  /** Asking for consecutive ranges and joining the bodies gives the file back, as far as they go. */
  lemma {:induction false} RangesReassemble(path: string, file: seq<Byte>, parts: seq<Part>, hi: nat)
    requires Consecutive(path, file, parts, hi)
    ensures hi <= |file| && Joined(path, file, parts, hi) == file[..hi]
    ensures hi == |file| ==> Joined(path, file, parts, hi) == file
  {
    if parts != [] {
      var p := parts[|parts| - 1];
      RangesReassemble(path, file, parts[..|parts| - 1], p.lo);
      PartIsSlice(path, file, p);
      SliceJoin(file, p.lo, hi);
    }
    assert file[..|file|] == file;
  }

  lemma SliceJoin(file: seq<Byte>, lo: nat, hi: nat)
    requires lo <= hi <= |file|
    ensures file[..lo] + file[lo..hi] == file[..hi]
  {}

  lemma ServesRange(path: string, lo: nat, hi: nat, size: nat, c: Config)
    requires lo <= hi < size && Serves(c, FileAnswer(path, Some(RangeHeader(lo, hi)), false, size))
    ensures c.start == lo && c.end == hi
  {
    RangeRoundTrip(lo, hi, size);
  }

  lemma EndedSpan(c: Config, es: seq<Event>, lo: nat, hi: nat)
    requires c.Valid() && Feasible(c, es) && Run(c, es).ends == 1 && c.start == lo && c.end == hi - 1 && lo < hi
    ensures hi <= |c.file| && Run(c, es).written == c.file[lo..hi]
  {
    WrittenIsPrefixOfSpan(c, es);
  }

  lemma PartIsSlice(path: string, file: seq<Byte>, p: Part)
    requires Delivers(path, file, p)
    ensures Run(p.c, p.es).written == file[p.lo..p.hi]
  {
    ServesRange(path, p.lo, p.hi - 1, |file|, p.c);
    EndedSpan(p.c, p.es, p.lo, p.hi);
  }
}
