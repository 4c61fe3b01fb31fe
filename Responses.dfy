/**
 * The response side: `RestException` (the error record of a non-success
 * response), `RestResponseBody` (read-once caches over the response
 * stream) and `RestResponse` (the copied response fields, the success test
 * of section 6.3 of RFC 7231 and the lookup helpers).
 *
 * Copying the response stream is asynchronous I/O; each read is given the
 * outcome of that copy as a `Transfer`: the bytes it wrote and how its task
 * ended.
 */
module Responses {
  import opened Wrappers
  import opened Runtime
  import opened Text
  import opened OrderedMaps

  // ---------------------------------------------------------------------------
  // Tasks and streams

  /** How a task ended. */
  datatype TaskStatus = RanToCompletion | Faulted(fault: Fault) | Canceled

  /** The outcome of copying the response stream into a fresh memory stream. */
  datatype Transfer = Transfer(written: seq<byte>, status: TaskStatus)

  /** A `MemoryStream`: its contents and its position. */
  datatype MemoryStream = MemoryStream(data: seq<byte>, position: nat)

  /** `Exception.Flatten()` of a faulted task's exception. */
  function Flattened(fault: Fault): Exn {
    Aggregate(fault)
  }

  // ---------------------------------------------------------------------------
  // The cache state of a response body

  /**
   * The fields `_contentBytes`, `_contentString`, `_contentStream` and
   * `Error`, and whether the response stream is still open.
   */
  datatype BodyState = BodyState(
    bytes: Option<seq<byte>>,
    text: Option<string>,
    stream: Option<MemoryStream>,
    error: Option<Exn>,
    responseOpen: bool)

  /** A body as constructed: nothing cached, no error, the response stream open. */
  const Unread := BodyState(None, None, None, None, true)

  /**
   * The effect of `CopyToAsync` on the body: the response stream is closed,
   * and a copy fault is recorded in `Error`.
   */
  function Copied(s: BodyState, t: Transfer): (c: BodyState)
    ensures !c.responseOpen
    ensures c.bytes == s.bytes && c.text == s.text && c.stream == s.stream
    ensures t.status.Faulted? ==> c.error == Some(Flattened(t.status.fault))
    ensures !t.status.Faulted? ==> c.error == s.error
  {
    s.(responseOpen := false,
       error := if t.status.Faulted? then Some(Flattened(t.status.fault)) else s.error)
  }

  /**
   * The status of the `CopyToAsync` result task as written: the trailing
   * `ContinueWith(t => destination)` runs whatever its antecedent did and
   * its delegate cannot throw, so that task always runs to completion.
   */
  function CopyTaskAsWritten(t: Transfer): (k: TaskStatus)
    ensures k == RanToCompletion
  {
    RanToCompletion
  }

  /** The status the copy task evidently should have: that of the copy itself. */
  function CopyTask(t: Transfer): (k: TaskStatus)
    ensures k.Faulted? <==> t.status.Faulted?
    ensures k.Canceled? <==> t.status.Canceled?
    ensures k.Faulted? ==> k.fault == t.status.fault
  {
    t.status
  }

  /**
   * `ReadAsByteArrayAsync` given the status `task` of the copy task: the
   * cache when filled; otherwise the copy, followed by the continuation
   * that caches the bytes on completion, records a fault and returns null,
   * or returns null on cancellation.
   */
  function ReadBytes(s: BodyState, t: Transfer, task: TaskStatus): (r: (BodyState, Option<seq<byte>>))
    ensures r.0.text == s.text && r.0.stream == s.stream
    ensures r.1.Some? ==> r.0.bytes == r.1
    ensures s.bytes.None? ==> !r.0.responseOpen && (r.1.Some? <==> task.RanToCompletion?)
  {
    if s.bytes.Some? then (s, s.bytes)
    else
      var c := Copied(s, t);
      match task
      case RanToCompletion => (c.(bytes := Some(t.written)), Some(t.written))
      case Faulted(f) => (c.(error := Some(Flattened(f))), None)
      case Canceled => (c, None)
  }

  /**
   * `ReadAsStreamAsync` given the status `task` of the copy task: the cached
   * stream when filled; otherwise the copy, followed by the continuation that
   * caches the copied stream at position 0 on completion, records a fault
   * and returns null, or returns null on cancellation.
   */
  function ReadStream(s: BodyState, t: Transfer, task: TaskStatus): (r: (BodyState, Option<MemoryStream>))
    ensures r.0.text == s.text && r.0.bytes == s.bytes
    ensures r.1.Some? ==> r.0.stream == r.1
    ensures s.stream.None? ==> !r.0.responseOpen && (r.1.Some? <==> task.RanToCompletion?)
    ensures s.stream.None? && r.1.Some? ==> r.1.value == MemoryStream(t.written, 0)
  {
    if s.stream.Some? then (s, s.stream)
    else
      var c := Copied(s, t);
      match task
      case RanToCompletion => (c.(stream := Some(MemoryStream(t.written, 0))), Some(MemoryStream(t.written, 0)))
      case Faulted(f) => (c.(error := Some(Flattened(f))), None)
      case Canceled => (c, None)
  }

  /** The encoding `GetEncoding` picks. */
  datatype Encoding = Utf8Encoding | NamedEncoding(name: string)

  /**
   * `GetEncoding()`: the encoding registered under the lower-cased character
   * set, or UTF-8 when the character set is null (the `ToLower` call throws)
   * or unknown (`Encoding.GetEncoding` throws); both exceptions are swallowed.
   */
  function GetEncoding(characterSet: Option<string>, known: string -> bool): (e: Encoding)
    ensures characterSet.None? ==> e == Utf8Encoding
    ensures characterSet.Some? && !known(AsciiLowerString(characterSet.value)) ==> e == Utf8Encoding
    ensures characterSet.Some? && known(AsciiLowerString(characterSet.value)) ==> e == NamedEncoding(AsciiLowerString(characterSet.value))
  {
    if characterSet.Some? && known(AsciiLowerString(characterSet.value)) then NamedEncoding(AsciiLowerString(characterSet.value))
    else Utf8Encoding
  }

  /**
   * `ReadAsStringAsync` as evidently intended: the cached string when
   * filled; otherwise the byte read over the corrected copy task, and the
   * string decoded from its bytes, or "" when it yields none, as the fault
   * and cancellation branches of the string continuation mean to. The
   * string is cached either way.
   */
  function ReadString(s: BodyState, t: Transfer, enc: Encoding, decode: (Encoding, seq<byte>) -> string): (r: (BodyState, string))
    ensures r.0.text == Some(r.1) && r.0.stream == s.stream
    ensures s.text.None? && s.bytes.Some? ==> r.1 == decode(enc, s.bytes.value)
  {
    if s.text.Some? then (s, s.text.value)
    else
      var (s1, b) := ReadBytes(s, t, CopyTask(t));
      var str := if b.Some? then decode(enc, b.value) else "";
      (s1.(text := Some(str)), str)
  }

  /**
   * `ReadAsStringAsync` as written, given the status `task` of the copy
   * task. The byte read's task always completes, with null when it failed,
   * so the string continuation takes its last branch: the bytes are decoded
   * and cached, while a null result reaches `GetString`, which throws
   * `ArgumentNullException` and leaves the string cache empty.
   */
  function ReadStringAsWritten(s: BodyState, t: Transfer, task: TaskStatus, enc: Encoding, decode: (Encoding, seq<byte>) -> string): (r: (BodyState, Result<string, Exn>))
    ensures r.1.Success? ==> r.0.text == Some(r.1.value)
    ensures r.1.Failure? ==> r.1.error == ArgumentNull && r.0.text == None
    ensures s.text.None? && s.bytes.None? ==> (r.1.Success? <==> task.RanToCompletion?)
  {
    if s.text.Some? then (s, Success(s.text.value))
    else
      var (s1, b) := ReadBytes(s, t, task);
      if b.Some? then (s1.(text := Some(decode(enc, b.value))), Success(decode(enc, b.value)))
      else (s1, Failure(ArgumentNull))
  }

  // ---------------------------------------------------------------------------
  // Properties of the caches

  /** A filled byte cache is returned as is, whatever the stream would now yield; nothing changes. */
  lemma ReadBytesCached(s: BodyState, t: Transfer)
    requires s.bytes.Some?
    ensures ReadBytes(s, t, CopyTask(t)) == (s, s.bytes)
  {
  }

  /**
   * A first byte read copies the stream and closes it. It caches and returns
   * the bytes only when the copy completed. A fault is recorded in `Error`
   * and a cancellation leaves `Error` as it was; in both cases the result is
   * null and the cache stays empty.
   */
  lemma ReadBytesFirst(s: BodyState, t: Transfer)
    requires s.bytes.None?
    ensures !ReadBytes(s, t, CopyTask(t)).0.responseOpen
    ensures ReadBytes(s, t, CopyTask(t)).1.Some? <==> t.status.RanToCompletion?
    ensures t.status.RanToCompletion? ==> ReadBytes(s, t, CopyTask(t)).1 == Some(t.written) && ReadBytes(s, t, CopyTask(t)).0.bytes == Some(t.written)
    ensures !t.status.RanToCompletion? ==> ReadBytes(s, t, CopyTask(t)).0.bytes == None
    ensures t.status.Faulted? ==> ReadBytes(s, t, CopyTask(t)).0.error == Some(Aggregate(t.status.fault))
    ensures t.status.Canceled? ==> ReadBytes(s, t, CopyTask(t)).0.error == s.error
  {
  }

  /** After a successful byte read, every later byte read returns the same bytes and changes nothing. */
  lemma ReadBytesIdempotent(s: BodyState, t1: Transfer, t2: Transfer)
    requires ReadBytes(s, t1, CopyTask(t1)).1.Some?
    ensures ReadBytes(ReadBytes(s, t1, CopyTask(t1)).0, t2, CopyTask(t2)) == ReadBytes(s, t1, CopyTask(t1))
  {
  }

  /**
   * After a failed byte read the cache is still empty, so the next read
   * copies again instead of answering from the cache; when that copy
   * completes, its bytes are returned.
   */
  lemma ReadBytesRetry(s: BodyState, t1: Transfer, t2: Transfer)
    requires s.bytes.None? && !t1.status.RanToCompletion? && t2.status.RanToCompletion?
    ensures ReadBytes(ReadBytes(s, t1, CopyTask(t1)).0, t2, CopyTask(t2)).1 == Some(t2.written)
  {
  }

  /** A filled string cache is returned without reading. */
  lemma ReadStringCached(s: BodyState, t: Transfer, enc: Encoding, decode: (Encoding, seq<byte>) -> string)
    requires s.text.Some?
    ensures ReadString(s, t, enc, decode) == (s, s.text.value)
  {
  }

  /**
   * A first string read over a first byte read: on completion it caches the
   * decoded bytes; on a fault it records the fault and caches ""; on a
   * cancellation it caches "" and leaves `Error` alone.
   */
  lemma ReadStringFirst(s: BodyState, t: Transfer, enc: Encoding, decode: (Encoding, seq<byte>) -> string)
    requires s.text.None? && s.bytes.None?
    ensures t.status.RanToCompletion? ==>
      ReadString(s, t, enc, decode).1 == decode(enc, t.written) &&
      ReadString(s, t, enc, decode).0.text == Some(decode(enc, t.written)) &&
      ReadString(s, t, enc, decode).0.bytes == Some(t.written)
    ensures t.status.Faulted? ==>
      ReadString(s, t, enc, decode).1 == "" && ReadString(s, t, enc, decode).0.text == Some("") &&
      ReadString(s, t, enc, decode).0.error == Some(Aggregate(t.status.fault))
    ensures t.status.Canceled? ==>
      ReadString(s, t, enc, decode).1 == "" && ReadString(s, t, enc, decode).0.text == Some("") &&
      ReadString(s, t, enc, decode).0.error == s.error
  {
  }

  /** The string is decoded from the cached bytes when a byte read came first; the stream is not copied again. */
  lemma ReadStringAfterBytes(s: BodyState, t: Transfer, enc: Encoding, decode: (Encoding, seq<byte>) -> string)
    requires s.text.None? && s.bytes.Some?
    ensures ReadString(s, t, enc, decode) == (s.(text := Some(decode(enc, s.bytes.value))), decode(enc, s.bytes.value))
  {
  }

  /**
   * The byte cache and the stream cache are independent: a byte read leaves
   * the stream cache as it was, and a stream read the byte and string caches.
   */
  lemma CachesIndependent(s: BodyState, t: Transfer)
    ensures ReadBytes(s, t, CopyTask(t)).0.stream == s.stream
    ensures ReadStream(s, t, CopyTask(t)).0.bytes == s.bytes && ReadStream(s, t, CopyTask(t)).0.text == s.text
  {
  }

  /**
   * Stream reads: a filled cache is returned as is; a first read yields the
   * copied bytes rewound to position 0 on completion and null otherwise.
   */
  lemma ReadStreamOutcome(s: BodyState, t: Transfer)
    ensures s.stream.Some? ==> ReadStream(s, t, CopyTask(t)) == (s, s.stream)
    ensures s.stream.None? && t.status.RanToCompletion? ==>
      ReadStream(s, t, CopyTask(t)).1 == Some(MemoryStream(t.written, 0)) &&
      ReadStream(s, t, CopyTask(t)).0.stream == ReadStream(s, t, CopyTask(t)).1
    ensures s.stream.None? && !t.status.RanToCompletion? ==>
      ReadStream(s, t, CopyTask(t)).1 == None && ReadStream(s, t, CopyTask(t)).0.stream == None
    ensures s.stream.None? && t.status.Faulted? ==> ReadStream(s, t, CopyTask(t)).0.error == Some(Aggregate(t.status.fault))
    ensures s.stream.None? ==> !ReadStream(s, t, CopyTask(t)).0.responseOpen
  {
  }

  /** `GetEncoding` falls back to UTF-8 exactly when the lookup of the character set fails or there is none. */
  lemma GetEncodingFallback(characterSet: Option<string>, known: string -> bool)
    ensures GetEncoding(characterSet, known) == Utf8Encoding <==>
      characterSet.None? || !known(AsciiLowerString(characterSet.value))
  {
  }

  /**
   * As written, a copy that faults after writing some bytes still completes:
   * the byte read caches and returns the partial bytes as if the copy had
   * succeeded, and no later read ever copies again. Only `Error` shows it.
   */
  lemma CopyFaultHidden(s: BodyState, partial: seq<byte>, f: Fault)
    requires s.bytes.None?
    ensures CopyTaskAsWritten(Transfer(partial, Faulted(f))) == RanToCompletion
    ensures ReadBytes(s, Transfer(partial, Faulted(f)), CopyTaskAsWritten(Transfer(partial, Faulted(f)))).1 == Some(partial)
    ensures ReadBytes(s, Transfer(partial, Faulted(f)), CopyTaskAsWritten(Transfer(partial, Faulted(f)))).0.bytes == Some(partial)
    ensures ReadBytes(s, Transfer(partial, Faulted(f)), CopyTaskAsWritten(Transfer(partial, Faulted(f)))).0.error == Some(Aggregate(f))
    ensures ReadBytes(s, Transfer(partial, Faulted(f)), CopyTask(Transfer(partial, Faulted(f)))).1 == None
  {
  }

  /**
   * As written, the stream read too takes a copy that faults after writing
   * some bytes for a success: it caches and returns the partial stream.
   */
  lemma StreamFaultHidden(s: BodyState, partial: seq<byte>, f: Fault)
    requires s.stream.None?
    ensures ReadStream(s, Transfer(partial, Faulted(f)), CopyTaskAsWritten(Transfer(partial, Faulted(f)))).1 == Some(MemoryStream(partial, 0))
    ensures ReadStream(s, Transfer(partial, Faulted(f)), CopyTaskAsWritten(Transfer(partial, Faulted(f)))).0.stream == Some(MemoryStream(partial, 0))
    ensures ReadStream(s, Transfer(partial, Faulted(f)), CopyTaskAsWritten(Transfer(partial, Faulted(f)))).0.error == Some(Aggregate(f))
    ensures ReadStream(s, Transfer(partial, Faulted(f)), CopyTask(Transfer(partial, Faulted(f)))).1 == None
  {
  }

  /**
   * As written, with the copy task as written, a first string read decodes
   * and caches whatever bytes the copy wrote, even when the copy faulted.
   */
  lemma PartialBytesDecoded(s: BodyState, t: Transfer, enc: Encoding, decode: (Encoding, seq<byte>) -> string)
    requires s.text.None? && s.bytes.None?
    ensures ReadStringAsWritten(s, t, CopyTaskAsWritten(t), enc, decode).1 == Success(decode(enc, t.written))
    ensures ReadStringAsWritten(s, t, CopyTaskAsWritten(t), enc, decode).0.text == Some(decode(enc, t.written))
    ensures ReadStringAsWritten(s, t, CopyTaskAsWritten(t), enc, decode).0.bytes == Some(t.written)
  {
  }

  /**
   * As written, even with the copy task corrected, a failed copy never
   * reaches the string continuation's fault and cancellation branches: the
   * byte read completes with null, `GetString(null)` throws
   * `ArgumentNullException`, and the string cache stays empty, so the
   * corrected `ReadString` (which caches "") differs.
   */
  lemma NullBytesReachGetString(s: BodyState, t: Transfer, enc: Encoding, decode: (Encoding, seq<byte>) -> string)
    requires s.text.None? && s.bytes.None? && !t.status.RanToCompletion?
    ensures ReadStringAsWritten(s, t, CopyTask(t), enc, decode).1 == Failure(ArgumentNull)
    ensures ReadStringAsWritten(s, t, CopyTask(t), enc, decode).0.text == None
    ensures ReadStringAsWritten(s, t, CopyTask(t), enc, decode).0.bytes == None
    ensures t.status.Faulted? ==> ReadStringAsWritten(s, t, CopyTask(t), enc, decode).0.error == Some(Aggregate(t.status.fault))
    ensures ReadString(s, t, enc, decode).0.text == Some("")
  {
  }

  // ---------------------------------------------------------------------------
  // RestResponseBody

  class RestResponseBody {
    var contentBytes: Option<seq<byte>>
    var contentString: Option<string>
    var contentStream: Option<MemoryStream>
    var error: Option<Exn>
    var responseOpen: bool
    const characterSet: Option<string>

    /** The cache fields as a value. */
    function State(): BodyState
      reads this
    {
      BodyState(contentBytes, contentString, contentStream, error, responseOpen)
    }

    /** `new RestResponseBody(responseStream, characterSet)`. */
    constructor(characterSet: Option<string>)
      ensures State() == Unread && this.characterSet == characterSet
    {
      contentBytes := None;
      contentString := None;
      contentStream := None;
      error := None;
      responseOpen := true;
      this.characterSet := characterSet;
    }

    /**
     * `CopyToAsync(destination)`: the destination holds what was copied and
     * is rewound; the response stream is closed; a fault is recorded.
     */
    method CopyToAsync(t: Transfer) returns (destination: MemoryStream, task: TaskStatus)
      modifies this`error, this`responseOpen
      ensures State() == Copied(old(State()), t)
      ensures destination == MemoryStream(t.written, 0)
      ensures task == CopyTask(t)
    {
      destination := MemoryStream(t.written, 0);
      responseOpen := false;
      if t.status.Faulted? {
        error := Some(Flattened(t.status.fault));
      }
      task := t.status;
    }

    /** `ReadAsByteArrayAsync()`. */
    method ReadAsByteArrayAsync(t: Transfer) returns (r: Option<seq<byte>>)
      modifies this`contentBytes, this`error, this`responseOpen
      ensures (State(), r) == ReadBytes(old(State()), t, CopyTask(t))
    {
      if contentBytes.Some? {
        return contentBytes;
      }
      var destination, task := CopyToAsync(t);
      match task
      case Faulted(f) =>
        error := Some(Flattened(f));
        r := None;
      case Canceled =>
        r := None;
      case RanToCompletion =>
        contentBytes := Some(destination.data);
        r := contentBytes;
    }

    /** `ReadAsStreamAsync()`. */
    method ReadAsStreamAsync(t: Transfer) returns (r: Option<MemoryStream>)
      modifies this`contentStream, this`error, this`responseOpen
      ensures (State(), r) == ReadStream(old(State()), t, CopyTask(t))
    {
      if contentStream.Some? {
        return contentStream;
      }
      var destination, task := CopyToAsync(t);
      match task
      case Faulted(f) =>
        error := Some(Flattened(f));
        r := None;
      case Canceled =>
        r := None;
      case RanToCompletion =>
        contentStream := Some(destination);
        r := contentStream;
    }

    /** `GetEncoding()`, with the platform's table of known encodings as `known`. */
    function Encoding(known: string -> bool): (e: Encoding)
      ensures characterSet.None? ==> e == Utf8Encoding
      ensures e.NamedEncoding? ==> characterSet.Some? && e.name == AsciiLowerString(characterSet.value) && known(e.name)
    {
      GetEncoding(characterSet, known)
    }

    /** `ReadAsStringAsync()`, with `decode` for `Encoding.GetString`. */
    method ReadAsStringAsync(t: Transfer, known: string -> bool, decode: (Encoding, seq<byte>) -> string) returns (r: string)
      modifies this
      ensures (State(), r) == ReadString(old(State()), t, GetEncoding(characterSet, known), decode)
    {
      if contentString.Some? {
        return contentString.value;
      }
      var b := ReadAsByteArrayAsync(t);
      if b.None? {
        contentString := Some("");
      } else {
        contentString := Some(decode(Encoding(known), b.value));
      }
      r := contentString.value;
    }

    /** `Dispose()`: disposes the response stream; the caches are kept. */
    method Dispose()
      modifies this`responseOpen
      ensures State() == old(State()).(responseOpen := false)
    {
      responseOpen := false;
    }
  }

  // ---------------------------------------------------------------------------
  // RestException

  /** The fields of a `RestException`: message, inner exception, status code and body. */
  datatype RestException = RestException(
    message: Option<string>,
    inner: Option<Exn>,
    statusCode: int,
    body: RestResponseBody?)

  /**
   * The four-argument constructor as written: the message and inner
   * exception go to the base class and the body is stored, but
   * `StatusCode` is assigned to itself and keeps its default 0.
   */
  function RestExceptionAsWritten(statusCode: int, statusDescription: Option<string>, body: RestResponseBody?, inner: Option<Exn>): (e: RestException)
    ensures e.message == statusDescription && e.inner == inner && e.body == body
    ensures e.statusCode == 0
  {
    RestException(statusDescription, inner, 0, body)
  }

  /** A 404 response's exception reports status 0 as written. */
  lemma StatusCodeLost(body: RestResponseBody?)
    ensures RestExceptionAsWritten(404, Some("Not Found"), body, None).statusCode != 404
  {
  }

  /** The four-argument constructor as intended: the status code is the argument. */
  function NewRestException(statusCode: int, statusDescription: Option<string>, body: RestResponseBody?, inner: Option<Exn>): (e: RestException)
    ensures e.message == statusDescription && e.inner == inner && e.body == body
    ensures e.statusCode == statusCode
  {
    RestException(statusDescription, inner, statusCode, body)
  }

  /** The three-argument constructor: the four-argument one with no inner exception. */
  function NewRestException3(statusCode: int, statusDescription: Option<string>, body: RestResponseBody?): (e: RestException)
    ensures e == NewRestException(statusCode, statusDescription, body, None)
    ensures e.inner == None
  {
    NewRestException(statusCode, statusDescription, body, None)
  }

  /** The corrected constructor keeps every argument: two exceptions are equal exactly when their arguments are. */
  lemma NewRestExceptionInjective(c1: int, d1: Option<string>, b1: RestResponseBody?, i1: Option<Exn>,
                                  c2: int, d2: Option<string>, b2: RestResponseBody?, i2: Option<Exn>)
    ensures NewRestException(c1, d1, b1, i1) == NewRestException(c2, d2, b2, i2) <==> c1 == c2 && d1 == d2 && b1 == b2 && i1 == i2
  {
  }

  // ---------------------------------------------------------------------------
  // RestResponse

  /** `IsSuccessStatusCode`: a status in the 2xx range. */
  predicate IsSuccess(statusCode: int) {
    200 <= statusCode < 300
  }

  /** The class of a status code is its first digit (section 6 of RFC 7231). */
  function StatusClass(statusCode: int): (c: int)
    requires 100 <= statusCode <= 599
    ensures 1 <= c <= 5
    ensures c * 100 <= statusCode < c * 100 + 100
  {
    statusCode / 100
  }

  /** For status codes of the standard range, success is exactly class 2 (section 6.3 of RFC 7231). */
  lemma SuccessIsClass2(statusCode: int)
    requires 100 <= statusCode <= 599
    ensures IsSuccess(statusCode) <==> StatusClass(statusCode) == 2
  {
  }

  /** The fields the response copies from an `HttpWebResponse`. */
  datatype WebResponse = WebResponse(
    statusCode: int,
    statusDescription: Option<string>,
    characterSet: Option<string>,
    contentType: Option<string>,
    headers: seq<(string, string)>,
    cookies: seq<(string, string)>)

  /** The first cookie whose name matches ignoring case, as the `CookieCollection` indexer finds it. */
  function CookieValue(cookies: seq<(string, string)>, name: string): (r: Option<string>)
    ensures r.None? <==> forall i :: 0 <= i < |cookies| ==> !EqualsIgnoreCase(cookies[i].0, name)
    ensures r.Some? ==> exists i :: 0 <= i < |cookies| && EqualsIgnoreCase(cookies[i].0, name) && cookies[i].1 == r.value &&
                                  forall j :: 0 <= j < i ==> !EqualsIgnoreCase(cookies[j].0, name)
  {
    if |cookies| == 0 then None
    else if EqualsIgnoreCase(cookies[0].0, name) then Some(cookies[0].1)
    else
      var r := CookieValue(cookies[1..], name);
      assert forall i :: 1 <= i < |cookies| ==> cookies[i] == cookies[1..][i - 1];
      r
  }

  class RestResponse {
    /** `StatusCode`: 0 (the default) when there was no web response. */
    var statusCode: int
    var statusDescription: Option<string>
    var characterSet: Option<string>
    var contentType: Option<string>
    /** `Headers` and `Cookies`: null when there was no web response. */
    var headers: Option<seq<(string, string)>>
    var cookies: Option<seq<(string, string)>>
    var body: RestResponseBody?
    var error: Option<RestException>

    /** `IsSuccessStatusCode`. */
    predicate IsSuccessStatusCode()
      reads this
    {
      IsSuccess(statusCode)
    }

    /**
     * `new RestResponse(request, webResponse, responseError)`. Without a web
     * response only `Error` is set. With one, its fields are copied, a body
     * over its stream is created, and a non-success status replaces `Error`
     * by a `RestException` carrying the status, its description and the body.
     */
    constructor(web: Option<WebResponse>, responseError: Option<RestException>)
      ensures web.None? ==>
        statusCode == 0 && statusDescription == None && characterSet == None && contentType == None &&
        headers == None && cookies == None && body == null && error == responseError
      ensures web.Some? ==>
        statusCode == web.value.statusCode && statusDescription == web.value.statusDescription &&
        characterSet == web.value.characterSet && contentType == web.value.contentType &&
        headers == Some(web.value.headers) && cookies == Some(web.value.cookies) &&
        body != null && fresh(body) && body.State() == Unread && body.characterSet == web.value.characterSet
      ensures web.Some? && IsSuccess(web.value.statusCode) ==> error == responseError
      ensures web.Some? && !IsSuccess(web.value.statusCode) ==>
        error == Some(NewRestException3(web.value.statusCode, web.value.statusDescription, body))
    {
      error := responseError;
      statusCode := 0;
      statusDescription := None;
      characterSet := None;
      contentType := None;
      headers := None;
      cookies := None;
      body := null;
      new;
      if web.Some? {
        characterSet := web.value.characterSet;
        contentType := web.value.contentType;
        cookies := Some(web.value.cookies);
        headers := Some(web.value.headers);
        statusCode := web.value.statusCode;
        statusDescription := web.value.statusDescription;
        body := new RestResponseBody(characterSet);
        if !IsSuccessStatusCode() {
          error := Some(NewRestException3(statusCode, statusDescription, body));
        }
      }
    }

    /** `EnsureSuccessStatusCode()`: `this` on success, otherwise a thrown `RestException` built from the response. */
    method EnsureSuccessStatusCode() returns (r: Result<RestResponse, RestException>)
      ensures IsSuccess(statusCode) ==> r == Success(this)
      ensures !IsSuccess(statusCode) ==> r == Failure(NewRestException3(statusCode, statusDescription, body))
      ensures r.Failure? ==> r.error.statusCode == statusCode && r.error.body == body
    {
      if !IsSuccessStatusCode() {
        return Failure(NewRestException3(statusCode, statusDescription, body));
      }
      r := Success(this);
    }

    /**
     * `GetHeaderValue(key)`: `Headers[key]` when `Headers.AllKeys` contains
     * `key` (an ordinal comparison), null otherwise; no headers (no web
     * response) throws.
     */
    function GetHeaderValue(key: string): (r: Result<Option<string>, Exn>)
      reads this
      ensures headers.None? ==> r == Failure(NullReference)
      ensures headers.Some? ==> r.Success? && (r.value.None? <==> !HasKey(headers.value, key))
      ensures headers.Some? && r.value.Some? ==> (key, r.value.value) in headers.value
    {
      if headers.None? then Failure(NullReference) else Success(Lookup(headers.value, key))
    }

    /** `GetCookieValue(name)`: null for an absent cookie; no cookies (no web response) throws. */
    function GetCookieValue(name: string): (r: Result<Option<string>, Exn>)
      reads this
      ensures cookies.None? ==> r == Failure(NullReference)
      ensures cookies.Some? ==> r.Success?
      ensures cookies.Some? ==> (r.value.None? <==> forall i :: 0 <= i < |cookies.value| ==> !EqualsIgnoreCase(cookies.value[i].0, name))
    {
      if cookies.None? then Failure(NullReference) else Success(CookieValue(cookies.value, name))
    }

    /** `Dispose()`: disposes the body when there is one, and nothing else. */
    method Dispose()
      modifies if body != null then {body} else {}
      ensures body != null ==> body.State() == old(body.State()).(responseOpen := false)
    {
      if body != null {
        body.Dispose();
      }
    }
  }

  /** A response built without a web response is never a success, whatever error was supplied. */
  method NoWebResponse(responseError: Option<RestException>) returns (r: RestResponse)
    ensures fresh(r) && !r.IsSuccessStatusCode() && r.error == responseError && r.body == null
  {
    r := new RestResponse(None, responseError);
  }

  /** The error of a failed response carries its status code, which the constructor as written would drop. */
  lemma ResponseErrorCarriesStatus(code: int, description: Option<string>, body: RestResponseBody?)
    requires !IsSuccess(code)
    ensures NewRestException3(code, description, body).statusCode == code
    ensures code != 0 ==> RestExceptionAsWritten(code, description, body, None) != NewRestException3(code, description, body)
  {
  }
}
