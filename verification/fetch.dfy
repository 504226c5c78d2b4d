/**
 * Plain-record stand-ins for the Fetch API objects the middleware touches:
 * requests, responses with a one-shot body, and the values and promise
 * settlements that flow between the middleware and the next stage.
 */
module Fetch {
  import opened Wrappers

  /**
   * A request as the middleware reads it: HTTP method, URL, and the values of the
   * Authorization and Cache-Control headers when present.
   */
  datatype Request = Request(httpMethod: string, url: string, authorization: Option<string>, cacheControl: Option<string>)

  /** The body accessors a response offers. */
  datatype BodyKind = TextKind | JsonKind | ArrayBufferKind | BlobKind | FormDataKind

  /** The accessor's name as a caller writes it. */
  function KindName(k: BodyKind): string {
    match k
    case TextKind => "text"
    case JsonKind => "json"
    case ArrayBufferKind => "arrayBuffer"
    case BlobKind => "blob"
    case FormDataKind => "formData"
  }

  /** The value `JSON.parse` gives for a text; the parse itself is left uninterpreted. */
  datatype Json = JsonParseOf(source: string)

  /** What a successful body read yields. */
  datatype Body = TextBody(text: string) | JsonBody(json: Json) | BinaryBody(kind: BodyKind, source: string)

  /** Errors: a `TypeError`, a plain `Error`, or whatever the next stage rejected with. */
  datatype Error = TypeError(message: string) | PlainError(message: string) | Rejection(reason: int)

  /**
   * A response: its status, the text of its body, whether the one-shot body
   * has been consumed, and the text buffered by the cache's clone, which
   * replaces the body accessors once present.
   */
  datatype Response = Response(status: int, body: string, bodyUsed: bool, buffer: Option<string>)

  /** A response nobody has read yet. */
  predicate Unread(r: Response) {
    !r.bodyUsed && r.buffer.None?
  }

  /** A JavaScript value as far as the middleware distinguishes it. */
  datatype Value = RequestValue(request: Request) | ResponseValue(response: Response) | OtherValue(tag: int)

  /** How a promise settles. */
  datatype Settlement = Fulfilled(value: Value) | Rejected(error: Error)

  /** What a call hands back: a plain value, or a promise with its eventual settlement. */
  datatype Returned = Sync(value: Value) | Async(settlement: Settlement)

  /** The platform's message for reading a body twice. */
  const BodyUsedMessage: string := "body stream already read"

  /** The body a native accessor produces from the body text. */
  function NativeBody(kind: BodyKind, text: string): Body {
    match kind
    case TextKind => TextBody(text)
    case JsonKind => JsonBody(JsonParseOf(text))
    case _ => BinaryBody(kind, text)
  }

  /** A native read: the first one succeeds and consumes the body, every later one fails. */
  function NativeRead(r: Response, kind: BodyKind): (Result<Body, Error>, Response) {
    if r.bodyUsed then (Failure(TypeError(BodyUsedMessage)), r)
    else (Success(NativeBody(kind, r.body)), r.(bodyUsed := true))
  }
}
