/**
 * The cache's response clone: the body text is read once, and from then on
 * `text()` and `json()` replay that text while the binary accessors refuse.
 * A value that is not a response passes through untouched.
 */
module Bodies {
  import opened Wrappers
  import opened Fetch

  /** The message a refused binary accessor rejects with. */
  function UnsupportedMessage(kind: BodyKind): string {
    "simple-cache middleware cannot be used with " + KindName(kind) + " response bodies"
  }

  /** An accessor installed by the clone, answering from the buffered text `t`. */
  function BufferedRead(t: string, kind: BodyKind): Result<Body, Error> {
    match kind
    case TextKind => Success(TextBody(t))
    case JsonKind => Success(JsonBody(JsonParseOf(t)))
    case _ => Failure(PlainError(UnsupportedMessage(kind)))
  }

  /** Calling one accessor on a response: the clone's accessors once buffered, the native ones before. */
  function Read(r: Response, kind: BodyKind): (Result<Body, Error>, Response) {
    match r.buffer
    case Some(t) => (BufferedRead(t, kind), r)
    case None => NativeRead(r, kind)
  }

  /** Several callers calling accessors one after another on the same response. */
  function ReadAll(r: Response, kinds: seq<BodyKind>): (results: seq<Result<Body, Error>>)
    ensures |results| == |kinds|
    decreases |kinds|
  {
    if |kinds| == 0 then []
    else
      var (first, after) := Read(r, kinds[0]);
      [first] + ReadAll(after, kinds[1..])
  }

  /** The clone: read the text once and install replaying accessors over it. */
  function Clone(v: Value): (s: Settlement)
    ensures !v.ResponseValue? ==> s == Fulfilled(v)
    ensures s.Fulfilled? && v.ResponseValue? ==> s.value.ResponseValue? && s.value.response.buffer.Some?
  {
    match v
    case ResponseValue(r) =>
      (match Read(r, TextKind).0
       case Success(b) => Fulfilled(ResponseValue(r.(bodyUsed := true, buffer := Some(b.text))))
       case Failure(e) => Rejected(e))
    case _ => Fulfilled(v)
  }

  // ---------------------------------------------------------------------------

  /** Cloning an unread response keeps its status and buffers exactly its body text. */
  lemma CloneBuffersBody(r: Response)
    requires Unread(r)
    ensures Clone(ResponseValue(r)) == Fulfilled(ResponseValue(Response(r.status, r.body, true, Some(r.body))))
  {
  }

  /** Cloning a response whose body was already consumed fails as reading it would. */
  lemma CloneOfConsumedBodyRejects(r: Response)
    requires r.bodyUsed && r.buffer.None?
    ensures Clone(ResponseValue(r)) == Rejected(TypeError(BodyUsedMessage))
  {
  }

  /**
   * Every caller reading a cloned response gets the answer of its own accessor
   * from the same buffer, whatever others read before: the same text, the
   * parse of that text, or the fixed refusal.
   */
  lemma {:induction false} BufferedReadsReplay(r: Response, kinds: seq<BodyKind>)
    requires r.buffer.Some?
    ensures forall i :: 0 <= i < |kinds| ==> ReadAll(r, kinds)[i] == BufferedRead(r.buffer.value, kinds[i])
    decreases |kinds|
  {
    if |kinds| > 0 {
      BufferedReadsReplay(r, kinds[1..]);
      var results := ReadAll(r, kinds);
      assert results == [BufferedRead(r.buffer.value, kinds[0])] + ReadAll(r, kinds[1..]);
      forall i | 0 <= i < |kinds| ensures results[i] == BufferedRead(r.buffer.value, kinds[i]) {
        if i > 0 { assert kinds[1..][i - 1] == kinds[i]; }
      }
    }
  }

  /**
   * Every accessor call on the clone of an unread response, in any order and
   * however often: `text()` yields the original body text, `json()` its parse,
   * and the binary accessors reject with the fixed message naming them.
   */
  lemma {:induction false} ClonedReadsReplay(r: Response, kinds: seq<BodyKind>)
    requires Unread(r)
    ensures var c := Clone(ResponseValue(r)).value.response;
      forall i :: 0 <= i < |kinds| ==>
        ReadAll(c, kinds)[i] == match kinds[i]
          case TextKind => Success(TextBody(r.body))
          case JsonKind => Success(JsonBody(JsonParseOf(r.body)))
          case _ => Failure(PlainError(UnsupportedMessage(kinds[i])))
  {
    CloneBuffersBody(r);
    var c := Clone(ResponseValue(r)).value.response;
    BufferedReadsReplay(c, kinds);
  }

  /** Without the clone the body is one-shot: only the first of several reads succeeds. */
  lemma {:induction false} UnbufferedReadsOnce(r: Response, kinds: seq<BodyKind>)
    requires r.buffer.None?
    ensures forall i :: 0 <= i < |kinds| ==> (ReadAll(r, kinds)[i].Success? <==> i == 0 && !r.bodyUsed)
    decreases |kinds|
  {
    if |kinds| > 0 {
      var after := Read(r, kinds[0]).1;
      assert after.bodyUsed && after.buffer.None?;
      UnbufferedReadsOnce(after, kinds[1..]);
      var results := ReadAll(r, kinds);
      assert results == [Read(r, kinds[0]).0] + ReadAll(after, kinds[1..]);
      forall i | 0 <= i < |kinds| ensures results[i].Success? <==> i == 0 && !r.bodyUsed {
        if i > 0 { assert results[i] == ReadAll(after, kinds[1..])[i - 1]; }
      }
    }
  }
}
