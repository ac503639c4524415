/** The configuration trigger that polls a URI with a conditional GET and
    reports a change when the Last-Modified validator moves later or the
    ETag validator differs from the one stored (section 2.2 and 2.3 of
    RFC 7232). The HTTP exchange is abstracted to the response status and
    the two validator headers; dates are milliseconds. */
module UriTrigger {
  import opened Wrappers

  /** A Last-Modified header: a date, or text that does not parse as an
      HTTP date. */
  datatype LastModifiedHeader = Date(millis: int) | Unparseable(text: string)

  /** The parts of a response the trigger reads. */
  datatype Response = Response(status: int, etag: Option<string>, lastModified: Option<LastModifiedHeader>)

  /** What executing the request yields: an I/O failure or a response. */
  datatype Exchange = TransportFailure | Received(response: Response)

  /** The conditional request headers of sections 3.2 and 3.3 of RFC 7232. */
  datatype RequestHeader = IfNoneMatch(etag: string) | IfModifiedSince(millis: int)

  /** The result of an evaluation: whether the content changed, or the
      failure to parse a Last-Modified date, which escapes the evaluation. */
  datatype Outcome = Evaluated(changed: bool) | DateParseError

  /** A Last-Modified value that could not be parsed. */
  datatype DateParseException = DateParseException(text: string)

  /** The stored validators. */
  datatype Validators = Validators(etag: Option<string>, lastModified: Option<int>)

  /** The validators of a trigger that has never seen a response. */
  const Initial := Validators(None, None)

  /** Java's integer division, which truncates toward zero. */
  function JavaDiv(a: int, b: int): int
    requires b > 0
  {
    if a >= 0 then a / b else -((-a) / b)
  }

  /** The status class test `status / 100 == 2` accepts exactly 200..299. */
  lemma SuccessClass(status: int)
    ensures JavaDiv(status, 100) == 2 <==> 200 <= status <= 299
  {
    if status >= 0 {
      assert status / 100 == 2 ==> 200 <= status < 300;
    } else {
      assert (-status) / 100 >= 0;
    }
  }

  /** The request headers sent for the stored validators: If-None-Match
      first, then If-Modified-Since. */
  function ConditionalHeaders(v: Validators): (hs: seq<RequestHeader>)
    ensures forall e :: IfNoneMatch(e) in hs <==> v.etag == Some(e)
    ensures forall t :: IfModifiedSince(t) in hs <==> v.lastModified == Some(t)
    ensures |hs| == (if v.etag.Some? then 1 else 0) + (if v.lastModified.Some? then 1 else 0)
  {
    (if v.etag.Some? then [IfNoneMatch(v.etag.value)] else [])
      + (if v.lastModified.Some? then [IfModifiedSince(v.lastModified.value)] else [])
  }

  /** The ETag check: a present ETag that differs from the stored one, or
      any ETag when none is stored, is a change and is stored. */
  function EtagStep(v: Validators, r: Response): (bool, Validators) {
    match r.etag
    case None => (false, v)
    case Some(e) =>
      if v.etag.None? || e != v.etag.value then (true, v.(etag := Some(e))) else (false, v)
  }

  /** The Last-Modified check: a date strictly later than the stored one,
      or any date when none is stored, is a change and is stored; an
      unparseable date is an error. */
  function LastModifiedStep(v: Validators, r: Response): Result<(bool, Validators), DateParseException> {
    match r.lastModified
    case None => Success((false, v))
    case Some(Unparseable(text)) => Failure(DateParseException(text))
    case Some(Date(t)) =>
      if v.lastModified.None? || t > v.lastModified.value
      then Success((true, v.(lastModified := Some(t))))
      else Success((false, v))
  }

  /** One evaluation: the outcome and the validators afterwards. The ETag
      is only examined when Last-Modified does not signal a change. */
  function Evaluate(v: Validators, x: Exchange): (Outcome, Validators) {
    match x
    case TransportFailure => (Evaluated(false), v)
    case Received(r) =>
      if r.status == 304 then (Evaluated(false), v)
      else if JavaDiv(r.status, 100) != 2 then (Evaluated(false), v)
      else if r.etag.None? && r.lastModified.None? then (Evaluated(false), v)
      else
        match LastModifiedStep(v, r)
        case Failure(_) => (DateParseError, v)
        case Success((changed, v')) =>
          if changed then (Evaluated(true), v')
          else
            var (etagChanged, v'') := EtagStep(v', r);
            (Evaluated(etagChanged), v'')
  }

  /** A successful response to a new trigger that carries either validator
      (and a parseable date, if any) reports a change. */
  lemma FirstEvaluationTriggers(r: Response)
    requires 200 <= r.status <= 299
    requires r.etag.Some? || r.lastModified.Some?
    requires r.lastModified.Some? ==> r.lastModified.value.Date?
    ensures Evaluate(Initial, Received(r)).0 == Evaluated(true)
  {
    SuccessClass(r.status);
  }

  /** Not Modified (section 4.1 of RFC 7232) is no change, and leaves the
      validators as they are. */
  lemma NotModifiedIsNoChange(v: Validators, r: Response)
    requires r.status == 304
    ensures Evaluate(v, Received(r)) == (Evaluated(false), v)
  {
  }

  /** A transport failure or a status outside 200..299 is no change, so an
      unreachable or failing server never triggers a reload. */
  lemma FailureIsNoChange(v: Validators, x: Exchange)
    requires x.TransportFailure? || !(200 <= x.response.status <= 299)
    ensures Evaluate(v, x) == (Evaluated(false), v)
  {
    if x.Received? {
      SuccessClass(x.response.status);
    }
  }

  /** A response without either validator is no change. */
  lemma NoValidatorsIsNoChange(v: Validators, r: Response)
    requires r.etag.None? && r.lastModified.None?
    ensures Evaluate(v, Received(r)) == (Evaluated(false), v)
  {
  }

  /** A later Last-Modified date (or the first one) reports a change and is
      stored, and the ETag is then neither examined nor stored. */
  lemma LaterDateTriggers(v: Validators, r: Response, t: int)
    requires 200 <= r.status <= 299
    requires r.lastModified == Some(Date(t))
    requires v.lastModified.None? || t > v.lastModified.value
    ensures Evaluate(v, Received(r)) == (Evaluated(true), Validators(v.etag, Some(t)))
  {
    SuccessClass(r.status);
  }

  /** When Last-Modified does not signal a change (absent, or not later
      than the stored date), the outcome is a change exactly when an ETag
      is present and differs from the stored one, and a present ETag is
      what is stored afterwards. */
  lemma EtagDecidesOtherwise(v: Validators, r: Response)
    requires 200 <= r.status <= 299
    requires r.etag.Some?
    requires r.lastModified.None?
      || (r.lastModified.value.Date? && v.lastModified.Some? && r.lastModified.value.millis <= v.lastModified.value)
    ensures Evaluate(v, Received(r)).0 == Evaluated(v.etag != r.etag)
    ensures Evaluate(v, Received(r)).1 == Validators(r.etag, v.lastModified)
  {
    SuccessClass(r.status);
  }

  /** A response whose only validator is a date not later than the stored
      one is no change, whatever its status, and nothing is stored. */
  lemma StaleDateWithoutEtagIsNoChange(v: Validators, r: Response, t: int)
    requires r.etag.None? && r.lastModified == Some(Date(t))
    requires v.lastModified.Some? && t <= v.lastModified.value
    ensures Evaluate(v, Received(r)) == (Evaluated(false), v)
  {
  }

  /** An unparseable Last-Modified date escapes as an error before the ETag
      is looked at, and nothing is stored. */
  lemma UnparseableDateIsError(v: Validators, r: Response, text: string)
    requires 200 <= r.status <= 299
    requires r.lastModified == Some(Unparseable(text))
    ensures Evaluate(v, Received(r)) == (DateParseError, v)
  {
    SuccessClass(r.status);
  }

  /** The validators change exactly when a change is reported, and then
      only one of them changes. */
  lemma ChangesOnlyWhenTriggered(v: Validators, x: Exchange)
    ensures Evaluate(v, x).0 == Evaluated(true) <==> Evaluate(v, x).1 != v
    ensures Evaluate(v, x).1.etag == v.etag || Evaluate(v, x).1.lastModified == v.lastModified
  {
  }

  /** A single evaluation never moves the stored date earlier nor forgets
      it. */
  lemma DateNeverDecreases(v: Validators, x: Exchange)
    ensures v.lastModified.Some? ==>
      Evaluate(v, x).1.lastModified.Some? && Evaluate(v, x).1.lastModified.value >= v.lastModified.value
  {
  }

  /** The validators after a run of exchanges. */
  function Run(v: Validators, xs: seq<Exchange>): Validators
    decreases |xs|
  {
    if xs == [] then v else Evaluate(Run(v, xs[..|xs| - 1]), xs[|xs| - 1]).1
  }

  /** Over any run, a stored date is never forgotten and never moves
      earlier. */
  lemma {:induction false} RunDateNeverDecreases(v: Validators, xs: seq<Exchange>)
    requires v.lastModified.Some?
    ensures Run(v, xs).lastModified.Some? && Run(v, xs).lastModified.value >= v.lastModified.value
    decreases |xs|
  {
    if xs != [] {
      var n := |xs| - 1;
      RunDateNeverDecreases(v, xs[..n]);
      DateNeverDecreases(Run(v, xs[..n]), xs[n]);
    }
  }

  /** Repeating the same exchange settles after two evaluations: the
      second reports a change only when the first was triggered by the date
      and the ETag differs from the stored one, and the third never does. */
  lemma RepeatedExchangeSettles(v: Validators, x: Exchange)
    ensures var (o1, v1) := Evaluate(v, x);
      var (o2, v2) := Evaluate(v1, x);
      && (o2 == Evaluated(true) ==>
            && x.Received? && x.response.lastModified.Some?
            && v1.lastModified != v.lastModified
            && x.response.etag.Some? && v.etag != x.response.etag)
      && Evaluate(v2, x).0 != Evaluated(true)
  {
  }

  /** The trigger for one URI and the validators of its last evaluations. */
  class UriTrigger {
    const uri: string
    var previousETag: Option<string>
    var previousLastModified: Option<int>

    /** A new trigger stores neither validator, so its first successful
        evaluation reports a change. */
    constructor (uri: string)
      ensures this.uri == uri && previousETag == None && previousLastModified == None
    {
      this.uri := uri;
      previousETag := None;
      previousLastModified := None;
    }

    function Current(): Validators
      reads this
    {
      Validators(previousETag, previousLastModified)
    }

    method IsEtagChanged(response: Response) returns (changed: bool)
      modifies this
      ensures (changed, Current()) == EtagStep(old(Current()), response)
    {
      changed := false;
      if response.etag.Some? {
        var newETag := response.etag.value;
        if previousETag.None? || newETag != previousETag.value {
          previousETag := Some(newETag);
          changed := true;
        }
      }
    }

    method IsLastModifiedChanged(response: Response) returns (changed: Result<bool, DateParseException>)
      modifies this
      ensures changed.Failure? ==> LastModifiedStep(old(Current()), response).Failure? && Current() == old(Current())
      ensures changed.Success? ==> LastModifiedStep(old(Current()), response) == Success((changed.value, Current()))
    {
      changed := Success(false);
      if response.lastModified.Some? {
        match response.lastModified.value {
          case Unparseable(text) =>
            changed := Failure(DateParseException(text));
          case Date(newLastModified) =>
            if previousLastModified.None? || newLastModified > previousLastModified.value {
              previousLastModified := Some(newLastModified);
              changed := Success(true);
            }
        }
      }
    }

    /** Sends the conditional request for the stored validators to the
        server, a function from request headers to the exchange, and
        evaluates what comes back. */
    method EvaluateAndReset(server: seq<RequestHeader> -> Exchange) returns (outcome: Outcome)
      modifies this
      ensures (outcome, Current()) == Evaluate(old(Current()), server(ConditionalHeaders(old(Current()))))
    {
      var request := ConditionalHeaders(Current());
      var exchange := server(request);
      if exchange.TransportFailure? {
        return Evaluated(false);
      }
      var response := exchange.response;
      if response.status == 304 {
        return Evaluated(false);
      }
      if JavaDiv(response.status, 100) != 2 {
        return Evaluated(false);
      }
      if response.etag.None? && response.lastModified.None? {
        return Evaluated(false);
      }
      var lastModifiedChanged := IsLastModifiedChanged(response);
      if lastModifiedChanged.Failure? {
        return DateParseError;
      }
      if lastModifiedChanged.value {
        return Evaluated(true);
      }
      var etagChanged := IsEtagChanged(response);
      return Evaluated(etagChanged);
    }
  }
}
