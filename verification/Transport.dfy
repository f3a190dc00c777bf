/** The proxy transport that follows a backend's redirects itself and replays the request body. */
module Transport {
  import opened Wrappers

  const MAX_BACKEND_REDIRECTS := 10
  const MAX_REDIRECT_REPLAY_BODY := 4 * 1024 * 1024

  datatype Url = Url(host: string, rest: string)

  datatype Response = Response(status: int, location: string, content: string)

  datatype Failure = ReadBody | Backend(error: string) | TooManyRedirects

  /** What a body yields to whoever reads it: its bytes, then its end or an error. */
  datatype Payload = Payload(bytes: seq<bv8>, fails: bool)

  /** A body is read once: what has been read is gone. */
  class Body {
    var unread: seq<bv8>
    const fails: bool

    constructor (unread: seq<bv8>, fails: bool)
      ensures this.unread == unread && this.fails == fails
    {
      this.unread := unread;
      this.fails := fails;
    }

    /** Reads on until the limit, the end or an error. */
    method ReadAll(limit: nat) returns (r: Result<seq<bv8>, Failure>)
      modifies this
      ensures r.Err? <==> fails && |old(unread)| < limit
      ensures r.Err? ==> r.error == ReadBody
      ensures r.Ok? ==> r.value + unread == old(unread) && (|r.value| == limit || (unread == [] && |r.value| < limit))
    {
      var n := if |unread| < limit then |unread| else limit;
      var bytes := unread[..n];
      unread := unread[n..];
      if fails && n < limit {
        return Err(ReadBody);
      }
      r := Ok(bytes);
    }
  }

  datatype Request = Request(verb: string, url: Url, host: string, header: string, body: Option<Body>,
                             contentLength: int) {
    ghost function Bodies(): set<Body> {
      if body.Some? then {body.value} else {}
    }

    /** What the backend gets to see if the request is sent now. */
    ghost function OnTheWire(): Wire
      reads Bodies()
    {
      Wire(verb, url, host, header, contentLength,
           if body.Some? then Some(Payload(body.value.unread, body.value.fails)) else None)
    }
  }

  datatype Wire = Wire(verb: string, url: Url, host: string, header: string, contentLength: int,
                       payload: Option<Payload>)

  /** The backend may answer each request as it pleases, in view of everything it was sent. */
  type Behaviour = seq<Wire> -> Result<Response, string>

  class Backend {
    const answer: Behaviour
    var sent: seq<Wire>

    constructor (answer: Behaviour)
      ensures this.answer == answer && sent == []
    {
      this.answer := answer;
      sent := [];
    }

    /** Sending reads the body to its end. */
    method RoundTrip(req: Request) returns (r: Result<Response, string>)
      modifies this, req.Bodies()
      ensures sent == old(sent) + [old(req.OnTheWire())]
      ensures r == answer(sent)
      ensures req.body.Some? ==> req.body.value.unread == []
    {
      var payload := None;
      if req.body.Some? {
        payload := Some(Payload(req.body.value.unread, req.body.value.fails));
        req.body.value.unread := [];
      }
      sent := sent + [Wire(req.verb, req.url, req.host, req.header, req.contentLength, payload)];
      r := answer(sent);
    }
  }

  /** `resolve` reads a Location against the URL it came from, or fails. */
  datatype Rules = Rules(targetHost: string, resolve: (Url, string) -> Option<Url>)

  /** Where a response sends the request next, when it may be followed. */
  function Next(rules: Rules, url: Url, resp: Response): Option<Url> {
    if resp.status != 307 && resp.status != 308 then None
    else if resp.location == "" then None
    else
      var newUrl := rules.resolve(url, resp.location);
      if newUrl.Some? && newUrl.value.host != "" && newUrl.value.host != rules.targetHost then None else newUrl
  }

  function Hop(w: Wire, url: Url): Wire {
    w.(url := url, host := url.host,
       contentLength := if w.payload.Some? then |w.payload.value.bytes| else w.contentLength)
  }

  /** The request at `i` is the one that the response to the request before it asks for. */
  ghost predicate Follows(rules: Rules, answer: Behaviour, past: seq<Wire>, sent: seq<Wire>, i: nat)
    requires 0 < i < |sent|
  {
    var resp := answer(past + sent[..i]);
    && resp.Ok?
    && Next(rules, sent[i - 1].url, resp.value) == Some(sent[i].url)
    && sent[i] == Hop(sent[i - 1], sent[i].url)
  }

  function Lifted(r: Result<Response, string>): Result<Response, Failure> {
    match r
    case Ok(resp) => Ok(resp)
    case Err(e) => Err(Failure.Backend(e))
  }

  ghost predicate Exchange(rules: Rules, answer: Behaviour, past: seq<Wire>, first: Wire, sent: seq<Wire>,
                           result: Result<Response, Failure>) {
    && 0 < |sent| <= MAX_BACKEND_REDIRECTS + 1
    && sent[0] == first
    && (forall i :: 0 < i < |sent| ==> Follows(rules, answer, past, sent, i))
    && var last := answer(past + sent);
       if last.Ok? && Next(rules, sent[|sent| - 1].url, last.value).Some?
       then |sent| == MAX_BACKEND_REDIRECTS + 1 && result == Err(TooManyRedirects)
       else result == Lifted(last)
  }

  /** The requests so far are those the responses asked for; the last may not have been answered yet. */
  ghost predicate OnTrack(rules: Rules, answer: Behaviour, past: seq<Wire>, first: Wire, sent: seq<Wire>) {
    && sent != [] && sent[0] == first
    && forall i :: 0 < i < |sent| ==> Follows(rules, answer, past, sent, i)
  }

  ghost function Asked(rules: Rules, answer: Behaviour, past: seq<Wire>, sent: seq<Wire>): Option<Url>
    requires sent != []
  {
    var r := answer(past + sent);
    if r.Ok? then Next(rules, sent[|sent| - 1].url, r.value) else None
  }

  /** All requests are used up and the last response asks for one more. */
  ghost predicate Spent(rules: Rules, answer: Behaviour, past: seq<Wire>, first: Wire, sent: seq<Wire>) {
    OnTrack(rules, answer, past, first, sent) && Asked(rules, answer, past, sent).Some?
  }

  lemma StartsOnTrack(rules: Rules, answer: Behaviour, past: seq<Wire>, first: Wire)
    ensures OnTrack(rules, answer, past, first, [] + [first])
  {
  }

  lemma TrackGoesOn(rules: Rules, answer: Behaviour, past: seq<Wire>, first: Wire, sent: seq<Wire>, url: Url)
    requires OnTrack(rules, answer, past, first, sent) && Asked(rules, answer, past, sent) == Some(url)
    ensures OnTrack(rules, answer, past, first, sent + [Hop(sent[|sent| - 1], url)])
    ensures Spent(rules, answer, past, first, sent)
  {
    hide Next;
    var more := sent + [Hop(sent[|sent| - 1], url)];
    forall i | 0 < i < |more|
      ensures Follows(rules, answer, past, more, i)
    {
      assert more[..i] == sent[..i];
      if i < |sent| {
        assert Follows(rules, answer, past, sent, i);
      } else {
        assert sent[..i] == sent;
      }
    }
  }

  lemma TrackEnds(rules: Rules, answer: Behaviour, past: seq<Wire>, first: Wire, sent: seq<Wire>)
    requires OnTrack(rules, answer, past, first, sent) && |sent| <= MAX_BACKEND_REDIRECTS + 1
    requires Asked(rules, answer, past, sent).None?
    ensures Exchange(rules, answer, past, first, sent, Lifted(answer(past + sent)))
  {
    hide Follows, Next;
  }

  class RedirectFollowingTransport {
    const base: Backend
    const rules: Rules

    constructor (base: Backend, rules: Rules)
      ensures this.base == base && this.rules == rules
    {
      this.base := base;
      this.rules := rules;
    }

    method RoundTrip(request: Request) returns (result: Result<Response, Failure>, ghost added: seq<Wire>)
      modifies base, request.Bodies()
      ensures base.sent == old(base.sent) + added
      ensures var w := old(request.OnTheWire());
              if w.payload.Some? && |w.payload.value.bytes| > MAX_REDIRECT_REPLAY_BODY then
                added == [w] && result == Lifted(base.answer(base.sent))
              else if w.payload.Some? && w.payload.value.fails then
                added == [] && result == Err(ReadBody)
              else
                Exchange(rules, base.answer, old(base.sent), w, added, result)
    {
      var req, bodyBytes := request, None;
      added := [];
      if req.body.Some? {
        var reader := req.body.value;
        var buffered :- reader.ReadAll(MAX_REDIRECT_REPLAY_BODY + 1);
        if |buffered| > MAX_REDIRECT_REPLAY_BODY {
          var stitched := new Body(buffered + reader.unread, reader.fails);
          req := req.(body := Some(stitched));
          var r := base.RoundTrip(req);
          added := [old(request.OnTheWire())];
          return Lifted(r), added;
        }
        assert buffered + reader.unread == buffered;
        bodyBytes := Some(buffered);
        var replay := new Body(buffered, false);
        req := req.(body := Some(replay));
      }
      ghost var first := old(request.OnTheWire());
      ghost var past := old(base.sent);
      StartsOnTrack(rules, base.answer, past, first);
      for i := 0 to MAX_BACKEND_REDIRECTS + 1
        invariant |added| == i && base.sent == past + added
        invariant req.body.Some? <==> bodyBytes.Some?
        invariant first.payload == if bodyBytes.Some? then Some(Payload(bodyBytes.value, false)) else None
        invariant req.body.Some? ==> fresh(req.body.value) && req.body.value.unread == bodyBytes.value
        invariant req.OnTheWire().payload == first.payload
        invariant OnTrack(rules, base.answer, past, first, added + [req.OnTheWire()])
        invariant i == MAX_BACKEND_REDIRECTS + 1 ==> Spent(rules, base.answer, past, first, added)
      {
        hide OnTrack, Exchange;
        ghost var wire := req.OnTheWire();
        var r := base.RoundTrip(req);
        added := added + [wire];
        assert base.sent == past + added;
        if r.Err? {
          TrackEnds(rules, base.answer, past, first, added);
          return Err(Failure.Backend(r.error)), added;
        }
        var resp := r.value;
        if resp.status != 307 && resp.status != 308 {
          TrackEnds(rules, base.answer, past, first, added);
          return Ok(resp), added;
        }
        var location := resp.location;
        if location == "" {
          TrackEnds(rules, base.answer, past, first, added);
          return Ok(resp), added;
        }
        var newUrl := rules.resolve(req.url, location);
        if newUrl.None? {
          TrackEnds(rules, base.answer, past, first, added);
          return Ok(resp), added;
        }
        if newUrl.value.host != "" && newUrl.value.host != rules.targetHost {
          TrackEnds(rules, base.answer, past, first, added);
          return Ok(resp), added;
        }
        var newReq := req.(url := newUrl.value, host := newUrl.value.host);
        if bodyBytes.Some? {
          var replay := new Body(bodyBytes.value, false);
          newReq := newReq.(body := Some(replay), contentLength := |bodyBytes.value|);
        }
        TrackGoesOn(rules, base.answer, past, first, added, newUrl.value);
        req := newReq;
      }
      result := Err(TooManyRedirects);
    }
  }

  lemma {:induction false} SentAgrees(rules: Rules, answer: Behaviour, past: seq<Wire>, first: Wire,
                                      s: seq<Wire>, r: Result<Response, Failure>,
                                      t: seq<Wire>, q: Result<Response, Failure>, n: nat)
    requires Exchange(rules, answer, past, first, s, r) && Exchange(rules, answer, past, first, t, q)
    requires n <= |s| && n <= |t|
    ensures s[..n] == t[..n]
  {
    if n > 1 {
      SentAgrees(rules, answer, past, first, s, r, t, q, n - 1);
      var i := n - 1;
      assert Follows(rules, answer, past, s, i) && Follows(rules, answer, past, t, i);
      assert s[i - 1] == s[..i][i - 1] == t[..i][i - 1] == t[i - 1];
      assert s[..n] == s[..i] + [s[i]] && t[..n] == t[..i] + [t[i]];
    }
  }

  /** After any prefix but the last, the exchange has been told where to go on. */
  lemma GoesOn(rules: Rules, answer: Behaviour, past: seq<Wire>, first: Wire,
               t: seq<Wire>, q: Result<Response, Failure>, s: seq<Wire>)
    requires Exchange(rules, answer, past, first, t, q)
    requires 0 < |s| < |t| && s == t[..|s|]
    ensures var r := answer(past + s);
            r.Ok? && Next(rules, s[|s| - 1].url, r.value).Some?
  {
    assert Follows(rules, answer, past, t, |s|);
  }

  lemma StopsNoSooner(rules: Rules, answer: Behaviour, past: seq<Wire>, first: Wire,
                      s: seq<Wire>, r: Result<Response, Failure>, t: seq<Wire>, q: Result<Response, Failure>)
    requires Exchange(rules, answer, past, first, s, r) && Exchange(rules, answer, past, first, t, q)
    ensures |s| >= |t|
  {
    if |s| < |t| {
      SentAgrees(rules, answer, past, first, s, r, t, q, |s|);
      assert s[..|s|] == s;
      GoesOn(rules, answer, past, first, t, q, s);
    }
  }

  /** Against any backend there is only one exchange: the first response that may not be followed
      ends it, or the eleventh redirect. */
  lemma ExchangeIsDetermined(rules: Rules, answer: Behaviour, past: seq<Wire>, first: Wire,
                             s: seq<Wire>, r: Result<Response, Failure>, t: seq<Wire>, q: Result<Response, Failure>)
    requires Exchange(rules, answer, past, first, s, r) && Exchange(rules, answer, past, first, t, q)
    ensures s == t && r == q
  {
    StopsNoSooner(rules, answer, past, first, s, r, t, q);
    StopsNoSooner(rules, answer, past, first, t, q, s, r);
    SentAgrees(rules, answer, past, first, s, r, t, q, |s|);
    assert s[..|s|] == s && t[..|t|] == t;
  }

  /** Every request of an exchange is the client's own, byte for byte, and every one after the first
      goes to the target host or names no host. */
  lemma {:induction false} EveryHopStaysHome(rules: Rules, answer: Behaviour, past: seq<Wire>, first: Wire,
                                             sent: seq<Wire>, result: Result<Response, Failure>, i: nat)
    requires Exchange(rules, answer, past, first, sent, result) && i < |sent|
    ensures sent[i].verb == first.verb && sent[i].header == first.header && sent[i].payload == first.payload
    ensures i > 0 ==> sent[i].host == sent[i].url.host && sent[i].host in {"", rules.targetHost}
    ensures i > 0 && first.payload.Some? ==> sent[i].contentLength == |first.payload.value.bytes|
    ensures first.payload.None? ==> sent[i].contentLength == first.contentLength
  {
    if i > 0 {
      EveryHopStaysHome(rules, answer, past, first, sent, result, i - 1);
      assert Follows(rules, answer, past, sent, i);
    }
  }

  /** Each request after the first is owed to a 307 or 308 whose Location resolves to it. */
  lemma EveryHopIsAsked(rules: Rules, answer: Behaviour, past: seq<Wire>, first: Wire,
                        sent: seq<Wire>, result: Result<Response, Failure>, i: nat)
    requires Exchange(rules, answer, past, first, sent, result) && 0 < i < |sent|
    ensures var r := answer(past + sent[..i]);
            && r.Ok? && r.value.status in {307, 308} && r.value.location != ""
            && rules.resolve(sent[i - 1].url, r.value.location) == Some(sent[i].url)
  {
    assert Follows(rules, answer, past, sent, i);
  }

  /** What comes back is the last answer as it was, and it is a redirect that was not followed only when
      its Location is missing, cannot be resolved or leads to another host. */
  lemma LastAnswerIsReturned(rules: Rules, answer: Behaviour, past: seq<Wire>, first: Wire,
                             sent: seq<Wire>, result: Result<Response, Failure>)
    requires Exchange(rules, answer, past, first, sent, result)
    ensures match answer(past + sent)
            case Err(e) => result == Err(Failure.Backend(e))
            case Ok(resp) =>
              var target := rules.resolve(sent[|sent| - 1].url, resp.location);
              if resp.status in {307, 308} && resp.location != "" && target.Some?
                 && (target.value.host == "" || target.value.host == rules.targetHost)
              then |sent| == 11 && result == Err(TooManyRedirects)
              else result == Ok(resp)
  {
  }

  /** The client sees the redirect error exactly when eleven requests in a row were each answered by
      a redirect that may be followed. */
  lemma RedirectErrorExactly(rules: Rules, answer: Behaviour, past: seq<Wire>, first: Wire,
                             sent: seq<Wire>, result: Result<Response, Failure>)
    requires Exchange(rules, answer, past, first, sent, result)
    ensures result == Err(TooManyRedirects) <==>
            && |sent| == 11
            && forall i :: 0 < i <= 11 ==>
                 var r := answer(past + sent[..i]); r.Ok? && Next(rules, sent[i - 1].url, r.value).Some?
  {
    assert sent[..|sent|] == sent;
    if result == Err(TooManyRedirects) {
      forall i | 0 < i <= 11
        ensures var r := answer(past + sent[..i]); r.Ok? && Next(rules, sent[i - 1].url, r.value).Some?
      {
        if i < 11 {
          assert Follows(rules, answer, past, sent, i);
        }
      }
    }
  }
}
