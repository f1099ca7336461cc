/** The framed stdio session: length-prefixed frames and a protocol of increasing request ids. */
module Session {
  import opened Wrappers
  import opened Bytes

  const MAX_FRAME_BYTES: int := 1024 * 1024 * 1024

  type Body = seq<byte>

  // Frames

  predicate Sendable(body: Body) {
    0 < |body| <= MAX_FRAME_BYTES
  }

  ghost predicate AllSendable(bodies: seq<Body>) {
    forall i :: 0 <= i < |bodies| ==> Sendable(bodies[i])
  }

  function EncodeFrame(body: Body): seq<byte>
    requires Sendable(body)
  {
    Word(|body|) + body
  }

  ghost function EncodeFrames(bodies: seq<Body>): seq<byte>
    requires AllSendable(bodies)
  {
    if bodies == [] then [] else EncodeFrame(bodies[0]) + EncodeFrames(bodies[1..])
  }

  datatype Frame = End | Frame(body: Body, rest: seq<byte>) | Broken(error: Error)

  /** A clean end is only possible before the first byte of a prefix. */
  function NextFrame(bytes: seq<byte>): (f: Frame)
    ensures f.Frame? ==> |f.rest| < |bytes| && Sendable(f.body)
  {
    if bytes == [] then End
    else if |bytes| < 8 then Broken(UnexpectedEof)
    else
      var size := ReadWord(bytes[..8]);
      if size == 0 || size > MAX_FRAME_BYTES then Broken(InvalidData)
      else if |bytes| - 8 < size then Broken(UnexpectedEof)
      else Frame(bytes[8..8 + size], bytes[8 + size..])
  }

  datatype Decoded = Decoded(frames: seq<Body>, clean: bool)

  function DecodeFrames(bytes: seq<byte>): (d: Decoded)
    decreases |bytes|
  {
    match NextFrame(bytes)
    case End => Decoded([], true)
    case Broken(_) => Decoded([], false)
    case Frame(body, rest) =>
      var d := DecodeFrames(rest);
      Decoded([body] + d.frames, d.clean)
  }

  lemma {:induction false} NextOfEncoded(body: Body, rest: seq<byte>)
    requires Sendable(body)
    ensures NextFrame(EncodeFrame(body) + rest) == Frame(body, rest)
  {
    var bytes := EncodeFrame(body) + rest;
    WordRoundTrip(|body|);
    assert bytes[..8] == Word(|body|);
    assert bytes[8..8 + |body|] == body && bytes[8 + |body|..] == rest;
  }

  /** A proper prefix of one frame is a clean end only if it is empty. */
  lemma {:induction false} NextOfTruncated(body: Body, more: seq<byte>, k: nat)
    requires Sendable(body) && k < 8 + |body|
    ensures k <= |EncodeFrame(body) + more|
    ensures var f := NextFrame((EncodeFrame(body) + more)[..k]);
            if k == 0 then f == End else f.Broken?
  {
    var bytes := (EncodeFrame(body) + more)[..k];
    if k >= 8 {
      WordRoundTrip(|body|);
      assert bytes[..8] == Word(|body|);
    }
  }

  /** How many whole frames the first `k` bytes hold, and where the last of them ends. */
  ghost function Complete(bodies: seq<Body>, k: nat): (m: nat)
    ensures m <= |bodies|
  {
    if bodies == [] || k < 8 + |bodies[0]| then 0 else 1 + Complete(bodies[1..], k - 8 - |bodies[0]|)
  }

  lemma {:induction false} DecodeCons(body: Body, rest: seq<byte>)
    requires Sendable(body)
    ensures DecodeFrames(EncodeFrame(body) + rest) ==
              Decoded([body] + DecodeFrames(rest).frames, DecodeFrames(rest).clean)
  {
    NextOfEncoded(body, rest);
  }

  lemma TakePastFirst(first: seq<byte>, more: seq<byte>, k: nat)
    requires |first| <= k <= |first| + |more|
    ensures (first + more)[..k] == first + more[..k - |first|]
  {
  }

  lemma {:induction false} EncodeCons(body: Body, rest: seq<Body>)
    requires Sendable(body) && AllSendable(rest)
    ensures AllSendable([body] + rest)
    ensures EncodeFrames([body] + rest) == EncodeFrame(body) + EncodeFrames(rest)
  {
    assert ([body] + rest)[1..] == rest;
  }

  lemma {:induction false} TruncatedInside(body: Body, rest: seq<Body>, k: nat)
    requires Sendable(body) && AllSendable(rest) && k < 8 + |body|
    ensures AllSendable([body] + rest) && k <= |EncodeFrames([body] + rest)|
    ensures DecodeFrames(EncodeFrames([body] + rest)[..k]) == Decoded([], k == 0)
  {
    EncodeCons(body, rest);
    NextOfTruncated(body, EncodeFrames(rest), k);
  }

  lemma {:induction false} TruncatedBeyond(body: Body, rest: seq<Body>, k: nat)
    requires Sendable(body) && AllSendable(rest) && 8 + |body| <= k <= 8 + |body| + |EncodeFrames(rest)|
    ensures AllSendable([body] + rest) && k <= |EncodeFrames([body] + rest)|
    ensures var d := DecodeFrames(EncodeFrames(rest)[..k - 8 - |body|]);
            DecodeFrames(EncodeFrames([body] + rest)[..k]) == Decoded([body] + d.frames, d.clean)
  {
    EncodeCons(body, rest);
    TakePastFirst(EncodeFrame(body), EncodeFrames(rest), k);
    DecodeCons(body, EncodeFrames(rest)[..k - 8 - |body|]);
  }

  /** The first `k` bytes decode to the complete frames, cleanly exactly if they end with the last of these. */
  ghost predicate TruncatesWell(bodies: seq<Body>, k: nat)
    requires AllSendable(bodies) && k <= |EncodeFrames(bodies)|
  {
    var m := Complete(bodies, k);
    DecodeFrames(EncodeFrames(bodies)[..k]) == Decoded(bodies[..m], k == |EncodeFrames(bodies[..m])|)
  }

  lemma {:induction false} TruncatesWellCons(body: Body, rest: seq<Body>, k: nat)
    requires Sendable(body) && AllSendable(rest) && k <= 8 + |body| + |EncodeFrames(rest)|
    requires k >= 8 + |body| ==> TruncatesWell(rest, k - 8 - |body|)
    ensures AllSendable([body] + rest) && k <= |EncodeFrames([body] + rest)| && TruncatesWell([body] + rest, k)
  {
    CompleteCons(body, rest, k);
    if k < 8 + |body| {
      TruncatedInside(body, rest, k);
      assert ([body] + rest)[..0] == [];
    } else {
      TruncatedBeyond(body, rest, k);
      EncodeCons(body, rest[..Complete(rest, k - 8 - |body|)]);
    }
  }

  lemma {:induction false} CompleteCons(body: Body, rest: seq<Body>, k: nat)
    ensures k < 8 + |body| ==> Complete([body] + rest, k) == 0
    ensures k >= 8 + |body| ==>
              var m := Complete(rest, k - 8 - |body|);
              Complete([body] + rest, k) == m + 1 && ([body] + rest)[..m + 1] == [body] + rest[..m]
  {
    assert ([body] + rest)[1..] == rest;
  }

  /** Any truncation yields the complete frames, and a clean end exactly at a frame boundary. */
  lemma {:induction false} DecodeTruncated(bodies: seq<Body>, k: nat)
    requires AllSendable(bodies) && k <= |EncodeFrames(bodies)|
    ensures TruncatesWell(bodies, k)
  {
    if bodies == [] {
      assert EncodeFrames(bodies)[..k] == [];
    } else {
      if k >= 8 + |bodies[0]| {
        DecodeTruncated(bodies[1..], k - 8 - |bodies[0]|);
      }
      TruncatesWellCons(bodies[0], bodies[1..], k);
      assert bodies == [bodies[0]] + bodies[1..];
    }
  }

  lemma {:induction false} CompleteAll(bodies: seq<Body>)
    requires AllSendable(bodies)
    ensures Complete(bodies, |EncodeFrames(bodies)|) == |bodies|
  {
    if bodies != [] {
      CompleteAll(bodies[1..]);
    }
  }

  /** Reading back any list of written frames gives that list and then a clean end. */
  lemma {:induction false} DecodeEncoded(bodies: seq<Body>)
    requires AllSendable(bodies)
    ensures DecodeFrames(EncodeFrames(bodies)) == Decoded(bodies, true)
  {
    var all := EncodeFrames(bodies);
    CompleteAll(bodies);
    DecodeTruncated(bodies, |all|);
    assert all[..|all|] == all && bodies[..|bodies|] == bodies;
  }

  lemma {:induction false} EncodeFramesSnoc(bodies: seq<Body>, body: Body)
    requires AllSendable(bodies) && Sendable(body)
    ensures AllSendable(bodies + [body])
    ensures EncodeFrames(bodies + [body]) == EncodeFrames(bodies) + EncodeFrame(body)
  {
    if bodies == [] {
      assert bodies + [body] == [body] && [body][1..] == [];
      assert EncodeFrames([body]) == EncodeFrame(body) + EncodeFrames([]);
    } else {
      EncodeFramesSnoc(bodies[1..], body);
      assert (bodies + [body])[1..] == bodies[1..] + [body];
      PlusAssociates(EncodeFrame(bodies[0]), EncodeFrames(bodies[1..]), EncodeFrame(body));
    }
  }

  // Requests

  datatype Request = Request(id: u64, args: seq<string>, payload: Option<seq<byte>>)

  /** JSON and the dispatcher are parameters; a dispatch may depend on everything accepted before it. */
  datatype Environment = Environment(
    parse: Body -> Option<Request>,
    dispatch: seq<Request> -> Result<seq<byte>>,
    successPrefix: u64 -> seq<byte>,
    errorBody: (u64, Error) -> Body,
    greeting: Body)

  predicate Acceptable(q: Request, lastId: u64) {
    q.id > lastId && q.args != [] && q.args[0] !in {"--help", "-h", "--session-stdio"}
  }

  const CLOSING_BRACE: byte := 125

  /** The envelope for the last of the accepted requests. */
  function Response(env: Environment, accepted: seq<Request>): Body
    requires accepted != []
  {
    var id := accepted[|accepted| - 1].id;
    match env.dispatch(accepted)
    case Ok(result) => env.successPrefix(id) + result + [CLOSING_BRACE]
    case Err(error) => env.errorBody(id, error)
  }

  datatype Served = Served(accepted: seq<Request>, responses: seq<Body>, ok: bool)

  /** What a session does with the frames it receives, starting after `history`. */
  ghost function Serve(env: Environment, frames: seq<Body>, clean: bool, lastId: u64, history: seq<Request>): Served
    decreases |frames|
  {
    if frames == [] then Served([], [], clean)
    else match env.parse(frames[0])
      case None => Served([], [], false)
      case Some(q) =>
        if !Acceptable(q, lastId) then Served([], [], false)
        else
          var response := Response(env, history + [q]);
          if !Sendable(response) then Served([q], [], false)
          else
            var rest := Serve(env, frames[1..], clean, q.id, history + [q]);
            Served([q] + rest.accepted, [response] + rest.responses, rest.ok)
  }

  ghost predicate IdsIncrease(requests: seq<Request>, lastId: int) {
    && (forall i :: 0 <= i < |requests| ==> requests[i].id > lastId)
    && (forall i, j :: 0 <= i < j < |requests| ==> requests[i].id < requests[j].id)
  }

  /**
   * Accepted ids strictly increase; response `i` answers request `i`; only a response too large
   * to send leaves the last request unanswered, and then the session has failed.
   */
  ghost predicate InOrder(env: Environment, s: Served, received: nat, clean: bool, lastId: u64, history: seq<Request>) {
    && IdsIncrease(s.accepted, lastId)
    && |s.responses| <= |s.accepted| <= received
    && (|s.responses| == |s.accepted| || (|s.responses| == |s.accepted| - 1 && !s.ok))
    && (s.ok ==> clean && |s.accepted| == received)
    && AllSendable(s.responses)
    && Answers(env, s.accepted, s.responses, history)
  }

  /** The envelope for request `id`: its prefix, the dispatched result and a closing brace, or the error body. */
  ghost predicate IsAnswer(env: Environment, dispatched: seq<Request>, id: u64, body: Body) {
    match env.dispatch(dispatched)
    case Ok(result) => body == env.successPrefix(id) + result + [125]
    case Err(error) => body == env.errorBody(id, error)
  }

  /** Answer `i` carries the id of request `i` and what dispatching the session up to it gave. */
  ghost predicate Answers(env: Environment, accepted: seq<Request>, responses: seq<Body>, history: seq<Request>) {
    && |responses| <= |accepted|
    && forall i :: 0 <= i < |responses| ==>
         IsAnswer(env, history + accepted[..i + 1], accepted[i].id, responses[i])
  }

  lemma {:induction false} AnswersCons(
      env: Environment, q: Request, accepted: seq<Request>, responses: seq<Body>, history: seq<Request>)
    requires Answers(env, accepted, responses, history + [q])
    ensures Answers(env, [q] + accepted, [Response(env, history + [q])] + responses, history)
  {
    var all, requests := [Response(env, history + [q])] + responses, [q] + accepted;
    forall i | 0 <= i < |all|
      ensures IsAnswer(env, history + requests[..i + 1], requests[i].id, all[i])
    {
      HistoryGrows(history, q, accepted, i);
      if i == 0 {
        assert history + [q] + accepted[..0] == history + [q];
      } else {
        assert all[i] == responses[i - 1] && requests[i] == accepted[i - 1];
        assert IsAnswer(env, history + [q] + accepted[..i], accepted[i - 1].id, responses[i - 1]);
      }
    }
  }

  lemma {:induction false} IdsCons(q: Request, rest: seq<Request>, lastId: int)
    requires q.id > lastId && IdsIncrease(rest, q.id)
    ensures IdsIncrease([q] + rest, lastId)
  {
  }

  lemma {:induction false} InOrderCons(
      env: Environment, q: Request, rest: Served, received: nat, clean: bool, lastId: u64,
      history: seq<Request>)
    requires q.id > lastId && Sendable(Response(env, history + [q]))
    requires InOrder(env, rest, received, clean, q.id, history + [q])
    ensures InOrder(env, Served([q] + rest.accepted, [Response(env, history + [q])] + rest.responses, rest.ok),
                    received + 1, clean, lastId, history)
  {
    IdsCons(q, rest.accepted, lastId);
    AnswersCons(env, q, rest.accepted, rest.responses, history);
  }

  /** Every session run is in order, whatever arrives and however the dispatcher answers. */
  lemma {:induction false} ServedInOrder(
      env: Environment, frames: seq<Body>, clean: bool, lastId: u64, history: seq<Request>)
    ensures InOrder(env, Serve(env, frames, clean, lastId, history), |frames|, clean, lastId, history)
    decreases |frames|
  {
    if frames != [] && env.parse(frames[0]).Some? {
      var q := env.parse(frames[0]).value;
      if Acceptable(q, lastId) && Sendable(Response(env, history + [q])) {
        ServedInOrder(env, frames[1..], clean, q.id, history + [q]);
        InOrderCons(env, q, Serve(env, frames[1..], clean, q.id, history + [q]), |frames| - 1, clean, lastId, history);
      }
    }
  }

  /** Every accepted request is the one its frame holds, and was permitted. */
  lemma {:induction false} AcceptedWerePermitted(
      env: Environment, frames: seq<Body>, clean: bool, lastId: u64, history: seq<Request>)
    ensures var accepted := Serve(env, frames, clean, lastId, history).accepted;
            && |accepted| <= |frames|
            && forall i :: 0 <= i < |accepted| ==>
                 && env.parse(frames[i]) == Some(accepted[i]) && accepted[i].args != []
                 && accepted[i].args[0] !in {"--help", "-h", "--session-stdio"}
    decreases |frames|
  {
    if frames != [] && env.parse(frames[0]).Some? {
      var q := env.parse(frames[0]).value;
      if Acceptable(q, lastId) {
        AcceptedWerePermitted(env, frames[1..], clean, q.id, history + [q]);
      }
    }
  }

  /** A client that behaves: every frame parses to a request with a larger id and permitted arguments. */
  ghost predicate WellBehaved(env: Environment, frames: seq<Body>, requests: seq<Request>, lastId: u64) {
    && |frames| == |requests| && IdsIncrease(requests, lastId)
    && (forall i :: 0 <= i < |frames| ==> env.parse(frames[i]) == Some(requests[i]))
    && (forall i :: 0 <= i < |requests| ==>
          requests[i].args != [] && requests[i].args[0] !in {"--help", "-h", "--session-stdio"})
  }

  /** Such a session accepts every request, sends every answer that fits a frame, and ends well. */
  lemma {:induction false} BehavedIsServed(
      env: Environment, frames: seq<Body>, requests: seq<Request>, answers: seq<Body>, lastId: u64,
      history: seq<Request>)
    requires WellBehaved(env, frames, requests, lastId)
    requires |answers| == |requests| && AllSendable(answers) && Answers(env, requests, answers, history)
    ensures Serve(env, frames, true, lastId, history) == Served(requests, answers, true)
    decreases |frames|
  {
    if frames != [] {
      var q, rest := requests[0], requests[1..];
      assert requests == [q] + rest && answers == [answers[0]] + answers[1..];
      assert history + requests[..1] == history + [q];
      assert IsAnswer(env, history + requests[..0 + 1], q.id, answers[0]);
      assert answers[0] == Response(env, history + [q]);
      AnswersRest(env, q, rest, answers, history);
      BehavedRest(env, frames, requests, lastId);
      BehavedIsServed(env, frames[1..], rest, answers[1..], q.id, history + [q]);
    }
  }

  lemma {:induction false} AnswersRest(
      env: Environment, q: Request, rest: seq<Request>, answers: seq<Body>, history: seq<Request>)
    requires |answers| == |rest| + 1 && Answers(env, [q] + rest, answers, history)
    ensures Answers(env, rest, answers[1..], history + [q])
  {
    forall i | 0 <= i < |rest|
      ensures IsAnswer(env, history + [q] + rest[..i + 1], rest[i].id, answers[1..][i])
    {
      HistoryGrows(history, q, rest, i + 1);
      assert IsAnswer(env, history + ([q] + rest)[..i + 1 + 1], ([q] + rest)[i + 1].id, answers[i + 1]);
    }
  }

  lemma BehavedRest(env: Environment, frames: seq<Body>, requests: seq<Request>, lastId: u64)
    requires frames != [] && WellBehaved(env, frames, requests, lastId)
    ensures WellBehaved(env, frames[1..], requests[1..], requests[0].id)
    ensures Acceptable(requests[0], lastId)
  {
  }

  lemma HistoryGrows(history: seq<Request>, q: Request, rest: seq<Request>, i: nat)
    requires i <= |rest|
    ensures history + ([q] + rest)[..i + 1] == history + [q] + rest[..i]
  {
    assert ([q] + rest)[..i + 1] == [q] + rest[..i];
    PlusAssociates(history, [q], rest[..i]);
  }

  // The request loop

  class Transport {
    var input: seq<byte>
    var output: seq<byte>
    /** At most how many bytes each coming read delivers; a read always makes progress before the end. */
    var limits: seq<nat>

    constructor (input: seq<byte>, limits: seq<nat>)
      ensures this.input == input && output == [] && this.limits == limits
    {
      this.input, output, this.limits := input, [], limits;
    }

    /** One `read` into a buffer of `n` bytes. */
    method Read(n: nat) returns (got: seq<byte>)
      requires n > 0
      modifies this`input, this`limits
      ensures got + input == old(input) && |got| <= n
      ensures got == [] <==> old(input) == []
    {
      var count := if n < |input| then n else |input|;
      if limits != [] {
        if limits[0] < count {
          count := if limits[0] == 0 then 1 else limits[0];
        }
        limits := limits[1..];
      }
      got, input := input[..count], input[count..];
    }

    /** Reads until `n` bytes have arrived or the input ends, however the reads split them. */
    method ReadUpTo(n: nat) returns (got: seq<byte>)
      modifies this`input, this`limits
      ensures got == old(input)[..if n < |old(input)| then n else |old(input)|]
      ensures input == old(input)[|got|..]
    {
      got := [];
      while |got| < n
        invariant |got| <= n && got + input == old(input)
        decreases n - |got|
      {
        var more := Read(n - |got|);
        if more == [] {
          break;
        }
        got := got + more;
      }
    }

    /** One byte, then the rest of the length prefix, then the body: whatever the reads deliver, the next frame. */
    method ReadFrame() returns (r: Result<Option<Body>>)
      modifies this`input, this`limits
      ensures match NextFrame(old(input))
              case End => r == Ok(None)
              case Broken(error) => r == Err(error)
              case Frame(body, rest) => r == Ok(Some(body)) && input == rest
    {
      var first := Read(1);
      if first == [] {
        return Ok(None);
      }
      var others := ReadUpTo(7);
      if |others| < 7 {
        return Err(UnexpectedEof);
      }
      assert old(input)[..8] == first + others && input == old(input)[8..];
      var size := ReadWord(first + others);
      if size == 0 || size > MAX_FRAME_BYTES {
        return Err(InvalidData);
      }
      var body := ReadUpTo(size);
      if |body| != size {
        return Err(UnexpectedEof);
      }
      assert body == old(input)[8..8 + size] && input == old(input)[8 + size..];
      return Ok(Some(body));
    }

    method WriteFrame(body: Body) returns (r: Result<()>)
      modifies this`output
      ensures r.Ok? <==> Sendable(body)
      ensures output == if r.Ok? then old(output) + EncodeFrame(body) else old(output)
    {
      if body == [] || |body| > MAX_FRAME_BYTES {
        return Err(InvalidData);
      }
      output := output + EncodeFrame(body);
      return Ok(());
    }

    /** The bytes written are the greeting and the responses of the specified session, frame by frame. */
    method Run(env: Environment) returns (r: Result<()>)
      requires output == [] && Sendable(env.greeting)
      modifies this
      ensures var d := DecodeFrames(old(input));
              var s := Serve(env, d.frames, d.clean, 0, []);
              && AllSendable([env.greeting] + s.responses)
              && output == EncodeFrames([env.greeting] + s.responses)
              && r.Ok? == s.ok
    {
      ghost var s := Remaining(env, input, 0, []);
      ghost var sent := [env.greeting];
      EncodeFramesSnoc([], env.greeting);
      var _ := WriteFrame(env.greeting);
      var lastId: u64, history: seq<Request> := 0, [];
      while true
        invariant AllSendable(sent) && output == EncodeFrames(sent)
        invariant Continues(s, env.greeting, sent, history, Remaining(env, input, lastId, history))
        decreases |input|
      {
        RemainingStep(env, input, lastId, history);
        Stops(s, env.greeting, sent, history, Remaining(env, input, lastId, history));
        var frame :- ReadFrame();
        if frame.None? {
          return Ok(());
        }
        var request := env.parse(frame.value);
        if request.None? || !Acceptable(request.value, lastId) {
          return Err(InvalidInput);
        }
        lastId, history := request.value.id, history + [request.value];
        var response := Response(env, history);
        var _ :- WriteFrame(response);
        EncodeFramesSnoc(sent, response);
        Goes(s, env.greeting, sent, history[..|history| - 1], request.value, response,
             Remaining(env, input, lastId, history));
        sent := sent + [response];
      }
    }
  }

  ghost function Remaining(env: Environment, input: seq<byte>, lastId: u64, history: seq<Request>): Served {
    Serve(env, DecodeFrames(input).frames, DecodeFrames(input).clean, lastId, history)
  }

  /** What the remaining input leads to, one frame at a time. */
  lemma {:induction false} RemainingStep(env: Environment, input: seq<byte>, lastId: u64, history: seq<Request>)
    ensures match NextFrame(input)
            case End => Remaining(env, input, lastId, history) == Served([], [], true)
            case Broken(_) => Remaining(env, input, lastId, history) == Served([], [], false)
            case Frame(body, rest) =>
              Remaining(env, input, lastId, history) ==
              if env.parse(body).None? || !Acceptable(env.parse(body).value, lastId) then Served([], [], false)
              else
                var q := env.parse(body).value;
                var response := Response(env, history + [q]);
                if !Sendable(response) then Served([q], [], false)
                else
                  var r := Remaining(env, rest, q.id, history + [q]);
                  Served([q] + r.accepted, [response] + r.responses, r.ok)
  {
    match NextFrame(input)
    case Frame(body, rest) =>
      var frames := DecodeFrames(input).frames;
      assert frames[0] == body && frames[1..] == DecodeFrames(rest).frames;
    case _ =>
  }

  /** The whole session is what has been done so far followed by what the remaining input leads to. */
  ghost predicate Continues(whole: Served, greeting: Body, sent: seq<Body>, done: seq<Request>, rest: Served) {
    && whole.accepted == done + rest.accepted
    && [greeting] + whole.responses == sent + rest.responses
    && whole.ok == rest.ok
  }

  lemma Stops(whole: Served, greeting: Body, sent: seq<Body>, done: seq<Request>, rest: Served)
    requires Continues(whole, greeting, sent, done, rest)
    ensures rest.responses == [] ==> [greeting] + whole.responses == sent
  {
  }

  lemma Goes(whole: Served, greeting: Body, sent: seq<Body>, done: seq<Request>, q: Request, response: Body, r: Served)
    requires Continues(whole, greeting, sent, done, Served([q] + r.accepted, [response] + r.responses, r.ok))
    ensures Continues(whole, greeting, sent + [response], done + [q], r)
  {
    PlusAssociates(sent, [response], r.responses);
    PlusAssociates(done, [q], r.accepted);
  }

  /** Reading the session's output with the same codec gives the greeting and the responses, in order. */
  lemma {:induction false} OutputDecodes(env: Environment, input: seq<byte>)
    requires Sendable(env.greeting)
    ensures var d := DecodeFrames(input);
            var s := Serve(env, d.frames, d.clean, 0, []);
            && AllSendable([env.greeting] + s.responses)
            && DecodeFrames(EncodeFrames([env.greeting] + s.responses)) == Decoded([env.greeting] + s.responses, true)
  {
    var d := DecodeFrames(input);
    ServedInOrder(env, d.frames, d.clean, 0, []);
    DecodeEncoded([env.greeting] + Serve(env, d.frames, d.clean, 0, []).responses);
  }
}
