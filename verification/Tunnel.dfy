/** The reverse tunnel's server side: one goroutine per connection reads bytes into the buffer of its session and hands the
    session over, through an unbuffered channel, to the one goroutine that sends the buffers to the client. */
module Tunnel {

  type Bytes = seq<bv8>
  type SessionId = nat

  const BUFFER_SIZE := 1024 * 10

  datatype Response = Response(requestId: SessionId, data: Bytes, shouldClose: bool)

  // ---------------------------------------------------------------------------------------------
  // A session, and what happens to it under its lock
  // ---------------------------------------------------------------------------------------------

  datatype SessionState = SessionState(buf: Bytes, open: bool)

  /** The reader's critical section, after a read that returned `data` and possibly an error. */
  function AfterRead(s: SessionState, data: Bytes, err: bool): SessionState {
    SessionState(s.buf + data, s.open && !err)
  }

  /** The sender's critical section: everything that is in the buffer, and whether the session is over. */
  function TakenFrom(s: SessionState, id: SessionId): (SessionState, Response) {
    (s.(buf := []), Response(id, s.buf, !s.open))
  }

  class Session {
    const id: SessionId
    var buf: Bytes
    var open: bool

    constructor (id: SessionId)
      ensures this.id == id && State() == SessionState([], true)
    {
      this.id := id;
      buf, open := [], true;
    }

    ghost function State(): SessionState
      reads this
    {
      SessionState(buf, open)
    }

    method Write(buff: Bytes, br: nat, err: bool)
      requires br <= |buff|
      modifies this
      ensures State() == AfterRead(old(State()), buff[..br], err)
      ensures buf == old(buf) + buff[..br] && (open <==> old(open) && !err)
    {
      if err {
        // setting open to false makes the sender send a closing response
        open := false;
      }
      if br > 0 {
        buf := buf + buff[0..br];
      }
    }

    method Take() returns (resp: Response)
      modifies this
      ensures (State(), resp) == TakenFrom(old(State()), id)
      ensures buf == [] && open == old(open)
      ensures resp.requestId == id && resp.data == old(buf) && (resp.shouldClose <==> !open)
    {
      var bytes := buf;
      buf := [];
      resp := Response(id, bytes, !open);
    }

    method Close()
      modifies this
      ensures !open && buf == old(buf)
    {
      open := false;
    }
  }

  // ---------------------------------------------------------------------------------------------
  // The goroutines
  // ---------------------------------------------------------------------------------------------

  /** Where a reader is: in Conn.Read, between the read and the lock, at the channel, behind it, or gone. */
  datatype Reader = Reading | Got(data: Bytes, err: bool) | Handing | Checking | Exited

  /** A session and its reader; `accepted` records what was read from the connection so far. */
  datatype Endpoint = Endpoint(session: SessionState, reader: Reader, accepted: Bytes)

  /** Where the sender is: at the channel, before the lock, or in stream.Send. */
  datatype Sender = Idle | Holding(id: SessionId) | Sending(resp: Response)

  datatype State = State(endpoints: map<SessionId, Endpoint>, sender: Sender, sent: seq<Response>)

  ghost predicate Init(s: State) {
    s == State(map[], Idle, [])
  }

  /** A new connection gets a session of its own and a reader. */
  ghost predicate Accept(s: State, s': State, id: SessionId) {
    && id !in s.endpoints
    && s' == s.(endpoints := s.endpoints[id := Endpoint(SessionState([], true), Reading, [])])
  }

  /** A read returns, with data, an error, or both. */
  ghost predicate Read(e: Endpoint, e': Endpoint) {
    && e.reader.Reading? && e'.reader.Got? && |e'.reader.data| <= BUFFER_SIZE
    && e' == e.(reader := e'.reader, accepted := e.accepted + e'.reader.data)
  }

  ghost predicate Buffer(e: Endpoint, e': Endpoint) {
    e.reader.Got? && e' == e.(session := AfterRead(e.session, e.reader.data, e.reader.err), reader := Handing)
  }

  ghost predicate Check(e: Endpoint, e': Endpoint) {
    e.reader.Checking? && e' == e.(reader := if e.session.open then Reading else Exited)
  }

  /** The client asks to close a session; this does not take the session's lock. */
  ghost predicate ClientCloses(e: Endpoint, e': Endpoint) {
    e' == e.(session := e.session.(open := false))
  }

  /** One session changes, and nothing else. */
  ghost predicate At(s: State, s': State, id: SessionId) {
    id in s.endpoints && id in s'.endpoints && s' == s.(endpoints := s.endpoints[id := s'.endpoints[id]])
  }

  ghost predicate ReaderStep(s: State, s': State, id: SessionId) {
    && At(s, s', id)
    && var e, e' := s.endpoints[id], s'.endpoints[id];
       Read(e, e') || Buffer(e, e') || Check(e, e')
  }

  ghost predicate BufferStep(s: State, s': State, id: SessionId) {
    At(s, s', id) && Buffer(s.endpoints[id], s'.endpoints[id])
  }

  /** Both sides of the unbuffered channel move at once. */
  ghost predicate HandOver(s: State, s': State, id: SessionId) {
    && id in s.endpoints && s.endpoints[id].reader.Handing? && s.sender.Idle?
    && s' == s.(endpoints := s.endpoints[id := s.endpoints[id].(reader := Checking)], sender := Holding(id))
  }

  ghost predicate Take(s: State, s': State) {
    && s.sender.Holding? && s.sender.id in s.endpoints
    && var id, e := s.sender.id, s.endpoints[s.sender.id];
       var (session, resp) := TakenFrom(e.session, id);
       s' == s.(endpoints := s.endpoints[id := e.(session := session)], sender := Sending(resp))
  }

  ghost predicate Send(s: State, s': State) {
    s.sender.Sending? && s' == s.(sent := s.sent + [s.sender.resp], sender := Idle)
  }

  ghost predicate ServerStep(s: State, s': State) {
    || (exists id :: Accept(s, s', id))
    || (exists id :: ReaderStep(s, s', id))
    || (exists id :: HandOver(s, s', id))
    || Take(s, s')
    || Send(s, s')
  }

  ghost predicate Closes(s: State, s': State, id: SessionId) {
    At(s, s', id) && ClientCloses(s.endpoints[id], s'.endpoints[id])
  }

  ghost predicate Step(s: State, s': State) {
    ServerStep(s, s') || exists id :: Closes(s, s', id)
  }

  ghost predicate StepAt(run: seq<State>, i: nat)
    requires i + 1 < |run|
  {
    Step(run[i], run[i+1])
  }

  ghost predicate Run(run: seq<State>) {
    run != [] && Init(run[0]) && forall i :: 0 <= i < |run| - 1 ==> StepAt(run, i)
  }

  /** A step that is not the client closing this session; other sessions may be closed. */
  ghost predicate StepWithoutClosing(s: State, s': State, id: SessionId) {
    ServerStep(s, s') || exists x :: x != id && Closes(s, s', x)
  }

  ghost predicate StepWithoutClosingAt(run: seq<State>, i: nat, id: SessionId)
    requires i + 1 < |run|
  {
    StepWithoutClosing(run[i], run[i+1], id)
  }

  ghost predicate RunWithoutClosing(run: seq<State>, id: SessionId) {
    run != [] && Init(run[0]) && forall i :: 0 <= i < |run| - 1 ==> StepWithoutClosingAt(run, i, id)
  }

  /** A run in which the client does not close any session. */
  ghost predicate ServerRun(run: seq<State>) {
    run != [] && Init(run[0]) && forall i :: 0 <= i < |run| - 1 ==> ServerStep(run[i], run[i+1])
  }

  // ---------------------------------------------------------------------------------------------
  // Conservation
  // ---------------------------------------------------------------------------------------------

  /** The bytes of one session in a list of responses. */
  function DataOf(responses: seq<Response>, id: SessionId): Bytes {
    if responses == [] then []
    else
      var last := responses[|responses|-1];
      DataOf(responses[..|responses|-1], id) + if last.requestId == id then last.data else []
  }

  lemma DataOfAppend(responses: seq<Response>, r: Response, id: SessionId)
    ensures DataOf(responses + [r], id) == if r.requestId == id then DataOf(responses, id) + r.data else DataOf(responses, id)
  {
    assert (responses + [r])[..|responses|] == responses;
  }

  /** Everything handed to the stream, including the response that is being sent. */
  function Outgoing(s: State): seq<Response> {
    s.sent + if s.sender.Sending? then [s.sender.resp] else []
  }

  function Local(r: Reader): Bytes {
    if r.Got? then r.data else []
  }

  /** Sent or being sent, then buffered, then read but not buffered yet: in this order, and nothing else. */
  ghost predicate ConservedAt(e: Endpoint, outgoing: Bytes) {
    e.accepted == outgoing + e.session.buf + Local(e.reader)
  }

  /** A session with buffered bytes is about to be handed over, or in the sender's hands. */
  ghost predicate NotStrandedAt(e: Endpoint, held: bool) {
    e.session.buf != [] ==> e.reader == Handing || held
  }

  ghost predicate Known(s: State) {
    && (s.sender.Holding? ==> s.sender.id in s.endpoints)
    && (forall i :: 0 <= i < |Outgoing(s)| ==> Outgoing(s)[i].requestId in s.endpoints)
  }

  ghost predicate SafeAt(s: State, id: SessionId)
    requires id in s.endpoints
  {
    && ConservedAt(s.endpoints[id], DataOf(Outgoing(s), id))
    && NotStrandedAt(s.endpoints[id], s.sender == Holding(id))
  }

  ghost predicate Conserved(s: State) {
    Known(s) && forall id :: id in s.endpoints ==> SafeAt(s, id)
  }

  lemma {:induction false} NoDataOf(responses: seq<Response>, id: SessionId)
    requires forall i :: 0 <= i < |responses| ==> responses[i].requestId != id
    ensures DataOf(responses, id) == []
  {
    if responses != [] {
      NoDataOf(responses[..|responses|-1], id);
    }
  }

  lemma AcceptConserves(s: State, s': State, id: SessionId)
    requires Conserved(s) && Accept(s, s', id)
    ensures Conserved(s')
  {
    NoDataOf(Outgoing(s), id);
    forall x | x in s'.endpoints ensures SafeAt(s', x) {
      assert x != id ==> SafeAt(s, x);
    }
  }

  /** What happens to one session alone: its reader moves, or the client closes it. */
  lemma ReaderConserves(e: Endpoint, e': Endpoint, outgoing: Bytes, held: bool)
    requires Read(e, e') || Buffer(e, e') || Check(e, e') || ClientCloses(e, e')
    requires ConservedAt(e, outgoing) && NotStrandedAt(e, held)
    ensures ConservedAt(e', outgoing) && NotStrandedAt(e', held)
  {
  }

  lemma OneSessionConserves(s: State, s': State, id: SessionId)
    requires Conserved(s) && (ReaderStep(s, s', id) || Closes(s, s', id))
    ensures Conserved(s')
  {
    assert Outgoing(s') == Outgoing(s);
    forall x | x in s'.endpoints ensures SafeAt(s', x) {
      assert SafeAt(s, x);
      if x == id {
        ReaderConserves(s.endpoints[id], s'.endpoints[id], DataOf(Outgoing(s), id), s.sender == Holding(id));
      }
    }
  }

  lemma HandOverConserves(s: State, s': State, id: SessionId)
    requires Conserved(s) && HandOver(s, s', id)
    ensures Conserved(s')
  {
    forall x | x in s'.endpoints ensures SafeAt(s', x) {
      assert SafeAt(s, x);
    }
  }

  lemma TakeConserves(s: State, s': State)
    requires Conserved(s) && Take(s, s')
    ensures Conserved(s')
  {
    assert Outgoing(s') == Outgoing(s) + [s'.sender.resp];
    forall x | x in s'.endpoints ensures SafeAt(s', x) {
      TakeConservesAt(s, s', x);
    }
  }

  lemma TakeConservesAt(s: State, s': State, id: SessionId)
    requires Conserved(s) && Take(s, s') && id in s'.endpoints
    ensures SafeAt(s', id)
  {
    assert SafeAt(s, id);
    TakenGoesOut(s, s', id);
  }

  lemma TakenGoesOut(s: State, s': State, id: SessionId)
    requires Take(s, s') && id in s.endpoints
    ensures DataOf(Outgoing(s'), id) == DataOf(Outgoing(s), id) + if id == s.sender.id then s.endpoints[id].session.buf else []
  {
    var resp := s'.sender.resp;
    assert Outgoing(s') == Outgoing(s) + [resp];
    DataOfAppend(Outgoing(s), resp, id);
  }

  lemma SendConserves(s: State, s': State)
    requires Conserved(s) && Send(s, s')
    ensures Conserved(s')
  {
    assert Outgoing(s') == Outgoing(s);
    forall x | x in s'.endpoints ensures SafeAt(s', x) {
      assert SafeAt(s, x);
    }
  }

  lemma StepConserves(s: State, s': State)
    requires Conserved(s) && Step(s, s')
    ensures Conserved(s')
  {
    if id :| Accept(s, s', id) {
      AcceptConserves(s, s', id);
    } else if id :| ReaderStep(s, s', id) || Closes(s, s', id) {
      OneSessionConserves(s, s', id);
    } else if id :| HandOver(s, s', id) {
      HandOverConserves(s, s', id);
    } else if Take(s, s') {
      TakeConserves(s, s');
    } else {
      SendConserves(s, s');
    }
  }

  /** Main result: over all interleavings, whether or not clients close sessions, the bytes accepted from a connection are,
      in order, those sent, those being sent, those buffered and those just read; and no buffered byte is stranded. */
  lemma {:induction false} ConservationInRun(run: seq<State>, i: nat)
    requires Run(run) && i < |run|
    ensures Conserved(run[i])
  {
    if i > 0 {
      ConservationInRun(run, i - 1);
      assert StepAt(run, i - 1);
      StepConserves(run[i-1], run[i]);
    }
  }

  lemma CanTake(s: State) returns (s': State)
    requires s.sender.Holding? && s.sender.id in s.endpoints
    ensures Take(s, s') && Step(s, s')
  {
    var id, e := s.sender.id, s.endpoints[s.sender.id];
    var (session, resp) := TakenFrom(e.session, id);
    s' := s.(endpoints := s.endpoints[id := e.(session := session)], sender := Sending(resp));
  }

  lemma CanSend(s: State) returns (s': State)
    requires s.sender.Sending?
    ensures Send(s, s') && Step(s, s')
  {
    s' := s.(sent := s.sent + [s.sender.resp], sender := Idle);
  }

  lemma CanBuffer(s: State, id: SessionId) returns (s': State)
    requires id in s.endpoints && s.endpoints[id].reader.Got?
    ensures BufferStep(s, s', id) && Step(s, s')
  {
    var e := s.endpoints[id];
    var e' := e.(session := AfterRead(e.session, e.reader.data, e.reader.err), reader := Handing);
    s' := s.(endpoints := s.endpoints[id := e']);
    assert ReaderStep(s, s', id);
  }

  lemma CanHandOver(s: State, id: SessionId) returns (s': State)
    requires id in s.endpoints && s.endpoints[id].reader == Handing && s.sender == Idle
    ensures HandOver(s, s', id) && Step(s, s')
  {
    s' := s.(endpoints := s.endpoints[id := s.endpoints[id].(reader := Checking)], sender := Holding(id));
    assert HandOver(s, s', id);
  }

  lemma CanRead(s: State, id: SessionId, data: Bytes, err: bool) returns (s': State)
    requires id in s.endpoints && s.endpoints[id].reader == Reading && |data| <= BUFFER_SIZE
    ensures ReaderStep(s, s', id) && Step(s, s') && s'.endpoints[id].reader == Got(data, err)
  {
    var e := s.endpoints[id];
    var e' := e.(reader := Got(data, err), accepted := e.accepted + data);
    s' := s.(endpoints := s.endpoints[id := e']);
    assert ReaderStep(s, s', id);
  }

  /** Undelivered bytes never wait for a further read: some goroutine other than in Conn.Read can move on. */
  lemma DeliveryGoesOn(run: seq<State>, i: nat, id: SessionId)
    requires Run(run) && i < |run| && id in run[i].endpoints
    ensures run[i].endpoints[id].accepted != DataOf(run[i].sent, id) ==>
              exists s' :: Take(run[i], s') || Send(run[i], s') || BufferStep(run[i], s', id) || HandOver(run[i], s', id)
  {
    ConservationInRun(run, i);
    var s := run[i];
    assert SafeAt(s, id);
    assert s.sender.Idle? ==> Outgoing(s) == s.sent;
    if s.sender.Sending? {
      var s' := CanSend(s);
    } else if s.sender.Holding? {
      var s' := CanTake(s);
    } else if s.endpoints[id].reader.Got? {
      var s' := CanBuffer(s, id);
    } else if s.endpoints[id].reader == Handing {
      var s' := CanHandOver(s, id);
    }
  }

  // ---------------------------------------------------------------------------------------------
  // Closing
  // ---------------------------------------------------------------------------------------------

  predicate ClosingSent(responses: seq<Response>, id: SessionId) {
    exists i :: 0 <= i < |responses| && responses[i].requestId == id && responses[i].shouldClose
  }

  /** After the first closing response of the session there is no more data for it. */
  predicate NothingAfterClosing(responses: seq<Response>, id: SessionId) {
    forall i, j :: 0 <= i < j < |responses| && responses[i].requestId == id && responses[j].requestId == id && responses[i].shouldClose
      ==> responses[j].data == []
  }

  lemma OneMoreResponse(responses: seq<Response>, r: Response, id: SessionId)
    ensures ClosingSent(responses + [r], id) <==> ClosingSent(responses, id) || (r.requestId == id && r.shouldClose)
    ensures NothingAfterClosing(responses + [r], id) <==>
            NothingAfterClosing(responses, id) && (ClosingSent(responses, id) && r.requestId == id ==> r.data == [])
  {
    var all := responses + [r];
    assert all[|responses|] == r && forall i :: 0 <= i < |responses| ==> all[i] == responses[i];
  }

  /** How far an ended session is. */
  predicate EndingAt(e: Endpoint, held: bool, closed: bool) {
    && (!e.session.open ==> e.reader in {Handing, Checking, Exited})
    && (e.reader == Exited ==> !e.session.open)
    && (closed ==> !e.session.open && e.session.buf == [])
    && (!e.session.open && e.reader in {Checking, Exited} ==> held || closed)
  }

  ghost predicate Ending(s: State, id: SessionId) {
    && NothingAfterClosing(Outgoing(s), id)
    && (id in s.endpoints ==> EndingAt(s.endpoints[id], s.sender == Holding(id), ClosingSent(Outgoing(s), id)))
  }

  lemma TakeEnds(s: State, s': State, id: SessionId)
    requires Ending(s, id) && Take(s, s')
    ensures Ending(s', id)
  {
    assert Outgoing(s') == Outgoing(s) + [s'.sender.resp];
    OneMoreResponse(Outgoing(s), s'.sender.resp, id);
  }

  lemma NotClosedYet(s: State, id: SessionId)
    requires Known(s) && id !in s.endpoints
    ensures !ClosingSent(Outgoing(s), id)
  {
  }

  /** A step that takes nothing from a buffer leaves the responses as they are. */
  lemma QuietStepEnds(s: State, s': State, id: SessionId)
    requires Known(s) && Ending(s, id) && StepWithoutClosing(s, s', id) && !Take(s, s')
    ensures Ending(s', id)
  {
    assert Outgoing(s') == Outgoing(s);
    if id !in s.endpoints {
      NotClosedYet(s, id);
    }
  }

  lemma WithoutClosingIsRun(run: seq<State>, id: SessionId)
    requires RunWithoutClosing(run, id)
    ensures Run(run)
  {
    forall i | 0 <= i < |run| - 1 ensures StepAt(run, i) {
      assert StepWithoutClosingAt(run, i, id);
    }
  }

  lemma StepEnds(s: State, s': State, id: SessionId)
    requires Known(s) && Ending(s, id) && StepWithoutClosing(s, s', id)
    ensures Ending(s', id)
  {
    if Take(s, s') {
      TakeEnds(s, s', id);
    } else {
      QuietStepEnds(s, s', id);
    }
  }

  lemma {:induction false} EndingInRun(run: seq<State>, i: nat, id: SessionId)
    requires RunWithoutClosing(run, id) && i < |run|
    ensures Ending(run[i], id)
  {
    if i > 0 {
      EndingInRun(run, i - 1, id);
      WithoutClosingIsRun(run, id);
      ConservationInRun(run, i - 1);
      assert StepWithoutClosingAt(run, i - 1, id);
      StepEnds(run[i-1], run[i], id);
    }
  }

  /** Everything read from the session's connection has been sent, and so has a closing response. */
  ghost predicate Complete(s: State, id: SessionId)
    requires id in s.endpoints
  {
    DataOf(s.sent, id) == s.endpoints[id].accepted && ClosingSent(s.sent, id)
  }

  /** Main result: as long as the client does not close this session, whatever it does to others, no response after the
      first closing one carries data for it, and once its reader is gone and the sender is idle, all bytes of its
      connection and a closing response have been sent. */
  lemma ClosingComesLast(run: seq<State>, i: nat, id: SessionId)
    requires RunWithoutClosing(run, id) && i < |run|
    ensures NothingAfterClosing(run[i].sent, id)
    ensures id in run[i].endpoints && run[i].endpoints[id].reader == Exited && run[i].sender == Idle ==> Complete(run[i], id)
  {
    EndingInRun(run, i, id);
    WithoutClosingIsRun(run, id);
    ConservationInRun(run, i);
    var s := run[i];
    assert forall j :: 0 <= j < |s.sent| ==> s.sent[j] == Outgoing(s)[j];
    assert s.sender.Idle? ==> Outgoing(s) == s.sent;
    assert id in s.endpoints ==> SafeAt(s, id);
  }

  /** In particular, if the client closes no session this holds of all of them. */
  lemma ServerClosesLast(run: seq<State>, i: nat, id: SessionId)
    requires ServerRun(run) && i < |run| && id in run[i].endpoints
    ensures NothingAfterClosing(run[i].sent, id)
    ensures run[i].endpoints[id].reader == Exited && run[i].sender == Idle ==> Complete(run[i], id)
  {
    forall j | 0 <= j < |run| - 1 ensures StepWithoutClosingAt(run, j, id) {
      assert ServerStep(run[j], run[j+1]);
    }
    ClosingComesLast(run, i, id);
  }

  // ---------------------------------------------------------------------------------------------
  // When the client closes the session: exactly when data follows the closing response
  // ---------------------------------------------------------------------------------------------

  /** The reader has data, or may still get some. */
  predicate MayBringMore(r: Reader) {
    r.Reading? || (r.Got? && r.data != [])
  }

  /** A closed session that has nothing more to send. */
  ghost predicate Over(s: State, id: SessionId) {
    && id in s.endpoints && !s.endpoints[id].session.open && s.endpoints[id].session.buf == []
    && !MayBringMore(s.endpoints[id].reader)
  }

  lemma OverStays(s: State, s': State, id: SessionId)
    requires Over(s, id) && NothingAfterClosing(Outgoing(s), id) && Step(s, s')
    ensures Over(s', id) && NothingAfterClosing(Outgoing(s'), id)
  {
    if Take(s, s') {
      assert Outgoing(s') == Outgoing(s) + [s'.sender.resp];
      OneMoreResponse(Outgoing(s), s'.sender.resp, id);
    } else {
      assert Outgoing(s') == Outgoing(s);
    }
  }

  lemma {:induction false} OverInRun(run: seq<State>, from: nat, i: nat, id: SessionId)
    requires Run(run) && from <= i < |run| && Over(run[from], id) && NothingAfterClosing(Outgoing(run[from]), id)
    ensures NothingAfterClosing(Outgoing(run[i]), id) && Over(run[i], id)
  {
    if from < i {
      OverInRun(run, from, i - 1, id);
      assert StepAt(run, i - 1);
      OverStays(run[i-1], run[i], id);
    }
  }

  ghost function Extend(run: seq<State>, s: State): (r: seq<State>)
    requires Run(run) && Step(run[|run|-1], s)
    ensures Run(r) && r == run + [s]
  {
    assert forall i :: 0 <= i < |run| - 1 ==> StepAt(run, i) ==> StepAt(run + [s], i);
    run + [s]
  }

  function Last(run: seq<State>): State
    requires run != []
  {
    run[|run|-1]
  }

  /** From a read that brought something on to the response that carries it. */
  lemma DataFollows(run: seq<State>, id: SessionId) returns (more: seq<State>, resp: Response)
    requires Run(run) && Last(run).sender == Idle && id in Last(run).endpoints
    requires Last(run).endpoints[id].reader.Got? && Last(run).endpoints[id].reader.data != []
    ensures Run(run + more) && Last(run + more).sender == Sending(resp)
    ensures Outgoing(Last(run + more)) == Outgoing(Last(run)) + [resp]
    ensures var e := Last(run).endpoints[id];
            resp == Response(id, e.session.buf + e.reader.data, !e.session.open || e.reader.err)
  {
    var s0 := Last(run);
    var s1 := CanBuffer(s0, id);
    var s2 := CanHandOver(s1, id);
    var s3 := CanTake(s2);
    more, resp := [s1, s2, s3], s3.sender.resp;
    var run1 := Extend(run, s1);
    var run2 := Extend(run1, s2);
    var run3 := Extend(run2, s3);
    assert run + more == run3;
  }

  /** A session that may bring more after a closing response will do so in some continuation. */
  lemma MoreFollows(run: seq<State>, id: SessionId) returns (more: seq<State>, resp: Response)
    requires Run(run) && Last(run).sender.Sending? && id in Last(run).endpoints && MayBringMore(Last(run).endpoints[id].reader)
    ensures Run(run + more) && Last(run + more).sender == Sending(resp)
    ensures Outgoing(Last(run + more)) == Outgoing(Last(run)) + [resp]
    ensures resp.requestId == id && resp.data != []
    ensures var e := Last(run).endpoints[id];
            e.reader.Reading? ==> resp == Response(id, e.session.buf + [0], !e.session.open)
  {
    var s0 := Last(run);
    var s1 := CanSend(s0);
    var run1 := Extend(run, s1);
    assert Outgoing(s1) == Outgoing(s0);
    if s1.endpoints[id].reader == Reading {
      var s2 := CanRead(s1, id, [0], false);
      var run2 := Extend(run1, s2);
      var rest;
      rest, resp := DataFollows(run2, id);
      more := [s1, s2] + rest;
      assert run + more == run2 + rest;
    } else {
      var rest;
      rest, resp := DataFollows(run1, id);
      more := [s1] + rest;
      assert run + more == run1 + rest;
    }
  }

  /** Main result: when the first closing response of a session has just been taken from its buffer, all continuations keep
      its order if and only if its reader is neither reading nor holding data that it has not buffered yet. */
  lemma NothingFollowsExactly(run: seq<State>, id: SessionId)
    requires Run(run) && |run| >= 2 && Take(run[|run|-2], Last(run)) && Last(run).sender.resp.requestId == id
    requires Last(run).sender.resp.shouldClose && !ClosingSent(Outgoing(run[|run|-2]), id)
    ensures id in Last(run).endpoints
    ensures (forall more :: Run(run + more) ==> NothingAfterClosing(Outgoing(Last(run + more)), id))
            <==> !MayBringMore(Last(run).endpoints[id].reader)
  {
    var s, s' := run[|run|-2], Last(run);
    assert Outgoing(s') == Outgoing(s) + [s'.sender.resp];
    OneMoreResponse(Outgoing(s), s'.sender.resp, id);
    if MayBringMore(s'.endpoints[id].reader) {
      var more, resp := MoreFollows(run, id);
      OneMoreResponse(Outgoing(s'), resp, id);
    } else {
      forall more | Run(run + more) ensures NothingAfterClosing(Outgoing(Last(run + more)), id) {
        OverInRun(run + more, |run| - 1, |run + more| - 1, id);
      }
    }
  }

  ghost function One(session: SessionState, reader: Reader, sender: Sender, sent: seq<Response>, accepted: Bytes): State {
    State(map[0 := Endpoint(session, reader, accepted)], sender, sent)
  }

  /** A byte has been read and handed over, and the reader reads again. */
  lemma ReadingOn() returns (run: seq<State>)
    ensures Run(run) && Last(run) == One(SessionState([1], true), Reading, Holding(0), [], [1])
  {
    var none: Bytes := [];
    assert none + [1] == [1];
    var a := State(map[], Idle, []);
    run := [a];
    var b := One(SessionState([], true), Reading, Idle, [], []);
    assert Accept(a, b, 0);
    run := Extend(run, b);
    var c := CanRead(b, 0, [1], false);
    run := Extend(run, c);
    var d := CanBuffer(c, 0);
    run := Extend(run, d);
    var e := CanHandOver(d, 0);
    run := Extend(run, e);
    var f := One(SessionState([1], true), Reading, Holding(0), [], [1]);
    assert ReaderStep(e, f, 0);
    run := Extend(run, f);
  }

  /** Such a run: the client closes the session while the reader reads, before the byte has been taken. */
  lemma DataAfterClosing() returns (run: seq<State>)
    ensures Run(run)
    ensures Last(run).sent == [Response(0, [1], true), Response(0, [0], true)]
    ensures !NothingAfterClosing(Last(run).sent, 0)
  {
    run := ReadingOn();
    var f := Last(run);
    var g := One(SessionState([1], false), Reading, Holding(0), [], [1]);
    assert Closes(f, g, 0);
    run := Extend(run, g);
    var h := CanTake(g);
    run := Extend(run, h);
    assert Outgoing(h) == [Response(0, [1], true)];
    var more, resp := MoreFollows(run, 0);
    var none: Bytes := [];
    assert none + [0] == [0];
    run := run + more;
    var k := CanSend(Last(run));
    assert k.sent == Outgoing(Last(run)) == [Response(0, [1], true)] + [resp];
    run := Extend(run, k);
    assert k.sent[0].shouldClose && k.sent[0].requestId == k.sent[1].requestId && k.sent[1].data != [];
  }
}
