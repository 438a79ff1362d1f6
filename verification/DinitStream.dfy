/** The Dinit control stream: requests and their replies share one ordered stream, a cancelled
    request fails the stream, and the controller redials a failed one. Every goroutine's atomic
    action is a step (internal/dinit/client.go, internal/dinit/controller.go). */
module DinitStream {
  import opened Options

  /** A reply the server owes or has sent: whose it is, and whether it is a list row (tag 62). */
  datatype Reply = Reply(owner: nat, row: bool)

  /** One connection. `wire` holds what the server will still answer, in order; `buffer` is the
      replies channel. fail() first closes `done` and then, separately, the connection. */
  datatype Stream = Stream(id: nat, done: bool, closed: bool, wire: seq<Reply>, buffer: seq<Reply>)

  /** What the holder of the controller lock is doing. */
  datatype Phase = Idle | Running | Waiting(request: nat, list: bool)

  /** One reply taken from the channel: the request that took it, the reply's owner, the stream. */
  datatype Taken = Taken(request: nat, owner: nat, stream: nat)

  datatype State = State(client: Option<Stream>, phase: Phase, nextRequest: nat, nextStream: nat,
                         log: seq<Taken>, cancelled: set<nat>)

  datatype Step =
    | Connect(dialed: bool)              // Controller.connection at the start of an operation
    | Send(list: bool, rows: nat)        // request: write the packet
    | Deliver                            // readLoop passes one reply to the channel
    | Receive                            // the waiting request takes one reply
    | FailStart                          // fail: err recorded, done closed
    | FailEnd                            // fail: connection closed
    | GiveUpContext                      // the ctx.Done branch, which waits for fail to finish
    | GiveUpDone                         // the done branch without a reply
    | Finish                             // the operation returns
    | Discard                            // the client is closed and forgotten

  predicate Enabled(s: State, e: Step)
  {
    match e
    case Connect(_) => s.phase.Idle?
    case Send(list, rows) => s.phase.Running? && s.client.Some? && (!list ==> rows == 0)
    case Deliver => s.client.Some? && s.client.value.wire != []
    case Receive => s.phase.Waiting? && s.client.Some? && s.client.value.buffer != []
    case FailStart => s.client.Some? && !s.client.value.done
    case FailEnd => s.client.Some? && s.client.value.done && !s.client.value.closed
    case GiveUpContext => s.phase.Waiting? && s.client.Some? && s.client.value.done && s.client.value.closed
    case GiveUpDone => s.phase.Waiting? && s.client.Some? && s.client.value.done
    case Finish => s.phase.Running?
    case Discard => s.phase.Idle?
  }

  /** A server that answers in order: rows for a list, then exactly one closing reply. */
  function Answer(request: nat, rows: nat): seq<Reply>
  {
    seq(rows, _ => Reply(request, true)) + [Reply(request, false)]
  }

  /** connection: keep the client unless its done channel is closed, otherwise dial a new one. */
  function Connected(s: State, dialed: bool): State
  {
    if s.client.Some? && !s.client.value.done then s.(phase := Running)
    else if dialed then
      s.(client := Some(Stream(s.nextStream, false, false, [], [])), phase := Running, nextStream := s.nextStream + 1)
    else s.(client := None)
  }

  /** The request is written, or the write fails because the connection is closed. */
  function Sent(s: State, list: bool, rows: nat): State
    requires s.client.Some?
  {
    var c := s.client.value;
    if c.closed then s.(client := Some(c.(done := true)), phase := Idle)
    else s.(client := Some(c.(wire := c.wire + Answer(s.nextRequest, rows))),
            phase := Waiting(s.nextRequest, list), nextRequest := s.nextRequest + 1)
  }

  /** A plain request returns with its first reply; a list goes on while it gets rows. */
  function Received(s: State): State
    requires s.phase.Waiting? && s.client.Some? && s.client.value.buffer != []
  {
    var c := s.client.value;
    var reply := c.buffer[0];
    s.(client := Some(c.(buffer := c.buffer[1..])),
       log := s.log + [Taken(s.phase.request, reply.owner, c.id)],
       phase := if s.phase.list && reply.row then s.phase else Running)
  }

  function GaveUp(s: State): State
    requires s.client.Some?
  {
    s.(phase := Idle, cancelled := s.cancelled + {s.client.value.id})
  }

  function Apply(s: State, e: Step): State
    requires Enabled(s, e)
  {
    match e
    case Connect(dialed) => Connected(s, dialed)
    case Send(list, rows) => Sent(s, list, rows)
    case Deliver =>
      var c := s.client.value;
      s.(client := Some(c.(wire := c.wire[1..], buffer := c.buffer + [c.wire[0]])))
    case Receive => Received(s)
    case FailStart => s.(client := Some(s.client.value.(done := true)))
    case FailEnd => s.(client := Some(s.client.value.(closed := true)))
    case GiveUpContext => GaveUp(s)
    case GiveUpDone => GaveUp(s)
    case Finish => s.(phase := Idle)
    case Discard => s.(client := None)
  }

  /** Everything still to be taken from the stream, oldest first. */
  function Pending(c: Stream): seq<Reply> { c.buffer + c.wire }

  /** The rest of one request's answer: its own rows, then its closing reply. */
  ghost predicate RestOf(rs: seq<Reply>, request: nat, list: bool)
  {
    && rs != [] && !rs[|rs| - 1].row
    && (forall i | 0 <= i < |rs| :: rs[i].owner == request)
    && (forall i | 0 <= i < |rs| - 1 :: rs[i].row)
    && (!list ==> |rs| == 1)
  }

  /** A live, idle stream owes nothing; a waiting request is owed exactly the rest of its own answer;
      a stream on which a request gave up is failed. */
  ghost predicate StreamOk(s: State)
  {
    match s.phase
    case Idle => s.client.Some? && !s.client.value.done ==> Pending(s.client.value) == []
    case Running => s.client.Some? && s.client.value.id !in s.cancelled && Pending(s.client.value) == []
    case Waiting(r, list) =>
      s.client.Some? && s.client.value.id !in s.cancelled && RestOf(Pending(s.client.value), r, list)
  }

  /** Every reply went to its own request. */
  ghost predicate LogOk(log: seq<Taken>) { forall i | 0 <= i < |log| :: log[i].owner == log[i].request }

  /** The client is the stream dialed last, and failed if its connection is closed or a request on it
      gave up. */
  ghost predicate ClientOk(s: State)
  {
    && (s.client.Some? ==> s.client.value.id + 1 == s.nextStream && (s.client.value.closed ==> s.client.value.done))
    && (s.client.Some? && s.client.value.id in s.cancelled ==> s.client.value.done)
    && (forall id | id in s.cancelled :: id < s.nextStream)
  }

  ghost predicate Inv(s: State) { LogOk(s.log) && ClientOk(s) && StreamOk(s) }

  const Init := State(None, Idle, 0, 0, [], {})

  lemma AnswerIsRest(request: nat, rows: nat, list: bool)
    requires !list ==> rows == 0
    ensures RestOf(Answer(request, rows), request, list)
  {
  }

  lemma TakeFirst(rs: seq<Reply>, request: nat, list: bool)
    requires RestOf(rs, request, list)
    ensures rs[0].owner == request
    ensures if list && rs[0].row then RestOf(rs[1..], request, list) else rs == [rs[0]]
  {
    if |rs| > 1 {
      assert rs[0].row;
    }
  }

  lemma InvStep(s: State, e: Step)
    requires Inv(s) && Enabled(s, e)
    ensures Inv(Apply(s, e))
  {
    match e
    case Send(list, rows) =>
      AnswerIsRest(s.nextRequest, rows, list);
      var c := s.client.value;
      assert Pending(c) == [] ==> c.buffer == [] && c.wire == [];
      assert [] + ([] + Answer(s.nextRequest, rows)) == Answer(s.nextRequest, rows);
    case Deliver =>
      var c := s.client.value;
      assert (c.buffer + [c.wire[0]]) + c.wire[1..] == c.buffer + c.wire;
    case Receive =>
      var c := s.client.value;
      TakeFirst(Pending(c), s.phase.request, s.phase.list);
      assert Pending(c)[1..] == c.buffer[1..] + c.wire;
      assert Pending(c)[0] == c.buffer[0];
    case _ =>
  }

  ghost predicate Runs(s: State, steps: seq<Step>)
    decreases |steps|
  {
    steps == [] || (Enabled(s, steps[0]) && Runs(Apply(s, steps[0]), steps[1..]))
  }

  function Run(s: State, steps: seq<Step>): State
    requires Runs(s, steps)
    decreases |steps|
  {
    if steps == [] then s else Run(Apply(s, steps[0]), steps[1..])
  }

  lemma {:induction false} InvRun(s: State, steps: seq<Step>)
    requires Inv(s) && Runs(s, steps)
    ensures Inv(Run(s, steps))
    decreases |steps|
  {
    if steps != [] {
      InvStep(s, steps[0]);
      InvRun(Apply(s, steps[0]), steps[1..]);
    }
  }

  /** In every run of requests, lists, failures and cancellations through the controller, each reply
      taken belongs to the request that takes it. */
  lemma RepliesMatch(steps: seq<Step>, i: nat)
    requires Runs(Init, steps) && i < |Run(Init, steps).log|
    ensures Run(Init, steps).log[i].owner == Run(Init, steps).log[i].request
  {
    InvRun(Init, steps);
  }

  /** All replies taken since `log` came from streams dialed after stream `id`. */
  ghost predicate ServedLater(log: seq<Taken>, log': seq<Taken>, id: nat)
  {
    log <= log' && forall i | |log| <= i < |log'| :: log'[i].stream > id
  }

  lemma CancelledStep(s: State, e: Step, id: nat)
    requires Inv(s) && Enabled(s, e) && id in s.cancelled
    ensures id in Apply(s, e).cancelled && ServedLater(s.log, Apply(s, e).log, id)
  {
    hide RestOf, Answer;
  }

  /** Once a request on a stream was given up, nothing is ever taken from that stream or an older one
      again: later requests are served on a stream dialed afterwards. */
  lemma {:induction false} CancelledServesNoMore(s: State, steps: seq<Step>, id: nat)
    requires Inv(s) && Runs(s, steps) && id in s.cancelled
    ensures ServedLater(s.log, Run(s, steps).log, id)
    decreases |steps|
  {
    hide Inv, Apply, Enabled;
    if steps != [] {
      CancelledStep(s, steps[0], id);
      InvStep(s, steps[0]);
      CancelledServesNoMore(Apply(s, steps[0]), steps[1..], id);
    }
  }

  // ----- a request on the same client, without the controller's check -----

  /** Go on with the client as it is, as a caller of the bare Client would. */
  function Reuse(s: State): State { s.(phase := Running) }

  /** An operation on a client whose connection is closed. */
  ghost predicate OnClosed(s: State)
  {
    LogOk(s.log) && ClientOk(s) && s.phase.Running? && s.client.Some? && s.client.value.closed
  }

  /** Its next request fails to be written; nothing else but the return is left, and the invariant is
      back in force. */
  lemma ClosedStep(s: State, e: Step)
    requires OnClosed(s) && Enabled(s, e)
    ensures OnClosed(Apply(s, e)) || Inv(Apply(s, e))
  {
  }

  lemma {:induction false} ClosedRun(s: State, steps: seq<Step>)
    requires OnClosed(s) && Runs(s, steps)
    ensures LogOk(Run(s, steps).log)
    decreases |steps|
  {
    hide Apply, Enabled;
    if steps != [] {
      var s' := Apply(s, steps[0]);
      ClosedStep(s, steps[0]);
      if OnClosed(s') { ClosedRun(s', steps[1..]); } else { InvRun(s', steps[1..]); }
    }
  }

  ghost predicate TakesForeign(s: State, more: seq<Step>)
  {
    Runs(s, more) && exists t :: t in Run(s, more).log && t.request != t.owner
  }

  /** As long as the connection is not closed, any reply still owed to an earlier request can
      answer a new request on the same client. */
  lemma OpenClientUnsafe(s: State)
    requires s.phase.Idle? && s.client.Some? && !s.client.value.closed && Pending(s.client.value) != []
    requires Pending(s.client.value)[0].owner != s.nextRequest
    ensures exists more :: TakesForeign(Reuse(s), more)
  {
    var c := s.client.value;
    var s0 := Reuse(s);
    var s1 := Apply(s0, Send(false, 0));
    if c.buffer == [] {
      assert Pending(c)[0] == c.wire[0];
      var s2 := Apply(s1, Deliver);
      TakesNext(s2);
      RunStep(s1, Deliver, [Receive]);
      RunStep(s0, Send(false, 0), [Deliver] + [Receive]);
      assert TakesForeign(s0, [Send(false, 0)] + ([Deliver] + [Receive]));
    } else {
      assert Pending(c)[0] == c.buffer[0];
      TakesNext(s1);
      RunStep(s0, Send(false, 0), [Receive]);
      assert TakesForeign(s0, [Send(false, 0)] + [Receive]);
    }
  }

  /** Reusing a bare client with a reply still owed to an earlier request can give that reply to the new
      request if and only if the connection is not closed yet. */
  lemma BareReuseExact(s: State)
    requires Inv(s) && s.phase.Idle? && s.client.Some? && Pending(s.client.value) != []
    requires Pending(s.client.value)[0].owner != s.nextRequest
    ensures (exists more :: TakesForeign(Reuse(s), more)) <==> !s.client.value.closed
  {
    if s.client.value.closed {
      assert OnClosed(Reuse(s));
      forall more | Runs(Reuse(s), more) ensures !TakesForeign(Reuse(s), more) {
        ClosedRun(Reuse(s), more);
      }
    } else {
      OpenClientUnsafe(s);
    }
    hide Inv, Runs, Run, Apply;
  }

  lemma TakesNext(s: State)
    requires s.phase.Waiting? && s.client.Some? && s.client.value.buffer != [] &&
              s.client.value.buffer[0].owner != s.phase.request
    ensures TakesForeign(s, [Receive])
  {
    var s' := Apply(s, Receive);
    RunCons(s', []);
    RunStep(s, Receive, []);
    assert [Receive] + [] == [Receive];
    assert s'.log[|s'.log| - 1].request != s'.log[|s'.log| - 1].owner;
    assert s'.log[|s'.log| - 1] in s'.log;
  }

  /** Such a state is reached: request 0 is cancelled and returns by the done branch after `done` is
      closed and before the connection is. */
  lemma BareClientWindow()
    ensures exists steps :: Runs(Init, steps) && Window(Run(Init, steps))
  {
    CancelledPrefix();
    var steps := [Connect(true), Send(false, 0), FailStart, GiveUpDone];
    assert Window(Run(Init, steps));
  }

  /** An idle client on which a request gave up, its reply still owed and the connection still open. */
  predicate Window(s: State)
  {
    && s.phase.Idle? && s.client.Some? && s.client.value.id in s.cancelled && !s.client.value.closed
    && Pending(s.client.value) != [] && Pending(s.client.value)[0].owner != s.nextRequest
  }

  lemma CancelledPrefix()
    ensures var steps := [Connect(true), Send(false, 0), FailStart, GiveUpDone];
            Runs(Init, steps) && Run(Init, steps) ==
                State(Some(Stream(0, true, false, [Reply(0, false)], [])), Idle, 1, 1, [], {0})
  {
    var s1 := Apply(Init, Connect(true));
    var s2 := Apply(s1, Send(false, 0));
    assert Answer(0, 0) == [Reply(0, false)];
    assert s2.client.value.wire == [Reply(0, false)];
    var s3 := Apply(s2, FailStart);
    var s4 := Apply(s3, GiveUpDone);
    RunCons(s4, []);
    RunStep(s3, GiveUpDone, []);
    RunStep(s2, FailStart, [GiveUpDone]);
    RunStep(s1, Send(false, 0), [FailStart, GiveUpDone]);
    RunStep(Init, Connect(true), [Send(false, 0), FailStart, GiveUpDone]);
    assert [Connect(true)] + [Send(false, 0), FailStart, GiveUpDone] ==
        [Connect(true), Send(false, 0), FailStart, GiveUpDone];
  }

  lemma RunCons(s: State, steps: seq<Step>)
    requires steps == []
    ensures Runs(s, steps) && Run(s, steps) == s
  {
  }

  lemma RunStep(s: State, e: Step, rest: seq<Step>)
    requires Enabled(s, e) && Runs(Apply(s, e), rest)
    ensures Runs(s, [e] + rest) && Run(s, [e] + rest) == Run(Apply(s, e), rest)
  {
    assert ([e] + rest)[1..] == rest;
  }

  // ----- requests that nothing disturbs -----

  /** An operation can start: there is no client, or a live one that owes nothing. */
  predicate Fit(s: State)
  {
    s.phase.Idle? && (s.client.Some? ==>
        !s.client.value.done && !s.client.value.closed && Pending(s.client.value) == [])
  }

  /** The stream the next operation runs on: the live one, or a new one. */
  function NextStream(s: State): nat { if s.client.Some? then s.client.value.id else s.nextStream }

  /** `n` replies taken by request `r` from its own stream. */
  function Own(r: nat, id: nat, n: nat): seq<Taken> { seq(n, _ => Taken(r, r, id)) }

  /** A list that waits for `rows` rows and the closing reply takes them all, one by one. */
  lemma {:induction false} TakesAll(s: State, r: nat, list: bool, rows: nat) returns (steps: seq<Step>)
    requires s.phase == Waiting(r, list) && s.client.Some? && (!list ==> rows == 0)
    requires s.client.value.buffer == [] && s.client.value.wire == Answer(r, rows)
    ensures Runs(s, steps)
    ensures var s' := Run(s, steps);
            && s'.phase == Running && s'.log == s.log + Own(r, s.client.value.id, rows + 1)
            && s'.client == Some(s.client.value.(wire := [])) && s'.nextStream == s.nextStream &&
                s'.nextRequest == s.nextRequest
    decreases rows
  {
    var c := s.client.value;
    var s1 := Apply(s, Deliver);
    assert c.wire[0] == Reply(r, rows > 0) && s1.client.value.buffer == [c.wire[0]];
    var s2 := Apply(s1, Receive);
    assert s2.log == s.log + [Taken(r, r, c.id)] && s2.client.value.buffer == [] && s2.client.value.wire == c.wire[1..];
    var rest: seq<Step> := [];
    if rows == 0 {
      assert c.wire == [Reply(r, false)] && c.wire[1..] == [];
      assert Own(r, c.id, 1) == [Taken(r, r, c.id)];
      RunCons(s2, []);
    } else {
      assert c.wire[1..] == Answer(r, rows - 1);
      rest := TakesAll(s2, r, list, rows - 1);
      assert [Taken(r, r, c.id)] + Own(r, c.id, rows) == Own(r, c.id, rows + 1);
      assert (s.log + [Taken(r, r, c.id)]) + Own(r, c.id, rows) == s.log + Own(r, c.id, rows + 1);
    }
    hide Apply, Enabled;
    RunStep(s1, Receive, rest);
    RunStep(s, Deliver, [Receive] + rest);
    steps := [Deliver] + ([Receive] + rest);
  }

  /** An undisturbed request or list is served in full on the live stream, or on a newly dialed one when
      there is none, and leaves the stream fit for the next. */
  lemma ServedAlone(s: State, list: bool, rows: nat) returns (steps: seq<Step>)
    requires Fit(s) && (!list ==> rows == 0)
    ensures Runs(s, steps)
    ensures var s' := Run(s, steps);
            && Fit(s') && s'.client.Some? && s'.client.value.id == NextStream(s)
            && s'.log == s.log + Own(s.nextRequest, NextStream(s), rows + 1)
  {
    var r := s.nextRequest;
    var s1 := Apply(s, Connect(true));
    assert s1.phase == Running && s1.client.Some? && s1.client.value.id == NextStream(s) && s1.log == s.log;
    assert !s1.client.value.done && !s1.client.value.closed && Pending(s1.client.value) == [];
    assert s1.client.value.buffer == [] && s1.client.value.wire == [];
    var s2 := Apply(s1, Send(list, rows));
    assert [] + Answer(r, rows) == Answer(r, rows);
    assert s2.client.value.wire == Answer(r, rows);
    var taken := TakesAll(s2, r, list, rows);
    var s3 := Run(s2, taken);
    var s4 := Apply(s3, Finish);
    hide Apply, Enabled, Answer;
    RunCons(s4, []);
    RunStep(s3, Finish, []);
    RunTwice(s2, taken, [Finish] + []);
    RunStep(s1, Send(list, rows), taken + ([Finish] + []));
    RunStep(s, Connect(true), [Send(list, rows)] + (taken + ([Finish] + [])));
    steps := [Connect(true)] + ([Send(list, rows)] + (taken + ([Finish] + [])));
  }

  lemma {:induction false} RunTwice(s: State, a: seq<Step>, b: seq<Step>)
    requires Runs(s, a) && Runs(Run(s, a), b)
    ensures Runs(s, a + b) && Run(s, a + b) == Run(Run(s, a), b)
    decreases |a|
  {
    hide Apply, Enabled;
    if a == [] {
      assert a + b == b;
    } else {
      assert (a + b)[0] == a[0] && (a + b)[1..] == a[1..] + b;
      RunTwice(Apply(s, a[0]), a[1..], b);
    }
  }

  /** No stream yet, or the first one, alive. */
  predicate FirstStream(s: State)
  {
    && (forall i | 0 <= i < |s.log| :: s.log[i].stream == 0)
    && (if s.client.Some? then
          s.client.value.id == 0 && !s.client.value.done && !s.client.value.closed && s.nextStream == 1
        else s.nextStream == 0)
  }

  /** As long as nothing fails and the client is not discarded, all requests share one stream. */
  lemma {:induction false} OneStream(s: State, steps: seq<Step>)
    requires FirstStream(s) && Runs(s, steps) && FailStart !in steps && Discard !in steps
    ensures FirstStream(Run(s, steps))
    decreases |steps|
  {
    if steps != [] {
      assert steps[0] in steps && forall e | e in steps[1..] :: e in steps;
      OneStream(Apply(s, steps[0]), steps[1..]);
    }
  }
}
