/**
 A client's connection as a system of steps: what it reads, answers and writes
 while an upgrade may freeze it, thaw it or close it at any point. Runs are
 without failures to queue, to write, or of a request's handler.
 */
module Connections {
  import opened Specs

  /** A request by what the loop does with it. */
  datatype Kind =
    | Plain          // answered by a handler of its own
    | Malformed      // answered at once with an error
    | TakesOver      // an attach or a wait: the connection is handed over
    | Upgrade        // answered when the upgrade fails

  /** A message queued: a response is to a request by when it was read. */
  datatype Message = Greeting | Refusal | Response(request: nat)

  type Bytes = seq<nat>
  type Encoder = Message -> Bytes

  datatype Phase = Serving | Finishing | HandedOver | Ended

  datatype State = State(
    phase: Phase,
    hello: bool,
    frozen: bool,
    closing: bool,
    asked: seq<Kind>,           // the requests read so far
    replies: set<nat>,          // those with a handler still at work
    upgrade: Option<nat>,       // the upgrade in flight
    queued: seq<Message>,       // every message queued so far
    pending: Bytes,             // what of them is not written
    written: Bytes,             // what of them is
    snapshot: Option<Bytes>)    // the output the last freeze answered with

  datatype Step =
    | ReadHello(accepted: bool)
    | ReadRequest(kind: Kind, order: seq<nat>)
    | ReadOther                 // a message that is no request, or no hello where one is due
    | ReadEnd                   // the client is gone
    | Reply(request: nat)
    | UpgradeFails
    | Flush(count: nat)
    | Freeze(order: seq<nat>)
    | Thaw
    | Close
    | LeaveLoop
    | Finish

  function Start(hello: bool): State {
    State(Serving, hello, false, false, [], {}, None, [], [], [], None)
  }

  function Queue(s: State, m: Message, encode: Encoder): State {
    s.(queued := s.queued + [m], pending := s.pending + encode(m))
  }

  function QueueAll(s: State, requests: seq<nat>, encode: Encoder): State {
    if requests == [] then s
    else Queue(QueueAll(s, requests[..|requests| - 1], encode), Response(requests[|requests| - 1]), encode)
  }

  /** An order the handlers at work can end in. */
  predicate Ends(order: seq<nat>, replies: set<nat>) {
    && (forall i, j | 0 <= i < j < |order| :: order[i] != order[j])
    && (forall x | x in order :: x in replies) && (forall x | x in replies :: x in order)
  }

  /** Nothing is read while frozen or closing, or while output is owed. */
  predicate CanRead(s: State) {
    s.phase == Serving && !(s.closing && s.replies == {}) && !s.frozen && !s.closing && s.pending == []
  }

  predicate InLoop(s: State) {
    s.phase == Serving && !(s.closing && s.replies == {})
  }

  /** A request read: `order` is that in which the handlers at work end, when it must wait for them. */
  function Requested(s: State, kind: Kind, order: seq<nat>, encode: Encoder): Option<State> {
    var (id, read) := (|s.asked|, s.(asked := s.asked + [kind]));
    match kind
    case TakesOver =>
      if Ends(order, s.replies) then Some(QueueAll(read, order, encode).(replies := {}, phase := HandedOver)) else None
    case Upgrade => Some(if s.upgrade.Some? then Queue(read, Response(id), encode) else read.(upgrade := Some(id)))
    case Plain => Some(read.(replies := s.replies + {id}))
    case Malformed => Some(Queue(read, Response(id), encode))
  }

  /** The state after a step; none when the step cannot be taken. */
  function Next(s: State, step: Step, encode: Encoder): Option<State> {
    match step
    case ReadHello(accepted) =>
      if !CanRead(s) || s.hello then None
      else if accepted then Some(Queue(s, Greeting, encode).(hello := true))
      else Some(Queue(s, Refusal, encode).(closing := true))
    case ReadRequest(kind, order) =>
      if !CanRead(s) then None
      else if !s.hello then Some(s.(closing := true))
      else Requested(s, kind, order, encode)
    case ReadOther => if !CanRead(s) then None else Some(if s.hello then s else s.(closing := true))
    case ReadEnd => if !CanRead(s) then None else Some(s.(closing := true))
    case Reply(request) =>
      if !InLoop(s) || request !in s.replies then None
      else Some(Queue(s, Response(request), encode).(replies := s.replies - {request}))
    case UpgradeFails =>
      if !InLoop(s) || s.frozen || s.upgrade.None? then None
      else Some(Queue(s, Response(s.upgrade.value), encode).(upgrade := None))
    case Flush(count) =>
      if !(InLoop(s) || s.phase == Finishing) || s.frozen || !(0 < count <= |s.pending|) then None
      else Some(s.(written := s.written + s.pending[..count], pending := s.pending[count..]))
    case Freeze(order) =>
      if InLoop(s) && Ends(order, s.replies) then
        var drained := QueueAll(s, order, encode);
        Some(drained.(replies := {}, frozen := true, snapshot := Some(drained.pending)))
      else if s.phase == Finishing && s.pending != [] then Some(s.(frozen := true, snapshot := Some(s.pending)))
      else None
    case Thaw => if InLoop(s) || (s.phase == Finishing && s.pending != []) then Some(s.(frozen := false)) else None
    case Close => if InLoop(s) then Some(s.(closing := true)) else if s.phase == Finishing && s.pending != [] then Some(s) else None
    case LeaveLoop =>
      if s.phase == Serving && s.closing && s.replies == {} then Some(s.(phase := Finishing, frozen := false)) else None
    case Finish => if s.phase == Finishing && s.pending == [] then Some(s.(phase := Ended)) else None
  }

  /** The state after a run of steps, each of which can be taken. */
  function Run(s: State, steps: seq<Step>, encode: Encoder): Option<State> {
    if steps == [] then Some(s)
    else
      var before := Run(s, steps[..|steps| - 1], encode);
      if before.None? then None else Next(before.value, steps[|steps| - 1], encode)
  }

  // ----- One response to each request -----

  function Times(queued: seq<Message>, request: nat): nat {
    if queued == [] then 0
    else Times(queued[..|queued| - 1], request) + if queued[|queued| - 1] == Response(request) then 1 else 0
  }

  lemma TimesMore(queued: seq<Message>, m: Message, request: nat)
    ensures Times(queued + [m], request) == Times(queued, request) + if m == Response(request) then 1 else 0
  {
    assert (queued + [m])[..|queued|] == queued;
  }

  lemma {:induction false} QueuedAll(s: State, order: seq<nat>, encode: Encoder, request: nat)
    requires forall i, j | 0 <= i < j < |order| :: order[i] != order[j]
    ensures Times(QueueAll(s, order, encode).queued, request) == Times(s.queued, request) + if request in order then 1 else 0
    ensures QueueAll(s, order, encode) ==
            s.(queued := QueueAll(s, order, encode).queued, pending := QueueAll(s, order, encode).pending)
  {
    if order != [] {
      var (init, last) := (order[..|order| - 1], order[|order| - 1]);
      assert order == init + [last];
      QueuedAll(s, init, encode, request);
      TimesMore(QueueAll(s, init, encode).queued, Response(last), request);
    }
  }

  /** How many responses a request has, queued or to come. */
  function Owed(s: State, request: nat): nat {
    Times(s.queued, request) + (if request in s.replies then 1 else 0) + (if s.upgrade == Some(request) then 1 else 0)
  }

  /** Each request read has one response, queued or to come; one that takes the connection over has none. */
  ghost predicate Answered(s: State, request: nat) {
    Owed(s, request) == if request < |s.asked| && s.asked[request] != TakesOver then 1 else 0
  }

  lemma StartAnswered(hello: bool, request: nat)
    ensures Answered(Start(hello), request)
  {
  }

  lemma RequestAnswered(s: State, kind: Kind, order: seq<nat>, encode: Encoder, request: nat)
    requires Answered(s, request) && Requested(s, kind, order, encode).Some?
    ensures Answered(Requested(s, kind, order, encode).value, request)
  {
    var read := s.(asked := s.asked + [kind]);
    TimesMore(s.queued, Response(|s.asked|), request);
    if kind == TakesOver {
      QueuedAll(read, order, encode, request);
    }
  }

  lemma ReplyAnswered(s: State, id: nat, encode: Encoder, request: nat)
    requires Answered(s, request) && id in s.replies
    ensures Answered(Queue(s, Response(id), encode).(replies := s.replies - {id}), request)
  {
    TimesMore(s.queued, Response(id), request);
  }

  lemma FreezeAnswered(s: State, order: seq<nat>, encode: Encoder, request: nat, snapshot: Option<Bytes>)
    requires Answered(s, request) && Ends(order, s.replies)
    ensures Answered(QueueAll(s, order, encode).(replies := {}, frozen := true, snapshot := snapshot), request)
  {
    QueuedAll(s, order, encode, request);
  }

  lemma StepAnswered(s: State, step: Step, encode: Encoder, request: nat)
    requires Answered(s, request) && Next(s, step, encode).Some?
    ensures Answered(Next(s, step, encode).value, request)
  {
    match step
    case ReadHello(accepted) =>
      TimesMore(s.queued, if accepted then Greeting else Refusal, request);
    case ReadRequest(kind, order) =>
      if s.hello {
        RequestAnswered(s, kind, order, encode, request);
      }
    case Reply(id) =>
      ReplyAnswered(s, id, encode, request);
    case UpgradeFails =>
      TimesMore(s.queued, Response(s.upgrade.value), request);
    case Freeze(order) =>
      if InLoop(s) {
        FreezeAnswered(s, order, encode, request, Some(QueueAll(s, order, encode).pending));
      }
    case _ =>
  }

  /** The upgrade in flight is a request for one. */
  predicate UpgradeAsked(s: State) {
    s.upgrade.Some? ==> s.upgrade.value < |s.asked| && s.asked[s.upgrade.value] == Upgrade
  }

  lemma StepUpgradeAsked(s: State, step: Step, encode: Encoder)
    requires UpgradeAsked(s) && Next(s, step, encode).Some?
    ensures UpgradeAsked(Next(s, step, encode).value)
  {
    match step
    case ReadRequest(kind, order) =>
      if s.hello && kind == TakesOver {
        QueuedAll(s.(asked := s.asked + [kind]), order, encode, 0);
      }
    case Freeze(order) =>
      if InLoop(s) {
        QueuedAll(s, order, encode, 0);
      }
    case _ =>
  }

  /** Once the loop is left or handed over, no handler is at work. */
  predicate NoneAtWork(s: State) {
    s.phase != Serving ==> s.replies == {}
  }

  lemma StepNoneAtWork(s: State, step: Step, encode: Encoder)
    requires NoneAtWork(s) && Next(s, step, encode).Some?
    ensures NoneAtWork(Next(s, step, encode).value)
  {
    match step
    case ReadRequest(kind, order) =>
      if s.hello && kind == TakesOver {
        QueuedAll(s.(asked := s.asked + [kind]), order, encode, 0);
      }
    case Freeze(order) =>
      if InLoop(s) {
        QueuedAll(s, order, encode, 0);
      }
    case _ =>
  }

  lemma {:induction false} RunAnswered(hello: bool, steps: seq<Step>, encode: Encoder, request: nat)
    requires Run(Start(hello), steps, encode).Some?
    ensures var s := Run(Start(hello), steps, encode).value; Answered(s, request) && NoneAtWork(s) && UpgradeAsked(s)
    decreases |steps|
  {
    if steps == [] {
      StartAnswered(hello, request);
    } else {
      var (init, step) := (steps[..|steps| - 1], steps[|steps| - 1]);
      RunAnswered(hello, init, encode, request);
      var s := Run(Start(hello), init, encode).value;
      StepAnswered(s, step, encode, request);
      StepNoneAtWork(s, step, encode);
      StepUpgradeAsked(s, step, encode);
    }
  }

  /**
   In every run, each request read but an attach, a wait or an upgrade has exactly
   one response queued by the time the connection ends or is handed over; an upgrade
   has at most one, and an attach or a wait none.
   */
  lemma OneResponseEach(hello: bool, steps: seq<Step>, encode: Encoder, request: nat)
    requires Run(Start(hello), steps, encode).Some?
    ensures var s := Run(Start(hello), steps, encode).value;
            && Times(s.queued, request) <= 1
            && (request < |s.asked| ==>
                  && (s.asked[request] == TakesOver ==> Times(s.queued, request) == 0)
                  && (s.phase != Serving && (s.asked[request] == Plain || s.asked[request] == Malformed) ==>
                        Times(s.queued, request) == 1))
  {
    RunAnswered(hello, steps, encode, request);
  }

  // ----- What is written is what was queued -----

  function EncodeAll(queued: seq<Message>, encode: Encoder): Bytes {
    if queued == [] then [] else EncodeAll(queued[..|queued| - 1], encode) + encode(queued[|queued| - 1])
  }

  predicate Carried(s: State, encode: Encoder) {
    s.written + s.pending == EncodeAll(s.queued, encode)
  }

  lemma QueueCarried(s: State, m: Message, encode: Encoder)
    requires Carried(s, encode)
    ensures Carried(Queue(s, m, encode), encode)
  {
    assert (s.queued + [m])[..|s.queued|] == s.queued;
    assert s.written + (s.pending + encode(m)) == (s.written + s.pending) + encode(m);
  }

  lemma {:induction false} QueueAllCarried(s: State, order: seq<nat>, encode: Encoder)
    requires Carried(s, encode)
    ensures Carried(QueueAll(s, order, encode), encode)
  {
    if order != [] {
      QueueAllCarried(s, order[..|order| - 1], encode);
      QueueCarried(QueueAll(s, order[..|order| - 1], encode), Response(order[|order| - 1]), encode);
    }
  }

  lemma StepCarried(s: State, step: Step, encode: Encoder)
    requires Carried(s, encode) && Next(s, step, encode).Some?
    ensures Carried(Next(s, step, encode).value, encode)
  {
    match step
    case ReadHello(accepted) =>
      QueueCarried(s, if accepted then Greeting else Refusal, encode);
    case ReadRequest(kind, order) =>
      QueueCarried(s.(asked := s.asked + [kind]), Response(|s.asked|), encode);
      QueueAllCarried(s.(asked := s.asked + [kind]), order, encode);
    case Reply(id) =>
      QueueCarried(s, Response(id), encode);
    case UpgradeFails =>
      QueueCarried(s, Response(s.upgrade.value), encode);
    case Flush(count) =>
      assert s.pending == s.pending[..count] + s.pending[count..];
      assert (s.written + s.pending[..count]) + s.pending[count..] == s.written + s.pending;
    case Freeze(order) =>
      QueueAllCarried(s, order, encode);
    case _ =>
  }

  /** In every run, what is written and what is pending is what was queued, in order, each byte once. */
  lemma {:induction false} RunCarried(hello: bool, steps: seq<Step>, encode: Encoder)
    requires Run(Start(hello), steps, encode).Some?
    ensures Carried(Run(Start(hello), steps, encode).value, encode)
    decreases |steps|
  {
    if steps != [] {
      var init := steps[..|steps| - 1];
      RunCarried(hello, init, encode);
      StepCarried(Run(Start(hello), init, encode).value, steps[|steps| - 1], encode);
    }
  }

  // ----- Frozen -----

  /** Frozen in the loop, no handler is at work, and what the freeze was answered with is what is pending. */
  ghost predicate Still(s: State) {
    s.frozen && (s.phase == Serving || s.phase == Finishing) ==> s.replies == {} && s.snapshot == Some(s.pending)
  }

  lemma StepStill(s: State, step: Step, encode: Encoder)
    requires Still(s) && Next(s, step, encode).Some? && NoneAtWork(s)
    ensures Still(Next(s, step, encode).value)
  {
    match step
    case ReadRequest(kind, order) =>
      if s.hello && kind == TakesOver {
        QueuedAll(s.(asked := s.asked + [kind]), order, encode, 0);
      }
    case Freeze(order) =>
      if InLoop(s) {
        QueuedAll(s, order, encode, 0);
      }
    case _ =>
  }

  lemma {:induction false} RunStill(hello: bool, steps: seq<Step>, encode: Encoder)
    requires Run(Start(hello), steps, encode).Some?
    ensures Still(Run(Start(hello), steps, encode).value)
    decreases |steps|
  {
    if steps != [] {
      var init := steps[..|steps| - 1];
      RunStill(hello, init, encode);
      RunAnswered(hello, init, encode, 0);
      StepStill(Run(Start(hello), init, encode).value, steps[|steps| - 1], encode);
    }
  }

  /** What is read, queued and written. */
  function Traffic(s: State): (seq<Kind>, seq<Message>, Bytes) {
    (s.asked, s.queued, s.written)
  }

  /** While frozen, until it is thawed or leaves the loop, a connection reads, queues and writes nothing. */
  lemma FrozenIsSilent(s: State, step: Step, encode: Encoder)
    requires s.frozen && s.replies == {} && Next(s, step, encode).Some?
    ensures var t := Next(s, step, encode).value;
            && Traffic(t) == Traffic(s) && t.pending == s.pending && t.replies == {}
            && (t.frozen || step == Thaw || step == LeaveLoop)
            && (t.closing == s.closing || step == Close)
            && (t.phase == s.phase || (step == LeaveLoop && s.closing) || step == Finish)
  {
    if step.Freeze? {
      assert step.order != [] ==> step.order[0] in step.order;
    }
  }

  predicate HeldStep(step: Step) {
    step != Thaw && step != Close
  }

  /** The steps an upgrade in progress leaves: no thaw, and no request to close. */
  predicate Held(steps: seq<Step>) {
    forall i | 0 <= i < |steps| :: HeldStep(steps[i])
  }

  /** Frozen and not closing, a connection stays so until it is thawed or asked to close, and is silent. */
  lemma {:induction false} StaysFrozen(s: State, steps: seq<Step>, encode: Encoder)
    requires s.phase == Serving && s.frozen && s.replies == {} && !s.closing && Held(steps) && Run(s, steps, encode).Some?
    ensures var t := Run(s, steps, encode).value;
            && t.phase == Serving && t.frozen && t.replies == {} && !t.closing
            && Traffic(t) == Traffic(s) && t.pending == s.pending
    decreases |steps|
  {
    if steps != [] {
      assert HeldStep(steps[|steps| - 1]);
      StaysFrozen(s, steps[..|steps| - 1], encode);
      var t := Run(s, steps[..|steps| - 1], encode).value;
      FrozenIsSilent(t, steps[|steps| - 1], encode);
    }
  }

  /** A run in which a connection writes, though nothing thaws it or asks it to close. */
  ghost predicate Writes(s: State, steps: seq<Step>, encode: Encoder) {
    Held(steps) && Run(s, steps, encode).Some? && Run(s, steps, encode).value.written != s.written
  }

  /**
   A frozen connection writes before it is thawed exactly when it is closing with
   output owed: it then leaves the loop, forgets that it is frozen, and writes what
   the snapshot carries too.
   */
  lemma WritesIfClosing(s: State, encode: Encoder)
    requires s.phase == Serving && s.frozen && s.replies == {}
    ensures (exists steps :: Writes(s, steps, encode)) <==> s.closing && s.pending != []
  {
    if s.closing && s.pending != [] {
      var steps := [LeaveLoop, Flush(|s.pending|)];
      assert steps[..1] == [LeaveLoop] && steps[..1][..0] == [];
      assert Run(s, [], encode) == Some(s);
      assert Run(s, steps[..1], encode) == Some(s.(phase := Finishing, frozen := false));
      assert Run(s, steps, encode).Some?;
      assert Writes(s, steps, encode);
    }
    if steps :| Writes(s, steps, encode) {
      if !s.closing {
        StaysFrozen(s, steps, encode);
      } else if s.pending == [] {
        NothingOwed(s, steps, encode);
      }
    }
  }

  /**
   A run comes to such a state: the client asks and is gone, and the freeze ends the
   handler at work, whose response is then owed by a connection that is closing.
   */
  lemma FrozenWhileClosing(encode: Encoder)
    requires encode(Response(0)) != []
    ensures var steps := [ReadRequest(Plain, []), ReadEnd, Freeze([0])];
            && Run(Start(true), steps, encode).Some?
            && var s := Run(Start(true), steps, encode).value;
               && s.phase == Serving && s.frozen && s.closing && s.replies == {} && s.pending != []
               && exists more :: Writes(s, more, encode)
  {
    var steps := [ReadRequest(Plain, []), ReadEnd, Freeze([0])];
    assert steps[..2] == [ReadRequest(Plain, []), ReadEnd] && steps[..2][..1] == [ReadRequest(Plain, [])];
    assert [ReadRequest(Plain, [])][..0] == [] && Run(Start(true), [], encode) == Some(Start(true));
    var start := Start(true);
    var asked := start.(asked := start.asked + [Plain], replies := start.replies + {0});
    assert Next(start, ReadRequest(Plain, []), encode) == Some(asked);
    assert Run(Start(true), steps[..2][..1], encode) == Some(asked);
    var gone := asked.(closing := true);
    assert Run(Start(true), steps[..2], encode) == Some(gone);
    assert [0][..0] == [] && QueueAll(gone, [], encode) == gone;
    assert QueueAll(gone, [0], encode) == Queue(gone, Response(0), encode);
    WritesIfClosing(Run(Start(true), steps, encode).value, encode);
  }

  /** With nothing owed, a closing connection writes nothing more. */
  lemma {:induction false} NothingOwed(s: State, steps: seq<Step>, encode: Encoder)
    requires s.frozen && s.replies == {} && s.closing && s.pending == [] && s.phase == Serving && Run(s, steps, encode).Some?
    ensures var t := Run(s, steps, encode).value;
            t.written == s.written && t.pending == [] && t.closing && t.replies == {} && t.phase != HandedOver
    decreases |steps|
  {
    if steps != [] {
      NothingOwed(s, steps[..|steps| - 1], encode);
    }
  }

  // ----- When anything is read -----

  /** A message is read exactly in the loop, neither frozen nor closing, with all that was queued written. */
  lemma ReadsOnly(s: State, step: Step, encode: Encoder)
    ensures Next(s, ReadEnd, encode).Some? <==> s.phase == Serving && !s.frozen && !s.closing && s.pending == []
    ensures Next(s, ReadOther, encode).Some? <==> Next(s, ReadEnd, encode).Some?
    ensures Next(s, step, encode).Some? && Next(s, step, encode).value.asked != s.asked ==>
              Next(s, ReadEnd, encode).Some? && s.hello && step.ReadRequest?
              && Next(s, step, encode).value.asked == s.asked + [step.kind]
  {
    if step.ReadRequest? && s.hello {
      QueueAllAsked(s.(asked := s.asked + [step.kind]), step.order, encode);
    } else if step.Freeze? {
      QueueAllAsked(s, step.order, encode);
    }
  }

  lemma {:induction false} QueueAllAsked(s: State, order: seq<nat>, encode: Encoder)
    ensures QueueAll(s, order, encode).asked == s.asked
  {
    if order != [] {
      QueueAllAsked(s, order[..|order| - 1], encode);
    }
  }

  /** In every run no request is taken before the hello is. */
  lemma {:induction false} HelloFirst(steps: seq<Step>, encode: Encoder)
    requires Run(Start(false), steps, encode).Some? && !Run(Start(false), steps, encode).value.hello
    ensures Run(Start(false), steps, encode).value.asked == []
    decreases |steps|
  {
    if steps != [] {
      var (init, step) := (steps[..|steps| - 1], steps[|steps| - 1]);
      var s := Run(Start(false), init, encode).value;
      if s.hello {
        KeepsHello(s, step, encode);
      }
      HelloFirst(init, encode);
      ReadsOnly(s, step, encode);
    }
  }

  lemma KeepsHello(s: State, step: Step, encode: Encoder)
    requires Next(s, step, encode).Some? && s.hello
    ensures Next(s, step, encode).value.hello
  {
    if step.ReadRequest? {
      QueueAllHello(s.(asked := s.asked + [step.kind]), step.order, encode);
    } else if step.Freeze? {
      QueueAllHello(s, step.order, encode);
    }
  }

  lemma {:induction false} QueueAllHello(s: State, order: seq<nat>, encode: Encoder)
    ensures QueueAll(s, order, encode).hello == s.hello
  {
    if order != [] {
      QueueAllHello(s, order[..|order| - 1], encode);
    }
  }

  // ----- Every request can be served -----

  lemma RunMore(s: State, steps: seq<Step>, step: Step, encode: Encoder)
    requires Run(s, steps, encode).Some?
    ensures Run(s, steps + [step], encode) == Next(Run(s, steps, encode).value, step, encode)
  {
    assert (steps + [step])[..|steps|] == steps;
  }

  /** Nothing is under way: every request is answered, and every answer written. */
  predicate Idle(s: State, kinds: seq<Kind>) {
    && s.phase == Serving && s.hello && !s.frozen && !s.closing && s.asked == kinds
    && s.replies == {} && s.upgrade == None && s.pending == []
  }

  predicate IsServed(kind: Kind) { kind == Plain || kind == Malformed }

  lemma FlushAll(start: State, steps: seq<Step>, encode: Encoder) returns (more: seq<Step>)
    requires Run(start, steps, encode).Some?
    requires var s := Run(start, steps, encode).value; s.phase == Serving && !s.frozen && !s.closing
    ensures Run(start, more, encode).Some?
    ensures var (s, t) := (Run(start, steps, encode).value, Run(start, more, encode).value);
            t == s.(written := s.written + s.pending, pending := [])
  {
    var s := Run(start, steps, encode).value;
    more := steps;
    if s.pending != [] {
      RunMore(start, steps, Flush(|s.pending|), encode);
      more := steps + [Flush(|s.pending|)];
      assert s.pending[..|s.pending|] == s.pending && s.pending[|s.pending|..] == [];
    } else {
      assert s.written + [] == s.written;
    }
  }

  lemma ServeOne(start: State, steps: seq<Step>, kinds: seq<Kind>, kind: Kind, encode: Encoder) returns (more: seq<Step>)
    requires Run(start, steps, encode).Some? && Idle(Run(start, steps, encode).value, kinds) && IsServed(kind)
    ensures Run(start, more, encode).Some? && Idle(Run(start, more, encode).value, kinds + [kind])
  {
    var s := Run(start, steps, encode).value;
    RunMore(start, steps, ReadRequest(kind, []), encode);
    more := steps + [ReadRequest(kind, [])];
    if kind == Plain {
      var read := Run(start, more, encode).value;
      assert read.replies - {|kinds|} == {};
      RunMore(start, more, Reply(|kinds|), encode);
      more := more + [Reply(|kinds|)];
    }
    more := FlushAll(start, more, encode);
  }

  lemma {:induction false} Serve(kinds: seq<Kind>, encode: Encoder) returns (steps: seq<Step>)
    requires forall k | 0 <= k < |kinds| :: IsServed(kinds[k])
    ensures Run(Start(true), steps, encode).Some? && Idle(Run(Start(true), steps, encode).value, kinds)
  {
    steps := [];
    if kinds != [] {
      var (init, last) := (kinds[..|kinds| - 1], kinds[|kinds| - 1]);
      steps := Serve(init, encode);
      steps := ServeOne(Start(true), steps, init, last, encode);
      assert kinds == init + [last];
    }
  }

  /** Whatever requests a client makes, a run reads each, answers each, writes all it answers, and ends. */
  lemma CanServe(kinds: seq<Kind>, encode: Encoder) returns (steps: seq<Step>)
    requires forall k | 0 <= k < |kinds| :: IsServed(kinds[k])
    ensures Run(Start(true), steps, encode).Some?
    ensures var s := Run(Start(true), steps, encode).value;
            && s.phase == Ended && s.asked == kinds && s.written == EncodeAll(s.queued, encode)
            && forall k | 0 <= k < |kinds| :: Times(s.queued, k) == 1
  {
    steps := Serve(kinds, encode);
    RunMore(Start(true), steps, ReadEnd, encode);
    steps := steps + [ReadEnd];
    RunMore(Start(true), steps, LeaveLoop, encode);
    steps := steps + [LeaveLoop];
    RunMore(Start(true), steps, Finish, encode);
    steps := steps + [Finish];
    RunCarried(true, steps, encode);
    var s := Run(Start(true), steps, encode).value;
    assert s.written + [] == s.written;
    forall k | 0 <= k < |kinds| ensures Times(s.queued, k) == 1 {
      assert IsServed(kinds[k]);
      OneResponseEach(true, steps, encode, k);
    }
  }

  // ----- The accept loop -----

  /** What the accept loop is told. */
  datatype Ctl = Pause | Resume

  /** The loop that registers clients: what it was told, how much of it it has taken, and who is registered. */
  datatype Acceptor = Acceptor(told: seq<Ctl>, taken: nat, paused: bool, registered: set<nat>)

  datatype AcceptStep = Accept(client: nat) | Take | Tell(ctl: Ctl) | Drop(client: nat)

  /** A client is taken only while not paused, and registered as it is. */
  function AcceptNext(a: Acceptor, step: AcceptStep): Option<Acceptor> {
    match step
    case Accept(client) => if a.paused then None else Some(a.(registered := a.registered + {client}))
    case Take =>
      if a.taken >= |a.told| then None else Some(a.(taken := a.taken + 1, paused := a.told[a.taken] == Pause))
    case Tell(ctl) => Some(a.(told := a.told + [ctl]))
    case Drop(client) => Some(a.(registered := a.registered - {client}))
  }

  function AcceptRun(a: Acceptor, steps: seq<AcceptStep>): Option<Acceptor> {
    if steps == [] then Some(a)
    else
      var before := AcceptRun(a, steps[..|steps| - 1]);
      if before.None? then None else AcceptNext(before.value, steps[|steps| - 1])
  }

  /** The loop is paused as the last it took says. */
  predicate PausedAsTold(a: Acceptor) {
    a.taken <= |a.told| && (a.paused <==> a.taken > 0 && a.told[a.taken - 1] == Pause)
  }

  predicate IsThaw(step: AcceptStep) { step == Tell(Resume) }

  /** The pause is taken, and nothing was told after it but pauses. */
  predicate PauseTaken(a: Acceptor, at: nat) {
    PausedAsTold(a) && at < a.taken && forall k | at <= k < |a.told| :: a.told[k] == Pause
  }

  /** A client can register exactly while the last the loop was told, of what it has taken, is no pause. */
  lemma RegistersAsTold(a: Acceptor, client: nat)
    requires PausedAsTold(a)
    ensures AcceptNext(a, Accept(client)).Some? <==> a.taken == 0 || a.told[a.taken - 1] == Resume
    ensures AcceptNext(a, Accept(client)).Some? ==> AcceptNext(a, Accept(client)).value.registered == a.registered + {client}
  {
  }

  /** From an acknowledged pause until a thaw is sent, whatever else happens, no connection registers. */
  lemma {:induction false} NoneRegisters(a: Acceptor, steps: seq<AcceptStep>, at: nat)
    requires PauseTaken(a, at) && AcceptRun(a, steps).Some?
    requires forall i | 0 <= i < |steps| :: !IsThaw(steps[i])
    ensures AcceptRun(a, steps).value.registered <= a.registered && PauseTaken(AcceptRun(a, steps).value, at)
    decreases |steps|
  {
    if steps != [] {
      var (init, step) := (steps[..|steps| - 1], steps[|steps| - 1]);
      assert !IsThaw(step);
      NoneRegisters(a, init, at);
      assert PauseTaken(AcceptRun(a, init).value, at);
    }
  }

  /** Every run keeps the loop paused as told. */
  lemma {:induction false} RunPausedAsTold(steps: seq<AcceptStep>)
    requires AcceptRun(Acceptor([], 0, false, {}), steps).Some?
    ensures PausedAsTold(AcceptRun(Acceptor([], 0, false, {}), steps).value)
    decreases |steps|
  {
    if steps != [] {
      RunPausedAsTold(steps[..|steps| - 1]);
    }
  }
}
