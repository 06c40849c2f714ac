/**
 * The request/response correlation of the streamable HTTP transport: `handlePost`, `Write`
 * and `Read` as goroutines that interleave at their lock regions and channel operations.
 */
module StreamableHttp {
  import opened Wrappers
  import opened JsonRpcId

  const INCOMING_CAPACITY: nat := 64

  // A request or a reply: its id, and the POST whose request it is or answers. The origin is
  // what the proofs follow; the code only sees the id, and goes by its string form.
  datatype Tagged = Tagged(id: Id, origin: nat)

  // What travels to the server: a request, or a notification or response of the client.
  datatype Message = Request(tagged: Tagged) | Other

  // The state that all goroutines share. The POST handler `h` owns the response channel `h`,
  // of capacity one.
  datatype Transport = Transport(
    pending: map<string, nat>,
    incoming: seq<Message>,
    channels: map<nat, seq<Tagged>>,
    closed: bool)
  {
    function Open(ch: nat): Transport {
      this.(channels := channels[ch := []])
    }

    function Register(key: string, ch: nat): Transport {
      this.(pending := pending[key := ch])
    }

    function Unregister(key: string): Transport {
      this.(pending := pending - {key})
    }

    function Accept(m: Message): Transport {
      this.(incoming := incoming + [m])
    }

    function Next(): Transport
      requires |incoming| > 0
    {
      this.(incoming := incoming[1..])
    }

    function Put(ch: nat, m: Tagged): Transport
      requires ch in channels
    {
      this.(channels := channels[ch := channels[ch] + [m]])
    }

    function Take(ch: nat): Transport
      requires ch in channels && |channels[ch]| > 0
    {
      this.(channels := channels[ch := channels[ch][1..]])
    }
  }

  const EMPTY: Transport := Transport(map[], [], map[], false)

  /** The transport as an object; every method is one lock region or one channel operation. */
  class StreamableHttp {
    var pending: map<string, nat>
    var incoming: seq<Message>
    var channels: map<nat, seq<Tagged>>
    var closed: bool

    ghost function State(): Transport
      reads this
    {
      Transport(pending, incoming, channels, closed)
    }

    constructor ()
      ensures State() == EMPTY
    {
      pending, incoming, channels, closed := map[], [], map[], false;
    }

    method MakeChannel(ch: nat)
      requires ch !in channels
      modifies this
      ensures State() == old(State()).Open(ch)
    {
      channels := channels[ch := []];
    }

    method RegisterPending(key: string, ch: nat)
      modifies this
      ensures State() == old(State()).Register(key, ch)
    {
      pending := pending[key := ch];
    }

    method DeletePending(key: string)
      modifies this
      ensures State() == old(State()).Unregister(key)
    {
      pending := pending - {key};
    }

    /** The lock region of `Write`: whoever finds a channel also removes it. */
    method TakePending(key: string) returns (ch: Option<nat>)
      modifies this
      ensures ch == if key in old(pending) then Some(old(pending)[key]) else None
      ensures State() == old(State()).Unregister(key)
    {
      if key in pending {
        ch := Some(pending[key]);
        pending := pending - {key};
      } else {
        ch := None;
        assert pending - {key} == pending;
      }
    }

    method SendIncoming(m: Message)
      requires |incoming| < INCOMING_CAPACITY
      modifies this
      ensures State() == old(State()).Accept(m)
    {
      incoming := incoming + [m];
    }

    method ReceiveIncoming() returns (m: Message)
      requires |incoming| > 0
      modifies this
      ensures m == old(incoming)[0] && State() == old(State()).Next()
    {
      m := incoming[0];
      incoming := incoming[1..];
    }

    /** A send on a channel of capacity one; the precondition says that it does not block. */
    method SendReply(ch: nat, m: Tagged)
      requires ch in channels && channels[ch] == []
      modifies this
      ensures State() == old(State()).Put(ch, m)
    {
      channels := channels[ch := channels[ch] + [m]];
    }

    method ReceiveReply(ch: nat) returns (m: Tagged)
      requires ch in channels && |channels[ch]| > 0
      modifies this
      ensures m == old(channels)[ch][0] && State() == old(State()).Take(ch)
    {
      m := channels[ch][0];
      channels := channels[ch := channels[ch][1..]];
    }

    method Close()
      modifies this
      ensures State() == old(State()).(closed := true)
    {
      if !closed {
        closed := true;
      }
    }
  }

  // ---------- the goroutines ----------

  // Where a POST handler stands. `Leaving` has seen its client disconnect but has not yet
  // taken the lock to remove its entry.
  datatype Phase = Posted | Registered | Forwarded | Leaving | Gone | Answered(reply: Tagged)

  datatype Handler = Handler(id: Id, phase: Phase)

  // Where a call of `Write` stands: before its lock region, between it and the send, after.
  datatype Writer = Looking(msg: Tagged) | Sending(msg: Tagged, ch: nat) | Finished(msg: Tagged)

  // `read` collects the requests that the server has read, `written` the replies it has
  // begun to write, `found` the reply for which a `Write` has found each channel; `sent` counts
  // the sends.
  datatype State = State(
    t: Transport,
    handlers: map<nat, Handler>,
    writers: map<nat, Writer>,
    read: set<Tagged>,
    written: set<Tagged>,
    found: map<nat, Tagged>,
    sent: map<nat, nat>)

  const START: State := State(EMPTY, map[], map[], {}, {}, map[], map[])

  datatype Step =
    | Post(h: nat, id: Id)
    | Register(h: nat)
    | Forward(h: nat)
    | Disconnect(h: nat)
    | Unregister(h: nat)
    | Receive(h: nat)
    | PostOther
    | Read
    | StartWrite(w: nat, msg: Tagged)
    | Lookup(w: nat)
    | Send(w: nat)
    | Close

  ghost predicate InPhase(s: State, h: nat, phase: Phase) {
    h in s.handlers && s.handlers[h].phase == phase
  }

  ghost predicate Enabled(s: State, step: Step) {
    match step
    case Post(h, _) => h !in s.handlers
    case Register(h) => InPhase(s, h, Posted)
    case Forward(h) => InPhase(s, h, Registered) && |s.t.incoming| < INCOMING_CAPACITY
    case Disconnect(h) => InPhase(s, h, Registered) || InPhase(s, h, Forwarded)
    case Unregister(h) => InPhase(s, h, Leaving)
    case Receive(h) => InPhase(s, h, Forwarded) && h in s.t.channels && |s.t.channels[h]| > 0
    case PostOther => |s.t.incoming| < INCOMING_CAPACITY
    case Read => |s.t.incoming| > 0
    case StartWrite(w, _) => w !in s.writers
    case Lookup(w) => w in s.writers && s.writers[w].Looking?
    case Send(w) =>
      w in s.writers && s.writers[w].Sending? && s.writers[w].ch in s.t.channels && s.t.channels[s.writers[w].ch] == []
    case Close => true
  }

  ghost function SetPhase(s: State, h: nat, phase: Phase): State
    requires h in s.handlers
  {
    s.(handlers := s.handlers[h := s.handlers[h].(phase := phase)])
  }

  ghost function Apply(s: State, step: Step): State
    requires Enabled(s, step)
  {
    match step
    case Post(h, id) =>
      s.(t := s.t.Open(h), handlers := s.handlers[h := Handler(id, Posted)], sent := s.sent[h := 0])
    case Register(h) => SetPhase(s, h, Registered).(t := s.t.Register(Form(s.handlers[h].id), h))
    case Forward(h) => SetPhase(s, h, Forwarded).(t := s.t.Accept(Request(Tagged(s.handlers[h].id, h))))
    case Disconnect(h) => SetPhase(s, h, Leaving)
    case Unregister(h) => SetPhase(s, h, Gone).(t := s.t.Unregister(Form(s.handlers[h].id)))
    case Receive(h) => SetPhase(s, h, Answered(s.t.channels[h][0])).(t := s.t.Take(h))
    case PostOther => s.(t := s.t.Accept(Other))
    case Read =>
      var m := s.t.incoming[0];
      s.(t := s.t.Next(), read := if m.Request? then s.read + {m.tagged} else s.read)
    case StartWrite(w, msg) => s.(writers := s.writers[w := Looking(msg)], written := s.written + {msg})
    case Lookup(w) =>
      var msg := s.writers[w].msg;
      var key := Form(msg.id);
      if key in s.t.pending then
        var ch := s.t.pending[key];
        s.(t := s.t.Unregister(key), writers := s.writers[w := Sending(msg, ch)], found := s.found[ch := msg])
      else s.(writers := s.writers[w := Finished(msg)])
    case Send(w) =>
      var (msg, ch) := (s.writers[w].msg, s.writers[w].ch);
      var n := if ch in s.sent then s.sent[ch] else 0;
      s.(t := s.t.Put(ch, msg), writers := s.writers[w := Finished(msg)], sent := s.sent[ch := n + 1])
    case Close => s.(t := s.t.(closed := true))
  }

  /** The state after the steps of a run; none if some step could not be taken. */
  ghost function Run(steps: seq<Step>): Option<State> {
    if steps == [] then Some(START)
    else
      match Run(steps[..|steps| - 1])
      case None => None
      case Some(s) => if Enabled(s, steps[|steps| - 1]) then Some(Apply(s, steps[|steps| - 1])) else None
  }

  // ---------- what every interleaving keeps ----------

  /** The key under which the handler registers. */
  ghost function KeyOf(s: State, h: nat): string
    requires h in s.handlers
  {
    Form(s.handlers[h].id)
  }

  ghost predicate Active(s: State, h: nat) {
    InPhase(s, h, Registered) || InPhase(s, h, Forwarded) || InPhase(s, h, Leaving)
  }

  /** An entry of the map belongs to an active handler whose channel nobody has found yet. */
  ghost predicate PendingOk(s: State, k: string) {
    k in s.t.pending ==>
      var h := s.t.pending[k];
      Active(s, h) && KeyOf(s, h) == k && h !in s.found
  }

  ghost predicate HoldsChannel(s: State, w: nat, ch: nat) {
    w in s.writers && s.writers[w].Sending? && s.writers[w].ch == ch
  }

  /** A writer about to send found its channel; nobody has sent to that channel. */
  ghost predicate WriterOk(s: State, w: nat) {
    w in s.writers ==>
      && s.writers[w].msg in s.written
      && (s.writers[w].Sending? ==>
            var ch := s.writers[w].ch;
            && ch in s.found && ch in s.handlers && ch in s.sent && s.sent[ch] == 0
            && s.found[ch] == s.writers[w].msg)
  }

  ghost predicate Exclusive(s: State, v: nat, w: nat) {
    v in s.writers && s.writers[v].Sending? && HoldsChannel(s, w, s.writers[v].ch) ==> v == w
  }

  /** A channel that was found was sent to, or a writer is about to. */
  ghost predicate TakenOk(s: State, h: nat) {
    h in s.found ==> (h in s.sent && s.sent[h] == 1) || exists w :: HoldsChannel(s, w, h)
  }

  /**
   * A channel is sent to at most once, only after it was found, with the reply that found it,
   * and keeps that until it is received.
   */
  ghost predicate HandlerOk(s: State, h: nat) {
    && (h in s.handlers <==> h in s.t.channels) && (h in s.handlers <==> h in s.sent)
    && (h in s.found ==> h in s.handlers)
    && (h in s.handlers ==>
          var phase := s.handlers[h].phase;
          && s.sent[h] <= 1
          && |s.t.channels[h]| == (if phase.Answered? then 0 else s.sent[h])
          && (s.sent[h] == 1 ==> h in s.found)
          && (h in s.found ==> phase != Posted)
          && (s.t.channels[h] != [] ==> h in s.found && s.t.channels[h][0] == s.found[h])
          && (phase.Answered? ==> s.sent[h] == 1 && phase.reply == s.found[h])
          && (h in s.found ==> Form(s.found[h].id) == KeyOf(s, h) && s.found[h] in s.written))
  }

  ghost predicate FromHandler(s: State, m: Tagged) {
    m.origin in s.handlers && s.handlers[m.origin].id == m.id
  }

  /** A request that is on its way or was read belongs to a handler that registered. */
  ghost predicate RequestOk(s: State, m: Tagged) {
    Request(m) in s.t.incoming || m in s.read ==> FromHandler(s, m) && s.handlers[m.origin].phase != Posted
  }

  ghost predicate Inv(s: State) {
    && (forall k :: PendingOk(s, k))
    && (forall w :: WriterOk(s, w))
    && (forall v, w :: Exclusive(s, v, w))
    && (forall h :: HandlerOk(s, h))
    && (forall h :: TakenOk(s, h))
    && (forall m :: RequestOk(s, m))
  }

  lemma PendingKept(s: State, step: Step, k: string)
    requires Inv(s) && Enabled(s, step)
    ensures PendingOk(Apply(s, step), k)
  {
    hide Form;
    assert PendingOk(s, k);
    if k in s.t.pending { assert HandlerOk(s, s.t.pending[k]); }
    match step
    case Post(h, id) =>
    case Register(h) => assert HandlerOk(s, h);
    case Forward(h) =>
    case Disconnect(h) =>
    case Unregister(h) =>
    case Receive(h) => assert HandlerOk(s, h);
    case PostOther =>
    case Read =>
    case StartWrite(w, msg) =>
    case Lookup(w) => assert PendingOk(s, Form(s.writers[w].msg.id));
    case Send(w) =>
    case Close =>
  }

  lemma WritersKept(s: State, step: Step, v: nat)
    requires Inv(s) && Enabled(s, step)
    ensures WriterOk(Apply(s, step), v)
  {
    hide Form;
    assert WriterOk(s, v);
    match step
    case Post(h, id) =>
    case Register(h) =>
    case Forward(h) =>
    case Disconnect(h) =>
    case Unregister(h) =>
    case Receive(h) =>
    case PostOther =>
    case Read =>
    case StartWrite(w, msg) =>
    case Lookup(w) =>
      var key := Form(s.writers[w].msg.id);
      assert PendingOk(s, key);
      if key in s.t.pending { assert HandlerOk(s, s.t.pending[key]); }
    case Send(w) => assert Exclusive(s, v, w) && WriterOk(s, w);
    case Close =>
  }

  lemma ExclusiveKept(s: State, step: Step, v: nat, u: nat)
    requires Inv(s) && Enabled(s, step)
    ensures Exclusive(Apply(s, step), v, u)
  {
    hide Form;
    assert Exclusive(s, v, u) && WriterOk(s, v) && WriterOk(s, u);
    if step.Lookup? { assert PendingOk(s, Form(s.writers[step.w].msg.id)); }
  }

  lemma HandlersKept(s: State, step: Step, h: nat)
    requires Inv(s) && Enabled(s, step)
    ensures HandlerOk(Apply(s, step), h)
  {
    hide Form;
    assert HandlerOk(s, h);
    if step.Lookup? {
      assert PendingOk(s, Form(s.writers[step.w].msg.id)) && WriterOk(s, step.w);
    } else if step.Send? {
      assert WriterOk(s, step.w);
    }
  }

  lemma TakenKept(s: State, step: Step, h: nat)
    requires Inv(s) && Enabled(s, step)
    ensures TakenOk(Apply(s, step), h)
  {
    hide Form;
    var s' := Apply(s, step);
    assert TakenOk(s, h) && HandlerOk(s, h);
    if h in s.found && s.sent[h] != 1 {
      var w :| HoldsChannel(s, w, h);
      assert WriterOk(s, w);
      assert HoldsChannel(s', w, h) || step == Send(w);
    } else if h in s'.found && h !in s.found {
      assert HoldsChannel(s', step.w, h);
    } else if h in s.found && step.Send? {
      assert WriterOk(s, step.w);
    }
  }

  lemma RequestsKept(s: State, step: Step, m: Tagged)
    requires Inv(s) && Enabled(s, step)
    ensures RequestOk(Apply(s, step), m)
  {
    hide Form;
    assert RequestOk(s, m);
  }

  lemma StepKeepsInv(s: State, step: Step)
    requires Inv(s) && Enabled(s, step)
    ensures Inv(Apply(s, step))
  {
    hide Enabled, PendingOk, WriterOk, Exclusive, HandlerOk, TakenOk, RequestOk;
    var s' := Apply(s, step);
    forall k ensures PendingOk(s', k) { PendingKept(s, step, k); }
    forall w ensures WriterOk(s', w) { WritersKept(s, step, w); }
    forall v, w ensures Exclusive(s', v, w) { ExclusiveKept(s, step, v, w); }
    forall h ensures HandlerOk(s', h) { HandlersKept(s, step, h); }
    forall h ensures TakenOk(s', h) { TakenKept(s, step, h); }
    forall m ensures RequestOk(s', m) { RequestsKept(s, step, m); }
  }

  lemma {:induction false} RunKeepsInv(steps: seq<Step>)
    requires Run(steps).Some?
    ensures Inv(Run(steps).value)
    decreases |steps|
  {
    if steps != [] {
      var before := steps[..|steps| - 1];
      RunKeepsInv(before);
      var s, step := Run(before).value, steps[|steps| - 1];
      StepKeepsInv(s, step);
    }
  }

  // ---------- results for every interleaving, repeated ids included ----------

  /** The send in `Write` never blocks, and no response channel is sent to twice. */
  lemma SendNeverBlocks(steps: seq<Step>)
    requires Run(steps).Some?
    ensures var s := Run(steps).value;
            && (forall w :: w in s.writers && s.writers[w].Sending? ==> Enabled(s, Send(w)))
            && (forall h :: h in s.handlers ==> h in s.sent && s.sent[h] <= 1)
  {
    hide Form;
    var s := Run(steps).value;
    RunKeepsInv(steps);
    forall w | w in s.writers && s.writers[w].Sending?
      ensures Enabled(s, Send(w))
    {
      assert WriterOk(s, w) && HandlerOk(s, s.writers[w].ch);
    }
    forall h | h in s.handlers
      ensures h in s.sent && s.sent[h] <= 1
    {
      assert HandlerOk(s, h);
    }
  }

  /** Once no handler is active the map is empty. */
  lemma PendingDrains(steps: seq<Step>)
    requires Run(steps).Some?
    requires forall h :: !Active(Run(steps).value, h)
    ensures Run(steps).value.t.pending == map[]
  {
    var s := Run(steps).value;
    RunKeepsInv(steps);
    forall k
      ensures k !in s.t.pending
    {
      assert PendingOk(s, k);
    }
  }

  // ---------- the incoming queue and the way out, ids repeated or not ----------

  /** What the goroutines have put into the queue, in order. */
  ghost function Accepted(steps: seq<Step>): seq<Message>
    requires Run(steps).Some?
  {
    if steps == [] then []
    else
      var before := steps[..|steps| - 1];
      Accepted(before) +
      match steps[|steps| - 1]
      case Forward(h) => [Request(Tagged(Run(before).value.handlers[h].id, h))]
      case PostOther => [Other]
      case _ => []
  }

  /** What the server has read, in order. */
  ghost function Delivered(steps: seq<Step>): seq<Message>
    requires Run(steps).Some?
  {
    if steps == [] then []
    else
      var before := steps[..|steps| - 1];
      Delivered(before) + (if steps[|steps| - 1].Read? then [Run(before).value.t.incoming[0]] else [])
  }

  lemma QueueMoves(s: State, step: Step)
    requires Enabled(s, step) && |s.t.incoming| <= INCOMING_CAPACITY
    ensures var s' := Apply(s, step);
            && |s'.t.incoming| <= INCOMING_CAPACITY
            && match step
               case Forward(h) => s'.t.incoming == s.t.incoming + [Request(Tagged(s.handlers[h].id, h))]
               case PostOther => s'.t.incoming == s.t.incoming + [Other]
               case Read => s.t.incoming == [s.t.incoming[0]] + s'.t.incoming
               case _ => s'.t.incoming == s.t.incoming
  {
    hide Form;
  }

  /** Every message put into the queue is read once and in order, or still in it; the queue holds 64 at most. */
  lemma {:induction false} ReadInOrder(steps: seq<Step>)
    requires Run(steps).Some?
    ensures Accepted(steps) == Delivered(steps) + Run(steps).value.t.incoming
    ensures |Run(steps).value.t.incoming| <= 64
    decreases |steps|
  {
    hide Enabled, Apply;
    if steps == [] {
      NothingQueued();
    } else {
      var before := steps[..|steps| - 1];
      ReadInOrder(before);
      QueueMoves(Run(before).value, steps[|steps| - 1]);
    }
  }

  lemma NothingQueued()
    ensures START.t.incoming == []
  {
  }

  lemma ReadMoves(s: State, step: Step)
    requires Enabled(s, step)
    ensures var s' := Apply(s, step);
            && s'.read == s.read + (if step.Read? && s.t.incoming[0].Request? then {s.t.incoming[0].tagged} else {})
            && s'.t.closed == (s.t.closed || step == Close)
  {
    hide Form;
  }

  /** The server knows exactly the requests it was delivered, and the transport is closed exactly after a Close. */
  lemma {:induction false} ReadsDelivered(steps: seq<Step>)
    requires Run(steps).Some?
    ensures forall m :: m in Run(steps).value.read <==> Request(m) in Delivered(steps)
    ensures Run(steps).value.t.closed <==> Close in steps
    decreases |steps|
  {
    hide Enabled, Apply;
    if steps == [] {
      NothingRead();
    } else {
      var before, step := steps[..|steps| - 1], steps[|steps| - 1];
      ReadsDelivered(before);
      ReadMoves(Run(before).value, step);
      assert steps == before + [step];
    }
  }

  lemma NothingRead()
    ensures START.read == {} && !START.t.closed
  {
  }

  /** A handler that has not finished can always go on or give up, and a writer can always go on. */
  lemma NeverStuck(steps: seq<Step>, h: nat, w: nat)
    requires Run(steps).Some?
    ensures var s := Run(steps).value;
            && (h in s.handlers ==>
                  match s.handlers[h].phase
                  case Posted => Enabled(s, Register(h))
                  case Registered =>
                    Enabled(s, Disconnect(h)) && (|s.t.incoming| < INCOMING_CAPACITY ==> Enabled(s, Forward(h)))
                  case Forwarded =>
                    Enabled(s, Disconnect(h)) && (h in s.sent && s.sent[h] == 1 ==> Enabled(s, Receive(h)))
                  case Leaving => Enabled(s, Unregister(h))
                  case Gone => true
                  case Answered(_) => true)
            && (w in s.writers ==> s.writers[w].Finished? || Enabled(s, Lookup(w)) || Enabled(s, Send(w)))
  {
    hide Form;
    var s := Run(steps).value;
    RunKeepsInv(steps);
    assert HandlerOk(s, h) && WriterOk(s, w);
    if w in s.writers && s.writers[w].Sending? { assert HandlerOk(s, s.writers[w].ch); }
  }

  // ---------- results for a handler whose key no other handler has ----------

  /** No other handler, past or present, has the key of `h`. */
  ghost predicate OwnKey(s: State, h: nat) {
    forall g :: g in s.handlers && h in s.handlers && KeyOf(s, g) == KeyOf(s, h) ==> g == h
  }

  /** Only replies to requests that were read are written. */
  ghost predicate OnlyReplies(s: State) {
    s.written <= s.read
  }

  /** A reply that `h` has received is the one to its own request. */
  ghost predicate GotOwn(s: State, h: nat) {
    h in s.handlers && s.handlers[h].phase.Answered? ==> s.handlers[h].phase.reply == Tagged(s.handlers[h].id, h)
  }

  lemma OwnReply(steps: seq<Step>, h: nat)
    requires Run(steps).Some? && OwnKey(Run(steps).value, h) && OnlyReplies(Run(steps).value)
    ensures GotOwn(Run(steps).value, h)
  {
    hide Form;
    var s := Run(steps).value;
    RunKeepsInv(steps);
    assert HandlerOk(s, h);
    if h in s.handlers && s.handlers[h].phase.Answered? {
      assert RequestOk(s, s.handlers[h].phase.reply);
    }
  }

  ghost predicate Listed(s: State, h: nat) {
    Active(s, h) && h !in s.found ==> KeyOf(s, h) in s.t.pending && s.t.pending[KeyOf(s, h)] == h
  }

  lemma StepKeepsListed(s: State, step: Step, h: nat)
    requires Inv(s) && Enabled(s, step) && OwnKey(Apply(s, step), h) && Listed(s, h)
    ensures Listed(Apply(s, step), h)
  {
    hide Form;
    var s' := Apply(s, step);
    match step
    case Post(g, id) =>
    case Register(g) => assert h in s.handlers && g != h ==> KeyOf(s', g) != KeyOf(s', h);
    case Forward(g) =>
    case Disconnect(g) =>
    case Unregister(g) => assert h in s.handlers && g != h ==> KeyOf(s', g) != KeyOf(s', h);
    case Receive(g) =>
    case PostOther =>
    case Read =>
    case StartWrite(w, msg) =>
    case Lookup(w) =>
    case Send(w) =>
    case Close =>
  }

  lemma OwnKeyBefore(s: State, step: Step, h: nat)
    requires Enabled(s, step) && OwnKey(Apply(s, step), h)
    ensures OwnKey(s, h)
  {
    hide Form;
    var s' := Apply(s, step);
    forall g | g in s.handlers && h in s.handlers && KeyOf(s, g) == KeyOf(s, h)
      ensures g == h
    {
      assert s'.handlers[g].id == s.handlers[g].id && s'.handlers[h].id == s.handlers[h].id;
    }
  }

  lemma {:induction false} RunKeepsListed(steps: seq<Step>, h: nat)
    requires Run(steps).Some? && OwnKey(Run(steps).value, h)
    ensures Listed(Run(steps).value, h)
    decreases |steps|
  {
    hide Enabled, Inv, OwnKey, Form;
    if steps != [] {
      var before := steps[..|steps| - 1];
      var s, step := Run(before).value, steps[|steps| - 1];
      OwnKeyBefore(s, step, h);
      RunKeepsListed(before, h);
      RunKeepsInv(before);
      StepKeepsListed(s, step, h);
    }
  }

  /** The map lists `h` exactly while it is registered, has not left and its reply has not come. */
  ghost predicate ListedExactly(s: State, h: nat) {
    forall k :: k in s.t.pending && s.t.pending[k] == h <==> Active(s, h) && KeyOf(s, h) == k && h !in s.found
  }

  lemma PendingExact(steps: seq<Step>, h: nat)
    requires Run(steps).Some? && OwnKey(Run(steps).value, h)
    ensures ListedExactly(Run(steps).value, h)
  {
    hide Form;
    var s := Run(steps).value;
    RunKeepsInv(steps);
    RunKeepsListed(steps, h);
    forall k
      ensures k in s.t.pending && s.t.pending[k] == h <==> Active(s, h) && KeyOf(s, h) == k && h !in s.found
    {
      assert PendingOk(s, k);
    }
  }

  /** A reply to `h` finds no channel only when one was found before or the client of `h` has gone. */
  ghost predicate NotStarved(s: State, h: nat) {
    h in s.handlers && Tagged(s.handlers[h].id, h) in s.read && KeyOf(s, h) !in s.t.pending ==>
      h in s.found || InPhase(s, h, Gone)
  }

  lemma DroppedReply(steps: seq<Step>, h: nat)
    requires Run(steps).Some? && OwnKey(Run(steps).value, h)
    ensures NotStarved(Run(steps).value, h)
  {
    hide Form;
    var s := Run(steps).value;
    RunKeepsInv(steps);
    RunKeepsListed(steps, h);
    assert HandlerOk(s, h);
    if h in s.handlers { assert RequestOk(s, Tagged(s.handlers[h].id, h)); }
  }

  // ---------- no reply is lost ----------

  /** At every moment of the run, only requests that were read before are replied to. */
  ghost predicate RepliesFollow(steps: seq<Step>) {
    forall n :: 0 <= n <= |steps| ==> Run(steps[..n]).Some? && OnlyReplies(Run(steps[..n]).value)
  }

  ghost predicate Carries(s: State, w: nat, m: Tagged) {
    w in s.writers && s.writers[w] == Looking(m)
  }

  /** A reply that was written is with a `Write` call, or has found its channel, or its client has gone. */
  ghost predicate Tracked(s: State, h: nat) {
    h in s.handlers && Tagged(s.handlers[h].id, h) in s.written ==>
      (exists w :: Carries(s, w, Tagged(s.handlers[h].id, h))) || h in s.found || InPhase(s, h, Gone)
  }

  lemma StepKeepsTracked(s: State, step: Step, h: nat)
    requires Inv(s) && Enabled(s, step) && OwnKey(s, h) && Listed(s, h) && OnlyReplies(s) && Tracked(s, h)
    requires OnlyReplies(Apply(s, step))
    ensures Tracked(Apply(s, step), h)
  {
    hide Form;
    var s' := Apply(s, step);
    if h in s.handlers {
      var m := Tagged(s.handlers[h].id, h);
      if m in s'.written && m !in s.written {
        assert Carries(s', step.w, m);
      } else if m in s.written && h !in s.found && !InPhase(s, h, Gone) {
        var w :| Carries(s, w, m);
        if step == Lookup(w) {
          assert RequestOk(s, m) && HandlerOk(s, h) && PendingOk(s, KeyOf(s, h));
        } else {
          assert Carries(s', w, m);
        }
      }
    } else if h in s'.handlers {
      var m := Tagged(s'.handlers[h].id, h);
      assert RequestOk(s, m);
    }
  }

  lemma {:induction false} RunKeepsTracked(steps: seq<Step>, h: nat)
    requires RepliesFollow(steps) && Run(steps).Some? && OwnKey(Run(steps).value, h)
    ensures Tracked(Run(steps).value, h)
    decreases |steps|
  {
    hide Enabled, Inv, OwnKey, Form, OnlyReplies, Listed;
    if steps == [] {
      assert Tracked(START, h);
    } else {
      var before := steps[..|steps| - 1];
      var s, step := Run(before).value, steps[|steps| - 1];
      FollowsBefore(steps);
      OwnKeyBefore(s, step, h);
      RunKeepsTracked(before, h);
      RunKeepsInv(before);
      RunKeepsListed(before, h);
      StepKeepsTracked(s, step, h);
    }
  }

  lemma FollowsBefore(steps: seq<Step>)
    requires RepliesFollow(steps) && steps != []
    ensures var before := steps[..|steps| - 1];
            && RepliesFollow(before) && Run(before).Some? && OnlyReplies(Run(before).value)
            && Run(steps).Some? && OnlyReplies(Run(steps).value)
  {
    hide Run, OnlyReplies;
    var before := steps[..|steps| - 1];
    forall n | 0 <= n <= |before|
      ensures Run(before[..n]).Some? && OnlyReplies(Run(before[..n]).value)
    {
      assert before[..n] == steps[..n];
    }
    assert steps[..|steps|] == steps;
  }

  /**
   * The reply to a handler that waits is never lost: once it was written, it is in the channel
   * of the handler, or with a `Write` call that is still looking for or about to send to it.
   */
  lemma NoReplyLost(steps: seq<Step>, h: nat)
    requires RepliesFollow(steps) && Run(steps).Some? && OwnKey(Run(steps).value, h)
    requires InPhase(Run(steps).value, h, Forwarded)
    requires Tagged(Run(steps).value.handlers[h].id, h) in Run(steps).value.written
    ensures var s := Run(steps).value;
            var m := Tagged(s.handlers[h].id, h);
            || (exists w :: Carries(s, w, m))
            || (exists w :: HoldsChannel(s, w, h) && s.writers[w].msg == m)
            || (h in s.t.channels && s.t.channels[h] == [m])
  {
    hide Form;
    var s := Run(steps).value;
    var m := Tagged(s.handlers[h].id, h);
    RunKeepsTracked(steps, h);
    RunKeepsInv(steps);
    assert steps[..|steps|] == steps;
    if !exists w :: Carries(s, w, m) {
      assert HandlerOk(s, h) && TakenOk(s, h);
      if s.sent[h] == 1 {
        assert RequestOk(s, s.t.channels[h][0]);
      } else {
        var w :| HoldsChannel(s, w, h);
        assert WriterOk(s, w) && RequestOk(s, s.writers[w].msg);
      }
    }
  }

  // ---------- ids used again, one after the other ----------

  /** No two calls of `Write` were given the same reply. */
  ghost predicate WrittenOnce(s: State) {
    forall v, w :: v in s.writers && w in s.writers && s.writers[v].msg == s.writers[w].msg ==> v == w
  }

  /** The reply that found a channel is with a writer that looks no more. */
  ghost predicate FoundOk(s: State, h: nat) {
    h in s.found ==>
      && (exists w :: w in s.writers && s.writers[w].msg == s.found[h])
      && (forall w :: w in s.writers && s.writers[w].msg == s.found[h] ==> !s.writers[w].Looking?)
  }

  /** No reply finds two channels. */
  ghost predicate FoundInjective(s: State) {
    forall g, h :: g in s.found && h in s.found && s.found[g] == s.found[h] ==> g == h
  }

  lemma WrittenOnceBefore(s: State, step: Step)
    requires Enabled(s, step) && WrittenOnce(Apply(s, step))
    ensures WrittenOnce(s)
  {
    var s' := Apply(s, step);
    forall v, w | v in s.writers && w in s.writers && s.writers[v].msg == s.writers[w].msg
      ensures v == w
    {
      assert s'.writers[v].msg == s.writers[v].msg && s'.writers[w].msg == s.writers[w].msg;
    }
  }

  lemma StepKeepsFound(s: State, step: Step, h: nat)
    requires Enabled(s, step) && WrittenOnce(Apply(s, step)) && FoundOk(s, h)
    ensures FoundOk(Apply(s, step), h)
  {
    hide Form;
    var s' := Apply(s, step);
    if h in s.found && s'.found[h] == s.found[h] {
      var v :| v in s.writers && s.writers[v].msg == s.found[h];
      assert v in s'.writers && s'.writers[v].msg == s'.found[h] && !s'.writers[v].Looking?;
    } else if h in s'.found {
      assert step.w in s'.writers && s'.writers[step.w].msg == s'.found[h] && !s'.writers[step.w].Looking?;
    }
  }

  lemma StepKeepsInjective(s: State, step: Step)
    requires Enabled(s, step) && FoundInjective(s) && forall h :: FoundOk(s, h)
    ensures FoundInjective(Apply(s, step))
  {
    hide Form;
    if step.Lookup? {
      var s' := Apply(s, step);
      forall g, h | g in s'.found && h in s'.found && s'.found[g] == s'.found[h]
        ensures g == h
      {
        assert FoundOk(s, g) && FoundOk(s, h);
      }
    }
  }

  lemma {:induction false} RunKeepsFound(steps: seq<Step>)
    requires Run(steps).Some? && WrittenOnce(Run(steps).value)
    ensures FoundInjective(Run(steps).value) && forall h :: FoundOk(Run(steps).value, h)
    decreases |steps|
  {
    hide Enabled, WrittenOnce, FoundOk, FoundInjective, Form;
    if steps == [] {
      NothingFound();
    } else {
      var before := steps[..|steps| - 1];
      var s, step := Run(before).value, steps[|steps| - 1];
      WrittenOnceBefore(s, step);
      RunKeepsFound(before);
      forall h ensures FoundOk(Apply(s, step), h) { StepKeepsFound(s, step, h); }
      StepKeepsInjective(s, step);
    }
  }

  lemma NothingFound()
    ensures FoundInjective(START) && forall h :: FoundOk(START, h)
  {
  }

  /** The handler has registered and no reply has come back from it yet, even if its client has gone. */
  ghost predicate Open(s: State, h: nat) {
    h in s.handlers && s.handlers[h].phase != Posted && !s.handlers[h].phase.Answered?
  }

  ghost predicate SameKey(s: State, g: nat, h: nat) {
    g in s.handlers && h in s.handlers && g != h && KeyOf(s, g) == KeyOf(s, h)
  }

  /** At no moment is another handler with the key of `h` open together with `h`. */
  ghost predicate TakesTurns(steps: seq<Step>, h: nat) {
    forall n :: 0 <= n <= |steps| ==> Run(steps[..n]).Some? && AloneOpen(Run(steps[..n]).value, h)
  }

  ghost predicate AloneOpen(s: State, h: nat) {
    forall g :: SameKey(s, g, h) ==> !(Open(s, g) && Open(s, h))
  }

  /** The reply to `g` has found a channel, and not that of `h`. */
  ghost predicate Spent(s: State, g: nat, h: nat) {
    exists f :: f in s.found && f != h && s.found[f].origin == g
  }

  /** What `h` was found for is its own reply; while it is open, those to others with its key are spent. */
  ghost predicate TurnOk(s: State, h: nat) {
    h in s.handlers ==>
      && (h in s.found ==> s.found[h] == Tagged(s.handlers[h].id, h))
      && (Open(s, h) ==> forall g :: SameKey(s, g, h) && s.handlers[g].phase != Posted ==> Spent(s, g, h))
  }

  /** The handlers other than `h` that registered its key. */
  ghost function Rivals(s: State, h: nat): set<nat> {
    set g | g in s.handlers && SameKey(s, g, h) && s.handlers[g].phase != Posted
  }

  ghost function Origins(s: State, rivals: set<nat>): set<nat> {
    set g | g in rivals && g in s.found :: s.found[g].origin
  }

  lemma {:induction false} OriginsCount(s: State, rivals: set<nat>)
    requires forall g :: g in rivals ==> g in s.found
    requires forall f, g :: f in rivals && g in rivals && s.found[f].origin == s.found[g].origin ==> f == g
    ensures |Origins(s, rivals)| == |rivals|
    decreases |rivals|
  {
    if rivals == {} {
      assert Origins(s, rivals) == {};
    } else {
      var g :| g in rivals;
      OriginsCount(s, rivals - {g});
      assert Origins(s, rivals) == Origins(s, rivals - {g}) + {s.found[g].origin};
    }
  }

  lemma FullSubset(a: set<nat>, b: set<nat>)
    requires a <= b && |a| == |b|
    ensures a == b
  {
    assert b == a + (b - a);
  }

  lemma FromRival(s: State, g: nat, h: nat)
    requires Inv(s) && OnlyReplies(s) && InPhase(s, h, Posted) && g in Rivals(s, h) && g in s.found
    ensures s.found[g].origin in Rivals(s, h) && s.found[g].id == s.handlers[s.found[g].origin].id
  {
    hide Form;
    assert HandlerOk(s, g) && RequestOk(s, s.found[g]);
  }

  /** When all rivals are answered before `h` registers, they used up the replies to all of them. */
  lemma RivalsSpent(s: State, h: nat, g: nat)
    requires Inv(s) && OnlyReplies(s) && FoundInjective(s) && InPhase(s, h, Posted) && g in Rivals(s, h)
    requires forall f :: f in Rivals(s, h) ==> s.handlers[f].phase.Answered?
    ensures Spent(s, g, h)
  {
    hide Form;
    var rivals := Rivals(s, h);
    forall f | f in rivals
      ensures f in s.found && f != h && s.found[f].origin in rivals && s.found[f].id == s.handlers[s.found[f].origin].id
    {
      assert HandlerOk(s, f);
      FromRival(s, f, h);
    }
    OriginsCount(s, rivals);
    FullSubset(Origins(s, rivals), rivals);
    assert g in Origins(s, rivals);
  }

  lemma RegisterKeepsTurn(s: State, h: nat)
    requires Inv(s) && Enabled(s, Register(h)) && OnlyReplies(s) && FoundInjective(s)
    requires AloneOpen(Apply(s, Register(h)), h)
    ensures TurnOk(Apply(s, Register(h)), h)
  {
    hide Form;
    var s' := Apply(s, Register(h));
    assert HandlerOk(s, h);
    forall f | f in Rivals(s, h)
      ensures s.handlers[f].phase.Answered?
    {
      assert SameKey(s', f, h) && Open(s', h);
    }
    forall g | SameKey(s', g, h) && s'.handlers[g].phase != Posted
      ensures Spent(s', g, h)
    {
      assert SameKey(s, g, h);
      RivalsSpent(s, h, g);
      var f :| f in s.found && f != h && s.found[f].origin == g;
      assert f in s'.found;
    }
  }

  /** No writer still looks with a reply that is spent. */
  lemma SpentIsWritten(s: State, w: nat, h: nat)
    requires Inv(s) && OnlyReplies(s) && (forall f :: FoundOk(s, f))
    requires w in s.writers && Spent(s, s.writers[w].msg.origin, h)
    ensures !s.writers[w].Looking?
  {
    hide Form;
    var msg := s.writers[w].msg;
    var f :| f in s.found && f != h && s.found[f].origin == msg.origin;
    assert WriterOk(s, w) && HandlerOk(s, f) && RequestOk(s, msg) && RequestOk(s, s.found[f]);
    assert FoundOk(s, f);
  }

  lemma LookupKeepsTurn(s: State, w: nat, h: nat)
    requires Inv(s) && Enabled(s, Lookup(w)) && OnlyReplies(s) && (forall f :: FoundOk(s, f)) && TurnOk(s, h)
    ensures TurnOk(Apply(s, Lookup(w)), h)
  {
    hide Form;
    var s', msg := Apply(s, Lookup(w)), s.writers[w].msg;
    var key := Form(msg.id);
    if h in s.handlers {
      assert PendingOk(s, key) && WriterOk(s, w) && RequestOk(s, msg);
      if key in s.t.pending && s.t.pending[key] == h && msg.origin != h {
        assert SameKey(s, msg.origin, h);
        SpentIsWritten(s, w, h);
        assert false;
      }
      forall g | SameKey(s', g, h) && s'.handlers[g].phase != Posted && Open(s', h)
        ensures Spent(s', g, h)
      {
        assert SameKey(s, g, h);
        var f :| f in s.found && f != h && s.found[f].origin == g;
        assert f in s'.found && s'.found[f] == s.found[f];
      }
    }
  }

  lemma StepKeepsTurn(s: State, step: Step, h: nat)
    requires Inv(s) && Enabled(s, step) && OnlyReplies(s) && FoundInjective(s) && (forall f :: FoundOk(s, f))
    requires AloneOpen(Apply(s, step), h) && TurnOk(s, h)
    ensures TurnOk(Apply(s, step), h)
  {
    hide Form;
    var s' := Apply(s, step);
    if step == Register(h) {
      RegisterKeepsTurn(s, h);
    } else if step.Lookup? {
      LookupKeepsTurn(s, step.w, h);
    } else if h in s.handlers {
      assert HandlerOk(s, h);
      forall g | SameKey(s', g, h) && s'.handlers[g].phase != Posted && Open(s', h)
        ensures Spent(s', g, h)
      {
        assert Open(s, h);
        assert SameKey(s, g, h) && s.handlers[g].phase != Posted;
        var f :| f in s.found && f != h && s.found[f].origin == g;
        assert f in s'.found && s'.found[f].origin == g;
      }
    } else if h in s'.handlers {
      assert HandlerOk(s, h);
    }
  }

  lemma {:induction false} RunKeepsTurn(steps: seq<Step>, h: nat)
    requires RepliesFollow(steps) && TakesTurns(steps, h) && Run(steps).Some? && WrittenOnce(Run(steps).value)
    ensures TurnOk(Run(steps).value, h)
    decreases |steps|
  {
    hide Enabled, Inv, AloneOpen, Form, OnlyReplies, WrittenOnce, FoundOk, FoundInjective;
    if steps == [] {
      assert TurnOk(START, h);
    } else {
      var before := steps[..|steps| - 1];
      var s, step := Run(before).value, steps[|steps| - 1];
      FollowsBefore(steps);
      TurnsBefore(steps, h);
      WrittenOnceBefore(s, step);
      RunKeepsTurn(before, h);
      RunKeepsInv(before);
      RunKeepsFound(before);
      StepKeepsTurn(s, step, h);
    }
  }

  lemma TurnsBefore(steps: seq<Step>, h: nat)
    requires TakesTurns(steps, h) && steps != []
    ensures var before := steps[..|steps| - 1];
            && TakesTurns(before, h) && Run(steps).Some? && AloneOpen(Run(steps).value, h)
  {
    hide Run, AloneOpen;
    var before := steps[..|steps| - 1];
    forall n | 0 <= n <= |before|
      ensures Run(before[..n]).Some? && AloneOpen(Run(before[..n]).value, h)
    {
      assert before[..n] == steps[..n];
    }
    assert steps[..|steps|] == steps;
  }

  /**
   * An id may be used again: if each other handler with the key of `h` was answered before `h`
   * registered, or registered after `h` was answered, and no reply is written twice, then `h`
   * gets its own reply. The others may overlap with each other.
   */
  lemma TurnsGetOwnReply(steps: seq<Step>, h: nat)
    requires RepliesFollow(steps) && TakesTurns(steps, h) && Run(steps).Some? && WrittenOnce(Run(steps).value)
    ensures GotOwn(Run(steps).value, h)
  {
    hide Form;
    RunKeepsTurn(steps, h);
    RunKeepsInv(steps);
    assert HandlerOk(Run(steps).value, h);
  }

  // ---------- and only for those ----------

  /** The handlers of the run are among those posting `ids`. */
  ghost predicate Posts(s: State, ids: map<nat, Id>) {
    forall g :: g in s.handlers ==> g in ids && ids[g] == s.handlers[g].id
  }

  /** No other POST uses the id of `h`, nor spells it as a string or as a number. */
  ghost predicate Alone(ids: map<nat, Id>, h: nat) {
    forall g :: g in ids && h in ids && Alike(ids[g], ids[h]) ==> g == h
  }

  lemma AloneOwnsKey(ids: map<nat, Id>, s: State, h: nat)
    requires Alone(ids, h) && Posts(s, ids)
    ensures OwnKey(s, h)
  {
    hide Form, Alike;
    forall g | g in s.handlers && h in s.handlers && KeyOf(s, g) == KeyOf(s, h)
      ensures g == h
    {
      FormsAgree(ids[g], ids[h]);
    }
  }

  lemma Extend(steps: seq<Step>, step: Step) returns (longer: seq<Step>)
    requires Run(steps).Some? && Enabled(Run(steps).value, step)
    ensures longer == steps + [step] && Run(longer) == Some(Apply(Run(steps).value, step))
  {
    longer := steps + [step];
    assert longer[..|longer| - 1] == steps;
  }

  ghost function OneRegistered(g: nat, a: Id): State {
    State(Transport(map[Form(a) := g], [], map[g := []], false), map[g := Handler(a, Registered)],
          map[], {}, {}, map[], map[g := 0])
  }

  /** Handler `g` has forwarded its request, the server has read it. */
  ghost function OneRead(g: nat, a: Id): State {
    State(Transport(map[Form(a) := g], [], map[g := []], false), map[g := Handler(a, Forwarded)],
          map[], {Tagged(a, g)}, {}, map[], map[g := 0])
  }

  /** Then handler `h`, with the same key, has registered. */
  ghost function TwoRegistered(g: nat, a: Id, h: nat, b: Id): State {
    State(Transport(map[Form(b) := h], [], map[g := [], h := []], false),
          map[g := Handler(a, Forwarded), h := Handler(b, Registered)],
          map[], {Tagged(a, g)}, {}, map[], map[g := 0, h := 0])
  }

  lemma FirstRegistered(g: nat, a: Id) returns (steps: seq<Step>)
    ensures Run(steps) == Some(OneRegistered(g, a))
  {
    assert Run([]) == Some(START);
    hide Run, Form;
    steps := Extend([], Post(g, a));
    steps := Extend(steps, Register(g));
    var s, e := Run(steps).value, OneRegistered(g, a);
    assert s.handlers == e.handlers && s.t.pending == e.t.pending && s.t.channels == e.t.channels && s.sent == e.sent;
  }

  lemma FirstRead(g: nat, a: Id) returns (steps: seq<Step>)
    ensures Run(steps) == Some(OneRead(g, a))
  {
    hide Run, Form;
    steps := FirstRegistered(g, a);
    steps := Extend(steps, Forward(g));
    steps := Extend(steps, Read);
    var s, e := Run(steps).value, OneRead(g, a);
    assert s.handlers == e.handlers && s.t.incoming == e.t.incoming && s.read == e.read;
  }

  lemma SecondRegistered(g: nat, a: Id, h: nat, b: Id) returns (steps: seq<Step>)
    requires g != h && Form(a) == Form(b)
    ensures Run(steps) == Some(TwoRegistered(g, a, h, b))
  {
    hide Run, Form;
    steps := FirstRead(g, a);
    steps := Extend(steps, Post(h, b));
    steps := Extend(steps, Register(h));
    var s, e := Run(steps).value, TwoRegistered(g, a, h, b);
    assert s.handlers == e.handlers && s.t.pending == e.t.pending && s.t.channels == e.t.channels && s.sent == e.sent;
  }

  /** Then `h` has forwarded its request, and `Write` has looked for the channel of `g` and found that of `h`. */
  ghost function WrongChannel(g: nat, a: Id, h: nat, b: Id): State {
    State(Transport(map[], [Request(Tagged(b, h))], map[g := [], h := []], false),
          map[g := Handler(a, Forwarded), h := Handler(b, Forwarded)],
          map[0 := Sending(Tagged(a, g), h)], {Tagged(a, g)}, {Tagged(a, g)}, map[h := Tagged(a, g)],
          map[g := 0, h := 0])
  }

  lemma FindsWrongChannel(g: nat, a: Id, h: nat, b: Id) returns (steps: seq<Step>)
    requires g != h && Form(a) == Form(b)
    ensures Run(steps) == Some(WrongChannel(g, a, h, b))
  {
    hide Run, Form;
    steps := SecondRegistered(g, a, h, b);
    steps := Extend(steps, Forward(h));
    steps := Extend(steps, StartWrite(0, Tagged(a, g)));
    steps := Extend(steps, Lookup(0));
    var s, e := Run(steps).value, WrongChannel(g, a, h, b);
    assert s.handlers == e.handlers && s.writers == e.writers && s.written == e.written && s.found == e.found;
    assert s.t.pending == e.t.pending && s.t.incoming == e.t.incoming;
  }

  /** Of any two POSTs with one key, the one can get the reply to the other. */
  lemma RepeatedIdMisroutes(g: nat, a: Id, h: nat, b: Id) returns (steps: seq<Step>)
    requires g != h && Alike(a, b)
    ensures Run(steps).Some? && OnlyReplies(Run(steps).value) && Posts(Run(steps).value, map[g := a, h := b])
    ensures WrittenOnce(Run(steps).value) && InPhase(Run(steps).value, h, Answered(Tagged(a, g)))
  {
    FormsAgree(a, b);
    hide Run, Form, Alike;
    steps := FindsWrongChannel(g, a, h, b);
    steps := Extend(steps, Send(0));
    steps := Extend(steps, Receive(h));
    var s, m := Run(steps).value, Tagged(a, g);
    assert s.handlers == map[g := Handler(a, Forwarded), h := Handler(b, Answered(m))] && s.written == s.read == {m};
    assert s.writers == map[0 := Finished(m)];
  }

  /** And when the one disconnects, the other, still waiting, has no entry left. */
  lemma RepeatedIdStarves(g: nat, a: Id, h: nat, b: Id) returns (steps: seq<Step>)
    requires g != h && Alike(a, b)
    ensures Run(steps).Some? && Posts(Run(steps).value, map[g := a, h := b])
    ensures InPhase(Run(steps).value, g, Forwarded) && g !in Run(steps).value.found
    ensures Tagged(a, g) in Run(steps).value.read && Form(a) !in Run(steps).value.t.pending
  {
    FormsAgree(a, b);
    hide Run, Form, Alike;
    steps := SecondRegistered(g, a, h, b);
    steps := Extend(steps, Disconnect(h));
    steps := Extend(steps, Unregister(h));
  }

  /** A handler is sure of its own reply exactly when no other POST uses its id or spells it. */
  lemma OwnReplyExactly(ids: map<nat, Id>, h: nat)
    requires h in ids
    ensures Alone(ids, h) <==>
            forall steps :: Run(steps).Some? && Posts(Run(steps).value, ids) && OnlyReplies(Run(steps).value) ==>
              GotOwn(Run(steps).value, h)
  {
    hide Run, Form, Alike, OwnKey;
    if Alone(ids, h) {
      forall steps | Run(steps).Some? && Posts(Run(steps).value, ids) && OnlyReplies(Run(steps).value)
        ensures GotOwn(Run(steps).value, h)
      {
        AloneOwnsKey(ids, Run(steps).value, h);
        OwnReply(steps, h);
      }
    } else {
      var g :| g in ids && Alike(ids[g], ids[h]) && g != h;
      var steps := RepeatedIdMisroutes(g, ids[g], h, ids[h]);
      assert !GotOwn(Run(steps).value, h);
    }
  }

  /** On the same condition the map lists the handler exactly while its reply is due. */
  lemma PendingExactly(ids: map<nat, Id>, h: nat)
    requires h in ids
    ensures Alone(ids, h) <==>
            forall steps :: Run(steps).Some? && Posts(Run(steps).value, ids) ==> ListedExactly(Run(steps).value, h)
  {
    hide Run, Form, Alike, OwnKey, ListedExactly;
    if Alone(ids, h) {
      forall steps | Run(steps).Some? && Posts(Run(steps).value, ids)
        ensures ListedExactly(Run(steps).value, h)
      {
        AloneOwnsKey(ids, Run(steps).value, h);
        PendingExact(steps, h);
      }
    } else {
      var g :| g in ids && Alike(ids[g], ids[h]) && g != h;
      AlikeSymmetric(ids[g], ids[h]);
      var steps := RepeatedIdStarves(h, ids[h], g, ids[g]);
      Unlisted(Run(steps).value, h);
    }
  }

  /** And on the same condition its reply never finds the entry gone while it waits. */
  lemma DroppedExactly(ids: map<nat, Id>, h: nat)
    requires h in ids
    ensures Alone(ids, h) <==>
            forall steps :: Run(steps).Some? && Posts(Run(steps).value, ids) ==> NotStarved(Run(steps).value, h)
  {
    hide Run, Form, Alike, OwnKey;
    if Alone(ids, h) {
      forall steps | Run(steps).Some? && Posts(Run(steps).value, ids)
        ensures NotStarved(Run(steps).value, h)
      {
        AloneOwnsKey(ids, Run(steps).value, h);
        DroppedReply(steps, h);
      }
    } else {
      var g :| g in ids && Alike(ids[g], ids[h]) && g != h;
      AlikeSymmetric(ids[g], ids[h]);
      var steps := RepeatedIdStarves(h, ids[h], g, ids[g]);
      assert !NotStarved(Run(steps).value, h);
    }
  }

  lemma AlikeSymmetric(a: Id, b: Id)
    ensures Alike(a, b) <==> Alike(b, a)
  {
  }

  lemma Unlisted(s: State, h: nat)
    requires InPhase(s, h, Forwarded) && h !in s.found && KeyOf(s, h) !in s.t.pending
    ensures !ListedExactly(s, h)
  {
  }
}
