/** `jsonrpc.Conn`: calls and the response reader as goroutines over the `pending` map. */
module JsonRpcConn {
  import opened Wrappers
  import opened Decimal
  import opened JsonRpcId

  const IDS: nat := 0x1_0000_0000_0000_0000

  /** The 64-bit counter after `n` increments, as a signed number. */
  function CounterAfter(n: nat): Int64 {
    (n + 0x8000_0000_0000_0000) % IDS - 0x8000_0000_0000_0000
  }

  function CallId(n: nat): Id {
    Num(CounterAfter(n))
  }

  /** The key under which the `n`-th call is pending. */
  function Key(n: nat): string {
    Form(CallId(n))
  }

  /** Keys repeat exactly when the counter has gone all the way round. */
  lemma KeyRepeats(m: nat, n: nat)
    ensures Key(m) == Key(n) <==> m % IDS == n % IDS
  {
    var half := 0x8000_0000_0000_0000;
    assert (m + half) % IDS == (n + half) % IDS <==> m % IDS == n % IDS;
    FormsAgree(CallId(m), CallId(n));
  }

  /** The ids are one, two and so on, until the counter wraps around to the smallest number. */
  lemma FirstIds(n: nat)
    ensures n <= MAX_INT ==> CallId(n) == Num(n)
    ensures n == MAX_INT + 1 ==> CallId(n) == Num(MIN_INT)
  {
  }

  lemma KeyInjective(m: nat, n: nat)
    requires Key(m) == Key(n) && m <= n < m + IDS
    ensures m == n
  {
    hide Key, Form;
    KeyRepeats(m, n);
    assert n == m + (n - m) && n - m < IDS;
  }

  // A response: its id, and what tells it from others.
  datatype Response = Response(id: Id, serial: nat)

  // What calls and the response reader share: how many ids were given out, and the map.
  datatype Table = Table(issued: nat, pending: map<string, nat>)
  {
    function Issue(): Table {
      this.(issued := issued + 1)
    }

    function Register(key: string, call: nat): Table {
      this.(pending := pending[key := call])
    }

    function Delete(key: string): Table {
      this.(pending := pending - {key})
    }
  }

  const EMPTY: Table := Table(0, map[])

  /** The connection as an object; every method is one atomic operation or lock region. */
  class Conn {
    var pending: map<string, nat>
    var nextId: int
    ghost var issued: nat

    ghost predicate Valid()
      reads this
    {
      nextId == CounterAfter(issued)
    }

    ghost function State(): Table
      reads this
    {
      Table(issued, pending)
    }

    constructor ()
      ensures Valid() && State() == EMPTY
    {
      pending, nextId, issued := map[], 0, 0;
    }

    /** The atomic counter, which wraps around like any 64-bit integer. */
    method NextID() returns (id: Id)
      requires Valid()
      modifies this
      ensures Valid() && State() == old(State()).Issue()
      ensures id == CallId(issued)
    {
      nextId := if nextId == MAX_INT then MIN_INT else nextId + 1;
      issued := issued + 1;
      id := Num(nextId);
    }

    method Register(key: string, call: nat)
      modifies this`pending
      ensures State() == old(State()).Register(key, call)
    {
      pending := pending[key := call];
    }

    method Delete(key: string)
      modifies this`pending
      ensures State() == old(State()).Delete(key)
    {
      pending := pending - {key};
    }

    /** The lock region of `handleResponse`. */
    method TakePending(response: Response) returns (call: Option<nat>)
      modifies this`pending
      ensures var key := Form(response.id);
              && call == (if key in old(pending) then Some(old(pending)[key]) else None)
              && State() == old(State()).Delete(key)
    {
      var key := Form(response.id);
      if key in pending {
        call := Some(pending[key]);
        pending := pending - {key};
      } else {
        call := None;
        assert pending - {key} == pending;
      }
    }
  }

  // ---------- the goroutines ----------

  // How a call ends. `NilReply` is what receiving from a closed, empty channel would give;
  // the code would then dereference nil.
  datatype Outcome = MarshalError | WriteError | ContextError | Reply(response: Response) | NilReply

  // `Numbered` has its id, `Registered` its entry in `pending`, `Waiting` has written its
  // request. `Failing` and `Canceled` have yet to remove their entry.
  datatype Phase = Numbered | Registered | Waiting | Failing | Canceled | Returned(outcome: Outcome)

  // The `n`-th call, where it stands, and its channel: content, closed or not, sends so far.
  datatype Call = Call(phase: Phase, buffer: seq<Response>, closed: bool, sends: nat, closes: nat)

  // The one goroutine that reads responses: between messages, or about to send to the channel
  // it found, or about to close it.
  datatype Reader = Idle | Sending(response: Response, call: nat) | Closing(call: nat)

  // Calls are numbered from one in the order in which they take their ids; `taken` collects
  // the calls whose channel the reader has found.
  datatype State = State(table: Table, calls: map<nat, Call>, reader: Reader, taken: set<nat>)

  const START: State := State(EMPTY, map[], Idle, {})

  datatype Step =
    | TakeId
    | FailMarshal(c: nat)
    | Register(c: nat)
    | WriteOk(c: nat)
    | WriteFail(c: nat)
    | Cancel(c: nat)
    | Remove(c: nat)
    | Receive(c: nat)
    | Lookup(response: Response)
    | Send
    | CloseChannel

  ghost predicate InPhase(s: State, c: nat, phase: Phase) {
    c in s.calls && s.calls[c].phase == phase
  }

  ghost predicate Enabled(s: State, step: Step) {
    match step
    case TakeId => true
    case FailMarshal(c) => InPhase(s, c, Numbered)
    case Register(c) => InPhase(s, c, Numbered)
    case WriteOk(c) => InPhase(s, c, Registered)
    case WriteFail(c) => InPhase(s, c, Registered)
    case Cancel(c) => InPhase(s, c, Waiting)
    case Remove(c) => InPhase(s, c, Failing) || InPhase(s, c, Canceled)
    case Receive(c) => InPhase(s, c, Waiting) && (s.calls[c].buffer != [] || s.calls[c].closed)
    case Lookup(_) => s.reader.Idle?
    case Send =>
      s.reader.Sending? && s.reader.call in s.calls &&
      s.calls[s.reader.call].buffer == [] && !s.calls[s.reader.call].closed
    case CloseChannel => s.reader.Closing? && s.reader.call in s.calls && !s.calls[s.reader.call].closed
  }

  ghost function SetPhase(s: State, c: nat, phase: Phase): State
    requires c in s.calls
  {
    s.(calls := s.calls[c := s.calls[c].(phase := phase)])
  }

  ghost function Apply(s: State, step: Step): State
    requires Enabled(s, step)
  {
    match step
    case TakeId =>
      var table := s.table.Issue();
      s.(table := table, calls := s.calls[table.issued := Call(Numbered, [], false, 0, 0)])
    case FailMarshal(c) => SetPhase(s, c, Returned(MarshalError))
    case Register(c) => SetPhase(s, c, Registered).(table := s.table.Register(Key(c), c))
    case WriteOk(c) => SetPhase(s, c, Waiting)
    case WriteFail(c) => SetPhase(s, c, Failing)
    case Cancel(c) => SetPhase(s, c, Canceled)
    case Remove(c) =>
      var outcome := if s.calls[c].phase.Failing? then WriteError else ContextError;
      SetPhase(s, c, Returned(outcome)).(table := s.table.Delete(Key(c)))
    case Receive(c) =>
      var call := s.calls[c];
      if call.buffer == [] then SetPhase(s, c, Returned(NilReply))
      else s.(calls := s.calls[c := call.(phase := Returned(Reply(call.buffer[0])), buffer := call.buffer[1..])])
    case Lookup(response) =>
      var key := Form(response.id);
      if key in s.table.pending then
        var c := s.table.pending[key];
        s.(table := s.table.Delete(key), reader := Sending(response, c), taken := s.taken + {c})
      else s
    case Send =>
      var (c, call) := (s.reader.call, s.calls[s.reader.call]);
      s.(calls := s.calls[c := call.(buffer := call.buffer + [s.reader.response], sends := call.sends + 1)],
        reader := Closing(c))
    case CloseChannel =>
      var (c, call) := (s.reader.call, s.calls[s.reader.call]);
      s.(calls := s.calls[c := call.(closed := true, closes := call.closes + 1)], reader := Idle)
  }

  /** The state after the steps of a run; none if some step could not be taken. */
  ghost function Run(steps: seq<Step>): Option<State> {
    if steps == [] then Some(START)
    else
      match Run(steps[..|steps| - 1])
      case None => None
      case Some(s) => if Enabled(s, steps[|steps| - 1]) then Some(Apply(s, steps[|steps| - 1])) else None
  }

  // ---------- what every interleaving keeps ----------

  /** A call that has an entry of its own to lose. */
  ghost predicate Live(s: State, c: nat) {
    InPhase(s, c, Registered) || InPhase(s, c, Waiting) || InPhase(s, c, Failing) || InPhase(s, c, Canceled)
  }

  ghost predicate PendingOk(s: State, k: string) {
    k in s.table.pending ==>
      var c := s.table.pending[k];
      Live(s, c) && Key(c) == k && c !in s.taken
  }

  /** Sent to once, then closed once, and only after it was found; once found, sent to or about to be. */
  ghost predicate CallOk(s: State, c: nat) {
    && (c in s.calls <==> 0 < c <= s.table.issued)
    && (c in s.taken ==> c in s.calls && s.calls[c].phase != Numbered)
    && (c in s.calls ==>
         var call := s.calls[c];
         && |call.buffer| <= call.sends <= 1 && call.closes <= call.sends
         && (call.closed <==> call.closes == 1)
         && (call.sends == 1 ==> c in s.taken)
         && (c in s.taken ==> call.sends == 1 || (s.reader.Sending? && s.reader.call == c))
         && (call.sends == 1 ==> call.closes == 1 || (s.reader.Closing? && s.reader.call == c))
         && (call.buffer != [] ==> Form(call.buffer[0].id) == Key(c))
         && (call.phase.Returned? && call.phase.outcome.Reply? ==>
               c in s.taken && Form(call.phase.outcome.response.id) == Key(c))
         && (call.sends == 1 && call.buffer == [] ==> call.phase.Returned?)
         && call.phase != Returned(NilReply))
  }

  ghost predicate ReaderOk(s: State) {
    match s.reader
    case Idle => true
    case Sending(response, c) => c in s.taken && c in s.calls && s.calls[c].sends == 0 && Form(response.id) == Key(c)
    case Closing(c) => c in s.calls && s.calls[c].sends == 1 && s.calls[c].closes == 0
  }

  ghost predicate Inv(s: State) {
    (forall k :: PendingOk(s, k)) && (forall c :: CallOk(s, c)) && ReaderOk(s)
  }

  lemma PendingKept(s: State, step: Step, k: string)
    requires Inv(s) && Enabled(s, step)
    ensures PendingOk(Apply(s, step), k)
  {
    hide Key, Form;
    assert PendingOk(s, k);
    if k in s.table.pending { assert CallOk(s, s.table.pending[k]); }
    match step
    case TakeId => assert CallOk(s, s.table.issued + 1);
    case FailMarshal(c) =>
    case Register(c) => assert CallOk(s, c);
    case WriteOk(c) =>
    case WriteFail(c) =>
    case Cancel(c) =>
    case Remove(c) =>
    case Receive(c) => assert CallOk(s, c);
    case Lookup(response) => assert PendingOk(s, Form(response.id));
    case Send =>
    case CloseChannel =>
  }

  lemma CallsKept(s: State, step: Step, c: nat)
    requires Inv(s) && Enabled(s, step)
    ensures CallOk(Apply(s, step), c)
  {
    hide Key, Form;
    assert CallOk(s, c);
    if step.Lookup? {
      assert PendingOk(s, Form(step.response.id));
    } else if step.TakeId? {
      assert CallOk(s, s.table.issued + 1);
    }
  }

  lemma ReaderKept(s: State, step: Step)
    requires Inv(s) && Enabled(s, step)
    ensures ReaderOk(Apply(s, step))
  {
    hide Key, Form;
    if step.Lookup? {
      assert PendingOk(s, Form(step.response.id));
      if Form(step.response.id) in s.table.pending { assert CallOk(s, s.table.pending[Form(step.response.id)]); }
    } else if step.TakeId? {
      assert CallOk(s, s.table.issued + 1);
    } else if step.Send? {
      assert CallOk(s, s.reader.call);
    }
  }

  lemma {:induction false} RunKeepsInv(steps: seq<Step>)
    requires Run(steps).Some?
    ensures Inv(Run(steps).value)
    decreases |steps|
  {
    hide Enabled, PendingOk, CallOk, ReaderOk;
    if steps == [] {
      StartOk();
    } else {
      var before := steps[..|steps| - 1];
      RunKeepsInv(before);
      var s, step := Run(before).value, steps[|steps| - 1];
      forall k ensures PendingOk(Apply(s, step), k) { PendingKept(s, step, k); }
      forall c ensures CallOk(Apply(s, step), c) { CallsKept(s, step, c); }
      ReaderKept(s, step);
    }
  }

  lemma StartOk()
    ensures Inv(START)
  {
  }

  // ---------- results for every interleaving ----------

  /** Each channel gets at most one send and one close, and neither ever blocks or panics. */
  lemma ChannelUsedOnce(steps: seq<Step>)
    requires Run(steps).Some?
    ensures var s := Run(steps).value;
            && (forall c :: c in s.calls ==> s.calls[c].sends <= 1 && s.calls[c].closes <= 1)
            && (s.reader.Sending? ==> Enabled(s, Send))
            && (s.reader.Closing? ==> Enabled(s, CloseChannel))
  {
    var s := Run(steps).value;
    RunKeepsInv(steps);
    forall c | c in s.calls
      ensures s.calls[c].sends <= 1 && s.calls[c].closes <= 1
    {
      assert CallOk(s, c);
    }
    if !s.reader.Idle? { assert CallOk(s, s.reader.call); }
  }

  /**
   * A call that returns a response returns one to its own id, or to a string that spells it,
   * never the nil of a closed channel.
   */
  lemma ReturnsOwnResponse(steps: seq<Step>, c: nat)
    requires Run(steps).Some? && c in Run(steps).value.calls && Run(steps).value.calls[c].phase.Returned?
    ensures var outcome := Run(steps).value.calls[c].phase.outcome;
            outcome != NilReply && (outcome.Reply? ==> Alike(outcome.response.id, CallId(c)))
  {
    hide Form, Alike;
    RunKeepsInv(steps);
    assert CallOk(Run(steps).value, c);
    var outcome := Run(steps).value.calls[c].phase.outcome;
    if outcome.Reply? { FormsAgree(outcome.response.id, CallId(c)); }
  }

  /** A response that has found a waiting call is in its channel, or the reader is about to send it there. */
  lemma NoResponseLost(steps: seq<Step>, c: nat)
    requires Run(steps).Some? && InPhase(Run(steps).value, c, Waiting) && c in Run(steps).value.taken
    ensures var s := Run(steps).value;
            || (s.reader.Sending? && s.reader.call == c && Alike(s.reader.response.id, CallId(c)))
            || (exists response :: s.calls[c].buffer == [response] && Alike(response.id, CallId(c)))
  {
    hide Form, Alike;
    var s := Run(steps).value;
    RunKeepsInv(steps);
    assert CallOk(s, c);
    if s.calls[c].sends == 1 {
      var response := s.calls[c].buffer[0];
      FormsAgree(response.id, CallId(c));
      assert s.calls[c].buffer == [response];
    } else {
      FormsAgree(s.reader.response.id, CallId(c));
    }
  }

  /** When the reader goes on to the next message, the channel it found was sent to and closed, once each. */
  lemma ChannelDone(steps: seq<Step>, c: nat)
    requires Run(steps).Some? && Run(steps).value.reader.Idle? && c in Run(steps).value.taken
    ensures var s := Run(steps).value;
            c in s.calls && s.calls[c].sends == 1 && s.calls[c].closes == 1 && s.calls[c].closed
  {
    RunKeepsInv(steps);
    assert CallOk(Run(steps).value, c);
  }

  /** A call that has not returned can always go on, or give up. */
  lemma CallNeverStuck(steps: seq<Step>, c: nat)
    requires Run(steps).Some? && c in Run(steps).value.calls
    ensures var s := Run(steps).value;
            match s.calls[c].phase
            case Numbered => Enabled(s, Register(c)) && Enabled(s, FailMarshal(c))
            case Registered => Enabled(s, WriteOk(c)) && Enabled(s, WriteFail(c))
            case Waiting => Enabled(s, Cancel(c)) && (s.calls[c].sends == 1 ==> Enabled(s, Receive(c)))
            case Failing => Enabled(s, Remove(c))
            case Canceled => Enabled(s, Remove(c))
            case Returned(_) => true
  {
    RunKeepsInv(steps);
    assert CallOk(Run(steps).value, c);
  }

  // ---------- how calls end ----------

  /** Which of the three failures the phase of a call shows: marshalling, writing, the context. */
  function Failures(phase: Phase): (bool, bool, bool) {
    match phase
    case Failing => (false, true, false)
    case Canceled => (false, false, true)
    case Returned(MarshalError) => (true, false, false)
    case Returned(WriteError) => (false, true, false)
    case Returned(ContextError) => (false, false, true)
    case _ => (false, false, false)
  }

  ghost predicate ShowsFailures(s: State, c: nat, failures: (bool, bool, bool)) {
    failures == if c in s.calls then Failures(s.calls[c].phase) else (false, false, false)
  }

  lemma StepShows(s: State, step: Step, c: nat, failures: (bool, bool, bool))
    requires Inv(s) && Enabled(s, step) && ShowsFailures(s, c, failures)
    ensures ShowsFailures(Apply(s, step), c,
              (failures.0 || step == FailMarshal(c), failures.1 || step == WriteFail(c),
               failures.2 || step == Cancel(c)))
  {
    hide Form, Key;
    assert CallOk(s, c);
  }

  lemma {:induction false} RunShows(steps: seq<Step>, c: nat)
    requires Run(steps).Some?
    ensures ShowsFailures(Run(steps).value, c, (FailMarshal(c) in steps, WriteFail(c) in steps, Cancel(c) in steps))
    decreases |steps|
  {
    hide Enabled, Inv;
    if steps != [] {
      var before, step := steps[..|steps| - 1], steps[|steps| - 1];
      assert steps == before + [step];
      RunShows(before, c);
      RunKeepsInv(before);
      hide ShowsFailures;
      StepShows(Run(before).value, step, c, (FailMarshal(c) in before, WriteFail(c) in before, Cancel(c) in before));
    }
  }

  /** Calls have pairwise distinct keys as long as the counter has not gone all the way round. */
  lemma DistinctKeys(steps: seq<Step>, b: nat, c: nat)
    requires Run(steps).Some? && Run(steps).value.table.issued <= IDS
    requires b in Run(steps).value.calls && c in Run(steps).value.calls && Key(b) == Key(c)
    ensures b == c
  {
    RunKeepsInv(steps);
    assert CallOk(Run(steps).value, b) && CallOk(Run(steps).value, c);
    if b <= c { KeyInjective(b, c); } else { KeyInjective(c, b); }
  }

  ghost predicate Listed(s: State, c: nat) {
    Live(s, c) && c !in s.taken ==> Key(c) in s.table.pending && s.table.pending[Key(c)] == c
  }

  lemma StepKeepsListed(s: State, step: Step, c: nat)
    requires Inv(s) && Enabled(s, step) && Apply(s, step).table.issued <= IDS && Listed(s, c)
    ensures Listed(Apply(s, step), c)
  {
    hide Key, Form;
    assert CallOk(s, c);
    if step.Register? || step.Remove? {
      assert CallOk(s, step.c);
      if c in s.calls && Key(c) == Key(step.c) {
        if c <= step.c { KeyInjective(c, step.c); } else { KeyInjective(step.c, c); }
      }
    }
  }

  lemma {:induction false} RunKeepsListed(steps: seq<Step>)
    requires Run(steps).Some? && Run(steps).value.table.issued <= IDS
    ensures forall c :: Listed(Run(steps).value, c)
    decreases |steps|
  {
    hide Inv, Listed;
    if steps == [] {
      NoneListed();
    } else {
      var before := steps[..|steps| - 1];
      RunKeepsListed(before);
      RunKeepsInv(before);
      var s, step := Run(before).value, steps[|steps| - 1];
      forall c ensures Listed(Apply(s, step), c) { StepKeepsListed(s, step, c); }
    }
  }

  lemma NoneListed()
    ensures forall c :: Listed(START, c)
  {
  }

  /** The map holds exactly the calls that registered, have not returned and were not answered. */
  lemma PendingExact(steps: seq<Step>, c: nat)
    requires Run(steps).Some? && Run(steps).value.table.issued <= IDS && c in Run(steps).value.calls
    ensures var s := Run(steps).value; Key(c) in s.table.pending <==> Live(s, c) && c !in s.taken
  {
    var s := Run(steps).value;
    RunKeepsInv(steps);
    RunKeepsListed(steps);
    assert PendingOk(s, Key(c)) && Listed(s, c);
    if Key(c) in s.table.pending { DistinctKeys(steps, c, s.table.pending[Key(c)]); }
  }

  /** Whichever way a call returns, it leaves no entry behind; later responses to it are dropped. */
  lemma ReturnedLeavesNothing(steps: seq<Step>, c: nat, response: Response)
    requires Run(steps).Some? && Run(steps).value.table.issued <= IDS
    requires c in Run(steps).value.calls && Run(steps).value.calls[c].phase.Returned?
    requires Alike(response.id, CallId(c))
    ensures var s := Run(steps).value;
            && Key(c) !in s.table.pending
            && (s.reader.Idle? ==> Apply(s, Lookup(response)) == s)
  {
    hide Form, Alike;
    FormsAgree(response.id, CallId(c));
    PendingExact(steps, c);
  }

  /** A second response to a call is dropped, returned or not. */
  lemma DuplicateDropped(steps: seq<Step>, c: nat, response: Response)
    requires Run(steps).Some? && Run(steps).value.table.issued <= IDS
    requires c in Run(steps).value.taken && Run(steps).value.reader.Idle? && Alike(response.id, CallId(c))
    ensures var s := Run(steps).value; Apply(s, Lookup(response)) == s
  {
    hide Form, Alike;
    RunKeepsInv(steps);
    assert CallOk(Run(steps).value, c);
    FormsAgree(response.id, CallId(c));
    PendingExact(steps, c);
  }

  /** Without any bound on the ids, the map never lists a call that has returned. */
  lemma NeverListsReturned(steps: seq<Step>, k: string)
    requires Run(steps).Some? && k in Run(steps).value.table.pending
    ensures Live(Run(steps).value, Run(steps).value.table.pending[k])
  {
    RunKeepsInv(steps);
    assert PendingOk(Run(steps).value, k);
  }

  // ---------- which responses a call accepts ----------

  lemma Extend(steps: seq<Step>, step: Step) returns (longer: seq<Step>)
    requires Run(steps).Some? && Enabled(Run(steps).value, step)
    ensures longer == steps + [step] && Run(longer) == Some(Apply(Run(steps).value, step))
  {
    longer := steps + [step];
    assert longer[..|longer| - 1] == steps;
  }

  /** A run in which `c` calls take their ids and nothing else happens. */
  lemma {:induction false} TakeIds(c: nat) returns (steps: seq<Step>)
    ensures Run(steps).Some? && forall i :: 0 <= i < |steps| ==> steps[i] == TakeId
    ensures var s := Run(steps).value; s.table == Table(c, map[]) && s.reader == Idle
    ensures c > 0 ==> c in Run(steps).value.calls && Run(steps).value.calls[c] == Call(Numbered, [], false, 0, 0)
  {
    if c == 0 {
      steps := [];
      assert Run(steps) == Some(START);
    } else {
      steps := TakeIds(c - 1);
      hide Run;
      steps := Extend(steps, TakeId);
    }
  }

  /** A call that accepts `response`: it registers, writes its request, and the response is read. */
  lemma Accepts(c: nat, response: Response) returns (steps: seq<Step>)
    requires c > 0 && Alike(response.id, CallId(c))
    ensures Run(steps).Some? && InPhase(Run(steps).value, c, Returned(Reply(response)))
    ensures Hears(steps, {response})
  {
    FormsAgree(response.id, CallId(c));
    hide Run, Form, Alike, CallId;
    steps := TakeIds(c);
    steps := Extend(steps, Register(c));
    steps := Extend(steps, WriteOk(c));
    steps := Extend(steps, Lookup(response));
    steps := Extend(steps, Send);
    steps := Extend(steps, Receive(c));
  }

  /** A call can return a response exactly when that has its id or spells it. */
  lemma ReturnsExactly(c: nat, response: Response)
    requires c > 0
    ensures Alike(response.id, CallId(c)) <==>
            exists steps :: Run(steps).Some? && InPhase(Run(steps).value, c, Returned(Reply(response)))
  {
    hide Run, Form, Alike, CallId;
    if Alike(response.id, CallId(c)) {
      var steps := Accepts(c, response);
    } else if steps :| Run(steps).Some? && InPhase(Run(steps).value, c, Returned(Reply(response))) {
      ReturnsOwnResponse(steps, c);
    }
  }

  /** The peer sends no other responses than these. */
  ghost predicate Hears(steps: seq<Step>, responses: set<Response>) {
    forall i :: 0 <= i < |steps| && steps[i].Lookup? ==> steps[i].response in responses
  }

  /** Every response that is with the reader, in a channel or returned is among these. */
  ghost predicate CallHears(s: State, c: nat, responses: set<Response>) {
    && (s.reader.Sending? ==> s.reader.response in responses)
    && (c in s.calls ==>
          && (forall r :: r in s.calls[c].buffer ==> r in responses)
          && (s.calls[c].phase.Returned? && s.calls[c].phase.outcome.Reply? ==>
                s.calls[c].phase.outcome.response in responses))
  }

  lemma StepHears(s: State, step: Step, c: nat, responses: set<Response>)
    requires Enabled(s, step) && CallHears(s, c, responses) && (step.Lookup? ==> step.response in responses)
    ensures CallHears(Apply(s, step), c, responses)
  {
    hide Form, Key;
  }

  lemma {:induction false} RunHears(steps: seq<Step>, c: nat, responses: set<Response>)
    requires Run(steps).Some? && Hears(steps, responses)
    ensures CallHears(Run(steps).value, c, responses)
    decreases |steps|
  {
    hide Enabled;
    if steps != [] {
      hide CallHears;
      var before := steps[..|steps| - 1];
      assert forall i :: 0 <= i < |before| ==> before[i] == steps[i];
      RunHears(before, c, responses);
      StepHears(Run(before).value, steps[|steps| - 1], c, responses);
    }
  }

  /** A call returns the error of what failed, and otherwise a response that the reader was given. */
  lemma OutcomeTells(steps: seq<Step>, c: nat)
    requires Run(steps).Some? && c in Run(steps).value.calls && Run(steps).value.calls[c].phase.Returned?
    ensures var outcome := Run(steps).value.calls[c].phase.outcome;
            && (outcome == MarshalError <==> FailMarshal(c) in steps)
            && (outcome == WriteError <==> WriteFail(c) in steps)
            && (outcome == ContextError <==> Cancel(c) in steps)
            && (outcome.Reply? ==> Lookup(outcome.response) in steps)
  {
    hide Run, Form;
    RunShows(steps, c);
    var responses := set step | step in steps && step.Lookup? :: step.response;
    RunHears(steps, c, responses);
  }

  /** If the call has returned a response, that carries its very id. */
  ghost predicate OnlyOwnId(s: State, c: nat) {
    c in s.calls && s.calls[c].phase.Returned? && s.calls[c].phase.outcome.Reply? ==>
      s.calls[c].phase.outcome.response.id == CallId(c)
  }

  /** A call is sure of its own id, in every run, exactly when no response of the peer spells it. */
  lemma OwnIdExactly(c: nat, responses: set<Response>)
    requires c > 0
    ensures (forall r :: r in responses ==> !Spells(r.id, CallId(c))) <==>
            forall steps :: Run(steps).Some? && Hears(steps, responses) ==> OnlyOwnId(Run(steps).value, c)
  {
    hide Run, Form;
    if forall r :: r in responses ==> !Spells(r.id, CallId(c)) {
      forall steps | Run(steps).Some? && Hears(steps, responses)
        ensures OnlyOwnId(Run(steps).value, c)
      {
        RunHears(steps, c, responses);
        var s := Run(steps).value;
        if c in s.calls && s.calls[c].phase.Returned? { ReturnsOwnResponse(steps, c); }
      }
    } else {
      var r :| r in responses && Spells(r.id, CallId(c));
      var steps := Accepts(c, r);
      assert Hears(steps, responses) && !OnlyOwnId(Run(steps).value, c);
    }
  }
}
