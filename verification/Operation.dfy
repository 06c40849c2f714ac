/** `operation.Context`: nested operations with panics as control flow and cleanup callbacks. */
module Operation {
  import opened Wrappers

  datatype Outcome = Success | Failure | Skipped | Aborted

  datatype Diagnostic = Diagnostic(message: string, severity: string, extras: map<string, string>)

  // A cleanup callback and the error that calling it yields; `callSafe` makes a panic an error.
  datatype Callback = Callback(id: nat, error: Option<string>)

  // How a body ends. The last four are panics: the three sentinels and any other value.
  datatype Ending =
    | Return
    | ReturnError(err: string)
    | Fail(msg: string)
    | Skip(reason: string)
    | Abort(cause: Option<string>)
    | Panic(value: string, stack: string)

  datatype Action = RunChild(op: Op) | Must(callback: Callback) |
                    After(callback: Callback) | DiagSet(key: string, value: string)

  // A body: what it does on its context, and how it ends.
  datatype Op = Op(description: string, actions: seq<Action>, ending: Ending)

  // What the writer sees, with the calls of the callbacks in between.
  datatype Event =
    | Begin(depth: nat, description: string)
    | RanMust(id: nat)
    | RanAfter(id: nat)
    | End(depth: nat, description: string, outcome: Outcome, diagnostic: Option<Diagnostic>, mustErrors: seq<string>)

  // ---------- what a run does ----------

  function Musts(actions: seq<Action>): seq<Callback> {
    if actions == [] then []
    else
      var rest := Musts(actions[..|actions| - 1]);
      match actions[|actions| - 1]
      case Must(cb) => rest + [cb]
      case _ => rest
  }

  function Afters(actions: seq<Action>): seq<Callback> {
    if actions == [] then []
    else
      var rest := Afters(actions[..|actions| - 1]);
      match actions[|actions| - 1]
      case After(cb) => rest + [cb]
      case _ => rest
  }

  function Extras(actions: seq<Action>): map<string, string> {
    if actions == [] then map[]
    else
      var rest := Extras(actions[..|actions| - 1]);
      match actions[|actions| - 1]
      case DiagSet(key, value) => rest[key := value]
      case _ => rest
  }

  function MustLog(musts: seq<Callback>): seq<Event> {
    if musts == [] then [] else [RanMust(musts[|musts| - 1].id)] + MustLog(musts[..|musts| - 1])
  }

  function AfterLog(afters: seq<Callback>): seq<Event> {
    if afters == [] then [] else [RanAfter(afters[|afters| - 1].id)] + AfterLog(afters[..|afters| - 1])
  }

  /** The errors of the failing callbacks, last registered first. */
  function MustErrors(musts: seq<Callback>): seq<string> {
    if musts == [] then []
    else
      var rest := MustErrors(musts[..|musts| - 1]);
      match musts[|musts| - 1].error
      case Some(e) => [e] + rest
      case None => rest
  }

  function EndingOutcome(ending: Ending): Outcome {
    match ending
    case Return => Success
    case ReturnError(_) => Failure
    case Fail(_) => Failure
    case Skip(_) => Skipped
    case Abort(_) => Aborted
    case Panic(_, _) => Failure
  }

  /** The outcome reported: a failing `Must` matters only to a success. */
  function FinalOutcome(op: Op): Outcome {
    if EndingOutcome(op.ending) == Success && MustErrors(Musts(op.actions)) != [] then Failure
    else EndingOutcome(op.ending)
  }

  function EndingDiagnostic(ending: Ending): Option<Diagnostic> {
    match ending
    case Return => None
    case ReturnError(err) => Some(Diagnostic(err, "error", map[]))
    case Fail(msg) => Some(Diagnostic(msg, "error", map[]))
    case Skip(reason) => Some(Diagnostic(reason, "skip", map[]))
    case Abort(_) => None
    case Panic(value, stack) => Some(Diagnostic("panic: " + value, "panic", map["stack" := stack]))
  }

  function WithExtras(diagnostic: Option<Diagnostic>, extras: map<string, string>): Option<Diagnostic> {
    if extras == map[] then diagnostic
    else
      match diagnostic
      case None => Some(Diagnostic("", "", extras))
      case Some(d) => Some(d.(extras := d.extras + extras))
  }

  /** The error that `Run` returns. */
  function ReturnedAfter(ending: Ending): Option<string> {
    match ending
    case ReturnError(err) => Some(err)
    case Abort(cause) => cause
    case _ => None
  }

  function EndEvent(op: Op, depth: nat): Event {
    End(depth, op.description, FinalOutcome(op), WithExtras(EndingDiagnostic(op.ending), Extras(op.actions)),
        MustErrors(Musts(op.actions)))
  }

  function Trace(op: Op, depth: nat): seq<Event>
    decreases op
  {
    [Begin(depth, op.description)] + BodyTrace(op.actions, depth) + MustLog(Musts(op.actions)) +
    AfterLog(Afters(op.actions))
    + [EndEvent(op, depth)]
  }

  function BodyTrace(actions: seq<Action>, depth: nat): seq<Event>
    decreases actions
  {
    if actions == [] then []
    else
      var rest := BodyTrace(actions[..|actions| - 1], depth);
      var last := actions[|actions| - 1];
      match last
      case RunChild(op) => assert op < last; rest + Trace(op, depth + 1)
      case _ => rest
  }

  lemma LastMust(musts: seq<Callback>, earlier: seq<Callback>, last: Callback)
    requires musts == earlier + [last]
    ensures MustLog(musts) == [RanMust(last.id)] + MustLog(earlier)
    ensures MustErrors(musts) == (if last.error.Some? then [last.error.value] else []) + MustErrors(earlier)
  {
    assert musts[..|musts| - 1] == earlier;
  }

  lemma LastAfter(afters: seq<Callback>, earlier: seq<Callback>, last: Callback)
    requires afters == earlier + [last]
    ensures AfterLog(afters) == [RanAfter(last.id)] + AfterLog(earlier)
  {
    assert afters[..|afters| - 1] == earlier;
  }

  lemma Assoc<T>(a: seq<T>, b: seq<T>, c: seq<T>)
    ensures a + b + c == a + (b + c)
  {
  }

  // ---------- the context ----------

  class Writer {
    var events: seq<Event>

    constructor ()
      ensures events == []
    {
      events := [];
    }

    method Emit(e: Event)
      modifies this
      ensures events == old(events) + [e]
    {
      events := events + [e];
    }
  }

  class Context {
    const writer: Writer
    const depth: nat
    const description: string
    var outcome: Outcome
    var diagnostic: Option<Diagnostic>
    var extras: map<string, string>
    var musts: seq<Callback>
    var afters: seq<Callback>
    var mustErrors: seq<string>

    constructor (writer: Writer, depth: nat, description: string)
      ensures this.writer == writer && this.depth == depth && this.description == description
      ensures outcome == Success && diagnostic == None && extras == map[]
      ensures musts == [] && afters == [] && mustErrors == []
    {
      this.writer, this.depth, this.description := writer, depth, description;
      outcome, diagnostic, extras := Success, None, map[];
      musts, afters, mustErrors := [], [], [];
    }

    method RunAfter()
      modifies writer
      ensures writer.events == old(writer.events) + AfterLog(afters)
    {
      var i := |afters| - 1;
      assert AfterLog([]) == [];
      hide AfterLog;
      ghost var ran: seq<Event> := [];
      assert afters[..|afters|] == afters;
      while i >= 0
        invariant -1 <= i < |afters|
        invariant writer.events == old(writer.events) + ran
        invariant ran + AfterLog(afters[..i + 1]) == AfterLog(afters)
      {
        LastAfter(afters[..i + 1], afters[..i], afters[i]);
        writer.Emit(RanAfter(afters[i].id));
        Assoc(old(writer.events), ran, [RanAfter(afters[i].id)]);
        Assoc(ran, [RanAfter(afters[i].id)], AfterLog(afters[..i]));
        ran := ran + [RanAfter(afters[i].id)];
        i := i - 1;
      }
    }

    method RunMust()
      requires mustErrors == []
      modifies writer, this`outcome, this`mustErrors
      ensures writer.events == old(writer.events) + MustLog(musts)
      ensures mustErrors == MustErrors(musts)
      ensures outcome == if old(outcome) == Success && mustErrors != [] then Failure else old(outcome)
    {
      var i := |musts| - 1;
      assert MustLog([]) == [] && MustErrors([]) == [];
      hide MustLog, MustErrors;
      ghost var ran: seq<Event> := [];
      assert musts[..|musts|] == musts;
      while i >= 0
        invariant -1 <= i < |musts|
        invariant writer.events == old(writer.events) + ran
        invariant ran + MustLog(musts[..i + 1]) == MustLog(musts)
        invariant mustErrors + MustErrors(musts[..i + 1]) == MustErrors(musts)
        invariant outcome == if old(outcome) == Success && mustErrors != [] then Failure else old(outcome)
      {
        var must := musts[i];
        LastMust(musts[..i + 1], musts[..i], must);
        writer.Emit(RanMust(must.id));
        Assoc(old(writer.events), ran, [RanMust(must.id)]);
        Assoc(ran, [RanMust(must.id)], MustLog(musts[..i]));
        ran := ran + [RanMust(must.id)];
        if must.error.Some? {
          Assoc(mustErrors, [must.error.value], MustErrors(musts[..i]));
          mustErrors := mustErrors + [must.error.value];
          if outcome == Success {
            outcome := Failure;
          }
        }
        i := i - 1;
      }
    }

    /** How the body ends: a return, or a panic that the deferred function recovers. */
    method Recover(ending: Ending) returns (retErr: Option<string>)
      requires outcome == Success && diagnostic == None
      modifies this`outcome, this`diagnostic
      ensures outcome == EndingOutcome(ending) && diagnostic == EndingDiagnostic(ending)
      ensures retErr == ReturnedAfter(ending)
    {
      retErr := None;
      match ending {
        case Return =>
        case ReturnError(err) =>
          retErr := Some(err);
          outcome := Failure;
          diagnostic := Some(Diagnostic(err, "error", map[]));
        case Fail(msg) =>
          outcome := Failure;
          diagnostic := Some(Diagnostic(msg, "error", map[]));
        case Skip(reason) =>
          outcome := Skipped;
          diagnostic := Some(Diagnostic(reason, "skip", map[]));
        case Abort(cause) =>
          outcome := Aborted;
          retErr := cause;
        case Panic(value, stack) =>
          outcome := Failure;
          diagnostic := Some(Diagnostic("panic: " + value, "panic", map["stack" := stack]));
      }
    }

    method AddExtras()
      modifies this`diagnostic
      ensures diagnostic == WithExtras(old(diagnostic), extras)
    {
      assert |extras| > 0 <==> extras != map[];
      if |extras| > 0 {
        if diagnostic == None {
          diagnostic := Some(Diagnostic("", "", map[]));
        }
        var d := diagnostic.value;
        assert d.extras == map[] ==> d.extras + extras == extras;
        diagnostic := Some(d.(extras := d.extras + extras));
      }
    }

    /** The body of an operation, on its own context. */
    method Perform(actions: seq<Action>)
      requires extras == map[] && musts == [] && afters == []
      modifies writer, this`extras, this`musts, this`afters
      ensures writer.events == old(writer.events) + BodyTrace(actions, depth)
      ensures extras == Extras(actions) && musts == Musts(actions) && afters == Afters(actions)
      decreases actions
    {
      for i := 0 to |actions|
        invariant writer.events == old(writer.events) + BodyTrace(actions[..i], depth)
        invariant extras == Extras(actions[..i]) && musts == Musts(actions[..i]) && afters == Afters(actions[..i])
      {
        assert actions[..i + 1][..i] == actions[..i];
        var action := actions[i];
        match action {
          case RunChild(op) =>
            assert op < action;
            var err := Run(op);
          case Must(cb) => musts := musts + [cb];
          case After(cb) => afters := afters + [cb];
          case DiagSet(key, value) => extras := extras[key := value];
        }
      }
      assert actions[..|actions|] == actions;
    }

    method Run(op: Op) returns (retErr: Option<string>)
      modifies writer
      ensures writer.events == old(writer.events) + Trace(op, depth + 1)
      ensures retErr == ReturnedAfter(op.ending)
      decreases op
    {
      hide Musts, Afters, Extras, BodyTrace, MustLog, AfterLog, MustErrors,
           EndingOutcome, EndingDiagnostic, WithExtras, ReturnedAfter;
      var child := new Context(writer, depth + 1, op.description);
      writer.Emit(Begin(child.depth, op.description));
      child.Perform(op.actions);
      retErr := child.Recover(op.ending);
      // What the deferred cleanup does.
      child.AddExtras();
      child.RunMust();
      child.RunAfter();
      var end := End(child.depth, op.description, child.outcome, child.diagnostic, child.mustErrors);
      assert end == EndEvent(op, depth + 1);
      writer.Emit(end);
    }
  }

  // ---------- the log is well bracketed ----------

  /** Reads a log against the stack of open operations; none if it is not well bracketed. */
  function Scan(log: seq<Event>, open: seq<string>): Option<seq<string>> {
    if log == [] then Some(open)
    else
      match log[0]
      case Begin(depth, description) =>
        if depth == |open| + 1 then Scan(log[1..], open + [description]) else None
      case End(depth, description, _, _, _) =>
        if |open| == depth && depth > 0 && open[depth - 1] == description then Scan(log[1..], open[..depth - 1])
        else None
      case _ => Scan(log[1..], open)
  }

  lemma {:induction false} ScanConcat(a: seq<Event>, b: seq<Event>, open: seq<string>)
    requires Scan(a, open).Some?
    ensures Scan(a + b, open) == Scan(b, Scan(a, open).value)
    decreases |a|
  {
    if a == [] {
      assert a + b == b;
    } else {
      assert (a + b)[0] == a[0] && (a + b)[1..] == a[1..] + b;
      match a[0]
      case Begin(_, description) => ScanConcat(a[1..], b, open + [description]);
      case End(depth, _, _, _, _) => ScanConcat(a[1..], b, open[..depth - 1]);
      case _ => ScanConcat(a[1..], b, open);
    }
  }

  predicate Quiet(log: seq<Event>) {
    forall i :: 0 <= i < |log| ==> log[i].RanMust? || log[i].RanAfter?
  }

  lemma {:induction false} ScanQuiet(log: seq<Event>, open: seq<string>)
    requires Quiet(log)
    ensures Scan(log, open) == Some(open)
    decreases |log|
  {
    if log != [] { ScanQuiet(log[1..], open); }
  }

  lemma {:induction false} CleanupQuiet(musts: seq<Callback>)
    ensures Quiet(MustLog(musts)) && Quiet(AfterLog(musts))
    decreases |musts|
  {
    if musts != [] { CleanupQuiet(musts[..|musts| - 1]); }
  }

  /** Every run, below any stack of open operations, leaves the stack as it found it. */
  lemma {:induction false} WellBracketed(op: Op, open: seq<string>)
    ensures Scan(Trace(op, |open| + 1), open) == Some(open)
    decreases op
  {
    hide MustLog, AfterLog, Musts, Afters, EndEvent;
    var depth := |open| + 1;
    var inner := open + [op.description];
    var begin, end := [Begin(depth, op.description)], [EndEvent(op, depth)];
    var body, musts, afters := BodyTrace(op.actions, depth), MustLog(Musts(op.actions)), AfterLog(Afters(op.actions));
    BodyBracketed(op.actions, inner);
    CleanupQuiet(Musts(op.actions));
    CleanupQuiet(Afters(op.actions));
    ScanQuiet(musts, inner);
    ScanQuiet(afters, inner);
    ScanBegin(op.description, open);
    ScanConcat(begin, body, open);
    ScanConcat(begin + body, musts, open);
    ScanConcat(begin + body + musts, afters, open);
    ScanConcat(begin + body + musts + afters, end, open);
    ScanEnd(op, open);
  }

  lemma ScanBegin(description: string, open: seq<string>)
    ensures Scan([Begin(|open| + 1, description)], open) == Some(open + [description])
  {
  }

  lemma ScanEnd(op: Op, open: seq<string>)
    ensures Scan([EndEvent(op, |open| + 1)], open + [op.description]) == Some(open)
  {
    hide FinalOutcome, EndingDiagnostic, WithExtras, Extras, Musts, MustErrors;
    assert (open + [op.description])[..|open|] == open;
  }

  lemma {:induction false} BodyBracketed(actions: seq<Action>, open: seq<string>)
    ensures Scan(BodyTrace(actions, |open|), open) == Some(open)
    decreases actions
  {
    if actions != [] {
      var rest := actions[..|actions| - 1];
      var last := actions[|actions| - 1];
      BodyBracketed(rest, open);
      match last
      case RunChild(op) =>
        assert op < last;
        WellBracketed(op, open);
        ScanConcat(BodyTrace(rest, |open|), Trace(op, |open| + 1), open);
      case _ =>
    }
  }

  // ---------- cleanup runs once, in reverse, before the end ----------

  lemma {:induction false} MustLogAt(musts: seq<Callback>, i: nat)
    requires i < |musts|
    ensures |MustLog(musts)| == |musts| && MustLog(musts)[|musts| - 1 - i] == RanMust(musts[i].id)
    decreases |musts|
  {
    var n := |musts| - 1;
    if n > 0 { MustLogAt(musts[..n], if i < n then i else 0); }
  }

  lemma {:induction false} AfterLogAt(afters: seq<Callback>, i: nat)
    requires i < |afters|
    ensures |AfterLog(afters)| == |afters| && AfterLog(afters)[|afters| - 1 - i] == RanAfter(afters[i].id)
    decreases |afters|
  {
    var n := |afters| - 1;
    if n > 0 { AfterLogAt(afters[..n], if i < n then i else 0); }
  }

  /** Counted back from its End event, an operation runs its Afters first registered last, and its Musts before them. */
  lemma CleanupOrder(op: Op, depth: nat)
    ensures var (t, musts, afters) := (Trace(op, depth), Musts(op.actions), Afters(op.actions));
            && |t| >= |musts| + |afters| + 2
            && t[0] == Begin(depth, op.description) && t[|t| - 1] == EndEvent(op, depth)
            && (forall i :: 0 <= i < |afters| ==> t[|t| - 2 - i] == RanAfter(afters[i].id))
            && (forall i :: 0 <= i < |musts| ==> t[|t| - 2 - |afters| - i] == RanMust(musts[i].id))
  {
    hide BodyTrace, Musts, Afters, EndEvent;
    var musts, afters := Musts(op.actions), Afters(op.actions);
    var body, m, a := BodyTrace(op.actions, depth), MustLog(musts), AfterLog(afters);
    if musts != [] { MustLogAt(musts, 0); }
    if afters != [] { AfterLogAt(afters, 0); }
    var t := Trace(op, depth);
    assert t == [Begin(depth, op.description)] + body + m + a + [EndEvent(op, depth)];
    forall i | 0 <= i < |afters|
      ensures t[|t| - 2 - i] == RanAfter(afters[i].id)
    {
      AfterLogAt(afters, i);
      assert t[|t| - 2 - i] == a[|a| - 1 - i];
    }
    forall i | 0 <= i < |musts|
      ensures t[|t| - 2 - |afters| - i] == RanMust(musts[i].id)
    {
      MustLogAt(musts, i);
      assert t[|t| - 2 - |afters| - i] == m[|m| - 1 - i];
    }
  }

  /** How often an operation and all operations below it register a callback. */
  function Registrations(actions: seq<Action>, what: Event): nat
    decreases actions
  {
    if actions == [] then 0
    else
      var last := actions[|actions| - 1];
      Registrations(actions[..|actions| - 1], what) +
      match last
      case RunChild(op) => assert op < last; Registrations(op.actions, what)
      case Must(cb) => if what == RanMust(cb.id) then 1 else 0
      case After(cb) => if what == RanAfter(cb.id) then 1 else 0
      case DiagSet(_, _) => 0
  }

  ghost function Count(log: seq<Event>, what: Event): nat {
    multiset(log)[what]
  }

  lemma CountConcat(a: seq<Event>, b: seq<Event>, what: Event)
    ensures Count(a + b, what) == Count(a, what) + Count(b, what)
  {
  }

  lemma CountOne(e: Event, what: Event)
    ensures Count([e], what) == if e == what then 1 else 0
  {
  }

  /** What the body of an operation and its cleanup run, counted for one callback. */
  lemma {:induction false} CleanupCounts(actions: seq<Action>, depth: nat, what: Event)
    requires what.RanMust? || what.RanAfter?
    ensures Count(BodyTrace(actions, depth), what) + Count(MustLog(Musts(actions)), what) +
            Count(AfterLog(Afters(actions)), what)
            == Registrations(actions, what)
    decreases actions
  {
    hide Count;
    if actions == [] {
      CountNone(what);
    } else {
      var rest := actions[..|actions| - 1];
      var last := actions[|actions| - 1];
      CleanupCounts(rest, depth, what);
      match last
      case RunChild(op) =>
        assert op < last;
        RunsOnce(op, depth + 1, what);
        CountConcat(BodyTrace(rest, depth), Trace(op, depth + 1), what);
      case Must(cb) =>
        LastMust(Musts(actions), Musts(rest), cb);
        CountConcat([RanMust(cb.id)], MustLog(Musts(rest)), what);
        CountOne(RanMust(cb.id), what);
      case After(cb) =>
        var afters := Afters(actions);
        assert afters[..|afters| - 1] == Afters(rest);
        CountConcat([RanAfter(cb.id)], AfterLog(Afters(rest)), what);
        CountOne(RanAfter(cb.id), what);
      case DiagSet(_, _) =>
    }
  }

  lemma CountNone(what: Event)
    ensures Count([], what) == 0
  {
  }

  lemma EndIsEnd(op: Op, depth: nat)
    ensures EndEvent(op, depth).End?
  {
  }

  /** In a whole run each callback runs exactly as often as it was registered. */
  lemma {:induction false} RunsOnce(op: Op, depth: nat, what: Event)
    requires what.RanMust? || what.RanAfter?
    ensures Count(Trace(op, depth), what) == Registrations(op.actions, what)
    decreases op
  {
    hide Count, BodyTrace, MustLog, AfterLog, Musts, Afters, EndEvent;
    var begin, end := Begin(depth, op.description), EndEvent(op, depth);
    var body, musts, afters := BodyTrace(op.actions, depth), MustLog(Musts(op.actions)), AfterLog(Afters(op.actions));
    CleanupCounts(op.actions, depth, what);
    CountConcat([begin] + body + musts + afters, [end], what);
    CountConcat([begin] + body + musts, afters, what);
    CountConcat([begin] + body, musts, what);
    CountConcat([begin], body, what);
    CountOne(begin, what);
    CountOne(end, what);
    EndIsEnd(op, depth);
  }

  // ---------- outcomes ----------

  lemma {:induction false} ErrorsExactly(musts: seq<Callback>)
    ensures MustErrors(musts) == [] <==> forall i :: 0 <= i < |musts| ==> musts[i].error == None
    decreases |musts|
  {
    if musts != [] {
      var n := |musts| - 1;
      ErrorsExactly(musts[..n]);
      assert forall i :: 0 <= i < n ==> musts[..n][i] == musts[i];
      assert musts[..n] + [musts[n]] == musts;
    }
  }

  /** What `Run` returns: the error of the body or the cause of an abort, and nothing for any other panic. */
  lemma ReturnsErrorOf(op: Op)
    ensures match ReturnedAfter(op.ending)
            case Some(err) => op.ending == ReturnError(err) || op.ending == Abort(Some(err))
            case None => op.ending == Return || op.ending == Abort(None) ||
                         op.ending.Fail? || op.ending.Skip? || op.ending.Panic?
    ensures op.ending.ReturnError? || (op.ending.Abort? && op.ending.cause.Some?) ==> ReturnedAfter(op.ending).Some?
  {
  }

  /** What the End event reports about the way the body ended. */
  lemma EndReports(op: Op, depth: nat)
    requires Extras(op.actions) == map[]
    ensures var t := Trace(op, depth);
            |t| > 0 && t[|t| - 1].End? &&
            var end := t[|t| - 1];
            && end.depth == depth && end.description == op.description && end.outcome == FinalOutcome(op)
            && end.mustErrors == MustErrors(Musts(op.actions))
            && (end.diagnostic.None? <==> op.ending == Return || op.ending.Abort?)
            && (op.ending.ReturnError? ==> end.diagnostic == Some(Diagnostic(op.ending.err, "error", map[])))
            && (op.ending.Fail? ==> end.diagnostic == Some(Diagnostic(op.ending.msg, "error", map[])))
            && (op.ending.Skip? ==> end.diagnostic == Some(Diagnostic(op.ending.reason, "skip", map[])))
            && (op.ending.Panic? ==>
                  end.diagnostic ==
                    Some(Diagnostic("panic: " + op.ending.value, "panic", map["stack" := op.ending.stack])))
  {
    hide BodyTrace, Musts, Afters, MustLog, AfterLog, MustErrors, Extras, FinalOutcome;
    var t := Trace(op, depth);
    assert t[|t| - 1] == EndEvent(op, depth);
  }

  /** Whatever diagnostics were set are in the report, each key with the value set last, over those of the ending. */
  lemma EndReportsExtras(op: Op, depth: nat, key: string, value: string, earlier: seq<Action>, later: seq<Action>)
    requires op.actions == earlier + [DiagSet(key, value)] + later
    requires forall i :: 0 <= i < |later| ==> !(later[i].DiagSet? && later[i].key == key)
    ensures var t := Trace(op, depth);
            |t| > 0 && t[|t| - 1].End? &&
            var end := t[|t| - 1];
            && end.diagnostic.Some? && key in end.diagnostic.value.extras && end.diagnostic.value.extras[key] == value
            && (match EndingDiagnostic(op.ending)
                case None => end.diagnostic.value.message == "" && end.diagnostic.value.severity == ""
                case Some(d) =>
                  && end.diagnostic.value.message == d.message && end.diagnostic.value.severity == d.severity
                  && forall k :: k in d.extras && k !in Extras(op.actions) ==>
                       k in end.diagnostic.value.extras && end.diagnostic.value.extras[k] == d.extras[k])
  {
    LastExtra(earlier, key, value, later);
    hide BodyTrace, Musts, Afters, MustLog, AfterLog, MustErrors, Extras, FinalOutcome, EndingDiagnostic;
    var t := Trace(op, depth);
    assert t[|t| - 1] == EndEvent(op, depth);
  }

  lemma {:induction false} LastExtra(earlier: seq<Action>, key: string, value: string, later: seq<Action>)
    requires forall i :: 0 <= i < |later| ==> !(later[i].DiagSet? && later[i].key == key)
    ensures var actions := earlier + [DiagSet(key, value)] + later;
            key in Extras(actions) && Extras(actions)[key] == value
    decreases |later|
  {
    var actions := earlier + [DiagSet(key, value)] + later;
    if later == [] {
      assert actions[..|actions| - 1] == earlier && actions[|actions| - 1] == DiagSet(key, value);
    } else {
      var later' := later[..|later| - 1];
      assert actions[..|actions| - 1] == earlier + [DiagSet(key, value)] + later';
      assert actions[|actions| - 1] == later[|later| - 1];
      LastExtra(earlier, key, value, later');
    }
  }

  /** No key appears that was not set. */
  lemma {:induction false} ExtrasWereSet(actions: seq<Action>, key: string)
    ensures key in Extras(actions) ==>
              exists i :: 0 <= i < |actions| && actions[i] == DiagSet(key, Extras(actions)[key])
    decreases |actions|
  {
    if actions != [] {
      var n := |actions| - 1;
      ExtrasWereSet(actions[..n], key);
      assert actions[n] == actions[|actions| - 1];
      if key in Extras(actions[..n]) {
        var i :| 0 <= i < n && actions[..n][i] == DiagSet(key, Extras(actions[..n])[key]);
        assert actions[i] == actions[..n][i];
      }
    }
  }

  // ---------- the order of things in a body ----------

  /** Operations run in the order in which the body comes to them. */
  lemma {:induction false} BodyInOrder(a: seq<Action>, b: seq<Action>, depth: nat)
    ensures BodyTrace(a + b, depth) == BodyTrace(a, depth) + BodyTrace(b, depth)
    decreases |b|
  {
    hide Trace;
    if b == [] {
      assert a + b == a;
    } else {
      var b' := b[..|b| - 1];
      assert (a + b)[..|a + b| - 1] == a + b' && (a + b)[|a + b| - 1] == b[|b| - 1];
      BodyInOrder(a, b', depth);
      if b[|b| - 1].RunChild? {
        Assoc(BodyTrace(a, depth), BodyTrace(b', depth), Trace(b[|b| - 1].op, depth + 1));
      }
    }
  }

  /** And callbacks count as registered in that order. */
  lemma {:induction false} CallbacksInOrder(a: seq<Action>, b: seq<Action>)
    ensures Musts(a + b) == Musts(a) + Musts(b) && Afters(a + b) == Afters(a) + Afters(b)
    decreases |b|
  {
    if b == [] {
      assert a + b == a;
    } else {
      var b' := b[..|b| - 1];
      assert (a + b)[..|a + b| - 1] == a + b' && (a + b)[|a + b| - 1] == b[|b| - 1];
      CallbacksInOrder(a, b');
    }
  }

  /** An operation that the body runs leaves its whole trace there, one level deeper. */
  lemma ChildTrace(op: Op, cb: Callback, depth: nat)
    ensures BodyTrace([RunChild(op)], depth) == Trace(op, depth + 1)
    ensures Musts([Must(cb)]) == [cb] && Afters([After(cb)]) == [cb]
    ensures BodyTrace([Must(cb)], depth) == [] && BodyTrace([After(cb)], depth) == []
    ensures Musts([After(cb)]) == [] && Afters([Must(cb)]) == []
  {
    hide Trace;
    assert [RunChild(op)][..0] == [] && [Must(cb)][..0] == [] && [After(cb)][..0] == [];
    assert BodyTrace([], depth) == [] && [] + Trace(op, depth + 1) == Trace(op, depth + 1);
  }

  /** The errors are collected in the order in which the callbacks ran, the last registered first. */
  lemma {:induction false} ErrorsInOrder(a: seq<Callback>, b: seq<Callback>)
    ensures MustErrors(a + b) == MustErrors(b) + MustErrors(a)
    decreases |b|
  {
    if b == [] {
      assert a + b == a;
    } else {
      var b', last := b[..|b| - 1], b[|b| - 1];
      assert b == b' + [last] && a + b == (a + b') + [last];
      ErrorsInOrder(a, b');
      LastMust(b, b', last);
      LastMust(a + b, a + b', last);
    }
  }

  /** A failing Must turns a success into a failure and changes no other outcome. */
  lemma MustOnlyFailsSuccess(op: Op, musts: seq<Callback>)
    requires musts == Musts(op.actions)
    ensures FinalOutcome(op) == Success <==>
            op.ending == Return && forall i :: 0 <= i < |musts| ==> musts[i].error == None
    ensures op.ending != Return ==> FinalOutcome(op) == EndingOutcome(op.ending)
    ensures FinalOutcome(op) == Aborted <==> op.ending.Abort?
    ensures FinalOutcome(op) == Skipped <==> op.ending.Skip?
  {
    ErrorsExactly(musts);
  }
}
