/**
 Running a command through its fallback functors (circuitbreaker/circuit_breaker.go:116-224).

 Hystrix is an oracle: for every functor it either runs the functor once and reports its error, or
 rejects it unrun.  Cancellation is an oracle too, read at the two places where the code reads it.
 */
module CircuitBreaker {
  import opened Wrappers

  type Value = string
  type Fault = string

  datatype Functor = Functor(circuitName: string, providerName: string)

  datatype Exec = Done(value: Value) | Failed(fault: Fault)
  datatype Circuit = Runs | Rejects(fault: Fault)

  /** What the outside world does while one functor is handled. */
  datatype Behaviour = Behaviour(cancelBefore: bool, circuit: Circuit, exec: Exec, cancelDuring: bool)

  datatype Entry = Entry(name: string, fault: Option<Fault>)
  datatype CommandError = EmptyCommand | Failures(entries: seq<Entry>)
  datatype CallStatus = CallStatus(name: string, fault: Option<Fault>)

  datatype CommandResult = CommandResult(
    res: Option<Value>, err: Option<CommandError>, statuses: seq<CallStatus>, cancelled: bool)

  datatype Run = Run(functors: seq<Functor>, rename: Option<string -> string>, env: seq<Behaviour>)

  predicate WellFormed(run: Run) {
    |run.env| == |run.functors|
  }

  // ---------------------------------------------------------------------------
  // What each functor does in a run
  // ---------------------------------------------------------------------------

  function CircuitName(run: Run, i: nat): string
    requires i < |run.functors|
  {
    var name := run.functors[i].circuitName;
    if run.rename.Some? then run.rename.value(name) else name
  }

  /** The last functor and those without a circuit are executed directly. */
  predicate Direct(run: Run, i: nat)
    requires i < |run.functors|
  {
    i == |run.functors| - 1 || CircuitName(run, i) == ""
  }

  predicate Executed(run: Run, i: nat)
    requires WellFormed(run) && i < |run.functors|
  {
    Direct(run, i) || run.env[i].circuit.Runs?
  }

  predicate Succeeds(run: Run, i: nat)
    requires WellFormed(run) && i < |run.functors|
  {
    Executed(run, i) && run.env[i].exec.Done?
  }

  predicate CancelledBefore(run: Run, i: nat)
    requires WellFormed(run) && i < |run.functors|
  {
    run.env[i].cancelBefore
  }

  /** Cancellation is noticed after the functor only inside a circuit. */
  predicate CancelledInside(run: Run, i: nat)
    requires WellFormed(run) && i < |run.functors|
  {
    !Direct(run, i) && run.env[i].circuit.Runs? && run.env[i].cancelDuring
  }

  /** The loop goes on to the next functor. */
  predicate FallsThrough(run: Run, i: nat)
    requires WellFormed(run) && i < |run.functors|
  {
    !CancelledBefore(run, i) && !CancelledInside(run, i) && !Succeeds(run, i)
  }

  function ExecFault(e: Exec): Option<Fault> {
    if e.Done? then None else Some(e.fault)
  }

  /** The error a functor that falls through leaves behind. */
  function FaultOf(run: Run, i: nat): Option<Fault>
    requires WellFormed(run) && i < |run.functors|
  {
    if Executed(run, i) then ExecFault(run.env[i].exec)
    else if run.env[i].circuit.Rejects? then Some(run.env[i].circuit.fault) else None
  }

  /** The call statuses of the functors executed among the first k, in order. */
  function Statuses(run: Run, k: nat): seq<CallStatus>
    requires WellFormed(run) && k <= |run.functors|
  {
    if k == 0 then []
    else Statuses(run, k - 1) +
         (if Executed(run, k - 1)
          then [CallStatus(run.functors[k - 1].providerName, ExecFault(run.env[k - 1].exec))] else [])
  }

  /** The functors executed among the first k, in order. */
  function ExecutedIndices(run: Run, k: nat): seq<nat>
    requires WellFormed(run) && k <= |run.functors|
  {
    if k == 0 then [] else ExecutedIndices(run, k - 1) + (if Executed(run, k - 1) then [k - 1] else [])
  }

  /** The call statuses of the given calls. */
  function StatusesOf(run: Run, calls: seq<nat>): seq<CallStatus>
    requires WellFormed(run) && forall i | 0 <= i < |calls| :: calls[i] < |run.functors|
  {
    seq(|calls|, i requires 0 <= i < |calls| => CallStatus(run.functors[calls[i]].providerName, ExecFault(run.env[calls[i]].exec)))
  }

  function Entries(run: Run, k: nat): seq<Entry>
    requires WellFormed(run) && k <= |run.functors|
  {
    seq(k, i requires 0 <= i < k => Entry(run.functors[i].providerName, FaultOf(run, i)))
  }

  function Accumulated(entries: seq<Entry>): Option<CommandError> {
    if entries == [] then None else Some(Failures(entries))
  }

  /** k is where the loop ends: everything before falls through. */
  ghost predicate EndsAt(run: Run, k: nat)
    requires WellFormed(run)
  {
    && k <= |run.functors|
    && (forall i | 0 <= i < k :: FallsThrough(run, i))
    && (k < |run.functors| ==> !FallsThrough(run, k))
  }

  /** The result of a run that ends at k. */
  ghost predicate Ends(run: Run, k: nat, r: CommandResult)
    requires WellFormed(run) && k <= |run.functors|
  {
    if k == |run.functors| then
      r == CommandResult(None, Accumulated(Entries(run, k)), Statuses(run, k), false)
    else if CancelledBefore(run, k) then
      r == CommandResult(None, Accumulated(Entries(run, k)), Statuses(run, k), true)
    else if CancelledInside(run, k) then
      var cause := Entry(CircuitName(run, k), ExecFault(run.env[k].exec));
      if run.env[k].exec.Done? then
        r == CommandResult(Some(run.env[k].exec.value), Some(Failures([cause])), Statuses(run, k + 1), true)
      else
        r == CommandResult(None, Some(Failures(Entries(run, k) + [cause])), Statuses(run, k + 1), true)
    else
      run.env[k].exec.Done? && r == CommandResult(Some(run.env[k].exec.value), None, Statuses(run, k + 1), false)
  }

  /** How many functors a run that ends at k gets to handle. */
  function Handled(run: Run, k: nat): nat
    requires WellFormed(run) && k <= |run.functors|
  {
    if k == |run.functors| || CancelledBefore(run, k) then k else k + 1
  }

  // ---------------------------------------------------------------------------
  // The code
  // ---------------------------------------------------------------------------

  /** accumulateCommandError */
  function AccumulateCommandError(result: CommandResult, name: string, fault: Option<Fault>): CommandResult {
    var before := if result.err.Some? && result.err.value.Failures? then result.err.value.entries else [];
    result.(err := Some(Failures(before + [Entry(name, fault)])))
  }

  function AddCallStatus(result: CommandResult, name: string, fault: Option<Fault>): CommandResult {
    result.(statuses := result.statuses + [CallStatus(name, fault)])
  }

  /** Running functor i: the result is written only on success, the call status always; `calls` records the call. */
  method ExecFunctor(f: Functor, exec: Exec, before: CommandResult, i: nat, calls: seq<nat>)
    returns (result: CommandResult, made: seq<nat>)
    ensures result == AddCallStatus(
              if exec.Done? then before.(res := Some(exec.value), err := None) else before, f.providerName, ExecFault(exec))
    ensures made == calls + [i]
  {
    result, made := before, calls + [i];
    if exec.Done? {
      result := result.(res := Some(exec.value), err := None);
    }
    result := AddCallStatus(result, f.providerName, ExecFault(exec));
  }

  /** The result while the loop is about to handle functor i. */
  ghost predicate SoFar(run: Run, i: nat, result: CommandResult, calls: seq<nat>)
    requires WellFormed(run) && i <= |run.functors|
  {
    && result == CommandResult(None, Accumulated(Entries(run, i)), Statuses(run, i), false)
    && calls == ExecutedIndices(run, i)
  }

  /** Functor i, directly or in its circuit, once the command is known not to be cancelled before it. */
  method HandleFunctor(run: Run, i: nat, before: CommandResult, calls: seq<nat>)
    returns (result: CommandResult, made: seq<nat>, goesOn: bool)
    requires WellFormed(run) && i < |run.functors| && !CancelledBefore(run, i) && SoFar(run, i, before, calls)
    ensures goesOn == FallsThrough(run, i) && made == ExecutedIndices(run, i + 1)
    ensures if goesOn then SoFar(run, i + 1, result, made) else Ends(run, i, result)
  {
    var f, b := run.functors[i], run.env[i];
    result, made := before, calls;
    var circuitName := CircuitName(run, i);
    var err: Option<Fault>;
    if i == |run.functors| - 1 || circuitName == "" {
      result, made := ExecFunctor(f, b.exec, result, i, made);
      err := ExecFault(b.exec);
    } else if b.circuit.Rejects? {
      err := Some(b.circuit.fault);
    } else {
      result, made := ExecFunctor(f, b.exec, result, i, made);
      err := ExecFault(b.exec);
      if b.cancelDuring {
        assert [] + [Entry(circuitName, err)] == [Entry(circuitName, err)];
        result := AccumulateCommandError(result, circuitName, err);
        result := result.(cancelled := true);
        err := None;
      }
    }
    goesOn := err.Some?;
    if goesOn {
      result := AccumulateCommandError(result, f.providerName, err);
      assert Entries(run, i + 1) == Entries(run, i) + [Entry(f.providerName, err)];
    }
  }

  /** Execute; `functors` empty stands for a nil or empty command, and `calls` records the functors it called. */
  method Execute(run: Run) returns (result: CommandResult, calls: seq<nat>)
    requires WellFormed(run)
    ensures run.functors == [] ==> result == CommandResult(None, Some(EmptyCommand), [], false) && calls == []
    ensures run.functors != [] ==>
              exists k :: EndsAt(run, k) && Ends(run, k, result) && calls == ExecutedIndices(run, Handled(run, k))
  {
    calls := [];
    if run.functors == [] {
      return CommandResult(None, Some(EmptyCommand), [], false), calls;
    }
    result := CommandResult(None, None, [], false);
    for i := 0 to |run.functors|
      invariant forall j | 0 <= j < i :: FallsThrough(run, j)
      invariant SoFar(run, i, result, calls)
    {
      if run.env[i].cancelBefore {
        result := result.(cancelled := true);
        assert EndsAt(run, i) && Ends(run, i, result);
        return;
      }
      var goesOn;
      result, calls, goesOn := HandleFunctor(run, i, result, calls);
      if !goesOn {
        assert EndsAt(run, i) && Ends(run, i, result);
        return;
      }
    }
    assert EndsAt(run, |run.functors|) && Ends(run, |run.functors|, result);
  }

  // ---------------------------------------------------------------------------
  // Uncancelled runs
  // ---------------------------------------------------------------------------

  ghost predicate Uncancelled(run: Run)
    requires WellFormed(run)
  {
    forall i | 0 <= i < |run.functors| :: !CancelledBefore(run, i) && !CancelledInside(run, i)
  }

  /** The end of a run is determined by its oracles. */
  lemma EndIsUnique(run: Run, j: nat, k: nat)
    requires WellFormed(run) && EndsAt(run, j) && EndsAt(run, k)
    ensures j == k
  {
  }

  /**
   Some functor succeeds: the first one decides, without an error; it was called, and none after it.
   `calls` is what Execute called.
   */
  lemma FirstSuccessWins(run: Run, first: nat, k: nat, r: CommandResult, calls: seq<nat>)
    requires WellFormed(run) && Uncancelled(run) && EndsAt(run, k) && Ends(run, k, r)
    requires calls == ExecutedIndices(run, Handled(run, k))
    requires first < |run.functors| && Succeeds(run, first) && forall i | 0 <= i < first :: !Succeeds(run, i)
    ensures r.res == Some(run.env[first].exec.value) && r.err == None && !r.cancelled
    ensures first in calls && forall i | i in calls :: i <= first && (i < first ==> run.env[i].exec.Failed?)
  {
    assert !FallsThrough(run, first) && forall i | 0 <= i < first :: FallsThrough(run, i);
    EndIsUnique(run, k, first);
    IndicesAreExecuted(run, first + 1);
    assert Handled(run, k) == first + 1;
    forall i | i in calls ensures i <= first && (i < first ==> run.env[i].exec.Failed?) {
      assert Executed(run, i) && (i < first ==> !Succeeds(run, i));
    }
  }

  /** No functor succeeds: the error lists every functor with its own fault, in order, and the last one was called. */
  lemma AllFail(run: Run, k: nat, r: CommandResult, calls: seq<nat>)
    requires WellFormed(run) && Uncancelled(run) && EndsAt(run, k) && Ends(run, k, r)
    requires calls == ExecutedIndices(run, Handled(run, k))
    requires run.functors != [] && forall i | 0 <= i < |run.functors| :: !Succeeds(run, i)
    ensures r.res == None && !r.cancelled && r.err.Some? && r.err.value.Failures?
    ensures |r.err.value.entries| == |run.functors|
    ensures forall i | 0 <= i < |run.functors| ::
              && r.err.value.entries[i] == Entry(run.functors[i].providerName, FaultOf(run, i))
              && r.err.value.entries[i].fault.Some?
    ensures calls != [] && calls[|calls| - 1] == |run.functors| - 1
  {
    var n := |run.functors|;
    assert forall i | 0 <= i < n :: FallsThrough(run, i);
    EndIsUnique(run, k, n);
    forall i | 0 <= i < n ensures Entries(run, n)[i].fault.Some? {
      assert !Succeeds(run, i);
    }
    assert ExecutedIndices(run, n) == ExecutedIndices(run, n - 1) + [n - 1];
  }

  lemma {:induction false} IndicesAreExecuted(run: Run, k: nat)
    requires WellFormed(run) && k <= |run.functors|
    ensures var ids := ExecutedIndices(run, k);
            && (forall i, j | 0 <= i < j < |ids| :: ids[i] < ids[j])
            && (forall i :: i in ids <==> 0 <= i < k && Executed(run, i))
  {
    if k > 0 {
      IndicesAreExecuted(run, k - 1);
      var init, ids := ExecutedIndices(run, k - 1), ExecutedIndices(run, k);
      forall i | 0 <= i < |init| ensures init[i] < k - 1 { assert init[i] in init; }
    }
  }

  lemma {:induction false} StatusesAreOfExecuted(run: Run, k: nat)
    requires WellFormed(run) && k <= |run.functors|
    ensures forall i | 0 <= i < |ExecutedIndices(run, k)| :: ExecutedIndices(run, k)[i] < k
    ensures Statuses(run, k) == StatusesOf(run, ExecutedIndices(run, k))
  {
    if k > 0 {
      StatusesAreOfExecuted(run, k - 1);
    }
  }

  /** The call statuses are those of the calls made, one each and in the order of the calls, which is ascending. */
  lemma StatusesListCalls(run: Run, k: nat, r: CommandResult, calls: seq<nat>)
    requires WellFormed(run) && EndsAt(run, k) && Ends(run, k, r) && calls == ExecutedIndices(run, Handled(run, k))
    ensures forall i | 0 <= i < |calls| :: calls[i] < |run.functors|
    ensures r.statuses == StatusesOf(run, calls)
    ensures forall i, j | 0 <= i < j < |calls| :: calls[i] < calls[j]
  {
    StatusesAreOfExecuted(run, Handled(run, k));
    IndicesAreExecuted(run, Handled(run, k));
  }

  // ---------------------------------------------------------------------------
  // Cancelled runs
  // ---------------------------------------------------------------------------

  /** The circuit's name as the handler gives it, if there is one. */
  predicate InCircuit(run: Run, i: nat)
    requires i < |run.functors|
  {
    i < |run.functors| - 1 &&
    match run.rename
    case None => run.functors[i].circuitName != ""
    case Some(handler) => handler(run.functors[i].circuitName) != ""
  }

  /** A functor is called unless its circuit rejects it. */
  lemma ExecutedExactly(run: Run, i: nat)
    requires WellFormed(run) && i < |run.functors|
    ensures Executed(run, i) <==> !(InCircuit(run, i) && run.env[i].circuit.Rejects?)
  {
  }

  /** The fault an error entry names: the circuit's for a rejected functor, the functor's own for one that ran and failed. */
  lemma FaultMeaning(run: Run, i: nat)
    requires WellFormed(run) && i < |run.functors|
    ensures InCircuit(run, i) && run.env[i].circuit.Rejects? ==> FaultOf(run, i) == Some(run.env[i].circuit.fault)
    ensures !(InCircuit(run, i) && run.env[i].circuit.Rejects?) ==>
              FaultOf(run, i) == if run.env[i].exec.Failed? then Some(run.env[i].exec.fault) else None
  {
  }

  /** Cancellation seen before functor k, or after it was called in its circuit. */
  predicate SeenCancelled(run: Run, k: nat)
    requires WellFormed(run)
  {
    k < |run.functors| &&
    (run.env[k].cancelBefore || (InCircuit(run, k) && run.env[k].circuit.Runs? && run.env[k].cancelDuring))
  }

  /** The result says cancelled exactly when the run ended because cancellation was seen. */
  lemma CancelledExactly(run: Run, k: nat, r: CommandResult)
    requires WellFormed(run) && EndsAt(run, k) && Ends(run, k, r)
    ensures r.cancelled <==> SeenCancelled(run, k)
  {
  }

  /** Seen before functor k: no value, and one error entry for every functor before it, with its own fault. */
  lemma CancelledBeforeResult(run: Run, k: nat, r: CommandResult)
    requires WellFormed(run) && EndsAt(run, k) && Ends(run, k, r) && k < |run.functors| && run.env[k].cancelBefore
    ensures r.res == None && r.cancelled
    ensures k == 0 ==> r.err == None
    ensures k > 0 ==>
              && r.err.Some? && r.err.value.Failures? && |r.err.value.entries| == k
              && forall i | 0 <= i < k :: r.err.value.entries[i] == Entry(run.functors[i].providerName, FaultOf(run, i))
  {
  }

  /** A value comes together with an error exactly when the functor succeeded in its circuit and cancellation was seen after it. */
  lemma ValueWithErrorExactly(run: Run, k: nat, r: CommandResult)
    requires WellFormed(run) && EndsAt(run, k) && Ends(run, k, r)
    ensures r.res.Some? && r.err.Some? <==>
              && k < |run.functors| && !run.env[k].cancelBefore && InCircuit(run, k) && run.env[k].circuit.Runs?
              && run.env[k].cancelDuring && run.env[k].exec.Done?
  {
  }

  /** Such a run: two functors, the first succeeds in its circuit while the command is cancelled. */
  lemma CancelledSuccessHasError()
    ensures var run := Run([Functor("c", "p"), Functor("d", "q")], None,
                           [Behaviour(false, Runs, Done("v"), true), Behaviour(false, Runs, Done("w"), false)]);
            var r := CommandResult(Some("v"), Some(Failures([Entry("c", None)])), [CallStatus("p", None)], true);
            WellFormed(run) && EndsAt(run, 0) && Ends(run, 0, r)
  {
    var run := Run([Functor("c", "p"), Functor("d", "q")], None,
                   [Behaviour(false, Runs, Done("v"), true), Behaviour(false, Runs, Done("w"), false)]);
    assert Statuses(run, 1) == Statuses(run, 0) + [CallStatus("p", None)];
  }
}
