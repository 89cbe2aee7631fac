/**
 * The stop handshake of `watch_snapshots`: a worker thread that opens WATCH responses and may block
 * reading one, and a consumer that stops. They share the stop flag and the recorded response, and
 * every step below is one atomic access.
 */
module StopHandshake {
  import opened Wrappers
  import opened Transitions

  /** Where the worker is; responses are numbered in the order they are opened. */
  datatype Worker =
    | Listing                    // in the LIST, or before its stop check
    | Requesting                 // the WATCH request is being made
    | Holding(response: nat)     // it answered, and is not yet recorded
    | Recorded(response: nat)    // recorded, and the stop flag not yet read
    | Ending(response: nat)      // the flag was set, and the response is not yet shut down
    | Reading(response: nat)     // reading, possibly blocked
    | Returned(response: nat)    // a read returned, before the stop check that follows
    | Finished

  datatype Consumer =
    | Consuming
    | Stopping                   // the flag is set
    | Fetched(open: Option<nat>) // the recorded response has been read
    | Cleaned                    // the cleanup is complete

  datatype State = State(worker: Worker, consumer: Consumer, stop: bool, open: Option<nat>, shut: set<nat>, next: nat, late: nat)

  datatype Step =
    | Proceed                    // the stop check after a LIST lets the worker on
    | Answer                     // the WATCH request answers
    | Fail                       // a request or a read raises
    | Record
    | CheckRecorded
    | EndOwnRead
    | Return                     // an event, the timeout, or the end of the connection
    | Resume                     // the stop check lets the worker read on
    | Relist                     // the stop check after a WATCH lets the worker list again
    | Finish                     // a stop check ends the worker: the flag, or the deadline
    | SetStop
    | Fetch
    | EndOther

  ghost predicate Next(s: State, e: Step, t: State) {
    match e
    case Proceed => s.worker.Listing? && !s.stop && t == s.(worker := Requesting)
    case Answer =>
      && s.worker.Requesting?
      && t == s.(worker := Holding(s.next), next := s.next + 1, late := s.late + if s.stop then 1 else 0)
    case Fail => (s.worker.Listing? || s.worker.Requesting? || s.worker.Reading?) && t == s.(worker := Finished)
    case Record => s.worker.Holding? && t == s.(worker := Recorded(s.worker.response), open := Some(s.worker.response))
    case CheckRecorded =>
      s.worker.Recorded? && t == s.(worker := if s.stop then Ending(s.worker.response) else Reading(s.worker.response))
    case EndOwnRead => s.worker.Ending? && t == s.(worker := Reading(s.worker.response), shut := s.shut + {s.worker.response})
    case Return => s.worker.Reading? && t == s.(worker := Returned(s.worker.response))
    case Resume => s.worker.Returned? && !s.stop && t == s.(worker := Reading(s.worker.response))
    case Relist => s.worker.Returned? && !s.stop && t == s.(worker := Listing)
    case Finish => (s.worker.Listing? || s.worker.Returned?) && t == s.(worker := Finished)
    case SetStop => s.consumer.Consuming? && t == s.(consumer := Stopping, stop := true)
    case Fetch => s.consumer.Stopping? && t == s.(consumer := Fetched(s.open))
    case EndOther =>
      && s.consumer.Fetched?
      && t == s.(consumer := Cleaned, shut := s.shut + if s.consumer.open.Some? then {s.consumer.open.value} else {})
  }

  ghost predicate Init(s: State) {
    s == State(Listing, Consuming, false, None, {}, 0, 0)
  }

  /** A response the worker reads is shut down, or the consumer has yet to find it. */
  ghost predicate Covered(s: State, response: nat) {
    || response in s.shut
    || s.consumer.Consuming? || s.consumer.Stopping?
    || s.consumer == Fetched(Some(response))
  }

  ghost predicate Inv(s: State) {
    && (s.stop <==> !s.consumer.Consuming?)
    && (s.worker.Recorded? || s.worker.Ending? || s.worker.Reading? || s.worker.Returned? ==> s.open == Some(s.worker.response))
    && (s.worker.Reading? || s.worker.Returned? ==> Covered(s, s.worker.response))
    && s.late <= 1
    && (s.late == 1 ==> s.stop && !s.worker.Listing? && !s.worker.Requesting?)
  }

  lemma {:induction false} StepKeepsInv(s: State, e: Step, t: State)
    requires Inv(s) && Next(s, e, t)
    ensures Inv(t)
  {}

  lemma {:induction false} RunInv(states: seq<State>, steps: seq<Step>, n: nat)
    requires IsRun((s, e, t) => Next(s, e, t), states, steps) && Init(states[0]) && n < |states|
    ensures Inv(states[n])
  {
    var inv, next := (s: State) => Inv(s), (s: State, e: Step, t: State) => Next(s, e, t);
    assert IsRun(next, states, steps) by {
      forall i, j | 0 <= i < |steps| && j == i + 1 ensures next(states[i], steps[i], states[j]) {
        assert ((s: State, e: Step, t: State) => Next(s, e, t))(states[i], steps[i], states[j]);
      }
    }
    forall s, e, t | inv(s) && next(s, e, t) ensures inv(t) { StepKeepsInv(s, e, t); }
    InvariantHolds(inv, next, states, steps, n);
  }

  /** Once the cleanup is complete, any response the worker can be blocked on has been shut down. */
  lemma {:induction false} NoReadOutlivesCleanup(states: seq<State>, steps: seq<Step>, n: nat)
    requires IsRun((s, e, t) => Next(s, e, t), states, steps) && Init(states[0]) && n < |states|
    ensures states[n].consumer.Cleaned? && states[n].worker.Reading? ==> states[n].worker.response in states[n].shut
  {
    RunInv(states, steps, n);
  }

  /** After the stop flag is set the worker opens at most one more response, and never lists or requests again after it. */
  lemma {:induction false} AtMostOneLateResponse(states: seq<State>, steps: seq<Step>, n: nat)
    requires IsRun((s, e, t) => Next(s, e, t), states, steps) && Init(states[0]) && n < |states|
    ensures states[n].late <= 1
    ensures states[n].late == 1 ==> !states[n].worker.Listing? && !states[n].worker.Requesting?
  {
    RunInv(states, steps, n);
  }

  /** How far a stopped worker still has to go. */
  function Distance(w: Worker): nat {
    match w
    case Listing => 7
    case Requesting => 6
    case Holding(_) => 5
    case Recorded(_) => 4
    case Ending(_) => 3
    case Reading(_) => 2
    case Returned(_) => 1
    case Finished => 0
  }

  /** Once the flag is set, every step of the worker brings it closer to its end. */
  lemma {:induction false} StoppedWorkerDescends(s: State, e: Step, t: State)
    requires Inv(s) && s.stop && Next(s, e, t)
    ensures t.stop && (if e.SetStop? || e.Fetch? || e.EndOther? then t.worker == s.worker else Distance(t.worker) < Distance(s.worker))
  {}

  /** After the flag is set the worker takes at most seven more steps, however the threads interleave. */
  lemma {:induction false} StoppedWorkerEnds(states: seq<State>, steps: seq<Step>, m: nat, n: nat)
    requires IsRun((s, e, t) => Next(s, e, t), states, steps) && Init(states[0]) && m <= n < |states| && states[m].stop
    ensures states[n].stop && WorkerSteps(steps, m, n) + Distance(states[n].worker) <= Distance(states[m].worker)
    decreases n - m
  {
    if m < n {
      StoppedWorkerEnds(states, steps, m, n - 1);
      RunInv(states, steps, n - 1);
      assert Next(states[n - 1], steps[n - 1], states[n]);
      StoppedWorkerDescends(states[n - 1], steps[n - 1], states[n]);
    }
  }

  /** The worker's steps among those from m up to n. */
  function WorkerSteps(steps: seq<Step>, m: nat, n: nat): nat
    requires m <= n <= |steps|
    decreases n - m
  {
    if m == n then 0
    else WorkerSteps(steps, m, n - 1) + if steps[n - 1].SetStop? || steps[n - 1].Fetch? || steps[n - 1].EndOther? then 0 else 1
  }
}
