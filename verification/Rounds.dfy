/** The master/worker round protocol: one master, any number of workers, each atomic operation one step. */
module Rounds {
  import opened Counting

  datatype Status = Wait | Run | Abort | Done | Fail | Quit

  /** What a worker does next, in worker_wait, in its round body, or in worker_notify. */
  datatype Pc =
    | Idle           // spins until Wait or Quit
    | Joining        // counts itself in
    | ResettingReady // last one in: clears the counter
    | Starting       // last one in: stores Run
    | Awaiting       // spins until Run or Abort
    | Working        // runs the round body
    | Blaming        // stores its error message
    | Aborting       // stores Abort
    | Reporting      // counts itself out
    | ClearingReady  // last one out: clears the counter
    | Judging        // last one out: reads the status
    | StoringDone
    | StoringFail
    | Raising        // last one out: raises the latch
    | Gone

  /** The master: free to notify or join, in master_wait, or finished; GaveUp when its time limit ran out. */
  datatype Master = Free | WaitingLatch | ReadingStatus | ReadingError | Failed | Joined | GaveUp

  type Message = nat

  /** How a round body ends; after an exception the worker reports an error and leaves for good. */
  datatype Outcome = Success | Error(m: Message) | Throws(m: Message)

  datatype Verdict = None | Good | Bad(m: Message) | Overrun | Unreachable

  datatype State = State(
    nbready: nat,
    status: Status,
    errmsg: Message,
    raised: bool,
    master: Master,
    pcs: seq<Pc>,
    messages: seq<Message>,   // the error a worker reports
    leaves: seq<bool>,        // whether the worker leaves after reporting
    // history
    round: nat,               // how often the master has notified
    joined: seq<nat>,         // rounds each worker has counted itself in for,
    started: seq<nat>,        //   begun the body of,
    finished: seq<nat>,       //   and counted itself out of
    errors: seq<Message>,     // errors reported in this round
    verdict: Verdict)         // what the last master_wait returned

  datatype Step =
    | Notify | Join | Wake | GiveUp | ReadStatus | ReadError
    | Act(w: nat)
    | Finish(w: nat, outcome: Outcome)

  function Init(n: nat): State {
    State(0, Done, 0, false, Free, seq(n, _ => Idle), seq(n, _ => 0), seq(n, _ => false),
          0, seq(n, _ => 0), seq(n, _ => 0), seq(n, _ => 0), [], None)
  }

  predicate Shaped(s: State) {
    |s.pcs| == |s.messages| == |s.leaves| == |s.joined| == |s.started| == |s.finished| > 0
  }

  predicate Enabled(s: State, st: Step) {
    match st
    case Notify => s.master.Free?
    case Join => s.master.Free? || s.master.Failed?
    case Wake => s.master.WaitingLatch? && s.raised
    case GiveUp => s.master.WaitingLatch? && !s.raised
    case ReadStatus => s.master.ReadingStatus?
    case ReadError => s.master.ReadingError?
    case Act(w) => w < |s.pcs| && !s.pcs[w].Working? && !s.pcs[w].Gone?
    case Finish(w, _) => w < |s.pcs| && s.pcs[w].Working?
  }

  function Goto(s: State, w: nat, pc: Pc): State
    requires w < |s.pcs|
  {
    s.(pcs := s.pcs[w := pc])
  }

  function Bump(q: seq<nat>, w: nat): seq<nat>
    requires w < |q|
  {
    q[w := q[w] + 1]
  }

  function Released(s: State, w: nat): State
    requires Shaped(s) && w < |s.pcs|
  {
    Goto(s, w, Working).(started := Bump(s.started, w))
  }

  function Home(s: State, w: nat): Pc
    requires Shaped(s) && w < |s.pcs|
  {
    if s.leaves[w] then Gone else Idle
  }

  /** One atomic operation of worker w. */
  function DoAct(s: State, w: nat): State
    requires Shaped(s) && Enabled(s, Act(w))
  {
    var n := |s.pcs|;
    match s.pcs[w]
    case Idle =>
      if s.status.Wait? then Goto(s, w, Joining) else if s.status.Quit? then Goto(s, w, Gone) else s
    case Joining =>
      Goto(s, w, if s.nbready + 1 == n then ResettingReady else Awaiting)
      .(nbready := s.nbready + 1, joined := Bump(s.joined, w))
    case ResettingReady => Goto(s, w, Starting).(nbready := 0)
    case Starting => Released(s, w).(status := Run)
    case Awaiting => if s.status.Run? || s.status.Abort? then Released(s, w) else s
    case Blaming => Goto(s, w, Aborting).(errmsg := s.messages[w])
    case Aborting => Goto(s, w, Reporting).(status := Abort)
    case Reporting =>
      Goto(s, w, if s.nbready + 1 == n then ClearingReady else Home(s, w))
      .(nbready := s.nbready + 1, finished := Bump(s.finished, w))
    case ClearingReady => Goto(s, w, Judging).(nbready := 0)
    case Judging => Goto(s, w, if s.status.Abort? then StoringFail else StoringDone)
    case StoringDone => Goto(s, w, Raising).(status := Done)
    case StoringFail => Goto(s, w, Raising).(status := Fail)
    case Raising => Goto(s, w, Home(s, w)).(raised := true)
    case Working => s
    case Gone => s
  }

  function DoFinish(s: State, w: nat, outcome: Outcome): State
    requires Shaped(s) && Enabled(s, Finish(w, outcome))
  {
    match outcome
    case Success => Goto(s, w, Reporting)
    case Error(m) => Goto(s, w, Blaming).(messages := s.messages[w := m], errors := s.errors + [m])
    case Throws(m) =>
      Goto(s, w, Blaming).(messages := s.messages[w := m], leaves := s.leaves[w := true], errors := s.errors + [m])
  }

  function DoReadStatus(s: State): State {
    match s.status
    case Done => s.(master := Free, verdict := Good)
    case Fail => s.(master := ReadingError)
    case _ => s.(master := Failed, verdict := Unreachable)
  }

  function Next(s: State, st: Step): State
    requires Shaped(s) && Enabled(s, st)
  {
    match st
    case Notify => s.(status := Wait, master := WaitingLatch, round := s.round + 1, errors := [], verdict := None)
    case Join => s.(status := Quit, master := Joined)
    case Wake => s.(raised := false, master := ReadingStatus)
    case GiveUp => s.(master := GaveUp, verdict := Overrun)
    case ReadStatus => DoReadStatus(s)
    case ReadError => s.(master := Failed, verdict := Bad(s.errmsg))
    case Act(w) => DoAct(s, w)
    case Finish(w, outcome) => DoFinish(s, w, outcome)
  }

  /** A step that changes nothing: one turn of a spin loop. */
  predicate Spins(s: State, st: Step) {
    st.Act? && st.w < |s.pcs| &&
    ((s.pcs[st.w].Idle? && !s.status.Wait? && !s.status.Quit?)
     || (s.pcs[st.w].Awaiting? && !s.status.Run? && !s.status.Abort?))
  }

  // ---- the invariant, phase by phase ----

  const COMING: set<Pc> := {Idle, Joining}
  const IN: set<Pc> := {Awaiting, ResettingReady, Starting}
  const INSIDE: set<Pc> := {Awaiting, Working, Blaming, Aborting, Reporting}
  const OUT: set<Pc> := {Idle, Gone, ClearingReady, Judging, StoringDone, StoringFail, Raising}
  const LAST: set<Pc> := {Judging, StoringDone, StoringFail}

  ghost predicate Counts(s: State, w: nat, joined: nat, started: nat, finished: nat)
    requires Shaped(s) && w < |s.pcs|
  {
    s.joined[w] == joined && s.started[w] == started && s.finished[w] == finished
  }

  /** Everyone is in one of the given places, with its round behind it. */
  ghost predicate AllHome(s: State, places: set<Pc>)
    requires Shaped(s)
  {
    forall w :: 0 <= w < |s.pcs| ==> s.pcs[w] in places && Counts(s, w, s.round, s.round, s.round)
  }

  ghost predicate Staying(s: State)
    requires Shaped(s)
  {
    forall w :: 0 <= w < |s.pcs| ==> !s.leaves[w]
  }

  /** The round goes on, whether or not the master still waits for its end. */
  ghost predicate Unjudged(s: State) {
    (s.master.WaitingLatch? && s.verdict == None) || (s.master.GaveUp? && s.verdict == Overrun)
  }

  /** Workers count themselves in; the last one clears the counter and is about to store Run. */
  ghost predicate Gathering(s: State)
    requires Shaped(s)
  {
    && s.status.Wait? && Unjudged(s) && !s.raised && s.round > 0 && s.errors == [] && Staying(s)
    && (forall w :: 0 <= w < |s.pcs| ==>
          if s.pcs[w] in COMING then Counts(s, w, s.round - 1, s.round - 1, s.round - 1)
          else s.pcs[w] in IN && Counts(s, w, s.round, s.round - 1, s.round - 1))
    && (if Tally(s.pcs, {Starting}) == 0 then
          && s.nbready == Tally(s.pcs, IN)
          && Tally(s.pcs, {ResettingReady}) == if s.nbready == |s.pcs| then 1 else 0
        else
          && s.nbready == 0 && Tally(s.pcs, {Starting}) == 1 && Tally(s.pcs, {Starting, Awaiting}) == |s.pcs|)
  }

  ghost predicate RunPlaces(s: State)
    requires Shaped(s)
  {
    && (s.status.Run? || s.status.Abort?) && Unjudged(s) && !s.raised && s.round > 0
    && (forall w :: 0 <= w < |s.pcs| ==>
          if s.pcs[w] in INSIDE then
            Counts(s, w, s.round, if s.pcs[w].Awaiting? then s.round - 1 else s.round, s.round - 1)
          else s.pcs[w] in OUT - {Raising} && Counts(s, w, s.round, s.round, s.round))
  }

  ghost predicate RunCounts(q: seq<Pc>, nbready: nat) {
    if Tally(q, LAST) == 0 then
      && nbready == Tally(q, OUT)
      && Tally(q, {ClearingReady}) == if nbready == |q| then 1 else 0
    else
      && nbready == 0 && Tally(q, LAST) == 1 && Tally(q, LAST + {Idle, Gone}) == |q|
  }

  ghost predicate RunVerdict(s: State) {
    (Tally(s.pcs, {StoringFail}) > 0 ==> s.status.Abort?) && (Tally(s.pcs, {StoringDone}) > 0 ==> s.status.Run?)
  }

  /** The status and the message tell which errors have been reported so far. */
  ghost predicate Blamed(s: State)
    requires Shaped(s)
  {
    && (s.status.Abort? <==> |s.errors| > Tally(s.pcs, {Blaming, Aborting}))
    && Tally(s.pcs, {Blaming, Aborting}) <= |s.errors|
    && (|s.errors| > Tally(s.pcs, {Blaming}) ==> s.errmsg in s.errors)
    && (forall w :: 0 <= w < |s.pcs| && s.pcs[w].Blaming? ==> s.messages[w] in s.errors)
    && (forall w :: 0 <= w < |s.pcs| && s.leaves[w] ==> s.errors != [])
    && (forall w :: 0 <= w < |s.pcs| && s.pcs[w].Gone? ==> s.leaves[w])
  }

  /** Workers run the body and count themselves out; the last one clears the counter and judges. */
  ghost predicate Running(s: State)
    requires Shaped(s)
  {
    RunPlaces(s) && RunCounts(s.pcs, s.nbready) && Blamed(s) && RunVerdict(s)
  }

  /** Everyone is out; the status and the message are those of the round. */
  ghost predicate Judged(s: State)
    requires Shaped(s)
  {
    && (s.status.Done? || s.status.Fail?) && s.nbready == 0
    && (s.status.Fail? <==> s.errors != [])
    && (s.status.Fail? ==> s.errmsg in s.errors)
    && (s.status.Done? ==> Staying(s))
    && (forall w :: 0 <= w < |s.pcs| && s.pcs[w].Gone? ==> s.leaves[w])
  }

  /** The last worker is about to raise the latch. */
  ghost predicate Signalling(s: State)
    requires Shaped(s)
  {
    && Judged(s) && Unjudged(s) && !s.raised
    && AllHome(s, {Idle, Gone, Raising}) && Tally(s.pcs, {Raising}) == 1
  }

  /** The latch is raised, or the master has taken it and looks at the outcome. */
  ghost predicate Ended(s: State)
    requires Shaped(s)
  {
    && Judged(s) && AllHome(s, {Idle, Gone})
    && (s.raised <==> s.master in {WaitingLatch, GaveUp}) && (s.raised ==> Unjudged(s)) && !s.master.Joined?
    && (s.master.Free? ==> s.status.Done? && s.verdict in {None, Good})
    && (s.master in {ReadingStatus, ReadingError} ==> s.verdict == None)
    && (s.master.ReadingError? ==> s.status.Fail?)
    && (s.master.Failed? ==> s.status.Fail? && s.verdict.Bad? && s.verdict.m in s.errors)
  }

  /** Everyone is told to leave. */
  ghost predicate Quitting(s: State)
    requires Shaped(s)
  {
    && s.status.Quit? && s.master.Joined? && !s.raised && s.nbready == 0 && AllHome(s, {Idle, Gone})
    && (s.errors == [] ==> s.verdict in {None, Good})
    && (s.errors != [] ==> s.verdict.Bad? && s.verdict.m in s.errors)
  }

  ghost predicate Inv(s: State) {
    Shaped(s) && (Gathering(s) || Running(s) || Signalling(s) || Ended(s) || Quitting(s))
  }

  lemma InitInv(n: nat)
    requires n > 0
    ensures Inv(Init(n))
  {
    assert Ended(Init(n));
  }
}
