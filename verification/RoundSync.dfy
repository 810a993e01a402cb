/** The object shared by master and workers, and its threads, updated in place. */
module RoundSync {
  import opened Rounds
  import opened RoundSteps

  class Sync {
    const nbworkers: nat
    var nbready: nat
    var status: Status
    var errmsg: Message
    var raised: bool
    var master: Master
    var pcs: seq<Pc>
    var messages: seq<Message>
    var leaves: seq<bool>
    var verdict: Verdict
    ghost var round: nat
    ghost var joined: seq<nat>
    ghost var started: seq<nat>
    ghost var finished: seq<nat>
    ghost var errors: seq<Message>

    ghost function View(): State
      reads this
    {
      State(nbready, status, errmsg, raised, master, pcs, messages, leaves, round, joined, started, finished, errors,
        verdict)
    }

    ghost predicate Valid()
      reads this
    {
      |pcs| == nbworkers && Inv(View())
    }

    constructor (nbworkers: nat)
      requires nbworkers > 0
      ensures this.nbworkers == nbworkers && View() == Init(nbworkers) && Valid()
    {
      this.nbworkers := nbworkers;
      nbready, status, errmsg, raised, master, verdict := 0, Done, 0, false, Free, None;
      pcs, messages, leaves := seq(nbworkers, _ => Idle), seq(nbworkers, _ => 0), seq(nbworkers, _ => false);
      round, errors := 0, [];
      joined, started, finished := seq(nbworkers, _ => 0), seq(nbworkers, _ => 0), seq(nbworkers, _ => 0);
      new;
      InitInv(nbworkers);
      assert View() == Init(nbworkers);
    }

    /** Any one operation of any thread keeps the invariant. */
    method Take(st: Step)
      requires Valid() && Enabled(View(), st)
      modifies this
      ensures Valid() && View() == Next(old(View()), st)
    {
      StepKeeps(View(), st);
      match st {
        case Notify => MasterNotify();
        case Join => MasterJoin();
        case Finish(w, outcome) => EndBody(w, outcome);
        case Act(w) => Operate(w);
        case _ => MasterWait(st.GiveUp?);
      }
    }

    method Operate(w: nat)
      requires Shaped(View()) && |pcs| == nbworkers && Enabled(View(), Act(w))
      modifies this
      ensures |pcs| == nbworkers && View() == Next(old(View()), Act(w))
    {
      if pcs[w] in {Idle, Joining, ResettingReady, Starting, Awaiting} {
        WorkerWait(w);
      } else if pcs[w] in {Blaming, Aborting, Reporting} {
        WorkerNotify(w);
      } else {
        EndRound(w);
      }
    }

    method MasterNotify()
      requires Shaped(View()) && master.Free?
      modifies this`status, this`master, this`verdict, this`round, this`errors
      ensures View() == Next(old(View()), Notify)
    {
      status := Wait;
      master, verdict := WaitingLatch, None;
      round, errors := round + 1, [];
    }

    method MasterJoin()
      requires Shaped(View()) && (master.Free? || master.Failed?)
      modifies this`status, this`master
      ensures View() == Next(old(View()), Join)
    {
      status := Quit;
      master := Joined;
    }

    /** The operations of master_wait: take the latch, or give up when the time limit runs out before it is raised;
        read the status; read the message. */
    method MasterWait(timedOut: bool)
      requires Shaped(View())
      requires (master.WaitingLatch? && raised == !timedOut) || master.ReadingStatus? || master.ReadingError?
      modifies this`raised, this`master, this`verdict
      ensures View() == Next(old(View()),
        if old(master).WaitingLatch? then (if timedOut then GiveUp else Wake)
        else if old(master).ReadingStatus? then ReadStatus else ReadError)
    {
      if master == WaitingLatch {
        if timedOut {
          master, verdict := GaveUp, Overrun;
        } else {
          raised := false;
          master := ReadingStatus;
        }
      } else if master == ReadingStatus {
        match status {
          case Done => master, verdict := Free, Good;
          case Fail => master := ReadingError;
          case _ => master, verdict := Failed, Unreachable;
        }
      } else {
        master, verdict := Failed, Bad(errmsg);
      }
    }

    /** The operations of worker_wait. */
    method WorkerWait(w: nat)
      requires Shaped(View()) && |pcs| == nbworkers && w < |pcs|
      requires pcs[w] in {Idle, Joining, ResettingReady, Starting, Awaiting}
      modifies this`nbready, this`status, this`pcs, this`joined, this`started
      ensures |pcs| == nbworkers && View() == Next(old(View()), Act(w))
    {
      match pcs[w] {
        case Idle =>
          if status == Wait {
            pcs := pcs[w := Joining];
          } else if status == Quit {
            pcs := pcs[w := Gone];
          }
        case Joining =>
          nbready := nbready + 1;
          joined := Bump(joined, w);
          pcs := pcs[w := if nbready == nbworkers then ResettingReady else Awaiting];
        case ResettingReady =>
          nbready := 0;
          pcs := pcs[w := Starting];
        case Starting =>
          status := Run;
          started := Bump(started, w);
          pcs := pcs[w := Working];
        case Awaiting =>
          if status == Run || status == Abort {
            started := Bump(started, w);
            pcs := pcs[w := Working];
          }
      }
    }

    /** The end of the round body, and what it hands to worker_notify. */
    method EndBody(w: nat, outcome: Outcome)
      requires Shaped(View()) && w < |pcs| && pcs[w].Working?
      modifies this`pcs, this`messages, this`leaves, this`errors
      ensures View() == Next(old(View()), Finish(w, outcome))
    {
      match outcome {
        case Success => pcs := pcs[w := Reporting];
        case Error(m) =>
          pcs, messages := pcs[w := Blaming], messages[w := m];
          errors := errors + [m];
        case Throws(m) =>
          pcs, messages, leaves := pcs[w := Blaming], messages[w := m], leaves[w := true];
          errors := errors + [m];
      }
    }

    /** The operations of worker_notify up to counting oneself out. */
    method WorkerNotify(w: nat)
      requires Shaped(View()) && |pcs| == nbworkers && w < |pcs| && pcs[w] in {Blaming, Aborting, Reporting}
      modifies this`nbready, this`status, this`errmsg, this`raised, this`pcs, this`finished
      ensures |pcs| == nbworkers && View() == Next(old(View()), Act(w))
    {
      match pcs[w] {
        case Blaming =>
          errmsg := messages[w];
          pcs := pcs[w := Aborting];
        case Aborting =>
          status := Abort;
          pcs := pcs[w := Reporting];
        case Reporting =>
          nbready := nbready + 1;
          finished := Bump(finished, w);
          pcs := pcs[w := if nbready == nbworkers then ClearingReady else if leaves[w] then Gone else Idle];
      }
    }

    /** What only the last worker out does. */
    method EndRound(w: nat)
      requires Shaped(View()) && |pcs| == nbworkers && w < |pcs|
      requires pcs[w] in {ClearingReady, Judging, StoringDone, StoringFail, Raising}
      modifies this`nbready, this`status, this`raised, this`pcs
      ensures |pcs| == nbworkers && View() == Next(old(View()), Act(w))
    {
      match pcs[w] {
        case ClearingReady =>
          nbready := 0;
          pcs := pcs[w := Judging];
        case Judging =>
          pcs := pcs[w := if status == Abort then StoringFail else StoringDone];
        case StoringDone =>
          status := Done;
          pcs := pcs[w := Raising];
        case StoringFail =>
          status := Fail;
          pcs := pcs[w := Raising];
        case Raising =>
          raised := true;
          pcs := pcs[w := if leaves[w] then Gone else Idle];
      }
    }
  }
}
