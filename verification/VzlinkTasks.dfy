// The supervisor object with the tasks and proxies around it: each step of the
// protocol is one of the object's methods (pkgs/vzlink/src/vzlink/supervisor.py).

module VzlinkTasks {
  import opened Prelude
  import opened VzlinkSupervisor
  import opened VzlinkProtocol

  class Tasks {
    const supervisor: Supervisor
    var signal: SignalPc
    var exited: bool
    var idleStopped: bool
    var phases: map<Id, Phase>
    var rpcs: map<Id, Rpc>

    ghost function View(): Sys
      reads this, supervisor
    {
      Sys(supervisor.State(), supervisor.LoopState(), signal, exited, idleStopped, phases, rpcs)
    }

    constructor (supervisor: Supervisor, proxies: set<Id>)
      requires supervisor.State() == Fresh && supervisor.LoopState() == LoopStart
      ensures this.supervisor == supervisor && Initial(View()) && View().phases.Keys == proxies
    {
      this.supervisor := supervisor;
      signal, exited, idleStopped := Listening, false, false;
      phases, rpcs := map id | id in proxies :: Preparing, map[];
    }

    /** One step of a proxy: it sends a request, reads an answer or gives up. */
    method Proxy(l: Label)
      requires Enabled(View(), l)
      requires l.Ask? || l.Connected? || l.EndForward? || l.Receive? || l.GiveUp?
      modifies this`phases, this`rpcs
      ensures View() == Next(old(View()), l, supervisor.config)
    {
      match l {
        case Ask(id) => phases, rpcs := phases[id := AskingUp], rpcs[id := Requested(EnsureUp)];
        case Connected(id) => phases, rpcs := phases[id := Registering], rpcs[id := Requested(Register)];
        case EndForward(id) => phases, rpcs := phases[id := Unregistering], rpcs[id := Requested(Unregister)];
        case Receive(id, retry) =>
          phases, rpcs := phases[id := AfterAnswer(phases[id], rpcs[id].response, retry)], rpcs - {id};
        case GiveUp(id) => phases := phases[id := Closed];
      }
    }

    /** One step of a request's handler between two awaits. */
    method Serve(l: Label)
      requires Enabled(View(), l) && (l.Handle? || l.GetLock? || l.BootEnds?)
      modifies this`rpcs, supervisor
      ensures View() == Next(old(View()), l, supervisor.config)
    {
      match l {
        case Handle(id) =>
          var d := supervisor.HandleRequest(rpcs[id].op, id);
          rpcs := rpcs[id := if d.Replied? then Answered(d.response) else Waiting];
        case GetLock(id) =>
          var answer := supervisor.TakeBootLock(id);
          rpcs := rpcs[id := if answer.Some? then Answered(answer.value) else Booting];
        case BootEnds(id, status, info) =>
          var answer := Response(EnsureUp, status, info);
          supervisor.BootAnswered(answer);
          rpcs := rpcs[id := Answered(answer)];
      }
    }

    /** One step of the idle loop or the signal watcher. */
    method Watch(l: Label)
      requires Enabled(View(), l)
      requires l.WakeUp? || l.ProbeEnds? || l.LoopStopDone? || l.SignalArrives? || l.SignalStopDone?
      modifies this`signal, this`exited, this`idleStopped, supervisor
      ensures View() == Next(old(View()), l, supervisor.config)
    {
      match l {
        case WakeUp(alive) =>
          supervisor.WakeUp(alive);
          LoopReturned();
        case ProbeEnds(answers, now) =>
          supervisor.ProbeAnswered(answers, now);
          LoopReturned();
        case LoopStopDone =>
          supervisor.pc := Ended;
          exited := true;
        case SignalArrives =>
          supervisor.StopVm(Signal);
          signal := SignalStopping;
        case SignalStopDone => exited := true;
      }
    }

    method LoopReturned()
      modifies this`exited, this`idleStopped
      ensures exited == (old(exited) || supervisor.pc == Ended)
      ensures idleStopped == (old(idleStopped) || (supervisor.pc == StoppingVm && supervisor.stopReason == Idle))
    {
      exited := exited || supervisor.pc == Ended;
      idleStopped := idleStopped || (supervisor.pc == StoppingVm && supervisor.stopReason == Idle);
    }

    /** Any step the protocol allows. */
    method Take(l: Label)
      requires Enabled(View(), l)
      modifies this, supervisor
      ensures View() == Next(old(View()), l, supervisor.config)
    {
      if l.Handle? || l.GetLock? || l.BootEnds? {
        Serve(l);
      } else if l.WakeUp? || l.ProbeEnds? || l.LoopStopDone? || l.SignalArrives? || l.SignalStopDone? {
        Watch(l);
      } else {
        Proxy(l);
      }
    }
  }
}
