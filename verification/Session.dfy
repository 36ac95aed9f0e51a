/**
  The client object: the fields that connect, send_data and the reconnect logic
  update in place, each method proved against the session state machine.
 */
module Session {
  import opened Bytes
  import opened Commands
  import Spec = SessionSpec

  class Client {
    const net: Spec.Network  // how the network behaves; the client only observes it

    var currentSessionState: Spec.SessionState
    var writer: Option<nat>
    var shouldShutDown: bool
    var connects: nat
    var polls: nat
    var log: seq<Spec.Entry>

    ghost function View(): Spec.Session
      reads this
    {
      Spec.Session(net, currentSessionState, writer, shouldShutDown, connects, polls, log)
    }

    constructor (net: Spec.Network)
      ensures View() == Spec.Initial(net) && Spec.Valid(View())
    {
      this.net := net;
      currentSessionState, writer, shouldShutDown := Spec.Closed, None, false;
      connects, polls, log := 0, 0, [];
    }

    method Connect()
      modifies this
      ensures View() == Spec.Connect(old(View()))
    {
      var accepted := net.connect(connects);
      if accepted {
        writer := Some(connects);
        currentSessionState := Spec.Open;
      }
      connects := connects + 1;
    }

    method TranceiverBind(ghost fuel: nat)
      requires Spec.Valid(View()) && !Spec.Bind(View(), fuel).OutOfFuel?
      modifies this
      ensures Spec.Done(View()) == Spec.Bind(old(View()), fuel)
      decreases fuel, 2
    {
      SendData(Spec.BIND, fuel);
    }

    method ReEstablishConnBind(ghost fuel: nat)
      requires Spec.BindFirst(log) && !Spec.ReEstablish(View(), fuel).OutOfFuel?
      modifies this
      ensures Spec.Done(View()) == Spec.ReEstablish(old(View()), fuel)
      decreases fuel, 0
    {
      currentSessionState := Spec.Closed;
      if shouldShutDown {
        return;
      }
      Connect();
      if currentSessionState == Spec.Open {
        TranceiverBind(fuel - 1);
      }
    }

    method SendData(pdu: Spec.Pdu, ghost fuel: nat)
      requires Spec.Valid(View()) && !Spec.SendData(View(), pdu, fuel).OutOfFuel?
      modifies this
      ensures Spec.Done(View()) == Spec.SendData(old(View()), pdu, fuel)
      decreases fuel, 1
    {
      if currentSessionState == Spec.Closed {
        ReEstablishConnBind(fuel);
        return;
      } else if currentSessionState == Spec.Open && pdu.command == EnquireLink {
        // logged only: enquire_link is what finds out that a connection is gone
      } else if currentSessionState == Spec.Open &&
                pdu.command !in [BindTransmitter, BindReceiver, BindTransceiver] {
        return;
      }

      var closing := true;
      if writer.Some? {
        closing := net.closing(polls);
        polls := polls + 1;
      }
      if closing {
        Spec.ReEstablishKeeps(View(), fuel);
        ReEstablishConnBind(fuel);
      }

      var outcome := net.write(|log|);
      log := log + [Spec.Entry(writer.value, pdu, outcome)];
      if pdu.command == BindTransceiver && outcome == Spec.Flushed {
        currentSessionState := Spec.BoundTrx;
      }
    }

    /** `drained` is the outcome of the drain that follows the unbind. */
    method UnbindAndDisconnect(drained: bool, ghost fuel: nat) returns (raised: bool)
      requires Spec.Valid(View()) && !Spec.UnbindAndDisconnect(View(), drained, fuel).OutOfFuel?
      modifies this
      ensures raised <==> old(writer).None?
      ensures (if raised then Spec.Raised(View()) else Spec.Done(View()))
              == Spec.UnbindAndDisconnect(old(View()), drained, fuel)
    {
      if writer == None {
        return true;
      }
      Spec.SendDataKeeps(View(), Spec.Pdu(Unbind, Spec.Own), fuel);
      SendData(Spec.Pdu(Unbind, Spec.Own), fuel);
      if drained {
        writer := None;
        currentSessionState := Spec.Closed;
      }
      return false;
    }

    method Shutdown(drained: bool, ghost fuel: nat) returns (raised: bool)
      requires Spec.Valid(View()) && !Spec.Shutdown(View(), drained, fuel).OutOfFuel?
      modifies this
      ensures raised <==> old(writer).None?
      ensures (if raised then Spec.Raised(View()) else Spec.Done(View()))
              == Spec.Shutdown(old(View()), drained, fuel)
    {
      shouldShutDown := true;
      raised := UnbindAndDisconnect(drained, fuel);
    }
  }
}
