/** The handlers and loops of bitstring-send.c, each up to the next point where a signal may arrive. */
module BitSenderProgram {
  import opened BitSender

  /** The check of the typed line: exactly length characters, each a bit. */
  method AcceptInput(tmp: string, length: nat) returns (ok: bool)
    ensures ok <==> |tmp| == length && Bitstring(tmp)
  {
    if |tmp| != length {
      return false;
    }
    for i := 0 to length
      invariant forall k :: 0 <= k < i ==> tmp[k] == '0' || tmp[k] == '1'
    {
      if !(tmp[i] == '1' || tmp[i] == '0') {
        return false;
      }
    }
    ok := true;
  }

  class Processes {
    const tmp: string
    const recvdString: array<char>
    var recvdIndex: nat
    var canSend: bool
    var canReceive: bool
    var parent: Parent
    var child: Child
    var readyPending: bool
    var ackPending: bool
    var onePending: bool
    var zeroPending: bool
    var handlers: seq<char>

    ghost predicate Valid()
      reads this, recvdString
    {
      recvdString.Length == |tmp| + 1 && recvdIndex <= |tmp| && Bitstring(tmp) && Inv(tmp, View())
    }

    ghost function View(): State
      requires recvdIndex <= recvdString.Length
      reads this, recvdString
    {
      State(parent, canSend, canReceive, readyPending, ackPending, child, onePending, zeroPending, handlers,
            recvdString[..recvdIndex])
    }

    constructor (tmp: string)
      requires Bitstring(tmp)
      ensures Valid() && Init(View()) && this.tmp == tmp && fresh(recvdString)
    {
      this.tmp := tmp;
      recvdString := new char[|tmp| + 1];
      recvdIndex := 0;
      canSend, canReceive := false, true;
      parent, child := AwaitReady, Starting;
      readyPending, ackPending, onePending, zeroPending := false, false, false, false;
      handlers := [];
    }

    // ---- The child ----

    /** Both handlers' first two lines. */
    method StoreBit(bit: char)
      requires recvdIndex <= |tmp| < recvdString.Length
      modifies `recvdIndex, recvdString
      ensures recvdIndex <= |tmp| && recvdString[..recvdIndex] ==
        if old(recvdIndex) < |tmp| then old(recvdString[..recvdIndex]) + [bit] else old(recvdString[..recvdIndex])
    {
      if recvdIndex < |tmp| {
        recvdString[recvdIndex] := bit;
        recvdIndex := recvdIndex + 1;
      }
    }

    method SigHandle1()
      requires Valid() && BitCanArrive(View(), '1')
      modifies this, recvdString
      ensures Valid() && View() == Next(tmp, old(View()), BitArrives('1'))
    {
      ghost var before := View();
      onePending := false;
      StoreBit('1');
      EnterHandler('1');
      StepInv(tmp, before, BitArrives('1'));
    }

    method SigHandle0()
      requires Valid() && BitCanArrive(View(), '0')
      modifies this, recvdString
      ensures Valid() && View() == Next(tmp, old(View()), BitArrives('0'))
    {
      ghost var before := View();
      zeroPending := false;
      StoreBit('0');
      EnterHandler('0');
      StepInv(tmp, before, BitArrives('0'));
    }

    /** A handler is running, and a paused child goes on with its loop when it returns. */
    method EnterHandler(bit: char)
      modifies `handlers, `child
      ensures handlers == old(handlers) + [bit] && child == if old(child) == Dozing then Checking else old(child)
    {
      handlers := handlers + [bit];
      if child == Dozing {
        child := Checking;
      }
    }

    /** The kill at the end of a handler. */
    method Acknowledge()
      requires Valid() && handlers != []
      modifies this
      ensures Valid() && View() == Next(tmp, old(View()), HandlerAcks)
    {
      ghost var before := View();
      handlers := handlers[..|handlers| - 1];
      ackPending := true;
      StepInv(tmp, before, HandlerAcks);
    }

    method AnnounceReady()
      requires Valid() && child == Starting && handlers == []
      modifies this
      ensures Valid() && View() == Next(tmp, old(View()), ChildRuns)
    {
      ghost var before := View();
      child, readyPending := Checking, true;
      StepInv(tmp, before, ChildRuns);
    }

    /** The child's loop test; when it leaves the loop it terminates the string it prints. */
    method CheckReceived()
      requires Valid() && child == Checking && handlers == []
      modifies this, recvdString
      ensures Valid() && View() == Next(tmp, old(View()), ChildRuns)
      ensures child == Finished ==> recvdString[..] == tmp + ['\0']
    {
      ghost var before := View();
      if recvdIndex != |tmp| {
        child := Entering;
      } else {
        recvdString[|tmp|] := '\0';
        child := Finished;
        assert recvdString[..] == recvdString[..recvdIndex] + ['\0'];
        assert recvdString[..recvdIndex] == before.received;
      }
      StepInv(tmp, before, ChildRuns);
    }

    method EnterPause()
      requires Valid() && child == Entering && handlers == []
      modifies this
      ensures Valid() && View() == Next(tmp, old(View()), ChildRuns)
    {
      ghost var before := View();
      child := Dozing;
      StepInv(tmp, before, ChildRuns);
    }

    // ---- The parent ----

    method SynchronizeParent()
      requires Valid() && readyPending
      modifies this
      ensures Valid() && View() == Next(tmp, old(View()), ReadyArrives)
    {
      ghost var before := View();
      readyPending, canSend := false, true;
      StepInv(tmp, before, ReadyArrives);
    }

    method ParentCanSend()
      requires Valid() && Enabled(View(), AckArrives)
      modifies this
      ensures Valid() && View() == Next(tmp, old(View()), AckArrives)
    {
      ghost var before := View();
      ackPending, canReceive := false, true;
      if parent.Asleep? {
        parent := Test(parent.i);
      }
      StepInv(tmp, before, AckArrives);
    }

    /** The end of the busy wait and the start of the for loop. */
    method StartSending()
      requires Valid() && parent.AwaitReady? && canSend
      modifies this
      ensures Valid() && View() == Next(tmp, old(View()), ParentRuns)
    {
      ghost var before := View();
      parent := if 0 < |tmp| then Test(0) else Reaping;
      StepInv(tmp, before, ParentRuns);
    }

    /** The test of the inner while, and the way into its pause. */
    method AwaitAck()
      requires Valid() && (parent.Test? || parent.Pausing?)
      modifies this
      ensures Valid() && View() == Next(tmp, old(View()), ParentRuns)
    {
      ghost var before := View();
      if parent.Pausing? {
        parent := Asleep(parent.i);
      } else if !canReceive {
        parent := Pausing(parent.i);
      } else {
        parent := Send(parent.i);
      }
      StepInv(tmp, before, ParentRuns);
    }

    method SendBit()
      requires Valid() && parent.Send?
      modifies this
      ensures Valid() && View() == Next(tmp, old(View()), ParentRuns)
      ensures !old(onePending) && !old(zeroPending) && !ackPending
      ensures onePending == (tmp[old(parent.i)] == '1') && zeroPending == (tmp[old(parent.i)] == '0')
    {
      ghost var before := View();
      if tmp[parent.i] == '1' {
        onePending := true;
      } else {
        zeroPending := true;
      }
      parent := Clear(parent.i);
      StepInv(tmp, before, ParentRuns);
    }

    /** canReceive = false, and on to the next bit or to wait. */
    method ClearCanReceive()
      requires Valid() && parent.Clear?
      modifies this
      ensures Valid() && View() == Next(tmp, old(View()), ParentRuns)
    {
      ghost var before := View();
      canReceive := false;
      parent := if parent.i + 1 < |tmp| then Test(parent.i + 1) else Reaping;
      StepInv(tmp, before, ParentRuns);
    }

    /** wait returns once the child has exited: the child then holds the whole string. */
    method Reap()
      requires Valid() && parent.Reaping? && child == Finished
      modifies this
      ensures Valid() && View() == Next(tmp, old(View()), ParentRuns) && recvdString[..|tmp|] == tmp
    {
      ghost var before := View();
      parent := Exited;
      StepInv(tmp, before, ParentRuns);
    }
  }
}
