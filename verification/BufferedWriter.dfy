/** Writing to a stream that may be backed up (apps/hubble/src/rpc/bufferedStreamWriter.ts). */
module BufferedWriter {
  import opened Sequences
  import opened Wrappers

  const STREAM_MESSAGE_BUFFER_SIZE := 10000

  lemma MoveFirst<T>(a: seq<T>, b: seq<T>)
    requires b != []
    ensures a + [b[0]] + b[1..] == a + b
  {
  }

  class BufferedStreamWriter<T> {
    var streamIsBackedUp: bool
    var dataWaitingForDrain: seq<T>
    var sent: seq<T>
    var destroyed: bool
    /** Everything the caller has written, and where in it the sent and the waiting messages come from. */
    ghost var input: seq<T>
    ghost var sentAt: seq<nat>
    ghost var waitingAt: seq<nat>

    /**
     * Sent, then waiting messages are an in-order selection of the input without repetition; until
     * the stream is destroyed they are the whole input. Nothing waits unless the stream is backed up.
     */
    ghost predicate Valid()
      reads this
    {
      && At(sent, sentAt, input) && At(dataWaitingForDrain, waitingAt, input) && Increasing(sentAt + waitingAt)
      && (!destroyed ==> sent + dataWaitingForDrain == input)
      && (!streamIsBackedUp ==> dataWaitingForDrain == [])
      && |dataWaitingForDrain| <= STREAM_MESSAGE_BUFFER_SIZE
    }

    constructor ()
      ensures Valid() && input == sent == [] && !streamIsBackedUp && !destroyed
    {
      streamIsBackedUp, dataWaitingForDrain, sent, destroyed := false, [], [], false;
      input, sentAt, waitingAt := [], [], [];
    }

    /** `ready` is what the stream answers if it is written to. */
    method WriteToStream(message: T, ready: bool) returns (r: Result<bool>)
      requires Valid()
      modifies this
      ensures Valid() && input == old(input) + [message]
      ensures old(sent) <= sent && (old(destroyed) ==> destroyed)
      ensures r == Ok(true) <==> !old(streamIsBackedUp)
      ensures r == Ok(true) ==> dataWaitingForDrain == old(dataWaitingForDrain) == []
      ensures r == Ok(true) ==> sent == old(sent) + [message] && streamIsBackedUp == !ready && destroyed == old(destroyed)
      ensures r == Ok(false) ==> dataWaitingForDrain == old(dataWaitingForDrain) + [message] && destroyed == old(destroyed)
      ensures r.Err? <==> old(streamIsBackedUp) && |old(dataWaitingForDrain)| == 10000
      ensures r.Err? ==> destroyed && dataWaitingForDrain == []
      ensures r != Ok(true) ==> sent == old(sent) && streamIsBackedUp
    {
      ghost var place := |input|;
      input := input + [message];
      if streamIsBackedUp {
        dataWaitingForDrain := dataWaitingForDrain + [message];
        waitingAt := waitingAt + [place];
        assert sentAt + waitingAt == old(sentAt + waitingAt) + [place];
        assert sent + dataWaitingForDrain == old(sent + dataWaitingForDrain) + [message];
        if |dataWaitingForDrain| > STREAM_MESSAGE_BUFFER_SIZE {
          Destroy();
          return Err;
        }
        return Ok(false);
      }
      sentAt := sentAt + [place];
      sent := sent + [message];
      streamIsBackedUp := !ready;
      assert waitingAt == [] && sentAt + waitingAt == old(sentAt + waitingAt) + [place];
      assert sent + dataWaitingForDrain == old(sent + dataWaitingForDrain) + [message];
      r := Ok(true);
    }

    /** The drain event; `ready` gives the stream's answers to the writes that follow. */
    method OnDrain(ready: nat -> bool)
      requires Valid() && streamIsBackedUp
      modifies this
      ensures Valid() && input == old(input) && destroyed == old(destroyed)
      ensures sent + dataWaitingForDrain == old(sent + dataWaitingForDrain)
      ensures |sent| > |old(sent)| || old(dataWaitingForDrain) == []
      ensures streamIsBackedUp || dataWaitingForDrain == []
      ensures var n := |sent| - |old(sent)|;
        (forall i: nat :: i < n - 1 ==> ready(i)) && (streamIsBackedUp <==> n > 0 && !ready(n - 1))
    {
      streamIsBackedUp := false;
      var writes := 0;
      while |dataWaitingForDrain| > 0 && !streamIsBackedUp
        invariant At(sent, sentAt, input) && At(dataWaitingForDrain, waitingAt, input)
        invariant sentAt + waitingAt == old(sentAt + waitingAt)
        invariant sent + dataWaitingForDrain == old(sent + dataWaitingForDrain)
        invariant input == old(input) && destroyed == old(destroyed)
        invariant |sent| == |old(sent)| + writes && (streamIsBackedUp <==> writes > 0 && !ready(writes - 1))
        invariant forall i: nat :: i < writes - 1 ==> ready(i)
        decreases |dataWaitingForDrain|
      {
        SendFirst(ready(writes));
        writes := writes + 1;
      }
      assert |sent + dataWaitingForDrain| == |old(sent + dataWaitingForDrain)|;
    }

    /** Takes the first waiting message out and writes it. */
    method SendFirst(ready: bool)
      requires At(sent, sentAt, input) && At(dataWaitingForDrain, waitingAt, input) && dataWaitingForDrain != []
      modifies this`sent, this`sentAt, this`dataWaitingForDrain, this`waitingAt, this`streamIsBackedUp
      ensures At(sent, sentAt, input) && At(dataWaitingForDrain, waitingAt, input)
      ensures sentAt + waitingAt == old(sentAt + waitingAt)
      ensures sent + dataWaitingForDrain == old(sent + dataWaitingForDrain)
      ensures |sent| == |old(sent)| + 1 && |dataWaitingForDrain| == |old(dataWaitingForDrain)| - 1
      ensures streamIsBackedUp == !ready
    {
      MoveFirst(sent, dataWaitingForDrain);
      MoveFirst(sentAt, waitingAt);
      var message := dataWaitingForDrain[0];
      dataWaitingForDrain := dataWaitingForDrain[1..];
      sent := sent + [message];
      sentAt, waitingAt := sentAt + [waitingAt[0]], waitingAt[1..];
      streamIsBackedUp := !ready;
    }

    /** The drain timeout. */
    method OnTimeout()
      requires Valid() && streamIsBackedUp
      modifies this
      ensures Valid() && destroyed && dataWaitingForDrain == [] && sent == old(sent) && input == old(input)
      ensures streamIsBackedUp
    {
      Destroy();
    }

    method Destroy()
      requires At(sent, sentAt, input) && Increasing(sentAt + waitingAt) && streamIsBackedUp
      modifies this`dataWaitingForDrain, this`waitingAt, this`destroyed
      ensures Valid() && destroyed && dataWaitingForDrain == []
    {
      dataWaitingForDrain, waitingAt, destroyed := [], [], true;
      assert sentAt + [] == old(sentAt + waitingAt)[..|sentAt|];
    }
  }
}
