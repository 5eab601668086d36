/**
 The sending application of tcp-large-transfer.cc: a callback that writes from a periodic buffer until
 the socket has no room, and picks up where it stopped when it is called again.
 */
module LargeTransfer {

  newtype uint32 = x: int | 0 <= x < 0x1_0000_0000
  newtype uint8 = x: int | 0 <= x < 256

  const TOTAL_TX_BYTES: uint32 := 2000000
  const WRITE_SIZE: uint32 := 1040

  /** The letter at position k of the endless text "abc...zabc...". */
  function Letter(k: nat): uint8 {
    (97 + k % 26) as uint8
  }

  /** The period of the letters divides the length of the buffer. */
  lemma BufferIsPeriodic(k: nat, j: nat)
    requires k % 1040 + j < 1040
    ensures Letter(k % 1040 + j) == Letter(k + j)
  {
    var q := k / 1040;
    assert k + j == (k % 1040 + j) + 26 * (40 * q);
    SamePhase(k % 1040 + j, 40 * q);
  }

  lemma {:induction false} SamePhase(m: nat, n: nat)
    ensures (m + 26 * n) % 26 == m % 26
  {
    if n > 0 {
      SamePhase(m, n - 1);
      OnePeriod(m + 26 * (n - 1));
    }
  }

  lemma OnePeriod(m: nat)
    ensures (m + 26) % 26 == m % 26
  {
  }

  /** A prefix of the endless text. */
  ghost predicate Text(s: seq<uint8>) {
    forall k :: 0 <= k < |s| ==> s[k] == Letter(k)
  }

  /** Whatever is accepted of the buffer from the right offset on continues the text. */
  lemma Continues(stream: seq<uint8>, buffer: seq<uint8>, sent: nat)
    requires Text(stream) && Text(buffer) && |buffer| == 1040 && |stream| % 1040 + sent <= 1040
    ensures Text(stream + buffer[|stream| % 1040..|stream| % 1040 + sent])
  {
    var offset, n := |stream| % 1040, |stream|;
    var longer := stream + buffer[offset..offset + sent];
    forall k | n <= k < |longer|
      ensures longer[k] == Letter(k)
    {
      BufferIsPeriodic(n, k - n);
      assert longer[k] == buffer[offset + (k - n)];
    }
  }

  /** The socket: its free space and what it accepts are up to the network. */
  class Socket {
    ghost var stream: seq<uint8>
    ghost var refusals: nat
    var txAvailable: uint32
    var closed: bool

    constructor ()
      ensures stream == [] && !closed && refusals == 0
    {
      stream, txAvailable, closed, refusals := [], *, false, 0;
    }

    /** Refuses, or accepts at least one byte; the free space may change either way. */
    method Send(data: seq<uint8>) returns (amountSent: int)
      requires data != []
      modifies this`stream, this`txAvailable, this`refusals
      ensures amountSent < 0 ==> stream == old(stream) && refusals == old(refusals) + 1
      ensures amountSent >= 0 ==>
        1 <= amountSent <= |data| && stream == old(stream) + data[..amountSent] && refusals == old(refusals)
    {
      amountSent, txAvailable := *, *;
      if amountSent < 1 || amountSent > |data| {
        amountSent, refusals := -1, refusals + 1;
      } else {
        stream := stream + data[..amountSent];
      }
    }

    /** Time passes. */
    method Wait()
      modifies this`txAvailable
    {
      txAvailable := *;
    }

    method Close()
      modifies this`closed
      ensures closed
    {
      closed := true;
    }
  }

  class Flow {
    const buffer: array<uint8>
    const localSocket: Socket
    var currentTxBytes: uint32

    /** The accepted bytes are a prefix of the endless text, as long as the counter says. */
    ghost predicate Valid()
      reads this, buffer, localSocket
    {
      && buffer.Length == WRITE_SIZE as int
      && Text(buffer[..])
      && currentTxBytes <= TOTAL_TX_BYTES
      && |localSocket.stream| == currentTxBytes as int
      && Text(localSocket.stream)
    }

    /** Lines 83-87 of main, and a fresh socket. */
    constructor ()
      ensures Valid() && fresh(buffer) && fresh(localSocket) && currentTxBytes == 0
    {
      buffer := new uint8[WRITE_SIZE as int];
      localSocket := new Socket();
      currentTxBytes := 0;
      new;
      for i := 0 to WRITE_SIZE as int
        invariant localSocket.stream == [] && currentTxBytes == 0
        invariant forall j :: 0 <= j < i ==> buffer[j] == Letter(j)
        modifies buffer
      {
        buffer[i] := (97 + i % 26) as uint8;
      }
    }

    /** txSpace is not used. */
    method WriteUntilBufferFull(txSpace: uint32)
      requires Valid()
      modifies this`currentTxBytes, localSocket
      ensures Valid()
      ensures old(localSocket.stream) <= localSocket.stream
      ensures old(localSocket.closed) ==> localSocket.closed
      ensures old(localSocket.refusals) <= localSocket.refusals <= old(localSocket.refusals) + 1
      // No refusal: written until there is nothing left or no room, and then closed.
      ensures localSocket.refusals == old(localSocket.refusals) ==>
        localSocket.closed && (currentTxBytes == TOTAL_TX_BYTES || localSocket.txAvailable == 0)
      ensures !old(localSocket.closed) && localSocket.closed ==> localSocket.refusals == old(localSocket.refusals)
    {
      while currentTxBytes < TOTAL_TX_BYTES && localSocket.txAvailable > 0
        invariant Valid() && old(localSocket.stream) <= localSocket.stream
        invariant localSocket.closed == old(localSocket.closed) && localSocket.refusals == old(localSocket.refusals)
        decreases TOTAL_TX_BYTES - currentTxBytes
      {
        var left := TOTAL_TX_BYTES - currentTxBytes;
        var dataOffset := currentTxBytes % WRITE_SIZE;
        var toWrite := WRITE_SIZE - dataOffset;
        toWrite := if toWrite < left then toWrite else left;
        toWrite := if toWrite < localSocket.txAvailable then toWrite else localSocket.txAvailable;
        ghost var before := localSocket.stream;
        var amountSent := localSocket.Send(buffer[dataOffset as int..(dataOffset + toWrite) as int]);
        if amountSent < 0 {
          return;
        }
        Continues(before, buffer[..], amountSent);
        currentTxBytes := currentTxBytes + amountSent as uint32;
      }
      localSocket.Close();
    }

    /** StartFlow, and then any number of callbacks at any times. */
    method Transfer(callbacks: nat)
      requires Valid()
      modifies this`currentTxBytes, localSocket
      ensures Valid()
      ensures old(localSocket.stream) <= localSocket.stream
      ensures |localSocket.stream| <= TOTAL_TX_BYTES as int
      ensures forall k :: 0 <= k < |localSocket.stream| ==> localSocket.stream[k] as int == 97 + k % 26
      // Without a refusal: written until there is nothing left or no room, and then closed.
      ensures localSocket.refusals == old(localSocket.refusals) ==>
        localSocket.closed && (|localSocket.stream| == TOTAL_TX_BYTES as int || localSocket.txAvailable == 0)
    {
      WriteUntilBufferFull(localSocket.txAvailable);
      for i := 0 to callbacks
        invariant Valid() && old(localSocket.stream) <= localSocket.stream
        invariant old(localSocket.refusals) <= localSocket.refusals
        invariant localSocket.refusals == old(localSocket.refusals) ==>
          localSocket.closed && (|localSocket.stream| == TOTAL_TX_BYTES as int || localSocket.txAvailable == 0)
      {
        localSocket.Wait();
        WriteUntilBufferFull(localSocket.txAvailable);
      }
    }
  }
}
