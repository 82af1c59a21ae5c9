/** The 65500-byte message loops of an upload and of a download, and their reassembly. */
module Chunks {
  import opened Basics

  const BUFSIZE := 65500

  /** The messages for a file: full buffers, then one short (possibly empty) last message. */
  function Chunked(data: Bytes): (msgs: seq<Bytes>)
    ensures msgs != []
  {
    if |data| < BUFSIZE then [data] else [data[..BUFSIZE]] + Chunked(data[BUFSIZE..])
  }

  /** What a receiver that appends every message ends up with. */
  function Joined(msgs: seq<Bytes>): Bytes
  {
    if msgs == [] then [] else Joined(msgs[..|msgs| - 1]) + msgs[|msgs| - 1]
  }

  ghost predicate FullThenShort(msgs: seq<Bytes>)
  {
    && msgs != []
    && (forall i :: 0 <= i < |msgs| - 1 ==> |msgs[i]| == 65500)
    && |msgs[|msgs| - 1]| < 65500
  }

  lemma {:induction false} JoinedConcat(a: seq<Bytes>, b: seq<Bytes>)
    ensures Joined(a + b) == Joined(a) + Joined(b)
  {
    if b == [] {
      assert a + b == a;
    } else {
      var front := b[..|b| - 1];
      JoinedConcat(a, front);
      assert (a + b)[..|a + b| - 1] == a + front;
    }
  }

  lemma JoinedHead(m: Bytes, rest: seq<Bytes>)
    ensures Joined([m] + rest) == m + Joined(rest)
  {
    JoinedConcat([m], rest);
    assert [m][..0] == [];
  }

  /** Reassembly returns the file, for every file: the empty one and exact multiples included. */
  lemma {:induction false} TransferRoundTrip(data: Bytes)
    ensures Joined(Chunked(data)) == data
  {
    if |data| < BUFSIZE {
      assert [data][..0] == [];
    } else {
      TransferRoundTrip(data[BUFSIZE..]);
      JoinedHead(data[..BUFSIZE], Chunked(data[BUFSIZE..]));
    }
  }

  /** n / 65500 + 1 messages, all but the last full, the last shorter. */
  lemma {:induction false} ChunkShape(data: Bytes)
    ensures |Chunked(data)| == |data| / 65500 + 1
    ensures FullThenShort(Chunked(data))
  {
    if |data| < BUFSIZE {
    } else {
      ChunkShape(data[BUFSIZE..]);
    }
  }

  /** The shape determines the messages: no other full-then-short list carries the same bytes. */
  lemma {:induction false} ChunkShapeUnique(msgs: seq<Bytes>)
    requires FullThenShort(msgs)
    ensures msgs == Chunked(Joined(msgs))
  {
    var rest := msgs[1..];
    JoinedHead(msgs[0], rest);
    assert msgs == [msgs[0]] + rest;
    if rest == [] {
      assert msgs[0] + Joined(rest) == msgs[0];
    } else {
      ChunkShapeUnique(rest);
      var data := Joined(msgs);
      assert data[..BUFSIZE] == msgs[0] && data[BUFSIZE..] == Joined(rest);
    }
  }

  /** How many messages of a file of n bytes are sent on a stream that takes `accepts` of them. */
  function MessageCount(n: nat, accepts: nat): nat
  {
    if accepts < n / 65500 + 1 then accepts else n / 65500 + 1
  }

  /** What was sent of a file: no message left out, not even an empty last one. */
  ghost predicate IsSent(sent: seq<Bytes>, data: Bytes, accepts: nat)
  {
    && |sent| == MessageCount(|data|, accepts)
    && sent <= Chunked(data)
    && (accepts >= |data| / 65500 + 1 ==> FullThenShort(sent) && Joined(sent) == data)
  }

  lemma SentInFull(file: Bytes, accepts: nat)
    ensures IsSent(if accepts < |Chunked(file)| then Chunked(file)[..accepts] else Chunked(file), file, accepts)
  {
    hide Chunked, Joined, FullThenShort;
    ChunkShape(file);
    TransferRoundTrip(file);
  }

  /** The sender's loop: read a buffer, send it while it was full and the stream takes messages,
      then send the short tail once end of file was met. The stream takes `accepts` messages. */
  method SendFile(file: Bytes, accepts: nat) returns (sent: seq<Bytes>)
    ensures sent == if accepts < |Chunked(file)| then Chunked(file)[..accepts] else Chunked(file)
    ensures IsSent(sent, file, accepts)
  {
    hide IsSent, FullThenShort, Joined;
    sent := [];
    var rest := file;
    var broken := false;
    while |rest| >= BUFSIZE && !broken
      invariant |sent| <= accepts
      invariant !broken ==> Chunked(file) == sent + Chunked(rest)
      invariant broken ==> |sent| == accepts < |Chunked(file)| && sent == Chunked(file)[..accepts]
      decreases |rest|, !broken
    {
      var buf := rest[..BUFSIZE];
      rest := rest[BUFSIZE..];
      if |sent| < accepts {
        sent := sent + [buf];
      } else {
        broken := true;
      }
    }
    if !broken && |sent| < accepts {
      sent := sent + [rest];
    }
    SentInFull(file, accepts);
  }

  /** The receiver's loop: the first message, then every further one, appended to a truncated file.
      With no message at all the default (empty) one is appended. */
  method ReceiveFile(msgs: seq<Bytes>) returns (file: Bytes)
    ensures file == Joined(msgs)
  {
    file := if msgs == [] then [] else msgs[0];
    var i := 1;
    while i < |msgs|
      invariant msgs != [] ==> 1 <= i <= |msgs| && file == Joined(msgs[..i])
      invariant msgs == [] ==> file == []
    {
      assert msgs[..i + 1][..i] == msgs[..i];
      file := file + msgs[i];
      i := i + 1;
    }
    assert msgs[..|msgs|] == msgs;
  }
}
