/**
 Chunked file transfer in both directions, over a reliable channel of whole packets.  `Fread` and
 the end-of-file flag follow C: the flag is set only by a read that asks for more than is left.
 */
module Transfer {
  import opened Bytes

  const MAX_CHUNK_SIZE := 1024

  /** `chunk` stands for the bytes put in the packet's buffer, ahead of the terminating NUL. */
  datatype Packet = Packet(chunk: seq<Byte>, lastChunk: bool)

  // ---------- What a transfer is meant to send and deliver ----------

  /** The `i`-th piece of at most MAX_CHUNK_SIZE bytes. */
  function ChunkAt(content: seq<Byte>, i: nat): seq<Byte>
    requires i * MAX_CHUNK_SIZE <= |content|
  {
    if (i + 1) * MAX_CHUNK_SIZE <= |content| then content[i * MAX_CHUNK_SIZE..(i + 1) * MAX_CHUNK_SIZE]
    else content[i * MAX_CHUNK_SIZE..]
  }

  /** The client sends each piece as it is; a NUL inside it stays in the packet's buffer. */
  function ClientPackets(content: seq<Byte>): (r: seq<Packet>)
    ensures |r| == |content| / MAX_CHUNK_SIZE + 1
    ensures forall i :: 0 <= i < |r| ==> r[i].lastChunk == (i == |r| - 1)
  {
    seq(|content| / MAX_CHUNK_SIZE + 1, i requires 0 <= i <= |content| / MAX_CHUNK_SIZE =>
      Packet(ChunkAt(content, i), i == |content| / MAX_CHUNK_SIZE))
  }

  /** The storage server copies each piece with `strcpy`. */
  function ServerPackets(content: seq<Byte>): (r: seq<Packet>)
    ensures |r| == |content| / MAX_CHUNK_SIZE + 1
    ensures forall i :: 0 <= i < |r| ==> r[i].lastChunk == (i == |r| - 1)
  {
    seq(|content| / MAX_CHUNK_SIZE + 1, i requires 0 <= i <= |content| / MAX_CHUNK_SIZE =>
      Packet(CStr(ChunkAt(content, i)), i == |content| / MAX_CHUNK_SIZE))
  }

  /** Both receivers take a packet's buffer as a C string. */
  function Delivered(packets: seq<Packet>): seq<Byte> {
    if packets == [] then [] else Delivered(packets[..|packets| - 1]) + CStr(packets[|packets| - 1].chunk)
  }

  /** The packets up to and including the first one marked as last. */
  function Transmission(queue: seq<Packet>): (r: seq<Packet>)
    ensures r <= queue
  {
    if queue == [] then []
    else if queue[0].lastChunk then [queue[0]]
    else [queue[0]] + Transmission(queue[1..])
  }

  /** What remains of content when each piece of MAX_CHUNK_SIZE bytes is cut at its first NUL. */
  function CutAtNuls(content: seq<Byte>): (r: seq<Byte>)
    ensures NoNul(r) && |r| <= |content|
  {
    if |content| < MAX_CHUNK_SIZE then CStr(content)
    else CStr(content[..MAX_CHUNK_SIZE]) + CutAtNuls(content[MAX_CHUNK_SIZE..])
  }

  // ---------- Streams and channels ----------

  class ReadFile {
    const content: seq<Byte>
    var pos: nat
    var eof: bool

    constructor (content: seq<Byte>)
      ensures this.content == content && pos == 0 && !eof
    {
      this.content := content;
      pos, eof := 0, false;
    }

    method Fread(n: nat) returns (buffer: seq<Byte>)
      requires pos <= |content|
      modifies this
      ensures pos == old(pos) + |buffer| <= |content| && buffer == content[old(pos)..pos]
      ensures |buffer| == if n <= |content| - old(pos) then n else |content| - old(pos)
      ensures eof == (old(eof) || |buffer| < n)
    {
      var available := |content| - pos;
      var count := if n <= available then n else available;
      buffer := content[pos..pos + count];
      pos := pos + count;
      if count < n {
        eof := true;
      }
    }
  }

  /** A file opened for appending. */
  class AppendFile {
    var content: seq<Byte>

    constructor ()
      ensures content == []
    {
      content := [];
    }

    method Write(bytes: seq<Byte>)
      modifies this
      ensures content == old(content) + bytes
    {
      content := content + bytes;
    }
  }

  class Channel {
    var queue: seq<Packet>

    constructor ()
      ensures queue == []
    {
      queue := [];
    }

    method Send(p: Packet)
      modifies this
      ensures queue == old(queue) + [p]
    {
      queue := queue + [p];
    }

    method Recv() returns (p: Packet)
      requires queue != []
      modifies this
      ensures p == old(queue)[0] && queue == old(queue)[1..]
    {
      p := queue[0];
      queue := queue[1..];
    }
  }

  // ---------- The four loops ----------

  /** The storage server's side of a read. */
  method ReadFileInSs(file: ReadFile, socket: Channel)
    requires file.pos == 0 && !file.eof
    modifies file, socket
    ensures socket.queue == old(socket.queue) + ServerPackets(file.content)
    ensures |socket.queue| == old(|socket.queue|) + |file.content| / 1024 + 1
    ensures file.pos == |file.content| && file.eof
  {
    ghost var sent := 0;
    ghost var packets := ServerPackets(file.content);
    while true
      invariant file.pos == sent * MAX_CHUNK_SIZE <= |file.content| && !file.eof
      invariant sent <= |file.content| / MAX_CHUNK_SIZE
      invariant socket.queue == old(socket.queue) + packets[..sent]
      decreases |file.content| - file.pos
    {
      var buffer := file.Fread(MAX_CHUNK_SIZE);
      assert buffer == ChunkAt(file.content, sent);
      var packet := Packet(CStr(buffer), file.eof);
      assert file.eof <==> sent == |file.content| / MAX_CHUNK_SIZE;
      assert packets[..sent + 1] == packets[..sent] + [packet];
      socket.Send(packet);
      sent := sent + 1;
      if packet.lastChunk || |buffer| == 0 {
        break;
      }
    }
    assert packets[..sent] == packets;
  }

  /** The client's side of a write, from its temporary file. */
  method SendFileDataToSs(file: ReadFile, socket: Channel)
    requires file.pos == 0 && !file.eof
    modifies file, socket
    ensures socket.queue == old(socket.queue) + ClientPackets(file.content)
    ensures |socket.queue| == old(|socket.queue|) + |file.content| / 1024 + 1
    ensures file.pos == |file.content| && file.eof
  {
    ghost var sent := 0;
    ghost var packets := ClientPackets(file.content);
    while true
      invariant file.pos == sent * MAX_CHUNK_SIZE <= |file.content| && !file.eof
      invariant sent <= |file.content| / MAX_CHUNK_SIZE
      invariant socket.queue == old(socket.queue) + packets[..sent]
      decreases |file.content| - file.pos
    {
      var buffer := file.Fread(MAX_CHUNK_SIZE);
      assert buffer == ChunkAt(file.content, sent);
      var packet := Packet(buffer, file.eof);
      assert file.eof <==> sent == |file.content| / MAX_CHUNK_SIZE;
      assert packets[..sent + 1] == packets[..sent] + [packet];
      socket.Send(packet);
      sent := sent + 1;
      if packet.lastChunk {
        break;
      }
    }
    assert packets[..sent] == packets;
  }

  predicate HasLast(queue: seq<Packet>) {
    exists i :: 0 <= i < |queue| && queue[i].lastChunk
  }

  /** The storage server's side of a write, on the file it has just emptied. */
  method WriteFileInSs(file: AppendFile, socket: Channel)
    requires HasLast(socket.queue)
    modifies file, socket
    ensures file.content == old(file.content) + Delivered(Transmission(old(socket.queue)))
    ensures Transmission(old(socket.queue)) + socket.queue == old(socket.queue)
  {
    ghost var queue := socket.queue;
    ghost var got := 0;
    while true
      invariant got <= |queue| && socket.queue == queue[got..]
      invariant forall i :: 0 <= i < got ==> !queue[i].lastChunk
      invariant file.content == old(file.content) + Delivered(queue[..got])
      decreases |socket.queue|
    {
      StillMore(queue, got);
      DeliveredNext(queue, got + 1, old(file.content));
      var packet := socket.Recv();
      got := got + 1;
      file.Write(CStr(packet.chunk));
      if packet.lastChunk {
        break;
      }
    }
    TransmissionEnds(queue, got);
  }

  /**
   The client's side of a read: the file data it prints, without its own messages around it.  It
   also stops when the channel is closed.
   */
  method GetFileDataFromSs(socket: Channel, stdout: AppendFile)
    modifies socket, stdout
    ensures stdout.content == old(stdout.content) + Delivered(Transmission(old(socket.queue)))
    ensures Transmission(old(socket.queue)) + socket.queue == old(socket.queue)
  {
    ghost var queue := socket.queue;
    ghost var got := 0;
    while socket.queue != []
      invariant got <= |queue| && socket.queue == queue[got..]
      invariant forall i :: 0 <= i < got ==> !queue[i].lastChunk
      invariant stdout.content == old(stdout.content) + Delivered(queue[..got])
      decreases |socket.queue|
    {
      DeliveredNext(queue, got + 1, old(stdout.content));
      var packet := socket.Recv();
      got := got + 1;
      stdout.Write(CStr(packet.chunk));
      if packet.lastChunk {
        break;
      }
    }
    TransmissionEnds(queue, got);
  }

  lemma {:induction false} StillMore(queue: seq<Packet>, got: nat)
    requires HasLast(queue) && got <= |queue| && forall i :: 0 <= i < got ==> !queue[i].lastChunk
    ensures got < |queue| && queue[got..] != []
  {
    var i :| 0 <= i < |queue| && queue[i].lastChunk;
    assert i >= got;
  }

  /** Receiving one packet more. */
  lemma {:induction false} DeliveredNext(queue: seq<Packet>, n: nat, before: seq<Byte>)
    requires 0 < n <= |queue|
    ensures before + Delivered(queue[..n]) == before + Delivered(queue[..n - 1]) + CStr(queue[n - 1].chunk)
    ensures queue[n - 1..][0] == queue[n - 1] && queue[n - 1..][1..] == queue[n..]
    ensures Delivered(queue[..n]) == Delivered(queue[..n - 1]) + CStr(queue[n - 1].chunk)
  {
    assert queue[..n][..n - 1] == queue[..n - 1];
  }

  lemma {:induction false} TransmissionEnds(queue: seq<Packet>, n: nat)
    requires n <= |queue|
    requires forall i :: 0 <= i < n - 1 ==> !queue[i].lastChunk
    requires n == |queue| || (n > 0 && queue[n - 1].lastChunk)
    ensures Transmission(queue) == queue[..n] && Transmission(queue) + queue[n..] == queue
  {
    if n > 1 || (n == 1 && !queue[0].lastChunk) {
      TransmissionEnds(queue[1..], n - 1);
      assert queue[..n] == [queue[0]] + queue[1..][..n - 1];
    }
  }

  // ---------- Round trips ----------

  /** A receiver reads exactly one sender's packets, whatever follows them on the channel. */
  lemma {:induction false} TransmissionOfOne(packets: seq<Packet>, after: seq<Packet>)
    requires packets != []
    requires forall i :: 0 <= i < |packets| ==> packets[i].lastChunk == (i == |packets| - 1)
    ensures Transmission(packets + after) == packets
  {
    if |packets| > 1 {
      assert (packets + after)[1..] == packets[1..] + after;
      TransmissionOfOne(packets[1..], after);
    }
  }

  lemma {:induction false} DeliveredFromFront(packets: seq<Packet>)
    requires packets != []
    ensures Delivered(packets) == CStr(packets[0].chunk) + Delivered(packets[1..])
  {
    var last := |packets| - 1;
    if last > 0 {
      DeliveredFromFront(packets[..last]);
      assert packets[..last][1..] == packets[1..][..last - 1];
    }
  }

  lemma {:induction false} CStrTwice(s: seq<Byte>)
    ensures CStr(CStr(s)) == CStr(s)
  {
    CStrOfNulFree(CStr(s));
  }

  /** Either sender's packets deliver the content with each piece cut at its first NUL. */
  lemma {:induction false} DeliveredIsCut(content: seq<Byte>)
    ensures Delivered(ClientPackets(content)) == CutAtNuls(content)
    ensures Delivered(ServerPackets(content)) == CutAtNuls(content)
    decreases |content|
  {
    DeliveredFromFront(ClientPackets(content));
    DeliveredFromFront(ServerPackets(content));
    CStrTwice(ChunkAt(content, 0));
    if |content| >= MAX_CHUNK_SIZE {
      LaterPackets(content);
      DeliveredIsCut(content[MAX_CHUNK_SIZE..]);
    }
  }

  lemma {:induction false} LaterPackets(content: seq<Byte>)
    requires |content| >= MAX_CHUNK_SIZE
    ensures ClientPackets(content)[1..] == ClientPackets(content[MAX_CHUNK_SIZE..])
    ensures ServerPackets(content)[1..] == ServerPackets(content[MAX_CHUNK_SIZE..])
  {
    var rest := content[MAX_CHUNK_SIZE..];
    forall i: nat | i * MAX_CHUNK_SIZE <= |rest| ensures ChunkAt(rest, i) == ChunkAt(content, i + 1) {
    }
  }

  /** Nothing is lost on the client's side: its packets determine the content. */
  lemma {:induction false} PacketsDetermineContent(a: seq<Byte>, b: seq<Byte>)
    requires ClientPackets(a) == ClientPackets(b)
    ensures a == b
    decreases |a|
  {
    assert |ClientPackets(a)| == |ClientPackets(b)|;
    assert ClientPackets(a)[0].chunk == ChunkAt(a, 0) == ClientPackets(b)[0].chunk == ChunkAt(b, 0);
    if |a| >= MAX_CHUNK_SIZE {
      LaterPackets(a);
      LaterPackets(b);
      PacketsDetermineContent(a[MAX_CHUNK_SIZE..], b[MAX_CHUNK_SIZE..]);
      assert a == ChunkAt(a, 0) + a[MAX_CHUNK_SIZE..] && b == ChunkAt(b, 0) + b[MAX_CHUNK_SIZE..];
    }
  }

  lemma {:induction false} CutKeepsNulFree(content: seq<Byte>)
    ensures CutAtNuls(content) == content <==> NoNul(content)
    ensures CutAtNuls(CutAtNuls(content)) == CutAtNuls(content)
    decreases |content|
  {
    CutOfNulFree(CutAtNuls(content));
    if NoNul(content) {
      CutOfNulFree(content);
    }
  }

  lemma {:induction false} CutOfNulFree(content: seq<Byte>)
    requires NoNul(content)
    ensures CutAtNuls(content) == content
    decreases |content|
  {
    if |content| < MAX_CHUNK_SIZE {
      CStrOfNulFree(content);
    } else {
      CStrOfNulFree(content[..MAX_CHUNK_SIZE]);
      CutOfNulFree(content[MAX_CHUNK_SIZE..]);
    }
  }

  /** A client writes `text` to a file. */
  method Upload(text: seq<Byte>) returns (stored: seq<Byte>)
    ensures stored == CutAtNuls(text)
  {
    var socket := new Channel();
    var typed := new ReadFile(text);
    SendFileDataToSs(typed, socket);
    ghost var packets := ClientPackets(text);
    assert socket.queue == packets == packets + [];
    TransmissionOfOne(packets, []);
    assert socket.queue[|packets| - 1].lastChunk;
    var file := new AppendFile();
    WriteFileInSs(file, socket);
    DeliveredIsCut(text);
    return file.content;
  }

  /** A client reads a file of this content. */
  method Download(stored: seq<Byte>) returns (shown: seq<Byte>)
    ensures shown == CutAtNuls(stored)
  {
    var socket := new Channel();
    var file := new ReadFile(stored);
    ReadFileInSs(file, socket);
    ghost var packets := ServerPackets(stored);
    assert socket.queue == packets == packets + [];
    TransmissionOfOne(packets, []);
    var stdout := new AppendFile();
    GetFileDataFromSs(socket, stdout);
    DeliveredIsCut(stored);
    return stdout.content;
  }

  /** A client writes `text` to a file and a client reads the file back. */
  method WriteThenRead(text: seq<Byte>) returns (stored: seq<Byte>, shown: seq<Byte>)
    ensures stored == CutAtNuls(text) && shown == stored
    ensures stored == text <==> NoNul(text)
  {
    stored := Upload(text);
    shown := Download(stored);
    CutKeepsNulFree(text);
  }
}
