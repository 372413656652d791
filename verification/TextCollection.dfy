/**
 How the client collects the text of a write: line by line into a 1024-byte buffer, until a line
 read starts with a newline.
 */
module TextCollection {
  import opened Bytes
  import opened Transfer

  /** `fgets` reads at most one byte less than the size of its buffer. */
  const MAX_LINE := MAX_CHUNK_SIZE - 1

  class InputStream {
    const content: seq<Byte>
    var pos: nat

    constructor (content: seq<Byte>)
      ensures this.content == content && pos == 0
    {
      this.content := content;
      pos := 0;
    }

    /** Reads up to and including a newline, at most `limit` bytes; nothing at the end of input. */
    method Fgets(limit: nat) returns (line: seq<Byte>)
      requires pos <= |content| && limit > 0
      modifies this
      ensures pos == old(pos) + |line| <= |content| && line == content[old(pos)..pos] && |line| <= limit
      ensures forall k :: old(pos) <= k < pos - 1 ==> content[k] != NEWLINE
      ensures |line| < limit && pos < |content| ==> line != [] && line[|line| - 1] == NEWLINE
    {
      var start := pos;
      while pos < |content| && pos - start < limit
        invariant start <= pos <= |content| && pos - start <= limit
        invariant forall k :: start <= k < pos ==> content[k] != NEWLINE
      {
        pos := pos + 1;
        if content[pos - 1] == NEWLINE {
          break;
        }
      }
      line := content[start..pos];
    }
  }

  /** The start of the line that position `k` lies in. */
  function LineStart(input: seq<Byte>, k: nat): nat
    requires k <= |input|
  {
    if k == 0 || input[k - 1] == NEWLINE then k else LineStart(input, k - 1)
  }

  /** A newline whose offset in its line is a multiple of 1023; an empty line is the meant case. */
  predicate StopsAt(input: seq<Byte>, k: nat) {
    k < |input| && input[k] == NEWLINE && (k - LineStart(input, k)) % MAX_LINE == 0
  }

  ghost predicate FirstStop(input: seq<Byte>, k: nat) {
    StopsAt(input, k) && forall j :: 0 <= j < k ==> !StopsAt(input, j)
  }

  /** An empty line. */
  predicate EmptyLineAt(input: seq<Byte>, k: nat) {
    k < |input| && input[k] == NEWLINE && LineStart(input, k) == k
  }

  /** The start of the piece of its line that position `k` is read in: lines are read 1023 bytes at a time. */
  function PieceStart(input: seq<Byte>, k: nat): int
    requires k <= |input|
  {
    k - (k - LineStart(input, k)) % MAX_LINE
  }

  /** A NUL stands at or before position `k` in its piece. */
  ghost predicate CutOff(input: seq<Byte>, k: nat)
    requires k < |input|
  {
    exists j :: 0 <= j <= k && PieceStart(input, k) <= j && input[j] == NUL
  }

  /** The bytes before position `n` that `fputs` writes: those with no NUL at or before them in their piece. */
  ghost function Kept(input: seq<Byte>, n: nat): seq<Byte>
    requires n <= |input|
  {
    if n == 0 then [] else Kept(input, n - 1) + if CutOff(input, n - 1) then [] else [input[n - 1]]
  }

  /** The collection loop.  It fails when the input ends first. */
  method CollectText(stdin: InputStream, tempFile: AppendFile) returns (ok: bool)
    requires stdin.pos == 0
    requires tempFile.content == []
    modifies stdin, tempFile
    ensures ok <==> exists k :: FirstStop(stdin.content, k)
    ensures ok ==> 0 < stdin.pos <= |stdin.content| && FirstStop(stdin.content, stdin.pos - 1)
    ensures ok ==> forall j: nat :: j < stdin.pos - 1 ==> !StopsAt(stdin.content, j)
    ensures ok ==> tempFile.content == Kept(stdin.content, stdin.pos - 1)
    ensures ok ==> (tempFile.content == stdin.content[..stdin.pos - 1] <==> NoNul(stdin.content[..stdin.pos - 1]))
  {
    ghost var input := stdin.content;
    while true
      invariant stdin.pos <= |input|
      invariant stdin.pos < |input| ==> (stdin.pos - LineStart(input, stdin.pos)) % MAX_LINE == 0
      invariant forall j :: 0 <= j < stdin.pos ==> !StopsAt(input, j)
      invariant tempFile.content == Kept(input, stdin.pos)
      decreases |input| - stdin.pos
    {
      ghost var start := stdin.pos;
      var buffer := stdin.Fgets(MAX_LINE);
      if buffer == [] {
        NoStop(input);
        return false;
      }
      if buffer[0] == NEWLINE {
        assert stdin.pos == start + 1;
        StopHere(input, start);
        KeptAll(input, start);
        return true;
      }
      LinePiece(input, start, stdin.pos);
      KeptPiece(input, start, stdin.pos);
      tempFile.Write(CStr(buffer));
    }
  }

  lemma {:induction false} NoStop(input: seq<Byte>)
    requires forall j :: 0 <= j < |input| ==> !StopsAt(input, j)
    ensures !exists k :: FirstStop(input, k)
  {
  }

  lemma {:induction false} StopHere(input: seq<Byte>, k: nat)
    requires k < |input| && input[k] == NEWLINE && (k - LineStart(input, k)) % MAX_LINE == 0
    requires forall j :: 0 <= j < k ==> !StopsAt(input, j)
    ensures FirstStop(input, k)
  {
  }

  /** The client's whole side of a write: collect the text, then send it in chunks. */
  method CollectAndSend(stdin: InputStream, socket: Channel) returns (ok: bool)
    requires stdin.pos == 0
    modifies stdin, socket
    ensures ok <==> exists k :: FirstStop(stdin.content, k)
    ensures ok ==> 0 < stdin.pos <= |stdin.content| && FirstStop(stdin.content, stdin.pos - 1)
    ensures ok ==> socket.queue == old(socket.queue) + ClientPackets(Kept(stdin.content, stdin.pos - 1))
    ensures ok ==> (socket.queue == old(socket.queue) + ClientPackets(stdin.content[..stdin.pos - 1])
                    <==> NoNul(stdin.content[..stdin.pos - 1]))
    ensures !ok ==> socket.queue == old(socket.queue)
  {
    var tempFile := new AppendFile();
    ok := CollectText(stdin, tempFile);
    if ok {
      var saved := new ReadFile(tempFile.content);
      SendFileDataToSs(saved, socket);
      SameQueue(old(socket.queue), saved.content, stdin.content[..stdin.pos - 1]);
    }
  }

  // ---------- What is saved ----------

  /** Everything is saved exactly when there is no NUL in it. */
  lemma {:induction false} KeptAll(input: seq<Byte>, n: nat)
    requires n <= |input|
    ensures |Kept(input, n)| <= n
    ensures Kept(input, n) == input[..n] <==> NoNul(input[..n])
  {
    if n > 0 {
      KeptAll(input, n - 1);
      assert input[..n] == input[..n - 1] + [input[n - 1]];
      if NoNul(input[..n]) {
        assert forall i :: 0 <= i < n - 1 ==> input[..n - 1][i] == input[..n][i];
        assert forall j :: 0 <= j < n ==> input[j] == input[..n][j];
      } else if input[n - 1] == NUL {
        assert CutOff(input, n - 1);
      }
    }
  }

  /** Within a piece, a byte is cut off when the piece has a NUL up to there. */
  lemma {:induction false} CutOffInPiece(input: seq<Byte>, start: nat, k: nat)
    requires start <= k < |input| && k - start < MAX_LINE
    requires (start - LineStart(input, start)) % MAX_LINE == 0
    requires forall j :: start <= j < k ==> input[j] != NEWLINE
    ensures CutOff(input, k) <==> !NoNul(input[start..k + 1])
  {
    SameLine(input, start, k);
    AddOffset(start - LineStart(input, start), k - start);
    assert PieceStart(input, k) == start;
    var piece := input[start..k + 1];
    if CutOff(input, k) {
      var j :| 0 <= j <= k && start <= j && input[j] == NUL;
      assert piece[j - start] == NUL;
    }
    if !NoNul(piece) {
      var i :| 0 <= i < |piece| && piece[i] == NUL;
      assert input[start + i] == NUL;
    }
  }

  /** Within a piece, what is saved is the C string that `fgets` leaves in the buffer. */
  lemma {:induction false} KeptPiece(input: seq<Byte>, start: nat, end: nat)
    requires start <= end <= |input| && end - start <= MAX_LINE
    requires start < |input| ==> (start - LineStart(input, start)) % MAX_LINE == 0
    requires forall k :: start <= k < end - 1 ==> input[k] != NEWLINE
    ensures Kept(input, end) == Kept(input, start) + CStr(input[start..end])
  {
    if start == end {
      assert CStr(input[start..end]) == [];
    } else {
      KeptPiece(input, start, end - 1);
      CutOffInPiece(input, start, end - 1);
      KeptNext(input, start, end - 1);
    }
  }

  lemma {:induction false} KeptNext(input: seq<Byte>, start: nat, k: nat)
    requires start <= k < |input|
    requires Kept(input, k) == Kept(input, start) + CStr(input[start..k])
    requires CutOff(input, k) <==> !NoNul(input[start..k + 1])
    ensures Kept(input, k + 1) == Kept(input, start) + CStr(input[start..k + 1])
  {
    CStrNext(input[start..k], input[k]);
    assert input[start..k + 1] == input[start..k] + [input[k]];
  }

  lemma {:induction false} CStrNext(s: seq<Byte>, b: Byte)
    ensures CStr(s + [b]) == CStr(s) + if NoNul(s + [b]) then [b] else []
  {
    if NoNul(s + [b]) {
      CStrOfNulFree(s + [b]);
      assert forall i :: 0 <= i < |s| ==> (s + [b])[i] == s[i];
      CStrOfNulFree(s);
    } else {
      CStrUntilNul(s + [b], CStr(s));
    }
  }

  /** The C string of a buffer is its one NUL-free prefix that ends at a NUL. */
  lemma {:induction false} CStrUntilNul(s: seq<Byte>, r: seq<Byte>)
    requires r < s && NoNul(r) && s[|r|] == NUL
    ensures CStr(s) == r
  {
    assert |CStr(s)| <= |r|;
    assert |CStr(s)| >= |r|;
  }

  lemma {:induction false} SameQueue(before: seq<Packet>, a: seq<Byte>, b: seq<Byte>)
    ensures before + ClientPackets(a) == before + ClientPackets(b) <==> a == b
  {
    if before + ClientPackets(a) == before + ClientPackets(b) {
      assert (before + ClientPackets(a))[|before|..] == ClientPackets(a);
      assert (before + ClientPackets(b))[|before|..] == ClientPackets(b);
      PacketsDetermineContent(a, b);
    }
  }

  /** A piece of a line that `fgets` returns holds no stopping newline. */
  lemma {:induction false} LinePiece(input: seq<Byte>, start: nat, end: nat)
    requires start < end <= |input| && end - start <= MAX_LINE
    requires input[start] != NEWLINE
    requires forall k :: start <= k < end - 1 ==> input[k] != NEWLINE
    requires end - start < MAX_LINE && end < |input| ==> input[end - 1] == NEWLINE
    requires (start - LineStart(input, start)) % MAX_LINE == 0
    ensures forall j :: start <= j < end ==> !StopsAt(input, j)
    ensures (end - LineStart(input, end)) % MAX_LINE == 0 || end == |input|
  {
    var offset := start - LineStart(input, start);
    SameLine(input, start, end - 1);
    AddOffset(offset, end - 1 - start);
    if input[end - 1] != NEWLINE && end < |input| {
      AddOffset(offset, MAX_LINE);
    }
  }

  lemma {:induction false} AddOffset(offset: int, r: nat)
    requires offset % MAX_LINE == 0 && r <= MAX_LINE
    ensures (offset + r) % MAX_LINE == if r == MAX_LINE then 0 else r
  {
  }

  lemma {:induction false} SameLine(input: seq<Byte>, start: nat, end: nat)
    requires start <= end <= |input|
    requires forall k :: start <= k < end ==> input[k] != NEWLINE
    ensures LineStart(input, end) == LineStart(input, start)
  {
    if start < end {
      SameLine(input, start, end - 1);
    }
  }

  /** The newline at `k` ends a line whose length is a positive multiple of 1023. */
  predicate EndsLongLine(input: seq<Byte>, k: nat) {
    StopsAt(input, k) && LineStart(input, k) < k
  }

  /**
   Two newlines in a row end the text exactly when no line before them has a length that is a
   positive multiple of 1023; the saved text is then the lines before the first empty one.
   */
  lemma {:induction false} StopsAtEmptyLine(input: seq<Byte>, e: nat)
    requires EmptyLineAt(input, e) && forall j :: 0 <= j < e ==> !EmptyLineAt(input, j)
    ensures FirstStop(input, e) <==> forall j :: 0 <= j < e ==> !EndsLongLine(input, j)
  {
    forall j | 0 <= j < e ensures StopsAt(input, j) <==> EndsLongLine(input, j) {
      LineStartBefore(input, j);
      assert !EmptyLineAt(input, j);
    }
  }

  lemma {:induction false} LineStartBefore(input: seq<Byte>, k: nat)
    requires k <= |input|
    ensures LineStart(input, k) <= k
  {
    if k > 0 && input[k - 1] != NEWLINE {
      LineStartBefore(input, k - 1);
    }
  }

  /** A line of 1023 bytes ends the text although it is not empty: its newline is dropped too. */
  lemma {:induction false} LongLineEndsText(x: Byte, more: seq<Byte>)
    requires x != 10
    ensures FirstStop(seq(1023, _ => x) + [10] + more, 1023)
    ensures !EmptyLineAt(seq(1023, _ => x) + [10] + more, 1023)
  {
    var input := seq(1023, _ => x) + [10] + more;
    SameLine(input, 0, 1023);
  }
}
