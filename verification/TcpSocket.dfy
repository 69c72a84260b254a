/** The buffered reads of TcpSocket over a source that delivers its data in arbitrary chunks. */
module TcpSocket {
  import opened Basics

  const MAX_CHUNK := 2500

  function Flat(chunks: seq<string>): string {
    if chunks == [] then "" else chunks[0] + Flat(chunks[1..])
  }

  // ---------------------------------------------------------------- calls on a plain stream

  /** The length of the first line, with its newline if there is one. */
  function LineLength(s: string): (n: nat)
    ensures n <= |s|
    ensures forall i :: 0 <= i < n - 1 ==> s[i] != '\n'
    ensures n < |s| ==> n > 0 && s[n - 1] == '\n'
    ensures n == 0 <==> s == ""
  {
    if s == "" then 0 else if s[0] == '\n' then 1 else 1 + LineLength(s[1..])
  }

  datatype Call = ReadLine | Read(n: nat)

  /** The result of a call, None for a short read, and what is left of the stream. */
  function OnStream(s: string, c: Call): (Option<string>, string) {
    match c
    case ReadLine => (Some(s[..LineLength(s)]), s[LineLength(s)..])
    case Read(n) => if n <= |s| then (Some(s[..n]), s[n..]) else (None, "")
  }

  function AllOnStream(s: string, calls: seq<Call>): (seq<Option<string>>, string) {
    if calls == [] then ([], s)
    else
      var (results, rest) := AllOnStream(s, calls[..|calls| - 1]);
      var (last, rest') := OnStream(rest, calls[|calls| - 1]);
      (results + [last], rest')
  }

  function Joined(results: seq<Option<string>>): string {
    if results == [] then ""
    else Joined(results[..|results| - 1]) + if results[|results| - 1].Some? then results[|results| - 1].value else ""
  }

  /** As long as no read comes short, the results and the rest are the stream: no byte lost or repeated. */
  lemma {:induction false} NothingLost(s: string, calls: seq<Call>)
    requires forall r | r in AllOnStream(s, calls).0 :: r.Some?
    ensures Joined(AllOnStream(s, calls).0) + AllOnStream(s, calls).1 == s
    decreases |calls|
  {
    if calls != [] {
      var front, c := calls[..|calls| - 1], calls[|calls| - 1];
      var results, rest := AllOnStream(s, front).0, AllOnStream(s, front).1;
      var last, rest' := OnStream(rest, c).0, OnStream(rest, c).1;
      assert AllOnStream(s, calls) == (results + [last], rest');
      assert (results + [last])[|results|] == last && last in results + [last];
      assert forall r | r in results :: r in results + [last];
      NothingLost(s, front);
      OneCall(rest, c);
      JoinedOneMore(results, last.value, rest');
    }
  }

  lemma OneCall(s: string, c: Call)
    requires OnStream(s, c).0.Some?
    ensures OnStream(s, c).0.value + OnStream(s, c).1 == s
  {
  }

  lemma JoinedOneMore(results: seq<Option<string>>, last: string, rest: string)
    ensures Joined(results + [Some(last)]) + rest == Joined(results) + (last + rest)
  {
    assert (results + [Some(last)])[..|results|] == results;
  }

  // ---------------------------------------------------------------- the socket

  class Socket {
    var buf: string
    var bufPos: nat
    /** What the peer still sends, cut as recv will deliver it; then the connection is closed. */
    var chunks: seq<string>

    predicate Valid()
      reads this
    {
      && bufPos <= |buf|
      && forall i :: 0 <= i < |chunks| ==> 0 < |chunks[i]| <= MAX_CHUNK
    }

    /** The data not read yet. */
    function Stream(): string
      reads this
      requires Valid()
    {
      buf[bufPos..] + Flat(chunks)
    }

    constructor (chunks: seq<string>)
      requires forall i :: 0 <= i < |chunks| ==> 0 < |chunks[i]| <= MAX_CHUNK
      ensures Valid() && Stream() == Flat(chunks)
    {
      buf, bufPos := "", 0;
      this.chunks := chunks;
    }

    /** recv: the next chunk, empty at the end of the data. */
    method Recv() returns (data: string)
      requires Valid()
      modifies `chunks
      ensures Valid() && data + Flat(chunks) == Flat(old(chunks))
      ensures data == "" <==> old(chunks) == []
      ensures |chunks| == if old(chunks) == [] then 0 else |old(chunks)| - 1
    {
      if chunks == [] {
        return "";
      }
      data := chunks[0];
      chunks := chunks[1..];
    }

    /** read_chunk: false at the end of the data. */
    method ReadChunk() returns (more: bool)
      requires Valid()
      modifies this
      ensures Valid() && Stream() == old(Stream())
      ensures more <==> bufPos < |buf|
      ensures !more <==> Stream() == ""
      ensures old(bufPos) < |old(buf)| ==> buf == old(buf) && bufPos == old(bufPos) && chunks == old(chunks)
      ensures |chunks| <= |old(chunks)|
      ensures more && old(bufPos) == |old(buf)| ==> |chunks| < |old(chunks)|
    {
      if bufPos < |buf| {
        return true;
      }
      bufPos, buf := 0, "";
      var data := Recv();
      buf := data;
      return bufPos < |buf|;
    }

    /** readline: up to and including the first newline, or to the end of the data. */
    method ReadLine() returns (line: string)
      requires Valid()
      modifies this
      ensures Valid() && (Some(line), Stream()) == OnStream(old(Stream()), Call.ReadLine)
    {
      ghost var s := Stream();
      line := "";
      var done := false;
      while !done
        invariant Valid() && Taken(s, line, Stream()) && (!done ==> NoNewline(line))
        invariant done ==> (Some(line), Stream()) == OnStream(s, Call.ReadLine)
        decreases !done, |chunks|
      {
        line, done := ReadMore(s, line);
      }
    }

    /** One round: the rest of the buffer, and another chunk if the line does not end in it. */
    method ReadMore(ghost s: string, start: string) returns (line: string, done: bool)
      requires Valid() && Taken(s, start, Stream()) && NoNewline(start)
      modifies this
      ensures Valid() && Taken(s, line, Stream())
      ensures done ==> (Some(line), Stream()) == OnStream(s, Call.ReadLine)
      ensures !done ==> NoNewline(line) && |chunks| < |old(chunks)|
    {
      line, done := ScanBuffer(s, start);
      if !done {
        var more := ReadChunk();
        done := !more;
      }
      if done {
        LineIs(s, |line|);
      }
    }

    /** The inner loop: what the buffer holds of the line. */
    method ScanBuffer(ghost s: string, start: string) returns (line: string, ended: bool)
      requires Valid() && Taken(s, start, Stream()) && NoNewline(start)
      modifies `bufPos
      ensures Valid() && Taken(s, line, Stream())
      ensures ended ==> line != "" && line[|line| - 1] == '\n' && NoNewline(line[..|line| - 1])
      ensures !ended ==> bufPos == |buf| && NoNewline(line)
    {
      line := start;
      while bufPos < |buf|
        invariant Valid() && Taken(s, line, Stream()) && NoNewline(line)
      {
        var c := buf[bufPos];
        TakePart(s, line, buf, bufPos, 1, Flat(chunks));
        assert buf[bufPos..bufPos + 1] == [c];
        bufPos := bufPos + 1;
        line := line + [c];
        if c == '\n' {
          assert line[..|line| - 1] + [c] == line;
          return line, true;
        }
      }
      return line, false;
    }

    /** read: exactly n bytes, or None when the data ends first; what there was is then used up. */
    method Read(n: nat) returns (r: Option<string>)
      requires Valid()
      modifies this
      ensures Valid() && (r, Stream()) == OnStream(old(Stream()), Call.Read(n))
    {
      ghost var s := Stream();
      var data, pos := "", 0;
      while pos < n
        invariant Valid() && Taken(s, data, Stream()) && pos == |data| <= n
        decreases n - pos, |chunks|
      {
        data := TakeBuffered(s, data, n);
        pos := |data|;
        if pos < n {
          var more := ReadChunk();
          if !more {
            ShortRead(s, data, n);
            return None;
          }
        }
      }
      FullRead(s, data, Stream());
      return Some(data);
    }

    /** What the buffer holds of the data wanted. */
    method TakeBuffered(ghost s: string, start: string, n: nat) returns (data: string)
      requires Valid() && Taken(s, start, Stream()) && |start| < n
      modifies `bufPos
      ensures Valid() && Taken(s, data, Stream()) && |start| <= |data| <= n
      ensures bufPos == |buf| || |data| == n
    {
      data := start;
      if bufPos < |buf| {
        var minSize := |buf| - bufPos;
        if n - |data| < minSize {
          minSize := n - |data|;
        }
        TakePart(s, data, buf, bufPos, minSize, Flat(chunks));
        data := data + buf[bufPos..bufPos + minSize];
        bufPos := bufPos + minSize;
      }
    }

    /**
     Any sequence of calls gives what it gives on the stream, so the results do not depend on
     how the data was cut into chunks.
     */
    method Serve(calls: seq<Call>) returns (results: seq<Option<string>>)
      requires Valid()
      modifies this
      ensures Valid() && (results, Stream()) == AllOnStream(old(Stream()), calls)
    {
      ghost var s := Stream();
      results := [];
      var i := 0;
      while i < |calls|
        invariant 0 <= i <= |calls| && Valid()
        invariant (results, Stream()) == AllOnStream(s, calls[..i])
      {
        assert calls[..i + 1][..i] == calls[..i];
        match calls[i] {
          case ReadLine =>
            var line := ReadLine();
            results := results + [Some(line)];
          case Read(n) =>
            var data := Read(n);
            results := results + [data];
        }
        i := i + 1;
      }
      assert calls[..i] == calls;
    }
  }

  /** The stream s cut in two. */
  predicate Taken(s: string, taken: string, rest: string) {
    s == taken + rest
  }

  predicate NoNewline(s: string) {
    forall i :: 0 <= i < |s| ==> s[i] != '\n'
  }

  /** A piece of the buffer moved over. */
  lemma TakePart(s: string, taken: string, buf: string, pos: nat, k: nat, rest: string)
    requires pos + k <= |buf| && Taken(s, taken, buf[pos..] + rest)
    ensures Taken(s, taken + buf[pos..pos + k], buf[pos + k..] + rest)
  {
    assert buf[pos..] == buf[pos..pos + k] + buf[pos + k..];
  }

  lemma ShortRead(s: string, data: string, n: nat)
    requires Taken(s, data, "") && |data| < n
    ensures OnStream(s, Read(n)) == (None, "")
  {
  }

  lemma FullRead(s: string, data: string, rest: string)
    requires Taken(s, data, rest)
    ensures OnStream(s, Read(|data|)) == (Some(data), rest)
  {
  }

  /** The first line is the one that ends at its first newline, or at the end of the data. */
  lemma {:induction false} LineIs(s: string, n: nat)
    requires n <= |s| && forall i :: 0 <= i < n - 1 ==> s[i] != '\n'
    requires (n > 0 && s[n - 1] == '\n') || n == |s|
    ensures LineLength(s) == n
    decreases n
  {
    if s != "" && s[0] != '\n' {
      LineIs(s[1..], n - 1);
    }
  }

  /** Two ways of cutting the same data give the same results. */
  method ChunksDoNotMatter(a: Socket, b: Socket, calls: seq<Call>) returns (x: seq<Option<string>>, y: seq<Option<string>>)
    requires a != b && a.Valid() && b.Valid() && a.Stream() == b.Stream()
    modifies a, b
    ensures x == y && a.Valid() && b.Valid() && a.Stream() == b.Stream()
  {
    x := a.Serve(calls);
    y := b.Serve(calls);
  }

  // ---------------------------------------------------------------- lines and reads, spelled out

  /** A line is what comes before the first newline, with the newline; the last one may lack it. */
  lemma LinesAre(line: string, rest: string)
    requires '\n' !in line
    ensures OnStream(line + "\n" + rest, ReadLine) == (Some(line + "\n"), rest)
    ensures OnStream(line, ReadLine) == (Some(line), "")
  {
    var s := line + "\n" + rest;
    assert forall i | 0 <= i < |line| :: s[i] == line[i] && line[i] in line;
    LineIs(s, |line| + 1);
    assert forall i | 0 <= i < |line| :: line[i] in line;
    LineIs(line, |line|);
    assert line[..|line|] == line && line[|line|..] == "";
    assert s[..|line| + 1] == line + "\n" && s[|line| + 1..] == rest;
  }

  /** A read of n bytes takes the first n; if there are fewer it fails, and they are gone. */
  lemma ReadsAre(data: string, rest: string, n: nat)
    ensures OnStream(data + rest, Read(|data|)) == (Some(data), rest)
    ensures n > |data| ==> OnStream(data, Read(n)) == (None, "")
  {
  }
}
