/** Line framing of the received byte stream. */
module Framing {
  import opened Wrappers

  type Byte = b: int | 0 <= b < 256

  const NEWLINE: Byte := 10

  /** bytes.find of the newline. */
  function FindNewline(s: seq<Byte>, from: nat): (r: Option<nat>)
    requires from <= |s|
    ensures r.Some? ==> from <= r.value < |s| && s[r.value] == NEWLINE
    ensures forall k :: from <= k < (if r.Some? then r.value else |s|) ==> s[k] != NEWLINE
    decreases |s| - from
  {
    if from == |s| then None else if s[from] == NEWLINE then Some(from) else FindNewline(s, from + 1)
  }

  lemma FindNewlineIs(s: seq<Byte>, i: nat)
    requires i < |s| && s[i] == NEWLINE && forall k :: 0 <= k < i ==> s[k] != NEWLINE
    ensures FindNewline(s, 0) == Some(i)
  {
  }

  /** The complete lines of a stream, without their newlines. */
  function Lines(s: seq<Byte>): seq<seq<Byte>>
    decreases |s|
  {
    match FindNewline(s, 0)
    case None => []
    case Some(i) => [s[..i]] + Lines(s[i + 1..])
  }

  /** What is left in the buffer after the last newline. */
  function Residual(s: seq<Byte>): seq<Byte>
    decreases |s|
  {
    match FindNewline(s, 0)
    case None => s
    case Some(i) => Residual(s[i + 1..])
  }

  /** Lines and residual put back together. */
  function Rebuild(lines: seq<seq<Byte>>, residual: seq<Byte>): seq<Byte> {
    if lines == [] then residual else lines[0] + [NEWLINE] + Rebuild(lines[1..], residual)
  }

  ghost predicate NoNewlines(lines: seq<seq<Byte>>) {
    forall l :: l in lines ==> NEWLINE !in l
  }

  /** No byte is lost or invented, and neither a line nor the residual holds a
      newline. */
  lemma {:induction false} FramingRebuilds(s: seq<Byte>)
    ensures Rebuild(Lines(s), Residual(s)) == s
    ensures NEWLINE !in Residual(s) && NoNewlines(Lines(s))
    decreases |s|
  {
    match FindNewline(s, 0) {
      case None =>
      case Some(i) =>
        FramingRebuilds(s[i + 1..]);
        assert Lines(s)[1..] == Lines(s[i + 1..]);
        assert s == s[..i] + [NEWLINE] + s[i + 1..];
    }
  }

  /** And there is only one way to cut a stream like that. */
  lemma {:induction false} FramingIsUnique(lines: seq<seq<Byte>>, residual: seq<Byte>)
    requires NEWLINE !in residual && NoNewlines(lines)
    ensures Lines(Rebuild(lines, residual)) == lines && Residual(Rebuild(lines, residual)) == residual
  {
    var s := Rebuild(lines, residual);
    if lines != [] {
      var line, rest := lines[0], Rebuild(lines[1..], residual);
      assert s == line + [NEWLINE] + rest;
      FirstLine(line, rest);
      FramingIsUnique(lines[1..], residual);
    }
  }

  lemma FirstLine(line: seq<Byte>, rest: seq<Byte>)
    requires NEWLINE !in line
    ensures Lines(line + [NEWLINE] + rest) == [line] + Lines(rest)
    ensures Residual(line + [NEWLINE] + rest) == Residual(rest)
  {
    var s := line + [NEWLINE] + rest;
    FindNewlineIs(s, |line|);
    assert s[..|line|] == line && s[|line| + 1..] == rest;
  }

  /** Framing a prefix first, and then its residual with the rest, is framing the
      whole. */
  lemma {:induction false} FramingIsIncremental(a: seq<Byte>, b: seq<Byte>)
    ensures Lines(a + b) == Lines(a) + Lines(Residual(a) + b)
    ensures Residual(a + b) == Residual(Residual(a) + b)
    decreases |a|
  {
    match FindNewline(a, 0) {
      case None =>
      case Some(i) =>
        var line, rest := a[..i], a[i + 1..];
        assert a + b == line + [NEWLINE] + (rest + b);
        FirstLine(line, rest + b);
        FramingIsIncremental(rest, b);
    }
  }

  /** What recv hands over until the peer closes (an empty chunk). */
  function Received(chunks: seq<seq<Byte>>): seq<Byte> {
    if chunks == [] || chunks[0] == [] then [] else chunks[0] + Received(chunks[1..])
  }

  /** The lines handled chunk by chunk, starting from what is buffered. */
  function ChunkedLines(buf: seq<Byte>, chunks: seq<seq<Byte>>): seq<seq<Byte>>
    decreases |chunks|
  {
    if chunks == [] || chunks[0] == [] then []
    else Lines(buf + chunks[0]) + ChunkedLines(Residual(buf + chunks[0]), chunks[1..])
  }

  function ChunkedResidual(buf: seq<Byte>, chunks: seq<seq<Byte>>): seq<Byte>
    decreases |chunks|
  {
    if chunks == [] || chunks[0] == [] then buf else ChunkedResidual(Residual(buf + chunks[0]), chunks[1..])
  }

  /** However the stream is cut into chunks, the same lines are handled and the
      same residual stays. */
  lemma {:induction false} ChunkingDoesNotMatter(buf: seq<Byte>, chunks: seq<seq<Byte>>)
    requires NEWLINE !in buf
    ensures ChunkedLines(buf, chunks) == Lines(buf + Received(chunks))
    ensures ChunkedResidual(buf, chunks) == Residual(buf + Received(chunks))
    decreases |chunks|
  {
    if chunks == [] || chunks[0] == [] {
      assert buf + Received(chunks) == buf;
    } else {
      var first := buf + chunks[0];
      FramingRebuilds(first);
      ChunkingDoesNotMatter(Residual(first), chunks[1..]);
      FramingIsIncremental(first, Received(chunks[1..]));
      assert buf + Received(chunks) == first + Received(chunks[1..]);
    }
  }
}
