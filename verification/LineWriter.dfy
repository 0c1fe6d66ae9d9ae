/**
  A writer that hands every complete line to a chain of handlers, keeping an unfinished one
  in a buffer.  A handler returning false ends the chain for that line.
 */
module LineWriter {

  type Handler<!S> = (S, string) -> (S, bool)

  /** One line through the chain. */
  function Dispatch<S>(handlers: seq<Handler<S>>, state: S, line: string): S {
    if handlers == [] then state
    else
      var (next, more) := handlers[0](state, line);
      if more then Dispatch(handlers[1..], next, line) else next
  }

  function DispatchAll<S>(handlers: seq<Handler<S>>, state: S, lines: seq<string>): S {
    if lines == [] then state
    else Dispatch(handlers, DispatchAll(handlers, state, lines[..|lines| - 1]), lines[|lines| - 1])
  }

  lemma {:induction false} DispatchAppend<S>(handlers: seq<Handler<S>>, state: S, a: seq<string>, b: seq<string>)
    ensures DispatchAll(handlers, state, a + b) == DispatchAll(handlers, DispatchAll(handlers, state, a), b)
  {
    if b == [] {
      assert a + b == a;
    } else {
      var n := |b| - 1;
      assert (a + b)[..|a + b| - 1] == a + b[..n] && (a + b)[|a + b| - 1] == b[n];
      DispatchAppend(handlers, state, a, b[..n]);
    }
  }

  // ---- the lines of a stream ----

  /** The lines that end in a newline, each with it. */
  function Complete(stream: string): seq<string>
    decreases |stream|
  {
    if stream == [] then []
    else if stream[|stream| - 1] == '\n' then
      Complete(stream[..|stream| - 1]) + [Unfinished(stream[..|stream| - 1]) + "\n"]
    else Complete(stream[..|stream| - 1])
  }

  /** What follows the last newline. */
  function Unfinished(stream: string): string
    decreases |stream|
  {
    if stream == [] || stream[|stream| - 1] == '\n' then []
    else Unfinished(stream[..|stream| - 1]) + [stream[|stream| - 1]]
  }

  /** The lines a reader sees once the stream has ended. */
  function Lines(stream: string): seq<string> {
    Complete(stream) + if Unfinished(stream) == [] then [] else [Unfinished(stream)]
  }

  function Flatten<T>(chunks: seq<seq<T>>): seq<T> {
    if chunks == [] then [] else Flatten(chunks[..|chunks| - 1]) + chunks[|chunks| - 1]
  }

  lemma {:induction false} FlattenAppend<T>(chunks: seq<seq<T>>, chunk: seq<T>)
    ensures Flatten(chunks + [chunk]) == Flatten(chunks) + chunk
  {
    assert (chunks + [chunk])[..|chunks|] == chunks;
  }

  lemma {:induction false} Regroup(a: string, b: string, c: string)
    ensures a + (b + c) == (a + b) + c
  {
  }

  lemma {:induction false} CompleteCovers(stream: string)
    ensures Flatten(Complete(stream)) + Unfinished(stream) == stream
  {
    if stream != [] {
      var init, last := stream[..|stream| - 1], stream[|stream| - 1];
      var c, u := Complete(init), Unfinished(init);
      CompleteCovers(init);
      Regroup(Flatten(c), u, [last]);
      assert init + [last] == stream;
      if last == '\n' {
        FlattenAppend(c, u + "\n");
        assert Complete(stream) == c + [u + "\n"] && Unfinished(stream) == [];
        assert "\n" == [last];
      }
    }
  }

  /** Joining the lines gives the stream back: nothing is lost, added or reordered. */
  lemma {:induction false} LinesCover(stream: string)
    ensures Flatten(Complete(stream)) + Unfinished(stream) == stream
    ensures Flatten(Lines(stream)) == stream
  {
    var c, u := Complete(stream), Unfinished(stream);
    CompleteCovers(stream);
    FlattenAppend(c, u);
    assert u == [] ==> Lines(stream) == c && Flatten(c) + u == Flatten(c);
  }

  /** Each line has its newline at the end and nowhere else; only the last may lack it. */
  lemma {:induction false} LinesShape(stream: string)
    ensures '\n' !in Unfinished(stream)
    ensures forall l <- Complete(stream) :: l != [] && l[|l| - 1] == '\n' && '\n' !in l[..|l| - 1]
  {
    if stream != [] {
      var init := stream[..|stream| - 1];
      LinesShape(init);
      var line := Unfinished(init) + "\n";
      assert line[..|line| - 1] == Unfinished(init);
    }
  }

  lemma {:induction false} OneCharacter(stream: string, c: char)
    requires c != '\n'
    ensures Complete(stream + [c]) == Complete(stream)
    ensures Unfinished(stream + [c]) == Unfinished(stream) + [c]
  {
    assert (stream + [c])[..|stream|] == stream;
  }

  /** A stretch without a newline only lengthens the unfinished line. */
  lemma {:induction false} NoNewline(stream: string, piece: string)
    requires '\n' !in piece
    ensures Complete(stream + piece) == Complete(stream)
    ensures Unfinished(stream + piece) == Unfinished(stream) + piece
  {
    if piece == [] {
      assert stream + piece == stream && Unfinished(stream) + piece == Unfinished(stream);
    } else {
      var init, last := piece[..|piece| - 1], piece[|piece| - 1];
      assert last in piece && forall x :: x in init ==> x in piece;
      NoNewline(stream, init);
      OneCharacter(stream + init, last);
      Regroup(stream, init, [last]);
      Regroup(Unfinished(stream), init, [last]);
      assert piece == init + [last];
    }
  }

  /** More of the stream adds lines after those complete already. */
  lemma {:induction false} CompleteGrows(stream: string, more: string)
    ensures Complete(stream) <= Complete(stream + more)
  {
    if more == [] {
      assert stream + more == stream;
    } else {
      var whole, n := stream + more, |more| - 1;
      assert whole[..|whole| - 1] == stream + more[..n];
      CompleteGrows(stream, more[..n]);
    }
  }

  /** A stretch up to its first newline completes one line. */
  lemma {:induction false} OneNewline(stream: string, piece: string)
    requires '\n' !in piece
    ensures Complete(stream + (piece + "\n")) == Complete(stream) + [Unfinished(stream) + piece + "\n"]
    ensures Unfinished(stream + (piece + "\n")) == []
  {
    NoNewline(stream, piece);
    var whole := stream + (piece + "\n");
    assert whole[..|whole| - 1] == stream + piece && whole[|whole| - 1] == '\n';
  }

  /** Index just after the first newline, or |p| + 1 when there is none. */
  function AfterNewline(p: string): (k: nat)
    ensures 1 <= k <= |p| + 1
    ensures k <= |p| ==> p[k - 1] == '\n' && '\n' !in p[..k - 1]
    ensures k == |p| + 1 ==> '\n' !in p
  {
    if p == [] then 1
    else if p[0] == '\n' then 1
    else
      assert p == [p[0]] + p[1..];
      var k := 1 + AfterNewline(p[1..]);
      assert k <= |p| ==> p[..k - 1] == [p[0]] + p[1..][..k - 2];
      k
  }

  lemma {:induction false} FirstLine(p: string, k: nat)
    requires k == AfterNewline(p) <= |p|
    ensures p[..k] != [] && p[..k][k - 1] == '\n' && '\n' !in p[..k][..k - 1]
  {
    assert p[..k][..k - 1] == p[..k - 1];
  }

  lemma {:induction false} Rejoin(before: string, p: string, from: nat, k: nat)
    requires from + k <= |p|
    ensures before + p[..from] + p[from..][..k] == before + p[..from + k]
  {
    assert p[..from] + p[from..][..k] == p[..from + k];
  }

  class LineWriter<!S> {
    const handlers: seq<Handler<S>>
    var buffer: string
    var state: S
    ghost var first: S           // the handlers' state before anything was written
    ghost var written: string    // everything written so far

    ghost predicate Valid()
      reads this
    {
      && buffer == Unfinished(written)
      && state == DispatchAll(handlers, first, Complete(written))
    }

    constructor (handlers: seq<Handler<S>>, state: S)
      ensures Valid() && this.handlers == handlers && written == "" && first == state
    {
      this.handlers, buffer, this.state, first, written := handlers, "", state, state, "";
    }

    method HandleLine(line: string)
      modifies this`state
      ensures state == Dispatch(handlers, old(state), line)
    {
      for i := 0 to |handlers|
        invariant Dispatch(handlers, old(state), line) == Dispatch(handlers[i..], state, line)
      {
        assert handlers[i..][0] == handlers[i] && handlers[i..][1..] == handlers[i + 1..];
        var (next, more) := handlers[i](state, line);
        state := next;
        if !more {
          break;
        }
      }
    }

    /** A piece of the stream that ends in its only newline completes the buffered line. */
    method EndLine(line: string)
      requires Valid() && line != [] && line[|line| - 1] == '\n' && '\n' !in line[..|line| - 1]
      modifies this
      ensures Valid() && written == old(written) + line && first == old(first)
    {
      buffer := buffer + line;
      HandleLine(buffer);
      ghost var piece, before := line[..|line| - 1], Complete(written);
      OneNewline(written, piece);
      assert line == piece + "\n" && buffer == Unfinished(written) + piece + "\n";
      assert (before + [buffer])[..|before|] == before;
      written := written + line;
      buffer := "";
    }

    /** Takes any stretch of the stream; the handlers see each line once it is complete. */
    method Write(p: string) returns (n: nat)
      requires Valid()
      modifies this
      ensures Valid() && n == |p|
      ensures written == old(written) + p && first == old(first)
    {
      var from := 0;
      while true
        invariant Valid() && first == old(first)
        invariant from <= |p| && written == old(written) + p[..from]
        decreases |p| - from
      {
        var k := AfterNewline(p[from..]);
        if k > |p| - from {
          break;
        }
        FirstLine(p[from..], k);
        Rejoin(old(written), p, from, k);
        EndLine(p[from..][..k]);
        from := from + k;
      }
      Rejoin(old(written), p, from, |p| - from);
      assert p[from..][..|p| - from] == p[from..] && p[..|p|] == p;
      Keep(p[from..]);
      return |p|;
    }

    /** A piece without a newline waits for the rest of its line. */
    method Keep(piece: string)
      requires Valid() && '\n' !in piece
      modifies this
      ensures Valid() && written == old(written) + piece && first == old(first)
    {
      NoNewline(written, piece);
      buffer, written := buffer + piece, written + piece;
    }

    /** Hands over what the stream ended in, if it did not end in a newline. */
    method Flush()
      requires Valid()
      modifies this
      ensures buffer == "" && state == DispatchAll(handlers, first, Lines(written))
      ensures written == old(written) && first == old(first)
    {
      ghost var complete := Complete(written);
      if buffer == "" {
        assert Lines(written) == complete;
        return;
      }
      HandleLine(buffer);
      assert Lines(written)[..|complete|] == complete;
      buffer := "";
    }

    /** However the stream is cut into chunks, the handlers end in the state its lines lead to. */
    method WriteAll(chunks: seq<string>)
      requires Valid() && written == ""
      modifies this
      ensures buffer == "" && state == DispatchAll(handlers, old(state), Lines(Flatten(chunks)))
    {
      for i := 0 to |chunks|
        invariant Valid() && first == old(first) && written == Flatten(chunks[..i])
      {
        assert chunks[..i + 1][..i] == chunks[..i];
        var _ := Write(chunks[i]);
      }
      assert chunks[..|chunks|] == chunks;
      Flush();
    }
  }
}
