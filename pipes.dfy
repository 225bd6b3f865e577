/** The read end of a child process's standard output opened in text mode,
    as `subprocess.Popen(..., stdout=PIPE, text=True)` hands it out. The
    child's whole output is known up front (it is an input of the model);
    reading consumes it from the front. */
module Pipes {
  import opened Wrappers
  import opened Text

  /** The next line of `s` as `readline()` returns it: everything up to and
      including the first newline, or all of `s` when there is none; empty
      only at end of stream. */
  function NextLine(s: string): (line: string)
    ensures line == [] <==> s == []
  {
    match FindFrom(s, "\n", 0)
    case None => s
    case Some(k) => s[..k + 1]
  }

  /** The line stops at the first newline: none comes before its last
      character, and that one is a newline unless the stream ran out. */
  lemma NextLineStopsAtNewline(s: string)
    ensures var line := NextLine(s);
      && (forall i :: 0 <= i < |line| - 1 ==> line[i] != '\n')
      && (line == s || line[|line| - 1] == '\n')
  {
    match FindFrom(s, "\n", 0)
    case None =>
      forall i | 0 <= i < |s| ensures s[i] != '\n' {
        assert !IsAt(s, i, "\n") && s[i..i + 1] == [s[i]];
      }
    case Some(k) =>
      assert s[k..k + 1] == "\n";
      forall i | 0 <= i < k ensures s[i] != '\n' {
        assert !IsAt(s, i, "\n") && s[i..i + 1] == [s[i]];
      }
  }

  class Pipe {
    /** Everything the child writes to this stream before it exits. */
    const data: string
    /** How much of `data` has been read. */
    var pos: nat

    ghost predicate Valid()
      reads this
    {
      pos <= |data|
    }

    /** What is still to be read. */
    function Remaining(): string
      reads this
      requires Valid()
    {
      data[pos..]
    }

    constructor (output: string)
      ensures Valid() && data == output && Remaining() == output
    {
      data := output;
      pos := 0;
    }

    /** `stream.readline()`. */
    method ReadLine() returns (line: string)
      requires Valid()
      modifies this
      ensures Valid()
      ensures line == NextLine(old(Remaining()))
      ensures old(Remaining()) == line + Remaining()
    {
      LineThenRest(data[pos..]);
      line := NextLine(data[pos..]);
      pos := pos + |line|;
    }

    /** `stream.read()`, as `communicate()` does it: the rest of the stream. */
    method ReadRest() returns (rest: string)
      requires Valid()
      modifies this
      ensures Valid()
      ensures rest == old(Remaining()) && Remaining() == []
    {
      rest := data[pos..];
      pos := |data|;
    }
  }

  /** A line read off the front of `s` and what follows it make up `s`. */
  lemma LineThenRest(s: string)
    ensures |NextLine(s)| <= |s| && NextLine(s) + s[|NextLine(s)|..] == s
  {
    var line := NextLine(s);
    assert line == s[..|line|];
    assert s == s[..|line|] + s[|line|..];
  }

  /** Re-bracketing what has been gathered, the line just read and the rest. */
  lemma Regroup(out: string, before: string, line: string, rest: string, total: string)
    requires out + before == total && before == line + rest
    ensures out + line + rest == total
  {
  }

  /** `for line in iter(stream.readline, ""): out += line`: the loop that
      gathers a child's output line by line gathers all of it, in order. */
  method CollectOutput(stream: Pipe) returns (out: string)
    requires stream.Valid()
    modifies stream
    ensures stream.Valid()
    ensures out == old(stream.Remaining()) && stream.Remaining() == []
  {
    ghost var total := stream.Remaining();
    out := [];
    var line := stream.ReadLine();
    ghost var rest := stream.Remaining();
    while line != []
      invariant stream.Valid() && rest == stream.Remaining()
      invariant out + line + rest == total
      invariant line == [] ==> rest == []
      decreases |line| + |rest|
    {
      ghost var before := rest;
      out := out + line;
      line := stream.ReadLine();
      rest := stream.Remaining();
      Regroup(out, before, line, rest, total);
    }
  }

  /** `for line in iter(stream.readline, ""): pass` (the loop only logs, and
      logging below ERROR is switched off): it drains the stream. */
  method DrainLines(stream: Pipe)
    requires stream.Valid()
    modifies stream
    ensures stream.Valid() && stream.Remaining() == []
  {
    var line := stream.ReadLine();
    while line != []
      invariant stream.Valid()
      invariant line == [] ==> stream.Remaining() == []
      decreases |stream.Remaining()|, |line|
    {
      line := stream.ReadLine();
    }
  }
}
