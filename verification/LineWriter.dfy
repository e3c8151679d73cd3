/** The log writer: bytes arrive in any pieces, and leave as whole lines, each with
    its prefix, to the hooks and to the stream underneath. */
module LineWriter {
  import opened Errors

  newtype Byte = b: int | 0 <= b < 256

  type Bytes = seq<Byte>

  const NEWLINE: Byte := 10

  // ---- What the writer is for, without any buffer ----

  /** The offset after the first newline; 0 when there is none. */
  function FirstLine(p: Bytes): (n: nat)
    ensures n <= |p|
  {
    if p == [] then 0
    else if p[0] == NEWLINE then 1
    else
      var n := FirstLine(p[1..]);
      if n == 0 then 0 else n + 1
  }

  /** The offset after the last newline; 0 when there is none. */
  function LastNewline(p: Bytes): (n: nat)
    ensures n <= |p|
  {
    if p == [] then 0
    else if p[|p| - 1] == NEWLINE then |p|
    else LastNewline(p[..|p| - 1])
  }

  /** The whole lines of a text, each with its newline. */
  function Lines(p: Bytes): seq<Bytes>
    decreases |p|
  {
    var n := FirstLine(p);
    if n == 0 then [] else [p[..n]] + Lines(p[n..])
  }

  /** What follows the last whole line. */
  function Rest(p: Bytes): Bytes { p[LastNewline(p)..] }

  function Concat(parts: seq<Bytes>): Bytes
  {
    if parts == [] then [] else parts[0] + Concat(parts[1..])
  }

  /** Line `k` of the log, with the prefix it got when its first byte came. */
  function Stamped(prefix: nat -> Bytes, k: nat, lines: seq<Bytes>): (r: seq<Bytes>)
    ensures |r| == |lines|
    ensures forall i :: 0 <= i < |r| ==> r[i] == prefix(k + i) + lines[i]
    decreases |lines|
  {
    if lines == [] then []
    else
      var r := [prefix(k) + lines[0]] + Stamped(prefix, k + 1, lines[1..]);
      assert forall i :: 0 < i < |r| ==> r[i] == prefix(k + 1 + (i - 1)) + lines[1..][i - 1];
      r
  }

  lemma {:induction false} FirstLineAppend(p: Bytes, q: Bytes)
    ensures FirstLine(p + q) ==
              if FirstLine(p) > 0 then FirstLine(p) else if FirstLine(q) > 0 then |p| + FirstLine(q) else 0
  {
    if p == [] {
      assert p + q == q;
    } else {
      FirstLineAppend(p[1..], q);
      assert (p + q)[1..] == p[1..] + q;
    }
  }

  lemma {:induction false} LastNewlineAppend(p: Bytes, q: Bytes)
    ensures LastNewline(p + q) == if LastNewline(q) > 0 then |p| + LastNewline(q) else LastNewline(p)
  {
    if q == [] {
      assert p + q == p;
    } else {
      var cut := q[..|q| - 1];
      LastNewlineAppend(p, cut);
      assert (p + q)[..|p + q| - 1] == p + cut;
    }
  }

  /** The first line of a text ends at its only newline. */
  lemma {:induction false} FirstLineCut(p: Bytes)
    ensures FirstLine(p[..FirstLine(p)]) == FirstLine(p)
  {
    if FirstLine(p) > 1 {
      FirstLineCut(p[1..]);
      assert p[..FirstLine(p)][1..] == p[1..][..FirstLine(p[1..])];
    }
  }

  lemma {:induction false} EndsWithNewline(p: Bytes)
    ensures FirstLine(p) > 0 ==> p[FirstLine(p) - 1] == NEWLINE
  {
    if p != [] {
      EndsWithNewline(p[1..]);
    }
  }

  lemma {:induction false} NoLine(p: Bytes)
    requires FirstLine(p) == 0
    ensures Lines(p) == [] && LastNewline(p) == 0 && Rest(p) == p
  {
    if p != [] {
      var cut := p[..|p| - 1];
      assert p == cut + [p[|p| - 1]];
      FirstLineAppend(cut, [p[|p| - 1]]);
      NoLine(cut);
    }
  }

  /** A text ends with its first line, if that is all of it. */
  lemma WholeLine(p: Bytes)
    requires p != [] && FirstLine(p) == |p|
    ensures LastNewline(p) == |p|
  {
    EndsWithNewline(p);
  }

  /** The last newline of a text lies in what follows its first line. */
  lemma LastNewlineAfterFirst(p: Bytes)
    requires FirstLine(p) > 0
    ensures LastNewline(p) == FirstLine(p) + LastNewline(p[FirstLine(p)..])
    ensures Rest(p) == Rest(p[FirstLine(p)..])
  {
    var n := FirstLine(p);
    var line, tail := p[..n], p[n..];
    assert LastNewline(line) == n by {
      FirstLineCut(p);
      WholeLine(line);
    }
    AfterLine(line, tail);
    assert p == line + tail;
  }

  lemma AfterLine(line: Bytes, tail: Bytes)
    requires LastNewline(line) == |line|
    ensures LastNewline(line + tail) == |line| + LastNewline(tail) && Rest(line + tail) == Rest(tail)
  {
    LastNewlineAppend(line, tail);
    var m := LastNewline(tail);
    assert (line + tail)[|line| + m..] == tail[m..];
  }

  lemma Assoc<T>(a: seq<T>, b: seq<T>, c: seq<T>)
    ensures (a + b) + c == a + (b + c)
  {
  }

  lemma LinesStep(text: Bytes, data: Bytes)
    requires FirstLine(text) > 0
    ensures var n := FirstLine(text);
            Lines(text + data) == [text[..n]] + Lines(text[n..] + data) && Rest(text + data) == Rest(text[n..] + data)
  {
    var n, all := FirstLine(text), text + data;
    FirstLineAppend(text, data);
    assert all[..n] == text[..n] && all[n..] == text[n..] + data;
    LastNewlineAfterFirst(all);
  }

  /** More text after a text: a line's end completes one more line. */
  lemma {:induction false} LineEnds(text: Bytes, data: Bytes)
    requires data != [] && FirstLine(data) == |data|
    ensures Lines(text + data) == Lines(text) + [Rest(text) + data]
    ensures Rest(text + data) == []
    decreases |text|
  {
    var n, all := FirstLine(text), text + data;
    if n == 0 {
      NoLine(text);
      FirstLineAppend(text, data);
      LastNewlineAfterFirst(all);
      assert all[..|all|] == all && Lines(all[|all|..]) == [];
    } else {
      LinesStep(text, data);
      LineEnds(text[n..], data);
      LastNewlineAfterFirst(text);
      Assoc([text[..n]], Lines(text[n..]), [Rest(text) + data]);
    }
  }

  /** A piece without a newline only extends what follows the last line. */
  lemma {:induction false} LineGoes(text: Bytes, data: Bytes)
    requires FirstLine(data) == 0
    ensures Lines(text + data) == Lines(text)
    ensures Rest(text + data) == Rest(text) + data
    decreases |text|
  {
    var n := FirstLine(text);
    if n == 0 {
      NoLine(text);
      FirstLineAppend(text, data);
      NoLine(text + data);
    } else {
      LinesStep(text, data);
      LineGoes(text[n..], data);
      LastNewlineAfterFirst(text);
    }
  }

  /** Lines are counted by newlines: splitting a text anywhere loses none. */
  lemma {:induction false} LinesAdd(text: Bytes, data: Bytes)
    ensures |Lines(text + data)| == |Lines(text)| + |Lines(data)|
    decreases |text|
  {
    var n, m := FirstLine(text), FirstLine(data);
    FirstLineAppend(text, data);
    if n > 0 {
      LinesStep(text, data);
      LinesAdd(text[n..], data);
    } else if m > 0 {
      assert (text + data)[|text| + m..] == data[m..];
    }
  }

  lemma ConcatHead(part: Bytes, parts: seq<Bytes>)
    ensures Concat([part] + parts) == part + Concat(parts)
  {
    assert ([part] + parts)[1..] == parts;
  }

  lemma Rejoin(head: Bytes, lines: seq<Bytes>, rest: Bytes, tail: Bytes)
    requires Concat(lines) + rest == tail
    ensures Concat([head] + lines) + rest == head + tail
  {
    ConcatHead(head, lines);
    Assoc(head, Concat(lines), rest);
  }

  /** The whole lines and the rest are the text. */
  lemma {:induction false} LinesAreTheText(p: Bytes)
    ensures Concat(Lines(p)) + Rest(p) == p
    decreases |p|
  {
    var n := FirstLine(p);
    if n == 0 {
      NoLine(p);
    } else {
      var head, tail := p[..n], p[n..];
      LinesAreTheText(tail);
      Rejoin(head, Lines(tail), Rest(tail), tail);
      assert Rest(p) == Rest(tail) by { LastNewlineAfterFirst(p); }
      assert head + tail == p;
    }
  }

  /** Each line has one newline, at its end. */
  lemma {:induction false} LinesAreWhole(p: Bytes)
    ensures forall i :: 0 <= i < |Lines(p)| ==> Lines(p)[i] != [] && FirstLine(Lines(p)[i]) == |Lines(p)[i]|
    decreases |p|
  {
    var n := FirstLine(p);
    if n > 0 {
      LinesAreWhole(p[n..]);
      FirstLineCut(p);
      assert forall i :: 0 < i < |Lines(p)| ==> Lines(p)[i] == Lines(p[n..])[i - 1];
    }
  }

  /** Byte 10 ends a line: a text's first line ends at the first one, if there is one. */
  lemma {:induction false} FirstLineIs(p: Bytes)
    ensures FirstLine(p) > 0 ==> p[FirstLine(p) - 1] == 10 && forall i :: 0 <= i < FirstLine(p) - 1 ==> p[i] != 10
    ensures FirstLine(p) == 0 ==> forall i :: 0 <= i < |p| ==> p[i] != 10
  {
    if p != [] {
      FirstLineIs(p[1..]);
    }
  }

  /** And a text's last line ends at the last one. */
  lemma {:induction false} LastNewlineIs(p: Bytes)
    ensures LastNewline(p) > 0 ==> p[LastNewline(p) - 1] == 10
    ensures forall i :: LastNewline(p) <= i < |p| ==> p[i] != 10
  {
    if p != [] {
      LastNewlineIs(p[..|p| - 1]);
    }
  }

  lemma {:induction false} StampedSnoc(prefix: nat -> Bytes, k: nat, lines: seq<Bytes>, line: Bytes)
    ensures Stamped(prefix, k, lines + [line]) == Stamped(prefix, k, lines) + [prefix(k + |lines|) + line]
  {
  }

  lemma {:induction false} ConcatSnoc(parts: seq<Bytes>, part: Bytes)
    ensures Concat(parts + [part]) == Concat(parts) + part
  {
    if parts == [] {
      assert [part][1..] == [];
    } else {
      ConcatSnoc(parts[1..], part);
      assert (parts + [part])[1..] == parts[1..] + [part];
    }
  }

  /** The log byte by byte: the prefix goes before the first byte of every line. */
  function Render(prefix: nat -> Bytes, k: nat, atStart: bool, text: Bytes): Bytes
    decreases |text|, atStart
  {
    if text == [] then []
    else if atStart then prefix(k) + Render(prefix, k, false, text)
    else
      var ended := text[0] == NEWLINE;
      [text[0]] + Render(prefix, if ended then k + 1 else k, ended, text[1..])
  }

  /** What the buffer holds of line `k` when `rest` of it has come. */
  function Pending(prefix: nat -> Bytes, k: nat, rest: Bytes): Bytes
  {
    if rest == [] then [] else prefix(k) + rest
  }

  lemma {:induction false} RenderLine(prefix: nat -> Bytes, k: nat, line: Bytes, tail: Bytes)
    requires line != [] && FirstLine(line) == |line|
    ensures Render(prefix, k, false, line + tail) == line + Render(prefix, k + 1, true, tail)
  {
    assert (line + tail)[1..] == line[1..] + tail;
    if line[0] == NEWLINE {
      assert line[1..] + tail == tail && line == [line[0]];
    } else {
      RenderLine(prefix, k, line[1..], tail);
      assert line == [line[0]] + line[1..];
      Assoc([line[0]], line[1..], Render(prefix, k + 1, true, tail));
    }
  }

  lemma {:induction false} RenderRest(prefix: nat -> Bytes, k: nat, rest: Bytes)
    requires FirstLine(rest) == 0
    ensures Render(prefix, k, false, rest) == rest
    ensures Render(prefix, k, true, rest) == Pending(prefix, k, rest)
  {
    if rest != [] {
      RenderRest(prefix, k, rest[1..]);
      assert rest == [rest[0]] + rest[1..];
    }
  }

  lemma StampedHead(prefix: nat -> Bytes, k: nat, line: Bytes, more: seq<Bytes>)
    ensures Concat(Stamped(prefix, k, [line] + more)) == (prefix(k) + line) + Concat(Stamped(prefix, k + 1, more))
  {
    assert ([line] + more)[1..] == more;
    ConcatHead(prefix(k) + line, Stamped(prefix, k + 1, more));
  }

  lemma Regroup(a: Bytes, b: Bytes, c: Bytes, d: Bytes)
    ensures a + (b + (c + d)) == ((a + b) + c) + d
  {
  }

  lemma RenderJoin(prefix: nat -> Bytes, k: nat, line: Bytes, more: seq<Bytes>, pending: Bytes)
    ensures prefix(k) + (line + (Concat(Stamped(prefix, k + 1, more)) + pending)) ==
              Concat(Stamped(prefix, k, [line] + more)) + pending
  {
    StampedHead(prefix, k, line, more);
    Regroup(prefix(k), line, Concat(Stamped(prefix, k + 1, more)), pending);
  }

  /** Whole lines and a rest, byte by byte: every line is stamped, and so is the
      rest if there is any. */
  lemma {:induction false} RenderLines(prefix: nat -> Bytes, k: nat, lines: seq<Bytes>, rest: Bytes)
    requires FirstLine(rest) == 0
    requires forall i :: 0 <= i < |lines| ==> lines[i] != [] && FirstLine(lines[i]) == |lines[i]|
    ensures Render(prefix, k, true, Concat(lines) + rest) ==
              Concat(Stamped(prefix, k, lines)) + Pending(prefix, k + |lines|, rest)
    decreases |lines|
  {
    if lines == [] {
      assert Concat(lines) + rest == rest;
      RenderRest(prefix, k, rest);
    } else {
      var line, more := lines[0], lines[1..];
      var tail := Concat(more) + rest;
      assert lines == [line] + more;
      RenderLines(prefix, k + 1, more, rest);
      RenderLine(prefix, k, line, tail);
      Assoc(line, Concat(more), rest);
      RenderJoin(prefix, k, line, more, Pending(prefix, k + 1 + |more|, rest));
    }
  }

  lemma {:induction false} RestHasNoLine(p: Bytes)
    ensures FirstLine(Rest(p)) == 0
  {
    if p != [] && p[|p| - 1] != NEWLINE {
      var cut := p[..|p| - 1];
      RestHasNoLine(cut);
      FirstLineAppend(Rest(cut), [p[|p| - 1]]);
      assert Rest(p) == Rest(cut) + [p[|p| - 1]];
    }
  }

  /** A text byte by byte is its stamped lines and the stamped rest. */
  lemma RenderIsLines(prefix: nat -> Bytes, text: Bytes)
    ensures Render(prefix, 0, true, text) ==
              Concat(Stamped(prefix, 0, Lines(text))) + Pending(prefix, |Lines(text)|, Rest(text))
  {
    LinesAreTheText(text);
    LinesAreWhole(text);
    RestHasNoLine(text);
    RenderLines(prefix, 0, Lines(text), Rest(text));
  }

  // ---- The writer ----

  /** `prefix(k)` is the timestamp and namespace written before line `k`, and
      `failing(k)` the error of the stream when line `k` is written to it.
      `hooked` is what the hooks have been called with, `stream` the bytes sent. */
  class Writer {
    const prefix: nat -> Bytes
    const failing: nat -> Err
    var buffer: Bytes
    var hooked: seq<Bytes>
    var stream: Bytes

    constructor (prefix: nat -> Bytes, failing: nat -> Err)
      ensures this.prefix == prefix && this.failing == failing && Holds([])
    {
      this.prefix, this.failing := prefix, failing;
      buffer, hooked, stream := [], [], [];
    }

    /** The writer's state after `text` has been written to it, in any pieces. */
    ghost predicate Holds(text: Bytes)
      reads this
    {
      var lines := Lines(text);
      && hooked == Stamped(prefix, 0, lines)
      && stream == Concat(hooked)
      && buffer == Pending(prefix, |lines|, Rest(text))
    }

    method WritePrefix()
      modifies this`buffer
      ensures buffer == old(buffer) + prefix(|hooked|)
    {
      buffer := buffer + prefix(|hooked|);
    }

    method Flush() returns (err: Err)
      modifies this
      ensures buffer == []
      ensures hooked == old(hooked) + [old(buffer)] && stream == old(stream) + old(buffer)
      ensures err == failing(|old(hooked)|)
    {
      var result := buffer;
      buffer := [];
      err := failing(|hooked|);
      hooked := hooked + [result];
      stream := stream + result;
    }

    /** One piece: either a whole line's end, or a piece with no newline. */
    method WritePiece(data: Bytes, isEnd: bool, ghost text: Bytes) returns (err: Err)
      requires data != [] && Holds(text)
      requires if isEnd then FirstLine(data) == |data| else FirstLine(data) == 0
      modifies this
      ensures Holds(text + data)
      ensures |hooked| == |old(hooked)| + if isEnd then 1 else 0
      ensures err == if isEnd then failing(|old(hooked)|) else None
    {
      if |buffer| == 0 {
        WritePrefix();
      }
      buffer := buffer + data;
      err := None;
      assert buffer == prefix(|hooked|) + (Rest(text) + data);
      if isEnd {
        LineEnds(text, data);
        StampedSnoc(prefix, 0, Lines(text), Rest(text) + data);
        ConcatSnoc(hooked, buffer);
        err := Flush();
      } else {
        LineGoes(text, data);
      }
    }

    /** The next piece of the input: its first line, or all of it if it has none. */
    method WriteNext(p: Bytes, ghost text: Bytes) returns (len: nat, isEnd: bool, err: Err)
      requires p != [] && Holds(text)
      modifies this
      ensures 0 < len <= |p| && Holds(text + p[..len])
      ensures if isEnd then LastNewline(p[..len]) == len else len == |p| && LastNewline(p[..len]) == 0
      ensures |hooked| == |old(hooked)| + if isEnd then 1 else 0
      ensures err == if isEnd then failing(|old(hooked)|) else None
    {
      var nl := FirstLine(p);
      if nl == 0 {
        err := WritePiece(p, false, text);
        NoLine(p);
        assert p[..|p|] == p;
        len, isEnd := |p|, false;
      } else {
        FirstLineCut(p);
        WholeLine(p[..nl]);
        err := WritePiece(p[..nl], true, text);
        len, isEnd := nl, true;
      }
    }

    /** `forEachLine`, with the closure of `Write` as its callback: it counts the
        bytes up to the last newline only. */
    method ForEachLine(input: Bytes, ghost text: Bytes) returns (n: nat, err: Err)
      requires Holds(text)
      modifies this
      ensures Holds(text + input)
      ensures n == LastNewline(input)
      ensures |hooked| >= |old(hooked)|
      ensures err == if |hooked| == |old(hooked)| then None else failing(|hooked| - 1)
    {
      n, err := 0, None;
      var p := input;
      ghost var done := [];
      assert text + done == text;
      while |p| > 0
        invariant input == done + p && Holds(text + done)
        invariant n == LastNewline(done) && (p != [] ==> n == |done|)
        invariant |hooked| >= |old(hooked)|
        invariant err == if |hooked| == |old(hooked)| then None else failing(|hooked| - 1)
        decreases |p|
      {
        var len, isEnd, e := WriteNext(p, text + done);
        if isEnd {
          n, err := n + len, e;
        }
        LastNewlineAppend(done, p[..len]);
        Assoc(text, done, p[..len]);
        assert p[..len] + p[len..] == p;
        Assoc(done, p[..len], p[len..]);
        done := done + p[..len];
        p := p[len..];
      }
      assert input == done;
    }

    /** After `Write` the writer holds the input at the end of what it held; the
        hooks have been called once more for each newline in it; and the error is
        that of the last line flushed. */
    method Write(input: Bytes, ghost text: Bytes) returns (n: nat, err: Err)
      requires Holds(text)
      modifies this
      ensures Holds(text + input)
      ensures n == LastNewline(input)
      ensures |hooked| == |old(hooked)| + |Lines(input)|
      ensures err == if |hooked| == |old(hooked)| then None else failing(|hooked| - 1)
    {
      n, err := ForEachLine(input, text);
      WrittenLines(text, input);
    }

    /** The hooks have been called once for every line written. */
    lemma WrittenLines(text: Bytes, input: Bytes)
      requires Holds(text + input)
      ensures |hooked| == |Lines(text)| + |Lines(input)|
    {
      LinesAdd(text, input);
    }

    /** Any pieces, one after another: only their concatenation matters. */
    method WriteAll(chunks: seq<Bytes>)
      requires Holds([])
      modifies this
      ensures Holds(Concat(chunks))
    {
      ghost var text := [];
      for i := 0 to |chunks|
        invariant text == Concat(chunks[..i]) && Holds(text)
      {
        var n, err := Write(chunks[i], text);
        text := text + chunks[i];
        ConcatSnoc(chunks[..i], chunks[i]);
        assert chunks[..i + 1] == chunks[..i] + [chunks[i]];
      }
      assert chunks[..|chunks|] == chunks;
    }
  }

  /** Writers given the same bytes, however split, are in the same state; what they
      have sent and what they hold is the byte-by-byte log of those bytes; and the
      hooks were called once for each newline, with that line and its prefix. */
  lemma ChunkInvariance(v: Writer, w: Writer, text: Bytes)
    requires v.prefix == w.prefix && v.Holds(text) && w.Holds(text)
    ensures v.buffer == w.buffer && v.hooked == w.hooked && v.stream == w.stream
    ensures v.stream + v.buffer == Render(v.prefix, 0, true, text)
    ensures |v.hooked| == |Lines(text)|
    ensures forall i :: 0 <= i < |v.hooked| ==> v.hooked[i] == v.prefix(i) + Lines(text)[i]
  {
    RenderIsLines(v.prefix, text);
  }
}
