/**
 * The line buffer of the stream reader in frontend/src/App.jsx:
 * `buffer.split('\n')` followed by `lines.pop()`, which keeps the trailing
 * partial line for the next read. `Split` is JavaScript's `split('\n')`;
 * `CompleteLines` and `Rest` are what the reader processes and what it keeps.
 */
module Lines {

  /** `s.split('\n')`: the pieces between newlines, always at least one. */
  function Split(s: string): (parts: seq<string>)
    ensures |parts| > 0
    ensures forall k :: 0 <= k < |parts| ==> '\n' !in parts[k]
  {
    if s == [] then [[]]
    else
      var r := Split(s[1..]);
      if s[0] == '\n' then [[]] + r else [[s[0]] + r[0]] + r[1..]
  }

  /** `parts.join('\n')`. */
  function Join(parts: seq<string>): string
    requires |parts| > 0
  {
    if |parts| == 1 then parts[0] else parts[0] + "\n" + Join(parts[1..])
  }

  /** Each line followed by its newline, in order. */
  function Flatten(lines: seq<string>): string {
    if lines == [] then [] else lines[0] + "\n" + Flatten(lines[1..])
  }

  /** The lines a read hands to the record loop: every piece but the last. */
  function CompleteLines(s: string): seq<string> {
    var parts := Split(s);
    parts[..|parts| - 1]
  }

  /** `lines.pop()`: the piece after the last newline, kept as the new buffer. */
  function Rest(s: string): string {
    var parts := Split(s);
    parts[|parts| - 1]
  }

  predicate NoNewlines(lines: seq<string>) {
    forall k :: 0 <= k < |lines| ==> '\n' !in lines[k]
  }

  /** Splitting and joining again gives back the text. */
  lemma {:induction false} JoinSplit(s: string)
    ensures Join(Split(s)) == s
    decreases |s|
  {
    if s != [] {
      var r := Split(s[1..]);
      JoinSplit(s[1..]);
      if s[0] == '\n' {
        var p := [[]] + r;
        assert p[1..] == r;
        assert Join(p) == [] + "\n" + Join(r);
        assert s == "\n" + s[1..];
      } else {
        var p := [[s[0]] + r[0]] + r[1..];
        if |r| == 1 {
          assert Join(p) == [s[0]] + r[0];
        } else {
          assert p[1..] == r[1..];
          assert Join(p) == ([s[0]] + r[0]) + "\n" + Join(r[1..]);
          assert Join(r) == r[0] + "\n" + Join(r[1..]);
        }
        assert s == [s[0]] + s[1..];
      }
    }
  }

  /** Text without a newline splits into itself. */
  lemma {:induction false} SplitNoNewline(s: string)
    requires '\n' !in s
    ensures Split(s) == [s]
    decreases |s|
  {
    if s != [] {
      SplitNoNewline(s[1..]);
      assert [s[0]] + s[1..] == s;
    }
  }

  /** A first line followed by a newline splits off as the first piece. */
  lemma {:induction false} SplitAfterLine(p: string, t: string)
    requires '\n' !in p
    ensures Split(p + "\n" + t) == [p] + Split(t)
    decreases |p|
  {
    var s := p + "\n" + t;
    if p == [] {
      assert s == "\n" + t && s[1..] == t;
    } else {
      assert s[0] == p[0] && s[1..] == p[1..] + "\n" + t;
      SplitAfterLine(p[1..], t);
      assert [p[0]] + p[1..] == p;
    }
  }

  /** The pieces of a text are the only newline-free pieces that join to it. */
  lemma {:induction false} SplitUnique(parts: seq<string>, s: string)
    requires |parts| > 0 && NoNewlines(parts) && Join(parts) == s
    ensures Split(s) == parts
    decreases |parts|
  {
    if |parts| == 1 {
      SplitNoNewline(s);
    } else {
      SplitUnique(parts[1..], Join(parts[1..]));
      SplitAfterLine(parts[0], Join(parts[1..]));
      assert [parts[0]] + parts[1..] == parts;
    }
  }

  lemma {:induction false} FlattenJoin(parts: seq<string>)
    requires |parts| > 0
    ensures Flatten(parts[..|parts| - 1]) + parts[|parts| - 1] == Join(parts)
    decreases |parts|
  {
    if |parts| > 1 {
      FlattenJoin(parts[1..]);
      assert parts[..|parts| - 1][1..] == parts[1..][..|parts| - 2];
    }
  }

  lemma {:induction false} FlattenAppend(a: seq<string>, b: seq<string>)
    ensures Flatten(a + b) == Flatten(a) + Flatten(b)
    decreases |a|
  {
    if a == [] {
      assert a + b == b;
    } else {
      assert (a + b)[0] == a[0] && (a + b)[1..] == a[1..] + b;
      FlattenAppend(a[1..], b);
    }
  }

  /**
   * What a read leaves: the complete lines followed by their newlines, then
   * the kept piece, give back the text; the kept piece has no newline.
   */
  lemma LinesAndRest(s: string)
    ensures Flatten(CompleteLines(s)) + Rest(s) == s
    ensures '\n' !in Rest(s) && NoNewlines(CompleteLines(s))
  {
    FlattenJoin(Split(s));
    JoinSplit(s);
  }

  /**
   * The buffer after a read is exactly the text after the last newline, and
   * the lines taken out are exactly the complete lines: no other newline-free
   * lines and newline-free rest restore the text.
   */
  lemma LinesUnique(lines: seq<string>, rest: string, s: string)
    requires NoNewlines(lines) && '\n' !in rest && Flatten(lines) + rest == s
    ensures lines == CompleteLines(s) && rest == Rest(s)
  {
    var parts := lines + [rest];
    assert parts[..|parts| - 1] == lines;
    FlattenJoin(parts);
    SplitUnique(parts, s);
  }

  /**
   * Feeding text in two reads takes out the same lines as one read: the
   * lines of the first read, then those of its kept piece followed by the
   * second read.
   */
  lemma LinesOfTwoReads(x: string, y: string)
    ensures CompleteLines(x + y) == CompleteLines(x) + CompleteLines(Rest(x) + y)
    ensures Rest(x + y) == Rest(Rest(x) + y)
  {
    var l1, r1 := CompleteLines(x), Rest(x);
    var l2, r2 := CompleteLines(r1 + y), Rest(r1 + y);
    LinesAndRest(x);
    LinesAndRest(r1 + y);
    NoNewlinesAppend(l1, l2);
    FlattenAppend(l1, l2);
    assert Flatten(l1 + l2) + r2 == Flatten(l1) + (Flatten(l2) + r2);
    assert Flatten(l1) + (r1 + y) == (Flatten(l1) + r1) + y;
    LinesUnique(l1 + l2, r2, x + y);
  }

  lemma NoNewlinesAppend(a: seq<string>, b: seq<string>)
    requires NoNewlines(a) && NoNewlines(b)
    ensures NoNewlines(a + b)
  {
    forall k | 0 <= k < |a + b| ensures '\n' !in (a + b)[k] {
      if k >= |a| {
        assert (a + b)[k] == b[k - |a|];
      } else {
        assert (a + b)[k] == a[k];
      }
    }
  }

  /**
   * The buffer's invariant is kept by a read: the lines taken out so far and
   * the complete lines of the grown buffer, then its rest, give back all the
   * text received.
   */
  lemma BufferStep(taken: seq<string>, buffer: string, received: string, text: string)
    requires '\n' !in buffer && NoNewlines(taken) && Flatten(taken) + buffer == received
    ensures var s := buffer + text;
      '\n' !in Rest(s) && NoNewlines(taken + CompleteLines(s))
      && Flatten(taken + CompleteLines(s)) + Rest(s) == received + text
  {
    var s := buffer + text;
    var lines, r := CompleteLines(s), Rest(s);
    LinesAndRest(s);
    NoNewlinesAppend(taken, lines);
    FlattenAppend(taken, lines);
    Regroup(Flatten(taken), Flatten(lines), r, buffer, received, text);
  }

  /** Text read before and after a buffer, regrouped. */
  lemma Regroup(ft: string, fl: string, r: string, buffer: string, received: string, text: string)
    requires ft + buffer == received && fl + r == buffer + text
    ensures (ft + fl) + r == received + text
  {
    assert (ft + fl) + r == ft + (fl + r);
  }

  /** A read with no newline in the buffer or the text completes no line. */
  lemma NoLineWithoutNewline(s: string)
    requires '\n' !in s
    ensures CompleteLines(s) == [] && Rest(s) == s
  {
    SplitNoNewline(s);
  }
}
