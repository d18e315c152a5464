/** Complete lines of growing text, and totals over what was read, in whatever order. */
module RawLines {

  // ----- Lines ------------------------------------------------------------------------------------

  /** The first position after a newline at or behind `from`, or the length if there is none. */
  function LineEnd(s: string, from: nat): (end: nat)
    requires from <= |s|
    ensures from <= end <= |s|
    decreases |s| - from
  {
    if from == |s| then from else if s[from] == '\n' then from + 1 else LineEnd(s, from + 1)
  }

  predicate EndsLine(s: string) {
    s != "" && s[|s| - 1] == '\n'
  }

  /** The complete lines from a position on, each with its newline; a partial last line is not
      among them. */
  function LinesFrom(s: string, from: nat): seq<string>
    requires from <= |s|
    decreases |s| - from
  {
    var line := s[from..LineEnd(s, from)];
    if EndsLine(line) then [line] + LinesFrom(s, LineEnd(s, from)) else []
  }

  /** The position where the complete lines from `from` on end. */
  function CompleteEnd(s: string, from: nat): (end: nat)
    requires from <= |s|
    ensures from <= end <= |s|
    decreases |s| - from
  {
    if EndsLine(s[from..LineEnd(s, from)]) then CompleteEnd(s, LineEnd(s, from)) else from
  }

  lemma {:induction false} LineEndInPrefix(s: string, t: string, from: nat)
    requires s <= t && from <= |s|
    ensures EndsLine(s[from..LineEnd(s, from)]) ==> LineEnd(t, from) == LineEnd(s, from)
    decreases |s| - from
  {
    if from < |s| && s[from] != '\n' {
      LineEndInPrefix(s, t, from + 1);
      var end := LineEnd(s, from);
      if EndsLine(s[from..end]) && end > from + 1 {
        assert s[from + 1..end][end - from - 2] == s[from..end][end - from - 1];
      }
    }
  }

  lemma {:induction false} Regroup<T>(a: seq<T>, b: seq<T>, c: seq<T>)
    ensures a + (b + c) == a + b + c
  {
  }

  predicate OneLine(line: string) {
    line != "" && forall k :: 0 <= k < |line| ==> (line[k] == '\n' <==> k == |line| - 1)
  }

  function Joined(lines: seq<string>): string {
    if lines == [] then "" else lines[0] + Joined(lines[1..])
  }

  lemma {:induction false} LineEndIsFirst(s: string, from: nat)
    requires from <= |s|
    ensures forall k :: from <= k < LineEnd(s, from) - 1 ==> s[k] != '\n'
    ensures LineEnd(s, from) > from ==>
              s[LineEnd(s, from) - 1] == '\n' || (LineEnd(s, from) == |s| && s[LineEnd(s, from) - 1] != '\n')
    ensures LineEnd(s, from) == from ==> from == |s|
    decreases |s| - from
  {
    if from < |s| && s[from] != '\n' {
      LineEndIsFirst(s, from + 1);
    }
  }

  /** The complete lines are the text up to their end, cut behind every newline; what is left
      contains none. */
  lemma {:induction false} LinesAreTheText(s: string, from: nat)
    requires from <= |s|
    ensures Joined(LinesFrom(s, from)) == s[from..CompleteEnd(s, from)]
    ensures forall k :: 0 <= k < |LinesFrom(s, from)| ==> OneLine(LinesFrom(s, from)[k])
    ensures forall k :: CompleteEnd(s, from) <= k < |s| ==> s[k] != '\n'
    decreases |s| - from
  {
    LineEndIsFirst(s, from);
    var end := LineEnd(s, from);
    var line := s[from..end];
    if EndsLine(line) {
      LinesAreTheText(s, end);
      assert LinesFrom(s, from)[1..] == LinesFrom(s, end);
      assert s[from..CompleteEnd(s, end)] == line + s[end..CompleteEnd(s, end)];
      assert OneLine(line);
    } else if from < end {
      assert line[end - from - 1] == s[end - 1];
    }
  }

  /** Text that is appended never changes the lines that were complete before: reading on from
      where they end gives the rest. */
  lemma {:induction false} AppendKeepsLines(s: string, t: string, from: nat)
    requires s <= t && from <= |s|
    ensures LinesFrom(t, from) == LinesFrom(s, from) + LinesFrom(t, CompleteEnd(s, from))
    ensures CompleteEnd(t, from) == CompleteEnd(t, CompleteEnd(s, from))
    decreases |s| - from
  {
    var end := LineEnd(s, from);
    if EndsLine(s[from..end]) {
      LineEndInPrefix(s, t, from);
      assert t[from..end] == s[from..end];
      AppendKeepsLines(s, t, end);
      Regroup([s[from..end]], LinesFrom(s, end), LinesFrom(t, CompleteEnd(s, end)));
    }
  }

  /** Where the complete lines end, the text read so far holds the same lines. */
  lemma {:induction false} CutAtCompleteEnd(s: string, from: nat)
    requires from <= |s|
    ensures LinesFrom(s[..CompleteEnd(s, from)], from) == LinesFrom(s, from)
    ensures CompleteEnd(s[..CompleteEnd(s, from)], from) == CompleteEnd(s, from)
    decreases |s| - from
  {
    var end, cut := LineEnd(s, from), s[..CompleteEnd(s, from)];
    if EndsLine(s[from..end]) {
      CutAtCompleteEnd(s, end);
      LineEndBeforeCut(s, cut, from);
      assert cut[from..end] == s[from..end];
    } else {
      assert cut[from..] == "";
    }
  }

  lemma {:induction false} LineEndBeforeCut(s: string, cut: string, from: nat)
    requires cut <= s && from <= |s| && LineEnd(s, from) <= |cut|
    ensures LineEnd(cut, from) == LineEnd(s, from)
    decreases |s| - from
  {
    if from < |s| && s[from] != '\n' {
      LineEndBeforeCut(s, cut, from + 1);
    }
  }

  // ----- Totals -------------------------------------------------------------------------------------

  function Total<T>(f: T -> real, s: seq<T>): real {
    if s == [] then 0.0 else Total(f, s[..|s| - 1]) + f(s[|s| - 1])
  }

  lemma {:induction false} TotalOfConcat<T>(f: T -> real, a: seq<T>, b: seq<T>)
    ensures Total(f, a + b) == Total(f, a) + Total(f, b)
  {
    if b == [] {
      assert a + b == a;
    } else {
      TotalOfConcat(f, a, b[..|b| - 1]);
      assert (a + b)[..|a + b| - 1] == a + b[..|b| - 1];
    }
  }

  lemma {:induction false} TotalWithout<T>(f: T -> real, s: seq<T>, k: nat)
    requires k < |s|
    ensures Total(f, s) == Total(f, s[..k] + s[k + 1..]) + f(s[k])
  {
    var a, x, b := s[..k], s[k], s[k + 1..];
    assert s == a + ([x] + b);
    TotalOfConcat(f, a, [x] + b);
    TotalOfConcat(f, [x], b);
    TotalOfConcat(f, a, b);
    assert [x][..0] == [];
  }

  /** A total does not depend on the order of its terms. */
  lemma {:induction false} TotalIgnoresOrder<T>(f: T -> real, a: seq<T>, b: seq<T>)
    requires multiset(a) == multiset(b)
    ensures Total(f, a) == Total(f, b)
  {
    if a == [] {
      assert |multiset(b)| == 0;
    } else {
      var x := a[|a| - 1];
      assert x in multiset(a) && x in b;
      var k :| 0 <= k < |b| && b[k] == x;
      var rest := b[..k] + b[k + 1..];
      TotalWithout(f, b, k);
      assert a == a[..|a| - 1] + [x];
      assert b == b[..k] + [x] + b[k + 1..];
      assert multiset(rest) == multiset(b) - multiset{x} == multiset(a[..|a| - 1]);
      TotalIgnoresOrder(f, a[..|a| - 1], rest);
    }
  }

  // ----- Interleaved sources ------------------------------------------------------------------------

  /** What one source contributed to a log, in order. */
  function Project<P(==), T>(log: seq<(P, T)>, p: P): seq<T> {
    if log == [] then []
    else
      var before := Project(log[..|log| - 1], p);
      if log[|log| - 1].0 == p then before + [log[|log| - 1].1] else before
  }

  lemma {:induction false} ProjectOfConcat<P, T>(a: seq<(P, T)>, b: seq<(P, T)>, p: P)
    ensures Project(a + b, p) == Project(a, p) + Project(b, p)
  {
    if b == [] {
      assert a + b == a;
    } else {
      ProjectOfConcat(a, b[..|b| - 1], p);
      assert (a + b)[..|a + b| - 1] == a + b[..|b| - 1];
    }
  }

  lemma {:induction false} ProjectCounts<P, T>(log: seq<(P, T)>, p: P, x: T)
    ensures multiset(log)[(p, x)] == multiset(Project(log, p))[x]
  {
    if log != [] {
      var init, last := log[..|log| - 1], log[|log| - 1];
      assert log == init + [last];
      ProjectCounts(init, p, x);
      assert Project(log, p) == Project(init, p) + if last.0 == p then [last.1] else [];
    }
  }

  /** Two logs in which every source contributed the same, in whatever interleaving, have the
      same totals. */
  lemma {:induction false} InterleavingIsIrrelevant<P(!new), T(!new)>(
    f: ((P, T)) -> real, a: seq<(P, T)>, b: seq<(P, T)>)
    requires forall p :: Project(a, p) == Project(b, p)
    ensures Total(f, a) == Total(f, b)
  {
    forall e: (P, T) ensures multiset(a)[e] == multiset(b)[e] {
      ProjectCounts(a, e.0, e.1);
      ProjectCounts(b, e.0, e.1);
    }
    assert multiset(a) == multiset(b);
    TotalIgnoresOrder(f, a, b);
  }
}
