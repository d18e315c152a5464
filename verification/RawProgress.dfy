/** Tailing the raw sample files of all shards while they grow: every complete line counts once,
    and closed time buckets go to the error-window rule. */
module RawProgress {
  import opened Wrappers
  import opened Counting
  import opened RawLines
  import StopGuard

  type Path = string

  /** What a decoded line means; other metrics and record types are Ignored. */
  datatype Item =
    | Ignored
    | DroppedIterations(value: real)
    | Outcome(time: real, value: real, isError: bool)

  type Entry = (Path, Item)

  /** A line that raises may have been added in part before it did: its bucket gets the value before
      the missing result is looked up. */
  datatype Decoded = Reads(item: Item) | Raises(partial: Option<Item>)

  type Decoder = string -> Decoded

  function BucketOf(time: real, width: real): int
    requires width > 0.0
  {
    (time / width).Floor
  }

  /** Bucket b holds the times from b times the width to the next multiple, which it leaves out. */
  lemma {:induction false} BucketHolds(time: real, width: real, b: int)
    requires width > 0.0
    ensures BucketOf(time, width) == b <==> b as real * width <= time < (b + 1) as real * width
  {
    FloorIs(time / width, b);
    Divided(b as real, time, width);
    Divided((b + 1) as real, time, width);
  }

  lemma {:induction false} Divided(x: real, time: real, width: real)
    requires width > 0.0
    ensures x <= time / width <==> x * width <= time
  {
    assert time / width * width == time;
    ScaledOrder(x, time / width, width);
  }

  lemma {:induction false} FloorIs(q: real, b: int)
    ensures q.Floor == b <==> b as real <= q < (b + 1) as real
  {
  }

  lemma {:induction false} ScaledOrder(a: real, b: real, width: real)
    requires width > 0.0
    ensures a <= b <==> a * width <= b * width
  {
    assert (b - a) * width == b * width - a * width;
    if a <= b {
      assert (b - a) * width >= 0.0;
    } else {
      assert (a - b) * width > 0.0;
    }
  }

  function DroppedOf(): Entry -> real {
    (e: Entry) => if e.1.DroppedIterations? then e.1.value else 0.0
  }

  function CompletedIn(bucket: int, width: real): Entry -> real
    requires width > 0.0
  {
    (e: Entry) => if e.1.Outcome? && BucketOf(e.1.time, width) == bucket then e.1.value else 0.0
  }

  function ErrorsIn(bucket: int, width: real): Entry -> real
    requires width > 0.0
  {
    (e: Entry) => if e.1.Outcome? && e.1.isError && BucketOf(e.1.time, width) == bucket then e.1.value else 0.0
  }

  function Sum(bucket: int, width: real, log: seq<Entry>): (real, real)
    requires width > 0.0
  {
    (Total(CompletedIn(bucket, width), log), Total(ErrorsIn(bucket, width), log))
  }

  /** What one entry adds to the two totals of a bucket. */
  lemma {:induction false} EntryCounts(e: Entry, b: int, width: real)
    requires width > 0.0
    ensures CompletedIn(b, width)(e)
         == if e.1.Outcome? && b as real * width <= e.1.time < (b + 1) as real * width then e.1.value else 0.0
    ensures ErrorsIn(b, width)(e) == if e.1.Outcome? && e.1.isError then CompletedIn(b, width)(e) else 0.0
    ensures DroppedOf()(e) == if e.1.DroppedIterations? then e.1.value else 0.0
  {
    if e.1.Outcome? {
      BucketHolds(e.1.time, width, b);
    }
  }

  predicate Decodes(decode: Decoder, lines: seq<string>) {
    forall k :: 0 <= k < |lines| ==> decode(lines[k]).Reads?
  }

  function Items(decode: Decoder, lines: seq<string>): seq<Item>
    requires Decodes(decode, lines)
  {
    seq(|lines|, k requires 0 <= k < |lines| => decode(lines[k]).item)
  }

  function Tagged(path: Path, items: seq<Item>): (entries: seq<Entry>)
    ensures |entries| == |items|
  {
    if items == [] then [] else Tagged(path, items[..|items| - 1]) + [(path, items[|items| - 1])]
  }

  lemma {:induction false} ProjectTagged(path: Path, items: seq<Item>, p: Path)
    ensures Project(Tagged(path, items), p) == if p == path then items else []
  {
    if items != [] {
      ProjectTagged(path, items[..|items| - 1], p);
      assert items == items[..|items| - 1] + [items[|items| - 1]];
    }
  }

  /** One error line with a positive value. */
  predicate CountsAsError(e: Entry) {
    e.1.Outcome? && e.1.isError && e.1.value > 0.0
  }

  datatype Settings = Settings(width: real, smoke: bool, limits: StopGuard.Limits)

  /** What reading has added up so far.  `log` is everything consumed, in order; `windows` the
      closed buckets, the first of which is `first`; and `closedAt[k]` how much had been consumed
      when bucket first + k was closed. */
  datatype Progress = Progress(
    counts: map<int, (real, real)>, dropped: real, last: Option<int>, bad: bool,
    log: seq<Entry>, windows: seq<StopGuard.Window>, first: int, closedAt: seq<nat>)

  const NO_PROGRESS := Progress(map[], 0.0, None, false, [], [], 0, [])

  function CountAt(counts: map<int, (real, real)>, bucket: int): (real, real) {
    if bucket in counts then counts[bucket] else (0.0, 0.0)
  }

  function Consume(c: Settings, s: Progress, e: Entry): Progress
    requires c.width > 0.0
  {
    var s' := s.(log := s.log + [e]);
    match e.1
    case Ignored => s'
    case DroppedIterations(value) => s'.(dropped := s.dropped + value)
    case Outcome(time, value, isError) =>
      var bucket := BucketOf(time, c.width);
      var pair := CountAt(s.counts, bucket);
      s'.(counts := s.counts[bucket := (pair.0 + value, pair.1 + if isError then value else 0.0)],
          bad := s.bad || (isError && c.smoke && value > 0.0))
  }

  /** Hands a bucket over to the error-window rule. */
  function Close(c: Settings, s: Progress, bucket: int): Progress {
    var pair := CountAt(s.counts, bucket);
    var windows := s.windows + [StopGuard.Window(pair.0, pair.1)];
    s.(counts := s.counts - {bucket}, windows := windows, last := Some(bucket),
       bad := StopGuard.Alarm(c.limits, windows) || s.bad,
       first := if s.closedAt == [] then bucket else s.first, closedAt := s.closedAt + [|s.log|])
  }

  // ----- What the totals mean --------------------------------------------------------------------------

  /** How much of the log the open totals of a bucket leave out. */
  function OpenedAt(s: Progress, bucket: int): nat {
    if s.first <= bucket < s.first + |s.closedAt| then s.closedAt[bucket - s.first] else 0
  }

  /** The open totals of every bucket are those of one pass over what was consumed since it was
      closed, or over everything if it was not. */
  predicate CountFits(c: Settings, s: Progress, b: int)
    requires c.width > 0.0
  {
    OpenedAt(s, b) <= |s.log| && CountAt(s.counts, b) == Sum(b, c.width, s.log[OpenedAt(s, b)..])
  }

  ghost predicate CountsFit(c: Settings, s: Progress)
    requires c.width > 0.0
  {
    forall b :: CountFits(c, s, b)
  }

  predicate WindowFits(c: Settings, s: Progress, k: nat)
    requires c.width > 0.0 && k < |s.closedAt| && k < |s.windows|
  {
    && s.closedAt[k] <= |s.log|
    && var sum := Sum(s.first + k, c.width, s.log[..s.closedAt[k]]);
       s.windows[k] == StopGuard.Window(sum.0, sum.1)
  }

  /** Buckets are closed once each, one after the other without a gap, and the window handed over
      holds everything of the bucket that had been consumed by then. */
  ghost predicate WindowsFit(c: Settings, s: Progress)
    requires c.width > 0.0
  {
    && |s.closedAt| == |s.windows|
    && s.last == (if s.closedAt == [] then None else Some(s.first + |s.closedAt| - 1))
    && forall k :: 0 <= k < |s.closedAt| ==> WindowFits(c, s, k)
  }

  function AnyAlarm(limits: StopGuard.Limits, windows: seq<StopGuard.Window>): bool {
    windows != [] && (StopGuard.Alarm(limits, windows) || AnyAlarm(limits, windows[..|windows| - 1]))
  }

  function AnyError(log: seq<Entry>): bool {
    log != [] && (CountsAsError(log[|log| - 1]) || AnyError(log[..|log| - 1]))
  }

  ghost predicate Inv(c: Settings, s: Progress) {
    && c.width > 0.0
    && s.dropped == Total(DroppedOf(), s.log)
    && CountsFit(c, s)
    && WindowsFit(c, s)
    && (s.bad <==> AnyAlarm(c.limits, s.windows) || (c.smoke && AnyError(s.log)))
  }

  lemma {:induction false} SumAddsOne(bucket: int, width: real, log: seq<Entry>, e: Entry)
    requires width > 0.0
    ensures Sum(bucket, width, log + [e])
            == (Sum(bucket, width, log).0 + CompletedIn(bucket, width)(e),
                Sum(bucket, width, log).1 + ErrorsIn(bucket, width)(e))
  {
    assert (log + [e])[..|log|] == log;
  }

  lemma {:induction false} CountAfter(c: Settings, s: Progress, e: Entry, b: int)
    requires c.width > 0.0
    ensures CountAt(Consume(c, s, e).counts, b)
            == (CountAt(s.counts, b).0 + CompletedIn(b, c.width)(e), CountAt(s.counts, b).1 + ErrorsIn(b, c.width)(e))
  {
  }

  lemma {:induction false} ConsumeFitsCounts(c: Settings, s: Progress, e: Entry)
    requires c.width > 0.0 && CountsFit(c, s)
    ensures CountsFit(c, Consume(c, s, e))
  {
    var s' := Consume(c, s, e);
    forall b ensures CountFits(c, s', b) {
      assert CountFits(c, s, b);
      var from := OpenedAt(s, b);
      assert OpenedAt(s', b) == from && s'.log[from..] == s.log[from..] + [e];
      SumAddsOne(b, c.width, s.log[from..], e);
      CountAfter(c, s, e, b);
    }
  }

  lemma {:induction false} ConsumeFitsWindows(c: Settings, s: Progress, e: Entry)
    requires c.width > 0.0 && WindowsFit(c, s)
    ensures WindowsFit(c, Consume(c, s, e))
  {
    var s' := Consume(c, s, e);
    forall k | 0 <= k < |s'.closedAt| ensures WindowFits(c, s', k) {
      assert WindowFits(c, s, k);
      assert s'.log[..s.closedAt[k]] == s.log[..s.closedAt[k]];
    }
  }

  lemma {:induction false} LogAddsOne(log: seq<Entry>, e: Entry)
    ensures Total(DroppedOf(), log + [e]) == Total(DroppedOf(), log) + DroppedOf()(e)
    ensures AnyError(log + [e]) <==> AnyError(log) || CountsAsError(e)
  {
    assert (log + [e])[..|log|] == log;
  }

  lemma {:induction false} ConsumeKeepsInv(c: Settings, s: Progress, e: Entry)
    requires Inv(c, s)
    ensures Inv(c, Consume(c, s, e))
  {
    ConsumeFitsCounts(c, s, e);
    ConsumeFitsWindows(c, s, e);
    LogAddsOne(s.log, e);
  }

  /** The bucket that may be closed next: any, before the first one; then its successors. */
  predicate ClosesNext(s: Progress, bucket: int) {
    s.last.None? || bucket == s.last.value + 1
  }

  lemma {:induction false} CloseFitsCounts(c: Settings, s: Progress, bucket: int)
    requires c.width > 0.0 && CountsFit(c, s) && WindowsFit(c, s) && ClosesNext(s, bucket)
    ensures CountsFit(c, Close(c, s, bucket))
  {
    var s' := Close(c, s, bucket);
    forall b ensures CountFits(c, s', b) {
      assert CountFits(c, s, b);
      if b == bucket {
        assert OpenedAt(s', b) == |s.log| && s.log[|s.log|..] == [];
      } else {
        assert OpenedAt(s', b) == OpenedAt(s, b);
      }
    }
  }

  lemma {:induction false} CloseFitsWindows(c: Settings, s: Progress, bucket: int)
    requires c.width > 0.0 && CountsFit(c, s) && WindowsFit(c, s) && ClosesNext(s, bucket)
    ensures WindowsFit(c, Close(c, s, bucket))
  {
    var s' := Close(c, s, bucket);
    forall k | 0 <= k < |s'.closedAt| ensures WindowFits(c, s', k) {
      if k < |s.closedAt| {
        assert WindowFits(c, s, k);
      } else {
        assert OpenedAt(s, bucket) == 0;
        assert CountFits(c, s, bucket);
        assert s.log[0..] == s.log == s.log[..|s.log|];
      }
    }
  }

  lemma {:induction false} CloseKeepsInv(c: Settings, s: Progress, bucket: int)
    requires Inv(c, s) && ClosesNext(s, bucket)
    ensures Inv(c, Close(c, s, bucket))
  {
    CloseFitsCounts(c, s, bucket);
    CloseFitsWindows(c, s, bucket);
    var windows := Close(c, s, bucket).windows;
    assert windows[..|windows| - 1] == s.windows;
  }

  /** Points of a bucket that arrive after it was closed are never handed to the rule: they stay
      in the open totals. */
  lemma {:induction false} LatePointsStayOpen(c: Settings, s: Progress, bucket: int)
    requires Inv(c, s) && s.closedAt != [] && s.first <= bucket <= s.last.value
    ensures var k := bucket - s.first;
            && k < |s.closedAt| == |s.windows| && s.closedAt[k] <= |s.log|
            && CountAt(s.counts, bucket) == Sum(bucket, c.width, s.log[s.closedAt[k]..])
            && s.windows[k].completed + CountAt(s.counts, bucket).0 == Sum(bucket, c.width, s.log).0
            && s.windows[k].errors + CountAt(s.counts, bucket).1 == Sum(bucket, c.width, s.log).1
  {
    var k := bucket - s.first;
    assert WindowFits(c, s, k);
    assert OpenedAt(s, bucket) == s.closedAt[k];
    assert CountFits(c, s, bucket);
    var n := s.closedAt[k];
    assert s.log == s.log[..n] + s.log[n..];
    TotalOfConcat(CompletedIn(bucket, c.width), s.log[..n], s.log[n..]);
    TotalOfConcat(ErrorsIn(bucket, c.width), s.log[..n], s.log[n..]);
  }

  // ----- Files ----------------------------------------------------------------------------------------

  function ConsumeAll(c: Settings, s: Progress, entries: seq<Entry>): Progress
    requires c.width > 0.0
  {
    if entries == [] then s else Consume(c, ConsumeAll(c, s, entries[..|entries| - 1]), entries[|entries| - 1])
  }

  lemma {:induction false} ConsumeAllLogs(c: Settings, s: Progress, entries: seq<Entry>)
    requires c.width > 0.0
    ensures ConsumeAll(c, s, entries).log == s.log + entries
  {
    if entries == [] {
      assert s.log + [] == s.log;
    } else {
      var init := entries[..|entries| - 1];
      ConsumeAllLogs(c, s, init);
      assert s.log + entries == s.log + init + [entries[|entries| - 1]];
    }
  }

  lemma {:induction false} ConsumeAllKeepsInv(c: Settings, s: Progress, entries: seq<Entry>)
    requires Inv(c, s)
    ensures Inv(c, ConsumeAll(c, s, entries))
  {
    if entries != [] {
      ConsumeAllKeepsInv(c, s, entries[..|entries| - 1]);
      ConsumeKeepsInv(c, ConsumeAll(c, s, entries[..|entries| - 1]), entries[|entries| - 1]);
    }
  }

  /** The text of each file that was consumed. */
  type Seen = map<Path, string>

  function SeenOf(seen: Seen, p: Path): string {
    if p in seen then seen[p] else ""
  }

  /** Of each file exactly the complete lines of the text behind the offset were consumed, once
      each and in order. */
  predicate FileFits(decode: Decoder, log: seq<Entry>, text: string, p: Path) {
    && CompleteEnd(text, 0) == |text|
    && Decodes(decode, LinesFrom(text, 0))
    && Project(log, p) == Items(decode, LinesFrom(text, 0))
  }

  ghost predicate FilesFit(decode: Decoder, log: seq<Entry>, seen: Seen) {
    forall p {:trigger FileFits(decode, log, SeenOf(seen, p), p)} :: FileFits(decode, log, SeenOf(seen, p), p)
  }

  /** What reading these lines adds: every line up to the first that raises, and of that one
      whatever was added before it did. */
  function Counted(decode: Decoder, lines: seq<string>): seq<Item> {
    if lines == [] then []
    else
      match decode(lines[0])
      case Reads(item) => [item] + Counted(decode, lines[1..])
      case Raises(partial) => if partial.Some? then [partial.value] else []
  }

  lemma {:induction false} CountedIsAll(decode: Decoder, lines: seq<string>)
    requires Decodes(decode, lines)
    ensures Counted(decode, lines) == Items(decode, lines)
  {
    if lines != [] {
      assert forall k :: 0 <= k < |lines[1..]| ==> lines[1..][k] == lines[k + 1];
      CountedIsAll(decode, lines[1..]);
    }
  }

  /** What one file contributes when it is read from `from`. */
  function Contribution(decode: Decoder, path: Path, content: string, from: nat): seq<Entry>
    requires from <= |content|
  {
    Tagged(path, Counted(decode, LinesFrom(content, from)))
  }

  /** The complete lines of a text, as one text. */
  function WholeLines(content: string): string {
    content[..CompleteEnd(content, 0)]
  }

  lemma {:induction false} TextGrows(decode: Decoder, before: string, content: string)
    requires before <= content && CompleteEnd(before, 0) == |before|
    requires Decodes(decode, LinesFrom(before, 0)) && Decodes(decode, LinesFrom(content, |before|))
    ensures var text := WholeLines(content);
            && CompleteEnd(text, 0) == |text|
            && Decodes(decode, LinesFrom(text, 0))
            && Items(decode, LinesFrom(text, 0))
                 == Items(decode, LinesFrom(before, 0)) + Items(decode, LinesFrom(content, |before|))
  {
    AppendKeepsLines(before, content, 0);
    CutAtCompleteEnd(content, 0);
    CountedOfConcat(decode, LinesFrom(before, 0), LinesFrom(content, |before|));
    CountedIsAll(decode, LinesFrom(content, |before|));
    CountedIsAll(decode, LinesFrom(before, 0) + LinesFrom(content, |before|));
  }

  lemma {:induction false} FileGrows(decode: Decoder, log: seq<Entry>, before: string, path: Path, content: string)
    requires FileFits(decode, log, before, path) && before <= content
    requires Decodes(decode, LinesFrom(content, |before|))
    ensures FileFits(decode, log + Contribution(decode, path, content, |before|), WholeLines(content), path)
  {
    var lines := LinesFrom(content, |before|);
    CountedIsAll(decode, lines);
    ProjectOfConcat(log, Tagged(path, Items(decode, lines)), path);
    ProjectTagged(path, Items(decode, lines), path);
    TextGrows(decode, before, content);
  }

  lemma {:induction false} OtherFileFits(
    decode: Decoder, log: seq<Entry>, text: string, p: Path, path: Path, items: seq<Item>)
    requires FileFits(decode, log, text, p) && p != path
    ensures FileFits(decode, log + Tagged(path, items), text, p)
  {
    ProjectOfConcat(log, Tagged(path, items), p);
    ProjectTagged(path, items, p);
  }

  lemma {:induction false} ReadingFits(decode: Decoder, log: seq<Entry>, seen: Seen, path: Path, content: string)
    requires FilesFit(decode, log, seen) && SeenOf(seen, path) <= content
    requires Decodes(decode, LinesFrom(content, |SeenOf(seen, path)|))
    ensures FilesFit(decode, log + Contribution(decode, path, content, |SeenOf(seen, path)|),
                     seen[path := WholeLines(content)])
  {
    var before := SeenOf(seen, path);
    var log' := log + Contribution(decode, path, content, |before|);
    var seen' := seen[path := WholeLines(content)];
    forall p ensures FileFits(decode, log', SeenOf(seen', p), p) {
      assert FileFits(decode, log, SeenOf(seen, p), p);
      if p == path {
        FileGrows(decode, log, before, path, content);
      } else {
        OtherFileFits(decode, log, SeenOf(seen, p), p, path, Counted(decode, LinesFrom(content, |before|)));
      }
    }
  }

  // ----- Two readings of one file ------------------------------------------------------------------------

  /** One reading of a file from its offset: the totals, and the offset, which moves only if no line
      raises. */
  function Reading(c: Settings, decode: Decoder, s: Progress, path: Path, content: string, offset: nat): (Progress, nat)
    requires c.width > 0.0 && offset <= |content|
  {
    (ConsumeAll(c, s, Contribution(decode, path, content, offset)),
     if Decodes(decode, LinesFrom(content, offset)) then CompleteEnd(content, offset) else offset)
  }

  lemma {:induction false} DecodesTail(decode: Decoder, lines: seq<string>)
    requires lines != []
    ensures Decodes(decode, lines) <==> decode(lines[0]).Reads? && Decodes(decode, lines[1..])
  {
    assert forall k :: 0 <= k < |lines[1..]| ==> lines[1..][k] == lines[k + 1];
    if decode(lines[0]).Reads? && Decodes(decode, lines[1..]) {
      forall k | 0 <= k < |lines| ensures decode(lines[k]).Reads? {
        assert k > 0 ==> lines[k] == lines[1..][k - 1];
      }
    }
  }

  lemma {:induction false} CountedStopsAtRaise(decode: Decoder, lines: seq<string>, more: seq<string>)
    requires !Decodes(decode, lines)
    ensures Counted(decode, lines + more) == Counted(decode, lines) && !Decodes(decode, lines + more)
  {
    assert (lines + more)[0] == lines[0] && (lines + more)[1..] == lines[1..] + more;
    DecodesTail(decode, lines);
    DecodesTail(decode, lines + more);
    if decode(lines[0]).Reads? {
      CountedStopsAtRaise(decode, lines[1..], more);
    }
  }

  lemma {:induction false} ItemsTail(decode: Decoder, lines: seq<string>)
    requires Decodes(decode, lines) && lines != []
    ensures Decodes(decode, lines[1..]) && decode(lines[0]).Reads?
    ensures Items(decode, lines) == [decode(lines[0]).item] + Items(decode, lines[1..])
  {
    DecodesTail(decode, lines);
  }

  lemma {:induction false} CountedTail(decode: Decoder, lines: seq<string>)
    requires lines != [] && decode(lines[0]).Reads?
    ensures Counted(decode, lines) == [decode(lines[0]).item] + Counted(decode, lines[1..])
  {
  }

  lemma {:induction false} CountedOfConcat(decode: Decoder, lines: seq<string>, more: seq<string>)
    requires Decodes(decode, lines)
    ensures Counted(decode, lines + more) == Items(decode, lines) + Counted(decode, more)
    ensures Decodes(decode, lines + more) <==> Decodes(decode, more)
  {
    if lines == [] {
      assert lines + more == more;
    } else {
      var all := lines + more;
      assert all[0] == lines[0] && all[1..] == lines[1..] + more;
      ItemsTail(decode, lines);
      CountedOfConcat(decode, lines[1..], more);
      DecodesTail(decode, all);
      var first := [decode(lines[0]).item];
      CountedTail(decode, all);
      Regroup(first, Items(decode, lines[1..]), Counted(decode, more));
    }
  }

  lemma {:induction false} TaggedOfConcat(path: Path, a: seq<Item>, b: seq<Item>)
    ensures Tagged(path, a + b) == Tagged(path, a) + Tagged(path, b)
  {
    if b == [] {
      assert a + b == a;
    } else {
      var n := |b| - 1;
      TaggedOfConcat(path, a, b[..n]);
      assert (a + b)[..|a + b| - 1] == a + b[..n];
    }
  }

  /** The second of two readings, with appends in between, adds what is new if the first one
      succeeded, and adds the same once more if it did not. */
  lemma {:induction false} SecondContribution(decode: Decoder, path: Path, content: string, grown: string, offset: nat)
    requires offset <= |content| && content <= grown
    ensures var lines := LinesFrom(content, offset);
            var first := Contribution(decode, path, content, offset);
            if Decodes(decode, lines)
            then Contribution(decode, path, grown, offset)
                   == first + Contribution(decode, path, grown, CompleteEnd(content, offset))
            else Contribution(decode, path, grown, offset) == first
  {
    var lines, more := LinesFrom(content, offset), LinesFrom(grown, CompleteEnd(content, offset));
    AppendKeepsLines(content, grown, offset);
    if Decodes(decode, lines) {
      CountedIsAll(decode, lines);
      CountedOfConcat(decode, lines, more);
      TaggedOfConcat(path, Items(decode, lines), Counted(decode, more));
    } else {
      CountedStopsAtRaise(decode, lines, more);
    }
  }

  /** The first complete line raises before anything of it was added. */
  predicate RaisesAtOnce(decode: Decoder, lines: seq<string>) {
    lines != [] && decode(lines[0]) == Raises(None)
  }

  lemma {:induction false} ReadingLogs(
    c: Settings, decode: Decoder, s: Progress, path: Path, content: string, offset: nat)
    requires c.width > 0.0 && offset <= |content|
    ensures Reading(c, decode, s, path, content, offset).0.log == s.log + Contribution(decode, path, content, offset)
  {
    ConsumeAllLogs(c, s, Contribution(decode, path, content, offset));
  }

  /** What two readings have consumed, the second one after more was appended. */
  function TwiceLog(c: Settings, decode: Decoder, s: Progress, path: Path,
                    content: string, grown: string, offset: nat): seq<Entry>
    requires c.width > 0.0 && offset <= |content| <= |grown|
  {
    var (once, next) := Reading(c, decode, s, path, content, offset);
    Reading(c, decode, once, path, grown, next).0.log
  }

  lemma {:induction false} TwiceLogIs(c: Settings, decode: Decoder, s: Progress, path: Path,
                                      content: string, grown: string, offset: nat)
    requires c.width > 0.0 && offset <= |content| && content <= grown
    ensures var first := Contribution(decode, path, content, offset);
            TwiceLog(c, decode, s, path, content, grown, offset)
              == if Decodes(decode, LinesFrom(content, offset))
                 then s.log + Contribution(decode, path, grown, offset)
                 else s.log + first + first
  {
    var (once, next) := Reading(c, decode, s, path, content, offset);
    ReadingLogs(c, decode, s, path, content, offset);
    ReadingLogs(c, decode, once, path, grown, next);
    SecondContribution(decode, path, content, grown, offset);
    Regroup(s.log, Contribution(decode, path, content, offset), Contribution(decode, path, grown, next));
  }

  lemma {:induction false} ContributesNothing(decode: Decoder, path: Path, content: string, offset: nat)
    requires offset <= |content|
    ensures var lines := LinesFrom(content, offset);
            Contribution(decode, path, content, offset) == [] <==> lines == [] || RaisesAtOnce(decode, lines)
  {
    assert Contribution(decode, path, content, offset) == [] <==> Counted(decode, LinesFrom(content, offset)) == [];
  }

  /** Two readings count what a single one would, every line once, if and only if the first reading
      succeeded or its very first line raised at once. */
  lemma {:induction false} TwoReadingsCountOnceIff(c: Settings, decode: Decoder, s: Progress, path: Path,
                                                   content: string, grown: string, offset: nat)
    requires c.width > 0.0 && offset <= |content| && content <= grown
    ensures var lines := LinesFrom(content, offset);
            TwiceLog(c, decode, s, path, content, grown, offset) == Reading(c, decode, s, path, grown, offset).0.log
            <==> Decodes(decode, lines) || RaisesAtOnce(decode, lines)
  {
    var lines := LinesFrom(content, offset);
    TwiceLogIs(c, decode, s, path, content, grown, offset);
    ReadingLogs(c, decode, s, path, grown, offset);
    SecondContribution(decode, path, content, grown, offset);
    var first := Contribution(decode, path, content, offset);
    assert |s.log + first + first| == |s.log + first| <==> first == [];
    assert first == [] ==> s.log + first + first == s.log + first;
    ContributesNothing(decode, path, content, offset);
  }

  lemma {:induction false} ConsumeAllCounts(c: Settings, s: Progress, entries: seq<Entry>, b: int)
    requires c.width > 0.0
    ensures var after, sum := CountAt(ConsumeAll(c, s, entries).counts, b), Sum(b, c.width, entries);
            after == (CountAt(s.counts, b).0 + sum.0, CountAt(s.counts, b).1 + sum.1)
    ensures ConsumeAll(c, s, entries).dropped == s.dropped + Total(DroppedOf(), entries)
  {
    if entries != [] {
      var n := |entries| - 1;
      ConsumeAllCounts(c, s, entries[..n], b);
      CountAfter(c, ConsumeAll(c, s, entries[..n]), entries[n], b);
      assert entries == entries[..n] + [entries[n]];
      SumAddsOne(b, c.width, entries[..n], entries[n]);
    }
  }

  /** A reading that fails does not move the offset, so the next one adds the same once more to the
      dropped total and to every bucket. */
  lemma {:induction false} FailedReadingCountsAgain(c: Settings, decode: Decoder, s: Progress, path: Path,
                                                    content: string, grown: string, offset: nat, b: int)
    requires c.width > 0.0 && offset <= |content| && content <= grown
    requires !Decodes(decode, LinesFrom(content, offset))
    ensures var (once, next) := Reading(c, decode, s, path, content, offset);
            && next == offset
            && var (twice, last) := Reading(c, decode, once, path, grown, next);
               && last == offset
               && twice.dropped - once.dropped == once.dropped - s.dropped
               && CountAt(twice.counts, b).0 - CountAt(once.counts, b).0
                    == CountAt(once.counts, b).0 - CountAt(s.counts, b).0
               && CountAt(twice.counts, b).1 - CountAt(once.counts, b).1
                    == CountAt(once.counts, b).1 - CountAt(s.counts, b).1
  {
    var first := Contribution(decode, path, content, offset);
    var once := ConsumeAll(c, s, first);
    SecondContribution(decode, path, content, grown, offset);
    AppendKeepsLines(content, grown, offset);
    CountedStopsAtRaise(decode, LinesFrom(content, offset), LinesFrom(grown, CompleteEnd(content, offset)));
    ConsumeAllCounts(c, s, first, b);
    ConsumeAllCounts(c, once, first, b);
  }

  /** The concrete case: one good line with a dropped iteration, then one that raises.  Read twice,
      the one dropped iteration counts as two. */
  lemma {:induction false} GoodLineCountsTwice(c: Settings, path: Path) returns (decode: Decoder)
    requires c.width > 0.0
    ensures var content := "a\nb\n";
            var (once, next) := Reading(c, decode, NO_PROGRESS, path, content, 0);
            && next == 0 && once.dropped == 1.0
            && Reading(c, decode, once, path, content, 0).0.dropped == 2.0
  {
    decode := (line: string) => if line == "a\n" then Reads(DroppedIterations(1.0)) else Raises(None);
    var content := "a\nb\n";
    assert LineEnd(content, 0) == 2 && LineEnd(content, 2) == 4;
    assert content[0..2] == "a\n" && content[2..4] == "b\n";
    var lines := LinesFrom(content, 0);
    assert lines[0] == "a\n" && lines[1..][0] == "b\n" && "b\n"[0] != "a\n"[0];
    assert lines[1] == "b\n" && decode(lines[1..][0]) == Raises(None);
    assert decode(lines[0]) == Reads(DroppedIterations(1.0)) && Counted(decode, lines[1..]) == [];
    var items := Counted(decode, lines);
    assert items == [DroppedIterations(1.0)];
    var first := Tagged(path, items);
    assert items[..0] == [] && first == [(path, DroppedIterations(1.0))] && first[..0] == [];
    FailedReadingCountsAgain(c, decode, NO_PROGRESS, path, content, content, 0, 0);
    ConsumeAllCounts(c, NO_PROGRESS, first, 0);
  }

  /** Two readers that have consumed the same complete lines of every file, one in a single pass
      and the other in any number of readings between appends, agree on the dropped total and on
      the totals of every bucket that neither has closed. */
  lemma {:induction false} IncrementalEqualsBatch(
    c: Settings, decode: Decoder, a: Progress, b: Progress, seenA: Seen, seenB: Seen)
    requires Inv(c, a) && Inv(c, b) && FilesFit(decode, a.log, seenA) && FilesFit(decode, b.log, seenB)
    requires forall p :: LinesFrom(SeenOf(seenA, p), 0) == LinesFrom(SeenOf(seenB, p), 0)
    ensures a.dropped == b.dropped
    ensures forall bucket :: OpenedAt(a, bucket) == 0 == OpenedAt(b, bucket) ==>
              CountAt(a.counts, bucket) == CountAt(b.counts, bucket)
  {
    forall p ensures Project(a.log, p) == Project(b.log, p) {
      assert FileFits(decode, a.log, SeenOf(seenA, p), p) && FileFits(decode, b.log, SeenOf(seenB, p), p);
    }
    InterleavingIsIrrelevant(DroppedOf(), a.log, b.log);
    forall bucket | OpenedAt(a, bucket) == 0 == OpenedAt(b, bucket)
      ensures CountAt(a.counts, bucket) == CountAt(b.counts, bucket)
    {
      InterleavingIsIrrelevant(CompletedIn(bucket, c.width), a.log, b.log);
      InterleavingIsIrrelevant(ErrorsIn(bucket, c.width), a.log, b.log);
      assert a.log[0..] == a.log && b.log[0..] == b.log;
      assert CountFits(c, a, bucket) && CountFits(c, b, bucket);
    }
  }

  // ----- The reader -----------------------------------------------------------------------------------

  class RawProgress {
    const decode: Decoder
    const settings: Settings
    const guard: StopGuard.StopGuard
    var offsets: map<Path, nat>
    var counts: map<int, (real, real)>
    var dropped: real
    var last: Option<int>
    var bad: bool
    ghost var log: seq<Entry>
    ghost var seen: Seen
    ghost var first: int
    ghost var closedAt: seq<nat>

    ghost function View(): Progress
      reads this, guard
    {
      Progress(counts, dropped, last, bad, log, guard.windows, first, closedAt)
    }

    /** The totals are right, also after a reading that failed. */
    ghost predicate Counting()
      reads this, guard
    {
      Inv(settings, View())
    }

    ghost predicate Working()
      reads this, guard
    {
      && settings.width > 0.0 && settings.limits.minErrorSamples > 0.0
      && guard.Valid() && guard.limits == settings.limits
    }

    ghost predicate Tailing()
      reads this
    {
      && FilesFit(decode, log, seen)
      && offsets.Keys == seen.Keys
      && forall p :: p in offsets ==> offsets[p] == |seen[p]|
    }

    constructor (decode: Decoder, settings: Settings)
      requires settings.width > 0.0 && settings.limits.minErrorSamples > 0.0
      ensures this.decode == decode && this.settings == settings && fresh(guard)
      ensures Working() && Counting() && Tailing() && View() == NO_PROGRESS && seen == map[]
    {
      this.decode, this.settings := decode, settings;
      guard := new StopGuard.StopGuard(settings.limits);
      offsets, counts, dropped, last, bad := map[], map[], 0.0, None, false;
      log, seen, first, closedAt := [], map[], 0, [];
    }

    method Process(path: Path, item: Item)
      requires Working()
      modifies this`counts, this`dropped, this`bad, this`log
      ensures Working() && View() == Consume(settings, old(View()), (path, item))
    {
      match item {
        case Ignored =>
        case DroppedIterations(value) =>
          dropped := dropped + value;
        case Outcome(time, value, isError) =>
          var bucket := BucketOf(time, settings.width);
          var pair := CountAt(counts, bucket);
          counts := counts[bucket := (pair.0 + value, pair.1 + if isError then value else 0.0)];
          if isError && settings.smoke && value > 0.0 {
            bad := true;
          }
      }
      log := log + [(path, item)];
    }

    /** The complete lines from a position on; `ok` is false if one does not decode. */
    method ReadLines(path: Path, content: string, start: nat) returns (ok: bool, position: nat)
      requires Working() && start <= |content|
      modifies this`counts, this`dropped, this`bad, this`log
      ensures Working()
      ensures ok <==> Decodes(decode, LinesFrom(content, start))
      ensures View() == ConsumeAll(settings, old(View()), Contribution(decode, path, content, start))
      ensures ok ==> position == CompleteEnd(content, start)
    {
      position := start;
      ghost var s0, lines := View(), [];
      assert LinesFrom(content, start) == [] + LinesFrom(content, start);
      while true
        invariant position <= |content| && Working()
        invariant ReadSoFar(decode, content, start, position, lines)
        invariant View() == ConsumeAll(settings, s0, Tagged(path, Items(decode, lines)))
        decreases |content| - position
      {
        var end := LineEnd(content, position);
        var line := content[position..end];
        if !EndsLine(line) {
          break;
        }
        var decoded := decode(line);
        if decoded.Raises? {
          RaisingIsConsumed(settings, s0, decode, path, content, start, position, lines);
          if decoded.partial.Some? {
            Process(path, decoded.partial.value);
          }
          return false, position;
        }
        Process(path, decoded.item);
        LineIsConsumed(settings, s0, decode, path, content, start, position, lines);
        lines := lines + [line];
        position := end;
      }
      ReadingEnds(decode, content, start, position, lines);
      return true, position;
    }

    /** Reads one file from its offset; if a line does not decode, the offset stays where it was. */
    method ReadFile(path: Path, content: string) returns (ok: bool)
      requires Working()
      requires (if path in offsets then offsets[path] else 0) <= |content|
      modifies this`offsets, this`counts, this`dropped, this`bad, this`log
      ensures Working()
      ensures var start := if path in old(offsets) then old(offsets)[path] else 0;
              && (ok <==> Decodes(decode, LinesFrom(content, start)))
              && (View(), if path in offsets then offsets[path] else 0)
                   == Reading(settings, decode, old(View()), path, content, start)
              && offsets == if ok then old(offsets)[path := CompleteEnd(content, start)] else old(offsets)
    {
      var start := if path in offsets then offsets[path] else 0;
      var position: nat;
      ok, position := ReadLines(path, content, start);
      if ok {
        offsets := offsets[path := position];
      }
    }

    /** Closes one bucket; `bad` remembers every alarm. */
    method CloseBucket(bucket: int)
      requires Working()
      modifies this`counts, this`last, this`bad, this`first, this`closedAt, guard`errorWindows, guard`windows
      ensures Working() && View() == Close(settings, old(View()), bucket)
    {
      var pair := CountAt(counts, bucket);
      counts := counts - {bucket};
      var alarm := guard.ErrorWindow(pair.0, pair.1);
      bad := alarm.value || bad;
      last := Some(bucket);
      first := if closedAt == [] then bucket else first;
      closedAt := closedAt + [|log|];
    }

    /** Closes the buckets that are over, from the one behind the last closed one, or from the
        earliest one with any points. */
    method CloseDue(now: real)
      requires Working()
      modifies this`counts, this`last, this`bad, this`first, this`closedAt, guard`errorWindows, guard`windows
      ensures Working() && View() == CloseUpTo(settings, old(View()), BucketOf(now, settings.width) - 1)
    {
      var end := BucketOf(now, settings.width) - 1;
      var begin := end + 1;
      if last.Some? {
        begin := last.value + 1;
      } else if counts.Keys != {} {
        begin := Smallest(counts.Keys);
      }
      ghost var s0 := View();
      FirstDueIs(s0, begin, end);
      var bucket := begin;
      while bucket <= end
        invariant begin <= bucket && (bucket <= end + 1 || bucket == begin)
        invariant Working() && View() == CloseRange(settings, s0, begin, bucket)
        decreases end - bucket
      {
        CloseBucket(bucket);
        bucket := bucket + 1;
      }
    }

    /** One file that has only been appended to since it was read last. */
    method ReadGrown(path: Path, content: string) returns (ok: bool)
      requires Working() && Counting() && Tailing() && SeenOf(seen, path) <= content
      modifies this`offsets, this`counts, this`dropped, this`bad, this`log, this`seen
      ensures Working() && Counting()
      ensures ok <==> Decodes(decode, LinesFrom(content, 0))
      ensures ok ==> Tailing() && seen == old(seen)[path := WholeLines(content)]
    {
      GrownFits(settings, decode, View(), seen, path, content);
      ok := ReadFile(path, content);
      if ok {
        seen := seen[path := WholeLines(content)];
      }
    }

    /** Closing keeps all totals right, and ends with the last bucket that is over. */
    method CloseOver(now: real)
      requires Working() && Counting()
      modifies this`counts, this`last, this`bad, this`first, this`closedAt, guard`errorWindows, guard`windows
      ensures Working() && Counting() && DueAreClosed(old(last), last, counts, settings.width, now)
    {
      CloseUpToKeepsInv(settings, View(), BucketOf(now, settings.width) - 1);
      DueGetClosed(settings, View(), now);
      CloseDue(now);
    }

    /** What the verdict and the drops say about everything consumed. */
    lemma {:induction false} TotalsMean()
      requires Counting()
      ensures dropped == Total(DroppedOf(), log)
      ensures bad <==> AnyAlarm(settings.limits, guard.windows) || (settings.smoke && AnyError(log))
    {
    }

    /** One reading of all files, in whatever order they are listed. */
    method Read(files: map<Path, string>, listing: seq<Path>, now: real) returns (ok: bool, stop: bool, drops: real)
      requires Working() && Counting() && Tailing() && Appended(seen, files)
      requires forall p :: p in listing ==> p in files
      modifies this`offsets, this`counts, this`dropped, this`last, this`bad, this`log, this`seen, this`first,
               this`closedAt, guard`errorWindows, guard`windows
      ensures Working() && Counting() && stop == bad && drops == dropped
      ensures drops == Total(DroppedOf(), log)
      ensures stop <==> AnyAlarm(settings.limits, guard.windows) || (settings.smoke && AnyError(log))
      ensures ok ==> Tailing() && AllRead(old(seen), seen, files, listing)
      ensures ok ==> DueAreClosed(old(last), last, counts, settings.width, now)
      ensures ok && last != old(last) ==>
                && last.Some?
                && (last.value + 1) as real * settings.width <= now < (last.value + 2) as real * settings.width
      ensures ok && last == old(last) && last.Some? ==> now < (last.value + 2) as real * settings.width
      ensures ok <==> AllDecode(decode, files, listing)
    {
      ok := ReadAll(files, listing);
      if ok {
        CloseOver(now);
      }
      TotalsMean();
      return ok, bad, dropped;
    }

    /** The loop over the files. */
    method ReadAll(files: map<Path, string>, listing: seq<Path>) returns (ok: bool)
      requires Working() && Counting() && Tailing() && Appended(seen, files)
      requires forall p :: p in listing ==> p in files
      modifies this`offsets, this`counts, this`dropped, this`bad, this`log, this`seen
      ensures Working() && Counting()
      ensures ok ==> Tailing() && AllRead(old(seen), seen, files, listing)
      ensures ok <==> AllDecode(decode, files, listing)
    {
      var k := 0;
      assert AllRead(seen, seen, files, []);
      while k < |listing|
        invariant k <= |listing| && Working() && Counting() && Tailing() && Appended(seen, files)
        invariant AllRead(old(seen), seen, files, listing[..k]) && AllDecode(decode, files, listing[..k])
      {
        OneMoreRead(decode, old(seen), seen, files, listing, k);
        var read := ReadGrown(listing[k], files[listing[k]]);
        if !read {
          return false;
        }
        k := k + 1;
      }
      assert listing[..k] == listing;
      return true;
    }
  }

  predicate Extends(seen: Seen, files: map<Path, string>, p: Path) {
    p in files ==> SeenOf(seen, p) <= files[p]
  }

  /** Files are only appended to. */
  ghost predicate Appended(seen: Seen, files: map<Path, string>) {
    forall p {:trigger Extends(seen, files, p)} :: Extends(seen, files, p)
  }

  /** Where closing starts. */
  ghost predicate FirstDue(s: Progress, begin: int, end: int) {
    if s.last.Some? then
      begin == s.last.value + 1
    else if s.counts.Keys == {} then
      begin == end + 1
    else
      begin in s.counts.Keys && forall b :: b in s.counts.Keys ==> begin <= b
  }

  function CloseRange(c: Settings, s: Progress, begin: int, stop: int): Progress
    decreases stop - begin
  {
    if stop <= begin then s else Close(c, CloseRange(c, s, begin, stop - 1), stop - 1)
  }

  /** All buckets up to `end` that are not closed yet, from the first one due. */
  ghost function CloseUpTo(c: Settings, s: Progress, end: int): Progress {
    FirstDueExists(s, end);
    var begin :| FirstDue(s, begin, end);
    CloseRange(c, s, begin, end + 1)
  }

  lemma {:induction false} FirstDueExists(s: Progress, end: int)
    ensures exists begin :: FirstDue(s, begin, end)
  {
    if s.last.Some? {
      assert FirstDue(s, s.last.value + 1, end);
    } else if s.counts.Keys == {} {
      assert FirstDue(s, end + 1, end);
    } else {
      var begin := LeastOf(s.counts.Keys);
      assert FirstDue(s, begin, end);
    }
  }

  lemma {:induction false} LeastOf(s: set<int>) returns (least: int)
    requires s != {}
    ensures least in s && forall x :: x in s ==> least <= x
    decreases |s|
  {
    var x := SomeElement(s);
    if s == {x} {
      least := x;
    } else {
      var rest := s - {x};
      assert s == rest + {x};
      assert rest != {};
      least := LeastOf(rest);
      if x < least {
        least := x;
      }
    }
  }

  lemma {:induction false} FirstDueIs(s: Progress, begin: int, end: int)
    requires FirstDue(s, begin, end)
    ensures forall b :: FirstDue(s, b, end) ==> b == begin
  {
  }

  lemma {:induction false} CloseRangeKeepsInv(c: Settings, s: Progress, begin: int, stop: int)
    requires Inv(c, s) && (s.last.None? || begin == s.last.value + 1)
    ensures Inv(c, CloseRange(c, s, begin, stop))
    ensures CloseRange(c, s, begin, stop).last == if stop <= begin then s.last else Some(stop - 1)
    decreases stop - begin
  {
    if begin < stop {
      CloseRangeKeepsInv(c, s, begin, stop - 1);
      CloseKeepsInv(c, CloseRange(c, s, begin, stop - 1), stop - 1);
    }
  }

  /** Closing never skips a bucket, and goes on until the last bucket that is over is closed. */
  lemma {:induction false} CloseUpToKeepsInv(c: Settings, s: Progress, end: int)
    requires Inv(c, s)
    ensures Inv(c, CloseUpTo(c, s, end))
    ensures s.last.Some? && s.last.value <= end ==> CloseUpTo(c, s, end).last == Some(end)
    ensures s.last.None? && (exists b :: b in s.counts && b <= end) ==> CloseUpTo(c, s, end).last == Some(end)
  {
    FirstDueExists(s, end);
    var begin :| FirstDue(s, begin, end);
    FirstDueIs(s, begin, end);
    CloseRangeKeepsInv(c, s, begin, end + 1);
  }

  /** After closing at `now`, the last closed bucket is the last one that is over, unless no further
      bucket was due: the next one is not over, or there has been no point in any that is. */
  predicate DueAreClosed(
      before: Option<int>, last: Option<int>, counts: map<int, (real, real)>, width: real, now: real)
  {
    if last != before then
      last.Some? && (last.value + 1) as real * width <= now < (last.value + 2) as real * width
    else if last.Some? then
      now < (last.value + 2) as real * width
    else
      forall b :: b in counts ==> now < (b + 1) as real * width
  }

  lemma {:induction false} DueGetClosed(c: Settings, s: Progress, now: real)
    requires Inv(c, s)
    ensures var s' := CloseUpTo(c, s, BucketOf(now, c.width) - 1);
            DueAreClosed(s.last, s'.last, s'.counts, c.width, now)
  {
    var end := BucketOf(now, c.width) - 1;
    FirstDueExists(s, end);
    var begin :| FirstDue(s, begin, end);
    FirstDueIs(s, begin, end);
    CloseRangeKeepsInv(c, s, begin, end + 1);
    BucketHolds(now, c.width, end + 1);
    assert begin <= end ==> s.last != Some(end);
    if end < begin {
      NotOver(now, c.width, end, begin);
      forall b | b in s.counts && s.last.None? ensures now < (b + 1) as real * c.width {
        NotOver(now, c.width, end, b);
      }
    }
  }

  lemma {:induction false} NotOver(now: real, width: real, end: int, b: int)
    requires width > 0.0 && end == BucketOf(now, width) - 1 && end < b
    ensures now < (b + 1) as real * width
  {
    BucketHolds(now, width, end + 1);
    ScaledOrder((end + 2) as real, (b + 1) as real, width);
  }

  // ----- Every interleaving of reading and closing -------------------------------------------------------

  datatype Move = Take(entry: Entry) | CloseDue(end: int)

  ghost function Moved(c: Settings, moves: seq<Move>): Progress
    requires c.width > 0.0
  {
    if moves == [] then NO_PROGRESS
    else
      var s := Moved(c, moves[..|moves| - 1]);
      match moves[|moves| - 1]
      case Take(entry) => Consume(c, s, entry)
      case CloseDue(end) => CloseUpTo(c, s, end)
  }

  lemma {:induction false} MovesKeepInv(c: Settings, moves: seq<Move>)
    requires c.width > 0.0
    ensures Inv(c, Moved(c, moves))
  {
    if moves == [] {
      forall b ensures CountFits(c, NO_PROGRESS, b) {
      }
    } else {
      var s := Moved(c, moves[..|moves| - 1]);
      MovesKeepInv(c, moves[..|moves| - 1]);
      match moves[|moves| - 1]
      case Take(entry) => ConsumeKeepsInv(c, s, entry);
      case CloseDue(end) => CloseUpToKeepsInv(c, s, end);
    }
  }

  /** However points and closings interleave, the windows handed to the rule are those of the
      buckets first, first + 1, ... up to the last closed one, each once, and each holds exactly
      the points of its bucket that had been read by then. */
  lemma {:induction false} BucketsCloseOnceInOrder(c: Settings, moves: seq<Move>, k: nat)
    requires c.width > 0.0 && k < |Moved(c, moves).windows|
    ensures var s := Moved(c, moves);
            && s.last == Some(s.first + |s.windows| - 1)
            && k < |s.closedAt| && s.closedAt[k] <= |s.log|
            && (s.windows[k].completed, s.windows[k].errors) == Sum(s.first + k, c.width, s.log[..s.closedAt[k]])
  {
    MovesKeepInv(c, moves);
    assert WindowFits(c, Moved(c, moves), k);
  }

  // ----- Reading all files ---------------------------------------------------------------------------------

  /** What has been consumed of p after reading it, if it is listed: everything up to its last
      complete line. */
  predicate ReadTo(before: Seen, after: Seen, files: map<Path, string>, listing: seq<Path>, p: Path) {
    if p in listing then p in files && p in after && after[p] == WholeLines(files[p])
    else SeenOf(after, p) == SeenOf(before, p)
  }

  /** Every listed file was consumed up to its last complete line, and no other file was touched. */
  ghost predicate AllRead(before: Seen, after: Seen, files: map<Path, string>, listing: seq<Path>) {
    forall p {:trigger ReadTo(before, after, files, listing, p)} :: ReadTo(before, after, files, listing, p)
  }

  predicate Decodable(decode: Decoder, files: map<Path, string>, p: Path) {
    p in files && Decodes(decode, LinesFrom(files[p], 0))
  }

  ghost predicate AllDecode(decode: Decoder, files: map<Path, string>, listing: seq<Path>) {
    forall p {:trigger Decodable(decode, files, p)} :: p in listing ==> Decodable(decode, files, p)
  }

  /** One more file of the listing: it was read, or it does not decode. */
  lemma {:induction false} OneMoreRead(decode: Decoder, before: Seen, seen: Seen, files: map<Path, string>,
                                       listing: seq<Path>, k: nat)
    requires k < |listing| && listing[k] in files
    requires Appended(seen, files)
    requires AllRead(before, seen, files, listing[..k]) && AllDecode(decode, files, listing[..k])
    ensures SeenOf(seen, listing[k]) <= files[listing[k]]
    ensures var seen' := seen[listing[k] := WholeLines(files[listing[k]])];
            Appended(seen', files) && AllRead(before, seen', files, listing[..k + 1])
    ensures if Decodable(decode, files, listing[k]) then AllDecode(decode, files, listing[..k + 1])
            else !AllDecode(decode, files, listing)
  {
    var path := listing[k];
    var seen' := seen[path := WholeLines(files[path])];
    assert listing[..k + 1] == listing[..k] + [path] && path in listing;
    assert Extends(seen, files, path);
    forall p ensures Extends(seen', files, p) && ReadTo(before, seen', files, listing[..k] + [path], p) {
      assert Extends(seen, files, p) && ReadTo(before, seen, files, listing[..k], p);
    }
  }

  lemma {:induction false} TextIsRead(decode: Decoder, before: string, content: string)
    requires CompleteEnd(before, 0) == |before| && Decodes(decode, LinesFrom(before, 0)) && before <= content
    ensures CompleteEnd(content, |before|) == CompleteEnd(content, 0)
    ensures Decodes(decode, LinesFrom(content, |before|)) <==> Decodes(decode, LinesFrom(content, 0))
  {
    AppendKeepsLines(before, content, 0);
    CountedOfConcat(decode, LinesFrom(before, 0), LinesFrom(content, |before|));
  }

  lemma {:induction false} FileIsRead(decode: Decoder, log: seq<Entry>, seen: Seen, path: Path, content: string)
    requires FilesFit(decode, log, seen) && SeenOf(seen, path) <= content
    ensures CompleteEnd(content, |SeenOf(seen, path)|) == CompleteEnd(content, 0)
    ensures Decodes(decode, LinesFrom(content, |SeenOf(seen, path)|)) <==> Decodes(decode, LinesFrom(content, 0))
  {
    assert FileFits(decode, log, SeenOf(seen, path), path);
    TextIsRead(decode, SeenOf(seen, path), content);
  }

  /** Everything about reading a grown file that the totals and the consumed texts rely on. */
  lemma {:induction false} GrownFits(c: Settings, decode: Decoder, s: Progress, seen: Seen, path: Path, content: string)
    requires Inv(c, s) && FilesFit(decode, s.log, seen) && SeenOf(seen, path) <= content
    ensures var (s', offset) := Reading(c, decode, s, path, content, |SeenOf(seen, path)|);
            && Inv(c, s')
            && (Decodes(decode, LinesFrom(content, |SeenOf(seen, path)|)) <==> Decodes(decode, LinesFrom(content, 0)))
            && (Decodes(decode, LinesFrom(content, 0)) ==>
                  FilesFit(decode, s'.log, seen[path := WholeLines(content)]) && offset == |WholeLines(content)|)
  {
    var entries := Contribution(decode, path, content, |SeenOf(seen, path)|);
    FileIsRead(decode, s.log, seen, path, content);
    ConsumeAllKeepsInv(c, s, entries);
    ConsumeAllLogs(c, s, entries);
    if Decodes(decode, LinesFrom(content, 0)) {
      ReadingFits(decode, s.log, seen, path, content);
    }
  }

  // ----- Reading one file -------------------------------------------------------------------------------

  lemma {:induction false} ConsumeOneMore(c: Settings, s: Progress, path: Path, items: seq<Item>, item: Item)
    requires c.width > 0.0
    ensures ConsumeAll(c, s, Tagged(path, items + [item]))
         == Consume(c, ConsumeAll(c, s, Tagged(path, items)), (path, item))
  {
    assert (items + [item])[..|items|] == items;
    assert (Tagged(path, items) + [(path, item)])[..|items|] == Tagged(path, items);
  }

  /** The lines between start and position were decoded; the others are still to come. */
  ghost predicate ReadSoFar(decode: Decoder, content: string, start: nat, position: nat, lines: seq<string>)
    requires start <= |content| && position <= |content|
  {
    && Decodes(decode, lines)
    && LinesFrom(content, start) == lines + LinesFrom(content, position)
    && CompleteEnd(content, start) == CompleteEnd(content, position)
  }

  lemma {:induction false} ReadingContinues(
    decode: Decoder, content: string, start: nat, position: nat, lines: seq<string>)
    requires start <= |content| && position <= |content| && ReadSoFar(decode, content, start, position, lines)
    requires var line := content[position..LineEnd(content, position)]; EndsLine(line) && decode(line).Reads?
    ensures var line := content[position..LineEnd(content, position)];
            && ReadSoFar(decode, content, start, LineEnd(content, position), lines + [line])
            && Items(decode, lines + [line]) == Items(decode, lines) + [decode(line).item]
            && (lines + [line])[..|lines|] == lines
  {
    var line := content[position..LineEnd(content, position)];
    assert lines + ([line] + LinesFrom(content, LineEnd(content, position)))
        == lines + [line] + LinesFrom(content, LineEnd(content, position));
  }

  lemma {:induction false} ReadingFails(decode: Decoder, content: string, start: nat, position: nat, lines: seq<string>)
    requires start <= |content| && position <= |content| && ReadSoFar(decode, content, start, position, lines)
    requires var line := content[position..LineEnd(content, position)]; EndsLine(line) && decode(line).Raises?
    ensures !Decodes(decode, LinesFrom(content, start))
    ensures var partial := decode(content[position..LineEnd(content, position)]).partial;
            Counted(decode, LinesFrom(content, start))
              == if partial.Some? then Items(decode, lines) + [partial.value] else Items(decode, lines)
  {
    var rest := LinesFrom(content, position);
    assert rest[0] == content[position..LineEnd(content, position)];
    CountedOfConcat(decode, lines, rest);
  }

  lemma {:induction false} ReadingEnds(decode: Decoder, content: string, start: nat, position: nat, lines: seq<string>)
    requires start <= |content| && position <= |content| && ReadSoFar(decode, content, start, position, lines)
    requires !EndsLine(content[position..LineEnd(content, position)])
    ensures lines == LinesFrom(content, start) && position == CompleteEnd(content, start)
    ensures Counted(decode, LinesFrom(content, start)) == Items(decode, lines)
  {
    CountedIsAll(decode, lines);
  }

  lemma {:induction false} LineIsConsumed(
    c: Settings, s: Progress, decode: Decoder, path: Path, content: string, start: nat, position: nat,
    lines: seq<string>)
    requires c.width > 0.0
    requires start <= |content| && position <= |content| && ReadSoFar(decode, content, start, position, lines)
    requires var line := content[position..LineEnd(content, position)]; EndsLine(line) && decode(line).Reads?
    ensures var line := content[position..LineEnd(content, position)];
            && ReadSoFar(decode, content, start, LineEnd(content, position), lines + [line])
            && ConsumeAll(c, s, Tagged(path, Items(decode, lines + [line])))
                 == Consume(c, ConsumeAll(c, s, Tagged(path, Items(decode, lines))), (path, decode(line).item))
  {
    ReadingContinues(decode, content, start, position, lines);
    ConsumeOneMore(c, s, path, Items(decode, lines), decode(content[position..LineEnd(content, position)]).item);
  }

  lemma {:induction false} RaisingIsConsumed(
    c: Settings, s: Progress, decode: Decoder, path: Path, content: string, start: nat, position: nat,
    lines: seq<string>)
    requires c.width > 0.0
    requires start <= |content| && position <= |content| && ReadSoFar(decode, content, start, position, lines)
    requires var line := content[position..LineEnd(content, position)]; EndsLine(line) && decode(line).Raises?
    ensures !Decodes(decode, LinesFrom(content, start))
    ensures var partial := decode(content[position..LineEnd(content, position)]).partial;
            var s' := ConsumeAll(c, s, Tagged(path, Items(decode, lines)));
            ConsumeAll(c, s, Contribution(decode, path, content, start))
              == if partial.Some? then Consume(c, s', (path, partial.value)) else s'
  {
    ReadingFails(decode, content, start, position, lines);
    var partial := decode(content[position..LineEnd(content, position)]).partial;
    if partial.Some? {
      ConsumeOneMore(c, s, path, Items(decode, lines), partial.value);
    }
  }

  method Smallest(s: set<int>) returns (m: int)
    requires s != {}
    ensures m in s && forall x :: x in s ==> m <= x
  {
    ghost var some := SomeElement(s);
    var first :| first in s;
    m := first;
    var todo := s - {m};
    while todo != {}
      invariant todo <= s && m in s
      invariant forall x :: x in s && x !in todo ==> m <= x
      decreases todo
    {
      ghost var another := SomeElement(todo);
      var x :| x in todo;
      if x < m {
        m := x;
      }
      todo := todo - {x};
    }
  }
}
