/** If-None-Match evaluation: entity-tag lists (sections 8.8.3 and 13.1.2 of RFC 9110) under weak
    comparison (section 8.8.3.2). */
module HttpCache {
  import opened Wrappers

  /** One char stands for one byte of the header. */
  type Byte = char

  const QUOTE: Byte := '"'
  const STAR: Byte := '*'
  const COMMA: Byte := ','
  const WEAK_PREFIX: seq<Byte> := "W/"

  // ----- The grammar ----------------------------------------------------------------------------

  predicate Blank(b: Byte) {
    b == ' ' || b == '\t'
  }

  predicate AllBlank(s: seq<Byte>) {
    forall k :: 0 <= k < |s| ==> Blank(s[k])
  }

  /** etagc: visible characters except the quote, and obs-text. */
  predicate EtagChar(b: Byte) {
    b >= '\U{21}' && b != QUOTE && b != '\U{7F}'
  }

  datatype Tag = Tag(weak: bool, text: seq<Byte>)

  predicate ValidTag(t: Tag) {
    forall k :: 0 <= k < |t.text| ==> EtagChar(t.text[k])
  }

  function Quoted(text: seq<Byte>): seq<Byte> {
    [QUOTE] + text + [QUOTE]
  }

  function WeakPrefix(weak: bool): seq<Byte> {
    if weak then WEAK_PREFIX else []
  }

  function RenderTag(t: Tag): seq<Byte> {
    WeakPrefix(t.weak) + Quoted(t.text)
  }

  /** A list element with the optional white space around it. */
  datatype Element = Element(before: seq<Byte>, tag: Tag, after: seq<Byte>)

  predicate ValidElement(e: Element) {
    AllBlank(e.before) && ValidTag(e.tag) && AllBlank(e.after)
  }

  predicate ValidList(es: seq<Element>) {
    es != [] && forall k :: 0 <= k < |es| ==> ValidElement(es[k])
  }

  function RenderElement(e: Element): seq<Byte> {
    e.before + RenderTag(e.tag) + e.after
  }

  function Render(es: seq<Element>): seq<Byte>
    requires es != []
    decreases |es|, 1
  {
    RenderElement(es[0]) + RenderTail(es)
  }

  function RenderTail(es: seq<Element>): seq<Byte>
    requires es != []
    decreases |es|, 0
  {
    if |es| == 1 then [] else [COMMA] + Render(es[1..])
  }

  function Tags(es: seq<Element>): (tags: seq<Tag>)
    ensures |tags| == |es| && forall k :: 0 <= k < |es| ==> tags[k] == es[k].tag
  {
    seq(|es|, k requires 0 <= k < |es| => es[k].tag)
  }

  function SkipBlanks(s: seq<Byte>): (rest: seq<Byte>)
    ensures |rest| <= |s|
  {
    if s != [] && Blank(s[0]) then SkipBlanks(s[1..]) else s
  }

  function DropLastBlanks(s: seq<Byte>): (rest: seq<Byte>)
    ensures |rest| <= |s|
  {
    if s != [] && Blank(s[|s| - 1]) then DropLastBlanks(s[..|s| - 1]) else s
  }

  function Trim(s: seq<Byte>): seq<Byte> {
    DropLastBlanks(SkipBlanks(s))
  }

  /** The current tag without its weakness indicator. */
  function Strong(current: seq<Byte>): seq<Byte> {
    if WEAK_PREFIX <= current then current[2..] else current
  }

  /** What the header means: `*`, or a well-formed list with a member that weakly matches. */
  ghost predicate Validates(header: seq<Byte>, current: seq<Byte>) {
    || Trim(header) == [STAR]
    || exists es: seq<Element> :: ValidList(es) && Render(es) == Trim(header) && Lists(es, current)
  }

  predicate Lists(es: seq<Element>, current: seq<Byte>) {
    exists k :: 0 <= k < |es| && Quoted(es[k].tag.text) == Strong(current)
  }

  // ----- A deterministic reading of the grammar -----------------------------------------------------

  function TextLength(s: seq<Byte>): (n: nat)
    ensures n <= |s|
  {
    if s != [] && EtagChar(s[0]) then 1 + TextLength(s[1..]) else 0
  }

  /** Reads one element: its tag, and what follows the white space after it. */
  function ReadElement(s: seq<Byte>): (r: Option<(Tag, seq<Byte>)>)
    ensures r.Some? ==> |r.value.1| < |s|
  {
    var a := SkipBlanks(s);
    var weak := WEAK_PREFIX <= a;
    var b := if weak then a[2..] else a;
    if b == [] || b[0] != QUOTE then
      None
    else
      var n := TextLength(b[1..]);
      if n + 1 == |b| || b[n + 1] != QUOTE then
        None
      else
        Some((Tag(weak, b[1..n + 1]), SkipBlanks(b[n + 2..])))
  }

  function Parse(s: seq<Byte>): Option<seq<Tag>>
    decreases |s|
  {
    var e := ReadElement(s);
    if e.None? then None
    else if e.value.1 == [] then Some([e.value.0])
    else if e.value.1[0] != COMMA || |e.value.1| == 1 then None
    else Prepend([e.value.0], Parse(e.value.1[1..]))
  }

  function Prepend(tags: seq<Tag>, rest: Option<seq<Tag>>): Option<seq<Tag>> {
    if rest.Some? then Some(tags + rest.value) else None
  }

  lemma {:induction false} SkippedIsBlank(s: seq<Byte>)
    ensures var rest := SkipBlanks(s);
            && s == s[..|s| - |rest|] + rest && AllBlank(s[..|s| - |rest|])
            && (rest != [] ==> !Blank(rest[0]))
  {
    if s != [] && Blank(s[0]) {
      SkippedIsBlank(s[1..]);
      var rest := SkipBlanks(s);
      var skipped := s[..|s| - |rest|];
      assert skipped == [s[0]] + s[1..][..|s| - 1 - |rest|];
    }
  }

  lemma {:induction false} TextIsValid(s: seq<Byte>)
    ensures forall k :: 0 <= k < TextLength(s) ==> EtagChar(s[k])
    ensures TextLength(s) < |s| ==> !EtagChar(s[TextLength(s)])
  {
    if s != [] && EtagChar(s[0]) {
      TextIsValid(s[1..]);
      forall k | 0 <= k < TextLength(s) ensures EtagChar(s[k]) {
        assert k > 0 ==> s[k] == s[1..][k - 1];
      }
    }
  }

  lemma {:induction false} SkipsExactly(before: seq<Byte>, rest: seq<Byte>)
    requires AllBlank(before) && (rest == [] || !Blank(rest[0]))
    ensures SkipBlanks(before + rest) == rest
  {
    if before == [] {
      assert before + rest == rest;
    } else {
      SkipsExactly(before[1..], rest);
      assert (before + rest)[1..] == before[1..] + rest;
    }
  }

  lemma {:induction false} DropsExactly(rest: seq<Byte>, after: seq<Byte>)
    requires AllBlank(after) && (rest == [] || !Blank(rest[|rest| - 1]))
    ensures DropLastBlanks(rest + after) == rest
  {
    if after == [] {
      assert rest + after == rest;
    } else {
      DropsExactly(rest, after[..|after| - 1]);
      assert (rest + after)[..|rest + after| - 1] == rest + after[..|after| - 1];
    }
  }

  lemma {:induction false} TextEndsAt(text: seq<Byte>, rest: seq<Byte>)
    requires (forall k :: 0 <= k < |text| ==> EtagChar(text[k])) && (rest == [] || !EtagChar(rest[0]))
    ensures TextLength(text + rest) == |text|
  {
    if text == [] {
      assert text + rest == rest;
    } else {
      TextEndsAt(text[1..], rest);
      assert (text + rest)[1..] == text[1..] + rest;
    }
  }

  lemma {:induction false} PrefixIsRead(weak: bool, q: seq<Byte>)
    requires q != [] && q[0] == QUOTE
    ensures WEAK_PREFIX <= WeakPrefix(weak) + q <==> weak
    ensures q == if weak then (WeakPrefix(weak) + q)[2..] else WeakPrefix(weak) + q
  {
    assert !weak ==> (WeakPrefix(weak) + q)[0] == QUOTE;
  }

  lemma {:induction false} QuotedIsRead(text: seq<Byte>, rest: seq<Byte>)
    ensures var b := Quoted(text) + rest;
            && |text| + 1 < |b| && b[0] == QUOTE && b[1..] == text + ([QUOTE] + rest)
            && b[|text| + 1] == QUOTE && b[1..|text| + 1] == text && b[|text| + 2..] == rest
  {
  }

  lemma {:induction false} RenderedTagIsRead(t: Tag, after: seq<Byte>, tail: seq<Byte>)
    requires ValidTag(t) && AllBlank(after) && (tail == [] || !Blank(tail[0]))
    ensures var a := RenderTag(t) + (after + tail);
            var b := if WEAK_PREFIX <= a then a[2..] else a;
            && (WEAK_PREFIX <= a <==> t.weak)
            && b != [] && b[0] == QUOTE && TextLength(b[1..]) == |t.text|
            && |t.text| + 1 < |b| && b[|t.text| + 1] == QUOTE
            && b[1..|t.text| + 1] == t.text && b[|t.text| + 2..] == after + tail
  {
    var rest := after + tail;
    var q := Quoted(t.text) + rest;
    assert RenderTag(t) + rest == WeakPrefix(t.weak) + q;
    QuotedIsRead(t.text, rest);
    PrefixIsRead(t.weak, q);
    TextEndsAt(t.text, [QUOTE] + rest);
  }

  lemma {:induction false} ReadsAs(s: seq<Byte>, b: seq<Byte>, n: nat, d: seq<Byte>)
    requires b == if WEAK_PREFIX <= SkipBlanks(s) then SkipBlanks(s)[2..] else SkipBlanks(s)
    requires n + 1 < |b| && b[0] == b[n + 1] == QUOTE && n == TextLength(b[1..]) && d == b[n + 2..]
    ensures ReadElement(s) == Some((Tag(WEAK_PREFIX <= SkipBlanks(s), b[1..n + 1]), SkipBlanks(d)))
  {
  }

  lemma {:induction false} ElementSplit(e: Element, tail: seq<Byte>)
    ensures RenderElement(e) + tail == e.before + (RenderTag(e.tag) + (e.after + tail))
    ensures RenderTag(e.tag) + (e.after + tail) != [] && !Blank((RenderTag(e.tag) + (e.after + tail))[0])
  {
    RenderTagEndsWithQuote(e.tag);
  }

  lemma {:induction false} RenderedElementIsRead(e: Element, tail: seq<Byte>)
    requires ValidElement(e) && (tail == [] || !Blank(tail[0]))
    ensures ReadElement(RenderElement(e) + tail) == Some((e.tag, tail))
  {
    var a := RenderTag(e.tag) + (e.after + tail);
    ElementSplit(e, tail);
    SkipsExactly(e.before, a);
    RenderedTagIsRead(e.tag, e.after, tail);
    SkipsExactly(e.after, tail);
    ReadsAs(RenderElement(e) + tail, if WEAK_PREFIX <= a then a[2..] else a, |e.tag.text|, e.after + tail);
  }

  lemma {:induction false} QuotedPrefix(b: seq<Byte>, n: nat)
    requires n + 1 < |b| && b[0] == b[n + 1] == QUOTE
    ensures b == Quoted(b[1..n + 1]) + b[n + 2..]
  {
  }

  lemma {:induction false} TextPrefixIsValid(b: seq<Byte>, n: nat, weak: bool)
    requires b != [] && n == TextLength(b[1..])
    ensures ValidTag(Tag(weak, b[1..n + 1]))
  {
    TextIsValid(b[1..]);
    assert forall k :: 0 <= k < n ==> b[1..n + 1][k] == b[1..][k];
  }

  lemma {:induction false} Regroup(before: seq<Byte>, w: seq<Byte>, q: seq<Byte>, after: seq<Byte>, c: seq<Byte>)
    ensures before + (w + (q + (after + c))) == before + (w + q) + after + c
  {
  }

  /** What ReadElement finds after the blanks: the prefix, and the text between two quotes. */
  lemma {:induction false} ElementBody(s: seq<Byte>) returns (weak: bool, b: seq<Byte>, n: nat)
    requires ReadElement(s).Some?
    ensures SkipBlanks(s) == WeakPrefix(weak) + b
    ensures n == TextLength(b[1..]) && n + 1 < |b| && b[0] == b[n + 1] == QUOTE
    ensures ReadElement(s).value == (Tag(weak, b[1..n + 1]), SkipBlanks(b[n + 2..]))
  {
    var a := SkipBlanks(s);
    weak := WEAK_PREFIX <= a;
    b := if weak then a[2..] else a;
    n := TextLength(b[1..]);
  }

  lemma {:induction false} Assemble(
    before: seq<Byte>, weak: bool, b: seq<Byte>, text: seq<Byte>, after: seq<Byte>, c: seq<Byte>)
    requires b == Quoted(text) + (after + c)
    ensures before + (WeakPrefix(weak) + b) == RenderElement(Element(before, Tag(weak, text), after)) + c
  {
    Regroup(before, WeakPrefix(weak), Quoted(text), after, c);
  }

  lemma {:induction false} ReadElementIsRendered(s: seq<Byte>) returns (e: Element)
    requires ReadElement(s).Some?
    ensures ValidElement(e) && e.tag == ReadElement(s).value.0
    ensures s == RenderElement(e) + ReadElement(s).value.1
  {
    var weak, b, n := ElementBody(s);
    var before, d := s[..|s| - |SkipBlanks(s)|], b[n + 2..];
    var after, c := d[..|d| - |SkipBlanks(d)|], SkipBlanks(d);
    SkippedIsBlank(s);
    SkippedIsBlank(d);
    QuotedPrefix(b, n);
    TextPrefixIsValid(b, n, weak);
    e := Element(before, Tag(weak, b[1..n + 1]), after);
    Assemble(before, weak, b, b[1..n + 1], after, c);
  }

  /** Whatever the grammar derives is read back, tag by tag. */
  lemma {:induction false} RenderedListIsRead(es: seq<Element>)
    requires ValidList(es)
    ensures Parse(Render(es)) == Some(Tags(es))
    decreases |es|
  {
    RenderedElementIsRead(es[0], RenderTail(es));
    if |es| == 1 {
      assert Tags(es) == [es[0].tag];
    } else {
      RenderedListIsRead(es[1..]);
      assert RenderTail(es)[1..] == Render(es[1..]);
      assert Tags(es) == [es[0].tag] + Tags(es[1..]);
    }
  }

  lemma {:induction false} ConsRendered(e: Element, rest: seq<Element>)
    requires ValidElement(e) && ValidList(rest)
    ensures ValidList([e] + rest)
    ensures Render([e] + rest) == RenderElement(e) + ([COMMA] + Render(rest))
    ensures Tags([e] + rest) == [e.tag] + Tags(rest)
  {
    assert ([e] + rest)[1..] == rest;
  }

  lemma {:induction false} ParseTail(s: seq<Byte>)
    requires Parse(s).Some?
    ensures ReadElement(s).Some?
    ensures var tag, c := ReadElement(s).value.0, ReadElement(s).value.1;
            if c == [] then Parse(s) == Some([tag])
            else c[0] == COMMA && Parse(c[1..]).Some? && Parse(s).value == [tag] + Parse(c[1..]).value
  {
  }

  /** Whatever is read was derived by the grammar. */
  lemma {:induction false} ReadListIsRendered(s: seq<Byte>) returns (es: seq<Element>)
    requires Parse(s).Some?
    ensures ValidList(es) && Render(es) == s && Tags(es) == Parse(s).value
    decreases |s|
  {
    ParseTail(s);
    var e := ReadElementIsRendered(s);
    var c := ReadElement(s).value.1;
    if c == [] {
      es := [e];
    } else {
      var rest := ReadListIsRendered(c[1..]);
      es := [e] + rest;
      ConsRendered(e, rest);
      assert c == [COMMA] + c[1..];
    }
  }

  predicate HasTag(tags: seq<Tag>, current: seq<Byte>) {
    exists k :: 0 <= k < |tags| && Quoted(tags[k].text) == Strong(current)
  }

  /** The meaning of a header is decided by reading it once. */
  lemma {:induction false} ValidatesIffRead(header: seq<Byte>, current: seq<Byte>)
    ensures Validates(header, current) <==>
              || Trim(header) == [STAR]
              || (Parse(Trim(header)).Some? && HasTag(Parse(Trim(header)).value, current))
  {
    var h := Trim(header);
    if Parse(h).Some? && HasTag(Parse(h).value, current) {
      var es := ReadListIsRendered(h);
      var k :| 0 <= k < |Tags(es)| && Quoted(Tags(es)[k].text) == Strong(current);
      assert Quoted(es[k].tag.text) == Strong(current);
    }
    if es: seq<Element> :| ValidList(es) && Render(es) == h && Lists(es, current) {
      RenderedListIsRead(es);
      var k :| 0 <= k < |es| && Quoted(es[k].tag.text) == Strong(current);
      assert Quoted(Tags(es)[k].text) == Strong(current);
    }
  }

  // ----- The scanner ----------------------------------------------------------------------------------

  method TrimBlanks(v: seq<Byte>) returns (r: seq<Byte>)
    ensures r == Trim(v)
  {
    r := v;
    while r != [] && Blank(r[0])
      invariant SkipBlanks(r) == SkipBlanks(v)
    {
      r := r[1..];
    }
    while r != [] && Blank(r[|r| - 1])
      invariant DropLastBlanks(r) == DropLastBlanks(SkipBlanks(v))
    {
      r := r[..|r| - 1];
    }
  }

  method ScanBlanks(header: seq<Byte>, start: nat) returns (i: nat)
    requires start <= |header|
    ensures start <= i <= |header| && header[i..] == SkipBlanks(header[start..])
  {
    i := start;
    while i < |header| && Blank(header[i])
      invariant start <= i <= |header|
      invariant SkipBlanks(header[i..]) == SkipBlanks(header[start..])
    {
      assert header[i..][1..] == header[i + 1..];
      i := i + 1;
    }
  }

  /** Scans to the closing quote; `ok` is false if a character is not allowed or the quote is
      missing. */
  method ScanText(header: seq<Byte>, start: nat) returns (ok: bool, i: nat)
    requires start <= |header|
    ensures start <= i <= |header| && i == start + TextLength(header[start..])
    ensures ok <==> i < |header| && header[i] == QUOTE
  {
    i := start;
    while i < |header| && header[i] != QUOTE
      invariant start <= i <= |header|
      invariant TextLength(header[start..]) == i - start + TextLength(header[i..])
    {
      if header[i] < '\U{21}' || header[i] == '\U{7F}' {
        return false, i;
      }
      assert header[i..][1..] == header[i + 1..];
      i := i + 1;
    }
    ok := i < |header|;
  }

  /** The positions that one element of the list occupies from `start` on: its opening quote, the
      closing one, and the first character after the white space behind it. */
  datatype Scan = Malformed | Scanned(begin: nat, close: nat, next: nat)

  ghost predicate ScanFits(header: seq<Byte>, start: nat, scan: Scan)
    requires start <= |header|
  {
    var e := ReadElement(header[start..]);
    if scan.Malformed? then
      e == None
    else
      && start <= scan.begin < scan.close < scan.next <= |header|
      && header[scan.begin] == header[scan.close] == QUOTE
      && e.Some?
      && e.value.0.text == header[scan.begin + 1..scan.close]
      && e.value.1 == header[scan.next..]
  }

  lemma {:induction false} BodyAt(header: seq<Byte>, i: nat, begin: nat, close: nat)
    requires i <= begin < close < |header|
    requires begin == if WEAK_PREFIX <= header[i..] then i + 2 else i
    ensures var b := header[begin..];
            && b == (if WEAK_PREFIX <= header[i..] then header[i..][2..] else header[i..])
            && close - begin < |b| && b[0] == header[begin] && b[close - begin] == header[close]
            && b[1..] == header[begin + 1..] && b[close - begin + 1..] == header[close + 1..]
            && b[1..close - begin] == header[begin + 1..close]
  {
    var b, text := header[begin..], header[begin + 1..close];
    forall k | 0 <= k < |text| ensures b[1..close - begin][k] == text[k] {
    }
  }

  lemma {:induction false} ElementScanned(header: seq<Byte>, start: nat, i: nat, begin: nat, close: nat, next: nat)
    requires start <= i <= begin < close < next <= |header|
    requires header[i..] == SkipBlanks(header[start..])
    requires begin == if WEAK_PREFIX <= header[i..] then i + 2 else i
    requires header[begin] == QUOTE && header[close] == QUOTE
    requires close == begin + 1 + TextLength(header[begin + 1..])
    requires header[next..] == SkipBlanks(header[close + 1..])
    ensures ScanFits(header, start, Scanned(begin, close, next))
  {
    var weak, text := WEAK_PREFIX <= header[i..], header[begin + 1..close];
    assert ReadElement(header[start..]) == Some((Tag(weak, text), header[next..])) by {
      BodyAt(header, i, begin, close);
      ReadsAs(header[start..], header[begin..], close - begin - 1, header[close + 1..]);
    }
  }

  lemma {:induction false} ElementRejected(header: seq<Byte>, start: nat, i: nat, begin: nat)
    requires start <= i <= begin <= |header|
    requires header[i..] == SkipBlanks(header[start..])
    requires begin == if WEAK_PREFIX <= header[i..] then i + 2 else i
    requires begin < |header| && header[begin] == QUOTE ==>
               var close := begin + 1 + TextLength(header[begin + 1..]);
               close >= |header| || header[close] != QUOTE
    ensures ReadElement(header[start..]) == None
  {
    var a := header[i..];
    var b := if WEAK_PREFIX <= a then a[2..] else a;
    assert b == header[begin..];
    if begin < |header| {
      assert b[1..] == header[begin + 1..];
    }
  }

  method ScanElement(header: seq<Byte>, start: nat) returns (scan: Scan)
    requires start <= |header|
    ensures ScanFits(header, start, scan)
  {
    var i := ScanBlanks(header, start);
    var begin := i;
    if i + 2 <= |header| && header[i..i + 2] == WEAK_PREFIX {
      begin := i + 2;
    }
    assert WEAK_PREFIX <= header[i..] <==> i + 2 <= |header| && header[i..i + 2] == WEAK_PREFIX by {
      assert i + 2 <= |header| ==> header[i..][..2] == header[i..i + 2];
    }
    if begin >= |header| || header[begin] != QUOTE {
      ElementRejected(header, start, i, begin);
      return Malformed;
    }
    var ok, close := ScanText(header, begin + 1);
    if !ok {
      ElementRejected(header, start, i, begin);
      return Malformed;
    }
    var next := ScanBlanks(header, close + 1);
    ElementScanned(header, start, i, begin, close, next);
    return Scanned(begin, close, next);
  }

  lemma {:induction false} ParseFrom(s: seq<Byte>, tag: Tag, rest: seq<Byte>)
    requires ReadElement(s) == Some((tag, rest))
    ensures Parse(s) == if rest == [] then Some([tag])
                        else if rest[0] != COMMA || |rest| == 1 then None
                        else Prepend([tag], Parse(rest[1..]))
  {
  }

  lemma {:induction false} TailAt(header: seq<Byte>, next: nat)
    requires next <= |header|
    ensures header[next..] == [] <==> next == |header|
    ensures next < |header| ==> header[next..][0] == header[next] && header[next..][1..] == header[next + 1..]
    ensures |header[next..]| == 1 <==> next + 1 == |header|
  {
  }

  lemma {:induction false} ParseStep(header: seq<Byte>, i: nat, scan: Scan)
    requires i <= |header| && ScanFits(header, i, scan) && scan.Scanned?
    ensures var tag := ReadElement(header[i..]).value.0;
            Parse(header[i..]) ==
              if scan.next == |header| then Some([tag])
              else if header[scan.next] != COMMA || scan.next + 1 == |header| then None
              else Prepend([tag], Parse(header[scan.next + 1..]))
  {
    var rest := header[scan.next..];
    TailAt(header, scan.next);
    ParseFrom(header[i..], ReadElement(header[i..]).value.0, rest);
    if rest != [] {
      assert rest[1..] == header[scan.next + 1..];
    }
  }

  /** Whether the rest of a list decides for a match, given that an element before matched or not. */
  predicate Decides(rest: seq<Byte>, matched: bool, current: seq<Byte>) {
    Parse(rest).Some? && (matched || HasTag(Parse(rest).value, current))
  }

  lemma {:induction false} HasTagFront(tag: Tag, tags: seq<Tag>, current: seq<Byte>)
    ensures HasTag([tag] + tags, current) <==> Quoted(tag.text) == Strong(current) || HasTag(tags, current)
  {
    var all := [tag] + tags;
    assert all[0] == tag && forall k :: 0 <= k < |tags| ==> all[k + 1] == tags[k];
    if HasTag(tags, current) {
      var k :| 0 <= k < |tags| && Quoted(tags[k].text) == Strong(current);
      assert Quoted(all[k + 1].text) == Strong(current);
    }
  }

  lemma {:induction false} DecidesLast(s: seq<Byte>, tag: Tag, matched: bool, current: seq<Byte>)
    requires Parse(s) == Some([tag])
    ensures Decides(s, matched, current) <==> matched || Quoted(tag.text) == Strong(current)
  {
    HasTagFront(tag, [], current);
    assert [tag] + [] == [tag];
  }

  lemma {:induction false} DecidesMore(s: seq<Byte>, tag: Tag, more: seq<Byte>, matched: bool, current: seq<Byte>)
    requires Parse(s) == Prepend([tag], Parse(more))
    ensures Decides(s, matched, current) <==> Decides(more, matched || Quoted(tag.text) == Strong(current), current)
  {
    if Parse(more).Some? {
      HasTagFront(tag, Parse(more).value, current);
    }
  }

  lemma {:induction false} ElementQuoted(header: seq<Byte>, i: nat, scan: Scan)
    requires i <= |header| && ScanFits(header, i, scan) && scan.Scanned?
    ensures header[scan.begin..scan.close + 1] == Quoted(ReadElement(header[i..]).value.0.text)
  {
    assert header[scan.begin..scan.close + 1] == Quoted(header[scan.begin + 1..scan.close]);
  }

  /** One element moves the decision on to what follows it. */
  lemma {:induction false} Advance(header: seq<Byte>, i: nat, scan: Scan, matched: bool, current: seq<Byte>)
    requires i <= |header| && ScanFits(header, i, scan)
    ensures scan.Malformed? ==> !Decides(header[i..], matched, current)
    ensures scan.Scanned? ==>
              var matched' := matched || header[scan.begin..scan.close + 1] == Strong(current);
              Decides(header[i..], matched, current) <==>
                if scan.next == |header| then matched'
                else header[scan.next] == COMMA && scan.next + 1 < |header|
                     && Decides(header[scan.next + 1..], matched', current)
  {
    if scan.Scanned? {
      ParseStep(header, i, scan);
      ElementQuoted(header, i, scan);
      var tag := ReadElement(header[i..]).value.0;
      if scan.next == |header| {
        DecidesLast(header[i..], tag, matched, current);
      } else if header[scan.next] == COMMA && scan.next + 1 < |header| {
        DecidesMore(header[i..], tag, header[scan.next + 1..], matched, current);
      }
    }
  }

  /** One round of the loop: either the answer is known, or it is the one from position `next` on. */
  method ScanNext(header: seq<Byte>, i: nat, matches: bool, current: seq<Byte>, ghost current0: seq<Byte>)
    returns (answer: Option<bool>, next: nat, matched: bool)
    requires i < |header| && current == Strong(current0)
    ensures answer.Some? ==> (answer.value <==> Decides(header[i..], matches, current0))
    ensures answer.None? ==> i < next < |header|
    ensures answer.None? ==> (Decides(header[i..], matches, current0) <==> Decides(header[next..], matched, current0))
  {
    next, matched := i, matches;
    var scan := ScanElement(header, i);
    Advance(header, i, scan, matches, current0);
    if scan.Malformed? {
      return Some(false), next, matched;
    }
    matched := matches || header[scan.begin..scan.close + 1] == current;
    if scan.next == |header| {
      return Some(matched), next, matched;
    }
    next := scan.next + 1;
    answer := if header[scan.next] != COMMA || next == |header| then Some(false) else None;
  }

  /** One pass over the list: `matches` gathers what the elements before position i say. */
  method ScanList(header: seq<Byte>, current: seq<Byte>, ghost current0: seq<Byte>) returns (r: bool)
    requires current == Strong(current0)
    ensures r <==> Decides(header, false, current0)
  {
    var matches, i := false, 0;
    assert header[0..] == header;
    while i < |header|
      invariant i <= |header|
      invariant Decides(header, false, current0) <==> Decides(header[i..], matches, current0)
      invariant i == |header| ==> header == []
      decreases |header| - i
    {
      var answer, next, matched := ScanNext(header, i, matches, current, current0);
      if answer.Some? {
        return answer.value;
      }
      i, matches := next, matched;
    }
    return false;
  }

  method IfNoneMatch(header: seq<Byte>, current: seq<Byte>) returns (r: bool)
    ensures r <==> Validates(header, current)
  {
    ValidatesIffRead(header, current);
    var trimmed := TrimBlanks(header);
    if trimmed == [STAR] {
      return true;
    }
    var strong := current;
    if WEAK_PREFIX <= current {
      strong := current[2..];
    }
    r := ScanList(trimmed, strong, current);
  }

  // ----- Round trip ---------------------------------------------------------------------------------------

  lemma {:induction false} RenderTagEndsWithQuote(t: Tag)
    ensures RenderTag(t) != [] && RenderTag(t)[|RenderTag(t)| - 1] == QUOTE
    ensures !Blank(RenderTag(t)[0])
  {
  }

  lemma {:induction false} DroppedIsBlank(s: seq<Byte>)
    ensures var rest := DropLastBlanks(s); s == rest + s[|rest|..] && AllBlank(s[|rest|..])
  {
    if s != [] && Blank(s[|s| - 1]) {
      DroppedIsBlank(s[..|s| - 1]);
      var rest := DropLastBlanks(s);
      assert s[|rest|..] == s[..|s| - 1][|rest|..] + [s[|s| - 1]];
    }
  }

  lemma {:induction false} StrongOfRendered(t: Tag)
    ensures Strong(RenderTag(t)) == Quoted(t.text)
  {
    if t.weak {
      assert RenderTag(t)[2..] == Quoted(t.text);
    } else {
      assert RenderTag(t)[0] == QUOTE;
    }
  }

  predicate EndsVisible(s: seq<Byte>) {
    s != [] && !Blank(s[|s| - 1])
  }

  lemma {:induction false} DropsBehind(front: seq<Byte>, comma: seq<Byte>, all: seq<Byte>)
    requires EndsVisible(DropLastBlanks(all))
    ensures DropLastBlanks(front + (comma + all)) == front + (comma + DropLastBlanks(all))
    ensures EndsVisible(front + (comma + DropLastBlanks(all)))
  {
    var kept := DropLastBlanks(all);
    var blanks := all[|kept|..];
    DroppedIsBlank(all);
    DropsExactly(front + (comma + kept), blanks);
    assert front + (comma + all) == front + (comma + kept) + blanks;
  }

  lemma {:induction false} DropsBehindTag(e: Element)
    ensures AllBlank(e.after) ==> DropLastBlanks(RenderElement(e)) == RenderElement(e.(after := []))
    ensures EndsVisible(RenderElement(e.(after := [])))
  {
    RenderTagEndsWithQuote(e.tag);
    assert RenderElement(e.(after := [])) == e.before + RenderTag(e.tag);
    if AllBlank(e.after) {
      DropsExactly(e.before + RenderTag(e.tag), e.after);
    }
  }

  lemma {:induction false} RenderOne(e: Element)
    ensures Render([e]) == RenderElement(e)
  {
  }

  lemma {:induction false} DropsLastBlanks(es: seq<Element>) returns (es': seq<Element>)
    requires ValidList(es)
    ensures ValidList(es') && Tags(es') == Tags(es)
    ensures Render(es') == DropLastBlanks(Render(es)) && EndsVisible(Render(es'))
  {
    var e := es[0];
    if |es| == 1 {
      es' := [e.(after := [])];
      assert es == [e];
      RenderOne(e);
      RenderOne(e.(after := []));
      DropsBehindTag(e);
    } else {
      var rest := DropsLastBlanks(es[1..]);
      es' := [e] + rest;
      assert es == [e] + es[1..];
      ConsRendered(e, es[1..]);
      ConsRendered(e, rest);
      DropsBehind(RenderElement(e), [COMMA], Render(es[1..]));
    }
  }

  lemma {:induction false} SkipsFirstBlanks(es: seq<Element>) returns (es': seq<Element>)
    requires ValidList(es)
    ensures ValidList(es') && Tags(es') == Tags(es) && Render(es') == SkipBlanks(Render(es))
  {
    es' := [es[0].(before := [])] + es[1..];
    RenderTagEndsWithQuote(es[0].tag);
    assert es'[1..] == es[1..];
    assert Render(es') == RenderTag(es[0].tag) + es[0].after + RenderTail(es);
    assert Render(es) == es[0].before + Render(es');
    SkipsExactly(es[0].before, Render(es'));
  }

  /** Rendering any tag list, with any white space, and matching the result finds each member,
      whether or not the current tag carries the weakness indicator. */
  lemma {:induction false} RenderedListValidates(es: seq<Element>, k: nat, weak: bool)
    requires ValidList(es) && k < |es|
    ensures Validates(Render(es), RenderTag(Tag(weak, es[k].tag.text)))
  {
    var trimmed := SkipsFirstBlanks(es);
    trimmed := DropsLastBlanks(trimmed);
    var current := RenderTag(Tag(weak, es[k].tag.text));
    StrongOfRendered(Tag(weak, es[k].tag.text));
    assert Tags(trimmed)[k] == Tags(es)[k];
    assert Lists(trimmed, current);
  }

  lemma {:induction false} QuotedIsInjective(a: seq<Byte>, b: seq<Byte>)
    requires Quoted(a) == Quoted(b)
    ensures a == b
  {
    assert Quoted(a)[1..|a| + 1] == a && Quoted(b)[1..|b| + 1] == b;
  }

  /** A rendered list matches a rendered tag exactly if one of its members has the same text, whatever
      the weakness indicators and the white space. */
  lemma {:induction false} RenderedListValidatesIff(es: seq<Element>, t: Tag)
    requires ValidList(es)
    ensures Validates(Render(es), RenderTag(t)) <==> exists k :: 0 <= k < |es| && es[k].tag.text == t.text
  {
    if k :| 0 <= k < |es| && es[k].tag.text == t.text {
      RenderedListValidates(es, k, t.weak);
    }
    if Validates(Render(es), RenderTag(t)) {
      var trimmed := SkipsFirstBlanks(es);
      trimmed := DropsLastBlanks(trimmed);
      RenderedListIsRead(trimmed);
      StarIsNoList();
      ValidatesIffRead(Render(es), RenderTag(t));
      StrongOfRendered(t);
      var k :| 0 <= k < |Tags(es)| && Quoted(Tags(es)[k].text) == Quoted(t.text);
      QuotedIsInjective(es[k].tag.text, t.text);
    }
  }

  lemma {:induction false} StarIsNoList()
    ensures Parse([STAR]).None?
  {
    assert SkipBlanks([STAR]) == [STAR];
  }

  /** The characters between the quotes, as section 8.8.3 of RFC 9110 lists them for bytes. */
  lemma {:induction false} EtagCharsOfTheStandard(b: Byte)
    requires b <= '\U{FF}'
    ensures EtagChar(b) <==> b == '\U{21}' || '\U{23}' <= b <= '\U{7E}' || '\U{80}' <= b <= '\U{FF}'
  {
  }

  /** What rendered tags look like, byte by byte. */
  lemma {:induction false} TagsAreLiteral(text: seq<Byte>)
    ensures RenderTag(Tag(true, text)) == "W/\"" + text + "\""
    ensures RenderTag(Tag(false, text)) == "\"" + text + "\""
  {
    assert "W/\"" + text + "\"" == "W/" + ("\"" + text + "\"");
    assert "\"" == [QUOTE];
  }

  /** Two tags are separated by a comma, with any white space around them; a star stands alone. */
  lemma {:induction false} ListsAreLiteral(a: Tag, b: Tag, before: seq<Byte>, after: seq<Byte>, current: seq<Byte>)
    ensures forall b :: Blank(b) <==> b == ' ' || b == '\t'
    ensures Render([Element([], a, after), Element(before, b, [])])
         == RenderTag(a) + after + "," + before + RenderTag(b)
    ensures Validates(" *", current) && Validates("*\t", current)
  {
    var e, f := Element([], a, after), Element(before, b, []);
    var first, second := RenderElement(e), RenderElement(f);
    assert first == RenderTag(a) + after && second == before + RenderTag(b);
    RenderOne(f);
    assert [e, f][1..] == [f];
    assert Render([e, f]) == first + ([COMMA] + second);
    Regroup([], RenderTag(a) + after, [COMMA], before, RenderTag(b));
    StarIsTrimmed(" ", "");
    StarIsTrimmed("", "\t");
  }

  lemma {:induction false} StarIsTrimmed(before: seq<Byte>, after: seq<Byte>)
    requires AllBlank(before) && AllBlank(after)
    ensures Trim(before + ([STAR] + after)) == [STAR]
  {
    SkipsExactly(before, [STAR] + after);
    DropsExactly([STAR], after);
  }

  /** A list has one reading: two renderings of the same header carry the same tags. */
  lemma {:induction false} ListsAreUnambiguous(es: seq<Element>, fs: seq<Element>)
    requires ValidList(es) && ValidList(fs) && Render(es) == Render(fs)
    ensures Tags(es) == Tags(fs)
  {
    RenderedListIsRead(es);
    RenderedListIsRead(fs);
  }
}
