/** The text of assistant messages, which is revealed gradually: what has come from the model but is not yet shown is held
    in a buffer that a timer drains. Text is bytes in UTF-8. */
module StreamingText {
  import opened Options

  type Byte = b: int | 0 <= b < 256

  type Bytes = seq<Byte>

  // ----- UTF-8

  predicate IsContinuation(b: Byte) { 0x80 <= b < 0xC0 }

  /** The length of a character by its first byte (table 3-7 of the Unicode Standard), or 0. */
  function CharLength(b: Byte): nat {
    if b < 0x80 then 1
    else if 0xC2 <= b < 0xE0 then 2
    else if 0xE0 <= b < 0xF0 then 3
    else if 0xF0 <= b < 0xF5 then 4
    else 0
  }

  /** A sequence of whole characters: each is a first byte and as many continuation bytes as it calls for. */
  predicate IsUtf8(s: Bytes)
    decreases |s|
  {
    s == [] ||
    var n := CharLength(s[0]);
    0 < n <= |s| && (forall k | 1 <= k < n :: IsContinuation(s[k])) && IsUtf8(s[n..])
  }

  predicate IsCharBoundary(s: Bytes, i: nat) {
    i == 0 || i == |s| || (i < |s| && !IsContinuation(s[i]))
  }

  /** The first character boundary at or after `i`. */
  function CeilCharBoundary(s: Bytes, i: nat): (n: nat)
    ensures n <= |s| && (i <= |s| ==> i <= n) && IsCharBoundary(s, n)
    decreases |s| - i
  {
    if i >= |s| then |s| else if IsCharBoundary(s, i) then i else CeilCharBoundary(s, i + 1)
  }

  /** Cutting text at a character boundary leaves text on both sides. */
  lemma {:induction false} CutsBetweenChars(s: Bytes, i: nat)
    requires IsUtf8(s) && i <= |s| && IsCharBoundary(s, i)
    ensures IsUtf8(s[..i]) && IsUtf8(s[i..])
    decreases |s|
  {
    if i == 0 {
      assert s[0..] == s;
    } else if i == |s| {
      assert s[..i] == s;
    } else {
      var n := CharLength(s[0]);
      assert i >= n;
      assert IsCharBoundary(s[n..], i - n) by {
        assert i > n ==> s[n..][i - n] == s[i];
      }
      CutsBetweenChars(s[n..], i - n);
      assert s[..i][n..] == s[n..][..i - n];
      assert s[i..] == s[n..][i - n..];
    }
  }

  lemma {:induction false} Utf8Concat(s: Bytes, t: Bytes)
    requires IsUtf8(s) && IsUtf8(t)
    ensures IsUtf8(s + t)
    decreases |s|
  {
    if s == [] {
      assert s + t == t;
    } else {
      var n := CharLength(s[0]);
      Utf8Concat(s[n..], t);
      assert (s + t)[n..] == s[n..] + t;
    }
  }

  // ----- blocks of content

  /** What the agent sends. A link has the text it is rendered as. */
  datatype Content = Text(text: Bytes) | Link(text: Bytes) | Image(decodes: bool) | Embedded(text: Bytes)

  /** A block shows a Markdown source, a link or a picture. */
  datatype Block = Markdown(target: nat) | LinkBlock(text: Bytes) | Picture

  datatype Chunk = Chunk(isThought: bool, block: Block)

  datatype Entry = Assistant(chunks: seq<Chunk>, indented: bool) | OtherEntry

  const IMAGE: Bytes := [0x60, 0x49, 0x6D, 0x61, 0x67, 0x65, 0x60]
  const NEWLINE: Bytes := [0x0A]

  function Contents(c: Content): Bytes {
    match c
    case Text(text) => text
    case Link(text) => text
    case Image(_) => IMAGE
    case Embedded(text) => text
  }

  function NewMarkdown(sources: seq<Bytes>, text: Bytes): (Block, seq<Bytes>) {
    (Markdown(|sources|), sources + [text])
  }

  function NewBlock(sources: seq<Bytes>, c: Content): (Block, seq<Bytes>) {
    match c
    case Link(text) => (LinkBlock(text), sources)
    case Image(true) => (Picture, sources)
    case _ => NewMarkdown(sources, Contents(c))
  }

  function AppendToBlock(sources: seq<Bytes>, b: Block, c: Content): (Block, seq<Bytes>)
    requires b.Markdown? ==> b.target < |sources|
  {
    match b
    case Markdown(t) => (b, sources[t := sources[t] + Contents(c)])
    case LinkBlock(text) => NewMarkdown(sources, text + NEWLINE + Contents(c))
    case Picture => NewMarkdown(sources, IMAGE + NEWLINE + Contents(c))
  }

  // ----- the simple form: everything is shown at once

  datatype Shown = Shown(entries: seq<Entry>, sources: seq<Bytes>)

  predicate Continues(entries: seq<Entry>, indented: bool) {
    entries != [] && entries[|entries| - 1].Assistant? && entries[|entries| - 1].indented == indented
  }

  predicate ContinuesChunk(chunks: seq<Chunk>, isThought: bool) {
    chunks != [] && chunks[|chunks| - 1].isThought == isThought
  }

  predicate TargetsIn(entries: seq<Entry>, n: nat) {
    forall i, j | 0 <= i < |entries| && entries[i].Assistant? && 0 <= j < |entries[i].chunks| ::
      entries[i].chunks[j].block.Markdown? ==> entries[i].chunks[j].block.target < n
  }

  /** Adds content to the last chunk, if that is of the same kind and in a message of the same indentation. */
  function Append(d: Shown, c: Content, isThought: bool, indented: bool): Shown
    requires TargetsIn(d.entries, |d.sources|)
  {
    if Continues(d.entries, indented) then
      var last := |d.entries| - 1;
      var chunks := d.entries[last].chunks;
      if ContinuesChunk(chunks, isThought) then
        var (b, sources) := AppendToBlock(d.sources, chunks[|chunks| - 1].block, c);
        Shown(d.entries[last := d.entries[last].(chunks := chunks[|chunks| - 1 := Chunk(isThought, b)])], sources)
      else
        var (b, sources) := NewBlock(d.sources, c);
        Shown(d.entries[last := d.entries[last].(chunks := chunks + [Chunk(isThought, b)])], sources)
    else
      var (b, sources) := NewBlock(d.sources, c);
      Shown(d.entries + [Assistant([Chunk(isThought, b)], indented)], sources)
  }

  // ----- the streaming form

  /** Text for the Markdown `target` that is not shown yet. A timer reveals `rate` bytes of it at a time. */
  datatype Buffer = Buffer(pending: Bytes, rate: nat, target: nat)

  datatype Stream = Stream(entries: seq<Entry>, sources: seq<Bytes>, buffer: Option<Buffer>)

  /** The timer ticks every 16 milliseconds, and all of the text is to be shown after 200. */
  function Rate(n: nat): nat {
    (16 * n + 199) / 200
  }

  function StreamingTarget(entries: seq<Entry>, isThought: bool, indented: bool): Option<nat> {
    if Continues(entries, indented) then
      var chunks := entries[|entries| - 1].chunks;
      if ContinuesChunk(chunks, isThought) && chunks[|chunks| - 1].block.Markdown?
      then Some(chunks[|chunks| - 1].block.target) else None
    else None
  }

  predicate Inv(s: Stream) {
    && TargetsIn(s.entries, |s.sources|)
    && (s.buffer.Some? ==> s.buffer.value.target < |s.sources|)
  }

  function Flush(s: Stream): (r: Stream)
    requires Inv(s)
    ensures Inv(r) && r.entries == s.entries && r.buffer.None? && |r.sources| == |s.sources|
  {
    match s.buffer
    case None => s
    case Some(b) => s.(sources := s.sources[b.target := s.sources[b.target] + b.pending], buffer := None)
  }

  function BufferText(s: Stream, target: nat, text: Bytes): Stream
    requires Inv(s)
  {
    if s.buffer.Some? && s.buffer.value.target == target then
      var pending := s.buffer.value.pending + text;
      s.(buffer := Some(Buffer(pending, Rate(|pending|), target)))
    else
      Flush(s).(buffer := Some(Buffer(text, Rate(|text|), target)))
  }

  function PushAssistant(s: Stream, c: Content, isThought: bool, indented: bool): Stream
    requires Inv(s)
  {
    var target := StreamingTarget(s.entries, isThought, indented);
    if c.Text? && target.Some? then BufferText(s, target.value, c.text)
    else
      var d := Append(Shown(s.entries, Flush(s).sources), c, isThought, indented);
      Stream(d.entries, d.sources, None)
  }

  function Tick(s: Stream): Stream
    requires Inv(s)
  {
    match s.buffer
    case None => s
    case Some(b) =>
      if b.pending == [] then s
      else
        var n := CeilCharBoundary(b.pending, b.rate);
        s.(sources := s.sources[b.target := s.sources[b.target] + b.pending[..n]],
           buffer := Some(b.(pending := b.pending[n..])))
  }

  /** Another entry is pushed, entries are removed from `from` on, or the turn ends or is cancelled (`FlushAll`). */
  datatype Op =
    | AgentSends(content: Content, isThought: bool, indented: bool)
    | TimerTicks
    | FlushAll
    | OtherEntryPushed
    | EntriesRemoved(from: nat)

  function Next(s: Stream, op: Op): Stream
    requires Inv(s)
  {
    match op
    case AgentSends(c, isThought, indented) => PushAssistant(s, c, isThought, indented)
    case TimerTicks => Tick(s)
    case FlushAll => Flush(s)
    case OtherEntryPushed => Flush(s).(entries := s.entries + [OtherEntry])
    case EntriesRemoved(n) => if n <= |s.entries| then s.(entries := s.entries[..n]) else s
  }

  /** What the simple form does: ticks and flushes do nothing. */
  function ShownNext(d: Shown, op: Op): Shown
    requires TargetsIn(d.entries, |d.sources|)
  {
    match op
    case AgentSends(c, isThought, indented) => Append(d, c, isThought, indented)
    case TimerTicks => d
    case FlushAll => d
    case OtherEntryPushed => d.(entries := d.entries + [OtherEntry])
    case EntriesRemoved(n) => if n <= |d.entries| then d.(entries := d.entries[..n]) else d
  }

  // ----- the streaming form shows the same in the end

  /** What is shown once the buffer has been flushed. */
  function InTheEnd(s: Stream): (d: Shown)
    requires Inv(s)
    ensures TargetsIn(d.entries, |d.sources|)
  {
    Shown(s.entries, Flush(s).sources)
  }

  lemma AppendKeepsTargets(d: Shown, c: Content, isThought: bool, indented: bool)
    requires TargetsIn(d.entries, |d.sources|)
    ensures var r := Append(d, c, isThought, indented);
      TargetsIn(r.entries, |r.sources|) && |d.sources| <= |r.sources|
  {
  }

  lemma StepKeepsInv(s: Stream, op: Op)
    requires Inv(s)
    ensures Inv(Next(s, op))
  {
    if op.AgentSends? {
      AppendKeepsTargets(InTheEnd(s), op.content, op.isThought, op.indented);
    }
  }

  lemma BufferTextShows(s: Stream, target: nat, text: Bytes)
    requires Inv(s) && target < |s.sources|
    ensures Inv(BufferText(s, target, text))
    ensures InTheEnd(BufferText(s, target, text))
         == Shown(s.entries, Flush(s).sources[target := Flush(s).sources[target] + text])
  {
    if s.buffer.Some? && s.buffer.value.target == target {
      var b := s.buffer.value;
      assert s.sources[target] + (b.pending + text) == s.sources[target] + b.pending + text;
    }
  }

  lemma AppendText(d: Shown, text: Bytes, isThought: bool, indented: bool)
    requires TargetsIn(d.entries, |d.sources|) && StreamingTarget(d.entries, isThought, indented).Some?
    ensures var t := StreamingTarget(d.entries, isThought, indented).value;
      t < |d.sources| && Append(d, Text(text), isThought, indented) == Shown(d.entries, d.sources[t := d.sources[t] + text])
  {
    var last := d.entries[|d.entries| - 1];
    assert last.chunks[|last.chunks| - 1 := last.chunks[|last.chunks| - 1]] == last.chunks;
    assert d.entries[|d.entries| - 1 := last] == d.entries;
  }

  lemma TickShows(s: Stream)
    requires Inv(s)
    ensures Inv(Tick(s)) && InTheEnd(Tick(s)) == InTheEnd(s)
  {
    if s.buffer.Some? {
      var b := s.buffer.value;
      var n := CeilCharBoundary(b.pending, b.rate);
      assert b.pending[..n] + b.pending[n..] == b.pending;
      assert s.sources[b.target] + b.pending[..n] + b.pending[n..] == s.sources[b.target] + (b.pending[..n] + b.pending[n..]);
    }
  }

  /** Streaming refines showing everything at once: whatever the order of chunks, ticks, switches of the target and
      flushes, flushing gives what the simple form shows. */
  lemma StreamingRefines(s: Stream, op: Op)
    requires Inv(s)
    ensures Inv(Next(s, op)) && InTheEnd(Next(s, op)) == ShownNext(InTheEnd(s), op)
  {
    hide CeilCharBoundary;
    StepKeepsInv(s, op);
    match op
    case AgentSends(c, isThought, indented) =>
      var target := StreamingTarget(s.entries, isThought, indented);
      if c.Text? && target.Some? {
        AppendText(InTheEnd(s), c.text, isThought, indented);
        BufferTextShows(s, target.value, c.text);
      }
    case TimerTicks => TickShows(s);
    case _ =>
  }

  function Run(s: Stream, ops: seq<Op>): Stream
    requires Inv(s)
    decreases |ops|
  {
    if ops == [] then s else StepKeepsInv(s, ops[0]); Run(Next(s, ops[0]), ops[1..])
  }

  ghost function ShownRun(d: Shown, ops: seq<Op>): Shown
    requires TargetsIn(d.entries, |d.sources|)
    decreases |ops|
  {
    if ops == [] then d
    else
      ShownKeepsTargets(d, ops[0]);
      ShownRun(ShownNext(d, ops[0]), ops[1..])
  }

  lemma ShownKeepsTargets(d: Shown, op: Op)
    requires TargetsIn(d.entries, |d.sources|)
    ensures TargetsIn(ShownNext(d, op).entries, |ShownNext(d, op).sources|)
  {
    if op.AgentSends? {
      AppendKeepsTargets(d, op.content, op.isThought, op.indented);
    }
  }

  predicate AllPrefixes(a: seq<Bytes>, b: seq<Bytes>) {
    |a| == |b| && forall k | 0 <= k < |a| :: a[k] <= b[k]
  }

  /** No text is lost, added or put in another order: over every run, what is shown of each block is a beginning of the text
      that was sent to it, and after a flush all of it. */
  lemma {:induction false} TextIsConserved(s: Stream, ops: seq<Op>)
    requires Inv(s)
    ensures Inv(Run(s, ops))
    ensures InTheEnd(Run(s, ops)) == ShownRun(InTheEnd(s), ops)
    ensures AllPrefixes(Run(s, ops).sources, ShownRun(InTheEnd(s), ops).sources)
    ensures Flush(Run(s, ops)).sources == ShownRun(InTheEnd(s), ops).sources
    decreases |ops|
  {
    if ops != [] {
      StreamingRefines(s, ops[0]);
      TextIsConserved(Next(s, ops[0]), ops[1..]);
    }
  }

  // ----- only whole characters are shown

  predicate WholeChars(s: Stream) {
    && (forall k | 0 <= k < |s.sources| :: IsUtf8(s.sources[k]))
    && (s.buffer.Some? ==> IsUtf8(s.buffer.value.pending))
    && (forall i, j | 0 <= i < |s.entries| && s.entries[i].Assistant? && 0 <= j < |s.entries[i].chunks| ::
          s.entries[i].chunks[j].block.LinkBlock? ==> IsUtf8(s.entries[i].chunks[j].block.text))
  }

  lemma FlushWholeChars(s: Stream)
    requires Inv(s) && WholeChars(s)
    ensures WholeChars(Flush(s))
  {
    hide IsUtf8;
    if s.buffer.Some? {
      Utf8Concat(s.sources[s.buffer.value.target], s.buffer.value.pending);
    }
  }

  lemma Utf8Constants(text: Bytes, c: Content)
    requires IsUtf8(text) && IsUtf8(Contents(c))
    ensures IsUtf8(IMAGE) && IsUtf8(text + NEWLINE + Contents(c)) && IsUtf8(IMAGE + NEWLINE + Contents(c))
  {
    IsAscii(IMAGE);
    IsAscii(NEWLINE);
    Utf8Concat(text, NEWLINE);
    Utf8Concat(text + NEWLINE, Contents(c));
    Utf8Concat(IMAGE, NEWLINE);
    Utf8Concat(IMAGE + NEWLINE, Contents(c));
  }

  lemma {:induction false} IsAscii(s: Bytes)
    requires forall k | 0 <= k < |s| :: s[k] < 0x80
    ensures IsUtf8(s)
    decreases |s|
  {
    if s != [] {
      IsAscii(s[1..]);
    }
  }

  lemma AppendWholeChars(s: Stream, c: Content, isThought: bool, indented: bool)
    requires Inv(s) && s.buffer.None? && WholeChars(s) && IsUtf8(Contents(c))
    ensures var d := Append(Shown(s.entries, s.sources), c, isThought, indented); WholeChars(Stream(d.entries, d.sources, None))
  {
    hide IsUtf8;
    Utf8Constants(Contents(c), c);
    if Continues(s.entries, indented) && ContinuesChunk(s.entries[|s.entries| - 1].chunks, isThought) {
      var chunks := s.entries[|s.entries| - 1].chunks;
      match chunks[|chunks| - 1].block
      case Markdown(t) => Utf8Concat(s.sources[t], Contents(c));
      case LinkBlock(text) => Utf8Constants(text, c);
      case Picture =>
    }
  }

  lemma TickWholeChars(s: Stream)
    requires Inv(s) && WholeChars(s)
    ensures WholeChars(Tick(s))
  {
    hide IsUtf8;
    if s.buffer.Some? {
      var b := s.buffer.value;
      var n := CeilCharBoundary(b.pending, b.rate);
      CutsBetweenChars(b.pending, n);
      Utf8Concat(s.sources[b.target], b.pending[..n]);
    }
  }

  /** If the agent sends whole characters, only whole characters are ever shown. */
  lemma {:induction false} RunWholeChars(s: Stream, ops: seq<Op>)
    requires Inv(s) && WholeChars(s)
    requires forall k | 0 <= k < |ops| && ops[k].AgentSends? :: IsUtf8(Contents(ops[k].content))
    ensures WholeChars(Run(s, ops))
    decreases |ops|
  {
    if ops != [] {
      StepKeepsInv(s, ops[0]);
      StepWholeChars(s, ops[0]);
      hide WholeChars, Inv, Next, IsUtf8;
      RunWholeChars(Next(s, ops[0]), ops[1..]);
    }
  }

  lemma StepWholeChars(s: Stream, op: Op)
    requires Inv(s) && WholeChars(s) && (op.AgentSends? ==> IsUtf8(Contents(op.content)))
    ensures WholeChars(Next(s, op))
  {
    hide IsUtf8, CeilCharBoundary;
    FlushWholeChars(s);
    match op
    case AgentSends(c, isThought, indented) =>
      var target := StreamingTarget(s.entries, isThought, indented);
      if c.Text? && target.Some? {
        if s.buffer.Some? {
          Utf8Concat(s.buffer.value.pending, c.text);
        }
      } else {
        AppendWholeChars(Flush(s), c, isThought, indented);
      }
    case TimerTicks => TickWholeChars(s);
    case _ =>
  }

  // ----- the text is shown in time

  function Ticks(ops: seq<Op>): nat {
    if ops == [] then 0 else (if ops[0].TimerTicks? then 1 else 0) + Ticks(ops[1..])
  }

  /** At most `n` bytes are pending, to be revealed `rate` at a time. */
  predicate AtMost(s: Stream, n: int, rate: nat) {
    s.buffer.None? || (s.buffer.value.rate == rate && (s.buffer.value.pending == [] || |s.buffer.value.pending| <= n))
  }

  lemma {:induction false} TicksReveal(s: Stream, ops: seq<Op>, n: int, rate: nat)
    requires Inv(s) && AtMost(s, n, rate) && forall k | 0 <= k < |ops| :: !ops[k].AgentSends?
    ensures AtMost(Run(s, ops), n - Ticks(ops) * rate, rate)
    decreases |ops|
  {
    if ops != [] {
      StepKeepsInv(s, ops[0]);
      var n' := if ops[0].TimerTicks? then n - rate else n;
      assert !ops[0].AgentSends?;
      TicksReveal(Next(s, ops[0]), ops[1..], n', rate);
      assert ops[0].TimerTicks? ==> Ticks(ops) * rate == rate + Ticks(ops[1..]) * rate;
    }
  }

  /** Thirteen ticks after the last text was sent to a block, whatever else happens, all of it is shown. */
  lemma ThirteenTicksShowAll(s: Stream, text: Bytes, isThought: bool, indented: bool, ops: seq<Op>)
    requires Inv(s) && StreamingTarget(s.entries, isThought, indented).Some?
    requires (forall k | 0 <= k < |ops| :: !ops[k].AgentSends?) && Ticks(ops) >= 13
    ensures Inv(Next(s, AgentSends(Text(text), isThought, indented)))
    ensures var t := Run(Next(s, AgentSends(Text(text), isThought, indented)), ops);
      && (t.buffer.None? || t.buffer.value.pending == [])
      && Inv(t) && InTheEnd(t).sources == t.sources
  {
    var op := AgentSends(Text(text), isThought, indented);
    StepKeepsInv(s, op);
    var s1 := Next(s, op);
    var b := s1.buffer.value;
    TicksReveal(s1, ops, |b.pending|, Rate(|b.pending|));
    RateTimesThirteen(|b.pending|, Ticks(ops));
    TextIsConserved(s1, ops);
    var t := Run(s1, ops);
    if t.buffer.Some? {
      var k := t.buffer.value.target;
      assert t.sources[k] + [] == t.sources[k] && t.sources[k := t.sources[k]] == t.sources;
    }
  }

  lemma RateTimesThirteen(n: nat, ticks: nat)
    requires ticks >= 13
    ensures n - ticks * Rate(n) <= 0
  {
    assert 200 * Rate(n) >= 16 * n;
    assert ticks * Rate(n) >= 13 * Rate(n);
  }

  /** Ticks alone reveal no more than the rate of text whose characters are single bytes. */
  lemma {:induction false} TicksLeave(s: Stream, n: nat)
    requires Inv(s) && s.buffer.Some? && |s.buffer.value.pending| > n * s.buffer.value.rate
    requires forall k | 0 <= k < |s.buffer.value.pending| :: s.buffer.value.pending[k] < 0x80
    ensures var t := Run(s, seq(n, _ => TimerTicks)); t.buffer.Some? && t.buffer.value.pending != []
    decreases n
  {
    if n > 0 {
      var ops, b := seq(n, _ => TimerTicks), s.buffer.value;
      assert ops[1..] == seq(n - 1, _ => TimerTicks);
      assert n * b.rate == (n - 1) * b.rate + b.rate;
      assert CeilCharBoundary(b.pending, b.rate) == b.rate;
      StepKeepsInv(s, ops[0]);
      TicksLeave(Next(s, ops[0]), n - 1);
    }
  }

  /** Twelve ticks may not be enough. */
  lemma TwelveTicksMayNot()
    ensures var text: Bytes := seq(200, _ => 0x61);
      var s := Stream([], [[]], Some(Buffer(text, Rate(|text|), 0)));
      Inv(s) && var t := Run(s, seq(12, _ => TimerTicks)); t.buffer.Some? && t.buffer.value.pending != []
  {
    var text: Bytes := seq(200, _ => 0x61);
    TicksLeave(Stream([], [[]], Some(Buffer(text, Rate(|text|), 0))), 12);
  }

  // ----- the thread as an object

  class AcpThread {
    var entries: seq<Entry>
    var sources: seq<Bytes>
    var buffer: Option<Buffer>

    function Abs(): Stream
      reads this
    {
      Stream(entries, sources, buffer)
    }

    predicate Valid()
      reads this
    {
      Inv(Abs())
    }

    constructor ()
      ensures Valid() && Abs() == Stream([], [], None)
    {
      entries, sources, buffer := [], [], None;
    }

    method FlushStreamingText()
      requires Valid()
      modifies this
      ensures Valid() && Abs() == Next(old(Abs()), FlushAll)
    {
      if buffer.Some? {
        var b := buffer.value;
        buffer := None;
        if b.pending != [] {
          sources := sources[b.target := sources[b.target] + b.pending];
        } else {
          assert sources[b.target] + [] == sources[b.target] && sources[b.target := sources[b.target]] == sources;
        }
      }
    }

    method BufferStreamingText(target: nat, text: Bytes)
      requires Valid() && target < |sources|
      modifies this
      ensures Valid() && Abs() == BufferText(old(Abs()), target, text)
    {
      BufferTextShows(Abs(), target, text);
      if buffer.Some? {
        if buffer.value.target == target {
          var pending := buffer.value.pending + text;
          buffer := Some(Buffer(pending, Rate(|pending|), target));
          return;
        }
        FlushStreamingText();
      }
      buffer := Some(Buffer(text, Rate(|text|), target));
    }

    method RevealTick()
      requires Valid()
      modifies this
      ensures Valid() && Abs() == Next(old(Abs()), TimerTicks)
    {
      if buffer.Some? && buffer.value.pending != [] {
        var b := buffer.value;
        var boundary := CeilCharBoundary(b.pending, b.rate);
        if boundary > |b.pending| {
          boundary := |b.pending|;
        }
        sources := sources[b.target := sources[b.target] + b.pending[..boundary]];
        buffer := Some(b.(pending := b.pending[boundary..]));
      }
    }

    method PushEntry(e: Entry)
      requires Valid() && (e.Assistant? ==> TargetsIn([e], |sources|))
      modifies this
      ensures Valid() && Abs() == Flush(old(Abs())).(entries := old(entries) + [e])
    {
      FlushStreamingText();
      entries := entries + [e];
    }

    method PushAssistantContentBlock(content: Content, isThought: bool, indented: bool)
      requires Valid()
      modifies this
      ensures Valid() && Abs() == Next(old(Abs()), AgentSends(content, isThought, indented))
    {
      hide CeilCharBoundary;
      StepKeepsInv(Abs(), AgentSends(content, isThought, indented));
      if content.Text? {
        var target := StreamingTarget(entries, isThought, indented);
        if target.Some? {
          BufferStreamingText(target.value, content.text);
          return;
        }
      }
      if Continues(entries, indented) {
        FlushStreamingText();
        var last := |entries| - 1;
        var chunks := entries[last].chunks;
        if ContinuesChunk(chunks, isThought) {
          var (block, appended) := AppendToBlock(sources, chunks[|chunks| - 1].block, content);
          sources := appended;
          entries := entries[last := entries[last].(chunks := chunks[|chunks| - 1 := Chunk(isThought, block)])];
        } else {
          var (block, added) := NewBlock(sources, content);
          sources := added;
          entries := entries[last := entries[last].(chunks := chunks + [Chunk(isThought, block)])];
        }
      } else {
        NewBlockThenFlush(Abs(), content);
        var (block, added) := NewBlock(sources, content);
        sources := added;
        PushEntry(Assistant([Chunk(isThought, block)], indented));
      }
    }
  }

  /** A block may be made before the buffer is flushed, or after. */
  lemma NewBlockThenFlush(s: Stream, c: Content)
    requires Inv(s)
    ensures var (b, added) := NewBlock(s.sources, c);
      && Inv(s.(sources := added)) && (b.Markdown? ==> b.target < |added|)
      && NewBlock(Flush(s).sources, c) == (b, Flush(s.(sources := added)).sources)
  {
    var (b, added) := NewBlock(s.sources, c);
    if s.buffer.Some? && added != s.sources {
      var t, text := s.buffer.value.target, s.buffer.value.pending;
      var created := added[|s.sources|];
      assert s.sources[t := s.sources[t] + text] + [created] == (s.sources + [created])[t := s.sources[t] + text];
    }
  }
}
