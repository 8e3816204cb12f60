/** What a thread shows of the text that was sent, told by the messages the agent sent alone: each kind of text in its own
    chunks, in the order it was sent. */
module StreamingKinds {
  import opened Options
  import opened StreamingText

  /** A byte that is shown, in a thought or a message, indented or not. */
  datatype Letter = Letter(isThought: bool, indented: bool, byte: Byte)

  function Letters(text: Bytes, isThought: bool, indented: bool): seq<Letter> {
    seq(|text|, i requires 0 <= i < |text| => Letter(isThought, indented, text[i]))
  }

  // ----- what was sent

  /** What text sent next may continue: text of this kind, which stands after a link or a picture alone (`lone`) or not. */
  datatype Tail = NoTail | Tail(isThought: bool, indented: bool, lone: bool)

  /** Links and pictures are blocks of their own until text follows them. */
  predicate StandsAlone(c: Content) {
    c.Link? || c == Image(true)
  }

  function TailAfter(tail: Tail, op: Op): Tail {
    match op
    case AgentSends(c, isThought, indented) =>
      Tail(isThought, indented, StandsAlone(c) && (tail.NoTail? || tail.isThought != isThought || tail.indented != indented))
    case OtherEntryPushed => NoTail
    case _ => tail
  }

  /** What a step adds to the thread. The text comes on a line of its own after a link or a picture of the same kind. */
  function SentBy(tail: Tail, op: Op): seq<Letter> {
    match op
    case AgentSends(c, isThought, indented) =>
      Letters(if tail == Tail(isThought, indented, true) then NEWLINE + Contents(c) else Contents(c), isThought, indented)
    case _ => []
  }

  function Sent(tail: Tail, ops: seq<Op>): seq<Letter>
    decreases |ops|
  {
    if ops == [] then [] else SentBy(tail, ops[0]) + Sent(TailAfter(tail, ops[0]), ops[1..])
  }

  // ----- what is shown

  /** A chunk and the indentation of its message. */
  datatype Piece = Piece(isThought: bool, indented: bool, block: Block)

  function PiecesOf(e: Entry): seq<Piece> {
    match e
    case Assistant(chunks, indented) =>
      seq(|chunks|, k requires 0 <= k < |chunks| => Piece(chunks[k].isThought, indented, chunks[k].block))
    case OtherEntry => []
  }

  function Pieces(entries: seq<Entry>): seq<Piece> {
    if entries == [] then [] else Pieces(entries[..|entries| - 1]) + PiecesOf(entries[|entries| - 1])
  }

  predicate IsTargetIn(b: Block, n: nat) {
    b.Markdown? ==> b.target < n
  }

  /** Every Markdown is shown by one chunk, and later ones by later chunks. */
  predicate Ascends(p: seq<Piece>, n: nat) {
    && (forall k | 0 <= k < |p| :: IsTargetIn(p[k].block, n))
    && (forall i, j | 0 <= i < j < |p| && p[j].block.Markdown? :: IsTargetIn(p[i].block, p[j].block.target))
  }

  function BlockText(sources: seq<Bytes>, b: Block): Bytes
    requires IsTargetIn(b, |sources|)
  {
    match b
    case Markdown(t) => sources[t]
    case LinkBlock(text) => text
    case Picture => IMAGE
  }

  function Joined(p: seq<Piece>, sources: seq<Bytes>): seq<Letter>
    requires Ascends(p, |sources|)
  {
    if p == [] then []
    else
      var last := p[|p| - 1];
      Joined(p[..|p| - 1], sources) + Letters(BlockText(sources, last.block), last.isThought, last.indented)
  }

  predicate Ordered(d: Shown) {
    TargetsIn(d.entries, |d.sources|) && Ascends(Pieces(d.entries), |d.sources|)
  }

  function ShownLetters(d: Shown): seq<Letter>
    requires Ordered(d)
  {
    Joined(Pieces(d.entries), d.sources)
  }

  function TailOf(entries: seq<Entry>): Tail {
    if entries == [] || entries[|entries| - 1].OtherEntry? || entries[|entries| - 1].chunks == [] then NoTail
    else
      var last := entries[|entries| - 1];
      var chunk := last.chunks[|last.chunks| - 1];
      Tail(chunk.isThought, last.indented, !chunk.block.Markdown?)
  }

  // ----- every step adds what was sent

  lemma {:induction false} JoinedAgrees(p: seq<Piece>, sources: seq<Bytes>, sources': seq<Bytes>)
    requires Ascends(p, |sources|) && Ascends(p, |sources'|)
    requires forall k | 0 <= k < |p| :: BlockText(sources, p[k].block) == BlockText(sources', p[k].block)
    ensures Joined(p, sources) == Joined(p, sources')
  {
    if p != [] {
      assert forall k | 0 <= k < |p| - 1 :: p[..|p| - 1][k] == p[k];
      JoinedAgrees(p[..|p| - 1], sources, sources');
    }
  }

  function Added(b: Block, c: Content): Bytes {
    if b.Markdown? then Contents(c) else NEWLINE + Contents(c)
  }

  lemma AppendedBlock(sources: seq<Bytes>, b: Block, c: Content)
    requires IsTargetIn(b, |sources|)
    ensures var (b', sources') := AppendToBlock(sources, b, c);
      && b'.Markdown? && b'.target < |sources'| && |sources| <= |sources'|
      && b'.target == (if b.Markdown? then b.target else |sources|)
      && BlockText(sources', b') == BlockText(sources, b) + Added(b, c)
      && (forall k | 0 <= k < |sources| && k != b'.target :: sources'[k] == sources[k])
  {
    hide IMAGE, NEWLINE;
    if b.LinkBlock? {
      assert b.text + NEWLINE + Contents(c) == b.text + (NEWLINE + Contents(c));
    } else if b.Picture? {
      assert IMAGE + NEWLINE + Contents(c) == IMAGE + (NEWLINE + Contents(c));
    }
  }

  lemma LastAscends(p: seq<Piece>, b: Block, n: nat, n': nat)
    requires p != [] && Ascends(p, n) && b.Markdown? && n <= n'
    requires if p[|p| - 1].block.Markdown? then b == p[|p| - 1].block else n <= b.target < n'
    ensures Ascends(p[..|p| - 1] + [p[|p| - 1].(block := b)], n')
  {
    var p' := p[..|p| - 1] + [p[|p| - 1].(block := b)];
    assert forall k | 0 <= k < |p| - 1 :: p'[k] == p[k];
  }

  lemma JoinedLast(front: seq<Piece>, last: Piece, sources: seq<Bytes>)
    requires Ascends(front + [last], |sources|)
    ensures Ascends(front, |sources|) && IsTargetIn(last.block, |sources|)
    ensures forall k | 0 <= k < |front| && front[k].block.Markdown? ::
      front[k].block.target < |sources| && (last.block.Markdown? ==> front[k].block.target < last.block.target)
    ensures Joined(front + [last], sources)
         == Joined(front, sources) + Letters(BlockText(sources, last.block), last.isThought, last.indented)
  {
    hide Letters;
    var p := front + [last];
    assert p[..|p| - 1] == front && p[|p| - 1] == last;
    assert forall k | 0 <= k < |front| :: p[k] == front[k];
  }

  /** The last piece shows more, at its old place or as a new Markdown. */
  lemma LastShowsMore(p: seq<Piece>, sources: seq<Bytes>, c: Content)
    requires p != [] && Ascends(p, |sources|)
    ensures var last := p[|p| - 1];
      var (b, sources') := AppendToBlock(sources, last.block, c);
      var p' := p[..|p| - 1] + [last.(block := b)];
      && Ascends(p', |sources'|) && b.Markdown?
      && Joined(p', sources') == Joined(p, sources) + Letters(Added(last.block, c), last.isThought, last.indented)
  {
    hide Letters, AppendToBlock, Added, Ascends, Joined;
    var front, last := p[..|p| - 1], p[|p| - 1];
    assert front + [last] == p;
    JoinedLast(front, last, sources);
    var (b, sources') := AppendToBlock(sources, last.block, c);
    AppendedBlock(sources, last.block, c);
    LastAscends(p, b, |sources|, |sources'|);
    JoinedLast(front, last.(block := b), sources');
    JoinedAgrees(front, sources, sources');
    LettersJoin(BlockText(sources, last.block), Added(last.block, c), last.isThought, last.indented);
  }

  lemma LettersJoin(a: Bytes, b: Bytes, isThought: bool, indented: bool)
    ensures Letters(a + b, isThought, indented) == Letters(a, isThought, indented) + Letters(b, isThought, indented)
  {
  }

  lemma NewPieceShows(p: seq<Piece>, sources: seq<Bytes>, c: Content, isThought: bool, indented: bool)
    requires Ascends(p, |sources|)
    ensures var (b, sources') := NewBlock(sources, c);
      var p' := p + [Piece(isThought, indented, b)];
      && Ascends(p', |sources'|) && (b.Markdown? <==> !StandsAlone(c))
      && Joined(p', sources') == Joined(p, sources) + Letters(Contents(c), isThought, indented)
  {
    hide Letters;
    var (b, sources') := NewBlock(sources, c);
    var p' := p + [Piece(isThought, indented, b)];
    assert p'[..|p'| - 1] == p;
    assert forall k | 0 <= k < |p| :: p'[k] == p[k];
    JoinedAgrees(p, sources, sources');
  }

  lemma LastEntry(entries: seq<Entry>, e: Entry)
    ensures entries != [] ==> Pieces(entries) == Pieces(entries[..|entries| - 1]) + PiecesOf(entries[|entries| - 1])
    ensures entries != [] ==> Pieces(entries[|entries| - 1 := e]) == Pieces(entries[..|entries| - 1]) + PiecesOf(e)
    ensures Pieces(entries + [e]) == Pieces(entries) + PiecesOf(e)
  {
    assert (entries + [e])[..|entries|] == entries;
    if entries != [] {
      assert entries[|entries| - 1 := e][..|entries| - 1] == entries[..|entries| - 1];
    }
  }

  lemma LastChunk(chunks: seq<Chunk>, c: Chunk, indented: bool)
    ensures PiecesOf(Assistant(chunks + [c], indented))
         == PiecesOf(Assistant(chunks, indented)) + [Piece(c.isThought, indented, c.block)]
    ensures chunks != [] ==>
      var p := PiecesOf(Assistant(chunks, indented));
      && |p| == |chunks| && p[|p| - 1] == Piece(chunks[|p| - 1].isThought, indented, chunks[|p| - 1].block)
      && PiecesOf(Assistant(chunks[|chunks| - 1 := c], indented)) == p[..|p| - 1] + [Piece(c.isThought, indented, c.block)]
  {
  }

  /** The piece that a step appends to, or where it puts a new one. */
  predicate AppendsToLast(entries: seq<Entry>, isThought: bool, indented: bool) {
    Continues(entries, indented) && ContinuesChunk(entries[|entries| - 1].chunks, isThought)
  }

  lemma TailTellsWhere(entries: seq<Entry>, isThought: bool, indented: bool)
    ensures var tail := TailOf(entries);
      AppendsToLast(entries, isThought, indented) <==> tail.Tail? && tail.isThought == isThought && tail.indented == indented
  {
  }

  /** The pieces after appending to the last. */
  lemma LastPieceReplaced(d: Shown, c: Content, isThought: bool, indented: bool)
    requires Ordered(d) && AppendsToLast(d.entries, isThought, indented)
    ensures var r, p := Append(d, c, isThought, indented), Pieces(d.entries);
      && p != [] && p[|p| - 1].isThought == isThought && p[|p| - 1].indented == indented
      && (p[|p| - 1].block.Markdown? <==> !TailOf(d.entries).lone) && IsTargetIn(p[|p| - 1].block, |d.sources|)
      && var (b, sources) := AppendToBlock(d.sources, p[|p| - 1].block, c);
         && r.sources == sources && Pieces(r.entries) == p[..|p| - 1] + [p[|p| - 1].(block := b)]
         && TailOf(r.entries) == Tail(isThought, indented, !b.Markdown?)
  {
    hide Pieces, PiecesOf, Ascends, AppendToBlock;
    var chunks := d.entries[|d.entries| - 1].chunks;
    var (b, sources) := AppendToBlock(d.sources, chunks[|chunks| - 1].block, c);
    var x := Chunk(isThought, b);
    LastEntry(d.entries, Assistant(chunks[|chunks| - 1 := x], indented));
    LastChunk(chunks, x, indented);
  }

  /** The pieces after adding one. */
  lemma PieceAdded(d: Shown, c: Content, isThought: bool, indented: bool)
    requires Ordered(d) && !AppendsToLast(d.entries, isThought, indented)
    ensures var r, (b, sources) := Append(d, c, isThought, indented), NewBlock(d.sources, c);
      && r.sources == sources && Pieces(r.entries) == Pieces(d.entries) + [Piece(isThought, indented, b)]
      && TailOf(r.entries) == Tail(isThought, indented, !b.Markdown?)
  {
    hide Pieces, PiecesOf, Ascends, NewBlock;
    var (b, sources) := NewBlock(d.sources, c);
    var x := Chunk(isThought, b);
    if Continues(d.entries, indented) {
      var chunks := d.entries[|d.entries| - 1].chunks;
      LastEntry(d.entries, Assistant(chunks + [x], indented));
      LastChunk(chunks, x, indented);
    } else {
      LastEntry(d.entries, Assistant([x], indented));
      LastChunk([], x, indented);
      assert [] + [x] == [x];
      NoPieces(indented);
    }
  }

  lemma NoPieces(indented: bool)
    ensures PiecesOf(Assistant([], indented)) == []
  {
  }

  lemma StepShows(d: Shown, op: Op)
    requires Ordered(d) && !op.EntriesRemoved?
    ensures var r := ShownNext(d, op);
      Ordered(r) && TailOf(r.entries) == TailAfter(TailOf(d.entries), op)
      && ShownLetters(r) == ShownLetters(d) + SentBy(TailOf(d.entries), op)
  {
    hide Letters, Append, Pieces, Joined, TailOf, Ascends, TargetsIn;
    ShownKeepsTargets(d, op);
    match op
    case AgentSends(c, isThought, indented) =>
      TailTellsWhere(d.entries, isThought, indented);
      if AppendsToLast(d.entries, isThought, indented) {
        LastPieceReplaced(d, c, isThought, indented);
        LastShowsMore(Pieces(d.entries), d.sources, c);
      } else {
        PieceAdded(d, c, isThought, indented);
        NewPieceShows(Pieces(d.entries), d.sources, c, isThought, indented);
      }
    case OtherEntryPushed =>
      LastEntry(d.entries, OtherEntry);
      assert Pieces(d.entries) + [] == Pieces(d.entries);
      OtherTail(d.entries);
    case _ =>
  }

  lemma OtherTail(entries: seq<Entry>)
    ensures TailOf(entries + [OtherEntry]) == NoTail
  {
  }

  lemma {:induction false} RunShows(d: Shown, ops: seq<Op>)
    requires Ordered(d) && forall k | 0 <= k < |ops| :: !ops[k].EntriesRemoved?
    ensures Ordered(ShownRun(d, ops))
    ensures ShownLetters(ShownRun(d, ops)) == ShownLetters(d) + Sent(TailOf(d.entries), ops)
    decreases |ops|
  {
    hide ShownNext, Ordered, ShownLetters, TailOf, SentBy, TailAfter;
    if ops != [] {
      assert !ops[0].EntriesRemoved?;
      StepShows(d, ops[0]);
      OrderedTargets(d);
      RunShows(ShownNext(d, ops[0]), ops[1..]);
    }
  }

  lemma OrderedTargets(d: Shown)
    requires Ordered(d)
    ensures TargetsIn(d.entries, |d.sources|)
  {
  }

  lemma OrderedStream(s: Stream)
    requires Inv(s)
    ensures Ordered(InTheEnd(s)) <==> Ascends(Pieces(s.entries), |s.sources|)
  {
  }

  /** Over every run without removed entries, the thread shows once flushed what it showed before and then, letter by letter and
      in the order it was sent, the text of the messages, in thoughts what was sent as a thought and in messages what was not,
      indented exactly if it was sent so. Ticks, flushes and where the blocks begin make no difference. */
  lemma TextIsShownAsSent(s: Stream, ops: seq<Op>)
    requires Inv(s) && Ordered(InTheEnd(s)) && forall k | 0 <= k < |ops| :: !ops[k].EntriesRemoved?
    ensures Inv(Run(s, ops)) && Ordered(InTheEnd(Run(s, ops)))
    ensures ShownLetters(InTheEnd(Run(s, ops))) == ShownLetters(InTheEnd(s)) + Sent(TailOf(s.entries), ops)
  {
    hide Ordered, ShownLetters, Inv, Run;
    TextIsConserved(s, ops);
    RunShows(InTheEnd(s), ops);
  }

  // ----- text alone, by kind

  /** The bytes of the kinds that `f` selects by whether it is a thought and whether it is indented. */
  function Selected(letters: seq<Letter>, f: (bool, bool) -> bool): Bytes {
    if letters == [] then []
    else (if f(letters[0].isThought, letters[0].indented) then [letters[0].byte] else []) + Selected(letters[1..], f)
  }

  /** What the chunks of these kinds show, one after the other. */
  function SourcesOf(p: seq<Piece>, sources: seq<Bytes>, f: (bool, bool) -> bool): Bytes
    requires Ascends(p, |sources|)
  {
    if p == [] then []
    else
      var last := p[|p| - 1];
      SourcesOf(p[..|p| - 1], sources, f) + if f(last.isThought, last.indented) then BlockText(sources, last.block) else []
  }

  /** The texts sent as these kinds, one after the other. */
  function TextsSent(ops: seq<Op>, f: (bool, bool) -> bool): Bytes {
    if ops == [] then []
    else
      (if ops[0].AgentSends? && f(ops[0].isThought, ops[0].indented) then Contents(ops[0].content) else []) + TextsSent(ops[1..], f)
  }

  lemma {:induction false} SelectedConcat(a: seq<Letter>, b: seq<Letter>, f: (bool, bool) -> bool)
    ensures Selected(a + b, f) == Selected(a, f) + Selected(b, f)
    decreases |a|
  {
    if a == [] {
      assert a + b == b;
    } else {
      assert (a + b)[1..] == a[1..] + b;
      SelectedConcat(a[1..], b, f);
    }
  }

  lemma {:induction false} SelectedLetters(text: Bytes, isThought: bool, indented: bool, f: (bool, bool) -> bool)
    ensures Selected(Letters(text, isThought, indented), f) == if f(isThought, indented) then text else []
    decreases |text|
  {
    if text != [] {
      assert Letters(text, isThought, indented)[1..] == Letters(text[1..], isThought, indented);
      SelectedLetters(text[1..], isThought, indented, f);
    }
  }

  lemma {:induction false} SelectedJoined(p: seq<Piece>, sources: seq<Bytes>, f: (bool, bool) -> bool)
    requires Ascends(p, |sources|)
    ensures Selected(Joined(p, sources), f) == SourcesOf(p, sources, f)
  {
    hide Letters, Selected;
    if p == [] {
      NoneSelected(f);
    } else {
      var last := p[|p| - 1];
      SelectedJoined(p[..|p| - 1], sources, f);
      SelectedConcat(Joined(p[..|p| - 1], sources), Letters(BlockText(sources, last.block), last.isThought, last.indented), f);
      SelectedLetters(BlockText(sources, last.block), last.isThought, last.indented, f);
    }
  }

  lemma NoneSelected(f: (bool, bool) -> bool)
    ensures Selected([], f) == []
  {
  }

  /** No links and no pictures. */
  predicate OnlyText(ops: seq<Op>) {
    forall k | 0 <= k < |ops| && ops[k].AgentSends? :: !StandsAlone(ops[k].content)
  }

  lemma {:induction false} SelectedSent(tail: Tail, ops: seq<Op>, f: (bool, bool) -> bool)
    requires OnlyText(ops) && (tail.Tail? ==> !tail.lone)
    ensures Selected(Sent(tail, ops), f) == TextsSent(ops, f)
    decreases |ops|
  {
    hide Letters, Selected, StandsAlone, Contents;
    NoneSelected(f);
    if ops != [] {
      assert ops[0].AgentSends? ==> !StandsAlone(ops[0].content);
      SelectedSent(TailAfter(tail, ops[0]), ops[1..], f);
      SelectedConcat(SentBy(tail, ops[0]), Sent(TailAfter(tail, ops[0]), ops[1..]), f);
      if ops[0].AgentSends? {
        SelectedLetters(Contents(ops[0].content), ops[0].isThought, ops[0].indented, f);
      }
    }
  }

  /** So in a new thread that is sent text alone, the sources of the message chunks, joined, are the texts sent as messages, those
      of the thoughts the texts sent as thoughts, and likewise for any choice of kinds and indentation. */
  lemma EachKindIsConserved(ops: seq<Op>, f: (bool, bool) -> bool)
    requires OnlyText(ops) && forall k | 0 <= k < |ops| :: !ops[k].EntriesRemoved?
    ensures var r := Run(Stream([], [], None), ops);
      Inv(r) && Ordered(InTheEnd(r)) && SourcesOf(Pieces(r.entries), Flush(r).sources, f) == TextsSent(ops, f)
  {
    var s := Stream([], [], None);
    assert Ordered(InTheEnd(s)) && ShownLetters(InTheEnd(s)) == [] && TailOf(s.entries) == NoTail;
    hide Letters, Selected, Run, Inv, Sent, SourcesOf, TextsSent, OnlyText;
    TextIsShownAsSent(s, ops);
    var r := Run(s, ops);
    assert ShownLetters(InTheEnd(r)) == Sent(NoTail, ops);
    SelectedJoined(Pieces(r.entries), Flush(r).sources, f);
    SelectedSent(NoTail, ops, f);
  }

  // ----- no more chunks than kinds change

  predicate ChunksAlternate(chunks: seq<Chunk>) {
    chunks != [] && forall k | 0 < k < |chunks| :: chunks[k - 1].isThought != chunks[k].isThought
  }

  /** No message of the assistant is empty; consecutive chunks of one differ in kind, and consecutive messages in indentation. */
  predicate Alternates(entries: seq<Entry>) {
    && (forall k | 0 <= k < |entries| && entries[k].Assistant? :: ChunksAlternate(entries[k].chunks))
    && (forall k | 0 < k < |entries| && entries[k - 1].Assistant? && entries[k].Assistant? ::
          entries[k - 1].indented != entries[k].indented)
  }

  lemma StepAlternates(d: Shown, op: Op)
    requires TargetsIn(d.entries, |d.sources|) && Alternates(d.entries)
    ensures Alternates(ShownNext(d, op).entries)
  {
    hide AppendToBlock, NewBlock;
  }

  /** Text is put into a new chunk or a new message only if it has to be, over every run, removed entries or not. */
  lemma {:induction false} ChunksAndMessagesAlternate(s: Stream, ops: seq<Op>)
    requires Inv(s) && Alternates(s.entries)
    ensures Alternates(Run(s, ops).entries)
    decreases |ops|
  {
    hide Alternates;
    if ops != [] {
      StepAlternates(InTheEnd(s), ops[0]);
      StreamingRefines(s, ops[0]);
      ChunksAndMessagesAlternate(Next(s, ops[0]), ops[1..]);
    }
  }
}
