/** The edit agent: operations of a streamed diff become edits at anchors, which are applied in batches as they come. */
module EditAgents {
  import opened Patches
  import opened Buffers
  import opened Documents
  import opened Anchors
  import opened ActionLogs
  import opened ActionLogRuns
  import opened ActionLogObject

  datatype CharOperation = Insert(text: string) | Delete(bytes: nat) | Keep(bytes: nat)

  /** An edit whose start is biased to the right, like its end unless `endsLeft`. */
  datatype AnchoredEdit = AnchoredEdit(splice: Splice, endsLeft: bool)

  // ----- what a diff says

  /** How much of the old text the operations cover. */
  function OldLength(ops: seq<CharOperation>): nat {
    if ops == [] then 0
    else (match ops[0] case Insert(_) => 0 case Delete(n) => n case Keep(n) => n) + OldLength(ops[1..])
  }

  /** The new text that the operations spell, from position `i` of the old text on. */
  function NewText(ops: seq<CharOperation>, t: string, i: nat): string
    requires i + OldLength(ops) <= |t|
  {
    if ops == [] then ""
    else
      match ops[0]
      case Insert(text) => text + NewText(ops[1..], t, i)
      case Delete(n) => NewText(ops[1..], t, i + n)
      case Keep(n) => t[i..i + n] + NewText(ops[1..], t, i + n)
  }

  /** A diff of `a` and `b`. It deletes no empty text. */
  predicate IsDiff(ops: seq<CharOperation>, a: string, b: string) {
    && OldLength(ops) == |a| && NewText(ops, a, 0) == b
    && (forall k | 0 <= k < |ops| && ops[k].Delete? :: ops[k].bytes > 0)
  }

  // ----- the edits computed

  function EditsOf(ops: seq<CharOperation>, at: nat): seq<AnchoredEdit> {
    if ops == [] then []
    else
      match ops[0]
      case Insert(text) => [AnchoredEdit(Splice(Span(at, at), text), false)] + EditsOf(ops[1..], at)
      case Delete(n) => [AnchoredEdit(Splice(Span(at, at + n), ""), true)] + EditsOf(ops[1..], at + n)
      case Keep(n) => EditsOf(ops[1..], at + n)
  }

  function Concat<T>(chunks: seq<seq<T>>): seq<T> {
    if chunks == [] then [] else chunks[0] + Concat(chunks[1..])
  }

  lemma OldLengthOne(a: seq<CharOperation>)
    requires a != []
    ensures OldLength(a) == OldLength([a[0]]) + OldLength(a[1..])
    ensures OldLength([a[0]]) == match a[0] case Insert(_) => 0 case Delete(n) => n case Keep(n) => n
  {
    assert [a[0]][1..] == [];
  }

  /** Sends the edits for the operations that each pushed chunk gives, and for those that finishing gives. */
  method ComputeEdits(pushed: seq<seq<CharOperation>>, finish: seq<CharOperation>, start: nat) returns (edits: seq<AnchoredEdit>)
    ensures edits == EditsOf(Concat(pushed + [finish]), start)
  {
    hide EditsOf, Concat, OldLength;
    ghost var chunks := pushed + [finish];
    edits := [];
    var editStart, chunk, done := start, 0, false;
    StreamStarts(chunks);
    while !done
      invariant chunk <= |pushed| + 1 && done == (chunk == |pushed| + 1)
      invariant edits + EditsOf(Concat(chunks[chunk..]), editStart) == EditsOf(Concat(chunks), start)
      decreases |pushed| + 1 - chunk
    {
      var charOperations;
      if chunk < |pushed| {
        charOperations := pushed[chunk];
      } else {
        done := true;
        charOperations := finish;
      }
      StreamChunk(chunks, chunk);
      ghost var later := Concat(chunks[chunk + 1..]);
      for k := 0 to |charOperations|
        invariant edits + EditsOf(charOperations[k..] + later, editStart) == EditsOf(Concat(chunks), start)
      {
        StreamOperation(charOperations, k, later, editStart);
        match charOperations[k] {
          case Insert(text) =>
            edits := edits + [AnchoredEdit(Splice(Span(editStart, editStart), text), false)];
          case Delete(bytes) =>
            var editEnd := editStart + bytes;
            edits := edits + [AnchoredEdit(Splice(Span(editStart, editEnd), ""), true)];
            editStart := editEnd;
          case Keep(bytes) =>
            editStart := editStart + bytes;
        }
      }
      StreamOperationsEnd(charOperations, later);
      chunk := chunk + 1;
    }
    StreamEnds(chunks, editStart);
    assert edits + [] == edits;
  }

  lemma StreamStarts(chunks: seq<seq<CharOperation>>)
    ensures chunks[0..] == chunks
  {
  }

  lemma StreamChunk(chunks: seq<seq<CharOperation>>, k: nat)
    requires k < |chunks|
    ensures Concat(chunks[k..]) == chunks[k][0..] + Concat(chunks[k + 1..])
  {
    assert chunks[k..][1..] == chunks[k + 1..] && chunks[k][0..] == chunks[k];
  }

  lemma StreamOperation(ops: seq<CharOperation>, k: nat, later: seq<CharOperation>, at: nat)
    requires k < |ops|
    ensures EditsOf(ops[k..] + later, at) ==
      match ops[k]
      case Insert(text) => [AnchoredEdit(Splice(Span(at, at), text), false)] + EditsOf(ops[k + 1..] + later, at)
      case Delete(n) => [AnchoredEdit(Splice(Span(at, at + n), ""), true)] + EditsOf(ops[k + 1..] + later, at + n)
      case Keep(n) => EditsOf(ops[k + 1..] + later, at + n)
  {
    assert (ops[k..] + later)[1..] == ops[k + 1..] + later;
  }

  lemma StreamOperationsEnd(ops: seq<CharOperation>, later: seq<CharOperation>)
    ensures ops[|ops|..] + later == later
  {
  }

  lemma StreamEnds(chunks: seq<seq<CharOperation>>, at: nat)
    ensures EditsOf(Concat(chunks[|chunks|..]), at) == []
  {
  }

  // ----- what the edits do to the snapshot

  function SplicesOf(edits: seq<AnchoredEdit>): Splices {
    if edits == [] then [] else [edits[0].splice] + SplicesOf(edits[1..])
  }

  lemma NoOperations(t: string, i: nat)
    requires i <= |t|
    ensures OldLength([]) == 0 && NewText([], t, i) == ""
  {
  }

  lemma FirstOperation(ops: seq<CharOperation>, t: string, i: nat)
    requires ops != [] && i + OldLength(ops) <= |t|
    ensures match ops[0]
      case Insert(text) =>
        && OldLength(ops) == OldLength(ops[1..]) && NewText(ops, t, i) == text + NewText(ops[1..], t, i)
        && EditsOf(ops, i) == [AnchoredEdit(Splice(Span(i, i), text), false)] + EditsOf(ops[1..], i)
      case Delete(n) =>
        && OldLength(ops) == n + OldLength(ops[1..]) && NewText(ops, t, i) == NewText(ops[1..], t, i + n)
        && EditsOf(ops, i) == [AnchoredEdit(Splice(Span(i, i + n), ""), true)] + EditsOf(ops[1..], i + n)
      case Keep(n) =>
        && OldLength(ops) == n + OldLength(ops[1..]) && NewText(ops, t, i) == t[i..i + n] + NewText(ops[1..], t, i + n)
        && EditsOf(ops, i) == EditsOf(ops[1..], i + n)
  {
  }

  lemma {:induction false} EditsSpell(ops: seq<CharOperation>, t: string, i: nat)
    requires i + OldLength(ops) <= |t|
    ensures InOrder(SplicesOf(EditsOf(ops, i)), t, i)
    ensures SpliceFrom(SplicesOf(EditsOf(ops, i)), t, i) == NewText(ops, t, i) + t[i + OldLength(ops)..]
  {
    hide InOrder, SpliceFrom, SplicesOf, NewText, OldLength, EditsOf;
    if ops == [] {
      NoOperations(t, i);
      NothingSpelled(t, i);
    } else {
      FirstOperation(ops, t, i);
      var later, rest := ops[1..], t[i + OldLength(ops)..];
      match ops[0]
      case Insert(text) =>
        EditsSpell(later, t, i);
        SplicesOfCons(AnchoredEdit(Splice(Span(i, i), text), false), EditsOf(later, i));
        SpliceCons(Splice(Span(i, i), text), SplicesOf(EditsOf(later, i)), t, i);
        Joins(t, i, text, NewText(later, t, i), rest);
      case Delete(n) =>
        EditsSpell(later, t, i + n);
        SplicesOfCons(AnchoredEdit(Splice(Span(i, i + n), ""), true), EditsOf(later, i + n));
        SpliceCons(Splice(Span(i, i + n), ""), SplicesOf(EditsOf(later, i + n)), t, i);
        Joins(t, i, "", NewText(later, t, i + n), rest);
      case Keep(n) =>
        EditsSpell(later, t, i + n);
        SkipInOrder(SplicesOf(EditsOf(later, i + n)), t, i, i + n);
        assert t[i..i + n] + (NewText(later, t, i + n) + rest) == t[i..i + n] + NewText(later, t, i + n) + rest;
    }
  }

  lemma NothingSpelled(t: string, i: nat)
    requires i <= |t|
    ensures InOrder(SplicesOf(EditsOf([], i)), t, i) && SpliceFrom(SplicesOf(EditsOf([], i)), t, i) == "" + t[i..]
  {
  }

  lemma Joins(t: string, i: nat, text: string, new1: string, rest: string)
    requires i <= |t|
    ensures t[i..i] + text + (new1 + rest) == text + new1 + rest
    ensures "" + new1 == new1
  {
  }

  lemma SplicesOfCons(e: AnchoredEdit, edits: seq<AnchoredEdit>)
    ensures SplicesOf([e] + edits) == [e.splice] + SplicesOf(edits) && SplicesOf([e] + edits)[1..] == SplicesOf(edits)
  {
  }

  lemma {:induction false} NewTextOfSlice(ops: seq<CharOperation>, t: string, i: nat, start: nat, end: nat)
    requires start <= end <= |t| && i + OldLength(ops) <= end - start
    ensures NewText(ops, t, start + i) == NewText(ops, t[start..end], i)
  {
    hide NewText, OldLength;
    if ops == [] {
      NoOperations(t, start + i);
      NoOperations(t[start..end], i);
    } else {
      FirstOperation(ops, t, start + i);
      FirstOperation(ops, t[start..end], i);
      match ops[0]
      case Insert(_) =>
        NewTextOfSlice(ops[1..], t, i, start, end);
      case Delete(n) =>
        NewTextOfSlice(ops[1..], t, i + n, start, end);
      case Keep(n) =>
        NewTextOfSlice(ops[1..], t, i + n, start, end);
        SliceOfSlice(t, start, end, i, i + n);
    }
  }

  lemma SliceOfSlice(t: string, start: nat, end: nat, i: nat, j: nat)
    requires start <= end <= |t| && i <= j <= end - start
    ensures t[start + i..start + j] == t[start..end][i..j]
  {
    var a, b := t[start + i..start + j], t[start..end][i..j];
    assert |a| == |b| && forall k | 0 <= k < |a| :: a[k] == b[k];
  }

  /** The edits computed from a diff of a range of the snapshot replace that range by the new text. */
  lemma EditsReplaceRange(ops: seq<CharOperation>, t: string, start: nat, end: nat, newText: string)
    requires start <= end <= |t| && IsDiff(ops, t[start..end], newText)
    ensures var edits := SplicesOf(EditsOf(ops, start));
      InOrder(edits, t, 0) && SpliceFrom(edits, t, 0) == t[..start] + newText + t[end..]
  {
    EditsSpell(ops, t, start);
    NewTextOfSlice(ops, t, 0, start, end);
    SkipInOrder(SplicesOf(EditsOf(ops, start)), t, 0, start);
    assert t[..start] + (newText + t[end..]) == t[..start] + newText + t[end..];
  }

  // ----- applying them in batches

  /** Where the anchors of an edit are once the buffer has made other edits. */
  function CarryEdit(made: Splices, e: AnchoredEdit): AnchoredEdit {
    e.(splice := Splice(Span(Carry(made, e.splice.range.start, false), Carry(made, e.splice.range.end, e.endsLeft)), e.splice.text))
  }

  function CarryEdits(made: Splices, edits: seq<AnchoredEdit>): (r: seq<AnchoredEdit>)
    ensures |r| == |edits|
  {
    if edits == [] then [] else [CarryEdit(made, edits[0])] + CarryEdits(made, edits[1..])
  }

  function Shifted(edits: seq<AnchoredEdit>, d: int): seq<AnchoredEdit> {
    if edits == [] then []
    else [edits[0].(splice := Splice(edits[0].splice.range.Shift(d), edits[0].splice.text))] + Shifted(edits[1..], d)
  }

  /** An edit that ends left of a character covers some. */
  predicate EndsCover(edits: seq<AnchoredEdit>) {
    forall k | 0 <= k < |edits| && edits[k].endsLeft :: edits[k].splice.range.start < edits[k].splice.range.end
  }

  lemma {:induction false} DiffEndsCover(ops: seq<CharOperation>, at: nat)
    requires forall k | 0 <= k < |ops| && ops[k].Delete? :: ops[k].bytes > 0
    ensures EndsCover(EditsOf(ops, at))
  {
    if ops != [] {
      DiffEndsCover(ops[1..], at + OldLength([ops[0]]));
      OldLengthOne(ops);
    }
  }

  function SplicesGrowth(made: Splices): int {
    if made == [] then 0 else Growth(made[0]) + SplicesGrowth(made[1..])
  }

  lemma {:induction false} GrowthIsLength(made: Splices, t: string, i: int)
    requires InOrder(made, t, i)
    ensures |SpliceFrom(made, t, i)| == |t| - i + SplicesGrowth(made)
  {
    if made != [] {
      GrowthIsLength(made[1..], t, made[0].range.end);
    }
  }

  predicate AllEndBy(made: Splices, x: int) {
    forall k | 0 <= k < |made| :: made[k].range.end <= x
  }

  /** A position at the end of everything that was edited, or behind it, moves by the growth of the text, unless it is
      biased to the left and touches an edit. */
  lemma {:induction false} CarryPast(made: Splices, t: string, i: int, p: int, left: bool)
    requires InOrder(made, t, i) && AllEndBy(made, if left then p - 1 else p)
    ensures Carry(made, p, left) == p + SplicesGrowth(made) || (!left && made != [] && !Apart(made))
  {
    if made != [] {
      var e := made[0];
      assert forall k | 0 <= k < |made[1..]| :: made[1..][k] == made[k + 1];
      if p <= e.range.end {
        if made[1..] != [] {
          assert made[1].range.end <= p;
          InOrderWithin(made[1..], t, e.range.end);
          assert made[1] == made[1..][0];
        }
      } else {
        CarryPast(made[1..], t, e.range.end, p, left);
        if Apart(made) {
          ApartTail(made);
        }
      }
    }
  }

  /** Coalesced edits end no later than the edits. */
  lemma {:induction false} CoalescedEnds(edits: Splices, x: int)
    requires AllEndBy(edits, x)
    ensures AllEndBy(Coalesced(edits), x)
  {
    if edits != [] {
      assert forall k | 0 <= k < |edits[1..]| :: edits[1..][k] == edits[k + 1];
      if edits[0].IsNothing() {
        CoalescedEnds(edits[1..], x);
      } else {
        CoalesceWithEnds(edits[0], edits[1..], x);
      }
    }
  }

  lemma {:induction false} CoalesceWithEnds(cur: Splice, rest: Splices, x: int)
    requires cur.range.end <= x && AllEndBy(rest, x)
    ensures AllEndBy(CoalesceWith(cur, rest), x)
    decreases |rest|
  {
    if rest != [] {
      assert forall k | 0 <= k < |rest[1..]| :: rest[1..][k] == rest[k + 1];
      if rest[0].IsNothing() {
        CoalesceWithEnds(cur, rest[1..], x);
      } else if cur.range.end >= rest[0].range.start {
        CoalesceWithEnds(Join(cur, rest[0]), rest[1..], x);
      } else {
        CoalesceWithEnds(rest[0], rest[1..], x);
      }
    }
  }

  /** The edits still to come move by what the batch grew. */
  lemma {:induction false} CarryIsShift(made: Splices, edits: seq<AnchoredEdit>, t: string, x: int)
    requires InOrder(made, t, 0) && AllEndBy(made, x) && Apart(made)
    requires InOrder(SplicesOf(edits), t, x) && EndsCover(edits)
    ensures CarryEdits(made, edits) == Shifted(edits, SplicesGrowth(made))
    decreases |edits|
  {
    if edits != [] {
      var e := edits[0];
      assert forall k | 0 <= k < |edits[1..]| :: edits[1..][k] == edits[k + 1];
      CarryPast(made, t, 0, e.splice.range.start, false);
      CarryPast(made, t, 0, e.splice.range.end, e.endsLeft);
      CarryIsShift(made, edits[1..], t, e.splice.range.end);
    }
  }

  /** The positions of an edit still to come are those of its anchors: the characters these belong to lie behind all that the
      batch replaces, so the anchors are carried to the anchors of the carried positions. */
  lemma PendingAnchorsStay(doc: Document, v: nat, made: Splices, front: set<nat>, x: int, e: AnchoredEdit)
    requires KnownBy(doc, v) && Apart(made) && InOrder(made, TextAt(doc, v), 0) && AllEndBy(made, x)
    requires 0 <= x <= e.splice.range.start && Within(e.splice.range, TextAt(doc, v))
    requires e.endsLeft ==> e.splice.range.start < e.splice.range.end
    ensures var changes, r, r' := ChangesOf(doc, v, made, front, 0), e.splice.range, CarryEdit(made, e).splice.range;
      var d := Rewritten(doc, changes, v);
      && RightGap(changes, BeforeChar(doc, v, r.start)) == BeforeChar(d, v + 1, r'.start)
      && (if e.endsLeft then LeftGap(changes, AfterChar(doc, v, r.end)) == AfterChar(d, v + 1, r'.end)
          else RightGap(changes, BeforeChar(doc, v, r.end)) == BeforeChar(d, v + 1, r'.end))
  {
    AnchorsStay(doc, v, made, front, e.splice.range.start);
    AnchorsStay(doc, v, made, front, e.splice.range.end);
  }

  lemma {:induction false} SplicesOfConcat(a: seq<AnchoredEdit>, b: seq<AnchoredEdit>)
    ensures SplicesOf(a + b) == SplicesOf(a) + SplicesOf(b)
  {
    if a == [] {
      assert a + b == b;
    } else {
      assert (a + b)[1..] == a[1..] + b;
      SplicesOfConcat(a[1..], b);
    }
  }

  lemma {:induction false} ShiftedSplices(edits: seq<AnchoredEdit>, t: string, i: nat, pre: string)
    requires InOrder(SplicesOf(edits), t, i)
    ensures var moved := SplicesOf(Shifted(edits, |pre| - i));
      && InOrder(moved, pre + t[i..], |pre|)
      && SpliceFrom(moved, pre + t[i..], |pre|) == SpliceFrom(SplicesOf(edits), t, i)
  {
    hide InOrder, SpliceFrom, SplicesOf;
    InOrderBounds(SplicesOf(edits), t, i);
    var u, d := pre + t[i..], |pre| - i;
    if edits == [] {
      NoEdits();
      NoSplicesFrom(t, i);
      NoSplicesFrom(u, |pre|);
    } else {
      var e := edits[0].splice;
      SplicesOfCons(edits[0], edits[1..]);
      assert edits == [edits[0]] + edits[1..];
      FirstSplice(SplicesOf(edits), t, i);
      var pre' := pre + t[i..e.range.end];
      PrefixGrows(pre, t, i, e.range.start, e.range.end);
      ShiftedSplices(edits[1..], t, e.range.end, pre');
      SplicesOfCons(Shifted(edits, d)[0], Shifted(edits[1..], d));
      SpliceCons(Splice(e.range.Shift(d), e.text), SplicesOf(Shifted(edits[1..], d)), u, |pre|);
    }
  }

  lemma InOrderBounds(edits: Splices, t: string, i: int)
    requires InOrder(edits, t, i)
    ensures 0 <= i <= |t|
  {
  }

  lemma NoEdits()
    ensures SplicesOf([]) == []
  {
  }

  lemma PrefixGrows(pre: string, t: string, i: nat, j: nat, k: nat)
    requires i <= j <= k <= |t|
    ensures pre + t[i..] == pre + t[i..k] + t[k..] && |pre + t[i..k]| - k == |pre| - i
    ensures (pre + t[i..])[|pre|..j + |pre| - i] == t[i..j]
  {
  }

  /** Making the first edits and then the others, moved, is making all at once. `x` is where the first edits end. */
  lemma {:induction false} BatchFirst(batch: Splices, rest: seq<AnchoredEdit>, t: string, i: nat, pre: string) returns (x: int)
    requires InOrder(batch + SplicesOf(rest), t, i)
    ensures InOrder(batch, t, i) && i <= x && AllEndBy(batch, x) && InOrder(SplicesOf(rest), t, x)
    ensures var u := pre + SpliceFrom(batch, t, i);
      var moved := SplicesOf(Shifted(rest, |u| - |t|));
      && InOrder(moved, u, |pre|)
      && SpliceFrom(moved, u, |pre|) == SpliceFrom(batch + SplicesOf(rest), t, i)
  {
    hide SplicesOf, Shifted, InOrder, SpliceFrom;
    if batch == [] {
      x := i;
      InOrderBounds(batch + SplicesOf(rest), t, i);
      assert batch + SplicesOf(rest) == SplicesOf(rest);
      NoSplicesFrom(t, i);
      ShiftedSplices(rest, t, i, pre);
    } else {
      FirstSplice(batch + SplicesOf(rest), t, i);
      var e, later := batch[0], batch[1..];
      var all := later + SplicesOf(rest);
      assert batch + SplicesOf(rest) == [e] + all && batch == [e] + later && ([e] + all)[1..] == all;
      var gap := t[i..e.range.start];
      var pre' := pre + gap + e.text;
      x := BatchFirst(later, rest, t, e.range.end, pre');
      assert forall k | 0 < k < |batch| :: batch[k] == later[k - 1];
      SpliceCons(e, later, t, i);
      SpliceCons(e, all, t, i);
      var tail := SpliceFrom(later, t, e.range.end);
      FollowsPrefix(pre, gap, e.text, tail);
      SkipInOrder(SplicesOf(Shifted(rest, |pre' + tail| - |t|)), pre' + tail, |pre|, |pre'|);
    }
  }

  lemma FollowsPrefix(pre: string, gap: string, text: string, tail: string)
    ensures pre + (gap + text + tail) == pre + gap + text + tail
    ensures (pre + gap + text + tail)[|pre|..|pre + gap + text|] == gap + text
  {
  }

  lemma {:induction false} ShiftedEndsCover(edits: seq<AnchoredEdit>, d: int)
    requires EndsCover(edits)
    ensures EndsCover(Shifted(edits, d))
  {
    if edits != [] {
      assert forall k | 0 <= k < |edits[1..]| :: edits[1..][k] == edits[k + 1];
      ShiftedEndsCover(edits[1..], d);
    }
  }

  /** One batch: the buffer makes it, and the anchors of the edits still to come move along. */
  lemma BatchStep(edits: seq<AnchoredEdit>, n: nat, t: string)
    requires n <= |edits| && InOrder(SplicesOf(edits), t, 0) && EndsCover(edits)
    ensures InOrder(SplicesOf(edits[..n]), t, 0) && InOrder(Coalesced(SplicesOf(edits[..n])), t, 0)
    ensures var made := Coalesced(SplicesOf(edits[..n]));
      var t', rest := SpliceFrom(made, t, 0), CarryEdits(made, edits[n..]);
      && InOrder(SplicesOf(rest), t', 0) && EndsCover(rest)
      && SpliceFrom(SplicesOf(rest), t', 0) == SpliceFrom(SplicesOf(edits), t, 0)
  {
    var batch, rest := edits[..n], edits[n..];
    assert edits == batch + rest;
    SplicesOfConcat(batch, rest);
    var x := BatchFirst(SplicesOf(batch), rest, t, 0, "");
    CoalescedInOrder(SplicesOf(batch), t, 0);
    CoalescedEnds(SplicesOf(batch), x);
    var made := Coalesced(SplicesOf(batch));
    CarryIsShift(made, rest, t, x);
    GrowthIsLength(made, t, 0);
    ShiftedEndsCover(rest, SplicesGrowth(made));
    assert "" + SpliceFrom(made, t, 0) == SpliceFrom(made, t, 0);
  }

  /** How many edits a batch has, and where the buffer puts their texts. */
  datatype Batch = Batch(size: nat, front: set<nat>)

  predicate AreBatches(batches: seq<Batch>) {
    forall k | 0 <= k < |batches| :: 0 !in batches[k].front
  }

  /** Applies the edits in any batches to the buffer of an action log, telling the log of each. The edits that are ready form
      the next batch; when no more batches are given, the rest does. */
  method ApplyInBatches(log: ActionLog, edits: seq<AnchoredEdit>, batches: seq<Batch>)
    requires log.Valid() && InOrder(SplicesOf(edits), log.buffer, 0) && EndsCover(edits) && AreBatches(batches)
    modifies log.Repr()
    ensures log.Valid() && fresh(log.Repr() - old(log.Repr()))
    ensures log.buffer == SpliceFrom(SplicesOf(edits), old(log.buffer), 0)
  {
    hide InOrder, SpliceFrom, EndsCover, Coalesced, CarryEdits, SplicesOf, Inv;
    var pending, k := edits, 0;
    while pending != []
      invariant log.Valid() && fresh(log.Repr() - old(log.Repr())) && k <= |batches|
      invariant InOrder(SplicesOf(pending), log.buffer, 0) && EndsCover(pending)
      invariant SpliceFrom(SplicesOf(pending), log.buffer, 0) == SpliceFrom(SplicesOf(edits), old(log.buffer), 0)
      decreases |batches| - k, |pending|
    {
      var n, front: set<nat> := |pending|, {};
      if k < |batches| {
        n, front := if batches[k].size < |pending| then batches[k].size else |pending|, batches[k].front;
        k := k + 1;
      }
      BatchStep(pending, n, log.buffer);
      if n > 0 {
        ghost var before := log.Abs();
        var made := Coalesced(SplicesOf(pending[..n]));
        log.AgentEdits(SplicesOf(pending[..n]), front);
        AgentEditsMake(before, SplicesOf(pending[..n]), front);
        pending := CarryEdits(made, pending[n..]);
      }
    }
    NothingPending(log.buffer);
  }

  lemma AgentEditsMake(s: Log, edits: Splices, front: set<nat>)
    requires Inv(s) && InOrder(edits, s.buffer, 0) && 0 !in front
    ensures InOrder(Coalesced(edits), s.buffer, 0)
    ensures Next(s, AgentEdits(edits, front)).buffer == SpliceFrom(Coalesced(edits), s.buffer, 0)
  {
    CoalescedInOrder(edits, s.buffer, 0);
    NoEditsNoChange(s, edits, front);
  }

  lemma NothingPending(t: string)
    requires InOrder(SplicesOf([]), t, 0)
    ensures SpliceFrom(SplicesOf([]), t, 0) == t
  {
    assert t[0..] == t;
  }

  /** Streaming the edits of a diff into the buffer, in any batches, replaces the range by the new text. */
  method ApplyEditChunks(log: ActionLog, pushed: seq<seq<CharOperation>>, finish: seq<CharOperation>, start: nat, end: nat,
                         batches: seq<Batch>, ghost newText: string)
    requires log.Valid() && start <= end <= |log.buffer| && AreBatches(batches)
    requires IsDiff(Concat(pushed + [finish]), log.buffer[start..end], newText)
    modifies log.Repr()
    ensures log.Valid() && fresh(log.Repr() - old(log.Repr()))
    ensures log.buffer == old(log.buffer)[..start] + newText + old(log.buffer)[end..]
  {
    hide EditsOf, Concat, Inv, InOrder, SpliceFrom, EndsCover, SplicesOf;
    var edits := ComputeEdits(pushed, finish, start);
    DiffEndsCover(Concat(pushed + [finish]), start);
    EditsReplaceRange(Concat(pushed + [finish]), log.buffer, start, end, newText);
    ApplyInBatches(log, edits, batches);
  }

  /** That a diff deletes no empty text is needed: where an earlier batch has inserted text, the anchors of a deletion
      are in order exactly if it deletes something. */
  lemma EmptyDeletionsSwap(at: nat, text: string, bytes: nat)
    requires text != ""
    ensures var edits := EditsOf([Insert(text), Delete(bytes)], at);
      |edits| == 2 && (var r := CarryEdit([edits[0].splice], edits[1]).splice.range; r.start <= r.end <==> bytes > 0)
  {
    var ops := [Insert(text), Delete(bytes)];
    var insertion, deletion := Splice(Span(at, at), text), AnchoredEdit(Splice(Span(at, at + bytes), ""), true);
    assert ops[1..] == [Delete(bytes)] && ops[1..][1..] == [];
    assert EditsOf(ops[1..], at) == [deletion];
    assert EditsOf(ops, at) == [AnchoredEdit(insertion, false), deletion];
    assert [insertion][1..] == [];
    assert Carry([insertion], at, false) == at + |text|;
    assert Carry([insertion], at + bytes, true) == if bytes == 0 then at else at + bytes + |text|;
  }
}
