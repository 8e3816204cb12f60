/** The text of a buffer, the edits made to it, and the anchors they carry. */
module Buffers {
  import opened Patches

  /** Replaces the characters of `range` by `text`. */
  datatype Splice = Splice(range: Span, text: string) {
    predicate IsNothing() { text == "" && range.IsEmpty() }
  }

  type Splices = seq<Splice>

  /** The splices are in order in `t` from position `i` on; they may touch. */
  predicate InOrder(edits: Splices, t: string, i: int) {
    && 0 <= i <= |t|
    && (edits != [] ==> i <= edits[0].range.start && Within(edits[0].range, t) && InOrder(edits[1..], t, edits[0].range.end))
  }

  predicate AllIn(edits: Splices, t: string) {
    forall k | 0 <= k < |edits| :: Within(edits[k].range, t)
  }

  /** No two splices touch. */
  predicate Apart(edits: Splices) {
    forall k, m | 0 <= k < m < |edits| :: edits[k].range.end < edits[m].range.start
  }

  /** `t` from position `i` on, with all splices made at once. */
  function SpliceFrom(edits: Splices, t: string, i: int): string
    requires InOrder(edits, t, i)
  {
    if edits == [] then t[i..]
    else t[i..edits[0].range.start] + edits[0].text + SpliceFrom(edits[1..], t, edits[0].range.end)
  }

  lemma NoSplicesFrom(t: string, i: nat)
    requires i <= |t|
    ensures InOrder([], t, i) && SpliceFrom([], t, i) == t[i..]
  {
  }

  lemma SpliceCons(e: Splice, rest: Splices, t: string, i: int)
    requires 0 <= i <= e.range.start && Within(e.range, t) && InOrder(rest, t, e.range.end)
    ensures InOrder([e] + rest, t, i)
    ensures SpliceFrom([e] + rest, t, i) == t[i..e.range.start] + e.text + SpliceFrom(rest, t, e.range.end)
  {
    assert ([e] + rest)[1..] == rest;
  }

  lemma FirstSplice(edits: Splices, t: string, i: int)
    requires edits != [] && InOrder(edits, t, i)
    ensures 0 <= i <= edits[0].range.start && Within(edits[0].range, t) && InOrder(edits[1..], t, edits[0].range.end)
    ensures edits == [edits[0]] + edits[1..]
    ensures SpliceFrom(edits, t, i) == t[i..edits[0].range.start] + edits[0].text + SpliceFrom(edits[1..], t, edits[0].range.end)
  {
  }

  // ----- coalescing

  function Join(cur: Splice, next: Splice): Splice {
    Splice(Span(cur.range.start, Max(cur.range.end, next.range.end)), cur.text + next.text)
  }

  function CoalesceWith(cur: Splice, rest: Splices): Splices
    decreases |rest|
  {
    if rest == [] then [cur]
    else if rest[0].IsNothing() then CoalesceWith(cur, rest[1..])
    else if cur.range.end >= rest[0].range.start then CoalesceWith(Join(cur, rest[0]), rest[1..])
    else [cur] + CoalesceWith(rest[0], rest[1..])
  }

  /** The edits that change something, with those that touch merged. */
  function Coalesced(edits: Splices): Splices {
    if edits == [] then []
    else if edits[0].IsNothing() then Coalesced(edits[1..])
    else CoalesceWith(edits[0], edits[1..])
  }

  // ----- anchors

  /** Where a position of the old text lies in the new one. A position strictly inside a replaced range, or at its end,
      goes to the end of the new text, and so does one at its start unless it is biased to the left: new text is put
      in front of the text it replaces, and a position biased to the right belongs to the character after it. */
  function Carry(edits: Splices, p: int, left: bool): int {
    if edits == [] then p
    else
      var e := edits[0];
      if p < e.range.start || (p == e.range.start && left) then p
      else if p <= e.range.end then e.range.start + |e.text|
      else Carry(edits[1..], p, left) + |e.text| - e.range.Len()
  }

  function Growth(e: Splice): int {
    |e.text| - e.range.Len()
  }

  // ----- what coalescing makes of a list in order

  lemma {:induction false} CoalescedInOrder(edits: Splices, t: string, i: int)
    requires InOrder(edits, t, i)
    ensures InOrder(Coalesced(edits), t, i) && Apart(Coalesced(edits))
    ensures forall k | 0 <= k < |Coalesced(edits)| :: !Coalesced(edits)[k].IsNothing()
    ensures SpliceFrom(Coalesced(edits), t, i) == SpliceFrom(edits, t, i)
    decreases |edits|
  {
    if edits != [] {
      var e := edits[0];
      CoalescedInOrder(edits[1..], t, e.range.end);
      var c := Coalesced(edits[1..]);
      if e.IsNothing() {
        SkipInOrder(c, t, i, e.range.end);
        assert SpliceFrom(edits, t, i) == t[i..e.range.end] + SpliceFrom(edits[1..], t, e.range.end);
      } else {
        JoinFirst(e, edits[1..], t);
        if c != [] && c[0].range.start == e.range.end {
          JoinedInOrder(e, c, t, i);
        } else {
          PushedInOrder(e, c, t, i);
        }
      }
    }
  }

  lemma JoinedInOrder(e: Splice, c: Splices, t: string, i: int)
    requires 0 <= i <= e.range.start && Within(e.range, t) && InOrder(c, t, e.range.end) && Apart(c)
    requires c != [] && c[0].range.start == e.range.end && !e.IsNothing()
    requires forall k | 0 <= k < |c| :: !c[k].IsNothing()
    ensures var n := [Join(e, c[0])] + c[1..];
      && InOrder(n, t, i) && Apart(n) && (forall k | 0 <= k < |n| :: !n[k].IsNothing())
      && SpliceFrom(n, t, i) == t[i..e.range.start] + e.text + SpliceFrom(c, t, e.range.end)
  {
    ApartReplaceFirst(c, Join(e, c[0]));
    hide Apart;
    JoinedSplice(e, c, t, i);
  }

  lemma JoinedSplice(e: Splice, c: Splices, t: string, i: int)
    requires 0 <= i <= e.range.start && Within(e.range, t) && InOrder(c, t, e.range.end)
    requires c != [] && c[0].range.start == e.range.end
    ensures var n := [Join(e, c[0])] + c[1..];
      && InOrder(n, t, i)
      && SpliceFrom(n, t, i) == t[i..e.range.start] + e.text + SpliceFrom(c, t, e.range.end)
  {
    hide InOrder, SpliceFrom;
    FirstSplice(c, t, e.range.end);
    SpliceCons(Join(e, c[0]), c[1..], t, i);
    assert t[e.range.end..c[0].range.start] == "";
    Associates(t[i..e.range.start], e.text, c[0].text, SpliceFrom(c[1..], t, c[0].range.end));
  }

  lemma ConcatAssociates<X>(a: seq<X>, b: seq<X>, c: seq<X>)
    ensures a + b + c == a + (b + c)
  {
  }

  lemma Regroups(a: string, b: string, c: string, d: string)
    ensures a + b + c + d == a + (b + c + d)
  {
  }

  lemma Associates(a: string, b: string, c: string, d: string)
    ensures a + (b + c) + d == a + b + (c + d)
  {
  }

  lemma PushedInOrder(e: Splice, c: Splices, t: string, i: int)
    requires 0 <= i <= e.range.start && Within(e.range, t) && InOrder(c, t, e.range.end) && Apart(c)
    requires (c != [] ==> c[0].range.start != e.range.end) && !e.IsNothing()
    requires forall k | 0 <= k < |c| :: !c[k].IsNothing()
    ensures var n := [e] + c;
      && InOrder(n, t, i) && Apart(n) && (forall k | 0 <= k < |n| :: !n[k].IsNothing())
      && SpliceFrom(n, t, i) == t[i..e.range.start] + e.text + SpliceFrom(c, t, e.range.end)
  {
    assert ([e] + c)[1..] == c;
    InOrderWithin(c, t, e.range.end);
    ApartCons(e, c);
  }

  lemma SkipInOrder(edits: Splices, t: string, i: int, j: int)
    requires InOrder(edits, t, j) && 0 <= i <= j
    ensures InOrder(edits, t, i)
    ensures SpliceFrom(edits, t, i) == t[i..j] + SpliceFrom(edits, t, j)
  {
    if edits == [] {
      assert t[i..] == t[i..j] + t[j..];
    } else {
      var e := edits[0];
      var rest := SpliceFrom(edits[1..], t, e.range.end);
      assert t[i..e.range.start] == t[i..j] + t[j..e.range.start];
      Regroups(t[i..j], t[j..e.range.start], e.text, rest);
    }
  }

  lemma ApartCons(e: Splice, c: Splices)
    requires Apart(c) && (c != [] ==> e.range.end < c[0].range.start)
    requires forall k | 0 <= k < |c| :: c[k].range.start <= c[k].range.end
    ensures Apart([e] + c)
  {
    var n := [e] + c;
    forall k, m | 0 <= k < m < |n| ensures n[k].range.end < n[m].range.start {
      assert n[m] == c[m - 1];
      assert k > 0 ==> n[k] == c[k - 1];
      assert m > 1 ==> c[0].range.end < c[m - 1].range.start;
    }
  }

  lemma ApartTail(c: Splices)
    requires c != [] && Apart(c)
    ensures Apart(c[1..])
  {
    assert forall k | 0 <= k < |c[1..]| :: c[1..][k] == c[k + 1];
  }

  lemma ApartReplaceFirst(c: Splices, g: Splice)
    requires c != [] && Apart(c) && g.range.end == c[0].range.end
    ensures Apart([g] + c[1..])
  {
    var n := [g] + c[1..];
    forall k, m | 0 <= k < m < |n| ensures n[k].range.end < n[m].range.start {
      assert n[m] == c[m];
      assert k > 0 ==> n[k] == c[k];
    }
  }

  /** Coalescing onto `cur` joins it with the first of the coalesced rest if that touches it, and leaves it alone otherwise. */
  lemma {:induction false} JoinFirst(cur: Splice, rest: Splices, t: string)
    requires Within(cur.range, t) && InOrder(rest, t, cur.range.end)
    ensures var c := Coalesced(rest);
      && InOrder(c, t, cur.range.end)
      && (forall k | 0 <= k < |c| :: c[k].range.start <= c[k].range.end)
      && CoalesceWith(cur, rest)
         == if c != [] && c[0].range.start == cur.range.end then [Join(cur, c[0])] + c[1..] else [cur] + c
    decreases |rest|
  {
    if rest != [] {
      var r := rest[0];
      if r.IsNothing() {
        SkipInOrder(rest[1..], t, cur.range.end, r.range.end);
        JoinFirst(cur, rest[1..], t);
      } else {
        JoinFirst(r, rest[1..], t);
        if cur.range.end == r.range.start {
          JoinFirst(Join(cur, r), rest[1..], t);
          JoinAssociates(cur, r, Coalesced(rest[1..]));
        }
      }
    }
  }

  lemma JoinAssociates(cur: Splice, r: Splice, c: Splices)
    ensures c != [] ==> Join(Join(cur, r), c[0]) == Join(cur, Join(r, c[0]))
  {
    if c != [] {
      assert cur.text + r.text + c[0].text == cur.text + (r.text + c[0].text);
    }
  }

  lemma {:induction false} InOrderWithin(edits: Splices, t: string, i: int)
    requires InOrder(edits, t, i)
    ensures AllIn(edits, t) && forall k | 0 <= k < |edits| :: i <= edits[k].range.start
  {
    if edits != [] {
      InOrderWithin(edits[1..], t, edits[0].range.end);
      assert forall k | 0 < k < |edits| :: edits[k] == edits[1..][k - 1];
    }
  }

  /** Some splice replaces the character at position `x`. */
  predicate Replaces(edits: Splices, x: int) {
    exists k :: 0 <= k < |edits| && edits[k].range.start <= x < edits[k].range.end
  }

  lemma ReplacesCons(e: Splice, rest: Splices, x: int)
    ensures Replaces([e] + rest, x) <==> e.range.start <= x < e.range.end || Replaces(rest, x)
  {
    var all := [e] + rest;
    assert all[0] == e && forall k | 0 <= k < |rest| :: rest[k] == all[k + 1];
    if k :| 0 <= k < |all| && all[k].range.start <= x < all[k].range.end {
      assert k > 0 ==> rest[k - 1] == all[k];
    }
  }

  /** Coalescing replaces the same characters. */
  lemma {:induction false} CoalescedReplaces(edits: Splices, t: string, i: int, x: int)
    requires InOrder(edits, t, i)
    ensures Replaces(Coalesced(edits), x) <==> Replaces(edits, x)
    decreases |edits|
  {
    hide Replaces;
    if edits != [] {
      var e := edits[0];
      CoalescedReplaces(edits[1..], t, e.range.end, x);
      CoalescedInOrder(edits[1..], t, e.range.end);
      var c := Coalesced(edits[1..]);
      assert edits == [e] + edits[1..];
      ReplacesCons(e, edits[1..], x);
      if !e.IsNothing() {
        JoinFirst(e, edits[1..], t);
        ReplacesCons(e, c, x);
        if c != [] && c[0].range.start == e.range.end {
          assert c == [c[0]] + c[1..];
          InOrderWithin(c, t, e.range.end);
          ReplacesCons(c[0], c[1..], x);
          ReplacesCons(Join(e, c[0]), c[1..], x);
        }
      }
    }
  }

  /** Some splice starts at position `x`. */
  predicate StartsAt(edits: Splices, x: int) {
    exists k :: 0 <= k < |edits| && edits[k].range.start == x
  }

  lemma StartsAtCons(e: Splice, rest: Splices, x: int)
    ensures StartsAt([e] + rest, x) <==> e.range.start == x || StartsAt(rest, x)
  {
    var all := [e] + rest;
    assert all[0] == e && forall k | 0 <= k < |rest| :: rest[k] == all[k + 1];
    if k :| 0 <= k < |all| && all[k].range.start == x {
      assert k > 0 ==> rest[k - 1] == all[k];
    }
  }

  /** Coalesced edits start where some of the edits do. */
  lemma {:induction false} CoalescedStarts(edits: Splices, t: string, i: int, x: int)
    requires InOrder(edits, t, i) && StartsAt(Coalesced(edits), x)
    ensures StartsAt(edits, x)
    decreases |edits|
  {
    assert edits != [];
    hide StartsAt;
    var e := edits[0];
    CoalescedInOrder(edits[1..], t, e.range.end);
    var c := Coalesced(edits[1..]);
    assert edits == [e] + edits[1..];
    StartsAtCons(e, edits[1..], x);
    if !e.IsNothing() {
      JoinFirst(e, edits[1..], t);
      StartsAtCons(e, c, x);
      if c != [] && c[0].range.start == e.range.end {
        assert c == [c[0]] + c[1..];
        StartsAtCons(c[0], c[1..], x);
        StartsAtCons(Join(e, c[0]), c[1..], x);
      }
    }
    if StartsAt(c, x) {
      CoalescedStarts(edits[1..], t, e.range.end, x);
    }
  }
}
