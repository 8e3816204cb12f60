/** Text as the rope stores it: characters, cut into rows. Every row but the last
    carries its newline; the last row has none (and may be empty). */
module LineText {

  predicate NoNewline(s: string) {
    forall i | 0 <= i < |s| :: s[i] != '\n'
  }

  predicate IsLine(row: string) {
    row != "" && row[|row| - 1] == '\n' && NoNewline(row[..|row| - 1])
  }

  predicate IsLineText(rows: seq<string>) {
    && rows != []
    && (forall i | 0 <= i < |rows| - 1 :: IsLine(rows[i]))
    && NoNewline(rows[|rows| - 1])
  }

  /** The number of characters before the first newline. */
  function LineLen(t: string): (n: nat)
    ensures n <= |t|
  {
    if t == "" || t[0] == '\n' then 0 else 1 + LineLen(t[1..])
  }

  function Rows(t: string): (rows: seq<string>)
    ensures rows != []
    decreases |t|
  {
    var n := LineLen(t);
    if n == |t| then [t] else [t[..n + 1]] + Rows(t[n + 1..])
  }

  function Flat(rows: seq<string>): string {
    if rows == [] then "" else rows[0] + Flat(rows[1..])
  }

  /** The offset where row `r` starts; past the last row it is the end of the text.
      This saturation is what makes clamping a row's point to the last point of the text harmless. */
  function RowStart(t: string, r: nat): (o: nat)
    ensures o <= |t|
    decreases r
  {
    var n := LineLen(t);
    if r == 0 then 0
    else if n == |t| then |t|
    else n + 1 + RowStart(t[n + 1..], r - 1)
  }

  /** The rows `span` of a text, as a slice of its characters. */
  function RowSlice(t: string, start: nat, end: nat): string
    requires start <= end
  {
    RowStartMonotone(t, start, end);
    t[RowStart(t, start)..RowStart(t, end)]
  }

  lemma {:induction false} RowStartMonotone(t: string, a: nat, b: nat)
    requires a <= b
    ensures RowStart(t, a) <= RowStart(t, b)
    decreases b
  {
    if 0 < a && LineLen(t) < |t| {
      RowStartMonotone(t[LineLen(t) + 1..], a - 1, b - 1);
    }
  }

  lemma {:induction false} RowStartAscends(t: string, a: nat, b: nat)
    requires a < b < |Rows(t)|
    ensures RowStart(t, a) < RowStart(t, b)
    decreases b
  {
    var n := LineLen(t);
    if n < |t| {
      assert |Rows(t)| == 1 + |Rows(t[n + 1..])|;
      if a > 0 {
        RowStartAscends(t[n + 1..], a - 1, b - 1);
      }
    }
  }

  function Newlines(t: string): nat {
    if t == "" then 0 else (if t[0] == '\n' then 1 else 0) + Newlines(t[1..])
  }

  /** The row that holds offset `o`. */
  function RowOf(t: string, o: nat): nat
    requires o <= |t|
  {
    Newlines(t[..o])
  }

  predicate IsRowStart(t: string, o: int) {
    0 <= o <= |t| && (o == 0 || t[o - 1] == '\n')
  }

  // ----- rows and their characters

  lemma {:induction false} LineLenStops(t: string)
    ensures NoNewline(t[..LineLen(t)])
    ensures LineLen(t) < |t| ==> t[LineLen(t)] == '\n'
  {
    if t != "" && t[0] != '\n' {
      LineLenStops(t[1..]);
      assert t[..LineLen(t)] == [t[0]] + t[1..][..LineLen(t[1..])];
    }
  }

  lemma {:induction false} RowsAreLineText(t: string)
    ensures IsLineText(Rows(t))
    decreases |t|
  {
    var n := LineLen(t);
    LineLenStops(t);
    if n == |t| {
      assert t[..n] == t;
    } else {
      RowsAreLineText(t[n + 1..]);
      assert t[..n + 1][..n] == t[..n];
    }
  }

  lemma FlatCons(row: string, rows: seq<string>)
    ensures Flat([row] + rows) == row + Flat(rows)
  {
    assert ([row] + rows)[1..] == rows;
  }

  lemma {:induction false} FlatRows(t: string)
    ensures Flat(Rows(t)) == t
    decreases |t|
  {
    var n := LineLen(t);
    if n == |t| {
      assert Flat([t]) == t + Flat([]);
    } else {
      FlatRows(t[n + 1..]);
      FlatCons(t[..n + 1], Rows(t[n + 1..]));
    }
  }

  lemma {:induction false} FlatConcat(a: seq<string>, b: seq<string>)
    ensures Flat(a + b) == Flat(a) + Flat(b)
  {
    if a == [] {
      assert a + b == b;
    } else {
      FlatConcat(a[1..], b);
      assert (a + b)[1..] == a[1..] + b;
    }
  }

  lemma LineLenIs(t: string, n: nat)
    requires n <= |t| && NoNewline(t[..n]) && (n < |t| ==> t[n] == '\n')
    ensures LineLen(t) == n
  {
    LineLenStops(t);
    forall i | 0 <= i < n ensures t[i] != '\n' {
      assert t[i] == t[..n][i];
    }
    forall i | 0 <= i < LineLen(t) ensures t[i] != '\n' {
      assert t[i] == t[..LineLen(t)][i];
    }
  }

  /** A line text is recovered from its characters, so rows and characters say the same. */
  lemma {:induction false} RowsFlat(rows: seq<string>)
    requires IsLineText(rows)
    ensures Rows(Flat(rows)) == rows
  {
    var t := Flat(rows);
    if |rows| == 1 {
      assert t == rows[0] + Flat([]) == rows[0];
      LineLenIs(t, |t|);
    } else {
      var row := rows[0];
      assert rows[1..][|rows| - 2] == rows[|rows| - 1];
      RowsFlat(rows[1..]);
      assert t[..|row| - 1] == row[..|row| - 1];
      LineLenIs(t, |row| - 1);
      assert t[..|row|] == row && t[|row|..] == Flat(rows[1..]);
    }
  }

  lemma FirstRow(t: string, r: nat)
    requires LineLen(t) < |t| && 0 < r
    ensures var row, rest := t[..LineLen(t) + 1], t[LineLen(t) + 1..];
      Rows(t) == [row] + Rows(rest) && RowStart(t, r) == |row| + RowStart(rest, r - 1)
  {
  }

  /** The first `r` rows are the characters before `RowStart(t, r)`, the others those after it. */
  lemma {:induction false} RowStartSplits(t: string, r: nat)
    requires r <= |Rows(t)|
    ensures Flat(Rows(t)[..r]) == t[..RowStart(t, r)]
    ensures Flat(Rows(t)[r..]) == t[RowStart(t, r)..]
    decreases r
  {
    hide Rows, RowStart, Flat, LineLen;
    var n := LineLen(t);
    if r == 0 || n == |t| {
      NoRowSplit(t, r);
    } else {
      FirstRow(t, r);
      RowStartSplits(t[n + 1..], r - 1);
      FlatSplitCons(t[..n + 1], Rows(t[n + 1..]), r);
      SliceShift(t, n + 1, RowStart(t[n + 1..], r - 1));
    }
  }

  lemma NoRowSplit(t: string, r: nat)
    requires r <= |Rows(t)| && (r == 0 || LineLen(t) == |t|)
    ensures Flat(Rows(t)[..r]) == t[..RowStart(t, r)] && Flat(Rows(t)[r..]) == t[RowStart(t, r)..]
  {
    FlatRows(t);
    assert Rows(t)[0..] == Rows(t) == Rows(t)[..|Rows(t)|];
  }

  lemma FlatSplitCons(row: string, rows: seq<string>, r: nat)
    requires 0 < r <= |rows| + 1
    ensures Flat(([row] + rows)[..r]) == row + Flat(rows[..r - 1])
    ensures Flat(([row] + rows)[r..]) == Flat(rows[r - 1..])
  {
    FlatCons(row, rows[..r - 1]);
    assert ([row] + rows)[..r] == [row] + rows[..r - 1];
    assert ([row] + rows)[r..] == rows[r - 1..];
  }

  lemma SliceShift(t: string, n: nat, k: nat)
    requires n + k <= |t|
    ensures t[..n] + t[n..][..k] == t[..n + k]
    ensures t[n..][k..] == t[n + k..]
  {
  }

  lemma RowSliceFlat(t: string, a: nat, b: nat)
    requires a <= b <= |Rows(t)|
    ensures RowSlice(t, a, b) == Flat(Rows(t)[a..b])
  {
    RowStartSplits(t, a);
    RowStartSplits(t, b);
    RowStartMonotone(t, a, b);
    assert Rows(t)[..b] == Rows(t)[..a] + Rows(t)[a..b];
    FlatConcat(Rows(t)[..a], Rows(t)[a..b]);
  }

  /** Replacing characters at row boundaries is splicing rows, whenever the spliced rows are a line text. */
  lemma ReplaceIsSplice(t: string, a: nat, b: nat, u: string, c: nat, d: nat)
    requires a <= b <= |Rows(t)| && c <= d <= |Rows(u)|
    requires IsLineText(Rows(t)[..a] + Rows(u)[c..d] + Rows(t)[b..])
    ensures RowStart(t, a) <= RowStart(t, b)
    ensures Rows(t[..RowStart(t, a)] + RowSlice(u, c, d) + t[RowStart(t, b)..])
         == Rows(t)[..a] + Rows(u)[c..d] + Rows(t)[b..]
  {
    RowStartMonotone(t, a, b);
    RowStartSplits(t, a);
    RowStartSplits(t, b);
    RowSliceFlat(u, c, d);
    var rows := Rows(t)[..a] + Rows(u)[c..d] + Rows(t)[b..];
    FlatConcat(Rows(t)[..a] + Rows(u)[c..d], Rows(t)[b..]);
    FlatConcat(Rows(t)[..a], Rows(u)[c..d]);
    RowsFlat(rows);
  }

  /** Splicing rows of one line text into another keeps a line text, if the splice reaches the end of both or of neither. */
  lemma SpliceKeepsLineText(rows: seq<string>, a: nat, b: nat, source: seq<string>, c: nat, d: nat)
    requires IsLineText(rows) && IsLineText(source)
    requires a <= b <= |rows| && c <= d <= |source|
    requires b == |rows| <==> d == |source|
    requires b == |rows| ==> (a == |rows| <==> c == |source|)
    ensures IsLineText(rows[..a] + source[c..d] + rows[b..])
  {
  }

  // ----- rows and offsets

  lemma {:induction false} NewlinesConcat(a: string, b: string)
    ensures Newlines(a + b) == Newlines(a) + Newlines(b)
  {
    if a == "" {
      assert a + b == b;
    } else {
      NewlinesConcat(a[1..], b);
      assert (a + b)[1..] == a[1..] + b;
    }
  }

  lemma RowOfAdvance(t: string, o: nat, p: nat)
    requires o <= p <= |t|
    ensures RowOf(t, p) == RowOf(t, o) + Newlines(t[o..p])
  {
    assert t[..p] == t[..o] + t[o..p];
    NewlinesConcat(t[..o], t[o..p]);
  }

  lemma {:induction false} NoNewlines(t: string)
    ensures Newlines(t) == 0 <==> NoNewline(t)
  {
    if t != "" {
      NoNewlines(t[1..]);
      assert t == [t[0]] + t[1..];
    }
  }

  lemma {:induction false} RowCount(t: string)
    ensures |Rows(t)| == Newlines(t) + 1
    decreases |t|
  {
    var n := LineLen(t);
    LineLenStops(t);
    NoNewlines(t[..n]);
    if n == |t| {
      assert t[..n] == t;
    } else {
      RowCount(t[n + 1..]);
      assert t == t[..n] + ("\n" + t[n + 1..]);
      NewlinesConcat(t[..n], "\n" + t[n + 1..]);
      assert ("\n" + t[n + 1..])[1..] == t[n + 1..];
    }
  }

  /** A text that ends with a newline has an empty last row. */
  lemma LastRowIsEmpty(u: string)
    requires IsRowStart(u, |u|)
    ensures |Rows(u)| == Newlines(u) + 1
    ensures Rows(u)[Newlines(u)] == ""
    ensures Flat(Rows(u)[..Newlines(u)]) == u
  {
    var k := Newlines(u);
    RowCount(u);
    RowsAreLineText(u);
    RowStartSplits(u, k);
    var last := Rows(u)[k];
    assert Rows(u)[k..] == [last] + [];
    FlatCons(last, []);
    assert last == u[RowStart(u, k)..];
  }

  /** Lines put before a text come first among its rows. */
  lemma RowsConcat(u: string, v: string)
    requires IsRowStart(u, |u|)
    ensures |Rows(u)| == Newlines(u) + 1
    ensures Rows(u + v) == Rows(u)[..Newlines(u)] + Rows(v)
  {
    LastRowIsEmpty(u);
    RowsAreLineText(u);
    RowsAreLineText(v);
    FlatRows(v);
    RowsOfLines(Rows(u)[..Newlines(u)], Rows(v));
  }

  lemma {:induction false} RowsOfLines(lines: seq<string>, rest: seq<string>)
    requires (forall i | 0 <= i < |lines| :: IsLine(lines[i])) && IsLineText(rest)
    ensures Rows(Flat(lines) + Flat(rest)) == lines + rest
  {
    FlatConcat(lines, rest);
    RowsFlat(lines + rest);
  }

  /** From a row start on, the rows of a text are the rows of the rest of it. */
  lemma RowsFrom(t: string, p: nat)
    requires IsRowStart(t, p)
    ensures RowOf(t, p) < |Rows(t)|
    ensures Rows(t)[RowOf(t, p)..] == Rows(t[p..])
  {
    assert IsRowStart(t[..p], p);
    RowsConcat(t[..p], t[p..]);
    assert t == t[..p] + t[p..];
  }

  /** Equal characters between row starts are equal rows. */
  lemma SameRows(s: string, p: nat, q: nat, t: string, p': nat, q': nat)
    requires IsRowStart(s, p) && IsRowStart(s, q) && p <= q
    requires IsRowStart(t, p') && IsRowStart(t, q') && p' <= q'
    requires s[p..q] == t[p'..q']
    ensures RowOf(s, p) <= RowOf(s, q) < |Rows(s)| && RowOf(t, p') <= RowOf(t, q') < |Rows(t)|
    ensures Rows(s)[RowOf(s, p)..RowOf(s, q)] == Rows(t)[RowOf(t, p')..RowOf(t, q')]
  {
    RowsBetween(s, p, q);
    RowsBetween(t, p', q');
  }

  lemma RowsBetween(t: string, p: nat, q: nat)
    requires IsRowStart(t, p) && IsRowStart(t, q) && p <= q
    ensures RowOf(t, p) <= RowOf(t, q) < |Rows(t)|
    ensures |Rows(t[p..q])| == Newlines(t[p..q]) + 1
    ensures RowOf(t, q) == RowOf(t, p) + Newlines(t[p..q])
    ensures Rows(t)[RowOf(t, p)..RowOf(t, q)] == Rows(t[p..q])[..Newlines(t[p..q])]
  {
    RowsFrom(t, q);
    RowOfAdvance(t, p, q);
    RowsFromSplit(t, p, q);
    SliceOfSuffix(Rows(t), RowOf(t, p), Newlines(t[p..q]), Rows(t[p..q])[..Newlines(t[p..q])], Rows(t[q..]));
  }

  lemma {:induction false} RowsFromSplit(t: string, p: nat, q: nat)
    requires IsRowStart(t, p) && IsRowStart(t, q) && p <= q
    ensures RowOf(t, p) < |Rows(t)| && |Rows(t[p..q])| == Newlines(t[p..q]) + 1
    ensures Rows(t)[RowOf(t, p)..] == Rows(t[p..q])[..Newlines(t[p..q])] + Rows(t[q..])
  {
    RowsFrom(t, p);
    assert IsRowStart(t[p..q], q - p);
    RowsConcat(t[p..q], t[q..]);
    assert t[p..] == t[p..q] + t[q..];
  }

  lemma SliceOfSuffix(rows: seq<string>, i: nat, k: nat, lines: seq<string>, rest: seq<string>)
    requires i <= |rows| && |lines| == k && rows[i..] == lines + rest
    ensures i + k <= |rows| && rows[i..i + k] == lines
  {
    assert rows[i..][..k] == lines;
  }

  lemma NoNewlineBetween(t: string, o: nat, p: nat)
    requires o <= p <= |t| && NoNewline(t[o..p])
    ensures forall k | o <= k < p :: t[k] != '\n'
  {
    forall k | o <= k < p ensures t[k] != '\n' {
      assert t[k] == t[o..p][k - o];
    }
  }

  lemma InFirstRow(t: string, o: nat)
    requires o <= LineLen(t)
    ensures RowOf(t, o) == 0 && RowStart(t, 0) == 0 && IsRowStart(t, 0) && NoNewline(t[0..o])
  {
    LineLenStops(t);
    assert t[0..o] == t[..o] == t[..LineLen(t)][..o];
    NoNewlines(t[..o]);
  }

  /** The row start at or before `o` is a row start, and no newline lies between. */
  lemma {:induction false} RowStartBefore(t: string, o: nat)
    requires o <= |t|
    ensures RowStart(t, RowOf(t, o)) <= o
    ensures IsRowStart(t, RowStart(t, RowOf(t, o)))
    ensures NoNewline(t[RowStart(t, RowOf(t, o))..o])
    decreases |t|
  {
    hide Rows, RowStart, RowOf, LineLen, Newlines, NoNewline, IsRowStart;
    var n := LineLen(t);
    if o <= n {
      InFirstRow(t, o);
    } else {
      LineLenStops(t);
      RowOfStep(t, o);
      FirstRow(t, RowOf(t, o));
      RowStartBefore(t[n + 1..], o - n - 1);
      ShiftRowStart(t, n + 1, RowStart(t[n + 1..], RowOf(t[n + 1..], o - n - 1)), o);
    }
  }

  lemma ShiftRowStart(t: string, n: nat, k: nat, o: nat)
    requires 0 < n && n + k <= o <= |t| && t[n - 1] == '\n'
    requires IsRowStart(t[n..], k) && NoNewline(t[n..][k..o - n])
    ensures IsRowStart(t, n + k) && NoNewline(t[n + k..o])
  {
    assert t[n + k..o] == t[n..][k..o - n];
  }

  lemma RowOfStep(t: string, o: nat)
    requires LineLen(t) < o <= |t|
    ensures RowOf(t, o) == 1 + RowOf(t[LineLen(t) + 1..], o - LineLen(t) - 1)
  {
    var n := LineLen(t);
    LineLenStops(t);
    NoNewlines(t[..n]);
    RowOfAdvance(t, n, o);
    var rest := t[n + 1..][..o - n - 1];
    assert t[n..o] == "\n" + rest;
    NewlinesConcat("\n", rest);
  }

  /** A row starts in itself; past the last row is the end, which is in the last row. */
  lemma {:induction false} RowOfRowStart(t: string, r: nat)
    requires r <= |Rows(t)|
    ensures RowOf(t, RowStart(t, r)) == if r < |Rows(t)| then r else |Rows(t)| - 1
    decreases r
  {
    var n := LineLen(t);
    LineLenStops(t);
    if r == 0 {
      assert t[..0] == "";
    } else if n == |t| {
      assert t[..n] == t;
      NoNewlines(t);
    } else {
      RowOfRowStart(t[n + 1..], r - 1);
      RowOfStep(t, RowStart(t, r));
      assert |Rows(t)| == 1 + |Rows(t[n + 1..])|;
    }
  }

  // ----- the rope

  /** A mutable text. */
  class Rope {
    var text: string

    constructor (text: string)
      ensures this.text == text
    {
      this.text := text;
    }

    method Replace(start: nat, end: nat, s: string)
      requires start <= end <= |text|
      modifies this
      ensures text == old(text)[..start] + s + old(text)[end..]
    {
      text := text[..start] + s + text[end..];
    }

    /** `replace(point_to_offset((a, 0))..point_to_offset(min((b, 0), max_point)), rows c..d of source)`. */
    method ReplaceRows(a: nat, b: nat, source: string, c: nat, d: nat)
      requires a <= b <= |Rows(text)| && c <= d <= |Rows(source)|
      requires IsLineText(Rows(text)[..a] + Rows(source)[c..d] + Rows(text)[b..])
      modifies this
      ensures Rows(text) == old(Rows(text))[..a] + Rows(source)[c..d] + old(Rows(text))[b..]
    {
      ReplaceIsSplice(text, a, b, source, c, d);
      Replace(RowStart(text, a), RowStart(text, b), RowSlice(source, c, d));
    }
  }
}
