/** The line comparison of the settings editor (web/ci-editor.js, ciLineDiff). */
module LineDiff {
  import opened Wrappers
  import opened Text

  // ---------- common subsequences ----------

  /** c is left when some elements of a are dropped. */
  predicate IsSubsequence<T(==)>(c: seq<T>, a: seq<T>) {
    if c == [] then true
    else if a == [] then false
    else (c[0] == a[0] && IsSubsequence(c[1..], a[1..])) || IsSubsequence(c, a[1..])
  }

  predicate IsCommon<T(==)>(c: seq<T>, a: seq<T>, b: seq<T>) {
    IsSubsequence(c, a) && IsSubsequence(c, b)
  }

  /** n is the length of a longest common subsequence. */
  ghost predicate IsLongest<T(!new)>(a: seq<T>, b: seq<T>, n: nat) {
    && (exists c :: IsCommon(c, a, b) && |c| == n)
    && (forall c | IsCommon(c, a, b) :: |c| <= n)
  }

  function Max(x: nat, y: nat): nat {
    if x < y then y else x
  }

  /** The recurrence the table follows. */
  function Lcs<T(==)>(a: seq<T>, b: seq<T>): nat {
    if a == [] || b == [] then 0
    else if a[0] == b[0] then 1 + Lcs(a[1..], b[1..])
    else Max(Lcs(a[1..], b), Lcs(a, b[1..]))
  }

  lemma {:induction false} DropFirst<T>(c: seq<T>, a: seq<T>)
    requires IsSubsequence(c, a) && c != []
    ensures a != [] && IsSubsequence(c[1..], a[1..])
    decreases a
  {
    if !(c[0] == a[0] && IsSubsequence(c[1..], a[1..])) {
      DropFirst(c, a[1..]);
      Weaken(c[1..], a[1..]);
    }
  }

  /** What is left of the tail of a list is left of the list. */
  lemma Weaken<T>(c: seq<T>, a: seq<T>)
    requires a != [] && IsSubsequence(c, a[1..])
    ensures IsSubsequence(c, a)
  {
  }

  lemma {:induction false} LcsIsUpperBound<T>(c: seq<T>, a: seq<T>, b: seq<T>)
    requires IsCommon(c, a, b)
    ensures |c| <= Lcs(a, b)
    decreases |a| + |b|
  {
    if c != [] {
      DropFirst(c, a);
      DropFirst(c, b);
      if a[0] == b[0] {
        LcsIsUpperBound(c[1..], a[1..], b[1..]);
      } else if c[0] != a[0] {
        LcsIsUpperBound(c, a[1..], b);
      } else {
        LcsIsUpperBound(c, a, b[1..]);
      }
    }
  }

  lemma {:induction false} LcsIsReached<T>(a: seq<T>, b: seq<T>) returns (c: seq<T>)
    ensures IsCommon(c, a, b) && |c| == Lcs(a, b)
    decreases |a| + |b|
  {
    if a == [] || b == [] {
      c := [];
    } else if a[0] == b[0] {
      var d := LcsIsReached(a[1..], b[1..]);
      c := [a[0]] + d;
    } else if Lcs(a[1..], b) >= Lcs(a, b[1..]) {
      c := LcsIsReached(a[1..], b);
      Weaken(c, a);
    } else {
      c := LcsIsReached(a, b[1..]);
      Weaken(c, b);
    }
  }

  /** The recurrence computes the length of a longest common subsequence, and nothing else is one. */
  lemma LcsIsLongest<T(!new)>(a: seq<T>, b: seq<T>, n: nat)
    ensures IsLongest(a, b, n) <==> n == Lcs(a, b)
  {
    var c := LcsIsReached(a, b);
    forall d | IsCommon(d, a, b)
      ensures |d| <= Lcs(a, b)
    {
      LcsIsUpperBound(d, a, b);
    }
  }

  // ---------- trimming ----------

  lemma {:induction false} TrimPrefix<T>(x: seq<T>, a: seq<T>, b: seq<T>)
    ensures Lcs(x + a, x + b) == |x| + Lcs(a, b)
  {
    if x == [] {
      assert x + a == a && x + b == b;
    } else {
      TrimPrefix(x[1..], a, b);
      assert (x + a)[1..] == x[1..] + a && (x + b)[1..] == x[1..] + b;
    }
  }

  lemma {:induction false} ExtendLast<T>(c: seq<T>, a: seq<T>, x: T)
    requires IsSubsequence(c, a)
    ensures IsSubsequence(c + [x], a + [x])
    decreases a
  {
    if a != [] {
      assert (a + [x])[1..] == a[1..] + [x];
      if IsSubsequence(c, a[1..]) {
        ExtendLast(c, a[1..], x);
        Weaken(c + [x], a + [x]);
      } else {
        ExtendLast(c[1..], a[1..], x);
        assert (c + [x])[1..] == c[1..] + [x];
      }
    }
  }

  lemma {:induction false} DropLast<T>(c: seq<T>, a: seq<T>, x: T)
    requires IsSubsequence(c, a + [x]) && c != []
    ensures IsSubsequence(c[..|c|-1], a)
    decreases a
  {
    var s := a + [x];
    if a == [] {
      DropFirst(c, s);
      assert s[1..] == [] && c[1..] == [];
    } else {
      assert s[1..] == a[1..] + [x];
      if IsSubsequence(c, s[1..]) {
        DropLast(c, a[1..], x);
        Weaken(c[..|c|-1], a);
      } else if |c| > 1 {
        DropLast(c[1..], a[1..], x);
        assert c[1..][..|c|-2] == c[..|c|-1][1..];
      }
    }
  }

  lemma TrimLast<T>(a: seq<T>, b: seq<T>, x: T)
    ensures Lcs(a + [x], b + [x]) == Lcs(a, b) + 1
  {
    var c := LcsIsReached(a, b);
    ExtendLast(c, a, x);
    ExtendLast(c, b, x);
    LcsIsUpperBound(c + [x], a + [x], b + [x]);
    var d := LcsIsReached(a + [x], b + [x]);
    if d != [] {
      DropLast(d, a, x);
      DropLast(d, b, x);
      LcsIsUpperBound(d[..|d|-1], a, b);
    }
  }

  lemma {:induction false} TrimSuffix<T>(a: seq<T>, b: seq<T>, y: seq<T>)
    ensures Lcs(a + y, b + y) == Lcs(a, b) + |y|
    decreases y
  {
    if y == [] {
      assert a + y == a && b + y == b;
    } else {
      var u := y[..|y|-1];
      TrimSuffix(a, b, u);
      TrimLast(a + u, b + u, y[|y|-1]);
      assert a + y == a + u + [y[|y|-1]] && b + y == b + u + [y[|y|-1]];
    }
  }

  // ---------- rows ----------

  datatype Kind = Same | Remove | Add

  datatype Row = Row(kind: Kind, text: string)

  datatype NumberedRow = NumberedRow(row: Row, oldLine: Option<nat>, newLine: Option<nat>)

  /** The lines a reader of the old side sees. */
  function OldLines(rows: seq<Row>): seq<string> {
    if rows == [] then []
    else OldLines(rows[..|rows|-1]) + if rows[|rows|-1].kind.Add? then [] else [rows[|rows|-1].text]
  }

  function NewLines(rows: seq<Row>): seq<string> {
    if rows == [] then []
    else NewLines(rows[..|rows|-1]) + if rows[|rows|-1].kind.Remove? then [] else [rows[|rows|-1].text]
  }

  function SameCount(rows: seq<Row>): nat {
    if rows == [] then 0
    else SameCount(rows[..|rows|-1]) + if rows[|rows|-1].kind.Same? then 1 else 0
  }

  lemma Push(rows: seq<Row>, row: Row)
    ensures OldLines(rows + [row]) == OldLines(rows) + if row.kind.Add? then [] else [row.text]
    ensures NewLines(rows + [row]) == NewLines(rows) + if row.kind.Remove? then [] else [row.text]
    ensures SameCount(rows + [row]) == SameCount(rows) + if row.kind.Same? then 1 else 0
  {
    assert (rows + [row])[..|rows|] == rows;
  }

  /** The rows spell both lists and keep n lines. */
  predicate Spells(rows: seq<Row>, a: seq<string>, b: seq<string>, n: int) {
    OldLines(rows) == a && NewLines(rows) == b && SameCount(rows) == n
  }

  method PushAll(rows: seq<Row>, kind: Kind, lines: seq<string>) returns (r: seq<Row>)
    ensures OldLines(r) == OldLines(rows) + if kind.Add? then [] else lines
    ensures NewLines(r) == NewLines(rows) + if kind.Remove? then [] else lines
    ensures SameCount(r) == SameCount(rows) + if kind.Same? then |lines| else 0
  {
    r := rows;
    for i := 0 to |lines|
      invariant OldLines(r) == OldLines(rows) + if kind.Add? then [] else lines[..i]
      invariant NewLines(r) == NewLines(rows) + if kind.Remove? then [] else lines[..i]
      invariant SameCount(r) == SameCount(rows) + if kind.Same? then i else 0
    {
      Push(r, Row(kind, lines[i]));
      r := r + [Row(kind, lines[i])];
      assert lines[..i+1] == lines[..i] + [lines[i]];
    }
    assert lines[..|lines|] == lines;
  }

  // ---------- the table ----------

  /** The answer for the lines from i and from j on. */
  type Answers = (int, int) -> nat

  /** One entry follows from its neighbours. */
  predicate Follows(want: Answers, x: seq<string>, y: seq<string>, i: nat, j: nat)
    requires i < |x| && j < |y|
  {
    want(i, j) == if x[i] == y[j] then 1 + want(i + 1, j + 1) else Max(want(i + 1, j), want(i, j + 1))
  }

  ghost predicate IsAnswers(want: Answers, x: seq<string>, y: seq<string>) {
    && (forall i, j {:trigger Follows(want, x, y, i, j)} | 0 <= i < |x| && 0 <= j < |y| :: Follows(want, x, y, i, j))
    && (forall i | 0 <= i <= |x| :: want(i, |y|) == 0)
    && (forall j | 0 <= j <= |y| :: want(|x|, j) == 0)
  }

  ghost function LcsFrom(x: seq<string>, y: seq<string>): Answers {
    (i, j) => if 0 <= i <= |x| && 0 <= j <= |y| then Lcs(x[i..], y[j..]) else 0
  }

  lemma LcsFromFollows(x: seq<string>, y: seq<string>, i: nat, j: nat)
    requires i < |x| && j < |y|
    ensures Follows(LcsFrom(x, y), x, y, i, j)
  {
    assert x[i..][1..] == x[i+1..] && y[j..][1..] == y[j+1..];
  }

  lemma LcsFromIsAnswers(x: seq<string>, y: seq<string>)
    ensures IsAnswers(LcsFrom(x, y), x, y) && LcsFrom(x, y)(0, 0) == Lcs(x, y)
  {
    forall i, j | 0 <= i < |x| && 0 <= j < |y|
      ensures Follows(LcsFrom(x, y), x, y, i, j)
    {
      LcsFromFollows(x, y, i, j);
    }
    assert x[|x|..] == [] && y[|y|..] == [] && x[0..] == x && y[0..] == y;
  }

  /** The entries the loops have passed, counting down, are answers. */
  ghost predicate FilledFrom(lcs: array2<nat>, want: Answers, row: int, col: nat, last: nat)
    requires lcs.Length1 == last + 1
    reads lcs
  {
    && (forall i, j | row < i < lcs.Length0 && 0 <= i && 0 <= j <= last :: lcs[i, j] == want(i, j))
    && (forall j | col <= j <= last && 0 <= row < lcs.Length0 :: lcs[row, j] == want(row, j))
    && (forall i | 0 <= i < lcs.Length0 :: lcs[i, last] == want(i, last))
  }

  method FillRow(lcs: array2<nat>, x: seq<string>, y: seq<string>, i: nat, ghost want: Answers)
    requires lcs.Length0 == |x| + 1 && lcs.Length1 == |y| + 1 && i < |x|
    requires IsAnswers(want, x, y) && FilledFrom(lcs, want, i, |y|, |y|)
    modifies lcs
    ensures FilledFrom(lcs, want, i, 0, |y|)
  {
    var j := |y|;
    while j > 0
      invariant 0 <= j <= |y| && FilledFrom(lcs, want, i, j, |y|)
    {
      j := j - 1;
      assert Follows(want, x, y, i, j);
      lcs[i, j] := if x[i] == y[j] then 1 + lcs[i+1, j+1] else Max(lcs[i+1, j], lcs[i, j+1]);
    }
  }

  method FillTable(x: seq<string>, y: seq<string>, ghost want: Answers) returns (lcs: array2<nat>)
    requires IsAnswers(want, x, y)
    ensures fresh(lcs) && lcs.Length0 == |x| + 1 && lcs.Length1 == |y| + 1
    ensures forall i, j | 0 <= i <= |x| && 0 <= j <= |y| :: lcs[i, j] == want(i, j)
  {
    lcs := new nat[|x| + 1, |y| + 1]((i, j) => 0);
    var i := |x|;
    while i > 0
      invariant 0 <= i <= |x| && FilledFrom(lcs, want, i, 0, |y|)
    {
      i := i - 1;
      FillRow(lcs, x, y, i, want);
    }
  }

  // ---------- the walk ----------

  /** Rows for the lines before i and j, on a path through the table that loses nothing. */
  ghost predicate OnPath(rows: seq<Row>, x: seq<string>, y: seq<string>, i: nat, j: nat, want: Answers) {
    i <= |x| && j <= |y| && Spells(rows, x[..i], y[..j], want(0, 0) - want(i, j))
  }

  method Advance(lcs: array2<nat>, x: seq<string>, y: seq<string>, rows: seq<Row>, i: nat, j: nat, ghost want: Answers)
    returns (rows': seq<Row>, i': nat, j': nat)
    requires lcs.Length0 == |x| + 1 && lcs.Length1 == |y| + 1 && IsAnswers(want, x, y)
    requires forall i, j | 0 <= i <= |x| && 0 <= j <= |y| :: lcs[i, j] == want(i, j)
    requires OnPath(rows, x, y, i, j, want) && (i < |x| || j < |y|)
    ensures OnPath(rows', x, y, i', j', want) && i' + j' > i + j
  {
    assert i < |x| && j < |y| ==> Follows(want, x, y, i, j);
    assert i < |x| ==> x[..i+1] == x[..i] + [x[i]];
    assert j < |y| ==> y[..j+1] == y[..j] + [y[j]];
    var row;
    if i < |x| && j < |y| && x[i] == y[j] {
      row, i', j' := Row(Same, x[i]), i + 1, j + 1;
    } else if i < |x| && (j == |y| || lcs[i+1, j] >= lcs[i, j+1]) {
      row, i', j' := Row(Remove, x[i]), i + 1, j;
    } else {
      row, i', j' := Row(Add, y[j]), i, j + 1;
    }
    Push(rows, row);
    rows' := rows + [row];
  }

  method Walk(x: seq<string>, y: seq<string>) returns (rows: seq<Row>)
    ensures Spells(rows, x, y, Lcs(x, y))
  {
    ghost var want := LcsFrom(x, y);
    LcsFromIsAnswers(x, y);
    rows := WalkTable(x, y, want);
  }

  method WalkTable(x: seq<string>, y: seq<string>, ghost want: Answers) returns (rows: seq<Row>)
    requires IsAnswers(want, x, y)
    ensures Spells(rows, x, y, want(0, 0))
  {
    var lcs := FillTable(x, y, want);
    var i: nat, j: nat := 0, 0;
    rows := [];
    while i < |x| || j < |y|
      invariant OnPath(rows, x, y, i, j, want)
      invariant forall i, j | 0 <= i <= |x| && 0 <= j <= |y| :: lcs[i, j] == want(i, j)
      decreases |x| + |y| - i - j
    {
      rows, i, j := Advance(lcs, x, y, rows, i, j, want);
    }
    assert x[..|x|] == x && y[..|y|] == y;
  }

  // ---------- the comparison ----------

  /** The split that trimming finds: a common prefix and a common suffix that do not overlap. */
  predicate IsTrim(a: seq<string>, b: seq<string>, start: nat, endA: nat, endB: nat) {
    && start <= endA <= |a| && start <= endB <= |b|
    && a[..start] == b[..start] && a[endA..] == b[endB..]
    && (start < endA && start < endB ==> a[start] != b[start] && a[endA-1] != b[endB-1])
  }

  method Trim(a: seq<string>, b: seq<string>) returns (start: nat, endA: nat, endB: nat)
    ensures IsTrim(a, b, start, endA, endB)
  {
    start, endA, endB := 0, |a|, |b|;
    while start < endA && start < endB && a[start] == b[start]
      invariant start <= endA == |a| && start <= endB == |b| && a[..start] == b[..start]
      decreases endA - start
    {
      assert a[..start+1] == a[..start] + [a[start]] && b[..start+1] == b[..start] + [b[start]];
      start := start + 1;
    }
    while endA > start && endB > start && a[endA-1] == b[endB-1]
      invariant start <= endA <= |a| && start <= endB <= |b|
      invariant a[..start] == b[..start] && a[endA..] == b[endB..]
      invariant start < |a| && start < |b| ==> a[start] != b[start]
    {
      assert a[endA-1..] == [a[endA-1]] + a[endA..] && b[endB-1..] == [b[endB-1]] + b[endB..];
      endA, endB := endA - 1, endB - 1;
    }
  }

  /** Trimming loses nothing: the longest common subsequence is that of the middle and both ends. */
  lemma TrimKeepsLcs(a: seq<string>, b: seq<string>, start: nat, endA: nat, endB: nat)
    requires IsTrim(a, b, start, endA, endB)
    ensures Lcs(a, b) == start + Lcs(a[start..endA], b[start..endB]) + (|a| - endA)
  {
    TrimBoth(a[..start], a[start..endA], b[start..endB], a[endA..]);
    InThree(a, start, endA);
    InThree(b, start, endB);
  }

  lemma TrimBoth<T>(p: seq<T>, x: seq<T>, y: seq<T>, s: seq<T>)
    ensures Lcs(p + (x + s), p + (y + s)) == |p| + Lcs(x, y) + |s|
  {
    TrimSuffix(x, y, s);
    TrimPrefix(p, x + s, y + s);
  }

  lemma InThree<T>(a: seq<T>, i: nat, j: nat)
    requires i <= j <= |a|
    ensures a == a[..i] + (a[i..j] + a[j..])
  {
  }

  /** The table for n and m lines stays within the limit of cells. */
  predicate Fits(n: nat, m: nat, maxCells: nat) {
    (n + 1) * (m + 1) <= maxCells
  }

  /** Within the limit of cells the middle is compared line by line; beyond it, it is replaced whole. */
  method CompareMiddle(x: seq<string>, y: seq<string>, maxCells: nat) returns (rows: seq<Row>, optimal: bool)
    ensures optimal <==> Fits(|x|, |y|, maxCells)
    ensures Spells(rows, x, y, if optimal then Lcs(x, y) else 0)
  {
    optimal := Fits(|x|, |y|, maxCells);
    if optimal {
      rows := Walk(x, y);
    } else {
      rows := PushAll([], Remove, x);
      rows := PushAll(rows, Add, y);
    }
  }

  lemma FewerCells(n: nat, m: nat, n': nat, m': nat, maxCells: nat)
    requires n <= n' && m <= m'
    ensures Fits(n', m', maxCells) ==> Fits(n, m, maxCells)
  {
    assert (n + 1) * (m + 1) <= (n + 1) * (m' + 1);
    assert (n + 1) * (m' + 1) <= (n' + 1) * (m' + 1);
  }

  /** The rows before numbering: a faithful account of both sides, and how far it is from the optimum. */
  method Compare(a: seq<string>, b: seq<string>, maxCells: nat)
    returns (rows: seq<Row>, start: nat, endA: nat, endB: nat, optimal: bool)
    ensures IsTrim(a, b, start, endA, endB)
    ensures optimal <==> Fits(endA - start, endB - start, maxCells)
    ensures Spells(rows, a, b, Lcs(a, b) - if optimal then 0 else Lcs(a[start..endA], b[start..endB]))
  {
    start, endA, endB := Trim(a, b);
    TrimKeepsLcs(a, b, start, endA, endB);
    var middle;
    middle, optimal := CompareMiddle(a[start..endA], b[start..endB], maxCells);
    rows := Surround(a[..start], middle, a[endA..]);
    InThree(a, start, endA);
    InThree(b, start, endB);
  }

  method Surround(prefix: seq<string>, middle: seq<Row>, suffix: seq<string>) returns (rows: seq<Row>)
    ensures OldLines(rows) == prefix + (OldLines(middle) + suffix)
    ensures NewLines(rows) == prefix + (NewLines(middle) + suffix)
    ensures SameCount(rows) == |prefix| + SameCount(middle) + |suffix|
  {
    rows := PushAll([], Same, prefix);
    ConcatSpells(rows, middle);
    rows := PushAll(rows + middle, Same, suffix);
  }

  lemma {:induction false} ConcatSpells(r: seq<Row>, s: seq<Row>)
    ensures OldLines(r + s) == OldLines(r) + OldLines(s) && NewLines(r + s) == NewLines(r) + NewLines(s)
    ensures SameCount(r + s) == SameCount(r) + SameCount(s)
    decreases s
  {
    if s == [] {
      assert r + s == r;
    } else {
      var u, row := s[..|s|-1], s[|s|-1];
      ConcatSpells(r, u);
      Push(r + u, row);
      Push(u, row);
      assert u + [row] == s && r + u + [row] == r + s;
      SnocSpells(r, u, s, row);
    }
  }

  lemma SnocSpells(r: seq<Row>, u: seq<Row>, s: seq<Row>, row: Row)
    requires OldLines(r + u) == OldLines(r) + OldLines(u) && NewLines(r + u) == NewLines(r) + NewLines(u)
    requires OldLines(s) == OldLines(u) + if row.kind.Add? then [] else [row.text]
    requires NewLines(s) == NewLines(u) + if row.kind.Remove? then [] else [row.text]
    requires OldLines(r + s) == OldLines(r + u) + if row.kind.Add? then [] else [row.text]
    requires NewLines(r + s) == NewLines(r + u) + if row.kind.Remove? then [] else [row.text]
    ensures OldLines(r + s) == OldLines(r) + OldLines(s) && NewLines(r + s) == NewLines(r) + NewLines(s)
  {
  }

  // ---------- line numbers ----------

  /** A row's numbers count the lines of each side up to it. */
  predicate RowNumbered(rows: seq<Row>, k: nat, out: NumberedRow)
    requires k < |rows|
  {
    && out.row == rows[k]
    && out.oldLine == (if rows[k].kind.Add? then None else Some(|OldLines(rows[..k+1])|))
    && out.newLine == (if rows[k].kind.Remove? then None else Some(|NewLines(rows[..k+1])|))
  }

  ghost predicate NumberedTo(rows: seq<Row>, out: seq<NumberedRow>, n: nat)
    requires n <= |rows| && n <= |out|
  {
    forall k {:trigger RowNumbered(rows, k, out[k])} | 0 <= k < n :: RowNumbered(rows, k, out[k])
  }

  ghost predicate IsNumbered(rows: seq<Row>, out: seq<NumberedRow>) {
    |out| == |rows| && NumberedTo(rows, out, |rows|)
  }

  lemma LineCounts(rows: seq<Row>, k: nat)
    requires k < |rows|
    ensures |OldLines(rows[..k+1])| == |OldLines(rows[..k])| + if rows[k].kind.Add? then 0 else 1
    ensures |NewLines(rows[..k+1])| == |NewLines(rows[..k])| + if rows[k].kind.Remove? then 0 else 1
  {
    Push(rows[..k], rows[k]);
    assert rows[..k+1] == rows[..k] + [rows[k]];
  }

  lemma NumberedSnoc(rows: seq<Row>, out: seq<NumberedRow>, row: NumberedRow)
    requires |out| < |rows| && NumberedTo(rows, out, |out|) && RowNumbered(rows, |out|, row)
    ensures NumberedTo(rows, out + [row], |out| + 1)
  {
    var more := out + [row];
    forall k | 0 <= k < |more|
      ensures RowNumbered(rows, k, more[k])
    {
      assert k < |out| ==> RowNumbered(rows, k, out[k]) && more[k] == out[k];
    }
  }

  method Number(rows: seq<Row>) returns (out: seq<NumberedRow>)
    ensures IsNumbered(rows, out)
  {
    var oldLine, newLine := 0, 0;
    out := [];
    for k := 0 to |rows|
      invariant |out| == k && oldLine == |OldLines(rows[..k])| && newLine == |NewLines(rows[..k])|
      invariant NumberedTo(rows, out, k)
    {
      var row := rows[k];
      LineCounts(rows, k);
      if !row.kind.Add? {
        oldLine := oldLine + 1;
      }
      if !row.kind.Remove? {
        newLine := newLine + 1;
      }
      var numbered := NumberedRow(row, if row.kind.Add? then None else Some(oldLine),
                                  if row.kind.Remove? then None else Some(newLine));
      NumberedSnoc(rows, out, numbered);
      out := out + [numbered];
    }
  }

  lemma {:induction false} PrefixLines(rows: seq<Row>, k: nat)
    requires k <= |rows|
    ensures OldLines(rows[..k]) <= OldLines(rows) && NewLines(rows[..k]) <= NewLines(rows)
    decreases |rows| - k
  {
    if k == |rows| {
      assert rows[..k] == rows;
    } else {
      PrefixLines(rows, k + 1);
      Push(rows[..k], rows[k]);
      assert rows[..k+1] == rows[..k] + [rows[k]];
    }
  }

  predicate PointsAt(lines: seq<string>, number: nat, text: string) {
    1 <= number <= |lines| && lines[number-1] == text
  }

  lemma LastLine(rows: seq<Row>)
    requires rows != []
    ensures !rows[|rows|-1].kind.Add? ==> PointsAt(OldLines(rows), |OldLines(rows)|, rows[|rows|-1].text)
    ensures !rows[|rows|-1].kind.Remove? ==> PointsAt(NewLines(rows), |NewLines(rows)|, rows[|rows|-1].text)
  {
  }

  lemma PrefixPoints(lines: seq<string>, more: seq<string>, text: string)
    requires lines <= more && PointsAt(lines, |lines|, text)
    ensures PointsAt(more, |lines|, text)
  {
  }

  /** The number on a row is where its text stands in the old, and in the new, list of lines. */
  lemma NumbersPointAtLines(rows: seq<Row>, k: nat, out: NumberedRow)
    requires k < |rows| && RowNumbered(rows, k, out)
    ensures out.oldLine.Some? <==> !rows[k].kind.Add?
    ensures out.newLine.Some? <==> !rows[k].kind.Remove?
    ensures out.oldLine.Some? ==> PointsAt(OldLines(rows), out.oldLine.value, rows[k].text)
    ensures out.newLine.Some? ==> PointsAt(NewLines(rows), out.newLine.value, rows[k].text)
  {
    var upTo := rows[..k+1];
    PrefixLines(rows, k + 1);
    LastLine(upTo);
    if !rows[k].kind.Add? {
      PrefixPoints(OldLines(upTo), OldLines(rows), rows[k].text);
    }
    if !rows[k].kind.Remove? {
      PrefixPoints(NewLines(upTo), NewLines(rows), rows[k].text);
    }
  }

  // ---------- texts ----------

  function Lines(text: string): seq<string> {
    if text == "" then [] else Split(text, '\n')
  }

  function Unnumbered(out: seq<NumberedRow>): seq<Row> {
    seq(|out|, k requires 0 <= k < |out| => out[k].row)
  }

  lemma UnnumberedIs(rows: seq<Row>, out: seq<NumberedRow>)
    requires IsNumbered(rows, out)
    ensures Unnumbered(out) == rows
  {
    forall k | 0 <= k < |rows|
      ensures out[k].row == rows[k]
    {
      assert RowNumbered(rows, k, out[k]);
    }
  }

  predicate NothingInCommon(x: seq<string>, y: seq<string>) {
    forall k | 0 <= k < |x| :: x[k] !in y
  }

  lemma NothingKept(x: seq<string>, y: seq<string>)
    ensures Lcs(x, y) == 0 <==> NothingInCommon(x, y)
  {
    var c := LcsIsReached(x, y);
    if c != [] {
      CommonLine(c, x, y);
    }
    if !NothingInCommon(x, y) {
      var k :| 0 <= k < |x| && x[k] in y;
      SingleIsSubsequence(x, k);
      var m :| 0 <= m < |y| && y[m] == x[k];
      SingleIsSubsequence(y, m);
      LcsIsUpperBound([x[k]], x, y);
    }
  }

  lemma {:induction false} SingleIsSubsequence(a: seq<string>, k: nat)
    requires k < |a|
    ensures IsSubsequence([a[k]], a)
    decreases k
  {
    if k == 0 {
      assert [a[0]][1..] == [];
    } else {
      SingleIsSubsequence(a[1..], k - 1);
      Weaken([a[k]], a);
    }
  }

  lemma {:induction false} HeadOccurs(c: seq<string>, a: seq<string>)
    requires c != [] && IsSubsequence(c, a)
    ensures c[0] in a
    decreases a
  {
    if a[0] != c[0] {
      HeadOccurs(c, a[1..]);
    }
  }

  lemma CommonLine(c: seq<string>, x: seq<string>, y: seq<string>)
    requires c != [] && IsCommon(c, x, y)
    ensures !NothingInCommon(x, y)
  {
    HeadOccurs(c, x);
    HeadOccurs(c, y);
    var k :| 0 <= k < |x| && x[k] == c[0];
  }

  /**
   * `ciLineDiff`. What is kept is a longest common subsequence exactly when the middles, between a common
   * beginning and a common end, fit into the limit of cells or have no line in common.
   */
  method Diff(before: string, after: string, maxCells: nat)
    returns (out: seq<NumberedRow>, start: nat, endA: nat, endB: nat)
    ensures IsNumbered(Unnumbered(out), out)
    ensures OldLines(Unnumbered(out)) == Lines(before) && NewLines(Unnumbered(out)) == Lines(after)
    ensures IsTrim(Lines(before), Lines(after), start, endA, endB)
    ensures IsLongest(Lines(before), Lines(after), SameCount(Unnumbered(out)))
       <==> Fits(endA - start, endB - start, maxCells)
            || NothingInCommon(Lines(before)[start..endA], Lines(after)[start..endB])
    ensures Fits(|Lines(before)|, |Lines(after)|, maxCells) ==> Fits(endA - start, endB - start, maxCells)
  {
    var rows;
    rows, start, endA, endB := CompareLines(Lines(before), Lines(after), maxCells);
    out := Number(rows);
    UnnumberedIs(rows, out);
  }

  method CompareLines(a: seq<string>, b: seq<string>, maxCells: nat)
    returns (rows: seq<Row>, start: nat, endA: nat, endB: nat)
    ensures OldLines(rows) == a && NewLines(rows) == b && IsTrim(a, b, start, endA, endB)
    ensures IsLongest(a, b, SameCount(rows))
       <==> Fits(endA - start, endB - start, maxCells) || NothingInCommon(a[start..endA], b[start..endB])
    ensures Fits(|a|, |b|, maxCells) ==> Fits(endA - start, endB - start, maxCells)
  {
    var optimal;
    rows, start, endA, endB, optimal := Compare(a, b, maxCells);
    FewerCells(endA - start, endB - start, |a|, |b|, maxCells);
    LcsIsLongest(a, b, SameCount(rows));
    NothingKept(a[start..endA], b[start..endB]);
  }

  /** Too large by one cell: the line in the middle is common, and yet replaced. */
  method LimitMissesCommonLine() returns (rows: seq<Row>)
    ensures OldLines(rows) == ["x", "c", "y"] && NewLines(rows) == ["p", "c", "q"]
    ensures !IsLongest(["x", "c", "y"], ["p", "c", "q"], SameCount(rows))
  {
    var start, endA, endB;
    rows, start, endA, endB := CompareLines(["x", "c", "y"], ["p", "c", "q"], 15);
    assert start == 0;
    assert endA == 3 && endB == 3;
    assert ["x", "c", "y"][0..3][1] == "c" && ["p", "c", "q"][0..3][1] == "c";
    assert "c" in ["p", "c", "q"][0..3];
  }

  /** Both texts can be read back from the rows. */
  lemma RowsGiveTexts(before: string, out: seq<NumberedRow>)
    requires OldLines(Unnumbered(out)) == Lines(before)
    ensures before == if OldLines(Unnumbered(out)) == [] then "" else Join(OldLines(Unnumbered(out)), '\n')
  {
    if before != "" {
      JoinSplit(before, '\n');
    }
  }
}
