/** Splitting text at a separator and joining it back, as the sources do with `split` and `join`. */
module Text {

  /** The pieces of s between occurrences of sep; always at least one piece. */
  function Split(s: string, sep: char): (parts: seq<string>)
    ensures |parts| >= 1
  {
    if s == "" then [""]
    else
      var rest := Split(s[1..], sep);
      if s[0] == sep then [""] + rest else [[s[0]] + rest[0]] + rest[1..]
  }

  function Join(parts: seq<string>, sep: char): string {
    if |parts| == 0 then ""
    else if |parts| == 1 then parts[0]
    else parts[0] + [sep] + Join(parts[1..], sep)
  }

  ghost predicate Lacks(s: string, c: char) {
    forall k | 0 <= k < |s| :: s[k] != c
  }

  ghost predicate AllLack(parts: seq<string>, c: char) {
    forall k | 0 <= k < |parts| :: Lacks(parts[k], c)
  }

  lemma {:induction false} SplitLacks(s: string, sep: char)
    ensures AllLack(Split(s, sep), sep)
  {
    if s != "" {
      SplitLacks(s[1..], sep);
      var rest := Split(s[1..], sep);
      assert Lacks(rest[0], sep);
    }
  }

  /** No character is lost: joining the pieces gives the text back. */
  lemma {:induction false} JoinSplit(s: string, sep: char)
    ensures Join(Split(s, sep), sep) == s
  {
    if s != "" {
      JoinSplit(s[1..], sep);
      var rest := Split(s[1..], sep);
      if s[0] == sep {
        assert ([""] + rest)[1..] == rest;
        assert Join([""] + rest, sep) == [sep] + Join(rest, sep);
      } else {
        var parts := [[s[0]] + rest[0]] + rest[1..];
        assert parts[1..] == rest[1..];
        assert Join(parts, sep) == [s[0]] + Join(rest, sep);
      }
    }
  }

  /** A piece without separators in front of a separator is split off whole. */
  lemma {:induction false} SplitHead(head: string, tail: string, sep: char)
    requires Lacks(head, sep)
    ensures Split(head, sep) == [head]
    ensures Split(head + [sep] + tail, sep) == [head] + Split(tail, sep)
  {
    if head == "" {
      assert ([sep] + tail)[1..] == tail;
      assert head + [sep] + tail == [sep] + tail;
    } else {
      SplitHead(head[1..], tail, sep);
      var s := head + [sep] + tail;
      assert s[1..] == head[1..] + [sep] + tail;
      assert [head[0]] + head[1..] == head;
    }
  }

  /** Pieces that contain no separator survive a join. */
  lemma {:induction false} SplitJoin(parts: seq<string>, sep: char)
    requires |parts| >= 1 && AllLack(parts, sep)
    ensures Split(Join(parts, sep), sep) == parts
  {
    assert Lacks(parts[0], sep);
    if |parts| == 1 {
      SplitHead(parts[0], "", sep);
    } else {
      SplitJoin(parts[1..], sep);
      SplitHead(parts[0], Join(parts[1..], sep), sep);
      assert parts == [parts[0]] + parts[1..];
    }
  }

  lemma FirstPiece(c: char, ra: seq<string>, rb: seq<string>)
    requires ra != []
    ensures [[c] + (ra + rb)[0]] + (ra + rb)[1..] == [[c] + ra[0]] + ra[1..] + rb
    ensures [""] + (ra + rb) == [""] + ra + rb
  {
    assert (ra + rb)[1..] == ra[1..] + rb;
  }

  /** Splitting distributes over a separator. */
  lemma {:induction false} SplitConcat(a: string, b: string, sep: char)
    ensures Split(a + [sep] + b, sep) == Split(a, sep) + Split(b, sep)
  {
    if a == "" {
      assert a + [sep] + b == [sep] + b;
    } else {
      var tail := a[1..] + [sep] + b;
      SplitConcat(a[1..], b, sep);
      assert a + [sep] + b == [a[0]] + tail && a == [a[0]] + a[1..];
      FirstPiece(a[0], Split(a[1..], sep), Split(b, sep));
    }
  }
}
