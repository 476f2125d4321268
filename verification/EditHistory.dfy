/** Undo and redo in the settings editor (web/ci-editor.js, CiEditHistory). */
module EditHistory {
  import opened Wrappers

  /** A serialized snapshot and the key that tells whether two snapshots show the same definition. */
  datatype Entry = Entry(data: string, key: string)

  const MERGE_MILLISECONDS := 800

  // ---------- the history without bounds ----------

  /** Everything ever recorded on the current branch, and the position in it. */
  datatype Timeline = Timeline(entries: seq<Entry>, index: nat, group: Option<string>, time: int) {
    predicate Valid() {
      index < |entries|
    }
  }

  predicate Truthy(group: Option<string>) {
    group.Some? && group.value != ""
  }

  predicate Merges(t: Timeline, group: Option<string>, now: int) {
    && Truthy(group) && group == t.group && now - t.time < MERGE_MILLISECONDS
    && t.index > 0 && t.index == |t.entries| - 1
  }

  function Recorded(t: Timeline, e: Entry, group: Option<string>, now: int): Timeline
    requires t.Valid()
  {
    if t.entries[t.index].key == e.key then
      t.(entries := t.entries[t.index := t.entries[t.index].(data := e.data)],
         group := if Truthy(group) then t.group else None)
    else if Merges(t, group, now) then Timeline(t.entries[..t.index] + [e], t.index, group, now)
    else Timeline(t.entries[..t.index+1] + [e], t.index + 1, group, now)
  }

  function Moved(t: Timeline, delta: int): Timeline
    requires 0 <= t.index + delta < |t.entries|
  {
    t.(index := t.index + delta, group := None)
  }

  /** Undoing a change that was not merged shows the state before it; redoing shows the change again. */
  lemma UndoRestoresWhatWasBefore(t: Timeline, e: Entry, group: Option<string>, now: int)
    requires t.Valid() && t.entries[t.index].key != e.key && !Merges(t, group, now)
    ensures var after := Recorded(t, e, group, now); after.Valid() && after.index > 0
    ensures var undone := Moved(Recorded(t, e, group, now), -1);
            && undone.entries[undone.index] == t.entries[t.index] && undone.index == t.index
            && undone.entries[..undone.index+1] == t.entries[..t.index+1]
            && Moved(undone, 1).entries[Moved(undone, 1).index] == e
  {
  }

  /** A run of merged changes is undone as one: the state before the first of them comes back. */
  lemma {:induction false} MergedChangesUndoAsOne(t: Timeline, edits: seq<(Entry, int)>, group: string)
    requires t.Valid() && group != "" && edits != [] && MergeRun(t, edits, group)
    ensures var after := RecordedAll(t, edits, group);
            && after.Valid() && after.index == t.index + 1
            && after.entries == t.entries[..t.index+1] + [edits[|edits|-1].0]
            && after.group == Some(group) && after.time == edits[|edits|-1].1
    decreases edits
  {
    if |edits| > 1 {
      MergedChangesUndoAsOne(t, edits[..|edits|-1], group);
    } else {
      assert edits[..0] == [];
    }
  }

  /**
   * Changes of one key after another: the new one takes the place of the last exactly when both carry the same
   * nonempty group, less than 800 milliseconds lie between them, and the last one is not the only entry.
   */
  lemma MergesExactly(t: Timeline, first: Entry, one: Option<string>, at: int, next: Entry, two: Option<string>,
                      now: int)
    requires t.Valid() && t.entries[t.index].key != first.key && first.key != next.key
    ensures var before := Recorded(t, first, one, at);
            var after := Recorded(before, next, two, now);
            && after.Valid() && after.entries[after.index] == next && after.index == |after.entries| - 1
            && after.entries[..after.index]
               == if two.Some? && two.value != "" && one == two && now < at + 800
                  then before.entries[..before.index] else before.entries
  {
    assert Recorded(t, first, one, at).index > 0;
  }

  /**
   * Data without a group under the current key ends the run of merged changes: the next change of any group is an
   * entry of its own, and undoing it shows that data again.
   */
  lemma UngroupedDataEndsMerging(t: Timeline, e: Entry, at: int, next: Entry, group: Option<string>, now: int)
    requires t.Valid() && t.entries[t.index].key == e.key && next.key != e.key
    ensures var after := Recorded(Recorded(t, e, None, at), next, group, now);
            && after.Valid() && after.index == t.index + 1
            && after.entries == t.entries[..t.index] + [e, next]
            && Moved(after, -1).entries[Moved(after, -1).index] == e
  {
  }

  /** Data with a group under the current key leaves the run of merged changes open. */
  lemma GroupedDataKeepsMerging(t: Timeline, e: Entry, data: Option<string>, at: int, next: Entry,
                                group: Option<string>, now: int)
    requires t.Valid() && t.entries[t.index].key == e.key && next.key != e.key && Truthy(data)
    requires Merges(t, group, now)
    ensures var after := Recorded(Recorded(t, e, data, at), next, group, now);
            && after.Valid() && after.index == t.index && after.entries == t.entries[..t.index] + [next]
            && Moved(after, -1).entries[Moved(after, -1).index] == t.entries[t.index-1]
  {
  }

  /** After a move nothing is merged into the entry that it shows, whatever the next change is and when it comes. */
  lemma MoveEndsMerging(t: Timeline, delta: int, next: Entry, group: Option<string>, now: int)
    requires 0 <= t.index + delta < |t.entries| && t.entries[t.index + delta].key != next.key
    ensures var after := Recorded(Moved(t, delta), next, group, now);
            && after.Valid() && after.index == t.index + delta + 1
            && after.entries == t.entries[..t.index+delta+1] + [next]
  {
  }

  /** The first change opens a new entry; every later one arrives in time, with another key. */
  predicate MergeRun(t: Timeline, edits: seq<(Entry, int)>, group: string)
    requires t.Valid()
    decreases edits
  {
    && edits != []
    && if |edits| == 1 then edits[0].0.key != t.entries[t.index].key && !Merges(t, Some(group), edits[0].1)
       else
         && MergeRun(t, edits[..|edits|-1], group)
         && edits[|edits|-1].0.key != edits[|edits|-2].0.key
         && edits[|edits|-1].1 - edits[|edits|-2].1 < MERGE_MILLISECONDS
  }

  function RecordedAll(t: Timeline, edits: seq<(Entry, int)>, group: string): (r: Timeline)
    requires t.Valid()
    ensures r.Valid()
    decreases edits
  {
    if edits == [] then t
    else
      var last := edits[|edits|-1];
      Recorded(RecordedAll(t, edits[..|edits|-1], group), last.0, Some(group), last.1)
  }

  // ---------- the bounded history ----------

  function Weight(e: Entry): nat {
    (|e.data| + |e.key|) * 2
  }

  function TotalWeight(entries: seq<Entry>): nat {
    if entries == [] then 0 else TotalWeight(entries[..|entries|-1]) + Weight(entries[|entries|-1])
  }

  lemma {:induction false} WeightOfTail(entries: seq<Entry>)
    requires entries != []
    ensures TotalWeight(entries) == Weight(entries[0]) + TotalWeight(entries[1..])
  {
    if |entries| == 1 {
      assert entries[..0] == [] && entries[1..] == [];
    } else {
      WeightOfTail(entries[..|entries|-1]);
      assert entries[..|entries|-1][1..] == entries[1..][..|entries|-2];
    }
  }

  lemma {:induction false} WeightOfReplaced(entries: seq<Entry>, i: nat, e: Entry)
    requires i < |entries|
    ensures TotalWeight(entries[i := e]) == TotalWeight(entries) - Weight(entries[i]) + Weight(e)
    decreases |entries|
  {
    var last := |entries| - 1;
    if i < last {
      WeightOfReplaced(entries[..last], i, e);
      assert entries[i := e][..last] == entries[..last][i := e];
    } else {
      assert entries[i := e][..last] == entries[..last];
    }
  }

  /** The two newest entries always fit, whatever they weigh. */
  predicate Fits(limit: nat, budget: nat, entries: seq<Entry>) {
    |entries| <= 2 || (|entries| <= limit && TotalWeight(entries) <= budget)
  }

  /** Recording new data under the current key is not checked: these three entries fit, and then no longer do. */
  lemma SameKeyOverflows()
    ensures var t := Timeline([Entry("", "a"), Entry("", "b"), Entry("", "c")], 2, None, 0);
            && Fits(3, 6, t.entries)
            && Recorded(t, Entry("data", "c"), None, 1).entries == t.entries[2 := Entry("data", "c")]
            && !Fits(3, 6, Recorded(t, Entry("data", "c"), None, 1).entries)
  {
    var entries := [Entry("", "a"), Entry("", "b"), Entry("", "c")];
    assert entries[..2] == [entries[0], entries[1]] && entries[..1] == [entries[0]];
    assert entries[..2][..1] == entries[..1] && entries[..1][..0] == [];
    assert TotalWeight(entries[..1]) == 2 && TotalWeight(entries[..2]) == 4 && TotalWeight(entries) == 6;
    WeightOfReplaced(entries, 2, Entry("data", "c"));
  }

  /** The history behind a window. */
  function Behind(dropped: seq<Entry>, w: Timeline): Timeline {
    w.(entries := dropped + w.entries, index := |dropped| + w.index)
  }

  lemma CutBehind(dropped: seq<Entry>, entries: seq<Entry>, n: nat, e: Entry)
    requires n <= |entries|
    ensures dropped + (entries[..n] + [e]) == (dropped + entries)[..|dropped|+n] + [e]
  {
  }

  /** A window of at least two entries sees the same reasons to merge as the whole history, and changes its end. */
  lemma NewKeyBehind(dropped: seq<Entry>, w: Timeline, e: Entry, group: Option<string>, now: int)
    requires w.Valid() && (dropped != [] ==> |w.entries| >= 2) && w.entries[w.index].key != e.key
    ensures Behind(dropped, w).Valid()
    ensures Recorded(Behind(dropped, w), e, group, now) == Behind(dropped, Recorded(w, e, group, now))
  {
    var t := Behind(dropped, w);
    assert t.entries[t.index] == w.entries[w.index];
    assert Merges(t, group, now) == Merges(w, group, now);
    CutBehind(dropped, w.entries, if Merges(w, group, now) then w.index else w.index + 1, e);
  }

  lemma SameKeyBehind(dropped: seq<Entry>, w: Timeline, e: Entry, group: Option<string>, now: int)
    requires w.Valid() && w.entries[w.index].key == e.key
    ensures Behind(dropped, w).Valid()
    ensures Recorded(Behind(dropped, w), e, group, now) == Behind(dropped, Recorded(w, e, group, now))
  {
    var t := Behind(dropped, w);
    assert t.entries[t.index] == w.entries[w.index];
    assert t.entries[t.index := e] == dropped + w.entries[w.index := e];
  }

  class CiEditHistory {
    var entries: seq<Entry>
    var index: nat
    const limit: nat
    const budget: nat
    var group: Option<string>
    var time: int
    /** The oldest entries, given up to stay within the bounds. */
    ghost var dropped: seq<Entry>

    ghost predicate Consistent()
      reads this
    {
      index < |entries| && (dropped != [] ==> |entries| >= 2)
    }

    /** In every state between calls there are no more entries than allowed. */
    ghost predicate Valid()
      reads this
    {
      Consistent() && (|entries| <= 2 || |entries| <= limit)
    }

    ghost function Window(): Timeline
      reads this
    {
      Timeline(entries, index, group, time)
    }

    /** What the history would hold without bounds. */
    ghost function Whole(): Timeline
      reads this
    {
      Behind(dropped, Window())
    }

    ghost predicate WithinBounds()
      reads this
    {
      Fits(limit, budget, entries)
    }

    constructor (snapshot: Entry, limit: nat, budget: nat)
      ensures Valid() && Whole() == Timeline([snapshot], 0, None, 0)
      ensures this.limit == limit && this.budget == budget
    {
      entries, index, group, time := [snapshot], 0, None, 0;
      this.limit, this.budget := limit, budget;
      dropped := [];
    }

    method TotalSize() returns (size: nat)
      ensures size == TotalWeight(entries)
    {
      size := 0;
      for i := 0 to |entries|
        invariant size == TotalWeight(entries[..i])
      {
        assert entries[..i+1][..i] == entries[..i];
        size := size + Weight(entries[i]);
      }
      assert entries[..|entries|] == entries;
    }

    /** With the entry dropped last, the window would not fit. */
    ghost predicate DropWasNeeded()
      reads this
    {
      dropped != [] && !Fits(limit, budget, [dropped[|dropped|-1]] + entries)
    }

    /** One turn of the loop. */
    method DropFirst(size: nat) returns (rest: nat)
      requires Consistent() && index == |entries| - 1 && !Fits(limit, budget, entries) && size == TotalWeight(entries)
      modifies this`entries, this`index, this`dropped
      ensures Consistent() && index == |entries| - 1 && rest == TotalWeight(entries) && DropWasNeeded()
      ensures |entries| == old(|entries|) - 1 && entries[index] == old(entries[index])
      ensures dropped + entries == old(dropped + entries) && old(dropped) <= dropped
    {
      WeightOfTail(entries);
      var first := entries[0];
      assert [first] + entries[1..] == entries;
      assert dropped + entries == (dropped + [first]) + entries[1..];
      dropped := dropped + [first];
      entries := entries[1..];
      index := index - 1;
      rest := size - Weight(first);
    }

    /** Drops the oldest entries, but never the last two, and no more than it takes. */
    method DropOldest()
      requires Consistent() && index == |entries| - 1
      modifies this`entries, this`index, this`dropped
      ensures Valid() && Whole() == old(Whole()) && WithinBounds()
      ensures dropped != old(dropped) ==> DropWasNeeded()
      ensures index == |entries| - 1 && old(dropped) <= dropped && entries[index] == old(entries[index])
    {
      var size := TotalSize();
      while |entries| > 2 && (|entries| > limit || size > budget)
        invariant Consistent() && index == |entries| - 1 && size == TotalWeight(entries)
        invariant dropped != old(dropped) ==> DropWasNeeded()
        invariant entries[index] == old(entries[index])
        invariant dropped + entries == old(dropped + entries) && old(dropped) <= dropped
        decreases |entries|
      {
        size := DropFirst(size);
      }
    }

    /** The entry takes the place of the redo entries, or of the current one when changes merge. */
    method Append(e: Entry, newGroup: Option<string>, now: int)
      requires Consistent() && entries[index].key != e.key
      modifies this`entries, this`index, this`group, this`time
      ensures Window() == Recorded(old(Window()), e, newGroup, now)
      ensures Consistent() && index == |entries| - 1 && entries[index] == e
    {
      var merge := Truthy(newGroup) && newGroup == group && now - time < MERGE_MILLISECONDS
                   && index > 0 && index == |entries| - 1;
      assert entries[..index+1][..index] == entries[..index];
      entries := entries[..index+1];
      if merge {
        entries := entries[index := e];
        assert entries == entries[..index] + [e];
      } else {
        entries := entries + [e];
        index := index + 1;
      }
      group, time := newGroup, now;
    }

    /**
     * `record`: the window shows the end of what an unbounded history would hold. A new key leaves it within its
     * bounds, giving up no more than it takes; the current key gives up nothing, so the new weight decides.
     */
    method Record(e: Entry, newGroup: Option<string>, now: int)
      requires Valid()
      modifies this
      ensures Valid() && Whole() == Recorded(old(Whole()), e, newGroup, now)
      ensures old(entries[index]).key != e.key ==> WithinBounds()
      ensures dropped != old(dropped) ==> old(entries[index]).key != e.key && DropWasNeeded()
      ensures old(entries[index]).key == e.key ==>
                (WithinBounds() <==>
                  || |entries| <= 2
                  || TotalWeight(old(entries)) - Weight(old(entries[index])) + Weight(e) <= budget)
      ensures entries[index] == Entry(e.data, e.key)
    {
      if entries[index].key == e.key {
        SameKeyBehind(dropped, Window(), e, newGroup, now);
        WeightOfReplaced(entries, index, e);
        entries := entries[index := entries[index].(data := e.data)];
        if !Truthy(newGroup) {
          group := None;
        }
      } else {
        NewKeyBehind(dropped, Window(), e, newGroup, now);
        Append(e, newGroup, now);
        DropOldest();
      }
    }

    /** `move`: as in the unbounded history, as far as the window reaches. */
    method Move(delta: int) returns (r: Option<string>)
      requires Valid()
      modifies this`index, this`group
      ensures Valid() && WithinBounds() == old(WithinBounds())
      ensures 0 <= old(index) + delta < |entries| ==>
                Whole() == Moved(old(Whole()), delta) && r == Some(Whole().entries[Whole().index].data)
      ensures !(0 <= old(index) + delta < |entries|) ==> Whole() == old(Whole()) && r == None
    {
      var next := index + delta;
      if next < 0 || next >= |entries| {
        return None;
      }
      index := next;
      group := None;
      r := Some(entries[index].data);
    }
  }
}
