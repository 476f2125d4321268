/** Which directory modes the owner of an unpacked archive may set, one after the other (read_archive). */
module RestoreModes {
  import opened Wrappers
  import opened Archive
  import opened ArchiveRestore

  predicate OwnerMaySearch(mode: nat) {
    mode / 64 % 2 == 1
  }

  /** Every directory on the way to the path can be passed by its owner. */
  predicate Searchable(t: Target, comps: seq<string>) {
    forall n | 0 < n < |comps| :: comps[..n] in t && t[comps[..n]].DirAt? && OwnerMaySearch(t[comps[..n]].mode)
  }

  /** When the turn of a directory comes, everything above it can still be passed. */
  predicate ModesSettable(privileged: bool, t: Target, modes: seq<(seq<string>, nat)>)
    decreases |modes|
  {
    modes == [] || (var last := modes[|modes|-1];
      && (privileged || Searchable(t, last.0))
      && ModesSettable(privileged, t[last.0 := DirAt(last.1)], modes[..|modes|-1]))
  }

  /** Entry j is where a directory above that of entry i is listed next after it. */
  predicate ParentListedNext(modes: seq<(seq<string>, nat)>, i: nat, j: nat) {
    i < j < |modes| && modes[j].0 < modes[i].0 && forall m | i < m < j :: modes[m].0 != modes[j].0
  }

  /** No directory is listed after what is below it with a mode that keeps its owner from passing. */
  ghost predicate WayStaysOpen(modes: seq<(seq<string>, nat)>) {
    forall i: nat, j: nat | ParentListedNext(modes, i, j) :: OwnerMaySearch(modes[j].1)
  }

  /** The target when the turn of entry i comes: the modes after it were set. */
  function AtTurn(t: Target, modes: seq<(seq<string>, nat)>, i: nat): Target
    requires i < |modes|
    decreases |modes| - i
  {
    if i == |modes| - 1 then t else AtTurn(t, modes, i + 1)[modes[i+1].0 := DirAt(modes[i+1].1)]
  }

  lemma {:induction false} TurnsOfInit(t: Target, modes: seq<(seq<string>, nat)>, i: nat)
    requires i + 1 < |modes|
    ensures var last := modes[|modes|-1];
            AtTurn(t[last.0 := DirAt(last.1)], modes[..|modes|-1], i) == AtTurn(t, modes, i)
    decreases |modes| - i
  {
    if i + 2 < |modes| {
      TurnsOfInit(t, modes, i + 1);
    }
  }

  ghost predicate EachTurnOpen(t: Target, modes: seq<(seq<string>, nat)>) {
    forall i {:trigger AtTurn(t, modes, i)} | 0 <= i < |modes| :: Searchable(AtTurn(t, modes, i), modes[i].0)
  }

  lemma {:induction false} SettableByTurns(t: Target, modes: seq<(seq<string>, nat)>)
    ensures ModesSettable(false, t, modes) <==> EachTurnOpen(t, modes)
    decreases |modes|
  {
    if modes != [] {
      var last, init := modes[|modes|-1], modes[..|modes|-1];
      SettableByTurns(t[last.0 := DirAt(last.1)], init);
      assert AtTurn(t, modes, |modes| - 1) == t;
      forall i | 0 <= i < |init|
        ensures AtTurn(t[last.0 := DirAt(last.1)], init, i) == AtTurn(t, modes, i) && init[i] == modes[i]
      {
        TurnsOfInit(t, modes, i);
      }
    }
  }

  /** What a path is at that turn: as listed next, or as it was. */
  lemma {:induction false} DirAtTurn(t: Target, modes: seq<(seq<string>, nat)>, i: nat, c: seq<string>)
    requires i < |modes| && c in t
    ensures c in AtTurn(t, modes, i)
    ensures (exists j :: IsNextListing(modes, i, j, c) && AtTurn(t, modes, i)[c] == DirAt(modes[j].1))
         || ((forall j | i < j < |modes| :: modes[j].0 != c) && AtTurn(t, modes, i)[c] == t[c])
    decreases |modes| - i
  {
    if i + 1 < |modes| {
      DirAtTurn(t, modes, i + 1, c);
      if modes[i+1].0 == c {
        assert IsNextListing(modes, i, i + 1, c);
      } else if exists j :: IsNextListing(modes, i + 1, j, c) && AtTurn(t, modes, i + 1)[c] == DirAt(modes[j].1) {
        var j :| IsNextListing(modes, i + 1, j, c) && AtTurn(t, modes, i + 1)[c] == DirAt(modes[j].1);
        assert IsNextListing(modes, i, j, c);
      }
    }
  }

  predicate IsNextListing(modes: seq<(seq<string>, nat)>, i: nat, j: int, c: seq<string>) {
    i < j < |modes| && modes[j].0 == c && forall m | i < m < j :: modes[m].0 != c
  }

  /** Directories are private, and everything above a path is a directory. */
  ghost predicate OpenTree(t: Target) {
    forall c {:trigger OpenPath(t, c)} | c in t :: OpenPath(t, c)
  }

  ghost predicate OpenPath(t: Target, c: seq<string>)
    requires c in t
  {
    && c != [] && (t[c].DirAt? ==> t[c].mode == PRIVATE)
    && forall n {:trigger c[..n]} | 0 < n < |c| :: c[..n] in t && t[c[..n]].DirAt?
  }

  lemma OpenTurn(t: Target, modes: seq<(seq<string>, nat)>, i: nat, n: nat)
    requires OpenTree(t) && ModesAreDirs(t, modes) && i < |modes| && 0 < n < |modes[i].0| && WayStaysOpen(modes)
    ensures var u, c := AtTurn(t, modes, i), modes[i].0[..n]; c in u && u[c].DirAt? && OwnerMaySearch(u[c].mode)
  {
    var c := modes[i].0[..n];
    assert OpenPath(t, modes[i].0) && c in t && OpenPath(t, c);
    DirAtTurn(t, modes, i, c);
    if exists j :: IsNextListing(modes, i, j, c) && AtTurn(t, modes, i)[c] == DirAt(modes[j].1) {
      var j :| IsNextListing(modes, i, j, c) && AtTurn(t, modes, i)[c] == DirAt(modes[j].1);
      assert ParentListedNext(modes, i, j);
    }
  }

  lemma ClosedTurn(t: Target, modes: seq<(seq<string>, nat)>, i: nat, j: nat)
    requires OpenTree(t) && ModesAreDirs(t, modes) && ParentListedNext(modes, i, j) && !OwnerMaySearch(modes[j].1)
    ensures !Searchable(AtTurn(t, modes, i), modes[i].0)
  {
    var c := modes[j].0;
    DirAtTurn(t, modes, i, c);
    assert modes[i].0[..|c|] == c;
    assert OpenPath(t, c);
  }

  /** Exactly the lists on which the way stays open can be set by the owner of freshly unpacked directories. */
  lemma SettableExactly(t: Target, modes: seq<(seq<string>, nat)>)
    requires OpenTree(t) && ModesAreDirs(t, modes)
    ensures ModesSettable(false, t, modes) <==> WayStaysOpen(modes)
  {
    SettableByTurns(t, modes);
    if WayStaysOpen(modes) {
      forall i | 0 <= i < |modes|
        ensures Searchable(AtTurn(t, modes, i), modes[i].0)
      {
        forall n | 0 < n < |modes[i].0|
          ensures var u, c := AtTurn(t, modes, i), modes[i].0[..n]; c in u && u[c].DirAt? && OwnerMaySearch(u[c].mode)
        {
          OpenTurn(t, modes, i, n);
        }
      }
    } else {
      var i: nat, j: nat :| ParentListedNext(modes, i, j) && !OwnerMaySearch(modes[j].1);
      ClosedTurn(t, modes, i, j);
      assert !Searchable(AtTurn(t, modes, i), modes[i].0);
    }
  }

  /** Parents are made from the top down. */
  lemma {:induction false} ParentsKeepOpen(t: Target, comps: seq<string>, n: nat)
    requires OpenTree(t) && n <= |comps| && MakeParents(t, comps, n).Some?
    ensures OpenTree(MakeParents(t, comps, n).value)
    ensures var u := MakeParents(t, comps, n).value; forall m | 0 < m <= n :: comps[..m] in u && u[comps[..m]].DirAt?
  {
    if n > 0 {
      ParentsKeepOpen(t, comps, n - 1);
      var before, after := MakeParents(t, comps, n - 1).value, MakeParents(t, comps, n).value;
      forall c | c in after
        ensures OpenPath(after, c)
      {
        if c in before {
          assert OpenPath(before, c);
        } else {
          assert c == comps[..n];
          assert forall m | 0 < m < n :: comps[..n][..m] == comps[..m];
        }
      }
    }
  }

  lemma PlaceKeepsOpen(t: Target, comps: seq<string>, x: Extracted)
    requires OpenTree(t) && comps != [] && Place(t, comps, x).Some?
    ensures OpenTree(Place(t, comps, x).value)
  {
    ParentsKeepOpen(t, comps, |comps| - 1);
    var before, after := MakeParents(t, comps, |comps| - 1).value, Place(t, comps, x).value;
    forall c | c in after
      ensures OpenPath(after, c)
    {
      if c in before {
        assert OpenPath(before, c);
      }
    }
  }

  lemma {:induction false} ReadingKeepsOpen(b: Bounds, members: seq<Member>)
    requires ReadMembers(b, members).Ok?
    ensures OpenTree(ReadMembers(b, members).value.target)
    decreases |members|
  {
    if members != [] {
      ReadingKeepsOpen(b, members[..|members|-1]);
      MemberKeepsOpen(b, ReadMembers(b, members[..|members|-1]).value, members[|members|-1]);
    }
  }

  lemma MemberKeepsOpen(b: Bounds, st: ReadState, m: Member)
    requires OpenTree(st.target) && ReadMember(b, st, m).Ok?
    ensures OpenTree(ReadMember(b, st, m).value.target)
  {
    if m.name != MANIFEST_NAME {
      PlaceKeepsOpen(st.target, SafeRelative(RelativeName(m, ServerOf(st, m))).value, ExtractedOf(m));
    }
  }

  lemma {:induction false} AnyoneMay(t: Target, modes: seq<(seq<string>, nat)>)
    ensures ModesSettable(true, t, modes)
    decreases |modes|
  {
    if modes != [] {
      AnyoneMay(t[modes[|modes|-1].0 := DirAt(modes[|modes|-1].1)], modes[..|modes|-1]);
    }
  }

  /** For every archive that is read to its end. */
  lemma ModesSettableExactly(privileged: bool, b: Bounds, members: seq<Member>)
    requires ReadMembers(b, members).Ok?
    ensures var st := ReadMembers(b, members).value;
            ModesSettable(privileged, st.target, st.modes) <==> privileged || WayStaysOpen(st.modes)
  {
    var st := ReadMembers(b, members).value;
    if privileged {
      AnyoneMay(st.target, st.modes);
    } else {
      ReadingKeepsOpen(b, members);
      ModesComeFromTarget(b, members);
      SettableExactly(st.target, st.modes);
    }
  }
}
