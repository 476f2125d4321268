/** When the archives that the writer makes, and some others, can be restored (scripts/repository-folder-archive.py). */
module RestoreWritten {
  import opened Wrappers
  import opened Text
  import opened Topo
  import opened Archive
  import opened ArchiveRoundTrip
  import opened ArchiveRestore
  import opened RestoreModes
  import opened RestoreFolder

  // ---------- restoring what was written ----------

  ghost predicate NotAbove(c: seq<string>, modes: seq<(seq<string>, nat)>) {
    forall i | 0 <= i < |modes| :: !(c < modes[i].0)
  }

  lemma {:induction false} LaterIsNotAbove(items: seq<Item>, n: nat)
    requires Readable(items) && n < |items|
    ensures NotAbove(items[|items|-1].comps, DirModes(items[..n]))
  {
    if n > 0 {
      LaterIsNotAbove(items, n - 1);
      var c := items[|items|-1].comps;
      assert items[..n][..n-1] == items[..n-1];
      if c < items[n-1].comps {
        assert AreComponents(c);
        AncestorIsDir(items, n - 1, |c|);
        assert false;
      }
    }
  }

  ghost predicate NoLaterParent(modes: seq<(seq<string>, nat)>) {
    forall i, j | 0 <= i < j < |modes| :: !(modes[j].0 < modes[i].0)
  }

  lemma {:induction false} NoParentIsLater(items: seq<Item>)
    requires Readable(items)
    ensures NoLaterParent(DirModes(items))
    decreases |items|
  {
    if items != [] {
      InitIsReadable(items);
      NoParentIsLater(items[..|items|-1]);
      LaterIsNotAbove(items, |items| - 1);
    }
  }

  /** The writer lists a directory before its content, so the reader closes no directory too early. */
  lemma WrittenWayStaysOpen(items: seq<Item>)
    requires Readable(items)
    ensures WayStaysOpen(DirModes(items))
  {
    NoParentIsLater(items);
  }

  lemma {:induction false} NameIsTop(f: Forest, name: string)
    ensures NameIn(f, name) <==> Lookup(f, [name]).Some?
    decreases f
  {
    if f.Cons? && f.name != name {
      NameIsTop(f.rest, name);
    }
  }

  /** Every directory right below the folder can be written to by its owner. */
  predicate TopDirsWritable(f: Forest) {
    f.Cons? ==> (f.node.Dir? ==> OwnerMayWrite(ModeOf(f.node))) && TopDirsWritable(f.rest)
  }

  predicate WritableAt(f: Forest, name: string) {
    var n := Lookup(f, [name]);
    n.Some? && n.value.Dir? ==> OwnerMayWrite(ModeOf(n.value))
  }

  lemma {:induction false} TopDirsByName(f: Forest)
    requires WellNamed(f)
    ensures TopDirsWritable(f) <==> forall name {:trigger WritableAt(f, name)} :: WritableAt(f, name)
    decreases f
  {
    if f.Cons? {
      TopDirsByName(f.rest);
      NameIsTop(f.rest, f.name);
      assert WritableAt(f, f.name) <==> (f.node.Dir? ==> OwnerMayWrite(ModeOf(f.node)));
      forall name | name != f.name
        ensures WritableAt(f, name) <==> WritableAt(f.rest, name)
      {
      }
      assert WritableAt(f.rest, f.name);
    }
  }

  lemma TopsAreNames(t: Target, f: Forest)
    requires Rebuilds(t, f)
    ensures forall name :: name in TopNames(t) <==> NameIn(f, name)
  {
    forall name
      ensures name in TopNames(t) <==> NameIn(f, name)
    {
      NameIsTop(f, name);
      if NameIn(f, name) {
        assert [name] in t && [name][0] in TopNames(t);
      }
      if name in TopNames(t) {
        var comps :| comps in t && comps != [] && comps[0] == name;
        LookupNeedsName(f, comps);
      }
    }
  }

  lemma MovableMeansWritable(privileged: bool, t: Target, f: Forest)
    requires WellNamed(f) && Rebuilds(t, f)
    ensures (forall child | child in TopNames(t) :: Movable(privileged, t, child)) <==> privileged || TopDirsWritable(f)
  {
    TopsAreNames(t, f);
    TopDirsByName(f);
    forall name
      ensures name in TopNames(t) ==> (Movable(privileged, t, name) <==> privileged || WritableAt(f, name))
      ensures name !in TopNames(t) ==> WritableAt(f, name)
    {
      NameIsTop(f, name);
    }
  }

  lemma WrittenIsSettable(b: Bounds, server: bool, f: Forest, id: Identity, length: Manifest -> nat)
    requires WellNamed(f) && Writable(b, server, f, id, length) && NoBackslash(f)
    requires (server ==> id == Named("server:local")) && forall m :: length(m) > 0
    ensures ReadMembers(b, Written(server, f, id, length)).Ok?
    ensures var st := ReadMembers(b, Written(server, f, id, length)).value;
            WayStaysOpen(st.modes)
  {
    var items := Inventory([], f);
    PortableMeansNoBackslash(f);
    SourceIsReadable(f);
    SourceIdFits(server, f, id);
    var m := ManifestOf(server, id, RecordsOf(items));
    WholeIsRead(b, server, items, m, length(m));
    WrittenWayStaysOpen(items);
  }

  /**
   * What was written can be restored exactly when it can be read, no top-level entry is named like the marker or the
   * staging area, and either the restore is privileged or every top-level directory is writable for its owner.
   */
  lemma RestorableExactly(b: Bounds, server: bool, f: Forest, id: Identity, length: Manifest -> nat,
                          stagingName: string, privileged: bool)
    requires WellNamed(f) && Writable(b, server, f, id, length) && forall m :: length(m) > 0
    ensures Restorable(b, Written(server, f, id, length), stagingName, privileged)
       <==> && NoBackslash(f) && IdentityFits(server, id) && !NameIn(f, MARKER) && !NameIn(f, stagingName)
            && (privileged || TopDirsWritable(f))
  {
    RoundTrip(b, server, f, id, length);
    if NoBackslash(f) && IdentityFits(server, id) {
      var t := ReadArchive(b, Written(server, f, id, length)).value.1;
      TopsAreNames(t, f);
      MovableMeansWritable(privileged, t, f);
      WrittenIsSettable(b, server, f, id, length);
    }
  }

  lemma SampleTops(name: string, node: Node, other: string)
    ensures NameIn(Sample(name, node), other) <==> other == ".lore" || other == name
    ensures TopDirsWritable(Sample(name, node)) <==> (node.Dir? ==> OwnerMayWrite(ModeOf(node)))
  {
    var rest: Forest := Cons(name, node, Nil);
    assert Sample(name, node).rest == rest;
    assert NameIn(rest, other) <==> other == name;
    assert TopDirsWritable(rest) <==> (node.Dir? ==> OwnerMayWrite(ModeOf(node)));
    assert OwnerMayWrite(493);
  }

  lemma SampleIsRestorable(b: Bounds, name: string, node: Node, length: Manifest -> nat, stagingName: string,
                           privileged: bool)
    requires IsComponent(name) && name != ".lore" && (node.File? || (node.Dir? && node.children.Nil?))
    requires b.entries >= 4 && forall m :: 0 < length(m) <= b.manifest
    ensures Restorable(b, Written(false, Sample(name, node), SAMPLE_ID, length), stagingName, privileged)
       <==> '\\' !in name && name != MARKER && stagingName !in [".lore", name]
            && (privileged || node.File? || OwnerMayWrite(ModeOf(node)))
  {
    var f := Sample(name, node);
    SampleIsWritable(b, name, node, length);
    RestorableExactly(b, false, f, SAMPLE_ID, length, stagingName, privileged);
    SampleTops(name, node, MARKER);
    SampleTops(name, node, stagingName);
    assert |MARKER| != |".lore"|;
  }

  lemma ReadOnlySample(b: Bounds, name: string, node: Node, length: Manifest -> nat, stagingName: string)
    requires IsComponent(name) && name != ".lore" && name != MARKER && '\\' !in name && stagingName !in [".lore", name]
    requires node.Dir? && node.children.Nil? && !OwnerMayWrite(ModeOf(node))
    requires b.entries >= 4 && forall m :: 0 < length(m) <= b.manifest
    ensures WellNamed(Sample(name, node)) && Writable(b, false, Sample(name, node), SAMPLE_ID, length)
    ensures !Restorable(b, Written(false, Sample(name, node), SAMPLE_ID, length), stagingName, false)
    ensures Restorable(b, Written(false, Sample(name, node), SAMPLE_ID, length), stagingName, true)
  {
    SampleIsWritable(b, name, node, length);
    SampleIsRestorable(b, name, node, length, stagingName, false);
    SampleIsRestorable(b, name, node, length, stagingName, true);
  }

  /** A read-only directory beside `.lore`: the source can be archived, but only a privileged restore succeeds. */
  lemma ReadOnlyTopIsNotRestored(b: Bounds, length: Manifest -> nat, stagingName: string)
    requires b.entries >= 4 && forall m :: 0 < length(m) <= b.manifest
    requires stagingName !in [".lore", "data"]
    ensures WellNamed(Sample("data", Dir(365, Nil))) // octal 555
    ensures Writable(b, false, Sample("data", Dir(365, Nil)), SAMPLE_ID, length)
    ensures !Restorable(b, Written(false, Sample("data", Dir(365, Nil)), SAMPLE_ID, length), stagingName, false)
    ensures Restorable(b, Written(false, Sample("data", Dir(365, Nil)), SAMPLE_ID, length), stagingName, true)
  {
    var name, node := "data", Dir(365, Nil);
    assert IsComponent(name) && |name| != |".lore"| && |name| != |MARKER| && '\\' !in name
        && !OwnerMayWrite(ModeOf(node));
    ReadOnlySample(b, name, node, length, stagingName);
  }

  /** A source with an entry named like the marker can be archived and read, but not restored. */
  lemma MarkerNameIsNotRestored(b: Bounds, length: Manifest -> nat, stagingName: string, privileged: bool)
    requires b.entries >= 4 && forall m :: 0 < length(m) <= b.manifest
    ensures WellNamed(Sample(MARKER, File(420, Raw([]))))
    ensures Writable(b, false, Sample(MARKER, File(420, Raw([]))), SAMPLE_ID, length)
    ensures ReadArchive(b, Written(false, Sample(MARKER, File(420, Raw([]))), SAMPLE_ID, length)).Ok?
    ensures !Restorable(b, Written(false, Sample(MARKER, File(420, Raw([]))), SAMPLE_ID, length), stagingName,
              privileged)
  {
    assert IsComponent(MARKER) && MARKER != ".lore" && '\\' !in MARKER;
    SampleIsWritable(b, MARKER, File(420, Raw([])), length);
    RoundTrip(b, false, Sample(MARKER, File(420, Raw([]))), SAMPLE_ID, length);
    SampleIsRestorable(b, MARKER, File(420, Raw([])), length, stagingName, privileged);
  }

  /** A small source, archived and restored: everything is in place, the marker is gone, and syncing fails. */
  lemma SyncFailureLeavesNoMarker(b: Bounds, length: Manifest -> nat, stagingName: string, order: seq<string>,
                                  privileged: bool)
    requires b.entries >= 4 && (forall m :: 0 < length(m) <= b.manifest) && stagingName !in [".lore", "data"]
    requires var r := ReadArchive(b, Written(false, Sample("data", File(420, Raw([]))), SAMPLE_ID, length));
             r.Ok? ==> IsListing(order, TopNames(r.value.1))
    ensures var members := Written(false, Sample("data", File(420, Raw([]))), SAMPLE_ID, length);
            && ReadArchive(b, members).Ok?
            && MayBreak(privileged, Script(b, members, order),
                        Folder(true, false, None, ReadArchive(b, members).value.1))
  {
    var name, node := "data", File(420, Raw([]));
    assert IsComponent(name) && |name| != |".lore"| && |name| != |MARKER| && '\\' !in name;
    SampleMayBreak(b, name, node, length, stagingName, order, privileged);
  }

  lemma SampleMayBreak(b: Bounds, name: string, node: Node, length: Manifest -> nat, stagingName: string,
                       order: seq<string>, privileged: bool)
    requires IsComponent(name) && name != ".lore" && name != MARKER && '\\' !in name && node.File?
    requires b.entries >= 4 && (forall m :: 0 < length(m) <= b.manifest) && stagingName !in [".lore", name]
    requires var r := ReadArchive(b, Written(false, Sample(name, node), SAMPLE_ID, length));
             r.Ok? ==> IsListing(order, TopNames(r.value.1))
    ensures var members := Written(false, Sample(name, node), SAMPLE_ID, length);
            && ReadArchive(b, members).Ok?
            && MayBreak(privileged, Script(b, members, order),
                        Folder(true, false, None, ReadArchive(b, members).value.1))
  {
    SampleIsRestorable(b, name, node, length, stagingName, privileged);
    SyncMayFail(privileged, b, Written(false, Sample(name, node), SAMPLE_ID, length), order, stagingName);
  }

  // ---------- an archive from elsewhere ----------

  const LATE_ITEMS: seq<Item> :=
    [Item([".lore", "id"], File(420, SAMPLE_BYTES)), Item(["a", "b"], Dir(448, Nil)), Item(["a"], Dir(384, Nil))]

  /** The identity, a directory, and after it the directory above it, with mode 0600. */
  function LateMembers(length: Manifest -> nat): seq<Member> {
    var m := ManifestOf(false, SAMPLE_ID, RecordsOf(LATE_ITEMS));
    MembersOf(false, LATE_ITEMS) + [ManifestMember(m, length(m))]
  }

  /** Any item of a folder archive is read as an entry, in whatever order the items come. */
  lemma ItemIsEntry(b: Bounds, st: ReadState, x: Item)
    requires AreComponents(x.comps) && !x.node.Special? && '\\' !in Path(x.comps)
    requires st.manifest.None? && |st.records| <= b.entries && st.server != Some(true)
    requires MemberOf(false, x).name !in st.seen
    ensures x.comps != []
    ensures ReadMember(b, st, MemberOf(false, x))
         == ReadEntry(st.(seen := st.seen + {MemberOf(false, x).name}, server := Some(false)), MemberOf(false, x),
                      Path(x.comps), x.comps)
  {
    NameShape(false, x);
    PathIsSafe(x.comps);
  }

  const LATE_FIRST: Target := map[[".lore"] := DirAt(PRIVATE), [".lore", "id"] := FileAt(420, SAMPLE_BYTES)]
  const LATE_LAST: Target := LATE_FIRST[["a"] := DirAt(PRIVATE)][["a", "b"] := DirAt(PRIVATE)]

  lemma LatePlaces()
    ensures Place(map[], [".lore", "id"], FileAt(420, SAMPLE_BYTES)) == Some(LATE_FIRST)
    ensures Place(LATE_FIRST, ["a", "b"], DirAt(448)) == Some(LATE_LAST)
    ensures Place(LATE_LAST, ["a"], DirAt(384)) == Some(LATE_LAST)
  {
    assert [".lore", "id"][..1] == [".lore"] && ["a", "b"][..1] == ["a"];
    assert [".lore"][0] != "a";
    assert MakeParents(map[], [".lore", "id"], 1) == Some(map[[".lore"] := DirAt(PRIVATE)]);
    assert MakeParents(LATE_FIRST, ["a", "b"], 1) == Some(LATE_FIRST[["a"] := DirAt(PRIVATE)]);
    assert MakeParents(LATE_LAST, ["a"], 0) == Some(LATE_LAST);
  }

  /** What the reader knows after the first k of these members. */
  function LateState(k: nat): ReadState
    requires k <= 3
  {
    ReadState(RecordsOf(LATE_ITEMS[..k]), Names(false, LATE_ITEMS[..k]), None,
              if k == 0 then None else Some(SAMPLE_ID), if k == 0 then None else Some(false),
              if k == 0 then map[] else if k == 1 then LATE_FIRST else LATE_LAST, LateModes(k))
  }

  function LateModes(k: nat): seq<(seq<string>, nat)> {
    if k <= 1 then [] else if k == 2 then [(["a", "b"], 448)] else [(["a", "b"], 448), (["a"], 384)]
  }

  lemma LateItemsAreNamed()
    ensures DistinctPaths(LATE_ITEMS)
    ensures forall k | 0 <= k < 3 :: AreComponents(LATE_ITEMS[k].comps) && '\\' !in Path(LATE_ITEMS[k].comps)
  {
    PathOfTwo(".lore", "id");
    PathOfTwo("a", "b");
    assert Path(["a"]) == "a";
    assert [".lore", "id"][0] != ["a", "b"][0] && |["a"]| != |["a", "b"]|;
    assert IsComponent(".lore") && IsComponent("id") && IsComponent("a") && IsComponent("b");
  }

  lemma LateSnoc(k: nat)
    requires k < 3
    ensures RecordsOf(LATE_ITEMS[..k+1]) == RecordsOf(LATE_ITEMS[..k]) + [WrittenRecord(LATE_ITEMS[k])]
    ensures Names(false, LATE_ITEMS[..k+1]) == Names(false, LATE_ITEMS[..k]) + {MemberOf(false, LATE_ITEMS[k]).name}
  {
    assert LATE_ITEMS[..k+1][..k] == LATE_ITEMS[..k];
  }

  lemma LateStep(b: Bounds, k: nat)
    requires k < 3 <= b.entries
    ensures ReadMember(b, LateState(k), MemberOf(false, LATE_ITEMS[k])) == Ok(LateState(k + 1))
  {
    var st, x := LateState(k), LATE_ITEMS[k];
    LateItemsAreNamed();
    NameIsNew(false, LATE_ITEMS, k);
    ItemIsEntry(b, st, x);
    LatePlaces();
    LateSnoc(k);
    MemberRecord(false, x);
    LateEntry(st.(seen := st.seen + {MemberOf(false, x).name}, server := Some(false)), k);
  }

  lemma LateEntry(st: ReadState, k: nat)
    requires k < 3
    requires var before := LateState(k);
             st == before.(seen := before.seen + {MemberOf(false, LATE_ITEMS[k]).name}, server := Some(false))
    ensures LATE_ITEMS[k].comps != []
    ensures ReadEntry(st, MemberOf(false, LATE_ITEMS[k]), Path(LATE_ITEMS[k].comps), LATE_ITEMS[k].comps)
         == Ok(LateState(k + 1))
  {
    LatePlaces();
    LateSnoc(k);
    MemberRecord(false, LATE_ITEMS[k]);
    var m := MemberOf(false, LATE_ITEMS[k]);
    if k == 0 {
      assert ExtractedOf(m) == FileAt(420, SAMPLE_BYTES) && Size(SAMPLE_BYTES) == 16;
    } else if k == 1 {
      assert ExtractedOf(m) == DirAt(448);
      assert LateModes(2) == LateModes(1) + [(["a", "b"], 448)];
    } else {
      assert ExtractedOf(m) == DirAt(384);
      assert LateModes(3) == LateModes(2) + [(["a"], 384)];
    }
  }

  lemma {:induction false} LateIsRead(b: Bounds, length: Manifest -> nat, k: nat)
    requires k <= 3 <= b.entries
    ensures k <= |LateMembers(length)| && ReadMembers(b, LateMembers(length)[..k]) == Ok(LateState(k))
  {
    var members := LateMembers(length);
    if k == 0 {
      assert members[..0] == [] && LATE_ITEMS[..0] == [];
    } else {
      LateIsRead(b, length, k - 1);
      OneMore(b, members, k);
      assert members[k-1] == MemberOf(false, LATE_ITEMS[k-1]);
      LateStep(b, k - 1);
    }
  }

  lemma LateIsAccepted(b: Bounds, length: Manifest -> nat)
    requires 3 <= b.entries && forall m :: 0 < length(m) <= b.manifest
    ensures ReadMembers(b, LateMembers(length)).Ok? && ReadMembers(b, LateMembers(length)).value.modes == LateModes(3)
    ensures ReadArchive(b, LateMembers(length)).Ok?
    ensures ReadArchive(b, LateMembers(length)).value.1 == ApplyModes(LATE_LAST, LateModes(3))
  {
    var members, m := LateMembers(length), ManifestOf(false, SAMPLE_ID, RecordsOf(LATE_ITEMS));
    LateIsRead(b, length, 3);
    OneMore(b, members, 4);
    assert members[..4] == members && LATE_ITEMS[..3] == LATE_ITEMS;
    LateItemsAreNamed();
    ManifestMemberIsRead(b, LateState(3), m, length(m));
    FolderVerdict(ReadMembers(b, members).value, RecordsOf(LATE_ITEMS), SAMPLE_ID);
  }

  lemma ManifestMemberIsRead(b: Bounds, st: ReadState, m: Manifest, length: nat)
    requires st.manifest.None? && |st.records| <= b.entries && 0 < length <= b.manifest
    requires st.seen == Names(false, LATE_ITEMS)
    ensures ReadMember(b, st, ManifestMember(m, length))
         == Ok(st.(seen := st.seen + {MANIFEST_NAME}, manifest := Some(m)))
  {
    if MANIFEST_NAME in st.seen {
      NamesHas(false, LATE_ITEMS, MANIFEST_NAME);
      var k :| 0 <= k < |LATE_ITEMS| && Prefix(false) + Path(LATE_ITEMS[k].comps) == MANIFEST_NAME;
      LateItemsAreNamed();
      NameShape(false, LATE_ITEMS[k]);
    }
  }

  lemma LateNames(names: set<string>)
    requires names == TopNames(ApplyModes(LATE_LAST, LateModes(3)))
    ensures names == {".lore", "a"}
  {
    var t := ApplyModes(LATE_LAST, LateModes(3));
    LateKeys();
    assert [".lore"] in t && ["a"] in t;
    assert [".lore"][0] in names && ["a"][0] in names;
  }

  lemma LateKeys()
    ensures ApplyModes(LATE_LAST, LateModes(3)).Keys == {[".lore"], [".lore", "id"], ["a"], ["a", "b"]}
  {
    var modes := LateModes(3);
    var first := [modes[0]];
    assert modes[..1] == first && first[..0] == [];
    assert ApplyModes(LATE_LAST, modes) == LATE_LAST[["a"] := DirAt(384)][["a", "b"] := DirAt(448)];
  }

  /** The archive is accepted, but only a privileged restore succeeds: `a` is closed before `a/b` gets its mode. */
  lemma LateParentIsClosed(b: Bounds, length: Manifest -> nat, stagingName: string)
    requires 3 <= b.entries && (forall m :: 0 < length(m) <= b.manifest) && stagingName !in {".lore", "a"}
    ensures ReadArchive(b, LateMembers(length)).Ok?
    ensures !Restorable(b, LateMembers(length), stagingName, false)
    ensures Restorable(b, LateMembers(length), stagingName, true)
  {
    LateIsAccepted(b, length);
    LateWayIsClosed();
    var t := ReadArchive(b, LateMembers(length)).value.1;
    LateNames(TopNames(t));
    assert |MARKER| != |".lore"| && |MARKER| != |"a"|;
    assert forall child | child in TopNames(t) :: Movable(true, t, child);
  }

  lemma LateWayIsClosed()
    ensures !WayStaysOpen(LateModes(3))
  {
    assert ["a"] < ["a", "b"];
    assert ParentListedNext(LateModes(3), 0, 1) && !OwnerMaySearch(384);
  }
}
