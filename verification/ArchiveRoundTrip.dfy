/** Writing an archive and reading it back: create_archive against read_archive. */
module ArchiveRoundTrip {
  import opened Wrappers
  import opened Text
  import opened Topo
  import opened Archive

  // ---------- writing ----------

  function ContentOf(n: Node): Blob {
    if n.File? then n.content else Raw([])
  }

  function ModeOf(n: Node): nat {
    if n.Special? then 0 else Permissions(n.mode)
  }

  function MemberOf(server: bool, x: Item): Member {
    Member(Prefix(server) + Path(x.comps), if x.node.Dir? then DirMember else FileMember, ModeOf(x.node),
           Size(ContentOf(x.node)), ContentOf(x.node))
  }

  function WrittenRecord(x: Item): Record {
    if x.node.Dir? then DirRecord(Path(x.comps), ModeOf(x.node))
    else FileRecord(Path(x.comps), ModeOf(x.node), Size(ContentOf(x.node)), Sha256(ContentOf(x.node)))
  }

  function MembersOf(server: bool, items: seq<Item>): (r: seq<Member>)
    ensures |r| == |items| && forall k | 0 <= k < |items| :: r[k] == MemberOf(server, items[k])
  {
    seq(|items|, k requires 0 <= k < |items| => MemberOf(server, items[k]))
  }

  function RecordsOf(items: seq<Item>): (r: seq<Record>)
    ensures |r| == |items| && forall k | 0 <= k < |items| :: r[k] == WrittenRecord(items[k])
  {
    seq(|items|, k requires 0 <= k < |items| => WrittenRecord(items[k]))
  }

  function ManifestOf(server: bool, id: Identity, records: seq<Record>): Manifest {
    Manifest(Format(server), Kind(server), id, if server then Some("all-local-server-repositories") else None,
             FileCount(records), TotalBytes(records), records)
  }

  function ManifestMember(m: Manifest, length: nat): Member {
    Member(MANIFEST_NAME, FileMember, 384, length, Document(m, length))
  }

  datatype WriteError =
    | MissingStores | UnexpectedLayout | InvalidRepository | WrongRepository | UnsupportedEntry | TooManyFiles
    | ManifestTooLarge

  predicate IsDirAt(f: Forest, comps: seq<string>) {
    var n := Lookup(f, comps);
    n.Some? && n.value.Dir?
  }

  predicate IsFileAt(f: Forest, comps: seq<string>) {
    var n := Lookup(f, comps);
    n.Some? && n.value.File?
  }

  predicate StoresPresent(f: Forest) {
    IsDirAt(f, INDEX_PATHS[0]) && IsDirAt(f, INDEX_PATHS[1]) && IsFileAt(f, VERSION_PATH)
  }

  predicate OnlyNamed(f: Forest, names: set<string>) {
    f.Cons? ==> f.name in names && OnlyNamed(f.rest, names)
  }

  predicate HasIdentity(f: Forest) {
    IsDirAt(f, [".lore"]) && IsFileAt(f, ID_PATH) && Size(Lookup(f, ID_PATH).value.content) == 16
  }

  /** Why the source is refused before anything is written. */
  function SourceError(server: bool, f: Forest, id: Identity): Option<WriteError> {
    if server then
      if !StoresPresent(f) then Some(MissingStores)
      else if !OnlyNamed(f, {"immutable", "mutable"}) then Some(UnexpectedLayout)
      else None
    else if !HasIdentity(f) then Some(InvalidRepository)
    else if Urc(Lookup(f, ID_PATH).value.content) != id then Some(WrongRepository)
    else if !IsFileAt(f, [".lore", "lock"]) then Some(InvalidRepository)
    else None
  }

  predicate NoSpecial(items: seq<Item>) {
    forall k | 0 <= k < |items| :: !items[k].node.Special?
  }

  /** The source can be archived; `length` is the length of the manifest's encoding. */
  predicate Writable(b: Bounds, server: bool, f: Forest, id: Identity, length: Manifest -> nat) {
    && SourceError(server, f, id).None? && NoSpecial(Inventory([], f)) && |Inventory([], f)| <= b.entries
    && length(ManifestOf(server, id, RecordsOf(Inventory([], f)))) <= b.manifest
  }

  function Written(server: bool, f: Forest, id: Identity, length: Manifest -> nat): seq<Member> {
    var items := Inventory([], f);
    var m := ManifestOf(server, id, RecordsOf(items));
    MembersOf(server, items) + [ManifestMember(m, length(m))]
  }

  /** The checks of the inventory, entry by entry. */
  method CheckInventory(b: Bounds, items: seq<Item>) returns (e: Option<WriteError>)
    ensures e.None? <==> NoSpecial(items) && |items| <= b.entries
    ensures e.Some? ==> e.value in {UnsupportedEntry, TooManyFiles}
  {
    for k := 0 to |items|
      invariant k <= b.entries && forall m | 0 <= m < k :: !items[m].node.Special?
    {
      if items[k].node.Special? {
        return Some(UnsupportedEntry);
      }
      if k >= b.entries {
        return Some(TooManyFiles);
      }
    }
    return None;
  }

  /** The first k items are written. */
  ghost predicate Progress(server: bool, items: seq<Item>, k: nat, members: seq<Member>, records: seq<Record>,
                           files: nat, bytes: nat)
  {
    && k <= |items| && members == MembersOf(server, items)[..k] && records == RecordsOf(items)[..k]
    && files == FileCount(records) && bytes == TotalBytes(records)
  }

  lemma ProgressStep(server: bool, items: seq<Item>, k: nat, members: seq<Member>, records: seq<Record>,
                     files: nat, bytes: nat, record: Record)
    requires Progress(server, items, k, members, records, files, bytes) && k < |items|
               && record == WrittenRecord(items[k])
    ensures Progress(server, items, k + 1, members + [MemberOf(server, items[k])], records + [record],
                     files + (if record.FileRecord? then 1 else 0),
                     bytes + if record.FileRecord? then record.size else 0)
  {
    CountSnoc(records, record);
    NextMember(server, items, k);
  }

  lemma NextMember(server: bool, items: seq<Item>, k: nat)
    requires k < |items|
    ensures MembersOf(server, items)[..k+1] == MembersOf(server, items)[..k] + [MemberOf(server, items[k])]
    ensures RecordsOf(items)[..k+1] == RecordsOf(items)[..k] + [WrittenRecord(items[k])]
  {
  }

  /** The loop over the inventory: members, records and totals. */
  method WriteMembers(server: bool, items: seq<Item>)
    returns (members: seq<Member>, records: seq<Record>, files: nat, bytes: nat)
    ensures members == MembersOf(server, items) && records == RecordsOf(items)
    ensures files == FileCount(records) && bytes == TotalBytes(records)
  {
    members, records, files, bytes := [], [], 0, 0;
    for k := 0 to |items|
      invariant Progress(server, items, k, members, records, files, bytes)
    {
      var record := WrittenRecord(items[k]);
      ProgressStep(server, items, k, members, records, files, bytes, record);
      members := members + [MemberOf(server, items[k])];
      records := records + [record];
      files := files + if record.FileRecord? then 1 else 0;
      bytes := bytes + if record.FileRecord? then record.size else 0;
    }
  }

  lemma CountSnoc(records: seq<Record>, r: Record)
    ensures FileCount(records + [r]) == FileCount(records) + if r.FileRecord? then 1 else 0
    ensures TotalBytes(records + [r]) == TotalBytes(records) + if r.FileRecord? then r.size else 0
  {
    assert (records + [r])[..|records|] == records;
  }

  /** `create_archive`, on a source that does not change meanwhile. */
  method Create(b: Bounds, server: bool, f: Forest, id: Identity, length: Manifest -> nat)
    returns (r: Result<seq<Member>, WriteError>)
    ensures r.Ok? <==> Writable(b, server, f, id, length)
    ensures r.Ok? ==> r.value == Written(server, f, id, length)
    ensures r.Err? && SourceError(server, f, id).Some? ==> r.error == SourceError(server, f, id).value
  {
    var refused := SourceError(server, f, id);
    if refused.Some? {
      return Err(refused.value);
    }
    var items := Inventory([], f);
    var e := CheckInventory(b, items);
    if e.Some? {
      return Err(e.value);
    }
    r := Publish(b, server, items, id, length);
  }

  method Publish(b: Bounds, server: bool, items: seq<Item>, id: Identity, length: Manifest -> nat)
    returns (r: Result<seq<Member>, WriteError>)
    ensures var m := ManifestOf(server, id, RecordsOf(items));
            r == if length(m) <= b.manifest then Ok(MembersOf(server, items) + [ManifestMember(m, length(m))])
                 else Err(ManifestTooLarge)
  {
    var members, records, files, bytes := WriteMembers(server, items);
    var scope := if server then Some("all-local-server-repositories") else None;
    var manifest := Manifest(Format(server), Kind(server), id, scope, files, bytes, records);
    var encoded := length(manifest);
    if encoded > b.manifest {
      return Err(ManifestTooLarge);
    }
    return Ok(members + [ManifestMember(manifest, encoded)]);
  }

  // ---------- paths ----------

  lemma {:induction false} PathShape(comps: seq<string>)
    requires AreComponents(comps)
    ensures Path(comps) != "" && Path(comps)[0] != '/' && Path(comps)[|Path(comps)|-1] != '/' && '\0' !in Path(comps)
  {
    assert IsComponent(comps[0]);
    if |comps| > 1 {
      PathShape(comps[1..]);
    }
  }

  lemma PathSplits(comps: seq<string>)
    requires AreComponents(comps)
    ensures Split(Path(comps), '/') == comps
  {
    forall k | 0 <= k < |comps|
      ensures Lacks(comps[k], '/')
    {
      assert IsComponent(comps[k]);
    }
    SplitJoin(comps, '/');
  }

  lemma PathIsSafe(comps: seq<string>)
    requires AreComponents(comps)
    ensures SafeRelative(Path(comps)) == if '\\' in Path(comps) then None else Some(comps)
  {
    PathShape(comps);
    PathSplits(comps);
    forall k | 0 <= k < |comps|
      ensures comps[k] != "" && comps[k] != "." && comps[k] != ".."
    {
      assert IsComponent(comps[k]);
    }
  }

  lemma PathsDiffer(a: seq<string>, c: seq<string>)
    requires AreComponents(a) && AreComponents(c) && Path(a) == Path(c)
    ensures a == c
  {
    PathSplits(a);
    PathSplits(c);
  }

  lemma {:induction false} LookupHasComponents(f: Forest, comps: seq<string>)
    requires WellNamed(f) && Lookup(f, comps).Some?
    ensures AreComponents(comps)
    decreases f
  {
    if comps[0] == f.name {
      if |comps| > 1 {
        LookupHasComponents(f.node.children, comps[1..]);
        forall k | 0 <= k < |comps|
          ensures IsComponent(comps[k])
        {
          assert k > 0 ==> IsComponent(comps[1..][k-1]);
        }
      }
    } else {
      LookupHasComponents(f.rest, comps);
    }
  }

  // ---------- reading what was written ----------

  /** What an inventory gives and the reader relies on. */
  ghost predicate Readable(items: seq<Item>) {
    && (forall k | 0 <= k < |items| :: AreComponents(items[k].comps) && !items[k].node.Special?)
    && DistinctPaths(items) && ListsParents(items, [])
  }

  predicate Portable(items: seq<Item>) {
    forall k | 0 <= k < |items| :: '\\' !in Path(items[k].comps)
  }

  function Placed(n: Node): Extracted {
    if n.Dir? then DirAt(PRIVATE) else FileAt(ModeOf(n), ContentOf(n))
  }

  function Snapshot(items: seq<Item>): Target {
    if items == [] then map[]
    else Snapshot(items[..|items|-1])[items[|items|-1].comps := Placed(items[|items|-1].node)]
  }

  function Names(server: bool, items: seq<Item>): set<string> {
    if items == [] then {}
    else Names(server, items[..|items|-1]) + {Prefix(server) + Path(items[|items|-1].comps)}
  }

  function DirModes(items: seq<Item>): seq<(seq<string>, nat)> {
    if items == [] then []
    else
      DirModes(items[..|items|-1])
      + if items[|items|-1].node.Dir? then [(items[|items|-1].comps, ModeOf(items[|items|-1].node))] else []
  }

  function IdOf(items: seq<Item>): Option<Identity> {
    if items == [] then None
    else if items[|items|-1].node.File? && items[|items|-1].comps == ID_PATH
    then Some(Urc(items[|items|-1].node.content))
    else IdOf(items[..|items|-1])
  }

  function StateAfter(server: bool, items: seq<Item>): ReadState {
    ReadState(RecordsOf(items), Names(server, items), None, IdOf(items), if items == [] then None else Some(server),
              Snapshot(items), DirModes(items))
  }

  lemma {:induction false} SnapshotHas(items: seq<Item>, comps: seq<string>)
    ensures comps in Snapshot(items) <==> exists k :: 0 <= k < |items| && items[k].comps == comps
    decreases items
  {
    if items != [] {
      var init := items[..|items|-1];
      SnapshotHas(init, comps);
      if comps in Snapshot(init) {
        var k :| 0 <= k < |init| && init[k].comps == comps;
        assert items[k].comps == comps;
      }
      if exists k :: 0 <= k < |items| && items[k].comps == comps {
        var k :| 0 <= k < |items| && items[k].comps == comps;
        assert k < |init| ==> init[k].comps == comps;
      }
    }
  }

  lemma {:induction false} SnapshotIs(items: seq<Item>, k: nat)
    requires DistinctPaths(items) && k < |items|
    ensures items[k].comps in Snapshot(items) && Snapshot(items)[items[k].comps] == Placed(items[k].node)
    decreases items
  {
    if k < |items| - 1 {
      SnapshotIs(items[..|items|-1], k);
    }
  }

  lemma {:induction false} NamesHas(server: bool, items: seq<Item>, name: string)
    requires name in Names(server, items)
    ensures exists k :: 0 <= k < |items| && Prefix(server) + Path(items[k].comps) == name
    decreases items
  {
    var init := items[..|items|-1];
    if name in Names(server, init) {
      NamesHas(server, init, name);
      var k :| 0 <= k < |init| && Prefix(server) + Path(init[k].comps) == name;
      assert items[k] == init[k];
    } else {
      assert Prefix(server) + Path(items[|items|-1].comps) == name;
    }
  }

  /** The name of an item is new among the items before it. */
  lemma NameIsNew(server: bool, items: seq<Item>, k: nat)
    requires DistinctPaths(items) && k < |items| && forall i | 0 <= i < |items| :: AreComponents(items[i].comps)
    ensures Prefix(server) + Path(items[k].comps) !in Names(server, items[..k])
  {
    var name := Prefix(server) + Path(items[k].comps);
    if name in Names(server, items[..k]) {
      NamesHas(server, items[..k], name);
      var i :| 0 <= i < k && Prefix(server) + Path(items[..k][i].comps) == name;
      assert Path(items[i].comps) == name[|Prefix(server)|..] == Path(items[k].comps);
      PathsDiffer(items[i].comps, items[k].comps);
    }
  }

  lemma {:induction false} AncestorIsDir(items: seq<Item>, k: nat, n: nat)
    requires Readable(items) && k < |items| && 0 < n < |items[k].comps|
    ensures IsDirAmong(items[..k], items[k].comps[..n])
    decreases |items[k].comps| - n, k
  {
    var comps := items[k].comps;
    assert ParentBefore(items, [], k);
    if n < |comps| - 1 {
      var i :| 0 <= i < |items[..k]| && items[..k][i].comps == comps[..|comps|-1] && items[..k][i].node.Dir?;
      AncestorIsDir(items, i, n);
      assert items[i].comps[..n] == comps[..n];
      AmongMore(items[..i], items[..k], 0, comps[..n]);
    }
  }

  lemma {:induction false} ParentsExist(items: seq<Item>, k: nat, n: nat)
    requires Readable(items) && k < |items| && n < |items[k].comps|
    ensures MakeParents(Snapshot(items[..k]), items[k].comps, n) == Some(Snapshot(items[..k]))
  {
    if n > 0 {
      ParentsExist(items, k, n - 1);
      AncestorIsDir(items, k, n);
      var i :| 0 <= i < |items[..k]| && items[..k][i].comps == items[k].comps[..n] && items[..k][i].node.Dir?;
      SnapshotIs(items[..k], i);
    }
  }

  lemma PlaceItem(items: seq<Item>, k: nat, server: bool)
    requires Readable(items) && k < |items|
    ensures items[k].comps != []
    ensures Place(Snapshot(items[..k]), items[k].comps, ExtractedOf(MemberOf(server, items[k])))
              == Some(Snapshot(items[..k+1]))
  {
    var comps := items[k].comps;
    ParentsExist(items, k, |comps| - 1);
    SnapshotHas(items[..k], comps);
    assert items[..k+1][..k] == items[..k];
  }

  lemma NameShape(server: bool, x: Item)
    requires AreComponents(x.comps)
    ensures var m := MemberOf(server, x);
            m.name != MANIFEST_NAME && HasPrefix(m.name, Prefix(server)) && !HasPrefix(m.name, Prefix(!server))
            && RelativeName(m, server) == Path(x.comps)
  {
    PathShape(x.comps);
    var m := MemberOf(server, x);
    assert m.name[0] == Prefix(server)[0];
    assert m.name[|Prefix(server)|..] == Path(x.comps);
  }

  /** One written member is read as the item it was written from; a backslash makes it unsafe. */
  lemma ReadWritten(b: Bounds, server: bool, items: seq<Item>, k: nat)
    requires Readable(items) && k < |items| <= b.entries
    ensures ReadMember(b, StateAfter(server, items[..k]), MemberOf(server, items[k]))
         == if '\\' in Path(items[k].comps) then Err(UnsafePath)
            else if items[k].node.File? && items[k].comps == ID_PATH && Size(items[k].node.content) != 16
            then Err(InvalidId)
            else Ok(StateAfter(server, items[..k+1]))
  {
    var x, m, st := items[k], MemberOf(server, items[k]), StateAfter(server, items[..k]);
    NameIsNew(server, items, k);
    NameShape(server, x);
    PathIsSafe(x.comps);
    assert ServerOf(st, m) == server;
    if '\\' !in Path(x.comps) {
      ReadWrittenEntry(server, items, k, st.(seen := st.seen + {m.name}, server := Some(server)));
    }
  }

  /** The state after one more item. */
  lemma StateSnoc(server: bool, init: seq<Item>, x: Item)
    ensures var st, after := StateAfter(server, init), StateAfter(server, init + [x]);
            && after.records == st.records + [WrittenRecord(x)]
            && after.seen == st.seen + {Prefix(server) + Path(x.comps)}
            && after.manifest.None? && after.server == Some(server)
            && after.id == (if x.node.File? && x.comps == ID_PATH then Some(Urc(x.node.content)) else st.id)
            && after.target == st.target[x.comps := Placed(x.node)]
            && after.modes == st.modes + if x.node.Dir? then [(x.comps, ModeOf(x.node))] else []
  {
    assert (init + [x])[..|init|] == init;
    assert RecordsOf(init + [x]) == RecordsOf(init) + [WrittenRecord(x)];
  }

  lemma MemberRecord(server: bool, x: Item)
    requires !x.node.Special?
    ensures RecordOf(Path(x.comps), MemberOf(server, x)) == WrittenRecord(x)
    ensures Permissions(ModeOf(x.node)) == ModeOf(x.node)
  {
  }

  lemma ReadWrittenEntry(server: bool, items: seq<Item>, k: nat, st: ReadState)
    requires Readable(items) && k < |items|
    requires var before := StateAfter(server, items[..k]);
             st == before.(seen := before.seen + {Prefix(server) + Path(items[k].comps)}, server := Some(server))
    ensures items[k].comps != []
    ensures ReadEntry(st, MemberOf(server, items[k]), Path(items[k].comps), items[k].comps)
         == if items[k].node.File? && items[k].comps == ID_PATH && Size(items[k].node.content) != 16 then Err(InvalidId)
            else Ok(StateAfter(server, items[..k+1]))
  {
    var x := items[k];
    PlaceItem(items, k, server);
    MemberRecord(server, x);
    StateSnoc(server, items[..k], x);
    assert items[..k+1] == items[..k] + [x];
    var r, after := ReadEntry(st, MemberOf(server, x), Path(x.comps), x.comps), StateAfter(server, items[..k+1]);
    if r.Ok? {
      assert r.value.records == after.records && r.value.seen == after.seen && r.value.id == after.id;
      assert r.value.target == after.target && r.value.modes == after.modes;
      assert r.value.manifest == after.manifest && r.value.server == after.server;
    }
  }

  ghost predicate IdFits(items: seq<Item>) {
    forall k | 0 <= k < |items| && items[k].node.File? && items[k].comps == ID_PATH :: Size(items[k].node.content) == 16
  }

  lemma {:induction false} ReadAllWritten(b: Bounds, server: bool, items: seq<Item>, k: nat)
    requires Readable(items) && k <= |items| <= b.entries && Portable(items[..k]) && IdFits(items)
    ensures ReadMembers(b, MembersOf(server, items)[..k]) == Ok(StateAfter(server, items[..k]))
  {
    if k == 0 {
      assert MembersOf(server, items)[..0] == [] && items[..0] == [];
    } else {
      PortableInit(items, k);
      ReadAllWritten(b, server, items, k - 1);
      ReadNext(b, server, items, k - 1);
      OneMore(b, MembersOf(server, items), k);
    }
  }

  lemma ReadNext(b: Bounds, server: bool, items: seq<Item>, k: nat)
    requires Readable(items) && k < |items| <= b.entries && Portable(items[..k+1]) && IdFits(items)
    ensures ReadMember(b, StateAfter(server, items[..k]), MembersOf(server, items)[k])
              == Ok(StateAfter(server, items[..k+1]))
  {
    assert '\\' !in Path(items[..k+1][k].comps);
    ReadWritten(b, server, items, k);
  }

  lemma PortableInit(items: seq<Item>, k: nat)
    requires 0 < k <= |items| && Portable(items[..k])
    ensures Portable(items[..k-1])
  {
    assert items[..k-1] == items[..k][..k-1];
  }

  lemma OneMore(b: Bounds, members: seq<Member>, k: nat)
    requires 0 < k <= |members| && ReadMembers(b, members[..k-1]).Ok?
    ensures ReadMembers(b, members[..k]) == ReadMember(b, ReadMembers(b, members[..k-1]).value, members[k-1])
  {
    assert members[..k][..k-1] == members[..k-1];
  }

  /** A path with a backslash makes the reader refuse the whole archive. */
  lemma BackslashIsRefused(b: Bounds, server: bool, items: seq<Item>, last: Member)
    requires Readable(items) && |items| <= b.entries && !Portable(items) && IdFits(items)
    ensures ReadArchive(b, MembersOf(server, items) + [last]) == Err(UnsafePath)
  {
    var k := FirstBackslash(items, 0);
    BackslashIsReached(b, server, items, last, k);
    FailureStays(b, MembersOf(server, items) + [last], k + 1);
  }

  lemma BackslashIsReached(b: Bounds, server: bool, items: seq<Item>, last: Member, k: nat)
    requires Readable(items) && k < |items| <= b.entries && IdFits(items)
    requires Portable(items[..k]) && '\\' in Path(items[k].comps)
    ensures ReadMembers(b, (MembersOf(server, items) + [last])[..k+1]) == Err(UnsafePath)
  {
    WrittenPrefix(server, items, last, k);
    ReadAllWritten(b, server, items, k);
    BackslashIsUnsafe(b, server, items, k);
    OneMore(b, MembersOf(server, items) + [last], k + 1);
  }

  lemma BackslashIsUnsafe(b: Bounds, server: bool, items: seq<Item>, k: nat)
    requires Readable(items) && k < |items| <= b.entries && IdFits(items)
    requires Portable(items[..k]) && '\\' in Path(items[k].comps)
    ensures ReadMember(b, StateAfter(server, items[..k]), MemberOf(server, items[k])) == Err(UnsafePath)
  {
    ReadWritten(b, server, items, k);
  }

  lemma WrittenPrefix(server: bool, items: seq<Item>, last: Member, k: nat)
    requires k < |items|
    ensures (MembersOf(server, items) + [last])[..k] == MembersOf(server, items)[..k]
    ensures (MembersOf(server, items) + [last])[k] == MemberOf(server, items[k])
  {
  }

  lemma {:induction false} FirstBackslash(items: seq<Item>, from: nat) returns (k: nat)
    requires from <= |items| && Portable(items[..from]) && !Portable(items)
    ensures k < |items| && '\\' in Path(items[k].comps) && Portable(items[..k])
    decreases |items| - from
  {
    assert items[..|items|] == items;
    if '\\' in Path(items[from].comps) {
      k := from;
    } else {
      assert items[..from+1] == items[..from] + [items[from]];
      k := FirstBackslash(items, from + 1);
    }
  }

  // ---------- the checks after the loop ----------

  lemma {:induction false} KindIsRecorded(items: seq<Item>, k: nat)
    requires Readable(items) && k < |items|
    ensures KindOf(RecordsOf(items), Path(items[k].comps)) == Some(items[k].node.Dir?)
    decreases items
  {
    var last := |items| - 1;
    assert RecordsOf(items)[..last] == RecordsOf(items[..last]);
    if k < last {
      if Path(items[k].comps) == Path(items[last].comps) {
        PathsDiffer(items[k].comps, items[last].comps);
      }
      InitIsReadable(items);
      KindIsRecorded(items[..last], k);
    }
  }

  lemma InitIsReadable(items: seq<Item>)
    requires Readable(items) && items != []
    ensures Readable(items[..|items|-1])
  {
    var init := items[..|items|-1];
    forall k | 0 <= k < |init|
      ensures ParentBefore(init, [], k)
    {
      assert ParentBefore(items, [], k);
      assert init[..k] == items[..k];
    }
  }

  lemma {:induction false} IdIsFound(items: seq<Item>, k: nat)
    requires DistinctPaths(items) && k < |items| && items[k].node.File? && items[k].comps == ID_PATH
    ensures IdOf(items) == Some(Urc(items[k].node.content))
    decreases items
  {
    if k < |items| - 1 {
      IdIsFound(items[..|items|-1], k);
    }
  }

  /** Item k is what the source has at the path. */
  lemma ItemAt(f: Forest, comps: seq<string>) returns (k: nat)
    requires WellNamed(f) && Lookup(f, comps).Some?
    ensures k < |Inventory([], f)| && Inventory([], f)[k] == Item(comps, Lookup(f, comps).value)
  {
    var x := Item(comps, Lookup(f, comps).value);
    InventoryIsLookup([], f, x);
    assert comps[0..] == comps;
    assert x in Inventory([], f);
    k :| 0 <= k < |Inventory([], f)| && Inventory([], f)[k] == x;
  }

  lemma SourceIsReadable(f: Forest)
    requires WellNamed(f) && NoSpecial(Inventory([], f))
    ensures Readable(Inventory([], f))
  {
    var items := Inventory([], f);
    InventoryIsDistinct([], f);
    InventoryListsParents([], f);
    forall k | 0 <= k < |items|
      ensures AreComponents(items[k].comps)
    {
      ItemIsBelow([], f, k);
      assert items[k].comps[0..] == items[k].comps;
      LookupHasComponents(f, items[k].comps);
    }
  }

  lemma {:induction false} OnlyNamedHasNoOther(f: Forest, names: set<string>, name: string)
    requires OnlyNamed(f, names) && NameIn(f, name)
    ensures name in names
    decreases f
  {
    if f.name != name {
      OnlyNamedHasNoOther(f.rest, names, name);
    }
  }

  lemma SourceIdFits(server: bool, f: Forest, id: Identity)
    requires WellNamed(f) && SourceError(server, f, id).None?
    ensures IdFits(Inventory([], f))
  {
    var items := Inventory([], f);
    forall k | 0 <= k < |items| && items[k].node.File? && items[k].comps == ID_PATH
      ensures Size(items[k].node.content) == 16
    {
      ItemIsBelow([], f, k);
      assert items[k].comps[0..] == ID_PATH;
      if server {
        OnlyNamedHasNoOther(f, {"immutable", "mutable"}, ".lore");
      }
    }
  }

  lemma StoresAreComplete(f: Forest)
    requires WellNamed(f) && StoresPresent(f) && Readable(Inventory([], f))
    ensures StoresComplete(RecordsOf(Inventory([], f)))
  {
    var a := ItemAt(f, INDEX_PATHS[0]);
    var c := ItemAt(f, INDEX_PATHS[1]);
    var v := ItemAt(f, VERSION_PATH);
    KindIsRecorded(Inventory([], f), a);
    KindIsRecorded(Inventory([], f), c);
    KindIsRecorded(Inventory([], f), v);
  }

  /** The state after the whole archive was read. */
  function EndState(server: bool, items: seq<Item>, m: Manifest): ReadState {
    var st := StateAfter(server, items);
    st.(seen := st.seen + {MANIFEST_NAME}, manifest := Some(m))
  }

  lemma ManifestIsRead(b: Bounds, server: bool, items: seq<Item>, m: Manifest, length: nat)
    requires Readable(items) && |items| <= b.entries && 0 < length <= b.manifest
    ensures ReadMember(b, StateAfter(server, items), ManifestMember(m, length)) == Ok(EndState(server, items, m))
  {
    if MANIFEST_NAME in Names(server, items) {
      NamesHas(server, items, MANIFEST_NAME);
      var k :| 0 <= k < |items| && Prefix(server) + Path(items[k].comps) == MANIFEST_NAME;
      NameShape(server, items[k]);
    }
  }

  lemma ServerVerdict(st: ReadState, records: seq<Record>)
    requires st.server == Some(true) && st.records == records && StoresComplete(records)
    requires st.manifest == Some(ManifestOf(true, Named("server:local"), records))
    ensures Verdict(st).None?
  {
  }

  lemma FolderVerdict(st: ReadState, records: seq<Record>, id: Identity)
    requires st.server == Some(false) && st.records == records && st.id == Some(id)
    requires st.manifest == Some(ManifestOf(false, id, records))
    ensures Verdict(st).None?
  {
  }

  lemma FolderIdIsFound(f: Forest, id: Identity)
    requires WellNamed(f) && SourceError(false, f, id).None? && Readable(Inventory([], f))
    ensures Inventory([], f) != [] && IdOf(Inventory([], f)) == Some(id)
  {
    var k := ItemAt(f, ID_PATH);
    IdIsFound(Inventory([], f), k);
  }

  lemma WrittenIsAccepted(server: bool, f: Forest, id: Identity)
    requires WellNamed(f) && SourceError(server, f, id).None? && NoSpecial(Inventory([], f))
    requires server ==> id == Named("server:local")
    ensures var items := Inventory([], f);
            Verdict(EndState(server, items, ManifestOf(server, id, RecordsOf(items)))).None?
  {
    SourceIsReadable(f);
    var items := Inventory([], f);
    var st := EndState(server, items, ManifestOf(server, id, RecordsOf(items)));
    if server {
      StoresAreComplete(f);
      var k := ItemAt(f, VERSION_PATH);
      ServerVerdict(st, RecordsOf(items));
    } else {
      FolderIdIsFound(f, id);
      FolderVerdict(st, RecordsOf(items), id);
    }
  }

  // ---------- what the reader leaves behind ----------

  function Restored(n: Node): Extracted {
    if n.Dir? then DirAt(ModeOf(n)) else FileAt(ModeOf(n), ContentOf(n))
  }

  function Final(items: seq<Item>): Target {
    if items == [] then map[]
    else Final(items[..|items|-1])[items[|items|-1].comps := Restored(items[|items|-1].node)]
  }

  ghost predicate Untouched(modes: seq<(seq<string>, nat)>, comps: seq<string>) {
    forall i | 0 <= i < |modes| :: modes[i].0 != comps
  }

  lemma {:induction false} ApplyModesCommutes(t: Target, modes: seq<(seq<string>, nat)>, comps: seq<string>,
                                              x: Extracted)
    requires Untouched(modes, comps)
    ensures ApplyModes(t[comps := x], modes) == ApplyModes(t, modes)[comps := x]
    decreases modes
  {
    if modes != [] {
      var last := modes[|modes|-1];
      ApplyModesCommutes(t[last.0 := DirAt(last.1)], modes[..|modes|-1], comps, x);
      assert t[comps := x][last.0 := DirAt(last.1)] == t[last.0 := DirAt(last.1)][comps := x];
    }
  }

  lemma {:induction false} DirModesComeFromItems(items: seq<Item>, comps: seq<string>)
    requires forall k | 0 <= k < |items| :: items[k].comps != comps
    ensures Untouched(DirModes(items), comps)
    decreases items
  {
    if items != [] {
      DirModesComeFromItems(items[..|items|-1], comps);
    }
  }

  /** A directory placed last gets its mode first; the modes before it do not touch it. */
  lemma ApplyOneMore(t: Target, modes: seq<(seq<string>, nat)>, comps: seq<string>, x: Extracted, mode: nat)
    requires Untouched(modes, comps)
    ensures ApplyModes(t[comps := x], modes + [(comps, mode)]) == ApplyModes(t, modes)[comps := DirAt(mode)]
  {
    assert (modes + [(comps, mode)])[..|modes|] == modes;
    assert t[comps := x][comps := DirAt(mode)] == t[comps := DirAt(mode)];
    ApplyModesCommutes(t, modes, comps, DirAt(mode));
  }

  lemma {:induction false} ModesGiveFinal(items: seq<Item>)
    requires DistinctPaths(items)
    ensures ApplyModes(Snapshot(items), DirModes(items)) == Final(items)
    decreases items
  {
    if items != [] {
      var init, x := items[..|items|-1], items[|items|-1];
      ModesGiveFinal(init);
      DirModesComeFromItems(init, x.comps);
      if x.node.Dir? {
        ApplyOneMore(Snapshot(init), DirModes(init), x.comps, Placed(x.node), ModeOf(x.node));
      } else {
        assert DirModes(items) == DirModes(init);
        ApplyModesCommutes(Snapshot(init), DirModes(init), x.comps, Restored(x.node));
      }
    }
  }

  lemma {:induction false} FinalHas(items: seq<Item>, comps: seq<string>)
    ensures comps in Final(items) <==> comps in Snapshot(items)
    decreases items
  {
    if items != [] {
      FinalHas(items[..|items|-1], comps);
    }
  }

  lemma {:induction false} FinalIs(items: seq<Item>, k: nat)
    requires DistinctPaths(items) && k < |items|
    ensures items[k].comps in Final(items) && Final(items)[items[k].comps] == Restored(items[k].node)
    decreases items
  {
    if k < |items| - 1 {
      FinalIs(items[..|items|-1], k);
    }
  }

  /** The target holds what the source held: the same paths, bytes and permission bits, and nothing else. */
  ghost predicate Rebuilds(t: Target, f: Forest) {
    && (forall comps :: comps in t <==> Lookup(f, comps).Some?)
    && (forall comps | comps in t :: t[comps] == Restored(Lookup(f, comps).value))
  }

  lemma FinalRebuilds(f: Forest)
    requires WellNamed(f)
    ensures Rebuilds(Final(Inventory([], f)), f)
  {
    var items := Inventory([], f);
    InventoryIsDistinct([], f);
    forall comps
      ensures comps in Final(items) <==> Lookup(f, comps).Some?
      ensures comps in Final(items) ==> Final(items)[comps] == Restored(Lookup(f, comps).value)
    {
      FinalHas(items, comps);
      SnapshotHas(items, comps);
      if comps in Final(items) {
        var k :| 0 <= k < |items| && items[k].comps == comps;
        ItemIsBelow([], f, k);
        assert comps[0..] == comps;
        FinalIs(items, k);
      }
      if Lookup(f, comps).Some? {
        var k := ItemAt(f, comps);
      }
    }
  }

  ghost predicate NoBackslash(f: Forest) {
    forall comps | Lookup(f, comps).Some? :: '\\' !in Path(comps)
  }

  lemma PortableMeansNoBackslash(f: Forest)
    requires WellNamed(f)
    ensures Portable(Inventory([], f)) <==> NoBackslash(f)
  {
    var items := Inventory([], f);
    if Portable(items) {
      forall comps | Lookup(f, comps).Some?
        ensures '\\' !in Path(comps)
      {
        var k := ItemAt(f, comps);
        assert '\\' !in Path(items[k].comps);
      }
    }
    if NoBackslash(f) {
      forall k | 0 <= k < |items|
        ensures '\\' !in Path(items[k].comps)
      {
        ItemIsBelow([], f, k);
        assert items[k].comps[0..] == items[k].comps;
      }
    }
  }

  /** The archive of a source without backslashes is accepted, and gives the source back. */
  lemma PortableRoundTrip(b: Bounds, server: bool, f: Forest, id: Identity, length: Manifest -> nat)
    requires WellNamed(f) && Writable(b, server, f, id, length) && Portable(Inventory([], f))
    requires (server ==> id == Named("server:local")) && forall m :: length(m) > 0
    ensures ReadArchive(b, Written(server, f, id, length))
         == Ok((ManifestOf(server, id, RecordsOf(Inventory([], f))), Final(Inventory([], f))))
  {
    var items := Inventory([], f);
    var m := ManifestOf(server, id, RecordsOf(items));
    var members := Written(server, f, id, length);
    SourceIsReadable(f);
    SourceIdFits(server, f, id);
    WholeIsRead(b, server, items, m, length(m));
    WrittenIsAccepted(server, f, id);
    ModesGiveFinal(items);
  }

  lemma WholeIsRead(b: Bounds, server: bool, items: seq<Item>, m: Manifest, length: nat)
    requires Readable(items) && Portable(items) && IdFits(items) && |items| <= b.entries && 0 < length <= b.manifest
    ensures ReadMembers(b, MembersOf(server, items) + [ManifestMember(m, length)]) == Ok(EndState(server, items, m))
  {
    var members := MembersOf(server, items) + [ManifestMember(m, length)];
    assert items[..|items|] == items && MembersOf(server, items)[..|items|] == MembersOf(server, items);
    ReadAllWritten(b, server, items, |items|);
    assert members[..|members|-1] == MembersOf(server, items);
    ManifestIsRead(b, server, items, m, length);
  }

  predicate IdentityFits(server: bool, id: Identity) {
    server ==> id == Named("server:local")
  }

  /** A server archive under another identity is written, and refused after everything was read. */
  lemma ForeignServerIsRefused(b: Bounds, f: Forest, id: Identity, length: Manifest -> nat)
    requires WellNamed(f) && Writable(b, true, f, id, length) && Portable(Inventory([], f))
    requires id != Named("server:local") && forall m :: length(m) > 0
    ensures ReadArchive(b, Written(true, f, id, length)) == Err(InvalidScope)
  {
    var items := Inventory([], f);
    var m := ManifestOf(true, id, RecordsOf(items));
    SourceIsReadable(f);
    SourceIdFits(true, f, id);
    WholeIsRead(b, true, items, m, length(m));
    var k := ItemAt(f, VERSION_PATH);
    ForeignVerdict(EndState(true, items, m), RecordsOf(items), id);
  }

  lemma ForeignVerdict(st: ReadState, records: seq<Record>, id: Identity)
    requires st.server == Some(true) && st.records == records && id != Named("server:local")
    requires st.manifest == Some(ManifestOf(true, id, records))
    ensures Verdict(st) == Some(InvalidScope)
  {
  }

  /**
   * Reading what was written passes every check, and rebuilds the same paths, bytes and modes, exactly
   * when no path of the source contains a backslash and a server archive was given the server's identity.
   */
  lemma RoundTrip(b: Bounds, server: bool, f: Forest, id: Identity, length: Manifest -> nat)
    requires WellNamed(f) && Writable(b, server, f, id, length) && forall m :: length(m) > 0
    ensures var r := ReadArchive(b, Written(server, f, id, length));
            && (r.Ok? <==> NoBackslash(f) && IdentityFits(server, id))
            && (r.Ok? ==> r.value.0.repositoryId == id && Rebuilds(r.value.1, f))
            && (r.Err? ==> r.error == if NoBackslash(f) then InvalidScope else UnsafePath)
  {
    var items := Inventory([], f);
    PortableMeansNoBackslash(f);
    if !Portable(items) {
      SourceIsReadable(f);
      SourceIdFits(server, f, id);
      var m := ManifestOf(server, id, RecordsOf(items));
      BackslashIsRefused(b, server, items, ManifestMember(m, length(m)));
    } else if IdentityFits(server, id) {
      PortableRoundTrip(b, server, f, id, length);
      FinalRebuilds(f);
    } else {
      ForeignServerIsRefused(b, f, id, length);
    }
  }

  /** What comes back of a folder has its identity and its lock, so it can be opened and archived again. */
  lemma RestoredFolderIsRepository(b: Bounds, f: Forest, id: Identity, length: Manifest -> nat)
    requires WellNamed(f) && Writable(b, false, f, id, length) && (forall m :: length(m) > 0) && NoBackslash(f)
    ensures var r := ReadArchive(b, Written(false, f, id, length));
            && r.Ok? && [".lore", "lock"] in r.value.1 && r.value.1[[".lore", "lock"]].FileAt?
            && ID_PATH in r.value.1 && r.value.1[ID_PATH].FileAt? && Urc(r.value.1[ID_PATH].content) == id
  {
    RoundTrip(b, false, f, id, length);
  }

  // ---------- a small source ----------

  const SAMPLE_BYTES: Blob := Raw([0, 0, 0, 0, 0, 0, 0, 0, 0, 0, 0, 0, 0, 0, 0, 0])
  const SAMPLE_ID := Urc(SAMPLE_BYTES)
  const SAMPLE_LORE: Forest := Cons("id", File(420, SAMPLE_BYTES), Cons("lock", File(420, Raw([])), Nil))

  /** A repository folder with its identity, its lock and one more entry. */
  function Sample(name: string, node: Node): Forest {
    Cons(".lore", Dir(493, SAMPLE_LORE), Cons(name, node, Nil))
  }

  lemma InventoryCons(base: seq<string>, name: string, node: Node, rest: Forest)
    ensures Inventory(base, Cons(name, node, rest))
         == [Item(base + [name], node)] + (if node.Dir? then Inventory(base + [name], node.children) else [])
            + Inventory(base, rest)
  {
  }

  lemma LoreInventory()
    ensures Inventory([".lore"], SAMPLE_LORE)
         == [Item([".lore", "id"], File(420, SAMPLE_BYTES)), Item([".lore", "lock"], File(420, Raw([])))]
  {
    InventoryCons([".lore"], "id", File(420, SAMPLE_BYTES), SAMPLE_LORE.rest);
    InventoryCons([".lore"], "lock", File(420, Raw([])), Nil);
    assert [".lore"] + ["id"] == [".lore", "id"] && [".lore"] + ["lock"] == [".lore", "lock"];
  }

  lemma SampleInventory(name: string, node: Node)
    requires node.File? || (node.Dir? && node.children.Nil?)
    ensures Inventory([], Sample(name, node))
         == [Item([".lore"], Dir(493, SAMPLE_LORE)), Item([".lore", "id"], File(420, SAMPLE_BYTES)),
             Item([".lore", "lock"], File(420, Raw([]))), Item([name], node)]
  {
    var none: seq<string> := [];
    LoreInventory();
    InventoryCons(none, ".lore", Dir(493, SAMPLE_LORE), Cons(name, node, Nil));
    InventoryCons(none, name, node, Nil);
    assert none + [".lore"] == [".lore"] && none + [name] == [name];
  }

  lemma SampleHasIdentity(name: string, node: Node)
    requires name != ".lore"
    ensures SourceError(false, Sample(name, node), SAMPLE_ID).None?
  {
    var f, lore := Sample(name, node), SAMPLE_LORE;
    assert [".lore", "id"][1..] == ["id"] && [".lore", "lock"][1..] == ["lock"];
    assert Lookup(lore, ["id"]) == Some(File(420, SAMPLE_BYTES));
    assert Lookup(lore, ["lock"]) == Some(File(420, Raw([])));
    assert Lookup(f, [".lore"]) == Some(Dir(493, lore));
    assert Lookup(f, [".lore", "lock"]) == Some(File(420, Raw([])));
    assert Lookup(f, ID_PATH) == Some(File(420, SAMPLE_BYTES));
  }

  lemma SampleIsWellNamed(name: string, node: Node)
    requires IsComponent(name) && name != ".lore" && (node.File? || (node.Dir? && node.children.Nil?))
    ensures WellNamed(Sample(name, node))
  {
    assert IsComponent("id") && IsComponent("lock") && IsComponent(".lore");
    assert WellNamed(SAMPLE_LORE);
  }

  lemma PathOfTwo(a: string, c: string)
    ensures Path([a]) == a && Path([a, c]) == a + "/" + c
  {
    assert [a, c][1..] == [c] && Path([c]) == c;
    assert Path([a, c]) == a + ['/'] + Path([c]);
  }

  lemma SamplePortable(name: string, node: Node)
    requires node.File? || (node.Dir? && node.children.Nil?)
    ensures Portable(Inventory([], Sample(name, node))) <==> '\\' !in name
  {
    var items := Inventory([], Sample(name, node));
    SampleInventory(name, node);
    PathOfTwo(".lore", "id");
    PathOfTwo(".lore", "lock");
    PathOfTwo(name, "");
    assert !Portable(items) <==> '\\' in Path(items[3].comps) by {
      assert forall k | 0 <= k < 3 :: '\\' !in Path(items[k].comps);
    }
  }

  lemma SampleIsWritable(b: Bounds, name: string, node: Node, length: Manifest -> nat)
    requires IsComponent(name) && name != ".lore" && (node.File? || (node.Dir? && node.children.Nil?))
    requires b.entries >= 4 && forall m :: 0 < length(m) <= b.manifest
    ensures WellNamed(Sample(name, node)) && Writable(b, false, Sample(name, node), SAMPLE_ID, length)
    ensures NoBackslash(Sample(name, node)) <==> '\\' !in name
  {
    SampleIsWellNamed(name, node);
    SampleInventory(name, node);
    SampleHasIdentity(name, node);
    SamplePortable(name, node);
    PortableMeansNoBackslash(Sample(name, node));
  }

  /** A file name with a backslash: the archive is written, and refused when it is read. */
  lemma BackslashNameIsNotRead(b: Bounds, length: Manifest -> nat)
    requires b.entries >= 4 && forall m :: 0 < length(m) <= b.manifest
    ensures var f := Sample("a\\b", File(420, Raw([])));
            && WellNamed(f) && Writable(b, false, f, SAMPLE_ID, length)
            && ReadArchive(b, Written(false, f, SAMPLE_ID, length)) == Err(UnsafePath)
  {
    var f := Sample("a\\b", File(420, Raw([])));
    SampleIsWritable(b, "a\\b", File(420, Raw([])), length);
    assert "a\\b"[1] == '\\';
    RoundTrip(b, false, f, SAMPLE_ID, length);
  }

  // ---------- a small server store ----------

  const SERVER_INDEX: Node := Dir(448, Nil)
  const SERVER_IMMUTABLE: Forest := Cons("index", SERVER_INDEX, Nil)
  const SERVER_MUTABLE: Forest := Cons("index", SERVER_INDEX, Cons("version", File(384, Raw([])), Nil))
  const SERVER_STORE: Forest :=
    Cons("immutable", Dir(448, Cons("immutable", Dir(448, SERVER_IMMUTABLE), Nil)),
         Cons("mutable", Dir(448, Cons("mutable", Dir(448, SERVER_MUTABLE), Nil)), Nil))

  lemma StoreIsWellNamed()
    ensures WellNamed(SERVER_STORE)
  {
    var a, c := Cons("immutable", Dir(448, SERVER_IMMUTABLE), Nil), Cons("mutable", Dir(448, SERVER_MUTABLE), Nil);
    assert |"immutable"| != |"mutable"|;
    assert IsComponent("index") && IsComponent("version") && IsComponent("immutable") && IsComponent("mutable");
    assert WellNamed(SERVER_MUTABLE) && WellNamed(SERVER_IMMUTABLE) && WellNamed(a) && WellNamed(c);
  }

  lemma StoreIsPresent()
    ensures StoresPresent(SERVER_STORE) && OnlyNamed(SERVER_STORE, {"immutable", "mutable"}) && WellNamed(SERVER_STORE)
  {
    StoreIsWellNamed();
    var a, c := Cons("immutable", Dir(448, SERVER_IMMUTABLE), Nil), Cons("mutable", Dir(448, SERVER_MUTABLE), Nil);
    assert |"immutable"| != |"mutable"|;
    assert INDEX_PATHS[0][1..] == ["immutable", "index"] && INDEX_PATHS[0][1..][1..] == ["index"];
    assert INDEX_PATHS[1][1..] == ["mutable", "index"] && INDEX_PATHS[1][1..][1..] == ["index"];
    assert VERSION_PATH[1..] == ["mutable", "version"] && VERSION_PATH[1..][1..] == ["version"];
    assert Lookup(SERVER_IMMUTABLE, ["index"]) == Some(SERVER_INDEX);
    assert Lookup(SERVER_MUTABLE, ["index"]) == Some(SERVER_INDEX);
    assert Lookup(SERVER_MUTABLE, ["version"]) == Some(File(384, Raw([])));
    assert Lookup(a, ["immutable", "index"]) == Some(SERVER_INDEX);
    assert Lookup(c, ["mutable", "index"]) == Some(SERVER_INDEX);
    assert Lookup(c, ["mutable", "version"]) == Some(File(384, Raw([])));
  }

  predicate PlainItem(x: Item) {
    !x.node.Special? && forall k | 0 <= k < |x.comps| :: '\\' !in x.comps[k]
  }

  predicate PlainForest(f: Forest) {
    f.Cons? ==>
      && '\\' !in f.name && !f.node.Special? && PlainForest(f.rest)
      && (f.node.Dir? ==> PlainForest(f.node.children))
  }

  function NodeCount(f: Forest): nat {
    if f.Nil? then 0 else 1 + (if f.node.Dir? then NodeCount(f.node.children) else 0) + NodeCount(f.rest)
  }

  lemma {:induction false} PlainInventory(base: seq<string>, f: Forest)
    requires PlainForest(f) && forall k | 0 <= k < |base| :: '\\' !in base[k]
    ensures |Inventory(base, f)| == NodeCount(f)
    ensures forall k | 0 <= k < |Inventory(base, f)| :: PlainItem(Inventory(base, f)[k])
    decreases f
  {
    if f.Cons? {
      PlainInventory(base, f.rest);
      if f.node.Dir? {
        PlainInventory(base + [f.name], f.node.children);
      }
    }
  }

  lemma {:induction false} PlainPath(comps: seq<string>)
    requires forall k | 0 <= k < |comps| :: '\\' !in comps[k]
    ensures '\\' !in Path(comps)
  {
    if |comps| > 1 {
      PlainPath(comps[1..]);
    }
  }

  lemma StoreInventory()
    ensures Portable(Inventory([], SERVER_STORE)) && NoSpecial(Inventory([], SERVER_STORE))
    ensures |Inventory([], SERVER_STORE)| == 7
  {
    var items := Inventory([], SERVER_STORE);
    assert PlainForest(SERVER_MUTABLE) && PlainForest(SERVER_IMMUTABLE);
    assert NodeCount(SERVER_MUTABLE) == 2 && NodeCount(SERVER_IMMUTABLE) == 1;
    PlainInventory([], SERVER_STORE);
    forall k | 0 <= k < |items|
      ensures '\\' !in Path(items[k].comps) && !items[k].node.Special?
    {
      assert PlainItem(items[k]);
      PlainPath(items[k].comps);
    }
  }

  /** A server store archived under another identity: written, and refused when it is read. */
  lemma ForeignStoreIsNotRead(b: Bounds, length: Manifest -> nat)
    requires b.entries >= 7 && forall m :: 0 < length(m) <= b.manifest
    ensures WellNamed(SERVER_STORE) && Writable(b, true, SERVER_STORE, SAMPLE_ID, length)
    ensures ReadArchive(b, Written(true, SERVER_STORE, SAMPLE_ID, length)) == Err(InvalidScope)
  {
    StoreIsPresent();
    StoreInventory();
    ForeignServerIsRefused(b, SERVER_STORE, SAMPLE_ID, length);
  }
}
