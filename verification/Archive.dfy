/**
 * Folder archives: what the writer produces and what the checking reader accepts
 * (scripts/repository-folder-archive.py).
 */
module Archive {
  import opened Wrappers
  import opened Text
  import opened Topo

  // ---------- files, archives, manifests ----------

  /** File content: plain bytes, or the encoding of a manifest, of which only the length matters. */
  datatype Blob = Raw(bytes: seq<nat>) | Document(manifest: Manifest, length: nat)

  function Size(b: Blob): nat {
    if b.Raw? then |b.bytes| else b.length
  }

  /** SHA-256 as an injective function. */
  datatype Digest = Sha256(content: Blob)

  datatype Identity = Urc(id: Blob) | Named(name: string)

  datatype Record = DirRecord(path: string, mode: nat) | FileRecord(path: string, mode: nat, size: nat, digest: Digest)

  datatype Manifest = Manifest(
    format: nat, kind: string, repositoryId: Identity, scope: Option<string>, fileCount: nat, totalBytes: nat,
    entries: seq<Record>)

  datatype MemberKind = DirMember | FileMember | OtherMember

  datatype Member = Member(name: string, kind: MemberKind, mode: nat, size: nat, content: Blob)

  /** A directory on disk, in the order a sorted scan returns its children. */
  datatype Node = File(mode: nat, content: Blob) | Dir(mode: nat, children: Forest) | Special

  datatype Forest = Nil | Cons(name: string, node: Node, rest: Forest)

  /** The numeric bounds; every theorem holds for any choice of them. */
  datatype Bounds = Bounds(entries: nat, manifest: nat)

  const SOURCE_BOUNDS := Bounds(250000, 32 * 1024 * 1024)

  const MANIFEST_NAME := "manifest.json"
  const PERMISSIONS := 512
  const PRIVATE := 448
  const ID_PATH := [".lore", "id"]
  const INDEX_PATHS := [["immutable", "immutable", "index"], ["mutable", "mutable", "index"]]
  const VERSION_PATH := ["mutable", "mutable", "version"]

  function Prefix(server: bool): string {
    if server then "server-data/" else "repository/"
  }

  function Format(server: bool): nat {
    if server then 3 else 2
  }

  function Kind(server: bool): string {
    if server then "server-store-tar-gzip" else "folder-tar-gzip"
  }

  // ---------- names ----------

  /** What any file system allows as the name of a directory entry. */
  predicate IsComponent(name: string) {
    name != "" && name != "." && name != ".." && '/' !in name && '\0' !in name
  }

  predicate NameIn(f: Forest, name: string) {
    f.Cons? && (f.name == name || NameIn(f.rest, name))
  }

  predicate WellNamed(f: Forest) {
    match f
    case Nil => true
    case Cons(name, node, rest) =>
      IsComponent(name) && !NameIn(rest, name) && WellNamed(rest) && (node.Dir? ==> WellNamed(node.children))
  }

  function Path(comps: seq<string>): string {
    Join(comps, '/')
  }

  ghost predicate AreComponents(comps: seq<string>) {
    comps != [] && forall k | 0 <= k < |comps| :: IsComponent(comps[k])
  }

  // ---------- inventory ----------

  datatype Item = Item(comps: seq<string>, node: Node)

  /** All entries below a directory, each directory right before what it contains. */
  function Inventory(base: seq<string>, f: Forest): seq<Item>
    decreases f
  {
    match f
    case Nil => []
    case Cons(name, node, rest) =>
      [Item(base + [name], node)] + (if node.Dir? then Inventory(base + [name], node.children) else [])
      + Inventory(base, rest)
  }

  /** The node at a relative path. */
  function Lookup(f: Forest, comps: seq<string>): Option<Node>
    decreases f
  {
    if comps == [] then None
    else match f
      case Nil => None
      case Cons(name, node, rest) =>
        if comps[0] == name then
          if |comps| == 1 then Some(node) else if node.Dir? then Lookup(node.children, comps[1..]) else None
        else Lookup(rest, comps)
  }

  predicate IsBelow(base: seq<string>, comps: seq<string>) {
    |comps| > |base| && base <= comps
  }

  lemma {:induction false} LookupNeedsName(f: Forest, comps: seq<string>)
    requires comps != [] && Lookup(f, comps).Some?
    ensures NameIn(f, comps[0])
    decreases f
  {
    if f.Cons? && comps[0] != f.name {
      LookupNeedsName(f.rest, comps);
    }
  }

  /** The inventory lists exactly the paths that lead to a node. */
  lemma {:induction false} InventoryIsLookup(base: seq<string>, f: Forest, x: Item)
    requires WellNamed(f)
    ensures x in Inventory(base, f) <==> IsBelow(base, x.comps) && Lookup(f, x.comps[|base|..]) == Some(x.node)
    decreases f
  {
    match f
    case Nil =>
    case Cons(name, node, rest) =>
      var here := base + [name];
      InventoryIsLookup(base, rest, x);
      if node.Dir? {
        InventoryIsLookup(here, node.children, x);
      }
      if IsBelow(base, x.comps) {
        InventoryAtName(base, f, x);
      }
      assert IsBelow(here, x.comps) ==> IsBelow(base, x.comps) && x.comps[|base|] == name;
      assert x == Item(here, node) ==> x.comps[|base|] == name;
  }

  /** Where an item of the first child, or of the others, is looked up. */
  lemma InventoryAtName(base: seq<string>, f: Forest, x: Item)
    requires f.Cons? && WellNamed(f) && IsBelow(base, x.comps)
    ensures var tail := x.comps[|base|..];
            && (tail[0] == f.name <==> base + [f.name] <= x.comps)
            && (tail[0] == f.name ==> Lookup(f.rest, tail).None?)
            && (tail[0] == f.name && |tail| == 1 <==> x.comps == base + [f.name])
            && (tail[0] == f.name && |tail| > 1 ==>
                  && IsBelow(base + [f.name], x.comps)
                  && tail[1..] == x.comps[|base + [f.name]|..])
  {
    var tail := x.comps[|base|..];
    if tail[0] == f.name && Lookup(f.rest, tail).Some? {
      LookupNeedsName(f.rest, tail);
    }
    if tail[0] == f.name {
      assert x.comps[..|base|+1] == base + [f.name];
    }
  }

  lemma ItemIsBelow(base: seq<string>, f: Forest, k: nat)
    requires WellNamed(f) && k < |Inventory(base, f)|
    ensures var x := Inventory(base, f)[k]; IsBelow(base, x.comps) && Lookup(f, x.comps[|base|..]) == Some(x.node)
    ensures NameIn(f, Inventory(base, f)[k].comps[|base|])
  {
    var x := Inventory(base, f)[k];
    InventoryIsLookup(base, f, x);
    LookupNeedsName(f, x.comps[|base|..]);
  }

  ghost predicate DistinctPaths(items: seq<Item>) {
    forall i, j | 0 <= i < j < |items| :: items[i].comps != items[j].comps
  }

  ghost predicate AllBelow(items: seq<Item>, base: seq<string>) {
    forall k | 0 <= k < |items| :: IsBelow(base, items[k].comps)
  }

  ghost predicate NoneNamed(items: seq<Item>, base: seq<string>, name: string) {
    AllBelow(items, base) && forall k | 0 <= k < |items| :: items[k].comps[|base|] != name
  }

  lemma PartsAreDistinct(base: seq<string>, name: string, first: Item, sub: seq<Item>, rest: seq<Item>)
    requires first.comps == base + [name] && AllBelow(sub, base + [name]) && NoneNamed(rest, base, name)
    requires DistinctPaths(sub) && DistinctPaths(rest)
    ensures DistinctPaths([first] + sub + rest)
  {
    var items, here := [first] + sub + rest, base + [name];
    assert forall k | 0 <= k <= |sub| :: here <= items[k].comps;
    assert here[|base|] == name;
    forall i, j | 0 <= i < j < |items|
      ensures items[i].comps != items[j].comps
    {
      if j > |sub| {
        assert items[j] == rest[j - 1 - |sub|];
        assert i > |sub| ==> items[i] == rest[i - 1 - |sub|];
      }
    }
  }

  lemma InventoryIsBelow(base: seq<string>, f: Forest)
    requires WellNamed(f)
    ensures AllBelow(Inventory(base, f), base)
    ensures forall name | !NameIn(f, name) :: NoneNamed(Inventory(base, f), base, name)
  {
    var items := Inventory(base, f);
    forall k | 0 <= k < |items|
      ensures IsBelow(base, items[k].comps) && NameIn(f, items[k].comps[|base|])
    {
      ItemIsBelow(base, f, k);
    }
  }

  /** No path is listed twice. */
  lemma {:induction false} InventoryIsDistinct(base: seq<string>, f: Forest)
    requires WellNamed(f)
    ensures DistinctPaths(Inventory(base, f))
    decreases f
  {
    match f
    case Nil =>
    case Cons(name, node, rest) =>
      InventoryIsDistinct(base, rest);
      InventoryIsBelow(base, rest);
      var sub := [];
      if node.Dir? {
        InventoryIsDistinct(base + [name], node.children);
        InventoryIsBelow(base + [name], node.children);
        sub := Inventory(base + [name], node.children);
      }
      PartsAreDistinct(base, name, Item(base + [name], node), sub, Inventory(base, rest));
  }

  ghost predicate IsDirAmong(items: seq<Item>, comps: seq<string>) {
    exists i :: 0 <= i < |items| && items[i].comps == comps && items[i].node.Dir?
  }

  /** The directory of item k, unless that is the base, is listed before it. */
  ghost predicate ParentBefore(items: seq<Item>, base: seq<string>, k: nat)
    requires k < |items|
  {
    var comps := items[k].comps;
    |comps| == |base| + 1 || (|comps| > |base| + 1 && IsDirAmong(items[..k], comps[..|comps|-1]))
  }

  ghost predicate ListsParents(items: seq<Item>, base: seq<string>) {
    forall k {:trigger ParentBefore(items, base, k)} | 0 <= k < |items| :: ParentBefore(items, base, k)
  }

  lemma AmongMore(items: seq<Item>, more: seq<Item>, offset: nat, comps: seq<string>)
    requires IsDirAmong(items, comps) && offset + |items| <= |more|
    requires forall k | 0 <= k < |items| :: more[offset + k] == items[k]
    ensures IsDirAmong(more, comps)
  {
    var i :| 0 <= i < |items| && items[i].comps == comps && items[i].node.Dir?;
    assert more[offset + i] == items[i];
  }

  lemma PartsListParents(base: seq<string>, name: string, first: Item, sub: seq<Item>, rest: seq<Item>, k: nat)
    requires first.comps == base + [name] && (sub != [] ==> first.node.Dir?)
    requires AllBelow(sub, base + [name]) && ListsParents(sub, base + [name]) && ListsParents(rest, base)
    requires k < 1 + |sub| + |rest|
    ensures ParentBefore([first] + sub + rest, base, k)
  {
    var items := [first] + sub + rest;
    if 1 <= k <= |sub| {
      assert items[k] == sub[k-1] && ParentBefore(sub, base + [name], k - 1);
      var parent := items[k].comps[..|items[k].comps|-1];
      if |items[k].comps| == |base| + 2 {
        assert parent == base + [name];
        assert items[..k][0] == first;
      } else {
        AmongMore(sub[..k-1], items[..k], 1, parent);
      }
    } else if k > |sub| {
      var m := k - 1 - |sub|;
      assert items[k] == rest[m] && ParentBefore(rest, base, m);
      if |items[k].comps| > |base| + 1 {
        AmongMore(rest[..m], items[..k], 1 + |sub|, items[k].comps[..|items[k].comps|-1]);
      }
    }
  }

  lemma {:induction false} InventoryListsParents(base: seq<string>, f: Forest)
    requires WellNamed(f)
    ensures ListsParents(Inventory(base, f), base)
    decreases f
  {
    match f
    case Nil =>
    case Cons(name, node, rest) =>
      InventoryListsParents(base, rest);
      var sub := [];
      if node.Dir? {
        InventoryListsParents(base + [name], node.children);
        InventoryIsBelow(base + [name], node.children);
        sub := Inventory(base + [name], node.children);
      }
      var first, others := Item(base + [name], node), Inventory(base, rest);
      forall k | 0 <= k < |[first] + sub + others|
        ensures ParentBefore([first] + sub + others, base, k)
      {
        PartsListParents(base, name, first, sub, others, k);
      }
  }

  // ---------- extraction ----------

  datatype Extracted = DirAt(mode: nat) | FileAt(mode: nat, content: Blob)

  /** What exists below the destination, by relative path. */
  type Target = map<seq<string>, Extracted>

  /** The first n components of the path exist as directories afterwards; None when one is a file. */
  function MakeParents(t: Target, comps: seq<string>, n: nat): Option<Target>
    requires n <= |comps|
  {
    if n == 0 then Some(t)
    else
      var before := MakeParents(t, comps, n - 1);
      if before.None? then None
      else if comps[..n] in before.value then (if before.value[comps[..n]].DirAt? then before else None)
      else Some(before.value[comps[..n] := DirAt(PRIVATE)])
  }

  /** The lowest nine bits. */
  function Permissions(mode: nat): (bits: nat)
    ensures bits < 512 && (mode - bits) % 512 == 0
  {
    mode % PERMISSIONS
  }

  /** Directories stay private until the end; files are never overwritten. */
  function Place(t: Target, comps: seq<string>, x: Extracted): Option<Target>
    requires comps != []
  {
    var parents := MakeParents(t, comps, |comps| - 1);
    if parents.None? then None
    else if x.DirAt? then
      if comps in parents.value then (if parents.value[comps].DirAt? then parents else None)
      else Some(parents.value[comps := DirAt(PRIVATE)])
    else if comps in parents.value then None
    else Some(parents.value[comps := x])
  }

  // ---------- reading ----------

  datatype ReadError =
    | EntryAfterManifest | TooManyEntries | DuplicatePath | InvalidManifest | UnexpectedEntry | UnsafePath
    | LinkOrSpecial | TargetExists | InvalidId | TruncatedFile
    | Unsupported | ChecksumMismatch | InvalidScope | StoresIncomplete | IdentityMismatch | CountMismatch

  datatype ReadState = ReadState(
    records: seq<Record>, seen: set<string>, manifest: Option<Manifest>, id: Option<Identity>, server: Option<bool>,
    target: Target, modes: seq<(seq<string>, nat)>)

  const START := ReadState([], {}, None, None, None, map[], [])

  predicate HasPrefix(name: string, prefix: string) {
    prefix <= name
  }

  function TrimSlashes(name: string): string {
    if name != "" && name[|name|-1] == '/' then TrimSlashes(name[..|name|-1]) else name
  }

  predicate SafeParts(parts: seq<string>) {
    forall k | 0 <= k < |parts| :: parts[k] != "" && parts[k] != "." && parts[k] != ".."
  }

  /** `safe_relative`: the components of the path, if it is safe. */
  function SafeRelative(name: string): Option<seq<string>> {
    if name != "" && name[0] != '/' && SafeParts(Split(name, '/')) && '\\' !in name && '\0' !in name
    then Some(Split(name, '/')) else None
  }

  function RelativeName(m: Member, server: bool): string
    requires HasPrefix(m.name, Prefix(server))
  {
    var name := m.name[|Prefix(server)|..];
    if m.kind.DirMember? then TrimSlashes(name) else name
  }

  function ServerOf(st: ReadState, m: Member): bool {
    if st.server.Some? then st.server.value else HasPrefix(m.name, Prefix(true))
  }

  function RecordOf(name: string, m: Member): Record {
    if m.kind.DirMember? then DirRecord(name, Permissions(m.mode))
    else FileRecord(name, Permissions(m.mode), Size(m.content), Sha256(m.content))
  }

  function ExtractedOf(m: Member): Extracted {
    if m.kind.DirMember? then DirAt(Permissions(m.mode)) else FileAt(Permissions(m.mode), m.content)
  }

  /** One turn of the loop over the members. */
  function ReadMember(b: Bounds, st: ReadState, m: Member): Result<ReadState, ReadError> {
    if st.manifest.Some? then Err(EntryAfterManifest)
    else if |st.records| >= b.entries + 1 then Err(TooManyEntries)
    else if m.name in st.seen then Err(DuplicatePath)
    else
      var next := st.(seen := st.seen + {m.name});
      if m.name == MANIFEST_NAME then
        if m.kind.FileMember? && 0 < m.size <= b.manifest && m.content.Document?
        then Ok(next.(manifest := Some(m.content.manifest))) else Err(InvalidManifest)
      else
        var server := ServerOf(st, m);
        if !HasPrefix(m.name, Prefix(server)) then Err(UnexpectedEntry)
        else
          var name := RelativeName(m, server);
          var comps := SafeRelative(name);
          if comps.None? then Err(UnsafePath)
          else if m.kind.OtherMember? then Err(LinkOrSpecial)
          else ReadEntry(next.(server := Some(server)), m, name, comps.value)
  }

  function ReadEntry(st: ReadState, m: Member, name: string, comps: seq<string>): Result<ReadState, ReadError>
    requires comps != [] && !m.kind.OtherMember?
  {
    if m.kind.FileMember? && comps == ID_PATH && m.size != 16 then Err(InvalidId)
    else
      var placed := Place(st.target, comps, ExtractedOf(m));
      if placed.None? then Err(TargetExists)
      else if m.kind.FileMember? && Size(m.content) != m.size then Err(TruncatedFile)
      else
        Ok(st.(records := st.records + [RecordOf(name, m)], target := placed.value,
               id := if m.kind.FileMember? && comps == ID_PATH then Some(Urc(m.content)) else st.id,
               modes := if m.kind.DirMember? then st.modes + [(comps, Permissions(m.mode))] else st.modes))
  }

  function ReadMembers(b: Bounds, members: seq<Member>): Result<ReadState, ReadError> {
    if members == [] then Ok(START)
    else
      var before := ReadMembers(b, members[..|members|-1]);
      if before.Err? then before else ReadMember(b, before.value, members[|members|-1])
  }

  function FileCount(records: seq<Record>): nat {
    if records == [] then 0
    else FileCount(records[..|records|-1]) + if records[|records|-1].FileRecord? then 1 else 0
  }

  function TotalBytes(records: seq<Record>): nat {
    if records == [] then 0
    else TotalBytes(records[..|records|-1]) + if records[|records|-1].FileRecord? then records[|records|-1].size else 0
  }

  /** The kind recorded last for a path: true for a directory. */
  function KindOf(records: seq<Record>, path: string): Option<bool> {
    if records == [] then None
    else if records[|records|-1].path == path then Some(records[|records|-1].DirRecord?)
    else KindOf(records[..|records|-1], path)
  }

  predicate StoresComplete(records: seq<Record>) {
    && KindOf(records, Path(INDEX_PATHS[0])) == Some(true) && KindOf(records, Path(INDEX_PATHS[1])) == Some(true)
    && KindOf(records, Path(VERSION_PATH)) == Some(false)
  }

  /** The checks after the loop. */
  function Verdict(st: ReadState): Option<ReadError> {
    var server := st.server == Some(true);
    if st.manifest.None? || st.manifest.value.format != Format(server) || st.manifest.value.kind != Kind(server)
    then Some(Unsupported)
    else
      var m := st.manifest.value;
      if m.entries != st.records then Some(ChecksumMismatch)
      else if server && (m.repositoryId != Named("server:local") || m.scope != Some("all-local-server-repositories"))
      then Some(InvalidScope)
      else if server && !StoresComplete(st.records) then Some(StoresIncomplete)
      else if !server && (st.id.None? || st.id.value != m.repositoryId) then Some(IdentityMismatch)
      else if m.fileCount != FileCount(st.records) || m.totalBytes != TotalBytes(st.records) then Some(CountMismatch)
      else None
  }

  /** Directory modes are applied from the last to the first. */
  function ApplyModes(t: Target, modes: seq<(seq<string>, nat)>): Target
    decreases modes
  {
    if modes == [] then t
    else ApplyModes(t[modes[|modes|-1].0 := DirAt(modes[|modes|-1].1)], modes[..|modes|-1])
  }

  /** `read_archive` with a destination: the manifest and what was extracted. */
  function ReadArchive(b: Bounds, members: seq<Member>): Result<(Manifest, Target), ReadError> {
    var read := ReadMembers(b, members);
    if read.Err? then Err(read.error)
    else
      var verdict := Verdict(read.value);
      if verdict.Some? then Err(verdict.value)
      else Ok((read.value.manifest.value, ApplyModes(read.value.target, read.value.modes)))
  }

  /** The loop of `read_archive`. */
  method Read(b: Bounds, members: seq<Member>) returns (r: Result<(Manifest, Target), ReadError>)
    ensures r == ReadArchive(b, members)
  {
    var st := START;
    for k := 0 to |members|
      invariant ReadMembers(b, members[..k]) == Ok(st)
    {
      assert members[..k+1][..k] == members[..k];
      var next := ReadMember(b, st, members[k]);
      if next.Err? {
        FailureStays(b, members, k + 1);
        return Err(next.error);
      }
      st := next.value;
    }
    assert members[..|members|] == members;
    var verdict := Verdict(st);
    if verdict.Some? {
      return Err(verdict.value);
    }
    var target, i := st.target, |st.modes|;
    assert st.modes[..|st.modes|] == st.modes;
    while i > 0
      invariant 0 <= i <= |st.modes|
      invariant ApplyModes(target, st.modes[..i]) == ApplyModes(st.target, st.modes)
    {
      i := i - 1;
      assert st.modes[..i+1][..i] == st.modes[..i];
      target := target[st.modes[i].0 := DirAt(st.modes[i].1)];
    }
    return Ok((st.manifest.value, target));
  }

  lemma {:induction false} FailureStays(b: Bounds, members: seq<Member>, k: nat)
    requires k <= |members| && ReadMembers(b, members[..k]).Err?
    ensures ReadMembers(b, members) == ReadMembers(b, members[..k])
    decreases |members| - k
  {
    if k == |members| {
      assert members[..k] == members;
    } else {
      assert members[..k+1][..k] == members[..k];
      FailureStays(b, members, k + 1);
    }
  }
}
