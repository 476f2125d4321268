/** What reading any archive may do to the destination (read_archive). */
module ArchiveRestore {
  import opened Wrappers
  import opened Text
  import opened Paths
  import opened Archive
  import opened ArchiveRoundTrip

  // ---------- every target lies strictly below the destination ----------

  predicate SafeComponent(name: string) {
    name != "" && name != "." && name != ".." && '/' !in name && '\\' !in name && '\0' !in name
  }

  /** At least one component, and none that leaves the directory it is in. */
  predicate SafeComps(comps: seq<string>) {
    comps != [] && forall k | 0 <= k < |comps| :: SafeComponent(comps[k])
  }

  ghost predicate InsideOnly(t: Target) {
    forall comps | comps in t :: SafeComps(comps)
  }

  lemma {:induction false} SplitKeepsChars(s: string, k: nat, c: char)
    requires k < |Split(s, '/')| && c in Split(s, '/')[k]
    ensures c in s
    decreases s
  {
    if s != "" {
      var rest := Split(s[1..], '/');
      if s[0] == '/' {
        if k > 0 {
          SplitKeepsChars(s[1..], k - 1, c);
        }
      } else if k > 0 || c in rest[0] {
        SplitKeepsChars(s[1..], k, c);
      }
    }
  }

  lemma SafeRelativeIsSafe(name: string)
    requires SafeRelative(name).Some?
    ensures SafeComps(SafeRelative(name).value) && Path(SafeRelative(name).value) == name
  {
    var comps := SafeRelative(name).value;
    JoinSplit(name, '/');
    SplitLacks(name, '/');
    forall k | 0 <= k < |comps|
      ensures SafeComponent(comps[k])
    {
      assert Lacks(comps[k], '/');
      if '\\' in comps[k] {
        SplitKeepsChars(name, k, '\\');
      }
      if '\0' in comps[k] {
        SplitKeepsChars(name, k, '\0');
      }
    }
  }

  /** Wherever the destination lies, resolving an accepted name ends exactly its components below it. */
  lemma SafeNameStaysBelow(name: string, destination: seq<string>)
    requires SafeRelative(name).Some?
    ensures StaysBelow(destination, Split(name, '/'))
    ensures Resolve(destination, Split(name, '/')) == destination + SafeRelative(name).value
  {
    SafeRelativeIsSafe(name);
    SplitJoin(SafeRelative(name).value, '/');
    NamesStayBelow(destination, SafeRelative(name).value);
  }

  lemma {:induction false} ParentsAreInside(t: Target, comps: seq<string>, n: nat)
    requires InsideOnly(t) && SafeComps(comps) && n <= |comps| && MakeParents(t, comps, n).Some?
    ensures InsideOnly(MakeParents(t, comps, n).value)
    ensures forall c | c in t :: c in MakeParents(t, comps, n).value && MakeParents(t, comps, n).value[c] == t[c]
  {
    if n > 0 {
      ParentsAreInside(t, comps, n - 1);
    }
  }

  /** Placing an entry only adds paths below the destination and changes nothing that was there. */
  lemma PlaceIsInside(t: Target, comps: seq<string>, x: Extracted)
    requires InsideOnly(t) && SafeComps(comps) && Place(t, comps, x).Some?
    ensures InsideOnly(Place(t, comps, x).value)
    ensures forall c | c in t :: c in Place(t, comps, x).value && Place(t, comps, x).value[c] == t[c]
    ensures comps in Place(t, comps, x).value
    ensures if x.DirAt? then Place(t, comps, x).value[comps].DirAt?
            else comps !in t && Place(t, comps, x).value[comps] == x
  {
    ParentsAreInside(t, comps, |comps| - 1);
  }

  // ---------- what a record says is what was extracted ----------

  ghost predicate RecordKept(t: Target, r: Record) {
    match r
    case DirRecord(path, _) => Split(path, '/') in t && t[Split(path, '/')].DirAt?
    case FileRecord(path, mode, size, digest) =>
      var comps := Split(path, '/');
      && comps in t && t[comps].FileAt? && t[comps].mode == mode
      && Sha256(t[comps].content) == digest && Size(t[comps].content) == size
  }

  ghost predicate ModesAreDirs(t: Target, modes: seq<(seq<string>, nat)>) {
    forall i | 0 <= i < |modes| :: modes[i].0 in t && t[modes[i].0].DirAt?
  }

  /** Each recorded path is the name of a member that was seen. */
  ghost predicate RecordSeen(st: ReadState, r: Record) {
    st.server.Some? && Prefix(st.server.value) + r.path in st.seen
  }

  ghost predicate Faithful(st: ReadState) {
    && InsideOnly(st.target) && ModesAreDirs(st.target, st.modes)
    && (forall i | 0 <= i < |st.records| :: RecordKept(st.target, st.records[i]) && RecordSeen(st, st.records[i]))
    && (forall i, j | 0 <= i < j < |st.records| :: st.records[i].path != st.records[j].path)
  }

  /** Names of directories as tar readers give them: without a trailing slash. */
  predicate Normalised(m: Member) {
    m.kind.DirMember? && m.name != "" ==> m.name[|m.name|-1] != '/'
  }

  lemma NormalisedName(m: Member, server: bool)
    requires Normalised(m) && HasPrefix(m.name, Prefix(server))
    ensures Prefix(server) + RelativeName(m, server) == m.name
  {
    var name := m.name[|Prefix(server)|..];
    assert m.name == Prefix(server) + name;
    assert name != "" ==> name[|name|-1] == m.name[|m.name|-1];
    assert Prefix(server)[|Prefix(server)|-1] == '/';
  }

  lemma EntryKeepsFaithful(st: ReadState, m: Member, name: string, comps: seq<string>, seen: set<string>)
    requires Faithful(st) && SafeRelative(name) == Some(comps) && !m.kind.OtherMember? && st.server.Some?
    requires Prefix(st.server.value) + name !in st.seen && seen == st.seen + {Prefix(st.server.value) + name}
    requires comps != [] && ReadEntry(st.(seen := seen), m, name, comps).Ok?
    ensures Faithful(ReadEntry(st.(seen := seen), m, name, comps).value)
  {
    var next := ReadEntry(st.(seen := seen), m, name, comps).value;
    SafeRelativeIsSafe(name);
    PlaceIsInside(st.target, comps, ExtractedOf(m));
    forall i | 0 <= i < |next.records|
      ensures RecordKept(next.target, next.records[i]) && RecordSeen(next, next.records[i])
    {
      if i < |st.records| {
        assert RecordKept(st.target, st.records[i]) && RecordSeen(st, st.records[i]);
      }
    }
    forall i | 0 <= i < |st.records|
      ensures st.records[i].path != name
    {
      assert RecordSeen(st, st.records[i]);
    }
  }

  /** The state before the last member, if reading succeeded. */
  lemma LastMember(b: Bounds, members: seq<Member>) returns (st: ReadState)
    requires ReadMembers(b, members).Ok? && members != []
    ensures ReadMembers(b, members[..|members|-1]) == Ok(st)
    ensures ReadMembers(b, members) == ReadMember(b, st, members[|members|-1])
  {
    st := ReadMembers(b, members[..|members|-1]).value;
  }

  lemma MemberKeepsFaithful(b: Bounds, st: ReadState, m: Member)
    requires Faithful(st) && Normalised(m) && ReadMember(b, st, m).Ok?
    ensures Faithful(ReadMember(b, st, m).value)
  {
    if m.name != MANIFEST_NAME {
      var server := ServerOf(st, m);
      NormalisedName(m, server);
      var name := RelativeName(m, server);
      var from := st.(server := Some(server));
      forall i | 0 <= i < |st.records|
        ensures RecordSeen(from, st.records[i])
      {
        assert RecordSeen(st, st.records[i]);
      }
      EntryKeepsFaithful(from, m, name, SafeRelative(name).value, st.seen + {m.name});
    }
  }

  lemma {:induction false} ReadKeepsFaithful(b: Bounds, members: seq<Member>)
    requires ReadMembers(b, members).Ok? && forall k | 0 <= k < |members| :: Normalised(members[k])
    ensures Faithful(ReadMembers(b, members).value)
  {
    if members != [] {
      var init := members[..|members|-1];
      ReadKeepsFaithful(b, init);
      MemberKeepsFaithful(b, ReadMembers(b, init).value, members[|members|-1]);
    }
  }

  lemma {:induction false} ModesKeepFiles(t: Target, modes: seq<(seq<string>, nat)>)
    requires ModesAreDirs(t, modes)
    ensures ApplyModes(t, modes).Keys == t.Keys
    ensures forall c | c in t ::
              if t[c].FileAt? then ApplyModes(t, modes)[c] == t[c] else ApplyModes(t, modes)[c].DirAt?
    decreases modes
  {
    if modes != [] {
      var last := modes[|modes|-1];
      assert last.0 in t && t[last.0].DirAt?;
      assert ModesAreDirs(t, modes[..|modes|-1]);
      ModesKeepFiles(t[last.0 := DirAt(last.1)], modes[..|modes|-1]);
    }
  }

  /**
   * Whatever the archive: every extracted path lies strictly below the destination. If it is accepted, no
   * two entries share a target, and each file of the manifest is there with its size, mode and digest.
   */
  lemma AcceptedArchiveIsSafe(b: Bounds, members: seq<Member>)
    requires forall k | 0 <= k < |members| :: Normalised(members[k])
    requires ReadArchive(b, members).Ok?
    ensures var (m, t) := ReadArchive(b, members).value;
            && InsideOnly(t)
            && (forall i | 0 <= i < |m.entries| :: RecordKept(t, m.entries[i]))
            && (forall i, j | 0 <= i < j < |m.entries| ::
                  Split(m.entries[i].path, '/') != Split(m.entries[j].path, '/'))
  {
    ReadKeepsFaithful(b, members);
    var st := ReadMembers(b, members).value;
    var (m, t) := ReadArchive(b, members).value;
    ModesKeepFiles(st.target, st.modes);
    forall i | 0 <= i < |m.entries|
      ensures RecordKept(t, m.entries[i])
    {
      assert RecordKept(st.target, st.records[i]);
    }
    forall i, j | 0 <= i < j < |m.entries|
      ensures Split(m.entries[i].path, '/') != Split(m.entries[j].path, '/')
    {
      JoinSplit(m.entries[i].path, '/');
      JoinSplit(m.entries[j].path, '/');
    }
  }

  // ---------- what the manifest says about the whole ----------

  /** The paths at which files were extracted. */
  ghost function FilesOf(t: Target): set<seq<string>> {
    set c | c in t && t[c].FileAt?
  }

  /** The bytes at these paths. */
  ghost function BytesAt(t: Target, paths: set<seq<string>>): nat
    requires paths <= FilesOf(t)
  {
    if paths == {} then 0
    else
      var c :| c in paths;
      Size(t[c].content) + BytesAt(t, paths - {c})
  }

  lemma {:induction false} PickBytes(t: Target, paths: set<seq<string>>, c: seq<string>)
    requires paths <= FilesOf(t) && c in paths
    ensures BytesAt(t, paths) == Size(t[c].content) + BytesAt(t, paths - {c})
    decreases |paths|
  {
    var d :| d in paths && BytesAt(t, paths) == Size(t[d].content) + BytesAt(t, paths - {d});
    if d != c {
      PickBytes(t, paths - {d}, c);
      PickBytes(t, paths - {c}, d);
      assert paths - {d} - {c} == paths - {c} - {d};
    }
  }

  lemma {:induction false} SameBytes(t: Target, u: Target, paths: set<seq<string>>)
    requires paths <= FilesOf(t) && paths <= FilesOf(u) && forall c | c in paths :: u[c] == t[c]
    ensures BytesAt(u, paths) == BytesAt(t, paths)
    decreases |paths|
  {
    if paths != {} {
      var c :| c in paths;
      PickBytes(t, paths, c);
      PickBytes(u, paths, c);
      SameBytes(t, u, paths - {c});
    }
  }

  /** The files and their bytes are those that the records count, and the identity is what `.lore/id` holds. */
  ghost predicate Accounted(st: ReadState) {
    && FileCount(st.records) == |FilesOf(st.target)|
    && TotalBytes(st.records) == BytesAt(st.target, FilesOf(st.target))
    && (st.id.Some? ==> IsNamedAfter(st.target, st.id.value))
  }

  predicate IsNamedAfter(t: Target, id: Identity) {
    ID_PATH in t && t[ID_PATH].FileAt? && Size(t[ID_PATH].content) == 16 && id == Urc(t[ID_PATH].content)
  }

  lemma {:induction false} ParentsAreNoFiles(t: Target, comps: seq<string>, n: nat)
    requires n <= |comps| && MakeParents(t, comps, n).Some?
    ensures var u := MakeParents(t, comps, n).value;
            FilesOf(u) == FilesOf(t) && forall c | c in t :: c in u && u[c] == t[c]
  {
    if n > 0 {
      ParentsAreNoFiles(t, comps, n - 1);
    }
  }

  lemma PlaceAddsFile(t: Target, comps: seq<string>, x: Extracted)
    requires comps != [] && Place(t, comps, x).Some?
    ensures var u := Place(t, comps, x).value;
            && FilesOf(u) == (if x.FileAt? then FilesOf(t) + {comps} else FilesOf(t))
            && (forall c | c in t :: c in u && u[c] == t[c])
            && (x.FileAt? ==> comps !in t && u[comps] == x)
  {
    ParentsAreNoFiles(t, comps, |comps| - 1);
  }

  lemma PlaceAddsBytes(t: Target, comps: seq<string>, x: Extracted)
    requires comps != [] && Place(t, comps, x).Some?
    ensures var u := Place(t, comps, x).value;
            && |FilesOf(u)| == |FilesOf(t)| + (if x.FileAt? then 1 else 0)
            && BytesAt(u, FilesOf(u)) == BytesAt(t, FilesOf(t)) + if x.FileAt? then Size(x.content) else 0
  {
    var u := Place(t, comps, x).value;
    PlaceAddsFile(t, comps, x);
    SameBytes(t, u, FilesOf(t));
    if x.FileAt? {
      PickBytes(u, FilesOf(u), comps);
      assert FilesOf(u) - {comps} == FilesOf(t);
    }
  }

  lemma EntryKeepsAccounted(st: ReadState, m: Member, name: string, comps: seq<string>)
    requires Accounted(st) && comps != [] && !m.kind.OtherMember? && ReadEntry(st, m, name, comps).Ok?
    ensures Accounted(ReadEntry(st, m, name, comps).value)
  {
    var next := ReadEntry(st, m, name, comps).value;
    PlaceAddsFile(st.target, comps, ExtractedOf(m));
    PlaceAddsBytes(st.target, comps, ExtractedOf(m));
    assert next.records == st.records + [RecordOf(name, m)] && next.records[..|st.records|] == st.records;
  }

  lemma {:induction false} ReadKeepsAccounted(b: Bounds, members: seq<Member>)
    requires ReadMembers(b, members).Ok?
    ensures Accounted(ReadMembers(b, members).value)
    decreases |members|
  {
    if members != [] {
      var init, m := members[..|members|-1], members[|members|-1];
      ReadKeepsAccounted(b, init);
      var st := ReadMembers(b, init).value;
      if m.name != MANIFEST_NAME {
        var server := ServerOf(st, m);
        var name := RelativeName(m, server);
        EntryKeepsAccounted(st.(seen := st.seen + {m.name}, server := Some(server)), m, name, SafeRelative(name).value);
      }
    }
  }

  lemma {:induction false} KindHasRecord(records: seq<Record>, path: string)
    requires KindOf(records, path).Some?
    ensures exists i :: 0 <= i < |records| && records[i].path == path
                        && (records[i].DirRecord? <==> KindOf(records, path).value)
  {
    var last := |records| - 1;
    if records[last].path != path {
      KindHasRecord(records[..last], path);
      var i :| 0 <= i < last && records[i].path == path && (records[i].DirRecord? <==> KindOf(records, path).value);
    }
  }

  predicate HasDir(t: Target, comps: seq<string>) {
    comps in t && t[comps].DirAt?
  }

  predicate HasFile(t: Target, comps: seq<string>) {
    comps in t && t[comps].FileAt?
  }

  lemma KindIsThere(t: Target, records: seq<Record>, path: string)
    requires KindOf(records, path).Some? && forall i | 0 <= i < |records| :: RecordKept(t, records[i])
    ensures if KindOf(records, path).value then HasDir(t, Split(path, '/')) else HasFile(t, Split(path, '/'))
  {
    KindHasRecord(records, path);
    var i :| 0 <= i < |records| && records[i].path == path && (records[i].DirRecord? <==> KindOf(records, path).value);
    assert RecordKept(t, records[i]);
  }

  /** At every point of reading, also when it fails later, everything extracted lies below the destination. */
  lemma {:induction false} ReadingStaysInside(b: Bounds, members: seq<Member>, k: nat)
    requires k <= |members| && ReadMembers(b, members[..k]).Ok?
    ensures InsideOnly(ReadMembers(b, members[..k]).value.target)
  {
    if k > 0 {
      assert members[..k][..k-1] == members[..k-1];
      ReadingStaysInside(b, members, k - 1);
      var st, m := ReadMembers(b, members[..k-1]).value, members[k-1];
      if m.name != MANIFEST_NAME {
        var name := RelativeName(m, ServerOf(st, m));
        SafeRelativeIsSafe(name);
        PlaceIsInside(st.target, SafeRelative(name).value, ExtractedOf(m));
      }
    }
  }

  lemma AcceptedIsInside(b: Bounds, members: seq<Member>)
    requires ReadArchive(b, members).Ok?
    ensures InsideOnly(ReadArchive(b, members).value.1)
  {
    assert members[..|members|] == members;
    ReadingStaysInside(b, members, |members|);
    ModesStayInside(b, members);
  }

  lemma ModesStayInside(b: Bounds, members: seq<Member>)
    requires ReadMembers(b, members).Ok? && InsideOnly(ReadMembers(b, members).value.target)
    ensures InsideOnly(ApplyModes(ReadMembers(b, members).value.target, ReadMembers(b, members).value.modes))
  {
    ModesComeFromTarget(b, members);
    var st := ReadMembers(b, members).value;
    ModesKeepFiles(st.target, st.modes);
  }

  lemma MemberKeepsModes(b: Bounds, st: ReadState, m: Member)
    requires InsideOnly(st.target) && ModesAreDirs(st.target, st.modes) && ReadMember(b, st, m).Ok?
    ensures var next := ReadMember(b, st, m).value; InsideOnly(next.target) && ModesAreDirs(next.target, next.modes)
  {
    if m.name != MANIFEST_NAME {
      var name := RelativeName(m, ServerOf(st, m));
      SafeRelativeIsSafe(name);
      PlaceIsInside(st.target, SafeRelative(name).value, ExtractedOf(m));
    }
  }

  lemma {:induction false} ModesComeFromTarget(b: Bounds, members: seq<Member>)
    requires ReadMembers(b, members).Ok?
    ensures InsideOnly(ReadMembers(b, members).value.target)
    ensures ModesAreDirs(ReadMembers(b, members).value.target, ReadMembers(b, members).value.modes)
    decreases |members|
  {
    if members != [] {
      var before := LastMember(b, members);
      var init, m := members[..|members|-1], members[|members|-1];
      ModesComeFromTarget(b, init);
      MemberKeepsModes(b, before, m);
    }
  }

  /** Something was extracted once there is a record, and there is a record once there is an identity. */
  lemma {:induction false} RecordsLeaveTraces(b: Bounds, members: seq<Member>)
    requires ReadMembers(b, members).Ok?
    ensures var st := ReadMembers(b, members).value;
            (st.records != [] ==> st.target != map[]) && (st.id.Some? ==> st.records != [])
    decreases |members|
  {
    if members != [] {
      var init := members[..|members|-1];
      RecordsLeaveTraces(b, init);
      MemberLeavesTrace(b, ReadMembers(b, init).value, members[|members|-1]);
    }
  }

  lemma MemberLeavesTrace(b: Bounds, st: ReadState, m: Member)
    requires (st.records != [] ==> st.target != map[]) && (st.id.Some? ==> st.records != [])
    requires ReadMember(b, st, m).Ok?
    ensures var next := ReadMember(b, st, m).value;
            (next.records != [] ==> next.target != map[]) && (next.id.Some? ==> next.records != [])
  {
    if m.name != MANIFEST_NAME {
      var comps := SafeRelative(RelativeName(m, ServerOf(st, m))).value;
      assert comps in Place(st.target, comps, ExtractedOf(m)).value;
    }
  }

  lemma {:induction false} ModesKeepPaths(t: Target, modes: seq<(seq<string>, nat)>)
    requires t != map[]
    ensures ApplyModes(t, modes) != map[]
    decreases |modes|
  {
    if modes != [] {
      var last := modes[|modes|-1];
      assert last.0 in t[last.0 := DirAt(last.1)];
      ModesKeepPaths(t[last.0 := DirAt(last.1)], modes[..|modes|-1]);
    }
  }

  lemma AcceptedIsNotEmpty(b: Bounds, members: seq<Member>)
    requires ReadArchive(b, members).Ok?
    ensures ReadArchive(b, members).value.1 != map[]
  {
    var st := ReadMembers(b, members).value;
    RecordsLeaveTraces(b, members);
    assert st.records != [];
    ModesKeepPaths(st.target, st.modes);
  }

  lemma ModesKeepTotals(t: Target, modes: seq<(seq<string>, nat)>)
    requires ModesAreDirs(t, modes)
    ensures var u := ApplyModes(t, modes);
            FilesOf(u) == FilesOf(t) && BytesAt(u, FilesOf(u)) == BytesAt(t, FilesOf(t))
  {
    ModesKeepFiles(t, modes);
    SameBytes(t, ApplyModes(t, modes), FilesOf(t));
  }

  /**
   * An accepted archive says how many files were extracted, and how many bytes; that of a folder is named after the
   * 16 bytes of its `.lore/id`.
   */
  lemma AcceptedArchiveIsAccounted(b: Bounds, members: seq<Member>)
    requires ReadArchive(b, members).Ok?
    ensures var (m, t) := ReadArchive(b, members).value;
            && m.fileCount == |FilesOf(t)| && m.totalBytes == BytesAt(t, FilesOf(t))
            && (m.kind == Kind(false) ==> IsNamedAfter(t, m.repositoryId))
  {
    var st := ReadMembers(b, members).value;
    ReadKeepsAccounted(b, members);
    ModesComeFromTarget(b, members);
    ModesKeepTotals(st.target, st.modes);
    ModesKeepFiles(st.target, st.modes);
  }

  /** An accepted archive of a server store has the server's identity and scope, both indexes and the version. */
  lemma AcceptedStoreIsComplete(b: Bounds, members: seq<Member>)
    requires ReadArchive(b, members).Ok? && ReadArchive(b, members).value.0.kind == Kind(true)
    requires forall k | 0 <= k < |members| :: Normalised(members[k])
    ensures var (m, t) := ReadArchive(b, members).value;
            && m.repositoryId == Named("server:local") && m.scope == Some("all-local-server-repositories")
            && HasDir(t, Split(Path(INDEX_PATHS[0]), '/')) && HasDir(t, Split(Path(INDEX_PATHS[1]), '/'))
            && HasFile(t, Split(Path(VERSION_PATH), '/'))
  {
    AcceptedArchiveIsSafe(b, members);
    var (m, t) := ReadArchive(b, members).value;
    KindIsThere(t, m.entries, Path(INDEX_PATHS[0]));
    KindIsThere(t, m.entries, Path(INDEX_PATHS[1]));
    KindIsThere(t, m.entries, Path(VERSION_PATH));
  }

  // ---------- which members an accepted archive has ----------

  /** A directory, or a file whose bytes are all there, under the prefix of its kind of archive. */
  predicate IsEntry(m: Member, server: bool) {
    && m.name != MANIFEST_NAME && Prefix(server) <= m.name
    && (m.kind.DirMember? || (m.kind.FileMember? && Size(m.content) == m.size))
  }

  /** The names before the manifest were all seen, and only they. */
  ghost predicate AreEntries(b: Bounds, members: seq<Member>, st: ReadState) {
    && st.manifest.None? && |st.records| == |members| <= b.entries + 1 && (members != [] ==> st.server.Some?)
    && (forall k | 0 <= k < |members| :: members[k].name in st.seen && IsEntry(members[k], st.server == Some(true)))
    && AllDiffer(members)
  }

  predicate AllDiffer(members: seq<Member>) {
    forall i, j | 0 <= i < j < |members| :: members[i].name != members[j].name
  }

  /** What the turn for one member that is not the manifest found out about it. */
  lemma MemberIsEntry(b: Bounds, st: ReadState, m: Member)
    requires ReadMember(b, st, m).Ok? && m.name != MANIFEST_NAME
    ensures var next := ReadMember(b, st, m).value;
            && st.manifest.None? && next.manifest.None? && |next.records| == |st.records| + 1 <= b.entries + 1
            && m.name !in st.seen && next.seen == st.seen + {m.name}
            && next.server.Some? && (st.server.Some? ==> next.server == st.server)
            && IsEntry(m, next.server == Some(true))
  {
  }

  /** And for the manifest. */
  lemma MemberIsManifest(b: Bounds, st: ReadState, m: Member)
    requires ReadMember(b, st, m).Ok? && m.name == MANIFEST_NAME
    ensures var next := ReadMember(b, st, m).value;
            && st.manifest.None? && m.name !in st.seen && m.kind.FileMember? && 0 < m.size <= b.manifest
            && m.content.Document? && next.manifest == Some(m.content.manifest)
            && next.records == st.records && next.server == st.server
  {
  }

  lemma DiffersFromSeen(members: seq<Member>, m: Member, seen: set<string>)
    requires AllDiffer(members) && m.name !in seen && forall k | 0 <= k < |members| :: members[k].name in seen
    ensures AllDiffer(members + [m])
  {
  }

  lemma EntriesAndOneMore(b: Bounds, members: seq<Member>, m: Member, st: ReadState, next: ReadState)
    requires AreEntries(b, members, st) && IsEntry(m, next.server == Some(true)) && m.name !in st.seen
    requires next.manifest.None? && |next.records| == |st.records| + 1 <= b.entries + 1 && next.server.Some?
    requires next.seen == st.seen + {m.name} && (st.server.Some? ==> next.server == st.server)
    ensures AreEntries(b, members + [m], next)
  {
    DiffersFromSeen(members, m, st.seen);
    forall k | 0 <= k < |members + [m]|
      ensures (members + [m])[k].name in next.seen && IsEntry((members + [m])[k], next.server == Some(true))
    {
      assert k < |members| ==> (members + [m])[k] == members[k];
    }
  }

  lemma OneMoreMember(b: Bounds, members: seq<Member>, st: ReadState, next: ReadState)
    requires members != [] && ReadMember(b, st, members[|members|-1]) == Ok(next) && next.manifest.None?
    requires st.manifest.None? ==> AreEntries(b, members[..|members|-1], st)
    ensures st.manifest.None? && AreEntries(b, members, next)
  {
    var init, m := members[..|members|-1], members[|members|-1];
    NoManifestYet(b, st, m);
    MemberIsEntry(b, st, m);
    EntriesAndOneMore(b, init, m, st, next);
    assert init + [m] == members;
  }

  /** Nothing follows a manifest. */
  lemma NoManifestYet(b: Bounds, st: ReadState, m: Member)
    requires ReadMember(b, st, m).Ok? && ReadMember(b, st, m).value.manifest.None?
    ensures st.manifest.None? && m.name != MANIFEST_NAME
  {
  }

  lemma {:induction false} BeforeManifest(b: Bounds, members: seq<Member>, st: ReadState)
    requires ReadMembers(b, members) == Ok(st) && st.manifest.None?
    ensures AreEntries(b, members, st)
    decreases |members|
  {
    if members != [] {
      var before := LastMember(b, members);
      if before.manifest.None? {
        BeforeManifest(b, members[..|members|-1], before);
      }
      OneMoreMember(b, members, before, st);
    }
  }

  /** A manifest at the end, and before it only entries of one kind of archive. */
  ghost predicate EndsWithManifest(b: Bounds, members: seq<Member>, m: Manifest, server: bool) {
    var last := |members| - 1;
    && last >= 0 && members[last].name == MANIFEST_NAME && members[last].kind.FileMember?
    && members[last].content.Document? && members[last].content.manifest == m && 0 < members[last].size <= b.manifest
    && (forall k | 0 <= k < last :: IsEntry(members[k], server)) && AllDiffer(members)
    && |m.entries| == last <= b.entries + 1
  }

  lemma EntriesThenManifest(b: Bounds, members: seq<Member>, st: ReadState, next: ReadState)
    requires members != [] && ReadMember(b, st, members[|members|-1]) == Ok(next)
    requires next.manifest.Some? && next.manifest.value.entries == next.records
    requires st.manifest.None? ==> AreEntries(b, members[..|members|-1], st)
    ensures EndsWithManifest(b, members, next.manifest.value, next.server == Some(true))
  {
    var init, m := members[..|members|-1], members[|members|-1];
    if m.name != MANIFEST_NAME {
      MemberIsEntry(b, st, m);
    } else {
      MemberIsManifest(b, st, m);
      DiffersFromSeen(init, m, st.seen);
      assert init + [m] == members;
      forall k | 0 <= k < |init|
        ensures IsEntry(members[k], st.server == Some(true))
      {
        assert members[k] == init[k];
      }
    }
  }

  lemma ReadToTheEnd(b: Bounds, members: seq<Member>, st: ReadState)
    requires ReadMembers(b, members) == Ok(st) && st.manifest.Some? && st.manifest.value.entries == st.records
    ensures EndsWithManifest(b, members, st.manifest.value, st.server == Some(true))
  {
    var before := LastMember(b, members);
    if before.manifest.None? {
      BeforeManifest(b, members[..|members|-1], before);
    }
    EntriesThenManifest(b, members, before, st);
  }

  /**
   * An accepted archive is a list of whole files and directories of one kind, each name once and no more than
   * allowed, and after them one manifest of the permitted size, whose format goes with that kind.
   */
  lemma AcceptedMembers(b: Bounds, members: seq<Member>)
    requires ReadArchive(b, members).Ok?
    ensures var m := ReadArchive(b, members).value.0;
            || (m.format == 2 && m.kind == "folder-tar-gzip" && EndsWithManifest(b, members, m, false))
            || (m.format == 3 && m.kind == "server-store-tar-gzip" && EndsWithManifest(b, members, m, true))
  {
    ReadToTheEnd(b, members, ReadMembers(b, members).value);
  }

  // ---------- modes ----------

  /** No mode has more than the permission bits: nothing runs under another identity. */
  predicate PlainModes(t: Target) {
    forall c | c in t :: t[c].mode < 512
  }

  predicate PlainTurns(modes: seq<(seq<string>, nat)>) {
    forall i | 0 <= i < |modes| :: modes[i].1 < 512
  }

  lemma {:induction false} ParentsArePlain(t: Target, comps: seq<string>, n: nat)
    requires PlainModes(t) && n <= |comps| && MakeParents(t, comps, n).Some?
    ensures PlainModes(MakeParents(t, comps, n).value)
  {
    if n > 0 {
      ParentsArePlain(t, comps, n - 1);
    }
  }

  lemma MemberKeepsPlain(b: Bounds, st: ReadState, m: Member)
    requires PlainModes(st.target) && PlainTurns(st.modes) && ReadMember(b, st, m).Ok?
    ensures var next := ReadMember(b, st, m).value; PlainModes(next.target) && PlainTurns(next.modes)
  {
    if m.name != MANIFEST_NAME {
      var comps := SafeRelative(RelativeName(m, ServerOf(st, m))).value;
      ParentsArePlain(st.target, comps, |comps| - 1);
    }
  }

  lemma {:induction false} ReadKeepsPlain(b: Bounds, members: seq<Member>)
    requires ReadMembers(b, members).Ok?
    ensures PlainModes(ReadMembers(b, members).value.target) && PlainTurns(ReadMembers(b, members).value.modes)
    decreases |members|
  {
    if members != [] {
      var before := LastMember(b, members);
      var init, m := members[..|members|-1], members[|members|-1];
      ReadKeepsPlain(b, init);
      MemberKeepsPlain(b, before, m);
    }
  }

  lemma {:induction false} TurnsKeepPlain(t: Target, modes: seq<(seq<string>, nat)>)
    requires PlainModes(t) && PlainTurns(modes)
    ensures PlainModes(ApplyModes(t, modes))
    decreases modes
  {
    if modes != [] {
      TurnsKeepPlain(t[modes[|modes|-1].0 := DirAt(modes[|modes|-1].1)], modes[..|modes|-1]);
    }
  }

  /** Whatever the modes in an archive are, nothing is extracted with more than permission bits. */
  lemma AcceptedModesArePlain(b: Bounds, members: seq<Member>)
    requires ReadArchive(b, members).Ok?
    ensures PlainModes(ReadArchive(b, members).value.1)
  {
    ReadKeepsPlain(b, members);
    var st := ReadMembers(b, members).value;
    TurnsKeepPlain(st.target, st.modes);
  }
}
