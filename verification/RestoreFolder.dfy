/** Restoring an archive into a new folder: every operation on the folder, and every way to stop (restore_archive). */
module RestoreFolder {
  import opened Wrappers
  import opened Text
  import opened Topo
  import opened Archive
  import opened ArchiveRoundTrip
  import opened ArchiveRestore
  import opened RestoreModes

  // ---------- the restore folder and the operations on it ----------

  const MARKER := ".lorehub-restore-incomplete"

  /** The restore folder: whether it is there, its marker, its staging area and what was moved out of that. */
  datatype Folder = Folder(present: bool, marker: bool, staging: Option<Target>, moved: Target)

  const ABSENT := Folder(false, false, None, map[])

  datatype Op =
    | MakeTarget | WriteMarker | MakeStaging
    | Extract(comps: seq<string>, x: Extracted)
    | SetMode(comps: seq<string>, mode: nat)
    | Rename(child: string)
    | RemoveStaging | UnlinkMarker | SyncTarget | SyncParent

  function TopNames(t: Target): set<string> {
    set comps | comps in t && comps != [] :: comps[0]
  }

  function Below(t: Target, names: set<string>): Target {
    map comps | comps in t && comps != [] && comps[0] in names :: t[comps]
  }

  function Except(t: Target, names: set<string>): Target {
    map comps | comps in t && (comps != [] ==> comps[0] !in names) :: t[comps]
  }

  predicate OwnerMayWrite(mode: nat) {
    mode / 128 % 2 == 1
  }

  /** Nothing the staging area or the marker would clash with. */
  predicate NoCollision(t: Target, stagingName: string) {
    MARKER !in TopNames(t) && stagingName !in TopNames(t)
  }

  /** A directory gets a new parent, so moving it takes write permission on the directory itself. */
  predicate Movable(privileged: bool, t: Target, child: string) {
    && child in TopNames(t)
    && (privileged || ([child] in t && t[[child]].DirAt? ==> OwnerMayWrite(t[[child]].mode)))
  }

  /** One operation; None when the system refuses it. */
  function Do(privileged: bool, s: Folder, op: Op): Option<Folder> {
    match op
    case MakeTarget => if s.present then None else Some(s.(present := true))
    case WriteMarker => if s.present then Some(s.(marker := true)) else None
    case MakeStaging => if s.present && s.staging.None? then Some(s.(staging := Some(map[]))) else None
    case Extract(comps, x) =>
      if s.staging.None? || comps == [] || Place(s.staging.value, comps, x).None? then None
      else Some(s.(staging := Place(s.staging.value, comps, x)))
    case SetMode(comps, mode) =>
      if s.staging.None? || comps !in s.staging.value || !(privileged || Searchable(s.staging.value, comps)) then None
      else Some(s.(staging := Some(s.staging.value[comps := DirAt(mode)])))
    case Rename(child) =>
      if s.staging.None? || !Movable(privileged, s.staging.value, child) then None
      else
        var t := s.staging.value;
        Some(s.(staging := Some(Except(t, {child})), moved := s.moved + Below(t, {child})))
    case RemoveStaging => if s.staging == Some(map[]) then Some(s.(staging := None)) else None
    case UnlinkMarker => if s.marker then Some(s.(marker := false)) else None
    case SyncTarget => if s.present then Some(s) else None
    case SyncParent => Some(s)
  }

  /** The operations one after the other; None when one of them is refused. */
  function Perform(privileged: bool, s: Folder, ops: seq<Op>): Option<Folder> {
    if ops == [] then Some(s)
    else
      var before := Perform(privileged, s, ops[..|ops|-1]);
      if before.None? then None else Do(privileged, before.value, ops[|ops|-1])
  }

  /** Nothing that was there is changed, and what is new lies on the way to the path. */
  predicate PartOf(before: Target, comps: seq<string>, after: Target) {
    && (forall c | c in before :: c in after && after[c] == before[c])
    && (forall c | c in after && c !in before :: c != [] && c <= comps)
  }

  /** What an operation that fails or is cut short may leave: an extraction leaves any part of its entry. */
  predicate Broken(s: Folder, op: Op, t: Folder) {
    || t == s
    || (op.WriteMarker? && t == s.(marker := true))
    || (op.Extract? && s.staging.Some? && t.staging.Some? && t == s.(staging := t.staging)
        && PartOf(s.staging.value, op.comps, t.staging.value))
  }

  // ---------- the operations of one restore ----------

  const HEAD: seq<Op> := [MakeTarget, WriteMarker, MakeStaging]
  const CLOSING: seq<Op> := [RemoveStaging, UnlinkMarker, SyncTarget, SyncParent]

  /** What a member makes the reader extract, once its name has passed the checks. */
  function EntryOps(b: Bounds, st: ReadState, m: Member): seq<Op> {
    if st.manifest.Some? || |st.records| >= b.entries + 1 || m.name in st.seen || m.name == MANIFEST_NAME
       || m.kind.OtherMember? || !HasPrefix(m.name, Prefix(ServerOf(st, m))) then []
    else
      var comps := SafeRelative(RelativeName(m, ServerOf(st, m)));
      if comps.None? then [] else [Extract(comps.value, ExtractedOf(m))]
  }

  /** The extractions up to the end of the archive, or up to the member that is refused. */
  function Extractions(b: Bounds, members: seq<Member>): seq<Op> {
    if members == [] then []
    else
      var init := members[..|members|-1];
      var before := ReadMembers(b, init);
      if before.Err? then Extractions(b, init)
      else Extractions(b, init) + EntryOps(b, before.value, members[|members|-1])
  }

  /** Modes are set from the last directory to the first. */
  function ModeOps(modes: seq<(seq<string>, nat)>): (ops: seq<Op>)
    ensures |ops| == |modes|
  {
    if modes == [] then []
    else [SetMode(modes[|modes|-1].0, modes[|modes|-1].1)] + ModeOps(modes[..|modes|-1])
  }

  function Renames(order: seq<string>): (ops: seq<Op>)
    ensures |ops| == |order| && forall k | 0 <= k < |order| :: ops[k] == Rename(order[k])
  {
    seq(|order|, k requires 0 <= k < |order| => Rename(order[k]))
  }

  /** The extractions, and the modes if the archive is accepted. */
  function Fill(b: Bounds, members: seq<Member>): seq<Op> {
    Extractions(b, members)
    + if ReadArchive(b, members).Ok? then ModeOps(ReadMembers(b, members).value.modes) else []
  }

  /** Everything before the renames. */
  function Unpacking(b: Bounds, members: seq<Member>): seq<Op> {
    HEAD + Fill(b, members)
  }

  /** The renames and everything after them; `order` is how the system lists the staged children. */
  function Tail(order: seq<string>): (ops: seq<Op>)
    ensures |ops| == |order| + 4
  {
    Renames(order) + CLOSING
  }

  /** All operations of `restore_archive`. */
  function Script(b: Bounds, members: seq<Member>, order: seq<string>): seq<Op> {
    Unpacking(b, members) + if ReadArchive(b, members).Ok? then Tail(order) else []
  }

  /** The folder after k operations, or after k operations and a broken one. */
  ghost predicate StopsAt(privileged: bool, script: seq<Op>, k: nat, s: Folder) {
    && k <= |script| && Perform(privileged, ABSENT, script[..k]).Some?
    && var before := Perform(privileged, ABSENT, script[..k]).value;
       s == before || (k < |script| && Broken(before, script[k], s))
  }

  /** A run of the script that ends anywhere, for whatever reason, may leave this folder. */
  ghost predicate MayLeave(privileged: bool, script: seq<Op>, s: Folder) {
    exists k: nat :: StopsAt(privileged, script, k, s)
  }

  lemma {:induction false} PerformConcat(privileged: bool, s: Folder, a: seq<Op>, c: seq<Op>)
    ensures var middle := Perform(privileged, s, a);
            Perform(privileged, s, a + c) == if middle.None? then None else Perform(privileged, middle.value, c)
    decreases |c|
  {
    if c == [] {
      assert a + c == a;
    } else {
      assert (a + c)[..|a+c|-1] == a + c[..|c|-1];
      PerformConcat(privileged, s, a, c[..|c|-1]);
    }
  }

  lemma PerformPrefix(privileged: bool, s: Folder, ops: seq<Op>, k: nat)
    requires k <= |ops| && Perform(privileged, s, ops).Some?
    ensures Perform(privileged, s, ops[..k]).Some?
  {
    assert ops == ops[..k] + ops[k..];
    PerformConcat(privileged, s, ops[..k], ops[k..]);
  }

  lemma PerformOne(privileged: bool, s: Folder, op: Op)
    ensures Perform(privileged, s, [op]) == Do(privileged, s, op)
  {
    assert [op][..0] == [];
  }

  // ---------- unpacking, operation by operation ----------

  predicate IsQuiet(op: Op) {
    op.Extract? || op.SetMode?
  }

  predicate AllQuiet(ops: seq<Op>) {
    forall k | 0 <= k < |ops| :: IsQuiet(ops[k])
  }

  lemma {:induction false} QuietOnlyStages(privileged: bool, s: Folder, ops: seq<Op>)
    requires AllQuiet(ops) && s.staging.Some? && Perform(privileged, s, ops).Some?
    ensures var t := Perform(privileged, s, ops).value; t.staging.Some? && t == s.(staging := t.staging)
    decreases |ops|
  {
    if ops != [] {
      QuietOnlyStages(privileged, s, ops[..|ops|-1]);
      assert IsQuiet(ops[|ops|-1]);
    }
  }

  lemma {:induction false} ExtractionsAreQuiet(b: Bounds, members: seq<Member>)
    ensures AllQuiet(Extractions(b, members))
    decreases |members|
  {
    if members != [] {
      ExtractionsAreQuiet(b, members[..|members|-1]);
    }
  }

  lemma {:induction false} ModeOpsAreQuiet(modes: seq<(seq<string>, nat)>)
    ensures AllQuiet(ModeOps(modes))
    decreases |modes|
  {
    if modes != [] {
      ModeOpsAreQuiet(modes[..|modes|-1]);
    }
  }

  lemma HeadPerformed(privileged: bool)
    ensures Perform(privileged, ABSENT, HEAD[..0]) == Some(ABSENT)
    ensures Perform(privileged, ABSENT, HEAD[..1]) == Some(Folder(true, false, None, map[]))
    ensures Perform(privileged, ABSENT, HEAD[..2]) == Some(Folder(true, true, None, map[]))
    ensures Perform(privileged, ABSENT, HEAD) == Some(Folder(true, true, Some(map[]), map[]))
  {
    assert HEAD[..1][..0] == HEAD[..0] && HEAD[..2][..1] == HEAD[..1] && HEAD[..|HEAD|-1] == HEAD[..2];
  }

  lemma FillIsQuiet(b: Bounds, members: seq<Member>)
    ensures AllQuiet(Fill(b, members))
  {
    ExtractionsAreQuiet(b, members);
    if ReadArchive(b, members).Ok? {
      ModeOpsAreQuiet(ReadMembers(b, members).value.modes);
    }
  }

  /** While the folder is filled nothing is moved, and the marker is there from the second operation on. */
  lemma FillingIsMarked(privileged: bool, fill: seq<Op>, k: nat)
    requires AllQuiet(fill) && k <= |HEAD + fill| && Perform(privileged, ABSENT, (HEAD + fill)[..k]).Some?
    ensures var s := Perform(privileged, ABSENT, (HEAD + fill)[..k]).value;
            s.moved == map[] && (s.marker <==> 2 <= k) && (s.staging.Some? <==> 3 <= k)
  {
    HeadPerformed(privileged);
    if k < 3 {
      assert (HEAD + fill)[..k] == HEAD[..k];
    } else {
      assert (HEAD + fill)[..k] == HEAD + fill[..k-3];
      PerformConcat(privileged, ABSENT, HEAD, fill[..k-3]);
      QuietOnlyStages(privileged, Folder(true, true, Some(map[]), map[]), fill[..k-3]);
    }
  }

  /** A run that ends there, also in the middle of an operation. */
  lemma FillingStop(privileged: bool, fill: seq<Op>, script: seq<Op>, k: nat, s: Folder)
    requires AllQuiet(fill) && HEAD + fill <= script && StopsAt(privileged, script, k, s)
    requires k < |HEAD + fill| || k == |HEAD + fill| == |script|
    ensures s.moved == map[] && (s.marker || s.staging.None?)
  {
    assert script[..k] == (HEAD + fill)[..k];
    FillingIsMarked(privileged, fill, k);
    if k < |HEAD + fill| {
      assert script[k] == if k < 3 then HEAD[k] else fill[k-3];
    }
  }

  /** What reading accepts, the folder takes. */
  lemma EntryIsPlaced(b: Bounds, st: ReadState, m: Member, privileged: bool, s: Folder)
    requires ReadMember(b, st, m).Ok? && EntryOps(b, st, m) != [] && s.staging == Some(st.target)
    ensures Do(privileged, s, EntryOps(b, st, m)[0]).Some?
  {
    EntryIsExtracted(b, st, m);
  }

  /** The operation for a member does to the staging area what reading the member does. */
  lemma EntryIsExtracted(b: Bounds, st: ReadState, m: Member)
    requires ReadMember(b, st, m).Ok?
    ensures var ops, next := EntryOps(b, st, m), ReadMember(b, st, m).value;
            if ops == [] then next.target == st.target
            else ops == [ops[0]] && ops[0].Extract? && ops[0].comps != []
                 && Place(st.target, ops[0].comps, ops[0].x) == Some(next.target)
  {
  }

  lemma NextIsStaged(privileged: bool, ops: seq<Op>, b: Bounds, st: ReadState, m: Member)
    requires Perform(privileged, ABSENT, ops) == Some(Folder(true, true, Some(st.target), map[]))
    requires ReadMember(b, st, m).Ok?
    ensures Perform(privileged, ABSENT, ops + EntryOps(b, st, m))
         == Some(Folder(true, true, Some(ReadMember(b, st, m).value.target), map[]))
  {
    var todo := EntryOps(b, st, m);
    EntryIsExtracted(b, st, m);
    PerformConcat(privileged, ABSENT, ops, todo);
    if todo != [] {
      PerformOne(privileged, Folder(true, true, Some(st.target), map[]), todo[0]);
    }
  }

  lemma ExtractionsSnoc(b: Bounds, members: seq<Member>, k: nat)
    requires k < |members| && ReadMembers(b, members[..k]).Ok?
    ensures HEAD + Extractions(b, members[..k+1])
         == HEAD + Extractions(b, members[..k]) + EntryOps(b, ReadMembers(b, members[..k]).value, members[k])
  {
    assert members[..k+1][..k] == members[..k];
  }

  /** No extraction is refused while reading goes on, and the staging area holds what was read. */
  lemma {:induction false} StagedIsRead(privileged: bool, b: Bounds, members: seq<Member>, k: nat)
    requires k <= |members| && ReadMembers(b, members[..k]).Ok?
    ensures Perform(privileged, ABSENT, HEAD + Extractions(b, members[..k]))
         == Some(Folder(true, true, Some(ReadMembers(b, members[..k]).value.target), map[]))
  {
    HeadPerformed(privileged);
    if k == 0 {
      assert HEAD + Extractions(b, members[..0]) == HEAD;
    } else {
      assert members[..k][..k-1] == members[..k-1];
      StagedIsRead(privileged, b, members, k - 1);
      OneMore(b, members, k);
      ExtractionsSnoc(b, members, k - 1);
      NextIsStaged(privileged, HEAD + Extractions(b, members[..k-1]), b, ReadMembers(b, members[..k-1]).value,
                   members[k-1]);
    }
  }

  lemma {:induction false} ModesAreSet(privileged: bool, s: Folder, modes: seq<(seq<string>, nat)>)
    requires s.staging.Some? && ModesAreDirs(s.staging.value, modes)
    ensures Perform(privileged, s, ModeOps(modes))
         == if ModesSettable(privileged, s.staging.value, modes)
            then Some(s.(staging := Some(ApplyModes(s.staging.value, modes)))) else None
    decreases |modes|
  {
    if modes != [] {
      var init, last := modes[..|modes|-1], modes[|modes|-1];
      assert last.0 in s.staging.value;
      var next := Do(privileged, s, SetMode(last.0, last.1));
      PerformOne(privileged, s, SetMode(last.0, last.1));
      PerformConcat(privileged, s, [SetMode(last.0, last.1)], ModeOps(init));
      if next.Some? {
        ModesStayDirs(s.staging.value, modes);
        ModesAreSet(privileged, next.value, init);
      }
    }
  }

  lemma ModesStayDirs(t: Target, modes: seq<(seq<string>, nat)>)
    requires ModesAreDirs(t, modes) && modes != []
    ensures var last := modes[|modes|-1]; ModesAreDirs(t[last.0 := DirAt(last.1)], modes[..|modes|-1])
  {
  }

  lemma FilledIsContent(privileged: bool, extractions: seq<Op>, t: Target, modes: seq<(seq<string>, nat)>)
    requires Perform(privileged, ABSENT, HEAD + extractions) == Some(Folder(true, true, Some(t), map[]))
    requires ModesAreDirs(t, modes)
    ensures Perform(privileged, ABSENT, HEAD + (extractions + ModeOps(modes)))
         == if ModesSettable(privileged, t, modes)
            then Some(Folder(true, true, Some(ApplyModes(t, modes)), map[])) else None
  {
    assert HEAD + (extractions + ModeOps(modes)) == HEAD + extractions + ModeOps(modes);
    PerformConcat(privileged, ABSENT, HEAD + extractions, ModeOps(modes));
    ModesAreSet(privileged, Folder(true, true, Some(t), map[]), modes);
  }

  /** Unpacking an accepted archive stages its whole content, unless the system refuses a mode. */
  lemma UnpackedIsContent(privileged: bool, b: Bounds, members: seq<Member>)
    requires ReadArchive(b, members).Ok?
    ensures Perform(privileged, ABSENT, Unpacking(b, members))
         == if privileged || WayStaysOpen(ReadMembers(b, members).value.modes)
            then Some(Folder(true, true, Some(ReadArchive(b, members).value.1), map[])) else None
  {
    var st := ReadMembers(b, members).value;
    assert members[..|members|] == members;
    StagedIsRead(privileged, b, members, |members|);
    ModesComeFromTarget(b, members);
    ModesSettableExactly(privileged, b, members);
    FilledIsContent(privileged, Extractions(b, members), st.target, st.modes);
  }

  // ---------- the renames, operation by operation ----------

  ghost predicate IsListing(order: seq<string>, names: set<string>) {
    NoDup(order) && forall n :: n in order <==> n in names
  }

  function Listed(order: seq<string>): set<string> {
    set n | n in order
  }

  predicate AllMovable(privileged: bool, t: Target, order: seq<string>) {
    forall k | 0 <= k < |order| :: Movable(privileged, t, order[k])
  }

  /** Some children are still staged, the others were moved; the marker is there. */
  function HalfMoved(full: Target, moved: set<string>): Folder {
    Folder(true, true, Some(Except(full, moved)), Below(full, moved))
  }

  lemma RenameMoves(privileged: bool, full: Target, moved: set<string>, child: string)
    requires child !in moved
    ensures Do(privileged, HalfMoved(full, moved), Rename(child))
         == if Movable(privileged, full, child) then Some(HalfMoved(full, moved + {child})) else None
  {
    var t := Except(full, moved);
    assert child in TopNames(t) <==> child in TopNames(full) by {
      if child in TopNames(full) {
        var comps :| comps in full && comps != [] && comps[0] == child;
        assert comps in t;
      }
    }
    assert [child] in t <==> [child] in full;
    assert Except(t, {child}) == Except(full, moved + {child});
    assert Below(full, moved) + Below(t, {child}) == Below(full, moved + {child});
  }

  lemma RenamesSnoc(order: seq<string>)
    requires order != []
    ensures Renames(order)[..|order|-1] == Renames(order[..|order|-1])
    ensures Renames(order)[|order|-1] == Rename(order[|order|-1])
    ensures Listed(order) == Listed(order[..|order|-1]) + {order[|order|-1]}
  {
  }

  lemma MovableSnoc(privileged: bool, t: Target, order: seq<string>)
    requires order != []
    ensures AllMovable(privileged, t, order)
       <==> AllMovable(privileged, t, order[..|order|-1]) && Movable(privileged, t, order[|order|-1])
  {
  }

  lemma {:induction false} RenamesMove(privileged: bool, full: Target, order: seq<string>)
    requires NoDup(order)
    ensures Perform(privileged, HalfMoved(full, {}), Renames(order))
         == if AllMovable(privileged, full, order) then Some(HalfMoved(full, Listed(order))) else None
    decreases |order|
  {
    if order == [] {
      assert Listed(order) == {};
    } else {
      RenamesMove(privileged, full, order[..|order|-1]);
      RenameMoves(privileged, full, Listed(order[..|order|-1]), order[|order|-1]);
      RenamesSnoc(order);
      MovableSnoc(privileged, full, order);
    }
  }

  lemma AllStaged(full: Target, order: seq<string>)
    requires InsideOnly(full) && IsListing(order, TopNames(full))
    ensures Except(full, {}) == full && Below(full, {}) == map[]
    ensures Except(full, Listed(order)) == map[] && Below(full, Listed(order)) == full
  {
    forall comps | comps in full
      ensures comps != [] && comps[0] in Listed(order)
    {
      assert SafeComps(comps);
      assert comps[0] in TopNames(full);
    }
  }

  // ---------- what a run may leave behind ----------

  function Content(b: Bounds, members: seq<Member>): Option<Target> {
    var r := ReadArchive(b, members);
    if r.Ok? then Some(r.value.1) else None
  }

  function Together(s: Folder): Target {
    if s.staging.Some? then s.staging.value + s.moved else s.moved
  }

  /**
   * Without the marker the folder has nothing in it, or the whole content and nothing else. From the first
   * rename on, what is staged and what was moved make up the whole content.
   */
  predicate Honest(s: Folder, full: Option<Target>) {
    && (!s.marker ==> s.staging.None? && (s.moved == map[] || full == Some(s.moved)))
    && (s.moved != map[] ==> full == Some(Together(s)))
  }

  /** The folder after j operations of the second half of the script. */
  function Moving(full: Target, order: seq<string>, j: nat): Folder
    requires j <= |order| + 4
  {
    if j <= |order| then HalfMoved(full, Listed(order[..j])) else Folder(true, j == |order| + 1, None, full)
  }

  lemma TailPrefix(order: seq<string>, j: nat)
    requires j <= |order| + 4
    ensures Tail(order)[..j]
         == if j <= |order| then Renames(order[..j]) else Renames(order) + CLOSING[..j-|order|]
  {
  }

  /** Once everything was moved, the rest of the script is never refused. */
  lemma ClosingUp(privileged: bool, full: Target, j: nat)
    requires j <= 4
    ensures Perform(privileged, Folder(true, true, Some(map[]), full), CLOSING[..j])
         == Some(Folder(true, j <= 1, if j == 0 then Some(map[]) else None, full))
  {
    if j > 0 {
      ClosingUp(privileged, full, j - 1);
      assert CLOSING[..j][..j-1] == CLOSING[..j-1];
    }
  }

  lemma ClosedUp(privileged: bool, full: Target, order: seq<string>, j: nat)
    requires InsideOnly(full) && IsListing(order, TopNames(full)) && j <= 4
    requires Perform(privileged, HalfMoved(full, {}), Renames(order)) == Some(HalfMoved(full, Listed(order)))
    ensures Perform(privileged, HalfMoved(full, {}), Renames(order) + CLOSING[..j])
         == Some(Folder(true, j <= 1, if j == 0 then Some(map[]) else None, full))
  {
    AllStaged(full, order);
    ClosingUp(privileged, full, j);
    PerformConcat(privileged, HalfMoved(full, {}), Renames(order), CLOSING[..j]);
  }

  lemma RenamesWerePerformed(privileged: bool, s: Folder, order: seq<string>, j: nat)
    requires |order| <= j <= |order| + 4 && Perform(privileged, s, Tail(order)[..j]).Some?
    ensures Perform(privileged, s, Renames(order)).Some?
  {
    PerformPrefix(privileged, s, Tail(order)[..j], |order|);
    assert Tail(order)[..j][..|order|] == Renames(order);
  }

  lemma AfterUnpacking(privileged: bool, full: Target, order: seq<string>, j: nat)
    requires InsideOnly(full) && IsListing(order, TopNames(full)) && j <= |order| + 4
    requires Perform(privileged, HalfMoved(full, {}), Tail(order)[..j]).Some?
    ensures Perform(privileged, HalfMoved(full, {}), Tail(order)[..j]) == Some(Moving(full, order, j))
  {
    if j <= |order| {
      TailPrefix(order, j);
      RenamesMove(privileged, full, order[..j]);
    } else {
      AfterRenames(privileged, full, order, j);
    }
  }

  lemma AfterRenames(privileged: bool, full: Target, order: seq<string>, j: nat)
    requires InsideOnly(full) && IsListing(order, TopNames(full)) && |order| < j <= |order| + 4
    requires Perform(privileged, HalfMoved(full, {}), Tail(order)[..j]).Some?
    ensures Perform(privileged, HalfMoved(full, {}), Tail(order)[..j])
         == Some(Folder(true, j == |order| + 1, None, full))
  {
    RenamesWerePerformed(privileged, HalfMoved(full, {}), order, j);
    RenamesMove(privileged, full, order);
    ClosedUp(privileged, full, order, j - |order|);
    TailPrefix(order, j);
  }

  lemma WholeTail(privileged: bool, full: Target, order: seq<string>)
    requires InsideOnly(full) && IsListing(order, TopNames(full))
    ensures Perform(privileged, HalfMoved(full, {}), Tail(order))
         == if AllMovable(privileged, full, order) then Some(Folder(true, false, None, full)) else None
  {
    TailPrefix(order, |order| + 4);
    assert Tail(order)[..|order|+4] == Tail(order);
    RenamesMove(privileged, full, order);
    if AllMovable(privileged, full, order) {
      ClosedUp(privileged, full, order, 4);
    } else if Perform(privileged, HalfMoved(full, {}), Tail(order)).Some? {
      RenamesWerePerformed(privileged, HalfMoved(full, {}), order, |order| + 4);
    }
  }

  lemma Unpacked(privileged: bool, b: Bounds, members: seq<Member>)
    requires ReadArchive(b, members).Ok?
    ensures InsideOnly(ReadArchive(b, members).value.1)
    ensures Perform(privileged, ABSENT, Unpacking(b, members))
         == if privileged || WayStaysOpen(ReadMembers(b, members).value.modes)
            then Some(HalfMoved(ReadArchive(b, members).value.1, {})) else None
  {
    var full := ReadArchive(b, members).value.1;
    AcceptedIsInside(b, members);
    UnpackedIsContent(privileged, b, members);
    assert Except(full, {}) == full && Below(full, {}) == map[];
  }

  /** Any run that gets as far as the renames. */
  lemma MovingIsReached(privileged: bool, ops: seq<Op>, full: Target, order: seq<string>, j: nat)
    requires InsideOnly(full) && IsListing(order, TopNames(full)) && j <= |order| + 4
    requires Perform(privileged, ABSENT, ops).Some? ==> Perform(privileged, ABSENT, ops).value == HalfMoved(full, {})
    requires Perform(privileged, ABSENT, ops + Tail(order)[..j]).Some?
    ensures Perform(privileged, ABSENT, ops + Tail(order)[..j]) == Some(Moving(full, order, j))
  {
    PerformConcat(privileged, ABSENT, ops, Tail(order)[..j]);
    AfterUnpacking(privileged, full, order, j);
  }

  lemma MovingKeepsTogether(full: Target, order: seq<string>, j: nat)
    requires InsideOnly(full) && IsListing(order, TopNames(full)) && j <= |order| + 4
    ensures Honest(Moving(full, order, j), Some(full))
  {
    AllStaged(full, order);
    if j <= |order| {
      assert Together(HalfMoved(full, Listed(order[..j]))) == full by {
        forall comps | comps in full
          ensures comps != []
        {
          assert SafeComps(comps);
        }
      }
    }
  }

  /** A run that ends there: none of these operations can be done in part. */
  lemma MovingStop(privileged: bool, ops: seq<Op>, full: Target, order: seq<string>, k: nat, s: Folder)
    requires InsideOnly(full) && IsListing(order, TopNames(full))
    requires Perform(privileged, ABSENT, ops).Some? ==> Perform(privileged, ABSENT, ops).value == HalfMoved(full, {})
    requires |ops| <= k && StopsAt(privileged, ops + Tail(order), k, s)
    ensures Honest(s, Some(full)) && (s.marker <==> k <= |ops| + |order| + 1)
    ensures |ops| + |order| + 2 <= k ==> s == Folder(true, false, None, full)
  {
    var j := k - |ops|;
    assert (ops + Tail(order))[..k] == ops + Tail(order)[..j];
    MovingIsReached(privileged, ops, full, order, j);
    MovingKeepsTogether(full, order, j);
    if j < |order| + 4 {
      assert (ops + Tail(order))[k] == Tail(order)[j];
      NotInPart(order, j, Moving(full, order, j), s);
    }
  }

  /** A run that gets past the renames was permitted all of them. */
  lemma RenamesWerePermitted(privileged: bool, ops: seq<Op>, full: Target, order: seq<string>, k: nat, s: Folder)
    requires InsideOnly(full) && IsListing(order, TopNames(full))
    requires Perform(privileged, ABSENT, ops).Some? ==> Perform(privileged, ABSENT, ops).value == HalfMoved(full, {})
    requires |ops| + |order| <= k && StopsAt(privileged, ops + Tail(order), k, s)
    ensures Perform(privileged, ABSENT, ops).Some? && AllMovable(privileged, full, order)
  {
    var j := k - |ops|;
    assert (ops + Tail(order))[..k] == ops + Tail(order)[..j];
    PerformConcat(privileged, ABSENT, ops, Tail(order)[..j]);
    RenamesWerePerformed(privileged, HalfMoved(full, {}), order, j);
    RenamesMove(privileged, full, order);
  }

  lemma NotInPart(order: seq<string>, j: nat, s: Folder, t: Folder)
    requires j < |order| + 4 && (t == s || Broken(s, Tail(order)[j], t))
    ensures t == s
  {
  }

  lemma UnpackedIfDone(privileged: bool, b: Bounds, members: seq<Member>)
    requires ReadArchive(b, members).Ok?
    ensures InsideOnly(ReadArchive(b, members).value.1)
    ensures Perform(privileged, ABSENT, Unpacking(b, members)).Some? ==>
              Perform(privileged, ABSENT, Unpacking(b, members)).value
              == HalfMoved(ReadArchive(b, members).value.1, {})
  {
    Unpacked(privileged, b, members);
  }

  /** Wherever a restore of any archive ends, and whatever broke it, the folder does not claim more than it holds. */
  lemma EveryStopIsHonest(privileged: bool, b: Bounds, members: seq<Member>, order: seq<string>, s: Folder)
    requires ReadArchive(b, members).Ok? ==> IsListing(order, TopNames(ReadArchive(b, members).value.1))
    requires MayLeave(privileged, Script(b, members, order), s)
    ensures Honest(s, Content(b, members))
  {
    var k: nat :| StopsAt(privileged, Script(b, members, order), k, s);
    FillIsQuiet(b, members);
    if ReadArchive(b, members).Ok? && |Unpacking(b, members)| <= k {
      UnpackedIfDone(privileged, b, members);
      MovingStop(privileged, Unpacking(b, members), ReadArchive(b, members).value.1, order, k, s);
    } else {
      FillingStop(privileged, Fill(b, members), Script(b, members, order), k, s);
    }
  }

  // ---------- nothing is written outside ----------

  ghost predicate Contained(s: Folder) {
    InsideOnly(s.moved) && (s.staging.Some? ==> InsideOnly(s.staging.value))
  }

  predicate AllSafe(ops: seq<Op>) {
    forall k | 0 <= k < |ops| && ops[k].Extract? :: SafeComps(ops[k].comps)
  }

  lemma OpKeepsContained(privileged: bool, s: Folder, op: Op)
    requires Contained(s) && (op.Extract? ==> SafeComps(op.comps)) && Do(privileged, s, op).Some?
    ensures Contained(Do(privileged, s, op).value)
  {
    if op.Extract? {
      PlaceIsInside(s.staging.value, op.comps, op.x);
    }
  }

  lemma BrokenKeepsContained(s: Folder, op: Op, t: Folder)
    requires Contained(s) && (op.Extract? ==> SafeComps(op.comps)) && Broken(s, op, t)
    ensures Contained(t)
  {
    if op.Extract? && t.staging.Some? {
      forall c | c in t.staging.value
        ensures SafeComps(c)
      {
        assert c !in s.staging.value ==> c != [] && c <= op.comps;
      }
    }
  }

  lemma {:induction false} RunKeepsContained(privileged: bool, ops: seq<Op>)
    requires AllSafe(ops) && Perform(privileged, ABSENT, ops).Some?
    ensures Contained(Perform(privileged, ABSENT, ops).value)
    decreases |ops|
  {
    if ops != [] {
      RunKeepsContained(privileged, ops[..|ops|-1]);
      OpKeepsContained(privileged, Perform(privileged, ABSENT, ops[..|ops|-1]).value, ops[|ops|-1]);
    }
  }

  lemma {:induction false} ExtractionsAreSafe(b: Bounds, members: seq<Member>)
    ensures AllSafe(Extractions(b, members))
    decreases |members|
  {
    if members != [] {
      var init, m := members[..|members|-1], members[|members|-1];
      ExtractionsAreSafe(b, init);
      if ReadMembers(b, init).Ok? {
        EntryIsSafe(b, ReadMembers(b, init).value, m);
      }
    }
  }

  lemma EntryIsSafe(b: Bounds, st: ReadState, m: Member)
    ensures AllSafe(EntryOps(b, st, m))
  {
    if EntryOps(b, st, m) != [] {
      SafeRelativeIsSafe(RelativeName(m, ServerOf(st, m)));
    }
  }

  lemma {:induction false} ModeOpsAreSafe(modes: seq<(seq<string>, nat)>)
    ensures AllSafe(ModeOps(modes))
    decreases |modes|
  {
    if modes != [] {
      ModeOpsAreSafe(modes[..|modes|-1]);
    }
  }

  lemma FillIsSafe(b: Bounds, members: seq<Member>)
    ensures AllSafe(Fill(b, members))
  {
    ExtractionsAreSafe(b, members);
    if ReadArchive(b, members).Ok? {
      ModeOpsAreSafe(ReadMembers(b, members).value.modes);
    }
  }

  lemma SafeConcat(a: seq<Op>, b: seq<Op>)
    requires AllSafe(a) && AllSafe(b)
    ensures AllSafe(a + b)
  {
  }

  lemma NoExtractionIsSafe(order: seq<string>)
    ensures AllSafe(HEAD) && AllSafe(Tail(order))
  {
  }

  lemma ScriptIsSafe(b: Bounds, members: seq<Member>, order: seq<string>)
    ensures AllSafe(Script(b, members, order))
  {
    FillIsSafe(b, members);
    NoExtractionIsSafe(order);
    SafeConcat(HEAD, Fill(b, members));
    SafeConcat(Unpacking(b, members), if ReadArchive(b, members).Ok? then Tail(order) else []);
  }

  lemma StopIsContained(privileged: bool, script: seq<Op>, k: nat, s: Folder)
    requires AllSafe(script) && StopsAt(privileged, script, k, s)
    ensures Contained(s)
  {
    RunKeepsContained(privileged, script[..k]);
    var before := Perform(privileged, ABSENT, script[..k]).value;
    if s != before {
      assert script[k].Extract? ==> SafeComps(script[k].comps);
      BrokenKeepsContained(before, script[k], s);
    }
  }

  /** Wherever a restore of any archive ends, also half-way through an entry, everything lies below the folder. */
  lemma EveryStopIsContained(privileged: bool, b: Bounds, members: seq<Member>, order: seq<string>, s: Folder)
    requires MayLeave(privileged, Script(b, members, order), s)
    ensures Contained(s)
  {
    var k: nat :| StopsAt(privileged, Script(b, members, order), k, s);
    ScriptIsSafe(b, members, order);
    StopIsContained(privileged, Script(b, members, order), k, s);
  }

  // ---------- when a restore succeeds ----------

  /** The archive is accepted, its names are free, and the system lets its owner set the modes and move the children. */
  ghost predicate Restorable(b: Bounds, members: seq<Member>, stagingName: string, privileged: bool) {
    && ReadArchive(b, members).Ok?
    && NoCollision(ReadArchive(b, members).value.1, stagingName)
    && (privileged || WayStaysOpen(ReadMembers(b, members).value.modes))
    && forall child | child in TopNames(ReadArchive(b, members).value.1) ::
         Movable(privileged, ReadArchive(b, members).value.1, child)
  }

  /** The whole script can be performed exactly when modes and renames are permitted; it leaves the whole content. */
  lemma ScriptSucceeds(privileged: bool, b: Bounds, members: seq<Member>, order: seq<string>)
    requires ReadArchive(b, members).Ok? && IsListing(order, TopNames(ReadArchive(b, members).value.1))
    ensures var (st, full) := (ReadMembers(b, members).value, ReadArchive(b, members).value.1);
            Perform(privileged, ABSENT, Script(b, members, order))
            == if (privileged || WayStaysOpen(st.modes))
                  && forall child | child in TopNames(full) :: Movable(privileged, full, child)
               then Some(Folder(true, false, None, full)) else None
  {
    var full := ReadArchive(b, members).value.1;
    PerformConcat(privileged, ABSENT, Unpacking(b, members), Tail(order));
    Unpacked(privileged, b, members);
    WholeTail(privileged, full, order);
    assert AllMovable(privileged, full, order) <==> forall child | child in order :: Movable(privileged, full, child);
  }

  // ---------- the program ----------

  /**
   * What a restore meets: whether it runs privileged, whether the target exists, whether the archive has its
   * recorded checksum and stays unchanged, whether nobody else puts anything into the target, the random name
   * of the staging area, the order in which its children are listed, the number of operations before the
   * process or the disk fails, and what an extraction that fails leaves in the staging area.
   */
  datatype System = System(
    privileged: bool, present: bool, sameSum: bool, stable: bool, alone: bool, stagingName: string,
    order: seq<string>, stop: nat, parts: Target)

  datatype RestoreError = TargetPresent | VerifyFailed | TargetChanged | NameCollision | SystemError

  /** A run of the script that ends before its end may leave this folder. */
  ghost predicate MayBreak(privileged: bool, script: seq<Op>, s: Folder) {
    exists k: nat :: k < |script| && StopsAt(privileged, script, k, s)
  }

  lemma StopLifts(privileged: bool, prefix: seq<Op>, script: seq<Op>, k: nat, s: Folder)
    requires prefix <= script && StopsAt(privileged, prefix, k, s)
    ensures StopsAt(privileged, script, k, s)
    ensures k < |script| ==> MayBreak(privileged, script, s)
  {
    assert script[..k] == prefix[..k];
    assert k < |prefix| ==> script[k] == prefix[k];
    assert StopsAt(privileged, script, k, s);
  }

  lemma PrefixMayBreak(privileged: bool, prefix: seq<Op>, script: seq<Op>, s: Folder)
    requires MayBreak(privileged, prefix, s) && prefix <= script
    ensures MayBreak(privileged, script, s) && MayLeave(privileged, script, s)
  {
    var k: nat :| k < |prefix| && StopsAt(privileged, prefix, k, s);
    StopLifts(privileged, prefix, script, k, s);
  }

  /** A run of the first part of a script is a run of the script that ends early. */
  lemma PrefixMayLeave(privileged: bool, prefix: seq<Op>, script: seq<Op>, s: Folder)
    requires MayLeave(privileged, prefix, s) && prefix <= script
    ensures MayLeave(privileged, script, s) && (|prefix| < |script| ==> MayBreak(privileged, script, s))
  {
    var k: nat :| StopsAt(privileged, prefix, k, s);
    StopLifts(privileged, prefix, script, k, s);
  }

  lemma DoneMayLeave(privileged: bool, ops: seq<Op>, s: Folder)
    requires Perform(privileged, ABSENT, ops) == Some(s)
    ensures MayLeave(privileged, ops, s)
  {
    assert ops[..|ops|] == ops;
    assert StopsAt(privileged, ops, |ops|, s);
  }

  /**
   * Where a run over an accepted archive may end with the whole content and no marker: exactly once the marker was
   * removed, that is before, between and after the two last operations. Ending earlier, it leaves the marker as
   * soon as there is anything in the folder.
   */
  lemma MarkerAtStop(privileged: bool, b: Bounds, members: seq<Member>, order: seq<string>, k: nat, s: Folder)
    requires ReadArchive(b, members).Ok? && IsListing(order, TopNames(ReadArchive(b, members).value.1))
    requires StopsAt(privileged, Script(b, members, order), k, s)
    ensures s == Folder(true, false, None, ReadArchive(b, members).value.1)
       <==> |Script(b, members, order)| - 2 <= k
    ensures k < |Script(b, members, order)| - 2 ==> s.marker || (s.staging.None? && s.moved == map[])
  {
    FillIsQuiet(b, members);
    AcceptedIsNotEmpty(b, members);
    if |Unpacking(b, members)| <= k {
      UnpackedIfDone(privileged, b, members);
      MovingStop(privileged, Unpacking(b, members), ReadArchive(b, members).value.1, order, k, s);
    } else {
      FillingStop(privileged, Fill(b, members), Script(b, members, order), k, s);
    }
  }

  /** Getting that far means that everything was permitted. */
  lemma LateStopWasPermitted(privileged: bool, b: Bounds, members: seq<Member>, order: seq<string>, k: nat, s: Folder)
    requires ReadArchive(b, members).Ok? && IsListing(order, TopNames(ReadArchive(b, members).value.1))
    requires StopsAt(privileged, Script(b, members, order), k, s) && |Script(b, members, order)| - 2 <= k
    ensures Perform(privileged, ABSENT, Script(b, members, order)).Some?
  {
    var full := ReadArchive(b, members).value.1;
    UnpackedIfDone(privileged, b, members);
    RenamesWerePermitted(privileged, Unpacking(b, members), full, order, k, s);
    PerformConcat(privileged, ABSENT, Unpacking(b, members), Tail(order));
    WholeTail(privileged, full, order);
  }

  /** Any restore that may succeed may also fail with everything in place and the marker gone. */
  lemma SyncMayFail(privileged: bool, b: Bounds, members: seq<Member>, order: seq<string>, stagingName: string)
    requires Restorable(b, members, stagingName, privileged)
    requires IsListing(order, TopNames(ReadArchive(b, members).value.1))
    ensures MayBreak(privileged, Script(b, members, order),
                     Folder(true, false, None, ReadArchive(b, members).value.1))
  {
    RestorableMayEnd(privileged, b, members, order, stagingName);
    var k := |Unpacking(b, members)| + |order| + 2;
    var s := StateAt(privileged, Script(b, members, order), k);
    MarkerAtStop(privileged, b, members, order, k, s);
  }

  lemma RestorableMayEnd(privileged: bool, b: Bounds, members: seq<Member>, order: seq<string>, stagingName: string)
    requires Restorable(b, members, stagingName, privileged)
    requires IsListing(order, TopNames(ReadArchive(b, members).value.1))
    ensures Perform(privileged, ABSENT, Script(b, members, order)).Some?
    ensures |Script(b, members, order)| == |Unpacking(b, members)| + |order| + 4
  {
    ScriptSucceeds(privileged, b, members, order);
  }

  lemma StateAt(privileged: bool, script: seq<Op>, k: nat) returns (s: Folder)
    requires Perform(privileged, ABSENT, script).Some? && k < |script|
    ensures StopsAt(privileged, script, k, s) && MayBreak(privileged, script, s)
  {
    PerformPrefix(privileged, ABSENT, script, k);
    s := Perform(privileged, ABSENT, script[..k]).value;
    assert StopsAt(privileged, script, k, s);
  }

  lemma EarlyIsNotWhole(privileged: bool, b: Bounds, members: seq<Member>, order: seq<string>,
                        prefix: seq<Op>, s: Folder)
    requires ReadArchive(b, members).Ok? && IsListing(order, TopNames(ReadArchive(b, members).value.1))
    requires prefix <= Script(b, members, order) && |prefix| + 2 < |Script(b, members, order)|
    requires MayLeave(privileged, prefix, s)
    ensures s != Folder(true, false, None, ReadArchive(b, members).value.1)
  {
    var k: nat :| StopsAt(privileged, prefix, k, s);
    assert Script(b, members, order)[..k] == prefix[..k];
    MarkerAtStop(privileged, b, members, order, k, s);
  }

  lemma RefusedIsNotWhole(privileged: bool, b: Bounds, members: seq<Member>, order: seq<string>, s: Folder)
    requires ReadArchive(b, members).Ok? && IsListing(order, TopNames(ReadArchive(b, members).value.1))
    requires MayLeave(privileged, Script(b, members, order), s)
    requires Perform(privileged, ABSENT, Script(b, members, order)).None?
    ensures s != Folder(true, false, None, ReadArchive(b, members).value.1)
  {
    var k: nat :| StopsAt(privileged, Script(b, members, order), k, s);
    MarkerAtStop(privileged, b, members, order, k, s);
    if |Script(b, members, order)| - 2 <= k {
      LateStopWasPermitted(privileged, b, members, order, k, s);
    }
  }

  /** An early end shows the marker, or there is nothing in the folder, or only the last syncing is missing. */
  lemma EarlyEnd(privileged: bool, b: Bounds, members: seq<Member>, order: seq<string>, s: Folder)
    requires ReadArchive(b, members).Ok? && IsListing(order, TopNames(ReadArchive(b, members).value.1))
    requires MayBreak(privileged, Script(b, members, order), s)
    ensures s.marker || (s.staging.None? && s.moved == map[])
         || s == Folder(true, false, None, ReadArchive(b, members).value.1)
  {
    var k: nat :| k < |Script(b, members, order)| && StopsAt(privileged, Script(b, members, order), k, s);
    MarkerAtStop(privileged, b, members, order, k, s);
  }

  /** What is left of the folder when this operation fails. */
  function Cut(sys: System, s: Folder, op: Op): (t: Folder)
    ensures Broken(s, op, t)
  {
    if op.Extract? && s.staging.Some? && PartOf(s.staging.value, op.comps, sys.parts)
    then s.(staging := Some(sys.parts)) else s
  }

  method Attempt(sys: System, ghost before: seq<Op>, s: Folder, op: Op, done: nat) returns (ok: bool, t: Folder)
    requires Perform(sys.privileged, ABSENT, before) == Some(s) && done == |before|
    ensures ok <==> done < sys.stop && Do(sys.privileged, s, op).Some?
    ensures ok ==> Perform(sys.privileged, ABSENT, before + [op]) == Do(sys.privileged, s, op) == Some(t)
    ensures !ok ==> MayBreak(sys.privileged, before + [op], t) && StopsAt(sys.privileged, before + [op], done, t)
  {
    assert (before + [op])[..|before|] == before;
    var next := Do(sys.privileged, s, op);
    if done < sys.stop && next.Some? {
      return true, next.value;
    }
    t := Cut(sys, s, op);
    assert StopsAt(sys.privileged, before + [op], |before|, t);
    return false, t;
  }

  lemma OneMoreOp(privileged: bool, before: seq<Op>, s: Folder, ops: seq<Op>, k: nat, t: Folder)
    requires k < |ops| && Perform(privileged, s, ops[..k]) == Some(t)
    ensures before + ops[..k] + [ops[k]] == before + ops[..k+1]
    ensures Perform(privileged, s, ops[..k+1]) == Do(privileged, t, ops[k])
  {
    assert ops[..k+1][..k] == ops[..k];
  }

  lemma RefusedInTheMiddle(privileged: bool, before: seq<Op>, ops: seq<Op>, k: nat, t: Folder)
    requires k < |ops| && StopsAt(privileged, before + ops[..k+1], |before| + k, t)
    ensures StopsAt(privileged, before + ops, |before| + k, t) && MayBreak(privileged, before + ops, t)
  {
    StopLifts(privileged, before + ops[..k+1], before + ops, |before| + k, t);
  }

  lemma RefusedBefore(privileged: bool, s: Folder, ops: seq<Op>, k: nat)
    requires k <= |ops| && Perform(privileged, s, ops[..k]).None?
    ensures Perform(privileged, s, ops).None?
  {
    if Perform(privileged, s, ops).Some? {
      PerformPrefix(privileged, s, ops, k);
    }
  }

  /** Where a list of operations breaks off: at the failure of the system, or at one that is refused. */
  method Continue(sys: System, ghost before: seq<Op>, ghost s: Folder, here: Folder, ops: seq<Op>, k: nat, done: nat)
    returns (ok: bool, t: Folder)
    requires k < |ops| && done == |before| && done + k <= sys.stop && Perform(sys.privileged, s, ops[..k]) == Some(here)
    requires Perform(sys.privileged, ABSENT, before + ops[..k]) == Some(here)
    ensures ok ==> done + k + 1 <= sys.stop && Perform(sys.privileged, s, ops[..k+1]) == Some(t)
    ensures ok ==> Perform(sys.privileged, ABSENT, before + ops[..k+1]) == Some(t)
    ensures !ok ==> done + |ops| > sys.stop || Perform(sys.privileged, s, ops).None?
    ensures !ok ==> MayBreak(sys.privileged, before + ops, t)
    ensures !ok && Perform(sys.privileged, s, ops).Some? ==> StopsAt(sys.privileged, before + ops, sys.stop, t)
  {
    OneMoreOp(sys.privileged, before, s, ops, k, here);
    ok, t := Attempt(sys, before + ops[..k], here, ops[k], done + k);
    if !ok {
      RefusedInTheMiddle(sys.privileged, before, ops, k, t);
      if Perform(sys.privileged, s, ops[..k+1]).None? {
        RefusedBefore(sys.privileged, s, ops, k + 1);
      }
    }
  }

  method CarryOut(sys: System, ghost before: seq<Op>, s: Folder, ops: seq<Op>, done: nat)
    returns (ok: bool, t: Folder)
    requires Perform(sys.privileged, ABSENT, before) == Some(s) && done == |before| <= sys.stop
    ensures ok <==> done + |ops| <= sys.stop && Perform(sys.privileged, s, ops).Some?
    ensures ok ==> Perform(sys.privileged, ABSENT, before + ops) == Some(t)
    ensures !ok ==> MayBreak(sys.privileged, before + ops, t)
    ensures !ok && Perform(sys.privileged, s, ops).Some? ==> StopsAt(sys.privileged, before + ops, sys.stop, t)
  {
    t := s;
    assert before + ops[..0] == before;
    for k := 0 to |ops|
      invariant done + k <= sys.stop && Perform(sys.privileged, s, ops[..k]) == Some(t)
      invariant Perform(sys.privileged, ABSENT, before + ops[..k]) == Some(t)
    {
      ok, t := Continue(sys, before, s, t, ops, k, done);
      if !ok {
        return;
      }
    }
    assert ops[..|ops|] == ops;
    ok := true;
  }

  lemma {:induction false} ExtractionsGrow(b: Bounds, members: seq<Member>, k: nat)
    requires k <= |members|
    ensures HEAD + Extractions(b, members[..k]) <= HEAD + Extractions(b, members)
    decreases |members| - k
  {
    if k == |members| {
      assert members[..k] == members;
    } else {
      assert members[..k+1][..k] == members[..k];
      ExtractionsGrow(b, members, k + 1);
    }
  }

  ghost predicate UnpackedTo(b: Bounds, members: seq<Member>, sys: System, k: nat, st: ReadState, s: Folder, done: nat)
    requires k <= |members|
  {
    && ReadMembers(b, members[..k]) == Ok(st) && done == |HEAD + Extractions(b, members[..k])| <= sys.stop
    && s == Folder(true, true, Some(st.target), map[])
    && Perform(sys.privileged, ABSENT, HEAD + Extractions(b, members[..k])) == Some(s)
  }

  /** What comes of one more member. */
  lemma NextUnpacked(b: Bounds, members: seq<Member>, sys: System, k: nat, st: ReadState, s: Folder, done: nat)
    requires k < |members| && UnpackedTo(b, members, sys, k, st, s, done)
    ensures ReadMembers(b, members[..k+1]) == ReadMember(b, st, members[k])
    ensures HEAD + Extractions(b, members[..k+1])
         == HEAD + Extractions(b, members[..k]) + EntryOps(b, st, members[k])
    ensures ReadMember(b, st, members[k]).Ok? ==>
              Perform(sys.privileged, ABSENT, HEAD + Extractions(b, members[..k]) + EntryOps(b, st, members[k]))
              == Some(Folder(true, true, Some(ReadMember(b, st, members[k]).value.target), map[]))
  {
    OneMore(b, members, k + 1);
    ExtractionsSnoc(b, members, k);
    if ReadMember(b, st, members[k]).Ok? {
      NextIsStaged(sys.privileged, HEAD + Extractions(b, members[..k]), b, st, members[k]);
    }
  }

  lemma AtMostOne(b: Bounds, st: ReadState, m: Member)
    ensures EntryOps(b, st, m) != [] ==> EntryOps(b, st, m) == [EntryOps(b, st, m)[0]]
  {
  }

  lemma CutMayLeave(privileged: bool, ops: seq<Op>, s: Folder, op: Op, t: Folder)
    requires Perform(privileged, ABSENT, ops) == Some(s) && Broken(s, op, t)
    ensures MayLeave(privileged, ops + [op], t)
  {
    assert (ops + [op])[..|ops|] == ops;
    assert StopsAt(privileged, ops + [op], |ops|, t);
  }

  /** What the extraction of a member does to the folder; a refused member is extracted in part, or not at all. */
  method ExtractEntry(sys: System, ghost ops: seq<Op>, here: Folder, op: Op, refused: bool, count: nat)
    returns (ok: bool, s: Folder)
    requires Perform(sys.privileged, ABSENT, ops) == Some(here) && count == |ops|
    ensures ok <==> !refused && count < sys.stop && Do(sys.privileged, here, op).Some?
    ensures ok ==> Perform(sys.privileged, ABSENT, ops + [op]) == Some(s)
    ensures MayLeave(sys.privileged, ops + [op], s)
  {
    if refused {
      s := Cut(sys, here, op);
      CutMayLeave(sys.privileged, ops, here, op, s);
      return false, s;
    }
    ok, s := Attempt(sys, ops, here, op, count);
    if ok {
      DoneMayLeave(sys.privileged, ops + [op], s);
    } else {
      PrefixMayBreak(sys.privileged, ops + [op], ops + [op], s);
    }
  }

  /** One turn of the loop over the members. */
  method UnpackNext(b: Bounds, members: seq<Member>, sys: System, k: nat, st: ReadState, here: Folder, count: nat)
    returns (r: Result<ReadState, RestoreError>, s: Folder, done: nat)
    requires k < |members| && UnpackedTo(b, members, sys, k, st, here, count)
    ensures r.Ok? ==> UnpackedTo(b, members, sys, k + 1, r.value, s, done)
    ensures r.Err? && ReadMembers(b, members[..k+1]).Ok? ==> sys.stop < |HEAD + Extractions(b, members[..k+1])|
    ensures r.Err? ==> MayLeave(sys.privileged, HEAD + Extractions(b, members[..k+1]), s)
  {
    ghost var ops := HEAD + Extractions(b, members[..k]);
    var next, todo := ReadMember(b, st, members[k]), EntryOps(b, st, members[k]);
    NextUnpacked(b, members, sys, k, st, here, count);
    AtMostOne(b, st, members[k]);
    s, done := here, count + |todo|;
    if todo != [] {
      var ok;
      ok, s := ExtractEntry(sys, ops, here, todo[0], next.Err? && !next.error.TruncatedFile?, count);
      if next.Ok? {
        EntryIsPlaced(b, st, members[k], sys.privileged, here);
        if !ok {
          return Err(SystemError), s, done;
        }
      }
    } else {
      assert ops + todo == ops;
      DoneMayLeave(sys.privileged, ops, s);
    }
    return if next.Ok? then Ok(next.value) else Err(VerifyFailed), s, done;
  }

  /** The loop over the members, with the folder it fills. */
  method Unpack(b: Bounds, members: seq<Member>, sys: System)
    returns (r: Result<ReadState, RestoreError>, s: Folder, done: nat)
    ensures r.Ok? <==> sys.sameSum && ReadMembers(b, members).Ok? && |HEAD + Extractions(b, members)| <= sys.stop
    ensures r.Ok? ==> UnpackedTo(b, members, sys, |members|, r.value, s, done)
    ensures r.Err? ==> MayLeave(sys.privileged, HEAD + Extractions(b, members), s)
  {
    HeadPerformed(sys.privileged);
    var ok;
    ok, s := CarryOut(sys, [], ABSENT, HEAD, 0);
    assert [] + HEAD == HEAD;
    done := 3;
    if !ok {
      PrefixMayBreak(sys.privileged, HEAD, HEAD + Extractions(b, members), s);
      return Err(SystemError), s, done;
    }
    if !sys.sameSum {
      DoneMayLeave(sys.privileged, HEAD, s);
      PrefixMayLeave(sys.privileged, HEAD, HEAD + Extractions(b, members), s);
      return Err(VerifyFailed), s, done;
    }
    var st := START;
    assert HEAD + Extractions(b, members[..0]) == HEAD;
    for k := 0 to |members|
      invariant UnpackedTo(b, members, sys, k, st, s, done)
    {
      r, s, done := UnpackNext(b, members, sys, k, st, s, done);
      if r.Err? {
        ExtractionsGrow(b, members, k + 1);
        PrefixMayLeave(sys.privileged, HEAD + Extractions(b, members[..k+1]), HEAD + Extractions(b, members), s);
        if ReadMembers(b, members[..k+1]).Err? {
          FailureStays(b, members, k + 1);
        }
        return;
      }
      st := r.value;
    }
    assert members[..|members|] == members;
    r := Ok(st);
  }

  /** The modes, from the last directory to the first, after the archive was accepted. */
  method SetModes(b: Bounds, members: seq<Member>, sys: System, st: ReadState, here: Folder, done: nat)
    returns (ok: bool, s: Folder)
    requires ReadArchive(b, members).Ok? && UnpackedTo(b, members, sys, |members|, st, here, done)
    ensures ok <==> done + |st.modes| <= sys.stop && (sys.privileged || WayStaysOpen(st.modes))
    ensures ok ==> Perform(sys.privileged, ABSENT, Unpacking(b, members)) == Some(s)
    ensures ok ==> s == Folder(true, true, Some(ReadArchive(b, members).value.1), map[])
    ensures !ok ==> MayLeave(sys.privileged, Unpacking(b, members), s)
  {
    assert members[..|members|] == members;
    ghost var ops := HEAD + Extractions(b, members);
    UnpackingEnds(b, members);
    PerformConcat(sys.privileged, ABSENT, ops, ModeOps(st.modes));
    UnpackedIsContent(sys.privileged, b, members);
    ok, s := CarryOut(sys, ops, here, ModeOps(st.modes), done);
    if !ok {
      PrefixMayBreak(sys.privileged, ops + ModeOps(st.modes), Unpacking(b, members), s);
    }
  }

  lemma UnpackingEnds(b: Bounds, members: seq<Member>)
    requires ReadArchive(b, members).Ok?
    ensures Unpacking(b, members) == HEAD + Extractions(b, members) + ModeOps(ReadMembers(b, members).value.modes)
  {
  }

  /**
   * `restore_archive`: what it answers, and the folder as it is afterwards, wherever it was stopped.
   */
  method Restore(b: Bounds, members: seq<Member>, sys: System) returns (r: Result<Target, RestoreError>, s: Folder)
    requires ReadArchive(b, members).Ok? ==> IsListing(sys.order, TopNames(ReadArchive(b, members).value.1))
    ensures r.Ok? <==>
              && !sys.present && sys.sameSum && sys.stable && sys.alone
              && Restorable(b, members, sys.stagingName, sys.privileged)
              && |Script(b, members, sys.order)| <= sys.stop
    ensures r.Ok? ==> r.value == ReadArchive(b, members).value.1 && s == Folder(true, false, None, r.value)
    ensures sys.present ==> r == Err(TargetPresent) && s == Folder(true, false, None, map[])
    ensures !sys.present ==> MayLeave(sys.privileged, Script(b, members, sys.order), s)
    ensures !sys.present ==> Honest(s, Content(b, members)) && Contained(s)
    ensures r.Err? ==> s.marker || (s.staging.None? && s.moved == map[]) || Content(b, members) == Some(s.moved)
    ensures ReadArchive(b, members).Ok? ==>
              (r.Err? && s == Folder(true, false, None, ReadArchive(b, members).value.1)
               <==> && !sys.present && sys.sameSum && sys.stable && sys.alone
                    && Restorable(b, members, sys.stagingName, sys.privileged)
                    && |Script(b, members, sys.order)| - 2 <= sys.stop < |Script(b, members, sys.order)|)
  {
    if sys.present {
      if ReadArchive(b, members).Ok? {
        AcceptedIsNotEmpty(b, members);
      }
      return Err(TargetPresent), Folder(true, false, None, map[]);
    }
    r, s := RestoreNew(b, members, sys);
    EveryStopIsHonest(sys.privileged, b, members, sys.order, s);
    EveryStopIsContained(sys.privileged, b, members, sys.order, s);
    if ReadArchive(b, members).Ok? {
      AcceptedIsNotEmpty(b, members);
      if r.Err? {
        EarlyEnd(sys.privileged, b, members, sys.order, s);
      }
    }
  }

  method RestoreNew(b: Bounds, members: seq<Member>, sys: System)
    returns (r: Result<Target, RestoreError>, s: Folder)
    requires ReadArchive(b, members).Ok? ==> IsListing(sys.order, TopNames(ReadArchive(b, members).value.1))
    ensures r.Ok? <==>
              && sys.sameSum && sys.stable && sys.alone
              && Restorable(b, members, sys.stagingName, sys.privileged)
              && |Script(b, members, sys.order)| <= sys.stop
    ensures r.Ok? ==> r.value == ReadArchive(b, members).value.1 && s == Folder(true, false, None, r.value)
    ensures MayLeave(sys.privileged, Script(b, members, sys.order), s)
    ensures r.Err? && ReadArchive(b, members).Ok? ==> MayBreak(sys.privileged, Script(b, members, sys.order), s)
    ensures ReadArchive(b, members).Ok? ==>
              (r.Err? && s == Folder(true, false, None, ReadArchive(b, members).value.1)
               <==> && sys.sameSum && sys.stable && sys.alone
                    && Restorable(b, members, sys.stagingName, sys.privileged)
                    && |Script(b, members, sys.order)| - 2 <= sys.stop < |Script(b, members, sys.order)|)
  {
    var unpacked, done;
    unpacked, s, done := Unpack(b, members, sys);
    assert members[..|members|] == members;
    if unpacked.Err? {
      PrefixMayLeave(sys.privileged, HEAD + Extractions(b, members), Script(b, members, sys.order), s);
      if ReadArchive(b, members).Ok? {
        EarlyIsNotWhole(sys.privileged, b, members, sys.order, HEAD + Extractions(b, members), s);
      }
      return Err(unpacked.error), s;
    }
    var st := unpacked.value;
    if Verdict(st).Some? {
      DoneMayLeave(sys.privileged, HEAD + Extractions(b, members), s);
      PrefixMayLeave(sys.privileged, HEAD + Extractions(b, members), Script(b, members, sys.order), s);
      return Err(VerifyFailed), s;
    }
    r, s := Publish(b, members, sys, st, s, done);
  }

  /** The second half: modes, the last checks, the renames. */
  method Publish(b: Bounds, members: seq<Member>, sys: System, st: ReadState, here: Folder, done: nat)
    returns (r: Result<Target, RestoreError>, s: Folder)
    requires ReadArchive(b, members).Ok? && UnpackedTo(b, members, sys, |members|, st, here, done)
    requires IsListing(sys.order, TopNames(ReadArchive(b, members).value.1))
    ensures r.Ok? <==>
              && sys.stable && sys.alone && Restorable(b, members, sys.stagingName, sys.privileged)
              && |Script(b, members, sys.order)| <= sys.stop
    ensures r.Ok? ==> r.value == ReadArchive(b, members).value.1 && s == Folder(true, false, None, r.value)
    ensures MayLeave(sys.privileged, Script(b, members, sys.order), s)
    ensures r.Err? ==> MayBreak(sys.privileged, Script(b, members, sys.order), s)
    ensures r.Err? && s == Folder(true, false, None, ReadArchive(b, members).value.1)
       <==> && sys.stable && sys.alone && Restorable(b, members, sys.stagingName, sys.privileged)
            && |Script(b, members, sys.order)| - 2 <= sys.stop < |Script(b, members, sys.order)|
  {
    ghost var script := Script(b, members, sys.order);
    assert members[..|members|] == members;
    var ok;
    ok, s := SetModes(b, members, sys, st, here, done);
    ScriptSucceeds(sys.privileged, b, members, sys.order);
    if !ok {
      PrefixMayLeave(sys.privileged, Unpacking(b, members), script, s);
      EarlyIsNotWhole(sys.privileged, b, members, sys.order, Unpacking(b, members), s);
      return Err(SystemError), s;
    }
    DoneMayLeave(sys.privileged, Unpacking(b, members), s);
    PrefixMayLeave(sys.privileged, Unpacking(b, members), script, s);
    if !sys.stable {
      return Err(VerifyFailed), s;
    }
    if !sys.alone {
      return Err(TargetChanged), s;
    }
    var full := s.staging.value;
    if !NoCollision(full, sys.stagingName) {
      return Err(NameCollision), s;
    }
    PerformConcat(sys.privileged, ABSENT, Unpacking(b, members), Tail(sys.order));
    ok, s := CarryOut(sys, Unpacking(b, members), s, Tail(sys.order), done + |st.modes|);
    if !ok {
      PrefixMayBreak(sys.privileged, script, script, s);
      if Perform(sys.privileged, ABSENT, script).Some? {
        MarkerAtStop(sys.privileged, b, members, sys.order, sys.stop, s);
      } else {
        RefusedIsNotWhole(sys.privileged, b, members, sys.order, s);
      }
      return Err(SystemError), s;
    }
    DoneMayLeave(sys.privileged, script, s);
    return Ok(full), s;
  }
}
