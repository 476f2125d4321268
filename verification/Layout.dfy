/** The layout session of the editor: a write-behind cache of node positions (web/ci-layout.js). */
module Layout {
  import opened Wrappers

  datatype Point = Point(x: int, y: int)

  type Positions = map<string, Point>

  /** A save on its way: sent, or merged by the server with the answer on its way back. */
  datatype Request = Idle | Sent(patch: Positions) | Answered(patch: Positions, saved: Positions)

  /** A load on its way. */
  datatype Reading = NotReading | Asked | Read(found: Positions)

  /**
   * The session, the network and the server. `moved` is no field of the program: it remembers where the
   * user last put each node.
   */
  datatype State = State(
    positions: Positions, pending: Positions, ready: bool, loading: bool, saving: bool, error: string, timer: bool,
    request: Request, reading: Reading, server: Positions, moved: Positions)

  datatype Step =
    | BeginLoad
    | ServerReads
    | LoadSucceeds
    | LoadFails(message: string)
    | Move(key: string, point: Point)
    | Flush
    | ServerMerges
    | SaveSucceeds
    | SaveFails(message: string)
    | OthersSave(patch: Positions)

  /** Other sessions may save too, but not the nodes this user moved; loads only start when nothing is unsaved. */
  predicate Enabled(s: State, step: Step) {
    match step
    case BeginLoad => !s.saving && s.pending == map[]
    case ServerReads => s.reading.Asked?
    case LoadSucceeds => s.reading.Read?
    case LoadFails(_) => !s.reading.NotReading?
    case Move(_, _) => true
    case Flush => true
    case ServerMerges => s.request.Sent?
    case SaveSucceeds => s.request.Answered?
    case SaveFails(_) => !s.request.Idle?
    case OthersSave(patch) => patch.Keys !! s.moved.Keys
  }

  function Merge(stored: Positions, patch: Positions): Positions {
    stored + patch
  }

  function BeginLoading(s: State): State {
    if s.loading then s else s.(loading := true, ready := false, error := "", reading := Asked)
  }

  function MoveTo(s: State, key: string, point: Point): State {
    if !s.ready || s.loading then s
    else
      s.(positions := s.positions[key := point], pending := s.pending[key := point], error := "", timer := true,
         moved := s.moved[key := point])
  }

  function BeginFlush(s: State): State {
    var t := s.(timer := false);
    if s.saving || s.pending == map[] then t
    else t.(pending := map[], saving := true, error := "", request := Sent(s.pending))
  }

  /** The `finally` of a flush: unsaved moves are flushed at once unless an error is shown. */
  function Finally(s: State): State {
    var t := s.(saving := false, request := Idle);
    if t.error == "" && t.pending != map[] then BeginFlush(t) else t
  }

  function SaveSucceeded(s: State): State
    requires s.request.Answered?
  {
    Finally(s.(positions := s.request.saved + s.pending))
  }

  function SaveFailed(s: State, message: string): State
    requires !s.request.Idle?
  {
    Finally(s.(pending := s.request.patch + s.pending, error := message))
  }

  function Next(s: State, step: Step): State
    requires Enabled(s, step)
  {
    match step
    case BeginLoad => BeginLoading(s)
    case ServerReads => s.(reading := Read(s.server))
    case LoadSucceeds => s.(positions := s.reading.found, ready := true, loading := false, reading := NotReading)
    case LoadFails(message) => s.(error := message, loading := false, reading := NotReading)
    case Move(key, point) => MoveTo(s, key, point)
    case Flush => BeginFlush(s)
    case ServerMerges =>
      var saved := Merge(s.server, s.request.patch);
      s.(server := saved, request := Answered(s.request.patch, saved))
    case SaveSucceeds => SaveSucceeded(s)
    case SaveFails(message) => SaveFailed(s, message)
    case OthersSave(patch) => s.(server := Merge(s.server, patch))
  }

  function Start(server: Positions): State {
    State(map[], map[], false, false, false, "", false, Idle, NotReading, server, map[])
  }

  ghost predicate Possible(s: State, steps: seq<Step>)
    decreases steps
  {
    steps != [] ==> Enabled(s, steps[0]) && Possible(Next(s, steps[0]), steps[1..])
  }

  ghost function Run(s: State, steps: seq<Step>): State
    requires Possible(s, steps)
    decreases steps
  {
    if steps == [] then s else Run(Next(s, steps[0]), steps[1..])
  }

  // ---------- no move is lost ----------

  predicate Holds(m: Positions, key: string, point: Point) {
    key in m && m[key] == point
  }

  /** Where the last move of a node is kept: unsaved, on its way, or on the server. */
  predicate Kept(s: State, key: string)
    requires key in s.moved
  {
    var point := s.moved[key];
    if key in s.pending then s.pending[key] == point
    else match s.request
      case Idle => Holds(s.server, key, point)
      case Sent(patch) => if key in patch then patch[key] == point else Holds(s.server, key, point)
      case Answered(patch, saved) =>
        Holds(saved, key, point) && Holds(s.server, key, point) && (key in patch ==> patch[key] == point)
  }

  /** A loaded answer shows the moves of this session as well. */
  predicate Shown(s: State, key: string)
    requires key in s.moved
  {
    && Holds(s.positions, key, s.moved[key])
    && (s.reading.Read? ==> Holds(s.reading.found, key, s.moved[key]))
  }

  /** Nothing is unsaved, or something is under way that will save it, or an error is shown. */
  predicate Attended(s: State) {
    s.pending != map[] ==> s.saving || s.timer || s.error != ""
  }

  predicate Coherent(s: State) {
    && (s.saving <==> !s.request.Idle?) && (s.loading <==> !s.reading.NotReading?)
    && (s.loading ==> !s.saving && s.pending == map[] && !s.ready)
    && s.pending.Keys <= s.moved.Keys && (!s.request.Idle? ==> s.request.patch.Keys <= s.moved.Keys)
  }

  predicate Safe(s: State) {
    && Coherent(s) && Attended(s)
    && forall key | key in s.moved :: Kept(s, key) && Shown(s, key)
  }

  lemma StepKeepsMove(s: State, step: Step, key: string)
    requires Safe(s) && Enabled(s, step) && key in Next(s, step).moved
    ensures Kept(Next(s, step), key) && Shown(Next(s, step), key)
  {
    if key in s.moved {
      assert Kept(s, key) && Shown(s, key);
      match step
      case SaveSucceeds => SuccessKeepsMove(s, key);
      case SaveFails(message) => FailureKeepsMove(s, message, key);
      case Flush => FlushKeepsMove(s, key);
      case _ =>
    }
  }

  lemma FlushKeepsMove(s: State, key: string)
    requires Coherent(s) && key in s.moved && Kept(s, key) && Shown(s, key)
    ensures Kept(BeginFlush(s), key) && Shown(BeginFlush(s), key)
  {
  }

  lemma SuccessKeepsMove(s: State, key: string)
    requires Coherent(s) && s.request.Answered? && key in s.moved && Kept(s, key) && Shown(s, key)
    ensures Kept(SaveSucceeded(s), key) && Shown(SaveSucceeded(s), key)
  {
  }

  lemma FailureKeepsMove(s: State, message: string, key: string)
    requires Coherent(s) && !s.request.Idle? && key in s.moved && Kept(s, key) && Shown(s, key)
    ensures Kept(SaveFailed(s, message), key) && Shown(SaveFailed(s, message), key)
  {
  }

  lemma StepKeepsSafe(s: State, step: Step)
    requires Safe(s) && Enabled(s, step)
    ensures Safe(Next(s, step))
  {
    forall key | key in Next(s, step).moved
      ensures Kept(Next(s, step), key) && Shown(Next(s, step), key)
    {
      StepKeepsMove(s, step, key);
    }
  }

  lemma {:induction false} RunKeepsSafe(s: State, steps: seq<Step>)
    requires Possible(s, steps) && Safe(s)
    ensures Safe(Run(s, steps))
    decreases steps
  {
    if steps != [] {
      StepKeepsSafe(s, steps[0]);
      RunKeepsSafe(Next(s, steps[0]), steps[1..]);
    }
  }

  // ---------- what the user did ----------

  /** The user drops the node somewhere, and the session is loaded: nothing else stands in the way of a move. */
  predicate TakesMove(s: State, step: Step, key: string) {
    step.Move? && step.key == key && s.ready && !s.loading
  }

  /** A move is shown and unsaved at once, clears what failed before, is due to be saved, and moves nothing else. */
  lemma TakenMove(s: State, step: Step, key: string)
    requires TakesMove(s, step, key)
    ensures var t := Next(s, step);
            && Holds(t.positions, key, step.point) && Holds(t.pending, key, step.point) && t.error == "" && t.timer
            && t.positions - {key} == s.positions - {key} && t.pending - {key} == s.pending - {key}
            && t.server == s.server && t.request == s.request
  {
  }

  /** Where the user last dropped the node while the session was loaded. */
  ghost function LastMove(s: State, steps: seq<Step>, key: string): Option<Point>
    requires Possible(s, steps)
    decreases steps
  {
    if steps == [] then None
    else
      var later := LastMove(Next(s, steps[0]), steps[1..], key);
      if later.Some? then later else if TakesMove(s, steps[0], key) then Some(steps[0].point) else None
  }

  lemma MovedAfterStep(s: State, step: Step, key: string)
    requires Enabled(s, step)
    ensures var next := Next(s, step).moved;
            if TakesMove(s, step, key) then Holds(next, key, step.point)
            else (key in next <==> key in s.moved) && (key in next ==> next[key] == s.moved[key])
  {
  }

  lemma {:induction false} MovedIsLastMove(s: State, steps: seq<Step>, key: string)
    requires Possible(s, steps)
    ensures var (last, moved) := (LastMove(s, steps, key), Run(s, steps).moved);
            if last.Some? then Holds(moved, key, last.value)
            else (key in moved <==> key in s.moved) && (key in moved ==> moved[key] == s.moved[key])
    decreases steps
  {
    if steps != [] {
      MovedAfterStep(s, steps[0], key);
      MovedIsLastMove(Next(s, steps[0]), steps[1..], key);
    }
  }

  /** Runs one after the other. */
  lemma {:induction false} RunConcat(s: State, a: seq<Step>, b: seq<Step>)
    requires Possible(s, a) && Possible(Run(s, a), b)
    ensures Possible(s, a + b) && Run(s, a + b) == Run(Run(s, a), b)
    decreases a
  {
    if a == [] {
      assert a + b == b;
    } else {
      assert (a + b)[1..] == a[1..] + b;
      RunConcat(Next(s, a[0]), a[1..], b);
    }
  }

  /** In every run each node is shown where the user last moved it, and once idle the server has it there. */
  lemma NoLostMove(server: Positions, steps: seq<Step>, key: string)
    requires Possible(Start(server), steps) && LastMove(Start(server), steps, key).Some?
    ensures var (s, point) := (Run(Start(server), steps), LastMove(Start(server), steps, key).value);
            && Holds(s.positions, key, point)
            && (!s.saving && s.pending == map[] ==> Holds(s.server, key, point))
            && (s.pending != map[] ==> s.saving || s.timer || s.error != "")
  {
    RunKeepsSafe(Start(server), steps);
    MovedIsLastMove(Start(server), steps, key);
    assert Kept(Run(Start(server), steps), key) && Shown(Run(Start(server), steps), key);
  }

  /** Every node the user moved in the run is on the server where it was last moved. */
  ghost predicate AllMovesSaved(server: Positions, steps: seq<Step>)
    requires Possible(Start(server), steps)
  {
    forall key {:trigger LastMove(Start(server), steps, key)} | LastMove(Start(server), steps, key).Some? ::
      Holds(Run(Start(server), steps).server, key, LastMove(Start(server), steps, key).value)
  }

  lemma IdleHasSaved(server: Positions, steps: seq<Step>)
    requires Possible(Start(server), steps)
    requires !Run(Start(server), steps).saving && Run(Start(server), steps).pending == map[]
    ensures AllMovesSaved(server, steps)
  {
    forall key | LastMove(Start(server), steps, key).Some?
      ensures Holds(Run(Start(server), steps).server, key, LastMove(Start(server), steps, key).value)
    {
      NoLostMove(server, steps, key);
    }
  }

  /** Left alone with a working server, a session saves everything: at most two saves follow one another. */
  lemma Settles(server: Positions, steps: seq<Step>) returns (more: seq<Step>)
    requires Possible(Start(server), steps)
    ensures Possible(Start(server), steps + more) && |more| <= 5
    ensures forall k | 0 <= k < |more| :: more[k] in {Flush, ServerMerges, SaveSucceeds}
    ensures var s := Run(Start(server), steps + more); !s.saving && s.pending == map[]
    ensures AllMovesSaved(server, steps + more)
  {
    RunKeepsSafe(Start(server), steps);
    more := SettlingSteps(Run(Start(server), steps));
    RunConcat(Start(server), steps, more);
    IdleHasSaved(server, steps + more);
  }

  lemma SettlingSteps(s: State) returns (more: seq<Step>)
    requires Safe(s)
    ensures Possible(s, more) && |more| <= 5
    ensures forall k | 0 <= k < |more| :: more[k] in {Flush, ServerMerges, SaveSucceeds}
    ensures !Run(s, more).saving && Run(s, more).pending == map[]
  {
    if s.request.Idle? {
      more := SettleIdle(s);
    } else if s.request.Sent? {
      var t := Next(s, ServerMerges);
      StepKeepsSafe(s, ServerMerges);
      var rest := SettleAnswered(t);
      more := [ServerMerges] + rest;
    } else {
      more := SettleAnswered(s);
    }
  }

  lemma SettleIdle(s: State) returns (more: seq<Step>)
    requires Safe(s) && s.request.Idle?
    ensures Possible(s, more) && |more| <= 3
    ensures forall k | 0 <= k < |more| :: more[k] in {Flush, ServerMerges, SaveSucceeds}
    ensures !Run(s, more).saving && Run(s, more).pending == map[]
  {
    if s.pending == map[] {
      more := [];
    } else {
      var rest := SettleSent(Next(s, Flush));
      more := [Flush] + rest;
    }
  }

  lemma SettleSent(s: State) returns (more: seq<Step>)
    requires s.request.Sent? && s.pending == map[]
    ensures Possible(s, more) && more == [ServerMerges, SaveSucceeds]
    ensures !Run(s, more).saving && Run(s, more).pending == map[]
  {
    more := [ServerMerges, SaveSucceeds];
    var t := Next(s, ServerMerges);
    var u := Next(t, SaveSucceeds);
    assert more[1..] == [SaveSucceeds] && more[1..][1..] == [];
    assert Possible(t, more[1..]) && Run(t, more[1..]) == u;
  }

  lemma SettleAnswered(s: State) returns (more: seq<Step>)
    requires Safe(s) && s.request.Answered?
    ensures Possible(s, more) && |more| <= 4
    ensures forall k | 0 <= k < |more| :: more[k] in {Flush, ServerMerges, SaveSucceeds}
    ensures !Run(s, more).saving && Run(s, more).pending == map[]
  {
    var t := Next(s, SaveSucceeds);
    StepKeepsSafe(s, SaveSucceeds);
    var rest := [];
    if t.request.Sent? {
      rest := SettleSent(t);
    } else {
      rest := SettleIdle(t);
    }
    more := [SaveSucceeds] + rest;
  }

  // ---------- every way of going on ----------

  /** How many steps saving may still take: a flush, the merge at the server, the answer. */
  function Unsaved(s: State): nat {
    (if s.pending == map[] then 0 else 3)
    + (match s.request
       case Idle => 0
       case Sent(_) => 2
       case Answered(_, _) => 1)
  }

  /** The step brings the saving on; a flush that finds nothing to do, or a save under way, does not. */
  predicate Advances(s: State, step: Step) {
    || (step.Flush? && !s.saving && s.pending != map[])
    || step.ServerMerges? || step.SaveSucceeds?
  }

  ghost function Advancing(s: State, steps: seq<Step>): nat
    requires Possible(s, steps)
    decreases steps
  {
    if steps == [] then 0
    else (if Advances(s, steps[0]) then 1 else 0) + Advancing(Next(s, steps[0]), steps[1..])
  }

  /** No new move and no failing save. */
  predicate LeftAlone(steps: seq<Step>) {
    forall k | 0 <= k < |steps| :: !steps[k].Move? && !steps[k].SaveFails?
  }

  /** While something is unsaved, a step that brings the saving on can be taken. */
  lemma UnsavedMayAdvance(s: State)
    requires Safe(s) && Unsaved(s) > 0
    ensures exists step :: Enabled(s, step) && Advances(s, step)
  {
    if s.request.Sent? {
      assert Enabled(s, ServerMerges) && Advances(s, ServerMerges);
    } else if s.request.Answered? {
      assert Enabled(s, SaveSucceeds) && Advances(s, SaveSucceeds);
    } else {
      assert Enabled(s, Flush) && Advances(s, Flush);
    }
  }

  lemma StepAdvances(s: State, step: Step)
    requires Safe(s) && Enabled(s, step) && !step.Move? && !step.SaveFails?
    ensures Unsaved(Next(s, step)) + (if Advances(s, step) then 1 else 0) <= Unsaved(s)
  {
  }

  lemma {:induction false} AdvancingIsBounded(s: State, steps: seq<Step>)
    requires Safe(s) && Possible(s, steps) && LeftAlone(steps)
    ensures Unsaved(Run(s, steps)) + Advancing(s, steps) <= Unsaved(s)
    decreases steps
  {
    if steps != [] {
      StepAdvances(s, steps[0]);
      StepKeepsSafe(s, steps[0]);
      AdvancingIsBounded(Next(s, steps[0]), steps[1..]);
    }
  }

  /**
   * However a session goes on when left alone with a working server, loads and saves of others included: five
   * advancing steps save everything, and as long as something is unsaved one can be taken.
   */
  lemma AlwaysSettles(server: Positions, steps: seq<Step>, more: seq<Step>)
    requires Possible(Start(server), steps) && Possible(Run(Start(server), steps), more) && LeftAlone(more)
    ensures Possible(Start(server), steps + more)
    ensures var s := Run(Start(server), steps + more);
            if s.pending == map[] && !s.saving then AllMovesSaved(server, steps + more)
            else Advancing(Run(Start(server), steps), more) < 5 && exists step :: Enabled(s, step) && Advances(s, step)
  {
    var before := Run(Start(server), steps);
    var s := Run(before, more);
    RunConcat(Start(server), steps, more);
    RunKeepsSafe(Start(server), steps);
    RunKeepsSafe(before, more);
    if s.pending == map[] && !s.saving {
      IdleHasSaved(server, steps + more);
    } else {
      AdvancingIsBounded(before, more);
      UnsavedMayAdvance(s);
    }
  }

  // ---------- what failed is shown, and tried again ----------

  /** Nothing the session is told to do. */
  predicate IsQuiet(steps: seq<Step>) {
    forall k | 0 <= k < |steps| :: steps[k].OthersSave? || steps[k].ServerReads?
  }

  lemma {:induction false} QuietKeepsError(s: State, steps: seq<Step>)
    requires Possible(s, steps) && IsQuiet(steps)
    ensures var t := Run(s, steps); t.error == s.error && t.pending == s.pending && t.saving == s.saving
    decreases steps
  {
    if steps != [] {
      QuietKeepsError(Next(s, steps[0]), steps[1..]);
    }
  }

  /**
   * A save that fails is not sent again before the next flush: until then its message stays, with the moves unsaved,
   * and that flush sends all of them and clears the message.
   */
  lemma FailureIsShown(s: State, message: string, later: seq<Step>)
    requires Safe(s) && !s.request.Idle? && message != "" && Possible(Next(s, SaveFails(message)), later)
    requires IsQuiet(later)
    ensures var t := Run(Next(s, SaveFails(message)), later);
            && t.error == message && !t.saving && t.pending == s.request.patch + s.pending
            && (t.pending != map[] ==> Next(t, Flush).error == "" && Next(t, Flush).request == Sent(t.pending))
  {
    QuietKeepsError(Next(s, SaveFails(message)), later);
  }

  // ---------- the picture and the server ----------

  /** No other session saves. */
  predicate OnlyThisSession(steps: seq<Step>) {
    forall k | 0 <= k < |steps| :: !steps[k].OthersSave?
  }

  /** Once loaded, the picture is what the server has with this session's unsaved moves on top. */
  predicate Mirrors(s: State) {
    && (s.ready ==> s.positions == s.server + (if s.request.Sent? then s.request.patch else map[]) + s.pending)
    && (s.reading.Read? ==> s.reading.found == s.server)
    && (s.request.Answered? ==> s.request.saved == s.server && s.server + s.request.patch == s.server)
    && (s.loading ==> s.request.Idle? && s.pending == map[] && !s.ready)
    && (s.saving <==> !s.request.Idle?) && (s.loading <==> !s.reading.NotReading?)
    && (!s.request.Idle? || s.pending != map[] ==> s.ready)
  }

  lemma StepKeepsMirror(s: State, step: Step)
    requires Mirrors(s) && Enabled(s, step) && !step.OthersSave?
    ensures Mirrors(Next(s, step))
  {
    match step
    case Move(key, point) => MoveKeepsMirror(s, key, point);
    case Flush => FlushKeepsMirror(s);
    case ServerMerges => MergeKeepsMirror(s);
    case SaveSucceeds =>
      FlushKeepsMirror(s.(positions := s.request.saved + s.pending, saving := false, request := Idle));
    case SaveFails(message) => FailureKeepsMirror(s, message);
    case _ =>
  }

  lemma MoveKeepsMirror(s: State, key: string, point: Point)
    requires Mirrors(s)
    ensures Mirrors(MoveTo(s, key, point))
  {
    var base := s.server + (if s.request.Sent? then s.request.patch else map[]);
    assert base + s.pending[key := point] == (base + s.pending)[key := point];
  }

  lemma FlushKeepsMirror(s: State)
    requires Mirrors(s)
    ensures Mirrors(BeginFlush(s))
  {
    assert s.server + map[] == s.server;
    assert s.server + s.pending + map[] == s.server + s.pending;
  }

  lemma MergeKeepsMirror(s: State)
    requires Mirrors(s) && s.request.Sent?
    ensures Mirrors(Next(s, ServerMerges))
  {
    assert s.server + s.request.patch + s.request.patch == s.server + s.request.patch;
    assert s.server + s.request.patch + map[] == s.server + s.request.patch;
  }

  lemma FailureKeepsMirror(s: State, message: string)
    requires Mirrors(s) && !s.request.Idle?
    ensures Mirrors(SaveFailed(s, message))
  {
    var t := s.(pending := s.request.patch + s.pending, error := message, saving := false, request := Idle);
    assert s.server + map[] == s.server;
    assert s.server + s.request.patch + s.pending == s.server + (s.request.patch + s.pending);
    FlushKeepsMirror(t);
  }

  lemma {:induction false} RunKeepsMirror(s: State, steps: seq<Step>)
    requires Mirrors(s) && Possible(s, steps) && OnlyThisSession(steps)
    ensures Mirrors(Run(s, steps))
    decreases steps
  {
    if steps != [] {
      StepKeepsMirror(s, steps[0]);
      RunKeepsMirror(Next(s, steps[0]), steps[1..]);
    }
  }

  /** Without other sessions, whenever a session is loaded and has nothing unsaved it shows exactly what is stored. */
  lemma IdleShowsServer(server: Positions, steps: seq<Step>)
    requires Possible(Start(server), steps) && OnlyThisSession(steps)
    ensures var s := Run(Start(server), steps);
            s.ready && !s.saving && s.pending == map[] ==> s.positions == s.server
  {
    RunKeepsMirror(Start(server), steps);
  }

  /** A session that is not busy and has nothing unsaved can be loaded, shows what is stored, and then takes moves. */
  lemma LoadingMakesReady(server: Positions, steps: seq<Step>)
    requires Possible(Start(server), steps)
    requires var s := Run(Start(server), steps); !s.saving && s.pending == map[] && !s.loading
    ensures var (s, load) := (Run(Start(server), steps), [BeginLoad, ServerReads, LoadSucceeds]);
            && Possible(s, load) && Run(s, load).ready && !Run(s, load).loading && Run(s, load).error == ""
            && Run(s, load).positions == s.server
  {
    var s := Run(Start(server), steps);
    RunKeepsSafe(Start(server), steps);
    var load := [BeginLoad, ServerReads, LoadSucceeds];
    var t := Next(Next(s, BeginLoad), ServerReads);
    assert load[1..] == [ServerReads, LoadSucceeds] && load[1..][1..] == [LoadSucceeds];
    assert [LoadSucceeds][1..] == [];
    assert Possible(t, [LoadSucceeds]) && Run(t, [LoadSucceeds]) == Next(t, LoadSucceeds);
    assert Possible(Next(s, BeginLoad), load[1..]) && Run(Next(s, BeginLoad), load[1..]) == Next(t, LoadSucceeds);
  }

  // ---------- the session ----------

  class CiLayoutSession {
    var positions: Positions
    var pending: Positions
    var ready: bool
    var loading: bool
    var saving: bool
    var error: string
    var timer: bool
    /** What the network and the server hold, and where the user last moved each node. */
    ghost var request: Request
    ghost var reading: Reading
    ghost var server: Positions
    ghost var moved: Positions

    ghost function Now(): State
      reads this
    {
      State(positions, pending, ready, loading, saving, error, timer, request, reading, server, moved)
    }

    constructor (ghost stored: Positions)
      ensures Now() == Start(stored)
    {
      positions, pending, ready, loading, saving, error, timer := map[], map[], false, false, false, "", false;
      request, reading, server, moved := Idle, NotReading, stored, map[];
    }

    method MoveNode(key: string, point: Point)
      modifies this
      ensures Now() == MoveTo(old(Now()), key, point)
    {
      if !ready || loading {
        return;
      }
      positions := positions[key := point];
      pending := pending[key := point];
      error := "";
      timer := true;
      moved := moved[key := point];
    }

    /** The part of `flush` before its await; returns what to send, if anything. */
    method StartFlush() returns (patch: Option<Positions>)
      modifies this
      ensures Now() == BeginFlush(old(Now()))
      ensures patch.Some? <==> !old(saving) && old(pending) != map[]
      ensures patch.Some? ==> patch.value == old(pending) && request == Sent(patch.value)
    {
      timer := false;
      if saving || pending == map[] {
        return None;
      }
      patch := Some(pending);
      pending := map[];
      saving := true;
      error := "";
      request := Sent(patch.value);
    }

    method EndFlush() returns (patch: Option<Positions>)
      modifies this
      ensures Now() == Finally(old(Now()))
      ensures patch.Some? ==> request == Sent(patch.value)
    {
      saving := false;
      request := Idle;
      patch := None;
      if error == "" && pending != map[] {
        patch := StartFlush();
      }
    }

    /** The answer arrived: it is shown under the moves made since. */
    method FlushSucceeded(saved: Positions) returns (patch: Option<Positions>)
      requires request.Answered? && saved == request.saved
      modifies this
      ensures Now() == SaveSucceeded(old(Now()))
    {
      positions := saved + pending;
      patch := EndFlush();
    }

    /** The save failed: the patch goes back under the moves made since. */
    method FlushFailed(sent: Positions, message: string) returns (patch: Option<Positions>)
      requires !request.Idle? && sent == request.patch
      modifies this
      ensures Now() == SaveFailed(old(Now()), message)
    {
      pending := sent + pending;
      error := message;
      patch := EndFlush();
    }

    method StartLoad() returns (send: bool)
      modifies this
      ensures Now() == BeginLoading(old(Now())) && send == !old(loading)
    {
      if loading {
        return false;
      }
      loading, ready, error := true, false, "";
      reading := Asked;
      send := true;
    }

    method LoadSucceeded(found: Positions)
      requires reading.Read? && found == reading.found
      modifies this
      ensures Now() == Next(old(Now()), LoadSucceeds)
    {
      positions, ready, loading := found, true, false;
      reading := NotReading;
    }

    method LoadFailed(message: string)
      requires !reading.NotReading?
      modifies this
      ensures Now() == Next(old(Now()), LoadFails(message))
    {
      error, loading := message, false;
      reading := NotReading;
    }
  }
}
