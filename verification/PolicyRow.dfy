/**
  The stored policy row (internal/api/settings.go): concurrent effectivePolicy calls,
  split into their store steps, racing each other and policy edits. A store step is
  atomic; seeding is insert-if-absent; no step removes the row. An edit is an
  effectivePolicy call, the checks against what it answered, and a write that lands at
  some later step with nothing held in between.
*/
module PolicyRow {
  import opened Prelude
  import opened RuntimeEnv
  import Env = EnvironmentCatalog
  import Storage

  /** Profiles and storage, environments, and the sections no other is checked against. */
  datatype Row = Row(core: Storage.Policy, environments: Env.Catalog, rest: map<string, string>)

  /** The body of an edit: the sections it replaces. */
  datatype Change = Change(core: Storage.Edit, environments: Option<Env.Edit>, rest: map<string, string>)

  const EMPTY := Row(Storage.Policy([], []), [], map[])

  /** What an edit starts from. */
  function Base(row: Option<Row>): Row {
    if row.Some? then row.value else EMPTY
  }

  /** The whole row an edit would write passes its checks. */
  ghost predicate Passes(host: Hosts, base: Row, ch: Change) {
    && Storage.EditOk(base.core, ch.core)
    && (ch.environments.Some? ==>
          && Env.WireAccepted(host, ch.environments.value.wire)
          && Env.EditAccepted(base.environments, Env.Incoming(host, ch.environments.value),
                              ch.environments.value.publisher, ch.environments.value.now))
  }

  ghost function Settled(host: Hosts, base: Env.Catalog, ed: Env.Edit): (d: Env.Catalog)
    requires Env.WireAccepted(host, ed.wire)
    ensures Env.SettledAll(base, Env.Incoming(host, ed), ed.publisher, ed.now, d)
  {
    var inc := Env.Incoming(host, ed);
    seq(|inc|, i requires 0 <= i < |inc| => Env.Settled(Env.Lookup(base, inc[i].name), inc[i], ed.publisher, ed.now))
  }

  ghost function Edited(host: Hosts, base: Row, ch: Change): Row
    requires Passes(host, base, ch)
  {
    Row(Storage.Replaced(base.core, ch.core),
        if ch.environments.None? then base.environments else Settled(host, base.environments, ch.environments.value),
        base.rest + ch.rest)
  }

  // ------------------------------------------------------------------- steps

  datatype Setup = Setup(host: Hosts, seed: Option<Row>)

  /** Where a call stands: `start` is when it made its first read. */
  datatype Call =
    | Idle
    | Missed(start: nat)
    | Lost(start: nat)
    | Done(start: nat, result: Option<Row>)

  datatype State = State(row: Option<Row>, time: nat, calls: map<nat, Call>) {
    function Of(c: nat): Call {
      if c in calls then calls[c] else Idle
    }
  }

  /** First read, seeding, reading back, and the write of an edit that was decided on the answer. */
  datatype Op = FirstGet(c: nat) | SeedRow(c: nat) | ReadBack(c: nat) | Land(c: nat, change: Change)

  ghost predicate Enabled(u: Setup, s: State, op: Op) {
    match op
    case FirstGet(c) => s.Of(c).Idle? || s.Of(c).Done?
    case SeedRow(c) => s.Of(c).Missed?
    case ReadBack(c) => s.Of(c).Lost?
    case Land(c, change) => s.Of(c).Done? && Passes(u.host, Base(s.Of(c).result), change)
  }

  function Move(s: State, c: nat, call: Call): State {
    s.(time := s.time + 1, calls := s.calls[c := call])
  }

  ghost function Next(u: Setup, s: State, op: Op): State
    requires Enabled(u, s, op)
  {
    match op
    case FirstGet(c) =>
      if s.row.Some? then Move(s, c, Done(s.time, s.row))
      else if u.seed.None? then Move(s, c, Done(s.time, None))
      else Move(s, c, Missed(s.time))
    case SeedRow(c) =>
      if s.row.None? then Move(s, c, Done(s.Of(c).start, u.seed)).(row := u.seed)
      else Move(s, c, Lost(s.Of(c).start))
    case ReadBack(c) => Move(s, c, Done(s.Of(c).start, s.row))
    case Land(c, change) => Move(s, c, Idle).(row := Some(Edited(u.host, Base(s.Of(c).result), change)))
  }

  predicate Start(s: State) {
    s.time == 0 && s.calls == map[]
  }

  ghost predicate IsRun(u: Setup, run: seq<State>, ops: seq<Op>) {
    && |run| == |ops| + 1 && Start(run[0])
    && forall k :: 0 <= k < |ops| ==> Enabled(u, run[k], ops[k]) && run[k + 1] == Next(u, run[k], ops[k])
  }

  // ----------------------------------------------------------------- answers

  /** A result was in the row at some moment from the call's first read to now. */
  ghost predicate Held(run: seq<State>, start: nat, now: nat, v: Row)
    requires now < |run|
  {
    exists m :: start <= m <= now && run[m].row == Some(v)
  }

  ghost predicate CallOk(u: Setup, run: seq<State>, now: nat, call: Call)
    requires now < |run|
  {
    match call
    case Idle => true
    case Missed(start) => start < now && run[start].row.None? && u.seed.Some?
    case Lost(start) => start < now && run[start].row.None? && run[now].row.Some?
    case Done(start, result) =>
      && start < now
      && (result.Some? ==> Held(run, start, now, result.value))
      && (result.None? ==> u.seed.None? && run[start].row.None?)
  }

  ghost predicate Inv(u: Setup, run: seq<State>, now: nat)
    requires now < |run|
  {
    run[now].time == now && forall c :: CallOk(u, run, now, run[now].Of(c))
  }

  /** A row, once there, stays; and only an edit changes it. */
  lemma RowStays(u: Setup, run: seq<State>, ops: seq<Op>, k: nat)
    requires IsRun(u, run, ops) && k < |ops| && run[k].row.Some?
    ensures run[k + 1].row.Some? && (!ops[k].Land? ==> run[k + 1].row == run[k].row)
  {
    hide Passes, Edited;
  }

  lemma CallStep(u: Setup, run: seq<State>, ops: seq<Op>, k: nat, c: nat)
    requires IsRun(u, run, ops) && k < |ops| && Inv(u, run, k)
    ensures CallOk(u, run, k + 1, run[k + 1].Of(c))
  {
    hide Passes, Edited;
    var before, after := run[k].Of(c), run[k + 1].Of(c);
    assert CallOk(u, run, k, before);
    assert run[k + 1] == Next(u, run[k], ops[k]);
    if before == after {
      if before.Done? && before.result.Some? {
        var m :| before.start <= m <= k && run[m].row == Some(before.result.value);
        assert Held(run, before.start, k + 1, before.result.value);
      }
    } else if after.Done? && after.result.Some? {
      assert run[k].row == after.result || run[k + 1].row == after.result;
      assert Held(run, after.start, k + 1, after.result.value);
    }
  }

  lemma {:induction false} RunsKeepInv(u: Setup, run: seq<State>, ops: seq<Op>, k: nat)
    requires IsRun(u, run, ops) && k < |run|
    ensures Inv(u, run, k)
  {
    hide Passes, Edited;
    if k > 0 {
      RunsKeepInv(u, run, ops, k - 1);
      assert run[k] == Next(u, run[k - 1], ops[k - 1]);
      forall c
        ensures CallOk(u, run, k, run[k].Of(c))
      {
        CallStep(u, run, ops, k - 1, c);
      }
    } else {
      assert forall c :: run[0].Of(c) == Idle;
    }
  }

  /**
    In every interleaving, a call that answers a policy answers one the row held at some moment during
    the call, and a call answers none only when the seed is empty and the row was absent at its read.
  */
  lemma AnswersWereHeld(u: Setup, run: seq<State>, ops: seq<Op>, k: nat, c: nat)
    requires IsRun(u, run, ops) && k < |run| && run[k].Of(c).Done?
    ensures var call := run[k].Of(c);
      && call.start < k
      && (call.result.Some? ==> exists m :: call.start <= m <= k && run[m].row == call.result)
      && (call.result.None? ==> u.seed.None? && run[call.start].row.None?)
  {
    RunsKeepInv(u, run, ops, k);
    var call := run[k].Of(c);
    assert CallOk(u, run, k, call);
    if call.result.Some? {
      var m :| call.start <= m <= k && run[m].row == Some(call.result.value);
    }
  }

  /** Seeding acts at most once in a run, and never on a row that was already there. */
  lemma {:induction false} SeedsOnce(u: Setup, run: seq<State>, ops: seq<Op>, i: nat, j: nat)
    requires IsRun(u, run, ops) && i < j <= |ops| && run[i].row.None? && run[i + 1].row.Some?
    ensures run[j].row.Some?
    ensures j < |ops| && !ops[j].Land? ==> run[j + 1].row == run[j].row
    decreases j - i
  {
    hide Enabled, Next;
    if j > i + 1 {
      SeedsOnce(u, run, ops, i, j - 1);
      RowStays(u, run, ops, j - 1);
    }
    if j < |ops| {
      RowStays(u, run, ops, j);
    }
  }

  // ---------------------------------------------------------------- progress

  /** The step a call takes next on its own. */
  function Own(s: State, c: nat): Op {
    match s.Of(c)
    case Missed(_) => SeedRow(c)
    case Lost(_) => ReadBack(c)
    case _ => FirstGet(c)
  }

  function Steps(call: Call): nat {
    match call
    case Idle => 3
    case Missed(_) => 2
    case Lost(_) => 1
    case Done(_, _) => 0
  }

  /** A call never waits for another: its next step is always open to it, and after at most three it answers. */
  lemma CallProgress(u: Setup, s: State, c: nat)
    requires !s.Of(c).Done?
    ensures Enabled(u, s, Own(s, c))
    ensures Steps(Next(u, s, Own(s, c)).Of(c)) < Steps(s.Of(c))
  {
    hide Passes, Edited;
  }

  /** On its own it answers the row; where there is none yet, the seed, which it puts there. */
  lemma LoneCallAnswers(u: Setup, s: State, c: nat)
    requires s.Of(c).Idle?
    ensures Enabled(u, s, FirstGet(c))
    ensures var s1 := Next(u, s, FirstGet(c));
      if s.row.Some? || u.seed.None? then s1.Of(c) == Done(s.time, s.row) && s1.row == s.row
      else
        && Enabled(u, s1, SeedRow(c))
        && Next(u, s1, SeedRow(c)).Of(c) == Done(s.time, u.seed)
        && Next(u, s1, SeedRow(c)).row == u.seed
  {
    hide Passes, Edited;
  }

  // ------------------------------------------------------------- landing edits

  /** The sections the edit carries are stored as sent. */
  ghost predicate TakesSent(host: Hosts, base: Row, ch: Change, out: Row) {
    && (ch.core.profiles.Some? ==> out.core.profiles == ch.core.profiles.value)
    && (ch.core.storage.Some? ==>
          && |out.core.storage| == |ch.core.storage.value|
          && forall i :: 0 <= i < |out.core.storage| ==>
               Storage.StoredAsSent(ch.core.storage.value[i], out.core.storage[i]))
    && (ch.environments.Some? ==> Env.Step(host, base.environments, ch.environments.value, out.environments))
    && forall k :: k in ch.rest ==> k in out.rest && out.rest[k] == ch.rest[k]
  }

  lemma EditedTakesSent(host: Hosts, base: Row, ch: Change)
    requires Passes(host, base, ch)
    ensures TakesSent(host, base, ch, Edited(host, base, ch))
  {
    hide Storage.EditOk, Storage.Replaced, Env.WireAccepted, Env.EditAccepted, Env.SettledAll, Storage.StoredAsSent;
    assert ch.core.storage.Some? ==> Storage.Accepted(ch.core.storage.value) by { AcceptedStorage(base.core, ch.core); }
    Storage.EditStores(base.core, ch.core);
  }

  lemma AcceptedStorage(p: Storage.Policy, ed: Storage.Edit)
    requires Storage.EditOk(p, ed)
    ensures ed.storage.Some? ==> Storage.Accepted(ed.storage.value)
  {
  }

  /** In every interleaving a landing writes what its edit says, and of the rest what the edit had read. */
  lemma LandingWrites(u: Setup, run: seq<State>, ops: seq<Op>, k: nat)
    requires IsRun(u, run, ops) && k < |ops| && ops[k].Land?
    ensures run[k].Of(ops[k].c).Done? && run[k + 1].row.Some?
    ensures var base := Base(run[k].Of(ops[k].c).result);
      && TakesSent(u.host, base, ops[k].change, run[k + 1].row.value)
      && SameOthers(base, run[k + 1].row.value, ops[k].change)
  {
    hide Passes, Edited, TakesSent, SameOthers;
    var base := Base(run[k].Of(ops[k].c).result);
    assert Enabled(u, run[k], ops[k]) && run[k + 1] == Next(u, run[k], ops[k]);
    EditedTakesSent(u.host, base, ops[k].change);
    EditedKeepsOthers(u.host, base, ops[k].change);
  }

  /** The sections the edit leaves out are the same in both. */
  ghost predicate SameOthers(a: Row, b: Row, ch: Change) {
    && (ch.core.profiles.None? ==> a.core.profiles == b.core.profiles)
    && (ch.core.storage.None? ==> a.core.storage == b.core.storage)
    && (ch.environments.None? ==> a.environments == b.environments)
    && a.rest - ch.rest.Keys == b.rest - ch.rest.Keys
  }

  lemma EditedKeepsOthers(host: Hosts, base: Row, ch: Change)
    requires Passes(host, base, ch)
    ensures SameOthers(base, Edited(host, base, ch), ch)
  {
    assert (base.rest + ch.rest) - ch.rest.Keys == base.rest - ch.rest.Keys;
  }

  /** The moment of the run at which an edit read what it starts from. */
  lemma ReadAt(u: Setup, run: seq<State>, ops: seq<Op>, k: nat) returns (m: nat)
    requires IsRun(u, run, ops) && k < |ops| && ops[k].Land?
    ensures run[k].Of(ops[k].c).Done?
    ensures run[k].Of(ops[k].c).start <= m <= k && Base(run[m].row) == Base(run[k].Of(ops[k].c).result)
  {
    hide Passes;
    var c := ops[k].c;
    assert Enabled(u, run[k], ops[k]);
    AnswersWereHeld(u, run, ops, k, c);
    var call := run[k].Of(c);
    if call.result.Some? {
      m :| call.start <= m <= k && run[m].row == call.result;
    } else {
      m := call.start;
    }
  }

  lemma LandIs(u: Setup, run: seq<State>, ops: seq<Op>, k: nat)
    requires IsRun(u, run, ops) && k < |ops| && ops[k].Land?
    ensures run[k].Of(ops[k].c).Done?
    ensures var base := Base(run[k].Of(ops[k].c).result);
      Passes(u.host, base, ops[k].change) && run[k + 1].row == Some(Edited(u.host, base, ops[k].change))
  {
    hide Passes, Edited;
    assert Enabled(u, run[k], ops[k]) && run[k + 1] == Next(u, run[k], ops[k]);
  }

  /**
    What an edit does to the sections it leaves out: it keeps them as they are exactly when they are
    still what they were at the moment it read the row, and otherwise puts the old ones back.
  */
  lemma EditLandsIff(u: Setup, run: seq<State>, ops: seq<Op>, k: nat) returns (m: nat)
    requires IsRun(u, run, ops) && k < |ops| && ops[k].Land?
    ensures m <= k && run[k].Of(ops[k].c).Done? && run[k].Of(ops[k].c).start <= m
    ensures SameOthers(Base(run[m].row), Base(run[k + 1].row), ops[k].change)
    ensures SameOthers(Base(run[k].row), Base(run[k + 1].row), ops[k].change) <==>
      SameOthers(Base(run[m].row), Base(run[k].row), ops[k].change)
  {
    m := ReadAt(u, run, ops, k);
    LandIs(u, run, ops, k);
    EditedKeepsOthers(u.host, Base(run[m].row), ops[k].change);
    hide IsRun, Passes, Edited;
  }

  /** An edit undisturbed since its first read is a section replace of the current row. */
  lemma QuietEditsLand(u: Setup, run: seq<State>, ops: seq<Op>, k: nat)
    requires IsRun(u, run, ops) && k < |ops| && ops[k].Land? && run[k].Of(ops[k].c).Done?
    requires forall m :: run[k].Of(ops[k].c).start <= m <= k ==> run[m].row == run[k].row
    ensures Passes(u.host, Base(run[k].row), ops[k].change)
    ensures run[k + 1].row == Some(Edited(u.host, Base(run[k].row), ops[k].change))
  {
    var m := ReadAt(u, run, ops, k);
    LandIs(u, run, ops, k);
  }

  function Section(name: string): Change {
    Change(Storage.Edit(None, None), None, map[name := "new"])
  }

  lemma SectionPasses(host: Hosts, base: Row, name: string)
    requires Storage.Known(base.core)
    ensures Passes(host, base, Section(name))
    ensures Edited(host, base, Section(name)) == base.(rest := base.rest[name := "new"])
  {
    assert base.core == Storage.Replaced(base.core, Storage.Edit(None, None));
    assert base.rest + map[name := "new"] == base.rest[name := "new"];
  }

  /** Two edits of different sections that both read first: the later write undoes the earlier one. */
  lemma ConcurrentEditsLose(host: Hosts)
    ensures exists run: seq<State>, ops: seq<Op> ::
      && IsRun(Setup(host, None), run, ops)
      && ops == [FirstGet(0), FirstGet(1), Land(0, Section("quotas")), Land(1, Section("prices"))]
      && "quotas" in Base(run[3].row).rest && "quotas" !in Base(run[4].row).rest
  {
    var u := Setup(host, None);
    var ops := [FirstGet(0), FirstGet(1), Land(0, Section("quotas")), Land(1, Section("prices"))];
    assert Storage.Known(EMPTY.core);
    SectionPasses(host, EMPTY, "quotas");
    SectionPasses(host, EMPTY, "prices");
    hide Passes, Edited;
    var run := TwoLandings(u, EMPTY, Section("quotas"), Section("prices"));
    assert "quotas" in Base(run[3].row).rest && "quotas" !in Base(run[4].row).rest;
  }

  /** Two calls read the row, then the first lands, then the second. */
  lemma TwoLandings(u: Setup, base: Row, first: Change, second: Change) returns (run: seq<State>)
    requires Passes(u.host, base, first) && Passes(u.host, base, second)
    ensures IsRun(u, run, [FirstGet(0), FirstGet(1), Land(0, first), Land(1, second)])
    ensures |run| == 5 && run[0].row == run[1].row == run[2].row == Some(base)
    ensures run[3].row == Some(Edited(u.host, base, first)) && run[4].row == Some(Edited(u.host, base, second))
    ensures run[2].Of(0) == Done(0, Some(base)) && run[3].Of(1) == Done(1, Some(base))
  {
    hide Passes, Edited;
    var ops := [FirstGet(0), FirstGet(1), Land(0, first), Land(1, second)];
    var s0 := State(Some(base), 0, map[]);
    var s1 := Next(u, s0, ops[0]);
    var s2 := Next(u, s1, ops[1]);
    assert s2.Of(0) == Done(0, Some(base)) && s2.Of(1) == Done(1, Some(base));
    var s3 := Next(u, s2, ops[2]);
    assert s3.Of(1) == Done(1, Some(base));
    var s4 := Next(u, s3, ops[3]);
    run := [s0, s1, s2, s3, s4];
    forall k | 0 <= k < |ops|
      ensures Enabled(u, run[k], ops[k]) && run[k + 1] == Next(u, run[k], ops[k])
    {
    }
  }

  // ------------------------------------------------- what every interleaving keeps

  ghost predicate CoherentRow(row: Option<Row>) {
    Storage.Coherent(Base(row).core)
  }

  lemma {:induction false} RowsStayCoherent(u: Setup, run: seq<State>, ops: seq<Op>, k: nat)
    requires IsRun(u, run, ops) && k < |run| && CoherentRow(u.seed) && CoherentRow(run[0].row)
    ensures forall m :: 0 <= m <= k ==> CoherentRow(run[m].row)
  {
    hide CoherentRow, Passes, Edited;
    if k > 0 {
      RowsStayCoherent(u, run, ops, k - 1);
      assert run[k] == Next(u, run[k - 1], ops[k - 1]);
      if ops[k - 1].Land? {
        var m := ReadAt(u, run, ops, k - 1);
        LandIs(u, run, ops, k - 1);
        BaseCoherent(run[m].row);
        LandsCoherent(u.host, Base(run[m].row), ops[k - 1].change);
      }
    }
  }

  lemma BaseCoherent(row: Option<Row>)
    ensures CoherentRow(Some(Base(row))) == CoherentRow(row)
  {
  }

  lemma LandsCoherent(host: Hosts, base: Row, ch: Change)
    requires Passes(host, base, ch) && CoherentRow(Some(base))
    ensures CoherentRow(Some(Edited(host, base, ch)))
  {
    Storage.EditKeepsCoherent(base.core, ch.core);
    hide Settled;
  }

  /**
    Every row is checked whole before it is written, so even where edits race and undo each other the
    row that wins is sound: from a sound start, after any landing in any interleaving, every profile
    names known storage, and the storage catalog and the profiles are well formed.
  */
  lemma LandedRowsAreSound(u: Setup, run: seq<State>, ops: seq<Op>, j: nat, k: nat)
    requires IsRun(u, run, ops) && j < k < |run| && ops[j].Land?
    requires CoherentRow(u.seed) && CoherentRow(run[0].row)
    ensures run[k].row.Some? && Storage.Known(run[k].row.value.core) && Storage.Coherent(run[k].row.value.core)
  {
    LandedKnown(u, run, ops, j, k);
    RowsStayCoherent(u, run, ops, k);
    hide IsRun, Storage.Known, Storage.Coherent;
    assert CoherentRow(run[k].row);
  }

  lemma {:induction false} LandedKnown(u: Setup, run: seq<State>, ops: seq<Op>, j: nat, k: nat)
    requires IsRun(u, run, ops) && j < k < |run| && ops[j].Land?
    ensures run[k].row.Some? && Storage.Known(run[k].row.value.core)
    decreases k
  {
    hide Passes, Edited, Storage.Known;
    if ops[k - 1].Land? {
      LandIs(u, run, ops, k - 1);
      EditedIsKnown(u.host, Base(run[k - 1].Of(ops[k - 1].c).result), ops[k - 1].change);
    } else {
      LandedKnown(u, run, ops, j, k - 1);
      RowStays(u, run, ops, k - 1);
    }
  }

  lemma EditedIsKnown(host: Hosts, base: Row, ch: Change)
    requires Passes(host, base, ch)
    ensures Storage.Known(Edited(host, base, ch).core)
  {
    hide Settled, Storage.Known;
    Storage.AcceptedIsKnown(base.core, ch.core);
  }

  /** Until an edit lands, the row is the one the run started with or the seed. */
  lemma {:induction false} UnlandedRow(u: Setup, run: seq<State>, ops: seq<Op>, k: nat)
    requires IsRun(u, run, ops) && k < |run| && forall j :: 0 <= j < k ==> !ops[j].Land?
    ensures run[k].row == run[0].row || run[k].row == u.seed
  {
    hide Passes, Edited;
    if k > 0 {
      UnlandedRow(u, run, ops, k - 1);
      assert Enabled(u, run[k - 1], ops[k - 1]) && run[k] == Next(u, run[k - 1], ops[k - 1]);
    }
  }

  /**
    A create reads the row twice, the profile at one moment and the storage it names at a later one. In every
    interleaving, for every profile, request and resolution across the two: the profile's entries come first and in
    order, every requested name is attached, and as text no mount path is reserved and no two are alike.
  */
  lemma WorkloadMounts(u: Setup, run: seq<State>, ops: seq<Op>, k1: nat, k2: nat, i: nat,
                       request: seq<string>, es: seq<Storage.Entry>)
    requires IsRun(u, run, ops) && k1 <= k2 < |run| && CoherentRow(u.seed) && CoherentRow(run[0].row)
    requires i < |Base(run[k1].row).core.profiles|
    requires var names := Storage.Attached(Base(run[k1].row).core.profiles[i].storage, request);
      && Distinct(names) && |es| == |names|
      && forall m :: 0 <= m < |es| ==> Some(es[m]) == Storage.Find(Base(run[k2].row).core.storage, names[m])
    ensures Storage.SoundMounts(es)
    ensures var profile := Base(run[k1].row).core.profiles[i].storage;
      && |profile| <= |es|
      && (forall m :: 0 <= m < |profile| ==> es[m].name == profile[m])
    ensures forall n :: n in request ==> exists m :: 0 <= m < |es| && es[m].name == n
  {
    RowsStayCoherent(u, run, ops, k2);
    hide IsRun, Storage.Attached, Storage.SoundMounts, Storage.Find, Storage.WellFormed;
    assert CoherentRow(run[k1].row) && CoherentRow(run[k2].row);
    Storage.WorkloadMounts(Base(run[k1].row).core.profiles[i].storage, Base(run[k2].row).core.storage, request, es);
  }

  /** An edit that clears profiles and storage. */
  const CLEAR := Change(Storage.Edit(Some([]), Some([])), None, map[])

  /** A row whose profile attaches the one storage entry, as an edit would accept it. */
  function Stocked(): Row {
    var entry := Storage.Entry("s", Storage.Secret, "k", "", Storage.Env, None, []);
    var profile := Storage.Profile("p", [], "i", "2", "1", "2Gi", [], None, None, None, ["s"]);
    Row(Storage.Policy([profile], [entry]), [], map[])
  }

  /**
    An edit that lands between the two reads can take the profile's storage away: the request, which names nothing
    itself, would have gone through at the first read and is refused at the second.
  */
  lemma DroppedBetweenReads(host: Hosts, project: string)
    ensures exists run: seq<State>, ops: seq<Op> ::
      && IsRun(Setup(host, None), run, ops) && |run| == 3
      && Storage.Coherent(Base(run[0].row).core) && Storage.Known(Base(run[0].row).core)
      && |Base(run[1].row).core.profiles| == 1
      && (var names := Storage.Attached(Base(run[1].row).core.profiles[0].storage, []);
          && Storage.Resolves(Base(run[1].row).core.storage, project, names)
          && !Storage.Resolves(Base(run[2].row).core.storage, project, names))
  {
    var u, ops := Setup(host, None), [FirstGet(0), Land(0, CLEAR)];
    var row := Stocked();
    ClearPasses(host, row);
    StockedIs(project);
    hide Passes, Edited, Stocked, Storage.Resolves, Storage.Attached, Storage.Coherent, Storage.Known;
    var s0 := State(Some(row), 0, map[]);
    var s1 := Next(u, s0, ops[0]);
    assert s1.Of(0) == Done(0, Some(row));
    var s2 := Next(u, s1, ops[1]);
    var run := [s0, s1, s2];
    assert IsRun(u, run, ops);
  }

  lemma ClearPasses(host: Hosts, base: Row)
    ensures Passes(host, base, CLEAR) && Edited(host, base, CLEAR).core == Storage.Policy([], [])
  {
  }

  lemma StockedIs(project: string)
    ensures var core := Stocked().core;
      && Storage.Coherent(core) && Storage.Known(core) && |core.profiles| == 1
      && (var names := Storage.Attached(core.profiles[0].storage, []);
          Storage.Resolves(core.storage, project, names) && !Storage.Resolves([], project, names))
  {
    var core := Stocked().core;
    assert Storage.K8sName("s") && Storage.K8sName("k") && Storage.StorageName("s");
    assert core.profiles[0].storage == ["s"] && Storage.Find(core.storage, "s") == Some(core.storage[0]);
    assert Storage.Attached(["s"], []) == ["s"];
    assert Storage.Find([], "s") == None && !Storage.Usable([], project, ["s"][0]);
  }

  // ---------------------------------------------------- the environments section

  /** What an accepted edit establishes of a catalog. */
  ghost predicate Tidy(host: Hosts, c: Env.Catalog) {
    forall i :: 0 <= i < |c| ==>
      && (c[i].status.Published? ==> Env.Attributed(c[i]))
      && (c[i].status.Draft? ==> c[i].publishedBy.None? && c[i].publishedAt.None?)
      && Env.EntrySound(host, c[i])
      && Env.Lookup(c, c[i].name) == Some(c[i])
  }

  lemma StepTidies(host: Hosts, base: Env.Catalog, ed: Env.Edit, d: Env.Catalog)
    requires Env.Step(host, base, ed, d)
    ensures Tidy(host, d)
  {
    hide Env.Step, Env.EntrySound, Env.Lookup;
    forall i | 0 <= i < |d|
      ensures
        && (d[i].status.Published? ==> Env.Attributed(d[i]))
        && (d[i].status.Draft? ==> d[i].publishedBy.None? && d[i].publishedAt.None?)
        && Env.EntrySound(host, d[i]) && Env.Lookup(d, d[i].name) == Some(d[i])
    {
      Env.EditEstablishes(host, base, ed, d, i);
    }
  }

  /** The section is the one the run started with, the seed's, or tidy. */
  ghost predicate Accounted(u: Setup, start: State, c: Env.Catalog) {
    c == Base(start.row).environments || c == Base(u.seed).environments || Tidy(u.host, c)
  }

  lemma LandedEnvironments(u: Setup, start: State, base: Row, ch: Change)
    requires Passes(u.host, base, ch) && Accounted(u, start, base.environments)
    ensures Accounted(u, start, Edited(u.host, base, ch).environments)
  {
    hide Tidy;
    if ch.environments.Some? {
      var ed := ch.environments.value;
      var d := Settled(u.host, base.environments, ed);
      assert Env.Step(u.host, base.environments, ed, d);
      StepTidies(u.host, base.environments, ed, d);
    }
  }

  /** So in every interleaving: an environments section that is not the first or the seed's is tidy. */
  lemma {:induction false} EnvironmentsStayTidy(u: Setup, run: seq<State>, ops: seq<Op>, k: nat)
    requires IsRun(u, run, ops) && k < |run|
    ensures forall m :: 0 <= m <= k ==> Accounted(u, run[0], Base(run[m].row).environments)
  {
    hide Tidy, Passes, Edited;
    if k > 0 {
      EnvironmentsStayTidy(u, run, ops, k - 1);
      assert run[k] == Next(u, run[k - 1], ops[k - 1]);
      if ops[k - 1].Land? {
        var m := ReadAt(u, run, ops, k - 1);
        LandIs(u, run, ops, k - 1);
        LandedEnvironments(u, run[0], Base(run[m].row), ops[k - 1].change);
      }
    }
  }

  function Catalogs(run: seq<State>): (cs: seq<Env.Catalog>)
    ensures |cs| == |run| && forall k :: 0 <= k < |run| ==> cs[k] == Base(run[k].row).environments
  {
    seq(|run|, k requires 0 <= k < |run| => Base(run[k].row).environments)
  }

  /** The catalog each step's edit had read; a step that is no edit counts as reading the current one. */
  function SeenAt(s: State, op: Op): Env.Catalog {
    if op.Land? && s.Of(op.c).Done? then Base(s.Of(op.c).result).environments else Base(s.row).environments
  }

  function Seen(run: seq<State>, ops: seq<Op>): (seen: seq<Env.Catalog>)
    requires |run| == |ops| + 1
    ensures |seen| == |ops| && forall k :: 0 <= k < |ops| ==> seen[k] == SeenAt(run[k], ops[k])
  {
    seq(|ops|, k requires 0 <= k < |ops| => SeenAt(run[k], ops[k]))
  }

  function Edits(ops: seq<Op>): (eds: seq<Option<Env.Edit>>)
    ensures |eds| == |ops|
    ensures forall k :: 0 <= k < |ops| ==> eds[k] == if ops[k].Land? then ops[k].change.environments else None
  {
    seq(|ops|, k requires 0 <= k < |ops| => if ops[k].Land? then ops[k].change.environments else None)
  }

  /**
    The history of the environments section is a race whose every edit read a catalog the row held, so the exact
    conditions for its audit trail and its lifecycle moves apply; and it is a run when every
    edit lands on the section it read.
  */
  lemma HistoryIsRace(u: Setup, run: seq<State>, ops: seq<Op>)
    requires IsRun(u, run, ops) && run[0].row.Some?
    ensures Env.IsRace(u.host, Catalogs(run), Seen(run, ops), Edits(ops))
    ensures forall k :: 0 <= k < |ops| ==> exists m :: 0 <= m <= k && Seen(run, ops)[k] == Catalogs(run)[m]
    ensures Seen(run, ops) == Catalogs(run)[..|ops|] ==> Env.IsRun(u.host, Catalogs(run), Edits(ops))
  {
    hide Passes, Edited;
    forall k | 0 <= k < |ops|
      ensures Env.Lands(u.host, SeenAt(run[k], ops[k]), Edits(ops)[k], Base(run[k + 1].row).environments)
      ensures exists m :: 0 <= m <= k && Seen(run, ops)[k] == Catalogs(run)[m]
    {
      RowIsThere(u, run, ops, k);
      if ops[k].Land? {
        var m := ReadAt(u, run, ops, k);
        LandIs(u, run, ops, k);
        LandsEnvironments(u.host, Base(run[m].row), ops[k].change);
        assert Seen(run, ops)[k] == Catalogs(run)[m];
      } else {
        RowStays(u, run, ops, k);
        assert Seen(run, ops)[k] == Catalogs(run)[k];
      }
    }
  }

  lemma {:induction false} RowIsThere(u: Setup, run: seq<State>, ops: seq<Op>, k: nat)
    requires IsRun(u, run, ops) && run[0].row.Some? && k < |run|
    ensures run[k].row.Some?
  {
    if k > 0 {
      RowIsThere(u, run, ops, k - 1);
      RowStays(u, run, ops, k - 1);
    }
  }

  lemma LandsEnvironments(host: Hosts, base: Row, ch: Change)
    requires Passes(host, base, ch)
    ensures Env.Lands(host, base.environments, ch.environments, Edited(host, base, ch).environments)
  {
  }

  // ------------------------------------------------------------ a failing race

  /** One entry, published by ann; and its wire form at either status. */
  function Entry(status: Env.Status): Env.Environment {
    Env.Environment("e", status, Some("ann"), Some(0), "", [], map[], Document(0, Blank), [], None)
  }

  function Saying(status: string): Change {
    var w := Env.Wire("e", Some(status), Some("ann"), Some(0), "", [], map[], Document(0, Blank), [], None);
    Change(Storage.Edit(None, None), Some(Env.Edit([w], Some("ann"), 1)), map[])
  }

  lemma SayingLands(host: Hosts, status: string, to: Env.Status)
    requires (status == "published" && to == Env.Published) || (status == "deprecated" && to == Env.Deprecated)
    ensures var base := EMPTY.(environments := [Entry(Env.Published)]);
      Passes(host, base, Saying(status)) && Edited(host, base, Saying(status)) == EMPTY.(environments := [Entry(to)])
  {
    var base := EMPTY.(environments := [Entry(Env.Published)]);
    var ed := Saying(status).environments.value;
    var w := ed.wire[0];
    assert Env.Label("e") && Env.Sound(host, w.packages, w.envVars, w.hatch);
    assert Env.ParseStatus(w.status) == Some(to);
    hide Env.Sound, Env.Label;
    assert Env.WireAccepted(host, ed.wire);
    var inc := Env.Incoming(host, ed);
    assert inc[0] == Env.Convert(w) == Entry(to);
    assert Env.Lookup(base.environments, "e") == Some(Entry(Env.Published));
    assert Env.Accepts(Some(Entry(Env.Published)), inc[0], ed.publisher, ed.now);
    assert Storage.Known(EMPTY.core) && Storage.Replaced(base.core, Saying(status).core) == base.core;
    assert Settled(host, base.environments, ed) == [Entry(to)];
    assert base.rest + map[] == base.rest;
  }

  /**
    Two edits read a published entry; one deprecates it and lands, then the other lands with the entry as it
    had read it. The entry is published again with no draft in between, and the audit trail does not balance.
  */
  lemma StaleEditRepublishes(host: Hosts)
    ensures exists run: seq<State>, ops: seq<Op> ::
      && IsRun(Setup(host, None), run, ops) && |ops| == 4
      && Env.ShortCut(Catalogs(run), 3, 4, "e")
      && Env.IsRace(host, Catalogs(run), Seen(run, ops), Edits(ops))
      && !Env.Balanced(host, Catalogs(run), Seen(run, ops), Edits(ops))
  {
    hide IsRun, Env.ShortCut, Env.IsRace, Env.Balanced, Catalogs, Seen, Edits, Entry;
    var run, ops := StaleRun(host);
    OneEntry();
    StaleFails(host, Catalogs(run), Seen(run, ops), Edits(ops), [Entry(Env.Published)], [Entry(Env.Deprecated)]);
  }

  lemma StaleRun(host: Hosts) returns (run: seq<State>, ops: seq<Op>)
    ensures IsRun(Setup(host, None), run, ops) && |ops| == 4
    ensures Env.IsRace(host, Catalogs(run), Seen(run, ops), Edits(ops))
    ensures var before, after := [Entry(Env.Published)], [Entry(Env.Deprecated)];
      && Catalogs(run) == [before, before, before, after, before]
      && Seen(run, ops) == [before, before, before, before]
  {
    hide Passes, Edited, Saying, IsRun, Entry, Env.IsRace, Catalogs, Seen, Edits;
    var u, base := Setup(host, None), EMPTY.(environments := [Entry(Env.Published)]);
    SayingLands(host, "deprecated", Env.Deprecated);
    SayingLands(host, "published", Env.Published);
    var first, second := Saying("deprecated"), Saying("published");
    run := TwoLandings(u, base, first, second);
    ops := [FirstGet(0), FirstGet(1), Land(0, first), Land(1, second)];
    HistoryIsRace(u, run, ops);
    TwoLandingsHistory(run, first, second, base, EMPTY.(environments := [Entry(Env.Deprecated)]), base);
  }

  lemma TwoLandingsHistory(run: seq<State>, first: Change, second: Change, base: Row, a: Row, b: Row)
    requires |run| == 5 && run[0].row == run[1].row == run[2].row == Some(base)
    requires run[3].row == Some(a) && run[4].row == Some(b)
    requires run[2].Of(0) == Done(0, Some(base)) && run[3].Of(1) == Done(1, Some(base))
    ensures Catalogs(run) == [base.environments, base.environments, base.environments, a.environments, b.environments]
    ensures Seen(run, [FirstGet(0), FirstGet(1), Land(0, first), Land(1, second)])
      == [base.environments, base.environments, base.environments, base.environments]
  {
    var ops := [FirstGet(0), FirstGet(1), Land(0, first), Land(1, second)];
    var cs, seen := Catalogs(run), Seen(run, ops);
    hide Catalogs, Seen;
    assert seen[0] == seen[1] == seen[2] == seen[3] == base.environments;
  }

  lemma StaleFails(host: Hosts, cs: seq<Env.Catalog>, seen: seq<Env.Catalog>, eds: seq<Option<Env.Edit>>,
                   before: Env.Catalog, after: Env.Catalog)
    requires Env.IsRace(host, cs, seen, eds) && |eds| == 4
    requires cs == [before, before, before, after, before] && seen == [before, before, before, before]
    requires Env.StatusAt(before, "e") == Some(Env.Published) && Env.StatusAt(after, "e") == Some(Env.Deprecated)
    requires |Env.Kept(before, before)| == 1 && |Env.Kept(after, before)| == 0
    ensures Env.ShortCut(cs, 3, 4, "e") && !Env.Balanced(host, cs, seen, eds)
  {
    hide Env.StatusAt, Env.Balanced, Env.IsRace, Env.Kept, Env.TotalKept;
    Env.EventsBalanceIff(host, cs, seen, eds);
    StaleKept(before, after);
  }

  lemma OneEntry()
    ensures Env.StatusAt([Entry(Env.Published)], "e") == Some(Env.Published)
    ensures Env.StatusAt([Entry(Env.Deprecated)], "e") == Some(Env.Deprecated)
    ensures Env.Kept([Entry(Env.Published)], [Entry(Env.Published)]) == {"e"}
    ensures Env.Kept([Entry(Env.Deprecated)], [Entry(Env.Published)]) == {}
  {
    var c, d := [Entry(Env.Published)], [Entry(Env.Deprecated)];
    assert Env.Lookup(c, "e") == Some(c[0]) && Env.Lookup(d, "e") == Some(d[0]);
    assert c[0].name in Env.Names(c) && Env.Names(c) == {"e"} && Env.Names(d) == {"e"};
  }

  lemma StaleKept(before: Env.Catalog, after: Env.Catalog)
    requires |Env.Kept(before, before)| == 1 && |Env.Kept(after, before)| == 0
    ensures var cs, seen := [before, before, before, after, before], [before, before, before, before];
      Env.TotalKept(seen, cs) != Env.TotalKept(cs[..4], cs)
  {
    hide Env.Kept;
    var cs, seen := [before, before, before, after, before], [before, before, before, before];
    assert seen[..3] == cs[..4][..3];
  }
}
