/** Seed steps: their validation, and running the pending ones at every launch. */
module Seeds {
  import opened Sequences
  import opened Results

  datatype SeedStep = SeedStep(schemaVersion: int, retries: Option<int>)

  function MaxAttempts(step: SeedStep): int {
    1 + if step.retries.Some? then step.retries.value else 0
  }

  function Versions(steps: seq<SeedStep>): seq<int> {
    seq(|steps|, i requires 0 <= i < |steps| => steps[i].schemaVersion)
  }

  // ---- databaseSeed ----

  predicate ValidStep(step: SeedStep) {
    step.schemaVersion >= 1 && (step.retries.Some? ==> step.retries.value >= 0)
  }

  ghost predicate ValidSteps(steps: seq<SeedStep>) {
    steps != [] && (forall i :: 0 <= i < |steps| ==> ValidStep(steps[i])) && NoDuplicates(Versions(steps))
  }

  ghost predicate Ascending(steps: seq<SeedStep>) {
    forall i, j :: 0 <= i < j < |steps| ==> steps[i].schemaVersion < steps[j].schemaVersion
  }

  function Insert(step: SeedStep, sorted: seq<SeedStep>): seq<SeedStep> {
    if sorted == [] || step.schemaVersion <= sorted[0].schemaVersion then [step] + sorted
    else [sorted[0]] + Insert(step, sorted[1..])
  }

  function SortedSteps(steps: seq<SeedStep>): seq<SeedStep> {
    if steps == [] then [] else Insert(steps[0], SortedSteps(steps[1..]))
  }

  /** `databaseSeed`: accepts exactly the valid lists of steps, and sorts them by version. */
  method DatabaseSeed(steps: seq<SeedStep>) returns (r: Result<seq<SeedStep>>)
    ensures r.Ok? <==> ValidSteps(steps)
    ensures r.Ok? ==> Ascending(r.value) && multiset(r.value) == multiset(steps)
  {
    if |steps| == 0 {
      return Thrown;
    }
    var seenVersions := {};
    for i := 0 to |steps|
      invariant forall j :: 0 <= j < i ==> ValidStep(steps[j])
      invariant seenVersions == set j | 0 <= j < i :: steps[j].schemaVersion
      invariant forall j, k :: 0 <= j < k < i ==> steps[j].schemaVersion != steps[k].schemaVersion
    {
      var step := steps[i];
      if !ValidStep(step) {
        return Thrown;
      }
      if step.schemaVersion in seenVersions {
        var j :| 0 <= j < i && steps[j].schemaVersion == step.schemaVersion;
        assert Versions(steps)[j] == Versions(steps)[i];
        return Thrown;
      }
      seenVersions := seenVersions + {step.schemaVersion};
    }
    SortedIsAscending(steps);
    r := Ok(SortedSteps(steps));
  }

  lemma {:induction false} InsertContents(step: SeedStep, sorted: seq<SeedStep>)
    ensures multiset(Insert(step, sorted)) == multiset([step]) + multiset(sorted)
    ensures forall x :: x in Insert(step, sorted) ==> x == step || x in sorted
  {
    if sorted != [] && step.schemaVersion > sorted[0].schemaVersion {
      InsertContents(step, sorted[1..]);
      assert sorted == [sorted[0]] + sorted[1..];
    }
  }

  lemma {:induction false} InsertAscending(step: SeedStep, sorted: seq<SeedStep>)
    requires Ascending(sorted) && forall x :: x in sorted ==> x.schemaVersion != step.schemaVersion
    ensures Ascending(Insert(step, sorted))
  {
    if sorted != [] && step.schemaVersion > sorted[0].schemaVersion {
      var rest := Insert(step, sorted[1..]);
      InsertAscending(step, sorted[1..]);
      InsertContents(step, sorted[1..]);
      forall i | 0 <= i < |rest|
        ensures rest[i].schemaVersion > sorted[0].schemaVersion
      {
        assert rest[i] in rest;
      }
    }
  }

  lemma {:induction false} SortedIsAscending(steps: seq<SeedStep>)
    requires NoDuplicates(Versions(steps))
    ensures Ascending(SortedSteps(steps)) && multiset(SortedSteps(steps)) == multiset(steps)
  {
    if steps == [] {
    } else {
      var rest := steps[1..];
      assert forall i :: 0 <= i < |rest| ==> Versions(rest)[i] == Versions(steps)[i + 1];
      SortedIsAscending(rest);
      assert steps == [steps[0]] + rest;
      forall x | x in SortedSteps(rest)
        ensures x.schemaVersion != steps[0].schemaVersion
      {
        assert x in multiset(SortedSteps(rest));
        var j :| 0 <= j < |rest| && rest[j] == x;
        assert Versions(steps)[0] != Versions(steps)[j + 1];
      }
      InsertContents(steps[0], SortedSteps(rest));
      InsertAscending(steps[0], SortedSteps(rest));
    }
  }

  // ---- The marker ----

  function Digit(d: nat): char
    requires d < 10
  {
    '0' + d as char
  }

  function ToDecimal(n: nat): string {
    if n < 10 then [Digit(n)] else ToDecimal(n / 10) + [Digit(n % 10)]
  }

  function DigitsPrefix(text: string): string {
    if text == "" || !('0' <= text[0] <= '9') then "" else [text[0]] + DigitsPrefix(text[1..])
  }

  function Decimal(digits: string): nat
    requires forall i :: 0 <= i < |digits| ==> '0' <= digits[i] <= '9'
  {
    if digits == "" then 0 else 10 * Decimal(digits[..|digits| - 1]) + (Last(digits) - '0') as nat
  }

  lemma {:induction false} PrefixIsDigits(text: string)
    ensures forall i :: 0 <= i < |DigitsPrefix(text)| ==> '0' <= DigitsPrefix(text)[i] <= '9'
    ensures (forall i :: 0 <= i < |text| ==> '0' <= text[i] <= '9') ==> DigitsPrefix(text) == text
  {
    if text == "" {
    } else {
      PrefixIsDigits(text[1..]);
    }
  }

  /** `parseInt(text ?? '', 10) || 0`, for a text without blanks or a sign in front. */
  function AppliedVersion(marker: Option<string>): nat {
    if marker.None? then 0
    else
      PrefixIsDigits(marker.value);
      Decimal(DigitsPrefix(marker.value))
  }

  lemma {:induction false} DecimalRoundTrip(n: nat)
    ensures forall i :: 0 <= i < |ToDecimal(n)| ==> '0' <= ToDecimal(n)[i] <= '9'
    ensures Decimal(ToDecimal(n)) == n
  {
    if n < 10 {
    } else {
      DecimalRoundTrip(n / 10);
      assert ToDecimal(n)[..|ToDecimal(n)| - 1] == ToDecimal(n / 10);
    }
  }

  lemma MarkerRoundTrip(n: nat)
    ensures AppliedVersion(Some(ToDecimal(n))) == n
  {
    DecimalRoundTrip(n);
    PrefixIsDigits(ToDecimal(n));
  }

  // ---- Launches ----

  datatype Entry =
    | Attempt(version: int, succeeded: bool)
    | Record(version: int)
    | Failed(version: int)
    | Done(stepsRun: seq<int>)
    | Reset

  /** What the outside does in one launch: whether the marker can be read, which attempts of which step
      succeed, and whether the marker of a step can be written. */
  datatype Launch = Launch(readable: bool, succeeds: (int, nat) -> bool, recordable: int -> bool)

  /** The attempts of one step, from the given one on, and whether one of them succeeds. */
  function Attempts(step: SeedStep, launch: Launch, attempt: nat): (seq<Entry>, bool)
    decreases MaxAttempts(step) - attempt
  {
    if attempt >= MaxAttempts(step) then ([], false)
    else if launch.succeeds(step.schemaVersion, attempt) then ([Attempt(step.schemaVersion, true)], true)
    else
      var (later, succeeded) := Attempts(step, launch, attempt + 1);
      ([Attempt(step.schemaVersion, false)] + later, succeeded)
  }

  /** A step is recorded once it has succeeded; otherwise it fails, and the launch with it. */
  function StepEntries(step: SeedStep, launch: Launch): (seq<Entry>, bool) {
    var version := step.schemaVersion;
    var (attempts, succeeded) := Attempts(step, launch, 0);
    if !succeeded || !launch.recordable(version) then (attempts + [Failed(version)], false)
    else (attempts + [Record(version)], true)
  }

  function RunPending(pending: seq<SeedStep>, launch: Launch, stepsRun: seq<int>): seq<Entry> {
    if pending == [] then [Done(stepsRun)]
    else
      var (entries, recorded) := StepEntries(pending[0], launch);
      if recorded then entries + RunPending(pending[1..], launch, stepsRun + [pending[0].schemaVersion]) else entries
  }

  function Pending(steps: seq<SeedStep>, applied: nat): seq<SeedStep> {
    if steps == [] then []
    else (if steps[0].schemaVersion > applied then [steps[0]] else []) + Pending(steps[1..], applied)
  }

  function Launched(steps: seq<SeedStep>, marker: Option<string>, launch: Launch): seq<Entry> {
    if !launch.readable then [Failed(0)] else RunPending(Pending(steps, AppliedVersion(marker)), launch, [])
  }

  /** The marker that a log leaves behind. */
  function MarkerAfter(log: seq<Entry>): Option<string> {
    if log == [] then None
    else
      match Last(log)
      case Record(version) => if version >= 0 then Some(ToDecimal(version)) else None
      case Reset => None
      case _ => MarkerAfter(log[..|log| - 1])
  }

  class SeededDatabase {
    var marker: Option<string>
    var seeding: bool
    ghost var log: seq<Entry>

    ghost predicate Valid()
      reads this
    {
      !seeding && marker == MarkerAfter(log)
    }

    constructor ()
      ensures Valid() && log == []
    {
      marker, seeding, log := None, false, [];
    }

    /** `_runSeed` */
    method RunSeed(sortedSteps: seq<SeedStep>, launch: Launch)
      requires Valid() && forall i :: 0 <= i < |sortedSteps| ==> ValidStep(sortedSteps[i])
      modifies this
      ensures Valid() && log == old(log) + Launched(sortedSteps, old(marker), launch)
    {
      if !launch.readable {
        log := log + [Failed(0)];
        assert log[..|log| - 1] == old(log);
        return;
      }
      var pendingSteps := PendingSteps(sortedSteps, AppliedVersion(marker));
      var stepsRun: seq<int> := [];
      for i := 0 to |pendingSteps|
        invariant Valid()
        invariant log + RunPending(pendingSteps[i..], launch, stepsRun)
                  == old(log) + Launched(sortedSteps, old(marker), launch)
      {
        assert pendingSteps[i..][1..] == pendingSteps[i + 1..];
        ghost var before, entries := log, StepEntries(pendingSteps[i], launch).0;
        var recorded := RunStep(pendingSteps[i], launch);
        if !recorded {
          return;
        }
        stepsRun := stepsRun + [pendingSteps[i].schemaVersion];
        ghost var rest := RunPending(pendingSteps[i + 1..], launch, stepsRun);
        assert (before + entries) + rest == before + (entries + rest);
      }
      log := log + [Done(stepsRun)];
      assert log[..|log| - 1] + [Done(stepsRun)] == log;
    }

    method RunStep(step: SeedStep, launch: Launch) returns (recorded: bool)
      requires Valid() && ValidStep(step)
      modifies this
      ensures Valid() && log == old(log) + StepEntries(step, launch).0 && recorded == StepEntries(step, launch).1
    {
      var succeeded := RunAttempts(step, launch);
      ghost var before := log;
      if !succeeded || !launch.recordable(step.schemaVersion) {
        log := log + [Failed(step.schemaVersion)];
        recorded := false;
      } else {
        marker := Some(ToDecimal(step.schemaVersion));
        log := log + [Record(step.schemaVersion)];
        recorded := true;
      }
      assert log[..|log| - 1] == before;
    }

    method PendingSteps(steps: seq<SeedStep>, applied: nat) returns (pending: seq<SeedStep>)
      requires forall i :: 0 <= i < |steps| ==> ValidStep(steps[i])
      ensures pending == Pending(steps, applied) && forall i :: 0 <= i < |pending| ==> ValidStep(pending[i])
    {
      pending := [];
      for i := 0 to |steps|
        invariant pending + Pending(steps[i..], applied) == Pending(steps, applied)
        invariant forall j :: 0 <= j < |pending| ==> ValidStep(pending[j])
      {
        assert steps[i..][1..] == steps[i + 1..];
        if steps[i].schemaVersion > applied {
          pending := pending + [steps[i]];
        }
      }
    }

    /** The attempts of one step, with `_seeding` set while they run. */
    method RunAttempts(step: SeedStep, launch: Launch) returns (succeeded: bool)
      requires Valid() && ValidStep(step)
      modifies this`seeding, this`log
      ensures Valid() && log == old(log) + Attempts(step, launch, 0).0 && succeeded == Attempts(step, launch, 0).1
    {
      var maxAttempts, attempt := MaxAttempts(step), 0;
      seeding, succeeded := true, false;
      while attempt < maxAttempts && !succeeded
        invariant 0 <= attempt <= maxAttempts && marker == MarkerAfter(log)
        invariant if succeeded then log == old(log) + Attempts(step, launch, 0).0 && Attempts(step, launch, 0).1
                  else log + Attempts(step, launch, attempt).0 == old(log) + Attempts(step, launch, 0).0
                       && Attempts(step, launch, attempt).1 == Attempts(step, launch, 0).1
        decreases maxAttempts - attempt, !succeeded
      {
        ghost var before, rest := log, Attempts(step, launch, attempt).0;
        succeeded := launch.succeeds(step.schemaVersion, attempt);
        log := log + [Attempt(step.schemaVersion, succeeded)];
        assert log[..|log| - 1] == before;
        assert log + rest[1..] == before + rest;
        attempt := attempt + 1;
      }
      seeding := false;
    }

    /** `unsafeResetDatabase`: the marker goes with everything else. */
    method UnsafeReset(sortedSteps: seq<SeedStep>, launch: Launch, reapplySeed: bool)
      requires Valid() && forall i :: 0 <= i < |sortedSteps| ==> ValidStep(sortedSteps[i])
      modifies this
      ensures Valid() && log == old(log) + [Reset] + if reapplySeed then Launched(sortedSteps, None, launch) else []
    {
      marker, log := None, log + [Reset];
      if reapplySeed {
        RunSeed(sortedSteps, launch);
      }
    }
  }

  // ---- Over many launches ----

  /** Anything may also be killed, after any number of entries: a step can have succeeded without being
      recorded. */
  datatype Session =
    | Start(launch: Launch)
    | ResetDatabase(launch: Launch, reapplySeed: bool)
    | Killed(session: Session, after: nat)

  function SessionEntries(steps: seq<SeedStep>, marker: Option<string>, session: Session): seq<Entry> {
    match session
    case Start(launch) => Launched(steps, marker, launch)
    case ResetDatabase(launch, reapplySeed) => [Reset] + if reapplySeed then Launched(steps, None, launch) else []
    case Killed(killed, after) => Take(SessionEntries(steps, marker, killed), after)
  }

  function History(steps: seq<SeedStep>, sessions: seq<Session>): seq<Entry> {
    if sessions == [] then []
    else
      var before := History(steps, sessions[..|sessions| - 1]);
      before + SessionEntries(steps, MarkerAfter(before), Last(sessions))
  }

  /** The versions recorded since the last reset, in order. */
  function Recorded(log: seq<Entry>): seq<int> {
    if log == [] then []
    else
      var before := log[..|log| - 1];
      match Last(log)
      case Record(version) => Recorded(before) + [version]
      case Reset => []
      case _ => Recorded(before)
  }

  /** A step is attempted only as the first one not recorded yet, and recorded only right after an
      attempt that succeeded; and seeding is done only when every step is recorded. */
  ghost predicate EntryAllowed(versions: seq<int>, before: seq<Entry>, e: Entry) {
    match e
    case Attempt(version, _) => IsNext(versions, before, version)
    case Record(version) => IsNext(versions, before, version) && before != [] && Last(before) == Attempt(version, true)
    case Failed(version) => version != 0 ==> IsNext(versions, before, version)
    case Done(_) => Recorded(before) == versions
    case Reset => true
  }

  ghost predicate AllowedAt(versions: seq<int>, log: seq<Entry>, i: nat)
    requires i < |log|
  {
    EntryAllowed(versions, log[..i], log[i])
  }

  ghost predicate InOrder(versions: seq<int>, log: seq<Entry>) {
    forall i :: 0 <= i < |log| ==> AllowedAt(versions, log, i)
  }

  lemma OneMore(versions: seq<int>, log: seq<Entry>, e: Entry)
    requires InOrder(versions, log) && EntryAllowed(versions, log, e)
    ensures InOrder(versions, log + [e])
    ensures Recorded(log + [e]) ==
            if e.Record? then Recorded(log) + [e.version] else if e.Reset? then [] else Recorded(log)
  {
    var longer := log + [e];
    assert longer[..|log|] == log;
    forall i | 0 <= i < |log|
      ensures AllowedAt(versions, longer, i)
    {
      assert AllowedAt(versions, log, i) && longer[..i] == log[..i];
    }
  }

  lemma PrefixInOrder(versions: seq<int>, log: seq<Entry>, i: nat)
    requires InOrder(versions, log) && i <= |log|
    ensures InOrder(versions, log[..i])
  {
    forall j | 0 <= j < i
      ensures AllowedAt(versions, log[..i], j)
    {
      assert AllowedAt(versions, log, j) && log[..i][..j] == log[..j];
    }
  }

  /** What is recorded is always an initial part of the steps. */
  lemma {:induction false} RecordedIsPrefix(versions: seq<int>, log: seq<Entry>)
    requires InOrder(versions, log)
    ensures |Recorded(log)| <= |versions| && Recorded(log) == versions[..|Recorded(log)|]
  {
    if log == [] {
    } else {
      var front := log[..|log| - 1];
      PrefixInOrder(versions, log, |front|);
      RecordedIsPrefix(versions, front);
      assert AllowedAt(versions, log, |front|);
    }
  }

  predicate IsNext(versions: seq<int>, log: seq<Entry>, version: int) {
    |Recorded(log)| < |versions| && version == versions[|Recorded(log)|]
  }

  lemma {:induction false} AttemptsInOrder(versions: seq<int>, log: seq<Entry>, step: SeedStep, launch: Launch,
                                           attempt: nat)
    requires InOrder(versions, log) && IsNext(versions, log, step.schemaVersion)
    ensures var (attempts, succeeded) := Attempts(step, launch, attempt);
            && InOrder(versions, log + attempts) && Recorded(log + attempts) == Recorded(log)
            && (succeeded ==> attempts != [] && Last(attempts) == Attempt(step.schemaVersion, true))
    decreases MaxAttempts(step) - attempt
  {
    var (attempts, succeeded) := Attempts(step, launch, attempt);
    if attempts == [] {
      assert log + attempts == log;
    } else {
      OneMore(versions, log, attempts[0]);
      if !launch.succeeds(step.schemaVersion, attempt) {
        AttemptsInOrder(versions, log + [attempts[0]], step, launch, attempt + 1);
        assert log + attempts == log + [attempts[0]] + Attempts(step, launch, attempt + 1).0;
      } else {
        assert attempts == [attempts[0]];
      }
    }
  }

  lemma StepInOrder(versions: seq<int>, log: seq<Entry>, step: SeedStep, launch: Launch)
    requires InOrder(versions, log) && IsNext(versions, log, step.schemaVersion)
    ensures var (entries, recorded) := StepEntries(step, launch);
            && InOrder(versions, log + entries)
            && (recorded ==> Recorded(log + entries) == Recorded(log) + [step.schemaVersion])
  {
    AttemptsInOrder(versions, log, step, launch, 0);
    var attempts := Attempts(step, launch, 0).0;
    var (entries, recorded) := StepEntries(step, launch);
    assert attempts != [] ==> Last(log + attempts) == Last(attempts);
    OneMore(versions, log + attempts, Last(entries));
    assert log + entries == log + attempts + [Last(entries)];
  }

  lemma {:induction false} PendingInOrder(steps: seq<SeedStep>, log: seq<Entry>, launch: Launch, stepsRun: seq<int>)
    requires InOrder(Versions(steps), log) && |Recorded(log)| <= |steps|
    ensures InOrder(Versions(steps), log + RunPending(steps[|Recorded(log)|..], launch, stepsRun))
    decreases |steps| - |Recorded(log)|
  {
    var k, versions := |Recorded(log)|, Versions(steps);
    RecordedIsPrefix(versions, log);
    if k == |steps| {
      OneMore(versions, log, Done(stepsRun));
    } else {
      var (entries, recorded) := StepEntries(steps[k], launch);
      StepInOrder(versions, log, steps[k], launch);
      if recorded {
        PendingInOrder(steps, log + entries, launch, stepsRun + [steps[k].schemaVersion]);
        assert steps[k..][1..] == steps[k + 1..];
        assert log + RunPending(steps[k..], launch, stepsRun)
            == log + entries + RunPending(steps[k + 1..], launch, stepsRun + [steps[k].schemaVersion]);
      }
    }
  }

  /** The marker is that of the last step recorded, or none. */
  lemma {:induction false} MarkerIsLastRecorded(steps: seq<SeedStep>, log: seq<Entry>)
    requires InOrder(Versions(steps), log) && forall i :: 0 <= i < |steps| ==> ValidStep(steps[i])
    ensures AppliedVersion(MarkerAfter(log)) == if Recorded(log) == [] then 0 else Last(Recorded(log))
  {
    if log == [] {
    } else {
      PrefixInOrder(Versions(steps), log, |log| - 1);
      MarkerIsLastRecorded(steps, log[..|log| - 1]);
      assert AllowedAt(Versions(steps), log, |log| - 1);
      if Last(log).Record? {
        MarkerRoundTrip(Last(log).version);
      }
    }
  }

  /** The pending steps are those after the last one recorded. */
  lemma {:induction false} PendingAreTheRest(steps: seq<SeedStep>, k: nat, applied: nat)
    requires Ascending(steps) && k <= |steps|
    requires forall i :: 0 <= i < k ==> steps[i].schemaVersion <= applied
    requires forall i :: k <= i < |steps| ==> steps[i].schemaVersion > applied
    ensures Pending(steps, applied) == steps[k..]
  {
    if steps == [] {
    } else {
      PendingAreTheRest(steps[1..], if k > 0 then k - 1 else 0, applied);
    }
  }

  lemma LaunchInOrder(steps: seq<SeedStep>, log: seq<Entry>, launch: Launch)
    requires Ascending(steps) && (forall i :: 0 <= i < |steps| ==> ValidStep(steps[i])) && InOrder(Versions(steps), log)
    ensures InOrder(Versions(steps), log + Launched(steps, MarkerAfter(log), launch))
  {
    if launch.readable {
      var k := |Recorded(log)|;
      RecordedIsPrefix(Versions(steps), log);
      MarkerIsLastRecorded(steps, log);
      assert k > 0 ==> Last(Recorded(log)) == Versions(steps)[k - 1];
      PendingAreTheRest(steps, k, AppliedVersion(MarkerAfter(log)));
      PendingInOrder(steps, log, launch, []);
    } else {
      OneMore(Versions(steps), log, Failed(0));
    }
  }

  lemma {:induction false} SessionInOrder(steps: seq<SeedStep>, log: seq<Entry>, session: Session)
    requires Ascending(steps) && (forall i :: 0 <= i < |steps| ==> ValidStep(steps[i])) && InOrder(Versions(steps), log)
    ensures InOrder(Versions(steps), log + SessionEntries(steps, MarkerAfter(log), session))
  {
    match session
    case Start(launch) => LaunchInOrder(steps, log, launch);
    case ResetDatabase(launch, reapplySeed) =>
      var reset := log + [Reset];
      OneMore(Versions(steps), log, Reset);
      LaunchInOrder(steps, reset, launch);
      assert log + ([Reset] + []) == reset;
      assert log + ([Reset] + Launched(steps, None, launch)) == reset + Launched(steps, MarkerAfter(reset), launch);
    case Killed(killed, after) =>
      var entries := SessionEntries(steps, MarkerAfter(log), killed);
      SessionInOrder(steps, log, killed);
      var i := |log| + |Take(entries, after)|;
      PrefixInOrder(Versions(steps), log + entries, i);
      assert (log + entries)[..i] == log + Take(entries, after);
  }

  /** Over any number of launches and resets, with any pattern of failures. */
  lemma {:induction false} HistoryInOrder(steps: seq<SeedStep>, sessions: seq<Session>)
    requires Ascending(steps) && forall i :: 0 <= i < |steps| ==> ValidStep(steps[i])
    ensures InOrder(Versions(steps), History(steps, sessions))
  {
    if sessions == [] {
    } else {
      HistoryInOrder(steps, sessions[..|sessions| - 1]);
      SessionInOrder(steps, History(steps, sessions[..|sessions| - 1]), Last(sessions));
    }
  }

  lemma MarkerOf(steps: seq<SeedStep>, log: seq<Entry>)
    requires InOrder(Versions(steps), log) && forall i :: 0 <= i < |steps| ==> ValidStep(steps[i])
    ensures var k := |Recorded(log)|;
            && k <= |steps| && Recorded(log) == Versions(steps)[..k]
            && AppliedVersion(MarkerAfter(log)) == if k == 0 then 0 else steps[k - 1].schemaVersion
  {
    var k := |Recorded(log)|;
    RecordedIsPrefix(Versions(steps), log);
    MarkerIsLastRecorded(steps, log);
    assert k > 0 ==> Last(Recorded(log)) == Versions(steps)[k - 1];
  }

  /** The stored marker is 0 or the version of the last step of a recorded initial part. */
  lemma MarkerIsOfPrefix(steps: seq<SeedStep>, sessions: seq<Session>)
    requires Ascending(steps) && forall i :: 0 <= i < |steps| ==> ValidStep(steps[i])
    ensures var log := History(steps, sessions);
            var k := |Recorded(log)|;
            && k <= |steps| && Recorded(log) == Versions(steps)[..k]
            && AppliedVersion(MarkerAfter(log)) == if k == 0 then 0 else steps[k - 1].schemaVersion
  {
    HistoryInOrder(steps, sessions);
    MarkerOf(steps, History(steps, sessions));
  }

  ghost predicate NoResetSince(log: seq<Entry>, i: nat) {
    forall j :: i <= j < |log| ==> !log[j].Reset?
  }

  lemma {:induction false} RecordedIff(log: seq<Entry>, version: int)
    ensures version in Recorded(log) <==>
            exists i :: 0 <= i < |log| && log[i] == Record(version) && NoResetSince(log, i)
  {
    if log == [] {
    } else {
      var front, last := log[..|log| - 1], Last(log);
      RecordedIff(front, version);
      if version in Recorded(front) && !last.Reset? {
        var i :| 0 <= i < |front| && front[i] == Record(version) && NoResetSince(front, i);
        assert log[i] == Record(version) && NoResetSince(log, i);
      }
      if i :| 0 <= i < |log| && log[i] == Record(version) && NoResetSince(log, i) {
        if i < |front| {
          assert front[i] == Record(version);
          assert NoResetSince(front, i) by {
            assert forall j :: i <= j < |front| ==> front[j] == log[j];
          }
        }
      }
      if last == Record(version) {
        assert log[|front|] == Record(version) && NoResetSince(log, |front|);
      }
    }
  }

  /** A step is attempted only when every earlier one is recorded, and it is not: since the last reset. */
  lemma AttemptedInTurn(steps: seq<SeedStep>, sessions: seq<Session>, i: nat, other: int)
    requires Ascending(steps) && forall j :: 0 <= j < |steps| ==> ValidStep(steps[j])
    requires i < |History(steps, sessions)| && History(steps, sessions)[i].Attempt? && other in Versions(steps)
    ensures var log := History(steps, sessions);
            log[i].version in Versions(steps)
            && ((exists r :: 0 <= r < i && log[r] == Record(other) && NoResetSince(log[..i], r))
                <==> other < log[i].version)
  {
    var log, versions := History(steps, sessions), Versions(steps);
    HistoryInOrder(steps, sessions);
    PrefixInOrder(versions, log, i);
    RecordedIsPrefix(versions, log[..i]);
    assert AllowedAt(versions, log, i);
    RecordedIff(log[..i], other);
    var k := |Recorded(log[..i])|;
    var j :| 0 <= j < |versions| && versions[j] == other;
    assert other in versions[..k] <==> j < k;
    if other in Recorded(log[..i]) {
      var r :| 0 <= r < i && log[..i][r] == Record(other) && NoResetSince(log[..i], r);
      assert log[r] == Record(other);
    }
    if r :| 0 <= r < i && log[r] == Record(other) && NoResetSince(log[..i], r) {
      assert log[..i][r] == Record(other);
    }
  }

  function CountAttempts(log: seq<Entry>): nat {
    if log == [] then 0 else (if log[0].Attempt? then 1 else 0) + CountAttempts(log[1..])
  }

  function AllAttempts(steps: seq<SeedStep>): int {
    if steps == [] then 0
    else 1 + (if steps[0].retries.Some? then steps[0].retries.value else 0) + AllAttempts(steps[1..])
  }

  lemma {:induction false} CountConcat(a: seq<Entry>, b: seq<Entry>)
    ensures CountAttempts(a + b) == CountAttempts(a) + CountAttempts(b)
  {
    if a == [] {
      assert a + b == b;
    } else {
      assert (a + b)[1..] == a[1..] + b;
      CountConcat(a[1..], b);
    }
  }

  lemma {:induction false} AttemptsAreBounded(step: SeedStep, launch: Launch, attempt: nat)
    requires attempt <= MaxAttempts(step)
    ensures CountAttempts(Attempts(step, launch, attempt).0) <= MaxAttempts(step) - attempt
    decreases MaxAttempts(step) - attempt
  {
    if attempt < MaxAttempts(step) && !launch.succeeds(step.schemaVersion, attempt) {
      AttemptsAreBounded(step, launch, attempt + 1);
      var attempts := Attempts(step, launch, attempt).0;
      assert attempts[1..] == Attempts(step, launch, attempt + 1).0;
    }
  }

  lemma {:induction false} PendingIsBounded(pending: seq<SeedStep>, launch: Launch, stepsRun: seq<int>)
    requires forall i :: 0 <= i < |pending| ==> ValidStep(pending[i])
    ensures CountAttempts(RunPending(pending, launch, stepsRun)) <= AllAttempts(pending)
  {
    if pending == [] {
    } else {
      var attempts := Attempts(pending[0], launch, 0).0;
      var (entries, recorded) := StepEntries(pending[0], launch);
      AttemptsAreBounded(pending[0], launch, 0);
      CountConcat(attempts, [Last(entries)]);
      assert entries == attempts + [Last(entries)] && [Last(entries)][1..] == [];
      PendingIsBounded(pending[1..], launch, stepsRun + [pending[0].schemaVersion]);
      if recorded {
        CountConcat(entries, RunPending(pending[1..], launch, stepsRun + [pending[0].schemaVersion]));
      } else {
        NoNegative(pending[1..]);
      }
    }
  }

  lemma {:induction false} NoNegative(steps: seq<SeedStep>)
    requires forall i :: 0 <= i < |steps| ==> ValidStep(steps[i])
    ensures AllAttempts(steps) >= 0
  {
    if steps == [] {
    } else {
      NoNegative(steps[1..]);
    }
  }

  lemma {:induction false} PendingIsFewer(steps: seq<SeedStep>, applied: nat)
    requires forall i :: 0 <= i < |steps| ==> ValidStep(steps[i])
    ensures AllAttempts(Pending(steps, applied)) <= AllAttempts(steps)
    ensures forall i :: 0 <= i < |Pending(steps, applied)| ==> ValidStep(Pending(steps, applied)[i])
  {
    if steps == [] {
    } else {
      PendingIsFewer(steps[1..], applied);
      if steps[0].schemaVersion > applied {
        assert Pending(steps, applied)[1..] == Pending(steps[1..], applied);
      } else {
        assert Pending(steps, applied) == Pending(steps[1..], applied);
      }
    }
  }

  /** One launch makes at most one attempt and the retries of each step. */
  lemma LaunchIsBounded(steps: seq<SeedStep>, marker: Option<string>, launch: Launch)
    requires forall i :: 0 <= i < |steps| ==> ValidStep(steps[i])
    ensures CountAttempts(Launched(steps, marker, launch)) <= AllAttempts(steps)
  {
    if launch.readable {
      PendingIsFewer(steps, AppliedVersion(marker));
      PendingIsBounded(Pending(steps, AppliedVersion(marker)), launch, []);
    } else {
      assert [Failed(0)][1..] == [];
      NoNegative(steps);
    }
  }

  predicate Ends(e: Entry) {
    e.Done? || e.Failed?
  }

  lemma {:induction false} AttemptsDoNotEnd(step: SeedStep, launch: Launch, attempt: nat)
    ensures forall e :: e in Attempts(step, launch, attempt).0 ==> e.Attempt?
    decreases MaxAttempts(step) - attempt
  {
    if attempt < MaxAttempts(step) && !launch.succeeds(step.schemaVersion, attempt) {
      AttemptsDoNotEnd(step, launch, attempt + 1);
    }
  }

  /** One launch ends once, with a failure or with `onDone`, which then reports every pending step as run. */
  lemma {:induction false} EndsOnce(pending: seq<SeedStep>, launch: Launch, stepsRun: seq<int>)
    ensures var entries := RunPending(pending, launch, stepsRun);
            && entries != [] && Ends(Last(entries))
            && (forall e :: e in entries[..|entries| - 1] ==> !Ends(e))
            && (Last(entries).Done? ==> Last(entries) == Done(stepsRun + Versions(pending)))
  {
    var all := RunPending(pending, launch, stepsRun);
    if pending == [] {
      assert Versions(pending) == [];
    } else {
      var (entries, recorded) := StepEntries(pending[0], launch);
      AttemptsDoNotEnd(pending[0], launch, 0);
      assert entries == Attempts(pending[0], launch, 0).0 + [Last(entries)];
      if recorded {
        var version := pending[0].schemaVersion;
        EndsOnce(pending[1..], launch, stepsRun + [version]);
        var rest := RunPending(pending[1..], launch, stepsRun + [version]);
        assert all == entries + rest && all[..|all| - 1] == entries + rest[..|rest| - 1];
        assert stepsRun + [version] + Versions(pending[1..]) == stepsRun + Versions(pending);
      }
    }
  }

  // ---- How often a step is attempted ----

  function FailedAttempts(version: int, n: nat): seq<Entry> {
    if n == 0 then [] else FailedAttempts(version, n - 1) + [Attempt(version, false)]
  }

  lemma {:induction false} OneFailureMore(version: int, n: nat)
    ensures [Attempt(version, false)] + FailedAttempts(version, n) == FailedAttempts(version, n + 1)
  {
    if n == 0 {
    } else {
      OneFailureMore(version, n - 1);
      assert [Attempt(version, false)] + FailedAttempts(version, n)
          == [Attempt(version, false)] + FailedAttempts(version, n - 1) + [Attempt(version, false)];
    }
  }

  /** Attempt `k` is the first one that succeeds. */
  ghost predicate FirstSuccess(launch: Launch, version: int, k: nat) {
    launch.succeeds(version, k) && forall a: nat :: a < k ==> !launch.succeeds(version, a)
  }

  lemma {:induction false} AttemptsUntilSuccess(step: SeedStep, launch: Launch, k: nat, attempt: nat)
    requires FirstSuccess(launch, step.schemaVersion, k) && attempt <= k
    requires k <= if step.retries.Some? then step.retries.value else 0
    ensures Attempts(step, launch, attempt) ==
            (FailedAttempts(step.schemaVersion, k - attempt) + [Attempt(step.schemaVersion, true)], true)
    decreases k - attempt
  {
    if attempt == k {
      assert FailedAttempts(step.schemaVersion, 0) + [Attempt(step.schemaVersion, true)]
          == [Attempt(step.schemaVersion, true)];
    } else {
      AttemptsUntilSuccess(step, launch, k, attempt + 1);
      OneFailureMore(step.schemaVersion, k - attempt - 1);
      var later := FailedAttempts(step.schemaVersion, k - attempt - 1) + [Attempt(step.schemaVersion, true)];
      assert [Attempt(step.schemaVersion, false)] + later
          == FailedAttempts(step.schemaVersion, k - attempt) + [Attempt(step.schemaVersion, true)];
    }
  }

  lemma {:induction false} AttemptsWithoutSuccess(step: SeedStep, launch: Launch, retries: nat, attempt: nat)
    requires retries == (if step.retries.Some? then step.retries.value else 0) && attempt <= retries + 1
    requires forall a: nat :: a <= retries ==> !launch.succeeds(step.schemaVersion, a)
    ensures Attempts(step, launch, attempt) == (FailedAttempts(step.schemaVersion, retries + 1 - attempt), false)
    decreases retries + 1 - attempt
  {
    if attempt == retries + 1 {
    } else {
      AttemptsWithoutSuccess(step, launch, retries, attempt + 1);
      OneFailureMore(step.schemaVersion, retries - attempt);
    }
  }

  lemma {:induction false} FirstOf(launch: Launch, version: int, a: nat) returns (k: nat)
    requires launch.succeeds(version, a)
    ensures k <= a && FirstSuccess(launch, version, k)
  {
    k := a;
    if b: nat :| b < a && launch.succeeds(version, b) {
      k := FirstOf(launch, version, b);
    }
  }

  /** A step is attempted until an attempt succeeds, but at most once more than it has retries: after the first
      success it is recorded if the marker can be written; without one it fails after all those attempts. */
  lemma StepIsRetried(step: SeedStep, launch: Launch)
    requires ValidStep(step)
    ensures var version, retries := step.schemaVersion, if step.retries.Some? then step.retries.value else 0;
            var (entries, recorded) := StepEntries(step, launch);
            && (forall k: nat :: k <= retries && FirstSuccess(launch, version, k) ==>
                  && entries == FailedAttempts(version, k) + [Attempt(version, true)]
                                + [if launch.recordable(version) then Record(version) else Failed(version)]
                  && recorded == launch.recordable(version))
            && ((forall a: nat :: a <= retries ==> !launch.succeeds(version, a)) ==>
                  !recorded && entries == FailedAttempts(version, retries + 1) + [Failed(version)])
            && (Last(entries) == Failed(version) && launch.recordable(version) ==>
                  entries == FailedAttempts(version, retries + 1) + [Failed(version)])
  {
    var version, retries := step.schemaVersion, if step.retries.Some? then step.retries.value else 0;
    if a: nat :| a <= retries && launch.succeeds(version, a) {
      var first := FirstOf(launch, version, a);
      AttemptsUntilSuccess(step, launch, first, 0);
      assert forall k: nat :: FirstSuccess(launch, version, k) ==> k == first;
    } else {
      AttemptsWithoutSuccess(step, launch, retries, 0);
    }
  }

  function LogOf(steps: seq<SeedStep>, launch: Launch): seq<Entry> {
    if steps == [] then [] else StepEntries(steps[0], launch).0 + LogOf(steps[1..], launch)
  }

  /** The pending steps run one after the other until one is not recorded, and are then all done. */
  lemma {:induction false} PendingRunUntil(pending: seq<SeedStep>, launch: Launch, stepsRun: seq<int>)
    returns (n: nat)
    ensures n <= |pending| && forall i :: 0 <= i < n ==> StepEntries(pending[i], launch).1
    ensures if n == |pending|
            then RunPending(pending, launch, stepsRun) == LogOf(pending, launch) + [Done(stepsRun + Versions(pending))]
            else !StepEntries(pending[n], launch).1
                 && RunPending(pending, launch, stepsRun) == LogOf(pending[..n + 1], launch)
  {
    if pending == [] {
      n := 0;
      assert stepsRun + Versions(pending) == stepsRun;
    } else {
      var rest, version := pending[1..], pending[0].schemaVersion;
      if StepEntries(pending[0], launch).1 {
        n := PendingRunUntil(rest, launch, stepsRun + [version]);
        assert stepsRun + [version] + Versions(rest) == stepsRun + Versions(pending);
        assert n < |rest| ==> pending[..n + 2][1..] == rest[..n + 1];
        n := n + 1;
      } else {
        n := 0;
        assert pending[..1][1..] == [];
        assert LogOf(pending[..1], launch) == StepEntries(pending[0], launch).0;
      }
    }
  }

  lemma {:induction false} PendingAreLater(steps: seq<SeedStep>, applied: nat)
    ensures forall step :: step in Pending(steps, applied) <==> step in steps && step.schemaVersion > applied
  {
    if steps == [] {
    } else {
      PendingAreLater(steps[1..], applied);
    }
  }

  /** A launch whose marker cannot be read fails at once; any other runs exactly the steps of later versions
      than the marker's, in turn, until one is not recorded. */
  lemma LaunchRunsPending(steps: seq<SeedStep>, marker: Option<string>, launch: Launch)
    returns (pending: seq<SeedStep>, n: nat)
    ensures forall step :: step in pending <==> step in steps && step.schemaVersion > AppliedVersion(marker)
    ensures Ascending(steps) ==> exists k :: 0 <= k <= |steps| && pending == steps[k..]
    ensures n <= |pending| && forall i :: 0 <= i < n ==> StepEntries(pending[i], launch).1
    ensures Launched(steps, marker, launch) ==
            if !launch.readable then [Failed(0)]
            else if n == |pending| then LogOf(pending, launch) + [Done(Versions(pending))]
            else LogOf(pending[..n + 1], launch)
    ensures n < |pending| ==> !StepEntries(pending[n], launch).1
  {
    var applied := AppliedVersion(marker);
    pending := Pending(steps, applied);
    PendingAreLater(steps, applied);
    n := PendingRunUntil(pending, launch, []);
    assert [] + Versions(pending) == Versions(pending);
    if Ascending(steps) {
      var k := FirstPending(steps, applied);
      PendingAreTheRest(steps, k, applied);
    }
  }

  lemma {:induction false} FirstPending(steps: seq<SeedStep>, applied: nat) returns (k: nat)
    requires Ascending(steps)
    ensures k <= |steps|
    ensures forall i :: 0 <= i < k ==> steps[i].schemaVersion <= applied
    ensures forall i :: k <= i < |steps| ==> steps[i].schemaVersion > applied
  {
    if steps == [] || steps[0].schemaVersion > applied {
      k := 0;
    } else {
      k := FirstPending(steps[1..], applied);
      k := k + 1;
      assert forall i :: k <= i < |steps| ==> steps[i] == steps[1..][i - 1];
      assert forall i :: 0 < i < k ==> steps[i] == steps[1..][i - 1];
    }
  }
}
