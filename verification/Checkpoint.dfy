/** The checkpointed results file (benchmark/src/benchmark.cpp,
    benchmark/include/svs-benchmark/benchmark.h, benchmark/include/svs-benchmark/executable.h):
    what is on disk at every point a crash may leave behind, and what writes that fail do to it. */
module Checkpointing {
  import opened Common

  /** The exceptions of a run. */
  datatype Failure = NotAnArray | JobThrew | SaveThrew

  // ----- Tables

  /** A report lists what was measured. */
  datatype Report = Report(entries: seq<string>)
  datatype Node = Text(text: string) | Array(reports: seq<Report>)
  type Table = map<string, Node>

  const START := "start_time"
  const STOP := "stop_time"

  /** The reports under a key; none if there is no array. */
  function ReportsAt(table: Table, key: string): seq<Report> {
    if key in table && table[key].Array? then table[key].reports else []
  }

  /** `result` is `table` with one more report at the end of the array under `key`. */
  ghost predicate HasOneMore(table: Table, data: Report, key: string, result: Table) {
    && result.Keys == table.Keys + {key}
    && result[key] == Array(ReportsAt(table, key) + [data])
    && forall other :: other in table && other != key ==> result[other] == table[other]
  }

  /** `append_or_create`: it throws exactly when the key holds something that is no array. */
  method AppendOrCreate(table: Table, data: Report, key: string) returns (r: Result<Table, Failure>)
    ensures r.Err? <==> key in table && table[key].Text?
    ensures r.Err? ==> r.error == NotAnArray
    ensures r.Ok? ==> HasOneMore(table, data, key, r.value)
    ensures r == Appended(table, data, key)
  {
    if key in table {
      match table[key]
      case Array(reports) => return Ok(table[key := Array(reports + [data])]);
      case Text(_) => return Err(NotAnArray);
    }
    return Ok(table[key := Array([data])]);
  }

  function Appended(table: Table, data: Report, key: string): Result<Table, Failure> {
    if key in table && table[key].Text? then Err(NotAnArray)
    else Ok(table[key := Array(ReportsAt(table, key) + [data])])
  }

  // ----- Paths

  datatype Path = Path(parent: string, filename: string)

  /** The start of the extension: the last dot, unless it comes first. */
  function ExtensionAt(filename: string, n: nat): (at: nat)
    requires n <= |filename|
    ensures at <= |filename|
  {
    if n <= 1 then |filename|
    else if filename[n - 1] == '.' then n - 1
    else ExtensionAt(filename, n - 1)
  }

  function TempPath(path: Path): Path {
    var at := ExtensionAt(path.filename, |path.filename|);
    Path(path.parent, path.filename[..at] + "_temp" + path.filename[at..])
  }

  lemma TempIsAnother(path: Path)
    ensures TempPath(path) != path
  {
    assert |TempPath(path).filename| == |path.filename| + 5;
  }

  /** The temporary name: `_temp` between what stands before the last dot, unless that is the first
      character, and the rest. */
  lemma TempPathIs(path: Path) returns (stem: string, extension: string)
    ensures path.filename == stem + extension
    ensures TempPath(path) == Path(path.parent, stem + "_temp" + extension)
    ensures extension != [] ==> stem != [] && extension[0] == '.' && '.' !in extension[1..]
    ensures extension == [] ==> forall i :: 1 <= i < |path.filename| ==> path.filename[i] != '.'
  {
    var at := ExtensionAt(path.filename, |path.filename|);
    LastDot(path.filename, |path.filename|);
    return path.filename[..at], path.filename[at..];
  }

  lemma {:induction false} LastDot(filename: string, n: nat)
    requires n <= |filename|
    ensures var at := ExtensionAt(filename, n);
      && (forall i :: 1 <= i < n && (at < i || at == |filename|) ==> filename[i] != '.')
      && (at < |filename| ==> 0 < at < n && filename[at] == '.')
  {
    if n > 1 && filename[n - 1] != '.' {
      LastDot(filename, n - 1);
    }
  }

  // ----- The disk

  /** The contents of a file: a whole table, or something cut short. */
  datatype Content = Whole(table: Table) | Partial
  type Files = map<Path, Content>

  /** The files, and every state they have been in: a crash leaves one of these behind. */
  class Disk {
    var files: Files
    ghost var states: seq<Files>

    /** Open for writing; what is written until the last write is something cut short. */
    method OpenWrite(path: Path)
      modifies this
      ensures files == old(files)[path := Partial] && states == old(states) + [files]
    {
      files := files[path := Partial];
      states := states + [files];
    }

    method WriteAll(path: Path, table: Table)
      modifies this
      ensures files == old(files)[path := Whole(table)] && states == old(states) + [files]
    {
      files := files[path := Whole(table)];
      states := states + [files];
    }

    /** The atomic move. */
    method Rename(from: Path, to: Path)
      requires from in files && from != to
      modifies this
      ensures files == (old(files) - {from})[to := old(files)[from]] && states == old(states) + [files]
    {
      files := (files - {from})[to := files[from]];
      states := states + [files];
    }
  }

  function Lookup(files: Files, path: Path): Option<Content> {
    if path in files then Some(files[path]) else None
  }

  ghost predicate SameBut(a: Files, b: Files, except: set<Path>) {
    forall path :: path !in except ==> Lookup(a, path) == Lookup(b, path)
  }

  /** How a save fares. It throws if the directory is missing, or if the move fails. That the stream
      does not open, or fails before everything is written, goes unnoticed. */
  datatype Fate = NoDirectory | Tried(opens: bool, inFull: bool, moves: bool)

  const Complete := Tried(true, true, true)

  /** What a save moves into place, given a temporary file left over from before; nothing if it
      throws. */
  function Published(fate: Fate, table: Table, leftover: Option<Content>): Option<Content> {
    match fate
    case NoDirectory => None
    case Tried(opens, inFull, moves) =>
      if !moves then None
      else if !opens then leftover
      else if inFull then Some(Whole(table))
      else Some(Partial)
  }

  /** What a save does to the disk: the states it passes through, and what it leaves. */
  datatype Effect = Effect(passed: seq<Files>, moved: bool, after: Files)

  function StatesOf(save: Effect): seq<Files> {
    save.passed + if save.moved then [save.after] else []
  }

  /** A save of a table: it passes through states in which only the temporary file differs; then
      what it publishes is in place and the temporary file gone, or it throws. */
  ghost predicate IsSave(before: Files, table: Table, path: Path, fate: Fate, save: Effect) {
    var temp := TempPath(path);
    var published := Published(fate, table, Lookup(before, temp));
    && (save.moved <==> published.Some?)
    && (forall i :: 0 <= i < |save.passed| ==> SameBut(save.passed[i], before, {temp}))
    && (save.moved ==>
      && SameBut(save.after, before, {temp, path})
      && Lookup(save.after, path) == published && Lookup(save.after, temp) == None)
    && (!save.moved ==> save.after == ([before] + save.passed)[|save.passed|])
  }

  /** `atomic_save`. It does not look at its stream before the move. */
  method AtomicSave(disk: Disk, table: Table, path: Path, fate: Fate) returns (moved: bool, ghost save: Effect)
    modifies disk
    ensures IsSave(old(disk.files), table, path, fate, save) && moved == save.moved && disk.files == save.after
    ensures disk.states == old(disk.states) + StatesOf(save)
  {
    var temp := TempPath(path);
    TempIsAnother(path);
    ghost var passed: seq<Files> := [];
    if fate.NoDirectory? {
      return false, Effect(passed, false, disk.files);
    }
    if fate.opens {
      disk.OpenWrite(temp);
      passed := [disk.files];
      if fate.inFull {
        disk.WriteAll(temp, table);
        passed := passed + [disk.files];
      }
    }
    if !fate.moves || temp !in disk.files {
      return false, Effect(passed, false, disk.files);
    }
    disk.Rename(temp, path);
    return true, Effect(passed, true, disk.files);
  }

  // ----- Checkpoints

  class Checkpoint {
    const data: Table
    const filename: Option<Path>

    constructor (data: Table, filename: Option<Path>)
      ensures this.data == data && this.filename == filename
    {
      this.data := data;
      this.filename := filename;
    }

    /** `checkpoint`: a copy of the table with one more report is saved in its place. */
    method Save(disk: Disk, newData: Report, key: string, fate: Fate)
      returns (r: Result<bool, Failure>, ghost save: Effect)
      modifies disk
      ensures r == Ok(false) <==> filename.None?
      ensures r == Err(NotAnArray) <==> filename.Some? && key in data && data[key].Text?
      ensures r == Ok(false) || r == Err(NotAnArray) ==>
        disk.files == old(disk.files) && disk.states == old(disk.states)
      ensures r != Ok(false) && r != Err(NotAnArray) ==>
        && r == (if save.moved then Ok(true) else Err(SaveThrew))
        && IsSave(old(disk.files), Appended(data, newData, key).value, filename.value, fate, save)
        && disk.files == save.after && disk.states == old(disk.states) + StatesOf(save)
    {
      save := Effect([], false, disk.files);
      if filename.None? {
        return Ok(false), save;
      }
      var copy := AppendOrCreate(data, newData, key);
      if copy.Err? {
        return Err(NotAnArray), save;
      }
      var moved;
      moved, save := AtomicSave(disk, copy.value, filename.value, fate);
      r := if moved then Ok(true) else Err(SaveThrew);
    }
  }

  // ----- Runs

  /** A job saves its growing report after each of some measurements, and ends with a report or
      throws. A job that measures all at once saves nothing on the way. */
  datatype Job = Job(measured: seq<string>, outcome: Option<Report>)

  /** The report as it is saved after measurement `j`. */
  function Partially(job: Job, j: nat): Report
    requires j < |job.measured|
  {
    Report(job.measured[..j + 1])
  }

  datatype Run = Run(
    dest: Path, before: Option<Content>, jobs: seq<Job>, name: string, checkpointKey: string, started: string,
    stopped: string)

  ghost predicate Ended(run: Run, k: nat) {
    k <= |run.jobs| && forall i :: 0 <= i < k ==> run.jobs[i].outcome.Some?
  }

  /** The reports of the first `k` jobs. */
  ghost function Reports(run: Run, k: nat): (reports: seq<Report>)
    requires Ended(run, k)
    ensures |reports| == k
  {
    seq(k, i requires 0 <= i < k => run.jobs[i].outcome.value)
  }

  /** The results in memory after `k` jobs. */
  ghost function Results(run: Run, k: nat): Table
    requires Ended(run, k)
  {
    var started := map[START := Text(run.started)];
    if k == 0 then started else started[run.name := Array(Reports(run, k))]
  }

  ghost function Final(run: Run): Table
    requires Ended(run, |run.jobs|)
  {
    var results := Results(run, |run.jobs|);
    if STOP in results then results else results[STOP := Text(run.stopped)]
  }

  /** What the results file shows: what was there before the run, the results of some jobs with
      one partial report of the next, the results of some jobs, the end of the run, or something
      other than the table that a save was to put there, and missed. */
  datatype Stage =
    | Before | During(job: nat, partial: nat) | After(jobs: nat) | Stopped | Torn(shown: int, missed: Table)

  ghost predicate AtStage(run: Run, content: Option<Content>, stage: Stage) {
    match stage
    case Before => content == run.before
    case During(k, j) =>
      && Ended(run, k) && k < |run.jobs| && j < |run.jobs[k].measured|
      && var table := Appended(Results(run, k), Partially(run.jobs[k], j), run.checkpointKey);
         table.Ok? && content == Some(Whole(table.value))
    case After(k) => 0 < k && Ended(run, k) && run.name != START && content == Some(Whole(Results(run, k)))
    case Stopped =>
      Ended(run, |run.jobs|) && (run.jobs != [] ==> run.name != START) && content == Some(Whole(Final(run)))
    case Torn(_, missed) => content.Some? && content != Some(Whole(missed))
  }

  /** How many jobs the stage shows, or should; nothing is shown before the first save. */
  function Shown(run: Run, stage: Stage): int {
    match stage
    case Before => -1
    case During(k, _) => k
    case After(k) => k
    case Stopped => |run.jobs|
    case Torn(k, _) => k
  }

  ghost predicate PointFits(run: Run, was: Files, files: Files, stage: Stage) {
    && SameBut(files, was, {TempPath(run.dest), run.dest})
    && AtStage(run, Lookup(files, run.dest), stage)
  }

  /** The states of the disk in order, and the stage each of them shows. */
  datatype Trail = Trail(files: seq<Files>, stages: seq<Stage>)

  ghost predicate AllFit(run: Run, was: Files, trail: Trail) {
    && |trail.files| == |trail.stages|
    && forall i :: 0 <= i < |trail.files| ==> PointFits(run, was, trail.files[i], trail.stages[i])
  }

  /** No stage shows fewer jobs than an earlier one. */
  ghost predicate InOrder(run: Run, stages: seq<Stage>) {
    forall i, j :: 0 <= i <= j < |stages| ==> Shown(run, stages[i]) <= Shown(run, stages[j])
  }

  // ----- Saves of a run

  /** The table the first save is to publish, if the run gets there. */
  ghost function FirstTable(run: Run): Table {
    if run.jobs == [] then Final(run)
    else if run.jobs[0].measured != [] then
      var appended := Appended(Results(run, 0), Partially(run.jobs[0], 0), run.checkpointKey);
      if appended.Ok? then appended.value else map[]
    else if run.jobs[0].outcome.Some? then Results(run, 1)
    else map[]
  }

  /** A run on a disk, the table of its first save, and how its saves fare, numbered from zero. */
  datatype Setting = Setting(run: Run, was: Files, base: seq<Files>, first: Table, fates: nat -> Fate)

  /** The temporary file that save `n` finds: the first may find one from before the run. */
  function LeftoverAt(s: Setting, n: nat): Option<Content> {
    if n == 0 then Lookup(s.was, TempPath(s.run.dest)) else None
  }

  /** Save `n` does not throw. */
  predicate GoesThrough(s: Setting, n: nat) {
    Published(s.fates(n), map[], LeftoverAt(s, n)).Some?
  }

  /** What save `n` publishes, if anything, is its own table. Only the first may find a file left
      over, so only its table matters. */
  predicate Clean(s: Setting, n: nat) {
    GoesThrough(s, n) ==> Published(s.fates(n), s.first, LeftoverAt(s, n)) == Some(Whole(s.first))
  }

  /** What save `n` publishes, if anything, was written in full. */
  predicate InFull(s: Setting, n: nat) {
    Published(s.fates(n), map[], LeftoverAt(s, n)) != Some(Partial)
  }

  ghost predicate AllThrough(s: Setting, n: nat) {
    forall m :: 0 <= m < n ==> GoesThrough(s, m)
  }

  ghost predicate AllClean(s: Setting, n: nat) {
    forall m :: 0 <= m < n ==> Clean(s, m)
  }

  ghost predicate AllInFull(s: Setting, n: nat) {
    forall m :: 0 <= m < n ==> InFull(s, m)
  }

  predicate OldOrWhole(before: Option<Content>, content: Option<Content>) {
    content == before || (content.Some? && content.value.Whole?)
  }

  ghost predicate NoneTorn(stages: seq<Stage>) {
    forall i :: 0 <= i < |stages| ==> !stages[i].Torn?
  }

  ghost predicate AllOldOrWhole(run: Run, files: seq<Files>) {
    forall i :: 0 <= i < |files| ==> OldOrWhole(run.before, Lookup(files[i], run.dest))
  }

  /** No state of the trail is torn exactly if every save published its own table or nothing, and
      every state is old or whole exactly if everything published was written in full. */
  ghost predicate Judged(s: Setting, trail: Trail, n: nat) {
    && (NoneTorn(trail.stages) <==> AllClean(s, n))
    && (s.run.before != Some(Partial) ==> (AllOldOrWhole(s.run, trail.files) <==> AllInFull(s, n)))
  }

  /** The trail starts from the files before the run, ends with those now on disk, and holds every
      state in between. */
  ghost predicate Joins(s: Setting, files: Files, states: seq<Files>, trail: Trail) {
    && |trail.files| == |trail.stages| > 0
    && trail.files[0] == s.was && Last(trail) == files
    && states == s.base + trail.files[1..]
  }

  function Last(trail: Trail): Files
    requires trail.files != []
  {
    trail.files[|trail.files| - 1]
  }

  function LastStage(trail: Trail): Stage
    requires trail.stages != []
  {
    trail.stages[|trail.stages| - 1]
  }

  /** The trail of a run after `n` saves. */
  ghost predicate Tracks(s: Setting, files: Files, states: seq<Files>, trail: Trail, n: nat) {
    && Joins(s, files, states, trail)
    && AllFit(s.run, s.was, trail) && InOrder(s.run, trail.stages) && Judged(s, trail, n)
  }

  /** No save has thrown so far, save `n` finds the temporary file it should, and nothing later is
      shown than it will show. */
  ghost predicate Ready(s: Setting, files: Files, trail: Trail, n: nat, shown: int) {
    && Lookup(files, TempPath(s.run.dest)) == LeftoverAt(s, n)
    && trail.stages != [] && Shown(s.run, LastStage(trail)) <= shown && AllThrough(s, n)
    && s.first == FirstTable(s.run)
  }

  /** Save `n - 1`, one of those below the limit, has thrown. */
  ghost predicate Stuck(s: Setting, n: nat, limit: nat) {
    0 < n <= limit && !GoesThrough(s, n - 1)
  }

  // ----- One more save

  /** The states a save passes through still show what was shown; then it shows `next`. */
  ghost function MoreStages(now: Stage, save: Effect, next: Stage): (stages: seq<Stage>)
    ensures |stages| == |StatesOf(save)|
    ensures forall i :: 0 <= i < |save.passed| ==> stages[i] == now
    ensures save.moved ==> stages[|save.passed|] == next
  {
    seq(|save.passed|, i => now) + if save.moved then [next] else []
  }

  ghost function Longer(trail: Trail, save: Effect, next: Stage): Trail
    requires trail.stages != []
  {
    Trail(trail.files + StatesOf(save), trail.stages + MoreStages(LastStage(trail), save, next))
  }

  lemma LongerFits(run: Run, was: Files, trail: Trail, save: Effect, next: Stage)
    requires trail.stages != [] && AllFit(run, was, trail)
    requires forall i :: 0 <= i < |save.passed| ==> PointFits(run, was, save.passed[i], LastStage(trail))
    requires save.moved ==> PointFits(run, was, save.after, next)
    ensures AllFit(run, was, Longer(trail, save, next))
  {
  }

  lemma LongerInOrder(run: Run, stages: seq<Stage>, save: Effect, next: Stage)
    requires stages != [] && InOrder(run, stages)
    requires save.moved ==> Shown(run, stages[|stages| - 1]) <= Shown(run, next)
    ensures InOrder(run, stages + MoreStages(stages[|stages| - 1], save, next))
  {
  }

  lemma LongerTorn(stages: seq<Stage>, save: Effect, next: Stage)
    requires stages != []
    ensures NoneTorn(stages + MoreStages(stages[|stages| - 1], save, next))
      <==> NoneTorn(stages) && (save.moved ==> !next.Torn?)
  {
    var now, more := stages[|stages| - 1], stages + MoreStages(stages[|stages| - 1], save, next);
    if NoneTorn(more) {
      assert forall i :: 0 <= i < |stages| ==> stages[i] == more[i];
      assert save.moved ==> next == more[|stages| + |save.passed|];
    }
  }

  lemma LongerOldOrWhole(run: Run, files: seq<Files>, save: Effect)
    requires files != []
    requires forall i :: 0 <= i < |save.passed| ==>
      Lookup(save.passed[i], run.dest) == Lookup(files[|files| - 1], run.dest)
    ensures AllOldOrWhole(run, files + StatesOf(save))
      <==> AllOldOrWhole(run, files) && (save.moved ==> OldOrWhole(run.before, Lookup(save.after, run.dest)))
  {
    var more := files + StatesOf(save);
    if AllOldOrWhole(run, more) {
      assert forall i :: 0 <= i < |files| ==> files[i] == more[i];
      assert save.moved ==> save.after == more[|files| + |save.passed|];
    }
  }

  lemma LongerJoins(s: Setting, files: Files, states: seq<Files>, trail: Trail, save: Effect, next: Stage)
    requires Joins(s, files, states, trail)
    requires !save.moved ==> save.after == ([files] + save.passed)[|save.passed|]
    ensures Joins(s, save.after, states + StatesOf(save), Longer(trail, save, next))
  {
    TailOfMore(s.base, trail.files, StatesOf(save));
    LastOfMore(trail.files, save);
  }

  lemma TailOfMore<T>(base: seq<T>, all: seq<T>, more: seq<T>)
    requires all != []
    ensures base + all[1..] + more == base + (all + more)[1..]
  {
    assert (all + more)[1..] == all[1..] + more;
  }

  lemma LastOfMore(files: seq<Files>, save: Effect)
    requires files != []
    requires !save.moved ==> save.after == ([files[|files| - 1]] + save.passed)[|save.passed|]
    ensures var all := files + StatesOf(save); all[|all| - 1] == save.after
  {
  }

  /** What a save passes through shows what was shown, and what it leaves shows what it should. */
  lemma SaveFits(s: Setting, files: Files, stage: Stage, n: nat, table: Table, save: Effect, next: Stage)
    requires PointFits(s.run, s.was, files, stage) && IsSave(files, table, s.run.dest, s.fates(n), save)
    requires Lookup(files, TempPath(s.run.dest)) == LeftoverAt(s, n) && AtStage(s.run, Some(Whole(table)), next)
    ensures forall i :: 0 <= i < |save.passed| ==> PointFits(s.run, s.was, save.passed[i], stage)
    ensures save.moved ==> PointFits(s.run, s.was, save.after, Shows(s, n, table, next))
  {
    TempIsAnother(s.run.dest);
  }

  /** What save `n` of a table shows when it goes through: by what it publishes. */
  ghost function Shows(s: Setting, n: nat, table: Table, next: Stage): Stage {
    if Published(s.fates(n), table, LeftoverAt(s, n)) == Some(Whole(table)) then next
    else Torn(Shown(s.run, next), table)
  }

  lemma SaveMoves(s: Setting, files: Files, n: nat, table: Table, save: Effect)
    requires Lookup(files, TempPath(s.run.dest)) == LeftoverAt(s, n)
    requires IsSave(files, table, s.run.dest, s.fates(n), save)
    ensures forall i :: 0 <= i < |save.passed| ==> Lookup(save.passed[i], s.run.dest) == Lookup(files, s.run.dest)
    ensures save.moved <==> GoesThrough(s, n)
    ensures save.moved && s.run.before != Some(Partial) ==>
      (OldOrWhole(s.run.before, Lookup(save.after, s.run.dest)) <==> InFull(s, n))
    ensures !save.moved ==> InFull(s, n)
  {
    TempIsAnother(s.run.dest);
  }

  lemma TornIff(s: Setting, n: nat, table: Table, next: Stage)
    requires !next.Torn? && (n == 0 ==> table == s.first)
    ensures (GoesThrough(s, n) ==> !Shows(s, n, table, next).Torn?) <==> Clean(s, n)
  {
  }

  /** How one more save changes the verdict on a trail. */
  lemma SaveJudged(s: Setting, trail: Trail, n: nat, table: Table, save: Effect, next: Stage)
    requires trail.files != [] && trail.stages != [] && Judged(s, trail, n) && !next.Torn?
    requires Lookup(Last(trail), TempPath(s.run.dest)) == LeftoverAt(s, n)
    requires IsSave(Last(trail), table, s.run.dest, s.fates(n), save) && (n == 0 ==> table == s.first)
    ensures Judged(s, Longer(trail, save, Shows(s, n, table, next)), n + 1)
  {
    assert AllClean(s, n + 1) <==> AllClean(s, n) && Clean(s, n);
    assert AllInFull(s, n + 1) <==> AllInFull(s, n) && InFull(s, n);
    SaveMoves(s, Last(trail), n, table, save);
    TornIff(s, n, table, next);
    LongerTorn(trail.stages, save, Shows(s, n, table, next));
    LongerOldOrWhole(s.run, trail.files, save);
  }

  /** The next save is ready unless this one threw. */
  lemma NextReady(s: Setting, files: Files, trail: Trail, n: nat, table: Table, save: Effect, next: Stage)
    requires Ready(s, files, trail, n, Shown(s.run, next))
    requires IsSave(files, table, s.run.dest, s.fates(n), save)
    ensures save.moved <==> GoesThrough(s, n)
    ensures save.moved ==>
      Ready(s, save.after, Longer(trail, save, Shows(s, n, table, next)), n + 1, Shown(s.run, next))
  {
  }

  /** One more save extends the trail. */
  lemma OneMoreSave(s: Setting, files: Files, states: seq<Files>, trail: Trail, n: nat, table: Table,
      save: Effect, next: Stage)
    requires Tracks(s, files, states, trail, n) && Ready(s, files, trail, n, Shown(s.run, next)) && !next.Torn?
    requires IsSave(files, table, s.run.dest, s.fates(n), save) && AtStage(s.run, Some(Whole(table)), next)
    requires n == 0 ==> table == s.first
    ensures Tracks(s, save.after, states + StatesOf(save), Longer(trail, save, Shows(s, n, table, next)), n + 1)
  {
    SaveFits(s, files, LastStage(trail), n, table, save, next);
    LongerFits(s.run, s.was, trail, save, Shows(s, n, table, next));
    LongerInOrder(s.run, trail.stages, save, Shows(s, n, table, next));
    LongerJoins(s, files, states, trail, save, Shows(s, n, table, next));
    SaveJudged(s, trail, n, table, save, next);
  }

  // ----- Results

  /** Appending a job's report to the results works out unless the name is that of the start
      time, which is no array. */
  lemma AppendedResults(run: Run, k: nat)
    requires Ended(run, k) && k < |run.jobs| && run.jobs[k].outcome.Some? && (k > 0 ==> run.name != START)
    ensures Appended(Results(run, k), run.jobs[k].outcome.value, run.name)
      == if run.name == START then Err(NotAnArray) else Ok(Results(run, k + 1))
    ensures Ended(run, k + 1)
    ensures run.name != START ==> AtStage(run, Some(Whole(Results(run, k + 1))), After(k + 1))
  {
    var report := run.jobs[k].outcome.value;
    assert Reports(run, k + 1) == Reports(run, k) + [report];
    var started := map[START := Text(run.started)];
    if k == 0 {
      assert Reports(run, 1) == [report];
    } else {
      assert started[run.name := Array(Reports(run, k))][run.name := Array(Reports(run, k + 1))]
        == started[run.name := Array(Reports(run, k + 1))];
    }
  }

  /** The job ends with a report, and its partial reports can be appended. */
  ghost predicate Succeeds(run: Run, k: nat)
    requires Ended(run, k) && k < |run.jobs|
  {
    && run.jobs[k].outcome.Some?
    && (run.jobs[k].measured != [] ==> Appended(Results(run, k), Partially(run.jobs[k], 0), run.checkpointKey).Ok?)
  }

  /** The first `k` jobs succeed, and their results can be appended. */
  ghost predicate Worked(run: Run, k: nat)
    ensures Worked(run, k) ==> Ended(run, k) && (k > 0 ==> run.name != START)
  {
    k <= |run.jobs| && (k == 0 || (Worked(run, k - 1) && run.name != START && Succeeds(run, k - 1)))
  }

  ghost predicate Completes(run: Run) {
    Worked(run, |run.jobs|)
  }

  lemma {:induction false} WorkedBefore(run: Run, k: nat, n: nat)
    requires k <= n && Worked(run, n)
    ensures Worked(run, k)
  {
    if k < n {
      WorkedBefore(run, k, n - 1);
    }
  }

  /** How many saves the first `k` jobs make. */
  ghost function SavesBefore(run: Run, k: nat): nat
    requires k <= |run.jobs|
  {
    if k == 0 then 0 else SavesBefore(run, k - 1) + |run.jobs[k - 1].measured| + 1
  }

  /** Each job makes at least one. */
  lemma {:induction false} SavesGrow(run: Run, k: nat, n: nat)
    requires k <= n <= |run.jobs|
    ensures SavesBefore(run, k) + (n - k) <= SavesBefore(run, n)
  {
    if k < n {
      SavesGrow(run, k, n - 1);
    }
  }

  /** `run_job`: the job saves its partial reports through its checkpoint and ends. */
  method RunJob(disk: Disk, results: Table, job: Job, dest: Path, checkpointKey: string, fates: nat -> Fate,
      first: nat, ghost s: Setting, ghost trail: Trail, ghost k: nat)
    returns (r: Result<Report, Failure>, n: nat, ghost longer: Trail)
    requires k <= first
    requires Tracks(s, disk.files, disk.states, trail, first) && Ready(s, disk.files, trail, first, k)
    requires Ended(s.run, k) && k < |s.run.jobs| && job == s.run.jobs[k] && results == Results(s.run, k)
    requires dest == s.run.dest && checkpointKey == s.run.checkpointKey && fates == s.fates
    modifies disk
    ensures Tracks(s, disk.files, disk.states, longer, n)
    ensures r.Ok? ==> Ready(s, disk.files, longer, n, k) && n == first + |job.measured|
    ensures r.Ok? ==> Succeeds(s.run, k) && job.outcome == Some(r.value)
    ensures r.Err? ==> !Succeeds(s.run, k) || Stuck(s, n, first + |job.measured|)
  {
    hide Tracks;
    var checkpoint := new Checkpoint(results, Some(dest));
    n, longer := first, trail;
    var report := Report([]);
    for j := 0 to |job.measured|
      invariant n == first + j && report == Report(job.measured[..j])
      invariant Tracks(s, disk.files, disk.states, longer, n) && Ready(s, disk.files, longer, n, k)
      invariant j > 0 ==> Appended(results, Partially(job, 0), checkpointKey).Ok?
    {
      ghost var files, states := disk.files, disk.states;
      report := Report(report.entries + [job.measured[j]]);
      assert report == Partially(job, j);
      var saved;
      ghost var save;
      saved, save := checkpoint.Save(disk, report, checkpointKey, fates(n));
      if saved == Err(NotAnArray) {
        return Err(NotAnArray), n, longer;
      }
      ghost var table := Appended(results, report, checkpointKey).value;
      NextReady(s, files, longer, n, table, save, During(k, j));
      OneMoreSave(s, files, states, longer, n, table, save, During(k, j));
      longer, n := Longer(longer, save, Shows(s, n, table, During(k, j))), n + 1;
      if saved.Err? {
        return Err(saved.error), n, longer;
      }
    }
    if job.outcome.None? {
      return Err(JobThrew), n, longer;
    }
    return Ok(job.outcome.value), n, longer;
  }

  /** `atomic_save` of the results of a run. */
  method SaveResults(disk: Disk, results: Table, dest: Path, fate: Fate, ghost s: Setting,
      ghost trail: Trail, ghost n: nat, ghost next: Stage)
    returns (moved: bool, ghost longer: Trail)
    requires Tracks(s, disk.files, disk.states, trail, n) && Ready(s, disk.files, trail, n, Shown(s.run, next))
    requires dest == s.run.dest && fate == s.fates(n)
    requires AtStage(s.run, Some(Whole(results)), next) && !next.Torn? && (n == 0 ==> results == s.first)
    modifies disk
    ensures Tracks(s, disk.files, disk.states, longer, n + 1) && (moved <==> GoesThrough(s, n))
    ensures moved ==> Ready(s, disk.files, longer, n + 1, Shown(s.run, next))
    ensures moved ==> LastStage(longer) == Shows(s, n, results, next)
  {
    ghost var files, states := disk.files, disk.states;
    ghost var save;
    moved, save := AtomicSave(disk, results, dest, fate);
    NextReady(s, files, trail, n, results, save, next);
    OneMoreSave(s, files, states, trail, n, results, save, next);
    longer := Longer(trail, save, Shows(s, n, results, next));
  }

  /** One turn of the loop over the jobs: the job runs, and its report is appended and saved. */
  method RunAndAppend(disk: Disk, results: Table, job: Job, dest: Path, name: string, checkpointKey: string,
      fates: nat -> Fate, first: nat, ghost s: Setting, ghost trail: Trail, ghost k: nat)
    returns (r: Result<Table, Failure>, n: nat, ghost longer: Trail)
    requires k <= first
    requires Tracks(s, disk.files, disk.states, trail, first) && Ready(s, disk.files, trail, first, k)
    requires Worked(s.run, k) && k < |s.run.jobs| && job == s.run.jobs[k] && results == Results(s.run, k)
    requires dest == s.run.dest && name == s.run.name && checkpointKey == s.run.checkpointKey && fates == s.fates
    modifies disk
    ensures Tracks(s, disk.files, disk.states, longer, n)
    ensures r.Ok? ==> Ready(s, disk.files, longer, n, k + 1) && n == first + |job.measured| + 1
    ensures r.Ok? ==> Worked(s.run, k + 1) && r.value == Results(s.run, k + 1)
    ensures r.Err? ==> !Worked(s.run, k + 1) || Stuck(s, n, first + |job.measured| + 1)
  {
    hide Tracks;
    var report;
    report, n, longer := RunJob(disk, results, job, dest, checkpointKey, fates, first, s, trail, k);
    if report.Err? {
      return Err(report.error), n, longer;
    }
    AppendedResults(s.run, k);
    var appended := AppendOrCreate(results, report.value, name);
    if appended.Err? {
      return appended, n, longer;
    }
    var moved;
    moved, longer := SaveResults(disk, appended.value, dest, fates(n), s, longer, n, After(k + 1));
    n := n + 1;
    r := if moved then appended else Err(SaveThrew);
  }

  ghost function SettingOf(disk: Disk, run: Run, fates: nat -> Fate): Setting
    reads disk
  {
    var now := run.(before := Lookup(disk.files, run.dest));
    Setting(now, disk.files, disk.states, FirstTable(now), fates)
  }

  lemma TrailStarts(s: Setting)
    requires s.run.before == Lookup(s.was, s.run.dest) && s.first == FirstTable(s.run)
    ensures Tracks(s, s.was, s.base, Trail([s.was], [Before]), 0)
    ensures Ready(s, s.was, Trail([s.was], [Before]), 0, 0)
  {
  }

  /** `run_jobs` after its early exits. */
  method RunAll(disk: Disk, dest: Path, jobs: seq<Job>, name: string, checkpointKey: string, started: string,
      stopped: string, fates: nat -> Fate, ghost s: Setting)
    returns (r: Result<nat, Failure>, ghost trail: Trail, ghost n: nat)
    requires s == SettingOf(disk, Run(dest, None, jobs, name, checkpointKey, started, stopped), fates)
    modifies disk
    ensures Tracks(s, disk.files, disk.states, trail, n)
    ensures r.Ok? <==> Completes(s.run) && AllThrough(s, SavesBefore(s.run, |jobs|) + 1)
    ensures r.Ok? ==> r.value == 0 && n == SavesBefore(s.run, |jobs|) + 1
    ensures r.Ok? ==> LastStage(trail) == Shows(s, n - 1, Final(s.run), Stopped)
  {
    hide Tracks;
    TrailStarts(s);
    trail := Trail([disk.files], [Before]);
    var results: Table := map[START := Text(started)];
    var saves := 0;
    for k := 0 to |jobs|
      invariant Tracks(s, disk.files, disk.states, trail, saves) && Ready(s, disk.files, trail, saves, k)
      invariant Worked(s.run, k) && results == Results(s.run, k)
      invariant saves == SavesBefore(s.run, k)
    {
      SavesGrow(s.run, 0, k);
      var next;
      next, saves, trail :=
        RunAndAppend(disk, results, jobs[k], dest, name, checkpointKey, fates, saves, s, trail, k);
      if next.Err? {
        RunFails(s, k, saves);
        return Err(next.error), trail, saves;
      }
      results := next.value;
    }
    if STOP !in results {
      results := results[STOP := Text(stopped)];
    }
    SavesGrow(s.run, 0, |jobs|);
    var moved;
    moved, trail := SaveResults(disk, results, dest, fates(saves), s, trail, saves, Stopped);
    n := saves + 1;
    r := if moved then Ok(0) else Err(SaveThrew);
  }

  lemma RunFails(s: Setting, k: nat, n: nat)
    requires k < |s.run.jobs| && (!Worked(s.run, k + 1) || Stuck(s, n, SavesBefore(s.run, k + 1)))
    ensures !Completes(s.run) || !AllThrough(s, SavesBefore(s.run, |s.run.jobs|) + 1)
  {
    SavesGrow(s.run, k + 1, |s.run.jobs|);
    if Completes(s.run) {
      WorkedBefore(s.run, k + 1, |s.run.jobs|);
    }
  }

  /** `run_jobs`: at every state of the disk the results file shows a stage of the run. An
      exception leaves the last of these states. */
  method RunJobs(disk: Disk, checked: bool, resultsPath: Option<Path>, jobs: seq<Job>, name: string,
      checkpointKey: string, started: string, stopped: string, fates: nat -> Fate)
    returns (r: Result<nat, Failure>, ghost trail: Trail, ghost n: nat)
    modifies disk
    ensures !checked || resultsPath.None? ==>
      disk.files == old(disk.files) && disk.states == old(disk.states) && r == Ok(if checked then 0 else 1)
    ensures checked && resultsPath.Some? ==>
      var run := Run(resultsPath.value, None, jobs, name, checkpointKey, started, stopped);
      var s := old(SettingOf(disk, run, fates));
      && Tracks(s, disk.files, disk.states, trail, n)
      && (r.Ok? <==> Completes(s.run) && AllThrough(s, SavesBefore(s.run, |jobs|) + 1))
      && (r.Ok? ==> r.value == 0 && n == SavesBefore(s.run, |jobs|) + 1)
      && (r.Ok? ==> LastStage(trail) == Shows(s, n - 1, Final(s.run), Stopped))
  {
    if !checked {
      return Ok(1), Trail([], []), 0;
    }
    if resultsPath.None? {
      return Ok(0), Trail([], []), 0;
    }
    ghost var run := Run(resultsPath.value, None, jobs, name, checkpointKey, started, stopped);
    r, trail, n := RunAll(disk, resultsPath.value, jobs, name, checkpointKey, started, stopped, fates,
      SettingOf(disk, run, fates));
  }

  // ----- What the tables hold

  /** The results after `k` jobs: the time of the start and, under the name of the run, the reports
      of those jobs in order. */
  lemma ResultsHold(run: Run, k: nat)
    requires Ended(run, k) && run.name != START
    ensures Results(run, k).Keys == {"start_time"} + if k > 0 then {run.name} else {}
    ensures Results(run, k)["start_time"] == Text(run.started)
    ensures |ReportsAt(Results(run, k), run.name)| == k
    ensures forall i :: 0 <= i < k ==> run.jobs[i].outcome == Some(ReportsAt(Results(run, k), run.name)[i])
  {
  }

  /** The last table holds these results, and the time of the end unless the name of the run has
      taken its key. */
  lemma FinalHolds(run: Run)
    requires Ended(run, |run.jobs|) && run.name != START
    ensures Final(run).Keys == Results(run, |run.jobs|).Keys + {"stop_time"}
    ensures forall key :: key in Results(run, |run.jobs|) ==> Final(run)[key] == Results(run, |run.jobs|)[key]
    ensures run.name != "stop_time" || run.jobs == [] ==> Final(run)["stop_time"] == Text(run.stopped)
  {
    ResultsHold(run, |run.jobs|);
  }

  /** A save that fares well publishes its table. */
  lemma CompleteSaveIsWhole(before: Files, table: Table, path: Path, save: Effect)
    requires IsSave(before, table, path, Tried(true, true, true), save)
    ensures save.moved && Lookup(save.after, path) == Some(Whole(table))
    ensures forall i :: 0 <= i < |save.passed| ==> Lookup(save.passed[i], path) == Lookup(before, path)
  {
    TempIsAnother(path);
  }

  /** What the other fates leave: a stream that does not open publishes the file left over, if there
      is one; without the directory nothing happens; a move that fails publishes nothing. */
  lemma OtherSaves(before: Files, table: Table, path: Path, fate: Fate, save: Effect)
    requires IsSave(before, table, path, fate, save)
    ensures fate == NoDirectory ==> !save.moved
    ensures fate.Tried? && !fate.moves ==> !save.moved
    ensures fate.Tried? && fate.moves && !fate.opens ==>
      if TempPath(path) in before then
        save.moved && path in save.after && save.after[path] == before[TempPath(path)]
      else !save.moved
    ensures fate.Tried? && fate.moves && fate.opens ==>
      save.moved && Lookup(save.after, path) == Some(if fate.inFull then Whole(table) else Partial)
    ensures !save.moved ==>
      forall other :: other != TempPath(path) ==> Lookup(save.after, other) == Lookup(before, other)
  {
    TempIsAnother(path);
  }

  // ----- What a crash leaves

  /** The file holds the reports, in order, at the head of the run's array. */
  ghost predicate Holds(content: Option<Content>, name: string, reports: seq<Report>) {
    reports == [] ||
      (content.Some? && content.value.Whole? && reports <= ReportsAt(content.value.table, name))
  }

  lemma StageHolds(run: Run, content: Option<Content>, stage: Stage, k: nat)
    requires AtStage(run, content, stage) && !stage.Torn? && k <= Shown(run, stage)
    ensures Ended(run, k) && Holds(content, run.name, Reports(run, k))
  {
    if k > 0 {
      var n := Shown(run, stage);
      assert Reports(run, k) <= Reports(run, n);
    }
  }

  /** What is saved stays: at every later state that is not torn the file holds all the reports it
      was to hold at an earlier state of the same run. */
  lemma SavedStays(run: Run, was: Files, trail: Trail, i: nat, j: nat, k: nat)
    requires AllFit(run, was, trail) && InOrder(run, trail.stages)
    requires i <= j < |trail.stages| && k <= Shown(run, trail.stages[i])
    requires !trail.stages[j].Torn?
    ensures Ended(run, k) && Holds(Lookup(trail.files[j], run.dest), run.name, Reports(run, k))
  {
    assert PointFits(run, was, trail.files[j], trail.stages[j]);
    StageHolds(run, Lookup(trail.files[j], run.dest), trail.stages[j], k);
  }

  /** At every state that is not torn the file is what was there before the run, or a whole table
      that holds the reports shown and at most one more. */
  lemma ShownAndOneMore(run: Run, was: Files, trail: Trail, i: nat)
    requires AllFit(run, was, trail) && InOrder(run, trail.stages) && i < |trail.stages| && !trail.stages[i].Torn?
    ensures var content, k := Lookup(trail.files[i], run.dest), Shown(run, trail.stages[i]);
      if k < 0 then content == run.before
      else
        && content.Some? && content.value.Whole?
        && Ended(run, k) && Holds(content, run.name, Reports(run, k))
        && |ReportsAt(content.value.table, run.name)| <= k + 1
  {
    assert PointFits(run, was, trail.files[i], trail.stages[i]);
    if Shown(run, trail.stages[i]) >= 0 {
      StageHolds(run, Lookup(trail.files[i], run.dest), trail.stages[i], Shown(run, trail.stages[i]));
    }
  }

  /** While a job runs, the file shows the results before it and what it has measured so far. */
  lemma GrowingReportShown(run: Run, content: Option<Content>, k: nat, j: nat)
    requires AtStage(run, content, During(k, j))
    ensures var shown := ReportsAt(content.value.table, run.checkpointKey);
      && shown == ReportsAt(Results(run, k), run.checkpointKey) + [Partially(run.jobs[k], j)]
      && shown[|shown| - 1].entries <= run.jobs[k].measured && |shown[|shown| - 1].entries| == j + 1
  {
  }

  /** One input: a save that is cut short replaces a whole table and reports nothing. */
  lemma CutShortIsPublished(path: Path, earlier: Table, table: Table)
    ensures var before: Files := map[path := Whole(earlier)];
      && var after: Files := map[path := Partial];
      var passed: seq<Files> := [before[TempPath(path) := Partial]];
      && IsSave(before, table, path, Tried(true, false, true), Effect(passed, true, after))
      && !OldOrWhole(Lookup(before, path), Lookup(after, path))
  {
    TempIsAnother(path);
  }
}
