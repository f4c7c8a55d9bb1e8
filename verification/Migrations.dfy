/** The lock-guarded migration loop, run by any number of processes that may crash at any point. */
module Migrations {
  import opened Util

  // ----- File names and versions -----

  const DIRECTORY: string := "migrations/"
  const SUFFIX: string := ".sql"

  function TrimPrefix(s: string, prefix: string): string {
    if prefix <= s then s[|prefix|..] else s
  }

  function TrimSuffix(s: string, suffix: string): string {
    if |suffix| <= |s| && s[|s| - |suffix|..] == suffix then s[..|s| - |suffix|] else s
  }

  function VersionOf(path: string): string { TrimSuffix(TrimPrefix(path, DIRECTORY), SUFFIX) }

  function PathOf(name: string): string { DIRECTORY + name + SUFFIX }

  lemma VersionOfPath(name: string)
    ensures VersionOf("migrations/" + name + ".sql") == name && VersionOf(PathOf(name)) == name
  {
    assert PathOf(name)[|DIRECTORY|..] == name + SUFFIX;
    assert (name + SUFFIX)[|name|..] == SUFFIX;
    assert (name + SUFFIX)[..|name|] == name;
  }

  /** The paths of the embedded files. */
  function Paths(names: seq<string>): (paths: seq<string>)
    ensures |paths| == |names| && forall i :: 0 <= i < |names| ==> paths[i] == PathOf(names[i])
  {
    seq(|names|, i requires 0 <= i < |names| => PathOf(names[i]))
  }

  /** The versions that a sequence of files carries. */
  function Versions(paths: seq<string>): (vs: seq<string>)
    ensures |vs| == |paths| && forall i :: 0 <= i < |paths| ==> vs[i] == VersionOf(paths[i])
  {
    seq(|paths|, i requires 0 <= i < |paths| => VersionOf(paths[i]))
  }

  predicate Distinct(s: seq<string>) { forall i, j :: 0 <= i < j < |s| ==> s[i] != s[j] }

  lemma VersionsOfPaths(names: seq<string>)
    ensures Versions(Paths(names)) == names
  {
    forall i | 0 <= i < |names| ensures Versions(Paths(names))[i] == names[i] { VersionOfPath(names[i]); }
  }

  // ----- The order of the files -----

  /** Byte-wise order of strings, as the source sorts the file list. */
  predicate AtMost(a: string, b: string) {
    a == "" || (b != "" && (a[0] < b[0] || (a[0] == b[0] && AtMost(a[1..], b[1..]))))
  }

  lemma {:induction false} AtMostTotal(a: string, b: string)
    ensures AtMost(a, b) || AtMost(b, a)
    ensures AtMost(a, b) && AtMost(b, a) ==> a == b
    decreases |a|
  {
    if a != "" && b != "" {
      AtMostTotal(a[1..], b[1..]);
      assert a == [a[0]] + a[1..] && b == [b[0]] + b[1..];
    }
  }

  lemma {:induction false} AtMostTransitive(a: string, b: string, c: string)
    requires AtMost(a, b) && AtMost(b, c)
    ensures AtMost(a, c)
    decreases |a|
  {
    if a != "" && a[0] == b[0] && b[0] == c[0] { AtMostTransitive(a[1..], b[1..], c[1..]); }
  }

  predicate Ascending(s: seq<string>) { forall i, j :: 0 <= i < j < |s| ==> AtMost(s[i], s[j]) }

  function Insert(x: string, s: seq<string>): seq<string> {
    if s == [] || AtMost(x, s[0]) then [x] + s else [s[0]] + Insert(x, s[1..])
  }

  function Sort(s: seq<string>): seq<string> {
    if s == [] then [] else Insert(s[0], Sort(s[1..]))
  }

  lemma {:induction false} InsertSorted(x: string, s: seq<string>)
    requires Ascending(s)
    ensures Ascending(Insert(x, s)) && multiset(Insert(x, s)) == multiset(s) + multiset{x}
    decreases |s|
  {
    if s == [] {
    } else if AtMost(x, s[0]) {
      forall j | 0 <= j < |s| ensures AtMost(x, s[j]) {
        if j > 0 { AtMostTransitive(x, s[0], s[j]); }
      }
    } else {
      InsertSorted(x, s[1..]);
      AtMostTotal(x, s[0]);
      var rest := Insert(x, s[1..]);
      assert s == [s[0]] + s[1..];
      forall j | 0 <= j < |rest| ensures AtMost(s[0], rest[j]) {
        assert rest[j] in multiset(rest);
        if rest[j] != x {
          assert rest[j] in multiset(s[1..]);
          var k :| 0 <= k < |s[1..]| && s[1..][k] == rest[j];
          assert AtMost(s[0], s[k + 1]);
        }
      }
    }
  }

  /** Sorting keeps the files and puts them in order. */
  lemma {:induction false} SortSorts(s: seq<string>)
    ensures Ascending(Sort(s)) && multiset(Sort(s)) == multiset(s)
    decreases |s|
  {
    if s != [] {
      SortSorts(s[1..]);
      InsertSorted(s[0], Sort(s[1..]));
      assert s == [s[0]] + s[1..];
    }
  }

  lemma CountOfDistinct(s: seq<string>, x: string)
    requires Distinct(s)
    ensures multiset(s)[x] <= 1
  {
    if i :| 0 <= i < |s| && s[i] == x {
      assert s == s[..i] + [x] + s[i + 1..];
      assert x !in s[..i] && x !in s[i + 1..];
    }
  }

  lemma DistinctBySameCount(s: seq<string>, t: seq<string>)
    requires Distinct(s) && multiset(t) == multiset(s)
    ensures Distinct(t)
  {
    forall i, j | 0 <= i < j < |t| ensures t[i] != t[j] {
      CountOfDistinct(s, t[i]);
      assert t == t[..i] + [t[i]] + t[i + 1..j] + [t[j]] + t[j + 1..];
    }
  }

  /** The file list that a runner works through: the embedded files, sorted by path. */
  function FileList(names: seq<string>): seq<string> { Sort(Paths(names)) }

  lemma FileListDistinct(names: seq<string>)
    requires Distinct(names)
    ensures Distinct(Versions(FileList(names))) && Ascending(FileList(names)) && multiset(FileList(names)) == multiset(Paths(names))
  {
    var paths, files := Paths(names), FileList(names);
    SortSorts(paths);
    forall i, j | 0 <= i < j < |paths| ensures paths[i] != paths[j] {
      VersionOfPath(names[i]);
      VersionOfPath(names[j]);
    }
    DistinctBySameCount(paths, files);
    forall i, j | 0 <= i < j < |files| ensures Versions(files)[i] != Versions(files)[j] {
      assert files[i] in multiset(files) && files[j] in multiset(files);
      assert files[i] in paths && files[j] in paths;
      var a :| 0 <= a < |names| && files[i] == PathOf(names[a]);
      var b :| 0 <= b < |names| && files[j] == PathOf(names[b]);
      VersionOfPath(names[a]);
      VersionOfPath(names[b]);
    }
  }

  // ----- The protocol -----

  /** A runner is before file i, or inside the transaction for file i, or done. */
  datatype Runner =
    | Before(i: nat)
    | Locked(i: nat)
    | Known(i: nat, applied: bool)
    | Executed(i: nat)
    | Recorded(i: nat)
    | Finished
    | Failed
  {
    predicate InTransaction() { Locked? || Known? || Executed? || Recorded? }
  }

  /** What a transaction has done and nobody else sees yet: scripts it ran, versions it inserted. */
  datatype Writes = Writes(scripts: seq<string>, versions: seq<string>)

  const NOTHING: Writes := Writes([], [])

  /**
   schema: paths of the scripts whose effects are committed, in order; versions: committed rows of schema_migrations, in
   order; open: the uncommitted writes of each runner's transaction.
   */
  datatype State = State(schema: seq<string>, versions: seq<string>, open: map<nat, Writes>, holder: Option<nat>, runners: map<nat, Runner>)

  const INITIAL: State := State([], [], map[], None, map[])

  datatype Step =
    | Start(r: nat)
    | Lock(r: nat)
    | Check(r: nat)
    | Skip(r: nat)
    | Execute(r: nat)
    | RecordVersion(r: nat)
    | Commit(r: nat, acknowledged: bool)
    | Finish(r: nat)
    | Crash(r: nat)

  predicate At(s: State, r: nat, p: Runner) { r in s.runners && s.runners[r] == p }

  function Open(s: State, r: nat): Writes { if r in s.open then s.open[r] else NOTHING }

  predicate Enabled(files: seq<string>, s: State, step: Step) {
    match step
    case Start(r) => r in s.runners ==> s.runners[r].Finished? || s.runners[r].Failed?
    case Lock(r) => r in s.runners && s.runners[r].Before? && s.runners[r].i < |files| && s.holder.None?
    case Check(r) => r in s.runners && s.runners[r].Locked? && s.runners[r].i < |files|
    case Skip(r) => r in s.runners && s.runners[r].Known? && s.runners[r].applied
    case Execute(r) => r in s.runners && s.runners[r].Known? && !s.runners[r].applied && s.runners[r].i < |files|
    case RecordVersion(r) => r in s.runners && s.runners[r].Executed? && s.runners[r].i < |files|
    case Commit(r, _) => r in s.runners && s.runners[r].Recorded?
    case Finish(r) => r in s.runners && s.runners[r].Before? && s.runners[r].i >= |files|
    case Crash(r) => r in s.runners
  }

  function Move(s: State, r: nat, p: Runner): State { s.(runners := s.runners[r := p]) }

  /** The transaction ends: its lock is released and what it has not published is gone. */
  function Leave(s: State, r: nat, p: Runner): State { Move(s, r, p).(holder := None, open := s.open - {r}) }

  /** The transaction's own writes become everybody's, whatever they are. */
  function Publish(s: State, w: Writes): State { s.(schema := s.schema + w.scripts, versions := s.versions + w.versions) }

  function Write(s: State, r: nat, w: Writes): State { s.(open := s.open[r := w]) }

  function Next(files: seq<string>, s: State, step: Step): State
    requires Enabled(files, s, step)
  {
    match step
    case Start(r) => Move(s, r, Before(0))
    case Lock(r) => Write(Move(s, r, Locked(s.runners[r].i)), r, NOTHING).(holder := Some(r))
    case Check(r) => Move(s, r, Known(s.runners[r].i, VersionOf(files[s.runners[r].i]) in s.versions + Open(s, r).versions))
    case Skip(r) => Leave(Publish(s, Open(s, r)), r, Before(s.runners[r].i + 1))
    case Execute(r) =>
      Write(Move(s, r, Executed(s.runners[r].i)), r, Writes(Open(s, r).scripts + [files[s.runners[r].i]], Open(s, r).versions))
    case RecordVersion(r) =>
      Write(Move(s, r, Recorded(s.runners[r].i)), r, Writes(Open(s, r).scripts, Open(s, r).versions + [VersionOf(files[s.runners[r].i])]))
    case Commit(r, acknowledged) =>
      Leave(Publish(s, Open(s, r)), r, if acknowledged then Before(s.runners[r].i + 1) else Failed)
    case Finish(r) => Move(s, r, Finished)
    case Crash(r) => if s.runners[r].InTransaction() then Leave(s, r, Failed) else Move(s, r, Failed)
  }

  predicate Legal(files: seq<string>, steps: seq<Step>)
    decreases |steps|, 0
  {
    steps == [] || (Legal(files, steps[..|steps| - 1]) && Enabled(files, Run(files, steps[..|steps| - 1]), steps[|steps| - 1]))
  }

  function Run(files: seq<string>, steps: seq<Step>): State
    requires Legal(files, steps)
    decreases |steps|, 1
  {
    if steps == [] then INITIAL else Next(files, Run(files, steps[..|steps| - 1]), steps[|steps| - 1])
  }

  // ----- The invariant -----

  /** What a runner's position says about the number of applied files and about its own open writes. */
  predicate RunnerOk(files: seq<string>, done: nat, p: Runner, w: Writes) {
    match p
    case Before(i) => i <= done
    case Locked(i) => i <= done && i < |files| && w == NOTHING
    case Known(i, applied) => i <= done && i < |files| && (applied <==> i < done) && w == NOTHING
    case Executed(i) => i == done < |files| && w == Writes([files[i]], [])
    case Recorded(i) => i == done < |files| && w == Writes([files[i]], [VersionOf(files[i])])
    case Finished => done == |files|
    case Failed => true
  }

  predicate Inv(files: seq<string>, s: State) {
    && |s.schema| <= |files| && s.schema == files[..|s.schema|] && s.versions == Versions(s.schema)
    && (forall r :: r in s.runners ==> RunnerOk(files, |s.schema|, s.runners[r], Open(s, r)))
    && (forall r :: r in s.runners && s.runners[r].InTransaction() ==> s.holder == Some(r))
  }

  lemma MemberOfPrefix(files: seq<string>, n: nat, i: nat)
    requires Distinct(Versions(files)) && n <= |files| && i < |files|
    ensures VersionOf(files[i]) in Versions(files[..n]) <==> i < n
  {
    var vs := Versions(files[..n]);
    if i < n { assert vs[i] == VersionOf(files[i]); }
    if VersionOf(files[i]) in vs {
      var j :| 0 <= j < n && vs[j] == VersionOf(files[i]);
      assert Versions(files)[j] == Versions(files)[i];
    }
  }

  lemma VersionsSnoc(schema: seq<string>, path: string)
    ensures Versions(schema + [path]) == Versions(schema) + [VersionOf(path)]
  {
  }

  lemma CommitInv(files: seq<string>, s: State, r: nat, acknowledged: bool)
    requires Inv(files, s) && Enabled(files, s, Commit(r, acknowledged))
    ensures Inv(files, Next(files, s, Commit(r, acknowledged)))
    ensures s.schema <= Next(files, s, Commit(r, acknowledged)).schema
  {
    var n := |s.schema|;
    var s' := Next(files, s, Commit(r, acknowledged));
    assert RunnerOk(files, n, s.runners[r], Open(s, r));
    assert files[..n] + [files[n]] == files[..n + 1];
    VersionsSnoc(s.schema, files[n]);
    forall x | x in s'.runners && x != r ensures RunnerOk(files, n + 1, s'.runners[x], Open(s', x)) {
      assert RunnerOk(files, n, s.runners[x], Open(s, x));
      assert !s.runners[x].InTransaction();
    }
  }

  lemma {:induction false} StepInv(files: seq<string>, s: State, step: Step)
    requires Distinct(Versions(files)) && Inv(files, s) && Enabled(files, s, step)
    ensures Inv(files, Next(files, s, step))
    ensures s.schema <= Next(files, s, step).schema
  {
    match step
    case Commit(r, acknowledged) => CommitInv(files, s, r, acknowledged);
    case _ => QuietInv(files, s, step);
  }

  /** Only a commit changes what others see. */
  lemma QuietInv(files: seq<string>, s: State, step: Step)
    requires Distinct(Versions(files)) && Inv(files, s) && Enabled(files, s, step) && !step.Commit?
    ensures Inv(files, Next(files, s, step)) && Next(files, s, step).schema == s.schema
  {
    var r, s' := step.r, Next(files, s, step);
    if r in s.runners { assert RunnerOk(files, |s.schema|, s.runners[r], Open(s, r)); }
    if step.Check? { MemberOfPrefix(files, |s.schema|, s.runners[r].i); }
    assert s'.schema == s.schema && s'.versions == s.versions;
    forall x | x in s'.runners ensures RunnerOk(files, |s.schema|, s'.runners[x], Open(s', x)) {
      if x != r { assert RunnerOk(files, |s.schema|, s.runners[x], Open(s, x)) && Open(s', x) == Open(s, x); }
    }
  }

  /**
   Under any interleaving of runners, crashes and lost commit acknowledgements: the scripts whose effects
   are visible are always a prefix of the file list, in order, each once; the recorded versions are
   exactly theirs; and a runner that finishes leaves everything applied.
   */
  lemma {:induction false} AppliedIsPrefix(names: seq<string>, steps: seq<Step>)
    requires Distinct(names) && Legal(Paths(names), steps)
    ensures var s := Run(Paths(names), steps);
            && s.schema <= Paths(names) && s.versions <= names && |s.schema| == |s.versions| && Distinct(s.versions)
            && (forall r :: r in s.runners && s.runners[r].Finished? ==> s.schema == Paths(names) && s.versions == names)
  {
    var files := Paths(names);
    VersionsOfPaths(names);
    RunInv(files, steps);
    var s := Run(files, steps);
    assert forall i :: 0 <= i < |s.schema| ==> s.versions[i] == VersionOf(files[i]) == Versions(files)[i];
    assert s.versions == names[..|s.schema|];
    forall r | r in s.runners && s.runners[r].Finished? ensures s.schema == files && s.versions == names {
      assert RunnerOk(files, |s.schema|, s.runners[r], Open(s, r));
    }
  }

  /**
   Whatever order the files were found in, scripts take effect in the order of their paths: what is committed is ascending, every
   committed script precedes every missing one, and once a runner has finished exactly the embedded files are committed.
   */
  lemma AppliedInOrder(names: seq<string>, steps: seq<Step>)
    requires Distinct(names) && Legal(FileList(names), steps)
    ensures var s := Run(FileList(names), steps);
            && s.schema <= FileList(names) && Ascending(s.schema) && s.versions == Versions(s.schema) && Distinct(s.versions)
            && (forall a, b :: a in s.schema && b in Paths(names) && b !in s.schema ==> AtMost(a, b))
            && (forall r :: r in s.runners && s.runners[r].Finished? ==> multiset(s.schema) == multiset(Paths(names)))
  {
    var files := FileList(names);
    FileListDistinct(names);
    RunInv(files, steps);
    var s := Run(files, steps);
    var n := |s.schema|;
    assert Versions(s.schema) == Versions(files)[..n];
    forall a, b | a in s.schema && b in Paths(names) && b !in s.schema ensures AtMost(a, b) {
      assert b in multiset(Paths(names)) && b in multiset(files);
      PrefixPrecedes(files, n, a, b);
    }
    forall r | r in s.runners && s.runners[r].Finished? ensures s.schema == files {
      assert RunnerOk(files, |s.schema|, s.runners[r], Open(s, r));
    }
  }

  lemma PrefixPrecedes(files: seq<string>, n: nat, a: string, b: string)
    requires Ascending(files) && n <= |files| && a in files[..n] && b in files && b !in files[..n]
    ensures AtMost(a, b)
  {
    assert forall x :: 0 <= x < n ==> files[x] == files[..n][x] && files[..n][x] in files[..n];
    var i :| 0 <= i < n && files[i] == a;
    var j :| 0 <= j < |files| && files[j] == b;
    assert j >= n;
  }

  lemma {:induction false} RunInv(files: seq<string>, steps: seq<Step>)
    requires Distinct(Versions(files)) && Legal(files, steps)
    ensures Inv(files, Run(files, steps))
    decreases |steps|
  {
    if steps != [] {
      RunInv(files, steps[..|steps| - 1]);
      StepInv(files, Run(files, steps[..|steps| - 1]), steps[|steps| - 1]);
    }
  }

  lemma {:induction false} LegalPrefix(files: seq<string>, steps: seq<Step>, more: seq<Step>)
    requires Legal(files, steps + more)
    ensures Legal(files, steps)
    decreases |more|
  {
    if more == [] {
      assert steps + more == steps;
    } else {
      assert (steps + more)[..|steps + more| - 1] == steps + more[..|more| - 1];
      LegalPrefix(files, steps, more[..|more| - 1]);
    }
  }

  /** Applied migrations are never undone, and once all are applied a rerun changes nothing. */
  lemma {:induction false} OnlyGrows(files: seq<string>, steps: seq<Step>, more: seq<Step>)
    requires Distinct(Versions(files)) && Legal(files, steps + more)
    ensures Legal(files, steps) && Run(files, steps).schema <= Run(files, steps + more).schema
    ensures Run(files, steps).schema == files ==> Run(files, steps + more).schema == files
    decreases |more|
  {
    LegalPrefix(files, steps, more);
    RunInv(files, steps + more);
    if more == [] {
      assert steps + more == steps;
    } else {
      var before := more[..|more| - 1];
      assert (steps + more)[..|steps + more| - 1] == steps + before;
      OnlyGrows(files, steps, before);
      RunInv(files, steps + before);
      StepInv(files, Run(files, steps + before), more[|more| - 1]);
    }
  }

  // ----- The loop as one process executes it -----

  lemma {:induction false} Extend(files: seq<string>, steps: seq<Step>, step: Step)
    requires Legal(files, steps) && Enabled(files, Run(files, steps), step)
    ensures Legal(files, steps + [step]) && Run(files, steps + [step]) == Next(files, Run(files, steps), step)
  {
    var all := steps + [step];
    assert all[..|all| - 1] == steps && all[|all| - 1] == step;
    assert Legal(files, all);
  }

  /** Steps of runner r only, none of them a failure. */
  predicate Smooth(more: seq<Step>, r: nat) {
    forall step :: step in more ==> step.r == r && !step.Crash? && (step.Commit? ==> step.acknowledged)
  }

  /** From where `steps` leads, runner r can go on alone to position p, with the lock free again. */
  ghost predicate Continues(files: seq<string>, steps: seq<Step>, more: seq<Step>, r: nat, p: Runner) {
    Legal(files, steps + more) && Smooth(more, r) && At(Run(files, steps + more), r, p)
  }

  lemma OneMore(files: seq<string>, steps: seq<Step>, more: seq<Step>, step: Step)
    requires Legal(files, steps + more) && Enabled(files, Run(files, steps + more), step)
    ensures Legal(files, steps + (more + [step])) && Run(files, steps + (more + [step])) == Next(files, Run(files, steps + more), step)
  {
    assert steps + (more + [step]) == steps + more + [step];
    Extend(files, steps + more, step);
  }

  lemma GoOn(files: seq<string>, steps: seq<Step>, more: seq<Step>, r: nat, p: Runner, step: Step, p': Runner)
    requires Continues(files, steps, more, r, p) && Enabled(files, Run(files, steps + more), step) && Smooth([step], r)
    requires At(Next(files, Run(files, steps + more), step), r, p')
    ensures Continues(files, steps, more + [step], r, p')
    ensures Run(files, steps + (more + [step])) == Next(files, Run(files, steps + more), step)
  {
    OneMore(files, steps, more, step);
    assert step in [step];
  }

  lemma PassFile(files: seq<string>, steps: seq<Step>, more: seq<Step>, r: nat, i: nat) returns (more': seq<Step>)
    requires Distinct(Versions(files)) && Continues(files, steps, more, r, Before(i)) && i < |files| && Run(files, steps + more).holder.None?
    ensures Continues(files, steps, more', r, Before(i + 1)) && Run(files, steps + more').holder.None?
  {
    var checked, applied := LockAndCheck(files, steps, more, r, i);
    if applied {
      GoOn(files, steps, checked, r, Known(i, true), Skip(r), Before(i + 1));
      more' := checked + [Skip(r)];
    } else {
      more' := ApplyFile(files, steps, checked, r, i);
    }
  }

  lemma LockAndCheck(files: seq<string>, steps: seq<Step>, more: seq<Step>, r: nat, i: nat) returns (more': seq<Step>, applied: bool)
    requires Continues(files, steps, more, r, Before(i)) && i < |files| && Run(files, steps + more).holder.None?
    ensures Continues(files, steps, more', r, Known(i, applied))
  {
    GoOn(files, steps, more, r, Before(i), Lock(r), Locked(i));
    var locked := more + [Lock(r)];
    applied := VersionOf(files[i]) in Run(files, steps + locked).versions + Open(Run(files, steps + locked), r).versions;
    GoOn(files, steps, locked, r, Locked(i), Check(r), Known(i, applied));
    more' := locked + [Check(r)];
  }

  lemma ApplyFile(files: seq<string>, steps: seq<Step>, more: seq<Step>, r: nat, i: nat) returns (more': seq<Step>)
    requires Continues(files, steps, more, r, Known(i, false)) && i < |files|
    ensures Continues(files, steps, more', r, Before(i + 1)) && Run(files, steps + more').holder.None?
  {
    GoOn(files, steps, more, r, Known(i, false), Execute(r), Executed(i));
    GoOn(files, steps, more + [Execute(r)], r, Executed(i), RecordVersion(r), Recorded(i));
    GoOn(files, steps, more + [Execute(r)] + [RecordVersion(r)], r, Recorded(i), Commit(r, true), Before(i + 1));
    more' := more + [Execute(r)] + [RecordVersion(r)] + [Commit(r, true)];
  }

  lemma {:induction false} PassFiles(files: seq<string>, steps: seq<Step>, more: seq<Step>, r: nat, i: nat) returns (more': seq<Step>)
    requires Distinct(Versions(files)) && Continues(files, steps, more, r, Before(i)) && i <= |files| && Run(files, steps + more).holder.None?
    ensures Continues(files, steps, more', r, Before(|files|))
    decreases |files| - i
  {
    if i == |files| {
      more' := more;
    } else {
      more' := PassFile(files, steps, more, r, i);
      more' := PassFiles(files, steps, more', r, i + 1);
    }
  }

  /**
   Whatever happened before, once the lock is free a runner that starts and is left alone gets through: it applies every missing
   file, skips the others, and finishes with everything applied.
   */
  lemma CanFinish(files: seq<string>, steps: seq<Step>, r: nat) returns (more: seq<Step>)
    requires Distinct(Versions(files)) && Legal(files, steps) && Run(files, steps).holder.None? && Enabled(files, Run(files, steps), Start(r))
    ensures Continues(files, steps, more, r, Finished) && Run(files, steps + more).schema == files
  {
    assert steps + [] == steps;
    OneMore(files, steps, [], Start(r));
    more := PassFiles(files, steps, [] + [Start(r)], r, 0);
    OneMore(files, steps, more, Finish(r));
    more := more + [Finish(r)];
    RunInv(files, steps + more);
    var s := Run(files, steps + more);
    assert RunnerOk(files, |s.schema|, s.runners[r], Open(s, r));
  }

  /** A runner stands before file i + 1 only when file i is applied and recorded. */
  lemma PassedIsApplied(files: seq<string>, steps: seq<Step>, r: nat)
    requires Distinct(Versions(files)) && Legal(files, steps)
    ensures var s := Run(files, steps);
            forall i: nat :: i < |files| && At(s, r, Before(i + 1)) ==> files[i] in s.schema && VersionOf(files[i]) in s.versions
  {
    RunInv(files, steps);
    var s := Run(files, steps);
    forall i: nat | i < |files| && At(s, r, Before(i + 1)) ensures files[i] in s.schema && VersionOf(files[i]) in s.versions {
      assert RunnerOk(files, |s.schema|, s.runners[r], Open(s, r));
      assert s.schema[i] == files[i];
      MemberOfPrefix(files, |s.schema|, i);
    }
  }

  /** The database as seen by runner `me`, with every other runner free to act in between. */
  class Migrator {
    const files: seq<string>
    const me: nat
    var db: State
    ghost var trace: seq<Step>

    ghost predicate Valid()
      reads this
    {
      Distinct(Versions(files)) && Legal(files, trace) && db == Run(files, trace)
    }

    constructor (names: seq<string>, me: nat)
      requires Distinct(names)
      ensures Valid() && files == FileList(names) && this.me == me && db == INITIAL
    {
      FileListDistinct(names);
      files := FileList(names);
      this.me := me;
      db := INITIAL;
      trace := [];
    }

    method Do(step: Step)
      requires Valid() && Enabled(files, db, step)
      modifies this
      ensures Valid() && db == Next(files, old(db), step) && old(db.schema) <= db.schema
    {
      RunInv(files, trace);
      StepInv(files, db, step);
      Extend(files, trace, step);
      db := Next(files, db, step);
      trace := trace + [step];
    }

    method Interfere()
      requires Valid() && me in db.runners
      modifies this
      ensures Valid() && At(db, me, old(db).runners[me]) && old(db.schema) <= db.schema
    {
      var steps: seq<Step> := *;
      for i := 0 to |steps|
        invariant Valid() && At(db, me, old(db).runners[me]) && old(db.schema) <= db.schema
      {
        if steps[i].r != me && Enabled(files, db, steps[i]) {
          Do(steps[i]);
        }
      }
    }

    /**
     One file in one transaction; any statement may fail, which rolls it back, and so does
     waiting too long for a lock that another runner holds.
     */
    method ApplyMigration(i: nat) returns (ok: bool)
      requires Valid() && At(db, me, Before(i)) && i < |files|
      modifies this
      ensures Valid() && (if ok then At(db, me, Before(i + 1)) else At(db, me, Failed))
      ensures old(db.schema) <= db.schema
      ensures ok ==> files[i] in db.schema && VersionOf(files[i]) in db.versions
    {
      Interfere();
      var fails: bool := *;
      if fails || db.holder.Some? {
        Do(Crash(me));
        return false;
      }
      Do(Lock(me));
      Interfere();
      Do(Check(me));
      ok := CompleteTransaction(i, db.runners[me].applied);
      PassedIsApplied(files, trace, me);
    }

    method CompleteTransaction(i: nat, applied: bool) returns (ok: bool)
      requires Valid() && At(db, me, Known(i, applied)) && i < |files|
      modifies this
      ensures Valid() && (if ok then At(db, me, Before(i + 1)) else At(db, me, Failed))
      ensures old(db.schema) <= db.schema
    {
      Interfere();
      var fails: bool := *;
      if fails {
        Do(Crash(me));
        return false;
      }
      if applied {
        Do(Skip(me));
        return true;
      }
      ok := ExecuteAndRecord(i);
    }

    /** The script and its version row are written in the open transaction and published together, or not at all. */
    method ExecuteAndRecord(i: nat) returns (ok: bool)
      requires Valid() && At(db, me, Known(i, false)) && i < |files|
      modifies this
      ensures Valid() && (if ok then At(db, me, Before(i + 1)) else At(db, me, Failed))
      ensures old(db.schema) <= db.schema
    {
      Do(Execute(me));
      Interfere();
      var fails: bool := *;
      if fails {
        Do(Crash(me));
        return false;
      }
      Do(RecordVersion(me));
      Interfere();
      var fate: nat := *;
      if fate == 0 {
        Do(Crash(me));
        return false;
      }
      Do(Commit(me, fate == 1));
      return fate == 1;
    }

    /** Success means that every file is applied, whatever the other runners did. */
    method Migrate() returns (ok: bool)
      requires Valid() && (me in db.runners ==> db.runners[me].Finished? || db.runners[me].Failed?)
      modifies this
      ensures Valid() && old(db.schema) <= db.schema
      ensures ok ==> db.schema == files && db.versions == Versions(files)
      ensures old(db.schema) == files ==> db.schema == old(db.schema)
    {
      RunInv(files, trace);
      Do(Start(me));
      for i := 0 to |files|
        invariant Valid() && At(db, me, Before(i)) && old(db.schema) <= db.schema
      {
        var applied := ApplyMigration(i);
        if !applied {
          RunInv(files, trace);
          return false;
        }
      }
      RunInv(files, trace);
      assert RunnerOk(files, |db.schema|, db.runners[me], Open(db, me));
      Do(Finish(me));
      RunInv(files, trace);
      ok := true;
    }
  }
}
