/**
 * Crash tolerance of the migration runner: when every file may safely run again after any part
 * of itself, runs that die anywhere followed by one that completes come to one clean run.
 */
module MigrationLaws {
  import opened Prelude
  import opened Migrations

  // ----- the clean run -----

  /** All of a list of statements in order, if none fails. */
  function Whole<D>(db: D, statements: seq<string>, exec: Exec<D>): Option<D> {
    if statements == [] then Some(db)
    else
      match exec(db, statements[0])
      case None => None
      case Some(next) => Whole(next, statements[1..], exec)
  }

  /** What a run that nothing interrupts leaves; None when a checksum or a statement stops it. */
  function Clean<D>(w: World<D>, files: seq<File>, exec: Exec<D>): Option<World<D>>
    decreases |files|
  {
    if files == [] then Some(w)
    else if files[0].name in w.ledger then
      if w.ledger[files[0].name] == files[0].checksum then Clean(w, files[1..], exec) else None
    else
      match Whole(w.db, files[0].statements, exec)
      case None => None
      case Some(db) => Clean(World(db, w.ledger[files[0].name := files[0].checksum]), files[1..], exec)
  }

  /** Running a file after any part of itself has run comes to the same as running it once. */
  ghost predicate RerunSafe<D(!new)>(f: File, exec: Exec<D>) {
    forall db: D, n :: 0 <= n <= |f.statements| && Whole(db, f.statements[..n], exec).Some? ==>
      Whole(Whole(db, f.statements[..n], exec).value, f.statements, exec) == Whole(db, f.statements, exec)
  }

  predicate DistinctNames(files: seq<File>) {
    forall i, j :: 0 <= i < j < |files| ==> files[i].name != files[j].name
  }

  // ----- what a run of one file leaves -----

  lemma {:induction false} WholeStep<D>(db: D, statements: seq<string>, n: nat, exec: Exec<D>)
    requires n < |statements|
    ensures Whole(db, statements[n..], exec)
         == if exec(db, statements[n]).None? then None else Whole(exec(db, statements[n]).value, statements[n + 1..], exec)
  {
    assert statements[n..][1..] == statements[n + 1..];
  }

  lemma {:induction false} WholeSnoc<D>(db: D, statements: seq<string>, last: string, exec: Exec<D>)
    ensures Whole(db, statements + [last], exec)
         == if Whole(db, statements, exec).None? then None else exec(Whole(db, statements, exec).value, last)
  {
    if statements == [] {
      assert ([last])[1..] == [];
      assert statements + [last] == [last];
    } else {
      assert (statements + [last])[1..] == statements[1..] + [last];
      if exec(db, statements[0]).Some? {
        WholeSnoc(exec(db, statements[0]).value, statements[1..], last, exec);
      }
    }
  }

  /** Wherever the statements of a file stop, the database is what some of its first statements make of it. */
  lemma {:induction false} StopsAfterPrefix<D>(start: D, w: World<D>, f: File, from: nat, fuel: nat, exec: Exec<D>) returns (n: nat)
    requires from <= |f.statements| && Whole(start, f.statements[..from], exec) == Some(w.db)
    ensures var r := Statements(w, f, from, fuel, exec);
            && n <= |f.statements| && Whole(start, f.statements[..n], exec) == Some(r.world.db) && r.world.ledger == w.ledger
            && (r.status == Completed ==> n == |f.statements|)
            && (r.status.Failed? ==> Whole(w.db, f.statements[from..], exec).None?)
            && (r.status == Completed || r.status == Crashed || r.status.Failed?)
    decreases |f.statements| - from
  {
    n := from;
    if from < |f.statements| {
      WholeStep(w.db, f.statements, from, exec);
      if fuel > 0 && exec(w.db, f.statements[from]).Some? {
        assert f.statements[..from + 1] == f.statements[..from] + [f.statements[from]];
        WholeSnoc(start, f.statements[..from], f.statements[from], exec);
        n := StopsAfterPrefix(start, World(exec(w.db, f.statements[from]).value, w.ledger), f, from + 1, fuel - 1, exec);
      }
    }
  }

  /** What one file does to the ledger. */
  lemma OneFileLedger<D>(w: World<D>, f: File, fuel: nat, exec: Exec<D>)
    ensures var r := OneFile(w, f, fuel, exec);
            && (forall name :: name != f.name ==> (name in r.world.ledger <==> name in w.ledger))
            && (forall name :: name != f.name && name in w.ledger ==> r.world.ledger[name] == w.ledger[name])
            && (r.status == Completed ==> f.name in r.world.ledger && r.world.ledger[f.name] == f.checksum)
            && (f.name in w.ledger ==> r.world == w)
  {
    if fuel > 0 && f.name !in w.ledger {
      StatementsKeepLedger(w, f, 0, fuel - 1, exec);
      hide Statements;
    }
  }

  lemma CleanHead<D>(w: World<D>, files: seq<File>, exec: Exec<D>)
    requires files != []
    ensures files[0].name in w.ledger && w.ledger[files[0].name] == files[0].checksum ==> Clean(w, files, exec) == Clean(w, files[1..], exec)
    ensures files[0].name in w.ledger && w.ledger[files[0].name] != files[0].checksum ==> Clean(w, files, exec) == None
    ensures files[0].name !in w.ledger ==>
              var db := Whole(w.db, files[0].statements, exec);
              Clean(w, files, exec) == if db.None? then None
                                       else Clean(World(db.value, w.ledger[files[0].name := files[0].checksum]), files[1..], exec)
  {
    hide Whole;
  }

  /** One file, run to any point, leaves the clean outcome as it was. */
  lemma OneFileKeepsClean<D(!new)>(w: World<D>, files: seq<File>, fuel: nat, exec: Exec<D>)
    requires files != [] && RerunSafe(files[0], exec)
    ensures var r := OneFile(w, files[0], fuel, exec);
            && (r.status != Completed ==> Clean(r.world, files, exec) == Clean(w, files, exec))
            && (r.status == Completed ==> Clean(r.world, files[1..], exec) == Clean(w, files, exec))
            && (r.status.Mismatch? || r.status.Failed? ==> Clean(w, files, exec) == None)
  {
    var f, r := files[0], OneFile(w, files[0], fuel, exec);
    CleanHead(w, files, exec);
    CleanHead(r.world, files, exec);
    if fuel > 0 && f.name !in w.ledger {
      assert f.statements[..0] == [];
      var n := StopsAfterPrefix(w.db, w, f, 0, fuel - 1, exec);
      assert f.statements[0..] == f.statements && f.statements[..|f.statements|] == f.statements;
      hide Statements, Whole, Clean;
      var s := Statements(w, f, 0, fuel - 1, exec);
      assert Whole(s.world.db, f.statements, exec) == Whole(w.db, f.statements, exec);
    }
  }

  predicate NotNamed(files: seq<File>, name: string) {
    forall f :: f in files ==> f.name != name
  }

  /** A run touches no ledger row but those of its files. */
  lemma {:induction false} RunLeavesOthers<D>(w: World<D>, files: seq<File>, fuel: nat, exec: Exec<D>, name: string)
    requires NotNamed(files, name)
    ensures name in Run(w, files, fuel, exec).world.ledger <==> name in w.ledger
    ensures name in w.ledger ==> Run(w, files, fuel, exec).world.ledger[name] == w.ledger[name]
    decreases |files|
  {
    hide OneFile;
    if files != [] {
      var first := OneFile(w, files[0], fuel, exec);
      OneFileLedger(w, files[0], fuel, exec);
      assert files[0] in files && forall f :: f in files[1..] ==> f in files;
      RunLeavesOthers(first.world, files[1..], first.fuel, exec, name);
    }
  }

  lemma TailNames(files: seq<File>)
    requires files != [] && DistinctNames(files)
    ensures DistinctNames(files[1..]) && NotNamed(files[1..], files[0].name)
  {
  }

  ghost predicate AllSafe<D(!new)>(files: seq<File>, exec: Exec<D>) {
    forall f :: f in files ==> RerunSafe(f, exec)
  }

  /**
   * A run that stops anywhere leaves the clean outcome as it was, and one that completes has
   * reached it.
   */
  lemma {:induction false} RunKeepsClean<D(!new)>(w: World<D>, files: seq<File>, fuel: nat, exec: Exec<D>)
    requires DistinctNames(files) && AllSafe(files, exec)
    ensures var r := Run(w, files, fuel, exec);
            && Clean(r.world, files, exec) == Clean(w, files, exec)
            && (r.status == Completed ==> Clean(w, files, exec) == Some(r.world))
            && (r.status.Mismatch? || r.status.Failed? ==> Clean(w, files, exec) == None)
    decreases |files|
  {
    hide OneFile, RerunSafe;
    if files != [] {
      var f, first, r := files[0], OneFile(w, files[0], fuel, exec), Run(w, files, fuel, exec);
      assert f in files && forall g :: g in files[1..] ==> g in files;
      OneFileKeepsClean(w, files, fuel, exec);
      if first.status == Completed {
        TailNames(files);
        RunKeepsClean(first.world, files[1..], first.fuel, exec);
        OneFileLedger(w, f, fuel, exec);
        RunLeavesOthers(first.world, files[1..], first.fuel, exec, f.name);
        CleanHead(r.world, files, exec);
        hide Clean;
      }
    }
  }

  /** The world after a number of runs, each living for so many queries. */
  function Runs<D>(w: World<D>, files: seq<File>, fuels: seq<nat>, exec: Exec<D>): World<D> {
    if fuels == [] then w else Run(Runs(w, files, fuels[..|fuels| - 1], exec), files, fuels[|fuels| - 1], exec).world
  }

  lemma RunsGoOn<D>(w: World<D>, files: seq<File>, fuels: seq<nat>, fuel: nat, exec: Exec<D>)
    ensures Runs(w, files, [], exec) == w
    ensures Runs(w, files, fuels + [fuel], exec) == Run(Runs(w, files, fuels, exec), files, fuel, exec).world
  {
    hide Run;
    assert (fuels + [fuel])[..|fuels + [fuel]| - 1] == fuels;
  }

  lemma {:induction false} RunsKeepClean<D(!new)>(w: World<D>, files: seq<File>, fuels: seq<nat>, exec: Exec<D>)
    requires DistinctNames(files) && AllSafe(files, exec)
    ensures Clean(Runs(w, files, fuels, exec), files, exec) == Clean(w, files, exec)
  {
    if fuels != [] {
      RunsKeepClean(w, files, fuels[..|fuels| - 1], exec);
      RunKeepsClean(Runs(w, files, fuels[..|fuels| - 1], exec), files, fuels[|fuels| - 1], exec);
      hide Run, Clean, AllSafe;
    }
  }

  /** Queries that suffice for a run. */
  function Cost(files: seq<File>): nat {
    if files == [] then 0 else |files[0].statements| + 2 + Cost(files[1..])
  }

  lemma {:induction false} StatementsSucceed<D>(w: World<D>, f: File, from: nat, fuel: nat, exec: Exec<D>)
    requires from <= |f.statements| && |f.statements| - from <= fuel && Whole(w.db, f.statements[from..], exec).Some?
    ensures var r := Statements(w, f, from, fuel, exec);
            r.status == Completed && r.fuel == fuel - (|f.statements| - from) && Some(r.world.db) == Whole(w.db, f.statements[from..], exec)
    decreases |f.statements| - from
  {
    if from < |f.statements| {
      WholeStep(w.db, f.statements, from, exec);
      StatementsSucceed(World(exec(w.db, f.statements[from]).value, w.ledger), f, from + 1, fuel - 1, exec);
    }
  }

  /** A process that lives long enough completes every run that has a clean outcome. */
  lemma {:induction false} EnoughFuel<D>(w: World<D>, files: seq<File>, fuel: nat, exec: Exec<D>)
    requires Clean(w, files, exec).Some? && fuel >= Cost(files)
    ensures Run(w, files, fuel, exec).status == Completed
    decreases |files|
  {
    if files != [] {
      var f := files[0];
      CleanHead(w, files, exec);
      if f.name !in w.ledger {
        assert f.statements[0..] == f.statements;
        StatementsSucceed(w, f, 0, fuel - 1, exec);
        StatementsKeepLedger(w, f, 0, fuel - 1, exec);
      }
      hide Statements, Whole, Clean;
      var first := OneFile(w, f, fuel, exec);
      EnoughFuel(first.world, files[1..], first.fuel, exec);
    }
  }

  /**
   * Crash refinement: when any number of runs dying anywhere are followed by one that completes,
   * one run that nothing interrupts completes too and leaves the same database and ledger.
   */
  lemma CrashesDoNotShow<D(!new)>(w: World<D>, files: seq<File>, fuels: seq<nat>, last: nat, whole: nat, exec: Exec<D>)
    requires DistinctNames(files) && AllSafe(files, exec) && whole >= Cost(files)
    requires Run(Runs(w, files, fuels, exec), files, last, exec).status == Completed
    ensures Run(w, files, whole, exec).status == Completed
    ensures Run(Runs(w, files, fuels, exec), files, last, exec).world == Run(w, files, whole, exec).world
  {
    hide *;
    RunsKeepClean(w, files, fuels, exec);
    RunKeepsClean(Runs(w, files, fuels, exec), files, last, exec);
    EnoughFuel(w, files, whole, exec);
    RunKeepsClean(w, files, whole, exec);
  }

  // ----- the condition is exact -----

  lemma {:induction false} PrefixSucceeds<D>(db: D, statements: seq<string>, i: nat, j: nat, exec: Exec<D>)
    requires i <= j <= |statements| && Whole(db, statements[..j], exec).Some?
    ensures Whole(db, statements[..i], exec).Some?
    decreases j
  {
    hide Whole;
    if i < j {
      assert statements[..j] == statements[..j - 1] + [statements[j - 1]];
      WholeSnoc(db, statements[..j - 1], statements[j - 1], exec);
      PrefixSucceeds(db, statements, i, j - 1, exec);
    }
  }

  /** A process that lives for `fuel` statements more reaches the end of those and then dies or is done. */
  lemma {:induction false} StatementsReach<D>(start: D, w: World<D>, f: File, from: nat, fuel: nat, exec: Exec<D>)
    requires from + fuel <= |f.statements| && Whole(start, f.statements[..from], exec) == Some(w.db)
    requires Whole(start, f.statements[..from + fuel], exec).Some?
    ensures var r := Statements(w, f, from, fuel, exec);
            && r.world == World(Whole(start, f.statements[..from + fuel], exec).value, w.ledger) && r.fuel == 0
            && r.status == if from + fuel == |f.statements| then Completed else Crashed
    decreases fuel
  {
    hide Whole;
    if fuel > 0 {
      PrefixSucceeds(start, f.statements, from + 1, from + fuel, exec);
      assert f.statements[..from + 1] == f.statements[..from] + [f.statements[from]];
      WholeSnoc(start, f.statements[..from], f.statements[from], exec);
      StatementsReach(start, World(exec(w.db, f.statements[from]).value, w.ledger), f, from + 1, fuel - 1, exec);
    }
  }

  /** The run that dies right after `n` statements of a file that is not in the ledger. */
  lemma DiesAfter<D>(db: D, f: File, n: nat, exec: Exec<D>)
    requires n <= |f.statements| && Whole(db, f.statements[..n], exec).Some?
    ensures Run(World(db, map[]), [f], n + 1, exec).world == World(Whole(db, f.statements[..n], exec).value, map[])
  {
    assert f.statements[..0] == [];
    StatementsReach(db, World(db, map[]), f, 0, n, exec);
    hide Statements;
    assert f.statements[..0 + n] == f.statements[..n];
  }

  lemma CleanOne<D>(db: D, f: File, exec: Exec<D>)
    ensures Clean(World(db, map[]), [f], exec)
         == match Whole(db, f.statements, exec)
            case None => None
            case Some(after) => Some(World(after, map[f.name := f.checksum]))
  {
    hide Whole;
  }

  /** However a run over a fresh ledger dies, what a clean run comes to is as before. */
  ghost predicate CrashesInvisible<D(!new)>(f: File, exec: Exec<D>) {
    forall db: D, fuel: nat :: Clean(Run(World(db, map[]), [f], fuel, exec).world, [f], exec) == Clean(World(db, map[]), [f], exec)
  }

  /** A file hides every crash, on every database, exactly when it is safe to run again. */
  lemma CrashesInvisibleIff<D(!new)>(f: File, exec: Exec<D>)
    ensures CrashesInvisible(f, exec) <==> RerunSafe(f, exec)
  {
    hide Whole, Run, Clean;
    if RerunSafe(f, exec) {
      forall db: D, fuel: nat
        ensures Clean(Run(World(db, map[]), [f], fuel, exec).world, [f], exec) == Clean(World(db, map[]), [f], exec)
      {
        RunKeepsClean(World(db, map[]), [f], fuel, exec);
      }
    }
    if CrashesInvisible(f, exec) {
      forall db: D, n | 0 <= n <= |f.statements| && Whole(db, f.statements[..n], exec).Some?
        ensures Whole(Whole(db, f.statements[..n], exec).value, f.statements, exec) == Whole(db, f.statements, exec)
      {
        DiesAfter(db, f, n, exec);
        CleanOne(db, f, exec);
        CleanOne(Whole(db, f.statements[..n], exec).value, f, exec);
        assert Clean(Run(World(db, map[]), [f], n + 1, exec).world, [f], exec) == Clean(World(db, map[]), [f], exec);
      }
    }
  }

  lemma OneSlice(xs: seq<string>, x: string)
    requires xs == [x]
    ensures xs[..1] == xs && xs[..0] == [] && xs[1..] == []
  {
  }

  /** One crash shows for a file whose second run undoes nothing of the first. */
  lemma UnsafeFileShows(f: File, exec: Exec<int>)
    requires f.statements == ["x"] && forall db: int :: exec(db, "x") == Some(db + 1)
    ensures !RerunSafe(f, exec)
    ensures Run(World(0, map[]), [f], 3, exec).world.db == 1
    ensures Run(Runs(World(0, map[]), [f], [2], exec), [f], 3, exec).world.db == 2
  {
    OneStatement(0, f, 2, exec);
    OneStatement(0, f, 1, exec);
    OneStatement(1, f, 2, exec);
    assert [2][..0] == [];
    OneSlice(f.statements, "x");
    assert Whole(0, f.statements[..1], exec) == Some(1) && Whole(0, f.statements, exec) == Some(1) && Whole(1, f.statements, exec) == Some(2);
    hide Statements, Whole;
  }

  lemma OneStatement(n: int, f: File, fuel: nat, exec: Exec<int>)
    requires f.statements == ["x"] && fuel >= 1 && forall db: int :: exec(db, "x") == Some(db + 1)
    ensures Statements(World(n, map[]), f, 0, fuel, exec) == Ran(World(n + 1, map[]), Completed, fuel - 1, [Executed(f.name, 0)])
  {
    assert Statements(World(n + 1, map[]), f, 1, fuel - 1, exec) == Ran(World(n + 1, map[]), Completed, fuel - 1, []);
  }

  // ----- traces -----

  lemma {:induction false} StatementsInOrder<D>(w: World<D>, f: File, from: nat, fuel: nat, exec: Exec<D>)
    requires from <= |f.statements|
    ensures var t := Statements(w, f, from, fuel, exec).trace;
            && from + |t| <= |f.statements|
            && (forall k :: 0 <= k < |t| ==> t[k] == Executed(f.name, from + k))
            && (Statements(w, f, from, fuel, exec).status == Completed ==> from + |t| == |f.statements|)
    decreases |f.statements| - from
  {
    if from < |f.statements| && fuel > 0 && exec(w.db, f.statements[from]).Some? {
      StatementsInOrder(World(exec(w.db, f.statements[from]).value, w.ledger), f, from + 1, fuel - 1, exec);
    }
  }

  /** The entries before position `p` are all statements of the file, in order. */
  ghost predicate WholeBefore(t: seq<Action>, p: nat, f: File)
    requires p <= |t|
  {
    |f.statements| <= p && forall k :: 0 <= k < |f.statements| ==> t[p - |f.statements| + k] == Executed(f.name, k)
  }

  lemma OneFileTrace<D>(w: World<D>, f: File, fuel: nat, exec: Exec<D>)
    ensures var t := OneFile(w, f, fuel, exec).trace;
            && (forall p :: 0 <= p < |t| ==> t[p].name == f.name && (t[p].Recorded? ==> WholeBefore(t, p, f)))
            && (f.name in w.ledger ==> forall p :: 0 <= p < |t| ==> t[p].Skipped?)
            && (f.name in OneFile(w, f, fuel, exec).world.ledger && f.name !in w.ledger ==> Recorded(f.name) in t)
  {
    if fuel > 0 && f.name !in w.ledger {
      hide Statements, WholeBefore;
      StatementsInOrder(w, f, 0, fuel - 1, exec);
      StatementsKeepLedger(w, f, 0, fuel - 1, exec);
      var t := Statements(w, f, 0, fuel - 1, exec).trace;
      OrderedTrace(t, f);
    }
  }

  /** The statements of a file in order, and then its ledger row once they are all there. */
  lemma OrderedTrace(t: seq<Action>, f: File)
    requires |t| <= |f.statements| && forall k :: 0 <= k < |t| ==> t[k] == Executed(f.name, k)
    ensures forall p :: 0 <= p < |t| ==> t[p].name == f.name && !t[p].Recorded?
    ensures var u := t + [Recorded(f.name)];
            && Recorded(f.name) in u
            && (forall p :: 0 <= p < |u| ==> u[p].name == f.name)
            && (|t| == |f.statements| ==> forall p :: 0 <= p < |u| && u[p].Recorded? ==> WholeBefore(u, p, f))
  {
    var u := t + [Recorded(f.name)];
    assert u[|t|] == Recorded(f.name);
  }

  lemma ShiftWhole(a: seq<Action>, b: seq<Action>, p: nat, f: File)
    requires p <= |b| && WholeBefore(b, p, f)
    ensures WholeBefore(a + b, |a| + p, f)
  {
  }

  lemma PrefixWhole(a: seq<Action>, b: seq<Action>, p: nat, f: File)
    requires p <= |a| && WholeBefore(a, p, f)
    ensures WholeBefore(a + b, p, f)
  {
  }

  /** A ledger row is written only right after all statements of its file ran, in order. */
  lemma {:induction false} RecordedAfterWhole<D>(w: World<D>, files: seq<File>, fuel: nat, exec: Exec<D>, p: nat) returns (j: nat)
    requires p < |Run(w, files, fuel, exec).trace| && Run(w, files, fuel, exec).trace[p].Recorded?
    ensures j < |files| && Run(w, files, fuel, exec).trace[p].name == files[j].name
    ensures WholeBefore(Run(w, files, fuel, exec).trace, p, files[j])
    decreases |files|
  {
    hide OneFile, WholeBefore;
    var first := OneFile(w, files[0], fuel, exec);
    OneFileTrace(w, files[0], fuel, exec);
    j := 0;
    if first.status == Completed {
      var rest := Run(first.world, files[1..], first.fuel, exec);
      if p < |first.trace| {
        PrefixWhole(first.trace, rest.trace, p, files[0]);
      } else {
        var i := RecordedAfterWhole(first.world, files[1..], first.fuel, exec, p - |first.trace|);
        ShiftWhole(first.trace, rest.trace, p - |first.trace|, files[1..][i]);
        j := i + 1;
      }
    }
  }

  /** Files are first run in order: whatever is done for a file, every earlier one is in the ledger by then. */
  lemma {:induction false} EarlierFilesFirst<D>(w: World<D>, files: seq<File>, fuel: nat, exec: Exec<D>, p: nat, j: nat, i: nat)
    requires DistinctNames(files) && i < j < |files|
    requires p < |Run(w, files, fuel, exec).trace| && Run(w, files, fuel, exec).trace[p].name == files[j].name
    ensures files[i].name in w.ledger || Recorded(files[i].name) in Run(w, files, fuel, exec).trace[..p]
    decreases |files|
  {
    hide OneFile;
    var first, trace := OneFile(w, files[0], fuel, exec), Run(w, files, fuel, exec).trace;
    OneFileTrace(w, files[0], fuel, exec);
    OneFileLedger(w, files[0], fuel, exec);
    if first.status == Completed {
      var rest := Run(first.world, files[1..], first.fuel, exec);
      assert forall q :: 0 <= q < |first.trace| ==> trace[q] == first.trace[q];
      assert p >= |first.trace|;
      assert forall a :: a in first.trace ==> a in trace[..p] by {
        assert trace[..p] == first.trace + rest.trace[..p - |first.trace|];
      }
      if i > 0 {
        TailNames(files);
        EarlierFilesFirst(first.world, files[1..], first.fuel, exec, p - |first.trace|, j - 1, i - 1);
        assert trace[..p] == first.trace + rest.trace[..p - |first.trace|];
        assert files[i].name != files[0].name;
      }
    }
  }

  predicate AllRecorded(ledger: map<string, string>, files: seq<File>) {
    forall f :: f in files ==> f.name in ledger && ledger[f.name] == f.checksum
  }

  lemma {:induction false} CompletedIsRecorded<D>(w: World<D>, files: seq<File>, fuel: nat, exec: Exec<D>)
    requires DistinctNames(files) && Run(w, files, fuel, exec).status == Completed
    ensures AllRecorded(Run(w, files, fuel, exec).world.ledger, files)
    decreases |files|
  {
    hide OneFile;
    if files != [] {
      var first := OneFile(w, files[0], fuel, exec);
      OneFileLedger(w, files[0], fuel, exec);
      TailNames(files);
      CompletedIsRecorded(first.world, files[1..], first.fuel, exec);
      RunLeavesOthers(first.world, files[1..], first.fuel, exec, files[0].name);
      assert files == [files[0]] + files[1..];
    }
  }

  lemma {:induction false} RecordedIsSkipped<D>(w: World<D>, files: seq<File>, fuel: nat, exec: Exec<D>)
    requires AllRecorded(w.ledger, files)
    ensures var r := Run(w, files, fuel, exec);
            && r.world == w && (r.status == Completed || r.status == Crashed) && (fuel >= |files| ==> r.status == Completed)
            && forall a :: a in r.trace ==> a.Skipped?
    decreases |files|
  {
    if files != [] {
      assert files[0] in files && forall f :: f in files[1..] ==> f in files;
      if fuel > 0 {
        RecordedIsSkipped(w, files[1..], fuel - 1, exec);
      }
    }
  }

  /** After a completed run a further one executes and records nothing. */
  lemma FurtherRunDoesNothing<D>(w: World<D>, files: seq<File>, fuel: nat, again: nat, exec: Exec<D>)
    requires DistinctNames(files) && Run(w, files, fuel, exec).status == Completed
    ensures var r := Run(w, files, fuel, exec);
            && Run(r.world, files, again, exec).world == r.world
            && forall a :: a in Run(r.world, files, again, exec).trace ==> a.Skipped?
  {
    hide *;
    CompletedIsRecorded(w, files, fuel, exec);
    RecordedIsSkipped(Run(w, files, fuel, exec).world, files, again, exec);
  }
}
