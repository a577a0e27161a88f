/**
 * The migration runner as a sequence of queries that the process may not live to finish.
 * What one query does to the database is a parameter; `D` is the state of the schema and data.
 */
module Migrations {
  import opened Prelude

  datatype File = File(name: string, checksum: string, statements: seq<string>)

  /** The database proper and the ledger of executed files. */
  datatype World<D> = World(db: D, ledger: map<string, string>)

  /** One statement; None is an error, which leaves the database as it was. */
  type Exec<!D> = (D, string) -> Option<D>

  /** What a run did, in order: a statement executed, a ledger row written, a file found in the ledger. */
  datatype Action = Executed(name: string, index: nat) | Recorded(name: string) | Skipped(name: string)

  datatype Status = Completed | Crashed | Mismatch(name: string) | Failed(name: string)

  /** Where a run ends; `fuel` is how many more queries the process lives. */
  datatype Ran<D> = Ran(world: World<D>, status: Status, fuel: nat, trace: seq<Action>)

  function Then<D>(done: seq<Action>, r: Ran<D>): Ran<D> {
    Ran(r.world, r.status, r.fuel, done + r.trace)
  }

  lemma ThenThen<D>(a: seq<Action>, b: seq<Action>, r: Ran<D>)
    ensures Then(a, Then(b, r)) == Then(a + b, r)
    ensures Then([], r) == r
    ensures Then(a, Ran(r.world, r.status, r.fuel, [])) == Ran(r.world, r.status, r.fuel, a)
  {
    assert a + (b + r.trace) == (a + b) + r.trace;
    assert [] + r.trace == r.trace;
    assert a + [] == a;
  }

  // ----- the run, as a function of how many queries the process lives -----

  function Statements<D>(w: World<D>, f: File, from: nat, fuel: nat, exec: Exec<D>): Ran<D>
    requires from <= |f.statements|
    decreases |f.statements| - from
  {
    if from == |f.statements| then Ran(w, Completed, fuel, [])
    else if fuel == 0 then Ran(w, Crashed, 0, [])
    else
      match exec(w.db, f.statements[from])
      case None => Ran(w, Failed(f.name), fuel - 1, [])
      case Some(db) => Then([Executed(f.name, from)], Statements(World(db, w.ledger), f, from + 1, fuel - 1, exec))
  }

  function OneFile<D>(w: World<D>, f: File, fuel: nat, exec: Exec<D>): Ran<D> {
    if fuel == 0 then Ran(w, Crashed, 0, [])
    else if f.name in w.ledger then
      if w.ledger[f.name] == f.checksum then Ran(w, Completed, fuel - 1, [Skipped(f.name)]) else Ran(w, Mismatch(f.name), fuel - 1, [])
    else
      var r := Statements(w, f, 0, fuel - 1, exec);
      if r.status != Completed then r
      else if r.fuel == 0 then Ran(r.world, Crashed, 0, r.trace)
      else Ran(World(r.world.db, w.ledger[f.name := f.checksum]), Completed, r.fuel - 1, r.trace + [Recorded(f.name)])
  }

  function Run<D>(w: World<D>, files: seq<File>, fuel: nat, exec: Exec<D>): Ran<D>
    decreases |files|
  {
    if files == [] then Ran(w, Completed, fuel, [])
    else
      var first := OneFile(w, files[0], fuel, exec);
      if first.status != Completed then first else Then(first.trace, Run(first.world, files[1..], first.fuel, exec))
  }

  // ----- the code -----

  /** The names of recorded and of skipped files, in order. */
  function Applied(trace: seq<Action>): seq<string> {
    if trace == [] then []
    else
      var front := Applied(trace[..|trace| - 1]);
      if trace[|trace| - 1].Recorded? then front + [trace[|trace| - 1].name] else front
  }

  function SkippedIn(trace: seq<Action>): seq<string> {
    if trace == [] then []
    else
      var front := SkippedIn(trace[..|trace| - 1]);
      if trace[|trace| - 1].Skipped? then front + [trace[|trace| - 1].name] else front
  }

  lemma {:induction false} NamesOfConcat(a: seq<Action>, b: seq<Action>)
    ensures Applied(a + b) == Applied(a) + Applied(b)
    ensures SkippedIn(a + b) == SkippedIn(a) + SkippedIn(b)
  {
    if b == [] {
      assert a + b == a;
    } else {
      assert (a + b)[..|a + b| - 1] == a + b[..|b| - 1];
      NamesOfConcat(a, b[..|b| - 1]);
    }
  }

  /** The connection: the world it changes, what is left of the process, and what was done. */
  class Connection<D(!new)> {
    const exec: Exec<D>
    var world: World<D>
    var fuel: nat
    var trace: seq<Action>

    constructor (world: World<D>, fuel: nat, exec: Exec<D>)
      ensures this.world == world && this.fuel == fuel && this.exec == exec && trace == []
    {
      this.world, this.fuel, this.exec, this.trace := world, fuel, exec, [];
    }

    method ExecuteMigrationSql(f: File) returns (status: Status)
      modifies this
      ensures Then(old(trace), Statements(old(world), f, 0, old(fuel), exec)) == Ran(world, status, fuel, trace)
    {
      var i := 0;
      while i < |f.statements|
        invariant i <= |f.statements|
        invariant Then(old(trace), Statements(old(world), f, 0, old(fuel), exec)) == Then(trace, Statements(world, f, i, fuel, exec))
      {
        ThenThen(trace, [], Ran(world, Crashed, 0, []));
        if fuel == 0 {
          return Crashed;
        }
        var result := exec(world.db, f.statements[i]);
        if result.None? {
          ThenThen(trace, [], Ran(world, Failed(f.name), fuel - 1, []));
          fuel := fuel - 1;
          return Failed(f.name);
        }
        ThenThen(trace, [Executed(f.name, i)], Statements(World(result.value, world.ledger), f, i + 1, fuel - 1, exec));
        fuel := fuel - 1;
        world := World(result.value, world.ledger);
        trace := trace + [Executed(f.name, i)];
        i := i + 1;
      }
      ThenThen(trace, [], Ran(world, Completed, fuel, []));
      return Completed;
    }

    /** Look up, then execute, then record: two steps that no transaction joins. */
    method RunFile(f: File) returns (status: Status)
      modifies this
      ensures Then(old(trace), OneFile(old(world), f, old(fuel), exec)) == Ran(world, status, fuel, trace)
    {
      hide Statements;
      ThenThen(trace, [], Ran(world, Crashed, 0, []));
      if fuel == 0 {
        return Crashed;
      }
      fuel := fuel - 1;
      if f.name in world.ledger {
        if world.ledger[f.name] != f.checksum {
          return Mismatch(f.name);
        }
        trace := trace + [Skipped(f.name)];
        return Completed;
      }
      ghost var r := Statements(world, f, 0, fuel, exec);
      StatementsKeepLedger(world, f, 0, fuel, exec);
      status := ExecuteMigrationSql(f);
      if status != Completed {
        return status;
      }
      if fuel == 0 {
        return Crashed;
      }
      fuel := fuel - 1;
      world := World(world.db, world.ledger[f.name := f.checksum]);
      assert old(trace) + (r.trace + [Recorded(f.name)]) == (old(trace) + r.trace) + [Recorded(f.name)];
      trace := trace + [Recorded(f.name)];
      return Completed;
    }

    /** `runMigrations` under the lock. */
    method RunMigrations(files: seq<File>) returns (status: Status, applied: seq<string>, skipped: seq<string>)
      modifies this
      ensures Then(old(trace), Run(old(world), files, old(fuel), exec)) == Ran(world, status, fuel, trace)
      ensures var done := Run(old(world), files, old(fuel), exec).trace;
              status == Completed ==> applied == Applied(done) && skipped == SkippedIn(done)
    {
      hide *;
      applied, skipped := [], [];
      NothingRun(world, fuel, exec);
      ghost var start := Run(world, files, fuel, exec);
      ghost var done := [];
      var i := 0;
      ThenThen(trace, [], start);
      assert files[0..] == files && trace + [] == trace;
      while i < |files|
        invariant i <= |files| && trace == old(trace) + done
        invariant start == Then(done, Run(world, files[i..], fuel, exec))
        invariant applied == Applied(done) && skipped == SkippedIn(done)
      {
        ghost var first := OneFile(world, files[i], fuel, exec);
        StepOf(world, files, i, fuel, exec, done, old(trace));
        var found := files[i].name in world.ledger;
        var s := RunFile(files[i]);
        RanParts(old(trace) + done, first, Ran(world, s, fuel, trace));
        if s != Completed {
          return s, applied, skipped;
        }
        done := done + first.trace;
        if found {
          skipped := skipped + [files[i].name];
        } else {
          applied := applied + [files[i].name];
        }
        i := i + 1;
      }
      assert files[i..] == [];
      NothingRun(world, fuel, exec);
      ThenThen(old(trace), done, Ran(world, Completed, fuel, []));
      ThenThen(done, [], Ran(world, Completed, fuel, []));
      RanParts(old(trace), start, Ran(world, Completed, fuel, trace));
      return Completed, applied, skipped;
    }
  }

  lemma StatementsKeepLedger<D>(w: World<D>, f: File, from: nat, fuel: nat, exec: Exec<D>)
    requires from <= |f.statements|
    ensures Statements(w, f, from, fuel, exec).world.ledger == w.ledger
    decreases |f.statements| - from
  {
  }

  lemma RanParts<D>(before: seq<Action>, r: Ran<D>, out: Ran<D>)
    ensures Then(before, r) == out <==> out.world == r.world && out.status == r.status && out.fuel == r.fuel && out.trace == before + r.trace
  {
  }

  /** One file of a run, with what came before it in this run and before the run. */
  lemma StepOf<D>(w: World<D>, files: seq<File>, i: nat, fuel: nat, exec: Exec<D>, done: seq<Action>, before: seq<Action>)
    requires i < |files|
    ensures var first := OneFile(w, files[i], fuel, exec);
            && before + (done + first.trace) == (before + done) + first.trace
            && (first.status != Completed ==>
                  && Then(done, Run(w, files[i..], fuel, exec)) == Then(done, first)
                  && Then(before, Then(done, first)) == Then(before + done, first))
            && (first.status == Completed ==>
                  && Then(done, Run(w, files[i..], fuel, exec)) == Then(done + first.trace, Run(first.world, files[i + 1..], first.fuel, exec))
                  && Applied(done + first.trace) == (if files[i].name in w.ledger then Applied(done) else Applied(done) + [files[i].name])
                  && SkippedIn(done + first.trace) == (if files[i].name in w.ledger then SkippedIn(done) + [files[i].name] else SkippedIn(done)))
  {
    hide *;
    var first := OneFile(w, files[i], fuel, exec);
    assert files[i..][0] == files[i] && files[i..][1..] == files[i + 1..];
    RunStep(w, files[i..], fuel, exec, done);
    OutcomeOf(w, files[i], fuel, exec, done);
    ThenThen(before, done, first);
  }

  lemma NothingRun<D>(w: World<D>, fuel: nat, exec: Exec<D>)
    ensures Run(w, [], fuel, exec) == Ran(w, Completed, fuel, [])
    ensures Applied([]) == [] && SkippedIn([]) == []
  {
  }

  lemma RunStep<D>(w: World<D>, files: seq<File>, fuel: nat, exec: Exec<D>, done: seq<Action>)
    requires files != []
    ensures var first := OneFile(w, files[0], fuel, exec);
            Then(done, Run(w, files, fuel, exec)) ==
            if first.status != Completed then Then(done, first)
            else Then(done + first.trace, Run(first.world, files[1..], first.fuel, exec))
  {
    hide OneFile;
    var first := OneFile(w, files[0], fuel, exec);
    ThenThen(done, first.trace, Run(first.world, files[1..], first.fuel, exec));
  }

  lemma {:induction false} StatementsNameNothing<D>(w: World<D>, f: File, from: nat, fuel: nat, exec: Exec<D>)
    requires from <= |f.statements|
    ensures Applied(Statements(w, f, from, fuel, exec).trace) == [] && SkippedIn(Statements(w, f, from, fuel, exec).trace) == []
    decreases |f.statements| - from
  {
    if from < |f.statements| && fuel > 0 && exec(w.db, f.statements[from]).Some? {
      var db := exec(w.db, f.statements[from]).value;
      StatementsNameNothing(World(db, w.ledger), f, from + 1, fuel - 1, exec);
      NamesOfConcat([Executed(f.name, from)], Statements(World(db, w.ledger), f, from + 1, fuel - 1, exec).trace);
    }
  }

  lemma OutcomeOf<D>(w: World<D>, f: File, fuel: nat, exec: Exec<D>, done: seq<Action>)
    ensures var r := OneFile(w, f, fuel, exec);
            r.status == Completed ==>
              && Applied(done + r.trace) == (if f.name in w.ledger then Applied(done) else Applied(done) + [f.name])
              && SkippedIn(done + r.trace) == (if f.name in w.ledger then SkippedIn(done) + [f.name] else SkippedIn(done))
  {
    hide *;
    NamesOfConcat(done, OneFile(w, f, fuel, exec).trace);
    OneFileNames(w, f, fuel, exec);
  }

  lemma LoneAction(name: string)
    ensures Applied([Recorded(name)]) == [name] && SkippedIn([Recorded(name)]) == []
    ensures Applied([Skipped(name)]) == [] && SkippedIn([Skipped(name)]) == [name]
  {
  }

  lemma OneFileNames<D>(w: World<D>, f: File, fuel: nat, exec: Exec<D>)
    ensures var r := OneFile(w, f, fuel, exec);
            r.status == Completed ==>
              && Applied(r.trace) == (if f.name in w.ledger then [] else [f.name])
              && SkippedIn(r.trace) == (if f.name in w.ledger then [f.name] else [])
  {
    LoneAction(f.name);
    if fuel > 0 && f.name !in w.ledger {
      StatementsNameNothing(w, f, 0, fuel - 1, exec);
      NamesOfConcat(Statements(w, f, 0, fuel - 1, exec).trace, [Recorded(f.name)]);
    }
    hide Statements, Applied, SkippedIn;
  }
}
