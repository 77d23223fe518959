/** The incremental (multi-shot) runner: reads the step order from a facts
    file, then drives one solving session through a ground / activate /
    solve / deactivate / cleanup cycle per step.

    The solving session stands for clingo's `Control`: it holds the atoms of
    the grounded program and the truth values assigned to them. Grounding,
    solving and cleanup are the foreign solver's business; they are methods
    whose results are chosen freely within their contracts. */
module MultishotDriver {
  import opened Wrappers
  import opened Text
  import Sorting
  import Seqs

  const StepOpen := "#program step("
  const StepClose := ")."

  /** The step value a facts line declares: once stripped the line reads
      `#program step(<digits>).`. */
  function StepOf(line: string): Option<nat> {
    var s := Strip(line);
    if StartsWith(s, StepOpen) && EndsWith(s, StepClose) then
      HeaderLength(s);
      var param := s[|StepOpen|..|s| - |StepClose|];
      if param != [] && AllDigits(param) then Some(DigitsValue(param)) else None
    else None
  }

  /** The opening and the closing of a step header cannot overlap. */
  lemma HeaderLength(s: string)
    requires StartsWith(s, StepOpen) && EndsWith(s, StepClose)
    ensures |s| >= |StepOpen| + |StepClose|
  {
    var k := |s| - |StepClose|;
    assert s[k] == ')';
    assert ')' !in StepOpen;
    assert forall j :: 0 <= j < |StepOpen| ==> s[j] == StepOpen[j];
  }

  /** A line contributes a step exactly when, stripped, it is a step header
      whose parameter is a non-empty run of digits, and the step is the value
      of those digits. */
  lemma StepOfMeaning(line: string, v: nat)
    ensures StepOf(line) == Some(v) <==>
      exists p :: p != [] && AllDigits(p) && DigitsValue(p) == v && Strip(line) == StepOpen + p + StepClose
  {
    var s := Strip(line);
    if StepOf(line) == Some(v) {
      HeaderLength(s);
      var p := s[|StepOpen|..|s| - |StepClose|];
      assert s == StepOpen + p + StepClose;
    }
    if exists p :: p != [] && AllDigits(p) && DigitsValue(p) == v && s == StepOpen + p + StepClose {
      var p :| p != [] && AllDigits(p) && DigitsValue(p) == v && s == StepOpen + p + StepClose;
      assert StartsWith(s, StepOpen) && EndsWith(s, StepClose);
      assert s[|StepOpen|..|s| - |StepClose|] == p;
    }
  }

  /** The steps a facts file declares, in file order, repetitions included. */
  function StepsOf(lines: seq<string>): seq<nat> {
    Seqs.FilterMap(lines, StepOf)
  }

  /** Steps are taken in file order: the steps of two pieces of a file are
      those of the first piece followed by those of the second. */
  lemma StepsOfAppend(a: seq<string>, b: seq<string>)
    ensures StepsOf(a + b) == StepsOf(a) + StepsOf(b)
  {
    Seqs.FilterMapAppend(a, b, StepOf);
  }

  /** No de-duplication: a step header that appears twice yields its step twice. */
  lemma RepeatedStepKept(line: string, v: nat)
    requires StepOf(line) == Some(v)
    ensures StepsOf([line, line]) == [v, v]
  {
    assert [line, line][..1] == [line] && [line][..0] == [];
    assert StepsOf([line]) == [v];
  }

  /** A step value belongs to the order exactly when some line declares it. */
  lemma StepsOfMembers(lines: seq<string>, v: nat)
    ensures v in StepsOf(lines) <==> exists i :: 0 <= i < |lines| && StepOf(lines[i]) == Some(v)
  {
    Seqs.FilterMapMembers(lines, StepOf, v);
  }

  /** `parse_step_order`: scans the facts file line by line. */
  method ParseStepOrder(lines: seq<string>) returns (steps: seq<nat>)
    ensures steps == StepsOf(lines)
  {
    steps := [];
    for i := 0 to |lines|
      invariant steps == StepsOf(lines[..i])
    {
      assert lines[..i + 1][..i] == lines[..i];
      match StepOf(lines[i]) {
        case Some(v) => steps := steps + [v];
        case None =>
      }
    }
    assert lines[..|lines|] == lines;
  }

  /** The atoms stored for one model: its shown atoms, sorted. Models follow
      each other in the store without separators. */
  function Witnesses(models: seq<seq<string>>): seq<string> {
    if models == [] then []
    else Witnesses(models[..|models| - 1]) + Sorting.Sort(models[|models| - 1])
  }

  lemma {:induction false} WitnessesAppend(a: seq<seq<string>>, b: seq<seq<string>>)
    ensures Witnesses(a + b) == Witnesses(a) + Witnesses(b)
    decreases |b|
  {
    if b == [] {
      assert a + b == a;
    } else {
      var init, last := b[..|b| - 1], b[|b| - 1];
      assert (a + b)[..|a + b| - 1] == a + init && (a + b)[|a + b| - 1] == last;
      WitnessesAppend(a, init);
      Seqs.Associative(Witnesses(a), Witnesses(init), Sorting.Sort(last));
    }
  }

  /** The store holds every shown atom of every model, each model's atoms as
      an ascending run, nothing else. */
  lemma {:induction false} WitnessesContent(models: seq<seq<string>>)
    ensures |Witnesses(models)| == |Seqs.Flatten(models)|
    ensures multiset(Witnesses(models)) == multiset(Seqs.Flatten(models))
  {
    if models != [] {
      WitnessesContent(models[..|models| - 1]);
      Sorting.SortPermutation(models[|models| - 1]);
    }
  }

  /** `collect_model`'s storage list, filled by the model callback. */
  class AtomStore {
    var items: seq<string>

    constructor ()
      ensures items == []
    {
      items := [];
    }

    /** `collect_model`: appends one model's shown atoms, sorted; earlier
        entries are unchanged. */
    method CollectModel(model: seq<string>)
      modifies this
      ensures items == old(items) + Sorting.Sort(model)
      ensures Sorting.Ascending(items[|old(items)|..])
    {
      Sorting.SortAscending(model);
      items := items + Sorting.Sort(model);
      assert items[|old(items)|..] == Sorting.Sort(model);
    }
  }

  /** `Function(name, [Number(value)])`. */
  datatype Atom = Atom(name: string, arg: nat)

  /** The program parts that are grounded: `base`, `step(v)` and `check(v)`. */
  datatype Part = Base | StepPart(value: nat) | CheckPart(value: nat)

  /** What the runner asks of the session, in the order it asks it. */
  datatype Action =
    | Grounded(part: Part)
    | Toggled(names: seq<string>, value: nat, on: bool)
    | Solved
    | CleanedUp

  const StepGuards: seq<string> := ["use_temporal_index", "use_simple_events", "use_expansion", "use_linear"]
  const CheckGuards: seq<string> := ["use_meta_events", "use_repair", "use_preference"]

  /** One solving session (clingo's `Control`). */
  class Session {
    /** The atoms of the grounded program (`symbolic_atoms`). */
    var atoms: set<Atom>
    /** The truth value of each atom as an external. */
    var truth: map<Atom, bool>
    /** Every request made of the session so far. */
    ghost var log: seq<Action>
    /** Every model the solver has reported so far, in order. */
    ghost var solved: seq<seq<string>>

    ghost predicate Valid()
      reads this
    {
      truth.Keys == atoms
    }

    constructor ()
      ensures Valid() && atoms == {} && log == [] && solved == []
    {
      atoms := {};
      truth := map[];
      log := [];
      solved := [];
    }

    /** `ground`: the grounder may add any atoms; a new external starts false
        and the values of existing atoms are kept. */
    method Ground(part: Part)
      requires Valid()
      modifies this
      ensures Valid() && old(atoms) <= atoms
      ensures forall a :: a in old(atoms) ==> truth[a] == old(truth)[a]
      ensures forall a :: a in atoms && a !in old(atoms) ==> !truth[a]
      ensures log == old(log) + [Grounded(part)] && solved == old(solved)
    {
      var added: set<Atom> :| true;
      var newAtoms := added - atoms;
      truth := truth + map a | a in newAtoms :: false;
      atoms := atoms + newAtoms;
      log := log + [Grounded(part)];
    }

    /** `activate_externals`: assigns `on` to each atom `name(value)` for a
        name in `names` that the grounded program contains; absent atoms are
        skipped and nothing else changes. */
    method ActivateExternals(names: seq<string>, value: nat, on: bool)
      requires Valid()
      modifies this`truth, this`log
      ensures Valid()
      ensures forall a :: a in atoms ==>
        truth[a] == if a.arg == value && a.name in names then on else old(truth)[a]
      ensures log == old(log) + [Toggled(names, value, on)]
    {
      for i := 0 to |names|
        invariant truth.Keys == atoms && log == old(log)
        invariant forall a :: a in atoms ==>
          truth[a] == if a.arg == value && a.name in names[..i] then on else old(truth)[a]
      {
        var atom := Atom(names[i], value);
        if atom in atoms {
          truth := truth[atom := on];
        }
        assert names[..i + 1] == names[..i] + [names[i]];
      }
      assert names[..|names|] == names;
      log := log + [Toggled(names, value, on)];
    }

    /** `solve`: every model the solver finds is handed, in order, to
        `collect_model`; the grounded program and its assignment stay as
        they are. */
    method Solve(store: AtomStore) returns (models: seq<seq<string>>)
      requires Valid()
      modifies this`log, this`solved, store
      ensures Valid()
      ensures store.items == old(store.items) + Witnesses(models)
      ensures log == old(log) + [Solved] && solved == old(solved) + models
    {
      models :| true;
      for i := 0 to |models|
        invariant store.items == old(store.items) + Witnesses(models[..i])
        invariant log == old(log) && solved == old(solved)
      {
        store.CollectModel(models[i]);
        assert models[..i + 1][..i] == models[..i];
      }
      assert models[..|models|] == models;
      log := log + [Solved];
      solved := solved + models;
    }

    /** `cleanup`: the solver may drop atoms it no longer needs; the atoms it
        keeps keep their values. */
    method Cleanup()
      requires Valid()
      modifies this
      ensures Valid() && atoms <= old(atoms)
      ensures forall a :: a in atoms ==> truth[a] == old(truth)[a]
      ensures log == old(log) + [CleanedUp] && solved == old(solved)
    {
      var kept: set<Atom> :| kept <= atoms;
      truth := map a | a in kept :: truth[a];
      atoms := kept;
      log := log + [CleanedUp];
    }
  }

  /** Every guard atom that exists is off. */
  ghost predicate GuardsOff(s: Session)
    reads s
    requires s.Valid()
  {
    forall a :: a in s.atoms && (a.name in StepGuards || a.name in CheckGuards) ==> !s.truth[a]
  }

  /** The requests made for one step: ground the step, switch its four guards
      on, then only with check files ground the check part and switch its
      three guards on; solve; switch the step guards off, then the check
      guards; clean up. */
  function StepActions(v: nat, withCheck: bool): seq<Action> {
    [Grounded(StepPart(v)), Toggled(StepGuards, v, true)]
    + (if withCheck then [Grounded(CheckPart(v)), Toggled(CheckGuards, v, true)] else [])
    + [Solved, Toggled(StepGuards, v, false)]
    + (if withCheck then [Toggled(CheckGuards, v, false)] else [])
    + [CleanedUp]
  }

  function Schedule(steps: seq<nat>, withCheck: bool): seq<Action> {
    if steps == [] then []
    else Schedule(steps[..|steps| - 1], withCheck) + StepActions(steps[|steps| - 1], withCheck)
  }

  /** The check part of a step is grounded, and the check guards toggled,
      exactly when check files were given. */
  lemma StepActionsCheck(v: nat, withCheck: bool)
    ensures Grounded(CheckPart(v)) in StepActions(v, withCheck) <==> withCheck
    ensures Toggled(CheckGuards, v, true) in StepActions(v, withCheck) <==> withCheck
    ensures Toggled(CheckGuards, v, false) in StepActions(v, withCheck) <==> withCheck
  {
    assert StepGuards != CheckGuards by { assert StepGuards[0] != CheckGuards[0]; }
  }

  /** Within a step the solve comes after every grounding and every switch
      turned on, and before every switch turned off and the cleanup. */
  lemma StepActionsOrder(v: nat, withCheck: bool, i: nat, j: nat)
    requires i < j < |StepActions(v, withCheck)|
    requires StepActions(v, withCheck)[j] == Solved
    ensures StepActions(v, withCheck)[i].Grounded? || (StepActions(v, withCheck)[i].Toggled? && StepActions(v, withCheck)[i].on)
  {
  }

  /** One more step extends the schedule by that step's requests. */
  lemma ScheduleStep(steps: seq<nat>, i: nat, withCheck: bool)
    requires i < |steps|
    ensures Schedule(steps[..i + 1], withCheck) == Schedule(steps[..i], withCheck) + StepActions(steps[i], withCheck)
  {
    assert steps[..i + 1][..i] == steps[..i] && steps[..i + 1][i] == steps[i];
  }

  /** One pass of `run_incremental`'s step loop for step value `v`. */
  method RunStep(session: Session, store: AtomStore, v: nat, withCheck: bool)
    returns (ghost found: seq<seq<string>>)
    requires session.Valid() && GuardsOff(session)
    modifies session, store
    ensures session.Valid() && GuardsOff(session)
    ensures session.log == old(session.log) + StepActions(v, withCheck)
    ensures session.solved == old(session.solved) + found
    ensures store.items == old(store.items) + Witnesses(found)
  {
    ghost var start := session.log;
    ghost var on := [Grounded(StepPart(v)), Toggled(StepGuards, v, true)]
      + (if withCheck then [Grounded(CheckPart(v)), Toggled(CheckGuards, v, true)] else []);
    session.Ground(StepPart(v));
    session.ActivateExternals(StepGuards, v, true);
    if withCheck {
      session.Ground(CheckPart(v));
      session.ActivateExternals(CheckGuards, v, true);
    }
    assert session.log == start + on;
    found := session.Solve(store);
    session.ActivateExternals(StepGuards, v, false);
    ghost var off := on + [Solved, Toggled(StepGuards, v, false)];
    assert session.log == start + off;
    if withCheck {
      session.ActivateExternals(CheckGuards, v, false);
    }
    ghost var all := off + (if withCheck then [Toggled(CheckGuards, v, false)] else []);
    assert session.log == start + all;
    session.Cleanup();
    Seqs.Associative(start, all, [CleanedUp]);
    assert all + [CleanedUp] == StepActions(v, withCheck);
  }

  datatype DriverError = NoStepsFound

  /** `run_incremental`'s step loop: one cycle per step, in order, on the
      same session; the store only grows. */
  method RunSteps(session: Session, store: AtomStore, steps: seq<nat>, withCheck: bool)
    returns (ghost models: seq<seq<string>>)
    requires session.Valid() && GuardsOff(session)
    modifies session, store
    ensures session.Valid() && GuardsOff(session)
    ensures session.log == old(session.log) + Schedule(steps, withCheck)
    ensures session.solved == old(session.solved) + models
    ensures store.items == old(store.items) + Witnesses(models)
  {
    models := [];
    for i := 0 to |steps|
      invariant session.Valid() && GuardsOff(session)
      invariant session.log == old(session.log) + Schedule(steps[..i], withCheck)
      invariant session.solved == old(session.solved) + models
      invariant store.items == old(store.items) + Witnesses(models)
    {
      var found := RunStep(session, store, steps[i], withCheck);
      ScheduleStep(steps, i, withCheck);
      Seqs.Associative(old(session.log), Schedule(steps[..i], withCheck), StepActions(steps[i], withCheck));
      WitnessesAppend(models, found);
      Seqs.Associative(old(store.items), Witnesses(models), Witnesses(found));
      Seqs.Associative(old(session.solved), models, found);
      models := models + found;
    }
    assert steps[..|steps|] == steps;
  }

  /** `run_incremental`: grounds `base`, reads the step order, fails when it
      is empty, then runs one cycle per step on the same session. The result
      is the store of shown atoms, written out by the caller. */
  method RunIncremental(factsLines: seq<string>, withCheck: bool)
    returns (r: Result<seq<string>, DriverError>, session: Session, ghost models: seq<seq<string>>)
    ensures session.Valid() && GuardsOff(session)
    ensures r.Failure? <==> StepsOf(factsLines) == []
    ensures r.Failure? ==> session.log == [Grounded(Base)]
    ensures r.Success? ==> session.log == [Grounded(Base)] + Schedule(StepsOf(factsLines), withCheck)
    ensures models == session.solved
    ensures r.Success? ==> r.value == Witnesses(session.solved)
  {
    session := new Session();
    session.Ground(Base);
    models := [];
    var store := new AtomStore();
    var steps := ParseStepOrder(factsLines);
    if steps == [] {
      return Failure(NoStepsFound), session, models;
    }
    models := RunSteps(session, store, steps, withCheck);
    r := Success(store.items);
  }
}
