/**
 The dispatcher trees of one hook, including those that a failed dispatcher load leaves behind. A load first opens the
 tree of the next revision, later records the number of extensions in it, and drops the old tree only at its end; the
 next operation takes whichever tree of the hook the database names first.
 */
module HookTrees {
  import opened Wrappers

  /** How far building a dispatcher gets: to before or after recording the number of extensions, or to its end. */
  datatype Load = FailsEarly | FailsLate | Loads

  /**
   `trees` maps a revision to the number of extensions, if that was recorded; `programs` counts the programs stored
   for the hook, `linked` says that the link which carries packets to the dispatcher is pinned.
   */
  datatype Hook = Hook(trees: map<Revision, Option<nat>>, programs: nat, linked: bool)

  /** `pick` is the revision of the tree that get_dispatcher finds, if there is one. */
  datatype Step = Add(pick: Revision, load: Load) | Remove(pick: Revision, load: Load)

  datatype Outcome = Panicked | Refused | Failed | Done

  datatype Taken = Taken(hook: Hook, outcome: Outcome)

  type Revision = r: nat | r < 0x1_0000_0000

  const MAX_PROGRAMS: nat := 10

  function NextRevision(found: Option<Revision>): Revision {
    if found.None? then 1 else (found.value + 1) % 0x1_0000_0000
  }

  /** Dispatcher::new for `n` programs; open_tree reuses a tree that exists. */
  function Build(h: Hook, found: Option<Revision>, n: nat, load: Load): Taken {
    var revision := NextRevision(found);
    match load
    case FailsEarly =>
      var count := if revision in h.trees then h.trees[revision] else None;
      Taken(h.(trees := h.trees[revision := count]), Failed)
    case FailsLate => Taken(h.(trees := h.trees[revision := Some(n)]), Failed)
    case Loads =>
      var replaced := if found.Some? then {found.value} else {};
      Taken(h.(trees := h.trees[revision := Some(n)] - replaced, linked := true), Done)
  }

  function Found(h: Hook, pick: Revision): Option<nat> {
    if pick in h.trees then Some(pick) else None
  }

  /** num_extensions panics on a tree in which the number was never recorded. */
  predicate Panics(h: Hook, pick: Revision) {
    pick in h.trees && h.trees[pick].None?
  }

  function AddProgram(h: Hook, pick: Revision, load: Load): Taken {
    if Panics(h, pick) then Taken(h, Panicked)
    else if pick in h.trees && h.trees[pick].value >= MAX_PROGRAMS then Taken(h, Refused)
    else
      var b := Build(h, Found(h, pick), h.programs + 1, load);
      if b.outcome == Done then b.(hook := b.hook.(programs := h.programs + 1)) else b
  }

  /** The program's own tree goes first, whatever happens then; without a dispatcher tree 0 - 1 wraps around. */
  function RemoveProgram(before: Hook, pick: Revision, load: Load): Taken
    requires before.programs > 0
  {
    var h := before.(programs := before.programs - 1);
    if Panics(h, pick) then Taken(h, Panicked)
    else if pick in h.trees && h.trees[pick].value == 1 then
      Taken(h.(trees := h.trees - {pick}, linked := false), if h.linked then Done else Failed)
    else if h.programs == 0 then Taken(h, Refused)
    else Build(h, Found(h, pick), h.programs, load)
  }

  /** The tree picked exists if the hook has any, and only a stored program is removed. */
  predicate Possible(h: Hook, step: Step) {
    (h.trees != map[] ==> step.pick in h.trees) && (step.Remove? ==> h.programs > 0)
  }

  function Take(h: Hook, step: Step): Taken
    requires Possible(h, step)
  {
    match step
    case Add(pick, load) => AddProgram(h, pick, load)
    case Remove(pick, load) => RemoveProgram(h, pick, load)
  }

  // ----- When a hook is in order -----

  /** One tree with the right number and a link if there are programs, nothing otherwise. */
  ghost predicate Exact(h: Hook) {
    && h.programs <= MAX_PROGRAMS && h.linked == (h.programs > 0)
    && if h.programs == 0 then h.trees == map[] else exists r :: OneTree(h, r)
  }

  ghost predicate OneTree(h: Hook, r: Revision) {
    h.trees == map[r := Some(h.programs)]
  }

  lemma TwoTrees(h: Hook, r: Revision, q: Revision)
    requires r in h.trees && q in h.trees && r != q
    ensures !Exact(h)
  {
    forall x: Revision ensures !OneTree(h, x) {
      if x == r { assert q !in map[x := Some(h.programs)]; } else { assert r !in map[x := Some(h.programs)]; }
    }
  }

  /** A load that ends puts the hook in order if it replaces the only other tree. */
  lemma BuiltExact(h: Hook, found: Option<Revision>, n: nat, programs: nat)
    requires 0 < n == programs <= MAX_PROGRAMS
    requires h.trees.Keys <= (if found.Some? then {found.value} else {}) + {NextRevision(found)}
    ensures Exact(Build(h, found, n, Loads).hook.(programs := programs))
  {
    var after := Build(h, found, n, Loads).hook.(programs := programs);
    assert after.trees == map[NextRevision(found) := Some(n)];
    assert OneTree(after, NextRevision(found));
  }

  /**
   An operation on a hook in order never panics, is refused only for an eleventh program, and leaves the hook in order
   if and only if no dispatcher load fails in it.
   */
  lemma ExactStep(h: Hook, step: Step)
    requires Exact(h) && Possible(h, step)
    ensures
      var t := Take(h, step);
      && t.outcome != Panicked
      && (t.outcome == Refused <==> step.Add? && h.programs == MAX_PROGRAMS)
      && (Exact(t.hook) <==> t.outcome != Failed)
  {
    var t, found := Take(h, step), Found(h, step.pick);
    if h.programs > 0 {
      var r :| OneTree(h, r);
      assert r in h.trees && step.pick == r && NextRevision(found) != r;
      if t.outcome == Failed { TwoTrees(t.hook, r, NextRevision(found)); }
      if t.outcome == Done && t.hook.programs == 0 { assert t.hook.trees == map[]; }
    } else if t.outcome == Failed {
      assert NextRevision(found) in t.hook.trees;
    }
    if t.outcome == Done && t.hook.programs > 0 {
      BuiltExact(h.(programs := t.hook.programs), found, t.hook.programs, t.hook.programs);
    }
  }

  /**
   After a failed load the next operation that does not fail in its load repairs the hook if and only if it finds the
   old tree and, should it be a removal, does not take the last program.
   */
  lemma RepairedExactly(h: Hook, r: Revision, load: Load, step: Step)
    requires Exact(h) && OneTree(h, r) && 0 < h.programs < MAX_PROGRAMS && !load.Loads? && step.load.Loads?
    requires Possible(AddProgram(h, r, load).hook, step)
    ensures
      var t := Take(AddProgram(h, r, load).hook, step);
      Exact(t.hook) <==> step.pick == r && (step.Remove? ==> h.programs > 1)
  {
    var left := AddProgram(h, r, load).hook;
    var q, t := NextRevision(Some(r)), Take(left, step);
    assert left.trees.Keys == {r, q} && r != q;
    if step.pick == r && (step.Remove? ==> h.programs > 1) {
      BuiltExact(left.(programs := t.hook.programs), Some(r), t.hook.programs, t.hook.programs);
    } else if step.pick == r {
      assert q in t.hook.trees && t.hook.programs == 0;
    } else {
      OldTreeStays(left, r, q, step);
    }
  }

  /** An operation that finds the leftover tree never drops the old one. */
  lemma OldTreeStays(h: Hook, r: Revision, q: Revision, step: Step)
    requires r in h.trees && q in h.trees && r != q && step.pick == q && step.load.Loads? && Possible(h, step)
    requires h.programs > 0 && (h.trees[q].Some? ==> h.trees[q].value > h.programs) && NextRevision(Some(r)) == q
    requires h.trees[r] == Some(h.programs) && h.trees.Keys == {r, q}
    ensures !Exact(Take(h, step).hook)
  {
    var t, p := Take(h, step), NextRevision(Some(q));
    assert p != q;
    if t.outcome == Done && p != r {
      TwoTrees(t.hook, r, p);
    } else if t.outcome != Done {
      TwoTrees(t.hook, r, q);
    }
  }

  /**
   Whatever happens: a removal always costs its program, an add brings one exactly if it is done; a recorded number is
   never lost from a tree that stays; and the link is there after a load, gone after the last removal, and otherwise
   as it was.
   */
  lemma StepKeeps(h: Hook, step: Step)
    requires Possible(h, step)
    ensures
      var t := Take(h, step);
      && t.hook.programs ==
         (if step.Remove? then h.programs - 1 else if t.outcome == Done then h.programs + 1 else h.programs)
      && (forall r | r in h.trees && r in t.hook.trees && h.trees[r].Some? :: t.hook.trees[r].Some?)
      && (t.outcome == Panicked || t.outcome == Refused ==> t.hook.trees == h.trees && t.hook.linked == h.linked)
      && (t.outcome == Done ==>
            if step.Remove? && step.pick in h.trees && h.trees[step.pick] == Some(1)
            then h.linked && !t.hook.linked else t.hook.linked)
  {
  }

  // ----- When a hook stays usable -----

  /** Every tree has its number recorded. */
  ghost predicate Counted(h: Hook) {
    forall r | r in h.trees :: h.trees[r].Some?
  }

  /** Whichever tree is found, no operation panics, if and only if every tree has its number recorded. */
  lemma UsableExactly(h: Hook)
    ensures Counted(h) <==> forall step | Possible(h, step) :: Take(h, step).outcome != Panicked
  {
    if !Counted(h) {
      var r :| r in h.trees && h.trees[r].None?;
      assert Possible(h, Add(r, Loads)) && Take(h, Add(r, Loads)).outcome == Panicked;
    }
  }

  /** The hook has trees, and none of them a number. */
  ghost predicate Bricked(h: Hook) {
    h.trees != map[] && forall r | r in h.trees :: h.trees[r].None?
  }

  ghost function Final(h: Hook, steps: seq<Step>): Hook
    requires AllPossible(h, steps)
    decreases |steps|
  {
    if steps == [] then h else Final(Take(h, steps[0]).hook, steps[1..])
  }

  ghost predicate AllPossible(h: Hook, steps: seq<Step>)
    decreases |steps|
  {
    steps == [] || (Possible(h, steps[0]) && AllPossible(Take(h, steps[0]).hook, steps[1..]))
  }

  ghost predicate NoneFails(h: Hook, steps: seq<Step>)
    requires AllPossible(h, steps)
    decreases |steps|
  {
    steps == [] || (Take(h, steps[0]).outcome != Failed && NoneFails(Take(h, steps[0]).hook, steps[1..]))
  }

  /** Runs in which no load fails keep the hook in order, whichever tree is found. */
  lemma {:induction false} ExactOverRuns(h: Hook, steps: seq<Step>)
    requires Exact(h) && AllPossible(h, steps) && NoneFails(h, steps)
    ensures Exact(Final(h, steps))
    decreases |steps|
  {
    if steps != [] {
      ExactStep(h, steps[0]);
      ExactOverRuns(Take(h, steps[0]).hook, steps[1..]);
    }
  }

  /** If the very first load on a hook fails early, for example because the dispatcher's image cannot be pulled, ... */
  lemma FirstLoadBricks(h: Hook, pick: Revision)
    requires h.trees == map[]
    ensures Bricked(AddProgram(h, pick, FailsEarly).hook)
  {
    assert 1 in AddProgram(h, pick, FailsEarly).hook.trees;
  }

  /** ... then every later operation on it panics, for ever, although no further call fails. */
  lemma {:induction false} BrickedForEver(h: Hook, steps: seq<Step>, step: Step)
    requires Bricked(h) && AllPossible(h, steps) && Possible(Final(h, steps), step)
    ensures Bricked(Final(h, steps)) && Take(Final(h, steps), step).outcome == Panicked
    decreases |steps|
  {
    if steps != [] { BrickedForEver(Take(h, steps[0]).hook, steps[1..], step); }
  }

  // ----- A stale tree -----

  const EMPTY := Hook(map[], 0, false)

  /**
   A program, a failed second load, a second program that finds the leftover tree, and a removal that finds the old.
   */
  const STALE := [Add(1, Loads), Add(1, FailsLate), Add(2, Loads), Remove(1, Loads)]

  /**
   The old tree's number is out of date, so the removal takes the other program for the last one and unpins the link:
   a program is still stored and counted, and no packet reaches it.
   */
  lemma StaleTreeUnlinks()
    ensures AllPossible(EMPTY, STALE) && Final(EMPTY, STALE) == Hook(map[3 := Some(2)], 1, false)
  {
    var h1 := Take(EMPTY, STALE[0]).hook;
    assert h1 == Hook(map[1 := Some(1)], 1, true);
    var h2 := Take(h1, STALE[1]).hook;
    assert h2 == Hook(map[1 := Some(1), 2 := Some(2)], 1, true);
    var h3 := Take(h2, STALE[2]).hook;
    assert h3.trees == map[1 := Some(1), 3 := Some(2)];
    var h4 := Take(h3, STALE[3]).hook;
    assert h4.trees == map[3 := Some(2)];
    assert Final(h4, []) == h4;
    Prepend(h3, STALE[3], []);
    Prepend(h2, STALE[2], [STALE[3]]);
    Prepend(h1, STALE[1], [STALE[2], STALE[3]]);
    Prepend(EMPTY, STALE[0], [STALE[1], STALE[2], STALE[3]]);
  }

  lemma Prepend(h: Hook, step: Step, steps: seq<Step>)
    requires Possible(h, step) && AllPossible(Take(h, step).hook, steps)
    ensures AllPossible(h, [step] + steps) && Final(h, [step] + steps) == Final(Take(h, step).hook, steps)
  {
    assert ([step] + steps)[1..] == steps;
  }
}
