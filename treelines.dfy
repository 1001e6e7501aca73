/**
 * Treeline grouping of the Sipnet sequence visualiser (the "ASSIGN COLORS" part of
 * `Visualiser.drawSequence`).
 *
 * A sequence is a list of nodes, each node a list of assignments, each assignment a
 * list of source candidates linked to a list of target candidates. The visualiser
 * keeps a list of treelines (sets of candidates). For every assignment it collects
 * the treelines of the targets (a fresh singleton for a target that is the death node
 * or is found in no treeline), merges them with the sources other than the emerge
 * node into one new treeline, removes the target treelines from the list (by content,
 * as `Vector.remove(Object)` does) and appends the new one. Every treeline then gets
 * one colour, and a candidate the colour of the last treeline that holds it.
 *
 * Candidates are an opaque type with equality; the colours, which the source draws at
 * random, are a parameter `palette`: the colour drawn for the i-th treeline.
 */
module Treelines {
  import opened Seqs

  /** The two distinguished candidates of the sequence search. */
  datatype Sentinels<C> = Sentinels(death: C, emerge: C)

  /** One assignment of a sequence node: sources on one slice linked to targets on the next. */
  datatype Assignment<C> = Assignment(sources: seq<C>, targets: seq<C>)

  /** The list after the targets were looked up, and the treelines recorded for them. */
  datatype Lookup<C> = Lookup(treelines: seq<set<C>>, found: seq<set<C>>)

  // ---------------------------------------------------------------------------------
  // Specification functions

  /** The test `treeline.contains(target)`. */
  function Holding<C>(t: C): set<C> -> bool
  {
    (T: set<C>) => t in T
  }

  /** `T` holds a target that the grouping searches for, i.e. one that is not the death node. */
  predicate HoldsSearchedTarget<C(==)>(T: set<C>, targets: seq<C>, death: C)
  {
    exists i :: 0 <= i < |targets| && targets[i] != death && targets[i] in T
  }

  /** The treelines that an assignment with these targets leaves in the list. */
  function Untouched<C(==)>(targets: seq<C>, death: C): set<C> -> bool
  {
    (T: set<C>) => !HoldsSearchedTarget(T, targets, death)
  }

  /** Like `Untouched`, but also setting aside the singleton of the death node. */
  function UntouchedProper<C(==)>(targets: seq<C>, death: C): set<C> -> bool
  {
    (T: set<C>) => !HoldsSearchedTarget(T, targets, death) && T != {death}
  }

  /** The union of a list of treelines. */
  function UnionAll<C>(ss: seq<set<C>>): set<C>
    decreases |ss|
  {
    if ss == [] then {} else UnionAll(ss[..|ss| - 1]) + ss[|ss| - 1]
  }

  /** A candidate is in the union exactly when some treeline of the list holds it. */
  lemma {:induction false} UnionAllMember<C>(ss: seq<set<C>>, c: C)
    ensures c in UnionAll(ss) <==> exists i :: 0 <= i < |ss| && c in ss[i]
    decreases |ss|
  {
    if ss != [] {
      var n := |ss| - 1;
      UnionAllMember(ss[..n], c);
      if c in UnionAll(ss[..n]) {
        var i :| 0 <= i < n && c in ss[..n][i];
      }
    }
  }

  /** Looking up one target (source lines 48-63). */
  function LookUpTarget<C(==)>(ts: seq<set<C>>, t: C, death: C): Lookup<C>
  {
    var found := if t != death then Filter(ts, Holding(t)) else [];
    if found != [] then Lookup(ts, found) else Lookup(ts + [{t}], [{t}])
  }

  /** Looking up the targets one after the other (source lines 45-64). */
  function LookUpTargets<C(==)>(ts: seq<set<C>>, targets: seq<C>, death: C): Lookup<C>
    decreases |targets|
  {
    if targets == [] then Lookup(ts, [])
    else
      var before := LookUpTargets(ts, targets[..|targets| - 1], death);
      var last := LookUpTarget(before.treelines, targets[|targets| - 1], death);
      Lookup(last.treelines, before.found + last.found)
  }

  lemma LookUpTargetsSnoc<C>(ts: seq<set<C>>, targets: seq<C>, i: nat, death: C, e: seq<set<C>>, f: seq<set<C>>)
    requires i < |targets| && Lookup(e, f) == LookUpTargets(ts, targets[..i], death)
    ensures var last := LookUpTarget(e, targets[i], death);
            LookUpTargets(ts, targets[..i + 1], death) == Lookup(last.treelines, f + last.found)
  {
    assert targets[..i + 1][..i] == targets[..i];
  }

  /** What the search loop finds for one target is the lookup of that target. */
  lemma LookUpTargetIs<C>(e: seq<set<C>>, t: C, death: C, found: bool, holding: seq<set<C>>)
    requires t != death ==> holding == Filter(e, Holding(t)) && (found <==> holding != [])
    requires t == death ==> !found && holding == []
    ensures LookUpTarget(e, t, death) == if found then Lookup(e, holding) else Lookup(e + [{t}], [{t}])
  {
  }

  /** The sources that are added to the new treeline: all but the emerge node. */
  function NonEmergeSources<C(==)>(sources: seq<C>, emerge: C): set<C>
  {
    set c | c in sources && c != emerge
  }

  /** The treeline list after one assignment (source lines 44-81). */
  function Step<C(==)>(ts: seq<set<C>>, a: Assignment<C>, s: Sentinels<C>): seq<set<C>>
  {
    var l := LookUpTargets(ts, a.targets, s.death);
    RemoveEach(l.treelines, l.found) + [UnionAll(l.found) + NonEmergeSources(a.sources, s.emerge)]
  }

  /** The assignments of a sequence in iteration order: node by node. */
  function Assignments<C>(nodes: seq<seq<Assignment<C>>>): seq<Assignment<C>>
    decreases |nodes|
  {
    if nodes == [] then [] else Assignments(nodes[..|nodes| - 1]) + nodes[|nodes| - 1]
  }

  /** The treeline list after a run of assignments. */
  function Replay<C(==)>(ts: seq<set<C>>, run: seq<Assignment<C>>, s: Sentinels<C>): seq<set<C>>
    decreases |run|
  {
    if run == [] then ts else Step(Replay(ts, run[..|run| - 1], s), run[|run| - 1], s)
  }

  /** The treelines of a whole sequence, starting from an empty list (source lines 32-83). */
  function Grouping<C(==)>(nodes: seq<seq<Assignment<C>>>, s: Sentinels<C>): seq<set<C>>
  {
    Replay([], Assignments(nodes), s)
  }

  /** The colour map: each treeline in list order overwrites its members (source lines 85-94). */
  function ColourMap<C(==), K>(ts: seq<set<C>>, palette: nat -> K): map<C, K>
    decreases |ts|
  {
    if ts == [] then map[]
    else
      var n := |ts| - 1;
      ColourMap(ts[..n], palette) + map c | c in ts[n] :: palette(n)
  }

  /** `c` is in some treeline of the list. */
  predicate Covered<C(==)>(ts: seq<set<C>>, c: C)
  {
    exists i :: 0 <= i < |ts| && c in ts[i]
  }

  // ---------------------------------------------------------------------------------
  // Looking up the targets

  /** The two outcomes of looking up target `t` in list `e`, giving list `e2` and the
      recorded treelines `g`: found (the list stays, every treeline holding `t` is
      recorded), or a fresh singleton `{t}` appended and recorded, which happens for the
      death node and for a target no treeline holds. */
  ghost predicate LookedUp<C>(e: seq<set<C>>, t: C, death: C, e2: seq<set<C>>, g: seq<set<C>>)
  {
    || (t != death && e2 == e && g == Filter(e, Holding(t)) && g != [])
    || (e2 == e + [{t}] && g == [{t}] && (t != death ==> forall X :: X in e ==> t !in X))
  }

  lemma LookUpTargetCases<C>(e: seq<set<C>>, t: C, death: C)
    ensures var r := LookUpTarget(e, t, death); LookedUp(e, t, death, r.treelines, r.found)
  {
    if t != death && Filter(e, Holding(t)) == [] {
      forall X | X in e ensures t !in X {
        FilterMember(e, Holding(t), X);
      }
    }
  }

  /** Splits the lookup of a non-empty target list into the lookup of all but the last
      target and the lookup of the last one. */
  lemma LookUpSnoc<C>(ts: seq<set<C>>, targets: seq<C>, death: C)
    returns (e: seq<set<C>>, f: seq<set<C>>, e2: seq<set<C>>, g: seq<set<C>>)
    requires targets != []
    ensures var n := |targets| - 1;
      && Lookup(e, f) == LookUpTargets(ts, targets[..n], death)
      && LookedUp(e, targets[n], death, e2, g)
      && Lookup(e2, f + g) == LookUpTargets(ts, targets, death)
  {
    var n := |targets| - 1;
    var before := LookUpTargets(ts, targets[..n], death);
    var last := LookUpTarget(before.treelines, targets[n], death);
    LookUpTargetCases(before.treelines, targets[n], death);
    e, f, e2, g := before.treelines, before.found, last.treelines, last.found;
  }

  lemma HoldsSnoc<C>(X: set<C>, older: seq<C>, t: C, death: C)
    ensures HoldsSearchedTarget(X, older + [t], death)
        <==> HoldsSearchedTarget(X, older, death) || (t != death && t in X)
  {
    var targets := older + [t];
    if HoldsSearchedTarget(X, targets, death) {
      var i :| 0 <= i < |targets| && targets[i] != death && targets[i] in X;
      if i < |older| {
        assert older[i] == targets[i];
      }
    }
    if HoldsSearchedTarget(X, older, death) {
      var i :| 0 <= i < |older| && older[i] != death && older[i] in X;
      assert targets[i] == older[i];
    }
    if t != death && t in X {
      assert targets[|older|] == t;
    }
  }

  /** The lookup only appends, and what it appends are singletons of targets; what it
      records are elements of the list. */
  lemma {:induction false} LookUpShape<C>(ts: seq<set<C>>, targets: seq<C>, death: C)
    ensures var l := LookUpTargets(ts, targets, death);
      && |ts| <= |l.treelines| && l.treelines[..|ts|] == ts
      && (forall i :: |ts| <= i < |l.treelines| ==> exists t :: t in targets && l.treelines[i] == {t})
      && (forall X :: X in l.found ==> X in l.treelines)
    decreases |targets|
  {
    if targets != [] {
      var n := |targets| - 1;
      var t := targets[n];
      LookUpShape(ts, targets[..n], death);
      var e, f, e2, g := LookUpSnoc(ts, targets, death);
      forall X | X in g
        ensures X in e2
      {
        if e2 == e {
          FilterMember(e, Holding(t), X);
        }
      }
      forall i | |ts| <= i < |e2|
        ensures exists t' :: t' in targets && e2[i] == {t'}
      {
        if i < |e| {
          var t' :| t' in targets[..n] && e[i] == {t'};
          assert t' in targets;
        } else {
          assert e2[i] == {t};
        }
      }
    }
  }

  /** Every element of the list after the lookup was in the list before or is the
      singleton of a target. */
  lemma LookUpElements<C>(ts: seq<set<C>>, targets: seq<C>, death: C, X: set<C>)
    requires X in LookUpTargets(ts, targets, death).treelines
    ensures X in ts || exists t :: t in targets && X == {t}
  {
    LookUpShape(ts, targets, death);
    var e := LookUpTargets(ts, targets, death).treelines;
    var i :| 0 <= i < |e| && e[i] == X;
    if i < |ts| {
      assert e[..|ts|][i] == X;
    }
  }

  /** Every treeline of the list before the lookup is still in the list. */
  lemma LookUpKeeps<C>(ts: seq<set<C>>, targets: seq<C>, death: C, T: set<C>)
    requires T in ts
    ensures T in LookUpTargets(ts, targets, death).treelines
  {
    LookUpShape(ts, targets, death);
    var e := LookUpTargets(ts, targets, death).treelines;
    var i :| 0 <= i < |ts| && ts[i] == T;
    assert e[..|ts|][i] == T;
  }

  /** Every target is held by a treeline recorded for the assignment. */
  lemma {:induction false} LookUpHoldsTargets<C>(ts: seq<set<C>>, targets: seq<C>, death: C)
    ensures forall t :: t in targets ==> exists X :: X in LookUpTargets(ts, targets, death).found && t in X
    decreases |targets|
  {
    if targets != [] {
      var n := |targets| - 1;
      var t := targets[n];
      LookUpHoldsTargets(ts, targets[..n], death);
      var e, f, e2, g := LookUpSnoc(ts, targets, death);
      assert targets == targets[..n] + [t];
      if e2 == e {
        FilterMember(e, Holding(t), g[0]);
        assert g[0] in f + g;
      } else {
        assert {t} in f + g;
      }
    }
  }

  /** What is recorded for the targets: only treelines holding a searched target, and one
      singleton of the death node per occurrence of the death node among the targets. */
  lemma {:induction false} LookUpFound<C>(ts: seq<set<C>>, targets: seq<C>, death: C)
    ensures var l := LookUpTargets(ts, targets, death);
      && (forall X :: X in l.found ==> HoldsSearchedTarget(X, targets, death) || (X == {death} && death in targets))
      && multiset(l.found)[{death}] == multiset(targets)[death]
    decreases |targets|
  {
    if targets != [] {
      var n := |targets| - 1;
      var t := targets[n];
      var older := targets[..n];
      assert targets == older + [t];
      LookUpFound(ts, older, death);
      var e, f, e2, g := LookUpSnoc(ts, targets, death);
      forall X | X in f + g
        ensures HoldsSearchedTarget(X, targets, death) || (X == {death} && death in targets)
      {
        HoldsSnoc(X, older, t, death);
        if X in g && e2 == e {
          FilterMember(e, Holding(t), X);
        }
      }
      if e2 == e {
        FilterMember(e, Holding(t), {death});
        assert {death} !in g;
      }
    }
  }

  /** The counts survive looking up one more target, given that every earlier searched
      target is held by a treeline of the list. */
  lemma CountsStep<C>(ts: seq<set<C>>, older: seq<C>, t: C, death: C,
                      e: seq<set<C>>, f: seq<set<C>>, e2: seq<set<C>>, g: seq<set<C>>)
    requires (forall X :: HoldsSearchedTarget(X, older, death) ==> multiset(f)[X] >= multiset(e)[X])
             && (forall X :: !HoldsSearchedTarget(X, older, death) ==>
                   multiset(e)[X] == multiset(ts)[X] + (if X == {death} then multiset(older)[death] else 0))
    requires forall u :: u in older && u != death ==> exists Y :: Y in e && u in Y
    requires LookedUp(e, t, death, e2, g)
    ensures (forall X :: HoldsSearchedTarget(X, older + [t], death) ==> multiset(f + g)[X] >= multiset(e2)[X])
            && (forall X :: !HoldsSearchedTarget(X, older + [t], death) ==>
                  multiset(e2)[X] == multiset(ts)[X] + (if X == {death} then multiset(older + [t])[death] else 0))
  {
    var targets := older + [t];
    assert multiset(targets) == multiset(older) + multiset{t};
    if e2 == e && t != death && g == Filter(e, Holding(t)) {
      forall X | HoldsSearchedTarget(X, targets, death)
        ensures multiset(f + g)[X] >= multiset(e2)[X]
      {
        HoldsSnoc(X, older, t, death);
        FilterCount(e, Holding(t), X);
      }
      forall X | !HoldsSearchedTarget(X, targets, death)
        ensures multiset(e2)[X] == multiset(ts)[X] + (if X == {death} then multiset(targets)[death] else 0)
      {
        HoldsSnoc(X, older, t, death);
      }
    } else {
      assert e2 == e + [{t}] && g == [{t}];
      forall X | HoldsSearchedTarget(X, targets, death)
        ensures multiset(f + g)[X] >= multiset(e2)[X]
      {
        HoldsSnoc(X, older, t, death);
        if X == {t} {
          assert X !in e;
        } else if !HoldsSearchedTarget(X, older, death) {
          assert X !in e;
        }
      }
      forall X | !HoldsSearchedTarget(X, targets, death)
        ensures multiset(e2)[X] == multiset(ts)[X] + (if X == {death} then multiset(targets)[death] else 0)
      {
        HoldsSnoc(X, older, t, death);
      }
    }
  }

  /** Treeline counts, as the removal needs them: every treeline holding a searched target
      is recorded at least as often as it occurs in the list, and the other treelines
      occur as often as before, except that one singleton of the death node is added per
      death target. */
  lemma {:induction false} LookUpCounts<C>(ts: seq<set<C>>, targets: seq<C>, death: C)
    ensures var l := LookUpTargets(ts, targets, death);
      (forall X :: HoldsSearchedTarget(X, targets, death) ==> multiset(l.found)[X] >= multiset(l.treelines)[X])
      && (forall X :: !HoldsSearchedTarget(X, targets, death) ==>
            multiset(l.treelines)[X] == multiset(ts)[X] + (if X == {death} then multiset(targets)[death] else 0))
    decreases |targets|
  {
    if targets != [] {
      var n := |targets| - 1;
      var older := targets[..n];
      assert targets == older + [targets[n]];
      LookUpCounts(ts, older, death);
      LookUpHoldsTargets(ts, older, death);
      LookUpShape(ts, older, death);
      var e, f, e2, g := LookUpSnoc(ts, targets, death);
      CountsStep(ts, older, targets[n], death, e, f, e2, g);
    }
  }

  /** A target that is the death node, or that no treeline holds, gets a fresh singleton,
      which is recorded for the assignment. */
  lemma FreshSingleton<C>(ts: seq<set<C>>, targets: seq<C>, death: C, t: C)
    requires t in targets
    requires t == death || forall T :: T in ts ==> t !in T
    ensures {t} in LookUpTargets(ts, targets, death).found
  {
    LookUpHoldsTargets(ts, targets, death);
    var l := LookUpTargets(ts, targets, death);
    var X :| X in l.found && t in X;
    LookUpFound(ts, targets, death);
    if t == death {
      assert multiset(targets)[death] > 0;
      assert multiset(l.found)[{death}] > 0;
    } else {
      LookUpShape(ts, targets, death);
      LookUpElements(ts, targets, death, X);
      if X !in ts {
        var t' :| t' in targets && X == {t'};
      }
    }
  }

  /** What the new treeline draws from the list: the members of the listed treelines that
      hold a searched target, and the targets themselves. */
  ghost predicate Reached<C>(ts: seq<set<C>>, targets: seq<C>, death: C, c: C)
  {
    (exists T :: T in ts && HoldsSearchedTarget(T, targets, death) && c in T) || c in targets
  }

  lemma CoveredConcat<C>(a: seq<set<C>>, b: seq<set<C>>, c: C)
    ensures Covered(a + b, c) <==> Covered(a, c) || Covered(b, c)
  {
    if Covered(a + b, c) {
      var i :| 0 <= i < |a + b| && c in (a + b)[i];
      if i >= |a| {
        assert b[i - |a|] == (a + b)[i];
      }
    }
    if Covered(a, c) {
      var i :| 0 <= i < |a| && c in a[i];
      assert (a + b)[i] == a[i];
    }
    if Covered(b, c) {
      var i :| 0 <= i < |b| && c in b[i];
      assert (a + b)[|a| + i] == b[i];
    }
  }

  lemma ReachedSnoc<C>(ts: seq<set<C>>, older: seq<C>, t: C, death: C, c: C)
    ensures Reached(ts, older + [t], death, c)
        <==> Reached(ts, older, death, c) || c == t
             || (t != death && exists T :: T in ts && t in T && c in T)
  {
    if exists T :: T in ts && HoldsSearchedTarget(T, older + [t], death) && c in T {
      var T :| T in ts && HoldsSearchedTarget(T, older + [t], death) && c in T;
      HoldsSnoc(T, older, t, death);
    }
    if exists T :: T in ts && HoldsSearchedTarget(T, older, death) && c in T {
      var T :| T in ts && HoldsSearchedTarget(T, older, death) && c in T;
      HoldsSnoc(T, older, t, death);
    }
    if t != death && exists T :: T in ts && t in T && c in T {
      var T :| T in ts && t in T && c in T;
      HoldsSnoc(T, older, t, death);
    }
  }

  /** The recorded treelines reach what `Reached` says after one more target. */
  lemma UnionStep<C>(ts: seq<set<C>>, older: seq<C>, t: C, death: C,
                     e: seq<set<C>>, f: seq<set<C>>, e2: seq<set<C>>, g: seq<set<C>>, c: C)
    requires Covered(f, c) <==> Reached(ts, older, death, c)
    requires forall X :: X in e ==> X in ts || exists u :: u in older && X == {u}
    requires forall T :: T in ts ==> T in e
    requires LookedUp(e, t, death, e2, g)
    ensures Covered(f + g, c) <==> Reached(ts, older + [t], death, c)
  {
    CoveredConcat(f, g, c);
    ReachedSnoc(ts, older, t, death, c);
    if e2 == e && t != death && g == Filter(e, Holding(t)) {
      if Covered(g, c) {
        var i :| 0 <= i < |g| && c in g[i];
        FilterMember(e, Holding(t), g[i]);
        if g[i] !in ts {
          var u :| u in older && g[i] == {u};
        }
      }
      if c == t {
        FilterMember(e, Holding(t), g[0]);
      }
      if exists T :: T in ts && t in T && c in T {
        var T :| T in ts && t in T && c in T;
        FilterMember(e, Holding(t), T);
        var i :| 0 <= i < |g| && g[i] == T;
      }
    } else {
      assert g == [{t}];
      if Covered(g, c) {
        var i :| 0 <= i < |g| && c in g[i];
      }
      assert c == t ==> c in g[0];
    }
  }

  /** The recorded treelines together hold exactly the members of the listed treelines
      that hold a searched target, and the targets themselves. */
  lemma {:induction false} LookUpUnion<C>(ts: seq<set<C>>, targets: seq<C>, death: C, c: C)
    ensures Covered(LookUpTargets(ts, targets, death).found, c) <==> Reached(ts, targets, death, c)
    decreases |targets|
  {
    if targets != [] {
      var n := |targets| - 1;
      var older := targets[..n];
      assert targets == older + [targets[n]];
      LookUpUnion(ts, older, death, c);
      var e, f, e2, g := LookUpSnoc(ts, targets, death);
      forall X | X in e ensures X in ts || exists u :: u in older && X == {u} {
        LookUpElements(ts, older, death, X);
      }
      forall T | T in ts ensures T in e {
        LookUpKeeps(ts, older, death, T);
      }
      UnionStep(ts, older, targets[n], death, e, f, e2, g, c);
    }
  }

  // ---------------------------------------------------------------------------------
  // One assignment

  /** The new treeline is the union of the treelines that hold a searched target, the
      targets, and the sources other than the emerge node; nothing else is added. */
  lemma NewTreeline<C>(ts: seq<set<C>>, a: Assignment<C>, s: Sentinels<C>, c: C)
    ensures var r := Step(ts, a, s);
      c in r[|r| - 1]
      <==> (exists T :: T in ts && HoldsSearchedTarget(T, a.targets, s.death) && c in T)
           || c in a.targets
           || (c in a.sources && c != s.emerge)
  {
    var l := LookUpTargets(ts, a.targets, s.death);
    LookUpUnion(ts, a.targets, s.death, c);
    UnionAllMember(l.found, c);
  }

  /** After an assignment, the last treeline holds every target and every source other
      than the emerge node. */
  lemma LastTreelineHoldsAssignment<C>(ts: seq<set<C>>, a: Assignment<C>, s: Sentinels<C>)
    ensures var r := Step(ts, a, s);
      && (forall t :: t in a.targets ==> t in r[|r| - 1])
      && (forall c :: c in a.sources && c != s.emerge ==> c in r[|r| - 1])
  {
    forall c | c in a.targets || (c in a.sources && c != s.emerge)
      ensures c in Step(ts, a, s)[|Step(ts, a, s)| - 1]
    {
      NewTreeline(ts, a, s, c);
    }
  }

  /** A target that is the death node or in no treeline gets a fresh singleton, which
      ends up in the new treeline. */
  lemma FreshTargetMerged<C>(ts: seq<set<C>>, a: Assignment<C>, s: Sentinels<C>, t: C)
    requires t in a.targets
    requires t == s.death || forall T :: T in ts ==> t !in T
    ensures {t} in LookUpTargets(ts, a.targets, s.death).found
    ensures var r := Step(ts, a, s); {t} <= r[|r| - 1]
  {
    FreshSingleton(ts, a.targets, s.death, t);
    NewTreeline(ts, a, s, t);
  }

  /** Taking the recorded treelines from the list leaves none of a treeline holding a
      searched target, and as many as before of the others. */
  lemma RemainingCounts<C>(ts: seq<set<C>>, targets: seq<C>, death: C, e: seq<set<C>>, f: seq<set<C>>)
    requires (forall X :: HoldsSearchedTarget(X, targets, death) ==> multiset(f)[X] >= multiset(e)[X])
             && (forall X :: !HoldsSearchedTarget(X, targets, death) ==>
                   multiset(e)[X] == multiset(ts)[X] + (if X == {death} then multiset(targets)[death] else 0))
    requires forall Y :: Y in f ==> HoldsSearchedTarget(Y, targets, death) || Y == {death}
    requires multiset(f)[{death}] == multiset(targets)[death]
    ensures multiset(e) - multiset(f) == multiset(Filter(ts, Untouched(targets, death)))
  {
    forall X
      ensures (multiset(e) - multiset(f))[X] == multiset(Filter(ts, Untouched(targets, death)))[X]
    {
      FilterCount(ts, Untouched(targets, death), X);
      assert Untouched(targets, death)(X) == !HoldsSearchedTarget(X, targets, death);
      if !HoldsSearchedTarget(X, targets, death) && X != {death} {
        assert X !in f;
      }
    }
    SameCounts(multiset(e) - multiset(f), multiset(Filter(ts, Untouched(targets, death))));
  }

  /** Removing the recorded treelines leaves, as a multiset, the treelines that hold no
      searched target. */
  lemma RemainingMultiset<C>(ts: seq<set<C>>, targets: seq<C>, death: C)
    ensures var l := LookUpTargets(ts, targets, death);
      multiset(RemoveEach(l.treelines, l.found)) == multiset(Filter(ts, Untouched(targets, death)))
  {
    var l := LookUpTargets(ts, targets, death);
    LookUpFound(ts, targets, death);
    LookUpCounts(ts, targets, death);
    RemoveEachCount(l.treelines, l.found);
    RemainingCounts(ts, targets, death, l.treelines, l.found);
  }

  /** The treelines the lookup appends are singletons that are set aside: of a searched
      target, or of the death node. */
  lemma AppendedSetAside<C>(ts: seq<set<C>>, targets: seq<C>, death: C)
    ensures var e := LookUpTargets(ts, targets, death).treelines;
      && |ts| <= |e| && e == ts + e[|ts|..]
      && (forall X :: X in e[|ts|..] ==> !UntouchedProper(targets, death)(X))
      && (death !in targets ==> forall X :: X in e[|ts|..] ==> !Untouched(targets, death)(X))
  {
    LookUpShape(ts, targets, death);
    var e := LookUpTargets(ts, targets, death).treelines;
    var appended := e[|ts|..];
    assert e == ts + appended;
    forall X | X in appended
      ensures !UntouchedProper(targets, death)(X)
      ensures death !in targets ==> !Untouched(targets, death)(X)
    {
      var i :| 0 <= i < |appended| && appended[i] == X;
      assert e[|ts| + i] == X;
      var t :| t in targets && X == {t};
      if t != death {
        var k :| 0 <= k < |targets| && targets[k] == t;
        assert HoldsSearchedTarget(X, targets, death);
      }
    }
  }

  /** Removing the recorded treelines keeps, in list order, the treelines that hold no
      searched target and are not the singleton of the death node. */
  lemma RemainingOrder<C>(ts: seq<set<C>>, targets: seq<C>, death: C)
    ensures var l := LookUpTargets(ts, targets, death);
      Filter(RemoveEach(l.treelines, l.found), UntouchedProper(targets, death)) == Filter(ts, UntouchedProper(targets, death))
  {
    var l := LookUpTargets(ts, targets, death);
    var e, f := l.treelines, l.found;
    var p := UntouchedProper(targets, death);
    AppendedSetAside(ts, targets, death);
    var appended := e[|ts|..];
    FilterConcat(ts, appended, p);
    FilterNonePass(appended, p);
    LookUpFound(ts, targets, death);
    FilterRemoveEach(e, f, p);
  }

  /** Without the death node among the targets, removing the recorded treelines keeps
      exactly the treelines that hold no searched target, in list order. */
  lemma RemainingExact<C>(ts: seq<set<C>>, targets: seq<C>, death: C)
    requires death !in targets
    ensures var l := LookUpTargets(ts, targets, death);
      RemoveEach(l.treelines, l.found) == Filter(ts, Untouched(targets, death))
  {
    var l := LookUpTargets(ts, targets, death);
    var e, f := l.treelines, l.found;
    var keep := Untouched(targets, death);
    var rest := RemoveEach(e, f);
    AppendedSetAside(ts, targets, death);
    var appended := e[|ts|..];
    FilterConcat(ts, appended, keep);
    FilterNonePass(appended, keep);
    LookUpFound(ts, targets, death);
    FilterRemoveEach(e, f, keep);
    RemainingMultiset(ts, targets, death);
    forall X | X in rest
      ensures keep(X)
    {
      FilterCount(ts, keep, X);
    }
    FilterAllPass(rest, keep);
  }

  /** The treelines kept before the new one: as a multiset, exactly those that hold no
      searched target; in list order, exactly those apart from singletons of the death
      node; and, when no target is the death node, exactly those in list order. */
  lemma RemainingTreelines<C>(ts: seq<set<C>>, a: Assignment<C>, s: Sentinels<C>)
    ensures var r := Step(ts, a, s);
      && multiset(r[..|r| - 1]) == multiset(Filter(ts, Untouched(a.targets, s.death)))
      && Filter(r[..|r| - 1], UntouchedProper(a.targets, s.death)) == Filter(ts, UntouchedProper(a.targets, s.death))
      && (s.death !in a.targets ==> r[..|r| - 1] == Filter(ts, Untouched(a.targets, s.death)))
  {
    var l := LookUpTargets(ts, a.targets, s.death);
    var r := Step(ts, a, s);
    assert r[..|r| - 1] == RemoveEach(l.treelines, l.found);
    RemainingMultiset(ts, a.targets, s.death);
    RemainingOrder(ts, a.targets, s.death);
    if s.death !in a.targets {
      RemainingExact(ts, a.targets, s.death);
    }
  }

  /** A list made of kept treelines and one new treeline holding every member of the
      treelines not kept covers what the old list covered and the new treeline. */
  lemma CoveredSplit<C>(ts: seq<set<C>>, rest: seq<set<C>>, N: set<C>, keep: set<C> -> bool, c: C)
    requires multiset(rest) == multiset(Filter(ts, keep))
    requires forall T :: T in ts && !keep(T) && c in T ==> c in N
    ensures Covered(rest + [N], c) <==> Covered(ts, c) || c in N
  {
    var r := rest + [N];
    if Covered(r, c) {
      var i :| 0 <= i < |r| && c in r[i];
      if i < |rest| {
        var T := rest[i];
        assert T in multiset(rest);
        FilterMember(ts, keep, T);
        var j :| 0 <= j < |ts| && ts[j] == T;
      }
    }
    if Covered(ts, c) {
      var j :| 0 <= j < |ts| && c in ts[j];
      var T := ts[j];
      if keep(T) {
        FilterMember(ts, keep, T);
        assert T in multiset(rest);
        var i :| 0 <= i < |rest| && rest[i] == T;
        assert r[i] == T;
      }
    }
    assert r[|rest|] == N;
  }

  /** Nothing is lost and nothing foreign is added: after an assignment the treelines hold
      the candidates they held before, the targets, and the sources other than the
      emerge node. */
  lemma StepCovers<C>(ts: seq<set<C>>, a: Assignment<C>, s: Sentinels<C>, c: C)
    ensures Covered(Step(ts, a, s), c)
        <==> Covered(ts, c) || c in a.targets || (c in a.sources && c != s.emerge)
  {
    var r := Step(ts, a, s);
    var rest, N := r[..|r| - 1], r[|r| - 1];
    assert r == rest + [N];
    var keep := Untouched(a.targets, s.death);
    RemainingTreelines(ts, a, s);
    NewTreeline(ts, a, s, c);
    CoveredSplit(ts, rest, N, keep, c);
    if exists T :: T in ts && HoldsSearchedTarget(T, a.targets, s.death) && c in T {
      var T :| T in ts && HoldsSearchedTarget(T, a.targets, s.death) && c in T;
      var j :| 0 <= j < |ts| && ts[j] == T;
    }
  }

  // ---------------------------------------------------------------------------------
  // The whole sequence and the colours

  /** `c` is a target, or a source other than the emerge node, of one of the assignments. */
  predicate Involved<C(==)>(run: seq<Assignment<C>>, c: C, s: Sentinels<C>)
  {
    exists k :: 0 <= k < |run| && (c in run[k].targets || (c in run[k].sources && c != s.emerge))
  }

  lemma InvolvedSnoc<C>(run: seq<Assignment<C>>, c: C, s: Sentinels<C>)
    requires run != []
    ensures var n := |run| - 1;
      Involved(run, c, s) <==> Involved(run[..n], c, s) || c in run[n].targets || (c in run[n].sources && c != s.emerge)
  {
    var n := |run| - 1;
    if Involved(run, c, s) {
      var k :| 0 <= k < |run| && (c in run[k].targets || (c in run[k].sources && c != s.emerge));
      if k < n {
        assert run[..n][k] == run[k];
      }
    }
    if Involved(run[..n], c, s) {
      var k :| 0 <= k < n && (c in run[..n][k].targets || (c in run[..n][k].sources && c != s.emerge));
      assert run[k] == run[..n][k];
    }
  }

  /** Replaying assignments covers exactly what the start list covered and the
      candidates the assignments involve. */
  lemma {:induction false} ReplayCovers<C>(ts: seq<set<C>>, run: seq<Assignment<C>>, s: Sentinels<C>, c: C)
    ensures Covered(Replay(ts, run, s), c) <==> Covered(ts, c) || Involved(run, c, s)
    decreases |run|
  {
    if run != [] {
      var n := |run| - 1;
      var before := Replay(ts, run[..n], s);
      assert Replay(ts, run, s) == Step(before, run[n], s);
      ReplayCovers(ts, run[..n], s, c);
      StepCovers(before, run[n], s, c);
      InvolvedSnoc(run, c, s);
    }
  }

  /** Replaying the assignments of a sequence up to one more assignment is one more step. */
  lemma ReplaySnoc<C>(run: seq<Assignment<C>>, a: Assignment<C>, s: Sentinels<C>)
    ensures Replay([], run + [a], s) == Step(Replay([], run, s), a, s)
  {
    assert (run + [a])[..|run|] == run;
  }

  /** A candidate of the sequence's assignments. */
  predicate InSequence<C(==)>(nodes: seq<seq<Assignment<C>>>, c: C, s: Sentinels<C>)
  {
    exists k, j :: 0 <= k < |nodes| && 0 <= j < |nodes[k]|
      && (c in nodes[k][j].targets || (c in nodes[k][j].sources && c != s.emerge))
  }

  lemma {:induction false} AssignmentsInvolved<C>(nodes: seq<seq<Assignment<C>>>, c: C, s: Sentinels<C>)
    ensures Involved(Assignments(nodes), c, s) <==> InSequence(nodes, c, s)
    decreases |nodes|
  {
    if nodes != [] {
      var n := |nodes| - 1;
      AssignmentsInvolved(nodes[..n], c, s);
      assert Assignments(nodes) == Assignments(nodes[..n]) + nodes[n];
      InvolvedAppend(Assignments(nodes[..n]), nodes[n], c, s);
      InSequenceSnoc(nodes, c, s);
    }
  }

  lemma InvolvedAppend<C>(front: seq<Assignment<C>>, back: seq<Assignment<C>>, c: C, s: Sentinels<C>)
    ensures Involved(front + back, c, s) <==> Involved(front, c, s) || Involved(back, c, s)
  {
    var run := front + back;
    if Involved(run, c, s) {
      var k :| 0 <= k < |run| && (c in run[k].targets || (c in run[k].sources && c != s.emerge));
      if k >= |front| {
        assert run[k] == back[k - |front|];
      }
    }
    if Involved(back, c, s) {
      var k :| 0 <= k < |back| && (c in back[k].targets || (c in back[k].sources && c != s.emerge));
      assert run[|front| + k] == back[k];
    }
    if Involved(front, c, s) {
      var k :| 0 <= k < |front| && (c in front[k].targets || (c in front[k].sources && c != s.emerge));
      assert run[k] == front[k];
    }
  }

  lemma InSequenceSnoc<C>(nodes: seq<seq<Assignment<C>>>, c: C, s: Sentinels<C>)
    requires nodes != []
    ensures InSequence(nodes, c, s) <==> InSequence(nodes[..|nodes| - 1], c, s) || Involved(nodes[|nodes| - 1], c, s)
  {
    var n := |nodes| - 1;
    if InSequence(nodes, c, s) {
      var k, j :| 0 <= k < |nodes| && 0 <= j < |nodes[k]|
        && (c in nodes[k][j].targets || (c in nodes[k][j].sources && c != s.emerge));
      if k < n {
        assert nodes[..n][k] == nodes[k];
      }
    }
    if InSequence(nodes[..n], c, s) {
      var k, j :| 0 <= k < n && 0 <= j < |nodes[..n][k]|
        && (c in nodes[..n][k][j].targets || (c in nodes[..n][k][j].sources && c != s.emerge));
      assert nodes[k] == nodes[..n][k];
    }
  }

  /** The treelines of a sequence hold exactly its targets and its sources other than the
      emerge node. */
  lemma GroupingCovers<C>(nodes: seq<seq<Assignment<C>>>, s: Sentinels<C>, c: C)
    ensures Covered(Grouping(nodes, s), c) <==> InSequence(nodes, c, s)
  {
    ReplayCovers([], Assignments(nodes), s, c);
    AssignmentsInvolved(nodes, c, s);
  }

  /** Every candidate in some treeline gets a colour, and that colour is the one of the
      last treeline that holds it; a candidate in no treeline gets none. */
  lemma {:induction false} ColourOfLastTreeline<C, K>(ts: seq<set<C>>, palette: nat -> K, c: C)
    ensures c in ColourMap(ts, palette) <==> Covered(ts, c)
    ensures forall i :: 0 <= i < |ts| && c in ts[i] && (forall j :: i < j < |ts| ==> c !in ts[j])
                     ==> c in ColourMap(ts, palette) && ColourMap(ts, palette)[c] == palette(i)
    decreases |ts|
  {
    if ts != [] {
      var n := |ts| - 1;
      ColourOfLastTreeline(ts[..n], palette, c);
      if Covered(ts[..n], c) {
        var i :| 0 <= i < n && c in ts[..n][i];
      }
      if Covered(ts, c) && c !in ts[n] {
        var i :| 0 <= i < |ts| && c in ts[i];
        assert c in ts[..n][i];
      }
      forall i | 0 <= i < |ts| && c in ts[i] && (forall j :: i < j < |ts| ==> c !in ts[j])
        ensures c in ColourMap(ts, palette) && ColourMap(ts, palette)[c] == palette(i)
      {
        if i < n {
          assert c in ts[..n][i];
          assert forall j :: i < j < n ==> c !in ts[..n][j];
        }
      }
    }
  }

  // ---------------------------------------------------------------------------------
  // The imperative grouping, as the source runs it

  /** Source lines 51-55: the treelines of the list that hold `target`, in list order. */
  method TreelinesHolding<C(==)>(treelines: seq<set<C>>, target: C)
    returns (found: bool, holding: seq<set<C>>)
    ensures holding == Filter(treelines, Holding(target))
    ensures found <==> holding != []
  {
    found, holding := false, [];
    var j := 0;
    while j < |treelines|
      invariant 0 <= j <= |treelines|
      invariant holding == Filter(treelines[..j], Holding(target))
      invariant found <==> holding != []
    {
      assert treelines[..j + 1][..j] == treelines[..j];
      if target in treelines[j] {
        found := true;
        holding := holding + [treelines[j]];
      }
      j := j + 1;
    }
    assert treelines[..j] == treelines;
  }

  /** Source lines 46-64: look up every target, appending fresh singletons to the list. */
  method FindTargetTreelines<C(==)>(treelines: seq<set<C>>, targets: seq<C>, death: C)
    returns (extended: seq<set<C>>, targetTreelines: seq<set<C>>)
    ensures Lookup(extended, targetTreelines) == LookUpTargets(treelines, targets, death)
  {
    extended, targetTreelines := treelines, [];
    var i := 0;
    while i < |targets|
      invariant 0 <= i <= |targets|
      invariant Lookup(extended, targetTreelines) == LookUpTargets(treelines, targets[..i], death)
    {
      ghost var e, f := extended, targetTreelines;
      LookUpTargetsSnoc(treelines, targets, i, death, e, f);
      var target := targets[i];
      var found := false;
      var holding := [];
      if target != death {
        found, holding := TreelinesHolding(extended, target);
        targetTreelines := targetTreelines + holding;
      }
      LookUpTargetIs(e, target, death, found, holding);
      if !found {
        assert targetTreelines == f;
        var treeline := {target};
        extended := extended + [treeline];
        targetTreelines := targetTreelines + [treeline];
      }
      i := i + 1;
    }
    assert targets[..i] == targets;
  }

  /** Source lines 67-74: merge the target treelines and add the sources but the emerge node. */
  method MergeTreelines<C(==)>(targetTreelines: seq<set<C>>, sources: seq<C>, emerge: C)
    returns (newTreeline: set<C>)
    ensures newTreeline == UnionAll(targetTreelines) + NonEmergeSources(sources, emerge)
  {
    newTreeline := {};
    var i := 0;
    while i < |targetTreelines|
      invariant 0 <= i <= |targetTreelines|
      invariant newTreeline == UnionAll(targetTreelines[..i])
    {
      assert targetTreelines[..i + 1][..i] == targetTreelines[..i];
      newTreeline := newTreeline + targetTreelines[i];
      i := i + 1;
    }
    assert targetTreelines[..i] == targetTreelines;
    var j := 0;
    while j < |sources|
      invariant 0 <= j <= |sources|
      invariant newTreeline == UnionAll(targetTreelines) + NonEmergeSources(sources[..j], emerge)
    {
      assert sources[..j + 1] == sources[..j] + [sources[j]];
      if sources[j] != emerge {
        newTreeline := newTreeline + {sources[j]};
      }
      j := j + 1;
    }
    assert sources[..j] == sources;
  }

  /** Source lines 77-78: remove each target treeline with `Vector.remove(Object)`. */
  method RemoveTreelines<C(==)>(treelines: seq<set<C>>, targetTreelines: seq<set<C>>)
    returns (rest: seq<set<C>>)
    ensures rest == RemoveEach(treelines, targetTreelines)
  {
    rest := treelines;
    var i := 0;
    while i < |targetTreelines|
      invariant 0 <= i <= |targetTreelines|
      invariant rest == RemoveEach(treelines, targetTreelines[..i])
    {
      assert targetTreelines[..i + 1][..i] == targetTreelines[..i];
      rest := RemoveFirst(rest, targetTreelines[i]);
      i := i + 1;
    }
    assert targetTreelines[..i] == targetTreelines;
  }

  /** Source lines 44-81: one assignment. */
  method ProcessAssignment<C(==)>(treelines: seq<set<C>>, a: Assignment<C>, s: Sentinels<C>)
    returns (result: seq<set<C>>)
    ensures result == Step(treelines, a, s)
  {
    var extended, targetTreelines := FindTargetTreelines(treelines, a.targets, s.death);
    var newTreeline := MergeTreelines(targetTreelines, a.sources, s.emerge);
    result := RemoveTreelines(extended, targetTreelines);
    result := result + [newTreeline];
  }

  /** Source lines 40-82: the assignments of one node, in order. */
  method ProcessNode<C(==)>(treelines: seq<set<C>>, node: seq<Assignment<C>>, s: Sentinels<C>, ghost done: seq<Assignment<C>>)
    returns (result: seq<set<C>>)
    requires treelines == Replay([], done, s)
    ensures result == Replay([], done + node, s)
  {
    result := treelines;
    ghost var run := done;
    var j := 0;
    while j < |node|
      invariant 0 <= j <= |node|
      invariant run == done + node[..j]
      invariant result == Replay([], run, s)
    {
      result := ProcessAssignment(result, node[j], s);
      ReplaySnoc(run, node[j], s);
      PrefixSnoc(node, j);
      AppendAssoc(done, node[..j], [node[j]]);
      run := run + [node[j]];
      j := j + 1;
    }
    assert node[..j] == node;
  }

  /** Source lines 32-83: the treelines of a whole sequence. */
  method GroupTreelines<C(==)>(nodes: seq<seq<Assignment<C>>>, s: Sentinels<C>)
    returns (treelines: seq<set<C>>)
    ensures treelines == Grouping(nodes, s)
  {
    treelines := [];
    ghost var done: seq<Assignment<C>> := [];
    var k := 0;
    while k < |nodes|
      invariant 0 <= k <= |nodes|
      invariant done == Assignments(nodes[..k])
      invariant treelines == Replay([], done, s)
    {
      treelines := ProcessNode(treelines, nodes[k], s, done);
      assert nodes[..k + 1][..k] == nodes[..k];
      done := done + nodes[k];
      k := k + 1;
    }
    assert nodes[..k] == nodes;
  }

  /** Source lines 92-93: give every member of one treeline one colour. */
  method ColourTreeline<C(==), K>(colours: map<C, K>, treeline: set<C>, colour: K) returns (result: map<C, K>)
    ensures result == colours + map c | c in treeline :: colour
  {
    result := colours;
    var rest := treeline;
    while rest != {}
      invariant rest <= treeline
      invariant result == colours + map c | c in treeline - rest :: colour
      decreases rest
    {
      var candidate :| candidate in rest;
      result := result[candidate := colour];
      rest := rest - {candidate};
    }
  }

  /** Source lines 85-94: give every member of every treeline that treeline's colour. */
  method AssignColours<C(==), K>(treelines: seq<set<C>>, palette: nat -> K)
    returns (colours: map<C, K>)
    ensures colours == ColourMap(treelines, palette)
  {
    colours := map[];
    var i := 0;
    while i < |treelines|
      invariant 0 <= i <= |treelines|
      invariant colours == ColourMap(treelines[..i], palette)
    {
      colours := ColourTreeline(colours, treelines[i], palette(i));
      assert treelines[..i + 1][..i] == treelines[..i];
      i := i + 1;
    }
    assert treelines[..i] == treelines;
  }
}
