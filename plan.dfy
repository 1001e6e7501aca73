/**
 * The drawing plan of `Visualiser.drawSequence`: which candidate is drawn on which slice
 * of the block image in which colour, and which markers and connection lines join the
 * sources and targets of the assignments.
 *
 * The image itself is not modelled. A plan is the list of drawing calls the visualiser
 * makes, in order; the pixels of a candidate are one `Pixels` call, whose colour is the
 * one set before the pixel loop. Slices are the 1-based stack indices: the node at
 * position k (0-based) of a sequence of n nodes draws on its previous slice n - k and on
 * its next slice n - k + 1.
 */
module SequencePlan {
  import opened Wrappers
  import opened Seqs
  import opened Decimal
  import opened Treelines

  datatype Rgb = Rgb(red: int, green: int, blue: int)

  datatype Point = Point(x: int, y: int)

  /** One drawing call on one slice of the stack. */
  datatype Draw<C> =
    | Pixels(slice: int, colour: Rgb, candidate: C)
    | Text(slice: int, colour: Rgb, text: string, at: Point)
    | Line(slice: int, colour: Rgb, from: Point, to: Point)
    | Oval(slice: int, colour: Rgb, left: int, top: int, width: int, height: int)

  /** What the drawing reads of a candidate: its id and its centre, already cast to `int`. */
  datatype Looks<!C> = Looks(id: C -> int, centre: C -> Point)

  /** Everything `drawSequence` draws with besides the sequence itself. */
  datatype Scene<!C> = Scene(s: Sentinels<C>, looks: Looks<C>, colours: map<C, Rgb>, drawIds: bool)

  const Green := Rgb(0, 255, 0)
  const Grey := Rgb(100, 100, 100)
  const Blue := Rgb(0, 0, 255)
  const Yellow := Rgb(255, 255, 0)
  const Red := Rgb(255, 0, 0)
  const Black := Rgb(0, 0, 0)

  predicate ValidRgb(c: Rgb)
  {
    0 <= c.red <= 255 && 0 <= c.green <= 255 && 0 <= c.blue <= 255
  }

  // ---------------------------------------------------------------------------------
  // Colours and the midpoint

  /** The annotation colour of `drawCandidate`: 255 minus each channel. */
  function Complement(c: Rgb): (r: Rgb)
    ensures ValidRgb(c) <==> ValidRgb(r)
  {
    Rgb(255 - c.red, 255 - c.green, 255 - c.blue)
  }

  /** Java's `a / 2` on `int`, which truncates toward zero. */
  function Half(a: int): (r: int)
    ensures -1 <= a - 2 * r <= 1
    ensures a >= 0 ==> 0 <= 2 * r <= a
    ensures a < 0 ==> a <= 2 * r <= 0
  {
    if a >= 0 then a / 2 else -((-a) / 2)
  }

  /** `((x1 + x2)/2, (y1 + y2)/2)` of `drawConnectionTo` and `drawConnectionFrom`. */
  function Midpoint(p: Point, q: Point): Point
  {
    Point(Half(p.x + q.x), Half(p.y + q.y))
  }

  /** The midpoint lies in the box spanned by the two points, and does not depend on their order. */
  lemma MidpointBetween(p: Point, q: Point)
    ensures var m := Midpoint(p, q);
      && (p.x <= m.x <= q.x || q.x <= m.x <= p.x)
      && (p.y <= m.y <= q.y || q.y <= m.y <= p.y)
      && m == Midpoint(q, p)
  {
  }

  // ---------------------------------------------------------------------------------
  // The sequence drawn node by node

  /** What the first `k` nodes draw, node i by `node(n - i)` (n the number of nodes,
      n - i the node's previous slice), each of its assignments in turn. */
  function Plan<C>(nodes: seq<seq<Assignment<C>>>, k: nat, node: int -> Assignment<C> -> seq<Draw<C>>): seq<Draw<C>>
    requires k <= |nodes|
  {
    if k == 0 then [] else Plan(nodes, k - 1, node) + Concat(nodes[k - 1], node(|nodes| - (k - 1)))
  }

  /** Every call of the plan comes from one assignment of one of the first `k` nodes. */
  lemma {:induction false} PlanSound<C>(nodes: seq<seq<Assignment<C>>>, k: nat, node: int -> Assignment<C> -> seq<Draw<C>>,
                                        d: Draw<C>) returns (i: nat, j: nat)
    requires k <= |nodes| && d in Plan(nodes, k, node)
    ensures i < k && j < |nodes[i]| && d in node(|nodes| - i)(nodes[i][j])
  {
    if d in Plan(nodes, k - 1, node) {
      i, j := PlanSound(nodes, k - 1, node, d);
    } else {
      i := k - 1;
      j := ConcatSource(nodes[i], node(|nodes| - i), d);
    }
  }

  /** Every call drawn for an assignment of one of the first `k` nodes is in the plan. */
  lemma {:induction false} PlanComplete<C>(nodes: seq<seq<Assignment<C>>>, k: nat, node: int -> Assignment<C> -> seq<Draw<C>>,
                                           i: nat, j: nat, d: Draw<C>)
    requires i < k <= |nodes| && j < |nodes[i]| && d in node(|nodes| - i)(nodes[i][j])
    ensures d in Plan(nodes, k, node)
  {
    if i < k - 1 {
      PlanComplete(nodes, k - 1, node, i, j, d);
    } else {
      ConcatInclude(nodes[i], node(|nodes| - i), j, d);
    }
  }

  // ---------------------------------------------------------------------------------
  // Drawing the candidates (source lines 96-133, 284-303)

  /** `drawCandidate`: the pixels in `colour`, then the annotation, if there is one, at the
      centre in the complement colour. */
  function DrawCandidate<C>(c: C, slice: int, colour: Rgb, annotation: Option<string>, centre: C -> Point): seq<Draw<C>>
  {
    [Pixels(slice, colour, c)]
    + if annotation.Some? then [Text(slice, Complement(colour), annotation.value, centre(c))] else []
  }

  /** `colors.get(c)`; black stands for the missing entry, which `DrawnCandidatesColoured`
      shows never to be read. */
  function ColourOf<C(==)>(colours: map<C, Rgb>, c: C): Rgb
  {
    if c in colours then colours[c] else Black
  }

  /** `drawCandidateId ? "" + c.getId() : null`. */
  function Label<C>(c: C, sc: Scene<C>): Option<string>
  {
    if sc.drawIds then Some(IntToString(sc.looks.id(c))) else None
  }

  function CandidateMarks<C(==)>(c: C, slice: int, sc: Scene<C>): seq<Draw<C>>
  {
    DrawCandidate(c, slice, ColourOf(sc.colours, c), Label(c, sc), sc.looks.centre)
  }

  /** `CandidateMarks` as a value, so that the plan below can be stated for any marks. */
  function MarksOf<C(==)>(sc: Scene<C>): (C, int) -> seq<Draw<C>>
  {
    (c: C, slice: int) => CandidateMarks(c, slice, sc)
  }

  /** Drawing every listed candidate but `skip`. */
  function MarksUnless<C(==)>(skip: C, slice: int, marks: (C, int) -> seq<Draw<C>>): C -> seq<Draw<C>>
  {
    (c: C) => if c != skip then marks(c, slice) else []
  }

  /** One assignment of the node whose previous slice is `slice` (source lines 108-131):
      on the first node visited (`slice == n`) its targets but the death node on the next slice,
      then its sources but the emerge node on the previous slice. */
  function AssignmentCandidates<C(==)>(a: Assignment<C>, slice: int, n: int, s: Sentinels<C>,
                                       marks: (C, int) -> seq<Draw<C>>): seq<Draw<C>>
  {
    (if slice == n then Concat(a.targets, MarksUnless(s.death, slice + 1, marks)) else [])
    + Concat(a.sources, MarksUnless(s.emerge, slice, marks))
  }

  function AssignmentCandidatesOf<C(==)>(slice: int, n: int, s: Sentinels<C>, marks: (C, int) -> seq<Draw<C>>)
    : Assignment<C> -> seq<Draw<C>>
  {
    (a: Assignment<C>) => AssignmentCandidates(a, slice, n, s, marks)
  }

  function CandidateNode<C(==)>(n: int, s: Sentinels<C>, marks: (C, int) -> seq<Draw<C>>): int -> Assignment<C> -> seq<Draw<C>>
  {
    (slice: int) => AssignmentCandidatesOf(slice, n, s, marks)
  }

  /** The candidates drawn for the first `k` nodes, node k' on previous slice n - k'. */
  function CandidatePlan<C(==)>(nodes: seq<seq<Assignment<C>>>, k: nat, sc: Scene<C>): seq<Draw<C>>
    requires k <= |nodes|
  {
    Plan(nodes, k, CandidateNode(|nodes|, sc.s, MarksOf(sc)))
  }

  lemma CandidatesApply<C>(a: Assignment<C>, slice: int, n: int, s: Sentinels<C>, marks: (C, int) -> seq<Draw<C>>)
    ensures AssignmentCandidatesOf(slice, n, s, marks)(a) == AssignmentCandidates(a, slice, n, s, marks)
  { }

  lemma CandidateNodeApply<C>(n: int, s: Sentinels<C>, marks: (C, int) -> seq<Draw<C>>, slice: int)
    ensures CandidateNode(n, s, marks)(slice) == AssignmentCandidatesOf(slice, n, s, marks)
  { }

  /** The candidates of one node with the marks of `sc` written in. */
  function NodeCandidates<C(==)>(node: seq<Assignment<C>>, slice: int, n: int, sc: Scene<C>): seq<Draw<C>>
  {
    Concat(node, AssignmentCandidatesOf(slice, n, sc.s, MarksOf(sc)))
  }

  /** The candidate plan, one node after the other; it keeps the marks out of the loop that
      draws it. */
  function NodesCandidates<C(==)>(nodes: seq<seq<Assignment<C>>>, k: nat, sc: Scene<C>): seq<Draw<C>>
    requires k <= |nodes|
  {
    if k == 0 then [] else NodesCandidates(nodes, k - 1, sc) + NodeCandidates(nodes[k - 1], |nodes| - (k - 1), |nodes|, sc)
  }

  lemma {:induction false} NodesCandidatesPlan<C>(nodes: seq<seq<Assignment<C>>>, k: nat, sc: Scene<C>)
    requires k <= |nodes|
    ensures NodesCandidates(nodes, k, sc) == CandidatePlan(nodes, k, sc)
  {
    if k > 0 {
      NodesCandidatesPlan(nodes, k - 1, sc);
      CandidateNodeApply(|nodes|, sc.s, MarksOf(sc), |nodes| - (k - 1));
    }
  }

  /** `c` is drawn on slice `sl` by assignment `a` of the node whose previous slice is
      `slice`: as a source other than the emerge node on that slice, or, on the first node
      visited (`slice == n`) only, as a target other than the death node on the slice after
      it. */
  predicate PlacedIn<C(==)>(a: Assignment<C>, c: C, sl: int, slice: int, n: int, s: Sentinels<C>)
  {
    || (c in a.sources && c != s.emerge && sl == slice)
    || (slice == n && c in a.targets && c != s.death && sl == slice + 1)
  }

  /** `c` is drawn on slice `sl` by one of the first `k` nodes, node i having previous
      slice n - i (so that only node 0 draws targets). */
  predicate PlacedBefore<C(==)>(nodes: seq<seq<Assignment<C>>>, k: nat, c: C, sl: int, s: Sentinels<C>)
  {
    exists i, j :: 0 <= i < k && i < |nodes| && 0 <= j < |nodes[i]|
      && PlacedIn(nodes[i][j], c, sl, |nodes| - i, |nodes|, s)
  }

  predicate Placed<C(==)>(nodes: seq<seq<Assignment<C>>>, c: C, sl: int, s: Sentinels<C>)
  {
    PlacedBefore(nodes, |nodes|, c, sl, s)
  }

  lemma AssignmentCandidatesSound<C>(a: Assignment<C>, slice: int, n: int, s: Sentinels<C>,
                                     marks: (C, int) -> seq<Draw<C>>, d: Draw<C>)
    returns (c: C, sl: int)
    requires d in AssignmentCandidates(a, slice, n, s, marks)
    ensures PlacedIn(a, c, sl, slice, n, s) && d in marks(c, sl)
  {
    if d in Concat(a.sources, MarksUnless(s.emerge, slice, marks)) {
      var i := ConcatSource(a.sources, MarksUnless(s.emerge, slice, marks), d);
      c, sl := a.sources[i], slice;
    } else {
      var i := ConcatSource(a.targets, MarksUnless(s.death, slice + 1, marks), d);
      c, sl := a.targets[i], slice + 1;
    }
  }

  lemma AssignmentCandidatesComplete<C>(a: Assignment<C>, slice: int, n: int, s: Sentinels<C>,
                                        marks: (C, int) -> seq<Draw<C>>, c: C, sl: int, d: Draw<C>)
    requires PlacedIn(a, c, sl, slice, n, s) && d in marks(c, sl)
    ensures d in AssignmentCandidates(a, slice, n, s, marks)
  {
    if c in a.sources && c != s.emerge && sl == slice {
      var i :| 0 <= i < |a.sources| && a.sources[i] == c;
      ConcatInclude(a.sources, MarksUnless(s.emerge, slice, marks), i, d);
    } else {
      var i :| 0 <= i < |a.targets| && a.targets[i] == c;
      ConcatInclude(a.targets, MarksUnless(s.death, slice + 1, marks), i, d);
    }
  }

  lemma CandidatePlanSound<C>(nodes: seq<seq<Assignment<C>>>, k: nat, s: Sentinels<C>,
                              marks: (C, int) -> seq<Draw<C>>, d: Draw<C>)
    returns (c: C, sl: int)
    requires k <= |nodes| && d in Plan(nodes, k, CandidateNode(|nodes|, s, marks))
    ensures PlacedBefore(nodes, k, c, sl, s) && d in marks(c, sl)
  {
    var n := |nodes|;
    var i, j := PlanSound(nodes, k, CandidateNode(n, s, marks), d);
    c, sl := AssignmentCandidatesSound(nodes[i][j], n - i, n, s, marks, d);
  }

  lemma CandidatePlanComplete<C>(nodes: seq<seq<Assignment<C>>>, k: nat, s: Sentinels<C>,
                                 marks: (C, int) -> seq<Draw<C>>, c: C, sl: int, d: Draw<C>)
    requires k <= |nodes| && PlacedBefore(nodes, k, c, sl, s) && d in marks(c, sl)
    ensures d in Plan(nodes, k, CandidateNode(|nodes|, s, marks))
  {
    var n := |nodes|;
    var i: nat, j: nat :| i < k && i < n && j < |nodes[i]| && PlacedIn(nodes[i][j], c, sl, n - i, n, s);
    AssignmentCandidatesComplete(nodes[i][j], n - i, n, s, marks, c, sl, d);
    PlanComplete(nodes, k, CandidateNode(n, s, marks), i, j, d);
  }

  /** What the candidate plan draws: the marks of exactly the candidates the slice rule
      places, each on the slice it is placed on. */
  lemma CandidatePlanMember<C>(nodes: seq<seq<Assignment<C>>>, sc: Scene<C>, d: Draw<C>)
    ensures d in CandidatePlan(nodes, |nodes|, sc)
        <==> exists c, sl :: Placed(nodes, c, sl, sc.s) && d in CandidateMarks(c, sl, sc)
  {
    if d in CandidatePlan(nodes, |nodes|, sc) {
      var c, sl := CandidatePlanSound(nodes, |nodes|, sc.s, MarksOf(sc), d);
    }
    if exists c, sl :: Placed(nodes, c, sl, sc.s) && d in CandidateMarks(c, sl, sc) {
      var c, sl :| Placed(nodes, c, sl, sc.s) && d in CandidateMarks(c, sl, sc);
      CandidatePlanComplete(nodes, |nodes|, sc.s, MarksOf(sc), c, sl, d);
    }
  }

  /** A candidate's pixels are drawn on a slice exactly when the slice rule places it there,
      and then in its colour from the colour map. */
  lemma PixelsDrawn<C>(nodes: seq<seq<Assignment<C>>>, sc: Scene<C>, sl: int, col: Rgb, c: C)
    ensures Pixels(sl, col, c) in CandidatePlan(nodes, |nodes|, sc)
        <==> Placed(nodes, c, sl, sc.s) && col == ColourOf(sc.colours, c)
  {
    CandidatePlanMember(nodes, sc, Pixels(sl, col, c));
  }

  /** Labels are drawn only when ids are asked for, and then one per drawn candidate: its
      id, at its centre, in the complement of its colour. */
  lemma LabelsDrawn<C>(nodes: seq<seq<Assignment<C>>>, sc: Scene<C>, sl: int, col: Rgb, text: string, at: Point)
    ensures Text(sl, col, text, at) in CandidatePlan(nodes, |nodes|, sc)
        <==> sc.drawIds
             && exists c :: Placed(nodes, c, sl, sc.s) && col == Complement(ColourOf(sc.colours, c))
                            && text == IntToString(sc.looks.id(c)) && at == sc.looks.centre(c)
  {
    var d := Text(sl, col, text, at);
    CandidatePlanMember(nodes, sc, d);
    if exists c :: Placed(nodes, c, sl, sc.s) && col == Complement(ColourOf(sc.colours, c))
                   && text == IntToString(sc.looks.id(c)) && at == sc.looks.centre(c) {
      var c :| Placed(nodes, c, sl, sc.s) && col == Complement(ColourOf(sc.colours, c))
               && text == IntToString(sc.looks.id(c)) && at == sc.looks.centre(c);
      if sc.drawIds {
        assert CandidateMarks(c, sl, sc)[1] == d;
      }
    }
  }

  /** The only text among a candidate's marks is its id label, and its pixels come first. */
  lemma CandidateLabel<C>(c: C, sl: int, sc: Scene<C>, d: Draw<C>)
    requires d in MarksOf(sc)(c, sl) && d.Text?
    ensures d == Text(sl, Complement(ColourOf(sc.colours, c)), IntToString(sc.looks.id(c)), sc.looks.centre(c))
    ensures Pixels(sl, ColourOf(sc.colours, c), c) in MarksOf(sc)(c, sl)
  {
  }

  /** Every label lies on the pixels of its own candidate, drawn on the same slice in the
      colour whose complement the label has; so two labels of one colour on a slice belong
      to candidates of one colour. */
  lemma LabelOnPixels<C>(nodes: seq<seq<Assignment<C>>>, sc: Scene<C>, sl: int, col: Rgb, text: string, at: Point)
    returns (c: C)
    requires Text(sl, col, text, at) in CandidatePlan(nodes, |nodes|, sc)
    ensures Pixels(sl, Complement(col), c) in CandidatePlan(nodes, |nodes|, sc)
    ensures ColourOf(sc.colours, c) == Complement(col)
    ensures text == IntToString(sc.looks.id(c)) && at == sc.looks.centre(c)
  {
    var sl0;
    c, sl0 := CandidatePlanSound(nodes, |nodes|, sc.s, MarksOf(sc), Text(sl, col, text, at));
    CandidateLabel(c, sl0, sc, Text(sl, col, text, at));
    CandidatePlanComplete(nodes, |nodes|, sc.s, MarksOf(sc), c, sl, Pixels(sl, Complement(col), c));
  }

  // ---------------------------------------------------------------------------------
  // Drawing the connections (source lines 135-177, 254-282)

  /** `drawEmerge`: a yellow circle of diameter 5 around the point. */
  function EmergeMarker<C>(p: Point, slice: int): Draw<C>
  {
    Oval(slice, Yellow, p.x - 2, p.y - 2, 5, 5)
  }

  /** `drawDeath`: a red circle of diameter 6 around the point. */
  function DeathMarker<C>(p: Point, slice: int): Draw<C>
  {
    Oval(slice, Red, p.x - 3, p.y - 3, 6, 6)
  }

  /** `drawConnectionTo`: green from the source to the midpoint, grey on to the target. */
  function ConnectionTo<C>(p: Point, q: Point, slice: int): seq<Draw<C>>
  {
    [Line(slice, Green, p, Midpoint(p, q)), Line(slice, Grey, Midpoint(p, q), q)]
  }

  /** `drawConnectionFrom`: grey from the source to the midpoint, blue on to the target. */
  function ConnectionFrom<C>(p: Point, q: Point, slice: int): seq<Draw<C>>
  {
    [Line(slice, Grey, p, Midpoint(p, q)), Line(slice, Blue, Midpoint(p, q), q)]
  }

  /** One source/target pair of the node whose previous slice is `slice` (source lines
      152-171), the cases tried in order. */
  function PairMarks<C(==)>(source: C, target: C, slice: int, s: Sentinels<C>, centre: C -> Point): seq<Draw<C>>
  {
    if source == s.emerge then [EmergeMarker(centre(target), slice + 1)]
    else if target == s.death then [DeathMarker(centre(source), slice)]
    else ConnectionTo(centre(source), centre(target), slice) + ConnectionFrom(centre(source), centre(target), slice + 1)
  }

  /** The pair rule as a value, so that the plan below can be stated for any rule. */
  function PairRule<C(==)>(s: Sentinels<C>, centre: C -> Point): (C, C, int) -> seq<Draw<C>>
  {
    (source: C, target: C, slice: int) => PairMarks(source, target, slice, s, centre)
  }

  function PairsFrom<C>(source: C, slice: int, rule: (C, C, int) -> seq<Draw<C>>): C -> seq<Draw<C>>
  {
    (target: C) => rule(source, target, slice)
  }

  function SourcePairs<C>(targets: seq<C>, slice: int, rule: (C, C, int) -> seq<Draw<C>>): C -> seq<Draw<C>>
  {
    (source: C) => Concat(targets, PairsFrom(source, slice, rule))
  }

  /** Every source with every target of one assignment, sources outermost. */
  function AssignmentConnections<C>(a: Assignment<C>, slice: int, rule: (C, C, int) -> seq<Draw<C>>): seq<Draw<C>>
  {
    Concat(a.sources, SourcePairs(a.targets, slice, rule))
  }

  function AssignmentConnectionsOf<C>(slice: int, rule: (C, C, int) -> seq<Draw<C>>): Assignment<C> -> seq<Draw<C>>
  {
    (a: Assignment<C>) => AssignmentConnections(a, slice, rule)
  }

  function ConnectionNode<C>(rule: (C, C, int) -> seq<Draw<C>>): int -> Assignment<C> -> seq<Draw<C>>
  {
    (slice: int) => AssignmentConnectionsOf(slice, rule)
  }

  /** The connections drawn for the first `k` nodes, node k' on previous slice n - k'. */
  function ConnectionPlan<C>(nodes: seq<seq<Assignment<C>>>, k: nat, rule: (C, C, int) -> seq<Draw<C>>): seq<Draw<C>>
    requires k <= |nodes|
  {
    Plan(nodes, k, ConnectionNode(rule))
  }

  lemma ConnectionsApply<C>(a: Assignment<C>, slice: int, rule: (C, C, int) -> seq<Draw<C>>)
    ensures AssignmentConnectionsOf(slice, rule)(a) == AssignmentConnections(a, slice, rule)
  { }

  lemma ConnectionNodeApply<C>(rule: (C, C, int) -> seq<Draw<C>>, slice: int)
    ensures ConnectionNode(rule)(slice) == AssignmentConnectionsOf(slice, rule)
  { }

  /** The connections of one node with the pair rule of `s` and `centre` written in. */
  function NodeConnections<C(==)>(node: seq<Assignment<C>>, slice: int, s: Sentinels<C>, centre: C -> Point): seq<Draw<C>>
  {
    Concat(node, AssignmentConnectionsOf(slice, PairRule(s, centre)))
  }

  /** The plan above for the pair rule, one node after the other; it keeps the rule out of
      the loop that draws it. */
  function NodesConnections<C(==)>(nodes: seq<seq<Assignment<C>>>, k: nat, s: Sentinels<C>, centre: C -> Point)
    : seq<Draw<C>>
    requires k <= |nodes|
  {
    if k == 0 then [] else NodesConnections(nodes, k - 1, s, centre) + NodeConnections(nodes[k - 1], |nodes| - (k - 1), s, centre)
  }

  lemma {:induction false} NodesConnectionsPlan<C>(nodes: seq<seq<Assignment<C>>>, k: nat, s: Sentinels<C>,
                                                    centre: C -> Point)
    requires k <= |nodes|
    ensures NodesConnections(nodes, k, s, centre) == ConnectionPlan(nodes, k, PairRule(s, centre))
  {
    if k > 0 {
      NodesConnectionsPlan(nodes, k - 1, s, centre);
      ConnectionNodeApply(PairRule(s, centre), |nodes| - (k - 1));
    }
  }

  /** `source` and `target` belong to one assignment of one of the first `k` nodes, whose
      previous slice is `sl`. */
  predicate LinkedBefore<C(==)>(nodes: seq<seq<Assignment<C>>>, k: nat, source: C, target: C, sl: int)
  {
    exists i, j :: 0 <= i < k && i < |nodes| && 0 <= j < |nodes[i]|
      && source in nodes[i][j].sources && target in nodes[i][j].targets && sl == |nodes| - i
  }

  predicate Linked<C(==)>(nodes: seq<seq<Assignment<C>>>, source: C, target: C, sl: int)
  {
    LinkedBefore(nodes, |nodes|, source, target, sl)
  }

  lemma AssignmentConnectionsSound<C>(a: Assignment<C>, slice: int, rule: (C, C, int) -> seq<Draw<C>>, d: Draw<C>)
    returns (source: C, target: C)
    requires d in AssignmentConnections(a, slice, rule)
    ensures source in a.sources && target in a.targets && d in rule(source, target, slice)
  {
    var i := ConcatSource(a.sources, SourcePairs(a.targets, slice, rule), d);
    source := a.sources[i];
    var j := ConcatSource(a.targets, PairsFrom(source, slice, rule), d);
    target := a.targets[j];
  }

  lemma AssignmentConnectionsComplete<C>(a: Assignment<C>, slice: int, rule: (C, C, int) -> seq<Draw<C>>,
                                         source: C, target: C, d: Draw<C>)
    requires source in a.sources && target in a.targets && d in rule(source, target, slice)
    ensures d in AssignmentConnections(a, slice, rule)
  {
    var i :| 0 <= i < |a.sources| && a.sources[i] == source;
    var j :| 0 <= j < |a.targets| && a.targets[j] == target;
    ConcatInclude(a.targets, PairsFrom(source, slice, rule), j, d);
    ConcatInclude(a.sources, SourcePairs(a.targets, slice, rule), i, d);
  }

  lemma ConnectionPlanSound<C>(nodes: seq<seq<Assignment<C>>>, k: nat, rule: (C, C, int) -> seq<Draw<C>>, d: Draw<C>)
    returns (source: C, target: C, sl: int)
    requires k <= |nodes| && d in ConnectionPlan(nodes, k, rule)
    ensures LinkedBefore(nodes, k, source, target, sl) && d in rule(source, target, sl)
  {
    var n := |nodes|;
    var i, j := PlanSound(nodes, k, ConnectionNode(rule), d);
    sl := n - i;
    source, target := AssignmentConnectionsSound(nodes[i][j], sl, rule, d);
  }

  lemma ConnectionPlanComplete<C>(nodes: seq<seq<Assignment<C>>>, k: nat, rule: (C, C, int) -> seq<Draw<C>>,
                                  source: C, target: C, sl: int, d: Draw<C>)
    requires k <= |nodes| && LinkedBefore(nodes, k, source, target, sl) && d in rule(source, target, sl)
    ensures d in ConnectionPlan(nodes, k, rule)
  {
    var n := |nodes|;
    var i: nat, j: nat :| i < k && i < n && j < |nodes[i]|
      && source in nodes[i][j].sources && target in nodes[i][j].targets && sl == n - i;
    AssignmentConnectionsComplete(nodes[i][j], sl, rule, source, target, d);
    PlanComplete(nodes, k, ConnectionNode(rule), i, j, d);
  }

  /** What the connection plan draws: the marks of exactly the source/target pairs of the
      assignments, each on the slices of its node. */
  lemma ConnectionPlanMember<C>(nodes: seq<seq<Assignment<C>>>, s: Sentinels<C>, centre: C -> Point, d: Draw<C>)
    ensures d in ConnectionPlan(nodes, |nodes|, PairRule(s, centre))
        <==> exists source, target, sl :: Linked(nodes, source, target, sl) && d in PairMarks(source, target, sl, s, centre)
  {
    var rule := PairRule(s, centre);
    if d in ConnectionPlan(nodes, |nodes|, rule) {
      var source, target, sl := ConnectionPlanSound(nodes, |nodes|, rule, d);
      assert d in PairMarks(source, target, sl, s, centre);
    }
    if exists source, target, sl :: Linked(nodes, source, target, sl) && d in PairMarks(source, target, sl, s, centre) {
      var source, target, sl :| Linked(nodes, source, target, sl) && d in PairMarks(source, target, sl, s, centre);
      assert d in rule(source, target, sl);
      ConnectionPlanComplete(nodes, |nodes|, rule, source, target, sl, d);
    }
  }

  /** The pair rule draws an emerge marker only for the emerge node as source, at the
      target, on the next slice. */
  lemma PairEmerge<C>(source: C, target: C, sl: int, s: Sentinels<C>, centre: C -> Point, p: Point, slice: int)
    ensures EmergeMarker(p, slice) in PairMarks(source, target, sl, s, centre)
        <==> source == s.emerge && centre(target) == p && slice == sl + 1
  {
  }

  /** The pair rule draws a death marker only for an ordinary source and the death node as
      target, at the source, on the node's slice. */
  lemma PairDeath<C>(source: C, target: C, sl: int, s: Sentinels<C>, centre: C -> Point, p: Point, slice: int)
    ensures DeathMarker(p, slice) in PairMarks(source, target, sl, s, centre)
        <==> source != s.emerge && target == s.death && centre(source) == p && slice == sl
  {
  }

  /** An emerge marker is drawn at a target's centre, on the slice after the node's, exactly
      when the emerge node is a source of that target's assignment. */
  lemma EmergeMarkers<C>(nodes: seq<seq<Assignment<C>>>, s: Sentinels<C>, centre: C -> Point, p: Point, slice: int)
    ensures EmergeMarker(p, slice) in ConnectionPlan(nodes, |nodes|, PairRule(s, centre))
        <==> exists target :: Linked(nodes, s.emerge, target, slice - 1) && centre(target) == p
  {
    var d: Draw<C> := EmergeMarker(p, slice);
    var n := |nodes|;
    if d in ConnectionPlan(nodes, n, PairRule(s, centre)) {
      var source, target, sl := ConnectionPlanSound(nodes, n, PairRule(s, centre), d);
      PairEmerge(source, target, sl, s, centre, p, slice);
    }
    if exists target :: Linked(nodes, s.emerge, target, slice - 1) && centre(target) == p {
      var target :| Linked(nodes, s.emerge, target, slice - 1) && centre(target) == p;
      PairEmerge(s.emerge, target, slice - 1, s, centre, p, slice);
      ConnectionPlanComplete(nodes, n, PairRule(s, centre), s.emerge, target, slice - 1, d);
    }
  }

  /** A death marker is drawn at a source's centre, on the node's slice, exactly when the
      source is not the emerge node and the death node is a target of its assignment. */
  lemma DeathMarkers<C>(nodes: seq<seq<Assignment<C>>>, s: Sentinels<C>, centre: C -> Point, p: Point, slice: int)
    ensures DeathMarker(p, slice) in ConnectionPlan(nodes, |nodes|, PairRule(s, centre))
        <==> exists source :: source != s.emerge && Linked(nodes, source, s.death, slice) && centre(source) == p
  {
    var d: Draw<C> := DeathMarker(p, slice);
    var n := |nodes|;
    if d in ConnectionPlan(nodes, n, PairRule(s, centre)) {
      var source, target, sl := ConnectionPlanSound(nodes, n, PairRule(s, centre), d);
      PairDeath(source, target, sl, s, centre, p, slice);
    }
    if exists source :: source != s.emerge && Linked(nodes, source, s.death, slice) && centre(source) == p {
      var source :| source != s.emerge && Linked(nodes, source, s.death, slice) && centre(source) == p;
      PairDeath(source, s.death, slice, s, centre, p, slice);
      ConnectionPlanComplete(nodes, n, PairRule(s, centre), source, s.death, slice, d);
    }
  }

  /** The half-lines drawn for a pair of two ordinary candidates on the two slices. */
  predicate HalfLineOf<C(==)>(d: Draw<C>, p: Point, q: Point, slice: int)
  {
    var m := Midpoint(p, q);
    d in [Line(slice, Green, p, m), Line(slice, Grey, m, q), Line(slice + 1, Grey, p, m), Line(slice + 1, Blue, m, q)]
  }

  /** Every line drawn is one of the four half-lines between the centres of a source that
      is not the emerge node and a target that is not the death node, and all four are
      drawn for every such pair. */
  lemma ConnectionLines<C>(nodes: seq<seq<Assignment<C>>>, s: Sentinels<C>, centre: C -> Point, d: Draw<C>)
    requires d.Line?
    ensures d in ConnectionPlan(nodes, |nodes|, PairRule(s, centre))
        <==> exists source, target, sl :: Linked(nodes, source, target, sl)
                                          && source != s.emerge && target != s.death
                                          && HalfLineOf(d, centre(source), centre(target), sl)
  {
    var n := |nodes|;
    if d in ConnectionPlan(nodes, n, PairRule(s, centre)) {
      var source, target, sl := ConnectionPlanSound(nodes, n, PairRule(s, centre), d);
      assert source != s.emerge && target != s.death;
      assert HalfLineOf(d, centre(source), centre(target), sl);
    }
    if exists source, target, sl :: Linked(nodes, source, target, sl)
                                    && source != s.emerge && target != s.death
                                    && HalfLineOf(d, centre(source), centre(target), sl) {
      var source, target, sl :| Linked(nodes, source, target, sl)
                                && source != s.emerge && target != s.death
                                && HalfLineOf(d, centre(source), centre(target), sl);
      ConnectionPlanComplete(nodes, n, PairRule(s, centre), source, target, sl, d);
    }
  }

  // ---------------------------------------------------------------------------------
  // The slices used

  /** Each pair draws on its node's slice or the next one. */
  lemma PairSlices<C>(source: C, target: C, sl: int, s: Sentinels<C>, centre: C -> Point, d: Draw<C>)
    requires d in PairMarks(source, target, sl, s, centre)
    ensures sl <= d.slice <= sl + 1
  {
  }

  /** Every candidate is drawn on one slice between 1 and n + 1. */
  lemma CandidateSlices<C>(nodes: seq<seq<Assignment<C>>>, sc: Scene<C>, d: Draw<C>)
    requires d in CandidatePlan(nodes, |nodes|, sc)
    ensures 1 <= d.slice <= |nodes| + 1
  {
    var n := |nodes|;
    var c, sl := CandidatePlanSound(nodes, n, sc.s, MarksOf(sc), d);
    var i, j :| 0 <= i < n && 0 <= j < |nodes[i]| && PlacedIn(nodes[i][j], c, sl, n - i, n, sc.s);
    assert d.slice == sl;
  }

  /** Every marker and line is drawn on a slice between 1 and n + 1. */
  lemma ConnectionSlices<C>(nodes: seq<seq<Assignment<C>>>, s: Sentinels<C>, centre: C -> Point, d: Draw<C>)
    requires d in ConnectionPlan(nodes, |nodes|, PairRule(s, centre))
    ensures 1 <= d.slice <= |nodes| + 1
  {
    var n := |nodes|;
    var source, target, sl := ConnectionPlanSound(nodes, n, PairRule(s, centre), d);
    var i, j :| 0 <= i < n && 0 <= j < |nodes[i]|
      && source in nodes[i][j].sources && target in nodes[i][j].targets && sl == n - i;
    PairSlices(source, target, sl, s, centre, d);
  }

  // ---------------------------------------------------------------------------------
  // The colours drawn

  /** Every candidate drawn has an entry in the colour map of the grouping, and is drawn in
      the colour of the last treeline that holds it. */
  lemma DrawnCandidatesColoured<C>(nodes: seq<seq<Assignment<C>>>, palette: nat -> Rgb, sc: Scene<C>,
                                   sl: int, col: Rgb, c: C)
    requires sc.colours == ColourMap(Grouping(nodes, sc.s), palette)
    requires Pixels(sl, col, c) in CandidatePlan(nodes, |nodes|, sc)
    ensures c in sc.colours
    ensures var g := Grouping(nodes, sc.s);
      exists i :: 0 <= i < |g| && c in g[i] && (forall j :: i < j < |g| ==> c !in g[j]) && col == palette(i)
  {
    var g := Grouping(nodes, sc.s);
    PixelsDrawn(nodes, sc, sl, col, c);
    var i, j :| 0 <= i < |nodes| && 0 <= j < |nodes[i]|
      && ((c in nodes[i][j].sources && c != sc.s.emerge && sl == |nodes| - i)
          || (i == 0 && c in nodes[i][j].targets && c != sc.s.death && sl == |nodes| + 1));
    assert InSequence(nodes, c, sc.s);
    GroupingCovers(nodes, sc.s, c);
    ColourOfLastTreeline(g, palette, c);
    var last := LastHolder(g, c);
  }

  /** The position of the last treeline of the list holding a covered candidate. */
  lemma LastHolder<C>(g: seq<set<C>>, c: C) returns (i: nat)
    requires Covered(g, c)
    ensures i < |g| && c in g[i] && forall j :: i < j < |g| ==> c !in g[j]
  {
    i :| i < |g| && c in g[i];
    while exists j :: i < j < |g| && c in g[j]
      invariant i < |g| && c in g[i]
      decreases |g| - i
    {
      var j :| i < j < |g| && c in g[j];
      i := j;
    }
  }

  // ---------------------------------------------------------------------------------
  // The drawing, as the source runs it

  /** Source lines 113-130: draw every listed candidate but `skip` on one slice. */
  method DrawCandidateList<C(==)>(cs: seq<C>, skip: C, slice: int, sc: Scene<C>) returns (marks: seq<Draw<C>>)
    ensures marks == Concat(cs, MarksUnless(skip, slice, MarksOf(sc)))
  {
    marks := [];
    var i := 0;
    while i < |cs|
      invariant 0 <= i <= |cs|
      invariant marks == Concat(cs[..i], MarksUnless(skip, slice, MarksOf(sc)))
    {
      assert cs[..i + 1][..i] == cs[..i];
      var c := cs[i];
      if c != skip {
        marks := marks + DrawCandidate(c, slice, ColourOf(sc.colours, c), Label(c, sc), sc.looks.centre);
      }
      i := i + 1;
    }
    assert cs[..i] == cs;
  }

  /** Source lines 111-130: the candidates of one assignment. */
  method DrawAssignmentCandidates<C(==)>(a: Assignment<C>, slice: int, n: int, sc: Scene<C>) returns (drawn: seq<Draw<C>>)
    ensures drawn == AssignmentCandidates(a, slice, n, sc.s, MarksOf(sc))
  {
    drawn := [];
    if slice == n {
      drawn := DrawCandidateList(a.targets, sc.s.death, slice + 1, sc);
    }
    var sourceMarks := DrawCandidateList(a.sources, sc.s.emerge, slice, sc);
    drawn := drawn + sourceMarks;
  }

  /** Source lines 108-131: the candidates of one node. */
  method DrawNodeCandidates<C(==)>(node: seq<Assignment<C>>, slice: int, n: int, sc: Scene<C>) returns (marks: seq<Draw<C>>)
    ensures marks == NodeCandidates(node, slice, n, sc)
  {
    ghost var m := MarksOf(sc);
    ghost var f := AssignmentCandidatesOf(slice, n, sc.s, m);
    marks := [];
    var j := 0;
    while j < |node|
      invariant 0 <= j <= |node|
      invariant marks == Concat(node[..j], f)
    {
      var drawn := DrawAssignmentCandidates(node[j], slice, n, sc);
      CandidatesApply(node[j], slice, n, sc.s, m);
      PrefixSnoc(node, j);
      ConcatSnoc(node[..j], node[j], f);
      marks := marks + drawn;
      j := j + 1;
    }
    assert node[..j] == node;
  }

  method DrawCandidates<C(==)>(nodes: seq<seq<Assignment<C>>>, sc: Scene<C>) returns (plan: seq<Draw<C>>)
    ensures plan == CandidatePlan(nodes, |nodes|, sc)
  {
    var n := |nodes|;
    plan := [];
    var k := 0;
    while k < n
      invariant 0 <= k <= n
      invariant plan == NodesCandidates(nodes, k, sc)
    {
      var marks := DrawNodeCandidates(nodes[k], n - k, n, sc);
      plan := plan + marks;
      k := k + 1;
    }
    NodesCandidatesPlan(nodes, n, sc);
  }

  /** Source lines 150-172: one source with every target, the cases tried in order. */
  method DrawPairs<C(==)>(source: C, targets: seq<C>, slice: int, s: Sentinels<C>, centre: C -> Point)
    returns (marks: seq<Draw<C>>)
    ensures marks == Concat(targets, PairsFrom(source, slice, PairRule(s, centre)))
  {
    marks := [];
    var i := 0;
    while i < |targets|
      invariant 0 <= i <= |targets|
      invariant marks == Concat(targets[..i], PairsFrom(source, slice, PairRule(s, centre)))
    {
      assert targets[..i + 1][..i] == targets[..i];
      var target := targets[i];
      if source == s.emerge {
        marks := marks + [EmergeMarker(centre(target), slice + 1)];
      } else if target == s.death {
        marks := marks + [DeathMarker(centre(source), slice)];
      } else {
        marks := marks + ConnectionTo(centre(source), centre(target), slice)
                       + ConnectionFrom(centre(source), centre(target), slice + 1);
      }
      i := i + 1;
    }
    assert targets[..i] == targets;
  }

  /** Source lines 149-174: every source of one assignment with every target. */
  method DrawAssignmentConnections<C(==)>(a: Assignment<C>, slice: int, s: Sentinels<C>, centre: C -> Point)
    returns (marks: seq<Draw<C>>)
    ensures marks == AssignmentConnections(a, slice, PairRule(s, centre))
  {
    marks := [];
    var i := 0;
    while i < |a.sources|
      invariant 0 <= i <= |a.sources|
      invariant marks == Concat(a.sources[..i], SourcePairs(a.targets, slice, PairRule(s, centre)))
    {
      assert a.sources[..i + 1][..i] == a.sources[..i];
      var pairs := DrawPairs(a.sources[i], a.targets, slice, s, centre);
      marks := marks + pairs;
      i := i + 1;
    }
    assert a.sources[..i] == a.sources;
  }

  /** Source lines 147-175: the connections of one node. */
  method DrawNodeConnections<C(==)>(node: seq<Assignment<C>>, slice: int, s: Sentinels<C>, centre: C -> Point)
    returns (marks: seq<Draw<C>>)
    ensures marks == NodeConnections(node, slice, s, centre)
  {
    ghost var rule := PairRule(s, centre);
    ghost var f := AssignmentConnectionsOf(slice, rule);
    marks := [];
    var j := 0;
    while j < |node|
      invariant 0 <= j <= |node|
      invariant marks == Concat(node[..j], f)
    {
      var drawn := DrawAssignmentConnections(node[j], slice, s, centre);
      ConnectionsApply(node[j], slice, rule);
      assert node[..j + 1] == node[..j] + [node[j]];
      ConcatSnoc(node[..j], node[j], f);
      marks := marks + drawn;
      j := j + 1;
    }
    assert node[..j] == node;
  }

  method DrawConnections<C(==)>(nodes: seq<seq<Assignment<C>>>, s: Sentinels<C>, centre: C -> Point)
    returns (plan: seq<Draw<C>>)
    ensures plan == ConnectionPlan(nodes, |nodes|, PairRule(s, centre))
  {
    var n := |nodes|;
    plan := [];
    var k := 0;
    while k < n
      invariant 0 <= k <= n
      invariant plan == NodesConnections(nodes, k, s, centre)
    {
      var marks := DrawNodeConnections(nodes[k], n - k, s, centre);
      plan := plan + marks;
      k := k + 1;
    }
    NodesConnectionsPlan(nodes, n, s, centre);
  }

  /** Source lines 23-180 without the image: group the candidates into treelines, colour
      them, then draw the candidates and the connections. */
  method DrawSequence<C(==)>(nodes: seq<seq<Assignment<C>>>, s: Sentinels<C>, palette: nat -> Rgb,
                             looks: Looks<C>, drawCandidateId: bool)
    returns (colours: map<C, Rgb>, plan: seq<Draw<C>>)
    ensures colours == ColourMap(Grouping(nodes, s), palette)
    ensures plan == CandidatePlan(nodes, |nodes|, Scene(s, looks, colours, drawCandidateId))
                    + ConnectionPlan(nodes, |nodes|, PairRule(s, looks.centre))
  {
    var treelines := GroupTreelines(nodes, s);
    colours := AssignColours(treelines, palette);
    var candidates := DrawCandidates(nodes, Scene(s, looks, colours, drawCandidateId));
    var connections := DrawConnections(nodes, s, looks.centre);
    plan := candidates + connections;
  }
}
