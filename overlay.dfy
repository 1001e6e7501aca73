/**
 * TrackMate's `SpotOverlay`: the layer that paints the spots of a `SpotCollection` over an
 * image. Its settings are fields that setters change one at a time; `paint` saves the
 * graphics settings, draws the spots of the current frame, then the selected spots of that
 * frame, then the spot being edited, and restores the settings.
 *
 * Geometry is kept abstract: a drawing call records which shape is drawn for which spot,
 * and the graphics settings in force when it is made. Strokes, composites, fonts and
 * transforms are named values rather than AWT objects.
 */
module TrackMateOverlay {
  import opened Wrappers
  import opened Seqs

  /** A spot and the features the overlay reads: position and radius. */
  datatype Spot = Spot(id: int, x: real, y: real, z: real, radius: real)

  /** `target.get(frame)` reads `spots`; `target.getFrame(spot)` reads `frameOf`. */
  datatype SpotCollection = SpotCollection(spots: map<int, seq<Spot>>, frameOf: map<Spot, int>)

  /** A colour of the spot colour map, or one of the two constants of `SpotDisplayer`. */
  datatype Colour = Rgb(red: int, green: int, blue: int) | DefaultColor | HighlightColor

  /** The three strokes `paint` sets (widths 1/magnification, 2/canvas magnification, and the
      same dashed), and any other stroke the caller had set. */
  datatype Stroke = NormalStroke | SelectionStroke | EditingStroke | OtherStroke(id: int)

  datatype Composite = SrcOver | OtherComposite(id: int)

  /** `LABEL_FONT`, Arial bold 12, or any other font. */
  datatype Font = LabelFont | OtherFont(id: int)

  datatype Transform = Transform(id: int)

  /** The graphics settings `paint` saves and restores. */
  datatype Settings = Settings(transform: Transform, composite: Composite, stroke: Stroke, colour: Colour, font: Font)

  /** `fillOval` (a dot), `drawOval` (a ring), `drawString` of the spot's name, and the
      dashed oval of the spot being edited. */
  datatype Shape = Dot | Ring | Name | EditingOval

  /** One drawing call: its shape, its spot and the settings in force. */
  datatype Mark = Mark(shape: Shape, spot: Spot, pen: Settings)

  datatype Failure = NullDereference | IndexOutOfBounds

  /** What `paint` draws, how it leaves the graphics settings, and whether it throws. */
  datatype Outcome = Outcome(marks: seq<Mark>, after: Settings, failure: Option<Failure>)

  /** The fields of a `SpotOverlay` that `paint` reads; `None` stands for `null`. */
  datatype Config = Config(target: Option<SpotCollection>, targetColor: Option<map<Spot, Colour>>,
                           editingSpot: Option<Spot>, spotSelection: Option<seq<Spot>>, spotVisible: bool,
                           calibration: Option<seq<real>>, radiusRatio: real, composite: Composite,
                           spotNameVisible: bool)

  // ---------------------------------------------------------------------------------
  // drawSpot (source lines 169-195)

  function Sq(x: real): real
  {
    x * x
  }

  /** A dot when the spot's sphere, of the scaled radius, does not reach the current plane;
      otherwise a ring, and its name when names are shown. */
  function SpotMarks(spot: Spot, zslice: real, radiusRatio: real, nameVisible: bool, pen: Settings): seq<Mark>
  {
    if Sq(spot.z - zslice) >= Sq(spot.radius * radiusRatio) then [Mark(Dot, spot, pen)]
    else [Mark(Ring, spot, pen)] + if nameVisible then [Mark(Name, spot, pen)] else []
  }

  /** Exactly one of a dot and a ring is drawn, the dot exactly when the squared distance
      to the plane is at least the squared radius; a name only with a ring, and then
      exactly when names are shown. Every call is for the spot, with the given settings. */
  lemma SpotShape(spot: Spot, zslice: real, radiusRatio: real, nameVisible: bool, pen: Settings, m: Mark)
    ensures var marks := SpotMarks(spot, zslice, radiusRatio, nameVisible, pen);
            var dz2 := (spot.z - zslice) * (spot.z - zslice);
            var radius := spot.radius * radiusRatio;
            && |marks| >= 1
            && (Mark(Dot, spot, pen) in marks <==> dz2 >= radius * radius)
            && (Mark(Ring, spot, pen) in marks <==> dz2 < radius * radius)
            && (Mark(Name, spot, pen) in marks <==> dz2 < radius * radius && nameVisible)
            && (m in marks ==> m.spot == spot && m.pen == pen && m.shape != EditingOval)
  {
  }

  // ---------------------------------------------------------------------------------
  // The three passes of paint (source lines 110-159)

  /** The spots of `frame` in the collection; none when `get` gives `null`. */
  function FrameSpots(target: SpotCollection, frame: int): seq<Spot>
  {
    if frame in target.spots then target.spots[frame] else []
  }

  /** The normal pass skips the spot being edited and the selected spots. */
  function Kept(cfg: Config): Spot -> bool
  {
    (s: Spot) => !(cfg.editingSpot == Some(s) || (cfg.spotSelection.Some? && s in cfg.spotSelection.value))
  }

  /** The colour of a spot: its entry in the colour map, or the default colour. */
  function ColourFor(colours: map<Spot, Colour>, s: Spot): Colour
  {
    if s in colours then colours[s] else DefaultColor
  }

  /** The colour map, or none when it is `null` (read only when no spot is drawn). */
  function Colours(cfg: Config): map<Spot, Colour>
  {
    if cfg.targetColor.Some? then cfg.targetColor.value else map[]
  }

  function NormalMarksOf(cfg: Config, zslice: real, pen: Settings): Spot -> seq<Mark>
  {
    (s: Spot) => SpotMarks(s, zslice, cfg.radiusRatio, cfg.spotNameVisible, pen.(colour := ColourFor(Colours(cfg), s)))
  }

  /** The normal pass over the given spots, each in its colour. */
  function NormalMarks(cfg: Config, spots: seq<Spot>, zslice: real, pen: Settings): seq<Mark>
  {
    Concat(Filter(spots, Kept(cfg)), NormalMarksOf(cfg, zslice, pen))
  }

  /** A selected spot is highlighted when the collection gives it the current frame. */
  function InFrame(target: SpotCollection, frame: int): Spot -> bool
  {
    (s: Spot) => s in target.frameOf && target.frameOf[s] == frame
  }

  function SelectedMarksOf(cfg: Config, zslice: real, pen: Settings): Spot -> seq<Mark>
  {
    (s: Spot) => SpotMarks(s, zslice, cfg.radiusRatio, cfg.spotNameVisible, pen)
  }

  /** The selection pass over the given selected spots. */
  function SelectionMarks(cfg: Config, selection: seq<Spot>, target: SpotCollection, frame: int, zslice: real, pen: Settings): seq<Mark>
  {
    Concat(Filter(selection, InFrame(target, frame)), SelectedMarksOf(cfg, zslice, pen))
  }

  /** One more spot of the normal pass: its marks follow, unless it is skipped. */
  lemma NormalMarksSnoc(cfg: Config, spots: seq<Spot>, spot: Spot, zslice: real, pen: Settings)
    ensures NormalMarks(cfg, spots + [spot], zslice, pen)
            == NormalMarks(cfg, spots, zslice, pen) + if Kept(cfg)(spot) then NormalMarksOf(cfg, zslice, pen)(spot) else []
  {
    FilterSnoc(spots, spot, Kept(cfg));
    if Kept(cfg)(spot) {
      ConcatSnoc(Filter(spots, Kept(cfg)), spot, NormalMarksOf(cfg, zslice, pen));
    } else {
      assert Filter(spots + [spot], Kept(cfg)) == Filter(spots, Kept(cfg));
    }
  }

  /** One more selected spot: its marks follow when it is in the frame. */
  lemma SelectionMarksSnoc(cfg: Config, selection: seq<Spot>, spot: Spot, target: SpotCollection, frame: int,
                           zslice: real, pen: Settings)
    ensures SelectionMarks(cfg, selection + [spot], target, frame, zslice, pen)
            == SelectionMarks(cfg, selection, target, frame, zslice, pen)
               + if InFrame(target, frame)(spot) then SelectedMarksOf(cfg, zslice, pen)(spot) else []
  {
    FilterSnoc(selection, spot, InFrame(target, frame));
    if InFrame(target, frame)(spot) {
      ConcatSnoc(Filter(selection, InFrame(target, frame)), spot, SelectedMarksOf(cfg, zslice, pen));
    } else {
      assert Filter(selection + [spot], InFrame(target, frame)) == Filter(selection, InFrame(target, frame));
    }
  }

  /** The three passes, once the composite and the font are set: the normal pass with the
      normal stroke, then the selection highlighted with the selection stroke, then the
      spot being edited, highlighted with the dashed stroke. */
  function PassMarks(cfg: Config, target: SpotCollection, frame: int, zslice: real, prepared: Settings): seq<Mark>
  {
    NormalMarks(cfg, FrameSpots(target, frame), zslice, prepared.(stroke := NormalStroke))
    + (if cfg.spotSelection.Some? then
         SelectionMarks(cfg, cfg.spotSelection.value, target, frame, zslice,
                        prepared.(stroke := SelectionStroke, colour := HighlightColor))
       else [])
    + if cfg.editingSpot.Some? then
        [Mark(EditingOval, cfg.editingSpot.value, prepared.(stroke := EditingStroke, colour := HighlightColor))]
      else []
  }

  /** `paint(g, ...)` on an overlay whose fields are `cfg`, the image showing the 1-based
      frame `frameNumber` and slice `sliceNumber`, with `before` the settings of `g`. */
  function PaintOutcome(cfg: Config, frameNumber: int, sliceNumber: int, before: Settings): Outcome
  {
    if !cfg.spotVisible || cfg.target.None? then Outcome([], before, None)
    else
      var prepared := before.(composite := cfg.composite, font := LabelFont);
      if cfg.calibration.None? then Outcome([], prepared, Some(NullDereference))
      else if |cfg.calibration.value| < 3 then Outcome([], prepared, Some(IndexOutOfBounds))
      else
        var target := cfg.target.value;
        var frame := frameNumber - 1;
        if cfg.targetColor.None? && Filter(FrameSpots(target, frame), Kept(cfg)) != [] then
          Outcome([], prepared.(stroke := NormalStroke), Some(NullDereference))
        else
          Outcome(PassMarks(cfg, target, frame, ZSlice(cfg, sliceNumber), prepared), before, None)
  }

  /** The calibration is an array, not `null`, with the z step at index 2. */
  predicate Calibrated(cfg: Config)
  {
    cfg.calibration.Some? && |cfg.calibration.value| >= 3
  }

  /** The position of the current plane: `(slice - 1) * calibration[2]`. */
  function ZSlice(cfg: Config, sliceNumber: int): real
    requires Calibrated(cfg)
  {
    (sliceNumber - 1) as real * cfg.calibration.value[2]
  }

  /** The pen of the editing pass. */
  function EditingPen(cfg: Config, before: Settings): Settings
  {
    before.(composite := cfg.composite, font := LabelFont, stroke := EditingStroke, colour := HighlightColor)
  }

  // ---------------------------------------------------------------------------------
  // What paint promises

  /** Nothing is drawn, and the settings are left alone, when spots are hidden or there is
      no collection. */
  lemma HiddenDrawsNothing(cfg: Config, frameNumber: int, sliceNumber: int, before: Settings)
    requires !cfg.spotVisible || cfg.target.None?
    ensures PaintOutcome(cfg, frameNumber, sliceNumber, before) == Outcome([], before, None)
  {
  }

  /** `paint` throws only before it draws anything: an index error on a calibration of
      fewer than three entries, and a null dereference on a `null` calibration or on a
      `null` colour map when the normal pass has a spot to draw. */
  lemma PaintFailure(cfg: Config, frameNumber: int, sliceNumber: int, before: Settings)
    ensures var p := PaintOutcome(cfg, frameNumber, sliceNumber, before);
            && (p.failure.Some? ==> p.marks == [])
            && (p.failure == Some(IndexOutOfBounds)
                <==> cfg.spotVisible && cfg.target.Some? && cfg.calibration.Some? && |cfg.calibration.value| < 3)
            && (p.failure == Some(NullDereference)
                <==> cfg.spotVisible && cfg.target.Some?
                     && (cfg.calibration.None?
                         || (|cfg.calibration.value| >= 3 && cfg.targetColor.None?
                             && Filter(FrameSpots(cfg.target.value, frameNumber - 1), Kept(cfg)) != [])))
  {
  }

  /** A `paint` that completes gives the graphics back with the settings it found. Every
      call it makes uses the overlay's composite, the label font and the caller's
      transform. */
  lemma PaintRestores(cfg: Config, frameNumber: int, sliceNumber: int, before: Settings, m: Mark)
    ensures var p := PaintOutcome(cfg, frameNumber, sliceNumber, before);
            && (p.failure.None? ==> p.after == before)
            && (m in p.marks ==> m.pen.composite == cfg.composite && m.pen.font == LabelFont
                                 && m.pen.transform == before.transform)
  {
    var p := PaintOutcome(cfg, frameNumber, sliceNumber, before);
    if m in p.marks {
      PaintPens(cfg, frameNumber, sliceNumber, before, m);
    }
  }

  /** The pen of each drawing call differs from the prepared one only in stroke and colour,
      and the stroke tells the pass. */
  lemma PaintPens(cfg: Config, frameNumber: int, sliceNumber: int, before: Settings, m: Mark)
    requires m in PaintOutcome(cfg, frameNumber, sliceNumber, before).marks
    ensures cfg.spotVisible && cfg.target.Some? && Calibrated(cfg)
    ensures m.pen.composite == cfg.composite && m.pen.font == LabelFont && m.pen.transform == before.transform
    ensures m.pen.stroke == NormalStroke
            ==> m in NormalMarks(cfg, FrameSpots(cfg.target.value, frameNumber - 1), ZSlice(cfg, sliceNumber),
                                 before.(composite := cfg.composite, font := LabelFont, stroke := NormalStroke))
    ensures m.pen.stroke == SelectionStroke
            ==> cfg.spotSelection.Some?
                && m in SelectionMarks(cfg, cfg.spotSelection.value, cfg.target.value, frameNumber - 1,
                                       ZSlice(cfg, sliceNumber),
                                       before.(composite := cfg.composite, font := LabelFont,
                                               stroke := SelectionStroke, colour := HighlightColor))
    ensures m.pen.stroke == EditingStroke
            ==> cfg.editingSpot.Some? && m == Mark(EditingOval, cfg.editingSpot.value, EditingPen(cfg, before))
    ensures !m.pen.stroke.OtherStroke?
  {
    var target := cfg.target.value;
    var frame := frameNumber - 1;
    var zslice := ZSlice(cfg, sliceNumber);
    var prepared := before.(composite := cfg.composite, font := LabelFont);
    var normalPen := prepared.(stroke := NormalStroke);
    var selPen := prepared.(stroke := SelectionStroke, colour := HighlightColor);
    var normal := NormalMarks(cfg, FrameSpots(target, frame), zslice, normalPen);
    var selected := if cfg.spotSelection.Some? then SelectionMarks(cfg, cfg.spotSelection.value, target, frame, zslice, selPen) else [];
    var editing := if cfg.editingSpot.Some? then [Mark(EditingOval, cfg.editingSpot.value, EditingPen(cfg, before))] else [];
    assert PaintOutcome(cfg, frameNumber, sliceNumber, before).marks == normal + selected + editing;
    if m in normal {
      var s := NormalSpot(cfg, FrameSpots(target, frame), zslice, normalPen, m);
    } else if m in selected {
      var s := SelectedSpot(cfg, cfg.spotSelection.value, target, frame, zslice, selPen, m);
    }
  }

  /** A call of the normal pass belongs to a kept spot, with its colour and the pen's other
      settings. */
  lemma NormalSpot(cfg: Config, spots: seq<Spot>, zslice: real, pen: Settings, m: Mark) returns (s: Spot)
    requires m in NormalMarks(cfg, spots, zslice, pen)
    ensures s in spots && Kept(cfg)(s) && m.spot == s && m.pen == pen.(colour := ColourFor(Colours(cfg), s))
  {
    var f := NormalMarksOf(cfg, zslice, pen);
    ConcatMember(Filter(spots, Kept(cfg)), f, m);
    s :| s in Filter(spots, Kept(cfg)) && m in f(s);
    FilterMember(spots, Kept(cfg), s);
    SpotShape(s, zslice, cfg.radiusRatio, cfg.spotNameVisible, pen.(colour := ColourFor(Colours(cfg), s)), m);
  }

  /** A call of the selection pass belongs to a selected spot of the frame, with the pen. */
  lemma SelectedSpot(cfg: Config, selection: seq<Spot>, target: SpotCollection, frame: int, zslice: real,
                     pen: Settings, m: Mark) returns (s: Spot)
    requires m in SelectionMarks(cfg, selection, target, frame, zslice, pen)
    ensures s in selection && InFrame(target, frame)(s) && m.spot == s && m.pen == pen
  {
    var f := SelectedMarksOf(cfg, zslice, pen);
    ConcatMember(Filter(selection, InFrame(target, frame)), f, m);
    s :| s in Filter(selection, InFrame(target, frame)) && m in f(s);
    FilterMember(selection, InFrame(target, frame), s);
    SpotShape(s, zslice, cfg.radiusRatio, cfg.spotNameVisible, pen, m);
  }

  /** Every kept spot of the frame is drawn by the normal pass. */
  lemma NormalDrawn(cfg: Config, spots: seq<Spot>, zslice: real, pen: Settings, s: Spot) returns (m: Mark)
    requires s in spots && Kept(cfg)(s)
    ensures m in NormalMarks(cfg, spots, zslice, pen) && m.spot == s
  {
    var f := NormalMarksOf(cfg, zslice, pen);
    FilterMember(spots, Kept(cfg), s);
    SpotShape(s, zslice, cfg.radiusRatio, cfg.spotNameVisible, pen.(colour := ColourFor(Colours(cfg), s)), f(s)[0]);
    m := f(s)[0];
    ConcatMember(Filter(spots, Kept(cfg)), f, m);
  }

  /** Every selected spot of the frame is drawn by the selection pass. */
  lemma SelectedDrawn(cfg: Config, selection: seq<Spot>, target: SpotCollection, frame: int, zslice: real,
                      pen: Settings, s: Spot) returns (m: Mark)
    requires s in selection && InFrame(target, frame)(s)
    ensures m in SelectionMarks(cfg, selection, target, frame, zslice, pen) && m.spot == s
  {
    var f := SelectedMarksOf(cfg, zslice, pen);
    FilterMember(selection, InFrame(target, frame), s);
    SpotShape(s, zslice, cfg.radiusRatio, cfg.spotNameVisible, pen, f(s)[0]);
    m := f(s)[0];
    ConcatMember(Filter(selection, InFrame(target, frame)), f, m);
  }

  /** A `paint` that reaches the passes had a calibration to read, and drew their calls. */
  lemma PaintDefined(cfg: Config, frameNumber: int, sliceNumber: int, before: Settings)
    requires cfg.spotVisible && cfg.target.Some?
    requires PaintOutcome(cfg, frameNumber, sliceNumber, before).failure.None?
    ensures Calibrated(cfg)
    ensures PaintOutcome(cfg, frameNumber, sliceNumber, before).marks
         == PassMarks(cfg, cfg.target.value, frameNumber - 1, ZSlice(cfg, sliceNumber),
                      before.(composite := cfg.composite, font := LabelFont))
  {
  }

  /** A completed `paint` draws, with the normal stroke, exactly the spots of frame
      `frameNumber - 1` other than the spot being edited and the selected ones, each in its
      colour from the map or else the default colour. */
  lemma PaintNormalPass(cfg: Config, frameNumber: int, sliceNumber: int, before: Settings, s: Spot)
    requires cfg.spotVisible && cfg.target.Some?
    requires PaintOutcome(cfg, frameNumber, sliceNumber, before).failure.None?
    ensures var p := PaintOutcome(cfg, frameNumber, sliceNumber, before);
            && ((exists m :: m in p.marks && m.pen.stroke == NormalStroke && m.spot == s)
                <==> s in FrameSpots(cfg.target.value, frameNumber - 1) && Kept(cfg)(s))
            && (forall m :: m in p.marks && m.pen.stroke == NormalStroke
                  ==> m.pen.colour == (if cfg.targetColor.Some? && m.spot in cfg.targetColor.value
                                       then cfg.targetColor.value[m.spot] else DefaultColor))
  {
    var p := PaintOutcome(cfg, frameNumber, sliceNumber, before);
    var spots := FrameSpots(cfg.target.value, frameNumber - 1);
    var pen := before.(composite := cfg.composite, font := LabelFont, stroke := NormalStroke);
    PaintDefined(cfg, frameNumber, sliceNumber, before);
    var zslice := ZSlice(cfg, sliceNumber);
    forall m | m in p.marks && m.pen.stroke == NormalStroke
      ensures m.pen.colour == (if cfg.targetColor.Some? && m.spot in cfg.targetColor.value
                               then cfg.targetColor.value[m.spot] else DefaultColor)
    {
      PaintPens(cfg, frameNumber, sliceNumber, before, m);
      var t := NormalSpot(cfg, spots, zslice, pen, m);
    }
    if exists m :: m in p.marks && m.pen.stroke == NormalStroke && m.spot == s {
      var m :| m in p.marks && m.pen.stroke == NormalStroke && m.spot == s;
      PaintPens(cfg, frameNumber, sliceNumber, before, m);
      var t := NormalSpot(cfg, spots, zslice, pen, m);
    }
    if s in spots && Kept(cfg)(s) {
      var m := NormalDrawn(cfg, spots, zslice, pen, s);
      var t := NormalSpot(cfg, spots, zslice, pen, m);
      assert m in p.marks;
    }
  }

  /** A completed `paint` highlights, with the selection stroke, exactly the selected spots
      that the collection places in frame `frameNumber - 1`. */
  lemma PaintSelectionPass(cfg: Config, frameNumber: int, sliceNumber: int, before: Settings, s: Spot)
    requires cfg.spotVisible && cfg.target.Some?
    requires PaintOutcome(cfg, frameNumber, sliceNumber, before).failure.None?
    ensures var p := PaintOutcome(cfg, frameNumber, sliceNumber, before);
            (exists m :: m in p.marks && m.pen.stroke == SelectionStroke && m.spot == s)
            <==> cfg.spotSelection.Some? && s in cfg.spotSelection.value
                 && s in cfg.target.value.frameOf && cfg.target.value.frameOf[s] == frameNumber - 1
  {
    var p := PaintOutcome(cfg, frameNumber, sliceNumber, before);
    PaintDefined(cfg, frameNumber, sliceNumber, before);
    var zslice := ZSlice(cfg, sliceNumber);
    var pen := before.(composite := cfg.composite, font := LabelFont, stroke := SelectionStroke, colour := HighlightColor);
    if exists m :: m in p.marks && m.pen.stroke == SelectionStroke && m.spot == s {
      var m :| m in p.marks && m.pen.stroke == SelectionStroke && m.spot == s;
      PaintPens(cfg, frameNumber, sliceNumber, before, m);
      var t := SelectedSpot(cfg, cfg.spotSelection.value, cfg.target.value, frameNumber - 1, zslice, pen, m);
    }
    if cfg.spotSelection.Some? && s in cfg.spotSelection.value && InFrame(cfg.target.value, frameNumber - 1)(s) {
      var m := SelectedDrawn(cfg, cfg.spotSelection.value, cfg.target.value, frameNumber - 1, zslice, pen, s);
      var t := SelectedSpot(cfg, cfg.spotSelection.value, cfg.target.value, frameNumber - 1, zslice, pen, m);
      assert m in p.marks;
    }
  }

  /** Every call of a completed `paint` with the selection stroke is in the highlight colour. */
  lemma PaintSelectionHighlighted(cfg: Config, frameNumber: int, sliceNumber: int, before: Settings, m: Mark)
    requires cfg.spotVisible && cfg.target.Some?
    requires PaintOutcome(cfg, frameNumber, sliceNumber, before).failure.None?
    requires m in PaintOutcome(cfg, frameNumber, sliceNumber, before).marks && m.pen.stroke == SelectionStroke
    ensures m.pen.colour == HighlightColor
  {
    PaintDefined(cfg, frameNumber, sliceNumber, before);
    var zslice := ZSlice(cfg, sliceNumber);
    var pen := before.(composite := cfg.composite, font := LabelFont, stroke := SelectionStroke, colour := HighlightColor);
    PaintPens(cfg, frameNumber, sliceNumber, before, m);
    var t := SelectedSpot(cfg, cfg.spotSelection.value, cfg.target.value, frameNumber - 1, zslice, pen, m);
  }

  /** A completed `paint` ends with the dashed highlighted oval of the spot being edited,
      whatever its frame or position, and draws no other call with the editing stroke. */
  lemma PaintEditingPass(cfg: Config, frameNumber: int, sliceNumber: int, before: Settings, m: Mark)
    requires cfg.spotVisible && cfg.target.Some?
    requires PaintOutcome(cfg, frameNumber, sliceNumber, before).failure.None?
    ensures var p := PaintOutcome(cfg, frameNumber, sliceNumber, before);
            && (cfg.editingSpot.Some?
                ==> |p.marks| >= 1 && p.marks[|p.marks| - 1] == Mark(EditingOval, cfg.editingSpot.value, EditingPen(cfg, before)))
            && (m in p.marks && m.pen.stroke == EditingStroke
                ==> cfg.editingSpot.Some? && m == Mark(EditingOval, cfg.editingSpot.value, EditingPen(cfg, before)))
  {
    var p := PaintOutcome(cfg, frameNumber, sliceNumber, before);
    if m in p.marks {
      PaintPens(cfg, frameNumber, sliceNumber, before, m);
    }
  }

  // ---------------------------------------------------------------------------------
  // The graphics device

  /** The part of a `Graphics2D` that `paint` uses: its settings, and the calls drawn on it. */
  class Graphics {
    var transform: Transform
    var composite: Composite
    var stroke: Stroke
    var colour: Colour
    var font: Font
    var drawn: seq<Mark>

    function Current(): Settings
      reads this
    {
      Settings(transform, composite, stroke, colour, font)
    }

    constructor(settings: Settings)
      ensures Current() == settings && drawn == []
    {
      transform := settings.transform;
      composite := settings.composite;
      stroke := settings.stroke;
      colour := settings.colour;
      font := settings.font;
      drawn := [];
    }

    method SetTransform(t: Transform)
      modifies this
      ensures Current() == old(Current()).(transform := t) && drawn == old(drawn)
    {
      transform := t;
    }

    method SetComposite(c: Composite)
      modifies this
      ensures Current() == old(Current()).(composite := c) && drawn == old(drawn)
    {
      composite := c;
    }

    method SetStroke(s: Stroke)
      modifies this
      ensures Current() == old(Current()).(stroke := s) && drawn == old(drawn)
    {
      stroke := s;
    }

    method SetColor(c: Colour)
      modifies this
      ensures Current() == old(Current()).(colour := c) && drawn == old(drawn)
    {
      colour := c;
    }

    method SetFont(f: Font)
      modifies this
      ensures Current() == old(Current()).(font := f) && drawn == old(drawn)
    {
      font := f;
    }

    /** One drawing call with the current settings. */
    method Draw(shape: Shape, spot: Spot)
      modifies this
      ensures Current() == old(Current()) && drawn == old(drawn) + [Mark(shape, spot, old(Current()))]
    {
      drawn := drawn + [Mark(shape, spot, Current())];
    }
  }

  // ---------------------------------------------------------------------------------
  // The overlay

  class SpotOverlay {
    var target: Option<SpotCollection>
    var targetColor: Option<map<Spot, Colour>>
    var editingSpot: Option<Spot>
    var spotSelection: Option<seq<Spot>>
    var spotVisible: bool
    var calibration: Option<seq<real>>
    var radiusRatio: real
    var composite: Composite
    var spotNameVisible: bool
    /** The font measured by the last `paint`; `None` until then. */
    var fm: Option<Font>

    function Fields(): Config
      reads this
    {
      Config(target, targetColor, editingSpot, spotSelection, spotVisible, calibration, radiusRatio,
             composite, spotNameVisible)
    }

    /** Source lines 27-53: the image's calibration, maybe `null`, is kept; everything else
        has its default. */
    constructor(calibration: Option<seq<real>>)
      ensures Fields() == Config(None, None, None, None, true, calibration, 1.0, SrcOver, false)
      ensures fm == None
    {
      target := None;
      targetColor := None;
      editingSpot := None;
      spotSelection := None;
      spotVisible := true;
      this.calibration := calibration;
      radiusRatio := 1.0;
      composite := SrcOver;
      spotNameVisible := false;
      fm := None;
    }

    method SetSpotNameVisible(v: bool)
      modifies this
      ensures Fields() == old(Fields()).(spotNameVisible := v) && fm == old(fm)
    {
      spotNameVisible := v;
    }

    method SetSpotVisible(v: bool)
      modifies this
      ensures Fields() == old(Fields()).(spotVisible := v) && fm == old(fm)
    {
      spotVisible := v;
    }

    method SetEditedSpot(spot: Option<Spot>)
      modifies this
      ensures Fields() == old(Fields()).(editingSpot := spot) && fm == old(fm)
    {
      editingSpot := spot;
    }

    method SetSpotSelection(spots: Option<seq<Spot>>)
      modifies this
      ensures Fields() == old(Fields()).(spotSelection := spots) && fm == old(fm)
    {
      spotSelection := spots;
    }

    method SetTarget(t: Option<SpotCollection>)
      modifies this
      ensures Fields() == old(Fields()).(target := t) && fm == old(fm)
    {
      target := t;
    }

    method SetTargetColor(colors: Option<map<Spot, Colour>>)
      modifies this
      ensures Fields() == old(Fields()).(targetColor := colors) && fm == old(fm)
    {
      targetColor := colors;
    }

    method SetRadiusRatio(r: real)
      modifies this
      ensures Fields() == old(Fields()).(radiusRatio := r) && fm == old(fm)
    {
      radiusRatio := r;
    }

    method SetComposite(c: Composite)
      modifies this
      ensures Fields() == old(Fields()).(composite := c) && fm == old(fm)
    {
      composite := c;
    }

    /** Source lines 169-195 without the geometry. */
    method DrawSpot(g: Graphics, spot: Spot, zslice: real)
      modifies g
      ensures g.Current() == old(g.Current())
      ensures g.drawn == old(g.drawn) + SpotMarks(spot, zslice, radiusRatio, spotNameVisible, old(g.Current()))
    {
      var dz2 := Sq(spot.z - zslice);
      var radius := spot.radius * radiusRatio;
      if dz2 >= Sq(radius) {
        g.Draw(Dot, spot);
      } else {
        g.Draw(Ring, spot);
        if spotNameVisible {
          g.Draw(Name, spot);
        }
      }
    }

    /** One spot of the normal pass, source lines 120-124: its colour from the map, or the
        default colour. */
    method DrawNormalSpot(g: Graphics, spot: Spot, zslice: real, ghost pen: Settings)
      requires targetColor.Some?
      requires g.Current() == pen.(colour := g.colour)
      modifies g
      ensures g.drawn == old(g.drawn) + NormalMarksOf(Fields(), zslice, pen)(spot)
      ensures g.Current() == pen.(colour := g.colour)
    {
      var color := if spot in targetColor.value then targetColor.value[spot] else DefaultColor;
      g.SetColor(color);
      assert g.Current() == pen.(colour := ColourFor(Colours(Fields()), spot));
      DrawSpot(g, spot, zslice);
    }

    /** The normal pass, source lines 112-127; a `null` colour map throws at the first spot
        it would draw. */
    method NormalPass(g: Graphics, spots: seq<Spot>, zslice: real) returns (failure: Option<Failure>)
      modifies g
      ensures failure.Some? <==> targetColor.None? && Filter(spots, Kept(Fields())) != []
      ensures failure.Some? ==> failure == Some(NullDereference) && g.Current() == old(g.Current()) && g.drawn == old(g.drawn)
      ensures failure.None? ==> g.drawn == old(g.drawn) + NormalMarks(Fields(), spots, zslice, old(g.Current()))
      ensures g.Current() == old(g.Current()).(colour := g.colour)
    {
      ghost var cfg := Fields();
      ghost var keep := Kept(cfg);
      ghost var pen := g.Current();
      ghost var drawn0 := g.drawn;
      var k := 0;
      while k < |spots|
        invariant 0 <= k <= |spots|
        invariant g.drawn == drawn0 + NormalMarks(cfg, spots[..k], zslice, pen)
        invariant g.Current() == pen.(colour := g.colour)
        invariant targetColor.None? ==> Filter(spots[..k], keep) == [] && g.colour == pen.colour
      {
        var spot := spots[k];
        assert spots[..k + 1] == spots[..k] + [spot];
        NormalMarksSnoc(cfg, spots[..k], spot, zslice, pen);
        FilterSnoc(spots[..k], spot, keep);
        var skip := editingSpot == Some(spot) || (spotSelection.Some? && spot in spotSelection.value);
        assert skip == !keep(spot);
        if skip {
          k := k + 1;
          continue;
        }
        if targetColor.None? {
          FilterMember(spots, keep, spot);
          return Some(NullDereference);
        }
        DrawNormalSpot(g, spot, zslice, pen);
        AppendAssoc(drawn0, NormalMarks(cfg, spots[..k], zslice, pen), NormalMarksOf(cfg, zslice, pen)(spot));
        k := k + 1;
      }
      assert spots[..k] == spots;
      return None;
    }

    /** The selection pass, source lines 134-139. */
    method SelectionPass(g: Graphics, selection: seq<Spot>, t: SpotCollection, frame: int, zslice: real)
      modifies g
      ensures g.Current() == old(g.Current())
      ensures g.drawn == old(g.drawn) + SelectionMarks(Fields(), selection, t, frame, zslice, old(g.Current()))
    {
      ghost var cfg := Fields();
      ghost var pen := g.Current();
      ghost var drawn0 := g.drawn;
      var k := 0;
      while k < |selection|
        invariant 0 <= k <= |selection|
        invariant g.drawn == drawn0 + SelectionMarks(cfg, selection[..k], t, frame, zslice, pen)
        invariant g.Current() == pen
      {
        var spot := selection[k];
        assert selection[..k + 1] == selection[..k] + [spot];
        SelectionMarksSnoc(cfg, selection[..k], spot, t, frame, zslice, pen);
        if !(spot in t.frameOf) || t.frameOf[spot] != frame {
          k := k + 1;
          continue;
        }
        DrawSpot(g, spot, zslice);
        AppendAssoc(drawn0, SelectionMarks(cfg, selection[..k], t, frame, zslice, pen), SelectedMarksOf(cfg, zslice, pen)(spot));
        k := k + 1;
      }
      assert selection[..k] == selection;
    }

    /** The three passes, source lines 110-159, on graphics whose composite and font are set. */
    method Passes(g: Graphics, t: SpotCollection, frame: int, zslice: real) returns (failure: Option<Failure>)
      modifies g
      ensures failure.Some? <==> targetColor.None? && Filter(FrameSpots(t, frame), Kept(Fields())) != []
      ensures failure.Some? ==> failure == Some(NullDereference) && g.drawn == old(g.drawn)
                                && g.Current() == old(g.Current()).(stroke := NormalStroke)
      ensures failure.None? ==> g.drawn == old(g.drawn) + PassMarks(Fields(), t, frame, zslice, old(g.Current()))
      ensures g.transform == old(g.transform) && g.composite == old(g.composite) && g.font == old(g.font)
    {
      ghost var prepared := g.Current();
      ghost var drawn0 := g.drawn;
      g.SetStroke(NormalStroke);
      failure := NormalPass(g, FrameSpots(t, frame), zslice);
      if failure.Some? {
        return;
      }
      ghost var normal := NormalMarks(Fields(), FrameSpots(t, frame), zslice, prepared.(stroke := NormalStroke));
      ghost var selected: seq<Mark> := [];
      if spotSelection.Some? {
        g.SetStroke(SelectionStroke);
        g.SetColor(HighlightColor);
        assert g.Current() == prepared.(stroke := SelectionStroke, colour := HighlightColor);
        SelectionPass(g, spotSelection.value, t, frame, zslice);
        selected := SelectionMarks(Fields(), spotSelection.value, t, frame, zslice, g.Current());
      }
      AppendAssoc(drawn0, normal, selected);
      ghost var edited: seq<Mark> := [];
      if editingSpot.Some? {
        g.SetColor(HighlightColor);
        g.SetStroke(EditingStroke);
        assert g.Current() == prepared.(stroke := EditingStroke, colour := HighlightColor);
        edited := [Mark(EditingOval, editingSpot.value, g.Current())];
        g.Draw(EditingOval, editingSpot.value);
      }
      AppendAssoc(drawn0, normal + selected, edited);
    }

    /** Source lines 89-167: `frameNumber` and `sliceNumber` are the image's current 1-based
        frame and slice. */
    method Paint(g: Graphics, frameNumber: int, sliceNumber: int) returns (failure: Option<Failure>)
      modifies this`fm, g
      ensures Fields() == old(Fields())
      ensures var p := PaintOutcome(old(Fields()), frameNumber, sliceNumber, old(g.Current()));
              g.drawn == old(g.drawn) + p.marks && g.Current() == p.after && failure == p.failure
      ensures fm == if spotVisible && target.Some? then Some(LabelFont) else old(fm)
    {
      ghost var cfg := Fields();
      ghost var before := g.Current();
      if !spotVisible || target.None? {
        return None;
      }
      var originalTransform := g.transform;
      var originalComposite := g.composite;
      var originalStroke := g.stroke;
      var originalColor := g.colour;
      var originalFont := g.font;

      g.SetComposite(composite);
      g.SetFont(LabelFont);
      fm := Some(LabelFont);

      if calibration.None? {
        return Some(NullDereference);
      }
      if |calibration.value| < 3 {
        return Some(IndexOutOfBounds);
      }
      var frame := frameNumber - 1;
      var zslice := (sliceNumber - 1) as real * calibration.value[2];

      ghost var prepared := g.Current();
      assert prepared == before.(composite := cfg.composite, font := LabelFont);
      assert zslice == ZSlice(cfg, sliceNumber);
      failure := Passes(g, target.value, frame, zslice);
      assert Fields() == cfg;
      if failure.Some? {
        return;
      }
      assert g.drawn == old(g.drawn) + PaintOutcome(cfg, frameNumber, sliceNumber, before).marks;

      g.SetTransform(originalTransform);
      g.SetComposite(originalComposite);
      g.SetStroke(originalStroke);
      g.SetColor(originalColor);
      g.SetFont(originalFont);
    }
  }
}
