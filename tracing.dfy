/** The tracing canvas: a faded guide letter is painted on the canvas and the child draws over it.
    Mouse and touch events start, extend and end a stroke; each move paints one round segment from the
    previous point to the new one in the current colour. The canvas is modelled as the guide
    letter it shows and the list of segments painted over it since the guide was last painted. */
module Tracing {
  import opened Wrappers

  /** A point in canvas coordinates. */
  datatype Point = Point(x: int, y: int)

  /** One painted line from a point to another, with its colour and line width. */
  datatype Segment = Segment(from: Point, to: Point, color: string, width: int)

  /** The six colours of the palette, in the order the picker shows them. */
  const Palette: seq<string> := ["#f97316", "#ec4899", "#3b82f6", "#22c55e", "#a855f7", "#ef4444"]

  /** Every stroke is painted with this line width. */
  const StrokeWidth := 14

  /** The segments from position start on form one chain: each begins where the previous one
      ended. */
  ghost predicate ChainedFrom(segments: seq<Segment>, start: nat) {
    forall i :: start < i < |segments| ==> segments[i - 1].to == segments[i].from
  }

  class TracingCanvas {
    /** Whether the canvas element is mounted, and whether it yields a 2D context. */
    const hasCanvas: bool
    const hasContext: bool

    /** The letter to trace. */
    var letter: string
    var isDrawing: bool
    var lastPoint: Option<Point>
    var currentColor: string
    var showColorPicker: bool

    /** What the canvas shows: the guide letter last painted (None before any paint) and the
        segments painted over it. */
    var guide: Option<string>
    var segments: seq<Segment>

    /** Where the current (or last) stroke begins in the segment list. */
    ghost var strokeStart: nat

    /** The canvas invariant: a stroke is in progress exactly when a last point is held, which
        needs the canvas; the colour is a palette colour; every painted segment has the stroke
        width and a palette colour, and paint needs a canvas with a context; the segments of the
        current stroke are chained, and while drawing the last of them ends at the last point. */
    ghost predicate Valid()
      reads this
    {
      && (lastPoint.Some? <==> isDrawing)
      && (isDrawing ==> hasCanvas)
      && currentColor in Palette
      && (forall k :: 0 <= k < |segments| ==> segments[k].width == StrokeWidth && segments[k].color in Palette)
      && (|segments| > 0 ==> hasCanvas && hasContext)
      && (guide.Some? ==> hasCanvas && hasContext)
      && strokeStart <= |segments|
      && ChainedFrom(segments, strokeStart)
      && (isDrawing && strokeStart < |segments| ==> segments[|segments| - 1].to == lastPoint.value)
    }

    /** getCoordinates: the canvas point of a mouse or touch event, or None when there is no canvas.
        The scaling from client to canvas coordinates is left abstract: the event is given in
        canvas coordinates. */
    function Coordinates(event: Point): (r: Option<Point>)
      reads this
      ensures r.Some? <==> hasCanvas
      ensures r.Some? ==> r.value == event
    {
      if hasCanvas then Some(event) else None
    }

    /** Mounting: nothing drawn yet, the first palette colour, the picker closed, and the effect
        paints the guide letter when the canvas and its context are there. */
    constructor (letter: string, hasCanvas: bool, hasContext: bool)
      ensures Valid()
      ensures this.letter == letter && this.hasCanvas == hasCanvas && this.hasContext == hasContext
      ensures !isDrawing && lastPoint == None
      ensures currentColor == Palette[0] && !showColorPicker
      ensures guide == (if hasCanvas && hasContext then Some(letter) else None)
      ensures segments == []
    {
      this.letter := letter;
      this.hasCanvas := hasCanvas;
      this.hasContext := hasContext;
      isDrawing := false;
      lastPoint := None;
      currentColor := Palette[0];
      showColorPicker := false;
      segments := [];
      strokeStart := 0;
      new;
      if hasCanvas && hasContext {
        guide := Some(letter);
      } else {
        guide := None;
      }
    }

    /** drawGuideLetter: without a canvas or a context nothing happens; otherwise the canvas is
        painted white with the guide letter, which wipes every segment. The stroke state and the
        colour are untouched. */
    method DrawGuideLetter()
      requires Valid()
      modifies this`guide, this`segments, this`strokeStart
      ensures Valid()
      ensures !(hasCanvas && hasContext) ==> guide == old(guide) && segments == old(segments)
      ensures hasCanvas && hasContext ==> guide == Some(letter) && segments == []
    {
      if !hasCanvas || !hasContext {
        return;
      }
      guide := Some(letter);
      segments := [];
      strokeStart := 0;
    }

    /** startDrawing: with coordinates available the stroke begins at the event's point, wherever
        it is on the canvas; without them nothing happens. */
    method StartDrawing(event: Point)
      requires Valid()
      modifies this`isDrawing, this`lastPoint, this`strokeStart
      ensures Valid()
      ensures !hasCanvas ==> isDrawing == old(isDrawing) && lastPoint == old(lastPoint)
      ensures hasCanvas ==> isDrawing && lastPoint == Some(event)
    {
      var coords := Coordinates(event);
      if coords.None? {
        return;
      }
      isDrawing := true;
      lastPoint := coords;
      strokeStart := |segments|;
    }

    /** draw: only while a stroke is in progress and the canvas has a context; then one segment
        from the last point to the event's point is painted in the current colour and the event's
        point becomes the last point. */
    method Draw(event: Point)
      requires Valid()
      modifies this`lastPoint, this`segments
      ensures Valid()
      ensures !(isDrawing && hasCanvas && hasContext) ==> lastPoint == old(lastPoint) && segments == old(segments)
      ensures isDrawing && hasCanvas && hasContext ==>
        && segments == old(segments) + [Segment(old(lastPoint.value), event, currentColor, StrokeWidth)]
        && lastPoint == Some(event)
    {
      if !isDrawing || lastPoint.None? {
        return;
      }
      if !hasCanvas || !hasContext {
        return;
      }
      var coords := Coordinates(event);
      if coords.None? {
        return;
      }
      segments := segments + [Segment(lastPoint.value, coords.value, currentColor, StrokeWidth)];
      lastPoint := coords;
    }

    /** stopDrawing: the stroke ends and the last point is dropped. */
    method StopDrawing()
      requires Valid()
      modifies this`isDrawing, this`lastPoint
      ensures Valid()
      ensures !isDrawing && lastPoint == None
    {
      isDrawing := false;
      lastPoint := None;
    }

    /** clearCanvas: repaint the guide letter. */
    method ClearCanvas()
      requires Valid()
      modifies this`guide, this`segments, this`strokeStart
      ensures Valid()
      ensures !(hasCanvas && hasContext) ==> guide == old(guide) && segments == old(segments)
      ensures hasCanvas && hasContext ==> guide == Some(letter) && segments == []
    {
      DrawGuideLetter();
    }

    /** The palette button opens or closes the picker. */
    method TogglePicker()
      requires Valid()
      modifies this`showColorPicker
      ensures Valid()
      ensures showColorPicker == !old(showColorPicker)
    {
      showColorPicker := !showColorPicker;
    }

    /** A swatch of the open picker: its colour becomes the current colour and the picker
        closes. What is already painted keeps its colours. */
    method SelectColor(k: nat)
      requires Valid() && showColorPicker && k < |Palette|
      modifies this`currentColor, this`showColorPicker
      ensures Valid()
      ensures currentColor == Palette[k] && !showColorPicker
    {
      currentColor := Palette[k];
      showColorPicker := false;
    }

    /** A new letter to trace: the effect depending on the letter repaints the guide. */
    method ChangeLetter(newLetter: string)
      requires Valid()
      modifies this`letter, this`guide, this`segments, this`strokeStart
      ensures Valid()
      ensures letter == newLetter
      ensures !(hasCanvas && hasContext) ==> guide == old(guide) && segments == old(segments)
      ensures hasCanvas && hasContext ==> guide == Some(newLetter) && segments == []
    {
      letter := newLetter;
      DrawGuideLetter();
    }
  }
}
