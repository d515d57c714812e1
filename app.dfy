/**
 * The construction-mode controller of the sketchpad (App.tsx): three mode
 * flags, the buffers of points placed for a pending line or circle, the
 * history of created objects, the function input, the scales, the selected
 * colour and the current language. Each handler is a method of `App`; the
 * commit effects that React runs after a buffer changes are run at the end of
 * the handler that changed it. The drawing board is reached through the
 * operations of module Board, over a snapshot of its object registry and the
 * id the library gives a newly created object.
 */
module App {
  import opened Types
  import Format
  import I18n
  import Expression
  import Board

  /** The initial selected colour (sky-400). */
  const DefaultColor: string := "#38bdf8"

  // ---------------------------------------------------------------------------
  // History entries and their labels

  /** The label of a point entry: both coordinates with two decimals. */
  function PointLabel(language: I18n.Language, coords: Point): string {
    I18n.Translated(language, I18n.HistoryItemPoint,
      [I18n.Str(Format.ToFixed2(coords.x)), I18n.Str(Format.ToFixed2(coords.y))])
  }

  /** The entry handlePointCreated appends in point mode. */
  function PointEntry(language: I18n.Language, id: ObjId, coords: Point, color: string): HistoryItem {
    HistoryItem(id, PointKind, PointLabel(language, coords), None, Some(color), Some(ItemData(Some(coords), None)))
  }

  /** The entry a line or circle commit appends: its id and the ids of its construction points. */
  function ShapeEntry(language: I18n.Language, kind: ItemKind, shape: Board.Shape, color: string): HistoryItem
    requires kind == LineKind || kind == CircleKind
  {
    var key := if kind == LineKind then I18n.HistoryItemLine else I18n.HistoryItemCircle;
    HistoryItem(shape.id, kind, I18n.Translated(language, key, []), Some(shape.constructionPoints), Some(color),
      Some(ItemData(None, None)))
  }

  /** The entry handlePlotPolynomial appends; the text is kept as typed. */
  function FunctionEntry(language: I18n.Language, id: ObjId, polynomial: string, color: string): HistoryItem {
    HistoryItem(id, FunctionKind, I18n.Translated(language, I18n.HistoryItemFunction, [I18n.Str(polynomial)]),
      None, Some(color), Some(ItemData(None, Some(polynomial))))
  }

  /**
   * The relabel effect on one entry. Entries without data are kept; a point
   * is relabelled only when it has coordinates and a function only when its
   * text is non-empty; every other field is kept.
   */
  function RelabelItem(item: HistoryItem, language: I18n.Language): (r: HistoryItem)
    ensures r == item.(name := r.name)
    ensures item.data.None? ==> r == item
  {
    if item.data.None? then item
    else
      var data := item.data.value;
      var name :=
        match item.kind
        case PointKind => if data.coords.Some? then PointLabel(language, data.coords.value) else item.name
        case LineKind => I18n.Translated(language, I18n.HistoryItemLine, [])
        case CircleKind => I18n.Translated(language, I18n.HistoryItemCircle, [])
        case FunctionKind =>
          if data.polynomial.Some? && data.polynomial.value != "" then
            I18n.Translated(language, I18n.HistoryItemFunction, [I18n.Str(data.polynomial.value)])
          else item.name;
      item.(name := name)
  }

  /** Relabelling twice gives what the last relabelling alone gives. */
  lemma RelabelItemComposes(item: HistoryItem, first: I18n.Language, second: I18n.Language)
    ensures RelabelItem(RelabelItem(item, first), second) == RelabelItem(item, second)
  {
  }

  /** `currentHistory.map(...)`: the list keeps its length and order and only names change. */
  function Relabel(history: seq<HistoryItem>, language: I18n.Language): (r: seq<HistoryItem>)
    ensures |r| == |history|
    ensures forall i :: 0 <= i < |history| ==> r[i] == history[i].(name := r[i].name)
    ensures forall i :: 0 <= i < |history| && history[i].data.None? ==> r[i] == history[i]
  {
    seq(|history|, i requires 0 <= i < |history| => RelabelItem(history[i], language))
  }

  /** Switching language and back leaves the names of the last language only. */
  lemma RelabelComposes(history: seq<HistoryItem>, first: I18n.Language, second: I18n.Language)
    ensures Relabel(Relabel(history, first), second) == Relabel(history, second)
  {
    var once := Relabel(history, first);
    forall i | 0 <= i < |history|
      ensures Relabel(once, second)[i] == Relabel(history, second)[i]
    {
      RelabelItemComposes(history[i], first, second);
    }
  }

  /** Every entry is labelled in `language`: relabelling to it changes nothing. */
  predicate Labelled(history: seq<HistoryItem>, language: I18n.Language) {
    forall i :: 0 <= i < |history| ==> RelabelItem(history[i], language) == history[i]
  }

  /** Appending an entry labelled in the current language keeps the whole list labelled. */
  lemma LabelledAppend(history: seq<HistoryItem>, language: I18n.Language, item: HistoryItem)
    requires Labelled(history, language) && RelabelItem(item, language) == item
    ensures Labelled(history + [item], language)
  {
  }

  /** A point entry is labelled in the language it was created in. */
  lemma PointEntryLabelled(language: I18n.Language, id: ObjId, coords: Point, color: string)
    ensures RelabelItem(PointEntry(language, id, coords, color), language) == PointEntry(language, id, coords, color)
  {
  }

  /** A line or circle entry is labelled in the language it was created in. */
  lemma ShapeEntryLabelled(language: I18n.Language, kind: ItemKind, shape: Board.Shape, color: string)
    requires kind == LineKind || kind == CircleKind
    ensures RelabelItem(ShapeEntry(language, kind, shape, color), language) == ShapeEntry(language, kind, shape, color)
  {
  }

  /** A function entry for a non-empty text is labelled in the language it was created in. */
  lemma FunctionEntryLabelled(language: I18n.Language, id: ObjId, polynomial: string, color: string)
    requires polynomial != ""
    ensures RelabelItem(FunctionEntry(language, id, polynomial, color), language) == FunctionEntry(language, id, polynomial, color)
  {
  }

  /** After a language change every entry is labelled in the new language. */
  lemma RelabelledAreLabelled(history: seq<HistoryItem>, language: I18n.Language)
    ensures Labelled(Relabel(history, language), language)
  {
    var r := Relabel(history, language);
    forall i | 0 <= i < |r| ensures RelabelItem(r[i], language) == r[i] {
      RelabelItemComposes(history[i], language, language);
    }
  }

  // ---------------------------------------------------------------------------
  // Lookup and deletion in the history

  /** `history.find(item => item.id === id)`: the first entry with that id. */
  function Find(history: seq<HistoryItem>, id: ObjId): (r: Option<HistoryItem>)
    ensures r.Some? <==> exists i :: 0 <= i < |history| && history[i].id == id
    ensures r.Some? ==> r.value.id == id && r.value == history[FirstIndex(history, id)]
  {
    if history == [] then None
    else if history[0].id == id then Some(history[0])
    else
      var r := Find(history[1..], id);
      assert forall i :: 0 < i < |history| ==> history[i] == history[1..][i - 1];
      r
  }

  /** Where the first entry with `id` sits; |history| when there is none. */
  function FirstIndex(history: seq<HistoryItem>, id: ObjId): (k: nat)
    ensures k <= |history|
    ensures forall j :: 0 <= j < k ==> history[j].id != id
    ensures k < |history| ==> history[k].id == id
  {
    if history == [] then 0
    else if history[0].id == id then 0
    else 1 + FirstIndex(history[1..], id)
  }

  /** `history.filter(item => item.id !== id)`. */
  function Without(history: seq<HistoryItem>, id: ObjId): (r: seq<HistoryItem>)
    ensures |r| <= |history|
    ensures forall x :: x in r <==> x in history && x.id != id
  {
    if history == [] then []
    else
      var rest := Without(history[1..], id);
      assert forall x :: x in history <==> x == history[0] || x in history[1..];
      (if history[0].id == id then [] else [history[0]]) + rest
  }

  /** Filtering works element by element, so the kept entries stay in order. */
  lemma {:induction false} WithoutDistributes(a: seq<HistoryItem>, b: seq<HistoryItem>, id: ObjId)
    ensures Without(a + b, id) == Without(a, id) + Without(b, id)
    decreases |a|
  {
    if a == [] {
      assert a + b == b;
    } else {
      assert (a + b)[0] == a[0];
      assert (a + b)[1..] == a[1..] + b;
      WithoutDistributes(a[1..], b, id);
    }
  }

  /** A list without the id is left as it is. */
  lemma {:induction false} WithoutAbsent(history: seq<HistoryItem>, id: ObjId)
    requires forall i :: 0 <= i < |history| ==> history[i].id != id
    ensures Without(history, id) == history
    decreases |history|
  {
    if history != [] {
      WithoutAbsent(history[1..], id);
    }
  }

  /** Deleting twice deletes nothing more. */
  lemma WithoutIdempotent(history: seq<HistoryItem>, id: ObjId)
    ensures Without(Without(history, id), id) == Without(history, id)
  {
    var once := Without(history, id);
    forall i | 0 <= i < |once| ensures once[i].id != id {
      assert once[i] in once;
    }
    WithoutAbsent(once, id);
  }

  /** Deleting entries keeps the rest labelled. */
  lemma WithoutKeepsLabels(history: seq<HistoryItem>, id: ObjId, language: I18n.Language)
    requires Labelled(history, language)
    ensures Labelled(Without(history, id), language)
  {
    var rest := Without(history, id);
    forall i | 0 <= i < |rest| ensures RelabelItem(rest[i], language) == rest[i] {
      assert rest[i] in history;
    }
  }

  /**
   * handlePlotPolynomial's `polynomial.trim()` guard: blank is exactly what
   * the board refuses to plot, under either word rule.
   */
  method IsBlank(text: string) returns (blank: bool)
    ensures blank <==> Expression.Normalize(text, Expression.RegexBoundary).None?
    ensures blank <==> Expression.Normalize(text, Expression.Standalone).None?
  {
    blank := Expression.Trim(text) == [];
  }

  // ---------------------------------------------------------------------------
  // The controller

  /** A snapshot of the controller's state, so a handler can state its whole effect at once. */
  datatype Controller = Controller(
    language: I18n.Language,
    pointMode: bool, circleMode: bool, circleIds: seq<ObjId>, circleCoords: seq<Point>,
    lineMode: bool, lineIds: seq<ObjId>, lineCoords: seq<Point>,
    xScale: real, yScale: real, polynomial: string, history: seq<HistoryItem>, color: string,
    boardReady: bool)

  class App {
    var language: I18n.Language
    var pointMode: bool
    var circleMode: bool
    var circleIds: seq<ObjId>
    var circleCoords: seq<Point>
    var lineMode: bool
    var lineIds: seq<ObjId>
    var lineCoords: seq<Point>
    var xScale: real
    var yScale: real
    var polynomial: string
    var history: seq<HistoryItem>
    var color: string
    /** Whether the board handle is attached (`boardRef.current` is set). */
    var boardReady: bool

    ghost function State(): Controller
      reads this
    {
      Controller(language, pointMode, circleMode, circleIds, circleCoords, lineMode, lineIds, lineCoords,
        xScale, yScale, polynomial, history, color, boardReady)
    }

    /**
     * The controller's invariant on its modes: at most one mode is active, a
     * buffer is only filled in its own mode, holds one coordinate per id and
     * is committed before it reaches its shape's arity.
     */
    predicate Valid()
      reads this
    {
      && !(pointMode && lineMode) && !(pointMode && circleMode) && !(lineMode && circleMode)
      && |lineIds| == |lineCoords| && |circleIds| == |circleCoords|
      && |lineIds| < 2 && |circleIds| < 3
      && (!lineMode ==> lineIds == []) && (!circleMode ==> circleIds == [])
    }

    /**
     * The controller's invariant on its history: every label is in the
     * current language. It reads only `history` and `language`, so a handler
     * whose effect leaves both unchanged keeps it; the handlers that change
     * either require and ensure it.
     */
    predicate LabelsCurrent()
      reads this`history, this`language
    {
      Labelled(history, language)
    }

    constructor ()
      ensures Valid() && LabelsCurrent()
      ensures State() == Controller(I18n.InitialLanguage, false, false, [], [], false, [], [],
                                    1.0, 1.0, "", [], DefaultColor, false)
    {
      language := I18n.InitialLanguage;
      pointMode, circleMode, circleIds, circleCoords := false, false, [], [];
      lineMode, lineIds, lineCoords := false, [], [];
      xScale, yScale := 1.0, 1.0;
      polynomial, history, color := "", [], DefaultColor;
      boardReady := false;
    }

    /** The board component has mounted and set its handle. */
    method MountBoard()
      requires Valid()
      modifies this
      ensures Valid()
      ensures State() == old(State()).(boardReady := true)
    {
      boardReady := true;
    }

    /** handleCreatePointClick: point mode on, the other modes off and both buffers emptied. */
    method CreatePointClick()
      requires Valid()
      modifies this
      ensures Valid()
      ensures State() == old(State()).(pointMode := true, lineMode := false, lineIds := [], lineCoords := [],
                                       circleMode := false, circleIds := [], circleCoords := [])
    {
      ResetModes();
      pointMode := true;
    }

    /** handleDrawLineClick: line mode on with an empty buffer, the other modes off. */
    method DrawLineClick()
      requires Valid()
      modifies this
      ensures Valid()
      ensures State() == old(State()).(lineMode := true, lineIds := [], lineCoords := [],
                                       circleMode := false, circleIds := [], circleCoords := [], pointMode := false)
    {
      ResetModes();
      lineMode := true;
    }

    /** handleDrawCircleClick: circle mode on with an empty buffer, the other modes off. */
    method DrawCircleClick()
      requires Valid()
      modifies this
      ensures Valid()
      ensures State() == old(State()).(circleMode := true, circleIds := [], circleCoords := [],
                                       lineMode := false, lineIds := [], lineCoords := [], pointMode := false)
    {
      ResetModes();
      circleMode := true;
    }

    /**
     * handlePointCreated, followed by the commit effect it triggers. The
     * board has just created the point `pointId` at `coords`; `objects` is its
     * registry at that moment and `created` the id it gives a line or circle
     * drawn now. Circle mode is looked at first, then line mode, then point
     * mode; with no mode active nothing changes.
     */
    method PointCreated(coords: Point, pointId: ObjId, objects: Board.Objects, created: ObjId)
      requires Valid() && LabelsCurrent()
      modifies this
      ensures Valid() && LabelsCurrent()
      ensures old(circleMode) && |old(circleIds)| < 2 ==>
        State() == old(State()).(circleIds := old(circleIds) + [pointId], circleCoords := old(circleCoords) + [coords])
      ensures old(circleMode) && |old(circleIds)| == 2 ==>
        var circle := if old(boardReady) then Board.DrawCircle(objects, old(circleIds) + [pointId], created) else None;
        State() == old(State()).(circleMode := false, circleIds := [], circleCoords := [],
          history := old(history) + if circle.Some? then [ShapeEntry(old(language), CircleKind, circle.value, old(color))] else [])
      ensures !old(circleMode) && old(lineMode) && |old(lineIds)| < 1 ==>
        State() == old(State()).(lineIds := old(lineIds) + [pointId], lineCoords := old(lineCoords) + [coords])
      ensures !old(circleMode) && old(lineMode) && |old(lineIds)| == 1 ==>
        var line := if old(boardReady) then Board.DrawLine(objects, old(lineIds) + [pointId], created) else None;
        State() == old(State()).(lineMode := false, lineIds := [], lineCoords := [],
          history := old(history) + if line.Some? then [ShapeEntry(old(language), LineKind, line.value, old(color))] else [])
      ensures !old(circleMode) && !old(lineMode) && old(pointMode) ==>
        State() == old(State()).(pointMode := false,
          history := old(history) + [PointEntry(old(language), pointId, coords, old(color))])
      ensures !old(circleMode) && !old(lineMode) && !old(pointMode) ==> State() == old(State())
    {
      if circleMode {
        CirclePoint(coords, pointId, objects, created);
      } else if lineMode {
        LinePoint(coords, pointId, objects, created);
      } else if pointMode {
        PointEntryLabelled(language, pointId, coords, color);
        Record(PointEntry(language, pointId, coords, color));
        pointMode := false;
      }
    }

    /** The circle branch: buffer the point, and at the third one run the commit effect. */
    method CirclePoint(coords: Point, pointId: ObjId, objects: Board.Objects, created: ObjId)
      requires Valid() && circleMode && LabelsCurrent()
      modifies this
      ensures Valid() && LabelsCurrent()
      ensures |old(circleIds)| < 2 ==>
        State() == old(State()).(circleIds := old(circleIds) + [pointId], circleCoords := old(circleCoords) + [coords])
      ensures |old(circleIds)| == 2 ==>
        var circle := if old(boardReady) then Board.DrawCircle(objects, old(circleIds) + [pointId], created) else None;
        State() == old(State()).(circleMode := false, circleIds := [], circleCoords := [],
          history := old(history) + if circle.Some? then [ShapeEntry(old(language), CircleKind, circle.value, old(color))] else [])
    {
      circleIds := circleIds + [pointId];
      circleCoords := circleCoords + [coords];
      if |circleIds| == 3 {
        var circle := if boardReady then Board.DrawCircle(objects, circleIds, created) else None;
        circleMode, circleIds, circleCoords := false, [], [];
        if circle.Some? {
          ShapeEntryLabelled(language, CircleKind, circle.value, color);
          Record(ShapeEntry(language, CircleKind, circle.value, color));
        }
      }
    }

    /** The line branch: buffer the point, and at the second one run the commit effect. */
    method LinePoint(coords: Point, pointId: ObjId, objects: Board.Objects, created: ObjId)
      requires Valid() && lineMode && LabelsCurrent()
      modifies this
      ensures Valid() && LabelsCurrent()
      ensures |old(lineIds)| < 1 ==>
        State() == old(State()).(lineIds := old(lineIds) + [pointId], lineCoords := old(lineCoords) + [coords])
      ensures |old(lineIds)| == 1 ==>
        var line := if old(boardReady) then Board.DrawLine(objects, old(lineIds) + [pointId], created) else None;
        State() == old(State()).(lineMode := false, lineIds := [], lineCoords := [],
          history := old(history) + if line.Some? then [ShapeEntry(old(language), LineKind, line.value, old(color))] else [])
    {
      lineIds := lineIds + [pointId];
      lineCoords := lineCoords + [coords];
      if |lineIds| == 2 {
        var line := if boardReady then Board.DrawLine(objects, lineIds, created) else None;
        lineMode, lineIds, lineCoords := false, [], [];
        if line.Some? {
          ShapeEntryLabelled(language, LineKind, line.value, color);
          Record(ShapeEntry(language, LineKind, line.value, color));
        }
      }
    }

    /** `setHistory(prev => [...prev, entry])` for an entry labelled in the current language. */
    method Record(entry: HistoryItem)
      requires Valid() && RelabelItem(entry, language) == entry && LabelsCurrent()
      modifies this
      ensures Valid() && LabelsCurrent()
      ensures State() == old(State()).(history := old(history) + [entry])
    {
      LabelledAppend(history, language, entry);
      history := history + [entry];
    }

    /** The success branch of handlePlotPolynomial: a function entry for the typed text, then an empty input. */
    method AddFunction(id: ObjId)
      requires Valid() && polynomial != "" && LabelsCurrent()
      modifies this
      ensures Valid() && LabelsCurrent()
      ensures State() == old(State()).(polynomial := "",
                history := old(history) + [FunctionEntry(old(language), id, old(polynomial), old(color))])
    {
      FunctionEntryLabelled(language, id, polynomial, color);
      Record(FunctionEntry(language, id, polynomial, color));
      polynomial := "";
    }

    /** handleClearBoard: with the board attached, everything but the scales, colour and language is reset. */
    method ClearBoard()
      requires Valid()
      modifies this
      ensures Valid()
      ensures old(boardReady) ==> LabelsCurrent()
      ensures old(boardReady) ==>
        State() == old(State()).(circleMode := false, circleIds := [], circleCoords := [],
                                 lineMode := false, lineIds := [], lineCoords := [], pointMode := false,
                                 polynomial := "", history := [])
      ensures !old(boardReady) ==> State() == old(State())
    {
      if boardReady {
        ResetModes();
        polynomial := "";
        history := [];
      }
    }

    /** Every mode off and both buffers emptied: the resets the mode buttons and handleClearBoard share. */
    method ResetModes()
      requires Valid()
      modifies this
      ensures Valid()
      ensures State() == old(State()).(circleMode := false, circleIds := [], circleCoords := [],
                                       lineMode := false, lineIds := [], lineCoords := [], pointMode := false)
    {
      circleMode, circleIds, circleCoords := false, [], [];
      lineMode, lineIds, lineCoords := false, [], [];
      pointMode := false;
    }

    /** handleXScaleChange, with the slider's text already parsed. */
    method SetXScale(value: real)
      requires Valid()
      modifies this
      ensures Valid()
      ensures State() == old(State()).(xScale := value)
    {
      xScale := value;
    }

    /** handleYScaleChange, with the slider's text already parsed. */
    method SetYScale(value: real)
      requires Valid()
      modifies this
      ensures Valid()
      ensures State() == old(State()).(yScale := value)
    {
      yScale := value;
    }

    /** handleResetScale: both scales back to 1. */
    method ResetScale()
      requires Valid()
      modifies this
      ensures Valid()
      ensures State() == old(State()).(xScale := 1.0, yScale := 1.0)
    {
      xScale, yScale := 1.0, 1.0;
    }

    /** handlePolynomialChange. */
    method PolynomialChange(text: string)
      requires Valid()
      modifies this
      ensures Valid()
      ensures State() == old(State()).(polynomial := text)
    {
      polynomial := text;
    }

    /** handleColorChange. */
    method ColorChange(newColor: string)
      requires Valid()
      modifies this
      ensures Valid()
      ensures State() == old(State()).(color := newColor)
    {
      color := newColor;
    }

    /**
     * handlePlotPolynomial. With a non-blank input and the board attached the
     * board plots it: `instance` is whether the board holds its library
     * instance, `rule` the word rule its constants loop uses, and `create` the
     * library's function-graph primitive on the normalised text. Only a
     * created graph appends a function entry and clears the input; the alert
     * the board raised on a refusal is returned.
     */
    method PlotPolynomial(create: string -> Option<ObjId>, instance: bool, rule: Expression.WordRule)
      returns (alert: Option<string>)
      requires Valid() && LabelsCurrent()
      modifies this
      ensures Valid() && LabelsCurrent()
      ensures
        var processed := Expression.Normalize(old(polynomial), rule);
        var plotted := old(boardReady) && instance && processed.Some?;
        var graph := if plotted then create(processed.value) else None;
        && (graph.Some? ==>
              State() == old(State()).(polynomial := "",
                history := old(history) + [FunctionEntry(old(language), graph.value, old(polynomial), old(color))]))
        && (graph.None? ==> State() == old(State()))
        && (alert.Some? <==> plotted && graph.None?)
        && (alert.Some? ==>
              alert.value == I18n.Translated(old(language), I18n.PlotterErrorAlert,
                               [I18n.Str(old(polynomial)), I18n.Str(processed.value)]))
    {
      alert := None;
      var blank := IsBlank(polynomial);
      if !blank && boardReady {
        var graph;
        graph, alert := Board.PlotFunction(polynomial, instance, rule, language, create);
        if graph.Some? {
          AddFunction(graph.value);
        }
      }
    }

    /**
     * handleDeleteHistoryItem: with the board attached, the board removes the
     * object (with the point ids its first history entry records) and every
     * entry with that id leaves the history. Returns what the board removed.
     */
    method DeleteHistoryItem(id: ObjId, objects: Board.Objects) returns (removed: seq<ObjId>)
      requires Valid() && LabelsCurrent()
      modifies this
      ensures Valid() && LabelsCurrent()
      ensures old(boardReady) ==>
        var item := Find(old(history), id);
        removed == Board.RemovalSet(objects, id, if item.Some? then item.value.pointIds else None)
        && State() == old(State()).(history := Without(old(history), id))
      ensures !old(boardReady) ==> removed == [] && State() == old(State())
    {
      removed := [];
      if boardReady {
        var item := Find(history, id);
        removed := Board.RemoveObject(objects, id, if item.Some? then item.value.pointIds else None);
        WithoutKeepsLabels(history, id, language);
        history := Without(history, id);
      }
    }

    /** A language change and the relabel effect it triggers. */
    method SetLanguage(newLanguage: I18n.Language)
      requires Valid() && LabelsCurrent()
      modifies this
      ensures Valid() && LabelsCurrent()
      ensures State() == old(State()).(language := newLanguage, history := Relabel(old(history), newLanguage))
    {
      RelabelledAreLabelled(history, newLanguage);
      language := newLanguage;
      history := Relabel(history, newLanguage);
    }

    /** getPromptText: circle mode first, then line mode, then point mode, else the default. */
    function PromptText(): string
      reads this
    {
      if circleMode then I18n.Translated(language, I18n.PromptSelectPointForCircle, [I18n.Num(|circleCoords| + 1)])
      else if lineMode then I18n.Translated(language, I18n.PromptSelectPointForLine, [I18n.Num(|lineCoords| + 1)])
      else if pointMode then I18n.Translated(language, I18n.PromptCreatePoint, [])
      else I18n.Translated(language, I18n.PromptDefault, [])
    }
  }

  /**
   * Since at most one mode is active, the priority order of getPromptText
   * never hides a mode: the prompt is the one of the active mode, or the
   * default one when no mode is active.
   */
  lemma PromptFollowsMode(app: App)
    requires app.Valid()
    ensures app.circleMode ==>
      app.PromptText() == I18n.Translated(app.language, I18n.PromptSelectPointForCircle, [I18n.Num(|app.circleCoords| + 1)])
    ensures app.lineMode ==>
      app.PromptText() == I18n.Translated(app.language, I18n.PromptSelectPointForLine, [I18n.Num(|app.lineCoords| + 1)])
    ensures app.pointMode ==> app.PromptText() == I18n.Translated(app.language, I18n.PromptCreatePoint, [])
    ensures !app.pointMode && !app.lineMode && !app.circleMode ==>
      app.PromptText() == I18n.Translated(app.language, I18n.PromptDefault, [])
  {
  }

  /** In English line mode the prompt asks for point n of 2, where n, the points buffered plus one, is 1 or 2. */
  lemma EnglishLinePromptRange(app: App)
    requires app.Valid() && app.language == I18n.En && app.lineMode
    ensures var n := |app.lineCoords| + 1;
      1 <= n <= 2 && app.PromptText() == "Select point " + Format.NatToString(n) + " of 2 for the line."
  {
    I18n.EnglishLinePrompt(|app.lineCoords| + 1);
  }

  /** In English circle mode the prompt asks for point n of 3, with 1 <= n <= 3. */
  lemma EnglishCirclePromptRange(app: App)
    requires app.Valid() && app.language == I18n.En && app.circleMode
    ensures var n := |app.circleCoords| + 1;
      1 <= n <= 3 && app.PromptText() == "Select point " + Format.NatToString(n) + " of 3 for the circle."
  {
    I18n.EnglishCirclePrompt(|app.circleCoords| + 1);
  }
}
