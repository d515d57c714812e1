/**
 * The board's own logic (components/JSXGraphBoard.tsx) over a snapshot of the
 * graphing library's object registry: the arity and resolvability guards of
 * drawLine and drawCircle, the set of objects removeObject hands to the
 * library, and plotFunction's normalisation pipeline. The library's own
 * `create` calls are parameters: the id a created shape receives, and for a
 * function graph, whether the library accepts the expression. A board
 * without its library instance (`boardRef.current` unset) has no registry:
 * drawLine, drawCircle and removeObject then see an empty one, and build or
 * remove nothing (EmptyRegistryChangesNothing); plotFunction takes the
 * instance's presence as a parameter.
 */
module Board {
  import opened Types
  import opened Expression
  import I18n

  /** A registry entry; lines and circles are tagged with their construction points. */
  datatype BoardObject = BoardObject(constructionPoints: seq<ObjId>)

  /** `board.objects`: the library's registry from id to object. */
  type Objects = map<ObjId, BoardObject>

  /** A line or circle as drawLine and drawCircle return it. */
  datatype Shape = Shape(id: ObjId, constructionPoints: seq<ObjId>)

  /** `pointIds.map(id => objects[id]).filter(Boolean)`: the ids that resolve, in order. */
  function Resolve(objects: Objects, ids: seq<ObjId>): (r: seq<ObjId>)
    ensures |r| <= |ids|
    decreases |ids|
  {
    if ids == [] then []
    else
      var front := Resolve(objects, ids[..|ids| - 1]);
      front + (if ids[|ids| - 1] in objects then [ids[|ids| - 1]] else [])
  }

  /** Nothing is filtered out exactly when every id resolves, and then the ids come back unchanged. */
  lemma {:induction false} ResolveKeepsAll(objects: Objects, ids: seq<ObjId>)
    ensures |Resolve(objects, ids)| == |ids| <==> forall i :: 0 <= i < |ids| ==> ids[i] in objects
    ensures |Resolve(objects, ids)| == |ids| ==> Resolve(objects, ids) == ids
    decreases |ids|
  {
    if ids != [] {
      var front := ids[..|ids| - 1];
      ResolveKeepsAll(objects, front);
      assert forall i :: 0 <= i < |front| ==> front[i] == ids[i];
      assert ids == front + [ids[|ids| - 1]];
    }
  }

  /** Exactly the ids that resolve survive the filter. */
  lemma {:induction false} ResolveMembers(objects: Objects, ids: seq<ObjId>)
    ensures forall x :: x in Resolve(objects, ids) <==> x in ids && x in objects
    decreases |ids|
  {
    if ids != [] {
      var front := ids[..|ids| - 1];
      ResolveMembers(objects, front);
      assert ids == front + [ids[|ids| - 1]];
    }
  }

  /** Both guards: exactly `arity` ids, and none of them may have been deleted. */
  function Construct(objects: Objects, pointIds: seq<ObjId>, arity: nat, created: ObjId): Option<Shape> {
    if |pointIds| == arity then
      var points := Resolve(objects, pointIds);
      if |points| < arity then None else Some(Shape(created, points))
    else None
  }

  /** drawLine: a line through exactly two existing points, else null. */
  function DrawLine(objects: Objects, pointIds: seq<ObjId>, created: ObjId): (r: Option<Shape>)
    ensures r.Some? <==> |pointIds| == 2 && pointIds[0] in objects && pointIds[1] in objects
    ensures r.Some? ==> r.value == Shape(created, pointIds)
  {
    ResolveKeepsAll(objects, pointIds);
    Construct(objects, pointIds, 2, created)
  }

  /** drawCircle: the circle through exactly three existing points, else null. */
  function DrawCircle(objects: Objects, pointIds: seq<ObjId>, created: ObjId): (r: Option<Shape>)
    ensures r.Some? <==> |pointIds| == 3 && forall i :: 0 <= i < 3 ==> pointIds[i] in objects
    ensures r.Some? ==> r.value == Shape(created, pointIds)
  {
    ResolveKeepsAll(objects, pointIds);
    Construct(objects, pointIds, 3, created)
  }

  predicate NoDuplicates<T(==)>(s: seq<T>) {
    forall i, j :: 0 <= i < j < |s| ==> s[i] != s[j]
  }

  /** `[...new Set(s)]`: the members of `s`, each once. */
  function Dedup<T(==,!new)>(s: seq<T>): (r: seq<T>)
    ensures NoDuplicates(r)
    ensures forall x :: x in r <==> x in s
    ensures |r| <= |s|
    decreases |s|
  {
    if s == [] then []
    else
      var front := Dedup(s[..|s| - 1]);
      var last := s[|s| - 1];
      assert forall x :: x in s <==> x in s[..|s| - 1] || x == last;
      if last in front then front else front + [last]
  }

  /**
   * What removeObject collects before deduplicating: the main object if it
   * exists, then the given point ids that resolve or, when none are given,
   * the main object's construction points. Nothing for an empty id.
   */
  function Collected(objects: Objects, id: ObjId, pointIds: Option<seq<ObjId>>): seq<ObjId> {
    if id == "" then []
    else
      (if id in objects then [id] else [])
      + (if pointIds.Some? && |pointIds.value| > 0 then Resolve(objects, pointIds.value)
         else if id in objects then objects[id].constructionPoints
         else [])
  }

  /** The objects removeObject hands to the library; empty when it makes no call. */
  function RemovalSet(objects: Objects, id: ObjId, pointIds: Option<seq<ObjId>>): seq<ObjId> {
    Dedup(Collected(objects, id, pointIds))
  }

  /**
   * What a removal takes with it, each object once: nothing for an empty id;
   * otherwise the object itself if it exists, together with the listed points
   * that exist or, when no points are listed, the object's construction points.
   */
  lemma RemovalSetContents(objects: Objects, id: ObjId, pointIds: Option<seq<ObjId>>)
    ensures NoDuplicates(RemovalSet(objects, id, pointIds))
    ensures id == "" ==> RemovalSet(objects, id, pointIds) == []
    ensures id != "" && id in objects ==> id in RemovalSet(objects, id, pointIds)
    ensures id != "" && pointIds.Some? && |pointIds.value| > 0 ==>
      forall x :: x in RemovalSet(objects, id, pointIds) <==>
        (x == id && id in objects) || (x in pointIds.value && x in objects)
    ensures id != "" && (pointIds.None? || pointIds.value == []) ==>
      forall x :: x in RemovalSet(objects, id, pointIds) <==>
        id in objects && (x == id || x in objects[id].constructionPoints)
  {
    if pointIds.Some? {
      ResolveMembers(objects, pointIds.value);
    }
  }

  /** Without a registry no line or circle is built and nothing is removed. */
  lemma EmptyRegistryChangesNothing(pointIds: seq<ObjId>, created: ObjId, id: ObjId, listed: Option<seq<ObjId>>)
    ensures DrawLine(map[], pointIds, created).None?
    ensures DrawCircle(map[], pointIds, created).None?
    ensures RemovalSet(map[], id, listed) == []
  {
    if listed.Some? {
      var found := Resolve(map[], listed.value);
      assert found != [] ==> found[0] in found;
      ResolveMembers(map[], listed.value);
    }
  }

  /** The removal for a line's history entry takes the line and its two points. */
  lemma LineRemovalTakesItsPoints(objects: Objects, pointIds: seq<ObjId>, created: ObjId)
    requires created != "" && DrawLine(objects, pointIds, created).Some?
    ensures var after := objects[created := BoardObject(pointIds)];
            forall x :: x in RemovalSet(after, created, Some(pointIds)) <==> x == created || x in pointIds
  {
    RemovalSetContents(objects[created := BoardObject(pointIds)], created, Some(pointIds));
  }

  /**
   * removeObject's bookkeeping: the `push` loop over the point ids, the
   * construction-point fallback, then the deduplication.
   */
  method RemoveObject(objects: Objects, id: ObjId, pointIds: Option<seq<ObjId>>) returns (removed: seq<ObjId>)
    ensures removed == RemovalSet(objects, id, pointIds)
  {
    removed := [];
    if id != "" {
      var main: seq<ObjId> := if id in objects then [id] else [];
      var rest: seq<ObjId> := [];
      if pointIds.Some? && |pointIds.value| > 0 {
        rest := ResolvePoints(objects, pointIds.value);
      } else if id in objects {
        rest := objects[id].constructionPoints;
      }
      var all := main + rest;
      if |all| > 0 {
        removed := Dedup(all);
      }
    }
  }

  /** removeObject's loop: each listed id that resolves is pushed, in order. */
  method ResolvePoints(objects: Objects, ids: seq<ObjId>) returns (found: seq<ObjId>)
    ensures found == Resolve(objects, ids)
  {
    found := [];
    for k := 0 to |ids|
      invariant found == Resolve(objects, ids[..k])
    {
      assert ids[..k + 1][..k] == ids[..k];
      if ids[k] in objects {
        found := found + [ids[k]];
      }
    }
    assert ids[..|ids|] == ids;
  }

  /**
   * The loop over the constants table, one global whole-word replacement per
   * entry under `rule` (`RegexBoundary` as the code writes it).
   */
  method SubstituteAll(s: string, table: seq<(Name, string)>, rule: WordRule) returns (r: string)
    ensures r == SubstituteConstants(s, table, rule)
  {
    r := s;
    for k := 0 to |table|
      invariant r == SubstituteConstants(s, table[..k], rule)
    {
      assert table[..k + 1][..k] == table[..k];
      var (name, value) := table[k];
      r := ReplaceFrom(r, name, "(" + value + ")", 0, rule);
    }
    assert table[..|table|] == table;
  }

  /**
   * The rewriting half of plotFunction, one reassignment of the working
   * string per step: trim, lower-case, the constants, superscripts, then the
   * two implicit-multiplication passes. None for a blank expression.
   */
  method Rewrite(expression: string, rule: WordRule) returns (processed: Option<string>)
    ensures processed == Normalize(expression, rule)
  {
    var text := Trim(expression);
    if text == [] {
      return None;
    }
    text := RewriteTrimmed(text, rule);
    return Some(text);
  }

  /** The steps after the emptiness guard. */
  method RewriteTrimmed(trimmed: string, rule: WordRule) returns (text: string)
    ensures text == Rewritten(trimmed, rule)
  {
    text := ToLowerAscii(trimmed);
    text := SubstituteAll(text, Constants(), rule);
    text := ExpandSuperscripts(text);
    text := MulPass(text, AfterDigit);
    text := MulPass(text, AfterParen);
  }

  /**
   * plotFunction: null without a library instance (`instance` false) or for
   * a blank expression; otherwise the library is asked to graph the text
   * normalised under `rule`, and a refusal (the library throws) yields null
   * together with the alert text naming both the typed and the normalised
   * expression.
   */
  method PlotFunction(expression: string, instance: bool, rule: WordRule, language: I18n.Language,
                      create: string -> Option<ObjId>)
    returns (graph: Option<ObjId>, alert: Option<string>)
    ensures !instance || Normalize(expression, rule).None? ==> graph.None? && alert.None?
    ensures instance && Normalize(expression, rule).Some? ==>
      var processed := Normalize(expression, rule).value;
      graph == create(processed) &&
      alert == (if graph.None?
                then Some(I18n.Translated(language, I18n.PlotterErrorAlert, [I18n.Str(expression), I18n.Str(processed)]))
                else None)
  {
    if !instance {
      return None, None;
    }
    var processed := Rewrite(expression, rule);
    if processed.None? {
      return None, None;
    }
    graph := create(processed.value);
    if graph.None? {
      alert := Some(I18n.Translated(language, I18n.PlotterErrorAlert, [I18n.Str(expression), I18n.Str(processed.value)]));
    } else {
      alert := None;
    }
  }
}
