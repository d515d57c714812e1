/** Value shapes shared by the controller and the board (types.ts). */
module Types {

  datatype Option<+T> = None | Some(value: T)

  /** Identifier the drawing board assigns to every object it creates. */
  type ObjId = string

  /** Board coordinates of a clicked point. */
  datatype Point = Point(x: real, y: real)

  /** The closed set of values a history item's `type` string takes. */
  datatype ItemKind = PointKind | LineKind | CircleKind | FunctionKind

  /** The optional payload: coordinates for a point, the typed text for a function. */
  datatype ItemData = ItemData(coords: Option<Point>, polynomial: Option<string>)

  /** One user-visible created object, as listed in the history panel. */
  datatype HistoryItem = HistoryItem(
    id: ObjId,
    kind: ItemKind,
    name: string,
    pointIds: Option<seq<ObjId>>,
    color: Option<string>,
    data: Option<ItemData>)
}
