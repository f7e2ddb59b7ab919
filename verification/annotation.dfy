/** The annotation data the visualisation script consumes: one record per
    tile, holding an ordered list of building-footprint shapes. A record is
    the decoded content of one JSON file; only the keys the script reads are
    kept, and a key the file may lack is an `Option`. */
module Annotation {

  datatype Option<+T> = None | Some(value: T)

  /** A failure-carrying result, standing for a Python call that either
      returns a value or raises. */
  datatype Result<+T, +E> = Ok(value: T) | Err(error: E)

  /** One (x, y) pair of a shape's `points` list. Each coordinate is the value
      of the number as decoded (a JSON literal is first rounded to the nearest
      double by the decoder); the script coerces it with `int(...)` only when
      drawing. */
  datatype Point = Point(x: real, y: real)

  /** One entry of the `shapes` list. `shapeType` is the `shape_type` key and
      `points` the `points` key; `None` means the key is absent. */
  datatype Shape = Shape(shapeType: Option<string>, points: Option<seq<Point>>)

  /** The decoded annotation file; `shapes` is `None` when the key is absent. */
  datatype Record = Record(shapes: Option<seq<Shape>>)

  /** The outcome of loading one file: a decoded record, or any failure raised
      while reading or decoding it. */
  datatype FileResult = Loaded(record: Record) | Failed

  /** One file found by the directory scan: its name, its stem (the name
      without the `.json` suffix) and what loading it yields. */
  datatype MaskFile = MaskFile(name: string, stem: string, content: FileResult)

  /** The shape tag the rasteriser draws; every other tag is ignored. */
  const PolygonTag: string := "polygon"

  /** `mask_data.get('shapes', [])`: the shapes, an absent key read as empty. */
  function ShapesOf(rec: Record): seq<Shape> {
    match rec.shapes
    case None => []
    case Some(list) => list
  }

  /** `len(mask_data.get('shapes', []))`: the building count of one tile. Every
      shape counts, whatever its tag or number of points. */
  function BuildingCount(rec: Record): nat {
    |ShapesOf(rec)|
  }
}
