/** Small shared datatypes. */
module Common {

  /** An optional value: `None` stands for "absent" (a missing file, no screen, an index error). */
  datatype Option<+T> = None | Some(value: T)

  /** A point in pixel coordinates, as the toolkit's integer `QPoint`. */
  datatype Point = Point(x: int, y: int)
}
