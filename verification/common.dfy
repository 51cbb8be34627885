/** Types shared by every module of the frame-pipeline model. */
module Common {

  /** An 8-bit value, as held in a Java `byte[]` or a C `unsigned char` buffer. */
  type Byte = bv8

  /** A possibly-absent value: `None` stands for a Java `null` or a C `nullptr`. */
  datatype Option<+T> = None | Some(value: T)

  /** Largest value of a 32-bit signed `int`, the width of every size in the source. */
  const IntMax: int := 0x7fff_ffff
}
