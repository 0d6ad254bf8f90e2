/**
 * The JVM `Double` values of the asteroid records (magnitude, diameter,
 * velocity, distance). The model never computes with them; it only copies
 * them, so a double is represented by its 64-bit IEEE 754 pattern.
 */
module Float64 {
  import opened Wrappers

  datatype Double = Double(bits: bv64)

  /**
   * `String.toDouble`, which is `java.lang.Double.parseDouble`. It is not
   * modelled: callers receive it as a parameter, a partial function whose
   * `None` stands for a `NumberFormatException`.
   */
  type DoubleParser = string -> Option<Double>
}
