/** Tunable thresholds of the proctoring application. */
module Config {

  /** Summed absolute grayscale difference below which a hand-less frame
      still looks like the registered empty table. */
  const TableSimilarityThreshold: int := 5000000

  /** Seconds a bad status may last before the warning notification fires. */
  const WarningThreshold: real := 5.0
}
