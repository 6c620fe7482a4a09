/**
 * The memory scaler `formate_memory`: a byte count becomes a magnitude and a
 * unit label, chosen by a three-tier threshold table. Division truncates, so
 * the display is a floor of the true size in the chosen unit.
 */
module Memory {
  import opened Numeric

  /** The number of bytes one unit of `unit` stands for. */
  function LabelFactor(unit: string): nat {
    if unit == "KB" then 1000 else if unit == "MB" then 1000000 else 1
  }

  /** The position of `unit` in the order B < KB < MB. */
  function LabelRank(unit: string): nat {
    if unit == "KB" then 1 else if unit == "MB" then 2 else 0
  }

  /** `formate_memory(value)`: the scaled magnitude and its unit label. */
  function FormatMemory(value: nat): (r: (nat, string))
    requires value < U64_LIMIT
    ensures r.1 == "B" <==> value < 1000
    ensures r.1 == "KB" <==> 1000 <= value < 1000000
    ensures r.1 == "MB" <==> 1000000 <= value
    ensures r.0 * LabelFactor(r.1) <= value < (r.0 + 1) * LabelFactor(r.1)
    ensures r.1 != "MB" ==> r.0 < 1000
    ensures 1000 <= value ==> 1 <= r.0
    ensures r.0 <= value
  {
    if value < 1000 then (value, "B")
    else if value < 1000000 then (value / 1000, "KB")
    else (value / 1000000, "MB")
  }

  /** The thresholds of the table on the values at their edges. */
  lemma FormatMemoryEdges()
    ensures FormatMemory(0) == (0, "B")
    ensures FormatMemory(999) == (999, "B")
    ensures FormatMemory(1000) == (1, "KB")
    ensures FormatMemory(999999) == (999, "KB")
    ensures FormatMemory(1000000) == (1, "MB")
    ensures FormatMemory(U64_LIMIT - 1) == (18446744073709, "MB")
  {
  }

  /**
   * The floor bound determines the magnitude: no other number of units
   * brackets `value` the way the displayed one does.
   */
  lemma MagnitudeIsFloor(value: nat, m: nat)
    requires value < U64_LIMIT
    requires m * LabelFactor(FormatMemory(value).1) <= value < (m + 1) * LabelFactor(FormatMemory(value).1)
    ensures m == FormatMemory(value).0
  {
  }

  /**
   * Converting the displayed pair back to bytes and scaling again shows the
   * same pair: the display is stable under its own lossy inverse.
   */
  lemma FormatMemoryRescale(value: nat)
    requires value < U64_LIMIT
    ensures FormatMemory(value).0 * LabelFactor(FormatMemory(value).1) < U64_LIMIT
    ensures FormatMemory(FormatMemory(value).0 * LabelFactor(FormatMemory(value).1)) == FormatMemory(value)
  {
  }

  /**
   * A larger byte count never gets a smaller unit, and within one unit it
   * never gets a smaller magnitude.
   */
  lemma FormatMemoryMonotone(a: nat, b: nat)
    requires a <= b < U64_LIMIT
    ensures LabelRank(FormatMemory(a).1) <= LabelRank(FormatMemory(b).1)
    ensures FormatMemory(a).1 == FormatMemory(b).1 ==> FormatMemory(a).0 <= FormatMemory(b).0
  {
  }
}
