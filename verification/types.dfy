/**
 * The records the tracker works with: a blood-pressure reading, the user
 * profile, the AI insight report and the five clinical categories.
 */
module BPTypes {

  datatype Option<+T> = None | Some(value: T)

  /** The five ordinal categories, mildest first. */
  datatype Category = Normal | Elevated | Stage1 | Stage2 | Crisis

  /** The text each category carries (the enum's string values). */
  function Label(c: Category): string
  {
    match c
    case Normal => "Normal"
    case Elevated => "Elevated"
    case Stage1 => "Hypertension Stage 1"
    case Stage2 => "Hypertension Stage 2"
    case Crisis => "Hypertensive Crisis"
  }

  /**
   * One measurement. `timestamp` is the reading's instant in milliseconds
   * since the epoch (the value `new Date(timestamp).getTime()` yields).
   */
  datatype Reading = Reading(
    id: string,
    systolic: int,
    diastolic: int,
    pulse: int,
    timestamp: int,
    note: Option<string>)

  /** A reading as the entry form submits it: everything but the id. */
  datatype NewReading = NewReading(
    systolic: int,
    diastolic: int,
    pulse: int,
    timestamp: int,
    note: Option<string>)

  /** Attaches the id to a submitted reading. */
  function WithId(entry: NewReading, id: string): Reading
  {
    Reading(id, entry.systolic, entry.diastolic, entry.pulse, entry.timestamp, entry.note)
  }

  datatype Profile = Profile(
    age: string,
    gender: string,
    weight: string,
    height: string,
    conditions: string,
    geminiApiKey: string)

  datatype Trend = Improving | Declining | Stable | Insufficient

  datatype Insight = Insight(
    summary: string,
    recommendations: seq<string>,
    trend: Trend,
    generatedAt: string)
}
