/** The domain record `Event`, with the defaults of its Kotlin data class. */
module Domain {
  import opened Chrono
  import KotlinInt

  /** `0xFF6A5AE0.toInt()`: the design's purple, a negative `Int` once truncated to 32 bits. */
  const DefaultColor: int := KotlinInt.ToInt(0xFF6A5AE0)

  /** The id an event has before storage assigns one. */
  const UnsavedId: int := 0

  /**
   * An event: equality is field by field over all seven fields, and nothing
   * relates `startTime` to `endTime`.
   */
  datatype Event = Event(
    id: int := UnsavedId,
    title: string,
    description: string := "",
    startTime: LocalTime,
    endTime: LocalTime,
    date: Date,
    color: int := DefaultColor)

  /** An event built without id, description or colour takes the defaults. */
  lemma EventDefaults(title: string, startTime: LocalTime, endTime: LocalTime, date: Date)
    ensures var e := Event(title := title, startTime := startTime, endTime := endTime, date := date);
            e.id == 0 && e.description == "" && e.color == -9807136 && e.color == DefaultColor
  {
  }
}
