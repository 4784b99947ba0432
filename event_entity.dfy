/**
 * The stored row `EventEntity` of table `events`: the primary key `id`
 * (generated by storage when it is 0 on insert), times as milliseconds since
 * midnight, and the date as start-of-day milliseconds.
 */
module Entity {
  import KotlinInt

  /** `0xFF6A5AE0.toInt()`, the row's default colour. */
  const DefaultColor: int := KotlinInt.ToInt(0xFF6A5AE0)

  /** An id of 0 asks storage to generate a fresh one. */
  const AutoGenerateId: int := 0

  datatype EventEntity = EventEntity(
    id: int := AutoGenerateId,
    title: string,
    description: string := "",
    startTime: int,
    endTime: int,
    date: int,
    color: int := DefaultColor)

  /** A row built without id, description or colour asks for a generated id and takes the defaults. */
  lemma EntityDefaults(title: string, startTime: int, endTime: int, date: int)
    ensures var row := EventEntity(title := title, startTime := startTime, endTime := endTime, date := date);
            row.id == AutoGenerateId && row.description == "" && row.color == -9807136
  {
  }
}
