/**
 The event records of the first prototype (app.py). An event is a dict with a
 `'type'` string, kind-specific fields and an optional `'delay'` in seconds
 since the previous event. Recorded events always have the shape their type
 names; a macro loaded from a file may not, so the fields are kept apart from
 the type string, and a player reading a field the dict lacks raises `KeyError`.
 */
module AppEvents {
  import opened Common

  /** The kind-specific fields a dict carries. */
  datatype Fields =
    | Pointer(x: int, y: int)                                  // 'pos'
    | ButtonFields(x: int, y: int, button: string, pressed: bool)  // 'pos', 'button', 'pressed'
    | Wheel(x: int, y: int, dx: int, dy: int)                  // 'pos', 'dx', 'dy'
    | KeyFields(event: string, name: string)                   // 'event', 'name'
    | NoFields
  {
    /** The dict has a `'pos'` entry. */
    predicate HasPos()
    {
      Pointer? || ButtonFields? || Wheel?
    }
  }

  datatype Event = Event(kind: string, fields: Fields, delay: Option<real>)

  /** The events the recorder's callbacks write: each type with its own fields and a delay. */
  predicate WellShaped(e: Event)
  {
    && e.delay.Some?
    && (|| (e.kind == "move" && e.fields.Pointer?)
        || (e.kind == "click" && e.fields.ButtonFields?)
        || (e.kind == "scroll" && e.fields.Wheel?)
        || (e.kind == "key" && e.fields.KeyFields? && e.fields.event in {"press", "release"}))
  }
}
