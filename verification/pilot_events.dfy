/**
 The event records of the second prototype (recorder.py, player.py): a dict
 `{"type": ..., "time": ..., "data": {...}}` whose `time` is the number of
 seconds since recording started. The `data` fields are kept apart from the
 type string, since a file may pair them differently from the recorder.
 */
module PilotEvents {

  /** The entries of the `data` dict. */
  datatype Data =
    | PointData(x: int, y: int)                                   // "x", "y"
    | ClickData(x: int, y: int, button: string, pressed: bool)    // "x", "y", "button", "pressed"
    | KeyData(key: string)                                        // "key"
    | NoData

  datatype Event = Event(kind: string, time: real, data: Data)
}
