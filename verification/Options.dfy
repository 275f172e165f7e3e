/** The optional value used wherever the C++ code has a pointer, a callback or a
    lookup that may be absent, and the event masks that libevent passes to event
    callbacks. */
module Options {

  datatype Option<+T> = None | Some(value: T)

  /** The `short what` mask of a bufferevent event callback, one flag per BEV_EVENT bit. */
  datatype Events = Events(reading: bool, writing: bool, connected: bool, eof: bool, timeout: bool, error: bool)

  /** The mask holding BEV_EVENT_CONNECTED and nothing else. */
  const CONNECTED := Events(false, false, true, false, false, false)
}
