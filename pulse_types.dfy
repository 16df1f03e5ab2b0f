/** Values shared by the daemon (pulsedb.c) and the store adapter (pulsedb_postgres.c). */
module PulseTypes {

  datatype Option<T> = None | Some(value: T)

  /** A struct timeval: tv_sec is a signed time_t, tv_usec a signed suseconds_t. */
  datatype Timeval = Timeval(sec: int, usec: int)

  /** A pulse_t record, as carried by the main and the backup message queues. */
  datatype Pulse = Pulse(tv: Timeval, on: bool)

  /** The value of a zero-initialised pulse_t (the globals start out this way). */
  const Blank := Pulse(Timeval(0, 0), false)
}
