/** What calls to the database and to Redis come to, as all the services see it. */
module Outcomes {
  import opened GoStrings

  /** A statement or command takes effect and says so, takes effect but reports an error, or does nothing. */
  datatype Effect = Done | DoneUnreported | NotDone

  /** A Redis entry with a lifetime of d set at t is present at exactly the instants of [t, t + d). */
  datatype Expiring<+T> = Expiring(value: T, until: int)

  /** What a GET of the key finds. */
  function Lookup<T>(store: map<string, Expiring<T>>, key: string, now: int): Option<Expiring<T>> {
    if key in store && now < store[key].until then Some(store[key]) else None
  }
}
