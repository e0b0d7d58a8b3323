/** The five raw payload caches and the lazy-refresh guard every property
    getter runs before it reads its own cache:
    `if not self.x_data: self.refresh_x()`. */
module Cache {
  import opened Errors
  import opened Json

  /** The five diagnostic endpoints, one cache slot each. */
  datatype Endpoint = StatusEp | MinerEp | TempEp | SpeedEp | DigEp

  /** A cache slot: never fetched, or holding the last fetched payload. */
  datatype Slot = Empty | Populated(payload: Payload)

  /** `not self.x_data`: a slot never fetched and a slot holding an empty
      payload are both falsy, so both make the getter refresh. */
  predicate Falsy(slot: Slot) {
    slot.Empty? || slot.payload == map[]
  }

  /** The five slots together (`status_data`, `miner_data`, `temp_data`,
      `speed_data`, `dig_data`). */
  datatype Caches = Caches(status: Slot, miner: Slot, temp: Slot, speed: Slot, dig: Slot) {

    function Slot(e: Endpoint): Slot {
      match e
      case StatusEp => status
      case MinerEp => miner
      case TempEp => temp
      case SpeedEp => speed
      case DigEp => dig
    }

    /** The caches with slot e replaced and the four others kept. */
    function With(e: Endpoint, slot: Slot): (c: Caches)
      ensures c.Slot(e) == slot
      ensures forall e' :: e' != e ==> c.Slot(e') == Slot(e')
    {
      match e
      case StatusEp => this.(status := slot)
      case MinerEp => this.(miner := slot)
      case TempEp => this.(temp := slot)
      case SpeedEp => this.(speed := slot)
      case DigEp => this.(dig := slot)
    }
  }

  /** Every slot empty, as at construction. */
  const Initial := Caches(Empty, Empty, Empty, Empty, Empty)

  /** One pass through the guard of a getter of endpoint e: the caches
      afterwards, the payload the getter goes on to read (or the transport
      failure that escapes), and whether the refresh operation was called. */
  datatype Step = Step(caches: Caches, data: Result<Payload>, refreshed: bool)

  /** The guard. `response` is what the refresh operation of e would return
      if it were called now: the payload it stores, or its transport failure,
      in which case the slot keeps its content and the failure propagates. */
  function Access(c: Caches, e: Endpoint, response: Result<Payload>): (st: Step)
    ensures st.refreshed <==> Falsy(c.Slot(e))
    ensures forall e' :: e' != e ==> st.caches.Slot(e') == c.Slot(e')
    ensures !st.refreshed ==> st.caches == c && st.data == Ok(c.Slot(e).payload)
    ensures st.refreshed ==> st.data == response
    ensures st.data.Ok? ==> st.caches.Slot(e) == Populated(st.data.value)
    ensures st.data.Err? ==> st.caches == c
  {
    if Falsy(c.Slot(e)) then
      match response
      case Ok(p) => Step(c.With(e, Populated(p)), Ok(p), true)
      case Err(err) => Step(c, Err(err), true)
    else
      Step(c, Ok(c.Slot(e).payload), false)
  }
}
