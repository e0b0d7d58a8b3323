/** The facade object: five cache fields that its property getters fill on
    first use and then read. */
module Facade {
  import opened Errors
  import opened Json
  import opened Cache
  import opened Properties
  import Session

  class Bobcat {
    var statusData: Slot
    var minerData: Slot
    var tempData: Slot
    var speedData: Slot
    var digData: Slot

    /** The refresh operations called so far, in order. */
    ghost var refreshes: seq<Endpoint>

    function Caches(): Caches
      reads this
    {
      Cache.Caches(statusData, minerData, tempData, speedData, digData)
    }

    /** Every cache starts out empty; construction fetches nothing. */
    constructor ()
      ensures Caches() == Initial && refreshes == []
    {
      statusData, minerData, tempData, speedData, digData := Empty, Empty, Empty, Empty, Empty;
      refreshes := [];
    }

    /** The transport's `refresh_status`, `refresh_miner`, `refresh_temp`,
        `refresh_speed` and `refresh_dig`: store the payload the device
        answered with in the endpoint's own slot, or let its failure through
        and leave every slot as it was. */
    method Refresh(e: Endpoint, response: Result<Payload>) returns (r: Result<Payload>)
      modifies this
      ensures r == response
      ensures Caches() == if response.Ok? then old(Caches()).With(e, Populated(response.value)) else old(Caches())
      ensures refreshes == old(refreshes) + [e]
    {
      refreshes := refreshes + [e];
      if response.Ok? {
        var slot := Populated(response.value);
        match e
        case StatusEp => statusData := slot;
        case MinerEp => minerData := slot;
        case TempEp => tempData := slot;
        case SpeedEp => speedData := slot;
        case DigEp => digData := slot;
      }
      r := response;
    }

    /** A property getter: `if not self.x_data: self.refresh_x()`, then the
        property's derivation of `self.x_data`. */
    method Read(prop: Property, response: Result<Payload>) returns (r: Result<Value>)
      modifies this
      ensures var o := Session.Read(old(Caches()), prop, response);
        && Caches() == o.caches && r == o.value
        && refreshes == old(refreshes) + (if o.refreshed then [EndpointOf(prop)] else [])
    {
      var e := EndpointOf(prop);
      if Falsy(Caches().Slot(e)) {
        var fetched := Refresh(e, response);
        if fetched.Err? {
          return Err(fetched.error);
        }
      }
      r := Derive(prop, Caches().Slot(e).payload);
    }

    /** `name`: reads the `animal` property, then splits, capitalises and
        joins it. Same effect and value as one read of Name. */
    method Name(response: Result<Payload>) returns (r: Result<Value>)
      modifies this
      ensures var o := Session.Read(old(Caches()), MinerProp(MinerField.Name), response);
        && Caches() == o.caches && r == o.value
        && refreshes == old(refreshes) + (if o.refreshed then [MinerEp] else [])
    {
      var animal :- Read(MinerProp(Animal), response);
      r := Fields.HumanNameOf(animal);
    }

    /** `highest_temp`: reads `temp0` and `temp1` to compare them, then reads
        the winner once more. The later reads find the temperature cache
        filled, so the whole call refreshes at most once and equals one read
        of HighestTemp. */
    method HighestTemp(response: Result<Payload>) returns (r: Result<Value>)
      modifies this
      ensures var o := Session.Read(old(Caches()), TempProp(TempField.HighestTemp), response);
        && Caches() == o.caches && r == o.value
        && refreshes == old(refreshes) + (if o.refreshed then [TempEp] else [])
    {
      // p is the payload every read of this call derives from, unless the
      // refresh fails
      ghost var c0 := Caches();
      ghost var fetchFails := Falsy(c0.Slot(TempEp)) && response.Err?;
      ghost var p: Payload :=
        if fetchFails then map[]
        else if Falsy(c0.Slot(TempEp)) then response.value
        else c0.Slot(TempEp).payload;
      TemperatureReadings(p);
      var t0 :- Read(TempProp(Temp0), response);
      // the first read succeeded, so the cache holds p, which is not empty,
      // and the next reads find it
      ghost var c1 := Caches();
      assert c1.Slot(TempEp) == Populated(p) && p != map[];
      var t1 :- Read(TempProp(Temp1), response);
      if t0.i > t1.i {
        r := Read(TempProp(Temp0), response);
      } else {
        r := Read(TempProp(Temp1), response);
      }
    }
  }
}
