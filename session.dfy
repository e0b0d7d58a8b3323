/** Property reads over the life of one facade: a read runs its getter's
    guard and then derives its value, and a session is any sequence of reads.
    The lemmas say that the caches are filled lazily, at most once each, and
    independently of one another. */
module Session {
  import opened Errors
  import opened Json
  import opened Cache
  import opened Properties

  /** What one property read leaves behind: the caches, the value or failure
      the caller sees, and whether the getter called a refresh operation. */
  datatype Outcome = Outcome(caches: Caches, value: Result<Value>, refreshed: bool)

  /** One property read, its cache's refresh answering with `response` if
      the guard calls it. */
  function Read(c: Caches, prop: Property, response: Result<Payload>): (o: Outcome)
    ensures var e := EndpointOf(prop);
      && (o.refreshed <==> Falsy(c.Slot(e)))
      && (forall e' :: e' != e ==> o.caches.Slot(e') == c.Slot(e'))
      && (!Falsy(c.Slot(e)) ==> o.caches == c && o.value == Derive(prop, c.Slot(e).payload))
      && (Falsy(c.Slot(e)) && response.Ok? ==>
            o.caches == c.With(e, Populated(response.value)) && o.value == Derive(prop, response.value))
      && (Falsy(c.Slot(e)) && response.Err? ==> o.caches == c && o.value == Err(response.error))
  {
    var st := Access(c, EndpointOf(prop), response);
    match st.data
    case Ok(p) => Outcome(st.caches, Derive(prop, p), st.refreshed)
    case Err(err) => Outcome(st.caches, Err(err), st.refreshed)
  }

  /** A property read, with the answer its refresh operation would give. */
  datatype Request = Request(prop: Property, response: Result<Payload>)

  /** A session: the caches at its end, the result of every read in order,
      and the refresh operations called in order. */
  datatype Trace = Trace(caches: Caches, results: seq<Result<Value>>, refreshes: seq<Endpoint>)

  function Run(c: Caches, reqs: seq<Request>): (t: Trace)
    ensures |t.results| == |reqs|
    decreases |reqs|
  {
    if reqs == [] then Trace(c, [], [])
    else
      var o := Read(c, reqs[0].prop, reqs[0].response);
      var rest := Run(o.caches, reqs[1..]);
      Trace(rest.caches, [o.value] + rest.results,
            (if o.refreshed then [EndpointOf(reqs[0].prop)] else []) + rest.refreshes)
  }

  /** Some read of the session depends on slot e. */
  predicate Touches(reqs: seq<Request>, e: Endpoint) {
    exists i :: 0 <= i < |reqs| && EndpointOf(reqs[i].prop) == e
  }

  /** Reads whose slots all hold non-empty payloads call no refresh, leave
      every slot as it was, and each return their derivation of the cached
      payload. */
  lemma {:induction false} ReadsOfPopulatedSlots(c: Caches, reqs: seq<Request>)
    requires forall i :: 0 <= i < |reqs| ==> !Falsy(c.Slot(EndpointOf(reqs[i].prop)))
    ensures Run(c, reqs).caches == c && Run(c, reqs).refreshes == []
    ensures forall i :: 0 <= i < |reqs| && !Falsy(c.Slot(EndpointOf(reqs[i].prop))) ==>
      Run(c, reqs).results[i] == Derive(reqs[i].prop, c.Slot(EndpointOf(reqs[i].prop)).payload)
    decreases |reqs|
  {
    if reqs != [] {
      ReadsOfPopulatedSlots(c, reqs[1..]);
      var t := Run(c, reqs);
      forall i | 1 <= i < |reqs|
        ensures t.results[i] == Derive(reqs[i].prop, c.Slot(EndpointOf(reqs[i].prop)).payload)
      {
        assert t.results[i] == Run(c, reqs[1..]).results[i - 1];
        assert reqs[1..][i - 1] == reqs[i];
      }
    }
  }

  /** Repeated reads of one property on populated slots return the same
      value. */
  lemma RepeatedReadsAgree(c: Caches, reqs: seq<Request>, i: nat, j: nat)
    requires forall k :: 0 <= k < |reqs| ==> !Falsy(c.Slot(EndpointOf(reqs[k].prop)))
    requires i < |reqs| && j < |reqs| && reqs[i].prop == reqs[j].prop
    ensures Run(c, reqs).results[i] == Run(c, reqs).results[j]
  {
    ReadsOfPopulatedSlots(c, reqs);
  }

  /** Independence: a slot no read depends on is never refreshed and keeps
      its content. */
  lemma {:induction false} UntouchedSlot(c: Caches, reqs: seq<Request>, e: Endpoint)
    requires !Touches(reqs, e)
    ensures Run(c, reqs).caches.Slot(e) == c.Slot(e)
    ensures e !in Run(c, reqs).refreshes
    decreases |reqs|
  {
    if reqs != [] {
      var o := Read(c, reqs[0].prop, reqs[0].response);
      assert EndpointOf(reqs[0].prop) != e;
      assert !Touches(reqs[1..], e) by {
        forall i | 0 <= i < |reqs| - 1 ensures EndpointOf(reqs[1..][i].prop) != e {
          assert reqs[1..][i] == reqs[i + 1];
        }
      }
      UntouchedSlot(o.caches, reqs[1..], e);
    }
  }

  /** Once a slot holds a non-empty payload it is never refreshed again and
      keeps that payload, whatever is read afterwards. */
  lemma {:induction false} PopulatedSlotStays(c: Caches, reqs: seq<Request>, e: Endpoint)
    requires !Falsy(c.Slot(e))
    ensures Run(c, reqs).caches.Slot(e) == c.Slot(e)
    ensures e !in Run(c, reqs).refreshes
    decreases |reqs|
  {
    if reqs != [] {
      var o := Read(c, reqs[0].prop, reqs[0].response);
      assert o.caches.Slot(e) == c.Slot(e);
      PopulatedSlotStays(o.caches, reqs[1..], e);
    }
  }

  lemma TouchesFirstOrRest(reqs: seq<Request>, e: Endpoint)
    requires reqs != []
    ensures Touches(reqs, e) <==> EndpointOf(reqs[0].prop) == e || Touches(reqs[1..], e)
  {
    if Touches(reqs, e) {
      var i :| 0 <= i < |reqs| && EndpointOf(reqs[i].prop) == e;
      if i > 0 {
        assert reqs[1..][i - 1] == reqs[i];
      }
    }
    if Touches(reqs[1..], e) {
      var i :| 0 <= i < |reqs| - 1 && EndpointOf(reqs[1..][i].prop) == e;
      assert reqs[i + 1] == reqs[1..][i];
    }
  }

  /** When every refresh of slot e delivers a non-empty payload, a session
      calls that refresh exactly once if e starts out falsy and some read
      depends on it, and never otherwise. */
  lemma {:induction false} RefreshCalledOnce(c: Caches, reqs: seq<Request>, e: Endpoint)
    requires forall i :: 0 <= i < |reqs| && EndpointOf(reqs[i].prop) == e ==>
      reqs[i].response.Ok? && reqs[i].response.value != map[]
    ensures multiset(Run(c, reqs).refreshes)[e] == if Falsy(c.Slot(e)) && Touches(reqs, e) then 1 else 0
    decreases |reqs|
  {
    if reqs != [] {
      var r0, tail := reqs[0], reqs[1..];
      var o := Read(c, r0.prop, r0.response);
      var head: seq<Endpoint> := if o.refreshed then [EndpointOf(r0.prop)] else [];
      var rest := Run(o.caches, tail);
      assert Run(c, reqs).refreshes == head + rest.refreshes;
      assert multiset(Run(c, reqs).refreshes)[e] == multiset(head)[e] + multiset(rest.refreshes)[e];
      TouchesFirstOrRest(reqs, e);
      if EndpointOf(r0.prop) == e {
        assert !Falsy(o.caches.Slot(e));
        PopulatedSlotStays(o.caches, tail, e);
      } else {
        assert multiset(head)[e] == 0;
        assert o.caches.Slot(e) == c.Slot(e);
        forall i | 0 <= i < |tail| && EndpointOf(tail[i].prop) == e
          ensures tail[i].response.Ok? && tail[i].response.value != map[]
        {
          assert tail[i] == reqs[i + 1];
        }
        RefreshCalledOnce(o.caches, tail, e);
      }
    }
  }
}
