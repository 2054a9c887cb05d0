/** The reply tables and the request/response pairing that `update_state`
    applies to the input window (esphome/components/garage_door/garage_door.cpp). */
module GarageDoorDecode {
  import opened Wrappers
  import opened GarageDoorTypes

  // ---------------------------------------------------------------------
  // Request bytes (`enum Command`)
  // ---------------------------------------------------------------------

  /** Requests from the wall button to the opener. */
  datatype Command = DoorState | EyeSensorState | LightAndLockState

  function CommandCode(c: Command): bv8 {
    match c
    case DoorState => 0x38
    case EyeSensorState => 0x39
    case LightAndLockState => 0x3a
  }

  /** The request a bus byte stands for, if any (`has_command`). */
  function ParseCommand(b: bv8): (r: Option<Command>)
    ensures forall c :: r == Some(c) <==> CommandCode(c) == b
  {
    if b == 0x38 then Some(DoorState)
    else if b == 0x39 then Some(EyeSensorState)
    else if b == 0x3a then Some(LightAndLockState)
    else None
  }

  predicate IsCommandByte(b: bv8) {
    ParseCommand(b).Some?
  }

  // ---------------------------------------------------------------------
  // Door replies (`enum DoorState`)
  // ---------------------------------------------------------------------

  datatype DoorPosition = Opening | Closing | Stopped | Closed | Open

  function DoorCode(p: DoorPosition): bv8 {
    match p
    case Opening => 0x01
    case Closing => 0x04
    case Stopped => 0x06
    case Closed => 0x55
    case Open => 0x52
  }

  function ParseDoor(b: bv8): (r: Option<DoorPosition>)
    ensures forall p :: r == Some(p) <==> DoorCode(p) == b
  {
    if b == 0x01 then Some(Opening)
    else if b == 0x04 then Some(Closing)
    else if b == 0x06 then Some(Stopped)
    else if b == 0x55 then Some(Closed)
    else if b == 0x52 then Some(Open)
    else None
  }

  /** The door switch reads "on" in every position except closing and
      closed; a stopped door counts as open. */
  predicate ReportsOpen(p: DoorPosition) {
    !(p == Closing || p == Closed)
  }

  /** The door reply table, as the fall-through `switch` on the reply byte
      reads: the reply is a known position, and the switch is on exactly
      when that position counts as open. */
  function DecodeDoor(b: bv8): (r: Option<bool>)
    ensures r.Some? <==> ParseDoor(b).Some?
    ensures r.Some? ==> r.value == ReportsOpen(ParseDoor(b).value)
  {
    if b == 0x04 || b == 0x55 then Some(false)
    else if b == 0x06 || b == 0x01 || b == 0x52 then Some(true)
    else None
  }

  // ---------------------------------------------------------------------
  // Safety-eye replies (`enum EyeSensorState`)
  // ---------------------------------------------------------------------

  datatype EyeState = Clear | Blocked

  function EyeCode(s: EyeState): bv8 {
    match s
    case Clear => 0x00
    case Blocked => 0x04
  }

  function ParseEye(b: bv8): (r: Option<EyeState>)
    ensures forall s :: r == Some(s) <==> EyeCode(s) == b
  {
    if b == 0x00 then Some(Clear)
    else if b == 0x04 then Some(Blocked)
    else None
  }

  /** The eye sensor reply table: the reply is a known eye state, and the
      sensor is on exactly when the beam is blocked. */
  function DecodeEye(b: bv8): (r: Option<bool>)
    ensures r.Some? <==> ParseEye(b).Some?
    ensures r.Some? ==> r.value == (ParseEye(b).value == Blocked)
  {
    if b == 0x00 then Some(false)
    else if b == 0x04 then Some(true)
    else None
  }

  // ---------------------------------------------------------------------
  // Light and lock replies: one status byte 0101 U L 0 1, where U is set
  // when the door is unlocked and L when the light is on.
  // ---------------------------------------------------------------------

  const LightStateMask: bv8 := 0xf7
  const LightOn: bv8 := 0x55
  const LightOff: bv8 := 0x51
  const LockStateMask: bv8 := 0xfb
  const Unlocked: bv8 := 0x59
  const Locked: bv8 := 0x51

  /** The light table, applied after masking out the unlocked bit. A
      reply is understood exactly when it has the 0101 ?? 01 shape, and
      then the light is on exactly when bit 2 is set. */
  function DecodeLight(b: bv8): (r: Option<bool>)
    ensures r.Some? <==> b & 0xf3 == 0x51
    ensures r.Some? ==> r.value == (b & 0x04 != 0)
  {
    var masked := b & LightStateMask;
    if masked == LightOn then Some(true)
    else if masked == LightOff then Some(false)
    else None
  }

  /** The lock table, applied after masking out the light bit. A reply is
      understood exactly when the light table understands it, and then the
      door is locked exactly when bit 3 is clear. */
  function DecodeLock(b: bv8): (r: Option<bool>)
    ensures r.Some? <==> DecodeLight(b).Some?
    ensures r.Some? ==> r.value == (b & 0x08 == 0)
  {
    var masked := b & LockStateMask;
    if masked == Unlocked then Some(false)
    else if masked == Locked then Some(true)
    else None
  }

  /** The status byte the opener sends for a light and a lock state; both
      tables read it back. */
  function LightLockByte(lightOn: bool, locked: bool): (b: bv8)
    ensures DecodeLight(b) == Some(lightOn)
    ensures DecodeLock(b) == Some(locked)
  {
    0x51 | (if lightOn then 0x04 else 0x00) | (if locked then 0x00 else 0x08)
  }

  /** Every status byte that the tables understand is one of the four
      bytes `LightLockByte` produces. */
  lemma LightLockBytesAreAllUnderstood(b: bv8)
    requires DecodeLight(b).Some?
    ensures b == LightLockByte(DecodeLight(b).value, DecodeLock(b).value)
  {
  }

  // ---------------------------------------------------------------------
  // The scan of `update_state`
  // ---------------------------------------------------------------------

  /** The four optional values `update_state` accumulates. */
  datatype Decoded = Decoded(
    door: Option<bool>, light: Option<bool>,
    eyeSensor: Option<bool>, lock: Option<bool>)

  const NothingDecoded := Decoded(None, None, None, None)

  /** The four entities the component publishes to. */
  datatype Entity = Door | Light | EyeSensor | Lock

  function Field(d: Decoded, e: Entity): Option<bool> {
    match e
    case Door => d.door
    case Light => d.light
    case EyeSensor => d.eyeSensor
    case Lock => d.lock
  }

  /** `state.millis - input.millis` in 32-bit unsigned arithmetic. */
  function Elapsed(later: u32, earlier: u32): (r: u32)
    ensures earlier <= later ==> r == later - earlier
    ensures later < earlier ==> r as int == later as int + Modulus32 - earlier as int
  {
    ((later as int - earlier as int) % Modulus32) as u32
  }

  /** A response that came more than `kMaxResponseDelayMs` after its
      request is dropped. */
  predicate IsStale(request: SerialInput, response: SerialInput)
    ensures IsStale(request, response) <==>
      (if request.millis <= response.millis then response.millis as int - request.millis as int
       else response.millis as int + Modulus32 - request.millis as int) > MaxResponseDelayMs as int
  {
    Elapsed(response.millis, request.millis) > MaxResponseDelayMs
  }

  /** A request at scan position `at` with its response at `at + 1`. */
  datatype Exchange = Exchange(at: nat, request: SerialInput, response: SerialInput)

  /** An exchange the scan may accept from window `w`: a non-empty request
      slot holding a request byte, the response in the next slot, and a
      response at most `kMaxResponseDelayMs` late. */
  predicate Accepted(w: seq<SerialInput>, x: Exchange) {
    && x.at + 1 < |w|
    && x.request == w[x.at]
    && x.response == w[x.at + 1]
    && !IsEmpty(x.request)
    && IsCommandByte(x.request.data)
    && !IsStale(x.request, x.response)
  }

  /** The exchanges the scan accepts from scan position `i` on: an empty
      slot is skipped; a request byte with a following slot consumes that
      slot as its response, and the pair is kept unless the response is
      stale; any other byte is passed over. Every exchange kept is
      accepted and starts at or after `i`. */
  function ExchangesFrom(w: seq<SerialInput>, i: nat): (r: seq<Exchange>)
    ensures forall x :: x in r ==> Accepted(w, x) && i <= x.at
    decreases |w| - i
  {
    if i >= |w| then []
    else if IsEmpty(w[i]) then ExchangesFrom(w, i + 1)
    else if IsCommandByte(w[i].data) && i + 1 < |w| then
      (if IsStale(w[i], w[i + 1]) then [] else [Exchange(i, w[i], w[i + 1])])
      + ExchangesFrom(w, i + 2)
    else ExchangesFrom(w, i + 1)
  }

  /** One step of the scan at position `i`, as `ExchangesFrom` takes it. */
  lemma ExchangesFromStep(w: seq<SerialInput>, i: nat)
    requires i < |w|
    ensures IsEmpty(w[i]) || !(IsCommandByte(w[i].data) && i + 1 < |w|) ==>
      ExchangesFrom(w, i) == ExchangesFrom(w, i + 1)
    ensures !IsEmpty(w[i]) && IsCommandByte(w[i].data) && i + 1 < |w| && IsStale(w[i], w[i + 1]) ==>
      ExchangesFrom(w, i) == ExchangesFrom(w, i + 2)
    ensures !IsEmpty(w[i]) && IsCommandByte(w[i].data) && i + 1 < |w| && !IsStale(w[i], w[i + 1]) ==>
      ExchangesFrom(w, i) == [Exchange(i, w[i], w[i + 1])] + ExchangesFrom(w, i + 2)
  {
  }

  function Overwrite(newer: Option<bool>, older: Option<bool>): Option<bool> {
    if newer.Some? then newer else older
  }

  /** One accepted exchange applied to the accumulators: the `switch` on
      the request byte. A reply the tables do not understand leaves the
      accumulator as it was. */
  function Apply(d: Decoded, x: Exchange): (r: Decoded)
    ensures forall e :: Field(r, e) == Overwrite(Reading(x, e), Field(d, e))
  {
    var b := x.response.data;
    match ParseCommand(x.request.data)
    case Some(LightAndLockState) =>
      d.(light := Overwrite(DecodeLight(b), d.light), lock := Overwrite(DecodeLock(b), d.lock))
    case Some(DoorState) => d.(door := Overwrite(DecodeDoor(b), d.door))
    case Some(EyeSensorState) => d.(eyeSensor := Overwrite(DecodeEye(b), d.eyeSensor))
    case None => d
  }

  /** The exchanges applied in scan order. */
  function ApplyAll(d: Decoded, xs: seq<Exchange>): Decoded
    decreases |xs|
  {
    if xs == [] then d else ApplyAll(Apply(d, xs[0]), xs[1..])
  }

  /** Applying a first exchange, then the rest. */
  lemma ApplyAllCons(d: Decoded, x: Exchange, xs: seq<Exchange>)
    ensures ApplyAll(d, [x] + xs) == ApplyAll(Apply(d, x), xs)
  {
    assert ([x] + xs)[1..] == xs;
  }

  /** One step of the scan keeps "the accumulators plus what is left to
      scan decode to `target`": a skipped slot or a stale pair adds
      nothing, and a kept pair is applied before the scan moves on. */
  lemma ScanAdvance(w: seq<SerialInput>, i: nat, d: Decoded, target: Decoded)
    requires i < |w| && ApplyAll(d, ExchangesFrom(w, i)) == target
    ensures IsEmpty(w[i]) || !(IsCommandByte(w[i].data) && i + 1 < |w|) ==>
      ApplyAll(d, ExchangesFrom(w, i + 1)) == target
    ensures !IsEmpty(w[i]) && IsCommandByte(w[i].data) && i + 1 < |w| && IsStale(w[i], w[i + 1]) ==>
      ApplyAll(d, ExchangesFrom(w, i + 2)) == target
    ensures !IsEmpty(w[i]) && IsCommandByte(w[i].data) && i + 1 < |w| && !IsStale(w[i], w[i + 1]) ==>
      ApplyAll(Apply(d, Exchange(i, w[i], w[i + 1])), ExchangesFrom(w, i + 2)) == target
  {
    ExchangesFromStep(w, i);
    if !IsEmpty(w[i]) && IsCommandByte(w[i].data) && i + 1 < |w| && !IsStale(w[i], w[i + 1]) {
      ApplyAllCons(d, Exchange(i, w[i], w[i + 1]), ExchangesFrom(w, i + 2));
    }
  }

  /** What `update_state` decodes from a window, oldest entry first. */
  function Decode(w: seq<SerialInput>): (r: Decoded)
    ensures forall e :: Field(r, e) == Latest(ExchangesFrom(w, 0), e)
  {
    ApplyAllIsLatest(NothingDecoded, ExchangesFrom(w, 0));
    ApplyAll(NothingDecoded, ExchangesFrom(w, 0))
  }

  // ---------------------------------------------------------------------
  // A reference reading of the scan: the newest understood reply wins
  // ---------------------------------------------------------------------

  /** What a single exchange says about entity `e`, if anything. */
  function Reading(x: Exchange, e: Entity): Option<bool> {
    var b := x.response.data;
    match (ParseCommand(x.request.data), e)
    case (Some(DoorState), Door) => DecodeDoor(b)
    case (Some(EyeSensorState), EyeSensor) => DecodeEye(b)
    case (Some(LightAndLockState), Light) => DecodeLight(b)
    case (Some(LightAndLockState), Lock) => DecodeLock(b)
    case _ => None
  }

  /** The reading of the newest exchange in `xs` that says something
      about `e`, looking from the end. */
  function Latest(xs: seq<Exchange>, e: Entity): Option<bool>
    decreases |xs|
  {
    if xs == [] then None
    else Overwrite(Reading(xs[|xs| - 1], e), Latest(xs[..|xs| - 1], e))
  }

  /** `Latest` in terms of positions: it is `Some(v)` exactly when some
      exchange reads `v` and no later exchange says anything. */
  lemma {:induction false} LatestIsLastReading(xs: seq<Exchange>, e: Entity, v: bool)
    ensures Latest(xs, e) == Some(v) <==>
      exists k :: 0 <= k < |xs| && Reading(xs[k], e) == Some(v) &&
        forall l :: k < l < |xs| ==> Reading(xs[l], e).None?
    decreases |xs|
  {
    if xs != [] {
      var n := |xs|;
      var init := xs[..n - 1];
      LatestIsLastReading(init, e, v);
      if Reading(xs[n - 1], e).Some? {
        forall k | 0 <= k < n - 1 && Reading(xs[k], e) == Some(v)
          ensures !(forall l :: k < l < n ==> Reading(xs[l], e).None?)
        {
          assert Reading(xs[n - 1], e).Some?;
        }
      } else {
        if Latest(xs, e) == Some(v) {
          var k :| 0 <= k < n - 1 && Reading(init[k], e) == Some(v) &&
            forall l :: k < l < n - 1 ==> Reading(init[l], e).None?;
          assert Reading(xs[k], e) == Some(v);
          assert forall l :: k < l < n ==> Reading(xs[l], e).None? by {
            forall l | k < l < n ensures Reading(xs[l], e).None? {
              if l < n - 1 { assert xs[l] == init[l]; }
            }
          }
        }
        forall k | 0 <= k < n - 1 && Reading(xs[k], e) == Some(v) &&
            forall l :: k < l < n ==> Reading(xs[l], e).None?
          ensures Latest(xs, e) == Some(v)
        {
          assert init[k] == xs[k];
          assert forall l :: k < l < n - 1 ==> Reading(init[l], e).None? by {
            forall l | k < l < n - 1 ensures Reading(init[l], e).None? {
              assert init[l] == xs[l];
            }
          }
        }
      }
    }
  }

  /** Reading `Latest` from the front: the first exchange counts only when
      nothing after it says anything. */
  lemma {:induction false} LatestFromFront(xs: seq<Exchange>, e: Entity)
    requires xs != []
    ensures Latest(xs, e) == Overwrite(Latest(xs[1..], e), Reading(xs[0], e))
    decreases |xs|
  {
    var n := |xs|;
    if n > 1 {
      var init := xs[..n - 1];
      LatestFromFront(init, e);
      assert init[1..] == xs[1..][..n - 2];
      assert init[0] == xs[0];
    } else {
      assert xs[1..] == [];
      assert xs[..0] == [];
    }
  }

  /** The accumulators after the scan agree with the reference reading:
      each field ends as the newest understood reply for that entity, or
      as it started when no exchange says anything about it. */
  lemma {:induction false} ApplyAllIsLatest(d: Decoded, xs: seq<Exchange>)
    ensures forall e :: Field(ApplyAll(d, xs), e) == Overwrite(Latest(xs, e), Field(d, e))
    decreases |xs|
  {
    if xs != [] {
      ApplyAllIsLatest(Apply(d, xs[0]), xs[1..]);
      forall e
        ensures Field(ApplyAll(d, xs), e) == Overwrite(Latest(xs, e), Field(d, e))
      {
        LatestFromFront(xs, e);
      }
    }
  }

  /** What `update_state` decodes for an entity is the newest understood
      reply for it in the window, and nothing when there is none. */
  lemma DecodeIsNewestReading(w: seq<SerialInput>, e: Entity, v: bool)
    ensures Field(Decode(w), e) == Some(v) <==>
      exists k :: 0 <= k < |ExchangesFrom(w, 0)| && Reading(ExchangesFrom(w, 0)[k], e) == Some(v) &&
        forall l :: k < l < |ExchangesFrom(w, 0)| ==> Reading(ExchangesFrom(w, 0)[l], e).None?
  {
    LatestIsLastReading(ExchangesFrom(w, 0), e, v);
  }

  // ---------------------------------------------------------------------
  // What the scan accepts
  // ---------------------------------------------------------------------

  /** Exchanges listed with their start positions at least two apart. */
  predicate InOrder(xs: seq<Exchange>) {
    forall k, l :: 0 <= k < l < |xs| ==> xs[k].at + 2 <= xs[l].at
  }

  /** An exchange two or more slots before every exchange of an ordered
      list can be put in front of it. */
  lemma InOrderCons(x: Exchange, rest: seq<Exchange>)
    requires InOrder(rest)
    requires forall y :: y in rest ==> x.at + 2 <= y.at
    ensures InOrder([x] + rest)
  {
    var xs := [x] + rest;
    forall k, l | 0 <= k < l < |xs|
      ensures xs[k].at + 2 <= xs[l].at
    {
      assert xs[l] == rest[l - 1] && rest[l - 1] in rest;
      if k > 0 {
        assert xs[k] == rest[k - 1];
      }
    }
  }

  /** The list of kept exchanges is in window order: each starts at least
      two slots after the one before it, so the last in the list is the
      newest in the window. */
  lemma {:induction false} ExchangesInOrder(w: seq<SerialInput>, i: nat)
    ensures forall k, l :: 0 <= k < l < |ExchangesFrom(w, i)| ==>
      ExchangesFrom(w, i)[k].at + 2 <= ExchangesFrom(w, i)[l].at
    decreases |w| - i
  {
    if i < |w| {
      ExchangesFromStep(w, i);
      if IsEmpty(w[i]) || !(IsCommandByte(w[i].data) && i + 1 < |w|) {
        ExchangesInOrder(w, i + 1);
      } else {
        ExchangesInOrder(w, i + 2);
        var rest := ExchangesFrom(w, i + 2);
        assert InOrder(rest);
        if !IsStale(w[i], w[i + 1]) {
          InOrderCons(Exchange(i, w[i], w[i + 1]), rest);
        }
      }
    }
  }

  /** Exchanges never overlap: of two kept exchanges the later starts at
      least two slots after the earlier, so a response slot is never also
      a request. */
  lemma ExchangesDoNotOverlap(w: seq<SerialInput>, i: nat)
    ensures forall x, y :: x in ExchangesFrom(w, i) && y in ExchangesFrom(w, i) && x.at < y.at ==>
      x.at + 2 <= y.at
  {
    var xs := ExchangesFrom(w, i);
    ExchangesInOrder(w, i);
    forall x, y | x in xs && y in xs && x.at < y.at
      ensures x.at + 2 <= y.at
    {
      var k :| 0 <= k < |xs| && xs[k] == x;
      var l :| 0 <= l < |xs| && xs[l] == y;
      assert k < l;
    }
  }

  /** Once the scan reaches a request byte with a slot after it, that slot
      is its response and is never read as a request, whether or not the
      pair is kept; a stale pair is dropped. */
  lemma ResponseSlotIsConsumed(w: seq<SerialInput>, i: nat)
    requires i + 1 < |w| && !IsEmpty(w[i]) && IsCommandByte(w[i].data)
    ensures forall x :: x in ExchangesFrom(w, i) ==> x.at != i + 1
    ensures IsStale(w[i], w[i + 1]) <==> forall x :: x in ExchangesFrom(w, i) ==> x.at != i
  {
  }

  /** A window in which no non-empty slot holds a request byte decodes to
      nothing; in particular the all-empty buffer the constructor leaves. */
  lemma {:induction false} NoRequestDecodesNothing(w: seq<SerialInput>, i: nat)
    requires forall j :: i <= j < |w| ==> IsEmpty(w[j]) || !IsCommandByte(w[j].data)
    ensures ExchangesFrom(w, i) == []
    ensures i == 0 ==> Decode(w) == NothingDecoded
    decreases |w| - i
  {
    if i < |w| {
      NoRequestDecodesNothing(w, i + 1);
    }
  }

  /** A stale request swallows its response slot even when that slot is
      itself a request byte: the eye-sensor exchange 0x39/0x00 at positions
      1 and 2 is never read, while the light/lock exchange after it is. */
  lemma StaleRequestHidesFollowingRequest()
    ensures Decode([
        SerialInput(10, 0x38), SerialInput(500, 0x39), SerialInput(505, 0x00),
        SerialInput(506, 0x3a), SerialInput(507, 0x55)])
      == Decoded(None, Some(true), None, Some(true))
  {
    var w := [
        SerialInput(10, 0x38), SerialInput(500, 0x39), SerialInput(505, 0x00),
        SerialInput(506, 0x3a), SerialInput(507, 0x55)];
    assert IsStale(w[0], w[1]);
    assert ExchangesFrom(w, 3) == [Exchange(3, w[3], w[4])];
    assert ExchangesFrom(w, 2) == ExchangesFrom(w, 3);
    assert ExchangesFrom(w, 0) == ExchangesFrom(w, 2);
  }
}
