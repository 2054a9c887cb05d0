/** The garage-door component as an object: the circular input buffer that
    `loop` fills from the UART, the scan that publishes decoded state, the
    toggle detection and the toggle sequences the switches send
    (esphome/components/garage_door/garage_door.cpp, garage_door.h). */
module GarageDoorComponent {
  import opened Wrappers
  import opened GarageDoorTypes
  import opened GarageDoorDecode

  /** The three-byte sequences that toggle the door, the light and the lock. */
  const ToggleDoor := ToggleSequence(0x30, 0x31, 0x31, 220, 20)
  const ToggleLight := ToggleSequence(0x32, 0x33, 0x33, 220, 20)
  const ToggleLock := ToggleSequence(0x34, 0x35, 0x35, 220, 20)

  /** Bytes the toggle sequences put on the bus are never requests, so a
      window holding only toggle traffic decodes to nothing. */
  lemma ToggleTrafficDecodesNothing(w: seq<SerialInput>)
    requires forall j :: 0 <= j < |w| ==>
      w[j].data in {ToggleDoor.data1, ToggleDoor.data2, ToggleLight.data1,
                    ToggleLight.data2, ToggleLock.data1, ToggleLock.data2}
    ensures Decode(w) == NothingDecoded
  {
    NoRequestDecodesNothing(w, 0);
  }

  /** What `UpdateIfChanged` publishes: the decoded value, when there is one
      and it differs from the entity's current state. */
  function Announced(opt: Option<bool>, current: bool): (r: seq<bool>)
    ensures |r| <= 1
    ensures r != [] <==> opt.Some? && opt.value != current
    ensures r != [] ==> r[0] == opt.value
  {
    if opt.GetOr(current) != current then [opt.value] else []
  }

  /** Publishing is idempotent: once a decoded value has been applied, the
      same value announces nothing more. */
  lemma AnnounceIsIdempotent(opt: Option<bool>, current: bool)
    ensures Announced(opt, opt.GetOr(current)) == []
  {
  }

  /** A switch of the component. Its callback is the toggle sequence it
      makes the component send; `published` records every
      `publish_state` call. */
  class GarageDoorSwitch {
    var state: bool
    var published: seq<bool>
    const iconTrue: string
    const iconFalse: string
    const sequence: ToggleSequence

    constructor (iconTrue: string, iconFalse: string, sequence: ToggleSequence)
      ensures this.iconTrue == iconTrue && this.iconFalse == iconFalse
      ensures this.sequence == sequence && published == []
    {
      this.iconTrue := iconTrue;
      this.iconFalse := iconFalse;
      this.sequence := sequence;
      published := [];
    }

    /** The icon follows the published state. */
    function Icon(): (icon: string)
      reads this
      ensures iconTrue != iconFalse ==> (icon == iconTrue <==> state)
      ensures icon == iconTrue || icon == iconFalse
    {
      if state then iconTrue else iconFalse
    }

    method PublishState(value: bool)
      modifies this
      ensures state == value && published == old(published) + [value]
    {
      state := value;
      published := published + [value];
    }

    /** The switch took the decoded value `opt` as `UpdateIfChanged` does. */
    twostate predicate Took(opt: Option<bool>)
      reads this
    {
      state == opt.GetOr(old(state)) && published == old(published) + Announced(opt, old(state))
    }
  }

  /** The eye-sensor entity. */
  class BinarySensor {
    var state: bool
    var published: seq<bool>

    constructor ()
      ensures published == []
    {
      published := [];
    }

    method PublishState(value: bool)
      modifies this
      ensures state == value && published == old(published) + [value]
    {
      state := value;
      published := published + [value];
    }

    twostate predicate Took(opt: Option<bool>)
      reads this
    {
      state == opt.GetOr(old(state)) && published == old(published) + Announced(opt, old(state))
    }
  }

  /** `UpdateIfChanged` for a switch: publish only a present value that
      differs from the current state. */
  method UpdateSwitchIfChanged(opt: Option<bool>, val: GarageDoorSwitch)
    modifies val
    ensures val.Took(opt)
  {
    if opt.GetOr(val.state) != val.state {
      val.PublishState(opt.value);
    }
  }

  /** `UpdateIfChanged` for the binary sensor. */
  method UpdateSensorIfChanged(opt: Option<bool>, val: BinarySensor)
    modifies val
    ensures val.Took(opt)
  {
    if opt.GetOr(val.state) != val.state {
      val.PublishState(opt.value);
    }
  }

  /** One `read_byte` attempt while the UART reports data available: a byte
      and the `millis()` value read right after it, or a failed read. */
  datatype UartRead = ByteRead(data: bv8, millis: u32) | ReadFailed

  /** The entry a read attempt stores, if any. */
  function Entry(attempt: UartRead): seq<SerialInput> {
    if attempt.ByteRead? then [SerialInput(attempt.millis, attempt.data)] else []
  }

  /** The buffer entries the first `n` read attempts store, in order. */
  function Stored(attempts: seq<UartRead>, n: nat): (r: seq<SerialInput>)
    requires n <= |attempts|
    ensures |r| <= n
  {
    if n == 0 then [] else Stored(attempts, n - 1) + Entry(attempts[n - 1])
  }

  /** One more read attempt keeps the read loop's invariant: the buffer is
      the old one with every entry stored so far written in turn. */
  lemma StoredStep(buf: seq<SerialInput>, ptr: nat, attempts: seq<UartRead>, k: nat,
                   before: seq<SerialInput>, after: seq<SerialInput>)
    requires |buf| == InputLen && k < |attempts|
    requires before == StoreAll(buf, ptr, Stored(attempts, k))
    requires attempts[k].ByteRead? ==>
      after == Store(before, ptr + |Stored(attempts, k)|, SerialInput(attempts[k].millis, attempts[k].data))
    requires !attempts[k].ByteRead? ==> after == before
    ensures |Stored(attempts, k + 1)| == |Stored(attempts, k)| + |Entry(attempts[k])|
    ensures after == StoreAll(buf, ptr, Stored(attempts, k + 1))
  {
    var prev := Stored(attempts, k);
    assert Stored(attempts, k + 1) == prev + Entry(attempts[k]);
    if attempts[k].ByteRead? {
      var entry := SerialInput(attempts[k].millis, attempts[k].data);
      assert Entry(attempts[k]) == [entry];
      StoreAllSnoc(buf, ptr, prev, entry);
    } else {
      assert prev + Entry(attempts[k]) == prev;
    }
  }

  /** One `set_timeout` call of `toggle`: write `data` after `delayMs`. */
  datatype ScheduledWrite = ScheduledWrite(delayMs: nat, data: bv8)

  /** `prev_input.millis + 200 > now`, with the sum taken in 32 bits. While
      neither the sum nor `millis()` has wrapped this says the newest byte
      is less than 200 ms old. When `millis()` has wrapped since that byte
      (`now < newest`) and the sum does not wrap, the comparison holds
      however old the byte is, and the toggle is delayed. */
  function BusRecentlyActive(newest: u32, now: u32): (r: bool)
    ensures newest <= now && now as int - newest as int < 200 && newest as int + 200 < Modulus32 ==> r
    ensures newest <= now && now as int - newest as int >= 200 ==> !r
    ensures now < newest && newest as int + 200 < Modulus32 ==> r
    ensures newest as int + 200 >= Modulus32 ==> (r <==> now as int + Modulus32 < newest as int + 200)
  {
    (newest as int + 200) % Modulus32 > now as int
  }

  /** The three writes of a toggle, each delay counted from the call:
      `data1` after 0 ms, or after 100 ms when the bus was recently active;
      `data2` `data2Millis` after `data1`; `data3` `data3Millis` after
      `data2`. */
  predicate SchedulesToggle(schedule: seq<ScheduledWrite>, sequence: ToggleSequence, delayed: bool) {
    && |schedule| == 3
    && schedule[0] == ScheduledWrite(if delayed then 100 else 0, sequence.data1)
    && schedule[1] == ScheduledWrite(schedule[0].delayMs + sequence.data2Millis as nat, sequence.data2)
    && schedule[2] == ScheduledWrite(schedule[1].delayMs + sequence.data3Millis as nat, sequence.data3)
  }

  class GarageDoor {
    const door: GarageDoorSwitch
    const light: GarageDoorSwitch
    const lock: GarageDoorSwitch
    const eyeSensor: BinarySensor

    /** `input_`: the circular buffer; `inputPtr` (`input_ptr_`) counts
        every byte ever stored and addresses the oldest slot. */
    const input: array<SerialInput>
    var inputPtr: nat

    ghost predicate Valid()
      reads this
    {
      input.Length == InputLen && door != light && door != lock && light != lock
    }

    /** The buffer as a scan from `input_ptr_` sees it, oldest entry first. */
    ghost function Contents(): (w: seq<SerialInput>)
      reads this, input
      requires Valid()
    {
      Window(input[..], inputPtr)
    }

    constructor ()
      ensures Valid()
      ensures fresh(input) && fresh(door) && fresh(light) && fresh(lock) && fresh(eyeSensor)
      ensures inputPtr == 0 && forall i :: 0 <= i < InputLen ==> input[i] == EmptyInput
      ensures door.sequence == ToggleDoor && light.sequence == ToggleLight && lock.sequence == ToggleLock
      ensures door.iconTrue == "mdi:garage-open" && door.iconFalse == "mdi:garage"
      ensures light.iconTrue == "mdi:lightbulb-on" && light.iconFalse == "mdi:lightbulb"
      ensures lock.iconTrue == "mdi:lock" && lock.iconFalse == "mdi:lock-open"
      ensures door.published == [] && light.published == [] && lock.published == []
      ensures eyeSensor.published == []
    {
      door := new GarageDoorSwitch("mdi:garage-open", "mdi:garage", ToggleDoor);
      light := new GarageDoorSwitch("mdi:lightbulb-on", "mdi:lightbulb", ToggleLight);
      lock := new GarageDoorSwitch("mdi:lock", "mdi:lock-open", ToggleLock);
      eyeSensor := new BinarySensor();
      input := new SerialInput[InputLen];
      inputPtr := 0;
      new;
      for i := 0 to InputLen
        modifies input
        invariant forall j :: 0 <= j < i ==> input[j] == EmptyInput
      {
        input[i] := SerialInput(0, 0);
      }
    }

    /** One successful `read_byte`: fill `NextInput()` and advance. */
    method StoreInput(entry: SerialInput)
      requires Valid()
      modifies this`inputPtr, input
      ensures Valid()
      ensures inputPtr == old(inputPtr) + 1
      ensures input[..] == Store(old(input[..]), old(inputPtr), entry)
    {
      input[ScanSlot(inputPtr, 0)] := entry;
      inputPtr := inputPtr + 1;
    }

    /** One `read_byte` attempt: a successful read stores its byte and its
        time through `StoreInput`; a failed one changes nothing. */
    method ReadAttempt(attempt: UartRead)
      requires Valid()
      modifies this`inputPtr, input
      ensures Valid()
      ensures inputPtr == old(inputPtr) + |Entry(attempt)|
      ensures attempt.ByteRead? ==>
        input[..] == Store(old(input[..]), old(inputPtr), SerialInput(attempt.millis, attempt.data))
      ensures !attempt.ByteRead? ==> input[..] == old(input[..])
    {
      if attempt.ByteRead? {
        StoreInput(SerialInput(attempt.millis, attempt.data));
      }
    }

    /** The read loop of `loop`: store every byte read into `NextInput()`,
        advancing `input_ptr_` once per stored byte. */
    method ReadAvailable(attempts: seq<UartRead>)
      requires Valid()
      modifies this`inputPtr, input
      ensures Valid()
      ensures inputPtr == old(inputPtr) + |Stored(attempts, |attempts|)|
      ensures input[..] == StoreAll(old(input[..]), old(inputPtr), Stored(attempts, |attempts|))
    {
      ghost var buf0, ptr0 := input[..], inputPtr;
      var k := 0;
      while k < |attempts|
        invariant 0 <= k <= |attempts|
        invariant Valid()
        invariant inputPtr == ptr0 + |Stored(attempts, k)|
        invariant input[..] == StoreAll(buf0, ptr0, Stored(attempts, k))
      {
        ghost var before := input[..];
        ReadAttempt(attempts[k]);
        StoredStep(buf0, ptr0, attempts, k, before, input[..]);
        k := k + 1;
      }
    }

    /** `loop`: read what is available, then run `update_state` from the
        oldest entry when at least one byte was stored. The window then
        holds the five most recent bytes, oldest first. */
    method Loop(attempts: seq<UartRead>)
      requires Valid()
      modifies this`inputPtr, input, door, light, lock, eyeSensor
      ensures Valid()
      ensures inputPtr == old(inputPtr) + |Stored(attempts, |attempts|)|
      ensures input[..] == StoreAll(old(input[..]), old(inputPtr), Stored(attempts, |attempts|))
      ensures Contents() == (old(Contents()) + Stored(attempts, |attempts|))[|Stored(attempts, |attempts|)|..]
      ensures Stored(attempts, |attempts|) == [] ==> unchanged(door, light, lock, eyeSensor)
      ensures Stored(attempts, |attempts|) != [] ==>
        var d := Decode(Contents());
        door.Took(d.door) && light.Took(d.light) && eyeSensor.Took(d.eyeSensor) && lock.Took(d.lock)
    {
      var ptr := inputPtr;
      ghost var buf0, w0 := input[..], Contents();
      ReadAvailable(attempts);
      ghost var xs := Stored(attempts, |attempts|);
      StoreAllKeepsLatest(buf0, ptr, xs);
      assert Contents() == Window(StoreAll(buf0, ptr, xs), ptr + |xs|);
      assert Contents() == (w0 + xs)[|xs|..];
      if ptr != inputPtr {
        UpdateState(inputPtr);
      }
    }

    /** One pass of the scan loop of `update_state` at position `i`: an
        empty slot or a byte that is not a request is passed over; a
        request with a slot after it consumes that slot as its response,
        and the pair is applied unless the response is stale. What the
        accumulators and the rest of the window decode to is unchanged. */
    method ScanStep(ptr: nat, i: nat, decoded: Decoded) returns (next: nat, d: Decoded)
      requires Valid() && i < InputLen
      ensures var w := Window(input[..], ptr);
        next == if !IsEmpty(w[i]) && IsCommandByte(w[i].data) && i + 1 < InputLen then i + 2 else i + 1
      ensures var w := Window(input[..], ptr);
        ApplyAll(d, ExchangesFrom(w, next)) == ApplyAll(decoded, ExchangesFrom(w, i))
    {
      ghost var w := Window(input[..], ptr);
      ScanAdvance(w, i, decoded, ApplyAll(decoded, ExchangesFrom(w, i)));
      var request := input[ScanSlot(ptr, i)];
      assert request == w[i];
      next, d := i + 1, decoded;
      if !IsEmpty(request) && IsCommandByte(request.data) && i + 1 < InputLen {
        var response := input[ScanSlot(ptr, i + 1)];
        assert response == w[i + 1];
        next := i + 2;
        if !IsStale(request, response) {
          d := Apply(decoded, Exchange(i, request, response));
        }
      }
    }

    /** The scan of `update_state`: walk the window oldest first and
        accumulate what the accepted request/response pairs report (the
        four `optional<bool>` locals are the fields of `decoded`). */
    method ScanWindow(ptr: nat) returns (decoded: Decoded)
      requires Valid()
      ensures decoded == Decode(Window(input[..], ptr))
    {
      ghost var w := Window(input[..], ptr);
      decoded := NothingDecoded;
      var i := 0;
      while i < InputLen
        invariant 0 <= i <= InputLen
        invariant ApplyAll(decoded, ExchangesFrom(w, i)) == Decode(w)
        decreases InputLen - i
      {
        i, decoded := ScanStep(ptr, i, decoded);
      }
    }

    /** `update_state`: scan the window from `ptr` and publish to each
        entity only what changed. */
    method UpdateState(ptr: nat)
      requires Valid()
      modifies door, light, lock, eyeSensor
      ensures var d := Decode(Window(input[..], ptr));
        door.Took(d.door) && light.Took(d.light) && eyeSensor.Took(d.eyeSensor) && lock.Took(d.lock)
    {
      var d := ScanWindow(ptr);
      UpdateSwitchIfChanged(d.door, door);
      UpdateSwitchIfChanged(d.light, light);
      UpdateSensorIfChanged(d.eyeSensor, eyeSensor);
      UpdateSwitchIfChanged(d.lock, lock);
    }

    /** `CheckToggle23`: are the second and third bytes of `sequence` in the
        window from `ptr`, either adjacent somewhere in positions 1 to 4, or
        at positions 1 and 4? Positions 2 and 3 are not examined in the
        second case. */
    method CheckToggle23(ptr: nat, sequence: ToggleSequence) returns (found: bool)
      requires Valid()
      ensures var w := Window(input[..], ptr);
        found <==>
          (exists i :: 1 <= i <= 3 && w[i].data == sequence.data2 && w[i + 1].data == sequence.data3)
          || (w[1].data == sequence.data2 && w[4].data == sequence.data3)
    {
      ghost var w := Window(input[..], ptr);
      for i := 1 to InputLen - 1
        invariant forall j :: 1 <= j < i ==> !(w[j].data == sequence.data2 && w[j + 1].data == sequence.data3)
      {
        var data2 := input[ScanSlot(ptr, i)];
        var data3 := input[ScanSlot(ptr, i + 1)];
        if data2.data == sequence.data2 && data3.data == sequence.data3 {
          assert data2 == w[i] && data3 == w[i + 1];
          return true;
        }
      }
      for i := 1 to InputLen - 3
        invariant forall j :: 1 <= j < i ==> !(w[j].data == sequence.data2 && w[j + 3].data == sequence.data3)
      {
        var data2 := input[ScanSlot(ptr, i)];
        var data3 := input[ScanSlot(ptr, i + 3)];
        if data2.data == sequence.data2 && data3.data == sequence.data3 {
          assert data2 == w[i] && data3 == w[i + 3];
          return true;
        }
      }
      return false;
    }

    /** `toggle`: the three writes of `sequence`, shifted by 100 ms when the
        newest byte in the buffer is less than 200 ms old. */
    method Toggle(sequence: ToggleSequence, now: u32) returns (schedule: seq<ScheduledWrite>)
      requires Valid()
      ensures SchedulesToggle(schedule, sequence,
        BusRecentlyActive(Window(input[..], inputPtr)[InputLen - 1].millis, now))
    {
      var prevInput := input[ScanSlot(inputPtr, InputLen - 1)];
      var delay := BusRecentlyActive(prevInput.millis, now);
      var startTime: nat := if delay then 100 else 0;
      schedule := [ScheduledWrite(startTime, sequence.data1)];
      schedule := schedule + [ScheduledWrite(startTime + sequence.data2Millis as nat, sequence.data2)];
      schedule := schedule + [ScheduledWrite(
        startTime + sequence.data2Millis as nat + sequence.data3Millis as nat, sequence.data3)];
    }

    /** `GarageDoorSwitch::write_state` on one of this component's switches:
        it runs the switch's callback, a toggle, and publishes nothing (the
        switch's state changes only when a later poll reports it). */
    method WriteState(sw: GarageDoorSwitch, state: bool, now: u32) returns (schedule: seq<ScheduledWrite>)
      requires Valid() && (sw == door || sw == light || sw == lock)
      ensures SchedulesToggle(schedule, sw.sequence,
        BusRecentlyActive(Window(input[..], inputPtr)[InputLen - 1].millis, now))
    {
      schedule := Toggle(sw.sequence, now);
    }
  }

  /** An entry is stored exactly when some attempt read its byte and time. */
  lemma {:induction false} StoredMembers(attempts: seq<UartRead>, n: nat)
    requires n <= |attempts|
    ensures forall e :: e in Stored(attempts, n) <==>
      exists j :: 0 <= j < n && attempts[j] == ByteRead(e.data, e.millis)
    decreases n
  {
    if n > 0 {
      StoredMembers(attempts, n - 1);
      var prev := Stored(attempts, n - 1);
      var last := Entry(attempts[n - 1]);
      assert Stored(attempts, n) == prev + last;
      forall e: SerialInput
        ensures e in prev + last <==>
          exists j :: 0 <= j < n && attempts[j] == ByteRead(e.data, e.millis)
      {
        if e in last {
          assert attempts[n - 1] == ByteRead(e.data, e.millis);
        }
        if exists j :: 0 <= j < n && attempts[j] == ByteRead(e.data, e.millis) {
          var j :| 0 <= j < n && attempts[j] == ByteRead(e.data, e.millis);
          if j == n - 1 {
            assert last == [e];
          }
        }
      }
    }
  }

  /** Entries are stored in read order: those of the first `m` attempts
      are a prefix of those of the first `n`. */
  lemma {:induction false} StoredPrefix(attempts: seq<UartRead>, m: nat, n: nat)
    requires m <= n <= |attempts|
    ensures Stored(attempts, m) <= Stored(attempts, n)
    decreases n
  {
    if m < n {
      StoredPrefix(attempts, m, n - 1);
      assert Stored(attempts, n) == Stored(attempts, n - 1) + Entry(attempts[n - 1]);
    }
  }

  /** When every attempt succeeds, each stores exactly one entry. */
  lemma {:induction false} StoredAllSucceed(attempts: seq<UartRead>, n: nat)
    requires n <= |attempts|
    requires forall j :: 0 <= j < n ==> attempts[j].ByteRead?
    ensures |Stored(attempts, n)| == n
    decreases n
  {
    if n > 0 {
      StoredAllSucceed(attempts, n - 1);
    }
  }
}
