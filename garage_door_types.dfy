/** The value types and the circular input buffer arithmetic of the
    garage-door component (esphome/components/garage_door/garage_door.h). */
module GarageDoorTypes {

  /** `uint16_t`. */
  newtype u16 = x: int | 0 <= x < 0x1_0000

  /** `unsigned long` on the 32-bit ESP targets, the type of `millis()`. */
  newtype u32 = x: int | 0 <= x < 0x1_0000_0000

  const Modulus32: int := 0x1_0000_0000

  /** `kInputLen`: the length of the circular input buffer. */
  const InputLen: nat := 5

  /** `kMaxResponseDelayMs`: the longest accepted gap between a request
      byte and its response byte. */
  const MaxResponseDelayMs: u32 := 100

  /** One byte seen on the serial bus with the time it was read. A slot
      whose `millis` is 0 counts as empty. */
  datatype SerialInput = SerialInput(millis: u32, data: bv8)

  /** The three bytes that toggle a switch and the delays before the second
      and the third byte. */
  datatype ToggleSequence = ToggleSequence(
    data1: bv8, data2: bv8, data3: bv8,
    data2Millis: u16, data3Millis: u16)

  /** The value the constructor writes into every slot. */
  const EmptyInput := SerialInput(0, 0)

  predicate IsEmpty(input: SerialInput) {
    input.millis == 0
  }

  /** The slot addressed by `GetInput(ptr + i)`: `(ptr + i) % kInputLen`. */
  function ScanSlot(ptr: nat, i: nat): (slot: nat)
    ensures slot < InputLen
  {
    (ptr + i) % InputLen
  }

  /** The buffer as a scan from `ptr` sees it: `GetInput(ptr + 0)` up to
      `GetInput(ptr + 4)`. Scanned from `input_ptr_`, this is the buffer
      oldest entry first. */
  function Window(buf: seq<SerialInput>, ptr: nat): (w: seq<SerialInput>)
    requires |buf| == InputLen
    ensures |w| == InputLen
    ensures forall i :: 0 <= i < InputLen ==> w[i] == buf[ScanSlot(ptr, i)]
  {
    seq(InputLen, i requires 0 <= i < InputLen => buf[ScanSlot(ptr, i)])
  }

  /** Writing one byte through `NextInput()` and advancing the pointer.
      What that does to the window is `StoreShiftsWindow`. */
  function Store(buf: seq<SerialInput>, ptr: nat, x: SerialInput): (r: seq<SerialInput>)
    requires |buf| == InputLen
    ensures |r| == InputLen
  {
    buf[ScanSlot(ptr, 0) := x]
  }

  /** Writing the bytes `xs` one after the other, starting at `ptr`. What
      that leaves in the window is `StoreAllKeepsLatest`. */
  function StoreAll(buf: seq<SerialInput>, ptr: nat, xs: seq<SerialInput>): (r: seq<SerialInput>)
    requires |buf| == InputLen
    ensures |r| == InputLen
    decreases |xs|
  {
    if xs == [] then buf
    else Store(StoreAll(buf, ptr, xs[..|xs| - 1]), ptr + |xs| - 1, xs[|xs| - 1])
  }

  /** `ScanSlot` as a plain sum: no division is left once `ptr % 5` is known. */
  lemma ScanSlotUnfold(ptr: nat, i: nat)
    requires i < InputLen
    ensures ScanSlot(ptr, i) == if ptr % 5 + i < 5 then ptr % 5 + i else ptr % 5 + i - 5
  {
    assert ptr == 5 * (ptr / 5) + ptr % 5;
    var q := ptr / 5;
    assert ptr + i == 5 * q + (ptr % 5 + i);
    if ptr % 5 + i >= 5 {
      assert ptr + i == 5 * (q + 1) + (ptr % 5 + i - 5);
    }
  }

  /** The scan position at which a scan from `ptr` reaches slot `s`. */
  function ScanIndex(ptr: nat, s: nat): nat {
    (s + InputLen - ptr % InputLen) % InputLen
  }

  /** A scan from any `ptr` visits each of the five slots exactly once,
      so every access is in bounds and the whole buffer is seen. */
  lemma {:induction false} ScanVisitsEachSlotOnce(ptr: nat)
    ensures forall i, j :: 0 <= i < j < InputLen ==> ScanSlot(ptr, i) != ScanSlot(ptr, j)
    ensures forall s :: 0 <= s < InputLen ==>
      ScanIndex(ptr, s) < InputLen && ScanSlot(ptr, ScanIndex(ptr, s)) == s
  {
    forall i | 0 <= i < InputLen { ScanSlotUnfold(ptr, i); }
    forall s | 0 <= s < InputLen
      ensures ScanIndex(ptr, s) < InputLen && ScanSlot(ptr, ScanIndex(ptr, s)) == s
    {
      ScanSlotUnfold(ptr, ScanIndex(ptr, s));
    }
  }

  /** `NextInput()` is the oldest entry: storing one byte drops the oldest
      entry of the window and appends the new byte as the newest. */
  lemma {:induction false} StoreShiftsWindow(buf: seq<SerialInput>, ptr: nat, x: SerialInput)
    requires |buf| == InputLen
    ensures Window(Store(buf, ptr, x), ptr + 1) == Window(buf, ptr)[1..] + [x]
  {
    var w, w' := Window(buf, ptr), Window(Store(buf, ptr, x), ptr + 1);
    ScanVisitsEachSlotOnce(ptr);
    forall i | 0 <= i < InputLen - 1
      ensures w'[i] == w[i + 1]
    {
      assert ScanSlot(ptr + 1, i) == ScanSlot(ptr, i + 1);
    }
    assert ScanSlot(ptr + 1, InputLen - 1) == ScanSlot(ptr, 0);
    assert w' == w[1..] + [x];
  }

  /** Storing one more byte after `xs` is one more `Store` at the next slot. */
  lemma StoreAllSnoc(buf: seq<SerialInput>, ptr: nat, xs: seq<SerialInput>, x: SerialInput)
    requires |buf| == InputLen
    ensures StoreAll(buf, ptr, xs + [x]) == Store(StoreAll(buf, ptr, xs), ptr + |xs|, x)
  {
    assert (xs + [x])[..|xs|] == xs;
  }

  /** The circular buffer keeps exactly the five most recent entries: after
      storing `xs`, the window seen from the advanced pointer is the old
      window followed by `xs`, minus its `|xs|` oldest entries. */
  lemma {:induction false} StoreAllKeepsLatest(buf: seq<SerialInput>, ptr: nat, xs: seq<SerialInput>)
    requires |buf| == InputLen
    ensures Window(StoreAll(buf, ptr, xs), ptr + |xs|) == (Window(buf, ptr) + xs)[|xs|..]
    decreases |xs|
  {
    if xs != [] {
      var n := |xs|;
      var init, last := xs[..n - 1], xs[n - 1];
      StoreAllKeepsLatest(buf, ptr, init);
      StoreShiftsWindow(StoreAll(buf, ptr, init), ptr + n - 1, last);
      assert xs == init + [last];
      assert (Window(buf, ptr) + init)[n - 1..][1..] + [last] == (Window(buf, ptr) + xs)[n..];
    }
  }

  /** After at least one byte is stored, the newest entry of the window
      (the slot `toggle` inspects, `GetInput(input_ptr_ + kInputLen - 1)`)
      is the last byte stored. */
  lemma NewestIsLastStored(buf: seq<SerialInput>, ptr: nat, xs: seq<SerialInput>)
    requires |buf| == InputLen && xs != []
    ensures Window(StoreAll(buf, ptr, xs), ptr + |xs|)[InputLen - 1] == xs[|xs| - 1]
  {
    StoreAllKeepsLatest(buf, ptr, xs);
  }
}
