# Garage door decoder and core configuration rules

A Dafny model of two parts of an ESPHome-based firmware.

**The garage-door component** (`esphome/components/garage_door/`). It listens on the
serial bus between a wall button and a garage-door opener.
- Every byte read is stored, with its arrival time in milliseconds, in a five-slot
  circular buffer.
- After each poll that stored at least one byte, the buffer is scanned oldest first
  for request/response pairs:
  - the door state (request 0x38);
  - the safety-eye state (0x39);
  - the light-and-lock status byte (0x3a).
- A response more than 100 ms after its request is dropped. The newest understood
  reply for each entity is published to the door, light and lock switches and to
  the eye binary sensor, but only when it changes.
- A switch's `write_state` sends a three-byte toggle sequence. It is delayed by
  100 ms when the bus was active within the last 200 ms.

The model keeps the component's form:
- `GarageDoor` is a class. It holds the `input` array, the `inputPtr` counter and
  the four entity objects.
- `Loop`, `UpdateState`, `ScanWindow`, `CheckToggle23` and `Toggle` are methods.
  The read loop of `loop` is in `ReadAvailable`, the scan loop of `update_state`
  is in `ScanWindow`, and `CheckToggle23` keeps its two loops. `Toggle` has no loop.
- Each method is proved against specification functions: `Window`, `StoreAll`,
  `ExchangesFrom`, `Decode` and `SchedulesToggle`.
- Lemmas then relate those functions to independent readings. `Latest` gives the
  newest reply per entity. `StoreAll` is shown to behave as a queue of the last
  five entries.
- Millisecond times are 32-bit unsigned values, as `unsigned long` is on the
  target. Subtraction and the `+ 200` of `toggle` wrap modulo 2^32.

**The core configuration rules** (`esphome/core/config.py`):
- the project-name check (one '.' required; spaces become underscores);
- the extension rule for `includes:`;
- how `to_code` splits each `libraries:` entry into name, version and repository;
- `preload_core_config`. It validates the `esphome:` block and defaults
  `build_path` to the name. It demands exactly one target platform: either an
  old-style `platform:` key or one platform block. An old-style configuration is
  rewritten into a platform block.

These are pure functions. `AddLibraries` and `PreloadCoreConfig` follow the
source's loop and its step-by-step `pop`s, each proved equal to the specification
function.

Files:
- `wrappers.dfy`: `Option` and `Result`.
- `garage_door_types.dfy`: the buffer records and the circular-buffer index arithmetic.
- `garage_door_decode.dfy`: the reply tables and the request/response scan as functions.
- `garage_door.dfy`: the switch, the sensor and the component classes.
- `core_config.dfy`: the configuration rules.

## Model

| member | source | states |
|---|---|---|
| GarageDoorTypes.ScanSlot | esphome/components/garage_door/garage_door.h:64-70 | `GetInput(ptr)` addresses slot `ptr % kInputLen`, always a slot of the five-entry buffer |
| GarageDoorTypes.Window | esphome/components/garage_door/garage_door.h:64-77 | the scan from `ptr` sees five entries, entry `i` being buffer slot `(ptr + i) mod 5` |
| GarageDoorTypes.Store | esphome/components/garage_door/garage_door.cpp:106-109 | a successful read keeps the buffer at five slots; which slot it fills and what the window then holds is stated by `StoreShiftsWindow` |
| GarageDoorTypes.StoreAll | esphome/components/garage_door/garage_door.cpp:105-111 | a run of reads keeps the buffer at five slots; what it leaves in the window is stated by `StoreAllKeepsLatest` |
| GarageDoorTypes.ScanVisitsEachSlotOnce | esphome/components/garage_door/garage_door.cpp:125-126 | the five scan positions from any `ptr` hit distinct slots and every slot is hit, with `ScanIndex` as the inverse |
| GarageDoorTypes.StoreShiftsWindow | esphome/components/garage_door/garage_door.cpp:106-109 | writing `NextInput()` and advancing the pointer drops the oldest entry and appends the new one as newest |
| GarageDoorTypes.StoreAllKeepsLatest | esphome/components/garage_door/garage_door.cpp:105-111 | after storing any number of entries, the window from the new pointer is the old window followed by the new entries, cut to the last five |
| GarageDoorTypes.StoreAllSnoc | esphome/components/garage_door/garage_door.cpp:106-109 | storing one more byte is one more write at the slot after the bytes already stored |
| GarageDoorTypes.NewestIsLastStored | esphome/components/garage_door/garage_door.cpp:299 | the entry at `input_ptr_ + kInputLen - 1` is the most recently stored byte |
| GarageDoorDecode.ParseCommand | esphome/components/garage_door/garage_door.cpp:34-38 | a byte is a request exactly when it is the code of one of the three commands, and then of exactly that one |
| GarageDoorDecode.ParseDoor | esphome/components/garage_door/garage_door.cpp:53-61 | a byte is a door reply exactly when it is the code of one of the five door positions |
| GarageDoorDecode.DecodeDoor | esphome/components/garage_door/garage_door.cpp:182-204 | a door reply is understood exactly when it is a known position, and the switch is on for every position except closing and closed (stopped and opening count as open) |
| GarageDoorDecode.ParseEye | esphome/components/garage_door/garage_door.cpp:62-65 | a byte is an eye reply exactly when it is the code of clear or blocked |
| GarageDoorDecode.DecodeEye | esphome/components/garage_door/garage_door.cpp:206-221 | an eye reply is understood exactly when it is a known eye state, and the sensor is on exactly when the beam is blocked |
| GarageDoorDecode.DecodeLight | esphome/components/garage_door/garage_door.cpp:40-46 | after the 0xf7 mask a status byte is understood exactly when it has the shape 0101 ?? 01, and the light is on exactly when bit 2 is set |
| GarageDoorDecode.DecodeLock | esphome/components/garage_door/garage_door.cpp:47-51 | after the 0xfb mask the lock table understands exactly the bytes the light table does, and the door is locked exactly when bit 3 is clear |
| GarageDoorDecode.LightLockByte | esphome/components/garage_door/garage_door.cpp:149-180 | the status byte for any light and lock state is read back as that state by both tables |
| GarageDoorDecode.LightLockBytesAreAllUnderstood | esphome/components/garage_door/garage_door.cpp:149-180 | every understood status byte is one of the four bytes of a light/lock state pair |
| GarageDoorDecode.Elapsed | esphome/components/garage_door/garage_door.cpp:141 | `state.millis - input.millis` is the true difference, or the difference plus 2^32 when the clock wrapped between the two bytes |
| GarageDoorDecode.IsStale | esphome/components/garage_door/garage_door.cpp:141 | a pair is dropped exactly when the response came more than 100 ms after the request, the difference taken across a clock wrap when the response time is the smaller |
| GarageDoorDecode.LatestIsLastReading | esphome/components/garage_door/garage_door.cpp:148-222 | the reference reading of an entity is `v` exactly when some exchange reports `v` and no later exchange reports anything about that entity |
| GarageDoorDecode.LatestFromFront | esphome/components/garage_door/garage_door.cpp:148-222 | the newest reading is that of the later exchanges if they have one, otherwise the first exchange's |
| GarageDoorDecode.ApplyAllIsLatest | esphome/components/garage_door/garage_door.cpp:119-222 | accumulating the exchanges in scan order, later ones overwriting earlier ones, yields the newest reading of each entity |
| GarageDoorDecode.ApplyAllCons | esphome/components/garage_door/garage_door.cpp:125-222 | the scan applies the first accepted exchange, then the rest |
| GarageDoorDecode.DecodeIsNewestReading | esphome/components/garage_door/garage_door.cpp:119-253 | `update_state` decodes `v` for an entity exactly when the last kept exchange that says something about it says `v`; by `ExchangesInOrder` the last kept exchange is the newest in the window |
| GarageDoorDecode.ExchangesFrom | esphome/components/garage_door/garage_door.cpp:125-147 | every pair the scan keeps starts at or after the scan position, has a non-empty request slot holding a request byte, takes its response from the next slot, and the response is at most 100 ms late |
| GarageDoorDecode.ExchangesInOrder | esphome/components/garage_door/garage_door.cpp:125-147 | the kept exchanges are listed in window order, each starting at least two slots after the previous one |
| GarageDoorDecode.Apply | esphome/components/garage_door/garage_door.cpp:148-222 | the switch on the request byte changes each entity's value to what the reply says about that entity when it says something, and leaves it otherwise |
| GarageDoorDecode.Decode | esphome/components/garage_door/garage_door.cpp:119-253 | what the scan decodes for each entity is `Latest`, the newest understood reply about it among the kept pairs |
| GarageDoorDecode.ExchangesDoNotOverlap | esphome/components/garage_door/garage_door.cpp:138-140 | pairs never overlap: of two kept pairs the later request is at least two slots after the earlier, past its response (a corollary of `ExchangesInOrder`) |
| GarageDoorDecode.ResponseSlotIsConsumed | esphome/components/garage_door/garage_door.cpp:138-147 | a request's response slot is never read as a request, and the request is used exactly when its response is not stale |
| GarageDoorDecode.NoRequestDecodesNothing | esphome/components/garage_door/garage_door.cpp:127-138 | a window with no request byte in a non-empty slot decodes nothing |
| GarageDoorDecode.StaleRequestHidesFollowingRequest | esphome/components/garage_door/garage_door.cpp:138-147 | a stale request skips its response slot even when that slot holds a request, so the eye exchange after it is never read while the light/lock exchange after that is |
| GarageDoorComponent.ToggleTrafficDecodesNothing | esphome/components/garage_door/garage_door.cpp:29-38 | the toggle bytes 0x30 to 0x35 are never requests, so toggle traffic alone publishes nothing |
| GarageDoorComponent.Announced | esphome/components/garage_door/garage_door.cpp:17-27 | at most one value is published: the decoded one, exactly when it is present and differs from the current state |
| GarageDoorComponent.AnnounceIsIdempotent | esphome/components/garage_door/garage_door.cpp:17-27 | once a decoded value has been taken, the same value publishes nothing more |
| GarageDoorComponent.GarageDoorSwitch.constructor | esphome/components/garage_door/garage_door.cpp:68-72 | a switch keeps its two icons and its toggle callback (the toggle sequence) and has published nothing |
| GarageDoorComponent.GarageDoorSwitch.Icon | esphome/components/garage_door/garage_door.cpp:79-81 | the icon is one of the two, and, when they differ, the "true" icon exactly when the state is on |
| GarageDoorComponent.GarageDoorSwitch.PublishState | esphome/components/garage_door/garage_door.cpp:17-21 | publishing sets the state and records the value |
| GarageDoorComponent.BinarySensor.constructor | esphome/components/garage_door/garage_door.cpp:94 | the eye sensor starts with nothing published |
| GarageDoorComponent.BinarySensor.PublishState | esphome/components/garage_door/garage_door.cpp:23-27 | publishing sets the sensor state and records the value |
| GarageDoorComponent.UpdateSwitchIfChanged | esphome/components/garage_door/garage_door.cpp:17-21 | the switch takes the decoded value when there is one, and publishes it only when it differs from the old state |
| GarageDoorComponent.UpdateSensorIfChanged | esphome/components/garage_door/garage_door.cpp:23-27 | the same for the binary sensor |
| GarageDoorComponent.Stored | esphome/components/garage_door/garage_door.cpp:105-111 | `n` read attempts store at most `n` entries |
| GarageDoorComponent.StoredMembers | esphome/components/garage_door/garage_door.cpp:105-111 | an entry is stored exactly when some attempt read its byte, with the time taken after that read |
| GarageDoorComponent.StoredPrefix | esphome/components/garage_door/garage_door.cpp:105-111 | entries are stored in read order: those of the first `m` attempts are a prefix of those of the first `n` |
| GarageDoorComponent.StoredAllSucceed | esphome/components/garage_door/garage_door.cpp:105-111 | when every attempt reads a byte, each stores exactly one entry |
| GarageDoorComponent.BusRecentlyActive | esphome/components/garage_door/garage_door.cpp:299-301 | while neither `millis()` nor the sum has wrapped, the bus counts as active when the newest byte is under 200 ms old and as idle when it is 200 ms or older; when `millis()` has wrapped since the newest byte (`now` below its time) and the sum does not wrap, the bus counts as active however old the byte is; when `millis + 200` wraps past 2^32 the comparison uses the wrapped sum |
| GarageDoorComponent.GarageDoor.constructor | esphome/components/garage_door/garage_door.cpp:84-100 | the switches get the door, light and lock icons and toggle sequences, every buffer slot is empty (time 0, data 0) and the pointer is 0 |
| GarageDoorComponent.GarageDoor.StoreInput | esphome/components/garage_door/garage_door.cpp:106-109 | a successful read fills `NextInput()`, the oldest slot, and advances the pointer by one |
| GarageDoorComponent.GarageDoor.ReadAttempt | esphome/components/garage_door/garage_door.cpp:106-110 | a successful `read_byte` stores its byte and time in the oldest slot and advances the pointer by one; a failed one changes neither |
| GarageDoorComponent.GarageDoor.ReadAvailable | esphome/components/garage_door/garage_door.cpp:105-111 | the pointer advances once per successful read and the buffer is the old one with every read byte stored in turn |
| GarageDoorComponent.GarageDoor.Loop | esphome/components/garage_door/garage_door.cpp:102-116 | the pointer advances once per byte read, the window becomes the five newest entries, and when anything was read each entity takes what the new window decodes to, otherwise no entity changes |
| GarageDoorComponent.GarageDoor.ScanStep | esphome/components/garage_door/garage_door.cpp:125-222 | one pass of the scan loop moves two slots on when the slot is non-empty, holds a request byte and has a slot after it, and one slot otherwise; what the accumulators and the rest of the window decode to is unchanged |
| GarageDoorComponent.GarageDoor.ScanWindow | esphome/components/garage_door/garage_door.cpp:118-253 | the scan loop computes exactly `Decode` of the window from `ptr` |
| GarageDoorComponent.GarageDoor.UpdateState | esphome/components/garage_door/garage_door.cpp:118-259 | each of the four entities takes its decoded value, publishing only changes |
| GarageDoorComponent.GarageDoor.CheckToggle23 | esphome/components/garage_door/garage_door.cpp:261-294 | a toggle is found exactly when the second and third bytes are adjacent somewhere in positions 1-4, or sit at positions 1 and 4; positions 2 and 3 are not examined in that second case |
| GarageDoorComponent.GarageDoor.Toggle | esphome/components/garage_door/garage_door.cpp:296-318 | three writes, data1 to data3, are scheduled 0 ms or 100 ms after the call (100 when the bus was recently active), then 220 ms and 20 ms further apart for the built-in sequences |
| GarageDoorComponent.GarageDoor.WriteState | esphome/components/garage_door/garage_door.cpp:74-77 | writing any state to a switch schedules that switch's toggle sequence and publishes nothing |
| CoreConfig.CountChar | esphome/core/config.py:72 | the count is the number of occurrences of the character (its multiplicity in `s`), at most `|s|`, and zero exactly when it does not occur |
| CoreConfig.ReplaceChar | esphome/core/config.py:75 | replacing keeps the length and changes exactly the replaced character at each position |
| CoreConfig.ReplaceKeepsCount | esphome/core/config.py:71-77 | replacing spaces by underscores keeps the number of dots |
| CoreConfig.ValidProjectName | esphome/core/config.py:71-77 | a name is rejected exactly when it does not have one '.'; an accepted name has the same length, no spaces, and spaces replaced by underscores |
| CoreConfig.ProjectNameIsIdempotent | esphome/core/config.py:71-77 | an accepted name still has one dot and is accepted unchanged a second time |
| CoreConfig.LastIndexOf | esphome/core/config.py:64 | the index found holds the character and no later position does |
| CoreConfig.SplitExt | esphome/core/config.py:64 | the root and extension put back together give the path; the extension is empty or one '.' followed by no '.' or '/'; and an extension is split off only when the last path component has a character other than '.' before it, so a leading-dot name such as ".h" has none |
| CoreConfig.ValidInclude | esphome/core/config.py:54-68 | a directory is accepted as is, a missing path is rejected, and a file is accepted, unchanged, exactly when its extension is one of .h .hpp .tcc .ino .cpp .c |
| CoreConfig.AcceptedIncludeHasValidExtension | esphome/core/config.py:54-68 | every accepted file ends in one of the valid extensions |
| CoreConfig.ValidExtensionIsAccepted | esphome/core/config.py:54-68 | a file `<stem><ext>` with a valid extension is accepted whenever the stem's last path component has a character other than '.' (so "a..h" is accepted) |
| CoreConfig.LastIndexOfPrefix | esphome/core/config.py:64 | appending text without a character leaves its last occurrence where it was |
| CoreConfig.SplitExtAfterStem | esphome/core/config.py:64 | `splitext` cuts `<stem><ext>` right after the stem when `ext` is one extension and the stem's last path component is not made only of dots |
| CoreConfig.IndexOf | esphome/core/config.py:273 | the index found is the first occurrence of the character, where a one-split cuts |
| CoreConfig.Contains | esphome/core/config.py:275 | `"://" in lib` holds exactly when the text occurs at some position of the entry |
| CoreConfig.ClassifyLibrary | esphome/core/config.py:271-284 | a version is passed exactly when the entry has '@'; a repository exactly when it has no '@' but contains "://"; no name exactly for a URL without '='; names are cut at the first '@' or '=' |
| CoreConfig.ClassifyLibraryRoundTrip | esphome/core/config.py:271-284 | the entry can be put back together from the arguments passed to `add_library` |
| CoreConfig.AddLibraries | esphome/core/config.py:271-284 | one `add_library` call per entry, in order, each classified as above |
| CoreConfig.PresentInDependsOnKeys | esphome/core/config.py:148 | the platform blocks found depend only on which platform names are top-level keys |
| CoreConfig.OnlyPlatformFound | esphome/core/config.py:148 | with one platform block present and the other absent, exactly that platform is found |
| CoreConfig.FirstIn | esphome/core/config.py:169-175 | the old-style option reported is the first one, in the source's order, that the esphome block has; none exactly when it has none |
| CoreConfig.EsphomeBlockValid | esphome/core/config.py:119-138 | the preload schema accepts the esphome block: it is a block, has a name, and any `platform` in it names a target platform |
| CoreConfig.PresentIn | esphome/core/config.py:148 | the platforms found are exactly the target platforms that are top-level keys, and there are no more of them than target platforms |
| CoreConfig.NewStyleFoundInOrder | esphome/core/config.py:148 | the platform blocks found are listed in the order esp32, esp8266, each at most once and only when present |
| CoreConfig.WithBuildPath | esphome/core/config.py:143-144 | `build_path` defaults to the name; every other key is kept |
| CoreConfig.Framework | esphome/core/config.py:184-190 | the framework block has exactly the type, arduino, and either `version` or `source`, holding the given value |
| CoreConfig.PlatformBlock | esphome/core/config.py:177-193 | the platform block holds `restore_from_flash`, `board_flash_mode`, `framework` and `board` exactly when the old-style options are present, with the framework typed arduino and the version under `version` when it parses and under `source` otherwise |
| CoreConfig.Converted | esphome/core/config.py:177-195 | the esphome block is written back, without `platform` and the old-style options when it had `platform`; a block named by the platform is added; every other block is kept |
| CoreConfig.Preload | esphome/core/config.py:119-195 | the configuration is rejected for an invalid esphome block exactly when the preload schema fails, and `CORE.name` is the block's name |
| CoreConfig.PreloadRejects | esphome/core/config.py:156-175 | missing platform, old and new style together, several platform blocks, and an old-style option beside a platform block are each raised exactly in their own case; the preload succeeds exactly when none of them applies |
| CoreConfig.ConvertedOldStyle | esphome/core/config.py:177-195 | converting an old-style block beside no platform block leaves the new-style shape, adds the platform block, and keeps every other block |
| CoreConfig.ConvertedNewStyle | esphome/core/config.py:195 | a new-style configuration keeps every block; only the esphome block is written back |
| CoreConfig.PreloadNormalForm | esphome/core/config.py:177-195 | a preloaded configuration has one platform block, no `platform` key or old-style option in the esphome block, and a build path; other blocks are kept; an old-style input gains the platform block built from its options |
| CoreConfig.NewStylePassesUnchanged | esphome/core/config.py:136-195 | a configuration already in the new-style shape passes the preload step unchanged |
| CoreConfig.PreloadIsIdempotent | esphome/core/config.py:136-195 | preloading a preloaded configuration gives the same result |
| CoreConfig.FindLegacyOption | esphome/core/config.py:168-175 | the loop reports the first old-style option still in the esphome block, in the source's order, and nothing when there is none |
| CoreConfig.MoveOption | esphome/core/config.py:180-183 | one conditional pop: the option leaves the esphome block and, when it was there, lands in the platform block under its new name |
| CoreConfig.ArduinoFramework | esphome/core/config.py:184-190 | the framework block built in place is the one `Framework` describes |
| CoreConfig.MoveLegacyOptions | esphome/core/config.py:177-193 | popping `platform` and the old-style options leaves the block without them and builds the platform block |
| CoreConfig.PreloadCoreConfig | esphome/core/config.py:136-195 | the step-by-step procedure returns exactly what `Preload` specifies |

## Left out

- The UART, `millis()` and the scheduler are not called. A poll's read attempts (`UartRead`) and the current time are parameters. `toggle` returns the writes it would schedule instead of registering timeouts.
- `toggle` registers its writes under the fixed timeout names "garage_toggle_1" to "garage_toggle_3". A second toggle within about 240 ms therefore replaces the first toggle's pending writes. `Toggle` returns one toggle's schedule on its own, so this replacement between toggles is not modelled.
- GarageDoorComponent.GarageDoor.ReadAttempt: `loop` passes the oldest slot's `data` straight to `read_byte`. That a failed read leaves the slot unchanged is an assumption about the UART call, not something the component guarantees.
- GarageDoorComponent.GarageDoor.UpdateState: each entity keeps its own log of published values. The order of publications across entities (door, light, eye sensor, lock) is not recorded.
- `fast_looping_` (the high-frequency loop request) and all logging are not modelled. This includes `DumpInputState` and the "unexpected input" messages.
- `update_state` computes `has_toggle` and calls `CheckToggle23`, but only to log. `CheckToggle23` is modelled on its own, and `UpdateState` omits those calls.
- GarageDoorComponent.GarageDoor.Loop: `input_ptr_` is a `size_t` (garage_door.h:61), 32 bits wide on the 32-bit ESP targets, so it wraps at 2^32. The model counts with an unbounded `nat`, so it agrees with the source only while fewer than 2^32 - 4 bytes have been read. At the wrap the source's circular buffer breaks, because 2^32 mod 5 = 1: `GetInput(i + input_ptr_)` and `toggle`'s `input_ptr_ + kInputLen - 1` wrap from `input_ptr_ = 2^32 - 4` on; from `input_ptr_ = 2^32 - 1` the scan reads slots 0, 0, 1, 2, 3 (one slot twice, one not at all) where the model reads 0 to 4; and the store after the wrap lands in slot 0 again, so one buffered byte is overwritten a turn early. None of this is modelled.
- The initial `state` of the switches and the sensor is left unconstrained. `BinarySensor` filters, callbacks and the switch's restore and inversion options from the ESPHome base classes are not modelled. `publish_state` sets the state and records the value.
- The values of `TARGET_PLATFORMS` ("esp32", "esp8266") and of the `CONF_*` keys are defined in `esphome/const.py`, which is not part of this model. They are written out as constants.
- CoreConfig.EsphomeBlockValid, CoreConfig.Preload: the preload schema's value checks are not modelled: `cv.valid_name` on the name, `cv.string` on `build_path` and `cv.string_strict` on `board`. The model checks only that the name is present and that `platform` names a target platform. The schema lower-cases `platform` (`cv.one_of(..., lower=True)`), but the model compares it as written. So an upper-case platform such as "ESP32" is accepted by the source and rejected by the model as `EsphomeBlockInvalid`. Every schema failure is the single error `EsphomeBlockInvalid`.
- `cv.Version.parse` is a parameter (`isVersion`). A non-string `arduino_version` that would raise a type error is not modelled.
- CoreConfig.SplitExt: models `os.path.splitext` with POSIX separators only. On Windows `os.path` also splits the last path component at a backslash, which the model does not.
- CoreConfig.ValidInclude: the filesystem checks `cv.directory` and `cv.file_` are a `PathKind` parameter. Path resolution against the configuration directory is not modelled.
- `include_file`, `add_includes`, `CORE` globals, code generation, automations and the rest of `to_code` (build flags, platformio options, the MAC-suffix define) are not modelled. Only the library classification loop is.
