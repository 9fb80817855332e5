# car-thing-tools: a Dafny model of its core

This project models three small pieces of the car-thing-tools repository and
proves properties of them.

- **tix** is the package-build engine. Its `package` host operation takes a
  script table with `name`, `src` and `build`. It resolves the listed
  sources and decodes their optional BLAKE3 hashes from hex. It hands a fresh
  `ArchiveWriter` to the script's `build` function, and registers the package
  in the name-keyed `PackageStore` once `build` returns. The writer buffers
  text files with fixed ownership and mode. Its `finish` writes the buffered
  entries, in order, to `/tix/store/<name>`.
- **car-thing-lib** classifies a USB device as a Car Thing by its vendor and
  product ids (`CarThing::mode`). It also provides the `CarThings` iterator,
  which skips non-Car-Thing devices and stops at the first failed descriptor
  read. The `find-device` loop of car-thing-bin is modelled as the iterator's
  client.
- **The Amlogic updater** (`update.cpp`) has `write_large_memory`, which
  sends an input stream to device memory in 64-byte USB control transfers.
  Each transfer's 32-bit target address is split into the 16-bit `value` and
  `index` setup fields. `main` picks the device to open with a `find_if`
  predicate.

Files:

- `wrappers.dfy`: the `Option` and `Result` types.
- `utf8.dfy`: UTF-8 encoding (RFC 3629) of Rust strings, and a validating
  decoder.
- `blake3_hex.dfy`: `blake3::Hash::from_hex`, as a partial decode of 64 hex
  digits into a 32-byte digest.
- `lua_values.dfy`: script values and the mlua conversions `package` uses
  (`String`, `Option<String>`, `LuaTable`, `LuaFunction`).
- `archive.dfy`: the `ArchiveWriter` and `FileStore` classes, and the builder
  calls as a pure state machine (`Step`, `Play`).
- `tix.dfy`: source resolution, the `PackageStore` class, the `package`
  closure as a method (`DeclarePackage`) proved against the function
  `DeclareSpec`, and lemmas about `DeclareSpec`.
- `car_thing.dfy`: `Mode`, `DeviceMode`, the `CarThings` class with its
  `Next` method, and `FindDevices`.
- `aml_update.dfy`: the chunk loop of `write_large_memory` and the device
  selection of `main`.

Inputs from outside the model:

- The Lua interpreter is not modelled. A script table is a `Value`. What the
  `build` function does is a parameter, `BuildRun`: the builder calls it
  makes, in order, and whether it then raises.
- The Lua `pairs` order of the `src` table is the order of the given entry
  sequence.
- The attached USB devices are a given sequence.
- A device's descriptor read gives the same result every time it is read.
- The input stream of `write_large_memory` is a byte sequence.

### How the model reads the code

- A malformed `hash` makes `from_hex(..).unwrap()` panic
  (crates/tix/src/main.rs:37-39). The model keeps this as its own failure,
  `HashPanic`. Like every failure of the field extraction and of source
  parsing, it happens before the writer is created. Only `BuildFailed`, an
  error raised by `build`, comes after the writer exists, and after any
  `finish` the script made has written.
- The order of the `src` sources is the order of `src.pairs()`, taken as
  given.
- Insertion into the registry is a sequential step right after `build`
  returns.

## Model

| member | source | states |
|---|---|---|
| Utf8.EncodeChar | crates/tix/src/main.rs:121 | a char takes 1 to 4 bytes; exactly the chars below 0x80 take one byte, equal to the char's code; every byte of a multi-byte form is at least 0x80 |
| Utf8.Encode | crates/tix/src/main.rs:121 | `content.as_bytes()`; specified by `EncodeChar`, `DecodeEncode`, `EncodeAppend` and `EncodeAscii` |
| Utf8.EncodeCharRoundTrip | crates/tix/src/main.rs:121 | decoding the encoding of one char, whatever follows it, gives the char back and consumes exactly its bytes |
| Utf8.DecodeEncode | crates/tix/src/main.rs:121 | the bytes `content.as_bytes()` stores decode back to the original text |
| Utf8.EncodeAppend | crates/tix/src/main.rs:121 | the encoding of a concatenation is the concatenation of the encodings |
| Utf8.EncodeAscii | crates/tix/src/main.rs:39 | an ASCII string encodes to one byte per char, each equal to the char's code |
| Utf8.NonAsciiLeavesHighByte | crates/tix/src/main.rs:39 | a string with a non-ASCII char has a byte of at least 0x80 in its encoding |
| Blake3Hex.HexVal | crates/tix/src/main.rs:39 | exactly `0`-`9`, `a`-`f` and `A`-`F` are hex digits, worth 0-9, 10-15 and 10-15 |
| Blake3Hex.FirstBadByte | crates/tix/src/main.rs:39 | returns the first position whose byte is not a hex digit, or None when every byte is one |
| Blake3Hex.FromHex | crates/tix/src/main.rs:37-39 | `from_hex` succeeds exactly on 64 hex digits; byte i of the digest is 16 times digit 2i plus digit 2i+1 |
| Blake3Hex.FromHexToHex | crates/tix/src/main.rs:37-39 | decoding the hex form of any 32-byte digest gives the digest back |
| Blake3Hex.FromHexOfString | crates/tix/src/main.rs:37-39 | a hash string decodes exactly when it has 64 chars, each an ASCII hex digit |
| Blake3Hex.ZzIsRejected | crates/tix/src/main.rs:37-39 | the hash string "zz" does not decode |
| LuaValues.Get | crates/tix/src/main.rs:29-31 | a field lookup gives the value of the first entry with the key, and nil when the key is absent |
| LuaValues.NatToDecimal | crates/tix/src/main.rs:29 | the decimal text of a number: at least one digit, all digits, no leading zero |
| LuaValues.NatToDecimalValue | crates/tix/src/main.rs:29 | the decimal text of n denotes n |
| LuaValues.NonNegativeText | crates/tix/src/main.rs:29 | a non-negative integer becomes decimal digits, with no minus sign, that denote it |
| LuaValues.NegativeText | crates/tix/src/main.rs:29 | a negative integer becomes a minus sign followed by decimal digits that denote its magnitude |
| LuaValues.ToString | crates/tix/src/main.rs:29-36 | the conversion to `String` accepts exactly strings and integers; a string is left unchanged and an integer becomes its decimal text |
| LuaValues.ToOptString | crates/tix/src/main.rs:38 | nil becomes None; any other value converts exactly when the `String` conversion accepts it, and gives Some of that string |
| LuaValues.ToTable | crates/tix/src/main.rs:30 | the conversion to `LuaTable` accepts exactly tables, with their entries |
| LuaValues.ToFunction | crates/tix/src/main.rs:31 | the conversion to `LuaFunction` accepts exactly functions |
| Archive.TextEntry | crates/tix/src/main.rs:120-121 | the buffered entry has the given path, uid 1000, gid 1000, mode 0o100644, and content that decodes to the given text |
| Archive.StorePathInjective | crates/tix/src/main.rs:128 | two package names share a store path string exactly when they are equal |
| Archive.ArchiveWriter.constructor | crates/tix/src/main.rs:43-46 | a fresh writer has the package's name and an empty buffer |
| Archive.ArchiveWriter.AddTextFile | crates/tix/src/main.rs:117-125 | appends exactly one entry, the text entry for the call, at the end of the buffer; nothing is written to the store |
| Archive.ArchiveWriter.Finish | crates/tix/src/main.rs:127-136 | the store path `/tix/store/<name>` holds the buffer's entries in buffer order; every other path and the buffer are unchanged |
| Archive.Step | crates/tix/src/main.rs:117-136 | one builder call; specified by `ArchiveWriter.AddTextFile` and `ArchiveWriter.Finish`, whose effect it is (`RunBuild`) |
| Archive.Play | crates/tix/src/main.rs:117-136 | the builder calls made in order; specified by `PlayFiles`, `NoFinishNoWrite`, `OtherPathsUntouched`, `LastFinishWins` and `FinishTwice` |
| Archive.PlayFiles | crates/tix/src/main.rs:121 | the buffer after a sequence of builder calls is the old buffer followed by one entry per `add_text_file`, in call order |
| Archive.FreshWriterAfterAdds | crates/tix/src/main.rs:43-46 | after N `add_text_file` calls on a fresh writer, its buffer has N entries, the k-th being the k-th call's file with the fixed metadata |
| Archive.AddsOnly | crates/tix/src/main.rs:121 | calls that are all `add_text_file` buffer one text entry each, in call order |
| Archive.NoFinishNoWrite | crates/tix/src/main.rs:117-125 | calls that never `finish` leave the store unchanged |
| Archive.OtherPathsUntouched | crates/tix/src/main.rs:128 | a writer's calls never create, remove or change the content at any store path but its own |
| Archive.LastFinishWins | crates/tix/src/main.rs:128-133 | the store file holds the buffer as it was at the last `finish`, whatever is added after it |
| Archive.FinishTwice | crates/tix/src/main.rs:131 | a second `finish` right after the first changes nothing, because `finish` copies the buffer |
| Tix.ParseDeclaration | crates/tix/src/main.rs:29-31 | the field extraction succeeds exactly for a table with a string (or integer) `name`, a table `src` and a function `build`, and then gives those three fields, `name` converted to a string |
| Tix.ParseSource | crates/tix/src/main.rs:35-40 | one `src` entry; specified by `SourceParsesIff`, `SourceFromEntry`, `MalformedHashPanics` and `SourceFailureKinds` |
| Tix.SourceParsesIff | crates/tix/src/main.rs:35-40 | an entry parses exactly when it is a table with a string `uri` and a `hash` that is nil or a string decoding as a digest |
| Tix.ParseSources | crates/tix/src/main.rs:33-41 | all `src` entries; specified by `OneSourcePerEntry`, `SourcesOkIff`, `FirstFailingEntryWins` and `ResolveSources` |
| Tix.DeclareSpec | crates/tix/src/main.rs:28-63 | one `package` call; specified by `DeclarePackage`, `FieldsReadInOrder`, `SourceFailureFailsCall`, `FailureBeforeSideEffects` and `RegisteredAfterBuild` |
| Tix.ResolveSources | crates/tix/src/main.rs:33-41 | the `src.pairs()` loop computes the source list that `ParseSources` defines, stopping at the first entry that fails |
| Tix.PrefixFailureIsFinal | crates/tix/src/main.rs:35-40 | a failure among the first k entries is the failure of the whole `src` parse |
| Tix.RunBuild | crates/tix/src/main.rs:48 | the builder calls of `build`, made on the writer, leave the buffer and store that `Play` gives |
| Tix.PackageStore.constructor | crates/tix/src/main.rs:112 | a new registry is empty |
| Tix.PackageStore.Insert | crates/tix/src/main.rs:57-60 | the registry maps the name to the new package, replacing any earlier one; no other key changes |
| Tix.DeclarePackage | crates/tix/src/main.rs:28-63 | the `package` closure returns the result, and leaves the registry and store, that `DeclareSpec` gives for the state before the call |
| Tix.FieldsReadInOrder | crates/tix/src/main.rs:29-31 | each of `name`, `src` and `build` is reported as the failing field exactly when every field before it is well-typed and it is not |
| Tix.SourceFailureKinds | crates/tix/src/main.rs:33-41 | every failure of the `src` parse is a source-table, `uri`, `hash` or hash-decode failure |
| Tix.FailureBeforeSideEffects | crates/tix/src/main.rs:29-48 | a failing call never changes the registry; a failure other than `build` raising also leaves the store unchanged; `build` failing is reported exactly when the fields and sources were fine and it raised |
| Tix.OneSourcePerEntry | crates/tix/src/main.rs:33-41 | a successful parse yields exactly one source per `src` entry, the k-th source being the k-th entry's parse |
| Tix.AllEntriesParse | crates/tix/src/main.rs:33-41 | when every entry parses on its own, the whole `src` table parses |
| Tix.SourcesOkIff | crates/tix/src/main.rs:33-41 | the `src` parse succeeds exactly when every entry parses |
| Tix.FirstFailingEntryWins | crates/tix/src/main.rs:33-41 | the call fails with the error of the first failing entry, in iteration order |
| Tix.SourceFromEntry | crates/tix/src/main.rs:36-40 | a resolved source has the entry's `uri`, no hash exactly when `hash` is nil, and otherwise the decoded hash string |
| Tix.MalformedHashPanics | crates/tix/src/main.rs:37-39 | a hash string that is not 64 ASCII hex digits makes `unwrap` panic while the entry is parsed |
| Tix.SourceFailureFailsCall | crates/tix/src/main.rs:33-48 | with well-typed fields, a failing `src` entry fails the call with the parse's error and leaves the registry and the store unchanged |
| Tix.RegisteredAfterBuild | crates/tix/src/main.rs:48-60 | the store holds what the builder calls wrote; if `build` raises, nothing is registered; otherwise the package is registered under its name with its sources, and every other name keeps its package |
| Tix.ExampleDeclaration | crates/tix/src/main.rs:143-163 | the example declaration, with any text for `bin/hello`, succeeds; its store file holds exactly that one entry with the fixed metadata; `hello` is registered with no sources |
| Tix.ExampleParses | crates/tix/src/main.rs:145-149 | the example table reads as package `hello` with no sources |
| Tix.ExampleBuild | crates/tix/src/main.rs:149-159 | the example's `build` leaves exactly one entry, `bin/hello` with the text, at `/tix/store/hello`, and every other path as it was |
| Tix.ExampleScript | crates/tix/src/main.rs:111-163 | the example script, run from the empty registry and store, leaves exactly one store file and one package |
| Tix.ZzHashFailsBeforeArchive | crates/tix/src/main.rs:37-48 | a source with hash "zz" makes the declaration panic at position 0 before any store file is written or any package registered |
| Tix.SameNameReplacesEarlier | crates/tix/src/main.rs:57-60 | a second declaration of the same name replaces the first one's package, and its last `finish` decides the shared store file |
| CarThingLib.DeviceMode | crates/car-thing-lib/src/lib.rs:18-32 | `CarThing::mode`; specified by `DevelopmentIff`, `NormalIff` and `ModeErrors` |
| CarThingLib.DevelopmentIff | crates/car-thing-lib/src/lib.rs:18-24 | `mode` is Development exactly when the descriptor reads as vendor 0x1B8E, product 0xC003 |
| CarThingLib.NormalIff | crates/car-thing-lib/src/lib.rs:18-28 | `mode` is Normal exactly when the descriptor reads as vendor 0x18D1, product 0x4E40 |
| CarThingLib.ModeErrors | crates/car-thing-lib/src/lib.rs:18-32 | a failed descriptor read is passed on unchanged; any other id pair is NotSupported; `mode` succeeds exactly on the two Car Thing id pairs |
| CarThingLib.Scan | crates/car-thing-lib/src/lib.rs:41-61 | the search stops at the first Car Thing or the first failing read from the start position, every device before that stop being skipped, or at the end when all are skipped |
| CarThingLib.CarThings.constructor | crates/car-thing-lib/src/lib.rs:35 | the iterator starts before the first device |
| CarThingLib.CarThings.Next | crates/car-thing-lib/src/lib.rs:40-62 | `next` yields the first Car Thing from the cursor, or None at the end or at a failing read; the cursor moves just past the device it yielded or failed on |
| CarThingLib.YieldedAreCarThingsInOrder | crates/car-thing-lib/src/lib.rs:40-62 | iterating to the end yields, in input order and each once, exactly the Car Things before the first failing read |
| CarThingLib.YieldedHaveMode | crates/car-thing-lib/src/lib.rs:45-50 | every device the iterator yields has a mode |
| CarThingLib.ScanStopsAtFirst | crates/car-thing-lib/src/lib.rs:41-59 | from any position, the search stops at the first device that is a Car Thing or fails to read |
| CarThingLib.ResumesAfterReadFailure | crates/car-thing-lib/src/lib.rs:55-57 | for any device list, after `next` ends on a failing read at `at`, the next call scans on from `at + 1` and stops at the first device after `at` that is a Car Thing or fails to read |
| CarThingLib.FindDevices | crates/car-thing-bin/src/main.rs:24-29 | the `find-device` loop reports, in order, each Car Thing before the first failing read, with its mode |
| AmlUpdate.NextOffset | update.cpp:46 | `i += 64` on a `size_t`; specified by `OffsetBeforeIs` |
| AmlUpdate.Address | update.cpp:38 | `base_address + i` narrowed to `uint32_t` is `(base + i) mod 2^32`, whatever the `size_t` wrap |
| AmlUpdate.High16 | update.cpp:40 | `(address >> 16) & 0xFFFF` is the address divided by 65536: the mask removes nothing |
| AmlUpdate.Low16 | update.cpp:41 | `address & 0xFFFF`; specified with `High16` by `SplitRecombines` |
| AmlUpdate.SplitRecombines | update.cpp:38-41 | `value * 65536 + index` is the 32-bit address |
| AmlUpdate.OffsetBeforeIs | update.cpp:30-46 | before chunk k, the `size_t` counter `i` is 64k modulo 2^64 |
| AmlUpdate.ChunkAddress | update.cpp:38 | chunk k goes to `base_address + 64k` modulo 2^32, the `size_t` wrap of `i` included |
| AmlUpdate.ChunkTransfer | update.cpp:38-44 | chunk k is a control transfer with request type 0x40, request 1 and timeout 1000 ms; its data is input bytes 64k to 64k+63; `value * 65536 + index` is `(base + 64k) mod 2^32` |
| AmlUpdate.WriteLargeMemory | update.cpp:26-47 | an input of length L gives exactly L / 64 transfers, the k-th being chunk k's transfer |
| AmlUpdate.PayloadIsWholeChunks | update.cpp:35-43 | the transfers carry the input's leading bytes, chunk after chunk, in stream order |
| AmlUpdate.SentIsInputWithoutTail | update.cpp:32-47 | what is sent is the input without its last L mod 64 bytes |
| AmlUpdate.WrapExample | update.cpp:38-41 | with base 0xFFFFFFC0, the second chunk goes to address 0 |
| AmlUpdate.StoredVendor | update.cpp:71-72 | the value the assignment stores in `idVendor` is 1 exactly when the product id is 0xC003, and 0 otherwise |
| AmlUpdate.AsWrittenPredicate | update.cpp:67-73 | the lambda as written accepts a device exactly when its product id is 0xC003 |
| AmlUpdate.IntendedPredicate | update.cpp:4-5 | the intended predicate accepts exactly vendor 0x1B8E with product 0xC003 |
| AmlUpdate.AsWrittenIgnoresVendor | update.cpp:71-72 | a device with vendor 0x18D1 and product 0xC003 is accepted as written and rejected as intended |
| AmlUpdate.FindIf | update.cpp:67-68 | `find_if` returns the first position that satisfies the predicate, or None when none does |
| AmlUpdate.SelectDevice | update.cpp:67-85 | `main` returns 1 and opens nothing exactly when no device has product id 0xC003; otherwise it opens the first such device and returns 0 |
| AmlUpdate.SelectIntended | update.cpp:67-85 | the corrected selection returns 1 exactly when no device has both Amlogic ids, and otherwise opens the first device that does |
| AmlUpdate.AgreeWithoutForeignProduct | update.cpp:71-72 | when every device with product 0xC003 has vendor 0x1B8E, the two predicates agree on every device |

## Left out

- `clone_repo` (crates/tix/src/main.rs:66-103) is not modelled. It is git network and filesystem I/O through gix, plus a process-wide interrupt handler.
- The cpio "newc" byte layout and the level-22 zstd stream (crates/tix/src/main.rs:129-133) come from foreign crates. An archive is modelled as its destination path and ordered entry list.
- Failures of `File::create`, of writing, and of the zstd encoder in `finish` are not modelled; they are file I/O. `finish` always succeeds in the model.
- The `tokio::spawn` task and the async `Mutex` around the registry are concurrency. Insertion is a sequential step right after `build` returns.
- The mlua runtime is not modelled: interpreting scripts, userdata registration, metatables, and errors from converting `add_text_file`'s arguments. A script's `build` is given as its builder calls and whether it raises.
- Lua floats, non-UTF-8 Lua strings, and table keys other than strings and integers are not part of the value model. The mlua coercion of floats to strings is therefore left out too.
- The builder handle is not modelled once `build` has returned, so a script that keeps the handle and uses it later is outside the model.
- Path resolution is not modelled. A store path is the string `/tix/store/` followed by the package name, so names such as `a` and `./a`, which name one file, are two paths in the model, and a name containing `..` is not kept inside the store.
- Lua integers are 64-bit; `Integer` in the value model is unbounded.
- A table in the value model is any list of entries, so it may repeat a key or hold a `Nil` value, which no Lua table does. Such tables over-approximate what a script can pass: a `(key, Nil)` entry in `src` is reported as a `BadSourceTable`, where `pairs` would never yield it.
- A `build` function that calls the global `package` again (crates/tix/src/main.rs:140) is outside the model, because `BuildRun` holds only calls on the function's own builder. Such a nested call registers and writes another package, even if the outer `build` then raises.
- Tix.FailureBeforeSideEffects: "a failing call never changes the registry" holds only for a `build` that does not call `package` again.
- Tix.RegisteredAfterBuild: "every other name keeps its package" holds only for a `build` that does not call `package` again.
- `bulkcmd` and the "success" polling loops of `update.cpp` (lines 7-24 and 49-59) are USB bulk transfers and `sleep_for`, with no logic of their own.
- Errors of the USB calls in `update.cpp` are not modelled. These are the exceptions a control transfer, `get_device_descriptor` or `open` may throw, and enumeration. Every transfer is taken to succeed.
- The ifstream of `main` and the `write_large_memory`/`go` calls after it are not modelled. They are file I/O, and the calls are commented out in the code.
- `usb.cxx` is not part of this model; it wraps libusb calls.
- The command-line parsing and printing of `crates/car-thing/src/main.rs` and `crates/car-thing-bin/src/main.rs` are not modelled. Only the `find-device` loop is modelled, as `FindDevices`.
- `rusb::devices()` failing, before the iteration starts, is not modelled.
- CarThingLib.FindDevices: a failing second descriptor read in `car_thing.mode()?` is not modelled, because a device's descriptor reads the same every time in the model.

## Findings

| source | as written | input that shows it | evidently intended | confidence | as-written member | corrected member |
|---|---|---|---|---|---|---|
| update.cpp:71-72 | `descriptor.idVendor = AML_ID_VENDOR && descriptor.idProduct == AML_ID_PRODUCT` assigns the `&&` to `idVendor`, so only the product id is tested | a device with vendor 0x18D1 and product 0xC003 is selected | `idVendor == AML_ID_VENDOR && idProduct == AML_ID_PRODUCT`, so that only Amlogic devices are selected | high, not executed | AmlUpdate.AsWrittenIgnoresVendor | AmlUpdate.SelectIntended |
