# A verified model of the PureDarwin XPC core

This project models, in Dafny, the sequential core of PureDarwin's XPC library and the libnv code beneath it:

- **nvlist container and codec** (`NvList`, `NvCodec`, `NvUnpack`).
  - An nvlist is an ordered list of pairs with unique names, optionally compared without case, and a sticky error.
  - Lists are created, searched, added to, moved into, taken from, freed from and cloned.
  - The container is a class (`NvList.NvList`). Its pairs are a sequence, and a nested list is held as a value.
  - `nvlist_size`, `nvlist_xpack`, `nvlist_check_header`, `nvlist_unpack_header` and `nvlist_xunpack` walk nested lists without recursion. The model keeps their walk: the parent links become an explicit stack of levels.
  - The walk is proved to produce the packed form of the list, in exactly the number of bytes `nvlist_size` computes.
  - Unpacking that packed form gives the list back.
- **XPC value model** (`XpcType`).
  - Objects are a class with a type tag, a size, flags, a refcount and a payload. The static true, false and null instances are singletons.
  - Constructors, accessors and setters are covered, with their aborts on NULL and on type mismatch.
  - Also covered: `xpc_data_get_bytes`, `xpc_equal`, djb2 data hashing, and the XOR-combining `xpc_hash`. The hash is proved not to depend on order.
- **Dictionaries and the XPC⇄nvlist translation** (`XpcDictionary`, `XpcNv`).
  - Insertion with and without the reserved-key check, lookup, count, typed getters and setters, and `apply` with early stop.
  - `xpc_dictionary_create` and `xpc_dictionary_create_reply`.
  - `xpc2nv` and `nv2xpc`, with a round-trip theorem for the values that survive the wire.
- **Connection correlation** (`XpcConnection`).
  - The sequence counter, the pending-call list matched by ID, the listener's peer list keyed by remote port, credentials and the event handler.
  - All of it is a sequential state machine.
- **Transport bookkeeping** (`XpcMisc`).
  - `xpc_strerror`.
  - The port table of `xpc_pipe_send`/`xpc_pipe_routine_reply`, and the receive-side port index check.
  - Tagging of received dictionaries, the reply path, and container destruction.
- **launchd framing** (`LibLaunch`).
  - Byte-order conversion, descriptor choice, the launch type mapping and `launch_data_array_pop_first`.
  - `launch_data_pack`, the message header and the partial-send compaction of `launchd_msg_send`.
  - The receive-buffer loop of `launchd_msg_recv`.
- **Static connection errors** (`XpcError`): the three magic IDs and `xpc_hydrate_static_error`.
- **Growable byte buffer** (`Sbuf`): `sbuf_new_auto`, `clear`, `bcat`, `bcpy`, `cat`, `cpy`, `putc`, `data` and `len`, on a class with the buffer, length and capacity.

Where the C aborts, through an assertion, `xpc_api_misuse` or a write past an allocation, the model returns `Abort` (module `Common`). Operations the caller may call in any state therefore have no precondition for those cases.

Several defects of the source show up as contracts that do not hold. Each is kept twice:

- a member that follows the code as written, with a lemma or method showing the input that goes wrong;
- a corrected member, which carries the intended property and is the one the rest of the model uses.

Members ending in `AsWritten`, or starting with `AsWritten`, are the first kind. The table under "## Findings" pairs them up.

Two places where the code differs from a natural reading of the library's design:

- `launch_data_unpack` is handed the whole receive buffer, launch header included, and reports no consumed bytes. `nvlist_unpack` then reads that header as an nvlist header and aborts, so as written no message is ever delivered (`LibLaunch.AsWrittenFrameAborts`). The corrected receive path hands it the payload and removes the whole frame (`LibLaunch.FrameDrained`).
- The magic IDs of the static errors are stored into a 16-bit field. They become 1, 2 and 3, which remain distinct (`XpcError.MagicIdsDistinct`).

Where the code and its documentation disagree, the model follows the code. For example, nested nvlists are limited to a depth of 3 by the assertion in `nvlist_xndescriptors`.

## Model

| member | source | states |
|---|---|---|
| Sbuf.GrowOnceAsWrittenOverflows | src/libnv/libsbuf.c:38-55 | the single doubling of `bcat`/`bcpy` leaves a capacity below the bytes needed exactly when they exceed twice the old capacity |
| Sbuf.GrowOnceAsWritten | src/libnv/libsbuf.c:38-55 | the capacity after the single doubling of `bcat`/`bcpy`; `GrowOnceAsWrittenOverflows` states when it is too small |
| Sbuf.GrowOnceAsWrittenCounterexample | src/libnv/libsbuf.c:38-48 | appending 3000 bytes to a new 1024-byte buffer outgrows the doubled allocation |
| Sbuf.Grown | src/libnv/libsbuf.c:38-55 | the corrected capacity holds the bytes needed, never shrinks, is unchanged when they already fit, and equals the source's single doubling whenever that suffices |
| Sbuf.Buffer.NewAuto | src/libnv/libsbuf.c:15-22 | a new buffer has capacity 1024 and no contents |
| Sbuf.Buffer.Clear | src/libnv/libsbuf.c:24-30 | clearing restores exactly the state of a new buffer: capacity 1024, no contents |
| Sbuf.Buffer.Reserve | src/libnv/libsbuf.c:40-43 | growth keeps the length and the bytes held and reaches the corrected capacity |
| Sbuf.Buffer.Bcat | src/libnv/libsbuf.c:38-48 | the new contents are the old contents followed by the appended bytes, and the result is the new length |
| Sbuf.Buffer.Bcpy | src/libnv/libsbuf.c:50-60 | the contents become exactly the given bytes from offset 0, and the result is their count |
| Sbuf.Buffer.Cat | src/libnv/libsbuf.c:62-65 | appends the bytes before the first NUL, with no terminator |
| Sbuf.Buffer.Cpy | src/libnv/libsbuf.c:67-70 | the contents become the bytes before the first NUL, with no terminator |
| Sbuf.Buffer.Putc | src/libnv/libsbuf.c:89-92 | appends all four bytes of the `int`, so the length grows by four, not one |
| Sbuf.Buffer.Data | src/libnv/libsbuf.c:111-115 | the returned buffer is the contents followed by zeros up to the capacity, and the contents are unchanged |
| Sbuf.Buffer.Len | src/libnv/libsbuf.c:117-120 | the length is the number of bytes held |
| XpcError.Truncate16 | src/libxpc/xpc_error.c:23-25 | the store into the 16-bit flags field keeps values below 2^16 and lands in range otherwise |
| XpcError.MagicIdsDistinct | src/libxpc/xpc_error.c:23-38 | after truncation to 16 bits the three magic IDs are 1, 2 and 3, pairwise distinct |
| XpcError.Description | src/libxpc/xpc_error.c:46-66 | the three magic IDs give their three descriptions, and every other ID aborts |
| XpcError.DescriptionsDistinct | src/libxpc/xpc_error.c:46-63 | different magic IDs hydrate to different descriptions |
| XpcError.Hydrate | src/libxpc/xpc_error.c:40-67 | NULL, a non-static-error object or an unknown ID aborts; otherwise the result is a fresh valid dictionary with refcount 1 holding exactly one entry, the description string under the description key |
| XpcType.KeyIndex | src/libxpc/xpc_dictionary.c:386-404 | the search position is within the pairs, and a position before the end carries the key |
| XpcType.KeyIndexFirst | src/libxpc/xpc_dictionary.c:386-404 | no pair before the found position carries the key, so the first equal key is found |
| XpcType.LookupFinds | src/libxpc/xpc_dictionary.c:386-404 | with unique keys, looking up the key of any pair finds that pair and its value |
| XpcType.LookupMissing | src/libxpc/xpc_dictionary.c:386-404 | a lookup yields NULL exactly when no pair carries the key |
| XpcType.Object.PrimCreateFlags | src/libxpc/xpc_type.c:145-166 | a new object has refcount 1, no audit token, the given type, size and flags, and an empty pair or element list for a dictionary or array |
| XpcType.Singletons.constructor | src/libxpc/xpc_type.c:65-91 | the static true, false and null instances carry the static flag, refcount 1 and their values |
| XpcType.BoolCreate | src/libxpc/xpc_type.c:175-178 | the result is one of the two static singletons, carrying the requested value |
| XpcType.NullCreate | src/libxpc/xpc_type.c:169-172 | the result is the static null instance |
| XpcType.BoolCreateDistinct | src/libxpc/xpc_type.c:181-186 | a fresh, non-static boolean of size 1 with refcount 1 |
| XpcType.Int64Create | src/libxpc/xpc_type.c:211-217 | a fresh int64 object of size 1 holding the value |
| XpcType.UInt64Create | src/libxpc/xpc_type.c:241-247 | a fresh uint64 object of size 1 holding the value |
| XpcType.DateCreate | src/libxpc/xpc_type.c:292-298 | a fresh date object of size 1 holding the interval |
| XpcType.UuidCreate | src/libxpc/xpc_type.c:469-475 | a fresh UUID object of size 1 holding the 16 bytes |
| XpcType.DataCreate | src/libxpc/xpc_type.c:318-325 | a fresh data object holding exactly the first `length` bytes, with `length` recorded as the size |
| XpcType.StringCreate | src/libxpc/xpc_type.c:406-412 | a fresh string object holding a copy of the string, with its `strlen` recorded as the size |
| XpcType.BoolGetValue | src/libxpc/xpc_type.c:189-197 | aborts exactly on NULL or a non-boolean, and otherwise returns the stored value |
| XpcType.Int64GetValue | src/libxpc/xpc_type.c:220-228 | aborts exactly on NULL or a non-int64, and otherwise returns the stored value |
| XpcType.UInt64GetValue | src/libxpc/xpc_type.c:250-258 | aborts exactly on NULL or a non-uint64, and otherwise returns the stored value |
| XpcType.DateGetValue | src/libxpc/xpc_type.c:307-315 | aborts exactly on NULL or a non-date, and otherwise returns the stored interval |
| XpcType.DataGetLength | src/libxpc/xpc_type.c:334-342 | aborts exactly on NULL or a non-data object, and otherwise returns the recorded size, which is the byte count |
| XpcType.DataGetBytesPtr | src/libxpc/xpc_type.c:345-353 | aborts exactly on NULL or a non-data object, and otherwise returns the stored bytes |
| XpcType.StringGetLength | src/libxpc/xpc_type.c:436-444 | aborts exactly on NULL or a non-string, and otherwise returns the recorded size, which is the string's length |
| XpcType.StringGetStringPtr | src/libxpc/xpc_type.c:447-455 | aborts exactly on NULL or a non-string, and otherwise returns the stored string |
| XpcType.UuidGetBytes | src/libxpc/xpc_type.c:478-486 | aborts exactly on NULL or a non-UUID, and otherwise returns its 16 bytes |
| XpcType.ObjectGetMachport | src/libxpc/xpc_type.c:604-612 | aborts exactly on NULL or a non-connection, and otherwise returns its port |
| XpcType.DataGetBytes | src/libxpc/xpc_type.c:356-371 | aborts exactly on NULL or a non-data object; otherwise it copies min(requested, stored size) bytes to the offset, returns that count and leaves the rest of the buffer unchanged |
| XpcType.BoolSetValue | src/libxpc/xpc_type.c:200-208 | aborts on NULL, a non-boolean or a static singleton; otherwise it changes only the stored value |
| XpcType.Int64SetValue | src/libxpc/xpc_type.c:231-238 | aborts on NULL or a non-int64; otherwise it changes only the stored value |
| XpcType.DataSetBytesAsWritten | src/libxpc/xpc_type.c:374-384 | the bytes are replaced but the recorded size stays as it was |
| XpcType.DataSetBytesAsWrittenCounterexample | src/libxpc/xpc_type.c:374-384 | shrinking an 8-byte data object to 2 bytes leaves size 8 recorded, so the object no longer describes its bytes |
| XpcType.DataSetBytes | src/libxpc/xpc_type.c:374-384 | corrected: the bytes are replaced, the recorded size is the new length and the object stays valid |
| XpcType.StringSetValueAsWritten | src/libxpc/xpc_type.c:458-466 | the string is replaced but the recorded length stays as it was |
| XpcType.StringSetValue | src/libxpc/xpc_type.c:458-466 | corrected: the string is replaced, the recorded length is its new length and the object stays valid |
| XpcType.EqualAsWrittenAllStringsEqual | src/libxpc/xpc_type.c:518-519 | as written any two strings compare equal; the corrected comparison is equal exactly when the strings are |
| XpcType.EqualAsWrittenCounterexample | src/libxpc/xpc_type.c:518-519 | "a" and "b" compare equal as written and unequal when corrected |
| XpcType.EqualDifferentKinds | src/libxpc/xpc_type.c:508 | objects of different types are unequal, both as written and corrected |
| XpcType.EqualBy | src/libxpc/xpc_type.c:498-556 | `xpc_equal` with the string branch as a parameter: a true answer means equal types, and for dictionaries equal counts with every key of the second present in the first, for arrays equal lengths |
| XpcType.EqualAsWritten | src/libxpc/xpc_type.c:498-556 | as written: different types are unequal and any two strings are equal |
| XpcType.Equal | src/libxpc/xpc_type.c:498-556 | corrected: different types are unequal and two strings are equal exactly when they are the same string |
| XpcType.EqualUnhandledAborts | src/libxpc/xpc_type.c:553-555 | two objects of a type the comparison does not handle abort |
| XpcType.EqualReflexive | src/libxpc/xpc_type.c:498-556 | the corrected comparison finds every comparable value equal to itself, through nested dictionaries and arrays |
| XpcType.PairsMatchSelf | src/libxpc/xpc_type.c:535-541 | the first dictionary loop succeeds against any dictionary holding the same pairs in another order |
| XpcType.ItemsMatchSelf | src/libxpc/xpc_type.c:547-552 | the pointwise array loop succeeds on an array compared with itself |
| XpcType.EqualIgnoresOrder | src/libxpc/xpc_type.c:523-546 | a dictionary equals every reordering of its pairs |
| XpcType.DataHashLoop | src/libxpc/xpc_type.c:558-567 | the loop computes djb2 with seed 5381 and the step (h << 5) + h + byte, over the bytes from last to first, in wrapping 64-bit arithmetic |
| XpcType.DataHash | src/libxpc/xpc_type.c:558-567 | the specification of `xpc_data_hash`: seed 5381, the bytes taken from last to first; `DataHashLoop` is proved to compute it |
| XpcType.XorMonoid | src/libxpc/xpc_type.c:584-596 | XOR with unit 0 is a commutative monoid, the structure the container hash folds with |
| XpcType.XorFoldPermutation | src/libxpc/xpc_type.c:584-596 | XOR-folding a sequence of hashes gives the same result for any permutation of it |
| XpcType.HashDictionaryIsFold | src/libxpc/xpc_type.c:584-590 | the dictionary hash is the XOR-fold of key-hash XOR value-hash over the pairs |
| XpcType.HashArrayIsFold | src/libxpc/xpc_type.c:591-596 | the array hash is the XOR-fold of the element hashes |
| XpcType.HashDictionaryIgnoresOrder | src/libxpc/xpc_type.c:584-590 | two dictionaries holding the same pairs in any order hash alike |
| XpcType.Hash | src/libxpc/xpc_type.c:569-600 | the specification of `xpc_hash`; the lemmas beside it state that container hashes are XOR folds that ignore order |
| XpcType.HashArrayIgnoresOrder | src/libxpc/xpc_type.c:591-596 | two arrays holding the same elements in any order hash alike |
| XpcType.HashUnhandledIsOne | src/libxpc/xpc_type.c:598-600 | a type the hash does not handle hashes to the constant 1 instead of aborting |
| XpcDictionary.ImplKeysReserved | src/libxpc/xpc_internal.h:42-44 | the sequence-number and remote-port keys carry the reserved prefix and differ |
| XpcDictionary.Insert | src/libxpc/xpc_dictionary.c:361-372 | insertion adds one pair exactly when the key is new, and a new key's pair goes at the tail |
| XpcDictionary.InsertKeys | src/libxpc/xpc_dictionary.c:361-366 | insertion keeps every existing pair's key in its place, so order is unchanged |
| XpcDictionary.InsertNew | src/libxpc/xpc_dictionary.c:368-372 | a key no pair carries is appended at the tail |
| XpcDictionary.InsertUnique | src/libxpc/xpc_dictionary.c:350-374 | insertion keeps keys unique |
| XpcDictionary.InsertLookup | src/libxpc/xpc_dictionary.c:350-374 | after an insertion the key finds the new value, and every other key finds what it found before |
| XpcDictionary.SetValueNoKeyCheck | src/libxpc/xpc_dictionary.c:350-374 | aborts exactly on NULL or a non-dictionary; otherwise an existing key gets the new value in place, a new key is appended, and the size grows by one exactly for a new key |
| XpcDictionary.SetValue | src/libxpc/xpc_dictionary.c:376-383 | aborts exactly on a key with the reserved prefix, NULL or a non-dictionary; otherwise behaves as the unchecked insertion |
| XpcDictionary.SetBool | src/libxpc/xpc_dictionary.c:419-429 | stores a boolean object under the key through the checked insertion, with the same aborts; the count grows by one exactly when the key is new, and flags, reference count and audit token are unchanged |
| XpcDictionary.SetInt64 | src/libxpc/xpc_dictionary.c:432-442 | stores an int64 object under the key through the checked insertion, with the same aborts; the count grows by one exactly when the key is new, and flags, reference count and audit token are unchanged |
| XpcDictionary.SetUInt64 | src/libxpc/xpc_dictionary.c:445-455 | stores a uint64 object under the key through the checked insertion, with the same aborts; the count grows by one exactly when the key is new, and flags, reference count and audit token are unchanged |
| XpcDictionary.SetString | src/libxpc/xpc_dictionary.c:458-462 | stores a string object under the key through the checked insertion, with the same aborts; the count grows by one exactly when the key is new, and flags, reference count and audit token are unchanged |
| XpcDictionary.SetUuid | src/libxpc/xpc_dictionary.c:465-469 | stores a UUID object under the key through the checked insertion, with the same aborts; the count grows by one exactly when the key is new, and flags, reference count and audit token are unchanged |
| XpcDictionary.SetMachSend | src/libxpc/xpc_dictionary.c:318-328 | stores an endpoint object holding the port through the checked insertion; the count grows by one exactly when the key is new, and flags, reference count and audit token are unchanged |
| XpcDictionary.SetMachRecv | src/libxpc/xpc_dictionary.c:302-316 | stores an endpoint object holding the port through the checked insertion; the count grows by one exactly when the key is new, and flags, reference count and audit token are unchanged |
| XpcDictionary.GetValue | src/libxpc/xpc_dictionary.c:385-404 | aborts exactly on NULL or a non-dictionary; otherwise NULL exactly when no pair carries the key, and a found value is a pair's value under that key |
| XpcDictionary.GetCount | src/libxpc/xpc_dictionary.c:406-416 | aborts exactly on NULL or a non-dictionary, and otherwise returns the recorded size |
| XpcDictionary.CountIsKeys | src/libxpc/xpc_dictionary.c:406-416 | on a valid dictionary the count is the number of distinct keys |
| XpcDictionary.KeySet | src/libxpc/xpc_dictionary.c:361-366 | the key set holds exactly the keys some pair carries |
| XpcDictionary.UniqueKeyCount | src/libxpc/xpc_dictionary.c:361-372 | with unique keys there are as many distinct keys as pairs |
| XpcDictionary.GetBool | src/libxpc/xpc_dictionary.c:471-481 | true exactly when the key holds the boolean true; a missing key or another type gives false |
| XpcDictionary.GetInt64 | src/libxpc/xpc_dictionary.c:484-493 | the stored int64 when the key holds one, and otherwise 0 |
| XpcDictionary.GetUInt64 | src/libxpc/xpc_dictionary.c:496-505 | the stored uint64 when the key holds one, and otherwise 0 |
| XpcDictionary.GetString | src/libxpc/xpc_dictionary.c:508-517 | the stored string exactly when the key holds a string, and otherwise NULL |
| XpcDictionary.GetData | src/libxpc/xpc_dictionary.c:520-530 | the stored bytes exactly when the key holds data, and otherwise NULL |
| XpcDictionary.CopyMachSend | src/libxpc/xpc_dictionary.c:330-347 | 0 for a missing key, the port of an endpoint value; a non-endpoint value or a failed port insertion aborts |
| XpcDictionary.SetThenGet | src/libxpc/xpc_dictionary.c:385-530 | after a setter each getter reads back the stored value under its key, and every other key reads what it read before |
| XpcDictionary.FirstRefused | src/libxpc/xpc_dictionary.c:533-550 | every pair before the position is accepted, and the pair at the position is refused |
| XpcDictionary.Apply | src/libxpc/xpc_dictionary.c:533-550 | the result is true exactly when the applier accepts every pair; the applier runs in order up to and including the first refusal and not after it |
| XpcDictionary.LastValueKeys | src/libxpc/xpc_dictionary.c:265-266 | a key has a last value among the first keys exactly when it is one of them |
| XpcDictionary.LastValuePrefix | src/libxpc/xpc_dictionary.c:265-266 | a key has no last value exactly when it does not occur among the first keys |
| XpcDictionary.LastValueGiven | src/libxpc/xpc_dictionary.c:265-266 | a last value is a value that key was given |
| XpcDictionary.LastValue | src/libxpc/xpc_dictionary.c:265-266 | no value exactly for keys not given; otherwise a value that key was given |
| XpcDictionary.InsertLookupAt | src/libxpc/xpc_dictionary.c:350-374 | after an insertion one queried key finds the new value if it is the inserted key, and its old value otherwise |
| XpcDictionary.InsertAllUnique | src/libxpc/xpc_dictionary.c:265-266 | inserting a sequence of keys keeps keys unique |
| XpcDictionary.InsertAllLookup | src/libxpc/xpc_dictionary.c:265-266 | after inserting a sequence of keys, each key finds the value of its last occurrence |
| XpcDictionary.InsertAllCount | src/libxpc/xpc_dictionary.c:265-266 | inserting a sequence of keys leaves exactly one pair per distinct key |
| XpcDictionary.CountStep | src/libxpc/xpc_dictionary.c:361-372 | one insertion grows the pairs exactly as it grows the set of keys seen |
| XpcDictionary.AllKeys | src/libxpc/xpc_dictionary.c:265-266 | the distinct keys of the whole sequence are the set of its keys |
| XpcDictionary.DictionaryCreateAsWritten | src/libxpc/xpc_dictionary.c:255-269 | aborts exactly when some key is reserved; otherwise the recorded size is the count plus the number of pairs inserted |
| XpcDictionary.DictionaryCreateAsWrittenCounterexample | src/libxpc/xpc_dictionary.c:263-266 | one key gives a one-pair dictionary whose recorded count is 2 |
| XpcDictionary.DictionaryCreate | src/libxpc/xpc_dictionary.c:255-269 | corrected: aborts exactly when some key is reserved; otherwise a fresh valid dictionary whose count is the number of distinct keys and in which each key finds the value of its last occurrence |
| XpcDictionary.ReplyEntries | src/libxpc/xpc_dictionary.c:284-287 | the reply carries the remote port exactly when it is non-zero and the sequence number exactly when it is non-zero, under unique keys |
| XpcDictionary.FillReply | src/libxpc/xpc_dictionary.c:282-289 | writing the two pairs into an empty dictionary yields a valid dictionary holding exactly the reply's pairs |
| XpcDictionary.CreateReplyAsWritten | src/libxpc/xpc_dictionary.c:271-290 | a message not from the wire gives NULL; one carrying a non-zero remote port or sequence number aborts on the reserved key |
| XpcDictionary.CreateReply | src/libxpc/xpc_dictionary.c:271-290 | corrected: a message not from the wire gives NULL; otherwise a fresh valid dictionary holding the non-zero remote port and sequence number, aborting only where reading the port aborts |
| XpcNv.WrapperKeysReserved | src/libxpc/xpc_dictionary.c:64-68 | the object-type and port-index names of the inner dictionaries carry the reserved prefix and clash with neither "date" nor "double" |
| XpcNv.Unsigned | src/libxpc/xpc_dictionary.c:184-185 | storing an int64 in a pair's 64-bit slot and reading it back as signed gives it back, and non-negative values are stored as themselves |
| XpcNv.Decimal | src/libxpc/xpc_dictionary.c:241-243 | the decimal name of an array index is non-empty, all digits, and one digit exactly below 10 |
| XpcNv.DecimalInjective | src/libxpc/xpc_dictionary.c:241-243 | distinct indices get distinct names, so an array's pairs never clash |
| XpcNv.ToNv | src/libxpc/xpc_dictionary.c:221-253 | a root that is neither a dictionary nor an array aborts |
| XpcNv.PairFor | src/libxpc/xpc_dictionary.c:160-219 | the pair is added under the given key; shared memory, error and the unlisted null type abort |
| XpcNv.EntriesToNv | src/libxpc/xpc_dictionary.c:227-236 | the dictionary loop of `xpc2nv`: each entry's pair moved into the list in order; `RoundTrip` and `EntriesFormed` state what it builds |
| XpcNv.ItemsToNv | src/libxpc/xpc_dictionary.c:238-249 | the array loop of `xpc2nv`: each element's pair moved in under its decimal index; `RoundTrip` and `ItemsFormed` state what it builds |
| XpcNv.MovedFormed | src/libnv/nvlist.c:1779-1798 | moving a pair of the encoder's shape into a list of that shape keeps the shape |
| XpcNv.WrapperFormed | src/libxpc/xpc_dictionary.c:160-219 | the inner dictionary for a port, date or double has the encoder's shape, no error and height 0 |
| XpcNv.ToNvFormed | src/libxpc/xpc_dictionary.c:221-253 | every list `xpc2nv` returns has unique names, fitting values, packable types only and no descriptors, at every depth |
| XpcNv.EntriesFormed | src/libxpc/xpc_dictionary.c:227-236 | the dictionary loop keeps the encoder's shape |
| XpcNv.ItemsFormed | src/libxpc/xpc_dictionary.c:238-249 | the array loop keeps the encoder's shape |
| XpcNv.PairFormed | src/libxpc/xpc_dictionary.c:160-219 | every pair `xpc2nv_primitive` makes has the encoder's shape |
| XpcNv.FormedPacks | src/libnv/nvlist.c:827-850 | a list of the encoder's shape with no error anywhere is well formed, has only packable types and no descriptors, so packing it depends only on its height |
| XpcNv.FormedPacksFrom | src/libnv/nvlist.c:742-821 | the same for the pairs from a position on |
| XpcNv.SubListPacks | src/libnv/nvlist.c:742-821 | the same for one pair and the list it nests |
| XpcNv.FlatEntriesTranslate | src/libxpc/xpc_dictionary.c:227-236 | encoding succeeds on every dictionary of non-container values of the types it lists |
| XpcNv.Nv2Xpc | src/libxpc/xpc_dictionary.c:51-158 | the loop over `nvlist_next` computes the as-written decoding |
| XpcNv.ConvertPair | src/libxpc/xpc_dictionary.c:101-146 | the switch on a pair's type computes the as-written reading of that pair, including the fall-through from UUID into the array case |
| XpcNv.MovedFresh | src/libnv/nvlist.c:1175-1199 | a pair whose name is not taken is appended at the tail of an error-free list |
| XpcNv.EntriesStep | src/libxpc/xpc_dictionary.c:230-233 | one step of the dictionary encoding inserts the pair of the next entry |
| XpcNv.ItemsStep | src/libxpc/xpc_dictionary.c:241-246 | one step of the array encoding inserts the next element under its decimal index |
| XpcNv.DictionaryStep | src/libxpc/xpc_dictionary.c:148-151 | one step of the dictionary decoding inserts the pair's value under its own name |
| XpcNv.EncodeEntries | src/libxpc/xpc_dictionary.c:227-236 | encoding a dictionary with unique keys yields one pair per entry, in order, each the entry's own pair |
| XpcNv.DecimalFresh | src/libxpc/xpc_dictionary.c:241-243 | the names of earlier indices all differ from the next index's name |
| XpcNv.EncodeItems | src/libxpc/xpc_dictionary.c:238-249 | encoding an array yields one pair per element, in order, under the element's decimal index |
| XpcNv.DecodeEntries | src/libxpc/xpc_dictionary.c:97-157 | decoding a dictionary whose pairs each read back as their entry rebuilds the entries in order |
| XpcNv.DecodeItems | src/libxpc/xpc_dictionary.c:94-157 | decoding an array whose pairs each read back as their element rebuilds the elements in order |
| XpcNv.WrapperFinds | src/libxpc/xpc_dictionary.c:63-65 | an inner dictionary is recognised by its object-type tag, and its payload pair is found by name and type |
| XpcNv.PortBack | src/libxpc/xpc_dictionary.c:66-78 | the inner dictionary written for a connection, endpoint or fileport reads back as that object |
| XpcNv.DateBack | src/libxpc/xpc_dictionary.c:79-80 | the inner dictionary written for a date reads back as that date |
| XpcNv.DoubleBack | src/libxpc/xpc_dictionary.c:81-85 | with the corrected name, the inner dictionary written for a double reads back as that double |
| XpcNv.WrappedBack | src/libxpc/xpc_dictionary.c:63-89 | the corrected reader turns every inner dictionary the writer makes back into its object |
| XpcNv.ScalarBack | src/libxpc/xpc_dictionary.c:101-120 | a boolean, string, int64 or uint64 pair (and, corrected, data and UUID) reads back as its value |
| XpcNv.ListBack | src/libxpc/xpc_dictionary.c:137-145 | a list pair reads back as the object its list stands for |
| XpcNv.ItemBack | src/libxpc/xpc_dictionary.c:98-154 | a pair whose name is unique reads back as the value that was written |
| XpcNv.RoundTrip | src/libxpc/xpc_dictionary.c:51-253 | decoding the encoding of a container whose every part survives gives back the container, in order |
| XpcNv.DictionaryRoundTrip | src/libxpc/xpc_dictionary.c:51-253 | the dictionary case of the round trip |
| XpcNv.ArrayRoundTrip | src/libxpc/xpc_dictionary.c:51-253 | the array case of the round trip |
| XpcNv.AsWrittenDropsData | src/libxpc/xpc_dictionary.c:129-130 | as written, a data entry is encoded and then dropped, leaving an empty dictionary |
| XpcNv.AsWrittenUuidAborts | src/libxpc/xpc_dictionary.c:132-140 | as written, a UUID entry falls through to the array reader and aborts |
| XpcNv.AsWrittenDropsWrapped | src/libxpc/xpc_dictionary.c:172-215 | as written, a connection, endpoint, fileport, date or double entry is wrapped in a plain nested list, which the reader's switch skips |
| XpcNv.AsWrittenDoubleUnreadable | src/libxpc/xpc_dictionary.c:81-84 | as written, the double's inner dictionary is read under "date" although written under "double", and aborts |
| XpcConnection.Initial | src/libxpc/xpc_connection.c:55-58 | a new connection has counter 1, no pending calls, no peers, no handler and no parent |
| XpcConnection.Succ | src/libxpc/xpc_connection.c:38 | the counter moves on by one and wraps to 0 at 2^64 |
| XpcConnection.ToInt32 | src/libxpc/xpc_connection.c:398-399 | a 32-bit token word stored into a signed field keeps its bits modulo 2^32 |
| XpcConnection.FindCall | src/libxpc/xpc_connection.c:454-464 | the found pending call carries the ID, and no earlier one does |
| XpcConnection.IssuedIdsDistinct | src/libxpc/xpc_connection.c:227-231 | pending IDs drawn from the counter are pairwise distinct, so a reply resolves at most one call |
| XpcConnection.RemoveKeepsIssued | src/libxpc/xpc_connection.c:456-461 | removing a resolved call keeps the remaining IDs increasing and below the counter |
| XpcConnection.AppendKeepsIssued | src/libxpc/xpc_connection.c:227-231 | appending a call under the counter's value, as the counter moves on, keeps the IDs increasing and below the counter |
| XpcConnection.Connection.Init | src/libxpc/xpc_connection.c:43-90 | the connection starts in the initial state |
| XpcConnection.Connection.NextId | src/libxpc/xpc_connection.c:38 | returns the counter's value and advances the counter by one, changing nothing else |
| XpcConnection.Connection.SendMessage | src/libxpc/xpc_connection.c:201-217 | a message's non-zero sequence number is reused with the counter untouched; otherwise the next ID is drawn; the message is queued under that ID, and a non-dictionary aborts |
| XpcConnection.Connection.SendMessageWithReply | src/libxpc/xpc_connection.c:219-237 | draws the next ID, appends exactly one pending call with that ID, handler and queue at the tail, and queues the message under it; pending IDs stay distinct |
| XpcConnection.Connection.SetCredentials | src/libxpc/xpc_connection.c:380-400 | token words 1, 2, 5 and 6 become euid, gid, pid and asid; no token changes nothing |
| XpcConnection.Connection.SetEventHandlerAsWritten | src/libxpc/xpc_connection.c:157-168 | as written, setting the handler changes nothing |
| XpcConnection.Connection.SetEventHandler | src/libxpc/xpc_connection.c:157-168 | corrected: the handler is stored and nothing else changes |
| XpcConnection.Connection.Dispatch | src/libxpc/xpc_connection.c:450-471 | credentials are updated first; the first pending call with the ID gets the message and is removed; otherwise a stored handler gets it, or it is dropped; afterwards no pending call carries the ID |
| XpcConnection.Connection.CallLookup | src/libxpc/xpc_connection.c:454-464 | the loop finds the first pending call with the ID |
| XpcConnection.FindPeer | src/libxpc/xpc_connection.c:422-429 | the found peer has the remote port, and no earlier one does |
| XpcConnection.Create | src/libxpc/xpc_connection.c:43-90 | a connection exists exactly when the local port and its send right are obtained, and starts in the initial state |
| XpcConnection.CreateMachService | src/libxpc/xpc_connection.c:92-131 | a listener checks in for its local port; "bootstrap" talks to the bootstrap port; any other name talks to the looked-up port; a failed step gives NULL |
| XpcConnection.CreateFromEndpoint | src/libxpc/xpc_connection.c:133-144 | an initial connection whose remote port is the endpoint's |
| XpcConnection.Accept | src/libxpc/xpc_connection.c:421-449 | a known sender's peer gets the message and no peer is created; otherwise exactly one fresh peer is appended, with the listener as parent and the sender as remote port, the listener is told of it and then the peer gets the message |
| XpcConnection.PeerLookup | src/libxpc/xpc_connection.c:422-429 | the loop finds the first peer with the sender's port |
| XpcConnection.MakePeer | src/libxpc/xpc_connection.c:433-438 | the new peer is fresh, with the listener as parent, the sender as remote port and the message's credentials |
| XpcConnection.RecvMessage | src/libxpc/xpc_connection.c:402-472 | a failed receive changes nothing; on a plain connection the message is dispatched: a reply resolves and removes its pending call, anything else goes to the handler if one is set, and credentials come from the audit token; on a listener a known peer gets the message, and an unknown remote port aborts unless a send right can be made, then gets a new peer connection appended, announced and handed the message, with nothing else changed |
| XpcConnection.Dispatched | src/libxpc/xpc_connection.c:440-472 | the state after a message reaches a connection: the audit token's credentials, then either the matching pending call answered and removed or the message delivered to the handler, or dropped when there is none |
| XpcConnection.AsWrittenHandlerMissesMessage | src/libxpc/xpc_connection.c:157-168 | as written, a message answering no call never reaches the handler that was set |
| XpcConnection.HandlerGetsMessage | src/libxpc/xpc_connection.c:466-470 | with the handler stored, the same message is delivered to it |
| XpcMisc.StrError | src/libxpc/xpc_misc.c:127-142 | negative codes and codes above the bound give "BAD ERROR"; other codes give their table entry, and a code past the four entries reads outside the table |
| XpcMisc.StrErrorSafe | src/libxpc/xpc_misc.c:127-142 | every code stays inside the table exactly when the bound is at most 3 |
| XpcMisc.PortSet.constructor | src/libxpc/xpc_misc.c:323-326 | the port table starts with 16 slots and no ports |
| XpcMisc.PortSet.Grow | src/libxpc/xpc_misc.c:334-337 | doubling the table keeps the ports already serialized and their count |
| XpcMisc.PortSet.SerializeAsWritten | src/libxpc/xpc_misc.c:331-344 | as written, the port goes out under the next index, but when the count equals the table size the write falls past the end (an abort here) |
| XpcMisc.PortSet.Serialize | src/libxpc/xpc_misc.c:331-344 | corrected growth test: the port goes out under the next index at the end of the table, in first-use order; only a failed send-right insertion aborts |
| XpcMisc.DeserializeAsWritten | src/libxpc/xpc_misc.c:432-436 | as written, the check compares the index as unsigned with the count: a negative index or one above the count is refused (the assertion aborts), an index below the count finds its port, and exactly the index equal to the count passes and reads past the received ports |
| XpcMisc.Deserialize | src/libxpc/xpc_misc.c:432-436 | corrected bound: an index finds its port exactly when it is below the number of ports, and never reads past the end |
| XpcMisc.DeserializeAsWrittenPastEnd | src/libxpc/xpc_misc.c:433 | the index equal to the number of ports passes the check as written |
| XpcMisc.SerializeAll | src/libxpc/xpc_misc.c:331-344 | serializing ports one by one yields a table of exactly those ports in order, with the count equal to their number, and each index deserializes back to its port |
| XpcMisc.AsWrittenSeventeenthPort | src/libxpc/xpc_misc.c:331-344 | as written, the seventeenth port is written past a table of sixteen |
| XpcMisc.SetFromWire | src/libxpc/xpc_misc.c:469 | setting the from-wire flag sets bit 0 and keeps every other bit |
| XpcMisc.TagReceived | src/libxpc/xpc_misc.c:450-471 | the received dictionary gains the remote port and the sequence number through the unchecked insertion, the from-wire flag and an audit token; its count grows by one for each of the two keys that was new, its reference count is unchanged, and both tags read back through the getters |
| XpcMisc.TaggedReadBack | src/libxpc/xpc_misc.c:453-467 | the two tags read back as the sequence number and the remote port |
| XpcMisc.TryReceiveTagAsWritten | src/libxpc/xpc_misc.c:536-538 | as written, tagging through the checked setters always aborts on the reserved remote-port key |
| XpcMisc.SendError | src/libxpc/xpc_misc.c:301-305 | a successful send gives 0, an invalid task EPIPE, and any other failure EINVAL |
| XpcMisc.RoutineReply | src/libxpc/xpc_misc.c:226-311 | aborts exactly on NULL or a non-dictionary, a failed encoding, an encoded list with its error set anywhere (which `nvlist_size` asserts against), nesting three deep (which `nvlist_pack_buffer` asserts against), a missing or unreadable remote port, or a zero sequence number; otherwise it returns the send's error code |
| XpcMisc.ReplyTranslates | src/libxpc/xpc_dictionary.c:221-236 | the reply built for a non-zero port and sequence number encodes to a list with no error anywhere and a height of one |
| XpcMisc.ReplyAccepted | src/libxpc/xpc_misc.c:226-311 | the reply built for a non-zero port and sequence number is accepted and reports the send's answer |
| XpcMisc.ReceiveThenReply | src/libxpc/xpc_misc.c:450-471 | a received dictionary, tagged and answered with the corrected reply, is accepted by the reply path |
| XpcMisc.DictionaryDestroy | src/libxpc/xpc_misc.c:67-80 | every pair is removed and each value released exactly once, in order; no other field changes |
| XpcMisc.ArrayDestroy | src/libxpc/xpc_misc.c:82-94 | every element is removed and released exactly once, in order; no other field changes |
| XpcMisc.ObjectDestroy | src/libxpc/xpc_misc.c:96-113 | a dictionary or array releases its children; a string or data object frees its bytes; the audit token is freed exactly when present |
| LibLaunch.HostToWire | src/libxpc/liblaunch.c:81-101 | widths 1, 2, 4 and 8 convert to that many little-endian bytes; any other width is refused |
| LibLaunch.WireToHost | src/libxpc/liblaunch.c:104-124 | widths 1, 2, 4 and 8 convert back to a value that fits the width; any other width is refused |
| LibLaunch.WireRoundTrip | src/libxpc/liblaunch.c:81-124 | converting a value to the wire and back gives it back, for every accepted width |
| LibLaunch.HostRoundTrip | src/libxpc/liblaunch.c:81-124 | converting wire bytes to the host and back gives the same bytes |
| LibLaunch.Alloc | src/libxpc/liblaunch.c:302-313 | every type but descriptor and Mach port gets an object, containers empty; those two abort |
| LibLaunch.GetTypeAsWritten | src/libxpc/liblaunch.c:316-330 | exactly nine XPC types have a launch type, and every other type aborts |
| LibLaunch.AsWrittenAllocTypeless | src/libxpc/liblaunch.c:302-330 | as written, the string and the errno object that allocation makes have no launch type |
| LibLaunch.GetType | src/libxpc/liblaunch.c:316-330 | corrected: agrees with the source wherever it answers, and also types strings and unsigned integers |
| LibLaunch.AllocTypeRoundTrip | src/libxpc/liblaunch.c:302-330 | corrected: every object allocation makes reports the type it was made for |
| LibLaunch.PopFirst | src/libxpc/liblaunch.c:386-406 | a fresh array holding all elements but the first, in order |
| LibLaunch.PackAsWritten | src/libxpc/liblaunch.c:611-628 | as written, a message larger than the buffer is copied past its end (an abort here), and one smaller than the buffer is never copied; the packed size is returned |
| LibLaunch.AsWrittenPackLosesMessage | src/libxpc/liblaunch.c:620-622 | as written, a message shorter than the buffer does not reach it |
| LibLaunch.Pack | src/libxpc/liblaunch.c:611-628 | corrected: a message that fits is copied to the front of the buffer, the rest of which is unchanged; one that does not fit leaves it alone; the packed size is returned either way |
| LibLaunch.DataPack | src/libxpc/liblaunch.c:611-628 | `launch_data_pack` up to the copy: it aborts exactly when the message holds a port (the serializer reports a misuse), `xpc2nv` refuses it, a list of the translation has an error or the nesting reaches three; otherwise it yields the packed records of the translation, which take exactly the bytes `nvlist_size` counts |
| LibLaunch.PortMessageAborts | src/libxpc/liblaunch.c:613-615 | a message holding a connection cannot be packed |
| XpcNv.PortFreeIgnoresSerializer | src/libxpc/xpc_dictionary.c:161-253 | the port serializer is consulted only for connections, endpoints and file ports: a value without them translates the same under any serializer |
| LibLaunch.MagicBytesValue | src/libxpc/liblaunch.c:695 | the magic's little-endian bytes read back as 0xD2FEA02366B39A41 |
| LibLaunch.Frame | src/libxpc/liblaunch.c:693-707 | the frame is the 16-byte header followed by the payload |
| LibLaunch.FrameHeader | src/libxpc/liblaunch.c:693-695 | a frame's header fields read back as the magic and the whole length, payload plus header |
| LibLaunch.Unpack | src/libxpc/liblaunch.c:630-638 | `launch_data_unpack` reaches the record reader only for data that holds a whole nvlist header starting with the nvlist magic; everything else aborts in the header check |
| LibLaunch.PackedPayloadUnpacks | src/libnv/nvlist.c:879-908 | a payload made of the header written for a list without descriptors and the bytes it announces passes the header check and reaches the record reader |
| LibLaunch.Prepend | src/libxpc/liblaunch.c:1055-1058 | a message delivered before the rest of the drain: nothing delivered leaves the drain's result unchanged |
| LibLaunch.PrependTwice | src/libxpc/liblaunch.c:1031-1074 | delivering two batches one after the other is delivering them together, in order |
| LibLaunch.MagicFirstByte | src/libxpc/liblaunch.c:695 | the first byte of the launch magic on the wire is 0x41, which is not the nvlist magic 0x6c |
| LibLaunch.AsWrittenAbortsOnMessage | src/libxpc/liblaunch.c:1051 | as written, a complete message at the front of the buffer hands the whole buffer, launch header first, to the nvlist reader, which aborts |
| LibLaunch.AsWrittenFrameAborts | src/libxpc/liblaunch.c:633 | as written, receiving any frame `launchd_msg_send` writes, followed by anything, aborts the process |
| LibLaunch.PackedFrameDelivered | src/libxpc/liblaunch.c:693-707 | corrected: a frame carrying a packed list without descriptors is delivered when its records decode, and draining goes on after it |
| LibLaunch.Drain | src/libxpc/liblaunch.c:1031-1090 | the receive loop as a value: the lemmas about it state that it answers EAGAIN or EBADRPC, what it delivers and what it leaves |
| LibLaunch.DrainOutcomes | src/libxpc/liblaunch.c:1031-1090 | when draining returns: an empty buffer gives 0 and nothing; a failure is EAGAIN or EBADRPC; success leaves no bytes; what is left is a suffix of the buffer |
| LibLaunch.Front | src/libxpc/liblaunch.c:1032-1074 | one turn of the loop stops with the status the whole drain returns, aborts exactly when the whole drain does, or delivers the front message and leaves fewer bytes, after which the drain goes on |
| LibLaunch.FrameDrained | src/libxpc/liblaunch.c:1031-1083 | corrected: when the reader is handed the frame's payload and the whole frame is removed, a frame whose payload decodes is delivered and draining goes on exactly after it |
| LibLaunch.AsWrittenKeepsPayload | src/libxpc/liblaunch.c:1034-1074 | with the payload handed over but only the header consumed, the decoded message is delivered and then the payload left in the buffer fails the magic check, so the call answers EBADRPC with the payload still there; with both corrections the buffer is emptied and the call answers 0 |
| LibLaunch.ChooseFd | src/libxpc/liblaunch.c:533-555 | the check-in descriptor when there is one, the other descriptor otherwise; -1 exactly when both are missing |
| LibLaunch.Launch.GetFd | src/libxpc/liblaunch.c:534-537 | `launchd_getfd`: the check-in socket when the handle uses it, the main socket otherwise; `FdOpen` states which one results |
| LibLaunch.Launch.FdOpen | src/libxpc/liblaunch.c:539-582 | empty buffers and the descriptor the choice picks |
| LibLaunch.Launch.MsgSend | src/libxpc/liblaunch.c:641-756 | no descriptor gives EPERM; the assertion on the pending bytes aborts; a new message aborts exactly when `launch_data_pack` does (a port inside, a value `xpc2nv` refuses or a root that is not a container, a list with an error, nesting three deep), when it is larger than the 10 MiB buffer, or when the socket takes fewer bytes than the 16-byte launch header, so that the payload count goes negative; an empty packing would give ENOMEM, but a packing always holds its header; a failed send gives its errno and a closed peer or lost control data ECONNRESET, both keeping the payload to resend; after r bytes are sent the unsent tail of the frame stays in the buffer, and the call answers 0 when nothing is left and EAGAIN otherwise |
| LibLaunch.Launch.MsgRecv | src/libxpc/liblaunch.c:985-1091 | no descriptor gives EPERM, a failed receive its errno, a closed peer ECONNRESET and cut control data ECONNABORTED, each leaving the buffer alone; otherwise the received bytes and descriptors are appended and drained: the call aborts exactly when the drain does, and else returns its status, delivers its messages in order and keeps what is left |
| LibLaunch.Launch.DrainBuffer | src/libxpc/liblaunch.c:1031-1090 | the loop aborts exactly when the drain does; otherwise it returns the drain's status, delivers its messages in order and leaves its remaining bytes, with descriptors and socket unchanged |
| NvList.FindIndex | src/libnv/nvlist.c:290-318 | the position returned is the first pair of the requested type (any type for NONE) whose name matches, case-insensitively under the ignore-case flag; no earlier pair matches; past the end means none does |
| NvList.ExistsIff | src/libnv/nvlist.c:1049-1054 | a name exists exactly when some pair, of any type, has a matching name |
| NvList.MovedValid | src/libnv/nvlist.c:1779-1798 | moving a pair in keeps the names of the list unique and the list well formed |
| NvList.MovedErrorSticky | src/libnv/nvlist.c:1779-1798 | a list with an error is left unchanged, a set error is never cleared, and the only error a move sets is EEXIST |
| NvList.Moved | src/libnv/nvlist.c:1779-1798 | `nvlist_move_nvpair` as a value; `MovedValid`, `MovedErrorSticky` and the class method `MovePair` state its effect |
| NvList.MovedFinds | src/libnv/nvlist.c:1779-1798 | a successful move appends exactly the pair at the tail, and it is then found under its name |
| NvList.RemovedAtValid | src/libnv/nvlist.c:2304-2312 | removing a pair keeps a well formed list well formed |
| NvList.Next | src/libnv/nvlist.c:1029-1047 | from NULL the first pair, from a cookie the pair after it, giving its name, its type and the new cookie; NULL exactly past the last pair |
| NvList.NextVisitsInOrder | src/libnv/nvlist.c:1029-1047 | following the cookie from NULL reaches the n-th pair after n + 1 calls, so the pairs come in insertion order |
| NvList.Xndescriptors | src/libnv/nvlist.c:654-685 | a list with an error, or nesting that reaches level 3, aborts; otherwise the count of descriptor pairs, nested lists included |
| NvList.NvList.Init | src/libnv/nvlist.c:124-177 | no error, no pairs, the given flag and list type |
| NvList.NvList.Find | src/libnv/nvlist.c:290-318 | a list with an error or a type outside NONE..UUID aborts; otherwise the position of the first accepted pair, or none |
| NvList.NvList.MovePair | src/libnv/nvlist.c:1779-1798 | the list becomes `Moved`: unchanged with an error, EEXIST for a taken name, otherwise the pair at the tail; it stays well formed |
| NvList.NvList.AddPair | src/libnv/nvlist.c:1175-1199 | the same effect as moving in a copy of the pair |
| NvList.NvList.Add | src/libnv/nvlist.c:1496-1511 | the add and move families: a new pair of the given type and value, moved in as above |
| NvList.NvList.Get | src/libnv/nvlist.c:2025-2035 | a list with an error, a bad type or a missing pair aborts; otherwise the value of the first accepted pair, which has the requested type |
| NvList.NvList.Take | src/libnv/nvlist.c:2161-2175 | aborts as Get does and then leaves the list unchanged; otherwise returns the value of the first accepted pair and removes exactly that pair |
| NvList.NvList.FreeType | src/libnv/nvlist.c:363-378 | aborts as Get does; otherwise removes exactly the first accepted pair, keeping the list well formed |
| NvList.Create | src/libnv/nvlist.c:124-177 | flags other than the public ignore-case bit abort; otherwise a fresh empty list of the requested type, without error |
| NvList.SetError | src/libnv/nvlist.c:202-214 | a zero error aborts; only the first non-zero error is recorded; pairs, type and flag are unchanged; a NULL list is left alone |
| NvList.Error | src/libnv/nvlist.c:216-226 | ENOMEM for NULL, otherwise the list's error |
| NvList.Clone | src/libnv/nvlist.c:404-431 | NULL exactly for a list with an error; otherwise a fresh list equal to the original, pairs in the same order |
| NvCodec.SizeOf | src/libnv/nvlist.c:558-602 | a list with an error aborts; otherwise the header plus, for every pair, nested ones included, its record and value, and for a nested list its header and the closing up record |
| NvCodec.Size | src/libnv/nvlist.c:558-602 | what `nvlist_size` returns, as a value; `PackSize` proves it is the byte length of the packed form and `SizeOf` computes it |
| NvCodec.PackSize | src/libnv/nvlist.c:558-602 | the packed form occupies exactly the number of bytes the size computation gives |
| NvCodec.FlagsByteFacts | src/libnv/nvlist.c:695-707 | the flag byte a little-endian host writes passes the flag mask, has no big-endian bit and keeps the ignore-case bit; with the big-endian bit added it still passes and keeps it |
| NvCodec.CheckHeader | src/libnv/nvlist.c:853-876 | a wrong magic or a flag outside the mask is refused; otherwise flags and type are kept and both 64-bit fields are read in the byte order the flags name |
| NvCodec.CheckHeaderRoundTrip | src/libnv/nvlist.c:695-716 | a header packed on this host checks back to the list's flags, type, descriptor count and size |
| NvCodec.CheckHeaderBigEndian | src/libnv/nvlist.c:853-876 | a header packed on a big-endian host is swapped back to the same descriptor count and size |
| NvCodec.UnpackHeader | src/libnv/nvlist.c:879-908 | aborts when the header does not fit, fails the check, announces a size other than the bytes after it, or more descriptors than were received; otherwise the checked header |
| NvCodec.Xpack | src/libnv/nvlist.c:719-824 | NULL for a list with an error or a caller buffer of the wrong size; otherwise aborts exactly for nesting 3 deep or a pair type without a case, and else gives the packed form of the list |
| NvCodec.PackWalk | src/libnv/nvlist.c:742-821 | the record loop aborts exactly when a pair still to pack has a type without a case, and otherwise completes the packed form |
| NvCodec.PackBuffer | src/libnv/nvlist.c:827-850 | an error in the list gives NULL with that error; nesting 3 deep aborts; descriptors give NULL with EOPNOTSUPP; otherwise as Xpack |
| NvUnpack.Xunpack | src/libnv/nvlist.c:910-987 | a buffer that does not start with a header, or whose header fails the checks, aborts; the packed form of a list it can unpack gives that very list back |

## Left out

- Some source files are not part of this model, and what the model assumes of them is stated where it is used:
  - nvpair.c: per-pair sizes are a `Layout` parameter, and records are tokens rather than bytes;
  - nv.h: type codes and flags;
  - xpc.h: the error description key;
  - launch.h: the launch types are named, not numbered;
  - xpc_array.c.
- `nvlist_contains_key` is not among the files and is modelled by `NvList.Exists`.
- Mach, kernel and bootstrap calls become parameters carrying their answers, for example `insertRight`, `kr`, `got` and `ioErrno`:
  - `mach_msg`, `mach_port_*`, `bootstrap_*`, `fileport_*`, `csops`, `vproc_*`;
  - the socket calls `sendmsg`, `recvmsg` and `select`.
- Dispatch queues, the asynchronous blocks and the synchronous send-and-wait are left out. A connection is a sequential state machine, and a pending call is resolved at once rather than in a queued block.
- `xpc_connection_send_message_with_reply_sync`, suspend, resume and `set_target_queue`, and the connection getters are not modelled. Neither is `xpc_connection_cancel`, which is an empty function.
- Reading the records after an nvlist header and turning them into an XPC object is a parameter `decode` of the receive path. The record layout lives in nvpair.c, which is not part of this model. The header check before it is modelled (`LibLaunch.Unpack`).
- XpcNv.ToNv: the port serializer is a function of the port. In `xpc_pipe_send` and `xpc_pipe_routine_reply` it is a block that numbers every occurrence in turn (xpc_misc.c:244, 332), so a port that appears twice gets two indices there and one index here. `XpcMisc.SerializeAll` models that numbering and its port table separately.
- `XpcMisc.RoutineReply`: the allocation of the message and its ENOMEM answer are left out. A NULL from `nvlist_pack_buffer`, answered EINVAL, cannot happen for a list `xpc2nv` builds once `nvlist_size` has passed.
- Descriptor passing in control messages is left out. `launch_data_unpack` reports no descriptors, so `launchd_msg_recv` never removes any, and the model keeps them unchanged.
- The `launchd_close` check inside the receive loop is not modelled, because the callback is not modelled.
- Memory allocation never fails in the model: the `nv_malloc`, `malloc`, `reallocf` and `nvpair_clone` failure paths are left out.
- Floating point is left out. A double is carried as its 64-bit pattern, and `host2wire_f`/`big2wire_f` are not modelled.
- The hash of non-byte scalars reads the value's union through a port field, which depends on layout. It is a parameter `scalarHash`.
- Reference counts are counted, but `os_retain`/`os_release` and logging are not modelled.
- The `*f`/`*v` printf-style wrappers reduce to their plain-name variants. Dumping and `xpc_copy_description` are formatted printing and are not modelled.
- The entitlement reader in xpc_private.c depends on `csops` and is not modelled.
- The clock and random numbers are left out: `xpc_date_create_from_current` and `uuid_generate`.
- `XpcMisc.StrError`: EXMAX is not defined in the files modelled, so it is a parameter. `XpcMisc.StrErrorSafe` states the bound under which the table lookup is safe.
- Bytes are integers 0..255; integer widths are written out where the code truncates or wraps.
- `NvCodec.Xpack`, `NvCodec.PackBuffer`: a list holding a date pair aborts, as the source's default branch does. `nvlist_add_date` creates such pairs, but neither `nvlist_xpack` nor `nvlist_xunpack` has a case for them. No corrected codec with a date record is given, because its record layout lives in nvpair.c.
- `NvUnpack.Xunpack`: the contract states the round trip and the header aborts, not the outcome of every malformed record sequence.
- `NvUnpack.Xunpack`: a nested list whose name is already taken aborts. In the source the pair is freed and reading continues into freed memory.
- `LibLaunch.Launch.MsgSend`: the descriptors of `launch_data_pack` are always none, so `sendfds` only ever becomes empty.
- `LibLaunch.Launch.MsgSend`: the bytes it sends are those the corrected `Pack` copies. As written, `launch_data_pack` copies nothing for a message shorter than the buffer (`AsWrittenPackLosesMessage`), so the buffer would go out uninitialized. The bytes themselves are a parameter tied to the packed records only by their length, because the record encoding (nvpair.c) is not part of this model.
- `LibLaunch.DataPack`: a duplicate key at the top level makes `nvlist_pack` return NULL and leave the size unset, which `launch_data_pack` then reads; that behaviour is undefined and is modelled as an abort.

## Findings

| source | as written | input that shows it | evidently intended | confidence | as-written member | corrected member |
|---|---|---|---|---|---|---|
| src/libxpc/xpc_type.c:519 | the string case of `xpc_equal` compares the first object with itself | the strings "a" and "b" compare equal | compare the two strings | not executed | XpcType.EqualAsWrittenCounterexample | XpcType.EqualAsWrittenAllStringsEqual |
| src/libxpc/xpc_dictionary.c:263 | `xpc_dictionary_create` sets the size to `count`, then every insertion adds one more | one key gives a one-pair dictionary of count 2 | the count is the number of distinct keys | not executed | XpcDictionary.DictionaryCreateAsWrittenCounterexample | XpcDictionary.DictionaryCreate |
| src/libxpc/xpc_misc.c:334 | the port table grows only when the index exceeds its size | the seventeenth port is written past a table of sixteen | grow when the index reaches the size | not executed | XpcMisc.AsWrittenSeventeenthPort | XpcMisc.SerializeAll |
| src/libxpc/xpc_misc.c:433 | the receive side admits an index equal to the port count | index n with n ports reads past the array | admit indices below the count | not executed | XpcMisc.DeserializeAsWrittenPastEnd | XpcMisc.Deserialize |
| src/libxpc/liblaunch.c:620 | `launch_data_pack` copies only when the buffer size is at least the message length | a message shorter than the buffer never reaches it, and a longer one is copied past its end | copy when the message fits | not executed | LibLaunch.AsWrittenPackLosesMessage | LibLaunch.Pack |
| src/libxpc/liblaunch.c:633 | `launch_data_unpack` hands `nvlist_unpack` the whole receive buffer, launch header first, whose first byte 0x41 is not the nvlist magic 0x6c | any frame `launchd_msg_send` writes: `nvlist_unpack_header` aborts | hand it the payload after the 16-byte header | not executed | LibLaunch.AsWrittenFrameAborts | LibLaunch.FrameDrained |
| src/libxpc/liblaunch.c:1034-1070 | `launchd_msg_recv` removes only the 16 header bytes of each message | with the payload handed over, a frame leaves its payload behind, which fails the magic check and answers EBADRPC | remove the whole frame | not executed | LibLaunch.AsWrittenKeepsPayload | LibLaunch.FrameDrained |
| src/libxpc/xpc_dictionary.c:128-129 | `nv2xpc` has no case for binary pairs | a dictionary holding one data entry comes back empty | read binary pairs back as data | not executed | XpcNv.AsWrittenDropsData | XpcNv.RoundTrip |
| src/libxpc/xpc_dictionary.c:131-139 | the UUID case falls through into the array case | a dictionary holding one UUID entry aborts | read UUID pairs back as UUIDs | not executed | XpcNv.AsWrittenUuidAborts | XpcNv.RoundTrip |
| src/libxpc/xpc_dictionary.c:83 | a double's inner dictionary is read under "date" but written under "double" | any double | read it under "double" | not executed | XpcNv.AsWrittenDoubleUnreadable | XpcNv.DoubleBack |
| src/libxpc/xpc_dictionary.c:101-146 | the inner dictionaries for ports, dates and doubles are nested lists, which the reader's switch skips | a dictionary holding one date entry comes back empty | unwrap them | not executed | XpcNv.AsWrittenDropsWrapped | XpcNv.WrappedBack |
| src/libxpc/xpc_dictionary.c:284-287 | `create_reply` writes the reserved keys through the checked setter | any message from the wire with a non-zero sequence number | write them unchecked | not executed | XpcDictionary.CreateReplyAsWritten | XpcDictionary.CreateReply |
| src/libxpc/xpc_misc.c:536-537 | `xpc_pipe_try_receive` tags through the checked setters | any received message | tag unchecked, as `xpc_pipe_receive` does | not executed | XpcMisc.TryReceiveTagAsWritten | XpcMisc.TagReceived |
| src/libnv/libsbuf.c:38-43 | `sbuf_bcat`/`sbuf_bcpy` double the capacity once | appending 3000 bytes to a new buffer | grow until the bytes fit | not executed | Sbuf.GrowOnceAsWrittenCounterexample | Sbuf.Grown |
| src/libxpc/liblaunch.c:316-330 | `launch_data_get_type` has no case for strings or unsigned integers | the string `launch_data_alloc` makes aborts | report the type it was made with | not executed | LibLaunch.AsWrittenAllocTypeless | LibLaunch.AllocTypeRoundTrip |
| src/libxpc/xpc_connection.c:157-168 | `xpc_connection_set_event_handler` never stores the handler | a message answering no pending call is dropped | deliver it to the handler | not executed | XpcConnection.AsWrittenHandlerMissesMessage | XpcConnection.HandlerGetsMessage |
| src/libxpc/xpc_type.c:374-384 | `xpc_data_set_bytes` keeps the old recorded size | shrinking 8 bytes to 2 leaves size 8 | record the new length | not executed | XpcType.DataSetBytesAsWrittenCounterexample | XpcType.DataSetBytes |
| src/libxpc/xpc_type.c:458-466 | `xpc_string_set_value` keeps the old recorded length | any string of another length | record the new length | not executed | XpcType.StringSetValueAsWritten | XpcType.StringSetValue |
