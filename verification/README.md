# Verified models of the test framework's algorithms and protocols

The repository is a functional-test framework for a distributed database. Most of it drives
other systems; this project models the parts of it that are algorithms or protocols of their
own, and proves what they are for.

| module | what it models |
|---|---|
| `MutationKeys`, `LoadGenerator` | the deterministic load generator: a mutation index is mapped to a key, the map is inverted by a window scan, and the inverse predicts every value read back |
| `Bytes`, `Framing` | the memcached binary protocol: 24-byte headers, and the server channel that cuts a byte stream into requests |
| `Sockets`, `ClientReceive` | the client's receiving side, over a socket that delivers bytes in pieces of any size |
| `Pipeline` | pipelined multi-get and multi-set, closed by one NOOP per vbucket |
| `Leb128` | collection ids in front of keys (section 7.6 of DWARF 5) |
| `BitWords`, `Crc32` | the table-driven hash against the bitwise CRC-32 of section 8 of RFC 1952 |
| `DictBackend`, `BackendHistory`, `LazyExpiry`, `CasTokens` | the test server's dictionary: lazy expiry, delayed flushes, compare-and-swap tokens |
| `Reservations`, `Allocator`, `Placement`, `SharedHosts` | the VM manager: counters per label, interleaved requests, greedy placement over hosts, hosts shared by several requests |
| `BackupTree` | the tree rebuilt from the rows of a backup listing |
| `AsciiReader` | the reader of ASCII protocol replies |
| `JenkinsLog` | the state machine that finds test results in a build log |
| `Parameters` | the `-p` argument |
| `Arithmetic`, `Decimal`, `Text` | shared facts about quotients, sizes of sets, decimal text and splitting |

Code that updates state in place is modelled as classes and methods with loops, each proved
equal to a function; what the code promises is then proved of that function, over all inputs,
runs or interleavings. Calls to a server, a host or a hypervisor are parameters: sequences of
outcomes, functions from requests to answers, or functions from a host to the VMs it made.

## Where the code falls short of its intent

Each of these is proved as an exact condition, or with an input that shows it.

- The load generator's `size` is meant to be the size of the live data. The largest index of the
  current key is always the current index, so `size` stays 0 and `limit_size` never ends a thread;
  it is right only if all value sizes are 0. The second-to-largest index, which the code's own TODO
  suggests, would be right (`ZeroIsLiveSizeIff`, `AccountingIsLiveSize`).
- `items` is one less than the number of distinct keys (`DistinctKeys`, `CountersOk` in `LoadThread`).
- The scan for mutation indexes ends if and only if some mutations rewrite keys or the key is not
  written yet; otherwise it repeats its first hit for ever. So every turn of every run is defined if
  and only if the cycle starts with a set and the create percentage is 1 to 99, or it starts with
  neither a set nor a get: a get that comes first divides by 0 (`ScanEndsIff`, `SharesPositiveIff`,
  `RunsAreDefinedIff`).
- With cached data the announced size of a value is not its length (`AnnouncedSizeIffUncached`).
- The server asserts that the key alone fits the body, so a frame can be accepted whose key and
  extra header together do not; its key is then cut short (`KeyLengthIff`, `AcceptedIsPackedIff`, `KeyCutOff`).
- The test server checks expiry only in get, getq and set, so an add, replace, append, prepend or
  conditional delete can meet an expired entry, and then always answers differently
  (`LazyIsEagerIff`).
- A collection id of several bytes in front of an empty key is rejected (`RoundTripIff`).
- `_set_vbucket` hashes the key also for an explicit vbucket 0, so a given vbucket is used for every
  key if and only if it is positive, or it is 0 and there is no other; the key "a" is sent elsewhere
  (`GivenVbucketIff`, `ZeroIsReplaced`).
- The hash of the SDK client and the vbucket of the memcached client agree for every ASCII key; the
  bytes they hash are the same exactly for ASCII keys. With more than one vbucket they do not agree
  for every key: the key U+0080 differs (`VbucketAgreement`, `SameBytesIffAscii`, `AllKeysAgreeIff`,
  `PadDisagrees`).
- `setMulti` counts on every closing NOOP to succeed: it ends if and only if they all do, and
  otherwise waits for ever (`SetMulti`).
- Reservations are made for the labels of the request and returned for the labels of the host. A
  label the host lacks keeps one for every VM created, and one that only the host has loses
  reservations of others; the whole table is as it was exactly when nothing is created, or the host
  has all labels of the request and no reservation under a further one (`WholeRequestAmount`,
  `ReservationReturnedIff`).
- Availability is read before it is compared with the reservations. A decision is safe, whatever
  requests are under way, if and only if the availability used is not more than there is at that
  moment; with an older one two requests get two VMs out of one (`DecisionSafeIff`,
  `StaleReadOvercommits`).
- A host that raises after it has created VMs gives them back twice, and the loop asks for their
  names again. The step keeps the reserved count exact if and only if it had created as many as it
  restores, or, on a given host, no other request has VMs to come (`RaiseConservesIff`). Names are
  created once for all choices of names if and only if no host that leaves a VM uncounted is
  followed by one that creates some (`NamesCreatedOnceIff`).
- Lost VMs and VMs on given hosts overcommit the hosts, even if every decision is up to date: with at
  most `given` and `lost` of them there can be `n` VMs at a time if and only if `n` is at most the
  capacity and both numbers together, where lost VMs do not matter on hosts without any room. So the
  hosts are never overcommitted if and only if no VM is made on a given host, and none is lost or
  there is no room at all (`ProvisionedIff`, `NeverOvercommittedIff`).
- The counts per host are not lowered by what requests that are still placing may create there. A
  request overfills no host, however all go on, if and only if on every host either nothing of
  others is to come, or there is room for that and the whole request; two requests for one VM each,
  with two hosts for one VM each, can overfill the first one (`ReadSafeIff`, `TwoOnOneHost`).
- `construct_tree` hands out the first archive only, which is everything exactly when there is no
  archive row or the only one comes first (`AnswerKeepsAllIff`).
- A report that is still open when a test completes leads to a missing backtrace (`BacktraceIff`,
  `ReportCutShort`). A log raises if and only if, after a line that ends a test in this way, another
  line needs the backtrace (`RaisesIff`).

## Model

| member | source | states |
|---|---|---|
| MutationKeys.MutationKey | lib/load_runner.py:219-222 | a key is never larger than the index it is written by |
| MutationKeys.PreimageIffRound | lib/load_runner.py:219-222 | the indexes of a key are exactly an arithmetic progression of stride `nocreate`, over the rounds that contain the key |
| MutationKeys.PreimageInWindow | lib/load_runner.py:230-245 | every index of a key lies in the scanned window, and never above its centre |
| MutationKeys.NoPreimageBetween | lib/load_runner.py:242-248 | the stride after the first hit skips no index of the key |
| MutationKeys.LatestBefore | lib/load_runner.py:184 | the index found wrote the key, and no later one below the bound did |
| MutationKeys.MaxKey | lib/load_runner.py:145-146 | a key that was written and that no written key exceeds |
| MutationKeys.NextKey | lib/load_runner.py:219-222 | the next key is one larger, except at the start of a round, where `nocreate` keys are rewritten |
| MutationKeys.KeyCoverage | lib/load_runner.py:143-148 | after any number of mutations the keys written are exactly 0 up to the largest, and one more mutation raises the largest by at most one |
| MutationKeys.DistinctKeys | lib/load_runner.py:143-148 | the number of distinct keys is the largest key plus one |
| MutationKeys.DataSizeCycles | lib/load_runner.py:266-271 | value sizes are cycled through: at index `q * n + r` the size is the one at `r`, for all `q` |
| MutationKeys.LiveSizeStep | lib/load_runner.py:150-159 | a mutation changes the total live size by its own size less that of the value it overwrites |
| MutationKeys.AccountingIsLiveSize | lib/load_runner.py:150-159 | subtracting the size at the second-to-largest index keeps the counter equal to the total size of the live values, after every number of mutations |
| MutationKeys.ZeroIsLiveSizeIff | lib/load_runner.py:154-159 | a counter that stays 0 is the live size in all runs if and only if all value sizes are 0 |
| MutationKeys.SharesPositiveIff | lib/load_runner.py:61-63 | the shares keep the ratio of the percentages, and are both positive if and only if the create percentage is 1 to 99 |
| MutationKeys.ScanDivergesWithoutRewrites | lib/load_runner.py:241-248 | without rewriting mutations the scan stays on its first hit: after any number of turns it has not moved, and has one more hit per turn |
| MutationKeys.ScanAdvances | lib/load_runner.py:241-248 | in all other cases every turn goes on by at least one index |
| MutationKeys.ScanEndsIff | lib/load_runner.py:229-249 | the loop condition becomes false after some turn if and only if some mutations rewrite keys or the key has not been written |
| MutationKeys.OwnScanEndsIff | lib/load_runner.py:153 | the scan made after a set is defined and ends if and only if both shares are positive |
| MutationKeys.StepFinds | lib/load_runner.py:244-248 | a turn of the scan skips no index of the key, and keeps its hits the indexes of the key below the scanned one |
| LoadGenerator.AnnouncedSizeIffUncached | lib/load_runner.py:252-271 | the announced size of a value is its length if and only if data is not cached |
| LoadGenerator.FillerSize | lib/load_runner.py:252-262 | repeating a 36-character identifier and cutting gives exactly the size of the index |
| LoadGenerator.FillerRepeats | lib/load_runner.py:252-262 | and character `j` of it is character `j % 36` of the identifier |
| LoadGenerator.OperationsCycle | lib/load_runner.py:214-216 | with sets and gets only, the operation after `q * n + r` successes is the one at `r` of the cycle |
| LoadGenerator.StoreAfterPut | lib/load_runner.py:135-168 | whether a raising set was applied or not, the store holds the latest acknowledged value of every key but the one being retried |
| LoadGenerator.LatestPutIsLatestIndex | lib/load_runner.py:219-222 | the latest value set for a key is the one of the largest index mapped to it |
| LoadGenerator.ReadYourWrites | lib/load_runner.py:179-187 | for a key below the one written next, the largest index found by the scan is that of the latest acknowledged set |
| LoadGenerator.LoadThread.constructor | lib/load_runner.py:28-98 | a new thread has acknowledged nothing, and satisfies the invariant of all runs if its runs are defined |
| LoadGenerator.LoadThread.GetKey | lib/load_runner.py:225-226 | a get asks for a key below the one written next |
| LoadGenerator.LoadThread.GetMutationIndexes | lib/load_runner.py:229-249 | wherever the scan ends, it lists in ascending order exactly the indexes up to the current one that are mapped to the key, after the turns that `ScanEndsIff` speaks of |
| LoadGenerator.LoadThread.GetData | lib/load_runner.py:252-262 | without a cache the identifier repeated, with as many characters as the size in the cycle of sizes; with a cache the decimal index, and the filler its size was first given, which is never changed |
| LoadGenerator.LoadThread.SendSet | lib/load_runner.py:135-139 | an acknowledged set is appended to the history and is what the store holds; a raising one leaves the history as it was |
| LoadGenerator.LoadThread.AfterSet | lib/load_runner.py:140-159 | the accounting: `mutation_index_max` is the largest key written, `items` equals it, `size` stays 0 |
| LoadGenerator.LoadThread.DoSet | lib/load_runner.py:135-168 | a set keeps the invariant; it counts only if it is acknowledged |
| LoadGenerator.LoadThread.Expected | lib/load_runner.py:184 | the predicted value is that of the latest acknowledged set, and the one the store holds |
| LoadGenerator.LoadThread.DoGet | lib/load_runner.py:176-208 | a get asks for its key of the cycle, finds it, and reads the value of the latest acknowledged set |
| LoadGenerator.RunsAreDefinedIff | lib/load_runner.py:215-249 | no turn of any run of a new thread divides by 0 or scans for ever if and only if the cycle starts with a set and both shares are positive, or it starts with neither a set nor a get |
| LoadGenerator.LoadThread.GetIsDefined | lib/load_runner.py:225-226 | when a get is due there is a key to ask for, as the cycle does not start with a get |
| LoadGenerator.LoadThread.Run | lib/load_runner.py:103-212 | under any outcomes of the server: no value failure, no crash, no acknowledged set is lost, the indexes count exactly the successful operations; it ends at the first turn at which the limit of items or operations is exceeded, and the size limit never ends it |
| LoadGenerator.CurrentIsLast | lib/load_runner.py:153-156 | the largest index found for the current key is the current one |
| LoadGenerator.SecondToLastIsOverwritten | lib/load_runner.py:150-151 | the second-to-largest is the index of the value being overwritten, if there is one |
| LoadGenerator.NewMaximum | lib/load_runner.py:145-148 | the largest key grows by one or not at all |
| Bytes.UnpackPackFields | lib/mc_bin_client.py:139-141 | unpacking inverts packing for values that fit their fields |
| Bytes.PackUnpackFields | lib/mc_bin_server.py:318-319 | packing inverts unpacking for all bytes |
| Framing.UnpackAt | lib/mc_bin_server.py:328-329 | of any 24 bytes the fields are bytes 0, 1, 2-3, 4, 5, 6-7, 8-11, 12-15 and 16-23, most significant byte first |
| Framing.PackAt | lib/mc_bin_client.py:139-141 | and a header that fits is packed to these bytes |
| Framing.UnpackPack | lib/memcacheConstants.py:319 | a header is recovered from its 24 bytes |
| Framing.PackUnpack | lib/memcacheConstants.py:319 | and every 24 bytes are the packing of what they unpack to |
| Framing.ExtraSizes | lib/memcacheConstants.py:348-366 | the expected sizes are those of the format strings: 8 bytes for set, add and replace, 20 for increment and decrement, and so on |
| Framing.Drain | lib/mc_bin_server.py:325-354 | what stays in the buffer is a suffix of it, and incomplete unless an assertion failed |
| Framing.OutputAppend | lib/mc_bin_server.py:341-354 | the answers to some frames and then more are those to all of them, each depending on every command before it |
| Framing.Channel.HandleRead | lib/mc_bin_server.py:314-354 | a read hands on, queues and keeps exactly what draining the buffer and the new bytes yields, for a handler with memory |
| Framing.Channel.ReadAll | lib/mc_bin_server.py:325-354 | chunk after chunk: the commands handed on, the bytes queued and the bytes kept are those of the whole feed |
| Framing.YieldsIff | lib/mc_bin_server.py:314-340 | a buffer of 24 bytes or more yields a command if and only if it holds as many bytes as bytes 8-11 announce, byte 0 is 0x80, bytes 2-3 are not more than that, and byte 4 is the size expected for byte 1; if it holds them and one of these fails, the connection ends |
| Framing.FirstCallAt | lib/mc_bin_server.py:328-341 | the command is byte 1, with bytes 6-7 and 16-23, and extra header, key and value lie behind the header in this order |
| Framing.RequestAt | lib/mc_bin_client.py:128-163 | a request is packed to its header, byte by byte, and extra header, key, value and metadata |
| Framing.ResponseAt | lib/mc_bin_server.py:342-354 | a response is packed to 0x81, command, key length, extra length, 0, status, body length, tag and token, byte by byte, and its body |
| Framing.DrainMore | lib/mc_bin_server.py:325-340 | draining some bytes and then more is draining them together |
| Framing.ChunkIndependence | lib/mc_bin_server.py:325-354 | for every byte stream and every way of cutting it: the same frames, and so the same commands, and the same failing assertion as in one piece |
| Framing.CallOfRequest | lib/tap.py:90-94 | slicing the body gives back extra header, key and value |
| Framing.PackedIsFirstFrame | lib/mc_bin_client.py:139-163 | a packed message at the head of a buffer is complete, accepted and found with its fields |
| Framing.DrainPacked | lib/mc_bin_server.py:325-354 | packed requests come out as exactly those requests, in order, whatever follows them |
| Framing.DeliveredSoFar | lib/mc_bin_server.py:314-341 | after any prefix in any chunks: exactly the requests complete so far have been dispatched, and the buffer is the incomplete rest |
| Framing.AcceptedIsPackedIff | lib/mc_bin_server.py:330-337 | a frame that passes the assertions is the packing of a request if and only if extra header and key fit the body |
| Framing.KeyLengthIff | lib/mc_bin_server.py:331-337 | the key handed on has the announced length if and only if extra header and key fit the body |
| Framing.KeyCutOff | lib/mc_bin_server.py:331-337 | such a frame: a set of 8 bytes with an extra header of 8 and a key of 8 is accepted, and its key is handed on empty |
| ClientReceive.RecvMsg | lib/mc_bin_client.py:165-203 | in any pieces: the message at the head of the stream is read, and exactly its bytes are consumed |
| ClientReceive.ReceiveAt | lib/mc_bin_client.py:165-203 | of 24 bytes or more a message is read if and only if byte 0 is 0x80 or 0x81 and as many bytes follow as bytes 8-11 announce; its fields are the bytes of the header, and its body those that follow |
| ClientReceive.ReceiveResponse | lib/mc_bin_server.py:349-354 | a response is read as the server packed it, with the command and tag of its request |
| ClientReceive.CleanIff | lib/mc_bin_client.py:165-203 | a stream ends after a message if and only if it is empty, or its first message can be read and the rest ends after one |
| ClientReceive.Conversation | lib/mc_bin_client.py:128-203 | requests delivered in any chunks are answered by a stream from which the client reads exactly one message per reply, in order, to the end, whatever the replies depend on |
| ClientReceive.ReadResponses | lib/mc_bin_client.py:165-203 | the bytes queued for any requests are read as the messages of their replies |
| Sockets.Socket.RecvExactly | lib/mc_bin_client.py:195-201 | reads exactly the bytes asked for, in whatever pieces, unless the stream ends first |
| Pipeline.Client.SendItems | lib/mc_bin_client.py:760-764 | all items are sent in order, and the set of their vbuckets is returned |
| Pipeline.Client.SendNoops | lib/mc_bin_client.py:766-768 | after the items, exactly one NOOP tagged `n + 10` for every vbucket, and nothing else |
| Pipeline.OneNoopEach | lib/mc_bin_client.py:766-768 | no two of the NOOPs have the same vbucket |
| Pipeline.Client.ReadToNoop | lib/mc_bin_client.py:774-779 | reads up to the first NOOP that succeeded, or to the end if there is none |
| Pipeline.ClosingsOfReplies | lib/mc_bin_client.py:774-779 | of the responses read so far as many end a wait as there are NOOPs among them if and only if all of these succeeded |
| Pipeline.Client.ReadSets | lib/mc_bin_client.py:770-779 | ends if and only if every NOOP succeeded; all responses are read, and exactly the failed ones are kept, in order |
| Pipeline.Client.SetMulti | lib/mc_bin_client.py:741-779 | the items are sent in order and then one NOOP per vbucket; it ends if and only if the server answers every NOOP with success, and then no response stays unread and the failures are those of the answers to the items, in order |
| Pipeline.Client.ReadGets | lib/mc_bin_client.py:729-739 | raises if and only if a response is not good, at the first such one; what stays unread is what follows it |
| Pipeline.Client.GetMulti | lib/mc_bin_client.py:708-739 | raises if and only if some key is not answered with success and four bytes or more, or some NOOP fails, and leaves exactly the responses after the first of these; otherwise nothing stays unread, and every key maps to the flags in the first four bytes of its last answer, most significant first, its token, and the rest as data |
| Pipeline.CollectedLast | lib/mc_bin_client.py:730-737 | a repeated key keeps the flags, token and data of the answer to its last request |
| Pipeline.FailuresSplit | lib/mc_bin_client.py:770-779 | if the NOOPs succeed, the failures among all answers are those among the answers to the items |
| Leb128.EncodeCollectionId | lib/mc_bin_client.py:1109-1121 | the loop puts the shortest encoding of the id in front of the key |
| Leb128.DecodeCollectionId | lib/mc_bin_client.py:34-51 | the loop finds the number up to the stop byte and the rest, and rejects what the decoder rejects |
| Leb128.EncodeShape | lib/ep_mc_bin_client.py:669-681 | every byte but the last has its continue bit, and the low bits make up the id |
| Leb128.RoundTripIff | lib/mc_bin_client.py:34-51 | decoding gives back id and key if and only if the id fits one byte or the key is not empty; otherwise the input is rejected |
| Leb128.EncodeIs | lib/mc_bin_client.py:1109-1121 | an id below 128 is one byte; one below 16384 two, the low seven bits first |
| Leb128.DecodeIs | lib/mc_bin_client.py:34-51 | two bytes in front of a key are decoded so; a single byte is taken without its continue bit |
| Leb128.EncodeMinimal | lib/ep_mc_bin_client.py:669-681 | no byte string for the same number is shorter |
| Leb128.EncodeUnique | lib/ep_mc_bin_client.py:669-681 | a terminated byte string without a needless last byte is the encoding of its number |
| Leb128.PrefixFree | lib/mc_bin_client.py:1109-1121 | no encoding is the beginning of another |
| Leb128.NoStopIsRejected | lib/mc_bin_client.py:47-50 | an input without a stop byte is rejected if and only if it has two bytes or more |
| Crc32.TableIsSteps | lib/crc32.py:8-72 | every table entry is eight bitwise steps of its index |
| Crc32.TableByte | lib/crc32.py:82-84 | one table step feeds the eight bits of a byte |
| Crc32.Hash | lib/crc32.py:75-85 | the hash is bits 16 to 30 of the bitwise CRC-32 of the low bytes of the key |
| Crc32.SameBytesIffAscii | lib/crc32.py:82-84 | the low bytes of a key are its encoding if and only if the key is ASCII |
| Crc32.VbucketAgreement | lib/sdk_client3.py:1091 | for every ASCII key and every power of two, the masked hash is the client's vbucket, and below the number of vbuckets |
| Crc32.VbucketIs | lib/mc_bin_client.py:927-931 | a vbucket that is not given is bits 16 to 30 of the CRC of the encoded key, reduced to the number of vbuckets |
| Crc32.Utf8Is | lib/mc_bin_client.py:929 | the bytes of a character give back its code point (section 3 of RFC 3629) |
| Crc32.MaskedHash | lib/mc_bin_client.py:927-931 | masking with a power of two less one stays below that power |
| Crc32.HashesOfPad | lib/crc32.py:75-85 | the two hashes of the key U+0080 are 0x3fba and 0x55ad |
| Crc32.PadDisagrees | lib/sdk_client3.py:1091 | for that key, and more than one vbucket, the masked hash is not the client's vbucket |
| Crc32.AllKeysAgreeIff | lib/sdk_client3.py:1091 | the masked hash is the client's vbucket for every key if and only if there is one vbucket only |
| Crc32.ZeroIsReplaced | lib/mc_bin_client.py:927-931 | the key "a" sent to vbucket 0 of several goes to another one |
| Crc32.GivenVbucketIff | lib/mc_bin_client.py:927-931 | a given vbucket is used for every key if and only if it is positive, or it is 0 and there is one vbucket only |
| DictBackend.PushKeepsOrder | lib/mc_bin_server.py:216-217 | the queue of delayed flushes stays in time order |
| DictBackend.Backend.RunDelayed | lib/mc_bin_server.py:80-83 | exactly the due jobs run |
| DictBackend.Backend.LookUp | lib/mc_bin_server.py:112-122 | an expired entry is removed and not found |
| DictBackend.Backend.Put | lib/mc_bin_server.py:149-158 | the entry is stored with a token never used before |
| DictBackend.Backend.Extend | lib/mc_bin_server.py:247-257 | append and prepend join the data in their order, and keep flags and expiry |
| DictBackend.Backend.ProcessCommand | lib/mc_bin_server.py:76-89 | every command changes the whole state, and answers, as its specification says |
| DictBackend.ConditionalIff | lib/mc_bin_server.py:237-257 | set, append, prepend and delete with a token go through if and only if the entry found carries it, are answered with 2 if and only if it carries another one, and with 1 if and only if there is none |
| DictBackend.UnconditionalIff | lib/mc_bin_server.py:124-207 | a get answers with the entry it finds or with 1, a quiet get with nothing; an add is stored if and only if there is no entry and answered with 2 otherwise, a replace if and only if there is one and answered with 1 otherwise |
| BackendHistory.LastWrite | lib/mc_bin_server.py:124-158 | a successful write of the key, with no later one before the event |
| BackendHistory.OriginIsLast | lib/mc_bin_server.py:149-158 | an entry in the storage is the untouched one of the last successful write of its key |
| BackendHistory.ContentStored | lib/mc_bin_server.py:133-158 | what a successful write leaves is what the commands before it say |
| BackendHistory.SchedIs | lib/mc_bin_server.py:209-220 | the queue holds exactly the delayed flushes still to come |
| BackendHistory.DueStorage | lib/mc_bin_server.py:80-83 | the storage is emptied before a command if and only if a delayed flush runs then |
| BackendHistory.HitIff | lib/mc_bin_server.py:112-131 | in every run a get finds its key if and only if its last successful write has not expired, and no delete or flush, immediate or delayed, came after it |
| BackendHistory.HitIsLastWrite | lib/mc_bin_server.py:124-131 | what it finds is the token, flags and data of that write |
| BackendHistory.LifetimeIff | lib/mc_bin_server.py:149-158 | after a set, add or replace that nothing removes, a get hits if and only if less than the given seconds have passed, or 2147483648 if 0 is given |
| BackendHistory.ReadBack | lib/mc_bin_server.py:124-131 | it answers with the token of the reply to that write, and the flags and data given |
| BackendHistory.ReadBackExtended | lib/mc_bin_server.py:247-257 | after an append or prepend to it, with both data in order, its flags, and its lifetime |
| BackendHistory.ConditionalSetIff | lib/mc_bin_server.py:133-158 | in every run a set with a token is stored if and only if the last successful write of the key was answered with that token and is still there; it is answered with 2 if another one is, and with 1 if none is |
| LazyExpiry.StepAgrees | lib/mc_bin_server.py:112-158 | a command answers as with eager expiry if and only if it does not meet an expired entry past the check, and then keeps the agreement |
| LazyExpiry.RunsAgree | lib/mc_bin_server.py:76-89 | the lazy state is the eager one plus expired entries, up to the first such command |
| LazyExpiry.LazyIsEagerIff | lib/mc_bin_server.py:112-158 | all answers of a run are those of eager expiry if and only if no command of it meets an expired entry past the check |
| LazyExpiry.CheckedRunsAreEager | lib/mc_bin_server.py:124-147 | runs of get, getq, set, flush and noop cannot be told apart from eager expiry |
| LazyExpiry.StaleAdd | lib/mc_bin_server.py:197-201 | an add after an expiry is refused where eager expiry stores |
| CasTokens.StepHasShape | lib/mc_bin_server.py:237-257 | a command leaves every entry as it was, removes it, or replaces the one of its own key with a new token |
| CasTokens.RunIsDistinct | lib/mc_bin_server.py:149-158 | in every run no two entries share a token |
| CasTokens.Origin | lib/mc_bin_server.py:149-158 | every entry was stored by an earlier write of its key and has not been touched since |
| CasTokens.NoLostUpdate | lib/mc_bin_server.py:237-257 | a conditional write succeeds only on the entry its token was issued for, untouched since |
| CasTokens.OneWinnerPerToken | lib/mc_bin_server.py:237-245 | of all conditional writes of a run with one token at most one succeeds |
| Reservations.ReservationTable.IncreaseReserved | regression_automation/dynvm_server_manager.py:242-256 | the counters of all labels, or the one without label, are raised |
| Reservations.ReservationTable.DecreaseReserved | regression_automation/dynvm_server_manager.py:259-268 | they are lowered, not below 0, where they exist |
| Reservations.ReservationTable.GetReserved | regression_automation/dynvm_server_manager.py:271-296 | a counter of the labels that is not exceeded by any other of them, or 0 if none is above it; without labels the default counter |
| Reservations.ClassIsOneCounter | regression_automation/dynvm_server_manager.py:242-296 | for requests that all carry the same labels the counters act as one number |
| Reservations.WholeRequestAmount | regression_automation/dynvm_server_manager.py:776-791 | after a whole request a counter of its own is higher by the VMs created if the host lacks the label, one of the host alone is lower by them, not below 0, and every other is as it was |
| Reservations.ReservationReturnedIff | regression_automation/dynvm_server_manager.py:776-791 | the whole table is as it was if and only if nothing was created, or the host has all labels of the request and nothing is reserved under a further one |
| Allocator.StepCovers | regression_automation/dynvm_server_manager.py:361-424 | every step, a host raising or forgetting VMs included, keeps the reserved count between what requests may still ask for and that less the VMs lost; while nothing is lost the floor at 0 is never needed |
| Allocator.RaiseConservesIff | regression_automation/dynvm_server_manager.py:204-226 | a host that raises keeps the count exact if and only if the VMs it had created are as many as it restores, or, on a given host, no other request has VMs to come |
| Allocator.ReservationsCovered | regression_automation/dynvm_server_manager.py:361-424 | so in every interleaving; until a VM is lost the reserved count is exactly the sum of what requests may still ask for |
| Allocator.NothingLeaks | regression_automation/dynvm_server_manager.py:388-424 | in every interleaving, whatever the hosts did, nothing is reserved when all requests are over |
| Allocator.ReservedStep | regression_automation/dynvm_server_manager.py:242-268 | every step raises the counter by what is reserved or restored, or lowers it by what is taken off, not below 0 |
| Allocator.VmsAccounted | regression_automation/dynvm_server_manager.py:361-424 | in every interleaving each VM created is counted by its request or lost, and is still there or has been released |
| Allocator.StepWithinCapacity | regression_automation/dynvm_server_manager.py:388-394 | every step keeps VMs made and VMs that admitted requests may still get within capacity, but for VMs on given hosts and lost ones |
| Allocator.CapacitySafe | regression_automation/dynvm_server_manager.py:388-424 | in every interleaving with up-to-date decisions VMs made exceed capacity by at most those made on given hosts and those lost |
| Allocator.ProvisionedIff | regression_automation/dynvm_server_manager.py:361-424 | some interleaving with up-to-date decisions, at most `given` VMs made on given hosts and at most `lost` lost has `n` VMs at a time if and only if `n` is at most capacity, `given` and `lost` together, the last only if there is any capacity |
| Allocator.NeverOvercommittedIff | regression_automation/dynvm_server_manager.py:361-424 | all of these interleavings stay within capacity if and only if `given` is 0, and `lost` or the capacity is 0 |
| Allocator.FillClaims | regression_automation/dynvm_server_manager.py:399-411 | from every reachable state all that admitted requests may still get can be created |
| Allocator.DecisionSafeIff | regression_automation/dynvm_server_manager.py:388-394 | in every reachable state with so many VMs made, a decision on an availability read before keeps within capacity, if and only if that availability is not more than what is left |
| Allocator.StaleReadOvercommits | regression_automation/dynvm_server_manager.py:388-394 | with the gap between reading availability and deciding, two requests get two VMs out of one |
| Placement.NamesDistinct | regression_automation/dynvm_server_manager.py:233-239 | generated names are pairwise distinct |
| Placement.NamesAre | regression_automation/dynvm_server_manager.py:233-239 | one VM gets the name itself, several get their numbers from 1 on behind it, in decimal without leading zeros |
| Placement.ReachableOne | regression_automation/dynvm_server_manager.py:1166-1181 | a host is taken into account if and only if it answers, and no size of a VM is 0 |
| Placement.ReachableJoin | regression_automation/dynvm_server_manager.py:1166-1181 | and it is so whatever hosts stand before and after it |
| Placement.AvailableIffFits | regression_automation/dynvm_server_manager.py:1211-1240 | a number of VMs is at most the available count if and only if it fits free CPU, memory, the configured maximum, and the disk with one more base copy and a tenth of the free bytes to spare |
| Placement.GetAllAvailableCount | regression_automation/dynvm_server_manager.py:1152-1192 | one count per host that answers, each the largest number that fits, and their sum; hosts that raise, by a size of 0 too, are skipped |
| Placement.AskHost | regression_automation/dynvm_server_manager.py:399-422 | a host is asked for what is needed up to its room; what it creates and what is counted of it are those of its answer, nothing being counted if it raises |
| Placement.NextTurn | regression_automation/dynvm_server_manager.py:419-422 | taking away what is counted keeps the account of names counted and names needed, and of the hosts asked |
| Placement.Place | regression_automation/dynvm_server_manager.py:396-422 | every host is asked for as many of the names still needed as it has room for, no name is counted twice, counted and needed are the names asked for; without failures as many are placed as there is room for |
| Placement.Serve | regression_automation/dynvm_server_manager.py:363-424 | refused if and only if the count exceeds the capacity of the hosts that answer less what others have reserved; otherwise what every host creates fits it, and without failures all are placed up to that capacity |
| Placement.SameCapacity | regression_automation/dynvm_server_manager.py:1185-1192 | the sum of the counts is the sum of the largest numbers that fit |
| Placement.TwiceAfterLoss | regression_automation/dynvm_server_manager.py:412-422 | if a host creates VMs after one that has left some uncounted, the names can be picked so that one is created twice |
| Placement.NamesCreatedOnceIff | regression_automation/dynvm_server_manager.py:396-422 | with hosts that behave a given way no name is created twice, whatever names are picked, if and only if no host that leaves a VM uncounted is followed by one that creates some |
| SharedHosts.StepSafe | regression_automation/dynvm_server_manager.py:399-424 | no step but an admission takes away the room that every host has for all that may still be created on it |
| SharedHosts.Fill | regression_automation/dynvm_server_manager.py:399-422 | all that may still be created on a host is created there in some interleaving |
| SharedHosts.SafeIff | regression_automation/dynvm_server_manager.py:399-422 | however the requests under way go on no host is overfilled, if and only if every host has room for all that may still be created on it |
| SharedHosts.ReadSafeIff | regression_automation/dynvm_server_manager.py:388-424 | a request admitted on counts read now overfills no host, however all go on and whatever is reserved, if and only if on every host nothing of others is to come or there is room for that and the whole request |
| SharedHosts.RunsFit | regression_automation/dynvm_server_manager.py:388-424 | in every interleaving with admissions at such moments only, no host is ever overfilled |
| SharedHosts.RoomsAccounted | regression_automation/dynvm_server_manager.py:399-411 | in every interleaving the room of a host is what it was, less the VMs created on it, and those released |
| SharedHosts.NeedAccounted | regression_automation/dynvm_server_manager.py:419-422 | and a request needs what it needed, less what hosts have answered for |
| SharedHosts.TwoOnOneHost | regression_automation/dynvm_server_manager.py:388-402 | two admitted requests that both take the only place on the first host |
| BackupTree.ConstructTree | lib/parse_cbbackupmgr_info.py:154-173 | the answer is taken from the tree of all rows, inserted in order |
| BackupTree.ListingInsert | lib/parse_cbbackupmgr_info.py:121-152 | an inserted row comes last in the listing of the tree |
| BackupTree.ListingOfReplay | lib/parse_cbbackupmgr_info.py:121-152 | the tree built from any rows is well formed, and listing it gives exactly those rows |
| BackupTree.PushDown | lib/parse_cbbackupmgr_info.py:138-148 | rows deeper than the last node all go below it |
| BackupTree.Rebuild | lib/parse_cbbackupmgr_info.py:121-152 | every well-formed tree, levels skipped or not, is rebuilt from its listing |
| BackupTree.AnswerKeepsAllIff | lib/parse_cbbackupmgr_info.py:173 | the answer holds every row if and only if there is no archive row, or the only one is the first row |
| BackupTree.AnswerIs | lib/parse_cbbackupmgr_info.py:154-173 | the answer has the attributes of the first archive row, and lists exactly the rows from there to the next archive row |
| BackupTree.AnswerIsAll | lib/parse_cbbackupmgr_info.py:173 | without any archive row it is the tree of all rows |
| AsciiReader.RecvMsg | lib/mc_ascii_client.py:49-60 | the first line of the stream is read, and nothing after its end |
| AsciiReader.RecvData | lib/mc_ascii_client.py:62-73 | exactly the announced bytes and the line end after them are consumed |
| AsciiReader.DoRetrieve | lib/mc_ascii_client.py:80-96 | in any pieces: the reply at the head of the stream is read, and exactly its bytes are consumed |
| AsciiReader.ReadItem | lib/mc_ascii_client.py:86-94 | a printed value is read back under its key, whatever its data |
| AsciiReader.RoundTripIff | lib/mc_ascii_client.py:80-96 | a printed reply is read back, and nothing after it is touched, if and only if every key is free of spaces and line ends |
| AsciiReader.KeysReadAreClean | lib/mc_ascii_client.py:86-93 | whatever is read, no key holds a space or a line end |
| AsciiReader.LastLine | lib/mc_ascii_client.py:85-96 | a line whose first word is not VALUE ends the reply, and is the error unless it is END |
| AsciiReader.ValueLineRead | lib/mc_ascii_client.py:86-93 | a VALUE line needs four more words of which the last three are numbers, or it raises; it takes as many characters as the fourth says, and two more, and stores flags modulo 2^32, token and data under the second |
| AsciiReader.NoLine | lib/mc_ascii_client.py:49-60 | a stream without a line end is read to its end |
| JenkinsLog.LastPart | regression_automation/jenkins_log_parser.py:219-221 | the last 1000 characters, or all of them |
| JenkinsLog.CompleteIff | regression_automation/jenkins_log_parser.py:183-192 | a line completes a test if and only if it starts with "Ran 1 test in ", digits, a point, digits and "s" |
| JenkinsLog.AbortIff | regression_automation/jenkins_log_parser.py:194-202 | it aborts the build if and only if somewhere in it the message of a timeout stands, with a number and a word |
| JenkinsLog.ContainsIff | regression_automation/jenkins_log_parser.py:157-160 | a text is looked for anywhere in the line |
| JenkinsLog.KindIs | regression_automation/jenkins_log_parser.py:150-202 | the order in which a line is looked at: white space, end of the daemon, start, completion, abortion |
| JenkinsLog.RuleIs | regression_automation/jenkins_log_parser.py:204-216 | exactly 70 equals signs open a report, and exactly 70 dashes end a part of it |
| JenkinsLog.JobLog.ProcessTestLine | regression_automation/jenkins_log_parser.py:150-222 | a line changes the whole state as its kind says |
| JenkinsLog.JobLog.ProcessReportLine | regression_automation/jenkins_log_parser.py:211-222 | inside a report: lines are kept, lines of dashes move on, and a missing backtrace raises |
| JenkinsLog.JobLog.ProcessTestCases | regression_automation/jenkins_log_parser.py:225-230 | all lines are processed, up to the end of the daemon or an exception |
| JenkinsLog.BacktraceIff | regression_automation/jenkins_log_parser.py:204-222 | for every log: the backtrace is there whenever a report is open if and only if no line adds another entry while one is open |
| JenkinsLog.BackedUpTo | regression_automation/jenkins_log_parser.py:211-222 | up to the first such line the backtrace is there, and no line raises |
| JenkinsLog.StaysCut | regression_automation/jenkins_log_parser.py:150-222 | after such a line the report stays open without its backtrace as long as the log is read |
| JenkinsLog.RaisesIff | regression_automation/jenkins_log_parser.py:204-222 | for every log: it raises if and only if some line of an open report needs a backtrace that is not there, and if and only if some line needs it after such a line |
| JenkinsLog.ReportRun | regression_automation/jenkins_log_parser.py:204-222 | a report makes one entry, with the last 1000 characters of its lines that are neither blank nor dashes |
| JenkinsLog.TestRun | regression_automation/jenkins_log_parser.py:163-221 | the lines of one test add exactly its entry and come back to rest |
| JenkinsLog.LogRun | regression_automation/jenkins_log_parser.py:150-222 | a log of whole tests has exactly one entry per test, in order, a pass or a failure with its report |
| JenkinsLog.AbortRun | regression_automation/jenkins_log_parser.py:194-202 | an aborted test makes one entry that was not run, and aborts the build |
| JenkinsLog.CompleteAfterAbort | regression_automation/jenkins_log_parser.py:183-192 | a test that completes after it without a report has no entry |
| JenkinsLog.DaemonEndRun | regression_automation/jenkins_log_parser.py:157-160 | no line after the end of the daemon changes anything |
| JenkinsLog.OpenReportRaises | regression_automation/jenkins_log_parser.py:184-213 | after a report that was never closed, the second test's text raises |
| JenkinsLog.ReportCutShort | regression_automation/jenkins_log_parser.py:184-213 | such a log, line by line |
| Parameters.FirstMatch | TestInput.py:176 | the leftmost match of the pattern |
| Parameters.MatchAtIff | TestInput.py:176 | the pattern matches where an optional comma, a key without commas and equals signs, and an equals sign stand |
| Parameters.KeyMatches | TestInput.py:176 | the first match after a text without '=' is the key that follows it, found whole |
| Parameters.PairsOfPrinted | TestInput.py:176-177 | splitting printed parameters gives the keys and the texts of their values |
| Parameters.RoundTrip | TestInput.py:176-197 | printed parameters with distinct keys are found again, each with its one item or its list of items |
| Parameters.PairsAreTrimmed | TestInput.py:176-177 | whatever the argument, keys and texts have no white space at their ends |
| Parameters.ItemsAreTrimmed | TestInput.py:188-197 | a value is one item if and only if its text has no comma, and no item has white space at its ends |
| Text.StripIs | TestInput.py:176 | stripping removes the white space at both ends, and nothing else |
| Text.SpacesAre | TestInput.py:176 | white space is the blank, and the characters from tab to carriage return |
| Text.JoinSplit | TestInput.py:183-184 | joining undoes splitting |
| Parameters.ParseBuckets | TestInput.py:182-186 | the strictly ascending list of the union of the inclusive ranges, unless a number cannot be read |
| Parameters.BucketsAre | TestInput.py:182-186 | for any pieces: it raises if and only if some bound is no number, and otherwise gives the numbers from the first bound to the last of some piece, both included |
| Parameters.BoundsOfJoin | TestInput.py:184-185 | the bounds of a piece are the numbers before its first and after its last dash |
| Decimal.ParsesIff | TestInput.py:185 | a text is a number if and only if it is one digit or more |
| Decimal.ParseIsText | TestInput.py:185 | leading zeros do not count, and without them a number has one text |
| Parameters.ParseParams | TestInput.py:176-197 | one value per key, raising if and only if a vbucket number cannot be read |
| Parameters.BucketsOfRanges | TestInput.py:182-186 | the buckets of printed ranges are exactly the numbers inside them |
| Parameters.RangesRoundTrip | TestInput.py:179-186 | ranges printed under "vbuckets" among other parameters are found again |

## Left out

- LoadGenerator.LoadThread.Run: the time limit, the rate limit, pause, stop, sleeping and reconnecting are not modelled, as they touch neither keys nor values; the run ends with its list of outcomes. Threads some of whose turns are not defined (`RunsAreDefinedIff`), and those that never leave an operation that is neither a set nor a get with a share of 0, are excluded.
- LoadGenerator.LoadThread.Backoff: states the range of the counter only, as nothing but a sleep depends on it.
- The contents of generated identifiers (`uuid3`) are a parameter; the length of 36 characters is asked for only where sizes are compared. The values of all threads are kept apart by their key prefix, so one thread is modelled. The queue of `LoadRunner` and `lib/load_runner.py:13-26` are not modelled.
- The greatest common divisor of the standard library is modelled as Euclid's algorithm.
- Framing.Channel.HandleRead: the channel is the one that `lib/tap.py:23-94` makes of it; its own `processCommand` takes one argument less than `handle_read` passes (`lib/mc_bin_server.py:322`, `lib/mc_bin_server.py:341`), so it raises for every request. The handler replies by a function of all commands of its own connection so far; what other connections do to it is not seen, and its exceptions are left out. The length written for the extra header of a deletion with metadata, which the caller of `_sendMsg` may override, is taken to be the real one. The TAP call builder, whose extra header the assertion in `handle_read` refuses, is left out.
- Framing.Deliverable: a request must also have the extra header length that the server expects for its command.
- The mixing of text and bytes in the Python sources: everything on the wire is bytes, except in `AsciiReader`, which works on characters.
- ClientReceive.RecvMsg: alternative framing raises before its body is read, since its format has one field more than is unpacked (`lib/mc_bin_client.py:188-190`).
- Pipeline.Client.GetMulti: the order in which a set of vbuckets is iterated is arbitrary, and opaque ids from 2^32 on are not cut. Scopes and collections of the keys are left out. A client that waits for a response that will not come is modelled as not ending.
- Leb128.EncodeCollectionId: the bytes before `.decode()` at `lib/mc_bin_client.py:1121`, which cannot carry an id of several bytes; looking the id up by name is left out.
- Crc32.Hash: keys are strings of characters; the decoding of byte keys is left out.
- DictBackend.Backend.ProcessCommand: the clock is read once per command. Increment, decrement, version and SASL authentication are left out. Holds on deleted keys are left out because they are never set: a delete that passes its check fails on its empty header, after removing the entry.
- DictBackend.Backend.Put: tokens are fresh numbers, where the server uses `id()`, which may be used again after an entry is dropped.
- DictBackend.PushKeepsOrder: the heap is a sorted list. Flushes due at the same time are not told apart, as all of them do the same; the program would compare two functions there, which may raise, and that is not modelled.
- Reservations.ReservationReturnedIff: assumes a request whose labels, and a host whose labels, do not repeat.
- Allocator.CapacitySafe: one class of labels, and availability is the room of all hosts together. Requests for a given host skip admission, though their host's configured maximum is checked first (`regression_automation/dynvm_server_manager.py:186`); that check is not modelled, so the VMs they get are only counted. VMs listed with an address and as an error at once are left out. The deletion of a VM that fails its check (`regression_automation/dynvm_server_manager.py:204-226`), which changes a dictionary that is being iterated over, is seen as its restored reservation, the exception and a release.
- Allocator.StepWithinCapacity: speaks of the total over all hosts; single hosts are the subject of `SharedHosts`.
- SharedHosts.ReadSafeIff: the room of a host is what its resources allow when nothing but these requests uses it. The check of the configured maximum before and after a creation (`regression_automation/dynvm_server_manager.py:186`, `regression_automation/dynvm_server_manager.py:210`), requests for a given host, and counts read before the admission are left out.
- Placement.GetAllAvailableCount: divisions of floating-point sizes are floor divisions of integers. Hypervisor sessions, their sizes and their failures are parameters. Negative free CPUs, memory and disk space are left out.
- Placement.Serve: what others have reserved is a parameter; `all_or_none` and the format of the answer are left out.
- BackupTree.ConstructTree: trees are values, so updating nested dictionaries in place and aliasing are not captured; a row's own columns and its lists of children are kept apart, where the program stores both in one dictionary. Cutting the table into rows and columns (`lib/parse_cbbackupmgr_info.py:3-118`) is left out, as it only splits and converts text.
- AsciiReader.DoRetrieve: a wait that times out is the end of the stream; signs, spaces and underscores that Python accepts in a number are read as malformed. The other commands of the ASCII client read one line each and are left out.
- JenkinsLog.JobLog.ProcessTestLine: the timestamps and the printed messages are left out. Digits and white space are those of ASCII. The time a test took is not kept.
- JenkinsLog.JobLog.ProcessTestCases: whole lines are fed in. The chunks of `regression_automation/jenkins_log_parser.py:232-240` are left out: a line cut by a chunk is processed twice.
- JenkinsLog.LogRun: tests that are aborted, and logs that end with the daemon, are the subject of `AbortRun`, `CompleteAfterAbort` and `DaemonEndRun`.
- Parameters.ParseParams: the other options, the ini file and its servers are left out. White space is that of ASCII, and numbers are unsigned decimals.
- Sockets, threads, SSH, REST, XenAPI, the Couchbase SDKs, cloud provisioning, installers and reports are wrappers around systems that cannot be seen here.
