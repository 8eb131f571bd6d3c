# FF proxy: a verified model

FF carries HTTP requests over UDP. A client cuts a request into datagrams of at most 1300 bytes and
sends them without waiting for an answer. The proxy collects the datagrams of each request id in a
hash table, and hands a complete request to a worker thread that decrypts it, reads the options
inside it, checks its timestamp and sends the HTTP message on. A clean-up thread removes requests
that stay incomplete for sixty seconds.

This project models that path from the client's message to the worker's send step, and proves:

- **Delivery.** For every run of the proxy, with any interleaving of other traffic, worker exits and
  clean-up steps: a stream that arrives in order is dispatched exactly once and byte for byte, unless
  a clean-up pass noted it while it was incomplete and dropped it before its last packet, and then
  never (`Delivery.DeliveredIffNotSwept`); packets of other sources with its id, while it is under
  way, change nothing (`Delivery.DeliveredAmongOthers`). The worker then sends exactly the client's
  HTTP message, over the transport the client asked for, to the host the message names, if and only
  if it names one, the clocks agree and the payload was not too long (`Client.EndToEnd`). What is too
  long for 16 bits is never sent, whatever part of it arrives (`LongPayloads.TooLongIsNeverSent`).
- **Refinement.** The mutable code (pointer trie, node lists, request objects, iterator, packet
  handler, clean-up thread), driven by any sequence of inputs, hands out exactly what the transition
  system dispatches (`ServerRuns.Serve`). With the workers' own code in the loop it sends exactly what
  the transition system and the meaning of a worker say: a client's message at the turn of its worker
  (`Sending.ClientIsServed`), and raw HTTP at once, as received, if and only if no key is configured
  and it names its host (`Sending.ServeAndSend`). What the clean-up thread notes it drops, in order
  and whatever comes in between (`ServerRuns.DroppedInOrder`, `ServerRuns.ExpiredIsDropped`), and a
  pass that nothing disturbs removes exactly the requests that have been receiving for sixty seconds
  (`ServerRuns.PassOverInputs`). The hash table on its own is a finite map on every sequence of calls
  (`TableRuns.RunTrace`), keeps its trie, its chains and its list in agreement, and leaves no empty
  bucket array on the path of an id it removes.
- **Safety over runs.** In every run, without any condition on what arrives, the chunks of an entry and
  of every dispatched request are one by one the payload parts of received datagrams with its id and
  its source (`Safety.Provenance`), and its accounts are in order (`Safety.RunSane`); no more is
  dispatched than arrived (`Safety.NothingFromNothing`); ids do not interfere with each other; an entry
  without a worker is still receiving (`Safety.IdleEntryIsPartial`). What was built from datagrams in
  range tiles its payload in arrival order, and chunks lie where they were announced if and only if
  those datagrams are in range (`Safety.EntryPlacedIffInRange`, `Safety.PlacedIffInRange`).
- **The send gate**, as an if-and-only-if over the whole worker (`Worker.SendGate`), and over runs
  (`WorkerThread.GateOverRuns`).
- **Codecs.** The option list parser accepts exactly what the writer writes (`Tlv.ScanExact`), the
  packet parser exactly the packets that are put together of the right parts
  (`Reassembly.AcceptedIff`); the three packetisers are proved against one definition of the stream.
  The header, the options and the text encoding are pinned byte by byte (`Requests.HeaderLayout`,
  `Client.PayloadOnTheWire`, `Client.OptionsOnTheWire`, `Packetiser.TextIsEncoded`), and the host
  scanner on whole messages (`HostLines.HostFound`).
- **Locking.** Under every schedule of the threads' small steps, the locked table is linearizable: its
  history is legal, places every operation between its beginning and its end, and so keeps the order
  of operations that do not overlap (`Locking.Linearizable`, `Locking.PlaceInHistory`,
  `Locking.HistoryKeepsOrder`). These histories are those of the table's own code
  (`LockedTable.PerformSchedule`), and an iteration sees one table from its start to its end
  (`Locking.IterationKeepsTable`), after which its thread removes exactly what was stale in it
  (`Locking.PassIsCarriedOut`). Nobody stays inside the mutex (`Locking.NobodyStaysInside`).

Files follow the program: `Bytes`, `Tlv`, `Requests`, `Tiling`, `Reassembly` (the wire format and the
parser), `Texts`, `Packetiser`, `ClientPayload`, `Client`, `Tables`, `HashTable`, `TableRuns`, `Locking`,
`LockedTable`, `Proxy`, `Safety`, `Delivery`, `LongPayloads` (the proxy as a transition system on values),
`ProxyServer`, `ServerRuns`, `Sending` (the same as mutable code), `Worker`, `WorkerThread`,
`HostScanner`, `HostLines`.

## How the source is read

The model follows the code where the code and its comments or apparent intent differ. Each of these
is a statement in the model:

- The overlap test compares once strictly and once not (src/parser.c:222), so a chunk that ends
  where a stored chunk starts is refused. A request therefore completes exactly when its chunks
  arrive in order (`Reassembly.CompletesIffInOrder`, `Reassembly.ReverseOrderRefused`).
- The bounds test adds in 32 bits and a payload node keeps its offset in 16 bits. A chunk is stored
  where it was announced exactly when the announced offset is below 65536
  (`Reassembly.StoredWhereAnnounced`, `Safety.EntryPlacedIffInRange`, `Safety.PlacedIffInRange`), and
  there is a run that dispatches a request with a chunk outside its payload
  (`Safety.OutsideThePayload`).
- The C client announces the length of a payload in full and counts what it sends in 16 bits
  (client/c/client.c:189-242); its encryption reads a node's length in 16 bits too. A payload of 65536
  bytes or more is never dispatched, or its worker sends nothing (`LongPayloads.TooLongIsNeverSent`).
- The source check compares sizeof(struct sockaddr), sixteen bytes (src/server.c:157-161). Of an IPv6
  address these are the port and the first half of the host, so two hosts can feed one request
  (`Proxy.ForeignPacketDropsOut`, `Delivery.TwoHostsOneRequest`).
- The backward scans for the timestamp and HTTPS options (src/server.c:262-288, src/http.c:25-38)
  say that encrypted options take precedence; the lowest index wins, which is the outer list
  (`Worker.OuterBeforeInner`, `Worker.OuterDecidesTransport`, `Worker.ClearOptionWins`).
- The search for the last node in `ff_client_request_add_payload` never runs, so it appends exactly
  when at most one node is there, which is how the client uses it (`ClientPayload.PayloadList.Add`).
- `ff_client_read_payload_from_file` copies every read to the front of its buffer, so a message is read
  correctly exactly if one read of at most 1024 bytes is enough
  (`ClientPayload.ReadsRightIffOneRead`).
- The Python client announces the length of a text payload in characters and sends its bytes
  (`Packetiser.AnnouncedRightIffAscii`).
- The raw HTTP test stops at the first method name longer than the packet instead of skipping it
  (src/parser.c:42-67), so a packet that starts with a method name is recognised exactly if no name up
  to that one is longer than the packet, and PUT alone is not (`Requests.RawIffLongEnough`,
  `Requests.PutAloneIsNotRaw`).
- The clean-up pass removes by the id stored in the request, not by the key it is filed under. That
  is exact on tables whose keys are the stored ids, which every reachable table is
  (`Proxy.SweepExact`, `Proxy.SweepNeedsKeys`, `Proxy.PassExact`).
- The clean-up pass gives the mutex back between noting and removing (src/server.c:317-322), and other
  events may come in between: `Proxy.Note` and `Proxy.Drop` are separate events.
- Removing an id that is not stored creates the bucket arrays on its path and leaves them there
  (src/hash_table.c:170-175). Its path is then clean exactly if its last array was in use
  (`HashTables.HashTable.Remove`, `HashTables.HashTable.CleanIffLeafInUse`), which on an empty table it
  is not (`TableRuns.RemoveLeavesArrays`).
- `SENT` and `SENDING_FAILED` have one value in src/request.h:12-26 and are one constructor here.

Assumptions that appear as parameters or preconditions:

- A worker's processing is one step, taken at its turn, together with its removal of the entry; the
  worker of a raw packet takes its turn at once. `Sending.Careful` says when that is all there is to
  it: no packet of a request arrives while its worker runs, and the packets the request was built from
  were in range. Only `Sending.ServeAndSend` needs it. No result about the transition system does.
- The id of a noted request is read when it is noted. The code reads it when it removes, from an
  object that a worker may have freed by then.
- The id is read from the receive buffer before any size check (src/parser.c:27-40), so a datagram
  is a buffer of at least ten bytes and the number of bytes received.
- Clocks, random ids, salts and initialisation vectors are parameters. Ciphers and key derivation
  are function parameters; `Client.Sound` states what is used of them (decryption undoes encryption,
  lengths are kept, tags have sixteen bytes).
- The host scanner reads one byte behind the message; that byte is the parameter `beyond`.

## Model

| member | source | states |
|---|---|---|
| `Bytes.FromToBigEndian` | src/os/linux_endian.h:5-6 | Reading a number of at most k bytes back from its network-order bytes gives the number. |
| `Bytes.HtonllWritesNetworkOrder` | src/os/linux_endian.h:5 | On hosts of either byte order, storing the converted 64-bit number puts its big-endian bytes in memory. |
| `Bytes.HtonllIsAnInvolution` | src/os/linux_endian.h:6 | Converting twice is the identity, so the one macro also converts back. |
| `Tlv.ScanWritten` | client/c/client.c:244-259 | Whatever follows it, a written option list is read back as the same options, the same terminator kind and the number of bytes written. |
| `Tlv.ScanSound` | src/parser.c:256-365 | What the scan consumes is the serialisation of what it returns, with no terminator among the options and fewer than twenty in all. |
| `Tlv.ScanExact` | src/parser.c:256-365 | The scan returns a given result if and only if the input starts with the serialisation of it; so the encoding is unambiguous and the rejected inputs are exactly the others. |
| `Tlv.ScanPadding` | src/parser.c:256-365 | Bytes behind an accepted list never change the result. |
| `Tlv.WriteOptions` | client/c/client.c:244-259 | The loop writes exactly the serialised list into the buffer, touches nothing else and returns its length. |
| `Tlv.OptionLayout` | client/c/client.c:244-259 | An option on the wire is its kind, the two bytes of its length with the high one first, and its value. |
| `Requests.HeaderRoundTrip` | src/request.h:90-97 | Every header whose fields fit their widths is read back field by field from its twenty bytes. |
| `Requests.DecodedFits` | src/request.h:90-97 | Any twenty bytes decode to fields within their widths. |
| `Requests.HeaderDecoded` | src/request.h:90-97 | Any twenty bytes are the encoding of the fields they decode to. |
| `Requests.HeaderLayout` | src/request.h:90-97 | Where each byte of each header field lies, by arithmetic on the twenty bytes: version, id, total length, chunk offset and chunk length in this order, high bytes first. |
| `Requests.DetectRawHttp` | src/parser.c:42-67 | The loop over the method names answers true exactly when the packet starts with a name and no name up to it is longer than the packet. |
| `Requests.RawIffLongEnough` | src/parser.c:42-67 | A packet that starts with a method name is taken for raw HTTP if and only if it is no shorter than every name up to that one in the table. |
| `Requests.RawByName` | src/parser.c:42-67 | A packet of at least seven bytes is raw HTTP if and only if it starts with one of the nine method names, given by their bytes. |
| `Requests.PutAloneIsNotRaw` | src/parser.c:42-67 | The three bytes PUT start with a method name and are not taken for raw HTTP. |
| `Requests.ZeroIsNotRaw` | src/parser.c:42-67 | A packet that starts with a zero byte, as every version 1 packet does, is never taken for raw HTTP. |
| `Requests.Request.constructor` | src/request.c:71-78 | A new request has no options, no payload and is receiving. |
| `Requests.Request.ParseOptions` | src/parser.c:256-365 | All or nothing: on success exactly the scanned options are appended and the number of bytes returned; on failure the request is unchanged and 0 is returned. |
| `Requests.Request.FindOverlap` | src/parser.c:215-232 | The walk along the stored chunks finds an overlap if and only if there is one. |
| `Requests.Request.ParseDataChunk` | src/parser.c:104-254 | The in-place parser of a data packet turns the object into the value the specification assigns, for every packet and every failure path. |
| `Requests.Request.AddChunk` | src/parser.c:210-249 | Appends the chunk, counts its bytes and completes the request on the last one, or fails it on an overlap. |
| `Requests.Request.Parse` | src/parser.c:13-102 | Raw HTTP, first packets and later packets together refine the value-level parser. |
| `Tiling.CoveredCount` | src/parser.c:210-249 | Chunks that passed the overlap test cover as many positions as the sum of their lengths. |
| `Tiling.ByteAccounting` | src/parser.c:210-249 | The received count never exceeds the total, and equals it if and only if every position of the payload is covered. |
| `Tiling.CompleteIsTiled` | src/parser.c:210-249 | A complete set of chunks lies in order of arrival without gaps. |
| `Tiling.OverlayOfWholeTiling` | src/request.c:105-131 | Copying the chunks of a tiling by offset, over whatever the buffer held, is concatenating them. |
| `Reassembly.StoredWhereAnnounced` | src/parser.c:153-203 | An accepted chunk is stored at its announced offset and inside the payload if and only if that offset is below 65536. |
| `Reassembly.OffsetOutOfRange` | src/parser.c:153-203 | A packet that announces offset 65536 and is stored at offset 0. |
| `Reassembly.DataChunkCounts` | src/parser.c:104-254 | A data packet with any offset either fails the request or keeps its accounts: disjoint, loaded chunks whose sum is the count, fewer than twenty options, one chunk more. |
| `Reassembly.DataChunkKeeps` | src/parser.c:104-254 | A data packet in range either fails the request or keeps the full accounting: chunks inside the payload too, and complete if and only if the count is the total, even if the request was complete before. |
| `Reassembly.ParseChunkCounts` | src/parser.c:13-91 | The first of these for any packet, into a new request or one under way. |
| `Reassembly.ParseChunkKeeps` | src/parser.c:13-91 | The second for any packet in range. |
| `Reassembly.AcceptedIff` | src/parser.c:104-254 | A data packet is accepted if and only if it is a header that agrees with the request and passes the wrapped bounds test, an option list or bare terminator as its offset demands, and enough bytes that overlap nothing; and then exactly these parts are stored. |
| `Reassembly.ReceivedIsTiled` | src/parser.c:210-249 | A request that reaches the received state tiles its payload in order of arrival. |
| `Reassembly.CompletesIffInOrder` | src/parser.c:210-249 | For any chunk sequence: passing every check with a full count is the same as being an in-order tiling. |
| `Reassembly.ReverseOrderRefused` | src/parser.c:210-232 | A chunk that ends where a stored one starts is refused although the two share no byte. |
| `Reassembly.Vectorise` | src/request.c:105-131 | One node stays as it is; several are copied by offset into one uninitialised buffer, which on a tiling is their concatenation. |
| `Reassembly.FlattenedBody` | src/request.c:105-131 | A received request flattens to one node with all its bytes, in order. |
| `Reassembly.DataChunkPadding` | src/parser.c:104-254 | Bytes behind an accepted data packet change nothing in the request but the unused tail of the stored node. |
| `Reassembly.ParseChunkPadding` | src/parser.c:13-254 | The same for the whole parser, so a client that sends its whole buffer is understood like one that sends the used part. |
| `Reassembly.StripKeepsBytes` | src/request.c:105-131 | Requests that differ in such tails only have the same payload bytes. |
| `Packetiser.WriteHeader` | client/c/client.c:204-208 | The header fields known in advance, in network order at the front of the buffer, nothing else touched. |
| `Packetiser.FillPacket` | client/c/client.c:200-235 | One packet is header, option section, as much payload as fits and zeros, although the chunk length is written last. |
| `Packetiser.PacketiseC` | client/c/client.c:189-242 | The loop produces the defined stream of the payload cut to its 16-bit length, for every payload and option list that fits. |
| `Packetiser.PacketisePython` | client/python/ff_client/ff_client.py:150-202 | The loop produces the defined stream of the encoded payload, announced with the length of the payload as given, for bytes and text; `Packetiser.TextIsEncoded` says what the encoded payload is. |
| `Packetiser.TextIsEncoded` | client/python/ff_client/ff_client.py:153-156 | The bytes that are sent for a text decode to that text, and ASCII text is sent as it is. |
| `Texts.DecodeEncoded` | client/python/ff_client/ff_client.py:156 | For every text, a UTF-8 decoder that goes by the lead byte gives the text back from its encoding. |
| `Texts.Utf8Layout` | client/python/ff_client/ff_client.py:156 | The four layouts of UTF-8, by the range of the character: the lead byte, the continuation bytes, and which six bits are where. |
| `Texts.AsciiIsItself` | client/python/ff_client/ff_client.py:156 | Text below 0x80 is encoded as itself, character by character. |
| `Packetiser.AnnouncedRightIffAscii` | client/python/ff_client/ff_client.py:153-176 | What is announced is what is sent if and only if the payload is bytes or ASCII text. |
| `Packetiser.PacketiseNode` | client/node/src/client.ts:257-329 | It refuses exactly the ids that are not eight bytes long and otherwise produces the defined stream. |
| `Packetiser.ClientsAgree` | client/node/src/client.ts:257-329 | The three clients produce the same packets for the same request below 65536 bytes. |
| `Packetiser.CountIs` | client/c/client.c:198-237 | The number of packets is the one k whose cuts bracket the payload length. |
| `Packetiser.PacketsFitTheArray` | client/c/client.c:189-198 | A payload of the 16-bit length takes at most 53 packets, whose records fit the memory reserved for 1024 pointers. |
| `HashTables.HashTable.constructor` | src/hash_table.c:18-40 | A new table is empty and well linked. |
| `HashTables.HashTable.FindBucket` | src/hash_table.c:42-78 | Descending without creating finds the leaf array of an id if and only if it is there, and changes nothing. |
| `HashTables.HashTable.CreateBucket` | src/hash_table.c:42-78 | Descending with creation returns the leaf array and the arrays passed on the way, keeps all existing ones and creates nothing if the leaf was there. |
| `HashTables.HashTable.FindInChain` | src/hash_table.c:93-101 | The walk along a chain returns the node with the id and its predecessor, or the last node if there is none. |
| `HashTables.HashTable.Get` | src/hash_table.c:80-107 | Returns what the table holds for the id, for colliding ids too. |
| `HashTables.HashTable.Put` | src/hash_table.c:109-163 | Replaces in place or appends at the end of the insertion order; every other entry and its place stays; trie, chains, list and length stay in agreement. |
| `HashTables.HashTable.LinkInChain` | src/hash_table.c:132-147 | Adding a node at the end of its chain keeps every chain and every trie cell right. |
| `HashTables.HashTable.AppendToList` | src/hash_table.c:149-159 | Adding it at the end of the list restores the whole invariant. |
| `HashTables.HashTable.UnlinkFromChain` | src/hash_table.c:176-201 | Taking a node out at the front, in the middle or at the end of a chain leaves every other chain as it was. |
| `HashTables.HashTable.UnlinkFromList` | src/hash_table.c:203-222 | Taking it out of the list fixes both directions, both ends and the length. |
| `HashTables.HashTable.Prune` | src/hash_table.c:225-259 | Removes exactly the empty arrays at the lower end of the path and stops at the first that is in use. |
| `HashTables.HashTable.Remove` | src/hash_table.c:165-264 | Removes the entry of the id and no other. If the id was stored, its path then holds no empty array below the root and no array was added. If it was not, the whole path to it is there afterwards, nothing was taken away, and the path is clean if and only if its last array is in use. On a table of one level this is for ids that are absent or share their bucket. |
| `HashTables.HashTable.CleanIffLeafInUse` | src/hash_table.c:225-259 | Wherever the whole path to an id is there, no array on it is empty if and only if the last one is in use, which is all that the pruning loop needs to look at. |
| `HashTables.HashTable.ReachableIsListed` | src/hash_table.c:51-75 | Following the pointers of any leaf cell meets only listed nodes, each once, each with an id that hashes there. |
| `HashTables.HashTable.ListedIsReachable` | src/hash_table.c:132-159 | Every listed node is met by following the pointers of the cell its id hashes to. |
| `HashTables.HashTable.ListWalk` | src/hash_table.c:203-222 | Walking the list pointers forwards and backwards meets the same nodes in opposite order, and ends after length steps. |
| `TableRuns.LevelHashIsByte` | src/hash_table.c:14 | The hash macro picks byte number `level` of the id, so colliding ids agree in those bytes. |
| `TableRuns.Apply` | src/hash_table.c:80-264 | One call, on a table that agrees with a finite map, gives the map's answer and agrees with the map's next value. |
| `TableRuns.RunTrace` | src/hash_table.c:18-264 | On tables of two to eight levels every sequence of gets, puts and removals answers like a finite map, and on one level every sequence of gets and puts. |
| `TableRuns.RemoveLeavesArrays` | src/hash_table.c:165-175 | Removing any id from the proxy's empty table leaves an empty array on its path. |
| `Tables.PutLaws` | src/hash_table.c:109-163 | After a put the key has the new value, every other key its old one, and keys stay distinct. |
| `Tables.RemoveLaws` | src/hash_table.c:165-264 | After a removal the key is gone, every other key has its old value, and keys stay distinct. |
| `Locking.StepKeeps` | src/hash_table.c:80-304 | Every small step of every thread keeps the invariant that ties the half-updated table to the log. |
| `Locking.Linearizable` | src/hash_table.c:80-304 | Under every schedule the completed operations, in the order they released the mutex, are a legal sequential history, and the free table is what that history leaves. |
| `Locking.PlaceInHistory` | src/hash_table.c:80-304 | Under every schedule, an operation of a thread has one entry in the history, for the operation the thread began with, put there between its beginning and its end. |
| `Locking.HistoryKeepsOrder` | src/hash_table.c:80-304 | Of two operations, of one thread or of two, of which one ends before the other begins, the first has the earlier place in the history, then and at every later point. |
| `Locking.IterationSeesOneTable` | src/server.c:301-317 | While an iteration is open its thread holds the mutex, what it has seen is a prefix of the one table there is, its notes are exactly the expired ids of it, and there is room for the next note. |
| `Locking.IterationKeepsTable` | src/hash_table.c:273-304 | At any two points of one open iteration, under every schedule, trie, list, length and log are the same, and what was seen at the first is a prefix of what was seen at the second. |
| `Locking.NeverWaitsForItself` | src/server.c:317-322 | No thread waits for a mutex it holds, and no two threads are inside at once. |
| `Locking.IterationLeaves` | src/server.c:301-322 | When an iteration ends its thread has seen the whole table, and has left to do exactly the ids of what was stale in it. |
| `Locking.PassIsCarriedOut` | src/server.c:319-322 | Under every schedule, the next operations of that thread are the removals of these ids, one by one and in the order of the table, whatever other threads do. |
| `Locking.StaleIdsAre` | src/server.c:301-317 | What is stale in a table is decided entry by entry and listed in the order of the entries. |
| `Locking.NobodyStaysInside` | src/hash_table.c:80-304 | Under every schedule, a thread that has the mutex gives it back before it has taken three more steps than the table has entries. |
| `Locking.FreeMutexIsTaken` | src/hash_table.c:80-304 | A thread that begins an operation while the mutex is free is inside after two steps. |
| `LockedTable.Walk` | src/hash_table.c:273-304 | From iterator init to iterator free the table's own code lists the values in insertion order. |
| `LockedTable.PerformLog` | src/hash_table.c:80-304 | The pointer table performs every legal history: each answer is the logged one, and its entries end as the table the history means. |
| `LockedTable.PerformSchedule` | src/hash_table.c:80-304 | For every schedule, the table's own code gives every answer of the locked table's history, the value of every get and the values of every iteration in list order, and while the mutex is free its entries are what trie, list and length represent. |
| `Proxy.RunKeyed` | src/server.c:125-205 | In every reachable state each entry is filed under its own nonzero request id and keys are distinct. |
| `Proxy.SweepExact` | src/server.c:301-322 | On a keyed table the two phases of a clean-up pass remove exactly the requests that are receiving and sixty seconds old. |
| `Proxy.SweepNeedsKeys` | src/server.c:319-322 | A table filed under other keys, on which the pass removes a fresh request and keeps the expired one. |
| `Proxy.NotedIffExpired` | src/server.c:301-317 | A pass notes an id if and only if its own entry is receiving and sixty seconds old. |
| `Proxy.PassExact` | src/server.c:290-326 | After every run, a pass that no other event disturbs removes exactly the requests that are receiving and sixty seconds old and keeps the others in order. |
| `Proxy.NotedWasExpired` | src/server.c:301-322 | In every run, disturbed or not, whatever waits to be dropped was expired at a note taken earlier in the run. |
| `Proxy.StepView` | src/server.c:125-326 | Every event changes at most the slots it touches (entry, notes, workers, dispatches of an id), each as a function of that slot alone. |
| `Proxy.Demultiplexed` | src/server.c:125-326 | The whole proxy, looked at through one id, is one slot run on the events that touch the id. |
| `Proxy.NonInterference` | src/server.c:125-326 | Dropping every event that does not touch an id changes neither its entry, its notes and its workers nor what is dispatched for it. |
| `Proxy.DispatchedRaw` | src/server.c:125-205 | In every run, what is dispatched without a table key is a raw HTTP packet. |
| `Proxy.OnlyReceivedCounts` | src/server.c:101-114 | In every state, of a receive buffer only the received bytes and the id decide what happens, and of an address its first sixteen bytes. |
| `Proxy.RawIsDispatched` | src/parser.c:92-101 | In every run, a raw HTTP packet is dispatched as one node of exactly the received bytes, without options, and nothing else changes. |
| `Proxy.TruncatedLeavesNothing` | src/server.c:170-181 | In every run, a packet of fewer than 23 bytes for an id leaves no entry of the id, unless its address is turned away. |
| `Proxy.NoIdIsIgnored` | src/server.c:142-150 | In every run, a packet whose id bytes are all zero changes nothing. |
| `Proxy.DispatchedIsFiled` | src/server.c:183-197 | In every run, only a packet dispatches, and what it dispatches under an id stays filed under the id while one more worker runs for it. |
| `Proxy.WorkerEndsEntry` | src/server.c:207-260 | In every run, a worker that ends takes the entry of its id with it, leaves all others and dispatches nothing. |
| `Proxy.ForeignPacketDropsOut` | src/server.c:157-165 | In every run, a packet for a live id whose address differs from that of the first packet in its first sixteen bytes can be left out, and every later state and dispatch is the same. |
| `Safety.RunSane` | src/server.c:125-205 | In every run, whatever arrives, every entry and every request dispatched under an id has disjoint loaded chunks whose sum is its count, fewer than twenty options, the id and the provenance below; a dispatched one has at least its whole length. |
| `Safety.Provenance` | src/server.c:125-205 | In every run, the chunks of every entry and of every request dispatched under an id are, one by one and in order of arrival, the bytes behind the option list, or behind the bare terminator, of distinct received datagrams of its source, id and total length. |
| `Safety.PayloadStartsOnce` | src/parser.c:169-203 | The payload of a datagram starts at one place at most, so provenance pins the bytes of a chunk. |
| `Safety.RunOk` | src/server.c:125-205 | In every run, an entry built from datagrams in range is under assembly, complete if and only if its count is its length, and a dispatched request built from datagrams in range is complete. |
| `Safety.CompleteIsBusy` | src/server.c:125-260 | In every run, an entry that is complete has a worker that has not finished. |
| `Safety.IdleEntryIsPartial` | src/server.c:125-260 | In every run, an entry without a worker is receiving and holds a chunk, and if its datagrams are in range, fewer bytes than its length. |
| `Safety.DispatchedIsTiled` | src/request.c:105-131 | In every run, what is dispatched under an id and was built from datagrams in range tiles its payload, and flattening it over any buffer content gives the concatenation. |
| `Safety.NothingFromNothing` | src/parser.c:210-249 | In every run, whatever is dispatched under an id is no longer than all the chunk bytes that arrived for the id. |
| `Safety.NeverEnough` | src/parser.c:210-249 | If all datagrams of an id announce one total and fewer bytes than that arrive, nothing is ever dispatched for the id. |
| `Safety.EntryPlacedIffInRange` | src/parser.c:153-203 | In every run, all chunks of an entry lie where they were announced and inside the payload if and only if the datagrams it was built from are in range. |
| `Safety.PlacedIffInRange` | src/parser.c:153-203 | The same for every dispatched request. |
| `Safety.OutsideThePayload` | src/parser.c:153-203 | A run of two packets that dispatches a request with a chunk outside its payload. |
| `ProxyServer.TableIterator.Next` | src/hash_table.c:285-298 | The iterator returns the entries one by one in insertion order and then nothing. |
| `ProxyServer.CollectExpired` | src/server.c:301-317 | The loop notes exactly the expired requests, in order, in an array sized from the length field. |
| `ProxyServer.NoteExpired` | src/server.c:301-322 | The ids of the noted requests are those the transition system notes. |
| `ProxyServer.RemoveRequest` | src/server.c:319-322 | Removing from the table of request objects is removing from the table of their values. |
| `ProxyServer.FindOrCreate` | src/server.c:125-205 | Returns the object filed under the id, or files a new one; no other entry changes. |
| `ProxyServer.Feed` | src/server.c:125-205 | Parsing into the filed object, then removing it on failure or handing it out when complete, has the effect on the table that the value-level parser prescribes. |
| `ProxyServer.ProcessChunk` | src/server.c:125-205 | One packet with a nonzero id on the mutable table gives one of the three outcomes of the transition system. |
| `ProxyServer.ProcessPacket` | src/server.c:125-205 | The packet handler on the mutable table is one receive step of the transition system, including whom it starts a worker for. |
| `ServerRuns.CleanStep` | src/server.c:290-326 | The clean-up thread's next step notes if its pass is over and else removes the next noted id, and nothing else. |
| `ServerRuns.PendingNoted` | src/server.c:319-322 | In every run, what the clean-up thread has still to remove was noted, not yet dropped, and holds no id twice. |
| `ServerRuns.EventsAreInputs` | src/server.c:25-326 | Input by input: a datagram is a receive event, a worker's turn its end, a step of the clean-up thread a note or a drop. |
| `ServerRuns.NotesExpired` | src/server.c:301-317 | A step of the clean-up thread that begins a pass makes pending exactly the ids whose requests are receiving and sixty seconds old. |
| `ServerRuns.DroppedInOrder` | src/server.c:319-322 | In every run, whatever else comes in between, the next step of the clean-up thread but n drops pending id number n and leaves no entry of it. |
| `ServerRuns.ExpiredIsDropped` | src/server.c:290-326 | So in every run a request that is expired when a pass begins is dropped within as many more steps of the clean-up thread as there are entries. |
| `ServerRuns.PassOverInputs` | src/server.c:290-326 | One step of the clean-up thread and as many more as there are expired requests, with nothing in between, leave exactly the other requests, in order, and nothing pending. |
| `ServerRuns.Handle` | src/server.c:125-326 | One input on the mutable table is one step of the transition system. |
| `ServerRuns.Serve` | src/server.c:25-123 | From the table the proxy allocates, the mutable code on any input sequence hands out exactly what the transition system dispatches. |
| `ServerRuns.ServeSenders` | src/server.c:125-205 | The mutable code serves every sender whose stream arrives and is not swept exactly once and faithfully. |
| `Sending.OnTurn` | src/server.c:207-260 | At its turn a worker sends what its request means, and every other worker keeps its request as it was handed over. |
| `Sending.ServeAndSend` | src/server.c:25-260 | The mutable code with its workers, on every careful input sequence, sends on each input exactly what the transition system and the meaning of a worker say; on the arrival of a packet that is the received bytes, in the clear and without options, to the host they name, if they are raw HTTP, no key is configured and they name one, and nothing otherwise. |
| `Sending.RawIsAnswered` | src/server.c:134-260 | The same of the specification, in every state: on an arrival, a message is sent if and only if it is that one. |
| `Sending.ClientIsServed` | src/server.c:207-260 | At the turn of the worker of a client's job that has arrived and was not swept, what is sent is the client's message over its transport to the host it names, if and only if it names one, the timestamp is within the leeway and the payload fits 16 bits; otherwise nothing. |
| `Delivery.ClientPacketsCarry` | client/node/src/client.ts:66-78 | A datagram with the used part of the buffer, or with all of it, carries the packet. |
| `Delivery.SecondListWins` | src/parser.c:169-186 | A packet at offset zero with a bare terminator takes back an earlier promise of options in the payload. |
| `Delivery.ReadPacket` | src/parser.c:104-186 | The proxy reads from each packet of a stream the header, option section and chunk the client wrote. |
| `Delivery.FirstPacket` | src/parser.c:69-91 | The first packet puts exactly the options and the first bytes of the payload into a new request. |
| `Delivery.LaterPacket` | src/parser.c:104-254 | Each later packet extends what is held by exactly its bytes, and the last one completes the request. |
| `Delivery.SlotOutcome` | src/server.c:125-326 | After every prefix of a run: the slot of a stream holds exactly the packets so far and its note is the one the run took, or, once a drop came in between, it can never complete. |
| `Delivery.DeliveredIffNotSwept` | src/server.c:125-326 | For every run in which a stream arrives: if a clean-up pass noted it incomplete and sixty seconds old and dropped it before its last packet, nothing is dispatched for it; otherwise exactly one request, with its id, source, options and bytes. |
| `Delivery.NotBeforeTheLast` | src/server.c:125-205 | Nothing is dispatched for a stream before its last packet. |
| `Delivery.AllDelivered` | src/server.c:125-205 | Any number of interleaved streams are all delivered. |
| `Delivery.DeliveredAmongOthers` | src/server.c:157-165 | A stream that arrives in order and is not swept is served exactly once and faithfully, although packets with its id come from any other sources between its first and its last packet. |
| `Delivery.TwoHostsOneRequest` | src/server.c:157-165 | Two distinct IPv6 addresses with equal first sixteen bytes, a packet from each: one request is dispatched with the bytes of both. |
| `LongPayloads.ShortStreamNeverDispatched` | src/parser.c:210-249 | In every run, nothing is dispatched for a stream that carries fewer bytes than it announces, whatever part of it arrives. |
| `LongPayloads.TooLongIsNeverSent` | client/c/client.c:189-242 | In every run, for a job of the C client whose payload 16 bits cannot count: without a key nothing is dispatched for it, and with a key at most one request, whose worker sends nothing. |
| `Worker.ScanTimestamp` | src/server.c:262-288 | The backward scan ends with the timestamp option of the lowest index. |
| `Worker.ScanHttps` | src/http.c:25-38 | The backward scan ends with the HTTPS option of the lowest index. |
| `Worker.LowestIndexWins` | src/server.c:262-288 | Both scans by index: the value of the first option that qualifies, and zero or false without one. |
| `Worker.HighestIndexWins` | src/crypto.c:26-52 | The forward scans by index, both ways: the last option of the kind decides, for modes the last one of one byte, and without one there is no value, or 0. |
| `Worker.OuterBeforeInner` | src/http.c:25-38 | An option outside the encrypted payload decides over one inside it, for every pair of lists. |
| `Worker.OuterDecidesTransport` | src/http.c:25-38 | Whatever is sent for a request with an HTTPS option outside its payload goes over the transport which the first of those names, whatever the encrypted options say. |
| `Worker.ClearOptionWins` | src/http.c:25-38 | A family of requests with HTTPS 1 inside and HTTPS 0 outside: the worker sends the message, without TLS, if and only if it names its host. |
| `Worker.ScanEncryption` | src/crypto.c:26-52 | The forward scan ends with the last mode byte, initialisation vector and tag. |
| `Worker.DeriveKeyFor` | src/crypto.c:261-337 | A key is derived if and only if the last mode is PBKDF2, the last salt is not empty and the derivation succeeds. |
| `Worker.DecryptRequest` | src/crypto.c:14-235 | The in-place decryption turns the object into the value the specification assigns, on every path. |
| `Worker.PlaintextIff` | src/crypto.c:14-235 | There is a plaintext if and only if the deciding options name the AES and PBKDF2 modes and a vector, a tag and a salt that are not empty, the key derivation succeeds and the cipher accepts. |
| `Worker.DecryptOpens` | src/crypto.c:14-122 | Decryption succeeds if and only if there is no key and no mode, or a key and such a plaintext, which becomes the payload; a failure changes the state only. |
| `Worker.ParseInnerOptions` | src/parser.c:367-423 | The in-place parser of the inner options refines its specification, including the cut of the payload node. |
| `Worker.InnerAcceptedIff` | src/parser.c:367-423 | Inner options are accepted if and only if none are announced, or the payload is a serialised list that ends them for good, fewer than twenty in all, and a rest that is not empty; the rest becomes the payload. |
| `Worker.ValidateTimestamp` | src/server.c:262-288 | Accepts if and only if there is no timestamp or it is within the leeway on either side. |
| `Worker.SendRequest` | src/http.c:21-81 | A connection is tried exactly if the message names its host, to that host, over the transport the options choose. |
| `Worker.Perform` | src/server.c:207-260 | The steps on the request object, in order and with their early exits, send what the specification of the worker sends. |
| `Worker.SendGate` | src/server.c:207-260 | A message is sent if and only if the payload was opened as the key configuration demands, unwraps to it, names the host it goes to, and any timestamp is within the leeway. |
| `Worker.RawNeedsNoKey` | src/crypto.c:54-65 | With a key configured no raw HTTP packet is sent. |
| `Worker.RawSentIffAddressed` | src/crypto.c:54-65 | Without one it is sent unchanged and without TLS, whatever the time, if and only if it names its host. |
| `WorkerThread.GateOverRuns` | src/server.c:207-260 | In every run, for whatever is dispatched raw or was built from datagrams in range, the worker sends exactly what may be sent, and with a key nothing that is raw. |
| `WorkerThread.ProcessRequest` | src/server.c:207-260 | A worker on the mutable table sends what its specification sends and removes what is filed under its request's nonzero id, whether or not that is still its request. |
| `ClientPayload.PayloadList.Add` | client/c/client.c:138-158 | On linked nodes: the node is added behind the others if and only if there is at most one, and else takes the place of all behind the first; it gets the offset behind the first, and no other node changes. |
| `ClientPayload.Search` | client/c/client.c:140-145 | The loop, from any start, ends at the start or, from null, at the first node. |
| `ClientPayload.ReadPayload` | client/c/client.c:160-187 | The reading loop leaves every read at the front of the buffer and counts all of them. |
| `ClientPayload.ReadsRightIffOneRead` | client/c/client.c:160-187 | The message is read correctly, whatever was in memory, if and only if it takes at most one read. |
| `Client.CreatePayloadOptions` | client/c/client.c:86-136 | The first payload node becomes the serialised inner options, and the count returned is theirs. |
| `Client.PayloadOnTheWire` | client/c/client.c:86-136 | The payload before encryption, byte by byte: HTTPS as option 4, the timestamp as option 8, the end of the list and the message. |
| `Client.OptionsOnTheWire` | client/c/crypto.c:12-221 | The options of an encrypted payload, byte by byte: kinds 1, 2, 3, 5 and 6 with their values, and kind 7, which announces options in the payload. |
| `Client.EncryptRequest` | client/c/crypto.c:12-221 | On success the ciphertext is the payload and the five outer options are appended; if the random source, the key derivation or the cipher fails, the request is unchanged. |
| `Client.MakeRequest` | client/c/client.c:20-84 | The whole client, from what it reads to packets and for payloads of any size, produces the stream of the wrapped message cut to its 16-bit length, or nothing if and only if encryption fails. |
| `Client.SenderWellFormed` | client/c/client.c:20-84 | What the client sends meets the conditions of the delivery theorem if and only if the id is not zero and the wrapped payload has between 1 and 65535 bytes, which it has whenever the plain payload fits. |
| `Client.WorkerUndoesClient` | src/server.c:207-260 | On a faithfully received request the worker sends the client's message over the client's transport to the host it names, if and only if it names one, the timestamp is within the leeway and the payload fits 16 bits; otherwise it sends nothing. |
| `Client.EndToEnd` | src/server.c:25-260 | For every run in which a client's stream arrives and is not swept: one dispatch, and its worker sends exactly the client's message if and only if it names its host, the timestamp is within the leeway and the payload fits 16 bits; otherwise nothing. |
| `HostScanner.CopyHost` | src/http.c:378-455 | Copies the run of bytes up to the end of the host or the limit. |
| `HostScanner.GetDestinationHost` | src/http.c:378-455 | Returns the value of the first header line named Host in front of a blank line, and nothing if and only if there is no such value; `HostLines` says on which messages that is. |
| `HostScanner.HostIsUnique` | src/http.c:378-455 | There is at most one such line and value. |
| `HostScanner.HostOfIs` | src/http.c:378-455 | So the host is a function of the message: it is the run of host characters at that value, and there is none if there is no such value. |
| `HostScanner.NeverFromTheBody` | src/http.c:378-455 | The host lies in front of every blank line. |
| `HostScanner.ValueIsOnItsLine` | src/http.c:378-455 | The value starts on the line of its name. |
| `HostLines.HostFound` | src/http.c:378-455 | For every message of header lines, a Host line in any of its sixteen spellings and a host: the host, its first 256 bytes at most, is returned if and only if it starts within the first 8096 bytes and none of them up to there but perhaps the first is NUL. |
| `HostLines.NoHostLine` | src/http.c:378-455 | A message without a line that starts with a spelling of the name has no host. |
| `HostLines.NoHostBehindBlank` | src/http.c:408-413 | A message whose header lines end with a blank line before any Host line has no host, whatever its body says. |

## Left out

- Sockets, the receive loop, DNS, TLS, sending the HTTP request and reading the response: input and output; inputs and parameters stand for them.
- AES-GCM, PBKDF2 and random numbers: function parameters with the laws in `Client.Sound`.
- Argument parsing, logging, signals and version output: no request, packet or table passes through them.
- The Java and .NET clients, the Node HTTP agent and the adapters: the same packets or glue around them.
- Allocation and freeing, including `ff_hash_table_free` and `ff_request_free`: objects are garbage collected, so lifetimes and aliasing after a free are not captured.
- Sending.ServeAndSend: for careful input sequences, because a packet that arrives while a worker runs races with it on the request object, and a request with a chunk outside its payload makes it copy out of bounds; neither has a defined outcome to model.
- Reassembly.Vectorise: requires chunks inside the payload if there are several, because the code copies out of bounds otherwise (`Safety.OutsideThePayload`).
- Payloads of 65536 bytes and more from the Python and Node clients: their streams carry offsets that a node cuts to 16 bits (`Reassembly.StoredWhereAnnounced`), and the chunks then go to places that were not announced.
- HashTables.HashTable.constructor: requires at least eight bits, because with fewer there is no level and the hash macro shifts by the width of its operand.
- HashTables.HashTable.Remove: on a table of one level, for ids that are absent or share their bucket, because the pruning loop starts two below the number of levels; the proxy allocates two.
- Locking.StepKeeps: inside the critical section a map and a sequence stand for the pointer table, and an operation is two writes, to the trie and to the list; the class itself is single-threaded.
- Locking.Linearizable: for the same reason its histories, and not its half-done states, are tied to the class (`LockedTable.PerformSchedule`).
- ServerRuns.Serve: a worker's turn only removes its entry; what it does to its request and sends is `Sending.ServeAndSend`.
- Payload nodes and option arrays are sequences in the proxy's requests and not linked nodes, so aliasing between them is not captured.
- Stored values that are null: the proxy never stores one.
- Packetiser.PacketisePython: requires an option list that leaves room for payload in the first packet, as does Packetiser.PacketiseNode, because their loops do not end otherwise; in the C client the second list then takes back the first (`Delivery.SecondListWins`). Its text has no lone surrogates, on which the client raises an error before it sends anything.
- Packetiser.FillPacket: one member for the three packetisers, which differ in their loops and not in what they write.
- ClientPayload.ReadPayload: for messages of fewer than 65536 bytes, because the 16-bit length wraps and the copy then leaves the buffer.
- The size of the buffer the host is copied into: the limit of 256 is modelled, memory is not.
