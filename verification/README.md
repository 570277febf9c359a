# Verification of the sihd library's stateful cores

A Dafny model of those parts of the library whose correctness is hard to see from one function body,
with proofs about all inputs, all runs or all reachable states.

| file | what it models |
|---|---|
| `EdgeWalk`, `TriangleSpans`, `CellFlush`, `Renderer` | the terminal renderer: edge walk, triangle fill, colour-pair cache, differential flush |
| `LuaGil` | the re-entrant global lock of the Lua module and its two scope guards, over any number of threads |
| `DevPlayer` | the replay protocol between a collector and a scheduler thread |
| `ChannelCascade`, `FilterRules` | writes to channels that trigger filters that write channels, and the filters' rules |
| `Checksum` | the Internet checksum and its use in ICMP messages |
| `HttpText`, `HttpHeaders`, `HttpNames`, `HttpWire`, `HttpRequest`, `HttpResponse` | printing and parsing HTTP/1.x messages |
| `Route`, `RoutePatterns` | route patterns and the search for the best route |
| `Bitmap`, `BmpLayout` | images and their BMP form |
| `SshRegistry`, `SshOutcomes` | sessions and channels as the SSH server and its handler remember them |
| `DeviceTree` | starting and stopping a tree of services |
| `PtyInput` | client input on its way to a terminal |
| `Arith`, `Basics`, `Grid` | integer facts, shared types and byte fields, row-major grids |

Objects whose methods update fields are classes; each method is proved against a function of the old
state, and the properties are proved about that function. Threads, callbacks and the outside world are
steps of a state machine whose choices (which thread moves, what a terminal takes, whether a handler
starts) are arbitrary.

Where the code does not do what one would expect, the model keeps the code and a lemma says exactly when
it does:

- A filter's mutex is a plain `std::mutex` (`modules/core/include/sihd/core/DevFilter.hpp:144`), so a
  cascade that comes back to a filter it is inside blocks for ever. `NoHazardNoDeadlock` and
  `HazardCanDeadlock` give the wirings for which this can happen.
- A row being written when the pair table is evicted can be marked clean with wrong colours
  (`EvictionTearsRow`). Ids are 16 bits wide (`modules/imgui/include/sihd/imgui/ImguiRendererNcurses.hpp:153-154`),
  so with more than 32768 pairs the table is never evicted and ids become negative instead. No number of
  pairs is enough (`SomeFrameIsNotShown`); `RunsOutExactlyWhenNoRoom` says when the ids run out,
  `FlushedIfRoom` what to check before a flush, and `RowShownIff` which rows are shown all the same.
- The checksum is exact up to 131074 bytes and for no greater length (`ExactIff`).
- A replay with a queue limit of 0 never ends (`EndAnnouncedIff`).
- An element narrower than 64 bits is compared without its sign, and an unsigned one of 64 bits with one
  (`ReadAsMeantIff`).
- An empty write past the end of a resizable channel reports failure but grows it
  (`RefusedChangesNothingIff`).
- Header fields without a value and request cookies do not survive printing and parsing, and a parsed
  response always carries the preset accept-charset (`RoundTripIff`, twice).
- The BMP reader computes the row size in 32 bits (`BmpFormat.RoundTripIff`).
- The end of client input closes the terminal before pending bytes reach it (`EofLosesNothingIff`).
- A response line that says set-cookie is a cookie in two spellings of that name only
  (`ResponseInSmallLettersIff`); in every other header name the case of the letters does not matter.
- A BMP file with a negative height is turned around when it is read, but only if its rows are padded
  (`LineFromFile`); and the resolution written is 0x130B, not the 2835 of the comment beside it
  (`HeaderIsAt`).
- A path is joined again after decoding and then split and decoded a second time when a route is looked up.
  That shows if and only if a decoded piece holds a slash or an escape (`SecondDecodingIff`).

## Model

| member | source | states |
|---|---|---|
| `EdgeWalk.WalkEnds` | modules/imgui/src/ImguiRendererNcurses.cpp:44-83 | a Bresenham edge walk starts on the first endpoint and ends exactly on the second |
| `EdgeWalk.WalkStaysInBox` | modules/imgui/src/ImguiRendererNcurses.cpp:62-82 | every visited point lies in the bounding box of the endpoints |
| `EdgeWalk.WalkVisitsEveryRow` | modules/imgui/src/ImguiRendererNcurses.cpp:62-82 | every row between the endpoints is visited |
| `EdgeWalk.WalkStaysNearLine` | modules/imgui/src/ImguiRendererNcurses.cpp:59-82 | every visited point is less than one cell off the ideal line, for all integer endpoints |
| `EdgeWalk.WalkIsConnected` | modules/imgui/src/ImguiRendererNcurses.cpp:70-82 | consecutive points of the walk are neighbours: no coordinate moves by more than one, and the major one always does |
| `EdgeWalk.CrossingBoundsWalkLeft` | modules/imgui/src/ImguiRendererNcurses.cpp:44-83 | a lattice point at or right of the ideal segment in a row is at or right of a visited point of that row |
| `EdgeWalk.CrossingBoundsWalkRight` | modules/imgui/src/ImguiRendererNcurses.cpp:44-83 | the mirror image, by walking the mirrored edge |
| `EdgeWalk.ScanlineExtend` | modules/imgui/src/ImguiRendererNcurses.cpp:44-83 | the loop leaves, in each row inside the array, the least and greatest x of the visited points merged with what was there, and nothing else changed; in terms of the closed form of the walk, not of its error counter |
| `EdgeWalk.RowMinMeaning` | modules/imgui/src/ImguiRendererNcurses.cpp:65-66 | the minimum kept for a row is at most x exactly if it started so or some visited point of the row is |
| `TriangleSpans.RangeIsSpan` | modules/imgui/src/ImguiRendererNcurses.cpp:513-521 | after the three walks a column is inside a row's range exactly if it lies between two visited points of that row |
| `TriangleSpans.NoRowIsEmpty` | modules/imgui/src/ImguiRendererNcurses.cpp:486-521 | for vertices with non-negative coordinates no row of the fill is left empty |
| `TriangleSpans.RowsAre` | modules/imgui/src/ImguiRendererNcurses.cpp:486-509 | which rows a fill paints, among them the row of the centroid for a triangle reaching no further than into the next row |
| `TriangleSpans.InClipIff` | modules/imgui/src/ImguiRendererNcurses.cpp:523-546 | a cell is painted only on the screen and inside the clip rectangle, whose right and lower edges do not belong to it |
| `TriangleSpans.InsideIsPainted` | modules/imgui/src/ImguiRendererNcurses.cpp:486-547 | every lattice point of the closed integer triangle above its bottom row, on screen and in the clip rectangle, is painted |
| `TriangleSpans.PaintedIsNear` | modules/imgui/src/ImguiRendererNcurses.cpp:486-547 | a painted cell lies between two visited points of its row, each less than one cell off its edge |
| `Renderer.CellRenderer.DrawFillTriangle` | modules/imgui/src/ImguiRendererNcurses.cpp:486-547 | the fill recolours and blanks exactly the painted cells and changes no other cell, for every triangle |
| `Renderer.CellRenderer.ScanOutline` | modules/imgui/src/ImguiRendererNcurses.cpp:510-521 | the range array holds the ends of the outline's rows, whatever it held before |
| `Renderer.CellRenderer.PaintRows` | modules/imgui/src/ImguiRendererNcurses.cpp:523-546 | the painting loop recolours exactly the cells of the ranges inside clip and screen |
| `CellFlush.PairIdsAreDistinct` | modules/imgui/src/ImguiRendererNcurses.cpp:1178-1196 | in a sound pair table two colour combinations never share an id |
| `CellFlush.AskedEveryTime` | modules/imgui/src/ImguiRendererNcurses.cpp:1216-1228 | asking for a pair only where the colours change is the same as asking for every cell, as long as no id below 1 was given out |
| `CellFlush.DrawCellsFacts` | modules/imgui/src/ImguiRendererNcurses.cpp:1202-1242 | unless the 16-bit ids overran, writing cells keeps the table sound, so that every cached id is defined as its own foreground and background; if it was not evicted either, ids in use stay defined as they were and each cell written shows its glyph and colours |
| `CellFlush.DrawRowKeeps` | modules/imgui/src/ImguiRendererNcurses.cpp:1202-1242 | unless the ids overran, writing one row without an eviction keeps every row's coherence and shows that row; with one, every other row is shown or marked dirty |
| `CellFlush.DrawRowsKeeps` | modules/imgui/src/ImguiRendererNcurses.cpp:1248-1273 | however often it evicts, a flush without an overrun leaves at most one row that is neither shown nor marked dirty |
| `CellFlush.FlushShowsFrame` | modules/imgui/src/ImguiRendererNcurses.cpp:1248-1273 | the differential flush refines a redraw: starting from rows that show their shadow copy or are marked dirty, a flush that neither evicts the pair table nor overruns the ids leaves every cell but the bottom-right one showing its glyph and colours, and the shadow equal to the screen |
| `CellFlush.OnlyPrintable` | modules/imgui/src/ImguiRendererNcurses.cpp:1230 | only printable characters reach the terminal, each as it is, and a blank for any other |
| `CellFlush.CornerStays` | modules/imgui/src/ImguiRendererNcurses.cpp:1212-1214 | no flush ever writes the bottom-right cell |
| `CellFlush.RunsOutExactlyWhenNoRoom` | modules/imgui/src/ImguiRendererNcurses.cpp:1178-1196 | the ids run out exactly if the colours of the changed rows that are not cached outnumber the free ids; with at most 32768 pairs the table is evicted then and ids never overrun, with more it is never evicted and the ids wrap to negative numbers |
| `CellFlush.FlushedIfRoom` | modules/imgui/src/ImguiRendererNcurses.cpp:1178-1273 | the condition a caller can check before a flush: with ids left for the missing colours the frame is shown, and with more than 32768 pairs only then |
| `CellFlush.RowShownIff` | modules/imgui/src/ImguiRendererNcurses.cpp:1178-1242 | the exact condition for a row: it is shown if and only if no id overran and every cell written before the last eviction carries the id its own colours have in the table afterwards |
| `CellFlush.FlushTidy` | modules/imgui/src/ImguiRendererNcurses.cpp:1178-1196 | a flush leaves the table sound and without lost ids, however often it evicts, unless the ids overran, which with at most 32768 pairs they never do |
| `CellFlush.EvictionTearsRow` | modules/imgui/src/ImguiRendererNcurses.cpp:1185-1242 | with at most 32768 pairs, whatever their number, the first flush of some frame marks a row clean although its first cell carries an id now defined as other colours, which flushing again does not repair |
| `CellFlush.OverrunStays` | modules/imgui/src/ImguiRendererNcurses.cpp:1192-1228 | a flush during which the ids overran leaves on the screen a cell whose id names no pair |
| `CellFlush.SomeFrameIsNotShown` | modules/imgui/src/ImguiRendererNcurses.cpp:1178-1273 | no number of colour pairs is enough: for each there is a frame the renderer's first flush does not show |
| `Renderer.CellRenderer.GetOrAllocColorPair` | modules/imgui/src/ImguiRendererNcurses.cpp:1178-1196 | the method, with its 16-bit ids, does to cache, next id, shadow and terminal what the allocation step says |
| `Renderer.CellRenderer.FlushRow` | modules/imgui/src/ImguiRendererNcurses.cpp:1202-1242 | run batching does not show: the row written with batched text and attributes equals the row drawn cell by cell, whatever the ids |
| `Renderer.CellRenderer.FlushToNcurses` | modules/imgui/src/ImguiRendererNcurses.cpp:1248-1273 | the whole flush, with the full redraw and the row comparison, equals the cell by cell redraw of the changed rows |
| `Renderer.CellRenderer.FlushFrame` | modules/imgui/src/ImguiRendererNcurses.cpp:1248-1273 | a coherent frame whose missing colours fit the free ids is shown and leaves the state coherent for the next one; otherwise the table is evicted or, with more than 32768 pairs, the ids overrun and the frame is not shown |
| `GilThreads.StepKeepsInv` | modules/lua/src/LuaGil.cpp:7-85 | every step of any number of threads with well-nested guards keeps the lock invariant |
| `GilThreads.MutualExclusion` | modules/lua/src/LuaGil.cpp:7-31 | in every reachable state at most one thread is inside a guard no release suspends; it owns the lock and the depth is its number of open guards since its innermost release |
| `GilThreads.HeldMeansInRegion` | modules/lua/src/LuaGil.cpp:7-53 | the lock is held exactly while some running thread is inside such a region |
| `GilThreads.ReleaseGivesBack` | modules/lua/src/LuaGil.cpp:33-53 | leaving a release, at once or after waiting, gives back exactly the depth it saved |
| `GilThreads.WaiterHoldsNothing` | modules/lua/src/LuaGil.cpp:45-53 | no thread waits for itself, although acquire_restore is not re-entrant |
| `GilThreads.NoLostWakeUp` | modules/lua/src/LuaGil.cpp:16-29 | whenever the lock is free and a thread waits, some waiter has been notified and gets the lock when it looks again, though only one is ever notified and newcomers may barge in |
| `GilThreads.NeverStuck` | modules/lua/src/LuaGil.cpp:7-53 | in every reachable state some thread runs or a notified waiter can |
| `LuaGil.Lock.Acquire` | modules/lua/src/LuaGil.cpp:7-19 | taking the lock: re-entry deepens it, otherwise it is taken or the thread queues |
| `LuaGil.Lock.Unlock` | modules/lua/src/LuaGil.cpp:21-31 | the last unlock frees the lock and notifies one waiter; an unlock by another thread does nothing |
| `LuaGil.Lock.ReleaseSave` | modules/lua/src/LuaGil.cpp:33-43 | drops all levels, returns them and notifies one waiter |
| `LuaGil.OwnerOnly` | modules/lua/src/LuaGil.cpp:7-43 | only the thread that holds the lock deepens, unlocks or releases it; a lock by another that finds it held changes neither owner nor depth |
| `LuaGil.Lock.AcquireRestore` | modules/lua/src/LuaGil.cpp:45-53 | restores the saved depth once the lock is free |
| `Replay.StepKeepsInv` | modules/core/src/DevPlayer.cpp:159-218 | every section of collector and scheduler keeps the protocol invariant, in any interleaving |
| `Replay.QueueIsSafe` | modules/core/src/DevPlayer.cpp:164-198 | the queue never exceeds limit + 1, a task never finds it empty, and records are taken in push order |
| `Replay.BlockedProducerHasTask` | modules/core/src/DevPlayer.cpp:193-198 | with a limit of at least 1 a producer blocked on the full queue has a task that will make room |
| `Replay.EndComesLastAndOnce` | modules/core/src/DevPlayer.cpp:201-218 | the end is announced at most once, and by then every record was taken |
| `Replay.NothingAfterEnd` | modules/core/src/DevPlayer.cpp:182-218 | after the end nothing is pushed or taken any more |
| `Replay.CompleteRunsAnnounceEnd` | modules/core/src/DevPlayer.cpp:159-218 | every interleaving played to its end announces the end with all records taken |
| `Replay.StuckMeansComplete` | modules/core/src/DevPlayer.cpp:159-218 | with a positive limit the threads stop only when the replay is complete |
| `Replay.RunsToStuck` | modules/core/src/DevPlayer.cpp:159-218 | from every state that keeps the invariant some schedule brings the threads to the end of the run |
| `Replay.EndAnnouncedIff` | modules/core/src/DevPlayer.cpp:193-218 | a run played to its end announces the end exactly if the limit is positive or there is nothing to play; with a limit of 0 the first record starves its producer |
| `Replay.RunsAreBounded` | modules/core/src/DevPlayer.cpp:159-218 | no schedule goes on for ever: whatever order the threads run in, a run has no more steps than the work at its start and eleven for every spurious wake-up, each of which undoes work |
| `Players.Player.Advance` | modules/core/src/DevPlayer.cpp:159-218 | the two threads as code over the shared fields: one section of either, or a spurious wake-up, changes the object as the step of the protocol does |
| `Players.Player.AdvanceCollector` | modules/core/src/DevPlayer.cpp:182-212 | one section of handle, of the loop that feeds it, or of the end of the replay, from the place the collector stands at |
| `Players.Player.AdvanceScheduler` | modules/core/src/DevPlayer.cpp:159-179 | one section of a task, and of the end when the last record is set |
| `Players.Player.Play` | modules/core/src/DevPlayer.cpp:159-218 | with a positive limit every run of the object, in any interleaving, ends with all records taken in order, the queue empty and the end announced once |
| `ChannelStore.StoredBytes` | modules/core/src/Channel.cpp:153-172 | a successful write leaves the written bytes where they were aimed and every other byte alone |
| `ChannelStore.RefusedChangesNothingIff` | modules/core/src/Channel.cpp:155-172 | a refused write changes no bytes, with exactly one exception: writing nothing past the end of a resizable channel reports failure and grows it |
| `ChannelStore.StoreResultIff` | modules/core/src/Channel.cpp:155-172 | which writes of something are refused, thrown out or dropped: refused exactly if they do not fit and the channel cannot grow that far, dropped exactly if the channel notifies changes only and the bytes already stand there |
| `ChannelStore.StoreNothing` | modules/core/src/Channel.cpp:155-172 | the same for a write of nothing, which changes no byte |
| `ChannelCascade.WriteFreezes` | modules/core/src/Channel.cpp:143-180 | during a cascade the bytes of every notifying channel stay what they were, so observers see what was written |
| `ChannelCascade.Shrinks` | modules/core/src/Channel.cpp:145-150 | why a cascade terminates on every finite graph: each nested write runs with one more channel locked |
| `ChannelCascade.NoHazardNoDeadlock` | modules/core/src/DevFilter.cpp:314-326 | a wiring in which no walk over distinct channels leads from a filter back to itself never deadlocks, whatever the rules compute |
| `ChannelCascade.HazardCanDeadlock` | modules/core/src/DevFilter.cpp:314-326 | and every other wiring can: with suitable rules one write blocks on the filter mutex its own thread holds |
| `ChannelCascade.Wiring.WriteChannel` | modules/core/src/Channel.cpp:143-180 | a write with its locks: same result as the specification, and every notify and filter lock it took is free again when it returns or throws |
| `ChannelCascade.Wiring.NotifyObservers` | modules/core/src/Channel.cpp:173-178 | observers are handled in order until one throws |
| `ChannelCascade.Wiring.HandleNotification` | modules/core/src/DevFilter.cpp:314-326 | one filter: the mutex, the running test, the rules of the channel in order, the mutex given back |
| `ChannelCascade.Wiring.ApplyRule` | modules/core/src/DevFilter.cpp:262-312 | one rule: read the input, write the output if it fires |
| `FilterRules.ConfiguredRule` | modules/core/src/DevFilter.cpp:526-543 | a rule built from a configuration that was verified against its channels meets the condition of the next row |
| `FilterRules.VerifiedCascadeNeverThrows` | modules/core/src/DevFilter.cpp:526-543 | once every rule has been verified, a cascade throws only if its very first write does, and no channel ever shrinks under a rule |
| `FilterRules.VerifiedWritesInside` | modules/core/src/DevFilter.cpp:262-265 | a rule verified at the start reads and writes inside its channels, whatever it reads |
| `FilterRules.VerifiedIff` | modules/core/src/DevFilter.cpp:526-543 | a rule is verified exactly if both of its indices name whole elements of their channels |
| `FilterRules.MatchesMeans` | modules/core/src/DevFilter.cpp:267-299 | the eight comparisons in terms of numbers and of their bits |
| `FilterRules.FiresIff` | modules/core/src/DevFilter.cpp:262-312 | a verified rule fires exactly if the comparison of the element it reads, spelled out for each kind, comes out as asked; it then writes one element, the one read or the value to write, modulo the width of the output |
| `FilterRules.LastRuleWrites` | modules/core/src/DevFilter.cpp:262-326 | on the channels after the rule has run: if it fires and its output is not notifying, element writeIdx holds that value and no other byte of the output changed; if it does not fire, nothing changed |
| `FilterRules.OneRuleActs` | modules/core/src/DevFilter.cpp:262-326 | the same seen from a write to the channel the rule watches |
| `FilterRules.FilterActs` | modules/core/src/DevFilter.cpp:314-326 | a filter runs all its rules for the channel, also after one that fired: each has acted on its output, provided nobody watches the outputs and no later rule writes the same |
| `FilterRules.RefusedOnlyWhileNotifying` | modules/core/src/Channel.cpp:143-180 | a write inside a channel is refused for one reason only: the channel is notifying |
| `FilterRules.ReadAsMeantIff` | modules/core/src/DevFilter.cpp:272-273 | the value a rule compares is the number the channel means, signed or not, exactly if that is not negative on a channel narrower than 64 bits, and exactly if it fits a signed number on one of 64 |
| `FilterRules.NegativeTriggerNeverEqual` | modules/core/src/DevFilter.cpp:275-280 | so a rule waiting for a negative number on a narrower channel never sees it |
| `Checksum.Compute` | modules/net/src/utils.cpp:8-38 | the loop and the folds compute the wrapped 32-bit sum's checksum, and the exact one's complement checksum of section 1 of RFC 1071 up to 131074 bytes |
| `Checksum.ExactIff` | modules/net/src/utils.cpp:11-37 | the length limit is exact: all messages of n bytes get the RFC 1071 checksum if and only if n is at most 131074 |
| `Checksum.OrderDoesNotMatter` | modules/net/src/utils.cpp:20-37 | reordering the 16-bit words leaves the checksum alone, at every length |
| `Checksum.SwappingCommutes` | modules/net/src/utils.cpp:20-37 | byte order independence, section 2(B) of RFC 1071: swapping the bytes of every word swaps the bytes of the checksum |
| `Checksum.FieldVerifiesIff` | modules/net/src/IcmpSender.cpp:318-321 | which values of the checksum field verify: the computed one, and for 0 also 0xffff |
| `Checksum.DamageIsSeenIff` | modules/net/src/utils.cpp:8-38 | damage to one word of a message that verifies goes unnoticed exactly between the two zeros of one's complement |
| `Checksum.SentVerifies` | modules/net/src/IcmpSender.cpp:304-322 | what send_to stores is never 0 and recomputing over the finished message gives 0 |
| `Checksum.IcmpSender.FillChecksum` | modules/net/src/IcmpSender.cpp:304-322 | the checksum part of send_to: field zeroed, computed, 0 replaced by 0xffff; left 0 for an IPv6 datagram socket |
| `HttpText.SplitJoin` | modules/util/src/Splitter.cpp:158-213 | splitting joined pieces gives the pieces back, if none is empty or holds the delimiter |
| `HttpText.SectionsOfText` | modules/http/src/HttpRequest.cpp:154-163 | lines, a blank line and a body are taken apart where they were put together, whatever the body holds |
| `HttpText.FirstBlankLine` | modules/http/src/HttpRequest.cpp:154-163 | any text is cut at its first blank line |
| `HttpText.NoBlankLine` | modules/http/src/HttpRequest.cpp:154-163 | and refused exactly if it has none |
| `HttpText.NumberRoundTrip` | modules/util/src/str.cpp:880-894 | a 32-bit number survives printing and parsing |
| `HttpText.DigitIff` | modules/util/src/str.cpp:880-894 | the digits are the ten characters, with their values |
| `HttpText.ParsedNumber` | modules/util/src/str.cpp:880-894 | what any digits are read as, with or without a sign and whatever follows: nothing from 2^64 on, otherwise the number modulo 2^32 |
| `HttpText.NoNumber` | modules/util/src/str.cpp:880-894 | a text without leading digits is no number |
| `HttpHeaders.ReadFields` | modules/http/src/HttpHeader.cpp:107-125 | reading printed header fields into a map that keeps first values, in any order of visit: those with a value arrive, those without are lost |
| `HttpHeaders.HttpHeader.AddHeaderFromStr` | modules/http/src/HttpHeader.cpp:114-125 | one header line: name up to the first colon or blank, value after two characters, refused if nothing follows |
| `HttpHeaders.HttpHeader.SetHeader` | modules/http/src/HttpHeader.cpp:107-112 | the formatted name is inserted only if it is new |
| `HttpNames.StoredAs` | modules/http/src/HttpHeader.cpp:16-25 | a stored name ends in a colon, has no capital letter and is otherwise the name given |
| `HttpNames.StoredAlikeIff` | modules/http/src/HttpHeader.cpp:16-25 | two names are stored alike exactly if they agree, case aside, without their trailing colons |
| `HttpNames.MethodIff` | modules/http/src/HttpRequest.cpp:16-56 | a request method is known by its name in any case and by nothing else |
| `HttpNames.RequestInAnyCase` | modules/http/src/HttpRequest.cpp:152-204 | a request reads the same whatever the case of its header names |
| `HttpNames.ResponseInAnyCase` | modules/http/src/HttpResponse.cpp:86-135 | so does a response, as long as the same lines spell a cookie line in one of its two usual spellings |
| `HttpNames.ResponseInSmallLettersIff` | modules/http/src/HttpResponse.cpp:86-135 | exactly when a response reads as with its header names in small letters: every name that says set-cookie does so in a usual spelling |
| `HttpHeaders.PrintAll` | modules/http/src/HttpResponse.cpp:148-157 | the printing loop over the header map |
| `HttpRequests.MethodRoundTrip` | modules/http/src/HttpRequest.cpp:16-56 | printing and reading a method, without regard to case, gives it back |
| `HttpRequests.TargetSplits` | modules/http/src/HttpRequest.cpp:176-190 | path and query parameters come back from the printed target, whatever order the map is visited in |
| `HttpRequests.RoundTrip` | modules/http/src/HttpRequest.cpp:152-247 | reading a printed well-formed request gives back method, path, query, body and the header fields that have a value |
| `HttpRequests.RoundTripIff` | modules/http/src/HttpRequest.cpp:152-247 | from_string undoes to_string exactly for requests without cookies and without empty header fields |
| `HttpWire.RequestOnWire` | modules/http/src/HttpRequest.cpp:206-247 | the lines a printed request consists of: the method in capitals, target and version separated by blanks, the fields as name, colon, blank and value, a blank line and the body |
| `HttpRequests.HttpRequest.FromString` | modules/http/src/HttpRequest.cpp:152-204 | the parser object by object: null exactly where the specification rejects, and its message otherwise |
| `HttpRequests.HttpRequest.ToString` | modules/http/src/HttpRequest.cpp:206-247 | the printing loops produce the specified text |
| `HttpRequests.HttpRequest.ReadQuery` | modules/http/src/HttpRequest.cpp:176-190 | the loop over the query parameters, later values winning |
| `HttpResponses.RoundTrip` | modules/http/src/HttpResponse.cpp:86-172 | what comes back from a printed response: status, body and cookies; fields without a value are lost, a set-cookie field becomes a cookie, accept-charset is the preset one |
| `HttpResponses.RoundTripIff` | modules/http/src/HttpResponse.cpp:14-172 | from_string undoes to_string exactly for responses that still carry the preset accept-charset, have no set-cookie field and no empty field |
| `HttpWire.ResponseOnWire` | modules/http/src/HttpResponse.cpp:137-172 | the lines a printed response consists of: version, status and reason, the fields, one Set-Cookie line a cookie, a blank line and the body |
| `HttpResponses.FieldIsCookie` | modules/http/src/HttpResponse.cpp:115-126 | a printed header field is read as a cookie exactly if its name is set-cookie |
| `HttpResponses.HttpResponse.FromString` | modules/http/src/HttpResponse.cpp:86-135 | the parser, including the preset field and the cookie prefixes |
| `HttpResponses.HttpResponse.ToString` | modules/http/src/HttpResponse.cpp:137-172 | the printer |
| `Routes.StrDecode` | modules/http/src/Route.cpp:23-43 | the decoding loop equals percent decoding by its first character or escape |
| `Routes.MatchPath` | modules/http/src/Route.cpp:90-132 | the matching loop equals the specified match |
| `Routes.MatchIff` | modules/http/src/Route.cpp:90-132 | a route matches exactly the paths with the right number of pieces, at least as many with a catch-all, whose pieces agree with the literals before the catch-all; literals after it do not matter |
| `Routes.MatchRebuildsPath` | modules/http/src/Route.cpp:106-131 | substituting the returned parameters into a pattern with distinct names and an only-last catch-all rebuilds the decoded path |
| `Routes.StableSortRanks` | modules/http/src/Route.cpp:166-170 | the stable sort orders by catch-all, then literals, then order of addition |
| `Routes.RouteTable.Find` | modules/http/src/Route.cpp:139-179 | nothing is found exactly if no route matches the normalised path; otherwise the earliest-added best of all that match, with its parameters, which put back into a proper pattern rebuild the path normalised twice |
| `Routes.FindRanked` | modules/http/src/Route.cpp:158-178 | the second loop, over the sorted parameterised routes |
| `Routes.NormalizedPiecesIff` | modules/http/src/Route.cpp:139-152 | decoding the normalised path again gives the same pieces if and only if no piece holds a slash or an escape once decoded |
| `Routes.SecondDecodingIff` | modules/http/src/Route.cpp:139-152 | the same condition in terms of routes: matching the normalised path agrees with matching the path for every route that can be added, if and only if the path is plain |
| `Routes.EscapedSlashShows` | modules/http/src/Route.cpp:139-152 | a path that is not plain although no percent sign is left: an escaped slash becomes a separator |
| `Routes.EscapedEscapeShows` | modules/http/src/Route.cpp:139-152 | a path that is not plain because an escaped percent sign begins a new escape |
| `RoutePatterns.HexDigitIff` | modules/http/src/Route.cpp:12-21 | the hexadecimal digits are those of the two alphabets, with their values, and no other character is one |
| `RoutePatterns.EscapeDecodes` | modules/http/src/Route.cpp:23-43 | a percent sign and the two digits of n, in either case, decode to the character n |
| `RoutePatterns.OthersStay` | modules/http/src/Route.cpp:23-43 | any other character decodes to itself |
| `RoutePatterns.SegmentIff` | modules/http/src/Route.cpp:65-86 | which pieces of a pattern are a catch-all, a parameter or themselves, said by how they are put together |
| `RoutePatterns.CatchAllMatches` | modules/http/src/Route.cpp:90-132 | a catch-all route matches every path that begins with its literal pieces and goes on, and binds its name to the rest |
| `RoutePatterns.AddThenFind` | modules/http/src/Route.cpp:134-179 | the same through the table: added alone, it is found for all such paths, whatever they are |
| `RoutePatterns.ChosenIff` | modules/http/src/Route.cpp:150-178 | which of the matching routes is found: one without parameters over any other, then one without a catch-all, then more literal pieces, then the one added first |
| `LittleEndian.FieldHolds` | modules/sys/src/Bitmap.cpp:183-203 | a little-endian field of k bytes holds a number modulo 256^k |
| `BmpFormat.RoundTrip` | modules/sys/src/Bitmap.cpp:169-325 | decoding an encoded image restores width, height, depth and every byte, whatever the row padding |
| `BmpFormat.RoundTripIff` | modules/sys/src/Bitmap.cpp:270-293 | for which dimensions every image survives: exactly if a row takes less than 2^32 bytes (the reader multiplies in 32 bits) and the height is below 2^31 |
| `Bitmaps.SetChangesOnePixel` | modules/sys/src/Bitmap.cpp:118-150 | setting one pixel changes that pixel, to the colour cut to the depth, and no other |
| `Bitmaps.PixelsApart` | modules/sys/src/Bitmap.cpp:164-167 | different pixels have no byte in common |
| `BmpLayout.PixelIsAt` | modules/sys/src/Bitmap.cpp:164-167 | a pixel is the little-endian number in the bytes from (line * width + column) * depth on |
| `BmpLayout.PixelInFile` | modules/sys/src/Bitmap.cpp:169-214 | in the file written, each pixel is behind 54 bytes of headers, in rows padded to a multiple of four |
| `BmpLayout.SetInFile` | modules/sys/src/Bitmap.cpp:141-214 | from setting a pixel to the file: its place holds the colour, the place of any other what it held |
| `BmpLayout.LineInFile` | modules/sys/src/Bitmap.cpp:204-212 | each line of the file is a line of the image and zeros |
| `BmpLayout.HeaderIsAt` | modules/sys/src/Bitmap.cpp:180-203 | every field of the two headers at its place, among them the file size, the header size and the image size |
| `BmpLayout.ReadAs` | modules/sys/src/Bitmap.cpp:254-281 | width, height and depth of an image read are those of the header, the height without its sign |
| `BmpLayout.LineFromFile` | modules/sys/src/Bitmap.cpp:279-318 | every line of an image read is a line of the file; a negative height turns the lines around exactly if rows are padded |
| `Bitmaps.Bitmap.Create` | modules/sys/src/Bitmap.cpp:81-100 | only 24 and 32 bits are accepted; the buffer is resized, keeping what was there |
| `Bitmaps.Bitmap.Set` | modules/sys/src/Bitmap.cpp:141-150 | writes one pixel's bytes, refuses what is out of bounds |
| `Bitmaps.Bitmap.Get` | modules/sys/src/Bitmap.cpp:118-129 | reads one pixel's bytes, refuses what is out of bounds |
| `Bitmaps.Bitmap.ToBmpData` | modules/sys/src/Bitmap.cpp:169-214 | the writing loop, by offset into one buffer, produces the specified file |
| `Bitmaps.Bitmap.ReadBmpData` | modules/sys/src/Bitmap.cpp:254-325 | the reader: rejection, exception, the blank image left by a bad offset, the unpadded copy that never turns over, the padded loop that does |
| `SshState.EventKeepsInv` | modules/ssh/src/SshServer.cpp:666-732 | every turn of the event loop keeps handler and server consistent: accept, channel open, requests, poll, close; freed addresses may be used again |
| `SshState.RegistryIsExact` | modules/ssh/src/BasicSshServerHandler.cpp:202-265 | in every reachable state the flat index holds exactly the channels of the open sessions, each at its own state, no channel has two sessions, and each is a wrapper the server still owns for that session |
| `SshState.OpenIsNeverRefused` | modules/ssh/src/SshServer.cpp:181-199 | no channel open is ever refused as belonging to an unknown session |
| `SshState.SessionsAreCounted` | modules/ssh/src/BasicSshServerHandler.cpp:202-236 | opened minus closed is the number of open sessions |
| `SshState.IdsAreNeverReused` | modules/ssh/src/BasicSshServerHandler.cpp:202-211 | a session id names one session: no other has it, and once out of use no run brings it back |
| `SshState.PollKeeps` | modules/ssh/src/BasicSshServerHandler.cpp:451-504 | forgetting finished channels keeps everything |
| `SshOutcomes.AfterAccepted` | modules/ssh/src/SshServer.cpp:502-603 | a connection accepted is a new session without channels, with an id of its own; one whose key exchange fails leaves no trace |
| `SshOutcomes.AfterChannelOpened` | modules/ssh/src/SshServer.cpp:153-199 | an opened channel is known with neither terminal nor handler, the server owns one more wrapper, and nothing else changed |
| `SshOutcomes.AfterPtyRequested` | modules/ssh/src/BasicSshServerHandler.cpp:267-284 | a terminal asked for on a known channel is remembered, and nothing else changes |
| `SshOutcomes.AfterHandlerRequested` | modules/ssh/src/BasicSshServerHandler.cpp:286-395 | an answered request leaves the channel with a handler exactly if it started; an unanswered one changes nothing |
| `SshOutcomes.AfterPolled` | modules/ssh/src/BasicSshServerHandler.cpp:451-504 | polling forgets exactly the channels that have a handler which has finished |
| `SshOutcomes.AfterClosed` | modules/ssh/src/SshServer.cpp:637-664 | after some connections closed the sessions left are exactly the others, unchanged on both sides |
| `SshServers.BasicSshServerHandler.OnSessionClosed` | modules/ssh/src/BasicSshServerHandler.cpp:217-236 | the loop that takes a closed session's channels out of the index |
| `SshServers.BasicSshServerHandler.OnChannelOpen` | modules/ssh/src/BasicSshServerHandler.cpp:238-265 | a channel is placed in its session and in the index |
| `SshServers.BasicSshServerHandler.OnPoll` | modules/ssh/src/BasicSshServerHandler.cpp:451-504 | the nested loops, whatever order they visit, forget exactly the finished channels |
| `SshServers.BasicSshServerHandler.ChannelBypassesDataCallback` | modules/ssh/src/BasicSshServerHandler.cpp:437-449 | following the index reaches the state of an open channel |
| `SshServers.SshServer.AcceptSession` | modules/ssh/src/SshServer.cpp:502-603 | a failed key exchange leaves nothing behind, a good one registers server and handler side |
| `SshServers.SshServer.CallbackChannelOpen` | modules/ssh/src/SshServer.cpp:153-199 | the wrapper is kept exactly if the handler allows the channel |
| `SshServers.SshServer.CleanupClosedSessions` | modules/ssh/src/SshServer.cpp:637-664 | telling the handler of all closed sessions first and cleaning up afterwards comes to closing them one after the other |
| `ServiceTree.StartSucceedsIff` | modules/core/src/Device.cpp:91-122 | starting an all-stopped tree succeeds exactly if every service in it is willing, and then all of them run |
| `ServiceTree.StartIsAllOrNothing` | modules/core/src/Device.cpp:91-136 | given that stops succeed: success leaves everything running and stopping undoes it, failure at any depth leaves nothing running |
| `ServiceTree.FailureIsUndone` | modules/core/src/Device.cpp:91-122 | the exact tree after a failed start: the states on the path to the failure are Error, everything else is as before |
| `ServiceTree.FailureLeavesUpIff` | modules/core/src/Device.cpp:114-120 | without that assumption a failed start leaves something running exactly if a service started before the failure refuses to stop |
| `ServiceTree.StopUndoesRaise` | modules/core/src/Device.cpp:124-136 | stopping visits every service whatever fails, and succeeds exactly if every on_stop does |
| `ServiceTree.StopOutcome` | modules/core/src/Device.cpp:124-136 | what stopping a running tree leaves, down to every service: up where its on_stop failed, in error above such a service |
| `ServiceTree.StopSucceedsIff` | modules/core/src/Device.cpp:124-136 | a tree in any state stops exactly if every managed service runs and every on_stop succeeds |
| `ServiceTree.WrongStateIsRefused` | modules/util/src/AService.cpp:12-40 | a managed service in the wrong state is neither started nor stopped, and nothing changes |
| `ServiceTree.LifeCycle` | modules/util/src/ServiceController.cpp:10-40 | the states a service goes through, that any failing operation ends in error, and that nothing leads out of it |
| `ServiceTree.ErrorIsFinal` | modules/util/src/AService.cpp:12-40 | a managed service whose start failed can neither be started nor stopped again |
| `Devices.Service.StartService` | modules/core/src/Device.cpp:91-122 | start with its controller, the loop over the children, and the rollback, equals the specification over the object tree |
| `Devices.Service.StopService` | modules/core/src/Device.cpp:124-136 | stop likewise |
| `Devices.Service.TryKids` | modules/core/src/Device.cpp:93-110 | the starting loop stops at the first child that fails |
| `PtyInput.RunConserves` | modules/ssh/src/SshSubsystemPty.cpp:114-157 | over every run, with partial or failing writes, what was delivered followed by what is pending is, in order, every chunk on_data took |
| `PtyInput.AllOfIt` | modules/ssh/src/SshSubsystemPty.cpp:124-157 | a chunk is taken whole or not at all, and rejected exactly if a first write of it fails |
| `PtyInput.PollsDeliver` | modules/ssh/src/SshSubsystemPty.cpp:114-122 | over any run of polls that each find the terminal willing, what was pending is delivered in order, all of it after at most as many polls as bytes |
| `PtyInput.EofLosesNothingIff` | modules/ssh/src/SshSubsystemPty.cpp:180-188 | on_eof closes the terminal's input at once: nothing is delivered after it, so that nothing taken is lost if and only if nothing was pending at that moment |
| `PtyInput.SshSubsystemPty.HandleData` | modules/ssh/src/SshSubsystemPty.cpp:124-157 | on_data on the object and its terminal |
| `PtyInput.SshSubsystemPty.DrainPendingInput` | modules/ssh/src/SshSubsystemPty.cpp:114-122 | drain_pending_input on the object and its terminal |

## Left out

- Floating point: vertices and clip rectangles are real numbers; rounding of the centroid and of vertex coordinates is not modelled.
- Renderer.CellRenderer.DrawFillTriangle: screens are assumed narrower than 999999 columns, the value the range array starts from.
- The terminal: text is written cell by cell from the cursor, attributes are pair ids as the renderer passes them; wrapping, scrolling, and what ncurses does with an id it refuses or cannot pack into an attribute are not modelled. An id below 1 names no pair. The number of colour pairs is a parameter.
- Integer width of screen indices, queue sizes, lock depths and counters: they are unbounded, except in the checksum, the number parser, the BMP fields and the colour pair ids, where the width is modelled.
- LuaGil: spurious wake-ups are steps like any other; several interpreters with a lock each, and guards whose state pointer has no lock, are not modelled.
- DevPlayer: stopping during a replay, the delays between records and the content of the written channels; one replay from an empty queue. The end is claimed to come after every record was taken, not after the last one was written.
- Players.Player.Play: the number of spurious wake-ups in one replay is finite; a collector woken for nothing for ever, and never anything else, is not ruled out by the code.
- ChannelCascade: delayed rules and their scheduler, other threads writing at the same time, and observers that are not filters. There a rule is any function from the input bytes to what it writes. Trying to lock a notify mutex the thread already holds is taken to fail, as the code expects, and locking a filter mutex it already holds to block for ever; the language leaves both undefined.
- ChannelCascade.HazardCanDeadlock: the rules it builds read and write single bytes; other element types would need a trigger of their own.
- FilterRules: channels of floating-point numbers and the type checks that go with them.
- Checksum: a little-endian machine; the pseudo header of ICMPv6 is not part of the message the code sums.
- HttpText: the escape options of the splitter that HTTP does not use.
- HttpRequests: addresses, credentials, path parameters and JSON content, which are never printed.
- HttpResponses: the table of reason phrases is a parameter, any text without line breaks; streaming and content types are not modelled.
- Routes: characters are those of a string; a byte above 127 decoded from an escape is the character of that number. The handler of a route is a number.
- Bitmaps.Bitmap.ReadBmpData: a stored height of exactly 2^31 is negated in 32 bits by the code, which is undefined; the model reads it as 2^31 and the round trip excludes it. Files, the colour table and products of dimensions beyond 64 bits are not modelled.
- SshServers: a server without a handler, authentication, the handler objects behind a channel and what they do with data, and shutdown, which frees wrappers without telling the handler.
- ServiceTree: set-up, initialisation and reset of a tree, services that may start before initialisation, observers of state changes, and children that are not services.
- Devices.Service: whether resolve_links, on_start and on_stop succeed is fixed for each service beforehand.
- PtyInput: output of the terminal, resizing, exit codes; a handler is taken to serve one terminal, so pending bytes carried over to a second one are not told apart.
- CSV files, configuration strings, sockets, polling, TLS, name resolution, logging and the graphical back ends: they wrap other libraries or hold no state worth a proof here.
