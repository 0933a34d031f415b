# Verified models of the network library

These Dafny modules model the parts of the repository where bytes, text, linked lists and
protocol state have to agree, and prove what those parts promise: the IPv4 and IPv6 text codec,
the `addrinfo` list builder behind `getaddrinfo`, the buffered line reader and the framed chat
stream, the discovery protocol of the LAN chat, the Internet checksum, the retransmission timer and
the interface name table. `dafny verify dfyconfig.toml` checks all of them.

| file | what it models | main results |
|---|---|---|
| `CText.dfy` | digits, numerals, fields between separators | splitting and joining undo each other |
| `DottedQuad.dfy` | `inet_pton4`, `inet_ntop4` | the parser accepts exactly the dotted quads; printing is undone |
| `InetAton.dfy` | `inet_aton`, for both widths of a long | agrees with the strict parser exactly on four non-wrapping fields |
| `Numerals.dfy` | what those parsers make of digits | a text is read exactly when it is what is printed, with any zeros in front, in either case |
| `Inet6Text.dfy`, `Inet6Parse.dfy` | the texts of section 2.2 of RFC 4291 and `inet_pton6` | exactly which texts are accepted and what each denotes |
| `Inet6Forms.dfy` | what `inet_pton6` takes beyond the standard | every accepted text has one form, which tells exactly whether the standard has the text |
| `Inet6Print.dfy` | `inet_ntop6` | round trip for every address, canonical compression, at most 39 characters |
| `Inet6Canonical.dfy` | the text `inet_ntop6` prints, said of the 16 bytes | the canonical text of RFC 5952, and exactly which addresses get a dotted tail |
| `GaiList.dfy`, `GaiPort.dfy`, `GetAddrInfo.dfy` | `libgai` | the list stays one chain and owns exactly the live memory through every allocation failure; n addresses times k types; the answers for literal, wildcard and resolver hosts; exactly when the canonical name leaks |
| `Stream.dfy`, `LineReader.dfy` | `readn`, `writen`, `readline`, `str_cli` | the lines are those of the byte stream however it arrives |
| `Framing.dfy` | `str_utils.c` and the chat of `lan_chat-v1.c` | every message is delivered whole, in order, under any chunking, exactly when every header comes whole |
| `Discovery.dfy` | `lan_chat-v4.c` and `udp-broadcast.c` | an exact balance of peer entries and offers over every run |
| `Meeting.dfy` | runs of `lan_chat-v4.c` in which nodes meet | any number of arrivals form a group in which everybody has everybody once; two nodes can meet exactly when one hears the other |
| `Checksum.dfy` | `in_cksum` | correct exactly when the sum does not wrap; independent of byte order |
| `Rtt.dfy` | `rtt.c`, over reals | closed form from any estimate, convergence after any run, bounds over every run |
| `IfTable.dfy` | `if_nameindex`, `get_rtaddrs` | the two growing regions never meet, and the table reads back |

C code that updates state in place is a class or a method over arrays here; each such method is
proved against a specification function, and the promises are lemmas about that function. Text is a
sequence of characters without its terminator. I/O is a script of events: a descriptor has the bytes
it will deliver and a plan that says for each call whether it is interrupted, fails, or how much it
moves. The resolver and the services database are arbitrary functions, and allocation is a count of
how many more allocations will succeed.

## Where the code and its documentation differ

- `libfree/inet_pton.c:134` says that a `::` in a full address is ignored. The shift at lines 213-216
  clears every byte after the gap instead, so the promise holds exactly when those bytes are zero
  (`Inet6Parse.FullGapIgnoredExactly`); `1:2:3:4:5:6:7::8` breaks it (`Inet6Parse.FullGapNotIgnored`).
- `libfree/inet_pton.c:131` says that it accepts the addresses of section 2.2 of RFC 1884. It also accepts
  one trailing colon after a last group and any number of leading zeros (`Inet6Parse.AcceptsExactly`).
  `Inet6Forms.StandardExactly` says which accepted texts are of the standard, and
  `Inet6Forms.BeyondTheStandard` gives three that are not.
- `libgai/ga_port.c:12-25` lists the order of the entries for two socket types and says that any number
  works. With more than two, the copies of an address come latest first (`GaiPort.EveryAddressEveryType`).
- `02-lan-p2p-chat/lan_chat-v4.c:7-8` says that the bind address disables self-reception. The test is a
  prefix test on text, so 10.0.0.1 also ignores 10.0.0.12 (`Discovery.FilterIsPrefixOfLastOctet`), and a
  node never records itself exactly when its own text passes the test (`Discovery.NeverItselfExactly`). Two
  nodes can still meet as long as one of them hears the other (`Meeting.MeetExactly`).
- `libfree/inet_ntop.c:95` lets a text of exactly `size` characters through, and the terminator then goes
  behind the caller's buffer; in every other call the writes stay inside (`DottedQuad.StaysWithinExactly`,
  `DottedQuad.TerminatorPastTheEnd`).
- `libgai/getaddrinfo.c:16-19` says that an error frees all dynamic memory. The canonical name is not
  freed when the call fails between copying it and handing it to the list, and
  `GetAddrInfo.GetAddrInfo` states exactly when that is (`GetAddrInfo.NameWithoutAddressLeaks`,
  `GetAddrInfo.NameWithoutMemoryLeaks`).
- `02-lan-p2p-chat/lan_chat-v1.c:133` reads a header with one plain `read`. The receiver prints every message
  and comes to the end of the stream exactly when each of those reads gives four characters
  (`Framing.EveryPayloadReceived`). A shorter read takes the missing characters from the header before, and
  what is printed then need not have been sent (`Framing.StaleHeader`, `Framing.GarbledMessage`); a signal
  during such a read ends the loop (`Framing.InterruptedHeaderLosesAll`).
- `libroute/if_nameindex.c:44-45` writes the last entry even if the block has no room for it, which happens
  exactly when the list of messages is empty (`IfTable.IfNameindex`).
- `lib/readline.c:47-48` returns one more than the number of characters when it cuts a line short.
- `libfree/in_cksum.c:12-14` gives no bound on the length. The result is right exactly when the 32-bit
  sum does not wrap, and 131074 bytes is the largest length for which it never does
  (`Checksum.RightExactlyWithoutWrap`, `Checksum.BoundIsTight`).

## Model

| member | source | states |
|---|---|---|
| `DottedQuad.InetPton4` | libfree/inet_pton.c:87-125 | accepts exactly four dot-separated nonempty digit groups of value at most 255, stores their values, and leaves the destination alone otherwise |
| `DottedQuad.InetNtop4` | libfree/inet_ntop.c:86-101 | for every buffer of `size` places: fails and writes nothing when the text is longer, else writes the text and its terminator, which lies behind the buffer exactly when the text has `size` characters |
| `DottedQuad.StaysWithinExactly` | libfree/inet_ntop.c:95-99 | the call stays within its buffer exactly when the text is not `size` characters long |
| `DottedQuad.TerminatorPastTheEnd` | libfree/inet_ntop.c:95-99 | a concrete call that writes past its buffer |
| `DottedQuad.QuadRoundTrip` | libfree/inet_pton.c:95-124 | for every IPv4 address, reading the printed text gives the same four bytes, and the text has 7 to 15 characters |
| `DottedQuad.DoomedByField` | libfree/inet_pton.c:104-105 | a finished group that is empty, not decimal or above 255 rejects every continuation |
| `DottedQuad.DoomedByCount` | libfree/inet_pton.c:113-114 | a fourth dot rejects every continuation |
| `InetAton.Aton` | libfree/inet_aton.c:22-75 | accepts exactly one to four groups whose wrapped value is at most 255, and stores them left-aligned in network order, only when a place is given |
| `InetAton.AccumulatedIsWrapped` | libfree/inet_aton.c:42 | the accumulator of a group is its decimal value modulo the width of a long |
| `InetAton.ShiftPads` | libfree/inet_aton.c:64-67 | the shift that normalises a short address appends zero bytes |
| `InetAton.StrictIsAtonOnFourFields` | libfree/inet_aton.c:28-67 | the two IPv4 parsers agree wherever the strict one accepts, which is exactly on four nonempty groups none of which wraps |
| `Numerals.DecimalExactly` | libfree/inet_pton.c:101-106 | a digit string has a value exactly when it is zeros and then what is printed for the value |
| `Numerals.HexExactly` | libfree/inet_pton.c:165-172 | a hexadecimal group has a value exactly when, in lower case, it is zeros and then what is printed for the value |
| `Numerals.QuadExactly` | libfree/inet_pton.c:95-124 | the strict parser reads exactly the printed quads with any zeros in front of a number, and gives the bytes they were printed for |
| `Numerals.ShortAddress` | libfree/inet_aton.c:28-67 | one to four numbers between dots, any of them with zeros in front and a zero possibly left out, are read as their bytes with zeros after them |
| `Inet6Parse.InetPton6` | libfree/inet_pton.c:141-224 | the in-place parser computes the one-pass reading for every text and does not touch the destination unless it succeeds |
| `Inet6Parse.PassOver` | libfree/inet_pton.c:152-204 | the loop over the text: the write cursor stays within 16 bytes, and what is in the buffer and where the gap was determine the result |
| `Inet6Parse.ShiftToEnd` | libfree/inet_pton.c:205-218 | the overlapping shift turns prefix and suffix into prefix, zeros, suffix; with no gap it leaves zeros |
| `Inet6Parse.SpreadFillsGap` | libfree/inet_pton.c:213-216 | for every gap of at least one byte the final layout is prefix, exactly the missing zeros, suffix |
| `Inet6Parse.AcceptsExactly` | libfree/inet_pton.c:152-223 | a text is read as an address if and only if it is the written form of an accepted text that stands for that address |
| `Inet6Parse.AcceptedIsRead` | libfree/inet_pton.c:152-223 | every accepted text is read as the address it stands for |
| `Inet6Parse.ReadIsAccepted` | libfree/inet_pton.c:152-223 | nothing else is read: every text the parser takes is groups, at most one gap, an optional dotted tail and an optional stray colon |
| `Inet6Parse.StandardIsRead` | libfree/inet_pton.c:128-133 | every text of section 2.2 of RFC 4291 is accepted and yields the address it denotes |
| `Inet6Parse.FullGapIgnoredExactly` | libfree/inet_pton.c:134 | a gap in a full address is ignored exactly when every byte written after it is zero |
| `Inet6Parse.FullGapNotIgnored` | libfree/inet_pton.c:134 | a concrete address text for which the promise of line 134 fails |
| `Inet6Parse.SecondGapRejected` | libfree/inet_pton.c:175-182 | a text with two occurrences of `::`, overlapping ones included, is rejected |
| `Inet6Parse.AcceptedHasColon` | libgai/getaddrinfo.c:71-72 | every IPv6 text passes the guard in front of the parser: it starts with a hex digit or a colon and has a colon |
| `Inet6Parse.NoTextIsBoth` | libfree/inet_pton.c:64-67 | no text is both an IPv4 and an IPv6 address |
| `Inet6Forms.TextFields` | libfree/inet_pton.c:162-198 | the text of an accepted form splits at its colons into the fields of the form, with the empty ones that a gap and a stray colon leave |
| `Inet6Forms.OneForm` | libfree/inet_pton.c:152-223 | an accepted text has only one form |
| `Inet6Forms.StandardExactly` | libfree/inet_pton.c:128-133 | an accepted text is one of the standard exactly when it has no stray colon, no group of more than four digits and no gap in a full address |
| `Inet6Forms.BeyondTheStandard` | libfree/inet_pton.c:128-133 | three texts that are accepted though the standard has none of them |
| `Inet6Print.InetNtop6` | libfree/inet_ntop.c:110-198 | writes the printed text and its terminator exactly when both fit, else nothing |
| `Inet6Print.FormatAddr6` | libfree/inet_ntop.c:161-187 | the formatting loop produces the standard text of the address, of at most 39 characters, inside its 46-character temporary |
| `Inet6Print.PackWords` | libfree/inet_ntop.c:132-134 | or-ing shifted bytes gives the eight 16-bit words |
| `Inet6Print.FindRun` | libfree/inet_ntop.c:135-156 | the one-pass search finds the run to compress, or none |
| `Inet6Print.ChosenRun` | libfree/inet_ntop.c:135-156 | that run is the leftmost longest run of zero words, and has at least two (sections 4.2.2 and 4.2.3 of RFC 5952) |
| `Inet6Print.ChosenIsUnique` | libfree/inet_ntop.c:135-156 | those rules leave one choice |
| `Inet6Print.EmittedIsPrinted` | libfree/inet_ntop.c:162-186 | the pieces the loop appends turn by turn, with the dotted tail or trailing colon, are that standard text |
| `Inet6Print.PrintsStandardText` | libfree/inet_ntop.c:132-187 | for every address the text is one of section 2.2 of RFC 4291 and denotes the address |
| `Inet6Print.RoundTrip` | libfree/inet_ntop.c:132-187 | for every address, parsing the printed text gives the same 16 bytes |
| `Inet6Print.PrintIsInjective` | libfree/inet_ntop.c:132-187 | different addresses print differently |
| `Inet6Print.PrintedLength` | libfree/inet_ntop.c:122 | no printed address is longer than 39 characters |
| `Inet6Canonical.DottedExactly` | libfree/inet_ntop.c:173-180 | the text has a dotted tail exactly for the IPv4-mapped addresses and the IPv4-compatible ones of more than 16 bits, said of the bytes |
| `Inet6Canonical.MappedText` | libfree/inet_ntop.c:173-180 | an IPv4-mapped address is "::ffff:" and its last four bytes as a dotted quad |
| `Inet6Canonical.CompatibleText` | libfree/inet_ntop.c:173-180 | an IPv4-compatible one is "::" and the dotted quad |
| `Inet6Canonical.PlainCanonical` | libfree/inet_ntop.c:161-187 | an address without two zero words in a row is eight numerals between colons, each lower case and without leading zeros, of the bytes in network order |
| `Inet6Canonical.GappedCanonical` | libfree/inet_ntop.c:135-187 | in every other address that is not dotted, "::" stands for the longest run of zero words, the first of several, and the words around it are such numerals |
| `Inet6Canonical.ShortestIsHexText` | libfree/inet_ntop.c:181-181 | there is one such numeral for each number |
| `GaiList.Memory.Free` | libgai/freeaddrinfo.c:10-17 | only what is live can be freed, and it stops being live |
| `GaiList.LinkLast` | libgai/ga_aistruct.c:16-19 | writing through the pointer to the last link appends the node and keeps one acyclic chain |
| `GaiList.LinkAfter` | libgai/ga_clone.c:16-17 | splicing a node in after any node keeps one acyclic chain |
| `GaiList.GaAistruct` | libgai/ga_aistruct.c:8-88 | appends the address with its type and clone flag when two allocations are left; otherwise no memory, with the chain and the accounting intact |
| `GaiList.GaClone` | libgai/ga_clone.c:8-30 | puts a copy without the clone flag and with a socket address of its own right after the node, or fails with the chain and the accounting intact |
| `GaiList.Freeaddrinfo` | libgai/freeaddrinfo.c:4-19 | frees every object of the list, each while it is still live, and nothing else |
| `GaiList.FirstFreed` | libgai/freeaddrinfo.c:9-18 | one turn of the loop frees three live objects that the rest of the list does not share |
| `GaiPort.GaPort` | libgai/ga_port.c:30-65 | the walk ends although the list grows under it; it fails exactly when the copies do not fit, and else returns how many entries got the port and leaves the list so treated |
| `GaiPort.PortStep` | libgai/ga_port.c:38-62 | one turn: set, copy or skip, ending on the node after which the walk goes on |
| `GaiPort.RoundsMakeBlocks` | libgai/ga_port.c:17-26 | any number of calls with distinct types leaves every address with every type, block by block, each call touching each address once |
| `GaiPort.FoundIsProduct` | libgai/ga_port.c:64 | k such calls on n addresses return n times k in all |
| `GaiPort.EveryAddressEveryType` | libgai/ga_port.c:17-26 | the n times k entries: where each address and type stands, with that type's port and the address, family and protocol unchanged |
| `GaiPort.TwoRounds` | libgai/ga_port.c:12-16 | with two types each address is followed by its copy, as the example in the comment lists them |
| `GaiPort.OneRound` | libgai/ga_serv.c:25-27 | one guarded call: no memory exactly when the copies of this round do not fit, else the count grows by what it found |
| `GaiPort.NumericService` | libgai/ga_serv.c:17-31 | a port number is one round for the type asked for, or a stream and a datagram round |
| `GaiPort.NamedService` | libgai/ga_serv.c:33-47 | a name is looked up for TCP and then UDP, as the socket type allows |
| `GaiPort.GaServ` | libgai/ga_serv.c:8-57 | the rounds a service string calls for, and the result: no memory exactly when the copies do not fit, no name or no service when nothing was found |
| `GaiPort.NumericPortIs` | libgai/ga_serv.c:16-17 | the port of a numeric service is the number that all its leading digits make, in 16 bits |
| `GaiPort.PortAsPrinted` | libgai/ga_serv.c:17-17 | a number written in decimal, whatever follows its digits, is that port, and a larger one is cut to 16 bits |
| `GaiPort.NamedForBoth` | libgai/ga_serv.c:33-47 | a name that both databases have, with no type given: each address as a stream with the TCP port and next to it as a datagram with the UDP port |
| `GaiPort.NamedForOne` | libgai/ga_serv.c:33-47 | a name that only one has: each address once, with that type and port |
| `GaiPort.PortForType` | libgai/ga_serv.c:18-47 | a type that is given takes the port number, or the port of its own transport, and of no other |
| `GaiPort.TypedService` | libgai/ga_serv.c:18-22 | a caller that gives the type gets each address once, in order, with the port, and nothing is copied |
| `GaiPort.OpenTypeService` | libgai/ga_serv.c:23-48 | a caller that leaves it open gets each address with every type the service is offered for |
| `GaiPort.ServiceFoundExactly` | libgai/ga_serv.c:50-56 | success exactly when the service is a number or the database has it for a wanted type; else the code says whether a type was given |
| `GetAddrInfo.GaNsearch` | libgai/ga_nsearch.c:9-114 | the host and family pairs to search, IPv6 first |
| `GetAddrInfo.LiteralQuad` | libgai/getaddrinfo.c:52-66 | every dotted quad passes the digit guard and is taken as an IPv4 literal |
| `GetAddrInfo.Literal6` | libgai/getaddrinfo.c:69-86 | every IPv6 text passes the guards and is taken as an IPv6 literal |
| `GetAddrInfo.LiteralHostOneEntry` | libgai/getaddrinfo.c:49-138 | a literal host with an open family gives one base entry, every field of it stated, whatever the resolver would say |
| `GetAddrInfo.PassiveIsAny` | libgai/ga_nsearch.c:33-44 | no host, passive, open family: the IPv6 wildcard and then the IPv4 wildcard |
| `GetAddrInfo.ActiveIsLoopback` | libgai/ga_nsearch.c:65-76 | no host, not passive, open family: the IPv6 loopback address, and then what the resolver has for "localhost" in IPv4 |
| `GetAddrInfo.OneFamilyWithoutHost` | libgai/ga_nsearch.c:15-79 | no host and one family: the wildcard when passive, else the IPv6 loopback address or the resolver's "localhost", with its errors |
| `GetAddrInfo.NewEntriesAre` | libgai/getaddrinfo.c:132-137 | the entries for a host's addresses, in the resolver's order, every field of each |
| `GetAddrInfo.ErrorCheckExactly` | libgai/ga_echeck.c:8-53 | which of the five results the check of the arguments gives, each with its exact condition |
| `GetAddrInfo.HostErrors` | libgai/getaddrinfo.c:56-123 | the errors of the host search: a literal or a resolver's host of another family, a host without addresses, a host the resolver does not have in the one family or in both |
| `GetAddrInfo.NumericServiceTwice` | libgai/ga_serv.c:16-31 | a numeric service with no type gives each base entry, with the number its leading digits make as port, as a stream and next to it as a datagram |
| `GetAddrInfo.LiteralAndNumericService` | libgai/getaddrinfo.c:48-162 | the whole answer for a literal host and a numeric service, every field of both entries and the canonical name, independent of both databases |
| `GetAddrInfo.PassiveAndNumericService` | libgai/getaddrinfo.c:48-162 | the whole answer for a passive call with a port number: both wildcards, each as stream and datagram, every field of the four entries |
| `GetAddrInfo.ResolverHost` | libgai/getaddrinfo.c:94-137 | a host that is no literal gives the addresses of its IPv6 search and then those of its IPv4 search, and the first name of the two when one is wanted |
| `GetAddrInfo.OpenTypeAnswer` | libgai/getaddrinfo.c:139-162 | whatever the search gave: each address with every type and port the service is offered for, and where it stands |
| `GetAddrInfo.GivenTypeAnswer` | libgai/getaddrinfo.c:139-162 | the same for a caller that gives the type: each address once |
| `GetAddrInfo.ServiceAnswer` | libgai/getaddrinfo.c:155-159 | the call succeeds exactly when the service is offered |
| `GetAddrInfo.AddAddresses` | libgai/getaddrinfo.c:132-137 | one entry for each address, or no memory exactly when two allocations each are not left |
| `GetAddrInfo.AddItem` | libgai/getaddrinfo.c:51-137 | one turn of the search loop: literal or resolver, family check, canonical name kept the first time, and its exact cost |
| `GetAddrInfo.Gather` | libgai/getaddrinfo.c:48-138 | the search loop collects what the searches give, in order, up to the first error |
| `GetAddrInfo.NameFirst` | libgai/getaddrinfo.c:143-153 | the canonical name, when one is wanted, is handed to the first entry; the host text is copied when the resolver gave none |
| `GetAddrInfo.NameAndServe` | libgai/getaddrinfo.c:143-159 | the name is handed over, then the service is applied, with the exact cost |
| `GetAddrInfo.GetAddrInfo` | libgai/getaddrinfo.c:6-167 | the result depends only on arguments and databases unless memory runs out, which is exactly when less is left than the answer needs; on success the live memory grows by exactly the list, on failure by nothing, unless the canonical name leaks, whose exact condition it states |
| `GetAddrInfo.NameWithoutAddressLeaks` | libgai/getaddrinfo.c:125-140 | a failing call that leaks: a name without an address |
| `GetAddrInfo.NameWithoutMemoryLeaks` | libgai/getaddrinfo.c:125-137 | and a likelier one: a name and an address, and memory for the name but not for the entry |
| `GetAddrInfo.ErrorHasNoName` | libgai/getaddrinfo.c:108-130 | a search that ends in an error has no canonical name to lose |
| `GetAddrInfo.NamePrefix` | libgai/getaddrinfo.c:125-130 | the first name found is the one kept, and what has been allocated by then |
| `Stream.Readn` | lib/readn.c:4-26 | for every plan of chunks, interrupts and failures: the first n bytes, or all there are at the end of the data, and which part of the plan is used up; -1 exactly when one of its reads fails |
| `Stream.Writen` | lib/writen.c:4-25 | under any chunking and interrupts: every byte in order, or an error after a prefix |
| `LineReader.LineIsLine` | lib/readline.c:35-47 | what is stored ends at the first newline, at the bound or at the end of the data |
| `LineReader.LineIsUnique` | lib/readline.c:35-47 | no other text meets that description |
| `LineReader.LinesAreTheStream` | lib/readline.c:28-49 | the lines of a stream, put together, are the stream |
| `LineReader.Reader.MyRead` | lib/readline.c:8-26 | one character off the stream under any chunking, with buffered and unread bytes still the whole rest |
| `LineReader.Reader.Readline` | lib/readline.c:28-49 | for every `maxlen`, zero included, stores the next line and a terminator; stored, buffered and unread bytes are the original stream; the count is one too high when the line is cut short |
| `LineReader.Reader.Readlinebuf` | lib/readline.c:51-57 | shows exactly the bytes that were read and not handed out |
| `LineReader.Exchange` | lib/str_cli.c:8-16 | one turn: the line is sent up to its first NUL, the next line of the peer is read, and it is printed up to its first NUL |
| `LineReader.StrCli` | lib/str_cli.c:3-17 | what is read is the lines, of at most 4095 characters, of the peer's stream, one for each line sent, both cut at the first NUL when sent or printed, and it stops early only when there are no more |
| `Framing.Hex4Carries` | lib/str_utils.c:5-17 | writing and reading back the length field gives the number exactly when it is at most 0xffff, and something smaller otherwise |
| `Framing.ChompInPlace` | lib/str_utils.c:19-22 | cuts the text before its first carriage return, newline or NUL and changes nothing else |
| `Framing.FrameRoundTrip` | lib/str_utils.c:25-39 | a frame comes off a stream whole, leaving it at the next frame, exactly when its length fits four hex digits |
| `Framing.CreateSendMsg` | lib/str_utils.c:25-39 | what is sent for a line: four hex digits that count themselves, all that follows and the terminator, exactly when that fits; then the user, a colon, a space, and the line before its first carriage return, newline or NUL |
| `Framing.TypedText` | lib/str_utils.c:25-39 | for a text typed with either line end or with none, what is shown is the user, a colon, a space and the text, and nothing else |
| `Framing.FirstFourDigits` | lib/str_utils.c:5-9 | a length that does not fit is sent as the first four of its digits |
| `Framing.MessageLoop` | 02-lan-p2p-chat/lan_chat-v1.c:109-120 | one frame for each line, in order, until the end signal |
| `Framing.ReadPayload` | 02-lan-p2p-chat/lan_chat-v1.c:136-139 | what the data gave of a payload, and behind it what was in the memory; it fails exactly when one of its reads does |
| `Framing.ReceiveOne` | 02-lan-p2p-chat/lan_chat-v1.c:133-140 | one turn of the receiver on any stream, over the header buffer of the turn before, for any reading that sscanf gives a header |
| `Framing.ReceiveFrames` | 02-lan-p2p-chat/lan_chat-v1.c:132-143 | on any stream, plan and header buffer, what is printed, stale headers included, and how the loop ends |
| `Framing.TakenFrames` | lib/str_utils.c:25-39 | the frames that fit come off a stream just as they were put on it |
| `Framing.WholeTurn` | 02-lan-p2p-chat/lan_chat-v1.c:133-140 | a header that comes whole takes the frame at the front of the stream, whatever the buffer held |
| `Framing.DeliveredExactly` | 02-lan-p2p-chat/lan_chat-v1.c:132-143 | on a stream that is frames throughout, every payload is printed and the end is reached exactly when every header comes whole |
| `Framing.EveryPayloadReceived` | 02-lan-p2p-chat/lan_chat-v1.c:132-143 | so for whatever was framed: all of it is printed, in order, and the end is reached exactly when the headers come whole, however the payloads are cut up |
| `Framing.NotDelivered` | 02-lan-p2p-chat/lan_chat-v1.c:132-134 | a short header always spoils the delivery: too little is left for the rest |
| `Framing.EndAccounts` | 02-lan-p2p-chat/lan_chat-v1.c:132-143 | a loop that came to the end took at most four characters for each header and what it showed |
| `Framing.WholeOnesReceived` | 02-lan-p2p-chat/lan_chat-v1.c:132-143 | the messages before the first header that does not come whole are printed first, in order, whatever comes later |
| `Framing.WideIsWhole` | 02-lan-p2p-chat/lan_chat-v1.c:132-133 | reads of four characters or more, none interrupted, always deliver everything |
| `Framing.InterruptedHeaderLosesAll` | 02-lan-p2p-chat/lan_chat-v1.c:133-133 | a signal in the read of a header ends the loop and nothing more is printed |
| `Framing.StaleHeader` | 02-lan-p2p-chat/lan_chat-v1.c:132-140 | a short header read after a message of the same length: what is missing of it is printed in front of a message cut short by as much |
| `Framing.SmallFieldSwallowsAll` | 02-lan-p2p-chat/lan_chat-v1.c:135-139 | a header that says less than five wraps round: all that is left of the stream is taken for its payload |
| `Framing.GarbledMessage` | 02-lan-p2p-chat/lan_chat-v1.c:132-140 | two messages and one short read after which a text is printed that was never sent |
| `Framing.ChatIsFramable` | 02-lan-p2p-chat/lan_chat-v1.c:40-41 | the limits on user name and line make every frame fit |
| `Framing.ChatShownIsSent` | 02-lan-p2p-chat/lan_chat-v1.c:109-120 | what a chat shows when nothing is lost is one sequence of texts, those that are framed |
| `Framing.Chat` | 02-lan-p2p-chat/lan_chat-v1.c:109-143 | a whole chat, over the typed lines: what is printed is, for each line before the first that starts with "am-end" and in order, the user, a colon, a space and the text of the line, and the end is reached, exactly when the headers come whole; the messages before the first that does not are printed in any case |
| `Discovery.FilterIsPrefixOfLastOctet` | 02-lan-p2p-chat/lan_chat-v4.c:118-121 | the self filter drops exactly the senders with the same first three octets whose last octet starts with the node's digits |
| `Discovery.FilterTooWide` | 02-lan-p2p-chat/lan_chat-v4.c:118-121 | a concrete neighbour that the filter drops |
| `Discovery.OwnAddressFiltered` | 02-lan-p2p-chat/lan_chat-v4.c:118-121 | a node bound by its canonical address always drops itself |
| `Discovery.Node.Confirm` | 02-lan-p2p-chat/udp-broadcast.c:23-31 | a frame on the find socket adds its sender when it is an offer and ends the node otherwise |
| `Discovery.Node.Listen` | 02-lan-p2p-chat/lan_chat-v4.c:113-142 | a request that is not the node's own is answered with an offer and recorded with the chat port; nothing else changes the peers |
| `Discovery.Node.Speak` | 02-lan-p2p-chat/lan_chat-v4.c:166-177 | a typed line goes once to every peer entry, from the find socket, as the user, a colon, a space and the line before its end |
| `Discovery.StepKeeps` | 02-lan-p2p-chat/lan_chat-v4.c:95-251 | every step keeps the traffic honest, the peers well recorded and the balance |
| `Discovery.EntriesAndOffersBalance` | 02-lan-p2p-chat/lan_chat-v4.c:126-131 | in every run, for any two nodes, entries plus unconsumed offers are equal in both directions |
| `Discovery.CountIs` | 02-lan-p2p-chat/lan_chat-v4.c:130-131 | the entries counted there are the places at which the other node is recorded |
| `Discovery.QuietMeansSymmetric` | 02-lan-p2p-chat/lan_chat-v4.c:126-131 | once no offer is under way, two nodes know each other equally often |
| `Discovery.RunKeeps` | 02-lan-p2p-chat/lan_chat-v4.c:95-251 | so does every run from a start in which nobody has peers and nothing is under way |
| `Discovery.OnlyOffersAtFindSockets` | 02-lan-p2p-chat/udp-broadcast.c:23-31 | in every run only offers reach a find socket, so the confirmation test always succeeds |
| `Discovery.NobodyIsThrownOut` | 02-lan-p2p-chat/lan_chat-v4.c:237-243 | in every run no node ends because of a wrong frame, here or after am-find |
| `Discovery.PeersHaveChatPort` | 02-lan-p2p-chat/lan_chat-v4.c:130-131 | in every run every peer entry has the chat port |
| `Discovery.NobodyPeersWithItself` | 02-lan-p2p-chat/lan_chat-v4.c:118-131 | in every run a node that filters its own find socket never records itself, although it hears its broadcasts |
| `Discovery.NeverMeet` | 02-lan-p2p-chat/lan_chat-v4.c:118-131 | two nodes that take each other's find sockets for themselves never have each other among their peers, in any run |
| `Discovery.NeverItselfExactly` | 02-lan-p2p-chat/lan_chat-v4.c:7-8 | a node is safe from itself in every run exactly when its bind address is a prefix of the text of its find socket, as its canonical address is |
| `Meeting.FramesAsSent` | 02-lan-p2p-chat/udp-broadcast.c:8-21 | the two frames, character by character |
| `Meeting.NtopWithPort` | lib/sock_ntop.c:15-25 | the text of a sender: the quad, and a colon and the port when there is one |
| `Meeting.BroadcastReaches` | 02-lan-p2p-chat/udp-broadcast.c:16-21 | a broadcast puts exactly one request on its way to each host it reaches, from the find socket to port 11001, and nothing else |
| `Meeting.Meets` | 02-lan-p2p-chat/lan_chat-v4.c:113-142 | a request under way to a node that hears it: after its receipt and that of the offer both have one entry more, each for the other's port 11001, the request is gone, and nothing else has changed |
| `Meeting.FoundAgain` | 02-lan-p2p-chat/lan_chat-v4.c:150-165 | am-find: after one offer both ends have one entry more and the node chats again |
| `Meeting.Joins` | 02-lan-p2p-chat/lan_chat-v4.c:186-252 | a node that starts among any number of nodes that hear it ends up chatting, with one entry for each, and each has one more for it |
| `Meeting.GroupForms` | 02-lan-p2p-chat/lan_chat-v4.c:186-252 | any number of nodes that start one after the other, none of which takes a later one for itself: at the end each has exactly the others, in the order of their arrival, and nothing is under way |
| `Meeting.Introduced` | 02-lan-p2p-chat/lan_chat-v4.c:113-252 | from the start: one node chats, another that it hears starts, and then each has exactly the other, with port 11001, and both chat |
| `Meeting.MeetExactly` | 02-lan-p2p-chat/lan_chat-v4.c:113-142 | two nodes meet in some run exactly when at least one of them does not take the other's find socket for itself |
| `Meeting.DescendingAreHeard` | 02-lan-p2p-chat/lan_chat-v4.c:118-121 | nodes that give their own addresses and arrive with falling last octets all hear each other |
| `Checksum.InCksum` | libfree/in_cksum.c:3-32 | the loop, the odd byte, two folds and the complement; up to 131074 bytes the complement of the ones-complement sum |
| `Checksum.SumOfBytes` | libfree/in_cksum.c:16-25 | the words summed are the bytes, those in even places high and the others low or the other way round, an odd last one included |
| `Checksum.ExampleSum` | libfree/in_cksum.c:3-32 | the example of section 3 of RFC 1071: sum, ones-complement sum and checksum |
| `Checksum.OnesSumIs` | libfree/in_cksum.c:12-14 | the ones-complement sum is the one residue modulo 65535 that is zero only for zero |
| `Checksum.TwoFoldsSuffice` | libfree/in_cksum.c:27-29 | two folds turn every 32-bit sum into its ones-complement sum |
| `Checksum.NoWrap` | libfree/in_cksum.c:7-25 | up to 131074 bytes the sum fits 32 bits |
| `Checksum.RightExactlyWithoutWrap` | libfree/in_cksum.c:7-31 | for every length of an int, the result is the checksum of RFC 1071 exactly when the sum does not wrap |
| `Checksum.BoundIsTight` | libfree/in_cksum.c:7-31 | one more byte, all ones, and the result is wrong |
| `Checksum.ByteOrderIndependent` | libfree/in_cksum.c:16-31 | section 2(B) of RFC 1071: hosts of either byte order get the same two bytes, odd lengths included |
| `Checksum.StoredChecksumVerifies` | libfree/in_cksum.c:16-31 | storing the checksum in its zeroed field makes the checksum zero |
| `Rtt.MinMax` | lib/rtt.c:12-20 | the clamp lands between 2 and 60 seconds and keeps what is there already |
| `Rtt.RttInfo.Stop` | lib/rtt.c:80-102 | takes the measured milliseconds as seconds, updates the estimators and clamps the timeout |
| `Rtt.RttInfo.Timeout` | lib/rtt.c:111-119 | doubles the timeout, counts, and gives up after three |
| `Rtt.RttInfo.Start` | lib/rtt.c:62-67 | the timeout rounded to whole seconds |
| `Rtt.SteadyForm` | lib/rtt.c:81-102 | from any estimate, above the round-trip time or below it: the estimators after n responses that all took the same time, as powers of 7/8 and 3/4 |
| `Rtt.ClosedForm` | lib/rtt.c:81-102 | the same from rtt_init on, with the unclamped timeout |
| `Rtt.TimeoutConverges` | lib/rtt.c:81-102 | from any estimate the timeout tends to the measured time, clamped or not, with an explicit bound on when |
| `Rtt.EitherSide` | lib/rtt.c:94-99 | a response as much too early as another is too late tells the same about the deviation, which grows exactly when the response is further off than the deviation |
| `Rtt.AnyRunSettles` | lib/rtt.c:22-119 | after any run of measurements, timeouts and new packets, when the network settles at one round-trip time the timeout settles with it |
| `Rtt.RunBounds` | lib/rtt.c:22-119 | over any run the estimators stay within the largest sample and the timeout between 2 seconds and 60 doubled once per timeout since the last measurement |
| `Rtt.RetriesAreCounted` | lib/rtt.c:56-60 | the counter is the number of timeouts since the last new packet |
| `Rtt.GiveUpAfterThree` | lib/rtt.c:111-119 | after a new packet exactly three timeouts say to go on |
| `IfTable.RoundUp` | libroute/get_rtaddrs.c:6-6 | the next multiple of the size of a long |
| `IfTable.GetRtaddrs` | libroute/get_rtaddrs.c:16-28 | each present address is found where the lengths before it put it, absent ones not at all |
| `IfTable.WalkFindsThem` | libroute/get_rtaddrs.c:8-28 | addresses laid out one behind the other, each filled up to the next multiple of eight, eight bytes for one of length zero: the walk comes to each that is present |
| `IfTable.LaidAt` | libroute/get_rtaddrs.c:8-28 | and there each stands whole |
| `IfTable.LinkAsLaidOut` | libroute/if_nameindex.c:27-38 | an interface message with such addresses, the fifth a link-level one: the interface has both bytes of the index and the whole name; other messages name none |
| `IfTable.OtherAsLaidOut` | libroute/if_nameindex.c:30-31 | with another address in that place, or none, no interface is named |
| `IfTable.ReadLink` | libroute/if_nameindex.c:27-37 | a message gives an interface exactly when it is an interface message with a link-level address in its place |
| `IfTable.Strncpy` | libroute/if_nameindex.c:34-34 | copies the name up to a NUL and pads, touching nothing else of the block |
| `IfTable.NulFreeIsCopied` | libroute/if_nameindex.c:34-34 | a name without a NUL is copied as it is |
| `IfTable.CutAtNul` | libroute/if_nameindex.c:34-34 | any other name is copied up to its first NUL, and the rest of the field is zeros |
| `IfTable.AddEntry` | libroute/if_nameindex.c:32-38 | a name below the names and an entry above the entries keep every earlier entry and name |
| `IfTable.IfNameindex` | libroute/if_nameindex.c:5-48 | the finished block holds one entry for each interface in message order, the terminator included, with no region overlapping another; there is no room for the terminator exactly when the list is empty |
| `IfTable.RoomExactlyWithAMessage` | libroute/if_nameindex.c:19-22 | a block as long as the message list holds the table exactly when there is a message |
| `IfTable.HeaderBoundIsTight` | libroute/if_nameindex.c:19-22 | with a header below 25 bytes some list overflows the block |
| `IfTable.NamesAreApart` | libroute/if_nameindex.c:33-38 | names do not overlap each other, the entries or the end of the block |
| `IfTable.TableReads` | libroute/if_nameindex.c:36-45 | entry j reads back as the j-th index and name, and the first null pointer is the last entry's |

## Left out

- The Unix-domain path of `getaddrinfo` (`libgai/ga_unix.c`): a call with family AF_LOCAL that reaches `ga_nsearch` ends the process there, and the model returns a result of its own for that.
- The resolver and the services database are arbitrary functions; `_res` options are left out, and `h_errno` is the error the resolver function gives.
- `libfree/getaddrinfo.c` and `libfree/getnameinfo.c`: an older duplicate of `libgai`.
- GaiPort.GaServ: `atoi` overflow is not modelled; a numeric service is its decimal value cut to 16 bits, and ports are in host order.
- DottedQuad.InetNtop4: when the terminator lies behind the buffer the model stops short of that write, because the place belongs to someone else.
- LineReader.Reader.Readline: one descriptor only, because the buffer is shared by all of them.
- Framing.ReceiveFrames: `malloc` never fails; what `sscanf` makes of a header that is not four hex digits, and what memory a payload is read into, are arbitrary functions; the terminator written one past the allocation is not modelled.
- Discovery.EntriesAndOffersBalance: datagrams may be lost (never received) or reordered, but not duplicated; the 255-entry peer array is a sequence; `select`, signals and timing are an arbitrary choice of the next event.
- Discovery.RunKeeps: a find socket never gets the chat port 11001, there is one process for each address, and a node that has left does not come back.
- Rtt.ClosedForm: over real numbers, without the rounding of `float`; `rtt_ts` and the clock are left out, and the measured time is a parameter.
- IfTable.IfNameindex: stops short of the last entry when the block has no room for it; the message list comes from the kernel with every address inside its message; fetching it is left out, and padding bytes of an entry are unconstrained.
- The socket, signal, multicast, daemon and thread wrappers, the other chat versions, printing and command lines.
