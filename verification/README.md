# A verified model of miniupnpd and minissdpd

This project models the engines of the MiniUPnP gateway daemon (`miniupnpd`) and of the SSDP cache
daemon (`minissdpd`) that keep state or do arithmetic behind their sockets, and proves what those
engines promise for every input and over every run.

| file | subject |
|---|---|
| `DescGen.dfy` | `genXML`: the table-driven, stack-based XML printer and the recursive view of its documents |
| `MiniXml.dfy` | the cursor-based XML parser: what it reports for any buffer, and the loops that report it |
| `XmlRoundTrip.dfy` | the parser undoes the printer, also for the IGD version 1 view |
| `NotifyMessage.dfy` | the text of a NOTIFY message, and a reader of header lines |
| `UpnpEvents.dfy` | event subscriptions: two lists of objects with pointers between them, one state machine per notification |
| `CallbackUrl.dfy` | the callback URL of a subscription: host, port and path |
| `Permissions.dfy` | first-match permission rules and the 65536-bit map of permitted ports |
| `PortMapping.dfy`, `PortMappingProperties.dfy` | NAT-PMP and PCP MAP requests on the mapping table: cyclic search, replacement, deletion |
| `PcpRequest.dfy` | PCP packets: sizes, options, validation, which request they amount to, and the result code |
| `PcpPacket.dfy` | an encoder of MAP and ANNOUNCE packets by RFC 6887, and what the server makes of every encoded packet |
| `CodeLength.dfy` | the 7-bit length code, in C and in Python |
| `SsdpDatabase.dfy` | devices and services of minissdpd and the notification log |
| `SsdpResponse.dfy` | search responses: what is chosen, how it is packed, and the decoder |
| `SsdpRequest.dfy` | pipelined client requests |
| `SsdpOutput.dfy` | the output buffer of a client, and notifications to all clients |
| `SsdpListeners.dfy` | what clients that asked for notifications hear of announcements, departures and submissions |
| `SsdpExamples.dfy` | particular runs: a client that hears its own submission, a response of 255 entries |
| `AsyncSend.dfy` | the scheduler for outgoing packets |
| `HttpBuffer.dfy` | the receiving side of an HTTP connection |
| `SeqTools.dfy`, `Wrappers.dfy` | facts about sequences; optional values |

Objects that the C code updates in place are classes; each of their methods is tied to a function of the
old state or to an invariant, and the laws are lemmas about those functions. System calls and allocations
either return an arbitrary result chosen inside the method, or an outcome that is passed in as a
parameter (`Env`, `Outcome`, `Round`), so that every statement holds whatever the environment does.

Some results say where the code departs from what one would expect of it, with the exact condition:

- A cached Location is replaced only when the new one is not shorter (`SsdpDatabase.AnnouncedLocation`,
  `SsdpDatabase.ShorterLocationExample`).
- Behind an unquoted attribute value the end of the tag is found exactly when white space follows the value
  (`MiniXml.UnquotedValue`, `MiniXml.UnquotedExample`).
- A device that needs a larger block is lost without notice when the allocation fails; this is the only
  event after which the notification log and the database disagree (`SsdpDatabase.StepAgrees`,
  `SsdpDatabase.LostDeviceExample`).
- A response with 255 entries is taken for a notification by the decoder
  (`SsdpResponse.ResponseRoundTrip`); a client can bring that about with a single write
  (`SsdpExamples.FullResponseOccurs`).
- `printresponse` leaves its data exactly when it comes by a length without end or of 2^31 or more, or by
  an incomplete notification head (`SsdpResponse.StaysInside`, `SsdpResponse.OutsideExample`).
- With PREFER_FAILURE, PCP MAP may still grant another port than the suggested one
  (`PortMappingProperties.PreferFailureOutcome`, `PortMappingProperties.PreferFailureExample`).
- NAT-PMP reports success without the mapping asked for exactly when the first usable port carries an old
  mapping that could not be removed (`PortMappingProperties.NatPmpSuccess`,
  `PortMappingProperties.NatPmpSuccessExample`).
- A request for a port with a mapping of the client takes the old mapping away before it knows that the
  new one can be put in its place (`PortMappingProperties.MappingLost`).
- Among several errors in the options of a PCP request the last one is reported, up to the first that ends
  the parsing (`PcpPacket.OptionFault`).
- A search by type ignores the version for devices and compares the whole string for services
  (`SsdpResponse.TypeSearch`, `SsdpResponse.ServiceSearch`).
- PCP deletion with internal port 0 removes one mapping, not all of them, in spite of the comment in the
  code (`PortMappingProperties.PcpDeletionTakesFirst`, `PortMappingProperties.PcpDeletionLeaves`,
  `PortMappingProperties.PcpDeletionExample`).
- The timestamp carry leaves a full second in the microseconds; all time comparisons of the select cycle
  are still exact, and the deadline test of `finalize_sendto` is early by one instant
  (`AsyncSend.CarryCanBeMissed`, `AsyncSend.DeadlineTest`, `AsyncSend.DeadlineExample`).

## Model

| member | source | states |
|---|---|---|
| `DescGen.GenXml` | miniupnpd/upnpdescgen.c:890-1009 | for every well-formed table of at most 65535 entries and inner depth at most 16, the loop over `pile`, `top` and `i` terminates, keeps len < tmplen, and unless an allocation failed appends exactly the recursive rendering of the tree (of its IGD version 1 view under `force_igd1`) |
| `DescGen.Unstack` | miniupnpd/upnpdescgen.c:950-971 | the inner loop closes finished elements: output so far plus what the stack still stands for stays the whole document, and the work left does not grow |
| `DescGen.Enter` | miniupnpd/upnpdescgen.c:984-1006 | the start tag is written and the node goes on the stack: output and stack still stand for the whole document, with less work left |
| `DescGen.PushFrame` | miniupnpd/upnpdescgen.c:984-1006 | entering an element: start tag, first child and the new stack stand for the same text as the element and the old stack, with strictly less work left |
| `DescGen.NextChild` | miniupnpd/upnpdescgen.c:957-970 | moving to the next sibling keeps the text that the stack stands for |
| `DescGen.PopFrame` | miniupnpd/upnpdescgen.c:958-967 | leaving an element accounts for exactly its end tag |
| `DescGen.StringBuffer.AppendStr` | miniupnpd/upnpdescgen.c:805-832 | appends the string, or remembers that memory ran out; len < tmplen either way |
| `DescGen.StringBuffer.AppendChar` | miniupnpd/upnpdescgen.c:838-857 | appends the character, or remembers that memory ran out; len < tmplen either way |
| `DescGen.StringBuffer.AppendEndTag` | miniupnpd/upnpdescgen.c:960-966 | writes the end tag from the part of the tag before its first blank |
| `DescGen.AppendLeaf` | miniupnpd/upnpdescgen.c:917-949 | a leaf is printed as in the recursive rendering, with URL prefix and rewritten version, and not at all without text |
| `DescGen.AppendStartTag` | miniupnpd/upnpdescgen.c:986-995 | a start tag, with the configId attribute on the root element |
| `DescTree.PrintedNode` | miniupnpd/upnpdescgen.c:973-1006 | in the IGD version 1 view a hidden subtree prints as nothing, any other node as its tags around its children |
| `DescTree.PrintedCons` | miniupnpd/upnpdescgen.c:910-1008 | pruning, rewriting and printing distribute over siblings |
| `DescTree.StandardView` | miniupnpd/upnpdescgen.c:933-947 | with the daemon's settings exactly the four device and service types of version 2 get version 1 |
| `MiniXml.XmlParser.ParseXml` | miniupnpd/minixml.c:114-234 | on any buffer the parser terminates, reports exactly `Events`, and every reported span lies inside the buffer |
| `MiniXml.XmlParser.ParseOne` | miniupnpd/minixml.c:114-226 | one round of the element loop: comment, declaration, start tag with attributes and data, or end tag |
| `MiniXml.XmlParser.ParseAtt` | miniupnpd/minixml.c:40-110 | the attribute loop reports exactly `Attributes` and stops at '/' or '>' |
| `MiniXml.XmlParser.ParseOneAtt` | miniupnpd/minixml.c:50-107 | one attribute, quoted or not |
| `MiniXml.UnquotedValue` | miniupnpd/minixml.c:90-107 | the list goes on with the character that ends an unquoted value if and only if that is white space; a "/" or ">" there is skipped |
| `MiniXml.UnquotedExample` | miniupnpd/minixml.c:90-107 | in `<a k=v>` the start tag does not end; in `<a k=v >` it does |
| `MiniXml.XmlParser.ParseContent` | miniupnpd/minixml.c:158-203 | data and CDATA after a start tag |
| `MiniXml.XmlParser.ParseCdata` | miniupnpd/minixml.c:171-191 | a CDATA section is reported without its markers and the rest up to the next tag is skipped |
| `MiniXml.XmlParser.ParseEndTag` | miniupnpd/minixml.c:205-219 | an end tag reports the text between "</" and '>' |
| `MiniXml.XmlParser.ParseName` | miniupnpd/minixml.c:135-151 | the name loop computes `Name`, of which `XmlRoundTrip.PrefixedName` says what it is |
| `MiniXml.XmlParser.SkipComment` | miniupnpd/minixml.c:120-131 | a comment ends after the first "-->" |
| `MiniXml.Events` | miniupnpd/minixml.c:114-226 | every span in the report of any buffer lies inside the buffer |
| `XmlRoundTrip.ParsingUndoesPrinting` | miniupnpd/minixml.c:40-234 | for all documents with plain keys and data, and names with any number of namespace prefixes, the parser's calls on the printed text are exactly the pre-order trace: the start of the local name, attributes, data, the end with the full name |
| `XmlRoundTrip.DocOver` | miniupnpd/minixml.c:114-226 | the same at any position inside a larger buffer, with the rest of the buffer read as if alone |
| `XmlRoundTrip.AttributesOver` | miniupnpd/minixml.c:40-110 | attributes in double quotes are recovered in order, up to the ">" or "/" that ends the tag |
| `XmlRoundTrip.PrefixedName` | miniupnpd/minixml.c:135-151 | of a name with a prefix, as in `<u:AddPortMapping>`, the start callback gets exactly what follows the last ":" |
| `XmlRoundTrip.QuotedAttribute` | miniupnpd/minixml.c:50-104 | either quote may be used and white space may stand around "="; key and value are reported without them |
| `XmlRoundTrip.EmptyElementOver` | miniupnpd/minixml.c:114-158 | `<name .../>` is reported as started, with its attributes, and never as ended |
| `XmlRoundTrip.MixedOver` | miniupnpd/minixml.c:192-203 | text in front of another element is not reported |
| `XmlRoundTrip.CdataOver` | miniupnpd/minixml.c:160-191 | a CDATA section is reported as exactly what is between its marks, not at all when that is empty; white space in front of it and text behind it are skipped |
| `XmlRoundTrip.CommentOver` | miniupnpd/minixml.c:120-131 | a comment is not reported, whatever it contains |
| `XmlRoundTrip.CommentBetween` | miniupnpd/minixml.c:114-134 | a comment between two documents changes no call |
| `XmlRoundTrip.Igd1Commutes` | miniupnpd/upnpdescgen.c:933-983 | pruning and rewriting the document is pruning and rewriting the table's tree, and keeps it plain |
| `XmlRoundTrip.ParsingUndoesView` | miniupnpd/upnpdescgen.c:1017-1031 | with or without `force_igd1`, parsing the description yields the trace of the view |
| `XmlRoundTrip.DescribeAndParse` | miniupnpd/upnpdescgen.c:1017-1031 | the two imperative engines together: `genXML` on the table and then `parsexml` on its output yield the trace of the document |
| `XmlRoundTrip.DescribeRoot` | miniupnpd/upnpdescgen.c:1017-1031 | the same with the URNs that the daemon rewrites and omits, a decimal configId and any URL prefix without "<" |
| `UpnpEvents.EventEngine.Run` | miniupnpd/upnpevents.c:177-673 | over every interleaving of subscribe, renew, unsubscribe, change, select and process: each notification's subscriber is listed and points back, and conversely; no pointer leads to a freed element; SEQ values of each subscriber are 0, 1, 2, ... modulo 2^32; the list of messages made for a subscriber only grows |
| `UpnpEvents.EventEngine.NoDangling` | miniupnpd/upnpevents.c:588-673 | in every valid state no reference leads to a freed element, a path is usable as long as there is a subscriber, and a subscriber has at most one notification |
| `UpnpEvents.EventEngine.MessagesInOrder` | miniupnpd/upnpevents.c:470-545 | on the bytes: the k-th message of a live subscriber, read with a reader of header lines, has its SID, the path and host of its callback URL, a Content-Length that is the length of the content, and k modulo 2^32 as SEQ; only the last message can be under way, it carries the current SEQ, and what is sent is a prefix of it |
| `UpnpEvents.KeyRead` | miniupnpd/upnpevents.c:408-475 | the number that a receiver reads from SEQ is the place of the message in the row of messages |
| `NotifyMessage.MessageRead` | miniupnpd/upnpevents.c:408-475 | for every path, host and SID without line breaks and every body: request line, Host, SID, SEQ, Content-Length and content are read back from the message |
| `NotifyMessage.FixedHeaders` | miniupnpd/upnpevents.c:410-425 | the headers that are the same in all messages |
| `UpnpEvents.EventEngine.AddSubscriber` | miniupnpd/upnpevents.c:95-196 | succeeds exactly for a known event URL, a callback and memory; then there is a new subscriber at the head of the list with its callback and timeout, and with a notification exactly if there are resources for one; otherwise nothing changes |
| `UpnpEvents.EventEngine.RenewSubscription` | miniupnpd/upnpevents.c:200-215 | found exactly when some subscriber has the complete identifier (and is not expired under UPNP_STRICT); then the first such subscriber has the new timeout and nobody else changes |
| `UpnpEvents.EventEngine.RemoveSubscriber` | miniupnpd/upnpevents.c:218-234 | one matching subscriber is freed and the notification on its way loses its pointer to it; -1 exactly when none matches |
| `UpnpEvents.EventEngine.VarChangeNotify` | miniupnpd/upnpevents.c:239-246 | a subscriber of the service without a notification gets one exactly if there are resources for it; all others keep what they have |
| `UpnpEvents.EventEngine.CreateNotify` | miniupnpd/upnpevents.c:250-301 | the notification exists exactly if memory, socket and non-blocking mode were to be had, then with that socket, and both lists stay consistent either way |
| `UpnpEvents.EventEngine.NotifyConnect` | miniupnpd/upnpevents.c:304-406 | the callback is read only while the subscriber is alive; host and path are those of the URL, and the path points into that callback |
| `CallbackUrl.ParseUrl` | miniupnpd/upnpevents.c:332-367 | the loops over the URL compute address, port text, port number modulo 2^16 and path, within the sizes of `addrstr` and `portstr` |
| `CallbackUrl.PlainUrl` | miniupnpd/upnpevents.c:332-367 | host, port and path of a URL that is put together from them are recovered, with port 80 by default; what follows the digits of a port is the path |
| `CallbackUrl.BracketedUrl` | miniupnpd/upnpevents.c:332-367 | the same for an IPv6 address in brackets of at most 45 characters |
| `UpnpEvents.EventEngine.Prepare` | miniupnpd/upnpevents.c:408-494 | the message made next is for the callback's path and host and carries the subscriber's current SEQ, and the path it reads belongs to a live subscriber |
| `UpnpEvents.EventEngine.FormatMessage` | miniupnpd/upnpevents.c:454-488 | the retry loop terminates with a buffer that starts with the whole message |
| `UpnpEvents.EventEngine.Send` | miniupnpd/upnpevents.c:496-522 | the bytes on the wire are always a prefix of the message, and waiting for the answer starts exactly when all are sent |
| `UpnpEvents.EventEngine.Recv` | miniupnpd/upnpevents.c:524-545 | SEQ moves on, modulo 2^32, exactly when an answer finishes the notification |
| `UpnpEvents.EventEngine.ProcessNotify` | miniupnpd/upnpevents.c:548-586 | one step along the state diagram, `Follows` |
| `UpnpEvents.EventEngine.SelectFds` | miniupnpd/upnpevents.c:588-619 | the two sets hold exactly the sockets of notifications that connect or send, and that wait for an answer; none stays created |
| `UpnpEvents.EventEngine.ProcessReady` | miniupnpd/upnpevents.c:628-636 | ready notifications make one step, all others are unchanged |
| `UpnpEvents.EventEngine.CleanUp` | miniupnpd/upnpevents.c:637-660 | afterwards no notification is finished or in error; a subscriber has gone only with its notification |
| `UpnpEvents.EventEngine.CleanNotify` | miniupnpd/upnpevents.c:640-658 | exactly this notification goes, after an error with its subscriber, and both are freed |
| `UpnpEvents.EventEngine.RemoveExpired` | miniupnpd/upnpevents.c:661-672 | exactly the expired subscribers without a notification go |
| `UpnpEvents.EventEngine.ProcessFds` | miniupnpd/upnpevents.c:621-673 | the three loops together |
| `Permissions.GetPermittedExtPorts` | miniupnpd/upnppermissions.c:536-576 | for every rule list, address and internal port, bit e of the bitmap that is built backwards, by words and by bits, is set if and only if the forward check accepts port e |
| `Permissions.ApplyRule` | miniupnpd/upnppermissions.c:553-574 | one rule sets or clears exactly the bits of its port range |
| `Permissions.OneBit` | miniupnpd/upnppermissions.c:563-572 | setting or clearing one bit of a word leaves the other 31 as they are |
| `Permissions.CheckRule` | miniupnpd/upnppermissions.c:514-534 | the forward scan decides as the recursive reading of the rule list |
| `Permissions.AcceptsByFirstMatch` | miniupnpd/upnppermissions.c:514-534 | accepted if and only if the first matching rule, if any, is an allow rule |
| `Permissions.MaskedAddress` | miniupnpd/upnppermissions.c:476-495 | a rule matches exactly the addresses that agree with its own in the bits of its mask, and the internal ports of its range |
| `Permissions.MatchMeans` | miniupnpd/upnppermissions.c:476-495 | the same with the external ports |
| `Permissions.NetworkAddress` | miniupnpd/upnppermissions.c:476-495 | with a mask of n leading ones: the addresses with the same first n bits |
| `PortMapping.Gateway.MapNatPmp` | miniupnpd/natpmp.c:334-408 | the search loop terminates and its table, result code and port are those of the first stopping port in cyclic order |
| `PortMapping.Gateway.TakeNatPmpPort` | miniupnpd/natpmp.c:369-407 | a permitted port is taken, refused, silently kept or passed over as its verdict says |
| `PortMapping.Gateway.CreatePcpMapNat` | miniupnpd/pcpserver.c:939-1045 | the same for PCP MAP, with reserved ports, PREFER_FAILURE and failing replacement |
| `PortMapping.Gateway.TakePcpPort` | miniupnpd/pcpserver.c:1002-1044 | a permitted port is taken, refused or passed over as its verdict says |
| `PortMapping.Gateway.DeleteNatPmp` | miniupnpd/natpmp.c:290-331 | deletion by index while the table shifts equals the recursive deletion |
| `PortMapping.Gateway.DeletePcpMap` | miniupnpd/pcpserver.c:1148-1193 | the first mapping that matches is removed if its nonce agrees; result codes for a wrong nonce, a failure and an absent mapping |
| `PortMapping.Gateway.ProcessNatPmp` | miniupnpd/natpmp.c:280-413 | a NAT-PMP mapping request as a whole |
| `PortMapping.Gateway.GetRedirectRule` | miniupnpd/commonrdr.h:37-48 | the backend query: the first rule with this external port and protocol |
| `PortMapping.FirstStop` | miniupnpd/natpmp.c:339-408 | the search stops within one cycle of ports 1..65535, and no earlier port in the cycle would have stopped it |
| `PortMapping.Offset` | miniupnpd/natpmp.c:355-356 | every port from 1 to 65535 is met exactly once in a cycle that starts anywhere |
| `PortMappingProperties.GrantsFirstUsable` | miniupnpd/pcpserver.c:956-1044 | whatever the backend does, the port is the first usable one in cyclic order (permitted, not reserved, not in use, free or the requester's own, for PCP with a deletable old mapping); "not authorized" exactly when no port was permitted, "no resources" when some were but none was available; NAT-PMP refuses when that port carries a PCP mapping and leaves the table alone when its old mapping cannot be deleted |
| `PortMappingProperties.VerdictMeaning` | miniupnpd/natpmp.c:354-394 | the search stops at a port if and only if the port is usable, and then with the outcome `Granted` |
| `PortMappingProperties.MappingInstalled` | miniupnpd/natpmp.c:395-407 | after success, unless an old mapping could not be replaced, the table has exactly one rule for the granted port and protocol: it leads to the client's internal port, expires at now + lifetime modulo 2^32, and has the description of its protocol |
| `PortMappingProperties.RepeatedRequest` | miniupnpd/natpmp.c:369-394 | the same request again, while the same ports are in use, is granted the same port |
| `PortMappingProperties.MappingLost` | miniupnpd/pcpserver.c:1015-1044 | with e the first usable port and a mapping that can be replaced: success exactly when the backend takes the new mapping, and no mapping for e at all when it does not |
| `PortMappingProperties.MalformedRequest` | miniupnpd/pcpserver.c:939-955 | requests that name no port they can be given leave the table alone, with result code 2 or 3 |
| `PortMappingProperties.PreferFailureCode` | miniupnpd/pcpserver.c:967-1044 | with PREFER_FAILURE a suggested port that the host does not use is granted if it is usable and refused with code 11 if not |
| `PortMappingProperties.OwnRulesOnly` | miniupnpd/pcpserver.c:1002-1044 | a request for a mapping touches no rules but those of the same client, internal port and protocol |
| `PortMappingProperties.NatPmpDeletionMeaning` | miniupnpd/natpmp.c:290-331 | the whole outcome of a NAT-PMP deletion, also of one that the backend stops half-way |
| `PortMappingProperties.PcpDeletionMeaning` | miniupnpd/pcpserver.c:1148-1193 | the whole outcome of a PCP deletion, with its result codes |
| `PortMappingProperties.PreferFailureOutcome` | miniupnpd/pcpserver.c:967-1027 | with PREFER_FAILURE another port than the suggested one is granted if and only if the suggested one is in use by the host and the first port that is not, reached over permitted ports, can be granted |
| `PortMappingProperties.PreferFailureExample` | miniupnpd/pcpserver.c:989-1000 | port 80 in use: PREFER_FAILURE grants port 81, for every nonce |
| `PortMappingProperties.NatPmpDeletionIsFilter` | miniupnpd/natpmp.c:305-331 | the deletion succeeds if and only if every delete does, and then the table is the old one, in order, without exactly the sender's NAT-PMP mappings of that protocol and internal port (all of them for port 0) |
| `PortMappingProperties.PcpDeletionTakesFirst` | miniupnpd/pcpserver.c:1167-1190 | the first match goes exactly when its nonce agrees and the backend deletes it; otherwise the table is unchanged and the result an error |
| `PortMappingProperties.PcpDeletionLeaves` | miniupnpd/pcpserver.c:1167-1190 | after a successful deletion a match is left if and only if there were two |
| `PortMappingProperties.PcpDeletionExample` | miniupnpd/pcpserver.c:1175-1188 | two mappings of one client: deletion with internal port 0 leaves the second |
| `PortMappingProperties.NatPmpSuccess` | miniupnpd/natpmp.c:373-407 | with e the first usable port: success without the new mapping in the table if and only if e carries an old mapping, not one of PCP, that the backend will not delete, and the new mapping was not there before; then the table is unchanged; without a usable port there is no success |
| `PortMappingProperties.NatPmpSuccessExample` | miniupnpd/natpmp.c:381-388 | a renewal that the backend prevents is answered with success |
| `PortMappingProperties.ServedKeeps` | miniupnpd/natpmp.c:305-406 | any class of mappings that a request has no right to touch is the same sequence before and after it |
| `PortMappingProperties.ServedUnique` | miniupnpd/pcpserver.c:1002-1044 | a request keeps (external port, protocol) unique |
| `PortMappingProperties.RunUnique` | miniupnpd/pcpserver.c:1002-1044 | the same over every run of requests |
| `PortMappingProperties.RunKeeps` | miniupnpd/natpmp.c:305-406 | untouchable mappings survive every run, in order |
| `PortMappingProperties.OthersSurvive` | miniupnpd/pcpserver.c:1164-1193 | no run of other clients' requests removes, alters or adds a mapping of this internal address |
| `PortMappingProperties.PcpSurvivesNatPmp` | miniupnpd/natpmp.c:305-331 | no run of NAT-PMP requests removes, alters or adds a mapping described "PCP ..." |
| `PcpRequest.PcpInfo.ProcessRequest` | miniupnpd/pcpserver.c:1311-1533 | for every packet: ignored only when shorter than three bytes, otherwise answered; the table changes only for an accepted MAP request and then exactly as `Served` says; a rejected packet has the non-zero result code of `Decide` |
| `PcpRequest.PcpInfo.ProcessMap` | miniupnpd/pcpserver.c:1350-1376 | options, validation, then creation or deletion for the mapped address, with the result code of whichever fails |
| `PcpRequest.PcpInfo.ParseOption` | miniupnpd/pcpserver.c:425-573 | never reads past the packet, leaves a multiple of four bytes, keeps an earlier error unless there is a new one, and consumes nothing exactly when parsing ends |
| `PcpRequest.PcpInfo.ParseOptions` | miniupnpd/pcpserver.c:576-590 | the option loop terminates, accepts exactly what the recursive reading accepts, and leaves the result code of `OptionsCode` |
| `PcpRequest.PcpInfo.Validate` | miniupnpd/pcpserver.c:1231-1305 | accepted if and only if no error is pending and addresses, protocol, ports and external address agree; otherwise with the code of the first disagreement |
| `PcpRequest.OptionsAccepted` | miniupnpd/pcpserver.c:425-590 | options are accepted if and only if the packet splits into well-formed options, each allowed for the opcode, none of the known ones twice |
| `PcpRequest.OptionErrorRejects` | miniupnpd/pcpserver.c:1332-1456 | any option error rejects the request with an error code, whatever follows |
| `PcpRequest.CodeIsError` | miniupnpd/pcpserver.c:576-590 | the options leave an error code if and only if they are not accepted |
| `PcpPacket.PacketDecided` | miniupnpd/pcpserver.c:1311-1456 | for every MAP packet of either version that is not too long, in terms of its fields: accepted exactly when its options are in order and addresses, protocol and ports agree, and then as the request with exactly that protocol, internal and external port, nonce, clamped lifetime, preference and mapped address (the third party's if there is one); otherwise rejected with the code of the reason |
| `PcpPacket.FieldsReadBack` | miniupnpd/pcpserver.c:242-314 | every field of an encoded packet, in both layouts, is where the server looks for it |
| `PcpPacket.OptionsReadBack` | miniupnpd/pcpserver.c:425-590 | an encoded list of options, of any lengths, is read back as that list |
| `PcpPacket.OptionFault` | miniupnpd/pcpserver.c:425-590 | the result code is that of the last faulty option up to the first that ends the parsing |
| `PcpPacket.OptionRules` | miniupnpd/pcpserver.c:447-570 | which single options are in order, in the terms of sections 13.1 to 13.3 of RFC 6887 |
| `PcpPacket.AnnounceDecided` | miniupnpd/pcpserver.c:1419-1430 | an ANNOUNCE request is accepted exactly when the client speaks for itself and the options are in order, otherwise rejected with the code of the reason |
| `PcpPacket.OtherPackets` | miniupnpd/pcpserver.c:1322-1532 | packets of a wrong size, version or opcode, with their result codes |
| `PcpPacket.ClampedLifetime` | miniupnpd/pcpserver.c:256-262 | the lifetime ends up between the limits, and only 0 stays 0 |
| `PcpPacket.AddressRead` | miniupnpd/pcpserver.c:1262-1267 | the client's text is the four bytes of the mapped address as decimal numbers, and the permission check gets the number with the same bytes |
| `PcpPacket.NonceRead` | miniupnpd/pcpserver.c:1290-1303 | two requests have the same description if and only if they have the same nonce, and it marks a mapping as one of PCP |
| `PcpPacket.WordRead` | miniupnpd/pcpserver.c:1295-1300 | each word of the nonce is written as its value in hexadecimal digits |
| `CodeLength.DecodeEncode` | minissdpd/codelength.h:17-52 | for every n below 2^32, at any position and before any suffix, decoding returns n and the position after the code |
| `CodeLength.EncodersAgree` | minissdpd/submit_to_minissdpd.py:18-26 | the Python loop and the unrolled C macro produce the same prefix |
| `CodeLength.DecodeLength` | minissdpd/codelength.h:37-42 | the bounded decoder terminates inside the buffer and never overflows 32 bits |
| `CodeLength.PrependLength` | minissdpd/submit_to_minissdpd.py:9-26 | the Python encoder as a loop |
| `CodeLength.ReadPrefixed` | minissdpd/codelength.h:17-19 | a length-prefixed string is recovered |
| `SsdpDatabase.Database.UpdateDevice` | minissdpd/minissdpd.c:304-377 | refresh in place, replacement or insertion, and the notification sent |
| `SsdpDatabase.Database.RemoveDevice` | minissdpd/minissdpd.c:385-407 | the device with this key goes and is reported; nothing otherwise |
| `SsdpDatabase.Database.SubmitService` | minissdpd/minissdpd.c:1113-1135 | update in place, or insertion with a notification exactly when the key is new |
| `SsdpDatabase.ReachableInvariant` | minissdpd/minissdpd.c:303-469 | in every reachable state keys are unique, and with enough memory replaying the notification log gives exactly the current keys |
| `SsdpDatabase.StepAgrees` | minissdpd/minissdpd.c:303-377 | one event keeps log and keys in agreement if and only if it is not an update that needs more memory than there is |
| `SsdpDatabase.LostDeviceExample` | minissdpd/minissdpd.c:319-332 | two announcements after which the log names a device that is gone |
| `SsdpDatabase.StepRefinesMap` | minissdpd/minissdpd.c:303-407 | the list behaves as a map from keys to devices: only the entry of the event's key changes |
| `SsdpDatabase.StepRefinesServices` | minissdpd/minissdpd.c:1113-1135 | the service list behaves as a map from keys to services |
| `SsdpDatabase.StoredIsLast` | minissdpd/minissdpd.c:1113-1135 | after any run the service stored under a key is the last one submitted with it |
| `SsdpDatabase.StepKeepsUnique` | minissdpd/minissdpd.c:303-407 | every event keeps keys unique |
| `SsdpDatabase.LocationIsReplaced` | minissdpd/minissdpd.c:319-345 | a stored Location becomes the announced one if and only if that is not shorter |
| `SsdpDatabase.AnnouncedLocation` | minissdpd/minissdpd.c:308-347 | after an announcement of a known device that is not lost, the device has its old type and USN, the new time, and the announced Location if and only if the old one was not longer |
| `SsdpDatabase.ShorterLocationExample` | minissdpd/minissdpd.c:319-345 | two announcements after which the stored Location is a mixture of both |
| `SsdpResponse.BuildResponse` | minissdpd/minissdpd.c:942-1034 | the response is the encoding of the chosen entries and always fits the 4096-byte buffer |
| `SsdpResponse.PutEntry` | minissdpd/minissdpd.c:980-991 | the allowance of 6 covers the three length prefixes |
| `SsdpResponse.EverythingIsTwoPrefixes` | minissdpd/minissdpd.c:964-1026 | for an "everything" request the entries are a prefix of the unexpired devices followed by a prefix of the services |
| `SsdpResponse.ChosenIsTwoPrefixes` | minissdpd/minissdpd.c:964-1026 | for any request the entries are a prefix of the matching unexpired devices followed by a prefix of the matching services |
| `SsdpResponse.CompleteAnswer` | minissdpd/minissdpd.c:964-1026 | when everything stored would fit in a response, everything that matches is answered |
| `SsdpResponse.FirstMatch` | minissdpd/minissdpd.c:964-997 | the first matching device is answered first whenever there is room up to it |
| `SsdpResponse.DevicesEnd` | minissdpd/minissdpd.c:964-972 | the first unexpired device that does not fit into 4096 bytes with an allowance of 6 ends the list of devices, whether it matches or not |
| `SsdpResponse.ServicesEnd` | minissdpd/minissdpd.c:999-1005 | the same for services |
| `SsdpResponse.UsnSearch` | minissdpd/minissdpd.c:973-974 | a search by USN finds exactly the devices whose USN begins with the string, and a longer string is compared with what is stored behind the USN |
| `SsdpResponse.TypeSearch` | minissdpd/minissdpd.c:956-973 | a search by type finds exactly the devices whose type begins with the string without its trailing digits |
| `SsdpResponse.ServiceSearch` | minissdpd/minissdpd.c:999-1008 | a service is found by a beginning of its type or USN, and by a string with a zero byte only if it is all of it |
| `SsdpResponse.ResponseRoundTrip` | minissdpd/printresponse.c:40-84 | the decoder, reading into a signed variable, recovers exactly the entries if and only if there are fewer than 255 |
| `SsdpResponse.PrintResponse` | minissdpd/printresponse.c:17-88 | the decoder loop agrees with `GetItems` on any bytes: items, a truncated response, or an access outside the data |
| `SsdpResponse.StaysInside` | minissdpd/printresponse.c:40-84 | for any bytes: the decoder leaves the data if and only if it comes by a length that has no end or reaches 2^31, or by an incomplete notification head; otherwise it agrees with the unsigned reading of the format |
| `SsdpResponse.OutsideExample` | minissdpd/printresponse.c:19-63 | the bytes 01 88 80 80 80 00, a length of 2^31 |
| `SsdpResponse.DecodeInt` | minissdpd/codelength.h:17-19 | the unbounded macro on a signed variable |
| `SsdpExamples.FullResponseOccurs` | minissdpd/minissdpd.c:964-1026 | 255 different services, submitted in one read of at most 2048 bytes, are all answered to an "everything" request, and the decoder does not read them as a response |
| `SsdpRequest.ProcessRequestSub` | minissdpd/minissdpd.c:900-1164 | on any bytes the call fails without effect on the database or consumes between 1 and n bytes with the parsed request's effect; the requester hears the answer (on failure a part of it), and every client that asked for notifications, the requester included, hears of a new service, or a part of that if its write fails |
| `SsdpRequest.ProcessSubmit` | minissdpd/minissdpd.c:1036-1135 | the SUBMIT branch: stored and announced to all listeners if new, or nothing done at all |
| `SsdpRequest.BuildNote` | minissdpd/minissdpd.c:420-461 | a notification about what came in one read or one packet fits the 4096-byte buffer |
| `SsdpRequest.Tell` | minissdpd/minissdpd.c:411-469 | every listening client receives the notification, or a part of it when its write fails; without news nobody receives anything |
| `SsdpRequest.ProcessRequest` | minissdpd/minissdpd.c:868-898 | the request loop terminates; the database is the effect of the first n readable requests, all of them exactly when the connection stays open; the requester's output is their answers in order, of which only notifications may be cut short, and if none was cut exactly `Answers`; every other client hears exactly `Echoes`, or has a failed write counted |
| `SsdpRequest.SubmitReadBack` | minissdpd/submit_to_minissdpd.py:29-38 | a submit request made by the Python client is consumed exactly and its four strings are recovered, whatever follows |
| `SsdpRequest.RequestReadBack` | minissdpd/minissdpd.c:926-1152 | a request of any other kind, followed by anything, is read as what its first byte says: version, search by type, by USN or for everything, notifications, or unknown |
| `SsdpRequest.FixedAnswers` | minissdpd/minissdpd.c:926-1152 | the answers to version, notification and unknown requests, byte by byte |
| `SsdpRequest.SearchAnswered` | minissdpd/minissdpd.c:942-1034 | when everything stored fits in a response, the client decodes from the answer exactly the matching devices and then the matching services |
| `SsdpRequest.PipelinedSubmits` | minissdpd/minissdpd.c:868-898 | any concatenation of submit requests is read as exactly these requests |
| `SsdpRequest.PipelinedEffect` | minissdpd/minissdpd.c:1113-1135 | and has the effect of submitting the services in order; the submitter hears what every listener hears, and nothing unless it asked for notifications |
| `SsdpListeners.ListenersHearTheLog` | minissdpd/minissdpd.c:411-469 | over any run of announcements, departures and submissions a listening client decodes from what it is told exactly the entries that were added to the notification log, of the right kind and under the right key |
| `SsdpListeners.NewsIsStored` | minissdpd/minissdpd.c:303-469 | what is told of an entry is what the database holds under its key, after a new one has come and before one goes |
| `SsdpListeners.HandleAll` | minissdpd/minissdpd.c:303-469 | over any run of events the database is that of the events, a listening client without a failed write hears all news in order, and a client that does not listen hears nothing |
| `SsdpListeners.Handle` | minissdpd/minissdpd.c:303-469 | one event: updateDevice, removeDevice or a submission, with its notification to all listeners |
| `SsdpListeners.StepFits` | minissdpd/minissdpd.c:317-371 | no stored device outgrows a packet of 1500 bytes, so that its notification always fits the buffer |
| `SsdpListeners.NoteReadBack` | minissdpd/minissdpd.c:420-467 | one notification is read back, whatever follows it |
| `SsdpListeners.EchoesAreTellings` | minissdpd/minissdpd.c:1113-1135 | submissions through requests are told as the same events are |
| `SsdpExamples.OwnSubmission` | minissdpd/minissdpd.c:1113-1144 | the read 05 00 04 01 61 00 00 00: the client is answered and then hears of its own service |
| `SsdpRequest.ContainsForbiddenChars` | minissdpd/minissdpd.c:605-614 | true exactly when some byte is not printable |
| `SsdpOutput.ReqElem.WriteOrBuffer` | minissdpd/minissdpd.c:258-281 | success appends the data to the stream of sent and pending bytes; failure adds at most a prefix of it and loses nothing |
| `SsdpOutput.ReqElem.WriteBuffer` | minissdpd/minissdpd.c:219-235 | flushing keeps the stream |
| `SsdpOutput.ReqElem.AddToBuffer` | minissdpd/minissdpd.c:238-255 | the data follows what is pending, and after success offset + length is the allocated size, also after an earlier failure |
| `SsdpOutput.ReqElem.Deliver` | minissdpd/minissdpd.c:218-281 | over any sequence of successful calls the stream is the concatenation of all data |
| `SsdpOutput.SendNotifications` | minissdpd/minissdpd.c:411-469 | every client that asked for notifications receives the bytes, or a part of them when its write fails; the others receive nothing |
| `AsyncSend.EveryRun` | miniupnpd/asyncsendto.c:94-350 | over every run each packet taken is either in the list or has had exactly one last event, after which nothing happens to it; `try_sendto` never attempts a packet before the time of the request plus the delay |
| `AsyncSend.EveryRunCarries` | miniupnpd/asyncsendto.c:94-272 | over every run a packet in the list, and a packet that is attempted, has the socket, bytes, delay and time of the request with its number |
| `AsyncSend.StepKeeps` | miniupnpd/asyncsendto.c:94-350 | each operation keeps this invariant |
| `AsyncSend.AttemptedWhenDue` | miniupnpd/asyncsendto.c:203-272 | in one cycle of `get_sendto_fds` and `try_sendto` a scheduled packet is attempted if and only if its true time has come |
| `AsyncSend.TriedExactly` | miniupnpd/asyncsendto.c:225-272 | a packet that is not eligible stays as it is, one with a transient outcome stays with its next state, one with a final outcome is gone |
| `AsyncSend.AttemptsEligible` | miniupnpd/asyncsendto.c:231-241 | exactly the eligible packets are attempted |
| `AsyncSend.AttemptedAgain` | miniupnpd/asyncsendto.c:231-262 | a packet whose send would have blocked is attempted again exactly when its socket is ready, an interrupted one at the next occasion, a sent or failed one never |
| `AsyncSend.LeftBlocked` | miniupnpd/asyncsendto.c:299-350 | as long as the clock and `select` work, `finalize_sendto` leaves a packet only if sending it would have blocked in every round |
| `AsyncSend.NextSendDecides` | miniupnpd/asyncsendto.c:184-222 | some packet is due exactly from the time that `get_next_scheduled_send` reports |
| `AsyncSend.Plus` | miniupnpd/asyncsendto.c:140-146 | the sum is exact in microseconds, with up to a full second left in the second field |
| `AsyncSend.DueIsTrueOrder` | miniupnpd/asyncsendto.c:214-215 | the due test is the order of true times in spite of the carry |
| `AsyncSend.EarlierIsTrueOrder` | miniupnpd/asyncsendto.c:191-192 | so is the test for the minimum |
| `AsyncSend.DeadlineTest` | miniupnpd/asyncsendto.c:327-328 | the deadline test differs from the true order exactly when the deadline is reached and its microseconds are a full second |
| `AsyncSend.DeadlineExample` | miniupnpd/asyncsendto.c:289-297 | a deadline that is taken for past when it is just reached |
| `AsyncSend.CarryCanBeMissed` | miniupnpd/asyncsendto.c:143-146 | a time whose microseconds stay at 1000000 |
| `AsyncSend.AsyncSender.SendtoSchedule2` | miniupnpd/asyncsendto.c:95-165 | sent at once, refused, or first in the list with its time and state |
| `AsyncSend.AsyncSender.GetNextScheduledSend` | miniupnpd/asyncsendto.c:184-199 | the number of packets and the earliest true time among them |
| `AsyncSend.AsyncSender.GetSendtoFds` | miniupnpd/asyncsendto.c:203-222 | due packets are marked, the sockets of blocked ones collected, and n counts both |
| `AsyncSend.AsyncSender.TrySendto` | miniupnpd/asyncsendto.c:225-272 | the loop with removal leaves the list and makes the attempts of the recursive definition; the result counts hard errors |
| `AsyncSend.AsyncSender.FinalizeSendto` | miniupnpd/asyncsendto.c:278-350 | rounds of attempts until the list is empty, the deadline is over or a system call fails |
| `HttpBuffer.HttpConnection.Run` | miniupnpd/upnphttp.c:996-1176 | over every sequence of socket events the buffer holds the received bytes, its allocation stays below CONTENT_LENGTH_LIMIT + HEADERS_LENGTH_LIMIT + 2048 + 256 * 1024, and an action runs only on complete headers with a complete body |
| `HttpBuffer.HttpConnection.Process` | miniupnpd/upnphttp.c:996-1176 | one event in each state, also while a continuation or the final answer is sent: what is received and what comes next |
| `HttpBuffer.HttpConnection.AdjustBuffer` | miniupnpd/upnphttp.c:967-993 | success leaves at least 2048 free bytes and the received bytes intact; failure leaves the buffer as it was |
| `HttpBuffer.HttpConnection.ProcessRequest` | miniupnpd/upnphttp.c:1004-1099 | waiting goes on exactly while the headers are incomplete; too long headers are refused; data that arrive while there is memory are appended, all of them if there is room, otherwise a non-empty part |
| `HttpBuffer.HttpConnection.ProcessContent` | miniupnpd/upnphttp.c:1100-1165 | the request is decided exactly when the whole body is there; data that arrive are appended in the same way |
| `HttpBuffer.HttpConnection.ProcessPost` | miniupnpd/upnphttp.c:535-580 | the action runs if and only if the body is complete and there is a SOAPAction header |
| `HttpBuffer.HttpConnection.ProcessQuery` | miniupnpd/upnphttp.c:851-961 | a request is decided at once exactly when it is an acceptable POST whose body is there; a body over the limit, a bad host or another method ends it |
| `HttpBuffer.FindEndHeaders` | miniupnpd/upnphttp.c:477-487 | the position of the first empty line |
| `HttpBuffer.HeadersRead` | miniupnpd/upnphttp.c:1063-1097 | headers followed by their first empty line are complete exactly when shorter than 65536 bytes, whatever follows |
| `HttpBuffer.HeadersMissing` | miniupnpd/upnphttp.c:1063-1097 | bytes without an empty line are incomplete headers, or too long from 65536 bytes on |
| `HttpBuffer.DecisionIsStable` | miniupnpd/upnphttp.c:1063-1097 | the decision on the headers does not depend on how the bytes are cut into pieces |

## Left out

- Sockets, `select`, netlink, STUN, OpenSSL, logging, configuration: only their results enter the model.
- Firewall backends: the mapping table is a sequence, new rules go to its end, and deletes and inserts fail for arbitrary sets of ports (`Env.stuck`, `Env.full`); `port_in_use` is an arbitrary set (`Env.inUse`).
- PCP PEER, SADSCP and FLOWP, PCP pinholes for IPv6 (an arbitrary result code, the table unchanged), and the layout of the response packets of NAT-PMP and PCP.
- Regular expressions and the syntax of permission lines.
- SOAP actions, descriptions of single services, M-SEARCH and the syntax of SSDP packets (an announcement is given by its three headers, together at most 1500 bytes), lease files, UUID generation.
- The body of a NOTIFY message, which lists the variables of the service, is an arbitrary text; the headers are those of UPnP Device Architecture 1.1.
- CallbackUrl.ParseUrl: with IPv6, as under ENABLE_IPV6; conversion of the address text to a socket address is left out.
- Variable changes while a notification is under way are not reported later, by the code or by the model.
- SsdpRequest.ProcessRequest: one read delivers at most 2048 bytes, the size of the code's buffer; the bytes of an incomplete request are not kept by the code either.
- MiniXml.XmlParser.ParseXml: characters are compared as unsigned values.
- SsdpResponse.BuildResponse: a search string longer than the strings stored from the compared one on, which `memcmp` would read past the record, counts as no match.
- AsyncSend.AsyncSender.SendtoSchedule2: packet, address and source address copies are one value; an identifier stands for the address of the list element.
- AsyncSend.AsyncSender.FinalizeSendto: followed for as many rounds as the environment supplies; an interrupted call is a packet's last event here, as in the code.
- HttpBuffer.HttpConnection.ProcessQuery: what the headers say about length, method, action, host and continuation is an arbitrary input.
