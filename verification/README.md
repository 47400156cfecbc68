# Verified models of the flashing and modem-control tools

Dafny models of the algorithms inside two tool sets: the firmware download tool
(`QFirehose`) and the connection manager with its two multiplexing proxies
(`QConnectManager`). Everything that talks to a device, a socket or a file is a sequence
of bytes or a step here; what the device, the network or the clients do is left open, and
the theorems hold for all of it unless they say otherwise.

`dafny verify dfyconfig.toml` checks the whole project.

| file | models |
|---|---|
| `Crc16.dfy` | the table-driven CRC-16 against the bit-serial register of RFC 1662, Appendix C; which errors it detects |
| `FrameSuite.dfy`, `Md5Suite.dfy` | check values: the CRC of "123456789", frames byte for byte, the digest of "abc" |
| `HdlcFrame.dfy` | composing, escaping, sending and in-place decoding of frames (RFC 1662, section 4.2) |
| `Md5.dfy` | RFC 1321 as written, and the unrolled, buffered implementation that equals it for every chunking |
| `QList.dfy` | the intrusive circular doubly linked list, as a sequence |
| `QmiProxy.dfy`, `QmiProxyRuns.dfy` | the QMI proxy: control queue, client-id registry, routing, over all runs |
| `QmiProxySteps.dfy` | what one message does to the QMI proxy, in the numbers of the protocol |
| `MbimProxy.dfy` | the MBIM proxy: client slots and marked transaction ids; the client's id counter |
| `MbimClients.dfy` | who is connected to the MBIM proxy, over all runs |
| `TcpLink.dfy`, `TcpWriter.dfy`, `Usb2Tcp.dfy` | USB over TCP: deframing with the length left from call to call, framing with short writes, and what the far end makes of them |
| `QmiTlv.dfy` | two TLV look-ups and the request composers |
| `QmiMessages.dfy` | composed messages byte for byte, as the pairing reads them |
| `QmiPairing.dfy` | requests and responses between the sending and the reading thread |
| `MbimConnect.dfy` | the three strings of a connect request |
| `FirehoseCommands.dfy`, `FirehoseProtocol.dfy`, `FirehoseHost.dfy` | the download run: table, exchanges, phases |
| `FirehoseInputs.dfy` | what a run takes in from outside, and that this determines it |
| `FirehoseSelection.dfy` | what a run sends, said of the table as it was read in |
| `FirehoseSafety.dfy` | what an answer is worth, and what holds of every run, whatever the device answers |
| `FirehoseSuccess.dfy` | what a successful result is worth, and what a part upgrade sends |
| `FirehoseFlash.dfy` | what the flash holds after a run that goes well |
| `FirehoseXml.dfy`, `FirehoseRoundTrip.dfy` | printing and parsing of the command language, and which commands survive it |
| `FirehoseText.dfy` | the command language letter for letter |
| `Bytes.dfy`, `Arithmetic.dfy`, `Options.dfy`, `Sequences.dfy` | little-endian words; remainders; missing values; concatenation |

An object that the source updates in place is a class with those fields; its methods are
proved against step functions or against values (a message, a sequence, a frame), and the
run-wide theorems are lemmas about these. A ghost result or ghost parameter names the
value that a method is proved against.

Where the code does not do the obvious thing, the model does what the code does:

- `crc_16_l_calc` takes the bits after the last whole byte as zeros (`Crc16.TailBits`); its
  only caller passes whole bytes.
- `remove_escape_hdlc_flag` keeps the closing 0x7E (`HdlcFrame.FrameRoundTrip`).
- A client that disconnects loses only its first queued control message, and a control
  indication resends the head of the queue (`QmiProxyRuns.DisconnectInStep`,
  `HeadOwnerLeaves`, `IndicationResends`). What it leaves behind blocks the queue for
  everybody until a stray answer comes (`LeftoverStays`, `LeftoverBecomesHead`,
  `StuckForGood`).
- A reply that comes after the time limit gives the request back and leaves a response
  that the next send discards (`QmiPairing.SendThenReceive` holds from any state).
- `firehose_main` ignores what becomes of the boot loader
  (`FirehoseSuccess.SuccessIsCompleteIff`), and sends its two commands even when a part
  upgrade does not select them (`OnlySelectedIff`, `PartUpgradeSendsBootLoader`).
- `qtcp_read` loses its place when a header arrives in pieces or a body read times out
  (`TcpLink.ReadKeepsPlaceIff`, `SplitHeaderLeaks`); after a short write
  `qusb_noblock_write` gives the rest a header of its own, and its result does not tell
  (`TcpWriter.PushedIsFrameIff`, `Usb2Tcp.PeerKeepsUpIff`). `usb2tcp_main` skips headers
  with a wrong tag, so there are payloads with which that never shows
  (`Usb2Tcp.ShortWriteUnnoticed`).
- `qmi_find_tlv` takes odd bytes behind a list for one more TLV, and `GetTLV` reads on
  behind a message whose last TLV is cut off, unless it is the one that is asked for
  (`QmiTlv.LookUpsAgree`).
- `fh_send_rawmode_image` pads every chunk and counts the padding as sent, so a sector
  size that does not divide the payload size tears longer files
  (`FirehoseFlash.StreamIsPaddedIff`).
- `fh_send_cmd` drops fields depending on the label (`FirehoseRoundTrip.EraseUnchangedIff`,
  `ProgramUnchangedIff`). `fh_xml_get_value` takes the first occurrence of a name wherever
  it stands, so a label or file name can hide later fields (`LabelMisleads`,
  `FileNameMisleads`), and its check for `="` fails only if both characters are wrong.

## Model

| member | source | states |
|---|---|---|
| `Crc16.TableIsShift` | src/LTE&5G_QFirehose_Linux&Android_V1.4/stream_download_protocol.c:50-83 | Each of the 256 table entries is what eight steps of the shift register with polynomial 0x8408 make of its index. |
| `Crc16.LookUpByte` | src/LTE&5G_QFirehose_Linux&Android_V1.4/stream_download_protocol.c:85-110 | One table look-up takes the register through the eight bits of a byte, for every register value and byte. |
| `Crc16.TailBits` | src/LTE&5G_QFirehose_Linux&Android_V1.4/stream_download_protocol.c:90-108 | The bits after the last whole byte enter the register as zeros, whatever the byte is. |
| `Crc16.Crc16LCalc` | src/LTE&5G_QFirehose_Linux&Android_V1.4/stream_download_protocol.c:85-110 | For any number of bits: the bit-serial check sequence (seed, one register step per bit, complement) of the whole bytes followed by a zero for every odd bit; so the check sequence of any whole-byte message. |
| `Crc16.CheckSequenceResidue` | src/LTE&5G_QFirehose_Linux&Android_V1.4/stream_download_protocol.c:85-118 | Whatever the message, sending its check sequence low byte first drives the register to 0xF0B8, and the routine gives 0x0F47 (RFC 1662, Appendix C.2). |
| `Crc16.RegisterInjective` | src/LTE&5G_QFirehose_Linux&Android_V1.4/stream_download_protocol.c:85-110 | Feeding the same bits keeps two different register values different. |
| `Crc16.BurstDetected` | src/LTE&5G_QFirehose_Linux&Android_V1.4/stream_download_protocol.c:85-110 | Two different messages of equal length that agree outside a window of sixteen bits, at any bit position, have different check sequences. |
| `Crc16.AdjacentBytesDetected` | src/LTE&5G_QFirehose_Linux&Android_V1.4/stream_download_protocol.c:85-110 | In particular, replacing up to two adjacent bytes always changes the check sequence. |
| `HdlcFrame.FrameRoundTrip` | src/LTE&5G_QFirehose_Linux&Android_V1.4/stream_download_protocol.c:140-229 | The inside of a frame holds no flag byte, and decoding a frame gives its payload followed by the closing flag. |
| `HdlcFrame.FrameInjective` | src/LTE&5G_QFirehose_Linux&Android_V1.4/stream_download_protocol.c:140-177 | Different packets have different frames. |
| `HdlcFrame.Transmitter.ComposePacket` | src/LTE&5G_QFirehose_Linux&Android_V1.4/stream_download_protocol.c:120-138 | The transmit buffer holds command, parameter and data in this order, and a zero after them. |
| `HdlcFrame.Transmitter.ComputeReplyCrc` | src/LTE&5G_QFirehose_Linux&Android_V1.4/stream_download_protocol.c:112-118 | The check sequence of the packet is appended to it, low byte first. |
| `HdlcFrame.Transmitter.SendPacket` | src/LTE&5G_QFirehose_Linux&Android_V1.4/stream_download_protocol.c:140-177 | What goes to the port is the frame of the packet, with or without a leading flag. |
| `HdlcFrame.RemoveEscapeHdlcFlag` | src/LTE&5G_QFirehose_Linux&Android_V1.4/stream_download_protocol.c:197-229 | The in-place decoder leaves the decoded bytes at the front of its buffer, never overtakes its own reading, and touches nothing behind the input. |
| `HdlcFrame.SendAndDecode` | src/LTE&5G_QFirehose_Linux&Android_V1.4/stream_download_protocol.c:112-229 | From compose to in-place decode: the receiver is left with command, parameter, data, the two check bytes and one kept 0x7E. |
| `FrameSuite.CheckValue` | src/LTE&5G_QFirehose_Linux&Android_V1.4/stream_download_protocol.c:50-118 | The CRC of the nine digits is the check value 0x906E, sent as 6E 90. |
| `FrameSuite.PlainFrame` | src/LTE&5G_QFirehose_Linux&Android_V1.4/stream_download_protocol.c:140-177 | A payload without 0x7E and 0x7D goes out as it is between flags. |
| `FrameSuite.EscapesFramed` | src/LTE&5G_QFirehose_Linux&Android_V1.4/stream_download_protocol.c:140-177 | The frame of the bytes 7E 7D 41 is 7E 7D 5E 7D 5D 41 7E. |
| `FrameSuite.EscapesDecoded` | src/LTE&5G_QFirehose_Linux&Android_V1.4/stream_download_protocol.c:197-229 | That frame with one more leading flag decodes to 7E 7D 41 7E. |
| `Md5.MacroIsAuxiliary` | src/LTE&5G_QFirehose_Linux&Android_V1.4/md5.c:19-28 | The rewritten `F` and `G` and the two bracketings of `H` are the auxiliary functions of RFC 1321. |
| `Md5.StepIsOperation` | src/LTE&5G_QFirehose_Linux&Android_V1.4/md5.c:19-28 | One `STEP` on rotated register roles is the indexed operation of RFC 1321, section 3.4. |
| `Md5.Round1` | src/LTE&5G_QFirehose_Linux&Android_V1.4/md5.c:68-84 | Sixteen unrolled steps are operations 0 to 15 of the indexed loop. |
| `Md5.Round2` | src/LTE&5G_QFirehose_Linux&Android_V1.4/md5.c:86-102 | Sixteen unrolled steps are operations 16 to 31. |
| `Md5.Round3` | src/LTE&5G_QFirehose_Linux&Android_V1.4/md5.c:104-120 | Sixteen unrolled steps, with `H` and `H2` in turn, are operations 32 to 47. |
| `Md5.Round4` | src/LTE&5G_QFirehose_Linux&Android_V1.4/md5.c:122-138 | Sixteen unrolled steps are operations 48 to 63. |
| `Md5.Md5Context.Body` | src/LTE&5G_QFirehose_Linux&Android_V1.4/md5.c:47-154 | The do-while over 64-byte blocks is the left fold of the block function over any non-empty whole number of blocks. |
| `Md5.CountAdvances` | src/LTE&5G_QFirehose_Linux&Android_V1.4/md5.c:166-178 | The two count words with their carry hold the length modulo 2^61 after an addition of any size. |
| `Md5.Md5Context.constructor` | src/LTE&5G_QFirehose_Linux&Android_V1.4/md5.c:156-164 | A fresh context has taken in the empty message. |
| `Md5.Md5Context.Hash` | src/LTE&5G_QFirehose_Linux&Android_V1.4/md5.c:166-197 | A context that has taken in a message has, after the call, taken in that message and the input: whole blocks folded, the rest buffered, the length counted. |
| `Md5.Md5Context.Finish` | src/LTE&5G_QFirehose_Linux&Android_V1.4/md5.c:199-229 | Padding in one or two blocks makes the state the fold over the message padded as in RFC 1321, sections 3.1 and 3.2. |
| `Md5Spec.WordBytesJoined` | src/LTE&5G_QFirehose_Linux&Android_V1.4/md5.c:230-245 | The four bytes of a word, the first one lowest, make up the word. |
| `Md5.Md5Context.StoreResult` | src/LTE&5G_QFirehose_Linux&Android_V1.4/md5.c:230-245 | Sixteen result bytes: register by register, each joined from its four bytes with the first one lowest; what lies behind them stays. |
| `Md5.Md5Context.End` | src/LTE&5G_QFirehose_Linux&Android_V1.4/md5.c:199-248 | The result buffer receives the digest of everything taken in, and the context is wiped. |
| `Md5.DigestOfChunks` | src/LTE&5G_QFirehose_Linux&Android_V1.4/md5.c:156-248 | However a message is split into calls, the digest is that of the whole message. |
| `Md5.Md5Sum` | src/LTE&5G_QFirehose_Linux&Android_V1.4/md5.c:250-274 | The read loop over 256-byte chunks gives the digest of the file. |
| `Md5Suite.DigestOfAbc` | src/LTE&5G_QFirehose_Linux&Android_V1.4/md5.c:47-248 | The digest of `abc` is 900150983cd24fb0d6963f7d28e17f72 (RFC 1321, section A.5). |
| `QList.LinksAreInverse` | src/Quectel_QConnectManager_Linux_V1.6.0.16/quectel-qmi-proxy.c:448-502 | In a list `next` and `prev` undo each other at every node, and lead to nodes of the list. |
| `QList.ListUnique` | src/Quectel_QConnectManager_Linux_V1.6.0.16/quectel-qmi-proxy.c:448-502 | The links determine the sequence of nodes: one head cannot stand for two. |
| `QList.Init` | src/Quectel_QConnectManager_Linux_V1.6.0.16/quectel-qmi-proxy.c:484-488 | A node by itself is the empty list. |
| `QList.InitBeside` | src/Quectel_QConnectManager_Linux_V1.6.0.16/quectel-qmi-proxy.c:484-488 | A node of no list becomes an empty list beside any number of lists, which stay as they are. |
| `QList.AddTail` | src/Quectel_QConnectManager_Linux_V1.6.0.16/quectel-qmi-proxy.c:490-496 | The item is appended. |
| `QList.Remove` | src/Quectel_QConnectManager_Linux_V1.6.0.16/quectel-qmi-proxy.c:498-502 | Exactly that node leaves the sequence, and keeps its own links. |
| `QList.ForEach` | src/Quectel_QConnectManager_Linux_V1.6.0.16/quectel-qmi-proxy.c:457-458 | The traversal ends and has visited the sequence once, in order. |
| `QList.AppendTo` | src/Quectel_QConnectManager_Linux_V1.6.0.16/quectel-qmi-proxy.c:490-496 | Among any number of lists that share no node, appending to one leaves the others as they are. |
| `QList.RemoveFrom` | src/Quectel_QConnectManager_Linux_V1.6.0.16/quectel-qmi-proxy.c:498-502 | Among any number of lists that share no node, removing from one leaves the others as they are. |
| `QmiProxyRuns.AcceptKeeps` | src/Quectel_QConnectManager_Linux_V1.6.0.16/quectel-qmi-proxy.c:642-661 | A new client leaves the proxy in step, whatever its descriptor (the proxy keeps its low byte) and even when accepting failed, if no client has that byte: the queue, what is outstanding and who was answered are as before. |
| `QmiProxy.Proxy.CleanupQmiConnection` | src/Quectel_QConnectManager_Linux_V1.6.0.16/quectel-qmi-proxy.c:663-696 | The connection goes, and of its queued control messages only the first. |
| `QmiProxy.Proxy.RecvQmi` | src/Quectel_QConnectManager_Linux_V1.6.0.16/quectel-qmi-proxy.c:802-857 | Once the proxy serves clients: a control response is handed to the client at the head of the queue and the next request is sent; an indication resends the head; a service message goes to all connections that list its client id, or to all for a broadcast. |
| `QmiProxySteps.ResponseToHead` | src/Quectel_QConnectManager_Linux_V1.6.0.16/quectel-qmi-proxy.c:698-727 | In numbers: a control response without errors to the head of the queue appends its client id (0x0022), or takes the first occurrence out of the list (0x0023, 0x0024), for the connection of the head and no other; every other response leaves all lists as they are; 0x0024 alone marks a modem reset. |
| `QmiProxySteps.ReleaseForgets` | src/Quectel_QConnectManager_Linux_V1.6.0.16/quectel-qmi-proxy.c:712-727 | From a list without repeats a released or revoked id is gone, and every other id stays. |
| `QmiProxySteps.ControlOnTheWire` | src/Quectel_QConnectManager_Linux_V1.6.0.16/quectel-qmi-proxy.c:802-841 | With distinct descriptors a control message puts on the wire: the response, once, to the client at the head if it is connected, and then the request that is at the head, once, if its client is. |
| `QmiProxySteps.ConnectionEnds` | src/Quectel_QConnectManager_Linux_V1.6.0.16/quectel-qmi-proxy.c:663-696 | A connection that ends takes its first queued request with it, and no other connection or request. |
| `QmiProxySteps.RequestFromClient` | src/Quectel_QConnectManager_Linux_V1.6.0.16/quectel-qmi-proxy.c:859-880 | A control request joins the queue and goes out at once exactly if the queue was empty; a service message goes out at once. |
| `QmiProxySteps.ServiceCopies` | src/Quectel_QConnectManager_Linux_V1.6.0.16/quectel-qmi-proxy.c:843-856 | A service message goes out once for every client id that names its service and, unless it is a broadcast, its client, in the order of connections and lists; nothing else changes. |
| `QmiProxyRuns.RequestStep` | src/Quectel_QConnectManager_Linux_V1.6.0.16/quectel-qmi-proxy.c:859-880 | A proxy in step stays in step when a client sends: a control request joins the end of the queue and goes out exactly if it is alone there; a service message changes nothing of it. |
| `QmiProxyRuns.ControlIsSerialised` | src/Quectel_QConnectManager_Linux_V1.6.0.16/quectel-qmi-proxy.c:779-880 | In every run where the modem answers what it was sent and no client leaves with queued requests, the queue is exactly the unanswered requests in order of arrival, only its head is outstanding, and the k-th answer went to the client of the k-th request and to nobody else. |
| `QmiProxyRuns.DisconnectInStep` | src/Quectel_QConnectManager_Linux_V1.6.0.16/quectel-qmi-proxy.c:663-696 | A disconnection leaves the proxy in step if and only if the client had nothing queued, or a single message behind the head. |
| `QmiProxyRuns.HeadOwnerLeaves` | src/Quectel_QConnectManager_Linux_V1.6.0.16/quectel-qmi-proxy.c:663-696 | When the client of the outstanding request leaves, its answer goes to the next client, whose request was never sent. |
| `QmiProxyRuns.IndicationResends` | src/Quectel_QConnectManager_Linux_V1.6.0.16/quectel-qmi-proxy.c:802-841 | A control indication changes nothing except that the head of the queue is sent again. |
| `QmiProxyRuns.LeftoverStays` | src/Quectel_QConnectManager_Linux_V1.6.0.16/quectel-qmi-proxy.c:663-696 | A client that leaves with a second message queued leaves that message in the queue without an owner. |
| `QmiProxyRuns.LeftoverBecomesHead` | src/Quectel_QConnectManager_Linux_V1.6.0.16/quectel-qmi-proxy.c:779-801 | When the message before it is answered, an ownerless message becomes the head of the queue and nothing is sent: the queue is stuck. |
| `QmiProxyRuns.StuckForGood` | src/Quectel_QConnectManager_Linux_V1.6.0.16/quectel-qmi-proxy.c:663-880 | From a stuck queue on, through any run in which no control response comes and no new client gets the old descriptor, no control request of anybody reaches the modem. |
| `QmiRegistry.RegistryIsExact` | src/Quectel_QConnectManager_Linux_V1.6.0.16/quectel-qmi-proxy.c:698-727 | In every run in which no held id is granted and no descriptor in use is accepted again, the lists of the connections are exactly the grants minus the releases and the clients that left, whatever else happens: control indications, stray responses, clients that leave with requests queued, releases of foreign ids. The holder is the client to which the proxy hands the grant. |
| `QmiRegistry.UnicastReachesHolder` | src/Quectel_QConnectManager_Linux_V1.6.0.16/quectel-qmi-proxy.c:843-856 | In every such run a message for one client id goes to the holder of the id, once, and to nobody when it has none. |
| `QmiRegistry.HolderIsWhoAsked` | src/Quectel_QConnectManager_Linux_V1.6.0.16/quectel-qmi-proxy.c:698-880 | While control requests are serialised (`ControlRun`, as in `ControlIsSerialised`) the holder of an id is the client that asked for it. |
| `QmiRegistry.GrantKeepsExclusive` | src/Quectel_QConnectManager_Linux_V1.6.0.16/quectel-qmi-proxy.c:698-710 | A grant leaves every id with one connection if and only if nobody held the granted id. |
| `MbimProxy.Proxy.HandleClientConnect` | src/Quectel_QConnectManager_Linux_V1.6.0.16/quectel-mbim-proxy.c:150-176 | The first free slot i gets the descriptor and the number i + 1, every other slot stays, and success is reported; with no free slot, or a failed accept, nothing changes and failure is reported. |
| `MbimProxy.Proxy.HandleClientDisconnect` | src/Quectel_QConnectManager_Linux_V1.6.0.16/quectel-mbim-proxy.c:178-189 | The first slot with the client's descriptor gets descriptor -1 and keeps its number, every other slot stays; nothing changes when there is none. |
| `MbimProxy.Proxy.HandleClientRequest` | src/Quectel_QConnectManager_Linux_V1.6.0.16/quectel-mbim-proxy.c:191-223 | The transaction id goes out as its low 24 bits with the number of the client's first slot above them; a client without a slot sends nothing. |
| `MbimProxy.Proxy.HandleDeviceResponse` | src/Quectel_QConnectManager_Linux_V1.6.0.16/quectel-mbim-proxy.c:225-257 | An answer goes with its low 24 bits to the first occupied slot whose number stands above them, or to nobody; id 0 goes to every client. |
| `MbimProxy.SlotsNumbered` | src/Quectel_QConnectManager_Linux_V1.6.0.16/quectel-mbim-proxy.c:165-172 | In every run an occupied slot i carries the number i + 1. |
| `MbimClients.SlotsOfRun` | src/Quectel_QConnectManager_Linux_V1.6.0.16/quectel-mbim-proxy.c:150-189 | In every run without a descriptor in use being given out again: a descriptor is in an occupied slot if and only if it was accepted and has not been closed since, and in one slot only; as many slots are used as clients are there, so the next one is turned away exactly when there are 32. |
| `MbimClients.BroadcastReaches` | src/Quectel_QConnectManager_Linux_V1.6.0.16/quectel-mbim-proxy.c:225-239 | In every such run an unsolicited message goes once to each client that is there, and to nobody else, with id 0. |
| `MbimProxy.WireIds` | src/Quectel_QConnectManager_Linux_V1.6.0.16/quectel-mbim-proxy.c:191-257 | A marked id fits 32 bits, is never the broadcast id, and gives back both the slot and the low 24 bits. |
| `MbimProxy.WiresDisjoint` | src/Quectel_QConnectManager_Linux_V1.6.0.16/quectel-mbim-proxy.c:191-223 | Ids from different slots never collide. |
| `MbimProxy.AnswerGoesToSlot` | src/Quectel_QConnectManager_Linux_V1.6.0.16/quectel-mbim-proxy.c:225-257 | In every run the answer to an outstanding request goes to the present occupant of its slot, and to nobody when the slot is free. |
| `MbimProxy.AnswerReachesIssuerIff` | src/Quectel_QConnectManager_Linux_V1.6.0.16/quectel-mbim-proxy.c:150-257 | An answer reaches the connection that asked, with the id it used, if and only if that connection still occupies its slot and its id is below 2^24. |
| `MbimProxy.AnswerReachesIssuer` | src/Quectel_QConnectManager_Linux_V1.6.0.16/quectel-mbim-proxy.c:150-257 | If no slot is given away while a request of its former occupant is outstanding, an answer reaches its issuer, or nobody; and its issuer exactly if the slot is still occupied. |
| `MbimTransactionIds.Counter.Requests` | src/Quectel_QConnectManager_Linux_V1.6.0.16/mbim-cm.c:1528-1540 | The ids of any number of requests run from 1 to the last allowed id and start over at 1. |
| `MbimTransactionIds.IdsDistinct` | src/Quectel_QConnectManager_Linux_V1.6.0.16/mbim-cm.c:1528-1540 | Within one cycle no two requests carry the same id. |
| `TcpLink.ContentsOfStream` | src/LTE&5G_QFirehose_Linux&Android_V1.4/usb_linux.c:531-561 | The contents of a stream of frames are the payloads, one after the other. |
| `TcpLink.FrameBytes` | src/LTE&5G_QFirehose_Linux&Android_V1.4/usb_linux.c:531-561 | A frame is the bytes 78 56 34 12, the payload's length low byte first, and the payload. |
| `TcpLink.HeaderOnBytes` | src/LTE&5G_QFirehose_Linux&Android_V1.4/usb_linux.c:488-503 | The tag is compared byte for byte, and a length with its highest bit set counts as none. |
| `TcpLink.ContentsSplit` | src/LTE&5G_QFirehose_Linux&Android_V1.4/usb_linux.c:506-529 | Taking bytes of the current frame off the wire takes the same bytes off the contents. |
| `TcpLink.ReadKeepsPlaceIff` | src/LTE&5G_QFirehose_Linux&Android_V1.4/usb_linux.c:488-529 | Whatever arrives: after a read the left-over length fits the position in the stream if and only if the header read got none or all of its eight bytes and the body read got all it asked for; and then the read returned the next bytes of the contents. |
| `TcpLink.ReadsStayInPlaceIff` | src/LTE&5G_QFirehose_Linux&Android_V1.4/usb_linux.c:488-529 | Through any number of reads of any sizes, fragmented and timed out as the network likes, the reader keeps its place if and only if that holds at every read; and then what was read and what is to come make up what was to come before. |
| `TcpLink.FlowReadsIff` | src/LTE&5G_QFirehose_Linux&Android_V1.4/usb_linux.c:488-529 | When every read brings something, in pieces of any size, the reader never loses its place if and only if no header that is due is split; and then every read brings a byte until all is delivered, if no payload is empty and no read asks for nothing. |
| `TcpLink.SteadyReads` | src/LTE&5G_QFirehose_Linux&Android_V1.4/usb_linux.c:488-529 | When no piece is shorter than a header, no header is ever split. |
| `TcpLink.SplitHeaderLeaks` | src/LTE&5G_QFirehose_Linux&Android_V1.4/usb_linux.c:493-503 | When seven bytes of a header arrive alone, a read gives nothing and the next one returns the eighth as payload. |
| `TcpLink.CollectConserves` | src/LTE&5G_QFirehose_Linux&Android_V1.4/usb_linux.c:744-798 | The read loop keeps its place and conserves the contents when all arrives that must at each of its reads; the poll that ends it costs nothing. |
| `TcpLink.FlowCollectsIff` | src/LTE&5G_QFirehose_Linux&Android_V1.4/usb_linux.c:744-798 | When every read brings something, all arrives in the read loop that must if and only if no header that is due in it is split. |
| `TcpLink.FlowCollects` | src/LTE&5G_QFirehose_Linux&Android_V1.4/usb_linux.c:744-798 | And then the loop returns at least the minimum asked for, or everything there is. |
| `TcpLink.SteadyCollects` | src/LTE&5G_QFirehose_Linux&Android_V1.4/usb_linux.c:744-798 | When no piece is shorter than a header, no header is ever split in the loop. |
| `TcpLink.Reader.QtcpRead` | src/LTE&5G_QFirehose_Linux&Android_V1.4/usb_linux.c:488-529 | The method with its static header and body loop takes the link to what one read makes of it, for any arrivals, partial headers included. |
| `TcpLink.Reader.QusbNoblockRead` | src/LTE&5G_QFirehose_Linux&Android_V1.4/usb_linux.c:744-798 | The loop takes the link to what repeated reads make of it, for any limits and arrivals. |
| `TcpLink.Reader.ReadAll` | src/LTE&5G_QFirehose_Linux&Android_V1.4/usb_linux.c:488-529 | For any payloads and read sizes: if everything arrives that must, what was read and what is still to come make up the payloads; when every read brings something and no header is split, what was read is always a prefix of them and in the end all of them. |
| `TcpWriter.WholeIff` | src/LTE&5G_QFirehose_Linux&Android_V1.4/usb_linux.c:531-561 | The wire grows by the payload's frame if and only if header and body went out whole, and by less otherwise. |
| `TcpWriter.AllWholeIff` | src/LTE&5G_QFirehose_Linux&Android_V1.4/usb_linux.c:531-561 | After any number of writes the wire has grown by the stream of the payloads if and only if every write was whole. |
| `TcpWriter.PushedIsFrameIff` | src/LTE&5G_QFirehose_Linux&Android_V1.4/usb_linux.c:800-852 | When the write loop reports the whole payload, the wire holds its frame if and only if the first write was whole; otherwise a second header stands between the first part and the rest. |
| `TcpWriter.Writer.QtcpWrite` | src/LTE&5G_QFirehose_Linux&Android_V1.4/usb_linux.c:531-561 | The method takes the wire to what one write makes of it, and returns how much of the payload went out. |
| `TcpWriter.Writer.QusbNoblockWrite` | src/LTE&5G_QFirehose_Linux&Android_V1.4/usb_linux.c:800-852 | The loop takes the wire to what repeated writes of the rest make of it. |
| `TcpWriter.Writer.WriteAll` | src/LTE&5G_QFirehose_Linux&Android_V1.4/usb_linux.c:531-561 | Payloads written one after the other: success if and only if the wire holds their stream. |
| `Usb2Tcp.Peer.Serve` | src/LTE&5G_QFirehose_Linux&Android_V1.4/usb2tcp.c:305-322 | The far end's loop hands on the payloads of whole frames, skips headers with a wrong tag, and ends at a negative length or where nothing more comes. |
| `Usb2Tcp.StreamForwarded` | src/LTE&5G_QFirehose_Linux&Android_V1.4/usb2tcp.c:305-322 | The frames of payloads reach the modem as these payloads, and what follows them as it would alone. |
| `Usb2Tcp.PeerKeepsUpIff` | src/LTE&5G_QFirehose_Linux&Android_V1.4/usb2tcp.c:305-322 | After any frames, for every payload and every pattern of short writes after which the write loop reports it whole: the modem gets it and all that is ever written after it as it was meant if and only if the first write was whole, or the payload is read back in spite of the extra headers and what is left of it on the wire are headers that the far end skips or takes for empty frames. |
| `Usb2Tcp.ShortWriteUnnoticed` | src/LTE&5G_QFirehose_Linux&Android_V1.4/usb2tcp.c:305-322 | There is such a payload: a short write goes unnoticed for good. |
| `Usb2Tcp.HeaderPassesForPayload` | src/LTE&5G_QFirehose_Linux&Android_V1.4/usb2tcp.c:305-322 | And one with which it goes unnoticed for this payload, the far end then waiting for bytes of the next. |
| `Usb2Tcp.PeerReadsPayloadIff` | src/LTE&5G_QFirehose_Linux&Android_V1.4/usb2tcp.c:305-322 | For every payload that holds nowhere the header of its own rest, nor ends in the beginning of one (as one does that ends in 0x78), a short first write always shows at once. |
| `QmiTlv.EncodedAt` | src/Quectel_QConnectManager_Linux_V1.6.0.16/QMIThread.c:67-86 | At the offset of the k-th TLV the wire holds its type, length and value. |
| `QmiTlv.GetTlv` | src/Quectel_QConnectManager_Linux_V1.6.0.16/QMIThread.c:67-86 | For any message: the first whole TLV of a type, or the n-th for 0x1000 + n, or the header behind them that is cut off; and exactly when the cursor leaves the message, because the length of a cut-off TLV makes the 16-bit count wrap. |
| `QmiTlv.QmiFindTlv` | src/Quectel_QConnectManager_Linux_V1.6.0.16/quectel-qmi-proxy.c:909-924 | For any message: the first whole TLV of a type, else the bytes behind the last whole TLV if they begin with the type, or nothing. |
| `QmiTlv.LookUpsAgree` | src/Quectel_QConnectManager_Linux_V1.6.0.16/QMIThread.c:67-86 | For any message the two look-ups agree if and only if a whole TLV has the type, or what follows the whole TLVs is empty, or too short for a header and of another type, or a header that has the type or whose length does not lead `GetTLV` out of the message. |
| `QmiTlv.SplitIsUnique` | src/Quectel_QConnectManager_Linux_V1.6.0.16/QMIThread.c:67-86 | A message is a list of whole TLVs and a rest that begins with none, in one way only. |
| `QmiTlv.Composer.WdsStartNwInterfaceReq` | src/Quectel_QConnectManager_Linux_V1.6.0.16/QMIThread.c:179-269 | The bytes written are the encoding of the request's TLVs, and the returned length is theirs and the header's. |
| `QmiTlv.Composer.WdsModifyProfileSettingsReq` | src/Quectel_QConnectManager_Linux_V1.6.0.16/QMIThread.c:489-555 | The bytes written are the encoding of the request's TLVs, and the returned length is theirs and the header's. |
| `QmiTlv.Composer.ComposeQmuxMsg` | src/Quectel_QConnectManager_Linux_V1.6.0.16/QMIThread.c:95-131 | The whole message, header lengths included; transaction ids count up and skip 0. |
| `QmiMessages.MessageBytes` | src/Quectel_QConnectManager_Linux_V1.6.0.16/QMIThread.c:95-131 | Every byte of a composed message: frame type, length of what follows, service, client, transaction id, message type, length of the TLVs, low bytes first. |
| `QmiMessages.WantedIs` | src/Quectel_QConnectManager_Linux_V1.6.0.16/QMIThread.c:67-86 | Which TLV a look-up is after: the n-th for 0x1000 + n, and the first of its type for other numbers. |
| `QmiTlv.StartNwFields` | src/Quectel_QConnectManager_Linux_V1.6.0.16/QMIThread.c:179-269 | Every field of a start-network request is found under its type, and absent ones are not; on a CDMA network a profile without name and password gets the carrier's account, letter for letter. |
| `QmiTlv.ModifyFields` | src/Quectel_QConnectManager_Linux_V1.6.0.16/QMIThread.c:489-555 | Every field of a modify-profile request is found under its type, the address family as 0, 2 or 3, and absent ones are not. |
| `QmiTlv.FindInComposed` | src/Quectel_QConnectManager_Linux_V1.6.0.16/QMIThread.c:67-131 | For every service with a client id, looking a type up in a composed message gives the value that the composer was given for it. |
| `QmiPairing.SendThenReceive` | src/Quectel_QConnectManager_Linux_V1.6.0.16/QMIThread.c:596-687 | From any state whatever, after a send the first message that settles it (an answer or a cancellation) fixes the response, gives the request back once, and nothing before the wake-up changes that; all other messages only cause their notices. |
| `QmiPairing.AnswerBelongsToCall` | src/Quectel_QConnectManager_Linux_V1.6.0.16/QMIThread.c:596-687 | In any run, what a call returns is the first message since that call that agrees with its request in the bytes of type, client and transaction id (one byte of it in control messages, two in others); every message before it differs in one of them. |
| `QmiPairing.IsResponseOnBytes` | src/Quectel_QConnectManager_Linux_V1.6.0.16/QMIThread.c:577-592 | A message answers a request if and only if they agree at bytes 4, 5 and 7, and at 8 as well unless it is a control message. |
| `QmiPairing.NoticeOnBytes` | src/Quectel_QConnectManager_Linux_V1.6.0.16/QMIThread.c:641-687 | Which messages are told to the main thread, by their bytes, and what is told. |
| `QmiMessages.ComposedPairIff` | src/Quectel_QConnectManager_Linux_V1.6.0.16/QMIThread.c:95-592 | Two composed messages are taken for request and answer if and only if service, client byte and transaction id are the same. |
| `QmiPairing.BuffersConserved` | src/Quectel_QConnectManager_Linux_V1.6.0.16/QMIThread.c:596-687 | In any run every request sent has been given back, or was replaced while pending, or is pending. |
| `QmiPairing.FreedOnce` | src/Quectel_QConnectManager_Linux_V1.6.0.16/QMIThread.c:596-687 | In any run of one sender no request is given back twice, and none that is pending or was replaced has been given back. |
| `QmiPairing.RequestLostIff` | src/Quectel_QConnectManager_Linux_V1.6.0.16/QMIThread.c:608-632 | A request is lost if and only if nothing settles it before the next send, whether or not its own call has returned. |
| `QmiPairing.Exchange.SendQmiTimeout` | src/Quectel_QConnectManager_Linux_V1.6.0.16/QMIThread.c:596-639 | A call with anything received during its wait: return code, answer, the request given back or kept. |
| `MbimConnect.AlignIsLeast` | src/Quectel_QConnectManager_Linux_V1.6.0.16/mbim-cm.c:1953 | The alignment macro gives the least multiple of four that is large enough. |
| `MbimConnect.PopulateConnectData` | src/Quectel_QConnectManager_Linux_V1.6.0.16/mbim-cm.c:1954-2006 | For any three strings, present or not, the segments are 4-byte aligned, one behind the other, inside the buffer, and recorded by offset and size (MBIM 1.0, section 10.5.12). |
| `MbimConnect.PackedBytes` | src/Quectel_QConnectManager_Linux_V1.6.0.16/mbim-cm.c:1954-2006 | Byte for byte: offset and size of the three strings stand at 8, 16 and 24, low byte first, and the strings lie from byte 60 on, each character followed by a zero and each string rounded up to four bytes. |
| `MbimConnect.GetSegment` | src/Quectel_QConnectManager_Linux_V1.6.0.16/mbim-cm.c:1152-1162 | Every other byte of a segment is read. |
| `MbimConnect.RoundTrip` | src/Quectel_QConnectManager_Linux_V1.6.0.16/mbim-cm.c:1152-2006 | Strings of up to 255 characters read back from the packed request as they went in. |
| `FirehoseHost.Host.SendCfgCmd` | src/LTE&5G_QFirehose_Linux&Android_V1.4/firehose_protocol.c:496-531 | The configuration is offered, and once more with the device's payload size when it is refused with one; success means the last offer was acknowledged and is the payload size from then on. |
| `FirehoseHost.Host.FixupProgramCmd` | src/LTE&5G_QFirehose_Linux&Android_V1.4/firehose_protocol.c:271-316 | A program command gets its file's size and sector count, rounded up, in 32 bits; no sectors when the file is missing or empty. |
| `FirehoseHost.Host.Prepare` | src/LTE&5G_QFirehose_Linux&Android_V1.4/firehose_protocol.c:715-750 | The first pass marks what a part upgrade selects, sizes what will be sent, finds how far the erases reach, and fails exactly when a wanted file has no sectors; what each entry becomes is said in `FirehoseSelection`. |
| `FirehoseSelection.PreparedErase` | src/LTE&5G_QFirehose_Linux&Android_V1.4/firehose_protocol.c:719-733 | In a part upgrade an erase entry is marked if and only if it was, or some program entry whose file name behind `../` is the part starts at its sector; its command stays. |
| `FirehoseSelection.PreparedProgram` | src/LTE&5G_QFirehose_Linux&Android_V1.4/firehose_protocol.c:719-739 | In a part upgrade a program entry is marked, and sized, if and only if its file name behind `../` is the part. |
| `FirehoseSelection.FileIs` | src/LTE&5G_QFirehose_Linux&Android_V1.4/firehose_protocol.c:271-291 | The file of a program command is the one with its file name, backslashes turned into slashes. |
| `FirehoseSelection.SizedIs` | src/LTE&5G_QFirehose_Linux&Android_V1.4/firehose_protocol.c:271-316 | A sized command has its file's length and the sectors of it, rounded up, both in 32 bits, and a file that is not there counts as empty; all else stays. |
| `FirehoseSelection.StartsIff` | src/LTE&5G_QFirehose_Linux&Android_V1.4/firehose_protocol.c:712-742 | A run talks to the device if and only if the table has entries and the file of every program that the download wants is there and takes a number of sectors that is not 0 in 32 bits. |
| `FirehoseSelection.EraseEndIsLargest` | src/LTE&5G_QFirehose_Linux&Android_V1.4/firehose_protocol.c:744-747 | The number of sectors for erasing everything is the largest of start plus sectors, in 32 bits, over all erase entries. |
| `FirehoseSelection.WireOfDownload` | src/LTE&5G_QFirehose_Linux&Android_V1.4/firehose_protocol.c:752-851 | For every unmarked table, every device and both choices: what goes over the wire is the configuration and the beginning of one list, by positions of the table as it was read in: the first erase at sector 0, all vendor commands, the other erases at whose sector a program of the part starts (or the first such erase, widened to everything), the other programs of the part, the first program at sector 0, the reset. A run that succeeds has sent all of it. |
| `FirehoseSelection.PartErases` | src/LTE&5G_QFirehose_Linux&Android_V1.4/firehose_protocol.c:719-797 | In a part upgrade an erase away from sector 0 goes over the wire only if it is in the table and a program of the part starts at its sector; a run that succeeds has sent every such erase. |
| `FirehoseHost.Host.SendRawmodeImage` | src/LTE&5G_QFirehose_Linux&Android_V1.4/firehose_protocol.c:533-599 | All padded chunks of the file go out whole, or a prefix of them and one that did not. |
| `FirehoseHost.Host.SendProgram` | src/LTE&5G_QFirehose_Linux&Android_V1.4/firehose_protocol.c:813-843 | A program succeeds exactly on raw mode acknowledged on, whole image, raw mode acknowledged off; no image is sent without the first. |
| `FirehoseHost.Host.ProcessSbl` | src/LTE&5G_QFirehose_Linux&Android_V1.4/firehose_protocol.c:604-675 | The first erase or program command at sector 0 is attempted, selected or not. |
| `FirehoseHost.Host.SendErases` | src/LTE&5G_QFirehose_Linux&Android_V1.4/firehose_protocol.c:772-797 | The selected erases are sent in table order, the boot loader's left out, up to the first failure; or one erase of everything, written into the table. |
| `FirehoseHost.Host.SendPrograms` | src/LTE&5G_QFirehose_Linux&Android_V1.4/firehose_protocol.c:799-845 | The selected programs are sent in table order, the boot loader's left out, up to the first failure. |
| `FirehoseHost.Host.FirehoseMain` | src/LTE&5G_QFirehose_Linux&Android_V1.4/firehose_protocol.c:677-856 | A whole run: nothing is sent when preparation fails; otherwise what goes over the wire is a greeting, the configuration, the steps of the phases in order, and the reset, and the result says that all but the boot loader's steps were acknowledged. |
| `FirehoseInputs.SameRun` | src/LTE&5G_QFirehose_Linux&Android_V1.4/firehose_protocol.c:677-856 | The table, the device's replies and the fate of the writes determine the run and its result. |
| `FirehoseHost.RunOf` | src/LTE&5G_QFirehose_Linux&Android_V1.4/firehose_protocol.c:677-856 | Every log that the description of a run allows, with either result, is that of a run of `firehose_main`: the replies and writes that it records bring it about. |
| `FirehoseSafety.BootLoaderLast` | src/LTE&5G_QFirehose_Linux&Android_V1.4/firehose_protocol.c:756-848 | For every table and every device: when the boot loader's program is sent, the configuration, all vendor commands, all selected erases and all other selected programs have been acknowledged. |
| `FirehoseSafety.NoEraseAfterProgram` | src/LTE&5G_QFirehose_Linux&Android_V1.4/firehose_protocol.c:759-848 | For every table and every device no erase follows a program. |
| `FirehoseSafety.ProgramsSentOnce` | src/LTE&5G_QFirehose_Linux&Android_V1.4/firehose_protocol.c:799-846 | The programs sent are the first so many of the selected ones, in table order, each once, and the boot loader's at most once. |
| `FirehoseSafety.WireOfRun` | src/LTE&5G_QFirehose_Linux&Android_V1.4/firehose_protocol.c:752-851 | The commands on the wire are those of the configuration and of the steps, and no others. |
| `FirehoseSafety.StopsAtFailure` | src/LTE&5G_QFirehose_Linux&Android_V1.4/firehose_protocol.c:756-855 | In every run the first command that the device does not go along with is the last one sent and the run fails, unless it is the boot loader's erase or program. |
| `FirehoseSafety.PlainExchange` | src/LTE&5G_QFirehose_Linux&Android_V1.4/firehose_protocol.c:759-797 | A vendor or an erase command counts as done exactly if its answer, after any log lines, is an acknowledgement. |
| `FirehoseSafety.ResetExchange` | src/LTE&5G_QFirehose_Linux&Android_V1.4/firehose_protocol.c:850-853 | A reset counts as done with any answer. |
| `FirehoseSafety.ProgramRefused` | src/LTE&5G_QFirehose_Linux&Android_V1.4/firehose_protocol.c:812-826 | A program whose first answer is not an acknowledgement with raw mode on is over, without an image. |
| `FirehoseSafety.ProgramExchange` | src/LTE&5G_QFirehose_Linux&Android_V1.4/firehose_protocol.c:812-843 | With raw mode on and its image sent, a program counts as done exactly if the next answer acknowledges with raw mode off. |
| `FirehoseSafety.ConfigurationExchange` | src/LTE&5G_QFirehose_Linux&Android_V1.4/firehose_protocol.c:496-531 | The configuration is offered with 8192 bytes, and a second time exactly if it is refused with a payload size other than 0, which is then used; success is an acknowledgement of the last offer. |
| `FirehoseFlash.StreamIsPaddedIff` | src/LTE&5G_QFirehose_Linux&Android_V1.4/firehose_protocol.c:562-586 | The chunks of every file of a size make up the file zero-padded to whole sectors if and only if the sector size divides the payload size or the file fits one chunk. |
| `FirehoseFlash.RunEffect` | src/LTE&5G_QFirehose_Linux&Android_V1.4/firehose_protocol.c:756-848 | What a device that goes along with everything ends up with is the effect of the step commands in order. |
| `FirehoseFlash.FlashCorrect` | src/LTE&5G_QFirehose_Linux&Android_V1.4/firehose_protocol.c:562-846 | After a download that goes well, full or of one part, with or without erasing everything, each file of the table that belongs to it lies zero-padded in its sectors from its start sector on, whatever the flash held before; of the programs at sector 0, the first. |
| `FirehoseFlash.SuccessStores` | src/LTE&5G_QFirehose_Linux&Android_V1.4/firehose_protocol.c:562-855 | After any run with a successful result, whatever has become of the boot loader, every file of the download that does not start at sector 0 lies zero-padded in its sectors from its start sector on. |
| `FirehoseFlash.LaterBootLoaderNeverSent` | src/LTE&5G_QFirehose_Linux&Android_V1.4/firehose_protocol.c:604-675 | No run sends another program at sector 0 than the first of the table. |
| `FirehoseFlash.FlashElsewhere` | src/LTE&5G_QFirehose_Linux&Android_V1.4/firehose_protocol.c:604-851 | In every run, whatever the device answers and wherever it ends, sectors that no command of the plan names keep what they held. |
| `FirehoseSuccess.SuccessIsCompleteIff` | src/LTE&5G_QFirehose_Linux&Android_V1.4/firehose_protocol.c:604-855 | For every table that a run starts with: a successful result means, for every device, that all steps were acknowledged, if and only if no entry of the table starts at sector 0. |
| `FirehoseSuccess.RefusingRunSucceeds` | src/LTE&5G_QFirehose_Linux&Android_V1.4/firehose_protocol.c:846-855 | For every such table the run succeeds with a device that refuses the boot loader's commands and acknowledges the rest. |
| `FirehoseSuccess.OnlySelectedIff` | src/LTE&5G_QFirehose_Linux&Android_V1.4/firehose_protocol.c:604-846 | Without erasing everything, no run erases or programs anything that is not selected, whatever the device answers, if and only if the first erase and program commands at sector 0 are those of selected entries. |
| `FirehoseSuccess.PartUpgradeSendsBootLoader` | src/LTE&5G_QFirehose_Linux&Android_V1.4/firehose_protocol.c:604-675 | A table for which a part upgrade of the application sends the boot loader's program as well, and succeeds although the device refuses it. |
| `FirehoseSuccess.GoodRunExists` | src/LTE&5G_QFirehose_Linux&Android_V1.4/firehose_protocol.c:677-855 | With every table that a run starts with there is a run that meets what the flash theorem asks of a run, if the boot loader's file is there when a part upgrade does not need it. |
| `FirehoseXml.NamesApart` | src/LTE&5G_QFirehose_Linux&Android_V1.4/firehose_protocol.c:149-194 | No attribute name occurs in another, so the search for a name cannot stop inside another name. |
| `FirehoseXml.SignedReads` | src/LTE&5G_QFirehose_Linux&Android_V1.4/firehose_protocol.c:419-446 | Every 32-bit value survives signed printing and reading back. |
| `FirehoseText.DecimalDigits` | src/LTE&5G_QFirehose_Linux&Android_V1.4/firehose_protocol.c:419-446 | Numbers are printed in decimal, the last digit lowest. |
| `FirehoseText.PrintedText` | src/LTE&5G_QFirehose_Linux&Android_V1.4/firehose_protocol.c:404-447 | What goes over the wire for each command, letter for letter: vendor lines as they are, the three formats of an erase and the two of a program command with every attribute name spelled out. |
| `FirehoseText.EraseLineIsRead` | src/LTE&5G_QFirehose_Linux&Android_V1.4/firehose_protocol.c:148-167 | From an erase line in one of these formats every field is read back with its value, for all values, and what the line leaves out is zero or empty. |
| `FirehoseText.ProgramLineIsRead` | src/LTE&5G_QFirehose_Linux&Android_V1.4/firehose_protocol.c:168-194 | And from a program line; without a file name it gives no command. |
| `FirehoseText.OtherLinesAreRead` | src/LTE&5G_QFirehose_Linux&Android_V1.4/firehose_protocol.c:143-147 | A line with the vendor mark is kept, cut to 255 characters; any other line that begins with neither tag gives no command. |
| `FirehoseRoundTrip.ValueInLine` | src/LTE&5G_QFirehose_Linux&Android_V1.4/firehose_protocol.c:106-136 | In a printed line the search for a key gives its value, unless a value printed before holds the name: then what follows the name there. |
| `FirehoseRoundTrip.NoVendorLine` | src/LTE&5G_QFirehose_Linux&Android_V1.4/firehose_protocol.c:143-147 | No printed erase or program command is taken for a vendor line, whatever its texts without quotes are. |
| `FirehoseRoundTrip.TrailerHasNoNames` | src/LTE&5G_QFirehose_Linux&Android_V1.4/firehose_protocol.c:477-480 | What is sent behind a command holds none of the names, so the round trips hold of what goes over the wire. |
| `FirehoseRoundTrip.EraseRoundTrip` | src/LTE&5G_QFirehose_Linux&Android_V1.4/firehose_protocol.c:148-434 | What a printed erase command is read back as, for every label without a quote and all 32-bit values. |
| `FirehoseRoundTrip.EraseUnchangedIff` | src/LTE&5G_QFirehose_Linux&Android_V1.4/firehose_protocol.c:148-434 | An erase command survives printing and parsing if and only if its format carries all its fields and its label, when printed, holds no quote and no name of a later field from which another number is read. |
| `FirehoseRoundTrip.LabelMisleads` | src/LTE&5G_QFirehose_Linux&Android_V1.4/firehose_protocol.c:148-434 | With `start_sector` as its label a command is read back with start sector 0. |
| `FirehoseRoundTrip.HarmlessLabels` | src/LTE&5G_QFirehose_Linux&Android_V1.4/firehose_protocol.c:148-434 | With `vendor`, `label` or `PAGES_PER_BLOCK` as its label a command survives. |
| `FirehoseRoundTrip.ProgramRoundTrip` | src/LTE&5G_QFirehose_Linux&Android_V1.4/firehose_protocol.c:168-447 | What a printed program command is read back as, for every file name and label without quotes; without a file name it is dropped. |
| `FirehoseRoundTrip.ProgramUnchangedIff` | src/LTE&5G_QFirehose_Linux&Android_V1.4/firehose_protocol.c:168-447 | A program command survives printing and parsing if and only if it has a file name, no size yet, and texts without quotes in which no name of a later field is misread, and no label or last sector that is not printed. |
| `FirehoseRoundTrip.FileNameMisleads` | src/LTE&5G_QFirehose_Linux&Android_V1.4/firehose_protocol.c:168-447 | A labelled command loses its label when its file name holds the word `label`, as `../label.bin` does, unless a single character or an equals sign follows it. |
| `FirehoseRoundTrip.QuotesAreLost` | src/LTE&5G_QFirehose_Linux&Android_V1.4/firehose_protocol.c:123-131 | No line reads as a command with a quote in its label or file name. |

## Left out

- Crc16.BurstDetected: no check of a received sequence is modelled, as the receive path makes none.
- Md5.Md5Sum: the `int` width of the running length that `md5sum` returns, and a file that cannot be opened.
- QmiProxy.Proxy.RecvQmi: the branch for messages that arrive before the proxy serves clients (`quectel-qmi-proxy.c`, lines 782 to 801), with the start-up exchange of `qmi_proxy_init` that it belongs to.
- QMI proxy: the socket loop; the trace output.
- QmiProxy.Proxy.CleanupQmiConnection: queue and connection list are sequences here; the linked list under them is modelled by itself in `QList.dfy`.
- MBIM proxy: poll loop, device open message, and the length checks before a handler is called.
- TcpLink.FrameBytes: the source writes and reads the two words of a header in the order of the host's own bytes; the model is that of a little-endian host.
- TcpLink, TcpWriter: the USB paths of `qusb_noblock_read` and `qusb_noblock_write`, zero-length packets, and time limits as durations.
- Usb2Tcp.Peer.Serve: frames larger than the 16 KB buffer of `usb2tcp_main`; what becomes of a payload at its USB port, as the result of that write is ignored; the other direction, which always writes whole frames.
- Usb2Tcp.PeerKeepsUpIff: which payloads can be read back in spite of a short write is not characterised beyond `Usb2Tcp.PeerReadsPayloadIff`; the condition is on the bytes that the loop has put on the wire.
- QmiTlv.Composer.ComposeQmuxMsg: requests that overrun the composer's 256-byte buffer, or whose last string ends at its last byte and puts the terminator behind it, are excluded, because the code writes past the buffer; other requests than the two with lists of fields.
- QmiTlv.GetTlv: what the cursor finds once it has left the message.
- QmiTlv.QmiFindTlv: the memory goes on far enough behind a message with odd bytes for the length field that the code reads there; its value does not matter.
- QmiPairing.Exchange: a single sender, as the source has; durations; the copy of `s_pResponse` that a timed-out call leaves behind is only known to be discarded by the next send.
- MbimConnect.GetSegment: segments of more than 255 characters, for which the static buffer is too small.
- MBIM connection main loop and indications: the registration case falls through into the packet-service case, so the state does not mirror the last indication.
- FirehoseHost.Host.SendRawmodeImage: a chunk is a value without a size limit; the padding of a full chunk is stored behind the end of the source's buffer when the sector size does not divide the payload size.
- FirehoseHost.Host: the result of writing a command is ignored by the source and not modelled; a lost command shows as a missing answer. An answer always has a value, a program a file name of at least three characters and a sector size above zero, because the source dereferences or divides by them.
- FirehoseHost.Host.RecvCmd: one call yields one log line, one response or a failure; how several of them share a read buffer is not modelled.
- FirehoseFlash.FlashCorrect: a boot loader that a part upgrade sends without having selected it, and whose sector count is then the table's and not its file's; tables with overlapping programs; files of 2^32 sectors and more, whose count wraps.
- FirehoseXml.Print: the command's own line as a value; the XML header and trailer and the filling of the text buffer are constant text around it. Printing of the configuration command, which is never parsed.
- FirehoseXml.Parse: lines of responses and logs, and the comment handling of the table file; `atoi` and `strtoul` on numbers outside 64 bits saturate as in the GNU C library.
- FirehoseRoundTrip.EraseRoundTrip: labels of 32 characters and more, file names of 64 and more, which overrun the source's buffers.
- FirehoseRoundTrip.ProgramRoundTrip: the same, and file names from which a label of 32 characters and more is misread, which overruns the label's buffer; the contract then gives the text that is copied.
- Progress percentages, `md5_check`, the Sahara loader, `handle_write`, and the remaining dialogue of the streaming download.
- Devices, sockets, ioctl and shell code, thread and signal set-up, dump and log functions, and the V1.6.1 copies of the sources.
