# Verified models of the vendored OpenSSH

The repository builds OpenSSH from C sources under `app/src/main/cpp/openssh`. This project models the parts of it that
carry real invariants and proves properties of the models in Dafny 4.11:

    dafny verify dfyconfig.toml

Code that changes state is modelled by methods on arrays and class fields. Each such method is proved equal to a
function on values, and the theorems are about those functions, over all inputs and over all runs.

| files | what they model |
|---|---|
| `Channel`, `ChannelFacts`, `FlowControl`, `FlowTheorems` | one channel's handlers, and what each does with lengths and windows; two endpoints running them over FIFO links (sections 5.1 to 5.3 of RFC 4254); what holds in every reachable state |
| `FlowShutdown`, `FlowOvershoot` | the end of the input reaches the peer and closing comes to its end; exactly when a window rises above its maximum |
| `Socks5`, `Socks5Runs` | the incremental SOCKS5 decoder of dynamic forwarding (sections 3 and 4 of RFC 1928); its runs that go astray |
| `PollFds` | packing channel descriptors into a pollfd array and unpacking the result |
| `MuxProxy`, `MuxTable`, `MuxWire` | channel ids of several multiplexed clients translated over one connection; what reaches the server |
| `Bitmap` | the growable bit vector and its byte-string codec |
| `AuthMethods`, `AuthSession` | AuthenticationMethods lists and partial success (section 5.1 of RFC 4252); whole runs of requests |
| `AddressNumbers`, `Address`, `AddressStruct` | address masks, order, increment and CIDR matching (section 3.1 of RFC 4632) |
| `ChaCha`, `ChaChaStream`, `ChaChaPoly` | the ChaCha20 stream cipher and the chacha20-poly1305 packet cipher |
| `ChaChaReference`, `ChaChaPolyReference` | both against their definition (section 2 of RFC 8439 for the cipher) |
| `AesCtr` | AES counter mode (section 4 of RFC 4344) |
| `Sshbuf`, `KeyOptions`, `KeyOptionsStrings`, `KeyOptionsBuffer`, `KeySession` | buffers (section 5 of RFC 4251), key options, their encoding, and their merge over a session |
| `AtomicIo` | moving a whole scatter/gather list under partial results |
| `Bytes`, `Words`, `Buffers` | bytes, 32-bit words by their bits, and partly written buffers |

## What the proofs found out about the code

Properties that do not hold as one would state them are proved with their exact condition.

- **Stalls.** A sender can be blocked for ever exactly when the receiver's maximum window is below two bytes or its packet
  size is zero (`StallExactly`); with anything larger, whenever nothing can move all data has arrived (`NeverStalls`).
- **Windows above their maximum.** SOCKS replies leave the output buffer and are credited although no window paid for
  them. Some run brings the window above its maximum, and the subtraction in `channel_check_window` to wrap, exactly
  when such bytes were put in and their number leaves room for a window of two; it then can rise by all of them
  (`OvershootExactly`) and no further (`WindowStaysBelowMaximum`).
- **Bit 1<<24.** `reserve` admits it, but the encoding of a bitmap that holds it is refused by `bitmap_from_string`
  (`EncodingFits`, `ThroughString`).
- **Expiry.** The comment in `sshauthopt_merge` says that the earliest expiry wins. An expiry that only the additional
  options have is dropped (`MergeExpiryExactly`), and over a session only the first set of options can introduce one
  (`SessionExpiry`).
- **The restricted mark** set by `auth_restrict_session` does not survive the merge (`SessionClears`); its effect on the
  permissions does (`SessionAfterRestrict`).
- **Failed activation** leaves no options at all rather than the old ones (`AuthOptions.Activate`).
- **Tunnel numbers** below -1 come back from the encoding as 0 (`KeptExactly`).
- **atomiciov6** moves nothing and reports no error when the first entry is empty and others are not (`AtomicIov`), and after
  a hard error returns 0 whatever has moved (`ReturnMeans`).
- **SOCKS5 versions.** For a client that follows an acceptable greeting with another version byte, the "shouldn't happen"
  branch ends the process exactly when no call found the greeting alone; otherwise the same bytes are taken for SOCKS4 or
  refused (`OtherVersionExactly`, `TogetherOrApart`). No other client reaches that branch (`FatalOnlyFor`).
- **SOCKS5 replies.** The reply to the greeting is offered for writing once. A client that waits for it before its request
  waits for ever exactly when the first step after the greeting does not take both bytes (`ReplyStuckExactly`).
- **Mux proxy.** A slot is released only by CLOSE in both directions; OPEN_FAILURE is passed on and keeps the slot
  (`ReleasedExactly`).
- **Authentication.** A success that no remaining list begins with ends the process (`CompletionExactly`, `UserauthFinish`).

## Model

| member | source | states |
|---|---|---|
| `Channels.Channel.constructor` | app/src/main/cpp/openssh/channels.c:508-565 | a new channel is open in both directions, with its window at its maximum and no peer window yet |
| `Channels.Channel.ReadFailed` | app/src/main/cpp/openssh/nchan.c:111-124 | a failed read moves an open input side to draining and nothing else |
| `Channels.Channel.IbufEmptied` | app/src/main/cpp/openssh/nchan.c:127-146 | a drained input side closes, with an EOF unless CLOSE has been sent |
| `Channels.Channel.ObufEmptied` | app/src/main/cpp/openssh/nchan.c:149-167 | a drained output side closes |
| `Channels.Channel.WriteFailed` | app/src/main/cpp/openssh/nchan.c:308-324 | a failed write throws the output buffer away and closes the output side |
| `Channels.Channel.ReceiveIeof` | app/src/main/cpp/openssh/channels.c:3611-3633 | EOF from the peer drains the output; under forced drain the input side is drained too |
| `Channels.Channel.ReceiveOclose` | app/src/main/cpp/openssh/nchan.c:268-305 | CLOSE from the peer, for each input state and for larval channels |
| `Channels.Channel.GarbageCollect` | app/src/main/cpp/openssh/channels.c:2657-2676 | CLOSE is sent once when both sides are shut; the channel is freed when both CLOSE messages have passed, a zombie at once |
| `Channels.Channel.ReadFd` | app/src/main/cpp/openssh/channels.c:2188-2270 | what is appended to the input buffer; a read failure shuts the input of an open channel and kills any other |
| `Channels.Channel.Poll` | app/src/main/cpp/openssh/channels.c:3034-3101 | one data packet within peer window and packet size, or the EOF of a drained channel |
| `Channels.Channel.ReceiveData` | app/src/main/cpp/openssh/channels.c:3487-3555 | the six outcomes of a data packet, with the window and buffers after each |
| `Channels.Channel.WriteFd` | app/src/main/cpp/openssh/channels.c:2273-2361 | what leaves the output buffer and is booked as consumed; a write failure closes the output of an open channel and kills any other |
| `Channels.Channel.ReturnCredit` | app/src/main/cpp/openssh/channels.c:2440-2465 | when a window adjustment is sent and that it returns exactly what was consumed |
| `Channels.Channel.ReceiveAdjust` | app/src/main/cpp/openssh/channels.c:3744-3771 | credit is added to the peer window, or the overflow ends the process |
| `Channels.Channel.ReceiveConfirm` | app/src/main/cpp/openssh/channels.c:3652-3688 | the confirmation opens the channel with the peer window and packet size |
| `Channels.Channel.SetFds` | app/src/main/cpp/openssh/channels.c:1294-1315 | a larval session channel opens and announces its window; any other is the fatal exit |
| `FlowControl.InitKeeps` | app/src/main/cpp/openssh/channels.c:553-554 | the state after CHANNEL_OPEN has been sent satisfies the invariant of both directions |
| `FlowControl.AcceptKeeps` | app/src/main/cpp/openssh/channels.c:2116-2185 | the peer accepting the channel, at once, after connecting, or as a larval session, keeps the invariant |
| `FlowControl.ReceiveKeeps` | app/src/main/cpp/openssh/channels.c:3487-3555 | every message at the head of a link can be taken and keeps both directions' invariants |
| `FlowControl.MoveKeeps` | app/src/main/cpp/openssh/channels.c:2188-2361 | every local step keeps both directions' invariants |
| `FlowControl.StepKeeps` | app/src/main/cpp/openssh/channels.c:3034-3771 | every step of the two-endpoint system keeps the whole invariant |
| `FlowTheorems.RunKeeps` | app/src/main/cpp/openssh/channels.c:2188-3771 | the invariant holds at the end of every run |
| `FlowTheorems.WindowsAgree` | app/src/main/cpp/openssh/channels.c:3086-3099 | in every reachable state peer window + data in flight + credit in flight = receiver window |
| `FlowTheorems.CreditConserved` | app/src/main/cpp/openssh/channels.c:2355-2358 | in every reachable state window + consumed + buffered + lost bytes = maximum + bytes put in locally |
| `FlowTheorems.NoFaultEver` | app/src/main/cpp/openssh/channels.c:3509-3546 | no reachable state takes the too-big, beyond-the-window, overflow or disconnect branches; no sum of window and credit wraps |
| `FlowTheorems.FreedIsNeverAddressed` | app/src/main/cpp/openssh/channels.c:3474-3484 | nothing is on its way to a freed channel, so no packet refers to a nonexistent one |
| `FlowTheorems.WindowStaysBelowMaximum` | app/src/main/cpp/openssh/channels.c:2452-2462 | the window stays within its maximum plus the bytes put in locally; its difference from the maximum is right exactly while it is within the maximum |
| `FlowTheorems.DataInOrder` | app/src/main/cpp/openssh/channels.c:3518-3552 | written ++ buffered ++ in flight ++ unsent = read, while the output is open; always a prefix is written |
| `FlowTheorems.EofMeansAllDelivered` | app/src/main/cpp/openssh/nchan.c:255-265 | when EOF has arrived and no write failed, everything read has been written or is buffered |
| `FlowTheorems.ProgressIsFinite` | app/src/main/cpp/openssh/channels.c:3144-3179 | every step that moves data, credit or shutdown forward uses up a measure |
| `FlowTheorems.ProgressRunsEnd` | app/src/main/cpp/openssh/channels.c:3144-3179 | so a chain of such steps is no longer than the measure at its start |
| `FlowTheorems.CheckWindowReopens` | app/src/main/cpp/openssh/channels.c:2440-2465 | after the check a drained open receiver has at least half its maximum and misses at most three packets |
| `FlowTheorems.NeverStalls` | app/src/main/cpp/openssh/channels.c:2440-2465 | when nothing more can move on a flowing channel, all bytes read at the sender are written at the receiver |
| `FlowOvershoot.OvershootExactly` | app/src/main/cpp/openssh/channels.c:2444-2463 | some run brings the window above its maximum and the subtraction to wrap exactly when bytes were put in locally and leave room for a window of two |
| `FlowShutdown.ClosedBothWays` | app/src/main/cpp/openssh/nchan.c:333-371 | when nothing can move on a closing channel each side has received the CLOSE the other sent, and is freed if it has |
| `FlowShutdown.ShutdownCompletes` | app/src/main/cpp/openssh/channels.c:2657-2676 | once CLOSE has been sent or received, a state in which nothing can move has both channels freed and both links empty |
| `FlowShutdown.EofReachesPeer` | app/src/main/cpp/openssh/nchan.c:111-146 | an end whose input has ended has sent everything and EOF, and the peer has both, when nothing can move any more |
| `FlowShutdown.EverythingDelivered` | app/src/main/cpp/openssh/channels.c:2188-2676 | when both inputs have ended, what every run arrives at is all bytes written on the other side and both channels freed |
| `FlowShutdown.ForcedDrainAnswers` | app/src/main/cpp/openssh/channels.c:3625-3631 | under forced drain EOF is answered with what was read and EOF |
| `FlowShutdown.ReadsUntil` | app/src/main/cpp/openssh/nchan.c:111-179 | the four reasons for which an end stops reading, and no others |
| `FlowShutdown.ShutBothWaysIsFreed` | app/src/main/cpp/openssh/nchan.c:333-371 | a channel that is shut in both directions is closed and freed, and the peer with it |
| `FlowControl.InputKept` | app/src/main/cpp/openssh/nchan.c:111-146 | no step stops the reading for another reason, or without the EOF that is due |
| `ChannelFacts.PollSendsMost` | app/src/main/cpp/openssh/channels.c:3063-3099 | a data packet holds the first bytes of the input, as many as input, window and packet size allow |
| `ChannelFacts.CreditReturnedWhen` | app/src/main/cpp/openssh/channels.c:2444-2463 | credit is returned exactly when more than three packets or half the window is missing and some was consumed |
| `ChannelFacts.ReadTakesMost` | app/src/main/cpp/openssh/channels.c:2212-2232 | a read takes the first bytes on offer, as many as its limits allow |
| `ChannelFacts.ReadsWhen` | app/src/main/cpp/openssh/channels.c:1331-1338 | a channel reads while its input is open and window and buffer have room |
| `ChannelFacts.FailedRead` | app/src/main/cpp/openssh/channels.c:2248-2256 | a failed read drains an open channel and kills any other |
| `ChannelFacts.FailedWrite` | app/src/main/cpp/openssh/channels.c:2324-2333 | a failed write shuts the output of an open channel and kills any other |
| `ChannelFacts.DataStoredWhen` | app/src/main/cpp/openssh/channels.c:3518-3552 | a packet within its limits is appended and charged |
| `ChannelFacts.DataDroppedWhen` | app/src/main/cpp/openssh/channels.c:3513-3525 | with the output shut a packet is charged, counted as consumed and dropped |
| `ChannelFacts.DataRefusedWhen` | app/src/main/cpp/openssh/channels.c:3498-3531 | a packet for a channel that is not open, or too big, leaves no trace |
| `ChannelFacts.ExcessTolerated` | app/src/main/cpp/openssh/channels.c:3532-3546 | a peer may exceed the window by exactly a tenth of its maximum before the connection ends |
| `ChannelFacts.CollectedWhen` | app/src/main/cpp/openssh/channels.c:2657-2676 | when CLOSE is sent and when the channel is freed |
| `ChannelFacts.InputClosedWhen` | app/src/main/cpp/openssh/nchan.c:127-146 | when a drained input side closes, and with what |
| `ChannelFacts.EofMeans` | app/src/main/cpp/openssh/channels.c:3611-3633 | what EOF does to both sides, with and without forced drain |
| `ChannelFacts.CloseMeans` | app/src/main/cpp/openssh/nchan.c:268-305 | what CLOSE does to both sides, and to a larval channel |
| `ChannelFacts.AdjustedWhen` | app/src/main/cpp/openssh/channels.c:3759-3769 | credit is added unless the sum is beyond 32 bits |
| `ChannelFacts.OpenedWhen` | app/src/main/cpp/openssh/channels.c:3652-3688 | only an opening channel is confirmed; only a larval one gets descriptors |
| `FlowTheorems.StallExactly` | app/src/main/cpp/openssh/channels.c:2444-2449 | a sender can be stuck for ever exactly when the maximum window is below 2 or the packet size is 0 |
| `Bitmaps.Bitmap.constructor` | app/src/main/cpp/openssh/bitmap.c:38-51 | a new bitmap is the empty set |
| `Bitmaps.Bitmap.Zero` | app/src/main/cpp/openssh/bitmap.c:65-69 | the empty set, keeping the array |
| `Bitmaps.Bitmap.TestBit` | app/src/main/cpp/openssh/bitmap.c:72-79 | membership, for every index |
| `Bitmaps.Bitmap.Reserve` | app/src/main/cpp/openssh/bitmap.c:82-98 | exactly the indices up to 1<<24 are admitted; the set is kept either way |
| `Bitmaps.Bitmap.SetBit` | app/src/main/cpp/openssh/bitmap.c:101-113 | adds the index; a refused index changes nothing |
| `Bitmaps.Bitmap.Retop` | app/src/main/cpp/openssh/bitmap.c:117-123 | top moves down to the highest non-zero word; the set is kept |
| `Bitmaps.Bitmap.ClearBit` | app/src/main/cpp/openssh/bitmap.c:126-138 | removes the index |
| `Bitmaps.Bitmap.NBits` | app/src/main/cpp/openssh/bitmap.c:141-159 | the largest member plus 1, 0 for the empty set |
| `Bitmaps.Bitmap.NBytes` | app/src/main/cpp/openssh/bitmap.c:162-165 | the bytes needed for that many bits |
| `Bitmaps.Bitmap.ToString` | app/src/main/cpp/openssh/bitmap.c:168-186 | writes the big-endian number with exactly the set's bits; refuses exactly when the space is too small |
| `Bitmaps.Bitmap.FromString` | app/src/main/cpp/openssh/bitmap.c:189-214 | the set of the string's bits; refuses exactly the strings longer than 1<<21 |
| `Bitmaps.CanonicalLength` | app/src/main/cpp/openssh/bitmap.c:162-186 | the byte count of a set is the length of its shortest encoding |
| `Bitmaps.BytesRoundTrip` | app/src/main/cpp/openssh/bitmap.c:167-214 | bytes to bitmap to bytes strips exactly the leading zero bytes |
| `Bitmaps.EncodingFits` | app/src/main/cpp/openssh/bitmap.c:82-87 | of the bitmaps that can be built exactly those with bit 1<<24 have an encoding that is refused |
| `Bitmaps.ThroughString` | app/src/main/cpp/openssh/bitmap.c:167-214 | bitmap to string to bitmap gives the same set exactly when bit 1<<24 is not in it |
| `Bitmaps.ThroughBitmap` | app/src/main/cpp/openssh/bitmap.c:167-214 | string to bitmap to string, with the exact length condition |
| `AuthMethods.StartsWithRefines` | app/src/main/cpp/openssh/auth2.c:609-633 | list_starts_with on the text of a list compares with its first entry only |
| `AuthMethods.RemovedRefines` | app/src/main/cpp/openssh/auth2.c:641-658 | remove_method on the text is dropping the matching head entry |
| `AuthMethods.UsedUpIffEmbedded` | app/src/main/cpp/openssh/auth2.c:641-658 | a list is used up by dropping heads exactly when it is a subsequence of the successes |
| `AuthMethods.UpdateMeans` | app/src/main/cpp/openssh/auth2.c:667-689 | which verdict an update gives and what every list becomes; a partial success removes at least one entry |
| `AuthMethods.PlayLeaves` | app/src/main/cpp/openssh/auth2.c:667-689 | over a run of partial successes every list is what those successes have left of it |
| `AuthMethods.CompletionExactly` | app/src/main/cpp/openssh/auth2.c:667-689 | completion exactly when some list is a subsequence of all successes; partial successes are bounded by the entries |
| `AuthMethods.JoinParse` | app/src/main/cpp/openssh/auth2-methods.c:93-134 | splitting a list at commas and colons loses nothing |
| `AuthMethods.ParseWellFormed` | app/src/main/cpp/openssh/auth2-methods.c:93-134 | a list of non-empty names parses into well-formed entries |
| `AuthMethods.MethodsTable` | app/src/main/cpp/openssh/auth2-methods.c:40-85 | the method names are distinct and hold no comma or colon |
| `AuthMethods.MethodsValid` | app/src/main/cpp/openssh/auth2-methods.c:93-134 | accepts exactly the non-empty lists whose methods are all known, and enabled where asked |
| `AuthMethods.ValidIsWellFormed` | app/src/main/cpp/openssh/auth2-methods.c:100-130 | a valid list is the text of a non-empty list of well-formed entries |
| `AuthMethods.ValidExactly` | app/src/main/cpp/openssh/auth2-methods.c:93-134 | a list is valid exactly if it is the text of entries that are all in the table, enabled where asked |
| `AuthMethods.ParseJoin` | app/src/main/cpp/openssh/auth2-methods.c:100-130 | the entries of a text are those it was made of |
| `AuthMethods.SurvivingExactly` | app/src/main/cpp/openssh/auth2.c:584-602 | the lists set up are those of the valid configured ones, and all of them |
| `AuthMethods.FinishMeans` | app/src/main/cpp/openssh/auth2.c:367-470 | when a request ends in success, silence, failure, too many failures or a fatal exit, and the whole context after it |
| `AuthSession.ServeMeans` | app/src/main/cpp/openssh/auth2.c:367-470 | over any run of requests: only success authenticates, and only for what was proved; failures are counted exactly, and their limit ends the connection as it is reached |
| `AuthMethods.AuthCtxt.Setup` | app/src/main/cpp/openssh/auth2.c:570-606 | keeps exactly the valid configured lists, in order; fails when none is left; "any" means no list |
| `AuthMethods.AuthCtxt.MethodAllowed` | app/src/main/cpp/openssh/auth2.c:478-495 | allowed exactly when no list is configured or some remaining list begins with the method |
| `AuthMethods.AuthCtxt.UpdateMethodsLists` | app/src/main/cpp/openssh/auth2.c:667-689 | verdict and lists are those of the update on entries |
| `AuthMethods.AuthCtxt.UserauthFinish` | app/src/main/cpp/openssh/auth2.c:367-470 | the reply and the whole context are as `FinishMeans` says |
| `Addresses.IncrementAddsOne` | app/src/main/cpp/openssh/addr.c:306-325 | adding 1 modulo 2^32 or 2^128, with the carry across words |
| `Addresses.CmpIsNumeric` | app/src/main/cpp/openssh/addr.c:254-284 | the sign of a comparison is the order by family, then value, then scope |
| `Addresses.CmpIsTotalOrder` | app/src/main/cpp/openssh/addr.c:254-284 | comparison is reflexive, antisymmetric, transitive and total |
| `Addresses.NetmaskBit` | app/src/main/cpp/openssh/addr.c:168-194 | a netmask has exactly the first masklen bits set |
| `Addresses.AndAddrBit` | app/src/main/cpp/openssh/addr.c:209-229 | bitwise and, over all words |
| `Addresses.OrAddrBit` | app/src/main/cpp/openssh/addr.c:232-251 | bitwise or, over all words |
| `Addresses.InvertBit` | app/src/main/cpp/openssh/addr.c:142-160 | bitwise complement, over all words |
| `Addresses.MaskedValue` | app/src/main/cpp/openssh/addr.c:209-229 | masking clears the host bits: the value rounded down to a multiple of the block size |
| `Addresses.All1sValue` | app/src/main/cpp/openssh/addr.c:361-370 | setting the host bits gives the last address of the block |
| `Addresses.NetmatchExactly` | app/src/main/cpp/openssh/addr.c:498-510 | for a network without host bits and a host of its family and scope: match iff equal prefix iff within first and last address |
| `Addresses.NetmatchNeverOtherwise` | app/src/main/cpp/openssh/addr.c:498-510 | without these conditions (host bits set, other family or scope) there is no match |
| `Addresses.NthAddress` | app/src/main/cpp/openssh/addr.c:306-325 | n increments from the network add n while they stay in the block |
| `Addresses.WalkVisitsMatches` | app/src/main/cpp/openssh/addr.c:306-325 | the addresses reached by incrementing from the network are exactly those that match it |
| `Addresses.WalkAscends` | app/src/main/cpp/openssh/addr.c:306-325 | each of them is greater than the one before |
| `AddressStruct.Xaddr.SetNetmask` | app/src/main/cpp/openssh/addr.c:168-194 | the masking words are written; an invalid length leaves the error result |
| `AddressStruct.Xaddr.Invert` | app/src/main/cpp/openssh/addr.c:142-160 | the complement in place |
| `AddressStruct.Xaddr.SetHostmask` | app/src/main/cpp/openssh/addr.c:197-202 | the complement of the netmask |
| `AddressStruct.Xaddr.SetAnd` | app/src/main/cpp/openssh/addr.c:209-229 | refuses differing families; otherwise the and, with the scope of the first; a destination that is the second operand is overwritten by the first before use |
| `AddressStruct.Xaddr.SetOr` | app/src/main/cpp/openssh/addr.c:232-251 | refuses differing families; otherwise the or; a destination that is the second operand is overwritten by the first before use |
| `AddressStruct.Xaddr.CompareTo` | app/src/main/cpp/openssh/addr.c:254-284 | the comparison of the two values |
| `AddressStruct.Xaddr.Increment` | app/src/main/cpp/openssh/addr.c:306-325 | the incremented value in place |
| `AddressStruct.IncrementWords` | app/src/main/cpp/openssh/addr.c:316-322 | the carrying loop over four words, stopping at the first word that does not wrap |
| `AddressStruct.Xaddr.HostIsAll0s` | app/src/main/cpp/openssh/addr.c:334-344 | 0 exactly when the host bits are zero |
| `AddressStruct.Xaddr.HostToAll1s` | app/src/main/cpp/openssh/addr.c:361-370 | the last address of the block in place |
| `AddressStruct.Xaddr.NetMatches` | app/src/main/cpp/openssh/addr.c:498-510 | the comparison of the masked host with the network |
| `ChaCha.LeByteOfXor` | app/src/main/cpp/openssh/chacha.c:166-204 | combining words and storing them little-endian is combining the bytes |
| `ChaCha.CounterAdvances` | app/src/main/cpp/openssh/chacha.c:183-187 | the counter of words 12 and 13 counts modulo 2^64 and no other word changes |
| `ChaCha.CryptTwice` | app/src/main/cpp/openssh/chacha.c:89-218 | encryption is its own inverse from equal states, for every length |
| `ChaCha.CryptCut` | app/src/main/cpp/openssh/chacha.c:89-218 | cutting at a multiple of 64 gives the same bytes and the same final state |
| `ChaCha.StateDetermines` | app/src/main/cpp/openssh/chacha.c:55-86 | different keys of one size or different nonces give different states |
| `ChaChaStream.QuarterRoundInPlace` | app/src/main/cpp/openssh/chacha.c:45-49 | the four lines of the macro on the working words |
| `ChaChaStream.RoundsInPlace` | app/src/main/cpp/openssh/chacha.c:139-148 | ten double rounds of eight quarter rounds, in their order |
| `ChaChaStream.BlockIsKeystream` | app/src/main/cpp/openssh/chacha.c:149-204 | a block worked on as words is the bytewise keystream |
| `ChaChaStream.CryptBlockInPlace` | app/src/main/cpp/openssh/chacha.c:123-204 | one block; the input is read before the output is written, so both may be one buffer |
| `ChaChaStream.NextBlock` | app/src/main/cpp/openssh/chacha.c:183-187 | the two-word increment with its carry |
| `ChaChaStream.CryptTail` | app/src/main/cpp/openssh/chacha.c:117-213 | a short last block goes through the temporary buffer and writes just its bytes |
| `ChaChaStream.CryptBuffer` | app/src/main/cpp/openssh/chacha.c:116-217 | the whole loop: output bytes and final state |
| `ChaChaStream.ChachaCtx.KeySetup` | app/src/main/cpp/openssh/chacha.c:55-77 | words 0 to 11 for both key sizes |
| `ChaChaStream.ChachaCtx.IvSetup` | app/src/main/cpp/openssh/chacha.c:80-86 | words 12 to 15, whatever they held |
| `ChaChaStream.ChachaCtx.EncryptBytes` | app/src/main/cpp/openssh/chacha.c:89-218 | m[i] xor key[i] for every byte, nothing else written, counter advanced by ceil(bytes/64) |
| `ChaChaReference.QuarterExactly` | app/src/main/cpp/openssh/chacha.c:45-49 | the quarter round is the one and only result that sums, bits and the rotations 16, 12, 8, 7 allow |
| `ChaChaReference.CoreMeans` | app/src/main/cpp/openssh/chacha.c:139-164 | the block function is ten double rounds on columns and diagonals and the addition of the state |
| `ChaChaReference.ConstantsMean` | app/src/main/cpp/openssh/chacha.c:51-52 | the constants as words, for both key sizes |
| `ChaChaReference.KeyWordsMean` | app/src/main/cpp/openssh/chacha.c:55-77 | where each key byte goes |
| `ChaChaReference.IvWordsMean` | app/src/main/cpp/openssh/chacha.c:80-86 | where counter and nonce go |
| `ChaChaReference.LeByteMeans` | app/src/main/cpp/openssh/chacha.c:32-38 | the bytes of a word, the least significant first |
| `ChaChaReference.CryptMeans` | app/src/main/cpp/openssh/chacha.c:166-204 | each output bit differs from the input where the keystream has a one |
| `ChaChaPoly.OpenExactlySealed` | app/src/main/cpp/openssh/cipher-chachapoly.c:69-120 | decryption gives a plaintext exactly for the packet encryption makes of it: both round trips |
| `ChaChaPoly.LengthAgrees` | app/src/main/cpp/openssh/cipher-chachapoly.c:124-136 | the length read from any first part of a packet is that of the plaintext's first four bytes |
| `ChaChaPoly.StatesDiffer` | app/src/main/cpp/openssh/cipher-chachapoly.c:69-83 | no two sequence numbers share a starting state under one key |
| `ChaChaPoly.BodyFollowsPolyKey` | app/src/main/cpp/openssh/cipher-chachapoly.c:79-105 | the body's keystream follows the block spent on the Poly1305 key and never overlaps it |
| `ChaChaPoly.ChachapolyCtx.New` | app/src/main/cpp/openssh/cipher-chachapoly.c:40-51 | a context exactly for 64-byte keys |
| `ChaChaPoly.ChachapolyCtx.CryptPacket` | app/src/main/cpp/openssh/cipher-chachapoly.c:69-120 | the result depends on key and sequence number only; a wrong tag writes nothing |
| `ChaChaPoly.ChachapolyCtx.GetLength` | app/src/main/cpp/openssh/cipher-chachapoly.c:124-136 | incomplete below four bytes, else the decrypted length; the context stays usable |
| `ChaChaPolyReference.NonceMeans` | app/src/main/cpp/openssh/cipher-chachapoly.c:82 | the nonce is the sequence number as a 64-bit number, most significant byte first |
| `ChaChaPolyReference.KeyHalves` | app/src/main/cpp/openssh/cipher-chachapoly.c:48-49 | the body is under the first half of the key, the header under the second |
| `ChaChaPolyReference.Counters` | app/src/main/cpp/openssh/cipher-chachapoly.c:83-105 | Poly1305 key and header at block 0, body at block 1 |
| `ChaChaPolyReference.PolyKeyMeans` | app/src/main/cpp/openssh/cipher-chachapoly.c:81-85 | the Poly1305 key is the first 32 bytes of the main keystream |
| `ChaChaPolyReference.SealMeans` | app/src/main/cpp/openssh/cipher-chachapoly.c:98-112 | header and body bits against their keystreams, and the tag of the ciphertext |
| `AesCtr.IncAddsOne` | app/src/main/cpp/openssh/cipher-aesctr.c:33-54 | the increment adds 1 modulo 256^len to the big-endian number |
| `AesCtr.Increment` | app/src/main/cpp/openssh/cipher-aesctr.c:37-40 | the early-exit loop |
| `AesCtr.FoldTests` | app/src/main/cpp/openssh/cipher-aesctr.c:46-50 | the folded bits tell a zero byte from the others |
| `AesCtr.IncrementConstantTime` | app/src/main/cpp/openssh/cipher-aesctr.c:42-52 | the branch-free loop, with the same result as the other for every counter |
| `AesCtr.ValueInjective` | app/src/main/cpp/openssh/cipher-aesctr.c:33-54 | a counter is determined by its length and its number |
| `AesCtr.CryptTwice` | app/src/main/cpp/openssh/cipher-aesctr.c:69-82 | encryption is its own inverse from equal counters |
| `AesCtr.CryptCut` | app/src/main/cpp/openssh/cipher-aesctr.c:69-82 | cutting at a multiple of 16 gives the same bytes and counter |
| `AesCtr.AfterCounts` | app/src/main/cpp/openssh/cipher-aesctr.c:69-82 | the counter advances by ceil(bytes/16) modulo 2^128 |
| `AesCtr.CryptMeans` | app/src/main/cpp/openssh/cipher-aesctr.c:69-82 | each output bit against the block of the counter it belongs to |
| `AesCtr.AesctrCtx.EncryptBytes` | app/src/main/cpp/openssh/cipher-aesctr.c:69-82 | the byte loop: output, final counter, nothing else written |
| `Sshbufs.U64RoundTrip` | app/src/main/cpp/openssh/sshbuf-getput-basic.c:46-56 | a u64 that was put is got back, leaving what follows |
| `Sshbufs.StringRoundTrip` | app/src/main/cpp/openssh/sshbuf-getput-basic.c:238-266 | a string that was put is got back, leaving what follows |
| `Sshbufs.CStringRoundTrip` | app/src/main/cpp/openssh/sshbuf-getput-basic.c:269-301 | a string without NUL that was put is got back |
| `Sshbufs.TakenIsCString` | app/src/main/cpp/openssh/sshbuf-getput-basic.c:269-301 | every string accepted is free of NUL once its optional last one is dropped |
| `Sshbufs.StringExactly` | app/src/main/cpp/openssh/sshbuf-getput-basic.c:238-266 | a string is taken exactly when its length is in front of it, within the limit, and all of it is there |
| `Sshbufs.CStringExactly` | app/src/main/cpp/openssh/sshbuf-getput-basic.c:269-301 | a C string is taken exactly when the bytes spell it, with at most one NUL at the end |
| `Sshbufs.Sshbuf.PutString` | app/src/main/cpp/openssh/sshbuf-getput-basic.c:512-527 | appended whole, or refused and nothing written |
| `Sshbufs.Sshbuf.PeekString` | app/src/main/cpp/openssh/sshbuf-getput-basic.c:238-266 | the three errors and the string, leaving the buffer as it is |
| `Sshbufs.Sshbuf.GetCString` | app/src/main/cpp/openssh/sshbuf-getput-basic.c:269-301 | a NUL before the last byte is refused and nothing consumed |
| `KeyOptions.SerialisedExactly` | app/src/main/cpp/openssh/auth-options.c:796-845 | serialising appends the whole encoding and fails exactly when it does not fit |
| `KeyOptions.KeptExactly` | app/src/main/cpp/openssh/auth-options.c:796-910 | the encoding keeps everything exactly when all flags fit a byte and the tunnel number is at least -1 |
| `KeyOptions.Decoded` | app/src/main/cpp/openssh/auth-options.c:848-910 | decoding the encoding with any suffix gives what was kept and leaves the suffix |
| `KeyOptions.RoundTrip` | app/src/main/cpp/openssh/auth-options.c:796-910 | the two together, for trusted and untrusted output |
| `KeyOptions.TextTaken` | app/src/main/cpp/openssh/auth-options.c:772-793 | NULL and non-NULL strings round trip |
| `KeyOptions.TextsTaken` | app/src/main/cpp/openssh/auth-options.c:704-769 | string arrays of every size round trip |
| `KeyOptions.Layout` | app/src/main/cpp/openssh/auth-options.c:796-845 | where each field stands in the encoding |
| `KeyOptions.UntrustedSeesNoStrings` | app/src/main/cpp/openssh/auth-options.c:825-841 | an untrusted process sees the same bytes whatever the strings and lists are |
| `KeyOptions.ViewMeans` | app/src/main/cpp/openssh/auth-options.c:825-841 | what it is told in their place |
| `KeyOptionsStrings.TextExactly` | app/src/main/cpp/openssh/auth-options.c:783-793 | exactly which bytes are accepted as a nullable string |
| `KeyOptionsStrings.ListExactly` | app/src/main/cpp/openssh/auth-options.c:731-769 | exactly which bytes are accepted as a string array |
| `KeyOptionsBuffer.SerialiseText` | app/src/main/cpp/openssh/auth-options.c:772-780 | the flag and the string appended, stopping at the first failure |
| `KeyOptionsBuffer.SerialiseTexts` | app/src/main/cpp/openssh/auth-options.c:704-728 | the loop over entries into a buffer of its own, with its three failures |
| `KeyOptionsBuffer.Serialise` | app/src/main/cpp/openssh/auth-options.c:796-845 | the buffer after every success and every failure |
| `KeyOptionsBuffer.DeserialiseText` | app/src/main/cpp/openssh/auth-options.c:783-793 | flag and string taken; NULL for a set flag |
| `KeyOptionsBuffer.DeserialiseTexts` | app/src/main/cpp/openssh/auth-options.c:731-769 | the loop over entries, with its failures and what each leaves in the buffer |
| `KeyOptionsBuffer.Deserialise` | app/src/main/cpp/openssh/auth-options.c:848-910 | result and buffer for every input, malformed ones included |
| `KeySession.Merge` | app/src/main/cpp/openssh/auth-options.c:532-653 | the merge step by step equals its field-wise description |
| `KeySession.MergeTightens` | app/src/main/cpp/openssh/auth-options.c:532-653 | a merge permits nothing new and keeps every restriction of the primary options |
| `KeySession.MergeExpiryExactly` | app/src/main/cpp/openssh/auth-options.c:609-614 | the earliest expiry wins exactly unless only the additional options have one |
| `KeySession.SessionTightens` | app/src/main/cpp/openssh/auth.c:753-784 | from any point of a session to any later one options only get tighter |
| `KeySession.SessionCommand` | app/src/main/cpp/openssh/auth.c:753-784 | the forced command in force is that of some options merged, and kept |
| `KeySession.SessionFailsExactly` | app/src/main/cpp/openssh/auth.c:753-764 | a session fails exactly when two sets of options force different commands |
| `KeySession.SessionPermits` | app/src/main/cpp/openssh/auth.c:753-784 | a permission holds exactly when every set of options grants it |
| `KeySession.PermissiveFlags` | app/src/main/cpp/openssh/auth-options.c:596-604 | which flags are permissions |
| `KeySession.SessionVerifies` | app/src/main/cpp/openssh/auth.c:753-784 | user verification is required exactly when some options require it |
| `KeySession.SessionExpiry` | app/src/main/cpp/openssh/auth.c:753-784 | the earliest of all expiry times if the first options have one, else none |
| `KeySession.SessionRestrictions` | app/src/main/cpp/openssh/auth.c:753-784 | lists, from= restrictions, tunnel and command are at the end those of the first set of options that has them |
| `KeySession.RestrictMeans` | app/src/main/cpp/openssh/auth.c:768-784 | restricting takes every permission but that of a terminal and changes nothing else |
| `KeySession.SessionAfterRestrict` | app/src/main/cpp/openssh/auth.c:768-784 | after a restriction at most a terminal is permitted, whatever follows |
| `KeySession.SessionClears` | app/src/main/cpp/openssh/auth-options.c:545 | certificate fields and the restricted mark do not survive a merge |
| `KeySession.RestrictSucceeds` | app/src/main/cpp/openssh/auth.c:768-784 | restricting a session cannot fail |
| `KeySession.AuthOptions.Activate` | app/src/main/cpp/openssh/auth.c:753-764 | the global is replaced; after a failed merge no options are left |
| `KeySession.AuthOptions.RestrictSession` | app/src/main/cpp/openssh/auth.c:768-784 | its fatal error is unreachable |
| `KeySession.AuthOptions.Run` | app/src/main/cpp/openssh/auth.c:753-784 | a run of calls ends in the session's options |
| `AtomicIo.ReturnMeans` | app/src/main/cpp/openssh/atomicio.c:99-166 | what each kind of return says about the bytes moved |
| `AtomicIo.ErrnoMeans` | app/src/main/cpp/openssh/atomicio.c:121-163 | which error the last call made stands for, and that none before it would have ended the transfer |
| `AtomicIo.FaultExactly` | app/src/main/cpp/openssh/atomicio.c:149-153 | the "shouldn't happen" branch is reached exactly when a call claims more than was left; else moved = sum of portions |
| `AtomicIo.CompletesExactly` | app/src/main/cpp/openssh/atomicio.c:99-166 | undisturbed, a transfer completes exactly when the portions add up to the total |
| `AtomicIo.CheckOnlyCatches` | app/src/main/cpp/openssh/atomicio.c:45-87 | on a descriptor that never claims too much both functions do the same |
| `AtomicIo.Skip` | app/src/main/cpp/openssh/atomicio.c:143-148 | dropping completed entries |
| `AtomicIo.Cut` | app/src/main/cpp/openssh/atomicio.c:156-158 | moving the start of a partly completed entry |
| `AtomicIo.Advance` | app/src/main/cpp/openssh/atomicio.c:140-158 | the list after a portion denotes the rest of the bytes |
| `AtomicIo.AtomicIov` | app/src/main/cpp/openssh/atomicio.c:99-166 | every byte once and in order under any script; an empty first entry moves nothing |
| `AtomicIo.AtomicIo` | app/src/main/cpp/openssh/atomicio.c:45-87 | the same for one stretch of memory |
| `Socks5.GreetingExactly` | app/src/main/cpp/openssh/channels.c:1621-1657 | accepted exactly when complete and offering the method without authentication |
| `Socks5.RequestExactly` | app/src/main/cpp/openssh/channels.c:1660-1768 | accepted exactly when it is the CONNECT of an IPv4, IPv6 or named target |
| `Socks5.NameExactly` | app/src/main/cpp/openssh/channels.c:1740-1748 | a name arrives whole exactly when it holds no NUL |
| `Socks5.HostIsNamed` | app/src/main/cpp/openssh/channels.c:1740-1748 | the host is the address byte for byte, or the name up to its first NUL |
| `Socks5.SaidBytes` | app/src/main/cpp/openssh/channels.c:1631-1743 | the conversation byte by byte |
| `Socks5.AnyCutting` | app/src/main/cpp/openssh/channels.c:1797-1841 | for every cutting into chunks: waits on each proper beginning, then connects with host, port, rest and replies as stated |
| `Socks5.ConnectsOnlyFor` | app/src/main/cpp/openssh/channels.c:1660-1768 | the decoder connects only for complete well-formed conversations |
| `Socks5.FatalExactly` | app/src/main/cpp/openssh/channels.c:1690-1691 | the internal-error branch is taken exactly when another version byte arrives together with the greeting |
| `Socks5.ReplyOffered` | app/src/main/cpp/openssh/channels.c:1803-1835 | a pending reply is offered for writing exactly when three bytes of input are there |
| `Socks5Runs.OtherVersionExactly` | app/src/main/cpp/openssh/channels.c:1690-1691 | the verdict on every run of a client that follows its greeting with another version: fatal exactly when no call found the greeting alone |
| `Socks5Runs.FatalOnlyFor` | app/src/main/cpp/openssh/channels.c:1690-1691 | no other run reaches that branch |
| `Socks5Runs.TogetherOrApart` | app/src/main/cpp/openssh/channels.c:1813-1827 | the same bytes in one read end the process, in two are taken for SOCKS4 or refused |
| `Socks5Runs.ReplyStays` | app/src/main/cpp/openssh/channels.c:1803-1835 | what each step leaves of the reply while the client waits for it, and whether it is offered for writing |
| `Socks5Runs.ReplyStuckExactly` | app/src/main/cpp/openssh/channels.c:1803-1835 | the reply is pending and not offered exactly when the first step after the greeting takes less than both bytes |
| `Socks5Runs.ReplyStuck` | app/src/main/cpp/openssh/channels.c:1803-1835 | the shortest run that leaves it so |
| `Socks5.SocksChannel.CheckAuth` | app/src/main/cpp/openssh/channels.c:1621-1657 | the greeting stage, with what each outcome leaves in both buffers |
| `Socks5.SocksChannel.DecodeRequest` | app/src/main/cpp/openssh/channels.c:1685-1768 | the request stage |
| `Socks5.SocksChannel.DecodeTail` | app/src/main/cpp/openssh/channels.c:1729-1763 | address, port, reply and host name |
| `Socks5.SocksChannel.DecodeSocks5` | app/src/main/cpp/openssh/channels.c:1660-1768 | both stages, the second speculatively after the first |
| `Socks5.SocksChannel.PreDynamic` | app/src/main/cpp/openssh/channels.c:1797-1841 | dispatch on the version byte and what the channel then waits for |
| `PollFds.EventsExactly` | app/src/main/cpp/openssh/channels.c:2800-2822 | a slot asks for exactly the events of the wanted directions it holds |
| `PollFds.WantedIsArmed` | app/src/main/cpp/openssh/channels.c:2799-2874 | every wanted direction with a descriptor is held by an entry for that descriptor |
| `PollFds.EntriesDisjoint` | app/src/main/cpp/openssh/channels.c:2912-2917 | entries lie above the reserved ones, within four a slot, and no two share a place |
| `PollFds.PreparePollfd` | app/src/main/cpp/openssh/channels.c:2777-2876 | one channel's entries and offsets; it fails exactly when four might not fit |
| `PollFds.Poller.PackAll` | app/src/main/cpp/openssh/channels.c:2912-2917 | packing the table never fails |
| `PollFds.Poller.PreparePoll` | app/src/main/cpp/openssh/channels.c:2880-2918 | the packed table and the two errors, from an empty array on; reserved entries that existed are kept |
| `PollFds.FdReady` | app/src/main/cpp/openssh/channels.c:2921-2942 | its three errors and what it makes ready |
| `PollFds.RfdShares` | app/src/main/cpp/openssh/channels.c:2978-2999 | what the read descriptor's entry makes ready for the descriptors it is shared with |
| `PollFds.UnpackChan` | app/src/main/cpp/openssh/channels.c:2966-3025 | one channel: rejected aliasing, invalid descriptor, or exactly the ready set |
| `PollFds.Poller.AfterPoll` | app/src/main/cpp/openssh/channels.c:2949-3025 | never a bad offset or inconsistent descriptor; fails exactly for rejected aliasing or a descriptor poll calls invalid |
| `PollFds.ReadyExactly` | app/src/main/cpp/openssh/channels.c:2966-3025 | io_ready is within io_want, and a wanted direction is ready exactly when its entry reported it, a hangup or an error |
| `PollFds.ReadyMeans` | app/src/main/cpp/openssh/channels.c:2966-3025 | the same direction by direction, with the events named |
| `PollFds.HolderMeans` | app/src/main/cpp/openssh/channels.c:2799-2874 | which slot holds which direction |
| `PollFds.AllPolledMeans` | app/src/main/cpp/openssh/channels.c:2966-3025 | unpacking succeeds exactly for allowed aliasing and when no entry is invalid |
| `MuxProxy.PlaceFacts` | app/src/main/cpp/openssh/channels.c:508-533 | a new channel takes a free slot and moves no other |
| `MuxProxy.StepOk` | app/src/main/cpp/openssh/channels.c:765-828 | every step keeps proxies pointing at clients that exist |
| `MuxProxy.RunOk` | app/src/main/cpp/openssh/channels.c:765-828 | so does every run |
| `MuxProxy.StepFollows` | app/src/main/cpp/openssh/channels.c:3252-3447 | what one step of any interleaving does to one proxied channel |
| `MuxProxy.OpenForwarded` | app/src/main/cpp/openssh/channels.c:3258-3273 | the forwarded OPEN differs from the client's in the channel id only |
| `MuxProxy.ConfirmForwarded` | app/src/main/cpp/openssh/channels.c:3285-3302 | the forwarded OPEN_CONFIRMATION likewise |
| `MuxProxy.PlacementMeans` | app/src/main/cpp/openssh/channels.c:3252-3303 | the slot placed in the forwarded message was free and translates back to that client and id |
| `MuxProxy.ReleasedExactly` | app/src/main/cpp/openssh/channels.c:3332-3447 | a slot is held until CLOSE has passed both ways, in either order, and is free at once after the second |
| `MuxProxy.ServerMessageDelivered` | app/src/main/cpp/openssh/channels.c:3393-3425 | the payload reaches that client under its own id and nobody else |
| `MuxProxy.RoutedToOpener` | app/src/main/cpp/openssh/channels.c:3222-3450 | in every run a server message to a placed id reaches the client that placed it, with its id restored |
| `MuxProxy.LiveSlotsDiffer` | app/src/main/cpp/openssh/channels.c:3252-3303 | channels alive together have different server-side ids, whatever ids their clients chose |
| `MuxTable.Channels.New` | app/src/main/cpp/openssh/channels.c:508-533 | first free slot, growth by ten, and the limit |
| `MuxTable.Channels.FindRemoteId` | app/src/main/cpp/openssh/channels.c:262-273 | the first channel with that remote id |
| `MuxTable.Channels.FreeChannel` | app/src/main/cpp/openssh/channels.c:765-828 | the slot is emptied and a client's proxies are detached |
| `MuxTable.Channels.ProxyDownstream` | app/src/main/cpp/openssh/channels.c:3222-3366 | table and wire after every message of a client, refused ones included |
| `MuxTable.Channels.ProxyUpstream` | app/src/main/cpp/openssh/channels.c:3375-3450 | whether the message was a client's, and the table after it |
| `MuxWire.DownGains` | app/src/main/cpp/openssh/channels.c:3222-3366 | a client message is passed on exactly if it may be, whole, with only the id of an opening changed |
| `MuxWire.RequestAllowed` | app/src/main/cpp/openssh/channels.c:3304-3327 | the global requests passed on, byte by byte |
| `MuxWire.OthersKeepTable` | app/src/main/cpp/openssh/channels.c:3344-3359 | messages that neither open nor close leave the table alone |
| `MuxWire.WireInOrder` | app/src/main/cpp/openssh/channels.c:3222-3366 | in every interleaving the server gets exactly the clients' messages, in order, none lost or doubled |
| `MuxWire.PlaceMeans` | app/src/main/cpp/openssh/channels.c:508-533 | first free slot, ten more, and the limit |
| `MuxWire.OtherwiseUntouched` | app/src/main/cpp/openssh/channels.c:3388-3408 | other messages and other channels are left to this process |
| `MuxWire.ConfirmationRecorded` | app/src/main/cpp/openssh/channels.c:3434-3440 | a confirmation tells the proxy the id that CLOSE will name |

## Left out

Environment and modelling decisions:

- System calls (sockets, `poll`, `read`, `write`, name lookup), clocks and logging are parameters: scripts of results for `atomicio`, read and write results for channels, reported events for `poll`.
- Memory allocation failure is not modelled; buffer size limits are.
- Poly1305, the AES block function and its key schedule are arbitrary functions; nothing is claimed about their strength.
- Method lists whose names match patterns, host keys, PAM, Kerberos, GSSAPI and audit code are not part of this model.

Flow control:

- Datagram channels: the sender charges the payload and the receiver payload + 4, so the window equation is not theirs.
- Extended data (stderr), filters, X11 cookies, reverse-dynamic channels and local injection into buffers other than SOCKS replies are not modelled.
- The window a channel is opened with and the number of bytes put into its output before that are taken to sum to less than 2^32.
- The peer's end-of-write notice is a step that may happen at any time, not a message on the link.
- CHANNEL_OPEN_FAILURE, channel requests, forced close, detached sessions and inactivity timeouts are not modelled.
- A larval session channel may be activated at any time, even after the peer's CLOSE; the code does so only for a request that comes before it. Forced drain is not set on larval channels.
- Channels.Channel.IbufEmptied: the local-only flag, which also suppresses the EOF, is not modelled.
- Channels.Channel.WriteFailed: the end-of-write request that a session channel sends is not modelled.
- Channels.Channel.GarbageCollect: detach callbacks and local-only channels are not modelled.
- Channels.Channel.SetFds: the fatal exit for a channel without remote id is not modelled; the model has remote ids in the mux proxy only.
- A CHANNEL_OPEN is addressed to one fresh channel on each side; the id lookup is modelled for the mux proxy only.
- Clearing memory on `channel_free` and the file descriptors behind a channel are not modelled.

Other components:

- PollFds.Poller.PreparePoll: the pre-poll handlers are represented by the table they leave; the post-poll handlers are not modelled.
- PollFds.Poller.AfterPoll: is about a table and an array as they were packed; channels changed between packing and unpacking are not covered.
- Socks5.SocksChannel.PreDynamic: SOCKS4 is recognised and handed over, not decoded.
- Socks5.SocksChannel.DecodeTail: an IP address is kept as bytes instead of the text of `inet_ntop`.
- MuxProxy.ReleasedExactly: assumes that no other live channel has the slot's remote id and that the client stays; what becomes of detached channels is an arbitrary step.
- MuxProxy.RoutedToOpener: assumes room in the client's output buffer; without room the message is dropped, as in the code.
- MuxTable.Channels.ProxyDownstream: failures of sending to the server and of composing the message, and the permission added by a global request, are not modelled.
- MuxTable.Channels.FreeChannel: cancelling the remote forwardings of a departing client is not modelled.
- AuthMethods.AuthCtxt.UserauthFinish: delays, banners, auditing and the session-info record are not modelled; the root check is a parameter.
- AuthSession.ServeMeans: the limit of 1024 requests, the change of user or service between requests, and the list of methods in a failure reply are not modelled.
- ChaChaStream.ChachaCtx.EncryptBytes: input and output may be one buffer only at the same offset; with any other overlap the C loop would read bytes that it has already overwritten.
- ChaChaPoly.ChachapolyCtx.CryptPacket: the unused `authlen` parameter and the clearing of local key copies are left out.
- AddressStruct.Xaddr.NetMatches: text forms of addresses and conversions from socket addresses are not part of this model.
- Bitmaps.Bitmap.Reserve: memory exhaustion, a parameter of the methods, fails and changes nothing; wiping before freeing is not modelled.
- KeyOptionsBuffer.Deserialise: reads of a NULL buffer and the ownership of strings are not modelled.
- KeySession.AuthOptions.Activate: called only while options are set; the code dereferences them without a check.
- `dh.c`, digest wrappers, `addr_match_list`, the JNI glue and the configuration headers hold only easy properties.
