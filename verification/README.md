# Verified model of the voice-call system

This project models four parts of the repository in Dafny and proves properties of them:

1. **The TURN server**: one UDP/TCP packet in, datagrams out. `Stun`, `StunCodec`, `Builder` and `ChannelData` are the
   message formats; `Credentials` and `Integrity` decide who is let in; `Allocations` says what each request does to the
   table of allocations, `TableInvariants` what every request keeps; `AllocationManager` and `Dispatcher` are the classes
   with their two indexes, port set and nonce store, each method proved to do exactly what the state machine in
   `TurnServer` says. `ServerRuns` proves safety over whole runs, `EndToEnd` what the two ends of a relayed call see as
   bytes, `Authentication`, `Answers` and `PeerRelay` what lets a request in and what every packet is answered, in terms of
   its bytes, `ChannelRuns` and `ClientRuns` what a client can count on over whole runs, and `DigestCoverage` which part of a
   request its digest vouches for.
2. **The TCP stream deframer**: `Deframer` is the session object, `Framing` proves it the inverse of concatenating what
   the builders write, for any chunking; `StreamRelay` follows ChannelData from one client's stream to the other's.
3. **The call signalling protocol**: `Calls` and `Signalling` are the call manager and the router, `CallProtocol` the
   protocol under any interleaving of handlers, timer and delayed sends, and `CallAnswers` what each step does and whom it
   tells.
4. **Two data cores of the client**: `JitterBuffer` (a ring that refines a bounded queue) and `Wav` (writer and reader).

`Bytes` and `Text` hold fields, XOR masking, decimal text, IPv4 text and endpoint keys; `WireSamples` fixes codes and
layouts as bytes.

How the model is built: whatever changes state in the source is a class or a method with a loop; its contract equates the
new state and the output with a function of the old state, and the lemmas are about those functions. Operations that
fail return the source's error. Truncations to 8, 16 and 32 bits are written out as remainders. Clocks, random ports,
nonces and call ids are inputs of each step; nothing is assumed about clocks, except in `ChannelRuns`, where some theorems
ask for a steady clock that does not run backwards. The
cryptographic functions are arbitrary functions with the right output sizes, so a theorem about them holds for every
choice of them.

Where the code does something other than its documentation or the standard says, the model follows the code:

- The repository's README says that private (RFC 1918) addresses are denied as peers; `permission_table.hpp:8-13` denies
  only 10.0.0.0/8 and 172.16.0.0/12. `TableInvariants.DeniedMeans` states which addresses are denied, and
  `TableInvariants.OnePeerInstalled` that a permission for 192.168.1.1 is installed.
- Error replies of the allocation manager always carry the method Allocate (`builder.cpp:182-188`).
- The SHA-256 integrity digest covers its own attribute header and zeroed value (`long_term_cred.cpp:57-66`), unlike
  section 14.6 of RFC 8489.
- A ChannelData message uses its channel whether or not the binding has expired; only the permission's expiry counts
  (`turn_dispatcher.cpp:209-217`); `EndToEnd.ExpiredChannelRelays` states that case.
- Responses sent to the server are authenticated and answered like requests (`turn_dispatcher.cpp:71-145`).
- A CreatePermission that meets a denied peer fails, but keeps the permissions it has installed before it
  (`allocation_manager.cpp:223-231`).
- Expired allocations stay in the table until their client releases them (`allocation.hpp:44-46` has no caller);
  `EndToEnd.ReleasedOnlyByClient` and `ChannelRuns.AllocationStays` state exactly when one leaves.
- Relaying of WebRTC messages does not ask whether the sender takes part in the call (`router.cpp:190-201`); what it asks
  is stated by `CallProtocol.RelayedIffCallExists`, and `CallProtocol.OutsiderRelays` is a run with an outsider.
- Attributes behind the integrity attribute count like those in front of it, unlike sections 14.5 and 14.6 of RFC 8489.
  `DigestCoverage.DigestCovers` and `AcceptedIsCovered` state which attributes are covered by the digest that is checked
  (SHA-256 if it is there, else SHA-1), `DigestCoverage.PermissionsCovered` when everything a CreatePermission installs is
  covered, and `DigestCoverage.AppendedPeerIsPermitted` gives authenticated requests whose only peer is not.

Several promised properties hold only under a condition, which is proved to be exact, with one input that fails it:

- A built message parses back if and only if every value fits its length field and the header of the last attribute
  still lies within the wrapped message length (`StunCodec.BuildParseExact`, `StunCodec.OversizedValueIsLost`).
- Deframing inverts concatenation if and only if every STUN body is shorter than 65536 bytes and every channel payload is
  at most 65532 bytes (`Framing.StreamMeans`, `Framing.LargeFrameIsLost`): for 65533 bytes and more the padded length
  wraps to 0.
- A Data indication shows its payload if and only if the payload is at most 65516 bytes or 65533 to 65535
  (`EndToEnd.IndicationShowsData`, `EndToEnd.LongPayloadIsHidden`). A Send in a packet of at most 65552 bytes always
  carries a payload of such a size (`EndToEnd.SendBecomesData`); a ChannelData message towards a client without a channel
  back can carry 65517 to 65532 bytes, which that client then cannot read (`EndToEnd.ChannelBecomesData`).
- A call ends exactly once for each participant if and only if caller and callee differ; a user can call himself, and is
  then told twice (`CallProtocol.CallEndsOnce`, `CallProtocol.SelfCallEndsTwice`).
- A private address is denied if and only if it lies outside 192.168.0.0/16 (`TableInvariants.DeniedMeans`).

## Model

| member | source | states |
|---|---|---|
| Bytes.XorIsInvolution | turn_server/src/message/xor_codec.hpp:6-14 | masking an address or a port with the magic cookie twice gives it back, for every 32-bit and 16-bit value |
| Bytes.MaskMeans | turn_server/src/message/xor_codec.hpp:6-14 | masking flips exactly the bits of the magic cookie in an address, and of its upper half in a port |
| Bytes.Word32OfBe32 | turn_server/src/message/builder.cpp:60-67 | a 32-bit field written big-endian reads back as the same number |
| Text.StollOfDecInt | turn_server/src/auth/hmac_validator.cpp:20 | reading a printed 64-bit number with std::stoll gives the number, negative ones included |
| Text.StollReads | turn_server/src/auth/hmac_validator.cpp:15-25 | std::stoll on white space, an optional sign, digits and anything behind them: the signed value if there are digits and it fits 64 bits, and else an exception |
| Text.V4TextRoundTrip | turn_server/src/allocation/allocation_manager.cpp:220-221 | IPv4 text parses back to the same address |
| Text.V4TextIsCanonical | turn_server/src/allocation/permission_table.cpp:9-12 | an address text that parses is the canonical text of the address it parses to |
| Text.EndpointKeyInjective | turn_server/src/allocation/allocation_manager.hpp:93-95 | two endpoints with the same key are equal, even when an address contains colons |
| Stun.TypeRoundTrip | turn_server/src/message/parser.cpp:13-37 | method and class survive the interleaving of their bits in the type field |
| Stun.TypeIsMasked | turn_server/src/message/builder.cpp:6-18 | the two type bytes equal the builder's mask-and-shift expression on 16-bit words |
| Stun.TypeReencoded | turn_server/src/message/builder.cpp:6-18 | decoding and encoding a type field is the identity if and only if the method is one the builder can write |
| WireSamples.WireTypes | turn_server/src/message/builder.cpp:6-18 | the type bytes of each kind of message |
| WireSamples.WireAttributes | turn_server/src/message/builder.cpp:49-96 | the attribute codes |
| Stun.ParseAttributes | turn_server/src/message/parser.cpp:64-83 | the offset loop returns the attributes whose header lies in the message and whose value lies in the packet |
| Stun.Parse | turn_server/src/message/parser.cpp:39-86 | parsing reports the same error, or the same message, as the functional specification that the codec theorems are about |
| Stun.ParseErrors | turn_server/src/message/parser.cpp:39-60 | each parse error has its one cause, in the order of the checks |
| StunCodec.BuildThenParse | turn_server/src/message/builder.cpp:98-115 | what the parser makes of any built message, oversized ones included: the attributes visible in the wrapped length, values truncated |
| StunCodec.BuildParseExact | turn_server/src/message/builder.cpp:27-115 | parsing a built message gives back method, class, transaction id and attributes if and only if the sizes fit |
| StunCodec.OversizedValueIsLost | turn_server/src/message/builder.cpp:41-47 | a value of 65536 bytes is written with length 0 and is not parsed back |
| StunCodec.BuildParseRoundTrip | turn_server/src/message/parser.cpp:39-86 | the plain round trip for attribute lists of at most 65535 encoded bytes |
| StunCodec.EncodeOfParse | turn_server/src/message/parser.cpp:64-83 | encoding parsed attributes gives back the bytes if and only if they are a row of complete zero-padded attributes |
| StunCodec.ParseBuildIdentity | turn_server/src/message/parser.cpp:39-86 | building what was parsed from an exact-length packet gives the packet back if and only if its method is writable and its attributes are zero-padded |
| Builder.PeerOfXorAddress | turn_server/src/message/builder.cpp:69-84 | an XOR address attribute decodes to the address and port it was made of |
| WireSamples.AddressLayout | turn_server/src/message/builder.cpp:69-84 | an XOR address is a zero byte, the family, the masked port and the masked address |
| Builder.MessageBuilder.AppendAttrRaw | turn_server/src/message/builder.cpp:27-39 | appends type, length, value and zero padding to a multiple of four, and touches nothing else |
| Builder.MessageBuilder.AddAttr | turn_server/src/message/builder.cpp:41-47 | the buffer stays the encoding of the attributes added so far, in order |
| Builder.MessageBuilder.AddErrorCode | turn_server/src/message/builder.cpp:49-58 | adds one ERROR-CODE attribute with class, number and reason |
| WireSamples.ErrorValueMeans | turn_server/src/message/builder.cpp:49-58 | the error attribute carries its code as hundreds and rest, behind two zero bytes and in front of the reason |
| Builder.MessageBuilder.AddLifetime | turn_server/src/message/builder.cpp:60-67 | adds one LIFETIME attribute, big-endian |
| Builder.MessageBuilder.AppendXorAddress | turn_server/src/message/builder.cpp:69-84 | adds one masked address attribute |
| Builder.MessageBuilder.Build | turn_server/src/message/builder.cpp:98-115 | the buffer framed under the header is the message of all attributes added |
| WireSamples.MessageSample | turn_server/src/message/builder.cpp:98-115 | an Allocate request for UDP, byte by byte |
| Builder.MakeDataIndication | turn_server/src/message/builder.cpp:147-158 | the Data indication with peer address first and payload second |
| Builder.MakeError | turn_server/src/message/builder.cpp:182-188 | the error reply, always with method Allocate |
| Builder.DataIndicationParses | turn_server/src/message/builder.cpp:147-158 | a Data indication parses to its two attributes if and only if its payload has a readable size |
| ChannelData.MakeChannelData | turn_server/src/message/builder.cpp:160-180 | number, 16-bit length, payload and padding to a multiple of four |
| WireSamples.FrameSample | turn_server/src/message/builder.cpp:160-180 | a ChannelData frame, byte by byte |
| ChannelData.ChannelDataErrors | turn_server/src/message/parser.cpp:93-106 | each ChannelData error has its one cause, in the order of the checks |
| ChannelData.ChannelDataRoundTrip | turn_server/src/message/parser.cpp:93-111 | a ChannelData message parses back if and only if its number is 0x4000 to 0x4FFF and its payload fits 16 bits |
| Deframer.DeframeAppend | turn_server/src/transport/tcp_transport.cpp:35-103 | deframing is incremental: more bytes never change what was delivered and continue from the unfinished rest |
| Deframer.TcpSession.constructor | turn_server/src/transport/tcp_transport.cpp:35-45 | a new session has delivered nothing and waits for a first byte |
| Deframer.TcpSession.OnFirstByte | turn_server/src/transport/tcp_transport.cpp:35-45 | the two top bits choose the header to read; the session still agrees with the bytes received |
| Deframer.TcpSession.OnStunHeader | turn_server/src/transport/tcp_transport.cpp:47-60 | the read for the body is set up so that the session still agrees with the bytes received |
| Deframer.TcpSession.OnStunBody | turn_server/src/transport/tcp_transport.cpp:62-73 | a complete STUN message is delivered once and the session starts over |
| Deframer.TcpSession.OnChannelHeader | turn_server/src/transport/tcp_transport.cpp:75-86 | the padded length in 16 bits; the session still agrees with the bytes received, a wrapped length included |
| Deframer.TcpSession.OnChannelBody | turn_server/src/transport/tcp_transport.cpp:88-103 | a ChannelData message is delivered without its padding and the session starts over |
| Deframer.TcpSession.OnBytes | turn_server/src/transport/tcp_transport.cpp:35-103 | any chunk of bytes keeps the session in agreement with the meaning of everything received so far |
| Deframer.TcpSession.Summary | turn_server/src/transport/tcp_transport.cpp:35-103 | delivered messages and unfinished bytes are exactly those that the received bytes stand for |
| Framing.StreamMeans | turn_server/src/transport/tcp_transport.cpp:35-103 | a concatenation of built messages deframes to exactly those messages, channel padding stripped, with nothing left, if and only if all of them fit |
| Framing.LargeFrameIsLost | turn_server/src/transport/tcp_transport.cpp:82-84 | a single ChannelData frame of 65533 payload bytes is not delivered as it was sent |
| Framing.ReadStream | turn_server/src/transport/tcp_transport.cpp:35-103 | one session fed the stream in any chunking delivers exactly the packets sent and ends waiting for a first byte |
| Framing.BareParses | turn_server/src/transport/tcp_transport.cpp:99-100 | a delivered packet parses to the message or payload that was sent |
| Credentials.HmacValidator.CredentialWindow | turn_server/src/auth/hmac_validator.cpp:15-60 | generated credentials validate exactly while now is at most the time of issue plus ttl, for every user id, and the server derives the same password |
| Credentials.HmacValidator.ValidateMeans | turn_server/src/auth/hmac_validator.cpp:37-49 | a name and password validate if and only if the name starts with a number and a colon, that time has not passed, and the password is the base64 HMAC of the name |
| Credentials.HmacValidator.OnlyIssuedPassword | turn_server/src/auth/hmac_validator.cpp:37-60 | no other password goes with an issued name |
| Credentials.HmacValidator.UsernamesDistinct | turn_server/src/auth/hmac_validator.cpp:51-60 | different users or expiry times never get the same username |
| Credentials.RtcCredentialsAccepted | backend/api/routes.cpp:22-42 | what the backend hands to a client is accepted by a TURN server with the same secret, exactly until it expires |
| Integrity.WalkerMatchesParser | turn_server/src/auth/long_term_cred.cpp:32-52 | the verifier's walker stops at exactly the attribute that the parser returns, and elsewhere only at a last value cut off by the packet |
| Integrity.FindFromLocal | turn_server/src/auth/long_term_cred.cpp:86-105 | the walker's answer depends only on the bytes up to the attribute header, and on whether the end reaches it |
| Integrity.LongTermCred.Walk | turn_server/src/auth/long_term_cred.cpp:32-52 | the loop finds the first attribute of the type by offset |
| Integrity.LongTermCred.VerifyMessageIntegrityMd5 | turn_server/src/auth/long_term_cred.cpp:80-126 | true exactly if the 20 bytes at the found attribute are the SHA-1 digest of everything before it under the adjusted length |
| Integrity.LongTermCred.VerifyMessageIntegrity | turn_server/src/auth/long_term_cred.cpp:26-78 | true exactly if the 32 bytes at the found attribute are the SHA-256 digest of the message with that value zeroed |
| Integrity.LongTermCred.VerdictIsLocal | turn_server/src/auth/long_term_cred.cpp:80-126 | bytes after the digest never change the SHA-1 verdict, and the length field only by hiding the attribute |
| Integrity.LongTermCred.VerdictIsLocalSha256 | turn_server/src/auth/long_term_cred.cpp:26-78 | the same for the SHA-256 verdict |
| Integrity.LongTermCred.AppendedAttributesAccepted | turn_server/src/auth/long_term_cred.cpp:91-125 | attributes appended behind the digest, with the length adjusted, leave the verdict and are parsed with the others |
| Integrity.LongTermCred.SignResponse | turn_server/src/core/turn_dispatcher.cpp:251-284 | success responses get a digest appended and their length adjusted, anything else is returned as it is |
| Integrity.LongTermCred.MacIsBuilt | turn_server/src/core/turn_dispatcher.cpp:266-283 | patching the signed bytes gives the message one would build with the digest as last attribute |
| Integrity.LongTermCred.SignedVerifies | turn_server/src/core/turn_dispatcher.cpp:251-284 | a signed message is accepted by the verifier under the same name and password, and parses to the original attributes plus one 20-byte digest |
| Integrity.LongTermCred.AuthenticateRequest | turn_server/src/auth/long_term_cred.cpp:128-190 | the checks in their order, each with its own verdict |
| Authentication.VerdictMeans | turn_server/src/auth/long_term_cred.cpp:128-190 | a request is accepted if and only if it carries credentials, its nonce is live, its name has not expired, the bytes of the digest that counts equal the HMAC of the message under the key of name, realm and the name's own HMAC, and the name is the owner's; every other verdict has its one cause |
| Authentication.DigestIsMac | turn_server/src/auth/long_term_cred.cpp:54-77 | the verifiers' checks are these byte equations, for SHA-1 and SHA-256 |
| Authentication.DigestPlace | turn_server/src/auth/long_term_cred.cpp:86-105 | the checked offset is that of the attribute the parser returns |
| Authentication.AuthenticMeans | turn_server/src/core/turn_dispatcher.cpp:77-84 | at the server, the owner is that of the allocation at the sender's endpoint |
| Authentication.RefusalMeans | turn_server/src/core/turn_dispatcher.cpp:86-145 | what a request that is not accepted is answered, by its one cause: 401, 438 or 441, byte by byte, with the table unchanged; a request with any other digest gets a 401 challenge |
| Integrity.LongTermCred.AuthenticatedUsername | turn_server/src/auth/long_term_cred.cpp:128-190 | an accepted request has a username with a colon, a live nonce, and the owner's name unless it allocates |
| Integrity.LongTermCred.IssuedCredentialsAuthenticate | turn_server/src/auth/long_term_cred.cpp:128-190 | a request signed with issued credentials and a live nonce is accepted exactly until the credentials expire, and then rejected as expired |
| DigestCoverage.DigestCovers | turn_server/src/auth/long_term_cred.cpp:26-126 | for either digest, the parsed attributes split at its attribute: those in front are read off the signed bytes, those behind are not covered |
| DigestCoverage.AcceptedIsCovered | turn_server/src/auth/long_term_cred.cpp:137-182 | an accepted request splits like this at the digest that was checked, which is the SHA-256 one whenever it is there |
| DigestCoverage.AttributeCovered | turn_server/src/message/parser.cpp:7-11 | of an attribute that a request carries once the server uses the covered one, and else the first behind the digest |
| DigestCoverage.InstallsAppend | turn_server/src/allocation/allocation_manager.cpp:207-233 | two lists of peers install what the first does, and what the second does unless a denied peer in the first ends the loop |
| DigestCoverage.PermissionsCovered | turn_server/src/allocation/allocation_manager.cpp:194-243 | the permissions after an authenticated CreatePermission; all it installs is covered by the checked digest if and only if a covered peer is denied or the part behind installs nothing new |
| DigestCoverage.ShaAppendedAccepted | turn_server/src/auth/long_term_cred.cpp:26-78 | a message signed with SHA-256 is accepted, and attributes appended behind the digest leave the verdict and are parsed with the others |
| DigestCoverage.SignedRequestAuthenticates | turn_server/src/auth/long_term_cred.cpp:128-190 | issued credentials with a live nonce let a request in with either digest and whatever follows it, exactly until they expire |
| DigestCoverage.AppendedPeerIsPermitted | turn_server/src/core/turn_dispatcher.cpp:83-187 | under issued credentials and either digest, a CreatePermission whose only peer stands behind the digest is authenticated and the peer is permitted in the table, although the covered part installs no peer |
| Allocations.Record.ChannelLookupsInverse | turn_server/src/allocation/allocation.hpp:54-70 | at one instant the lookups by peer and by number are inverse on the live bindings |
| Allocations.FirstFree | turn_server/src/allocation/allocation_manager.cpp:30-44 | a port is one of the drawn ones and not in use, and none is found only if all drawn ones are in use |
| TableInvariants.FirstFreeIsFirst | turn_server/src/allocation/allocation_manager.cpp:36-42 | the port is that of the first draw whose port is free |
| Answers.AllocateMeans | turn_server/src/allocation/allocation_manager.cpp:85-149 | an Allocate makes a record, with all its fields, if and only if the endpoint has none, UDP is asked for, the user is below the quota and a drawn port is free; each obstacle has its own error and leaves the table as it is |
| Answers.RefreshMeans | turn_server/src/allocation/allocation_manager.cpp:151-192 | a Refresh succeeds if and only if the endpoint has an allocation of that user; the errors are 437 and 441 |
| Answers.ErrorTexts | turn_server/src/allocation/allocation_manager.cpp:85-320 | the errors of the allocation manager, byte by byte |
| Allocations.PortRangePlain | turn_server/src/allocation/allocation_manager.cpp:33-37 | the 16-bit port arithmetic describes the plain range from minimum to maximum when these are in order |
| TableInvariants.AllocateKeepsTableOk | turn_server/src/allocation/allocation_manager.cpp:85-149 | Allocate keeps keys, distinct ports in the range, fresh ids and the quota of every user |
| TableInvariants.RefreshKeepsTableOk | turn_server/src/allocation/allocation_manager.cpp:151-192 | Refresh keeps them too, for renewal and release |
| TableInvariants.InstallPeersMeans | turn_server/src/allocation/allocation_manager.cpp:207-233 | the loop installs exactly the well-formed peers before the first denied one, each until now + 300 s, keeps all other permissions, and reports whether it found and whether it was denied one |
| TableInvariants.CreatePermissionKeepsTableOk | turn_server/src/allocation/allocation_manager.cpp:194-243 | no permission ever names a denied address or a text that is not an IPv4 address |
| TableInvariants.DeniedMeans | turn_server/src/allocation/permission_table.cpp:7-17 | a peer address is denied exactly if it is private by RFC 1918 and outside 192.168.0.0/16 |
| TableInvariants.OnePeerInstalled | turn_server/src/allocation/allocation_manager.cpp:219-231 | a CreatePermission that names one new peer, among any other attributes, permits it exactly if it is not denied; 192.168.1.1 is permitted |
| TableInvariants.ChannelBindKeepsTableOk | turn_server/src/allocation/allocation_manager.cpp:245-320 | channel numbers stay in 0x4000 to 0x4FFF and equal to their key, and number to peer stays injective, with no denied peer |
| TableInvariants.ReleaseUndoesAllocate | turn_server/src/allocation/allocation_manager.cpp:171-181 | a Refresh with lifetime 0 gives back exactly the allocations and free ports there were before the Allocate |
| EndToEnd.ReleasedOnlyByClient | turn_server/src/allocation/allocation_manager.cpp:151-192 | an allocation, expired or not, leaves the table in a step exactly if the event is its client's authenticated Refresh for lifetime 0 |
| ChannelRuns.AllocationStays | turn_server/src/allocation/allocation.hpp:44-46 | over any run an allocation stays the same one until such a Refresh, however long ago it expired |
| TableInvariants.BindOpensChannel | turn_server/src/allocation/allocation_manager.cpp:302-313 | a granted binding lives for 600 seconds and its permission for 300, and no other channel or permission changes |
| TableInvariants.RelayOwnerUnique | turn_server/src/allocation/allocation_manager.cpp:76-83 | a relayed address belongs to one allocation, so looking it up is a function |
| TableInvariants.ChannelToUnique | turn_server/src/core/turn_dispatcher.cpp:221-228 | the search for the channel bound to a peer does not depend on the iteration order |
| TableInvariants.AllocationsBounded | turn_server/src/allocation/allocation_manager.cpp:30-48 | there are never more allocations than ports in the configured range |
| AllocationManager.Allocation.FindChannelByPeer | turn_server/src/allocation/allocation.hpp:54-63 | the loop finds the live binding of the peer if there is one, in any iteration order |
| AllocationManager.Allocation.FindChannelTo | turn_server/src/core/turn_dispatcher.cpp:221-228 | the loop finds the channel bound to the peer, expired or not, in any iteration order |
| AllocationManager.Allocation.CheckConflict | turn_server/src/allocation/allocation_manager.cpp:288-300 | a conflict is reported exactly if the number has another peer or the peer another number |
| AllocationManager.Manager.constructor | turn_server/src/allocation/allocation_manager.cpp:10-20 | both indexes and the port set start empty, ids start at 1 |
| AllocationManager.Manager.FindByClient | turn_server/src/allocation/allocation_manager.cpp:67-74 | the first index finds exactly the client's record |
| AllocationManager.Manager.FindByRelay | turn_server/src/allocation/allocation_manager.cpp:76-83 | the second index finds exactly the owner of the relayed address in the first one |
| AllocationManager.Manager.AllocatePort | turn_server/src/allocation/allocation_manager.cpp:30-44 | the loop marks the first free drawn port and no other |
| AllocationManager.Manager.CountOwned | turn_server/src/allocation/allocation_manager.cpp:105-107 | the loop counts the user's allocations |
| AllocationManager.Manager.HandleAllocate | turn_server/src/allocation/allocation_manager.cpp:85-149 | the two indexes stay indexes of the same objects with exactly their ports in use, and table and reply are those of the specification |
| AllocationManager.Manager.HandleRefresh | turn_server/src/allocation/allocation_manager.cpp:151-192 | the same for renewal and release: the object leaves both indexes and frees its port |
| AllocationManager.Manager.HandleCreatePermission | turn_server/src/allocation/allocation_manager.cpp:194-243 | the same, updating one shared object in place |
| AllocationManager.Manager.Install | turn_server/src/allocation/allocation_manager.cpp:207-233 | the loop over the peer attributes is the fold that InstallPeersMeans is about |
| AllocationManager.Manager.HandleChannelBind | turn_server/src/allocation/allocation_manager.cpp:245-320 | the same for a channel and its permission |
| AllocationManager.Manager.HandleSend | turn_server/src/allocation/allocation_manager.cpp:322-374 | what a Send indication makes the server send, or that it sends nothing |
| AllocationManager.Manager.HandlePeerData | turn_server/src/allocation/allocation_manager.cpp:376-410 | what data from a peer makes the server send to the client: a channel frame or a Data indication |
| TurnServer.RequestIsLocal | turn_server/src/core/turn_dispatcher.cpp:156-192 | a request changes no record but its sender's, and a record's owner never changes |
| TurnServer.StepOfTable | turn_server/src/core/turn_dispatcher.cpp:40-249 | the table changes only for an authenticated request, and then as that request says |
| TurnServer.StepKeepsServerOk | turn_server/src/core/turn_dispatcher.cpp:40-62 | every packet keeps the table invariant and that every stored username contains a colon |
| TurnServer.OnlyTheOwnerChanges | turn_server/src/core/turn_dispatcher.cpp:64-196 | if a client's allocation changes, the event is an authenticated request from that client: Allocate if there was none, else a Refresh, CreatePermission or ChannelBind under the owner's name |
| ServerRuns.ReachableOk | turn_server/src/core/turn_dispatcher.cpp:40-62 | every state of every run satisfies the invariant |
| ServerRuns.PermissionOrigin | turn_server/src/allocation/allocation_manager.cpp:194-320 | a permission was there before, in the same allocation, or this very step grants it until now + 300 s |
| ServerRuns.EveryPermissionGranted | turn_server/src/allocation/allocation_manager.cpp:194-320 | over any run every permission comes from an authenticated CreatePermission or ChannelBind of its client naming the address, on the same allocation, 300 s before its deadline |
| ServerRuns.RelayNeedsPermission | turn_server/src/allocation/allocation_manager.cpp:322-410 | every datagram that is not a reply carries the event's own data between an allocation and a peer under a live permission: bare to the peer, or to a client as a frame on a channel it bound to the sender or as a Data indication naming the sender |
| ServerRuns.RelayedOnlyWhenGranted | turn_server/src/core/turn_dispatcher.cpp:198-249 | over any run, data relayed at time t, in that form, was allowed less than 300 s earlier by an authenticated request of that allocation's client naming the peer's address |
| ServerRuns.NonceOrigin | turn_server/src/auth/nonce_manager.cpp:25-33 | a nonce in the store was there before, or this step sends it out in a challenge |
| ServerRuns.EveryNonceIssued | turn_server/src/auth/nonce_manager.cpp:25-33 | over any run every stored nonce was sent out in a challenge 3600 s before its deadline |
| ServerRuns.AuthenticNonceIssued | turn_server/src/auth/nonce_manager.cpp:35-40 | an accepted request uses a nonce that the server itself sent out less than 3600 s before |
| ServerRuns.ChallengeNonceStays | turn_server/src/auth/nonce_manager.cpp:25-40 | over any run, the nonce of a challenge stays in the store with its deadline 3600 s after the challenge |
| ClientRuns.ChallengeParses | turn_server/src/core/turn_dispatcher.cpp:87-134 | a challenge that fits a message parses to its error code, the realm and the nonce |
| ClientRuns.ChallengeShowsNonce | turn_server/src/core/turn_dispatcher.cpp:86-134 | a request that is not let in is answered by one challenge from which its sender reads the stored nonce |
| ClientRuns.ChallengedClientAllocates | turn_server/src/core/turn_dispatcher.cpp:64-196 | over any run, a client challenged at one event reads a nonce under which, at any event within 3600 s, its UDP Allocate signed with issued credentials makes an allocation under the issued name, if its endpoint, quota and a drawn port are free |
| ClientRuns.IssuedClientBinds | turn_server/src/core/turn_dispatcher.cpp:147-187 | a ChannelBind signed with issued credentials under either digest and a live nonce binds its channel in the user's own allocation, if the peer is neither denied nor in conflict |
| ClientRuns.ChallengesToFrames | turn_server/src/core/turn_dispatcher.cpp:40-249 | over one run with a steady clock, two clients that are challenged, allocate, bind channels to each other's relayed addresses and keep their allocations reach each other: a frame arrives on the other's channel with the same payload for 300 s after the sender's bind |
| EndToEnd.ChannelRelay | turn_server/src/core/turn_dispatcher.cpp:198-249 | every packet that parses as ChannelData on a bound channel, padded or not, reaches the other client on that client's own channel with the same payload, exactly if the permission is live |
| EndToEnd.ExpiredChannelRelays | turn_server/src/core/turn_dispatcher.cpp:209-217 | on a channel whose binding has expired, so that a lookup by number finds nothing, data still passes as long as the permission is live |
| EndToEnd.ChannelsSymmetric | turn_server/src/core/turn_dispatcher.cpp:198-249 | with channels bound towards each other, ChannelData in any accepted form passes both ways, renumbered and with unchanged payload, and the state does not change |
| EndToEnd.BoundChannelsRelay | turn_server/src/allocation/allocation_manager.cpp:245-320 | right after two clients bind channels to each other's relayed addresses, ChannelData in any accepted form passes each way exactly for 300 s after the sender's request |
| EndToEnd.ChannelBecomesData | turn_server/src/core/turn_dispatcher.cpp:233-246 | towards a client that has bound no channel back, any accepted ChannelData becomes one Data indication from the sender's relayed address, readable if and only if the payload size is |
| ChannelRuns.BindingsLast | turn_server/src/allocation/allocation_manager.cpp:245-320 | over any run, an allocation with the same number has lived all the time, with the same addresses, and each of its channels still has the peer it had |
| ChannelRuns.DeadlineGrows | turn_server/src/allocation/allocation_manager.cpp:194-320 | over any run with a clock that does not run backwards, a permission of a living allocation is never removed and its deadline never moves back |
| ChannelRuns.BoundFromThenOn | turn_server/src/allocation/allocation_manager.cpp:302-313 | after an authenticated ChannelBind the channel stays bound to that peer while the allocation lives, and the permission is live for the next 300 s, whatever else happens |
| ChannelRuns.FramesPassAfterBinds | turn_server/src/core/turn_dispatcher.cpp:198-249 | over any run in which two clients keep their allocations and bind channels to each other at some time, with any events in between, a frame reaches the other client on its own channel with the same payload for 300 s after the sender's bind, and is passed on like this or dropped afterwards |
| StreamRelay.FramesParse | turn_server/src/transport/tcp_transport.cpp:75-103 | a stream of frames on one channel deframes to messages that parse to exactly the payloads, in order |
| StreamRelay.StreamedFramesRelayed | turn_server/src/core/turn_dispatcher.cpp:198-249 | frames sent in a TCP stream, in any chunking, become the other client's frames one by one, and their stream gives it the same payloads in the same order |
| EndToEnd.TwoValuesFit | turn_server/src/message/parser.cpp:64-83 | two attributes of one parsed message have room side by side in the packet |
| EndToEnd.IndicationShowsData | turn_server/src/message/builder.cpp:147-158 | a Data indication of any payload shows endpoint and payload to the parser if and only if the payload has a readable size |
| EndToEnd.LongPayloadIsHidden | turn_server/src/message/builder.cpp:147-158 | a payload of 65520 bytes, which ChannelData can carry, is not shown by its Data indication |
| EndToEnd.SendBecomesData | turn_server/src/allocation/allocation_manager.cpp:322-374 | a permitted Send to another client's relayed address reaches that client as one Data indication with the same payload and the sender's relayed address |
| PeerRelay.SendMeans | turn_server/src/allocation/allocation_manager.cpp:322-374 | a Send to a permitted peer that is nobody's relayed address goes to that peer as it is; one that is incomplete, comes from nobody's endpoint or lacks the permission is dropped |
| PeerRelay.ChannelDataMeans | turn_server/src/core/turn_dispatcher.cpp:198-249 | the same for ChannelData on a bound channel |
| PeerRelay.PeerDataToNobody | turn_server/src/allocation/allocation_manager.cpp:384-385 | data that arrives at an address that is nobody's is dropped |
| PeerRelay.OthersIgnored | turn_server/src/core/turn_dispatcher.cpp:40-75 | a packet that is neither STUN nor ChannelData is ignored, and so is every indication but Send |
| EndToEnd.PeerDataReachesClient | turn_server/src/allocation/allocation_manager.cpp:376-410 | data from a peer reaches the client exactly if the peer's address is permitted, as a frame on the live channel bound to that peer, readable up to 65535 bytes, or else as a Data indication naming the peer, readable for the sizes such indications show |
| EndToEnd.CreatePermissionMeans | turn_server/src/allocation/allocation_manager.cpp:194-243 | exactly the well-formed peers before the first denied one are permitted for 300 s, nothing else changes, and the reply is a success if and only if there is such a peer and none is denied |
| Answers.CreatePermissionErrors | turn_server/src/allocation/allocation_manager.cpp:194-243 | the errors of a CreatePermission are 437 without an allocation, 403 for a denied peer and 400 for no peer |
| Answers.AskedMeans | turn_server/src/allocation/allocation_manager.cpp:208-221 | peers are asked for by XOR-PEER-ADDRESS attributes of at least eight bytes |
| Answers.ChannelBindMeans | turn_server/src/allocation/allocation_manager.cpp:245-320 | a ChannelBind binds, with both deadlines, and answers with a success if and only if both attributes are there and long enough, the number is one of a channel, the peer is not denied and nothing clashes; every refusal leaves the table as it is and has its own error |
| Answers.ChannelBindAnswered | turn_server/src/core/turn_dispatcher.cpp:185-195 | at the server, the client of an authenticated ChannelBind is told of a success, under a digest it accepts, if and only if its channel is bound |
| Answers.OtherMethods | turn_server/src/core/turn_dispatcher.cpp:189-191 | an authenticated request for anything else is answered with 400 |
| Answers.ReplyOnWire | turn_server/src/core/turn_dispatcher.cpp:194-195 | what goes out is the handler's reply, signed if it is a success and unchanged if it is an error |
| EndToEnd.RequestsAnswered | turn_server/src/core/turn_dispatcher.cpp:147-195 | an authenticated request gets one reply, to its sender and with its transaction id; a success has its method and a digest the client's check accepts, an error is unsigned |
| EndToEnd.AllocateReplyTrue | turn_server/src/allocation/allocation_manager.cpp:122-148 | the reply is signed and shows the relayed address, the client address and the lifetime of the record that was created: the requested lifetime capped at 3600 s, 600 s if none or 0 was asked for |
| EndToEnd.IssuedClientAllocates | turn_server/src/core/turn_dispatcher.cpp:147-195 | a UDP Allocate request signed with credentials the backend issued, with a live nonce, a free endpoint, quota left and a free drawn port, is authenticated and creates an allocation under the issued username at that port |
| EndToEnd.RefreshReplyTrue | turn_server/src/allocation/allocation_manager.cpp:169-191 | the reply is signed and shows the requested lifetime capped at 3600 s, 600 s if none was asked for; the allocation is gone exactly if that is 0, and else lives that long from now, otherwise unchanged |
| Dispatcher.TurnDispatcher.constructor | turn_server/src/core/turn_dispatcher.cpp:8-32 | a new dispatcher is in the initial state of the state machine |
| Dispatcher.TurnDispatcher.SendChallenge | turn_server/src/core/turn_dispatcher.cpp:87-134 | stores a new nonce and sends it with realm and error code to the sender |
| Dispatcher.TurnDispatcher.HandleStun | turn_server/src/core/turn_dispatcher.cpp:64-196 | the objects change and datagrams are sent as the state machine says for every verdict |
| Dispatcher.TurnDispatcher.Respond | turn_server/src/core/turn_dispatcher.cpp:86-195 | each verdict leads to its challenge, error or answer, and to nothing else |
| Dispatcher.TurnDispatcher.HandleRequest | turn_server/src/core/turn_dispatcher.cpp:156-192 | each method goes to its handler; unknown ones get error 400 |
| Dispatcher.TurnDispatcher.AnswerRequest | turn_server/src/core/turn_dispatcher.cpp:147-195 | the reply is signed under the request's username and sent to its sender |
| Dispatcher.TurnDispatcher.HandleChannelData | turn_server/src/core/turn_dispatcher.cpp:198-249 | ChannelData is relayed as the specification says, through both indexes and the channel search |
| Dispatcher.TurnDispatcher.OnPacket | turn_server/src/core/turn_dispatcher.cpp:40-62 | one packet does to the objects exactly what one step of the state machine does, and sends the same datagrams |
| Calls.OperationsKeepSessionsOk | backend/calls/call_manager.cpp:34-132 | every operation keeps sessions ringing or active, under their own id, and no user in two of them |
| Calls.BusyMeansInOneSession | backend/calls/call_manager.cpp:134-141 | a user is busy exactly if one session involves him, and never more than one does |
| Calls.CallManager.CheckBusy | backend/calls/call_manager.cpp:134-141 | the loop reports busy exactly if some session that has not ended involves the user |
| Calls.CallManager.CreateCall | backend/calls/call_manager.cpp:34-52 | a ringing session is added only if both users are free; the caller is checked first |
| Calls.CallManager.AcceptCall | backend/calls/call_manager.cpp:54-68 | only the callee activates, and only a ringing session |
| Calls.CallManager.RejectCall | backend/calls/call_manager.cpp:70-86 | only the callee removes, and only a ringing session |
| Calls.CallManager.HangupCall | backend/calls/call_manager.cpp:88-104 | either participant removes the session, in any state |
| Calls.CallManager.ExpireRinging | backend/calls/call_manager.cpp:115-132 | splits the sessions into the overdue ringing ones, each returned once as ended in some order, and the rest unchanged |
| Signalling.Router.OnCallCreate | backend/signaling/router.cpp:54-80 | sessions and notices of a call attempt, errors included |
| Signalling.Router.OnCallAccept | backend/signaling/router.cpp:82-119 | both parties get a configuration, or the sender an error |
| Signalling.Router.OnCallReject | backend/signaling/router.cpp:121-147 | the caller alone is told that the call ended |
| Signalling.Router.OnCallHangup | backend/signaling/router.cpp:149-179 | the other party alone is told that the call ended |
| Signalling.Router.OnWebrtcRelay | backend/signaling/router.cpp:181-202 | the text goes to the other party, sessions stay as they are |
| Signalling.Router.Handle | backend/signaling/router.cpp:27-52 | each message type goes to its handler, the rest are errors to the sender |
| Signalling.Router.CheckExpired | backend/signaling/router.cpp:204-222 | both parties of every removed session, and nobody else, get one timeout notice |
| CallProtocol.HandlerAccounts | backend/signaling/router.cpp:27-202 | the end notices and own ends of a handler are exactly one per participation in the call that it removes |
| CallProtocol.ExpiryAccounts | backend/signaling/router.cpp:204-222 | the same for the timer, whatever the order of its list |
| CallProtocol.StepKeepsSystemOk | backend/signaling/router.cpp:121-222 | every step, and every delivery in any order, keeps the count of end events right for every user and call |
| CallProtocol.ReachableOk | backend/signaling/router.cpp:121-222 | the invariant holds in every state of every run |
| CallProtocol.CallEndsOnce | backend/signaling/router.cpp:121-222 | no end event before a call is gone; afterwards, once the sends are out, each participant has exactly one if and only if caller and callee differ, and outsiders none |
| CallProtocol.SelfCallEndsTwice | backend/calls/call_manager.cpp:34-52 | a run in which a user calls himself and has two end events |
| CallProtocol.RelayedIffCallExists | backend/signaling/router.cpp:181-202 | a WebRTC message is relayed if and only if the call exists, as one copy to the other party, or to the caller if the sender takes no part in the call; never back to a sender of a call between two users |
| CallProtocol.OutsiderRelays | backend/signaling/router.cpp:190-201 | a run in which a user who takes no part in a call reaches its caller |
| CallAnswers.CreateMeans | backend/signaling/router.cpp:54-80 | a call is created if and only if neither party is in one; the caller is told its id, the callee who calls; otherwise the caller alone is told why |
| CallAnswers.AcceptMeans | backend/signaling/router.cpp:82-119 | the callee's accept of a ringing call makes it active and gives each party its own configuration; any other accept changes nothing and gives its sender one error |
| CallAnswers.RejectMeans | backend/signaling/router.cpp:121-147 | the callee's reject of a ringing call removes it and tells the caller; any other changes nothing |
| CallAnswers.HangupMeans | backend/signaling/router.cpp:149-179 | a participant's hangup removes the call in any state and tells the other party; any other changes nothing |
| CallAnswers.MalformedMeans | backend/signaling/router.cpp:27-57 | a message without what it needs changes nothing and gives its sender one error |
| CallAnswers.TimerMeans | backend/calls/call_manager.cpp:115-132 | the timer removes exactly the calls that have been ringing for longer than the timeout; an active call stays, whatever its age |
| CallAnswers.TimerLists | backend/calls/call_manager.cpp:115-132 | its list names exactly those calls, once each |
| CallAnswers.TimerNotices | backend/signaling/router.cpp:204-222 | for each of them caller and callee are told that the call timed out, and nothing else is sent |
| CallAnswers.ActiveEndsByHangup | backend/calls/call_manager.cpp:54-132 | over any run, an accepted call leaves the sessions only by a participant's hangup |
| JitterBuffer.Buffer.constructor | client_cli/src/audio/jitter_buffer.hpp:12-20 | an empty queue whose capacity is computed in 32 bits |
| JitterBuffer.Buffer.WriteSamples | client_cli/src/audio/jitter_buffer.hpp:22-29 | appends the longest prefix that fits to the queue, wrap-around and capacity 0 included |
| JitterBuffer.Buffer.ReadSamples | client_cli/src/audio/jitter_buffer.hpp:31-42 | fills the output with the front of the queue and then silence, removes that front, and leaves the rest of the output alone |
| JitterBuffer.Buffer.Clear | client_cli/src/audio/jitter_buffer.hpp:49-53 | the queue is empty and the ring silent |
| JitterBuffer.PlayedIsPrefixOfAccepted | client_cli/src/audio/jitter_buffer.hpp:22-42 | over any run of writes and reads the samples heard, followed by those waiting, are exactly the samples accepted |
| JitterBuffer.EnqueueMeans | client_cli/src/audio/jitter_buffer.hpp:22-29 | what is written is kept in order up to the first sample that finds the queue full |
| JitterBuffer.ServeMeans | client_cli/src/audio/jitter_buffer.hpp:31-42 | what is read is the front of the queue, sample by sample, then zeros, and the rest stays |
| JitterBuffer.Replay | client_cli/src/audio/jitter_buffer.hpp:22-42 | a run on the ring hears and keeps what the same run on the queue does |
| Wav.WriteWav | client_cli/src/audio/wav.cpp:38-70 | the bytes written are a RIFF file of a format chunk and a data chunk, all sizes in 32 bits |
| Wav.WrittenFields | client_cli/src/audio/wav.cpp:47-66 | the header of a written file: the RIFF size is the length of what follows it, and byte rate and block align are the products of rate, channels and bytes per sample in the width of their fields |
| Wav.ReadWav | client_cli/src/audio/wav.cpp:72-138 | the loop returns the samples and the whole header, the number of samples included, or the first error that the specification of the reader gives |
| Wav.ScanOfChunks | client_cli/src/audio/wav.cpp:94-132 | on well-formed chunks the byte-level loop sees exactly the chunks: the first data chunk under the last format chunk before it |
| Wav.ReadableFile | client_cli/src/audio/wav.cpp:94-132 | a well-formed file gives the samples of its first data chunk under the last format before it, if there is one, all formats before it are 16-bit PCM and its length is even |
| Wav.UnreadableFile | client_cli/src/audio/wav.cpp:94-135 | a file without data is refused, and so is one with another coding or sample width in front of its data |
| Wav.CutDataMeans | client_cli/src/audio/wav.cpp:124-127 | a data chunk that the file cuts short gives the samples that are there and silence up to its size |
| Wav.UnknownChunksDoNotMatter | client_cli/src/audio/wav.cpp:129-131 | files that agree after dropping unknown chunks, wherever these stand, read alike |
| Wav.ReadOfWritten | client_cli/src/audio/wav.cpp:38-138 | what is read back from a written file for all sizes: the samples that a 32-bit data size leaves, or the error for another sample width |
| Wav.WavRoundTrip | client_cli/src/audio/wav.cpp:38-138 | a written file reads back as the same samples, rate, channels and number of samples if and only if it has 16 bits per sample and its data fits 32 bits |

## Left out

- Sockets, Asio, TLS and DTLS: the model starts from packets and byte chunks. The TLS session repeats the TCP deframer, so
  one model stands for both; session bookkeeping and read errors are not part of this model.
- HMAC, SHA, MD5 and base64: any functions with output of the right size. Nothing is claimed about forging digests.
- Randomness: ports, nonces and call ids are inputs. A drawn port lies in the configured range, a nonce is not in the
  store, and the call protocol takes a new call id for every call.
- Clocks: an input of each step. Steady times count nanoseconds, wall times seconds. Issue time plus ttl is taken to fit 64
  bits; signed overflow has no meaning in the source.
- Logging, and the reading of the allocate reply for the log.
- The transport that carries a reply: one output per server.
- Threads of the TURN server: it runs a single event loop, so packets are handled one after the other.
- Reclaiming expired allocations, nonce clean-up and invalidation: no code calls them.
- `handlePeerData` has no caller in the dispatcher; it is modelled as an event of its own.
- Address text: only canonical dotted quads parse, which is all that the program itself prints; other text is not an IPv4
  address.
- The quota of allocations per user and the port range are parameters; the theorems hold for every choice.
- JSON, HTTP, WebSocket delivery, the user store: the router starts from decoded messages and ends in an outbox; a
  configuration is an arbitrary function of the user id.
- Framing.ReadStream: for channel payloads of 65533 bytes and more it says only what was delivered before, because the
  source then hands out bytes it has not read.
- Wav.ReadWav: files cut off inside a field that the reader decides on, and odd data chunks, are reported as undefined,
  because the source then acts on unset bytes or writes past its buffer. Samples are written as on a little-endian
  machine.
- Client commands, peer connections, audio devices and reconnecting.
