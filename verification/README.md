# Verified model of gmedia

A Dafny model of the RTMP and AMF0 library: what is sent, what is read back, and what holds
in every run.

- **AMF0** (`AmfValue`, `AmfEncode`, `AmfDecode`, `AmfRoundTrip`, `AmfTruncation`): the
  encoder that appends to a buffer and the two decoders that share a read cursor, as
  classes; the format as functions; round trip, unique parsing, canonical form, progress,
  and what becomes of an encoding that is cut off anywhere.
- **Struct members** (`TypeGraph`, `FieldPaths`, `Dominance`, `TypeFields`, `GoFields`,
  `MemberNames`, `Fold`): the breadth-first search over embedded structs, the choice of one field per name
  in place, beside what the Go language selects; the two name indexes and name folding.
- **Typed values** (`TypedValues`, `TypedEncode`, `TypedDecode`, `StructCodec`, `TypedExact`,
  `MemberErrors`): encoding and decoding strings, booleans, numbers, interfaces, slices, maps
  and structs of one another, and decoding into no variable at all; their round trip, and
  what becomes of errors in struct members.
- **Encoder cache** (`EncoderCache`): any number of threads in `typeEncoder`, as a state
  machine over its atomic steps.
- **RTMP messages** (`RtmpWire`, `ChunkStates`, `Chunks`, `MessageStates`, `Messages`,
  `Conns`, `Commands`): chunked buffers with cursors, header compression, sending,
  receiving, and AMF values carried end to end.
- **Acknowledgements** (`Acks`, `Conns`): the byte counter and its window, over all runs.
- **Handshake** (`Digests`, `Handshakes`, `Conns`): digests at data-dependent places, and a
  client and a server over two byte channels in every interleaving.

`WireForms` says in numbers what is on the wire. `ByteCodec` has bytes and big-endian numbers, `Results` the ways an operation ends, `Sorting`
the contract of Go's sort package.
A class is proved against functions on values; lemmas then say what those functions mean.
`dafny verify dfyconfig.toml` checks everything.

## Where the code falls short of what it says

Each of these is a theorem below; where the code fails on some inputs and not on others, the
theorem says exactly on which.

- An encoding that ends in an empty string and ends the input cannot be decoded, because
  reading no bytes at the end of the input is an error (`AmfRoundTrip.RoundTripExactly`).
- An encoding that is cut off inside the string it ends in, after its first byte, is
  accepted, with zeros for the missing bytes; cut off anywhere else it is refused
  (`AmfTruncation.CutExactly`).
- Malformed input inside a container makes `Unmarshal` panic instead of returning an error
  (`AmfRoundTrip.PanicsExactly`). A date cut off before its time zone is accepted by one
  decoder only (`AmfRoundTrip.DecodersAgree`).
- Fields are said to be hidden "by the Go rules for embedded fields" (encode.go:753). The
  mark of a struct embedded twice at one depth is not passed on to what that struct embeds,
  so fields that Go calls ambiguous can become members (`GoFields.MembersExactly`,
  `GoFields.DiamondSpurious`).
- A value for an object name that no struct member answers to is said to be discarded
  (decode.go:789). Most panic, because the type of a variable that is not there is asked for
  (`StructCodec.DiscardExactly`); of what the encoder writes only an empty slice is
  discarded (`StructCodec.DiscardEncoded`).
- Errors in struct members are to be returned with the names of the struct and the field
  (decode.go:100-111). The context goes through a second variable of the same name, which
  holds a nil pointer, so within a member every error, put aside or returned, is a panic:
  a number for a string is enough. Outside members errors are returned
  (`MemberErrors.ReadsInside`, `MemberErrors.StructPanicsExactly`,
  `MemberErrors.NumberForA`).
- A `uintptr` is encoded as a number, which decoding refuses to put into a `uintptr`; of all
  other values the round trip fails only where lengths or number conversions do
  (`TypedExact.RoundTripNodeExactly`).
- Commands are sent as one array and handled value by value. No command with anything in it
  is ever read that way, and decoding its name already ends in an error
  (`Commands.NeverValueByValue`, `Commands.NameNeverRead`).
- A message announces its length modulo 4096, since `ChunkList.Size` leaves out the chunks
  before the write cursor; it arrives as sent only if it is shorter than that
  (`MessageStates.WireBytes`, `MessageStates.SentArrivesExactly`).
- `pumpMessage` merges headers into a copy of the stream's, so compressed headers, which
  lose nothing between peers that remember, are recovered only where there was nothing to
  remember (`RtmpWire.RunRoundTrip`, `RtmpWire.DeltaAgainstZero`,
  `MessageStates.SentArrivesExactly`).
- A message on chunk stream 0 or 1, which `prepare` lets pass, is written as if on 256 or
  257 (`WireForms.LowStreams`).
- `pumpMessage` goes out of range on chunk stream 32, which passes its check, and on any
  chunk stream once a peer has set a chunk size that leaves no room for a header in 32 bits
  (`RtmpWire.PumpPanicsExactly`).
- A challenge is looked at for a digest in two places, and one that carries it at the second
  makes its receiver panic instead of being answered, whatever the code and the key
  (`Handshakes.FarDigestPanics`, `Handshakes.SecondPlaceUnanswered`).
- The key of the handshake answer is not taken over the found digest alone, as the comment
  at handshake.go:25 has it; the two are equal only if the code collides
  (`Handshakes.AnswerKeyExactly`).
- The state loop increments once more after it is done: a finished server is left in the
  first state of a client (`Handshakes.ServerHandshake`).

## Model

| member | source | states |
|---|---|---|
| AmfRoundTrip.RoundTrip | amf/encode.go:142-204 | decoding the encoding of any encodable value tree, followed by `rest`, gives its normal form (empty slices turned to nil) and leaves exactly `rest`, if a byte follows or the encoding does not end in an empty string |
| AmfRoundTrip.RoundTripExactly | amf/decode.go:873-918 | over all values and all `rest`: the round trip succeeds if and only if names are 1 to 65535 bytes, strings and slices are below 2^32, and `rest` is not empty or the encoding does not end in an empty string |
| AmfRoundTrip.RoundTripElems | amf/decode.go:606-619 | the same for the elements of an array from any position on |
| AmfRoundTrip.RoundTripMembers | amf/decode.go:354-382 | the same for the members of an object from any position on, added to what is already in the map |
| AmfRoundTrip.TrailingEmptyStringFails | amf/decode.go:281-296 | at the end of the input an encoding that ends in an empty string is refused |
| AmfTruncation.CutExactly | amf/decode.go:260-296 | for every encodable value and every cut: what is left is accepted if and only if the cut lies inside the string the encoding ends in, after its first byte, and is then read with zeros for the missing bytes |
| AmfTruncation.CutMembers | amf/decode.go:260-279 | an object that is cut off is refused, though its names are padded too |
| AmfRoundTrip.UniqueParse | amf/encode.go:422-495 | values encoded back to back parse in one way only: no encoding is a prefix of that of another value |
| AmfRoundTrip.DecodedIsEncodable | amf/decode.go:873-918 | whatever the decoder accepts lies in the encoder's domain |
| AmfRoundTrip.CanonicalStable | amf/decode.go:873-918 | re-encoding what was accepted and decoding it gives its normal form, and from then on nothing changes |
| AmfRoundTrip.NormIdempotent | amf/encode.go:463-495 | turning empty slices and nil containers to nil once is enough |
| AmfRoundTrip.AttemptsBounded | amf/decode.go:346-352 | an array loop makes at most one attempt more than there are bytes left, whatever its declared count |
| AmfRoundTrip.DecodersAgree | amf/decode.go:791-839 | `value` on a nil interface accepts exactly the inputs `valueInterface` accepts, with the same value and rest, unless the input is a date cut off before its time zone |
| AmfRoundTrip.PanicsExactly | amf/decode.go:388-399 | `value` panics, rather than returning an error, exactly on malformed input behind a container marker |
| AmfRoundTrip.MapTargetAgrees | amf/decode.go:433-541 | filling a `map[string]interface{}` member by member equals `objectInterface`, on every input |
| AmfValue.SortedKeysUnique | amf/encode.go:428-436 | however the keys of a map are enumerated, sorting gives the same list: the bytes do not depend on map order |
| AmfValue.SortedKeysAscend | amf/encode.go:436 | each name in that list is less than every later one, byte by byte |
| AmfEncode.SortedNames | amf/encode.go:428-436 | the sorted key list of a map is that unique list, all keys in strictly ascending order |
| AmfEncode.EncodeState.EncodeString | amf/encode.go:172-182 | appends the short form up to 65535 bytes and the long form beyond |
| AmfEncode.EncodeState.EncodeMembers | amf/encode.go:439-442 | the member loop appends name and value of every key in order |
| AmfEncode.EncodeState.EncodeMap | amf/encode.go:422-445 | appends the encoding of a map, null for a nil one |
| AmfEncode.EncodeState.EncodeArray | amf/encode.go:484-495 | appends the encoding of a slice, undefined for an empty one |
| AmfEncode.EncodeState.ReflectValue | amf/encode.go:133-135 | appends the encoding of whatever an interface holds, and changes nothing before it |
| AmfEncode.Marshal | amf/encode.go:567-577 | returns exactly the encoding, a function of the value alone |
| WireForms.EncodedForms | amf/encode.go:147-204 | for every value the bytes it starts with, in numbers: marker, length or count, most significant byte first; strings of up to 65535 bytes are short |
| WireForms.EncodedMember | amf/encode.go:142-145 | a member is two bytes of length, the name and the value |
| WireForms.DecodedForms | amf/decode.go:873-918 | what only a decoder meets: an associative array is an object after four bytes, documents are long strings, and which markers are refused |
| AmfDecode.ParseValue | amf/decode.go:873-918 | every success consumes at least one byte; the recursion ends on every input |
| AmfDecode.ParseArray | amf/decode.go:606-619 | n elements take at least n bytes |
| AmfDecode.ParseObject | amf/decode.go:354-382 | an object takes at least one byte and yields a map |
| AmfDecode.DecodeState.Read | amf/decode.go:260-279 | an error at the end of the input even for no bytes; else what there is, padded with zeros |
| AmfDecode.DecodeState.ObjectName | amf/decode.go:260-279 | reads a length-prefixed name and stops at an empty one |
| AmfDecode.DecodeState.ValueInterface | amf/decode.go:873-918 | the cursor-based decoder returns and leaves what the grammar says, and panics exactly where it fails |
| AmfDecode.DecodeState.ObjectInterface | amf/decode.go:354-382 | the member loop builds the map of the grammar |
| AmfDecode.DecodeState.ArrayInterface | amf/decode.go:346-352 | the element loop yields the array of the grammar and counts its attempts |
| AmfDecode.DecodeState.EcmaArrayInterface | amf/decode.go:581-589 | an associative array is an object after a count that is ignored |
| AmfDecode.DecodeState.DateInterface | amf/decode.go:685-701 | a date is read in full and gives nil |
| AmfDecode.DecodeState.Value | amf/decode.go:791-839 | the decoder on a nil interface: a value, an error, or a panic, and what remains |
| AmfDecode.DecodeState.Date | amf/decode.go:703-717 | the error of a missing time zone is dropped |
| AmfDecode.DecodeState.SaveError | amf/decode.go:92-98 | the first error is put aside, which panics while a member is being decoded; later ones are dropped |
| AmfDecode.DecodeState.AddErrorContext | amf/decode.go:100-111 | adding the context panics exactly if there is one |
| AmfDecode.DecodeState.ObjectMap | amf/decode.go:433-541 | the member loop on a map target |
| AmfDecode.Unmarshal | amf/decode.go:858-871 | the outcome of decoding into a nil interface |
| TypeGraph.Enqueue | amf/encode.go:728-732 | a struct type is queued once per level and counted each time |
| TypeGraph.ScanField | amf/encode.go:652-732 | one field is skipped, recorded once or twice, or queued |
| TypeGraph.ScanLevel | amf/encode.go:645-734 | scanning one level keeps the search invariant, and each queued type is scanned by then |
| TypeGraph.Search | amf/encode.go:641-734 | on every type graph, cyclic or not, the search ends, scans types once, by paths that lead to them and in the order of those paths, marked exactly if two or more fields one level up embed them, is closed under embedding, and records their fields in order |
| TypeGraph.LeastPath | amf/encode.go:641-734 | every type that any path of embedded fields leads to is scanned, by a path no longer than that one and, at its length, no later in index order |
| TypeGraph.OrderUnique | amf/encode.go:641-734 | the type graph alone decides which types are scanned, by which paths, in which order and with which marks |
| TypeGraph.FoundUnique | amf/encode.go:641-734 | so it alone decides the recorded fields and their order |
| FieldPaths.RecordsAreCandidates | amf/encode.go:700-725 | the recorded fields are exactly the fields of the scanned structs that count |
| FieldPaths.CandidateCount | amf/encode.go:716-723 | a field is recorded twice if its struct is marked, once otherwise |
| FieldPaths.PrefixFree | amf/encode.go:677-679 | index paths are distinct and none runs through another |
| GoFields.MarksExactly | amf/encode.go:717-732 | on the type graph alone: being embedded by two fields one level up is the same as being reached by two shortest paths, if and only if every struct so embedded passes it on to what it embeds at least depth |
| GoFields.TwiceIsDoubly | amf/encode.go:717-732 | a struct is marked exactly if two or more fields of structs one level up, at least depth, embed it |
| GoFields.SelectedIsMember | amf/encode.go:753-824 | whatever the rule of the language selects, over all embedding paths, is a member |
| GoFields.MembersExactly | amf/encode.go:753-824 | the members are what the language selects if and only if no struct with two shortest paths and one embedding field one level up has a field ahead of every other of its name |
| GoFields.DiamondSpurious | amf/encode.go:728-732 | a concrete graph where a field reached by two shortest paths is a member all the same |
| MemberNames.MemberDeclared | amf/encode.go:652-725 | every member is declared at the end of its index path, by a field that is not skipped, and has the name in the tag, or the field's own where the tag has none, its type and its `omitempty` |
| MemberNames.StepEmbedded | amf/encode.go:652-732 | every step of an index path before the last is an embedded struct without a name in its tag |
| MemberNames.OwnFieldIsMember | amf/encode.go:652-725 | a field of the struct itself is a member, whatever is embedded, if no other field of the struct has its name |
| MemberNames.ConnectMembers | conn.go:478-481 | the object in the answer to connect has the members `fmsVer` and `capabilities`, in this order |
| MemberNames.ConnectEncoded | conn.go:478-494 | and these bytes on the wire |
| Dominance.ByIndexLess | amf/encode.go:612-622 | the loop compares index sequences lexicographically |
| Dominance.FieldLessIsOrder | amf/encode.go:736-751 | the four-key comparison is a strict weak order |
| Dominance.FieldLessByKeys | amf/encode.go:736-751 | names first, then depth, then tagged before untagged, then index sequence |
| Dominance.DominantField | amf/encode.go:800-824 | returns the field of a group that outranks all others, and nothing if there is none |
| Dominance.Compact | amf/encode.go:759-780 | compacting the array in place keeps exactly the winners, one per name; no unread position is overwritten |
| Dominance.CompactName | amf/encode.go:760-780 | one name: what follows in the array is untouched |
| TypeFields.SelectFields | amf/encode.go:627-783 | the members are the winners among all recorded fields, in strict index order, with distinct names |
| TypeFields.MembersUnique | amf/encode.go:627-783 | the type graph alone decides the members and their order, however maps are enumerated and slices are sorted |
| TypeFields.MemberExactly | amf/encode.go:736-824 | a field is a member if and only if a scanned, unmarked struct has it and every other recorded field of its name is deeper, or as deep and untagged while it is tagged |
| TypeFields.BuildIndexes | amf/encode.go:788-797 | the two maps hold the member of each name, and the first member of each folded name |
| TypeFields.LookupIsScan | amf/decode.go:468-471 | looking a name up in the two maps finds what a scan of the list finds: an exact match, else the first member equal under folding |
| TypeFields.TypeFields | amf/encode.go:627-798 | the whole of `typeFields`, with both properties |
| Fold.DecodeOfAppend | amf/fold.go:43-45 | UTF-8 as appended is decoded again, whatever follows |
| Fold.Utf8Forms | amf/fold.go:43-45 | bytes that start no rune, and a rune of each length, in numbers |
| Fold.FoldRune | amf/fold.go:52-60 | walking the orbit ends and returns its smallest rune |
| Fold.FoldNext | amf/fold.go:33-46 | one iteration; the ASCII path agrees with the general one |
| Fold.FoldName | amf/fold.go:26-49 | the loop gives the folded name |
| Fold.RunesFoldIsOrbit | amf/fold.go:24-25 | walking from one rune by simple folding, as bytes.EqualFold does, reaches the other exactly if both have the same smallest equivalent |
| Fold.FoldDecides | amf/fold.go:24-30 | for all byte strings, valid UTF-8 or not: equal folded names if and only if equal under bytes.EqualFold, rune by rune |
| TypedValues.GoTypesOk | amf/encode.go:627-798 | the members that typeFields finds have paths that lead to values of their types and do not run through one another, and are found by their own names |
| TypedValues.SetApart | amf/decode.go:473-497 | writing along one index path leaves the value along any other unrelated path |
| TypedValues.MemberIn | amf/encode.go:388-399 | a member's index path leads to a value of its type in every value of the struct |
| TypedEncode.EncodeNode | amf/encode.go:245-276 | appends the encoding of a value of any type |
| TypedEncode.EncodeStruct | amf/encode.go:384-411 | appends the members in index order, leaving out empty `omitempty` ones |
| TypedEncode.EncodeDict | amf/encode.go:422-445 | appends the entries of a map in the order of their keys |
| TypedEncode.EncodeList | amf/encode.go:463-495 | appends the elements of a slice, undefined for an empty one |
| TypedDecode.ValueInto | amf/decode.go:791-839 | value on a variable of any type or on none: what is stored, what remains, and whether an error was put aside; an error, from within a struct member or not; or a panic |
| TypedDecode.Float64Into | amf/decode.go:186-211 | a number into a float, an integer but `uintptr`, a `Number` string or an interface; an error for any other type; a panic for none |
| TypedDecode.BoolInto | amf/decode.go:222-240 | the same for a boolean |
| TypedDecode.StringInto | amf/decode.go:298-330 | the same for a string, which goes into a byte slice as base 64 |
| TypedDecode.LongStringInto | amf/decode.go:736-770 | the same for a long string, which some integer types parse |
| TypedDecode.NullInto | amf/decode.go:559-571 | null into an interface, a slice or a map; a panic for anything that cannot be nil |
| TypedDecode.ObjectInto | amf/decode.go:388-430 | an object into an interface, a map or a struct; for any other type nothing is read and an error is put aside, which panics within a member; a panic for none |
| TypedDecode.DictInto | amf/decode.go:433-541 | the member loop on a map of any element type |
| TypedDecode.ObjectStruct | amf/decode.go:433-541 | the member loop on a struct |
| TypedDecode.MemberInto | amf/decode.go:467-506 | the value for an object name goes into the member of that name, with the context of errors set, or nowhere |
| TypedDecode.FindMember | amf/decode.go:468-471 | the member an object name is decoded into |
| TypedDecode.StrictArrayInto | amf/decode.go:621-683 | an array into an interface or a slice; for any other type only the count is read and an error is put aside, which panics within a member; a panic for none |
| TypedDecode.ItemsInto | amf/decode.go:646-668 | the element loop, over what the slice held |
| TypedDecode.Unmarshal | amf/decode.go:858-871 | the outcome for a zero variable of any type: an error put aside is returned last, one returned from within a member panics |
| StructCodec.AnyAgrees | amf/decode.go:791-839 | on an interface variable this is the decoder on a nil interface |
| StructCodec.MapAgrees | amf/decode.go:433-541 | on a map of interfaces this is the decoder on a `map[string]interface{}` |
| StructCodec.EmptyExactly | amf/encode.go:115-131 | a value counts as empty if and only if it is zero and no struct, an empty slice or map, or negative zero |
| StructCodec.LeftOutExactly | amf/encode.go:402-408 | a member is missing from the encoding if and only if it is `omitempty` and empty in that sense |
| StructCodec.OmittedLosesNothing | amf/encode.go:402-408 | leaving a member out restores it as encoding it would have, unless it is an empty map that is not nil or negative zero |
| StructCodec.SkippedKeeps | amf/decode.go:577-579 | undefined, unsupported and dates leave a variable as it is |
| StructCodec.ScalarsReplace | amf/decode.go:186-240 | scalars and null replace what was there: the outcome is that of a zero variable |
| StructCodec.NullClears | amf/decode.go:559-571 | null empties an interface, a slice or a map, and panics on anything else |
| StructCodec.NumberAsText | amf/decode.go:193-199 | a number into a `Number` is its text |
| StructCodec.DigitsAsNumber | amf/decode.go:748-762 | a long string into an integer of 32 bits or more is the number it spells |
| StructCodec.Base64AsBytes | amf/decode.go:310-322 | a string into a byte slice is what it stands for in base 64, byte for byte |
| StructCodec.EmptyObjectKeeps | amf/decode.go:433-454 | an object without members leaves the entries of a map and the fields of a struct |
| StructCodec.ElementsKept | amf/decode.go:645-668 | the elements of an array are decoded over those that were there, zeros after them |
| StructCodec.RoundTripNode | amf/decode.go:791-839 | for every type built of interfaces, strings, booleans, numbers, slices, maps and structs: decoding what was encoded into a zero variable stores the value again, empty slices nil and hidden fields zero, puts no error aside, and leaves what follows |
| TypedExact.RoundTripNodeExactly | amf/decode.go:791-839 | over all types, values and what follows: the round trip succeeds if and only if numbers convert back, none is a `uintptr`, lengths and map keys fit their fields, and an empty string at the end is not the end of the input |
| TypedExact.DecodedSized | amf/decode.go:791-839 | whatever the input, what is stored in a variable of any type has lengths and keys that fit |
| TypedExact.SizedBack | amf/encode.go:245-276 | what comes back has lengths that fit only if what was encoded had |
| TypedExact.NodePlaced | amf/decode.go:791-839 | where lengths fit, a value that is read is read to its end, even if numbers do not convert back |
| MemberErrors.ReadsInside | amf/decode.go:92-111 | for every type and input, within a struct member: what can be read is decided by the type and the bytes alone; no error is put aside, and every failure ends in a panic |
| MemberErrors.MemberInside | amf/decode.go:456-506 | one value of the outermost struct: a failure within a known member panics, one for an unknown name is returned unless its type is asked for |
| MemberErrors.LoopExactly | amf/decode.go:433-550 | the member loop of the outermost struct ends well, in an error or in a panic as the place where it stops says |
| MemberErrors.StructPanicsExactly | amf/decode.go:858-871 | for every struct type and input: `Unmarshal` panics if and only if the input is a null, or its members stop at an empty name without the end marker, at the value of a known member, or at one of an unknown name whose type is asked for; and when it returns no error |
| MemberErrors.FirstMemberPanics | amf/decode.go:503-506 | a value that cannot be read into the member it is for panics |
| MemberErrors.WrongTypePanics | amf/decode.go:412-425 | so does a number or an object for any string member |
| MemberErrors.NumberForA | amf/decode.go:186-199 | the concrete input: every number for the one string member of a struct |
| StructCodec.RebuiltMembers | amf/decode.go:473-497 | what is stored in a struct has every member of the encoded one, the omitted ones zero |
| StructCodec.StructRoundTrip | amf/decode.go:433-505 | the round trip for every struct type with the members that typeFields finds, member by member |
| StructCodec.DiscardExactly | amf/decode.go:503 | decoding nowhere panics if and only if the marker and the number of bytes say that the type of the variable is asked for; undefined, unsupported and whole dates are skipped |
| StructCodec.DiscardEncoded | amf/decode.go:503 | of what the encoder writes only an empty slice is discarded, everything else panics |
| EncoderCache.RunInv | amf/encode.go:217-239 | in every state of every interleaving: each placeholder has exactly one builder, released exactly when built, and final entries are released |
| EncoderCache.EveryDependencyAsked | amf/encode.go:217-239 | in every state of every interleaving: a type whose wait group is released, finished or not, has the encoders of all types it is built from in the cache; a call in the middle of building has those so far, but for the one directly on top of it |
| EncoderCache.NeverEarly | amf/encode.go:226-229 | no thread goes on through a placeholder before that |
| EncoderCache.EntriesMoveForward | amf/encode.go:226-238 | an entry only moves from absent to placeholder to final |
| EncoderCache.OneBuilderEver | amf/encode.go:226-234 | at most one step of a run starts building a type |
| EncoderCache.BuildingNeverWaits | amf/encode.go:217-239 | a thread inside `typeEncoder` always has a step of its own |
| EncoderCache.OwnStepDecreases | amf/encode.go:245-276 | each step of its own lowers the rank of a call: types not yet in the cache, then steps left |
| EncoderCache.OtherStepsKeep | amf/encode.go:217-239 | no step of another thread raises that rank |
| EncoderCache.BuilderReleases | amf/encode.go:236-238 | the builder of a type, running alone, releases its wait group |
| EncoderCache.EveryWaitEnds | amf/encode.go:226-229 | from every reachable state, whatever a thread waits for is released by steps of one other thread, none of which waits |
| EncoderCache.RecursionBounded | amf/encode.go:447-457 | calls nest no deeper than there are types in the cache, and one more |
| RtmpWire.ReadHeader | conn.go:240-349 | reading what `prepare` wrote gives back format, stream, time stamp, length, type and stream id, and consumes exactly the header |
| RtmpWire.DeltaRoundTrip | message.go:408-508 | for every header and every previous one: with the two sides in step, reading and merging yields the sender's header if and only if type and length fit their fields, for all four formats and any wrap-around of time stamps |
| RtmpWire.HighestFormat | message.go:423-434 | compression is as strong as can be undone: a receiver in step recovers the header from a format if and only if it is at most the one chosen, for messages with a payload |
| RtmpWire.RunRoundTrip | conn.go:378-395 | over any run of headers, a receiver that keeps what it merged recovers every one |
| RtmpWire.DeltaAgainstZero | conn.go:378-395 | against the copied, still zero stream a header is recovered if and only if it is a full one, or a first-level one after time stamp zero on message stream zero |
| RtmpWire.MessageRoundTripExactly | conn.go:351-422 | a full header and a payload are received as sent, leaving what follows, if and only if the payload fits one chunk of the receiver and three bytes of length, and the type is known |
| RtmpWire.PumpPanicsExactly | conn.go:351-401 | for every input and chunk size: pumping goes out of range if and only if the bytes of both headers are there and the chunk stream is 32, or at most 32 with a chunk size of 2^32 - 18 or more |
| RtmpWire.StreamIdBeyondTable | conn.go:368-379 | so it does for every message on stream 32 |
| WireForms.FullHeader | message.go:441-508 | a full header in numbers, with the extended time stamp where three bytes do not hold it |
| WireForms.ContinuationHeader | message.go:510-516 | one byte, format 3 and the stream |
| WireForms.LowStreams | message.go:465-478 | streams 0 and 1 are written as 256 and 257, and the receiver refuses the message |
| WireForms.KnownTypes | conn.go:414-421 | a message of type 20 or 22 arrives, one of type 23 or more is refused |
| WireForms.AckForm | conn.go:424-432 | an acknowledgement in numbers |
| ChunkStates.ListWrite | message.go:265-284 | writing keeps the cursors ordered: full chunks before, untouched ones after |
| ChunkStates.ListRead | message.go:244-263 | the same for reading, which gives at most what was asked for |
| ChunkStates.WriteIsFlat | message.go:265-284 | writing to the list writes min(request, room) bytes at one write cursor of the concatenated payload areas and leaves the read cursor |
| ChunkStates.ReadIsFlat | message.go:244-263 | reading gives the next min(request, rest) bytes of that buffer and changes nothing but the read cursor |
| MessageStates.ListRefinesFlat | message.go:244-314 | any interleaving of reads and writes, by bytes or one byte, cannot be told from one flat buffer with two cursors |
| Chunks.Chunk.Send | message.go:146-155 | however the writer splits it, exactly the bytes from the send to the write cursor go out, once |
| Chunks.Chunk.Read | message.go:162-173 | a chunk gives what it has left, up to the request |
| Chunks.Chunk.Write | message.go:175-186 | a chunk takes what it has room for |
| Chunks.Chunk.WriteHeader | message.go:459-508 | the header, put into the array piece by piece, starts where the room for it was reserved |
| Chunks.ChunkList.Write | message.go:265-284 | the loop over chunks is the specified write |
| Chunks.ChunkList.Read | message.go:244-263 | the loop over chunks is the specified read |
| Chunks.ChunkList.WriteByte | message.go:301-314 | writing a byte is writing a sequence of one |
| Chunks.ChunkList.ReadByte | message.go:286-299 | reading a byte is reading a sequence of one |
| Chunks.ChunkList.AppendChunk | message.go:234-237 | a new chunk comes last and keeps the cursors valid |
| Chunks.ChunkList.Size | message.go:316-322 | the size of the chunk at the write cursor once per chunk from there on, modulo 2^32 |
| Chunks.ChunkList.Follow | message.go:510-516 | every chunk after the write cursor gets a continuation header, others stay |
| Chunks.ChunkList.SendNext | message.go:346-351 | what is still to be sent and what has been sent always make up the message |
| MessageStates.HeaderFits | message.go:441-457 | for streams from 2 on the header has exactly the size reserved |
| MessageStates.Filled | message.go:401-406 | after allocating for n bytes and writing them, all fit, and the write cursor is n / 4096, the last chunk, so the inclusive loop of `Send` stays in range |
| MessageStates.SizeOfLast | message.go:316-322 | such a message announces n modulo 4096 |
| MessageStates.SentHeaded | message.go:344-354 | sending puts out the header and then the payload, with nothing between |
| MessageStates.WireBytes | message.go:344-508 | allocate, write, prepare, send: the wire carries the compressed header with n modulo 4096 and all n bytes |
| WireForms.AnnouncedLength | message.go:316-322 | in numbers: the length announced is modulo 4096 |
| MessageStates.SentArrivesExactly | conn.go:351-422 | prepared against any previous header or none, that wire is received as the message sent, leaving what follows, if and only if the payload is below 4096 bytes and within the receiver's chunk size, the type is known, and the header leaves nothing to remember |
| MessageStates.RunArrives | conn.go:184-196 | any run of such messages, on any chunk streams, arrives message by message, in order |
| MessageStates.ReceivedReads | message.go:157-173 | reading a received message gives its payload first |
| Messages.Message.Alloc | message.go:401-406 | appends n / 4096 + 1 fresh chunks |
| Messages.Message.Prepare | message.go:408-521 | refuses streams above 32, does nothing twice, else puts the headers of the specification in place and leaves this header, with the announced length, in `prev` |
| Messages.Message.Compress | message.go:423-434 | the choice of format and time stamp against the previous header |
| Messages.Message.Send | message.go:344-354 | everything from the send cursor through the chunk being written goes out in order, and nothing else of the message changes |
| Commands.CommandArrives | conn.go:465-548 | a short command, one slice marshalled in one call, with room left in the receiver's chunk, is read back whole by the first decode |
| Commands.NeverValueByValue | server.go:275-282 | whatever type but a slice the first value of a command is decoded into: an interface takes the whole command instead, any other variable ends in an error |
| Commands.NameNeverRead | server.go:275-282 | decoding the name of any command sent into a string reads nothing but a count, keeps the string, and puts an error aside, which decoding returns |
| Commands.ArrayPassedOver | amf/decode.go:621-640 | so it does for every array, whatever its elements are |
| Acks.ReadExact | conn.go:220-229 | one read without wrap-around: reset at 0xf0000000, acknowledgement when the window is reached |
| Acks.CountersExact | conn.go:214-238 | in every run the counters equal the bytes received and the latest acknowledgement since counting last started, `inLastAck <= inBytes < 0xf0000000`, and the addition never wraps |
| Acks.AckExact | conn.go:228-235 | an acknowledgement is sent exactly when the window is reached, and carries the bytes received |
| Acks.UnacknowledgedBounded | conn.go:228-235 | after each read under a window less than the window is unacknowledged |
| Acks.AcksIncrease | conn.go:228-235 | acknowledgements increase strictly until counting starts again |
| Acks.LongReadWraps | conn.go:220-226 | the bound on single reads is tight: one byte more can wrap the counter |
| Conns.AckArrives | conn.go:424-432 | an acknowledgement on the wire is received as a message that carries its number |
| Conns.Conn.SendMessage | conn.go:424-463 | the shape of all senders: the writer gets exactly the specified wire |
| Conns.Conn.ReadFull | conn.go:214-238 | n bytes or an error; what is counted is what is taken from the input; an acknowledgement goes out exactly when one is due |
| Conns.Conn.Counted | conn.go:214-238 | whatever a connection has done, its counters stand for what they should |
| Conns.Conn.ReadBasicHeader | conn.go:240-297 | the three forms of the chunk stream id |
| Conns.Conn.ReadChunkMessageHeader | conn.go:299-349 | the fields of each format and the extended time stamp |
| Conns.Conn.PumpMessage | conn.go:351-422 | delivers, refuses or goes out of range exactly as specified, takes exactly the message from the input, and leaves the stream table as it was |
| Conns.Conn.ReadBody | conn.go:378-421 | merging into a copy, and the payload in a chunk of the new message |
| Digests.SignedFound | handshake.go:107-139 | for every packet, key and base with room: what `writeDigest` wrote `findDigest` finds, at the same place |
| Digests.SignedElsewhere | handshake.go:122-139 | nothing outside the digest changes |
| Digests.Place | handshake.go:107-112 | whatever the bytes, the digest lies inside its span of the packet |
| Digests.PlaceExactly | handshake.go:107-112 | the place is the sum of the four bytes modulo 728, after them |
| Digests.SecondDigestFits | handshake.go:240 | the slices of the second digest fit if and only if twice the offset and 32 is within the packet: always for base 8, never for base 772 |
| Digests.FindDigest | handshake.go:107-120 | the loop and the comparison on the array |
| Digests.WriteDigest | handshake.go:122-139 | the loop and the digest written into the array |
| Handshakes.ChallengeAccepted | handshake.go:185-247 | a challenge made with the same code is accepted, with its epoch and the answer key, if and only if it does not happen to verify at base 772 |
| Handshakes.ChallengeBytes | handshake.go:185-207 | a challenge in numbers: version 3, epoch, version, and random bytes with the code of all others under the key at the place that four of them choose |
| Handshakes.ReactionExactly | handshake.go:216-247 | for every packet: when it is accepted, refused or panics, and what is learned from it, in terms of its bytes |
| Handshakes.FarDigestPanics | handshake.go:230-240 | its receiver panics if and only if it does |
| Handshakes.SecondPlaceUnanswered | handshake.go:230-240 | no challenge signed at the second place is answered: for every code, key, epoch and filling, its receiver panics |
| Handshakes.AnswerKeyExactly | handshake.go:14-27 | for every code and packet: the answer key is taken over a longer message than the found digest, and equals the key the comment describes if and only if the code collides on the two |
| Handshakes.AnswerKeyIsNotOverDigestAlone | handshake.go:14-27 | there are codes under which the two keys differ on every packet |
| Handshakes.ServerHandshake | handshake.go:147-182 | a server that finishes has accepted the challenge in its first 1537 bytes, has read 1536 more and nothing else, and has written the same, its answer ending in the code of the rest of it under the digest it learned; it is one state past done |
| Handshakes.ClientHandshake | handshake.go:147-182 | the same for a client |
| Handshakes.AnswersVerify | handshake.go:249-271 | in every interleaving each peer's answer is random bytes and their code, with the key that the other's challenge determines |
| Handshakes.RunReached | handshake.go:75-87 | in every interleaving each peer has done its own first steps in order, and the channels hold exactly what was sent and not yet read |
| Handshakes.NoDeadlock | handshake.go:147-182 | no peer ever fails, and while one runs some peer can move |
| Handshakes.EveryRunCompletes | handshake.go:147-182 | every interleaving has at most ten steps, and one that cannot go on has had all ten: both are done, every byte sent has been read, and each knows the other's epoch and the key that the other's challenge determines |
| Conns.Conn.SendChallenge | handshake.go:185-207 | writes version, epoch, random bytes and the digest in place |
| Conns.Conn.OnChallenge | handshake.go:216-247 | the checks on a challenge, the far place first |
| Conns.Conn.SendResponse | handshake.go:249-271 | random bytes that end in their code, with the digest learned as the key |
| Conns.Conn.Step | handshake.go:150-176 | one turn of the state loop is one step of the peer |
| Conns.Conn.Handshake | handshake.go:147-182 | the whole loop, on everything that will ever arrive |

## Left out

- Sockets, the accept loop, goroutines, time-outs, logging and the handler tables of `server.go`; a closed connection is the end of the input. `server.go` hands its message reader to `amf.DecodeWithReader`, whose parameter is a `*bytes.Reader`; the two sides are joined on values only.
- `sync.Pool`: nothing is ever put back into the chunk pools, so a chunk from a pool is a fresh one.
- Reflection: `Marshaler` and `Unmarshaler` hooks, pointers, Go arrays (the encoder panics on them), unsupported types, and map keys that are not strings.
- TypedEncode.EncodeStruct: structs are embedded by value; embedded pointers, whose members are left out when nil, are not modelled.
- TypedDecode.ObjectStruct: structs are embedded by value; embedded pointers, which are allocated on the way to a member, are not modelled. What a target holds after an error is returned is not either.
- TypedDecode.ItemsInto: a slice holds nothing beyond its length; the source decodes over what an earlier use left in its capacity.
- TypedValues.MemberIn: by-value embedding, for the same reason.
- StructCodec.StructRoundTrip: conversions between integers, floating point and text, and from base 64, are parameters, and the numbers of a value are those that survive them.
- TypedExact.RoundTripNodeExactly: supposes that member names are 1 to 65535 bytes long, that base 64 makes no string longer and that no number is written in 2^32 bytes or more. With a longer name, whose length is cut to 16 bits, the bytes of the name itself are decoded as members, and what they spell may happen to restore the value; `StructCodec.RoundTripNode` needs no such condition.
- Commands.CommandArrives: the elements of the slice are what an interface holds by itself; the two structs that `SendConnectResult` puts in interfaces are encoded in the order of their fields and not modelled there. `Commands.ArrayPassedOver` covers them.
- Tag parsing and the `string` option; a field's tag name and `omitempty` are part of the type graph.
- `cachedTypeFields`: a cache of a function of the type.
- The text of errors. Of the error context the names of the members are kept and the struct type, which is set exactly when there is a name, is not.
- HMAC, SHA-256 and the quality of random bytes: the code is any function with results of 32 bytes, and the random bytes are a parameter.
- The Unicode tables: the orbits of simple folding are a parameter whose smallest members on ASCII are the upper-case letters.
- Continuation chunks: `pumpMessage` refuses a message longer than one chunk, and their headers are placed as the code places them without a theorem on receiving them.
- A previous header that is the message's own header (`prev == m.hdr`).
- AmfEncode.Marshal: does not model buffers longer than memory or cyclic values, which Go does not end on.
- Handshakes.EveryRunCompletes: reads wait for a whole packet; a packet that arrives in pieces is one read of all of it.
- Acks.CountersExact: assumes no single read is longer than 2^28 bytes; the source reads at most 2^24 - 1 at a time, the largest length on the wire.
- Chunks.Writer: a failing writer may have taken any part of what it was given.
