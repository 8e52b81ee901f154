# Verified models of the SOAP runtime, the CDMI helpers and the multicast forwarder

A Dafny 4.11 project beside the sources. `dafny verify dfyconfig.toml` checks all of it.

**SOAP/XML runtime (`nPVR/stdsoap2.cpp`).**
`IdLinks.dfy` has the table of ids: references wait in chains threaded through the cells that will be overwritten, and
every cell owes a known number of dereferences to its object. `Copies.dfy` has the places that wait for a copy of an
object that may itself contain such places. `Graph.dfy` writes object graphs with sharing and cycles in two passes and
reads them back, and `GraphLinks.dfy` links what is read through the table of ids. `Chunked.dfy` and `ChunkTransfer.dfy`
have the two ends of chunked transfer, with a socket that hands out the bytes in pieces of any size. `Text.dfy` and
`TextReader.dfy` have escaping, the look-ahead reader and the block list that collects strings, and `Utf8.dfy` has
characters of several bytes. `Attributes.dfy` has the list of attributes in canonical order. `Count.dfy` and
`CountWriter.dfy` show that the pass that counts a message and the pass that sends it agree, and `StartTags.dfy` and
`ElementTags.dfy` that the tags they write are read by `soap_peek_element` as the elements, ids and hrefs that they stand
for. `TagCmp.dfy`, `Base64.dfy` and `Dime.dfy` have pattern matching of names, base64 and DIME attachments.

**Checksums and hashes (`Generic/CdmiFuse`).**
`Registers.dfy`, `Crc32Table.dfy` and `Crc32.dfy` have CRC-32 against the bitwise shift register, with its error
detection. `Sha1Standard.dfy` has the operations of FIPS 180-4 on their own, and `Sha1Words.dfy`, `Sha1.dfy` and
`Sha1Stream.dfy` have the program's SHA-1 against them, from the bits of a word to messages in pieces. `Hmac.dfy` has
HMAC against RFC 2104. `Base64Cdmi.dfy` has the second base64 coder.

**Multicast forwarding (`MulticastForwarding`).**
`Dispatcher.dfy` has the queue between the sniffer and its subscribers, with a producer, a consumer and a destructor in
any interleaving of their accesses. `Tunnel.dfy` has the handshake and the forwarding between two hosts, and
`TunnelOwners.dfy` who is called with what arrives.

Functions that compute are functions, and what the source does by changing fields, arrays, lists or buffers in place
is a class or a method over an array, proved against such a function. A protocol is a state machine over single
accesses to what its threads share; the class beside it has the fields of the source, and each of its methods is one
access.

Where the code does not do what is said of it, the code is modelled and the exact condition is proved:

* A prefixed attribute that gets a value too long for its old buffer forgets its namespace with the buffer. The
  canonical order is lost exactly when a later attribute belongs in front of one that has forgotten it and the search
  runs past it (`Attributes.SetAttrInOrderIff`, `Attributes.RunInOrderIff`).
* The line before a chunk is misread if its size has more than seven digits, leading zeros included, or its extensions
  hold a byte 255 or a line feed, as a quoted string may, and only then (`ChunkGrammar.SizeReadIff`).
* A CDATA section with a closing bracket before another one, or at its end, is misread (`XmlTokens.CdataReadIff`).
* An instruction or declaration with brackets in it that do not match is misread (`XmlTokens.InstructionSkippedIff`).
* The reference that is written for a character above 99999 is not read to its end (`Utf8.ReferenceReadIff`).
* `soap_tag_cmp` misjudges patterns in which a star comes before a star or a dash, and names with a star before their
  last character (`TagPatterns.PatternIff`, `TagPatterns.NameIff`).
* A DIME record with a field too long for its header does not come back (`DimeRoundTrip.RecordReadIff`), and an empty
  string comes back as a null pointer.
* The destructor of the dispatcher relies on a sleep of 100 milliseconds; `DispatcherRaces.DestructionIsSafeIff` says
  what has to be over by then for the queue and its buffers.
* `HMAC_SHA1_Done` clears the inner pad twice and the outer pad not at all.
* A tunnel trusts that the reply with the server's id is sent. When it is not, ids and data can be mixed up, unless the
  handshake of the client has already expired (`TunnelRuns.LostReplyIsGoodIff`).

## Model

| member | source | states |
|---|---|---|
| `IdLinks.Soap.Lookup` | nPVR/stdsoap2.cpp:4862-4935 | An href registers its cell at its level: the table gains the id and nothing else of what was entered changes; a clash of types gives SOAP_HREF and changes nothing. The invariant that every waiting cell is on the chain of its id, threaded through the cells themselves, and owes a known number of dereferences is kept for first, resolved and forward hrefs at any level. The place returned is the last cell on the way from the place given, that place itself where no cell is put in between, and no other memory changes. |
| `IdLinks.Soap.Enter` | nPVR/stdsoap2.cpp:4999-5052 | Entering an id that has no object yet sets its object and level, and the type if the id is new, and keeps the invariant of the cells that wait for it; a second time gives SOAP_MULTI_ID and changes nothing. |
| `IdLinks.Soap.ResolveLinks` | nPVR/stdsoap2.cpp:1842-1863 | Resolving gives SOAP_MISSING_ID exactly when some id that starts with a number sign is in the table and was never entered; otherwise every registered cell reaches its object in exactly the dereferences it is owed. |
| `IdLinks.Soap.LowerTo` | nPVR/stdsoap2.cpp:4899-4917 | An href below the level of the references before it gives each cell on the chain fresh cells of its own to go through, with every owed count unchanged. |
| `IdLinks.Soap.FillChain` | nPVR/stdsoap2.cpp:1844-1856 | Walking a chain through cells that are overwritten on the way gives every cell of it, and no other, the address of the object. |
| `IdLinks.TrackReaches` | nPVR/stdsoap2.cpp:1842-1863 | A cell that owes n dereferences reaches its object in n once no cell of the id is chained. |
| `IdLinks.ResolveAlikeIff` | nPVR/stdsoap2.cpp:4868-4933 | References before and after the object resolve in href level minus id level plus one dereferences exactly if the lowest early level is the level of the object and no later href is below it. |
| `IdLinks.LowerKeepsValid` | nPVR/stdsoap2.cpp:4899-4917 | Lowering the level of an awaited id keeps the whole invariant of chains and owed dereferences. |
| `IdLinks.ForwardHrefKeepsValid` | nPVR/stdsoap2.cpp:4921-4933 | A further forward href keeps it. |
| `IdLinks.ResolvedHrefKeepsValid` | nPVR/stdsoap2.cpp:4880-4898 | An href to an object already read keeps it, with a path of fresh cells when the level asks for one. |
| `IdLinks.FillKeepsValid` | nPVR/stdsoap2.cpp:1844-1856 | One step of the walk of soap_resolve keeps it. |
| `Copies.Resolver.Forward` | nPVR/stdsoap2.cpp:4945-4990 | soap_id_forward makes the place wait for the id, on its chain or its list, and nothing else wait or stop waiting; another type, or another size at the level of the id, gives SOAP_HREF and changes nothing. |
| `Copies.Resolver.Enter` | nPVR/stdsoap2.cpp:4999-5052 | Entering an object: SOAP_HREF exactly if some place waits for a copy and the type, or at the same level the size, is another one; otherwise SOAP_MULTI_ID exactly if the id has its object; otherwise the object is there and the same places wait as before. Errors change neither table nor chains. |
| `Copies.Resolver.HasCopies` | nPVR/stdsoap2.cpp:1810-1826 | True exactly when a place that waits for any id lies in the region. |
| `Copies.Resolver.CopyChain` | nPVR/stdsoap2.cpp:1870-1881 | The walk over a chain through the places that are overwritten copies the object to every place of it. |
| `Copies.Resolver.ResolveCopies` | nPVR/stdsoap2.cpp:1864-1906 | The copy loop ends; an id is still pending exactly if it was held up from the start by ids that hold one another up; all other places hold the final words of their source, and nothing else has changed. |
| `Copies.ForwardKeepsLayout` | nPVR/stdsoap2.cpp:4945-4990 | A place that overlaps no other and lies inside an object or outside of it may be forwarded to any id: what soap_resolve needs of the layout is kept. |
| `Copies.EnterKeepsLayout` | nPVR/stdsoap2.cpp:4999-5052 | So may an object be entered that has the size that is waited for and cuts through no place. |
| `Copies.ApartIff` | nPVR/stdsoap2.cpp:1810-1826 | Regions are apart exactly when no address lies in both. |
| `Copies.NestedIff` | nPVR/stdsoap2.cpp:1810-1826 | One lies in another exactly when each of its addresses does. |
| `Copies.StepProgresses` | nPVR/stdsoap2.cpp:1869-1900 | Copying an object with no waiting place in it spares every copy already made and every group that is held up. |
| `Copies.LeftoversAreStuck` | nPVR/stdsoap2.cpp:1864-1906 | What remains when nothing can be copied is held up from the start. |
| `Copies.RankedIsNotHopeless` | nPVR/stdsoap2.cpp:1864-1906 | When dependencies are acyclic and all ids are entered, nothing is left pending. |
| `Copies.StuckWalk` | nPVR/stdsoap2.cpp:1864-1906 | From an id that is held up, dependencies lead to an id never entered or round a cycle. |
| `Graphs.Writer.Reference` | nPVR/stdsoap2.cpp:4295-4315 | soap_reference returns 0 exactly for the first visit of a pointer, and keeps marks that say once or more than once for every pointer met. |
| `Graphs.Writer.ElementId` | nPVR/stdsoap2.cpp:6219-6247 | The href is written exactly when the node is shared and has been written before. |
| `Graphs.Writer.EmbeddedId` | nPVR/stdsoap2.cpp:4354-4384 | A pointer in the table is marked as embedded in the mark of the pass; without an id nothing changes. |
| `GraphReader.WriteTwice` | nPVR/stdsoap2.cpp:4295-4442 | Printing any graph ends, on cycles too, and the counting and the sending pass print the same text. |
| `GraphReader.SharedOnce` | nPVR/stdsoap2.cpp:6219-6247 | In the text of a graph a node met twice or more is printed in place once, with its id, and every other visit is an href to that id. |
| `GraphReader.TextIsRead` | nPVR/stdsoap2.cpp:4862-4935 | Reading the text of a pointer gives the copy of the pointer and stops behind the text. |
| `GraphReader.RoundTrip` | nPVR/stdsoap2.cpp:8700-8708 | A graph with shared nodes and cycles, written in two passes and read, is read as an isomorphic graph, null pointers included. |
| `GraphLinks.LinkText` | nPVR/stdsoap2.cpp:4862-5052 | Nodes with ids and hrefs in any order, an id entered once: soap_resolve gives SOAP_MISSING_ID exactly if some href has no node, and otherwise each href cell, chained before its node or linked after it, points to the node of its id. |
| `GraphLinks.Linker.Resolve` | nPVR/stdsoap2.cpp:1842-1863 | The same at the end of any sequence of soap_id_enter and soap_id_lookup. |
| `GraphLinks.ReadLinks` | nPVR/stdsoap2.cpp:4862-5052 | For the text of any graph, each href cell ends up at the copy of the node that the href was written for, the one that the isomorphism of graph and copy gives. |
| `Attributes.AttrList.Set` | nPVR/stdsoap2.cpp:6424-6495 | soap_set_attr in place: the list becomes that of the specification function. |
| `Attributes.SetAttrStores` | nPVR/stdsoap2.cpp:6424-6495 | The attribute of the name is stored, visible exactly if a value is given; names stay distinct and the others keep their values, in or out of canonical mode. |
| `Attributes.NewKeepsCanonical` | nPVR/stdsoap2.cpp:6430-6472 | A new name goes where canonical order wants it: declarations, unprefixed attributes, prefixed ones by URI and name. |
| `Attributes.SetAttrInOrderIff` | nPVR/stdsoap2.cpp:6424-6495 | A call on a list in canonical order, by the URIs that its prefixes are declared with, leaves it out of order exactly when a new name belongs in front of an attribute that has lost its namespace and the search runs past that: always for a name with a prefix, and for one without if it is the greater of the two. |
| `Attributes.SetAttrCanonicalIff` | nPVR/stdsoap2.cpp:6473-6494 | A call leaves order and all recorded namespaces intact exactly when it does not give a prefixed attribute a value that needs a new buffer. (What becomes of the order alone is the subject of SetAttrInOrderIff.) |
| `Attributes.RunInOrderIff` | nPVR/stdsoap2.cpp:6424-6495 | A sequence of calls keeps the order after each of them exactly when that happens to none of them. |
| `Attributes.UnforgottenInOrder` | nPVR/stdsoap2.cpp:6424-6495 | The order is kept throughout a sequence in which no prefixed attribute gets a value that needs a new buffer. |
| `Attributes.RunCanonicalIff` | nPVR/stdsoap2.cpp:6473-6494 | A sequence of calls keeps order and recorded namespaces all the way exactly when no call gives a prefixed attribute a value that needs a new buffer. |
| `Attributes.OrderLost` | nPVR/stdsoap2.cpp:6473-6494 | Three calls after which the order is lost, the namespace of an attribute having been forgotten with its old buffer. |
| `Attributes.OrderLostInRun` | nPVR/stdsoap2.cpp:6473-6494 | The same calls as a run of declared ones: a canonical list that is out of order in the end. |
| `Attributes.CanonicalOrderIsUnique` | nPVR/stdsoap2.cpp:6424-6495 | There is one canonical order of a set of attributes. |
| `Outputs.Output.SendRaw` | nPVR/stdsoap2.cpp:636-663 | The counting pass counts and the sending pass appends the same bytes. |
| `Escapes.StringOut` | nPVR/stdsoap2.cpp:6908-6990 | Runs between replaced bytes are sent together; the output grows by the escaped string. |
| `TextRoundTrip.EscapeRead` | nPVR/stdsoap2.cpp:1220-1299 | What is written for a byte, in either mode, is read as one token that stands for it, references and bytes of UTF-8 included. |
| `TextRoundTrip.ContentReadBack` | nPVR/stdsoap2.cpp:7227-7413 | Escaped text followed by an end tag is read back unchanged, for every string without NUL, and reading stops exactly at the tag. |
| `TextRoundTrip.QuotedReadBack` | nPVR/stdsoap2.cpp:6524-6577 | An escaped attribute value and its closing quote are read back unchanged. |
| `BlockLists.BlockList.First` | nPVR/stdsoap2.cpp:1941-1956 | The list of blocks turned round in place: the blocks from the oldest on hold what was written, in order. |
| `BlockLists.BlockList.Save` | nPVR/stdsoap2.cpp:2015-2039 | All blocks in one piece are what was written to them, whatever their sizes. |
| `BlockLists.BlockList.Cut` | nPVR/stdsoap2.cpp:1927-1933 | Cutting the newest block drops its unused end from the contents and from the size. |
| `XmlReading.XmlReader.Char` | nPVR/stdsoap2.cpp:1160-1192 | The code of a reference of at most seven characters, and the input behind it. |
| `XmlReading.XmlReader.Get` | nPVR/stdsoap2.cpp:1220-1299 | For every input the next token of text, tag, reference, CDATA section or end, past comments, declarations and instructions, with look-ahead; always getting on. |
| `XmlTokens.CommentIsSkipped` | nPVR/stdsoap2.cpp:1246-1277 | A comment of section 2.5 of XML 1.0 is skipped, whatever brackets are in it. |
| `XmlTokens.InstructionSkippedIff` | nPVR/stdsoap2.cpp:1246-1277 | A processing instruction, or one of a server page, is skipped and nothing else with it exactly when the brackets in it match. |
| `XmlTokens.InstructionIsSkipped` | nPVR/stdsoap2.cpp:1246-1277 | The declaration of XML and any other instruction without a bracket in it is skipped. |
| `XmlTokens.DeclarationIsSkipped` | nPVR/stdsoap2.cpp:1246-1277 | A declaration whose inner brackets match is skipped. |
| `TextRoundTrip.PredefinedRead` | nPVR/stdsoap2.cpp:1177-1186 | The five names of section 4.6 of XML 1.0 are read as their characters. |
| `TextRoundTrip.DigitFrom` | nPVR/stdsoap2.cpp:1172-1175 | There are no digits but those of the decimal and the two hexadecimal alphabets. |
| `TextRoundTrip.UnknownRead` | nPVR/stdsoap2.cpp:1187-1191 | A name that stands for nothing is read as the code 127. |
| `TextRoundTrip.HexReferenceRead` | nPVR/stdsoap2.cpp:1172-1175 | A number of at most four hexadecimal digits, in capitals or not, is read as the code with this number. |
| `XmlTokens.CdataStarts` | nPVR/stdsoap2.cpp:1246-1259 | Behind the start of a CDATA section the reader is in its text. |
| `XmlTokens.CdataReadIff` | nPVR/stdsoap2.cpp:1228-1259 | The text of a CDATA section is read byte for byte, and what follows the section after it, exactly when no closing bracket in it comes before another one or before the end of the section. |
| `XmlReading.XmlReader.GetUtf8` | nPVR/stdsoap2.cpp:1406-1429 | The next character: a single byte, two to six bytes, or a reference, past comments. |
| `Utf8.PutUtf8` | nPVR/stdsoap2.cpp:1361-1398 | soap_pututf8 writes a byte, the bytes of RFC 2279 section 2 in canonical mode, or a reference. |
| `Utf8.EncodedReadIff` | nPVR/stdsoap2.cpp:1406-1429 | The bytes of a character are read back as the character exactly when it has at most 31 bits. |
| `Utf8.ReferenceReadIff` | nPVR/stdsoap2.cpp:1158-1192 | The reference to a character is read back, up to its semicolon and no further, exactly when its decimal code has at most five digits. |
| `Utf8.WriteAndRead` | nPVR/stdsoap2.cpp:1362-1429 | soap_getutf8 undoes soap_pututf8 under these conditions, in either mode. |
| `XmlReading.XmlReader.StringIn` | nPVR/stdsoap2.cpp:7227-7413 | The string collected over all block boundaries is the content up to the tag, and the tag is looked ahead. |
| `XmlReading.XmlReader.GetAttrVal` | nPVR/stdsoap2.cpp:6524-6577 | The value up to its quote, or without quotes up to a blank, slash or bracket that is looked ahead, when it fits in the buffer with its NUL; SOAP_EOM when it does not, EOF at the end of input. |
| `XmlReading.WriteAndReadText` | nPVR/stdsoap2.cpp:6908-6990 | Written as content, in canonical mode or not, and read back: the same string, for every string without NUL. |
| `XmlReading.WriteAndReadValue` | nPVR/stdsoap2.cpp:6908-6990 | Written as a value and read back: the same string exactly when it fits in the buffer. |
| `TwoPasses.PassesAgree` | nPVR/stdsoap2.cpp:4122-4173 | Any client that makes the same calls writes the same text in the counting and the sending pass, and gets the same results, once the reference phase has left the two marks equal. |
| `TwoPasses.CallAlike` | nPVR/stdsoap2.cpp:5829-5922 | One call, of any kind, keeps the relation between the two passes and writes the same. |
| `TwoPasses.SetAttrAlike` | nPVR/stdsoap2.cpp:6424-6495 | An attribute set in the unordered list of the counting pass and in the ordered one of the sending pass stays the same attribute. |
| `CallRuns.RunsAlike` | nPVR/stdsoap2.cpp:4181-4269 | Runs from related states write and return the same. |
| `Serializing.Serializer.PutElement` | nPVR/stdsoap2.cpp:5829-5922 | soap_element writes its planned pieces: prolog, name, declarations, id, type, position, mustUnderstand, actor, encoding style. |
| `Serializing.Serializer.PutStartEnd` | nPVR/stdsoap2.cpp:6085-6131 | soap_element_start_end_out writes the attributes that have been set and hides them again. |
| `Serializing.Serializer.PutElementId` | nPVR/stdsoap2.cpp:6219-6247 | soap_element_id writes nothing, a null element or an href, and returns what the plan says. |
| `Serializing.Serializer.PutEmbeddedId` | nPVR/stdsoap2.cpp:4354-4384 | soap_embedded_id returns the id in the mark of the pass. |
| `Serializing.Serializer.PutNull` | nPVR/stdsoap2.cpp:6194-6211 | soap_element_null writes nothing, unless an attribute is to be seen, an id is given, the mode asks for null elements, or in SOAP 1.2 a position is set; then it writes an element, with xsi:nil under an encoding style outside a header. |
| `Serializing.Serializer.Calls` | nPVR/stdsoap2.cpp:4181-4269 | Any sequence of calls does what the run of the plans says. |
| `Serializing.ContentLength` | nPVR/stdsoap2.cpp:4122-4173 | The length that the counting pass finds is the number of bytes that the sending pass hands on. |
| `StartReading.PeekElement` | nPVR/stdsoap2.cpp:6620-6835 | soap_peek_element: the name of the next tag, its attributes in order, each with its value, whether the element is empty, and the fields id and href. |
| `StartTags.StartRead` | nPVR/stdsoap2.cpp:6085-6131 | A start tag is read as it was written: its name, every attribute with its value, and whether the element is empty. |
| `StartTags.EndTagIsRead` | nPVR/stdsoap2.cpp:6347-6376 | An end tag is read as it was written. |
| `StartTags.NotBoth` | nPVR/stdsoap2.cpp:1279-1282 | Nothing is read both as a start tag and as an end tag. |
| `StartTags.BlankSkipped` | nPVR/stdsoap2.cpp:88-89 | Every byte up to 32 is a blank between the words of a tag. |
| `StartTags.PrologSkipped` | nPVR/stdsoap2.cpp:5858-5861 | An instruction before the first tag makes no difference. |
| `ElementTags.ElementIsRead` | nPVR/stdsoap2.cpp:5829-5922 | What soap_element and soap_element_start_end_out write is read as the tag with id _n, xsi:type, SOAP-ENC:position, actor or role, mustUnderstand, encoding style and declarations, each exactly when it is asked for, and the attributes that have been set. |
| `ElementTags.NullIsRead` | nPVR/stdsoap2.cpp:6194-6211 | A null pointer is read as an empty element with xsi:nil, or nothing is written, by the condition of soap_element_null. |
| `ElementTags.RefIsRead` | nPVR/stdsoap2.cpp:6165-6187 | A reference to the element with number n is read as an empty element with href "#_n", in SOAP 1.2 with ref "_n". |
| `ElementTags.IdIsRead` | nPVR/stdsoap2.cpp:6813-6819 | The id read of an element that is written with number n is "#_n", in either mode. |
| `ElementTags.HrefIsRead` | nPVR/stdsoap2.cpp:6820-6829 | The href read of a reference to number n is "#_n", in either version and mode. |
| `ElementTags.MetAgain` | nPVR/stdsoap2.cpp:6219-6247 | A pointer that has been given its number is written as a reference to that number wherever it is met again in the pass. |
| `ElementTags.SharedIsRead` | nPVR/stdsoap2.cpp:6165-6247 | The href read where a pointer is met again is the id read of the element that was written for it. |
| `ElementTags.IdsDiffer` | nPVR/stdsoap2.cpp:5871-5875 | Different numbers give different ids. |
| `ElementTags.WrittenOnce` | nPVR/stdsoap2.cpp:5862-5921 | Declarations, position, mustUnderstand and encoding style are not repeated in the next element. |
| `ElementTags.PlacedAfterNothing` | nPVR/stdsoap2.cpp:6207-6211 | When nothing is written for a null pointer, the next element has the position that is set for it, and no mustUnderstand. |
| `ElementTags.PutAndRead` | nPVR/stdsoap2.cpp:5829-5922 | The bytes that the class has sent for an element are read by soap_peek_element as that element. |
| `ElementTags.PutAgainAndRead` | nPVR/stdsoap2.cpp:6219-6247 | The bytes that the class has sent for a pointer met again are read as an element whose href is that of the number of the pointer. |
| `ChunkReceiver.Receiver.GetChunkChar` | nPVR/stdsoap2.cpp:849-859 | The next byte of the wire, the buffer being filled again as often as needed. |
| `ChunkReceiver.Receiver.RecvRaw` | nPVR/stdsoap2.cpp:917-976 | However frecv cuts up the wire, each call makes a non-empty piece of the payload ready or, at its end, says so. |
| `ChunkReceiver.Receiver.ReceiveAll` | nPVR/stdsoap2.cpp:917-976 | Up to the first end of file exactly the payload is received, and counted. |
| `ChunkFormat.CapitalsAre` | nPVR/stdsoap2.cpp:943-949 | The sixteen digits of a size have the values 0 to 15. |
| `ChunkFormat.SmallAre` | nPVR/stdsoap2.cpp:943-949 | So have they in small letters. |
| `ChunkGrammar.SizeReadIff` | nPVR/stdsoap2.cpp:943-952 | The size line of a chunk of RFC 2616 section 3.6.1 is read as the size and what follows the line exactly when the size has at most seven digits and its extensions hold neither a byte 255 nor a line feed. |
| `ChunkGrammar.LastSizeReadIff` | nPVR/stdsoap2.cpp:943-952 | The line of zeros at the end is read exactly when its extensions hold neither of the two, however many zeros there are. |
| `ChunkGrammar.BodyDecoded` | nPVR/stdsoap2.cpp:917-976 | A chunked body, with such size lines and any trailer, decodes to the data of its chunks. |
| `ChunkGrammar.HighByteEnds` | nPVR/stdsoap2.cpp:849-859 | A byte 255 in a quoted extension is taken for the end of the input: nothing is received. |
| `ChunkGrammar.FoldEnds` | nPVR/stdsoap2.cpp:943-952 | The rest of a folded extension is taken for data. |
| `ChunkGrammar.LeadingZeros` | nPVR/stdsoap2.cpp:943-952 | A size of eight digits that begins with zeros is taken for the end of the body. |
| `ChunkSender.Sender.FlushRaw` | nPVR/stdsoap2.cpp:565-589 | One chunk more on the wire, with the bytes of the buffer. |
| `ChunkSender.Sender.SendRaw` | nPVR/stdsoap2.cpp:636-663 | What has been given to the sender grows by the bytes, across any number of buffer flushes. |
| `ChunkSender.Sender.EndSend` | nPVR/stdsoap2.cpp:5168-5173 | The wire decodes to all that was given, and is a well-formed chunked body when that is not empty. |
| `ChunkTransfer.Transfer` | nPVR/stdsoap2.cpp:5168-5173 | Whatever is sent in whatever pieces is received unchanged, wherever in the first read the body starts and however the socket cuts it up. |
| `Crc32.Crc32` | Generic/CdmiFuse/crc.cpp:94-105 | The table loop computes the bitwise shift register over the bits of the buffer, from the given checksum on. |
| `Crc32Table.TableEntry` | Generic/CdmiFuse/crc.cpp:50-91 | Each of the 256 entries is eight clocks of the register 0xEDB88320 from the index. |
| `Crc32.TableStepRuns` | Generic/CdmiFuse/crc.cpp:94-105 | A table lookup and a byte shift are eight clocks of the register fed with the byte. |
| `Crc32.ChecksumContinues` | Generic/CdmiFuse/crc.cpp:94-105 | crc32(crc32(c, a), b) is crc32(c, a + b). |
| `Crc32.BurstsChangeTheChecksum` | Generic/CdmiFuse/crc.cpp:94-105 | Buffers whose bits differ only inside 32 consecutive ones never have the same checksum. |
| `Crc32.FourBytesChangeTheChecksum` | Generic/CdmiFuse/crc.cpp:94-105 | Buffers that differ only inside four consecutive bytes never have the same checksum. |
| `Crc32.ResidueIsConstant` | Generic/CdmiFuse/crc.cpp:94-105 | A buffer followed by its own checksum has one and the same checksum whatever the buffer. |
| `Registers.BurstDetected` | Generic/CdmiFuse/crc.cpp:94-105 | In any reversible register, a change confined to as many consecutive bits as it has shows. |
| `Sha1Words.PicksAgree` | Generic/CdmiFuse/sha1.cpp:24-25 | The function of R0 and R1 is Ch of FIPS 180-4 section 4.1.1. |
| `Sha1Words.MostsAgree` | Generic/CdmiFuse/sha1.cpp:27 | The function of R3 is Maj. |
| `Sha1Words.SwapUndoesLoad` | Generic/CdmiFuse/sha1.cpp:16-17 | blk0 makes the big-endian word of four bytes of the one a little-endian machine loads. |
| `Sha1Words.MixedAgrees` | Generic/CdmiFuse/sha1.cpp:20-21 | blk rotates by one, to the left, as the schedule of the standard does. |
| `Sha1Words.ConstantsAgree` | Generic/CdmiFuse/sha1.cpp:24-28 | The constants of the four kinds of round are those of the standard. |
| `Sha1Standard.ConstantIsRoot` | Generic/CdmiFuse/sha1.cpp:24-28 | The constants of section 4.2.1 are the integer parts of 2^30 times the square roots of 2, 3, 5 and 10. |
| `Sha1Standard.RotL1Bits` | Generic/CdmiFuse/sha1.cpp:20-21 | Bit by bit, the rotation of the schedule moves each bit up by one and the top one to the bottom. |
| `Sha1Standard.RotL5Bits` | Generic/CdmiFuse/sha1.cpp:24-28 | So does that by five. |
| `Sha1Standard.RotL30Bits` | Generic/CdmiFuse/sha1.cpp:24-28 | So does that by thirty. |
| `Sha1Standard.TruthTables` | Generic/CdmiFuse/sha1.cpp:24-27 | Ch, Parity and Maj by all eight combinations of their bits. |
| `Sha1Standard.InitialBytes` | Generic/CdmiFuse/sha1.cpp:80-88 | The first state by its twenty bytes. |
| `Sha1Standard.PlusCarries` | Generic/CdmiFuse/sha1.cpp:24-28 | Sums carry from byte to byte and drop what is beyond 32 bits. |
| `Sha1Standard.BytesAndWord` | Generic/CdmiFuse/sha1.cpp:16-17 | Four bytes and their word determine each other. |
| `Sha1Standard.WordOrder` | Generic/CdmiFuse/sha1.cpp:16-17 | The first byte of a word is the high one. |
| `Sha1Words.LoadUndoesStore` | Generic/CdmiFuse/sha1.cpp:16-17 | What a little-endian machine stores it loads again. |
| `Sha1Message.WordsInOrder` | Generic/CdmiFuse/sha1.cpp:137-140 | The words of the digest are those of the state in their order. |
| `Sha1Rounds.Expand` | Generic/CdmiFuse/sha1.cpp:20-21 | blk writes word t of the message schedule in the place of word t - 16, and the 16 words still hold the last 16 of the schedule. |
| `Sha1Rounds.First` | Generic/CdmiFuse/sha1.cpp:16-17 | blk0 yields word t of the schedule for t below 16. |
| `Sha1Rounds.RoundAlike` | Generic/CdmiFuse/sha1.cpp:24-28 | One round with rotated register names and another order of the sum is one round of section 6.1.2. |
| `Sha1Rounds.Block.Blk` | Generic/CdmiFuse/sha1.cpp:20-21 | In place on the block: word t of the schedule. |
| `Sha1Rounds.Block.Rounds80` | Generic/CdmiFuse/sha1.cpp:36-76 | The 80 unrolled rounds over the circular schedule compute the compression of section 6.1.2, for every block and state. |
| `Sha1Rounds.LastWords` | Generic/CdmiFuse/sha1.cpp:36-76 | The block ends as the last 16 words of the schedule. |
| `Sha1Context.Context.Transform` | Generic/CdmiFuse/sha1.cpp:36-76 | The state is that of the standard; the 64 bytes of the buffer are spent and no others are touched. |
| `Sha1Context.Context.Init` | Generic/CdmiFuse/sha1.cpp:80-88 | A context of the empty message. |
| `Sha1Context.Context.Update` | Generic/CdmiFuse/sha1.cpp:91-119 | At most 1024 bytes are appended to the message of the context: the state is the fold over its whole blocks, the rest is in the buffer, the counters hold its length in bits modulo 2^64. |
| `Sha1Context.Context.Pad` | Generic/CdmiFuse/sha1.cpp:131-134 | The loop of zero bytes ends after the fewest that leave eight bytes of the block. |
| `Sha1Context.Context.Final` | Generic/CdmiFuse/sha1.cpp:123-147 | The digest is that of FIPS 180-4 for the message of the context, and the context is wiped. |
| `Sha1Context.Context.HashPieces` | Generic/CdmiFuse/sha1.cpp:91-147 | The digest depends on the message alone and not on how it is cut into pieces. |
| `Sha1Message.Carry` | Generic/CdmiFuse/sha1.cpp:105-106 | The carry found by comparing the sum with the summand is the carry. |
| `Sha1Message.CountersHoldLength` | Generic/CdmiFuse/sha1.cpp:105-106 | The two counters are the length in bits modulo 2^64. |
| `Sha1Message.LengthField` | Generic/CdmiFuse/sha1.cpp:127-130 | The eight bytes taken out of the counters are the length field of section 5.1.1. |
| `Sha1Message.PadMore` | Generic/CdmiFuse/sha1.cpp:132-134 | The low counter says that 56 bytes are used exactly when the padding is complete. |
| `Hmac.Authenticator.UpdateKey` | Generic/CdmiFuse/hmac_sha1.cpp:19-71 | A key in pieces: bytes in the buffer up to 64, and a hash of all of them from the piece that passes 64 on. |
| `Hmac.Authenticator.EndKey` | Generic/CdmiFuse/hmac_sha1.cpp:73-99 | The pads are the key block of RFC 2104 section 2 XORed with 0x36 and 0x5C, though only the bytes of the key or of its hash are mixed in. |
| `Hmac.XorTable` | Generic/CdmiFuse/hmac_sha1.cpp:89-98 | The exclusive or by all combinations of two bits. |
| `Hmac.PaddingOf` | Generic/CdmiFuse/hmac_sha1.cpp:89-98 | Beyond the bytes mixed in, a filler byte is the filler XORed with the zeros of the key block. |
| `Hmac.Authenticator.StartMessage` | Generic/CdmiFuse/hmac_sha1.cpp:101-104 | The inner hash begins with the inner pad. |
| `Hmac.Authenticator.UpdateMessage` | Generic/CdmiFuse/hmac_sha1.cpp:106-108 | The text of the message grows by the piece. |
| `Hmac.Authenticator.EndMessage` | Generic/CdmiFuse/hmac_sha1.cpp:110-119 | The result is the HMAC of key and text, and the context stays keyed. |
| `Hmac.Authenticator.Authenticate` | Generic/CdmiFuse/hmac_sha1.cpp:101-119 | The HMAC of a message in any pieces, with the key of the context. |
| `Hmac.Authenticator.Done` | Generic/CdmiFuse/hmac_sha1.cpp:121-128 | The inner pad, the key and its length are cleared; the outer pad is left as it is. |
| `Hmac.AuthenticateAll` | Generic/CdmiFuse/hmac_sha1.cpp:11-119 | One key in any pieces, and message after message: each result is the HMAC of the whole key and the whole message. |
| `Hmac.HmacSha1` | Generic/CdmiFuse/hmac_sha1.cpp:130-144 | hmac_sha1 is the HMAC of its arguments. |
| `Base64Soap.Encoded` | nPVR/stdsoap2.cpp:11419-11455 | The text is the encoding of RFC 4648 section 4, in exactly the memory allocated, with its terminator. |
| `Base64Soap.Decoded` | nPVR/stdsoap2.cpp:11463-11519 | For every text without NUL the bytes written stay in the memory allocated, and the number reported is that of the bytes decoded, over blocks of 256 groups. |
| `Base64Format.CapitalIs` | nPVR/stdsoap2.cpp:11419-11455 | The first 26 letters of the alphabet are the capitals. |
| `Base64Format.SmallIs` | nPVR/stdsoap2.cpp:11419-11455 | The next 26 are the small letters. |
| `Base64Format.DigitIs` | nPVR/stdsoap2.cpp:11419-11455 | The last twelve are the digits, plus and slash. |
| `Base64Format.Vectors` | nPVR/stdsoap2.cpp:11419-11455 | The encodings of RFC 4648 section 10 with two, one and no padding characters. |
| `Base64Soap.ReadBack` | nPVR/stdsoap2.cpp:11463-11519 | Decoding undoes encoding. |
| `Base64Cdmi.Base64Encode` | Generic/CdmiFuse/base_64.cpp:112-188 | The text is the encoding of the bytes, or of the string when the size is 0, and its terminator is in the memory allocated. |
| `Base64Cdmi.AllocationHolds` | Generic/CdmiFuse/base_64.cpp:131 | insize * 4 / 3 + 4 is room for the text and its terminator. |
| `Base64Cdmi.DecodeQuantum` | Generic/CdmiFuse/base_64.cpp:28-51 | Four characters to three bytes through a search of the table, padding reading as zero bits. |
| `Base64Cdmi.Base64Decode` | Generic/CdmiFuse/base_64.cpp:53-110 | For every text without NUL: null exactly when there is no full group, otherwise the decoded bytes with a terminator, inside the memory allocated. |
| `Base64Cdmi.LastIsRead` | Generic/CdmiFuse/base_64.cpp:98-105 | The last group gives back its one or two bytes. |
| `Base64Cdmi.ReadBack` | Generic/CdmiFuse/base_64.cpp:53-110 | Both decoders undo the encoding, which is the text of both encoders. |
| `TagComparing.TagCmp` | nPVR/stdsoap2.cpp:2341-2382 | For all strings the recursive search ends, and returns 0 exactly when the decision of the program is to accept. |
| `TagPatterns.AcceptsIff` | nPVR/stdsoap2.cpp:2341-2382 | For plain patterns and names without inner stars, accepting means matching: a star is any run, a dash any character, case aside. |
| `TagPatterns.AlikeIff` | nPVR/stdsoap2.cpp:2349-2354 | Two characters are alike exactly when they are the same or a capital letter and the small one 32 above it. |
| `TagPatterns.PatternIff` | nPVR/stdsoap2.cpp:2358-2374 | The patterns that are decided right for all such names are exactly those without a star before a star or a dash. |
| `TagPatterns.NameIff` | nPVR/stdsoap2.cpp:2341-2382 | The names that are decided right for all such patterns are exactly those without a star before their last character. |
| `TagComparing.Compare` | nPVR/stdsoap2.cpp:2341-2382 | soap_tag_cmp returns 0 exactly when the name, up to a quote, matches. |
| `DimeLayout.HeaderLayout` | nPVR/stdsoap2.cpp:9304-9332 | The header has the layout of section 3.2 of draft-nielsen-dime-02: version and end flag, media type, and four lengths with the high byte first. |
| `DimeLayout.RecordLayout` | nPVR/stdsoap2.cpp:9342-9420 | Behind it lie options, id, type and data, each filled up with zeros to a multiple of four. |
| `DimeRoundTrip.RecordReadIff` | nPVR/stdsoap2.cpp:9462-9502 | A record is read back exactly when its options, id and type are shorter than 2^16 and its data than 2^31. |
| `DimeRoundTrip.HeaderRead` | nPVR/stdsoap2.cpp:9304-9332 | The twelve bytes keep 16 bits of three lengths and 32 bits of the size, with a sign. |
| `DimeRoundTrip.CountedIsLength` | nPVR/stdsoap2.cpp:9211-9222 | What is counted for an attachment is the length of its record. |
| `Dime.PutDimeHdr` | nPVR/stdsoap2.cpp:9304-9332 | The header and the three padded fields are written. |
| `Dime.PutDime` | nPVR/stdsoap2.cpp:9342-9420 | Record after record, with the end flag on the last one only; nothing outside DIME mode. |
| `Dime.CountAttachments` | nPVR/stdsoap2.cpp:9206-9222 | The count grows by exactly the bytes that soap_putdime writes, for attachments of any length. |
| `Dime.Reader.GetDimeField` | nPVR/stdsoap2.cpp:9428-9452 | A field and its padding: null for length 0, SOAP_EOF when cut off. |
| `Dime.Reader.GetDimeHdr` | nPVR/stdsoap2.cpp:9462-9502 | Version mismatch, end of input and the end of the mode as errors; the end flag ends the mode. |
| `Dime.Reader.GetDime` | nPVR/stdsoap2.cpp:9512-9602 | The next attachment goes to the end of the list. |
| `Dime.Reader.GetAll` | nPVR/stdsoap2.cpp:9512-9602 | Repeated reading gives all attachments in order and stops behind the record with the end flag. |
| `Dime.WriteAndRead` | nPVR/stdsoap2.cpp:9342-9420 | Attachments written and read back are the same, an empty string coming back as null. |
| `DispatcherSafety.ProducerKeeps` | MulticastForwarding/McastSniffer.cpp:83-114 | Each step of pushMessage, at any point of the other two threads, keeps the invariant: memory as it should be, at most 100 messages queued in the order in which they were accepted, no buffer freed twice, and a wakeup under way for whoever waits. |
| `DispatcherSafety.ConsumerWaits` | MulticastForwarding/McastSniffer.cpp:125-138 | So do the test for emptiness, the wait on an event that clears itself, and the second reset: no wakeup is lost between them. |
| `DispatcherSafety.ConsumerTakes` | MulticastForwarding/McastSniffer.cpp:141-147 | The front is there, with its buffer, and is the next message accepted and not yet delivered. |
| `DispatcherSafety.ConsumerFrees` | MulticastForwarding/McastSniffer.cpp:149-150 | Its buffer has not been freed before. |
| `DispatcherSafety.ConsumerPops` | MulticastForwarding/McastSniffer.cpp:153-154 | It is still the front when it is popped. |
| `DispatcherSafety.ControllerKeeps` | MulticastForwarding/McastSniffer.cpp:62-81 | stop, and a destructor that begins in good order, keep the invariant; the consumer is woken for good. |
| `Dispatchers.Dispatcher.Execute` | MulticastForwarding/McastSniffer.cpp:62-158 | The fields of the class after any orderly interleaving of the three threads: nothing broken, at most 100 messages in the queue, deliveries a prefix of what was accepted, no buffer freed twice, and after the destructor each one freed once. |
| `DispatcherSafety.TurnKeeps` | MulticastForwarding/McastSniffer.cpp:62-158 | Every step of every thread keeps the invariant: no lost wakeup, the bound of the queue, order of delivery, each buffer freed once. |
| `DispatcherSafety.EveryRun` | MulticastForwarding/McastSniffer.cpp:62-158 | In every orderly run memory is never misused, the queue never exceeds 100, deliveries are the first messages accepted in order, no buffer is freed twice, each one is freed once when all is closed, and a consumer waits on a clear event only if the queue is empty or somebody is about to signal. |
| `DispatcherRaces.DestructionIsSafeIff` | MulticastForwarding/McastSniffer.cpp:62-81 | For the queue and its buffers, the destructor is safe for every way the threads may go on exactly when, as it begins to empty the queue, the consumer has no message in hand and no push is under way. |
| `DispatcherRaces.SleepTooShort` | MulticastForwarding/McastSniffer.cpp:116-123 | A run in which the consumer is still with a subscriber when the destructor begins, and a buffer is freed twice. |
| `DispatcherRequests.AcceptedHold` | MulticastForwarding/McastSniffer.cpp:83-114 | After any script, what has been put in the queue is what the calls of pushMessage were given, in their order and each argument in its place: the calls with all pointers, 1 to 65536 bytes, and fewer than 100 messages waiting, and no others. |
| `DispatcherRequests.DeliveredHold` | MulticastForwarding/McastSniffer.cpp:83-158 | In every orderly run the subscribers are called with what the first of these calls were given. |
| `TunnelRuns.ConnectedKeeps` | MulticastForwarding/Tunnel.cpp:251-266 | Becoming connected keeps the invariant of both ends and both channels: the id is the first message that an endpoint sends. |
| `TunnelRuns.ArriveKeeps` | MulticastForwarding/Tunnel.cpp:268-324 | A message is taken for an id only if it is one, and data messages are taken in the order in which they were sent. |
| `TunnelRuns.ReceiveKeeps` | MulticastForwarding/Tunnel.cpp:272-387 | The id stored is that of the peer before the status lets data through, and what is delivered is the next packet forwarded at the other end. |
| `TunnelRuns.StepKeeps` | MulticastForwarding/Tunnel.cpp:400-463 | Any number of calls of forwardData, waiting, expiring, checking and sending: nothing is sent before the id of the peer is known. |
| `TunnelConnections.Link.Execute` | MulticastForwarding/Tunnel.cpp:251-463 | The fields of the two classes after any interleaving in which the reply of the server is not lost: peer ids known, ids and data kept apart, deliveries in order, and every delivery handed to all who are owners by then. |
| `TunnelEndpoints.PacketArrives` | MulticastForwarding/Tunnel.cpp:427-450 | Data and group arrive with 16 bits of the port; source and source port never do, and an unknown address family arrives as none; the version on the wire is 1. |
| `TunnelRuns.ActKeeps` | MulticastForwarding/Tunnel.cpp:251-463 | Every step of an endpoint keeps the invariant of both ends and both channels. |
| `TunnelRuns.EveryRun` | MulticastForwarding/Tunnel.cpp:251-463 | In every interleaving, expired handshakes and failed sends of data included, a READY or ACTIVE endpoint has the id of the other one, no data message is taken for an id, and the deliveries at each end are a prefix, in order, of what was forwarded at the other. |
| `TunnelOwners.OwnersAreNamed` | MulticastForwarding/Tunnel.cpp:465-483 | At any time the owners of an endpoint are those that the script has added, each once and in the order of the first calls, after the default conversation if that had to help out. |
| `TunnelOwners.EveryRoundCalls` | MulticastForwarding/Tunnel.cpp:367-381 | Every round of OnFowardedData calls goes to the owners that are named at its turn. |
| `TunnelOwners.CallsAll` | MulticastForwarding/Tunnel.cpp:367-381 | These are all who were added before, each once, in order; if there are none, the default conversation; and nobody only if there is no such conversation either. |
| `TunnelOwners.FallbackIsCalled` | MulticastForwarding/Tunnel.cpp:367-369 | A default conversation that has helped out is called ever after. |
| `TunnelRuns.LostReplyIsGoodIff` | MulticastForwarding/Tunnel.cpp:278-297 | If in any reachable world the send of the reply id fails, which the code does not notice, then peer ids, the separation of ids and data, and order of delivery hold in every continuation exactly if the handshake of the client has already expired. |
| `TunnelRuns.DataTakenForId` | MulticastForwarding/Tunnel.cpp:278-297 | A run from the start in which the first data message is taken for the id of the server, whatever the ids, if that of the server is not the version number. |

## Left out

- Sockets, SSL, zlib, DNS, timeouts, logging, plugins and fault texts: `frecv` is an arbitrary cutting of the input into non-empty pieces, and `fsend` appends all it is given.
- Failure of `malloc`: every allocation gives fresh memory. The exception is a DIME field of 2^31 bytes or more, which is not to be had.
- Generated serializers of user types: `Graph.dfy` has one node type with a value and a list of pointers, whose traversal makes the calls that `soap_outstring` makes.
- IdLinks.Soap.Lookup: does not model the fallback to "cid:" attachments, nor the contents of the objects; the hash table is a map that is walked in any order.
- IdLinks.Soap.ResolveLinks: does not model the check of the type of an object against links that are left, which only logs.
- IdLinks.Soap.Enter: the table of this model has no copies waiting, so that the clash that gives SOAP_HREF for them cannot occur; Copies.Resolver.Enter has it.
- Copies.Resolver.Forward: the level of a place is compared with that of the id and not kept. It does not model copies of pointers at a level above that of the id, nor the copy functions of user types; memory is in words, so places and objects are whole words long.
- Copies.Resolver.ResolveCopies: does not model the pointers that are put in front of a copy for a place above the level of its id (stdsoap2.cpp:1886-1893), nor `soap_update_ptrs`, which moves pointers into blocks that are copied to another place.
- Graphs.Writer.ElementId: a null pointer is always written, as in the mode SOAP_XML_NIL, since a pointer is known by its place in a list; Serializing.Serializer.PutNull has the cases of stdsoap2.cpp:6200.
- Graphs.Writer.EmbeddedId: models the mode of shared nodes in place, for an id of 0 or more; Serializing.Serializer.PutEmbeddedId has the others.
- GraphReader.TextIsRead: the table of ids is a map to nodes; GraphLinks.ReadLinks has the cells of `soap_id_lookup`.
- GraphReader.RoundTrip: null pointers are always written; text is a sequence of tokens (tags with ids, hrefs, values); how these are spelled in bytes is the subject of the two-pass and the text models. Forward references do not occur in what the writer writes.
- Attributes.AttrList.Set: does not model a prefix that is declared again with another URI, which would leave pointers to a buffer that is gone, nor prefixes that were never declared.
- XmlReading.XmlReader.StringIn: states the content of text without CDATA sections and without elements in it, since only such text is written by `soap_string_out`; the modes for wide, UTF-8 and Latin-1 strings and the limits on length are not modelled. The table of HTML entities is a parameter.
- XmlReading.XmlReader.GetAttrVal: states nothing of a value with a CDATA section in it.
- XmlReading.XmlReader.GetUtf8: states nothing of characters of several bytes that begin in a CDATA section.
- Serializing.Serializer.PutElementId: does not model arrays, whose pointers are looked up by `soap_array_pointer_lookup`.
- Serializing.ContentLength: no DIME, MIME or zlib; these change the length by other means.
- StartReading.PeekElement: values are in quotes, since only such are written; the limits on the length of a tag, a name and the fields id and href are not modelled, nor are the fields for the type, arrays, mustUnderstand and xsi:nil, which are set from the same attributes. A byte order mark is not read over, and declarations stay among the attributes.
- StartTags.EndTagIsRead: the end tag comes next; skipping elements that have not been read is not modelled.
- ElementTags.ElementIsRead: tags and names are taken to be free of blanks, quotes and markup, and the prolog to be an instruction; the code does not check either.
- ChunkReceiver.Receiver.RecvRaw: only chunked mode; the other modes hand on what `frecv` gives.
- ChunkGrammar.BodyDecoded: is about bodies whose size lines can be read; ChunkGrammar.SizeReadIff and ChunkGrammar.LastSizeReadIff say which those are.
- Sha1Context.Context.Update: pieces are at most 1024 bytes, the size of the copy that the function makes; a machine that is not big-endian is taken.
- Hmac.HmacSha1: key and text of at most 1024 bytes each, for the same reason.
- `soap_putbase64` and `soap_getbase64`, which make the same groups of four characters as the two coders modelled, through the output and the token reader.
- Base64Soap.Encoded: memory is the function's own; a buffer of the caller is trusted by the code to be large enough.
- Base64Soap.Decoded: memory is the function's own, so that the early return for a buffer that is full is never taken.
- Base64Cdmi.DecodeQuantum: bit masks and shifts are written as divisions and remainders; the sum is not cut to the width of a long, which four characters do not exceed.
- Dime.PutDime: does not model attachments that are read through `fdimeread` as they are sent.
- Dime.Reader.GetDimeHdr: does not model the records that continue a chunked one (stdsoap2.cpp:9470-9476).
- Dime.Reader.GetDime: no chunked and no streamed records; a chunk flag gives an error of the model.
- `soap_element_dime` and MIME parts, whose boundary search replays a failed partial match without looking at it again.
- `soap_hex2s`, which reports half of the bytes it writes, and cookies, whose values are not escaped.
- TagComparing.TagCmp: bytes are characters, and a character with the high bit is compared as it is.
- DispatcherSafety.ConsumerWaits: a wait can only fail because the handle has been closed.
- DispatcherRaces.DestructionIsSafeIff: the fields of the dispatcher are taken to outlive its threads; in the source a consumer that has not returned reads them after the destructor.
- DispatcherSafety.EveryRun: one producer, as the sniffer thread is the only caller of `pushMessage`, and runs in which the destructor begins in good order; `DispatcherRaces.DestructionIsSafeIff` is about the others.
- DispatcherSafety.ProducerKeeps: the size test and the push are one access each to the queue, whose own races are not modelled.
- `MulticastForwarding/McastSniffer2.cpp`: with several consumers more than one can pass the emptiness test for one message.
- TunnelRuns.EveryRun: requires that the id of the server is sent; one client and one accepted connection, without failover, reconnection or closing.
- TunnelRuns.ReceiveKeeps: addresses on the wire are family, bits and port, since the layout of `saddr_t` is in a header that is not part of this model; a message with another type than data is taken and dropped.
- The search for duplicate tunnels, removal of owners, and the establishing and failing over of tunnels: they change lists while walking over them, and what they aim at depends on timing.
- `URLStr`, `NodePath`, `UniqueId`, `FormatString`, `DenyList`: easy members, some of which rest on libraries that are not part of this model.
- `CURLClient`, `Alarm`, `SystemInfo`, `Thread` and the CDMI and index headers: wrappers of system calls, and declarations without bodies.
