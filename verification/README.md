# Terminator: verified models of its core algorithms

Terminator is a record, replay and stub proxy for HTTP. This project models the self-contained algorithms it carries, in
Dafny, and proves what they promise. `dafny verify dfyconfig.toml` checks everything.

- **HTTP headers** (`HeaderNames`, `HeaderFields`, `HttpHeaders`, `KeepAlive`). A hash table of 17 chains whose nodes
  are also linked into a ring. The classes change `next`, `before` and `after` in place; `Valid` says that each chain is
  the bucket's entries, newest first, and the ring all entries, oldest first. Every operation is proved against a list
  of fields, whose names are compared ignoring ASCII case. The comment in the code says that `getHeader` returns the
  first value; the code returns the last one, and so does the model (`LatestIsNotFirst`). Which calls leave it right is
  proved exactly (`DocumentedIffHarmless`).
- **MD5** (`Bits`, `Rfc1321`, `SineTable`, `Md5Words`, `Md5`). `Rfc1321` is the algorithm of RFC 1321, sections 3.1 to
  3.5, over 32-bit words; that its constants are sines is proved by interval arithmetic over integers (`SineTable`). The
  class computes in 64-bit longs that are never masked, with casts to `int` in the rotations; every working variable is
  proved to agree with the specification modulo 2^32. The digest is right for every length a Java array can have.
  Cutting an input in two changes neither state nor pending bytes, but may change the counters: it is proved for which
  lengths it does (`CountsAddUpIff`).
- **jQuery Callbacks, Deferred and when** (`CallbackMachine`, `CallbackProofs`, `CallbackTurns`, `CallbackFires`,
  `CallbackMemory`, `Callbacks`, `DeferredMachine`, `DeferredProofs`, `DeferredProgress`, `Deferreds`, `WhenMachine`,
  `WhenProofs`, `WhenOutcome`, `Whens`). State machines whose steps are the calls that user code makes, from outside or
  from a running callback, to any depth. They carry history (what was added, called, asked for), so that statements
  about whole runs can be made. The classes have the closure variables of the source and are proved equal to the
  machines step by step. What becomes of every fire, notification and value is stated by the calls of a run alone,
  without the machine's own records (`CallbackFires`, `DeferredProgress`, `WhenOutcome`).
- **mustache.js** (`MustacheTokens`, `MustacheRender`, `MustacheContext`, `MustacheScanner`, `MustacheLines`,
  `MustacheParse`, `MustacheMeaning`, `MustacheTags`, `MustacheWriter`). Scanner, tokenizer with the removal of
  standalone lines, token squashing, nesting, lookup with its cache, compiled sections with their memo tables, and the
  template cache. The compiled form renders what a direct reading of the characters and tags gives; what each kind of
  tag renders is stated apart from both (`MustacheTags`). The template cache forgets the tags; it is proved exactly when
  that shows.
- **json2.js** (`JsonText`, `JsonStringify`, `JsonRoundTrip`, `JsonLayout`). `JsonText` is a parser for RFC 8259,
  sections 2 to 7; what `stringify` writes parses back to the value for every value if and only if the indentation is
  white space. `JsonLayout` has what the parser does not see: lines, indentation, and which characters are escaped.
- **Base64ForAPP** (`Base64`, `Base64Format`), **CipherUtil** (`CipherBlocks`), **FileStorage** (`DataIndex`,
  `FileStorage`, `StorageRuns`) and **AbstractChannelBuffer** (`ByteOrder`, `ByteQueue`, `ChannelBuffer`): an encoder
  and a decoder that undo each other, and what the decoder makes of any other text, block chunking that inverts under an
  inverse cipher, a file with an index table that refines a list of records, and a byte queue that gives back what was
  put in, however writes and reads are interleaved.

Text is a sequence of UTF-16 code units (`JavaText`), because Java's and JavaScript's strings may hold single
surrogates. What the code calls but does not contain is a parameter: the checks of HttpCodecUtil (`Validator`), the
properties of views and the functions in them (`Env`), ciphers (`Cipher`), Java serialization (`Serializer`), and the
collation of the database (`Collation`).

## Model
| member | source | states |
|---|---|---|
| HeaderNames.Hash | src/org/jboss/netty/handler/codec/http/HttpHeaders.java:782-799 | the loop over the name gives the specified hash, never negative |
| HeaderNames.AccumulatedIsPolynomial | src/org/jboss/netty/handler/codec/http/HttpHeaders.java:782-799 | the 32-bit accumulation is the base-31 polynomial of the lower-cased name modulo 2^32 |
| HeaderNames.PolynomialSplits | src/org/jboss/netty/handler/codec/http/HttpHeaders.java:782-799 | in it each character counts with the power of 31 of its position, A to Z with the codes of a to z |
| HeaderNames.Eq | src/org/jboss/netty/handler/codec/http/HttpHeaders.java:801-823 | true exactly if the names have the same length and at each position the same character, or a letter A to Z and the same letter a to z |
| HeaderNames.SameNameIff | src/org/jboss/netty/handler/codec/http/HttpHeaders.java:801-823 | folding makes exactly those names equal that differ in the case of ASCII letters only |
| HeaderNames.SameNameSameHash | src/org/jboss/netty/handler/codec/http/HttpHeaders.java:782-827 | names that are eq have the same hash, so they fall into the same bucket |
| HeaderNames.SameNameIsEquivalence | src/org/jboss/netty/handler/codec/http/HttpHeaders.java:801-823 | eq is reflexive, symmetric and transitive |
| HeaderNames.BucketOf | src/org/jboss/netty/handler/codec/http/HttpHeaders.java:825-827 | the index of a hash is one of the 17 buckets |
| HeaderFields.OperationsArePerName | src/org/jboss/netty/handler/codec/http/HttpHeaders.java:840-941 | what any operation does to the values of a name depends only on the values that name had before |
| HeaderFields.RunIsPerName | src/org/jboss/netty/handler/codec/http/HttpHeaders.java:840-941 | the same for whole runs: each name has its own history |
| HeaderFields.LookupIgnoresCase | src/org/jboss/netty/handler/codec/http/HttpHeaders.java:943-978 | eq names find the same values |
| HeaderFields.ValuesAfterRemove | src/org/jboss/netty/handler/codec/http/HttpHeaders.java:860-903 | removing a name empties exactly its own values and leaves all others in order |
| HeaderFields.FoundUnder | src/org/jboss/netty/handler/codec/http/HttpHeaders.java:840-959 | a value that is added is found again under exactly the names that agree with its own letter for letter, in either case |
| HeaderFields.AddAppends | src/org/jboss/netty/handler/codec/http/HttpHeaders.java:840-858 | add appends one field, spelt as given, if and only if name and value pass the checks; otherwise nothing changes |
| HeaderFields.SetReplaces | src/org/jboss/netty/handler/codec/http/HttpHeaders.java:905-913 | set leaves one value under every spelling of the name and the values of other names, if and only if name and value pass; otherwise nothing changes |
| HeaderFields.RemoveEmpties | src/org/jboss/netty/handler/codec/http/HttpHeaders.java:860-903 | remove takes all values under every spelling of the name, and no others |
| HeaderFields.SetManyStores | src/org/jboss/netty/handler/codec/http/HttpHeaders.java:915-934 | of several values those in front of the first that is null or rejected are stored; the outcome tells whether one was rejected; of a rejected name nothing changes |
| HeaderFields.DocumentedIffHarmless | src/org/jboss/netty/handler/codec/http/HttpHeaders.java:536-559 | after an operation getHeader gives the first of the values, as documented, if and only if the call passes a guard: a value added under the name is its only one or equals its first; of several values set, the first and the last stored are equal; setting one value, removing the name and clearing always pass, and what concerns another name changes nothing |
| HeaderFields.SetOnlyIsDocumented | src/org/jboss/netty/handler/codec/http/HttpHeaders.java:536-559 | a table that is only set, removed from and cleared meets the documentation for every name |
| HeaderFields.LatestIsNotFirst | src/org/jboss/netty/handler/codec/http/HttpHeaders.java:536-559 | two different values of one name for which the documentation is wrong |
| HttpHeaders.HeaderEntry.Remove | src/org/jboss/netty/handler/codec/http/HttpHeaders.java:1029-1032 | the neighbours of the entry point at each other |
| HttpHeaders.HeaderEntry.RemoveNext | src/org/jboss/netty/handler/codec/http/HttpHeaders.java:896-898 | the next entry leaves chain and ring |
| HttpHeaders.HeaderEntry.AddBefore | src/org/jboss/netty/handler/codec/http/HttpHeaders.java:1034-1039 | the entry stands between the given one and its former predecessor |
| HttpHeaders.HttpHeaders.constructor | src/org/jboss/netty/handler/codec/http/HttpHeaders.java:829-834 | an empty table: valid, no fields |
| HttpHeaders.HttpHeaders.AddHeader0 | src/org/jboss/netty/handler/codec/http/HttpHeaders.java:849-858 | chains and ring stay valid; the field comes last |
| HttpHeaders.HttpHeaders.RemoveHeader0 | src/org/jboss/netty/handler/codec/http/HttpHeaders.java:869-903 | both loops end, keep chains and ring valid, and delete exactly the eq-named fields, the rest in order |
| HttpHeaders.HttpHeaders.RemoveRest | src/org/jboss/netty/handler/codec/http/HttpHeaders.java:891-902 | the second loop deletes every eq-named entry behind a node that stays |
| HttpHeaders.HttpHeaders.AddHeader | src/org/jboss/netty/handler/codec/http/HttpHeaders.java:840-847 | the specified list operation, including what is rejected |
| HttpHeaders.HttpHeaders.RemoveHeader | src/org/jboss/netty/handler/codec/http/HttpHeaders.java:860-867 | the specified list operation |
| HttpHeaders.HttpHeaders.SetHeader | src/org/jboss/netty/handler/codec/http/HttpHeaders.java:905-913 | all old values go, the new one comes last; nothing changes if it is rejected |
| HttpHeaders.HttpHeaders.SetHeaderAll | src/org/jboss/netty/handler/codec/http/HttpHeaders.java:915-934 | old values go; the new ones are added up to the first null or rejected one |
| HttpHeaders.HttpHeaders.ClearHeaders | src/org/jboss/netty/handler/codec/http/HttpHeaders.java:936-941 | valid and empty |
| HttpHeaders.HttpHeaders.GetHeader | src/org/jboss/netty/handler/codec/http/HttpHeaders.java:943-959 | the value added last under an eq name |
| HttpHeaders.HttpHeaders.GetHeaders | src/org/jboss/netty/handler/codec/http/HttpHeaders.java:961-978 | all values of the name, oldest first |
| HttpHeaders.HttpHeaders.ContainsHeader | src/org/jboss/netty/handler/codec/http/HttpHeaders.java:992-994 | whether the name has a value |
| HttpHeaders.HttpHeaders.GetAllHeaders | src/org/jboss/netty/handler/codec/http/HttpHeaders.java:980-990 | all entries in the order they were added |
| HttpHeaders.HttpHeaders.Perform | src/org/jboss/netty/handler/codec/http/HttpHeaders.java:829-941 | after any series of operations the table is valid and holds what the list of fields holds |
| HttpHeaders.BucketDrop | src/org/jboss/netty/handler/codec/http/HttpHeaders.java:869-903 | dropping one live entry drops one node of its own chain and touches no other chain |
| HttpHeaders.ChainValuesAreAll | src/org/jboss/netty/handler/codec/http/HttpHeaders.java:961-978 | the values collected from one chain are all values of the name in the table |
| KeepAlive.HttpMessage.IsKeepAlive | src/org/jboss/netty/handler/codec/http/HttpHeaders.java:487-498 | the decision from the latest Connection value and the version's default |
| KeepAlive.HttpMessage.SetKeepAlive | src/org/jboss/netty/handler/codec/http/HttpHeaders.java:519-533 | the Connection field is set or removed as the version's default requires |
| KeepAlive.IsKeepAliveAfterSet | src/org/jboss/netty/handler/codec/http/HttpHeaders.java:487-533 | after setKeepAlive(b) isKeepAlive is b, and no other name has changed |
| KeepAlive.CloseIsSpelt | src/org/jboss/netty/handler/codec/http/HttpHeaders.java:487-498 | the texts taken for "close", letter by letter, with the long s that equalsIgnoreCase takes for an s |
| KeepAlive.KeepAliveIsSpelt | src/org/jboss/netty/handler/codec/http/HttpHeaders.java:487-498 | the texts taken for "keep-alive", letter by letter, with the Kelvin sign and the Turkish letters i |
| KeepAlive.ConnectionIsSpelt | src/org/jboss/netty/handler/codec/http/HttpHeaders.java:487-533 | the header is called Connection, in any case; without one the default of the version decides |
| KeepAlive.HttpMessage.SetAndAsk | src/org/jboss/netty/handler/codec/http/HttpHeaders.java:487-533 | an accepted setKeepAlive(b) on the object is read back as b, no other name has changed, and a rejected one changes nothing |
| KeepAlive.HttpMessage.MakeSetAndAsk | src/org/jboss/netty/handler/codec/http/HttpHeaders.java:487-533 | the same for a message that has just been made |
| Md5Words.LowOfAuxiliary | src/com/baidu/terminator/plugin/signer/algorithm/MD5.java:74-90 | F, G, H and I on longs agree with the round functions of RFC 1321 in their low 32 bits |
| Md5Words.LowOfRotated | src/com/baidu/terminator/plugin/signer/algorithm/MD5.java:92-118 | the two int shifts are the rotation of the low word, though the cast may be negative |
| Md5Words.LowOfMixed | src/com/baidu/terminator/plugin/signer/algorithm/MD5.java:92-118 | one FF, GG, HH or II step on unmasked longs is the step of RFC 1321 modulo 2^32 |
| Md5Words.MixingsRefineOperations | src/com/baidu/terminator/plugin/signer/algorithm/MD5.java:184-260 | so are any number of steps |
| Md5Words.TransformedRefinesCompress | src/com/baidu/terminator/plugin/signer/algorithm/MD5.java:184-267 | so is the whole transform with the final additions |
| Md5Words.AbsorbLongsRefinesAbsorb | src/com/baidu/terminator/plugin/signer/algorithm/MD5.java:120-153 | so is the absorption of any number of blocks |
| Md5.Md5.FF | src/com/baidu/terminator/plugin/signer/algorithm/MD5.java:92-97 | the step with F |
| Md5.Md5.GG | src/com/baidu/terminator/plugin/signer/algorithm/MD5.java:99-104 | the step with G |
| Md5.Md5.HH | src/com/baidu/terminator/plugin/signer/algorithm/MD5.java:106-111 | the step with H |
| Md5.Md5.II | src/com/baidu/terminator/plugin/signer/algorithm/MD5.java:113-118 | the step with I |
| Md5.Md5.Round1 | src/com/baidu/terminator/plugin/signer/algorithm/MD5.java:190-206 | the first 16 calls are steps 1 to 16 |
| Md5.Md5.Round2 | src/com/baidu/terminator/plugin/signer/algorithm/MD5.java:208-224 | the next 16 calls are steps 17 to 32 |
| Md5.Md5.Round3 | src/com/baidu/terminator/plugin/signer/algorithm/MD5.java:226-242 | the next 16 calls are steps 33 to 48 |
| Md5.Md5.Round4 | src/com/baidu/terminator/plugin/signer/algorithm/MD5.java:244-260 | the last 16 calls are steps 49 to 64 |
| Md5.Md5.Transform | src/com/baidu/terminator/plugin/signer/algorithm/MD5.java:184-267 | the state absorbs one block; nothing else changes |
| Md5.Md5.Memcpy | src/com/baidu/terminator/plugin/signer/algorithm/MD5.java:175-182 | exactly the named stretch is overwritten; the exception for a stretch that leaves one of the arrays |
| Md5.Md5.Encode | src/com/baidu/terminator/plugin/signer/algorithm/MD5.java:269-278 | the low 32 bits of each long, least significant byte first |
| Md5.Md5.Decode | src/com/baidu/terminator/plugin/signer/algorithm/MD5.java:280-293 | each four bytes, unsigned and least significant first, as one long |
| Md5.DecodeUndoesEncode | src/com/baidu/terminator/plugin/signer/algorithm/MD5.java:269-293 | decoding four bytes of an encoded word gives the word, and encoding a decoded one gives the bytes |
| Md5.ByteToLongIsUnsigned | src/com/baidu/terminator/plugin/signer/algorithm/MD5.java:291-293 | b2iu, with Java's precedence of + over &, is the unsigned value of the byte |
| Md5.Md5.Init | src/com/baidu/terminator/plugin/signer/algorithm/MD5.java:61-72 | nothing absorbed, counters 0, the state of RFC 1321, section 3.3 |
| Md5.Md5.Update | src/com/baidu/terminator/plugin/signer/algorithm/MD5.java:120-153 | the data absorbed grows by the input; state, counters and pending bytes follow it; ArrayIndexOutOfBoundsException exactly if the input is shorter than the length given, or bytes are pending and the loop index wraps around |
| Md5.Md5.UpdateBuffer | src/com/baidu/terminator/plugin/signer/algorithm/MD5.java:131-151 | the buffering part of the same, exceptions included |
| Md5.Md5.TakeBlocks | src/com/baidu/terminator/plugin/signer/algorithm/MD5.java:134-142 | where a block can be completed, that one and all whole blocks of the input are absorbed, exceptions included |
| Md5.Md5.CompleteBlock | src/com/baidu/terminator/plugin/signer/algorithm/MD5.java:134-136 | the first bytes of the input complete the pending block, which is absorbed |
| Md5.Md5.UpdateBlocks | src/com/baidu/terminator/plugin/signer/algorithm/MD5.java:138-142 | the loop absorbs all whole blocks behind the first and tells where it stopped, or runs over the end of the input |
| Md5.Md5.AddToCount | src/com/baidu/terminator/plugin/signer/algorithm/MD5.java:125-129 | the two counters, with the int shift and the carry as written |
| Md5.Md5.UpdateTwice | src/com/baidu/terminator/plugin/signer/algorithm/MD5.java:120-153 | updating with a and then with b absorbs a followed by b, and fails exactly if one of the two updates does |
| Md5.AgreeOnAbsorbed | src/com/baidu/terminator/plugin/signer/algorithm/MD5.java:120-153 | two objects that have absorbed the same data, in whatever chunks, have the same state and the same pending prefix |
| Md5.TwoUpdatesLikeOne | src/com/baidu/terminator/plugin/signer/algorithm/MD5.java:120-153 | an object updated with a and then b and one updated once with both have the same state and pending bytes, and the same counters if and only if the cut does not show in them, which it never does below 2^28 bytes |
| Md5.CountsAddUpIff | src/com/baidu/terminator/plugin/signer/algorithm/MD5.java:125-129 | cutting an input in two leaves the counters as they are if and only if a condition on the two lengths modulo 2^29 holds, for all lengths whose sum is an int |
| Md5.CountsAddUp | src/com/baidu/terminator/plugin/signer/algorithm/MD5.java:125-129 | below 2^28 bytes, those absorbed before included, the counters never depend on chunking |
| Md5.CountsDependOnChunks | src/com/baidu/terminator/plugin/signer/algorithm/MD5.java:125-129 | so two chunks of 2^27 bytes give other counters than one of 2^28 |
| Md5.CountBytesAreLength | src/com/baidu/terminator/plugin/signer/algorithm/MD5.java:155-168 | the eight encoded bytes are the bit length of one update of any int length, modulo 2^64 |
| Md5.Md5.Final | src/com/baidu/terminator/plugin/signer/algorithm/MD5.java:155-173 | the digest of what was absorbed, padded and with its counters appended |
| Md5.Md5.GetMD5ofStr | src/com/baidu/terminator/plugin/signer/algorithm/MD5.java:50-59 | lower-case hexadecimal of the RFC 1321 digest of the first charCount bytes, for every charCount; the exception exactly if there are fewer bytes than that |
| Md5.Md5.DigestHex | src/com/baidu/terminator/plugin/signer/algorithm/MD5.java:54-58 | two digits for each byte, in order |
| Md5.HexAsListed | src/com/baidu/terminator/plugin/signer/algorithm/MD5.java:295-303 | digits 2i and 2i + 1 are the high and the low nibble of byte i, as characters 0 to 9 and a to f |
| Rfc1321.Round1AsListed | src/com/baidu/terminator/plugin/signer/algorithm/MD5.java:191-206 | function, words and shifts of the 16 operations of round 1, as RFC 1321, section 3.4, lists them |
| Rfc1321.Round2AsListed | src/com/baidu/terminator/plugin/signer/algorithm/MD5.java:209-224 | the same for round 2 |
| Rfc1321.Round3AsListed | src/com/baidu/terminator/plugin/signer/algorithm/MD5.java:227-242 | the same for round 3 |
| Rfc1321.Round4AsListed | src/com/baidu/terminator/plugin/signer/algorithm/MD5.java:245-260 | the same for round 4 |
| Rfc1321.ShiftsRepeat | src/com/baidu/terminator/plugin/signer/algorithm/MD5.java:13-31 | within a round the four shifts repeat |
| Rfc1321.FunctionsAsListed | src/com/baidu/terminator/plugin/signer/algorithm/MD5.java:74-91 | the four functions, bit by bit |
| Rfc1321.RegistersAsListed | src/com/baidu/terminator/plugin/signer/algorithm/MD5.java:66-69 | the four registers at the beginning, byte by byte |
| Rfc1321.PaddedAsListed | src/com/baidu/terminator/plugin/signer/algorithm/MD5.java:155-168 | a message is followed by a bit 1, the fewest bits 0 that leave 64 bits to a multiple of 512, and its length in bits |
| SineTable.ConstantsAreSines | src/com/baidu/terminator/plugin/signer/algorithm/MD5.java:191-260 | the 64 constants are 4294967296 times the absolute value of the sine of 1 to 64, rounded down, for any sine and cosine that satisfy the addition formulas and the bounds of their series at 1 |
| CallbackProofs.AfterKeepsInv | WebContent/resources/js/jquery-1.7.2.js:1066-1197 | every step keeps the invariant: firingLength is the length of the list, and what is due is what has run followed by the rest of the list |
| CallbackProofs.Run | WebContent/resources/js/jquery-1.7.2.js:1022-1210 | the invariant holds after every run of re-entrant calls |
| CallbackProofs.NextIsFirstDue | WebContent/resources/js/jquery-1.7.2.js:1066-1080 | during a firing the next callback called is the first due one that has not run; at the end every due one has run once, in order |
| CallbackProofs.RemoveFromFilters | WebContent/resources/js/jquery-1.7.2.js:1116-1145 | remove takes every occurrence of the function out of the list, also in unique mode |
| CallbackProofs.RemoveCancelsPendingTurns | WebContent/resources/js/jquery-1.7.2.js:1122-1140 | during a firing it cancels exactly the turns that have not come; none is skipped or repeated because of it |
| CallbackProofs.AfterAttributes | WebContent/resources/js/jquery-1.7.2.js:1066-1092 | every step keeps that the running firing and the remembered arguments are those of the fire that began last, and that the log takes the fires in order |
| CallbackProofs.PushAppends | WebContent/resources/js/jquery-1.7.2.js:1045-1064 | add appends the functions, nested arrays included; during a firing they become due behind the others |
| CallbackFires.FiresInOrder | WebContent/resources/js/jquery-1.7.2.js:1081-1092 | the calls in the log take the contexts and arguments of the fires that have begun, in order; these are a beginning of the fires called for, up to locking or disabling; on an open list that may fire again, when no callback is running, every fire called for has begun; a once list begins exactly the first |
| CallbackFires.RequestedIsHeard | WebContent/resources/js/jquery-1.7.2.js:1186-1197 | the fires that a list accepts are exactly those called for before it is locked or disabled, whether a callback was running or not; of a once list, the first |
| CallbackFires.NextFireBegins | WebContent/resources/js/jquery-1.7.2.js:1066-1092 | when the last callback returns, the fire that has waited longest begins with the whole list |
| CallbackFires.FiringStops | WebContent/resources/js/jquery-1.7.2.js:1066-1092 | with no fire waiting the firing ends: nobody else is called, also where a callback has stopped it; a once list is emptied, or disabled if it remembers nothing |
| CallbackFires.StoppedAddCallsNobody | WebContent/resources/js/jquery-1.7.2.js:1045-1064 | where no fire is remembered, add calls nobody |
| CallbackFires.DisabledForever | WebContent/resources/js/jquery-1.7.2.js:1165-1169 | a disabled list calls nobody, whatever is called on it |
| CallbackFires.ClosedLists | WebContent/resources/js/jquery-1.7.2.js:1165-1181 | disable disables; lock disables a list that remembers no fire, and leaves the callbacks of any other |
| CallbackFires.AddedAreInList | WebContent/resources/js/jquery-1.7.2.js:1045-1064 | after add the list holds what it held and the functions among the arguments, at any depth of arrays; in unique mode none twice |
| CallbackMemory.RemembersLast | WebContent/resources/js/jquery-1.7.2.js:1066-1098 | over whole runs a list with memory remembers the fire that began last, until it is disabled or a callback stops a firing; one without remembers none |
| CallbackMemory.LateIsCalled | WebContent/resources/js/jquery-1.7.2.js:1045-1064 | a function added to a list that remembers a fire, while none runs, is called at once, once, with that fire |
| CallbackTurns.StepIsTurn | WebContent/resources/js/jquery-1.7.2.js:1045-1197 | during a firing every step is a step of a schedule without indices: who has run, who waits, who is in the list |
| CallbackTurns.FiringKeepsTurns | WebContent/resources/js/jquery-1.7.2.js:1045-1197 | so is any run of steps, as long as the firing goes on |
| CallbackTurns.RemoveIsLeave | WebContent/resources/js/jquery-1.7.2.js:1116-1145 | remove with any number of functions takes these out of the list and out of those who wait, and touches nobody else |
| CallbackTurns.FiringBegins | WebContent/resources/js/jquery-1.7.2.js:1066-1080 | a fire begins with the first function running and all others waiting, in order |
| CallbackTurns.AddBegins | WebContent/resources/js/jquery-1.7.2.js:1097-1114 | add to a list that remembers begins a firing of exactly what it adds |
| CallbackTurns.EachTurnComesOnce | WebContent/resources/js/jquery-1.7.2.js:1066-1145 | whatever is called during a firing, every callback that waits, from the beginning or added since, has run by its end if and only if its function was not removed before its turn; none runs twice |
| CallbackTurns.RunGoesOn | WebContent/resources/js/jquery-1.7.2.js:1022-1210 | the steps of a firing are a part of a run of the list |
| Callbacks.Callbacks.AddAll | WebContent/resources/js/jquery-1.7.2.js:1045-1064 | the recursive add refines the machine's |
| Callbacks.Callbacks.Add | WebContent/resources/js/jquery-1.7.2.js:1097-1114 | add joins the current firing, or fires at once with the remembered arguments |
| Callbacks.Callbacks.Has | WebContent/resources/js/jquery-1.7.2.js:1147-1158 | whether the function is in the list |
| Callbacks.Callbacks.Fire | WebContent/resources/js/jquery-1.7.2.js:1066-1080 | fire up to the first callback refines the machine's |
| Callbacks.Callbacks.LoopTest | WebContent/resources/js/jquery-1.7.2.js:1074-1074 | the loop test calls the next callback or leaves the loop |
| Callbacks.Callbacks.LoopEnd | WebContent/resources/js/jquery-1.7.2.js:1080-1092 | what happens behind the loop: the next waiting fire, or the list is emptied or disabled |
| Callbacks.Callbacks.CallbackReturned | WebContent/resources/js/jquery-1.7.2.js:1074-1079 | the callback returns, with false or not |
| Callbacks.Callbacks.FireWith | WebContent/resources/js/jquery-1.7.2.js:1186-1197 | a fire starts, waits or is refused |
| Callbacks.Callbacks.Remove | WebContent/resources/js/jquery-1.7.2.js:1116-1145 | remove with its index adjustments refines the machine's |
| Callbacks.Callbacks.RemoveOne | WebContent/resources/js/jquery-1.7.2.js:1122-1141 | the inner loop |
| Callbacks.Callbacks.SpliceAt | WebContent/resources/js/jquery-1.7.2.js:1125-1134 | one element goes; firingLength and firingIndex are corrected |
| Callbacks.Callbacks.Disable | WebContent/resources/js/jquery-1.7.2.js:1165-1168 | list, stack and memory are gone |
| Callbacks.Callbacks.Lock | WebContent/resources/js/jquery-1.7.2.js:1174-1180 | no further fires; disabled if nothing is remembered |
| DeferredProofs.DAfterKeeps | WebContent/resources/js/jquery-1.7.2.js:1220-1311 | every step keeps the Deferred's invariant and no step changes an outcome |
| DeferredProofs.SettlesOnce | WebContent/resources/js/jquery-1.7.2.js:1297-1302 | once settled, state and arguments are the same after any further run |
| DeferredProofs.FirstSettleWins | WebContent/resources/js/jquery-1.7.2.js:1292-1302 | the first resolve or reject of a run decides the outcome and its arguments |
| DeferredProofs.NotifyIgnored | WebContent/resources/js/jquery-1.7.2.js:1298-1302 | after settling, notify changes nothing |
| DeferredProofs.LaterFireIgnored | WebContent/resources/js/jquery-1.7.2.js:1186-1197 | after settling, neither do resolve and reject |
| DeferredProofs.NothingIsLost | WebContent/resources/js/jquery-1.7.2.js:1230-1249 | unless the other side wins, a list has been given every function of the run, in order |
| DeferredProofs.EachCallbackOnce | WebContent/resources/js/jquery-1.7.2.js:1220-1311 | when a run has settled and nothing is running, the callbacks called are exactly those added before, during and after, each once, in order, with the arguments of the first settle; none of the other side was called |
| DeferredProofs.PendingUntilSettled | WebContent/resources/js/jquery-1.7.2.js:1220-1311 | a run without resolve and reject leaves the state pending |
| DeferredProgress.ProgressIsRun | WebContent/resources/js/jquery-1.7.2.js:1220-1311 | over every run of a Deferred its progress list is a callback list with memory on which progress adds, notify fires and the first settle locks |
| DeferredProgress.EachNotification | WebContent/resources/js/jquery-1.7.2.js:1223-1229 | while pending, every notification is heard and every function given to progress is added; the calls take the notifications in order, and when none is running all have begun |
| DeferredProgress.NotifyBegins | WebContent/resources/js/jquery-1.7.2.js:1223-1229 | a notification calls the first progress callback with its context and arguments, and makes all others wait for their turn |
| DeferredProgress.EachProgressCallback | WebContent/resources/js/jquery-1.7.2.js:1223-1311 | a progress callback that waits during a notification has been called with it, once, when nobody waits any more |
| DeferredProgress.LateProgress | WebContent/resources/js/jquery-1.7.2.js:1223-1229 | a progress callback added while pending is called at once with the last notification, if there has been one, and otherwise not |
| Deferreds.DeferredObject.constructor | WebContent/resources/js/jquery-1.7.2.js:1220-1311 | the three lists with the Deferred's own callbacks |
| Deferreds.DeferredObject.CallOwn | WebContent/resources/js/jquery-1.7.2.js:1297-1302 | the state change, the disabling of the other list, the locking of progress |
| Deferreds.DeferredObject.FireList | WebContent/resources/js/jquery-1.7.2.js:1292-1295 | resolve, reject and notify refine the machine |
| Deferreds.DeferredObject.AddTo | WebContent/resources/js/jquery-1.7.2.js:1230-1233 | done, fail and progress refine the machine |
| Deferreds.DeferredObject.CallbackReturned | WebContent/resources/js/jquery-1.7.2.js:1074-1079 | a user callback returns to the innermost loop |
| Deferreds.DeferredObject.Perform | WebContent/resources/js/jquery-1.7.2.js:1220-1311 | any run of calls on the object is the run of the machine |
| WhenProofs.WAfterKeeps | WebContent/resources/js/jquery-1.7.2.js:1314-1354 | every step keeps: count is the number of arguments without their final value, each value in its position |
| WhenProofs.WhenSettlesOnce | WebContent/resources/js/jquery-1.7.2.js:1314-1354 | the outcome of when is reached at most once |
| WhenProofs.ResolvedIffAllFulfilled | WebContent/resources/js/jquery-1.7.2.js:1325-1349 | when has resolved if and only if every promise has, with the i-th value in position i, whatever the order |
| WhenProofs.RejectedIffSomeBroken | WebContent/resources/js/jquery-1.7.2.js:1341-1342 | it is rejected if and only if some promise is |
| WhenProofs.FirstBreakDecides | WebContent/resources/js/jquery-1.7.2.js:1341-1342 | with the context and arguments of the first rejection |
| WhenOutcome.DeliversWhatCame | WebContent/resources/js/jquery-1.7.2.js:1325-1332 | in the outcome position i is what promise i was resolved with: one value as it is, several as an array, none as undefined |
| WhenOutcome.DeliversPlainValues | WebContent/resources/js/jquery-1.7.2.js:1314-1349 | an argument that is no promise is delivered as it is |
| WhenOutcome.BrokenIsRejected | WebContent/resources/js/jquery-1.7.2.js:1341-1342 | a promise that is rejected rejects the whole, whatever came before and comes after |
| WhenOutcome.TellsWhatCame | WebContent/resources/js/jquery-1.7.2.js:1333-1338 | in the array of progress values position i is what promise i notified with last, in the same form, and undefined if it has not |
| WhenOutcome.NotificationPassesOn | WebContent/resources/js/jquery-1.7.2.js:1333-1338 | while pending, a notification of a promise fires the progress callbacks of the whole with that array |
| Whens.WhenCall.Visit | WebContent/resources/js/jquery-1.7.2.js:1340-1346 | one round of the loop |
| Whens.WhenCall.Finish | WebContent/resources/js/jquery-1.7.2.js:1347-1349 | the test behind the loop; resolving again changes nothing |
| Whens.WhenCall.Resolved | WebContent/resources/js/jquery-1.7.2.js:1325-1332 | the value is stored in its position and the last one resolves |
| Whens.WhenCall.Rejected | WebContent/resources/js/jquery-1.7.2.js:1342-1342 | the first rejection rejects |
| Whens.WhenCall.Progressed | WebContent/resources/js/jquery-1.7.2.js:1333-1338 | the progress value is stored and everyone is notified |
| MustacheTokens.NestTokens | WebContent/resources/js/mustache.js:379-426 | the loop returns the tree, or throws the error, that the specification gives |
| MustacheTokens.NestIffEmit | WebContent/resources/js/mustache.js:379-426 | a tree is returned if and only if flattening it, a close tag after each section, gives the tokens back |
| MustacheTokens.UnopenedIff | WebContent/resources/js/mustache.js:397-399 | "Unopened section" if and only if a close tag comes behind a balanced beginning |
| MustacheTokens.UnclosedIff | WebContent/resources/js/mustache.js:401-423 | "Unclosed section" names the innermost open section if and only if another name is closed there, or all ends |
| MustacheRender.SquashTokens | WebContent/resources/js/mustache.js:432-448 | the loop refines Squash |
| MustacheRender.SquashKeepsPieces | WebContent/resources/js/mustache.js:432-448 | every character and tag stays, in order; no two text tokens are left side by side |
| MustacheRender.CompilationKeepsMeaning | WebContent/resources/js/mustache.js:326-448 | rendering the tree of the squashed tokens is a direct reading of the characters and tags before, on every stack of views, errors included |
| MustacheRender.EscapeIsUndone | WebContent/resources/js/mustache.js:55-68 | the six entities can be read back, and none of the five other characters is left |
| MustacheRender.SplitIsUndone | WebContent/resources/js/mustache.js:157-157 | the parts of a dotted name have no dots and joined give the name |
| MustacheContext.Context.Lookup | WebContent/resources/js/mustache.js:146-184 | with the cache, lookup finds what it finds without |
| MustacheContext.Context.SearchUp | WebContent/resources/js/mustache.js:153-173 | the innermost view with a value wins; a property of null is an error |
| MustacheContext.Context.WalkIn | WebContent/resources/js/mustache.js:159-163 | the walk through the parts of a dotted name stops at the first falsy value |
| MustacheContext.Renderer.SubRender | WebContent/resources/js/mustache.js:329-338 | the memo table gives a function for exactly the section at that position |
| MustacheContext.Renderer.Call | WebContent/resources/js/mustache.js:340-371 | the compiled function with its memo tables renders the tree |
| MustacheContext.Renderer.CallOn | WebContent/resources/js/mustache.js:347-367 | the switch over one token: sections, inverted sections, partials, raw, escaped and literal text, as specified |
| MustacheContext.Renderer.Section | WebContent/resources/js/mustache.js:235-266 | once for each item, once in an object, once for any other truthy value, else not at all |
| MustacheContext.Renderer.Each | WebContent/resources/js/mustache.js:240-247 | the items in order |
| MustacheContext.Renderer.Inverted | WebContent/resources/js/mustache.js:268-278 | exactly for falsy values and empty arrays |
| MustacheContext.Renderer.NameOf | WebContent/resources/js/mustache.js:290-298 | the text of a value, empty for null and undefined |
| MustacheContext.Renderer.Escaped | WebContent/resources/js/mustache.js:300-302 | the same, escaped |
| MustacheContext.Renderer.PartialOf | WebContent/resources/js/mustache.js:280-288 | on a writer without partials, nothing; for a name that an empty object inherits, what is inherited is called, or it is no function |
| MustacheScanner.Scanner.Scan | WebContent/resources/js/mustache.js:91-101 | a match is passed only where the scanner stands; string is always the first pos characters and the tail |
| MustacheScanner.Scanner.ScanUntil | WebContent/resources/js/mustache.js:107-126 | what is skipped ends at the leftmost match |
| MustacheScanner.Until | WebContent/resources/js/mustache.js:107-126 | the pattern matches at the position found and nowhere before |
| MustacheLines.Positions | WebContent/resources/js/mustache.js:474-504 | the list spaces is strictly increasing and holds white-space text tokens of the line only |
| MustacheLines.SplicesLeaveTags | WebContent/resources/js/mustache.js:480-491 | splicing the listed positions, last first, leaves exactly the tags of the line |
| MustacheLines.StripAfter | WebContent/resources/js/mustache.js:480-491 | stripping goes line by line |
| MustacheLines.StripKeepsVisible | WebContent/resources/js/mustache.js:480-491 | nothing but white space is taken out |
| MustacheLines.LineBuffer.StripSpace | WebContent/resources/js/mustache.js:480-491 | the finished line is cleaned if it has a tag and no ink, and kept if not |
| MustacheLines.LineBuffer.Character | WebContent/resources/js/mustache.js:500-514 | one more character of text; at a line break the line is finished |
| MustacheLines.LineBuffer.Tag | WebContent/resources/js/mustache.js:551-555 | one more tag |
| MustacheLines.LineBuffer.Finish | WebContent/resources/js/mustache.js:493-564 | the tokens are those seen, stripped; a last line without line break is never stripped |
| MustacheParse.ScanTag | WebContent/resources/js/mustache.js:526-549 | kind, value and end of a tag, or where its closing text was missed |
| MustacheParse.ScanRound | WebContent/resources/js/mustache.js:495-562 | one round of the loop: text, a tag, the tags for the next round, or an error |
| MustacheParse.ParseTemplate | WebContent/resources/js/mustache.js:467-567 | parse ends, and returns or throws what tokenizing, stripping, squashing and nesting give |
| MustacheMeaning.TagIsSpelt | WebContent/resources/js/mustache.js:520-549 | a tag token stands in the template between the tags in force, with its sigil in front of its value and white space around both; behind the value of a "=" or "{" tag any text may stand |
| MustacheMeaning.RawIsTemplate | WebContent/resources/js/mustache.js:495-562 | before stripping, the tokens lie side by side from the beginning of the template on, each is what stands there, and no opening tag is overlooked; they end where the template does, unless an empty opening tag comes to a character that is not white space |
| MustacheMeaning.ParseKeepsMeaning | WebContent/resources/js/mustache.js:467-567 | a parsed template renders the direct reading of its stripped tokens |
| MustacheMeaning.PlainTextIsKept | WebContent/resources/js/mustache.js:467-567 | text without the opening tag parses and renders as itself |
| MustacheMeaning.NewTagsAreNotEmpty | WebContent/resources/js/mustache.js:558-561 | the tags after a round of the tokenizer are those from before, or two that are not empty |
| MustacheMeaning.SplitTrimmed | WebContent/resources/js/mustache.js:558-561 | text without white space at its ends splits at white space into parts that are not empty |
| MustacheTags.PlainAndTripleBraces | WebContent/resources/js/mustache.js:300-302 | for every name, view and environment the template with two braces renders a text without < > " ' / and the one with three renders what that text stands for; they fail alike |
| MustacheTags.PlainTagsAreEscaped | WebContent/resources/js/mustache.js:347-367 | the same for the two kinds of tag in any stack of views |
| MustacheTags.EntitiesAreReferences | WebContent/resources/js/mustache.js:55-68 | each of the six replacements is the HTML character reference to the character it replaces; no other character is replaced |
| MustacheTags.PrintsValue | WebContent/resources/js/mustache.js:290-298 | an unescaped tag prints the text of the value, nothing for null and undefined; a function found is called in the innermost view, and so is one that it returns |
| MustacheTags.SilentTags | WebContent/resources/js/mustache.js:347-367 | tags that set delimiters and comments print nothing |
| MustacheTags.InnermostWins | WebContent/resources/js/mustache.js:146-184 | "." is the innermost view; any other name is looked up from the innermost view outwards to the first that has a value, unless every object inherits it |
| MustacheTags.PropertyOfView | WebContent/resources/js/mustache.js:156-166 | a name without dots, or with one in front, is a property of the view; a property of null is an error |
| MustacheTags.DottedName | WebContent/resources/js/mustache.js:156-166 | the last part of a dotted name is a property of what the parts before it lead to, if that is truthy |
| MustacheTags.SectionOverItems | WebContent/resources/js/mustache.js:235-248 | a section over an array renders its text once for each item, in order, the item as the innermost view |
| MustacheTags.SectionOnce | WebContent/resources/js/mustache.js:250-262 | over an object once, in the object; over true, a number other than 0 or a text that is not empty, once in the same views |
| MustacheTags.EitherOr | WebContent/resources/js/mustache.js:235-278 | a section is left out for undefined, null, false, 0, NaN, the empty text and the empty array, and the inverted section is rendered, once, for exactly these |
| MustacheTags.LineIsCleanedIff | WebContent/resources/js/mustache.js:478-491 | a line with its line break loses its text if and only if it has a tag and, besides tags that print no value, nothing but white space |
| MustacheTags.TagsAreLeft | WebContent/resources/js/mustache.js:478-491 | what is left of such a line are its tags, in order |
| MustacheTags.NewDelimiters | WebContent/resources/js/mustache.js:558-561 | of two words in a tag that sets delimiters the first opens and the second closes the tags behind it |
| MustacheWriter.CompileIsRightIff | WebContent/resources/js/mustache.js:195-204 | whatever was compiled before, compile gives the template's own tree if and only if the template is no inherited name and the first tags it parsed with give the same result |
| MustacheWriter.OneTagsNeverShows | WebContent/resources/js/mustache.js:195-233 | with one pair of tags throughout, the cache never shows |
| MustacheWriter.TagsAreForgotten | WebContent/resources/js/mustache.js:195-204 | with two pairs it can: a concrete template |
| MustacheWriter.CacheHoldsFirst | WebContent/resources/js/mustache.js:195-204 | the cache holds what the first successful call made of a template |
| MustacheWriter.Writer.Compile | WebContent/resources/js/mustache.js:195-204 | the object's cache is the modelled one |
| MustacheWriter.Writer.Render | WebContent/resources/js/mustache.js:212-233 | on a writer used with the default tags only, render is the meaning of the template, in every history |
| JsonStringify.Stringifier.Str | WebContent/resources/js/json2.js:228-354 | the text of the value; on every return the gap is what it was |
| JsonStringify.Stringifier.StrItems | WebContent/resources/js/json2.js:299-302 | the loop over an array, null for what has no text |
| JsonStringify.Stringifier.StrMembers | WebContent/resources/js/json2.js:333-340 | the loop over an object, without what has no text |
| JsonStringify.Stringifier.StringifyValue | WebContent/resources/js/json2.js:359-399 | the text with the indentation of the third argument |
| JsonRoundTrip.QuoteIsUndone | WebContent/resources/js/json2.js:211-225 | RFC 8259, section 7, reads a quoted string back, for every string of code units |
| JsonRoundTrip.EscapeIsRead | WebContent/resources/js/json2.js:197-225 | every single character, escaped by the table or by four hexadecimal digits, is read back |
| JsonRoundTrip.ValueReads | WebContent/resources/js/json2.js:228-354 | a value is read back from its text, whatever follows and however deep it is nested |
| JsonRoundTrip.StringifyRoundTrip | WebContent/resources/js/json2.js:359-399 | the output is a JSON text of RFC 8259 for the same tree; undefined exactly for undefined and functions |
| JsonRoundTrip.RoundTripIffBlankIndent | WebContent/resources/js/json2.js:374-383 | every tree that has a text is read back from its output if and only if the indentation made of the third argument is white space of RFC 8259 |
| JsonRoundTrip.OtherIndentation | WebContent/resources/js/json2.js:374-383 | with any other indentation the array of one null is not read back |
| JsonLayout.EscapesAsListed | WebContent/resources/js/json2.js:196-225 | seven characters become a backslash and a letter, the other control and formatting characters a backslash, u and four digits 0 to 9 and a to f, and all others stay |
| JsonLayout.QuotedIsVisible | WebContent/resources/js/json2.js:211-225 | whatever is in a string, its quoted form has none of those control and formatting characters |
| JsonLayout.PlainIsKept | WebContent/resources/js/json2.js:211-225 | a string without them, quotation marks and backslashes stands between quotation marks as it is |
| JsonLayout.ItemsReadBack | WebContent/resources/js/json2.js:299-302 | an array is read back with as many items, in order: null where there was undefined, a function or a number that is not finite |
| JsonLayout.MembersReadBack | WebContent/resources/js/json2.js:333-340 | an object is read back with its members in order, without those that are undefined or functions |
| JsonLayout.WordsAsListed | WebContent/resources/js/json2.js:256-285 | null, true and false are these words; a number that is not finite is null, any other what String() writes |
| JsonLayout.ArrayLayout | WebContent/resources/js/json2.js:307-313 | the layout of an array at any depth: without indentation in a row, otherwise each item on its own line one level deeper, commas at the line ends, the closing bracket on its own line |
| JsonLayout.ObjectLayout | WebContent/resources/js/json2.js:333-352 | the same for an object, whose members have a blank behind the colon exactly where there is an indentation |
| JsonLayout.BlanksAtDepth | WebContent/resources/js/json2.js:374-383 | with a number as third argument a line at depth d begins with d times as many blanks |
| Base64.TablesInvert | src/com/baidu/terminator/plugin/signer/customized/app/Base64ForAPP.java:29-38 | the two tables undo each other, and no index leaves them |
| Base64.Encode | src/com/baidu/terminator/plugin/signer/customized/app/Base64ForAPP.java:40-68 | the loop gives the encoding of RFC 4648, section 4 |
| Base64.EncodeBits | src/com/baidu/terminator/plugin/signer/customized/app/Base64ForAPP.java:46-65 | the masks and shifts cut three octets into their four groups of six bits |
| Base64.EncodedLength | src/com/baidu/terminator/plugin/signer/customized/app/Base64ForAPP.java:40-68 | four characters for every three octets begun |
| Base64.ScanValue | src/com/baidu/terminator/plugin/signer/customized/app/Base64ForAPP.java:78-108 | an inner loop finds the next value, the padding, the end, or goes beyond it |
| Base64.Decode | src/com/baidu/terminator/plugin/signer/customized/app/Base64ForAPP.java:70-112 | the loop returns, or throws, what the specification gives for every text |
| Base64.DecodeUndoesEncode | src/com/baidu/terminator/plugin/signer/customized/app/Base64ForAPP.java:40-112 | decode gives the array back from any text that is its encoding after other characters are ignored |
| Base64.RoundTrip | src/com/baidu/terminator/plugin/signer/customized/app/Base64ForAPP.java:40-112 | in particular from the encoding itself |
| Base64.DecodeThrowsIff | src/com/baidu/terminator/plugin/signer/customized/app/Base64ForAPP.java:70-112 | decode indexes past the end of its text if and only if the text ends with a character of the alphabet, the number of such characters is no multiple of four, and no padding comes after two or three of a group |
| Base64.DecodesTo | src/com/baidu/terminator/plugin/signer/customized/app/Base64ForAPP.java:70-112 | what decode makes of any text: the values in front of the first padding behind two or three of a group, or of the end, in groups of four, a last one of two or three giving one or two octets; or the exception |
| Base64Format.AlphabetIsListed | src/com/baidu/terminator/plugin/signer/customized/app/Base64ForAPP.java:29-32 | the encoding table is A to Z, a to z, 0 to 9, + and / |
| Base64Format.ValuesAreListed | src/com/baidu/terminator/plugin/signer/customized/app/Base64ForAPP.java:33-38 | the decoding table has the position of each of these characters, and -1 for all others |
| Base64Format.GroupsAreBits | src/com/baidu/terminator/plugin/signer/customized/app/Base64ForAPP.java:46-65 | the k-th four characters of an encoding spell the 24 bits of the k-th three octets; the third and fourth are padding exactly where the second and third octet are missing |
| CipherBlocks.Process | src/com/baidu/terminator/plugin/signer/customized/app/CipherUtil.java:36-51 | the loop with its output array is the cipher block by block, with the same failures |
| CipherBlocks.BlocksAreInput | src/com/baidu/terminator/plugin/signer/customized/app/CipherUtil.java:42-49 | the blocks are the input, all but the last full, the last not empty |
| CipherBlocks.ThroughIsConcat | src/com/baidu/terminator/plugin/signer/customized/app/CipherUtil.java:40-50 | where there is room, the result is the concatenation of the blocks' results |
| CipherBlocks.DecryptUndoesEncrypt | src/com/baidu/terminator/plugin/signer/customized/app/RSAUtil.java:219-356 | decrypting by 128 what was encrypted by 117 gives up to 7488 bytes back |
| CipherBlocks.EncryptFailsIff | src/com/baidu/terminator/plugin/signer/customized/app/CipherUtil.java:34-50 | encryption finds the output array too short if and only if the input is longer than that |
| DataIndex.LatestOf | src/com/baidu/terminator/storage/file/mapper/DataIndexMapper.xml:14-16 | the latest row with a signature is found among the rows of the link |
| DataIndex.WithoutOf | src/com/baidu/terminator/storage/file/mapper/DataIndexMapper.xml:35-37 | deleting a link deletes all its rows and no other link's |
| DataIndex.Database.InsertDataIndex | src/com/baidu/terminator/storage/file/mapper/DataIndexMapper.xml:26-29 | the new row comes last, with a greater identifier than any before |
| DataIndex.Database.UpdateDataIndexSign | src/com/baidu/terminator/storage/file/mapper/DataIndexMapper.xml:31-33 | the row with the identifier has the new signature |
| DataIndex.Database.DeleteDataIndex | src/com/baidu/terminator/storage/file/mapper/DataIndexMapper.xml:35-37 | identifiers stay in order |
| FileStorage.Storage.PutRecordData | src/com/baidu/terminator/storage/file/FileStorage.java:132-169 | one record more; every row still has the offset of its own record; other links are untouched |
| FileStorage.Storage.GetRecordData | src/com/baidu/terminator/storage/file/FileStorage.java:172-215 | the record put last whose present signature matches, or the empty bundle |
| FileStorage.Storage.GetById | src/com/baidu/terminator/storage/file/FileStorage.java:104-129 | the bundle of the row with the identifier |
| FileStorage.Storage.SignAnew | src/com/baidu/terminator/storage/file/FileStorage.java:93-100 | one round of the loop |
| FileStorage.Storage.SignerChanged | src/com/baidu/terminator/storage/file/FileStorage.java:85-102 | every record has the signature the new signer gives its request; the file is unchanged |
| FileStorage.Storage.DeleteRecordData | src/com/baidu/terminator/storage/file/FileStorage.java:218-231 | no records, and the file begins at 0 again |
| FileStorage.Storage.Perform | src/com/baidu/terminator/storage/file/FileStorage.java:85-231 | after any series of operations the storage holds what the list of records holds |
| FileStorage.LatestIsGet | src/com/baidu/terminator/storage/file/FileStorage.java:172-215 | reading at the offset of the row with the greatest identifier gives the record put last |
| FileStorage.ForeignIds | src/com/baidu/terminator/storage/file/FileStorage.java:93-100 | an update by identifier never reaches another link |
| FileStorage.GetAfterPut | src/com/baidu/terminator/storage/file/FileStorage.java:132-215 | what was put last under a key is what is got |
| FileStorage.GetIsLast | src/com/baidu/terminator/storage/file/FileStorage.java:172-215 | what is got was put, matches, and nothing put later does |
| FileStorage.GetMisses | src/com/baidu/terminator/storage/file/FileStorage.java:172-215 | where no signature matches, the empty bundle is got |
| FileStorage.GetAfterSignerChanged | src/com/baidu/terminator/storage/file/FileStorage.java:85-102 | after a change of signer a key finds the last record whose request the new signer signs so |
| StorageRuns.GetFromRun | src/com/baidu/terminator/storage/file/FileStorage.java:85-231 | after any run a key finds what was put last among what has not been deleted since and whose signature, by the last signer since, matches |
| StorageRuns.MissesInRun | src/com/baidu/terminator/storage/file/FileStorage.java:85-231 | and where there is none, an empty bundle |
| ByteOrder.ReadsBack | src/org/jboss/netty/buffer/AbstractChannelBuffer.java:236-290 | any series of typed writes, read back with the same types, gives the same values, and what came after is left |
| ByteOrder.FromBigOfBig | src/org/jboss/netty/buffer/AbstractChannelBuffer.java:409-431 | the bytes of a value are the value modulo 256 to their number |
| ByteOrder.NarrowKeeps | src/org/jboss/netty/buffer/AbstractChannelBuffer.java:409-431 | a value in the range of its type comes back unchanged |
| ByteOrder.MaskUnsigns | src/org/jboss/netty/buffer/AbstractChannelBuffer.java:244-257 | the masks of the unsigned reads undo the sign extension |
| ByteOrder.MaskUnsignsInt | src/org/jboss/netty/buffer/AbstractChannelBuffer.java:281-283 | so does the long mask |
| ByteOrder.SignBit | src/org/jboss/netty/buffer/AbstractChannelBuffer.java:261-261 | the masked bit is the sign of three bytes |
| ByteOrder.ExtendSign | src/org/jboss/netty/buffer/AbstractChannelBuffer.java:262-262 | the or extends it |
| ByteOrder.WrittenAsListed | src/org/jboss/netty/buffer/AbstractChannelBuffer.java:409-431 | the bytes of each type, written out, most significant first |
| ByteOrder.ReadAsListed | src/org/jboss/netty/buffer/AbstractChannelBuffer.java:236-290 | the value of each type, written out, with its sign |
| ChannelBuffer.Buffer.SetReaderIndex | src/org/jboss/netty/buffer/AbstractChannelBuffer.java:44-49 | accepted if and only if the indices stay in order |
| ChannelBuffer.Buffer.SetWriterIndex | src/org/jboss/netty/buffer/AbstractChannelBuffer.java:55-61 | accepted if and only if the indices stay in order |
| ChannelBuffer.Buffer.SetIndex | src/org/jboss/netty/buffer/AbstractChannelBuffer.java:63-70 | accepted if and only if the indices are in order |
| ChannelBuffer.Buffer.Clear | src/org/jboss/netty/buffer/AbstractChannelBuffer.java:72-74 | nothing is readable, and both indices are 0 |
| ChannelBuffer.Buffer.MarkReaderIndex | src/org/jboss/netty/buffer/AbstractChannelBuffer.java:92-94 | the mark is the reader index |
| ChannelBuffer.Buffer.ResetReaderIndex | src/org/jboss/netty/buffer/AbstractChannelBuffer.java:96-98 | back to the mark if and only if it is not behind the writer index |
| ChannelBuffer.Buffer.MarkWriterIndex | src/org/jboss/netty/buffer/AbstractChannelBuffer.java:100-102 | the mark is the writer index |
| ChannelBuffer.Buffer.ResetWriterIndex | src/org/jboss/netty/buffer/AbstractChannelBuffer.java:104-106 | the indices stay in order if and only if nothing behind the mark has been read |
| ChannelBuffer.Buffer.DiscardReadBytes | src/org/jboss/netty/buffer/AbstractChannelBuffer.java:108-117 | the readable bytes survive the overlapping copy; the marks move with them and stop at 0 |
| ChannelBuffer.Buffer.WriteByte | src/org/jboss/netty/buffer/AbstractChannelBuffer.java:409-411 | the byte is appended; on a full buffer the writer index is left behind the end, so the indices stay in order if and only if there was room |
| ChannelBuffer.Buffer.WriteShort | src/org/jboss/netty/buffer/AbstractChannelBuffer.java:413-416 | two bytes are appended, or the queue is unchanged |
| ChannelBuffer.Buffer.WriteMedium | src/org/jboss/netty/buffer/AbstractChannelBuffer.java:418-421 | three bytes are appended, or the queue is unchanged |
| ChannelBuffer.Buffer.WriteInt | src/org/jboss/netty/buffer/AbstractChannelBuffer.java:423-426 | four bytes are appended, or the queue is unchanged |
| ChannelBuffer.Buffer.WriteLong | src/org/jboss/netty/buffer/AbstractChannelBuffer.java:428-431 | eight bytes are appended, or the queue is unchanged |
| ChannelBuffer.Buffer.WriteBytes | src/org/jboss/netty/buffer/AbstractChannelBuffer.java:445-448 | exactly the stretch of the source is appended, or the queue is unchanged |
| ChannelBuffer.Buffer.ReadByte | src/org/jboss/netty/buffer/AbstractChannelBuffer.java:236-242 | the first byte, signed, leaves the queue |
| ChannelBuffer.Buffer.ReadUnsignedByte | src/org/jboss/netty/buffer/AbstractChannelBuffer.java:244-246 | the first byte, unsigned |
| ChannelBuffer.Buffer.ReadShort | src/org/jboss/netty/buffer/AbstractChannelBuffer.java:248-253 | the first two bytes, signed |
| ChannelBuffer.Buffer.ReadUnsignedShort | src/org/jboss/netty/buffer/AbstractChannelBuffer.java:255-257 | the first two bytes, unsigned |
| ChannelBuffer.Buffer.ReadMedium | src/org/jboss/netty/buffer/AbstractChannelBuffer.java:259-265 | the first three bytes, sign-extended |
| ChannelBuffer.Buffer.ReadUnsignedMedium | src/org/jboss/netty/buffer/AbstractChannelBuffer.java:267-272 | the first three bytes, unsigned |
| ChannelBuffer.Buffer.ReadInt | src/org/jboss/netty/buffer/AbstractChannelBuffer.java:274-279 | the first four bytes, signed |
| ChannelBuffer.Buffer.ReadUnsignedInt | src/org/jboss/netty/buffer/AbstractChannelBuffer.java:281-283 | the first four bytes, unsigned |
| ChannelBuffer.Buffer.ReadLong | src/org/jboss/netty/buffer/AbstractChannelBuffer.java:285-290 | the first eight bytes, signed |
| ChannelBuffer.Buffer.ReadBytes | src/org/jboss/netty/buffer/AbstractChannelBuffer.java:339-343 | the first bytes go into the given stretch and nowhere else, also if the destination is the array of the buffer itself; or nothing changes |
| ChannelBuffer.Buffer.SkipBytes | src/org/jboss/netty/buffer/AbstractChannelBuffer.java:389-396 | the reader index moves by exactly the length, as an int; the indices stay in order if and only if the length is neither below minus the reader index nor so large that the sum wraps around; the first bytes leave the queue if and only if that many are readable |
| ChannelBuffer.Buffer.WriteZero | src/org/jboss/netty/buffer/AbstractChannelBuffer.java:496-521 | appends exactly that many zeros if and only if they fit; otherwise tells how many were written before the exception and where the writer index is left |
| ChannelBuffer.Buffer.Write | src/org/jboss/netty/buffer/AbstractChannelBuffer.java:409-431 | a write of any type appends the bytes of the value if they fit |
| ChannelBuffer.Buffer.Read | src/org/jboss/netty/buffer/AbstractChannelBuffer.java:236-290 | a read of any type takes its bytes from the front of the queue, if there are enough |
| ChannelBuffer.Buffer.WriteSeries | src/org/jboss/netty/buffer/AbstractChannelBuffer.java:409-431 | a series of writes of any types appends all their bytes, if and only if these fit |
| ChannelBuffer.Buffer.ReadSeries | src/org/jboss/netty/buffer/AbstractChannelBuffer.java:236-290 | a series of reads takes its values from the front and leaves the rest |
| ChannelBuffer.Buffer.WriteAndRead | src/org/jboss/netty/buffer/AbstractChannelBuffer.java:236-431 | what is written in any types to a buffer with room for it, whatever it holds, is read back in the same types behind that, and nothing is left |
| ChannelBuffer.Buffer.Operate | src/org/jboss/netty/buffer/AbstractChannelBuffer.java:72-448 | a write, read, skip, discard or clear is the operation on a queue of bytes with the room before and behind it |
| ChannelBuffer.Buffer.Perform | src/org/jboss/netty/buffer/AbstractChannelBuffer.java:72-448 | after any series of them the buffer is the queue, and has read the same values |
| ByteQueue.FirstInFirstOut | src/org/jboss/netty/buffer/AbstractChannelBuffer.java:236-448 | however writes, reads, skips and discards follow each other, what is left is what was there and what was written, in order, without as many bytes from the front as were taken |
| ByteQueue.InterleavedReadsBack | src/org/jboss/netty/buffer/AbstractChannelBuffer.java:236-431 | where every read asks for the type that the oldest value was written in, the values read are those written, oldest first, however reads and writes are interleaved |
| ByteQueue.RoomIsKept | src/org/jboss/netty/buffer/AbstractChannelBuffer.java:72-117 | the bytes before, in and behind the queue are always as many |

## Left out
- Names that are null in the header table, and the exceptions for them; `getHeaderNames` and its comparator; `setValue`
  on an entry; the typed getters (dates, numbers, content length). HttpCodecUtil is not part of this model: its two
  checks are parameters, and a null value is taken to be rejected.
- Md5.Md5.GetMD5ofStr: does not model the default character set; the model takes the bytes and the length of the string
  as given. The code hashes as many bytes as the string has characters, so not all bytes of a multi-byte string.
- Callbacks that throw, `empty`, and the string form of the flags.
- `Deferred.pipe`, `promise(obj)`, and the function argument of `Deferred`.
- `jQuery.when` with fewer than two arguments: it returns the promise it is given, or one that is resolved at once.
- Whens.WhenCall.Progressed: does not model that all notifications share one array, so that a callback that is still
  waiting sees later progress values too.
- MustacheTokens.NestTokens: does not model that a section is in its parent's array from the time it is opened, because
  the tree is built from values; the array is not read before the end.
- MustacheContext.Renderer.Section: does not model section lambdas, which also get the source text of the section
  (`sectionBounds`); the model reports them. Functions as values are called, and taken to be pure.
- MustacheContext.Renderer.Call: reports section lambdas too, and does not model registered partials.
- MustacheContext.Renderer.CallOn: reports section lambdas too; a partial tag does what it does on a writer that knows
  no partials.
- MustacheWriter.Writer.Render: does not model the third argument, the partials of the call.
- Registered partials and their loader, and a view that is a Context already; `exports.escape` is taken to be
  `escapeHtml`.
- White space is that of ECMAScript 5.1; a regular-expression engine may add U+180E.
- `toJSON`, replacers, Date and boxed values in `JSON.stringify`; `JSON.parse`, which evaluates its text. An indentation
  given as a number is taken to be an integer. That String() writes finite numbers as JSON does is assumed.
- I/O failures, time stamps and concurrency in the file storage; stub data, which only passes through to the mapper; the
  truncation of signatures to 255 characters by the database. The list of identifiers is taken to hold numbers, as the
  mapper's interface says, although its XML maps rows.
- ChannelBuffer.Buffer.Perform: does not cover marks, index setters, `writeZero` and negative skips in its series; each
  has its own contract.
- Other byte orders, floating-point values, slices, streams and channels of the channel buffer; `setZero`, which splits
  its length as `writeZero` does.
- Netty handlers and pipelines, the Spring actions and forms, the caching storage, the log reader and the matchers:
  wiring over libraries, or easy.
