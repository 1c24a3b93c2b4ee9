# Deception platform: verified models

A Dafny model of the parts of the deception platform whose correctness is more than one function long: the
binary and text formats it writes by hand, the SMTP ingest session, the protocol by which the console hands
work to its agents, the path from a touched decoy to a recorded incident, and the throttle, circuit breaker
and caches that work under interleaving. `dafny verify dfyconfig.toml` checks everything.

| files | what they are about |
|---|---|
| `Options`, `Bytes`, `Text`, `Units`, `Decimals` | optional values, little-endian fields, JavaScript strings, decimal numbers |
| `Crc32`, `CrcCheck`, `CrcDetection`, `Zip` | the checksum of `document-tokens.ts`, which one it is, what it detects, and the ZIP writer with a reader that undoes it |
| `Xml` | the escape that puts a tracking URL into a document |
| `Pdf`, `PdfText`, `PdfPaths` | the PDF writer, its cross-reference table, the escape of literal strings, and a viewer that goes from the trailer over the catalog to the open action, the link and the page |
| `Base32` | the bit accumulator behind the decoy AWS keys |
| `Ntlm` | the NTLM CHALLENGE message and a client that follows its offsets |
| `SmbFraming` | the framing of SMB sessions |
| `Manifest`, `ManifestAgent` | the canonical text of a release manifest that the console signs, and the text the agent rebuilds to check the signature |
| `Smtp`, `SmtpCommands`, `SmtpChunks`, `SmtpMessages` | one SMTP session as a class; what each command line does; chunking; what happens to a message and a connection |
| `Deployments`, `DeploymentRuns`, `DeploymentProgress`, `DeploymentRestart` | agent and console; safety over every run; progress; what a restart does |
| `Triggers`, `TriggerAnswers`, `TriggerPipeline`, `TriggerMail`, `TriggerDocuments`, `TriggerLimits` | gateway, token rules and API; what each answers, exactly when; links and names fire; from an SMTP session, and from the bytes of a document, to an incident; where the pipeline ends |
| `Throttle`, `Breaker`, `Caches` | alerting limits and cache lifetimes with overlapping work |

Code that changes state in place is a class or a method with loops, proved equal to a function of the state; the
theorems are about those functions and about all runs built from them.

## How the models are set up

* A socket is the sequence of chunks that arrive and the sequence of replies written; a database table is a
  map; time is a parameter that does not run backwards. The random server challenge, and every call into the
  operating system, is a parameter.
* A JavaScript string is a sequence of UTF-16 units: `Units` has the full range of units, and `Text` uses `char`
  for text in which only ASCII letters change case. A Go string is the sequence of its runes.
* A bit operation that overflows a machine word is written with its modulus or as a 32-bit vector.
* A field writer that throws when its number does not fit is a method with an error result; the conditions
  under which the whole writer succeeds are proved, not assumed.

Some things the proofs brought to light; each is a lemma with an exact condition or a concrete case:

* An agent whose pending report carries an error text of more than 500 characters is answered 401 until it
  restarts, and gets no work (`DeploymentProgress.ProgressIffShortErrors`). A directory and file name of 240
  characters together on a host that repeats the path in its error lead there
  (`DeploymentProgress.LongPathSticks`).
* "At most once" is per agent process: after a restart something can be planted again exactly when the console had
  not settled all of it (`DeploymentRestart.RestartRepeatsIff`).
* A delivery that was under way when an operator disabled its channel can enable it again by failing
  (`Breaker.SwitchedOffIff`). Failures are counted right exactly when every delivery is timely: overlapping failures
  count as one, and a success that read no failure does not clear a count (`Breaker.CountsRightIff`).
* The 1 MiB buffer cap of an SMTP session depends on how the stream is cut, and that is the only way the cutting
  can be noticed (`SmtpChunks.ChunkingMattersIff`).
* The agent rebuilds the signed manifest text of a release exactly when the version an operator gave is
  well-formed; a version with a lone surrogate is signed in vain (`ManifestAgent.ReleaseAcceptedIff`,
  `ManifestAgent.VersionRefused`).
* The escape for XML lets control characters and lone surrogates through, which no XML reader accepts
  (`Xml.RecoveredIff`).
* Among paths at the apex that start with the command link, the bare one with a query is answered and raises no
  incident (`TriggerLimits.CommandGap`), and a base domain that lies under another one can hide a token's host
  name (`TriggerPipeline.ResolveFires`).
* The first SMB message of a raw stream is cut out exactly, whatever follows it, if and only if its fields give its
  own length in the places the code looks (`SmbFraming.FirstMessageOutIff`). SMB2 requests carry the header size 64
  at the place the NEGOTIATE branch compares with 36, so a NEGOTIATE request is never cut
  (`SmbFraming.NegotiateKeepsAll`). The comment above `truncateToFirstMessage` says an SMB1 message is
  `32 + WordCount*2 + 2 + ByteCount` bytes; the code adds 35, and the model follows the code.
* The comment in `smtp.ts` says dot-unstuffing follows RFC 5321, which removes the leading dot of every line that is
  not a lone dot; the code does so only for lines that start with two. The two agree on a line exactly when a leading
  dot is followed by another (`SmtpMessages.UnstuffAgreesIff`), as in every line a client has stuffed.
* The registry of token types has the web bug first, so the gateway forwards the pixel of every Word, Excel and PDF token
  as of medium severity; the API puts that right (`TriggerAnswers.PixelForwardedMedium`,
  `TriggerLimits.GatewaySeverityIsOwn`).
* Names with runes above U+FFFF lose them in an NTLM message, and a target info of 64 KiB or more cannot be read
  back (`Ntlm.NameSurvivesIffBmp`, `Ntlm.RecoveredIffNamesFit`).

## Model

| member | source | states |
|---|---|---|
| Bytes.ReadLE16 | agent/internal/sensors/ntlm.go:269 | a 16-bit little-endian field reads back as the number modulo 2^16 |
| Bytes.ReadLE32 | agent/internal/sensors/ntlm.go:270-272 | a 32-bit little-endian field reads back as the number modulo 2^32 |
| Crc32.Crc32Calculator.TableEntry | packages/tokens-core/src/document-tokens.ts:415-418 | a table entry is the index after eight clocks of the bitwise shift register |
| Crc32.Crc32Calculator.FillTable | packages/tokens-core/src/document-tokens.ts:413-420 | the table is filled once and every entry is right |
| Crc32.FoldBits | packages/tokens-core/src/document-tokens.ts:422 | message bits fed in one by one might as well be added to the register first: the law behind the byte-wise loop (section 8 of RFC 1952) |
| Crc32.TableStep | packages/tokens-core/src/document-tokens.ts:422 | one table lookup and shift is eight clocks of the shift register |
| Crc32.Crc32Calculator.Crc32 | packages/tokens-core/src/document-tokens.ts:412-424 | the table-driven result equals the bit-by-bit checksum on every byte string |
| CrcCheck.Residue | packages/tokens-core/src/document-tokens.ts:412-424 | every byte string followed by its own checksum in little-endian order has the checksum 0x2144DF1C, the residue of CRC-32 (section 8 of RFC 1952) and of no other polynomial |
| CrcCheck.CheckValue | packages/tokens-core/src/document-tokens.ts:412-424 | the checksum of the nine digits 1 to 9 is 0xCBF43926 |
| CrcDetection.BurstDetected | packages/tokens-core/src/document-tokens.ts:412-424 | messages of equal length that differ only within four consecutive bytes never share a checksum |
| CrcDetection.OneByteDetected | packages/tokens-core/src/document-tokens.ts:412-424 | changing one byte always changes the checksum |
| Zip.WriteUInt16LE | packages/tokens-core/src/document-tokens.ts:374-376 | the field holds the number and every 16- and 32-bit field beside it is unchanged |
| Zip.WriteUInt32LE | packages/tokens-core/src/document-tokens.ts:373-379 | the same for a 32-bit field |
| Zip.NewLocalHeader | packages/tokens-core/src/document-tokens.ts:372-380 | a local header (section 4.3.7 of PKWARE APPNOTE.TXT), or a range error exactly when a size does not fit |
| Zip.NewCentralHeader | packages/tokens-core/src/document-tokens.ts:384-394 | a directory header (section 4.3.12), or a range error exactly when a number does not fit |
| Zip.NewEndRecord | packages/tokens-core/src/document-tokens.ts:401-406 | an end record (section 4.3.16), or a range error exactly when a number does not fit |
| Zip.BuildZip | packages/tokens-core/src/document-tokens.ts:362-409 | succeeds exactly when all sizes, counts and offsets fit their fields, and then every header, name and data byte is where the layout says, nothing else is in the file, and a reader gets the same entries back |
| Zip.ReadBack | packages/tokens-core/src/document-tokens.ts:362-409 | a reader that starts from the end record returns exactly the list of names and contents, with matching checksums |
| Xml.EscFirst | packages/tokens-core/src/document-tokens.ts:353-359 | the four replacements in a row are one escape for each character: none touches what an earlier one wrote |
| Xml.AttributeBack | packages/tokens-core/src/document-tokens.ts:262 | a reader of attribute values (sections 2.2, 3.3.3 and 4.6 of XML 1.0) reads an escaped text back with its line breaks normalized and stops at the quote after it, exactly when the text is all characters of XML, and fails otherwise |
| Xml.RecoveredIff | packages/tokens-core/src/document-tokens.ts:353-359 | the text comes back unchanged exactly when it is all characters of XML, surrogates in pairs, and has no tab, line feed or carriage return |
| Decimals.ReadDecimal | packages/tokens-core/src/pdf-clone-tokens.ts:130-134 | decimal digits read back as the number, whatever non-digit follows |
| Decimals.DecimalLength | packages/tokens-core/src/pdf-clone-tokens.ts:132 | a number has at most k digits exactly when it is below ten to the k |
| Pdf.RowLength | packages/tokens-core/src/pdf-clone-tokens.ts:131-133 | a cross-reference row is 20 bytes exactly when its offset is below 10^10, and never shorter |
| Pdf.BuildRows | packages/tokens-core/src/pdf-clone-tokens.ts:131-133 | the loop appends one row for each offset |
| Pdf.BuildDocument | packages/tokens-core/src/pdf-clone-tokens.ts:123-135 | the two loops with their running offsets write the document the layout functions describe |
| Pdf.TableBack | packages/tokens-core/src/pdf-clone-tokens.ts:130-133 | a table reader (section 7.5.4 of ISO 32000-1) recovers all entries exactly when every row is 20 bytes, and fails otherwise |
| Pdf.TableFound | packages/tokens-core/src/pdf-clone-tokens.ts:123-135 | from the end of the file over `startxref` a reader finds the table and recovers all entries, exactly when all offsets have ten digits |
| Pdf.EntryPointsAtObject | packages/tokens-core/src/pdf-clone-tokens.ts:125-128 | entry k points at the first byte of `k 0 obj` and the whole object follows there |
| PdfText.EscFirst | packages/tokens-core/src/pdf-clone-tokens.ts:102 | the three replacements in a row are one escape for each character |
| PdfText.EscapedReads | packages/tokens-core/src/pdf-clone-tokens.ts:102 | a literal-string reader (section 7.3.4.2 of ISO 32000-1) reads an escaped text back with its line ends normalized, and stops at its closing parenthesis |
| PdfText.RecoveredIff | packages/tokens-core/src/pdf-clone-tokens.ts:102-105 | the text comes back unchanged exactly when it is Latin-1 and has no carriage return |
| PdfText.BuildTrackingPdf | packages/tokens-core/src/pdf-clone-tokens.ts:101-136 | the writer produces the document of the seven objects |
| PdfPaths.CatalogFound | packages/tokens-core/src/pdf-clone-tokens.ts:123-135 | header, end, and a trailer whose size is that of the table lead to object 1, for any objects, exactly when all offsets have ten digits |
| PdfPaths.TrackerReached | packages/tokens-core/src/pdf-clone-tokens.ts:112-136 | from the trailer over the catalog's open action (sections 7.5.5 and 7.7.2 of ISO 32000-1) a viewer finds the tracking URL, exactly when the URL is Latin-1 without carriage return and all offsets have ten digits |
| PdfPaths.LinkReached | packages/tokens-core/src/pdf-clone-tokens.ts:112-136 | over the page tree and the annotations of the first page the link leads to the same URL, under the same condition |
| PdfPaths.ContentReached | packages/tokens-core/src/pdf-clone-tokens.ts:102-118 | the page's contents are found by their reference and are as long as the stream says |
| PdfPaths.TitleReached | packages/tokens-core/src/pdf-clone-tokens.ts:102-106 | the first text on the page is the title exactly when that is Latin-1 without carriage return |
| PdfPaths.BodyReached | packages/tokens-core/src/pdf-clone-tokens.ts:102-106 | after a Latin-1 title the next text on the page is the body text, under the same condition on it |
| Base32.ShiftIn | packages/tokens-core/src/cloud-tokens.ts:154-155 | with at most four bits waiting, shifting a byte into the overflowing 32-bit accumulator loses none of the bits still needed |
| Base32.Base32 | packages/tokens-core/src/cloud-tokens.ts:148-162 | exactly 8n/5 letters, rounded down, and letter i encodes bits 5i to 5i+4 of the input (section 6 of RFC 4648) |
| Base32.DecodeBack | packages/tokens-core/src/cloud-tokens.ts:148-162 | decoding gives back all the input bits the letters cover, so all but the last 8n mod 5 |
| Ntlm.Utf16Encode | agent/internal/sensors/ntlm.go:258-267 | the loop writes each rune of the basic plane as one unit and skips the others |
| Ntlm.Utf16ToString | agent/internal/sensors/ntlm.go:148-158 | the loop reads one rune for each unit, and nothing from an odd number of bytes |
| Ntlm.NameSurvivesIffBmp | agent/internal/sensors/ntlm.go:258-267 | what is left of a name equals the name exactly when all its runes are in the basic plane |
| Ntlm.RunesOfUtf16 | agent/internal/sensors/ntlm.go:148-158 | decoding what was encoded gives every rune of the basic plane, in order |
| Ntlm.BuildAvPair | agent/internal/sensors/ntlm.go:170-175 | id, length and value of a pair, the length reduced to 16 bits |
| Ntlm.AvsBack | agent/internal/sensors/ntlm.go:170-204 | a reader of AV pairs (section 2.2.2.1 of MS-NLMP) returns exactly the list of pairs before the terminator |
| Ntlm.BuildTargetInfo | agent/internal/sensors/ntlm.go:195-204 | the list is domain, computer, DNS domain only if there is one, DNS host name, terminator |
| Ntlm.VersionBack | agent/internal/sensors/ntlm.go:180-189 | a version block (section 2.2.2.10 of MS-NLMP) reads back whatever follows it |
| Ntlm.VersionInMessage | agent/internal/sensors/ntlm.go:222-231 | the version flag is set exactly when the persona has a version, and the block then stands at byte 48 |
| Ntlm.BuildChallenge | agent/internal/sensors/ntlm.go:215-256 | the appended message is the one the layout functions describe, for a given random challenge |
| Ntlm.InfoSizeIsLength | agent/internal/sensors/ntlm.go:195-204 | the target info takes four bytes for each pair and two for each rune of the basic plane |
| Ntlm.TooLong | agent/internal/sensors/ntlm.go:246-249 | with 64 KiB of target info or more the 16-bit length makes the message unreadable |
| Ntlm.FixedFields | agent/internal/sensors/ntlm.go:232-249 | signature, message type, the doubled lengths and the eight reserved bytes are as section 2.2.1.2 of MS-NLMP has them |
| Ntlm.RecoveredIffNamesFit | agent/internal/sensors/ntlm.go:215-256 | a reader that follows the offsets (section 2.2.1.2 of MS-NLMP) recovers domain, challenge, version, the flags for Unicode, NTLM, always-sign and version and no others, and the exact AV pairs under the ids 1, 3, 4 and 6, ending at the last byte, if and only if the names take less than 64 KiB |
| SmbFraming.Transport.ReadHead | agent/internal/sensors/smbtransport.go:25-50 | the first byte settles the framing; a framed read returns a message, a bad frame or an error as the stream says and consumes exactly that; 0xff and 0xfe switch to raw, where head and reads make the buffer and what they did not take stays in the stream |
| SmbFraming.Transport.ReadMsg | agent/internal/sensors/smbtransport.go:53-70 | later reads follow the framing that was found, and leave the rest of the stream |
| SmbFraming.Transport.ReadBody | agent/internal/sensors/smbtransport.go:34-42 | length check and body read are one framed read of header and rest |
| SmbFraming.Transport.RawReadMessage | agent/internal/sensors/smbtransport.go:74-90 | the loop gathers what arrives until a read fails or 64 KiB are there, and cuts that to its first message, or is bad below four bytes |
| SmbFraming.ReadsDoNotMatter | agent/internal/sensors/smbtransport.go:78-84 | up to 64 KiB the buffer is all that arrived, however it was cut into reads, and the rest stays in the stream |
| SmbFraming.AccumulatedBounded | agent/internal/sensors/smbtransport.go:77-84 | buffer and rest together are what there was, and the buffer never reaches 64 KiB and one read |
| SmbFraming.Transport.WriteMsg | agent/internal/sensors/smbtransport.go:93-103 | the output grows by the message, framed unless the stream is raw |
| SmbFraming.FrameLaid | agent/internal/sensors/smbtransport.go:93-103 | a frame is a zero byte, 24 bits of length from the highest byte down, and the message |
| SmbFraming.FrameBack | agent/internal/sensors/smbtransport.go:53-103 | a frame is read back, whatever follows, exactly when its message has 1 to 65536 bytes, also beyond the 24 bits of the length |
| SmbFraming.FramesBack | agent/internal/sensors/smbtransport.go:25-103 | a stream of frames is read back message by message exactly when all of them fit, and starts with the byte that selects framing (section 4.3.1 of RFC 1002) |
| SmbFraming.CutStream | agent/internal/sensors/smbtransport.go:38-41 | a stream cut anywhere yields only whole messages that were sent, in order |
| SmbFraming.TruncateToFirstMessage | agent/internal/sensors/smbtransport.go:107-152 | the result is always a prefix of the buffer |
| SmbFraming.TruncateTwice | agent/internal/sensors/smbtransport.go:107-152 | cutting twice cuts no more, on every buffer |
| SmbFraming.FirstMessageOutIff | agent/internal/sensors/smbtransport.go:107-152 | a message is cut out exactly, whatever was sent after it, if and only if its fields give its own length, a SESSION_SETUP from 83 bytes on |
| SmbFraming.Smb1Out | agent/internal/sensors/smbtransport.go:113-122 | a message built of an SMB1 header, its counted words and its counted bytes is cut out exactly, whatever follows |
| SmbFraming.SetupOut | agent/internal/sensors/smbtransport.go:137-148 | a SESSION_SETUP request built of header, fixed fields and a security buffer at offset 88 is cut out exactly, whatever follows |
| SmbFraming.RawFirstMessage | agent/internal/sensors/smbtransport.go:43-46 | the first raw read, head and all and in whatever pieces it arrives, returns such a message up to 64 KiB, whatever came with it |
| SmbFraming.NegotiateKeepsAll | agent/internal/sensors/smbtransport.go:127-136 | a NEGOTIATE request with the standard header size is never cut |
| Manifest.ChainIsEscape | apps/api/src/release-signing.ts:37-44 | stringify and its five global replacements are one escape for each character |
| Manifest.StringBack | apps/api/src/release-signing.ts:37-44 | a JSON string reader (section 7 of RFC 8259) recovers the string with any text following |
| Manifest.PlainUnits | apps/api/src/release-signing.ts:37-44 | a character is printed as it is exactly when it is no control, no lone surrogate and none of the seven escaped ones |
| Manifest.LessIff | apps/api/src/release-signing.ts:51 | the order of names is decided by the first units that differ, a prefix coming first |
| Manifest.SortedKeeps | apps/api/src/release-signing.ts:51 | sorting file names keeps the entries and orders them strictly |
| Manifest.SortedUnique | apps/api/src/release-signing.ts:51 | there is only one sorted list of given entries, so insertion order cannot show |
| Manifest.ManifestBack | apps/api/src/release-signing.ts:47-59 | a reader recovers the version and the sorted entries from the canonical text |
| Manifest.CanonicalIffSame | apps/api/src/release-signing.ts:47-59 | two manifests have the same canonical text if and only if version and file map agree |
| Manifest.CanonicalWellFormed | apps/api/src/release-signing.ts:47-59 | whatever strings go in, the text has no lone surrogate, so its encoding is its own |
| ManifestAgent.FixedWellFormed | agent/internal/update/update.go:59-61 | a parsed string is well-formed, and unchanged exactly when it was well-formed before |
| ManifestAgent.PrintersAgree | agent/internal/update/update.go:65 | on well-formed strings Go's printer escapes the same characters in the same way as the console |
| ManifestAgent.Utf8Injective | agent/internal/update/update.go:65 | well-formed strings with the same bytes are the same, so byte order is a strict order of names |
| ManifestAgent.RuneDecodes | agent/internal/update/update.go:65 | a decoder by section 4 of RFC 3629 recovers every character from its bytes |
| ManifestAgent.AgentRebuildsIff | agent/internal/update/update.go:54-76 | parsing and printing the manifest again gives exactly the text the console signed if and only if every string is well-formed, every size is an int64, and the names in unit order are in byte order |
| ManifestAgent.AsciiNamesAgree | apps/api/src/release-signing.ts:46-59 | a manifest all in ASCII is rebuilt exactly |
| ManifestAgent.ReleaseAcceptedIff | apps/api/src/release-signing.ts:120-157 | for every release with file names and digests as they are signed, the agent rebuilds the signed text if and only if the version is well-formed |
| ManifestAgent.VersionRefused | apps/api/src/routes/releases.ts:150-166 | a version of one lone surrogate is accepted, signed, and not rebuilt by the agent |
| Smtp.Session.FinishMessage | apps/gateway/src/smtp.ts:49-70 | the loop reports one event for each recipient under a mail domain, resets, and answers |
| Smtp.Session.ResetMessage | apps/gateway/src/smtp.ts:38-45 | everything about the message is cleared, and the recipient count of the connection is kept |
| Smtp.Session.OnDataLine | apps/gateway/src/smtp.ts:89-103 | one line of a message: end, too large, or kept without its stuffed dot |
| Smtp.Session.OnCommand | apps/gateway/src/smtp.ts:105-160 | one command line does what the dialog function says, error replies included; the lemmas of `SmtpCommands` say what that is |
| SmtpCommands.ArgumentIff | apps/gateway/src/smtp.ts:115-125 | a line has an argument exactly when it is the verb in any letter case, white space, and text in angle brackets |
| SmtpCommands.MailLine | apps/gateway/src/smtp.ts:114-123 | a MAIL line of that shape is refused exactly when a sender or an address is pending; otherwise it sets the sender, to the whole line if a bare line end follows the bracket |
| SmtpCommands.RcptLine | apps/gateway/src/smtp.ts:130-142 | each RCPT line of that shape is counted; the first eight of a connection are answered alike, and the address in lower case becomes pending exactly when it ends in one of the domains |
| SmtpCommands.MalformedLine | apps/gateway/src/smtp.ts:115-129 | a MAIL or RCPT line of any other shape is a syntax error and changes nothing |
| SmtpCommands.DataLineOf | apps/gateway/src/smtp.ts:143-149 | DATA begins a message exactly when an address is pending |
| SmtpCommands.ResetLine | apps/gateway/src/smtp.ts:150-152 | RSET drops sender, addresses and lines, and keeps the count, the replies and the events |
| SmtpCommands.OtherLine | apps/gateway/src/smtp.ts:105-111 | every other line is answered with its fixed text and changes nothing |
| Smtp.Session.OnData | apps/gateway/src/smtp.ts:76-162 | the chunk handler with its line loop does exactly one `Feed` of the session state, and more than 1 MiB held without a line end just ends the session |
| SmtpChunks.DrainInTwo | apps/gateway/src/smtp.ts:83-87 | handling what is there first, and the rest when it comes, is handling everything at once |
| SmtpChunks.RunIsOnePass | apps/gateway/src/smtp.ts:76-162 | a run over chunks observes what one pass over their concatenation observes |
| SmtpChunks.ChunkingDoesNotMatter | apps/gateway/src/smtp.ts:76-162 | the same replies, events and final state for every way of cutting one stream, cuts inside CR LF included, as long as neither cutting trips the buffer cap |
| SmtpChunks.ShortStreamUnderCap | apps/gateway/src/smtp.ts:78-81 | a stream no longer than the cap can be cut in any way |
| SmtpChunks.ChunkingMattersIff | apps/gateway/src/smtp.ts:76-162 | against a cutting that stays under the cap, another cutting of the same stream is observed alike if and only if it stays under the cap too |
| SmtpChunks.CappedChunkingMatters | apps/gateway/src/smtp.ts:78-81 | two cuttings of one stream that are told apart do exist |
| SmtpMessages.UnstuffStuff | apps/gateway/src/smtp.ts:100-101 | a line stuffed by the client (section 4.5.2 of RFC 5321) is restored and is never a lone dot |
| SmtpMessages.UnstuffAgreesIff | apps/gateway/src/smtp.ts:100-101 | on a line other than a lone dot the code agrees with section 4.5.2 of RFC 5321 exactly when a leading dot is followed by another |
| SmtpMessages.SingleDotKept | apps/gateway/src/smtp.ts:100-101 | on `.x` the two differ |
| SmtpMessages.BodyHandled | apps/gateway/src/smtp.ts:83-103 | complete body lines are restored one by one, or the session ends once the size cap is passed |
| SmtpMessages.MessageRestored | apps/gateway/src/smtp.ts:83-103 | a stuffed body and its lone dot, cut into chunks anyhow: under the size cap every line is restored and exactly one message ends; over it nothing is reported and the session ends |
| SmtpMessages.OneEventPerRecipient | apps/gateway/src/smtp.ts:53-67 | a message reports each pending address once, in order |
| SmtpMessages.RunBounded | apps/gateway/src/smtp.ts:130-141 | over any run, events plus pending recipients never exceed the recipients counted nor eight |
| SmtpMessages.ConnectionLimits | apps/gateway/src/smtp.ts:76-162 | over one connection at most eight events, each under a mail domain, and a live session holds at most 1 MiB of message |
| SmtpMessages.PendingWasNamed | apps/gateway/src/smtp.ts:124-142 | a pending address was named in a RCPT command when it was not pending, with no reset since |
| SmtpMessages.EventWasAskedFor | apps/gateway/src/smtp.ts:49-67 | every event of a connection goes back to lines that the characters received start with: a RCPT command that made its address pending, and no reset between that line and the lone dot that ended its message |
| Deployments.ExecuteOne | agent/internal/deploy/deploy.go:24-65 | every report, of success or failure, carries the id of its deployment |
| Deployments.PlantedIff | agent/internal/deploy/deploy.go:24-65 | success is reported exactly for a complete descriptor of a known kind with a plain file name on a host where every call works, and a failure always has a text |
| Deployments.Agent.Execute | agent/internal/deploy/deploy.go:16-22 | the loop makes one report for each deployment, in order |
| Deployments.Agent.OnAnswer | agent/main.go:148-170 | an answered heartbeat clears what was sent and leaves the reports on the new work |
| Deployments.Select | apps/api/src/routes/agents.ts:170-187 | the query returns min(20, pending) different pending deployments of the agent |
| Deployments.Console.Heartbeat | apps/api/src/routes/agents.ts:87-193 | refused for missing credentials, a body that breaks its limits or a wrong key, gone for an unknown agent, and then nothing changes; work is given exactly to a registered agent whose bearer key compares with its hash, in a request within the limits; then a reported version is noted, all results are applied, and at most twenty pending deployments of that agent are selected |
| Deployments.ApplySettles | apps/api/src/routes/agents.ts:141-156 | a pending row of the agent is settled by the first report on it, done without an error or failed with the reported or the default text; no other row changes |
| Deployments.Console.Queue | apps/api/src/routes/agents.ts:363-380 | the work of one agent that is pending grows by exactly the new id, that of no other agent changes, and every row there was stays as it was |
| DeploymentRuns.QueueKeeps | apps/api/src/routes/agents.ts:363-380 | queuing for any agent at any moment keeps the invariant of agent, network and console |
| DeploymentRuns.SelectionIsFresh | apps/api/src/routes/agents.ts:141-187 | because results go in first, a reply to the waiting agent never selects what it has planted |
| DeploymentRuns.RunKeeps | agent/main.go:138-170 | the invariant of agent, network and console holds over every run with lost requests, lost replies, late requests and restarts |
| DeploymentRuns.AtMostOnce | agent/main.go:138-170 | over any run one agent process plants each deployment at most once, never sends more than 20 results, and a settled row says what a process of that agent reported |
| DeploymentRuns.OutcomeIsTrue | apps/api/src/routes/agents.ts:141-156 | while the first process runs, a settled row is done exactly when its one planting succeeded |
| DeploymentRuns.StatusOnlyForward | apps/api/src/routes/agents.ts:148-154 | over any run a row keeps its agent and work, and once settled never changes |
| DeploymentRuns.BeatRuns | agent/main.go:146-170 | an undisturbed heartbeat is a run of the step system, so the theorems are not about an empty set of runs |
| DeploymentRestart.RestartRepeatsIff | agent/main.go:138-170 | in every world a run with any restarts reaches without planting twice: after one more restart no run plants anything twice, if and only if the console had settled all that was planted |
| DeploymentRestart.FirstProcessDistinct | agent/main.go:138-170 | until the first restart nothing has been planted twice |
| DeploymentRestart.RunKeepsMine | apps/api/src/routes/agents.ts:169-187 | over every run, restarts included, whatever was planted was queued for this agent |
| DeploymentRestart.RestartRepeats | agent/main.go:140 | from the start a run with a restart exists that plants one deployment twice |
| DeploymentProgress.RunDraining | apps/api/src/routes/agents.ts:169-187 | each successful trip after the first takes a batch off what was pending, however many failed ones lie between |
| DeploymentProgress.AllSettled | apps/api/src/routes/agents.ts:94-187 | with nothing new queued and short error texts, n pending deployments are all settled after n/20, rounded up, plus one successful trips |
| DeploymentProgress.StaysStuck | apps/api/src/routes/agents.ts:94-106 | an agent with a refused report makes no trip and plants nothing until it restarts |
| DeploymentProgress.LongPathSticks | agent/internal/deploy/deploy.go:50-52 | a run from the start leads an agent into that state, for every artifact with 240 characters of directory and file name on a host whose write error repeats the path; no run without a restart makes a trip from there, and the row stays pending |
| DeploymentProgress.ProgressIffShortErrors | apps/api/src/routes/agents.ts:94-106 | an idle agent can complete another trip if and only if none of its error texts is over 500 characters |
| Triggers.MatchEventToType | packages/tokens-core/src/registry.ts:71-79 | the loop finds the first type in registry order whose rule matches, or shows that none does |
| Triggers.Gateway.OnEvent | apps/gateway/src/server.ts:39-63 | exactly one incident for each candidate id some rule accepts, with the severity of the first such rule, and none for other ids |
| Triggers.Gateway.Collect | apps/gateway/src/server.ts:44-54 | the candidate set is the ids mentioned in host labels, apex path or local part |
| Triggers.Api.PostIncident | apps/api/src/routes/tokens.ts:553-627 | the answer is the decision on token, status and rules, and one incident is stored exactly when it is accepted |
| TriggerAnswers.AgentReportedIff | apps/api/src/routes/tokens.ts:578-583 | what an agent reports is recorded with the severity it gave exactly for an active token, whatever its type |
| TriggerAnswers.HoneypotIff | apps/api/src/routes/tokens.ts:577-596 | an active honeypot token has an incident exactly when an agent reported it |
| TriggerAnswers.Refused | apps/api/src/routes/tokens.ts:562-572 | a missing id is malformed and nothing else is; an unknown or inactive token is not found |
| TriggerAnswers.KindDecides | packages/tokens-core/src/network-tokens.ts:78-217 | lookups raise host names only, mail addresses only, requests links only, and no rule raises a honeypot |
| TriggerAnswers.PixelForwardedMedium | packages/tokens-core/src/registry.ts:28-45 | a request for a pixel is forwarded as medium, because the web bug is first in the registry |
| TriggerAnswers.RequestServedIff | apps/gateway/src/http.ts:24-50 | a request makes an event exactly when its host, without port and in any letter case, is a base domain or under one; the event has that host and at most 2048 characters of path |
| TriggerAnswers.QueryServedIff | apps/gateway/src/dns.ts:33-48 | a lookup makes an event exactly when its name, in any letter case, is a base domain or under one; a trailing dot makes no difference |
| TriggerAnswers.HandsOut | packages/tokens-core/src/network-tokens.ts:38-40 | the link, host name, address or id each type hands out |
| TriggerAnswers.HandsOutFiles | packages/tokens-core/src/cloud-tokens.ts:40-75 | after it come the files of the type, numbered from 0, and nothing else |
| TriggerAnswers.DomainsIff | apps/gateway/src/server.ts:8-11 | the gateway serves exactly the non-empty parts of the setting, trimmed and in lower case |
| TriggerLimits.GatewaySeverityIsOwn | apps/api/src/routes/tokens.ts:574-596 | an incident made from a gateway event has the severity of the token's own type, medium for web bug, image and redirect and high for the rest, whatever was forwarded, needs an active token, and never belongs to a honeypot token |
| TriggerLimits.LinkRuleExact | packages/tokens-core/src/network-tokens.ts:42-47 | a request matches a link type exactly when its path starts like the link; the test for a mention decides nothing |
| TriggerLimits.NameRuleExact | packages/tokens-core/src/network-tokens.ts:86-90 | a lookup matches a host-name type exactly when the id is a label of the name |
| TriggerLimits.MailRuleExact | packages/tokens-core/src/network-tokens.ts:175-181 | a message matches an address exactly when the id is its whole local part |
| TriggerPipeline.FetchFires | packages/tokens-core/src/network-tokens.ts:38-47 | fetching any generated link, with any text appended, is forwarded for its id and recorded with its type's severity, given an apex origin and an active token |
| TriggerPipeline.FoundIff | apps/gateway/src/dns.ts:85-96 | the id is found under every name below its own exactly when no base domain gets in first |
| TriggerPipeline.ResolveFires | packages/tokens-core/src/network-tokens.ts:76-90 | resolving a token's host name, in any letter case and with any labels in front, fires, for all such names exactly when no base domain under that name comes before the one it lies under |
| TriggerPipeline.CandidateIffApexOrLabel | apps/gateway/src/server.ts:48-51 | on any host that is served, a path below an id makes that id a candidate only at the apex or if it is a host label |
| TriggerMail.MailFires | apps/gateway/src/smtp.ts:76-162 | over any chunking under the cap of MAIL, a RCPT of a token's address in any letter case, DATA, a body that fits and the lone dot, an idle session reports exactly one event more, with that sender, the id as its hint and the subject of the body; that event fires, and the session is idle again |
| TriggerMail.ResetThenMailFires | apps/gateway/src/smtp.ts:150-152 | in a session told anything before, with senders and addresses pending or not, RSET and then such a message give exactly that one event more |
| TriggerMail.IdleAfterReset | apps/gateway/src/smtp.ts:150-152 | after an RSET line outside a message the session is idle, with the same count and events and one answer more |
| TriggerMail.SubjectIs | apps/gateway/src/smtp.ts:50-64 | the first line that starts with `subject:` in any letter case gives the subject, trimmed and at most 200 characters of it |
| TriggerMail.NoSubject | apps/gateway/src/smtp.ts:50-64 | there is no subject exactly when no line starts so |
| TriggerMail.PendingAddressFires | packages/tokens-core/src/network-tokens.ts:163-181 | a message with a token's address among its pending recipients has an event that fires |
| TriggerMail.AddressBelongs | apps/gateway/src/smtp.ts:171-173 | the address is accepted exactly when its domain is a mail domain |
| TriggerMail.RcptLineAccepted | apps/gateway/src/smtp.ts:124-142 | below eight recipients the RCPT line of an accepted address, in any letter case, is answered 250 and makes it pending |
| TriggerDocuments.PdfFires | packages/tokens-core/src/pdf-clone-tokens.ts:58-85 | the URIs of the open action and of the link a viewer reaches in a generated PDF are the token's link, and fetching it fires |
| TriggerDocuments.OfficeFires | packages/tokens-core/src/document-tokens.ts:260-351 | a reader that unpacks a generated Word or Excel file and looks up its relationships part by name finds the token's link there, and fetching it fires |
| TriggerLimits.DomainsAgree | apps/api/src/routes/tokens.ts:643-652 | the base domain the API takes from the shared setting is the gateway's first one, exactly when it is not empty |
| TriggerLimits.DefaultOriginIsApex | apps/api/src/routes/tokens.ts:631-634 | without an origin of its own the API builds links to the gateway's apex |
| TriggerLimits.SettingSuffices | apps/api/src/routes/tokens.ts:643-652 | so with one shared setting every link of every token fires |
| TriggerLimits.CommandGap | packages/tokens-core/src/network-tokens.ts:208-217 | at the apex, of the paths that start with the command link, exactly the bare one with a query is served without an incident |
| TriggerLimits.ServesCommand | apps/gateway/src/artifacts.ts:143-147 | the responder serves the command exactly at the path's end, at a slash or at a query |
| Throttle.AlertDispatcher.ShouldAlert | apps/api/src/alerts/dispatcher.ts:39-53 | an alert passes exactly when its pair has no window of less than a minute or room in it; the new table, and the functions the bounds are proved of |
| Throttle.KeyInjective | apps/api/src/alerts/dispatcher.ts:41 | two pairs share a key exactly when they are the same, for ids without the separator |
| Throttle.AtMost | apps/api/src/alerts/dispatcher.ts:39-53 | with a clock that does not run backwards at most 2 max - 1 alerts of one pair pass in any half-open minute |
| Throttle.BoundReached | apps/api/src/alerts/dispatcher.ts:39-53 | for every max of at least 1 a run reaches that bound |
| Throttle.SuppressedHasPassed | apps/api/src/alerts/dispatcher.ts:44-52 | every suppressed alert has one of the same pair that passed less than a minute before |
| Throttle.OnlyOwnPairMatters | apps/api/src/alerts/dispatcher.ts:39-53 | whether an alert passes depends on the earlier alerts of its own pair alone |
| Breaker.AlertChannels.Patch | apps/api/src/routes/alerts.ts:123-175 | an edit of an existing row sets `enabled` to the given value exactly when one is given, clears the failures exactly then or with a new configuration, touches no other row and no delivery, and keeps the invariant |
| Breaker.AlertChannels.StartDeliveries | apps/api/src/alerts/dispatcher.ts:58-65 | of each copy of an enabled row, and of nothing else, one more delivery is under way; no row changes, and the invariant is kept |
| Breaker.AlertChannels.Finish | apps/api/src/alerts/dispatcher.ts:68-92 | a finished delivery writes back from its copy, and keeps the invariant |
| Breaker.RunKeeps | apps/api/src/alerts/dispatcher.ts:58-94 | over every interleaving of deliveries with creations, edits and deletions an enabled channel has at most four failures and none more than five |
| Breaker.FiveFailuresDisable | apps/api/src/alerts/dispatcher.ts:77-87 | when deliveries to a channel do not overlap it is disabled exactly when five in a row failed, and its count is that of the failures at the end |
| Breaker.CountsRightIff | apps/api/src/alerts/dispatcher.ts:58-94 | while nobody touches its row, a channel shows at every moment the failures at the end and whether five in a row failed, if and only if every delivery is timely when it ends: a failure read the row's present count, and four if the channel is off; a success read a positive count or finds none on the row |
| Breaker.OverlapCountsOnce | apps/api/src/alerts/dispatcher.ts:78-87 | any number of overlapping failures counts as one |
| Breaker.SwitchedOffIff | apps/api/src/routes/alerts.ts:131-135 | after an edit that switches a channel off it stays off over every run in which nobody edits it, exactly when each delivery under way had read four failures |
| Breaker.StaysOffIff | apps/api/src/routes/alerts.ts:131-135 | the same from any state in which the channel is off |
| Caches.ResponseCache.Look | apps/gateway/src/artifacts.ts:119-120 | a cached value is used while it has not expired |
| Caches.ResponseCache.Receive | apps/gateway/src/artifacts.ts:129-136 | an accepted answer is stored for a minute, and anything else leaves the cache as it was |
| Caches.RunKeeps | apps/gateway/src/artifacts.ts:116-137 | over every interleaving of lookups, answers and clock, each cached value was answered within a minute and one fetch limit of its expiry |
| Caches.UsedIsRecent | apps/gateway/src/artifacts.ts:77-137 | whatever is served at a time was answered by the API, for that key and with that value, less than a minute and one fetch limit before |
| Caches.RevokedStops | apps/api/src/routes/tokens.ts:489-498 | a revoked token is served no more 63 seconds later from the configuration cache and 65 seconds later from the file cache, even when an older answer overwrites a newer one |
| Caches.BoundReached | apps/gateway/src/artifacts.ts:116-137 | a run serves a revoked token up to the last millisecond of that bound |

## Left out

- Smtp.Session.OnData: takes characters, because the code decodes each chunk on its own; a character cut between two chunks is not modelled. What the socket does after QUIT and its timeout are output only.
- Text.ToLower: changes ASCII letters only; other letters, and case mappings that change the length, are not modelled.
- Zip.BuildZip: takes names and contents already in UTF-8; of the OOXML parts only the one with the tracking URL has its contents modelled.
- Manifest.CanonicalIffSame: prints every size as decimal digits, which JavaScript does below 10^21.
- ManifestAgent.AgentRebuildsIff: Go's parser of the downloaded manifest is modelled by what it makes of strings, names and sizes; a malformed download, base64 and the signature check are not modelled.
- Ntlm.RecoveredIffNamesFit: ParseAuthenticate and the hash line are not modelled.
- SmbFraming.Transport.RawReadMessage: which reads succeed before a raw client falls silent is a parameter, because it depends on read deadlines.
- Deployments.PlantedIff: calls into the operating system are parameters; the bytes of a planted file and the cleaning of its path are not modelled.
- Deployments.Console.Heartbeat: comparing a key with its hash is a parameter; the last-seen time, sensors and the poll interval are left out.
- Deployments.Console.Queue: starts after the checks of agent and token and after the artifact was chosen.
- DeploymentProgress.AllSettled: counts successful round trips after the agent is idle; how long a trip takes is not modelled.
- Triggers.Gateway.OnEvent: the order in which incidents are posted, and posts that are lost on the way, are not modelled.
- Triggers.Api.PostIncident: events have the shape the gateway sends; other JSON, source-address lookup and the id of the incident are left out.
- TriggerPipeline.FetchFires: how a client cuts a link into host and target is part of the model; what a browser does to a link beyond that is not.
- PdfPaths.TrackerReached: the viewer finds a key as the first place its characters stand in the object; a full parser of PDF objects is not modelled.
- Breaker.RunKeeps: secret merging and configuration checks of an edit are left out; a refused edit changes nothing.
- Caches.UsedIsRecent: a fetch is taken to end within its limit, as the abort signal says; scheduling delays after that are not modelled.
- `Breaker` and `Caches` keep their histories and tickets as part of the state of a run; the classes hold only what the code holds.
- The AWS key id is `AKIA` and the 12 letters that eight random bytes give; nothing else about the decoy credentials is modelled.
- Ed25519, SHA-256, X.509, code signing and self-update file swapping: foreign calls around the canonical manifest text.
- SSH, HTTP-login, file-watch, RDP and planted-credential sensors, and the fixed SMB and SPNEGO reply templates.
- The console, the installer, the MCP server, statistics, GeoIP, enrollment and the route tables.
