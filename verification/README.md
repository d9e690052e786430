# Proofs about the algorithms of a home-accessory firmware

The repository is firmware for ESP8266 and ESP32 chips that turns a chip into a HomeKit accessory. Between
its drivers and its web pages sit a number of self-contained algorithms, each with a simple specification and code
that looks nothing like it. This project models those algorithms in Dafny, in the form the code has (buffers,
cursors, marks, linked nodes and flash cells updated in place), states the simple specification beside each, and
proves that the two agree: over every input, every run, or every way in which the input can be cut or the
environment can behave.

`dafny verify dfyconfig.toml` checks the whole project.

## The parts

**HTTP parser** (`http_log`, `http_step`, `http_run`, `http_parser`, `http_feed`, `http_example`, `http_number`,
`http_framing`, `http_options`, `http_message`, `http_grammar`, `http_refusal`, `http_delivery`). `HttpStep` is the parser's switch as a function of one byte;
`HttpRun` turns it into a machine that is fed byte by byte, and shows what a mark set in one buffer becomes in the
next. `HttpParser.Parser` is the function as written: a cursor over a whole buffer, bulk loops over header names,
header values and bodies, marks, and the flush at the end. Its `Execute` is proved to end where the bytewise machine
ends, with exact conditions for the two exceptions (an illegal byte that is jumped over, and the header limit), and
`HttpFeed` concludes exactly when only the bytes matter and not how they are cut; `HttpExample` shows both
exceptions on concrete messages. `HttpFraming` audits the callbacks: what `on_body` receives in a message is exactly
what the headers or chunk sizes announced. `HttpMessage` goes the whole way from a request or a response that is put
together from its parts to the exact callbacks and to whether the connection is kept, with the options of Connection
headers as `HttpOptions` has them; `HttpDelivery` concludes it of the code, for messages that arrive in any pieces.
`HttpGrammar` compares characters and targets with RFC 7230 and RFC 3986, and `HttpRefusal` shows which request lines,
names and values are taken, and that all others are refused.

**URLs** (`http_url`, `http_assemble`). The two loops that find and divide the fields of a URL; what
they find decomposes the text, and a URL put together from legal parts is taken apart into the same parts.

**Over-the-air update** (`flash`, `ota`). A chip whose writes only clear bits; the download in ranges with
arbitrary fragments, failures and resumption, driven by two scripts of what the network and the flash do; what the
network must let through for the file to be installed; the signature's input; and the byte that is withheld until the
end so that half a file never boots.

**1-Wire** (`onewire_trie`, `onewire`, `onewire_search`, `onewire_crc`). The bus as a wired AND of all devices, the
search that remembers one bit position, and the enumeration of any set of devices that follows; both forms of the
8-bit checksum and the parity trick of the 16-bit one, against shift registers.

**cJSON** (`json_text`, `json_grammar`, `json_roundtrip`, `json_printer`, `json_parser`, `json_minify`,
`json_spelling`, `json_utf8`, `json_standard`, `json_layout`, `json_tight`, `json_children`). The text of a value, the grammar the parser
accepts, the round trip between them, then the code: a printer over a buffer that grows, a parser over a cursor, the
two passes over a string, the minifier in place, and the doubly linked list of children. `JsonSpelling` describes
all texts of a value and shows that the parser takes exactly those, `JsonStandard` that RFC 8259's strings and
numbers are among them, the strings as the characters that RFC 3629 decodes (`JsonUtf8`); `JsonLayout` lays out a
formatted print without knowing the value, and `JsonTight` shows that minifying any text the parser takes keeps its
value.

**HomeKit codecs and storage** (`json_calls`, `json_raw`, `json_stream`, `tlv`, `pairing_slots`, `pairing_store`).
The streaming writer against the document its calls describe; TLV8; and the pairing store, an ordered list kept in
forty slots of one flash sector.

**Event-driven machines** (`pwm`, `button`, `button_run`). The edge scheduler of the software PWM with its dithered
duties, and the button that is debounced and whose presses are told apart by timers.

## What turned out not to hold

These properties would be expected and fail; for each there is a concrete case or the exact condition.

- An illegal byte in a header value is caught or let through depending on how the message is cut
  (`HttpFeed.FeedWholeAndCut`, `HttpExample.IllegalByteNeedsTheRightCut`), and a header name or value cut by the end
  of a buffer counts one byte more (`HttpParser.Parser.Execute`, `HttpExample.CutNameCountsTwice`).
- A connection option is lost behind another piece of its header: behind the beginning of "close", "keep-alive" or
  "upgrade", behind an empty piece, and behind one that does not begin like an option; a tab beside it hides it too
  (`HttpOptions.FoundIff`, `HttpOptions.RegularIff`, `HttpOptions.CloseIsLost`).
- The first byte of a header value is not looked at, so a control character is taken there
  (`HttpRefusal.ValueTaken`, `HttpRefusal.ControlTaken`).
- A Content-Length is read with the blanks inside it passed over: "5 6" announces 56 bytes
  (`HttpFraming.ContentLengthIsNumeral`, `HttpFraming.BlankInsideLength`).
- The port of a URL that ends its buffer is read on behind it (`HttpUrl.ReadOnIsSame`, `HttpAssemble.PortReadsOn`),
  and fields beyond 65535 bytes are kept modulo 65536 (`HttpUrl.NarrowIffFits`, `HttpUrl.LongPathIsLost`).
- A JSON number of more than 63 characters is not read (`JsonStandard.NumberIsRead`), and a string is cut at an
  escaped NUL (`JsonStandard.StringsAreBodies`).
- A URL with a fragment directly after its authority is refused (`HttpAssemble.AssembledRoundTrip`,
  `HttpAssemble.FragmentAfterAuthority`).
- A file of at most 1024 bytes is hashed without its first byte put back, so it can only be installed if it starts
  with 0xFF (`Ota.HashedIsFileIff`, `Ota.ShortFileIsNotHashed`).
- The download returns 0 although nothing was downloaded if no connection is made after the file was located
  (`Ota.Installer.GetFile`, `Ota.LocatedOnly`).
- A device with a zero family byte hides all others, and one of all ones is missed (`OneWireSearch.ScanDevices`,
  `OneWireSearch.HiddenSensor`).
- TLV values of 255, 510, ... bytes run into a following value of their type (`Tlv.RoundTrip`,
  `Tlv.FullValueRunsOn`).
- Dithering above 32767 can push a duty out of sixteen bits (`Pwm.DutyConserved`, `Pwm.OneOverreaches`), and at low
  frequencies an interval's ticks can wrap (`Pwm.LoadNear`, `Pwm.HundredHertzWraps`).
- The streaming writer does not escape strings, so those with quotes or backslashes are lost
  (`JsonRaw.RawRoundTrip`, `JsonStream.QuoteIsNotTakenBack`).
- The streaming writer does not check how deep it nests: the 31st start writes behind its stack
  (`JsonStream.ShallowIffInside`, `JsonStream.LastStartIsOutside`).
- The minifier goes on behind the terminator of a text with an unclosed literal or comment
  (`JsonMinify.MinifiesIffClosed`, `JsonMinify.UnclosedLiteral`).
- A release in the disable time of the buttons turns a press into a hold (`ButtonRun.ReleaseNeedsHearing`,
  `ButtonRun.HeldThoughUp`), and after a push down in it the press is taken for a longer one
  (`ButtonRun.DownNeedsHearing`, `ButtonRun.VeryLongThoughShort`).

Where the code and what is written about it disagree, the model follows the code:
`libs/cJSON-rsf/cJSON_rsf.h:96` asks for five bytes more than a preallocated print needs, and two are enough and
necessary; `libs/homekit-rsf/src/storage.c:77-92` reads four bytes of magic and compares two of them;
`libs/new_onewire/onewire.c:276-281` asks for a reset to start a search over, and the search starts over by itself after
`ONEWIRE_NONE`.

## Conventions

Bytes are `bv8` where bits matter, characters in JSON text and integers below 256 elsewhere; C strings are sequences
without the terminator, or arrays with it. Fixed-width arithmetic is written out wherever it can wrap. What the
environment decides (fragments, failures, faults, samples, ticks) is a parameter or a script over which the
statements quantify. `Options` holds the one datatype that several modules share. Ghost parameters carry the
sequence that a linked or packed structure stands for.

## Model

| member | source | states |
|---|---|---|
| `HttpParser.Parser.constructor` | external_libs/http-parser/http-parser/http_parser.c:2144-2153 | a new parser is in the start state of its type, with all fields clear |
| `HttpParser.Parser.Execute` | external_libs/http-parser/http-parser/http_parser.c:634-2091 | where the bytewise run stops at an illegal byte that is not the first of its run in a plain header value, and only there, the call goes on past it; else it fails with `HEADER_OVERFLOW` exactly if the header limit is exceeded where the code looks at the count, and otherwise ends where feeding the same bytes one by one ends: same state, flags, length, error and bytes consumed, the same callbacks once adjacent data is joined, and the same header count, plus one exactly if the buffer ends amid a header name or value; what a failing call loses is one tail of the bytes it consumed, and exactly if the switch was entered with data under a mark. An empty buffer is the end of the input |
| `HttpParser.Parser.AtEof` | external_libs/http-parser/http-parser/http_parser.c:655-675 | an empty buffer completes a message that is read until the connection ends, is accepted between messages, and is an error anywhere else |
| `HttpParser.Parser.Loop` | external_libs/http-parser/http-parser/http_parser.c:677-2059 | every turn of the main loop, bulk or not, keeps the parser in step with the bytewise run, with at most one mark, the mark its state demands, and the count off by nothing between turns |
| `HttpParser.Parser.Turn` | external_libs/http-parser/http-parser/http_parser.c:702-709 | one byte counted as a header byte if it is one, then one of the three bulk forms; at the start of a chunk size the count is one, as the code asserts (1936) |
| `HttpParser.Parser.FieldScan` | external_libs/http-parser/http-parser/http_parser.c:1298-1411 | the inner loop over a header name reaches the state of as many bytewise turns |
| `HttpParser.Parser.FieldTail` | external_libs/http-parser/http-parser/http_parser.c:1411-1425 | the run is counted once, and a byte that is no token ends the name or fails |
| `HttpParser.Parser.ValueScan` | external_libs/http-parser/http-parser/http_parser.c:1506-1695 | the inner loop over a header value, with its skip to the line end, reaches the state of as many bytewise turns, short of the two cases named for `Execute` |
| `HttpParser.Parser.LineEnd` | external_libs/http-parser/http-parser/http_parser.c:1537-1558 | the two searches find the first line end within the limit, or the end of the buffer |
| `HttpParser.Parser.ValueTail` | external_libs/http-parser/http-parser/http_parser.c:1512-1526 | a line end delivers the value from its mark and nothing after it |
| `HttpParser.Parser.BodyBlock` | external_libs/http-parser/http-parser/http_parser.c:1882-1923 | a block of body bytes, skipped all but the last, is as good as its bytes one by one; chunk data too (2015-2036) |
| `HttpParser.Parser.CountRun` | external_libs/http-parser/http-parser/http_parser.c:154-161 | the header count grows by the run and fails exactly above the limit |
| `HttpParser.JumpedOver` | external_libs/http-parser/http-parser/http_parser.c:1535-1559 | an illegal byte right after another byte of the same plain value is jumped over |
| `HttpParser.SkipRun` | external_libs/http-parser/http-parser/http_parser.c:1535-1559 | what the skip over a plain value does to the bytewise run, up to where it stops; a skip longer than the limit exceeds it |
| `HttpParser.CountOverAtStart` | external_libs/http-parser/http-parser/http_parser.c:702-706 | a count above the limit at a byte where a turn starts exceeds the limit whatever follows |
| `HttpParser.FailsWithinLimit` | external_libs/http-parser/http-parser/http_parser.c:1528-1531 | an error amid a header value comes before its bytes are counted |
| `HttpParser.ChunkSizeStartsFresh` | external_libs/http-parser/http-parser/http_parser.c:1841-1841 | every pass that leads to the start of a chunk size sets the header count back (also 2049) |
| `HttpParser.BlockRun` | external_libs/http-parser/http-parser/http_parser.c:1882-1923 | taking `j` body bytes at once is `j` bytewise turns, under one mark set at the first |
| `HttpParser.PassLoses` | external_libs/http-parser/http-parser/http_parser.c:2085-2090 | an error leaves the data under the mark undelivered, and no other data |
| `HttpRun.DispatchFits` | external_libs/http-parser/http-parser/http_parser.c:2061-2083 | whatever the byte and the state, at most one mark is ever set, data is delivered only under its own mark, and notifications come between data: the assertion at the end of the function always holds |
| `HttpRun.DispatchOrderly` | external_libs/http-parser/http-parser/http_parser.c:677-700 | a pass does the same whether its mark was carried over in the buffer or set again at the start of the next |
| `HttpRun.StepInBuffer` | external_libs/http-parser/http-parser/http_parser.c:2070-2083 | one pass inside a buffer makes the callbacks of a call on that one byte, up to the data that stays under the mark |
| `HttpRun.RunConcat` | external_libs/http-parser/http-parser/http_parser.c:634-2091 | feeding two buffers bytewise is feeding their concatenation |
| `HttpExample.IllegalByteNeedsTheRightCut` | external_libs/http-parser/http-parser/http_parser.c:1528-1559 | a concrete message from a fresh parser that one call lets through and a cut before its last byte catches |
| `HttpExample.CutNameCountsTwice` | external_libs/http-parser/http-parser/http_parser.c:1298-1411 | a concrete header name whose bytes are counted once more when the buffer ends behind it |
| `HttpFeed.Feed` | external_libs/http-parser/http-parser/http_parser.c:634-2091 | any pieces, fed until one is not consumed: unless the bytes as a whole jump over an illegal one, the parser fails with `HEADER_OVERFLOW` exactly if some piece exceeds the limit, and otherwise is where their concatenation read bytewise ends, callbacks joined |
| `HttpFeed.FedAlongside` | external_libs/http-parser/http-parser/http_parser.c:1411-1414 | cutting changes nothing but the header count, by at most one for each piece that ends amid a header name or value |
| `HttpFeed.FarFromLimit` | external_libs/http-parser/http-parser/http_parser.c:154-161 | no piece exceeds the limit if the largest bytewise count, plus the number of pieces that end amid a header name or value, does not; cuts in bodies cost nothing |
| `HttpFeed.SkipsInWhole` | external_libs/http-parser/http-parser/http_parser.c:1535-1559 | a piece that jumps over an illegal byte makes the whole do so |
| `HttpFeed.FeedWholeAndCut` | external_libs/http-parser/http-parser/http_parser.c:1528-1559 | whenever the whole jumps over an illegal byte, the same bytes cut right before it end differently: with `FeedTwoWays`, the outcome is independent of the cuts exactly if the whole does not |
| `HttpFeed.FeedTwoWays` | external_libs/http-parser/http-parser/http_parser.c:634-2091 | the same bytes cut in two ways, where the whole jumps over nothing and neither exceeds the limit, give the same state, the same error, and the same callbacks once joined and once the data lost to an error is put back |
| `HttpFeed.TraceIsFramed` | external_libs/http-parser/http-parser/http_parser.c:634-2091 | wherever a fed parser is where the bytewise run ends, which `Feed` says exactly when, its callbacks keep the accounts of `CompleteMeansConserved`, and no assertion of the switch fails; that on the header count is shown in `Turn` |
| `HttpFraming.CompleteMeansConserved` | external_libs/http-parser/http-parser/http_parser.c:1836-1932 | each `message_complete` that bytes bring closes exactly one `headers_complete`, and between them `on_body` was given exactly the Content-Length or the sum of the chunk sizes (sections 3.3.3 and 4.1 of RFC 7230) |
| `HttpFraming.EofBodyIsDelivered` | external_libs/http-parser/http-parser/http_parser.c:1919-1923 | without a length, every byte up to the end of the connection goes to `on_body` |
| `HttpFraming.EofMessageIsOpen` | external_libs/http-parser/http-parser/http_parser.c:655-662 | the `message_complete` at the end of the connection closes exactly one `headers_complete`, that of a message without a length |
| `HttpFraming.DispatchKeeps` | external_libs/http-parser/http-parser/http_parser.c:708-2058 | every pass of the switch, for any byte and any verdict of the headers callback, keeps the parser and the callbacks made so far in agreement on what is left of the body |
| `HttpFraming.HeadersDoneKeeps` | external_libs/http-parser/http-parser/http_parser.c:1836-1880 | after the headers the parser goes into the kind of body its flags and length call for |
| `HttpFraming.RunIsFramed` | external_libs/http-parser/http-parser/http_parser.c:634-2091 | the agreement holds over every run of bytes |
| `HttpFraming.FreshIsFramed` | external_libs/http-parser/http-parser/http_parser.c:2144-2153 | a new parser starts in agreement |
| `HttpFraming.ContentLengthIsDecimal` | external_libs/http-parser/http-parser/http_parser.c:1565-1591 | a Content-Length is read with its blanks passed over: it is accepted exactly if the number of the digits that remain is below 18446744073709551610, is then that number, and never the sentinel; otherwise the length error is raised |
| `HttpFraming.ContentLengthIsNumeral` | external_libs/http-parser/http-parser/http_parser.c:1574-1574 | an accepted length is the numeral up to the first blank (section 3.3.2 of RFC 7230) exactly if no digit follows a blank, or if there is nothing but zeros |
| `HttpFraming.BlankInsideLength` | external_libs/http-parser/http-parser/http_parser.c:1574-1574 | "5 6" is accepted, as 56 |
| `HttpNumber.UnspacedIsSame` | external_libs/http-parser/http-parser/http_parser.c:1565-1591 | when passing over blanks keeps a number: the condition of `ContentLengthIsNumeral` over all texts of digits and blanks |
| `HttpFraming.ChunkSizeIsHexadecimal` | external_libs/http-parser/http-parser/http_parser.c:1934-1985 | the same for a chunk size, with 18446744073709551600 |
| `HttpMessage.FieldTracks` | external_libs/http-parser/http-parser/http_parser.c:1315-1406 | at every byte of a header name the parser's state says which of the known names the bytes so far could still become, or that they are none of them |
| `HttpMessage.TracksTell` | external_libs/http-parser/http-parser/http_parser.c:1298-1425 | a header is taken for Connection, Content-Length, Transfer-Encoding or Upgrade exactly if its name, letter case aside, is that name (or Proxy-Connection) |
| `HttpMessage.NextVerb` | external_libs/http-parser/http-parser/http_parser.c:997-1051 | from the guess by the first letter on, every character of each of the 33 methods leads on to that method |
| `HttpMessage.RequestLineRead` | external_libs/http-parser/http-parser/http_parser.c:954-1246 | the line of each of the 33 methods, CONNECT with its authority among them: method, target and version are read, the target is delivered, and nothing else is reported |
| `HttpMessage.ResponseLineRead` | external_libs/http-parser/http-parser/http_parser.c:758-951 | version, the three digits of the status code and the reason are read, the reason is delivered if there is one, and nothing else is reported |
| `HttpMessage.HeadersRead` | external_libs/http-parser/http-parser/http_parser.c:1248-1773 | any legal headers, empty values among them, are delivered name by name and value by value; what they say about the body, which connection options they have and whether they ask for an upgrade is in the parser as the header list has it |
| `HttpMessage.HeadersEnd` | external_libs/http-parser/http-parser/http_parser.c:1775-1880 | `on_headers_complete` can tell how the body is delimited, up to the end of the connection exactly for a response without a length whose status allows a body; a message without a body is complete, and the parser leaves the connection to another protocol exactly where it has to |
| `HttpMessage.WholeBody` | external_libs/http-parser/http-parser/http_parser.c:1882-1932 | a body of the announced length is delivered whole, and the message is complete at its last byte |
| `HttpMessage.ChunksRead` | external_libs/http-parser/http-parser/http_parser.c:1934-2056 | each chunk is announced with its size, delivered whole and closed |
| `HttpMessage.MessageIsReported` | external_libs/http-parser/http-parser/http_parser.c:634-2091 | a request put together from a method, a target and a version, or a response from a version, a status code and a reason, with headers and a body of a known length, in chunks or up to the end of the connection, is reported part by part, in order and with nothing added; the parser then waits for the next message exactly if the connection is kept, and is dead otherwise |
| `HttpMessage.KeepsIff` | external_libs/http-parser/http-parser/http_parser.c:2095-2135 | from version 1.1 on the connection is kept exactly if no Connection header has the option "close", with version 1.0 exactly if one has "keep-alive" (section 6.3 of RFC 7230), and never behind a response that needs the end of the connection; it is left to another protocol exactly after CONNECT, or with an Upgrade header and the option "upgrade" (also 1786-1795) |
| `HttpMessage.MessagesAreReported` | external_libs/http-parser/http-parser/http_parser.c:634-2091 | messages that follow each other on a connection that is kept are reported one after the other, and the parser ends as the last of them says |
| `HttpMessage.NothingMore` | external_libs/http-parser/http-parser/http_parser.c:708-719 | behind a message that does not keep the connection line ends are passed over and the first other byte fails with `CLOSED_CONNECTION` |
| `HttpDelivery.Deliver` | external_libs/http-parser/http-parser/http_parser.c:634-2091 | the same of the code itself, for requests or responses cut into pieces in any way, unless the header limit is exceeded; the parser ends in the state in which it waits for another message exactly if the connection is kept |
| `HttpDelivery.DeliverToTheEnd` | external_libs/http-parser/http-parser/http_parser.c:655-675 | the end of the connection behind them is no error, and brings a further `message_complete` exactly if the body of the last message goes on until then |
| `HttpOptions.KnowsMore` | external_libs/http-parser/http-parser/http_parser.c:1593-1695 | at every byte of a Connection value the state and the flags are those of the pieces between its commas, stated without the parser's states |
| `HttpOptions.KnowsAll` | external_libs/http-parser/http-parser/http_parser.c:1716-1731 | at the end of the line the flags for "close", "keep-alive" and "upgrade" are set exactly for the options that were heard |
| `HttpOptions.FoundIff` | external_libs/http-parser/http-parser/http_parser.c:1593-1695 | what is heard is in the list of section 6.1 of RFC 7230, letter case aside: exactly the options at a place where one is read and without a tab beside them |
| `HttpOptions.RegularIff` | external_libs/http-parser/http-parser/http_parser.c:1593-1695 | behind pieces that are not blank, are no beginning of one of the three words and begin like an option, the next piece is read as an option; behind the first that is not so it is not |
| `HttpOptions.RegularIsListed` | external_libs/http-parser/http-parser/http_parser.c:1593-1695 | a list of such pieces without tabs is heard as it is |
| `HttpOptions.IrregularIsLost` | external_libs/http-parser/http-parser/http_parser.c:1593-1695 | an option right behind the first other piece is in the list and not heard |
| `HttpOptions.CloseIsLost` | external_libs/http-parser/http-parser/http_parser.c:1593-1695 | "close" is lost in "c,close", in "a,,close" and in "a,_x,close" |
| `HttpOptions.PiecesJoin` | external_libs/http-parser/http-parser/http_parser.c:1653-1681 | the pieces are what stands between the commas |
| `HttpGrammar.TokenIs` | external_libs/http-parser/http-parser/http_parser.c:185-221 | the characters of names are exactly the token characters of section 3.2.6 of RFC 7230, and are compared without letter case |
| `HttpGrammar.ValueByteIs` | external_libs/http-parser/http-parser/http_parser.c:442-443 | the bytes of values are exactly those of section 3.2 of RFC 7230: visible ones, those from 128 on, blanks and tabs |
| `HttpGrammar.UserinfoIs` | external_libs/http-parser/http-parser/http_parser.c:417-423 | the characters of an authority are exactly those of section 3.2.1 of RFC 3986 |
| `HttpGrammar.HostIs` | external_libs/http-parser/http-parser/http_parser.c:429-429 | a host has letters, digits, hyphens and dots |
| `HttpGrammar.SlashTarget` | external_libs/http-parser/http-parser/http_parser.c:486-632 | a target that begins with a slash or an asterisk is legal exactly if all of it is visible ASCII |
| `HttpGrammar.OriginIsTarget` | external_libs/http-parser/http-parser/http_parser.c:486-632 | every target in origin form is legal (section 5.3.1 of RFC 7230 and section 3.3 of RFC 3986) |
| `HttpGrammar.AbsoluteIsTarget` | external_libs/http-parser/http-parser/http_parser.c:486-632 | and every one in absolute form whose scheme is letters |
| `HttpGrammar.AuthorityIsTarget` | external_libs/http-parser/http-parser/http_parser.c:1055-1064 | and, for CONNECT, every authority |
| `HttpRefusal.MethodTaken` | external_libs/http-parser/http-parser/http_parser.c:963-1052 | a word is taken for a method exactly if it is the name of one of the 33, and then for that one; any other fails with `INVALID_METHOD` |
| `HttpRefusal.TargetTaken` | external_libs/http-parser/http-parser/http_parser.c:1055-1125 | a target is taken exactly if it is legal; any other fails with `INVALID_URL` |
| `HttpRefusal.VersionTaken` | external_libs/http-parser/http-parser/http_parser.c:1127-1246 | a version is taken exactly if it is "HTTP/", a number up to 999 that does not begin with a zero, a point and a number up to 999 |
| `HttpRefusal.RequestLineTaken` | external_libs/http-parser/http-parser/http_parser.c:954-1246 | so a request line of three words is taken exactly if they are a method, a target legal for it, and a version |
| `HttpRefusal.NameTaken` | external_libs/http-parser/http-parser/http_parser.c:1248-1425 | a header name is taken exactly if it is a token; any other fails with `INVALID_HEADER_TOKEN` |
| `HttpRefusal.ValueTaken` | external_libs/http-parser/http-parser/http_parser.c:1442-1695 | a value other than a length is taken exactly if all its bytes but the first may stand in a value: the first is not looked at |
| `HttpRefusal.ControlTaken` | external_libs/http-parser/http-parser/http_parser.c:1442-1531 | a value of one control character is taken |
| `HttpUrl.UrlInfo.Parse` | external_libs/http-parser/http-parser/http_parser.c:2342-2444 | from a buffer of at most 65535 bytes, whatever bytes lie behind it: fails exactly if the URL is refused or its port with the digits behind exceeds 65535, and otherwise holds fields that decompose the buffer |
| `HttpUrl.UrlInfo.FindFields` | external_libs/http-parser/http-parser/http_parser.c:2351-2411 | the first loop finds the fields of the bytewise scan, their offsets and lengths kept in sixteen bits |
| `HttpUrl.UrlInfo.DivideHost` | external_libs/http-parser/http-parser/http_parser.c:2255-2335 | the authority is divided where it stands into user, host and port, offsets and lengths again in sixteen bits |
| `HttpUrl.UrlInfo.Finish` | external_libs/http-parser/http-parser/http_parser.c:2426-2443 | CONNECT demands a host and a port and nothing else; a port above 65535 is refused, as `strtoul` reads it |
| `HttpUrl.AcceptedIsDecomposed` | external_libs/http-parser/http-parser/http_parser.c:2342-2444 | the fields of an accepted URL lie inside it, are not empty, are disjoint and in order, with nothing but delimiters between them, and the port is the value of its digits, with those behind the buffer if it ends there |
| `HttpUrl.ReadOnIsSame` | external_libs/http-parser/http-parser/http_parser.c:2431-2441 | bytes behind the buffer make no difference exactly if no port ends it, or no digit follows, or port and digits are zeros |
| `HttpUrl.NarrowIffFits` | external_libs/http-parser/http-parser/http_parser.h:363-366 | a field is kept as it is exactly if its offset and its length fit in sixteen bits |
| `HttpUrl.LongPathIsLost` | external_libs/http-parser/http-parser/http_parser.c:2396-2404 | a path of 65536 bytes is accepted and kept as an empty one |
| `HttpUrl.ScanToStops` | external_libs/http-parser/http-parser/http_parser.c:2354-2411 | the host ends before a byte that is no digit, or with what was read |
| `HttpUrl.ScanToScans` | external_libs/http-parser/http-parser/http_parser.c:2354-2411 | at every byte of the first loop, the fields so far are laid out in what was read |
| `HttpUrl.HostToDivides` | external_libs/http-parser/http-parser/http_parser.c:2268-2318 | the same at every byte of the authority |
| `HttpUrl.UrlGoesOn` | external_libs/http-parser/http-parser/http_parser.c:486-632 | a URL is only read forward, and a byte that belongs to no field is a delimiter |
| `HttpUrl.HostGoesOn` | external_libs/http-parser/http-parser/http_parser.c:2173-2253 | which states of the authority lead where |
| `HttpAssemble.AssembledRoundTrip` | external_libs/http-parser/http-parser/http_parser.c:2342-2444 | scheme://user@host:port/path?query#fragment put together from legal parts, the host a name or a bracketed address with or without a zone, gives back each part (section 3 of RFC 3986), if and only if no fragment follows the authority directly; that one kind is refused |
| `HttpAssemble.FragmentAfterAuthority` | external_libs/http-parser/http-parser/http_parser.c:540-564 | "a://b#c" is refused |
| `HttpAssemble.TargetRoundTrip` | external_libs/http-parser/http-parser/http_parser.c:2426-2443 | host:port as CONNECT takes it gives back the host and the port, and nothing else |
| `HttpAssemble.PortReadsOn` | external_libs/http-parser/http-parser/http_parser.c:2433-2433 | "h:8" followed by "0" is given port 80 |
| `Flash.ReadsBackIffNoBitNeedsSetting` | HAA/HAA_Installer/main/ota.c:666-697 | data programmed into flash reads back exactly if it needs no cleared bit set; on erased cells it always does |
| `Flash.Chip.Write` | HAA/HAA_Installer/main/ota.c:683-696 | programming clears bits and sets none |
| `Flash.Chip.EraseSector` | HAA/HAA_Installer/main/ota.c:668-680 | an erase sets the bits of one whole sector |
| `Ota.Installer.NewConnection` | HAA/HAA_Installer/main/ota.c:535-559 | succeeds exactly if one of the next four attempts of the script does, and takes those it needs |
| `Ota.Installer.Store` | HAA/HAA_Installer/main/ota.c:666-699 | erases before the first bytes of a sector, writes only onto erased cells, keeps back byte 0 of the file, and leaves all other sectors alone; it succeeds if the flash does |
| `Ota.Installer.Receive` | HAA/HAA_Installer/main/ota.c:594-724 | one read of a response: exactly if it fails, or if the headers come first and are of no use, nothing is stored and the range starts over |
| `Ota.Installer.ReceiveRange` | HAA/HAA_Installer/main/ota.c:583-724 | for any fragments, failed reads and useless headers, either the whole range is in flash or the position is back at its start; a response whose first read fails or has no use stores nothing; and while the network gets on, the range does |
| `Ota.Installer.GetRange` | HAA/HAA_Installer/main/ota.c:566-774 | one turn of the download loop: a request that fails to be sent, or whose range starts over, counts as a try, and bytes that are stored set the count back |
| `Ota.Installer.GetRanges` | HAA/HAA_Installer/main/ota.c:563-776 | the download loop ends with the whole file, or reports that it has not got it; with it, if the network gets on and the flash works |
| `Ota.Installer.GetFile` | HAA/HAA_Installer/main/ota.c:491-795 | if among any fifteen chances of the network in a row at most three are bad, and there are enough of them, and the flash works and the file fits, it returns 0 with the whole file. Whatever the network and the flash do, the slot holds the file from byte 1 up to what is reported as collected, which is a multiple of 4096 or the whole file, and the withheld byte is the file's, so the download can be resumed from there; when it returns 0 the whole file is there exactly if a connection was made after the file was located, and if none was it returns 0 with nothing downloaded |
| `Ota.SetBack` | HAA/HAA_Installer/main/ota.c:614-629 | a bad chance costs at most three others and a range: with at most three bad ones in any fifteen neither the four tries run out nor the four attempts to connect |
| `Ota.AllGoodReaches` | HAA/HAA_Installer/main/ota.c:563-776 | without bad chances three for each byte and two more are enough |
| `Ota.LocatedOnly` | HAA/HAA_Installer/main/ota.c:561-563 | a concrete run that returns 0 with nothing downloaded |
| `Ota.Installer.HashInput` | HAA/HAA_Installer/main/ota.c:827-858 | the bytes hashed are those of the slot with byte 0 put back, which the block loop does only for more than 1024 bytes |
| `Ota.HashedIsFileIff` | HAA/HAA_Installer/main/ota.c:836-858 | after a whole download the hashed bytes are the file exactly if it is longer than 1024 bytes or starts with 0xFF |
| `Ota.ShortFileIsNotHashed` | HAA/HAA_Installer/main/ota.c:836-858 | a file of one zero byte whose hashed bytes are not the file |
| `Ota.Installer.Finalize` | HAA/HAA_Installer/main/ota.c:876-887 | programs the withheld byte and nothing else |
| `Ota.Installer.GetParts` | HAA/HAA_Installer/main/main.c:247-277 | each part goes on where the one before stopped; with a network that gets on one part is enough |
| `Ota.Installer.Install` | HAA/HAA_Installer/main/main.c:247-277 | a file that fits, is genuine, and is longer than 1024 bytes or starts with 0xFF is installed byte for byte, whenever the network gets on and the flash works; over a whole installation byte 0 of the slot is erased at every flash operation from the first erase to the last write, and if the signature is good for the file alone, an installed slot is the file |
| `Ota.FinishedSlot` | HAA/HAA_Installer/main/ota.c:876-887 | a slot whose hash only the file has, once its first byte is written, is the file |
| `OneWireSearch.Bus.ReadBit` | libs/new_onewire/onewire.c:139-158 | a line that all addressed devices share is high exactly if none of them sends a zero |
| `OneWireSearch.Bus.WriteBit` | libs/new_onewire/onewire.c:115-137 | devices with another bit drop out |
| `OneWireSearch.Search.Start` | libs/new_onewire/onewire.c:260-263 | the next call starts over |
| `OneWireSearch.Search.Fork` | libs/new_onewire/onewire.c:321-372 | reads both sides of a bit, picks the one the search rule says, records it and tells the bus; ends the walk exactly if no device is left |
| `OneWireSearch.Search.Walk` | libs/new_onewire/onewire.c:319-387 | the walk ends at the first device of the bus, or at the one right after the last in the order of address bits, lowest first, and leaves the last clear fork as the new discrepancy |
| `OneWireSearch.Search.Collect` | libs/new_onewire/onewire.c:395-398 | the address has byte 0 lowest |
| `OneWireSearch.Search.Next` | libs/new_onewire/onewire.c:289-402 | returns the first device, then each time the one right after the last, then `ONEWIRE_NONE` once, and the call after that starts over; a device with a zero family byte ends the search |
| `OneWireTrie.LeastAfterForkFollows` | libs/new_onewire/onewire.c:336-349 | taking the set side of the last fork where the last address took the clear one, and the first device from there on, gives the device right after the last: one number is memory enough |
| `OneWireTrie.NoForkIsLast` | libs/new_onewire/onewire.c:378-383 | no such fork is left exactly at the last device |
| `OneWireTrie.LeastFromChoices` | libs/new_onewire/onewire.c:332-349 | a device reached by taking the set side only where no device has the clear one is the first of its subtree |
| `OneWire.WriteBitOf` | libs/new_onewire/onewire.c:351-357 | writing a bit under the mask changes that bit of the address and no other |
| `OneWire.NextPlace` | libs/new_onewire/onewire.c:362-371 | the mask and the byte number walk over all 64 bits |
| `OneWire.AddressInjective` | libs/new_onewire/onewire.c:395-398 | different devices have different addresses |
| `OneWireSearch.OnlyAllOnesIsNone` | libs/new_onewire/onewire.h:27-31 | only the address of all ones looks like `ONEWIRE_NONE` |
| `OneWireSearch.WalkedAll` | libs/new_onewire/onewire.c:289-402 | when nothing comes after the last device, every device was returned |
| `OneWireSearch.WalkedOnce` | libs/new_onewire/onewire.c:289-402 | none was returned twice |
| `OneWireSearch.ScanDevices` | libs/new_ds18b20/ds18b20.c:241-257 | the whole enumeration over any set of devices: those visited are visited once, in order, and are all but the one of all ones, or none if there is a zero family byte; that is all devices exactly if each can be reported; the temperature sensors among them are counted, and the first of them stored as far as the list goes |
| `OneWireSearch.AllOnesLast` | libs/new_onewire/onewire.c:395-402 | the address of all ones comes after every other, so it ends the search where it would be reported |
| `OneWireSearch.HiddenSensor` | libs/new_ds18b20/ds18b20.c:241-257 | a concrete bus on which a sensor is not found |
| `OneWireCrc.SerialCrc8` | libs/new_onewire/onewire.c:458-471 | the bit-by-bit form computes the checksum of the shift register with polynomial 0x8C |
| `OneWireCrc.TableCrc8` | libs/new_onewire/onewire.c:445-452 | the table form, with the table of the source, computes the same for every byte string |
| `OneWireCrc.AppendedGivesZero` | libs/new_onewire/onewire.c:445-471 | a message followed by a byte has checksum zero exactly if that byte is its checksum |
| `OneWireCrc.BurstDetected` | libs/new_onewire/onewire.c:445-471 | messages that differ only within eight bits in a row never share a checksum |
| `OneWireCrc.ParityKept` | libs/new_onewire/onewire.c:445-471 | the checksums differ in an odd number of bits exactly if the messages do |
| `OneWireCrc.OddErrorDetected` | libs/new_onewire/onewire.c:445-471 | an error of an odd number of bits is always seen |
| `OneWireCrc.TrickCrc16` | libs/new_onewire/onewire.c:511-533 | the parity form computes the reflected 16-bit checksum with polynomial 0xA001 for every input and start value |
| `OneWireCrc.CheckCrc16` | libs/new_onewire/onewire.c:494-497 | accepts exactly if the checksum of the message together with its two received bytes is 0xB001 |
| `JsonRoundTrip.RoundTrip` | libs/cJSON-rsf/cJSON_rsf.c:838-883 | either print of a tree is parsed back to the same tree, with or without the demand that nothing follow it, exactly if the tree is nested at most 1000 deep |
| `JsonRoundTrip.TextReads` | libs/cJSON-rsf/cJSON_rsf.c:1030-1081 | at any offset and depth, parsing a printed value gives the value and stops right behind it |
| `JsonRoundTrip.EscapedReads` | libs/cJSON-rsf/cJSON_rsf.c:582-637 | resolving the escapes of an escaped string gives the string |
| `JsonRoundTrip.EscapedCloses` | libs/cJSON-rsf/cJSON_rsf.c:549-571 | no character of an escaped string is taken for the closing quote |
| `JsonRoundTrip.NumeralReads` | libs/cJSON-rsf/cJSON_rsf.c:148-208 | a numeral is read whole, and nothing after it |
| `JsonPrinter.PrintBuffer.Ensure` | libs/cJSON-rsf/cJSON_rsf.c:227-292 | there is room for the bytes asked for and a terminator exactly if the buffer may grow that far; what was written is kept |
| `JsonPrinter.PrintBuffer.UpdateOffset` | libs/cJSON-rsf/cJSON_rsf.c:295-305 | the offset moves over exactly what was printed |
| `JsonPrinter.PrintBuffer.PrintNumber` | libs/cJSON-rsf/cJSON_rsf.c:308-375 | the token, if it has at most 25 characters |
| `JsonPrinter.PrintBuffer.PrintStringPtr` | libs/cJSON-rsf/cJSON_rsf.c:665-784 | the escaped string between quotes; the count of extra characters is exact |
| `JsonPrinter.PrintBuffer.PrintValue` | libs/cJSON-rsf/cJSON_rsf.c:1084-1155 | succeeds exactly if the text and two bytes fit, and has then appended exactly the text of the value, in any buffer and however it grows |
| `JsonPrinter.PrintBuffer.PrintArray` | libs/cJSON-rsf/cJSON_rsf.c:1252-1311 | the same for an array |
| `JsonPrinter.PrintBuffer.PrintObject` | libs/cJSON-rsf/cJSON_rsf.c:1423-1534 | the same for an object |
| `JsonPrinter.CountEscapes` | libs/cJSON-rsf/cJSON_rsf.c:692-716 | the count of characters that escaping adds |
| `JsonPrinter.Print` | libs/cJSON-rsf/cJSON_rsf.c:925-980 | the text and its terminator, and nothing more |
| `JsonPrinter.PrintBuffered` | libs/cJSON-rsf/cJSON_rsf.c:982-1009 | the same text whatever the size the buffer starts with |
| `JsonPrinter.PrintPreallocated` | libs/cJSON-rsf/cJSON_rsf.c:1011-1027 | two bytes more than the text are enough and fewer never are; nothing is written outside |
| `JsonText.TextNoNul` | libs/cJSON-rsf/cJSON_rsf.c:665-784 | no text contains the byte that ends it |
| `JsonLayout.FormattedIsLaid` | libs/cJSON-rsf/cJSON_rsf.c:1252-1525 | the formatted print is what a pass over the unformatted one makes of it, which knows the brackets that are open and nothing of the value: a member to a line behind as many tabs as brackets are open, the elements of an array in one line |
| `JsonParser.ParseBuffer.SkipWhitespace` | libs/cJSON-rsf/cJSON_rsf.c:801-819 | past every byte up to the blank, and never past the end |
| `JsonParser.ParseBuffer.ParseNumber` | libs/cJSON-rsf/cJSON_rsf.c:148-208 | at most 63 number characters are looked at, and as many taken as convert |
| `JsonParser.ParseBuffer.FindEnd` | libs/cJSON-rsf/cJSON_rsf.c:549-571 | the first pass finds the closing quote, or none, and counts the escapes |
| `JsonParser.ParseBuffer.ReadLiteral` | libs/cJSON-rsf/cJSON_rsf.c:415-476 | the code point of one or two `\u` sequences, or a failure for half a pair |
| `JsonParser.ParseBuffer.WriteUtf8` | libs/cJSON-rsf/cJSON_rsf.c:478-529 | the UTF-8 bytes, written from the last to the first |
| `JsonParser.ParseBuffer.Decode` | libs/cJSON-rsf/cJSON_rsf.c:573-640 | for every input, well formed or not, the second pass stays inside the buffer that the first one sized, and gives the resolved string or fails with the grammar |
| `JsonParser.HeadsInTwo` | libs/cJSON-rsf/cJSON_rsf.c:549-580 | two places in a row hold at most one counted escape: why the buffer is large enough |
| `JsonParser.ParseBuffer.ParseString` | libs/cJSON-rsf/cJSON_rsf.c:536-662 | agrees with the grammar on every input, in value, end and failure |
| `JsonParser.ParseBuffer.ParseValue` | libs/cJSON-rsf/cJSON_rsf.c:1030-1081 | agrees with the grammar on every input |
| `JsonParser.ParseBuffer.ParseArray` | libs/cJSON-rsf/cJSON_rsf.c:1158-1249 | the same, the nesting limit included |
| `JsonParser.ParseBuffer.ParseObject` | libs/cJSON-rsf/cJSON_rsf.c:1314-1420 | the same |
| `JsonParser.Parse` | libs/cJSON-rsf/cJSON_rsf.c:838-921 | the value the grammar gives to the text, past a byte order mark, or nothing |
| `JsonParser.PrintThenParse` | libs/cJSON-rsf/cJSON_rsf.c:838-980 | printing and then parsing gives the same tree, or nothing if it is nested more than 1000 deep |
| `JsonSpelling.SpelledReads` | libs/cJSON-rsf/cJSON_rsf.c:1030-1420 | every text of a value, with any white space, escapes and numerals, at any place and depth, is read to its end as that value, unless it is nested too deeply |
| `JsonSpelling.ValueSpelled` | libs/cJSON-rsf/cJSON_rsf.c:1030-1420 | and whatever is read is such a text of the value it is read as |
| `JsonSpelling.SpelledParses` | libs/cJSON-rsf/cJSON_rsf.c:838-883 | the same of whole texts, with or without a byte order mark, white space before and after |
| `JsonSpelling.ParsedIffSpelled` | libs/cJSON-rsf/cJSON_rsf.c:838-883 | a text is taken as a whole for a value exactly if it is a text of that value, as section 2 of RFC 8259 puts texts together, and the value is nested at most 1000 deep |
| `JsonSpelling.BodyReads` | libs/cJSON-rsf/cJSON_rsf.c:536-662 | where a string closes and what it stands for depends on its own characters alone |
| `JsonSpelling.ConvertedTwice` | libs/cJSON-rsf/cJSON_rsf.c:186-200 | what is converted of a numeral is itself converted whole |
| `JsonStandard.StringsAreBodies` | libs/cJSON-rsf/cJSON_rsf.c:536-662 | every string of section 7 of RFC 8259, with characters as they are, short escapes, codes in digits of either letter case and surrogate pairs, is read as its characters in UTF-8, up to the first NUL among them; what is not UTF-8 is kept byte for byte |
| `JsonStandard.LiteralsAreRead` | libs/cJSON-rsf/cJSON_rsf.c:1030-1055 | the literals of section 3 of RFC 8259, with any of its white space around them, are read as what they stand for |
| `JsonUtf8.Utf8Encodes` | libs/cJSON-rsf/cJSON_rsf.c:478-527 | every code point is written in the form that section 3 of RFC 3629 allows for it |
| `JsonUtf8.EncodedOnce` | libs/cJSON-rsf/cJSON_rsf.c:478-527 | which is the shortest of all sequences with these bits, and the only one of its length |
| `JsonUtf8.PrefixFree` | libs/cJSON-rsf/cJSON_rsf.c:478-527 | no character is the front of another |
| `JsonUtf8.DecodedInTurn` | libs/cJSON-rsf/cJSON_rsf.c:582-637 | texts in a row are decoded one by one |
| `JsonUtf8.HexReadsBack` | libs/cJSON-rsf/cJSON_rsf.c:377-411 | four digits in either letter case are read as their number |
| `JsonUtf8.OnlyDigitsRead` | libs/cJSON-rsf/cJSON_rsf.c:377-411 | and no other character is a digit |
| `JsonStandard.EscapedIfMust` | libs/cJSON-rsf/cJSON_rsf.c:719-784 | the printer escapes exactly the characters that section 7 of RFC 8259 wants escaped, with the short escape if there is one |
| `JsonStandard.DecimalConverts` | libs/cJSON-rsf/cJSON_rsf.c:186-200 | every number of section 6 of RFC 8259 is converted whole |
| `JsonStandard.NumberIsRead` | libs/cJSON-rsf/cJSON_rsf.c:148-208 | and is read exactly if it has at most 63 characters |
| `JsonMinify.MinifiedPrint` | libs/cJSON-rsf/cJSON_rsf.c:2427-2495 | minifying the formatted print of a tree gives its unformatted print, whatever follows the terminator |
| `JsonMinify.Minify` | libs/cJSON-rsf/cJSON_rsf.c:2427-2495 | in place, the result is that of the text as it was: writing never overtakes reading, and nothing behind the new terminator changes |
| `JsonMinify.MinifyNext` | libs/cJSON-rsf/cJSON_rsf.c:2431-2492 | one turn passes over a blank or a comment, or copies a literal or another character |
| `JsonMinify.MinifiesIffClosed` | libs/cJSON-rsf/cJSON_rsf.c:2427-2495 | a text can be minified exactly if its terminator comes outside of literals and of comments that need closing; in all others the code goes on behind it |
| `JsonMinify.UnclosedLiteral` | libs/cJSON-rsf/cJSON_rsf.c:2465-2480 | a concrete text that is not closed |
| `JsonMinify.PrintThenMinify` | libs/cJSON-rsf/cJSON_rsf.c:925-975 | the formatted print, minified in its buffer, is the unformatted print |
| `JsonTight.TightMeans` | libs/cJSON-rsf/cJSON_rsf.c:2427-2495 | a text without the white space that the minifier takes out is a text of the same value |
| `JsonTight.MinifiedMeansSame` | libs/cJSON-rsf/cJSON_rsf.c:2427-2495 | every text that is parsed as a whole can be minified, and what is left parses as a whole to the same value |
| `JsonTight.MinifyText` | libs/cJSON-rsf/cJSON_rsf.c:2427-2495 | the same in the buffer |
| `JsonChildren.AddItemToArray` | libs/cJSON-rsf/cJSON_rsf.c:1663-1690 | a well-linked list stays so, with the item at its end |
| `JsonChildren.InsertItemInArray` | libs/cJSON-rsf/cJSON_rsf.c:1950-1977 | the item stands before the one at that place, or at the end; a negative place changes nothing |
| `JsonChildren.DetachItemViaPointer` | libs/cJSON-rsf/cJSON_rsf.c:1880-1908 | the list without the item, which is left on its own |
| `JsonChildren.DetachItemFromArray` | libs/cJSON-rsf/cJSON_rsf.c:1910-1918 | the same by place; a place that is not there gives nothing and changes nothing |
| `JsonChildren.ReplaceItemViaPointer` | libs/cJSON-rsf/cJSON_rsf.c:1979-2012 | the replacement in the place of the item, also if it is the item itself |
| `JsonChildren.ReplaceItemInArray` | libs/cJSON-rsf/cJSON_rsf.c:2014-2022 | the same by place |
| `JsonChildren.GetArraySize` | libs/cJSON-rsf/cJSON_rsf.c:1537-1558 | the number of children |
| `JsonChildren.GetArrayItem` | libs/cJSON-rsf/cJSON_rsf.c:1560-1587 | the child at a place, or none |
| `JsonChildren.Run` | libs/cJSON-rsf/cJSON_rsf.c:1663-2022 | after any run of these edits with new items the list is linked both ways without a cycle, and its contents are those of the same edits on a sequence |
| `JsonStream.Stream.constructor` | libs/homekit-rsf/src/json.c:19-25 | an empty document |
| `JsonStream.Stream.Flush` | libs/homekit-rsf/src/json.c:32-45 | hands over the whole buffer |
| `JsonStream.Stream.Put` | libs/homekit-rsf/src/json.c:47-52 | the output is longer by the character, and there is room for another |
| `JsonStream.Stream.Write` | libs/homekit-rsf/src/json.c:54-71 | the output is longer by the text, however long it is |
| `JsonStream.Stream.ObjectStart` | libs/homekit-rsf/src/json.c:73-95 | the document after the call, or the error state and no output; the state and the nesting stack are those of the document |
| `JsonStream.Stream.ObjectEnd` | libs/homekit-rsf/src/json.c:97-127 | the same; the state is again that of the frame the object was in |
| `JsonStream.Stream.ArrayStart` | libs/homekit-rsf/src/json.c:129-151 | the same |
| `JsonStream.Stream.ArrayEnd` | libs/homekit-rsf/src/json.c:153-183 | the same |
| `JsonStream.Stream.PutInteger` | libs/homekit-rsf/src/json.c:185-222 | the same; a comma comes before it exactly in an array with values |
| `JsonStream.Stream.PutBool` | libs/homekit-rsf/src/json.c:306-340 | the same |
| `JsonStream.Stream.PutNil` | libs/homekit-rsf/src/json.c:342-372 | the same |
| `JsonStream.Stream.PutText` | libs/homekit-rsf/src/json.c:264-304 | the same; a name and its colon where an object waits for one |
| `JsonCalls.CallsDescribe` | libs/homekit-rsf/src/json.c:73-372 | the calls of a value lead from the start to the end, at that value |
| `JsonCalls.DescribedOnce` | libs/homekit-rsf/src/json.c:73-372 | a sequence of calls reaches the end with a value exactly if it is the one sequence of calls of that value |
| `JsonCalls.StepWritten` | libs/homekit-rsf/src/json.c:73-304 | each call that fits adds just its own text to the document's |
| `JsonCalls.RawIsText` | libs/cJSON-rsf/cJSON_rsf.c:1084-1155 | with strings that need no escape, the writer's text is the unformatted print |
| `JsonStream.Perform` | libs/homekit-rsf/src/json.c:19-372 | for any calls nested at most thirty deep that keep out of the error state, the flushed chunks are the text of the document so far; the state is END exactly if the calls describe a value, and then they are the text of that value |
| `JsonStream.CanBeWritten` | libs/homekit-rsf/src/json.h:14-28 | exactly the values nested at most thirty deep can be written inside the nesting stack |
| `JsonStream.ShallowIffInside` | libs/homekit-rsf/src/json.c:73-151 | the condition of `Perform` holds exactly if every call that opens an object or array writes inside the stack |
| `JsonStream.LastStartIsOutside` | libs/homekit-rsf/src/json.c:139-145 | the last of 31 starts writes the place behind the stack |
| `JsonStream.WriteThenParse` | libs/homekit-rsf/src/json.c:32-372 | what the writer makes of a value the parser takes back exactly if no string or name in it has a quote or a backslash |
| `JsonRaw.RawRoundTrip` | libs/homekit-rsf/src/json.c:264-304 | the same for the text of any tree, whether or not the whole text is asked for, together with the nesting limit |
| `JsonRaw.RawString` | libs/homekit-rsf/src/json.c:264-304 | a single string written as it is comes back exactly if it has no quote and no backslash; control characters are no obstacle |
| `JsonRaw.QuotedIsLost` | libs/cJSON-rsf/cJSON_rsf.c:536-662 | a string with a quote or a backslash never comes back, whatever follows it |
| `JsonStream.QuoteIsNotTakenBack` | libs/homekit-rsf/src/json.c:264-304 | strings are not escaped: what becomes of a concrete one |
| `PairingStore.Store.Reset` | libs/homekit-rsf/src/storage.c:57-74 | an empty list |
| `PairingStore.Store.Init` | libs/homekit-rsf/src/storage.c:77-92 | a sector that starts with two characters of the magic is left as it is, a store or not; any other is reset and lists nothing |
| `PairingStore.Store.CanAddPairing` | libs/homekit-rsf/src/storage.c:173-183 | exactly if fewer than forty pairings are listed |
| `PairingStore.Store.Gather` | libs/homekit-rsf/src/storage.c:195-205 | records move down to the first free place, in order, over places already read |
| `PairingStore.Store.Rewrite` | libs/homekit-rsf/src/storage.c:212-222 | the sector erased and written back holds the header and the records, and nothing else |
| `PairingStore.Store.Compact` | libs/homekit-rsf/src/storage.c:185-226 | the list and the accessory's header are as before, and unless forty are live there is an empty slot behind them |
| `PairingStore.Store.FindEmptyBlock` | libs/homekit-rsf/src/storage.c:228-248 | the first slot that is erased throughout |
| `PairingStore.Store.AddPairing` | libs/homekit-rsf/src/storage.c:250-284 | fails with -2 exactly if forty are live and then changes nothing; otherwise the pairing is at the end of the list |
| `PairingStore.Store.UpdatePairing` | libs/homekit-rsf/src/storage.c:287-312 | new permissions move the first pairing of the device to the end of the list with the key given; the same permissions change nothing, not even the key; an unknown device gives -1 |
| `PairingStore.Store.RemovePairing` | libs/homekit-rsf/src/storage.c:315-336 | the list without the first pairing of the device |
| `PairingStore.Store.PairingCount` | libs/homekit-rsf/src/storage.c:338-354 | the length of the list |
| `PairingStore.Store.RemoveExtraPairing` | libs/homekit-rsf/src/storage.c:356-380 | the first so many of the list |
| `PairingStore.Store.FindPairing` | libs/homekit-rsf/src/storage.c:383-411 | the first pairing of the device, or none |
| `PairingStore.Store.NextPairing` | libs/homekit-rsf/src/storage.c:426-454 | the next of the list from a slot on |
| `PairingStore.Store.All` | libs/homekit-rsf/src/storage.c:419-454 | stepping from the start gives the list in order and then nothing |
| `PairingSlots.MagicMeansLive` | libs/homekit-rsf/src/storage.c:173-183 | the magic tells pairings from empty and zeroed slots |
| `PairingSlots.TakenOut` | libs/homekit-rsf/src/storage.c:315-336 | zeroing the slot found takes the first pairing of the device out of the list |
| `PairingSlots.PutAtEnd` | libs/homekit-rsf/src/storage.c:228-284 | filling the first empty slot puts a pairing at the end, as empty slots form a suffix |
| `Tlv.ParsedFormatted` | libs/homekit-rsf/src/tlv.c:139-234 | parsing what was formatted gives the list back, with values that run into each other put together |
| `Tlv.ChunksLie` | libs/homekit-rsf/src/tlv.c:139-185 | every chunk is a type, a length and that many bytes of the value, 255 in all but the last, each 257 places behind the one before |
| `Tlv.RoundTrip` | libs/homekit-rsf/src/tlv.c:139-234 | the list comes back exactly if no value of a positive multiple of 255 bytes is followed by a nonempty one of its type (section 14.1 of the HomeKit Accessory Protocol Specification, Non-Commercial Version R2) |
| `Tlv.FullValueRunsOn` | libs/homekit-rsf/src/tlv.c:199-209 | a concrete list of two values that is read as one |
| `Tlv.InsideIffWhole` | libs/homekit-rsf/src/tlv.c:188-231 | the parser trusts the lengths it reads, and its reads stay inside the buffer exactly if that has fewer than two bytes, which are refused unread, or is made of whole chunks |
| `Tlv.RequiredIsLength` | libs/homekit-rsf/src/tlv.c:139-153 | the size computed beforehand is the number of bytes written |
| `Tlv.Values.Format` | libs/homekit-rsf/src/tlv.c:139-185 | with too little room -1 and nothing written; otherwise exactly the chunks, and nothing behind them |
| `Tlv.Values.Parse` | libs/homekit-rsf/src/tlv.c:188-234 | appends the values of the chunks; fewer than two bytes are an error |
| `Tlv.ScanSize` | libs/homekit-rsf/src/tlv.c:199-209 | the scan ahead finds the size of the first value |
| `Tlv.Gather` | libs/homekit-rsf/src/tlv.c:211-227 | the copy takes exactly the chunks that were scanned |
| `Tlv.Values.AddTlvValue` | libs/homekit-rsf/src/tlv.c:71-84 | the format of the inner list as a value |
| `Tlv.Values.GetTlvValue` | libs/homekit-rsf/src/tlv.c:122-136 | the values of the first value of that type |
| `Tlv.NestedRoundTrip` | libs/homekit-rsf/src/tlv.c:71-136 | an inner list comes back exactly if it is not empty and no value of it runs into the next |
| `Pwm.SpreadFits` | libs/adv_pwm/adv_pwm.c:297-316 | no duty leaves sixteen bits unless the dithering overreaches, which none up to 32767 does |
| `Pwm.DutyConserved` | libs/adv_pwm/adv_pwm.c:290-323 | the duties of eight cycles sum to eight times the duty asked for, exactly unless the dithering overreaches |
| `Pwm.OneOverreaches` | libs/adv_pwm/adv_pwm.c:304-316 | a concrete duty and dithering for which they do not |
| `Pwm.Driver.SetDuty` | libs/adv_pwm/adv_pwm.c:290-323 | the channel of the pin stores duties as far above the duty set as below, falling to the fifth and rising again in the same steps, mirrored for the leading edge; all others keep theirs |
| `Pwm.DitheredIsStored` | libs/adv_pwm/adv_pwm.c:297-321 | how far: to the top where the dithering reaches it, nowhere where it reaches below 0, and otherwise the share of the dithering that the duty is of a full one; the second and fourth go half as far |
| `Pwm.UnditheredIff` | libs/adv_pwm/adv_pwm.c:297-321 | all eight are the duty set exactly if the dithering is too small to show, or would reach below 0 and not to the top |
| `Pwm.DutiesFall` | libs/adv_pwm/adv_pwm.c:312-320 | within reach they fall over five cycles and rise again, by no more than the dithering |
| `Pwm.StoredOnce` | libs/adv_pwm/adv_pwm.c:290-323 | there is only one way to store a duty like that |
| `Pwm.Driver.Worker` | libs/adv_pwm/adv_pwm.c:117-190 | after the call at a position a channel is on exactly if its duty exceeds it; the next position is the nearest duty beyond, and the timer is loaded for it |
| `Pwm.LoadNear` | libs/adv_pwm/adv_pwm.c:162-177 | the ticks of an interval are off by at most one from its share exactly if its product fits in 32 bits |
| `Pwm.HundredHertzWraps` | libs/adv_pwm/adv_pwm.c:261-269 | an interval that wraps at a frequency that can be set |
| `Pwm.Driver.Period` | libs/adv_pwm/adv_pwm.c:117-190 | the positions of a period are 0 and the duties between 0 and full, increasing; each channel is on for exactly its duty; the ticks differ from `max_load` by at most the number of positions unless an interval wraps, which none does if 65535 times `max_load` fits |
| `Pwm.EightPeriods` | libs/adv_pwm/adv_pwm.c:117-190 | over eight periods, whichever comes first, each channel is on for the sum of its eight duties |
| `Pwm.SetDutyIsOnTime` | libs/adv_pwm/adv_pwm.c:290-323 | that sum is eight times the duty set, or what is left of it for the leading edge |
| `Button.Debounced` | libs/adv_button/adv_button.c:426-450 | the debounced level is always that of the latest `max_eval` equal samples in a row: it flips on the last of them and never before |
| `Button.OneMorePress` | libs/adv_button/adv_button.c:242-287 | how one more press changes the calls that presses stand for |
| `Button.MeaningWeighs` | libs/adv_button/adv_button.c:242-301 | every press stands for one call, or for half of a double one |
| `ButtonRun.AdvButton.Evaluate` | libs/adv_button/adv_button.c:377-493 | one sample: the debounced state, and a push up or down when it flips |
| `ButtonRun.AdvButton.PushDown` | libs/adv_button/adv_button.c:227-240 | unheard in the disable time; otherwise it is announced and the hold timer is started |
| `ButtonRun.AdvButton.PushUp` | libs/adv_button/adv_button.c:242-287 | unheard in the disable time; otherwise the press is told by its length, the counter and the callbacks that exist |
| `ButtonRun.Perform` | libs/adv_button/adv_button.c:227-493 | the code's steps over any sequence of samples and disable times announce every push down that is heard, once, and in an undisturbed run make exactly the calls that its history tells, which are those its presses mean |
| `ButtonRun.TimePasses` | libs/adv_button/adv_button.c:289-301 | the two timer callbacks keep the agreement: between events they tell exactly when a press can no longer become a double one and when it is held |
| `ButtonRun.GoesUp` | libs/adv_button/adv_button.c:242-287 | the release of any press in any circumstances keeps timers, counter and calls in agreement with the history |
| `ButtonRun.RunAgrees` | libs/adv_button/adv_button.c:377-493 | they agree after every run of samples, from the levels of the pin alone |
| `ButtonRun.CallsAreTheMeaning` | libs/adv_button/adv_button.c:227-301 | the calls of a run are those its presses mean: pairs from the left as doubles, all others by their length |
| `ButtonRun.CallsAreTold` | libs/adv_button/adv_button.c:227-301 | the calls of an undisturbed run, announcements among them, are told event by event from the history of the pin: a push down is announced when it comes, before any call for its press |
| `ButtonRun.HeardDownsAreAnnounced` | libs/adv_button/adv_button.c:227-240 | in any run, disturbed or not, the announcements are as many as the push downs outside the disable time, or none without that callback |
| `ButtonRun.AllDownsAreHeard` | libs/adv_button/adv_button.c:227-240 | in an undisturbed run these are all push downs of the history |
| `ButtonRun.EveryReleaseCounts` | libs/adv_button/adv_button.c:227-301 | in an undisturbed run, single, long, very long and hold calls, twice the double calls, and one that is waiting are as many as the releases, plus one if a press is held; `ReleaseNeedsHearing` says when that ends |
| `ButtonRun.ReleaseNeedsHearing` | libs/adv_button/adv_button.c:242-287 | a release keeps timers, counter and calls in agreement with the history exactly if it does not fall into the disable time |
| `ButtonRun.LastReleaseNeedsHearing` | libs/adv_button/adv_button.c:227-301 | a run undisturbed before its last event, a release, agrees with its history exactly if it is undisturbed |
| `ButtonRun.UnheardReleaseIsHeld` | libs/adv_button/adv_button.c:242-301 | whenever a release falls into the disable time of a button whose hold timer runs, the hold callback is run although the button is up |
| `ButtonRun.HeldThoughUp` | libs/adv_button/adv_button.c:227-301 | a concrete run from the creation of the button in which that happens |
| `ButtonRun.DownNeedsHearing` | libs/adv_button/adv_button.c:227-240 | a push down keeps the agreement exactly if it is heard, or if there is no hold callback and the last one heard came at the same tick |
| `ButtonRun.LastDownNeedsHearing` | libs/adv_button/adv_button.c:227-301 | the same for the last event of a run |
| `ButtonRun.UnheardDownIsLonger` | libs/adv_button/adv_button.c:242-287 | a press whose push down was not heard is told by the time since the last one that was |
| `ButtonRun.VeryLongThoughShort` | libs/adv_button/adv_button.c:227-287 | a concrete run in which a press of eight ticks is reported as a very long one |

## Left out

Conditions and simplifications of what is modelled:

- HttpParser.Parser.Execute: after `HEADER_OVERFLOW`, and after an illegal byte that was jumped over, callbacks and state are not stated; the five marks are one slot, which `HttpRun.DispatchFits` justifies; callbacks other than `on_headers_complete` return 0 and do not pause the parser; the switch is a function, the loops around it are loops.
- HttpFeed.Feed: messages that end in a protocol upgrade are not fed further; `Execute` covers the call that meets the upgrade.
- HttpFeed.FeedTwoWays: as for `Feed`, no protocol upgrade.
- HttpUrl.UrlInfo.Parse: of buffers of more than 65535 bytes it says nothing; what the two loops do with them, with offsets and lengths in sixteen bits, `FindFields` and `DivideHost` say.
- HttpMessage.MessageIsReported: messages without trailers, chunk extensions and folded header lines; Transfer-Encoding is only `chunked`; `on_headers_complete` answers 0, and the type of the parser is REQUEST or RESPONSE; the end of the connection, which completes a body that goes on until then, is in `HttpDelivery.DeliverToTheEnd`.
- HttpDelivery.Deliver: the last message does not leave the connection to another protocol.
- HttpOptions.FoundIff: of the options only the three that the parser knows.
- HttpRefusal.RequestLineTaken: one blank between the words, and a line that ends with CR and LF; the parser also takes more blanks, a single LF and a line without a version.
- HttpRefusal.ValueTaken: in strict mode, on one line; of a Content-Length `HttpFraming.ContentLengthIsDecimal` says what is taken.
- HttpFeed.TraceIsFramed: as `Execute`, it says nothing of what follows an illegal byte that was jumped over.
- Ota.Installer.GetFile: the server honours ranges and sends what it announces; the response headers are classified as complete, without length or without range rather than scanned; network and flash are finite scripts, so nothing is said about a network that fails for ever, and the condition under which the file gets through is sufficient, not necessary; downloads into a memory buffer, the signature file and redirects are not modelled.
- Ota.Installer.Install: the signature file is not downloaded again before each part, and the setup mode and reboots after a failure are not modelled; hash and signature are a predicate on bytes.
- Ota.Installer.HashInput: reads of the flash succeed; after a failing one the code hashes what its buffer held before.
- OneWireSearch.Search.Next: the bus has no noise, no read errors and no devices that come or go during a search; `onewire_search_prefix` is not modelled, as its start state does not make a complete search of a family.
- JsonPrinter.PrintBuffer.PrintValue: numbers are tokens of the form that `sprintf` writes, so neither floating-point conversion nor NaN and infinity appear; raw items and NULL strings are not modelled; allocation succeeds.
- JsonParser.ParseBuffer.ParseValue: nodes are values, so their linking is left to `JsonChildren`; the offset of a failed parse is not stated, as nothing reads it; of `strtof` only how many characters it converts is modelled.
- JsonMinify.Minify: the text must close its literals and comments, which `MinifiesIffClosed` states for every text; on others the code goes on behind the terminator.
- JsonChildren.Run: items are fresh ones, as the functions demand; references, deletion and names are not modelled.
- JsonStream.Perform: flushes succeed; `json_float` is one more number token; a nesting deeper than the stack is excluded, as the code does not check for it: `CanBeWritten` and `ShallowIffInside` say what that excludes.
- PairingStore.Store.AddPairing: flash operations succeed and power does not fail between the erase and the rewrite of a compaction; device ids are 36 bytes without a zero byte; the sector starts at address 0 of the chip.
- Tlv.Values.Parse: two bytes or more must be whole chunks, as the lengths in them are trusted; `InsideIffWhole` shows that on all others the code reads outside its buffer. Allocation succeeds.
- Pwm.Driver.Period: without zero crossing, and with duties that do not change within a period.
- ButtonRun.EveryReleaseCounts: one button in normal mode; timers that expire at the tick of a sample call back before it; pulse mode, port expanders, shift registers and the pause of the sampling timer are not modelled.

What the repository does and the model does not:

- Base64, URL-encoded forms, query parameters: short loops whose round trips would add easy members.
- Sockets, DNS, TLS, hashes, signatures, pairing cryptography: foreign code; bytes and predicates stand for them.
- Tasks, interrupts, real timers, pins and buses: only ticks, samples, pin levels and timer events.
- Wi-Fi set-up, web pages, logging, NTP, mDNS, sensor and light drivers, the accessory set-up itself: plumbing.
- The installer for Mongoose OS (`HAA/HAA_mgos32_Installer/main/ota.c`): the same download loop again.
- Parts of cJSON: `Compare`, `Duplicate`, look-up and editing of members by name, constructors.
- `homekit_storage` ids and keys of the accessory: only that every operation keeps them.
- `adv_pwm_get_duty`, frequency changes, and start and stop of the PWM timer.
