# A verified model of the services core and its proxy scanner

The programs modelled here are the IRC services daemon (`src/`) and the proxy
scanner library it carries (`libopm/`). The model follows the C code branch by
branch: loops that change buffers, lists and records in place are methods on
arrays and classes, and each method is proved equal to a function on values;
what the code promises is then proved about these functions, for every input,
every run, and every behaviour of the kernel.

| area | modules |
|---|---|
| proxy scanner: replies, connections, scheduler | `ReplyReader`, `Connections`, `ScanModel`, `Scanner`, and the results in `ScanAccounting`, `ScanOrder`, `ScanProgress`, `ScanStates`, `ScanReports` |
| portable `vsnprintf` | `Snprintf` (the text it stands for), `SnprintfBuffer` (the bounded buffer), `SnprintfFields` (the layout and its inverse), `SnprintfDirectives` (what a format denotes) |
| addresses as text | `Inet`, `InetBuffers`, `InetQuads`, `InetPieces`, `InetGrammar`, `InetRoundTrip` |
| Base 64 and numerals | `Base64`, `Base64Buffers`, `Numerals` |
| byte streams | `SendQueue`, `LineReader` |
| the network | `Network`, `Membership`, `Netsplit`, `NetworkState` (in place), `NetworkRuns` (whole runs) |
| matching, parsing, uids, lists, strings | `Glob`, `Cidr`, `Parser`, `ParserBuffers`, `Uid`, `DLink`, `CStrings` |

`Wrappers`, `Buffers`, `CIntegers` and `Arithmetic` hold what several modules
share.

What the outside world does is a parameter: `socket`, `bind`, `poll`, `read` and
the clock are fields of the scanner's environment, the replies of `write` are a
function of the number of the call, what `read` gives on an IRC socket is an
argument, and so are the addresses that the allocator returns. Client callbacks
are recorded in a trace and do not call back.

Seven results say that the code does not do what one might expect, each with the
exact condition under which it does:

* `Glob.WildExactIff`: `match_wild` misses texts for patterns in which a run of
  wildcards has a star and ends in a question mark (`*?`), and is exact for all
  other patterns.
* `Membership.KickCountsIff`: `KickFromChannel` never lowers `usercnt`, so the
  count is wrong after every kick of a member (`NetworkRuns.KickedChannelStays`:
  a channel outlives its only user when that user is kicked).
  `NetworkRuns.CountsAreKicks`: after any run each count is too large by the
  number of users kicked from that channel, so it is right exactly if there were
  none.
* `ScanAccounting.EndScanExactIff`: ending a scan would corrupt the descriptor
  count if one of its connections had not been attempted;
  `ScanAccounting.DescriptorAccounting` shows that this never happens between
  two calls.
* `ScanProgress.EndsIffFits`: a scan with more connections than the limit is never
  admitted and holds up every scan behind it; all other scans end, each within
  its number of cycles.
* `ScanReports.TwoReports`: a poll answer with bytes that end a connection and a
  hang-up at once makes two reports, so that an open proxy can be followed by a
  failed negotiation; every other answer makes one at most.
* `InetGrammar.ValidIffClean`: `inet_pton6` keeps its promise of returning 1 only
  for valid addresses exactly on texts made of hexadecimal digits, colons and dots
  that do not end in a dot, and on texts it refuses. It steps over other
  characters (`InetGrammar.JunkIsAccepted`: `::1g` is taken for `::1`);
  `InetPieces.Pton6IsPieces` says for every text what is accepted. Its comment
  also says that `::` in a full address is ignored; the code refuses it.
* `SnprintfFields.LayoutIffReference`: with the modifier `h` the code takes sign
  and zero from the argument and prints the short (`SnprintfFields.TwoSigns`:
  `%+hd` of 65535 gives `+-1`); the field is that of the number printed exactly if
  neither shows.

Run `dafny verify dfyconfig.toml` to verify the project.

## Model

| member | source | states |
|---|---|---|
| ReplyReader.FeedSplit | libopm/src/libopm.c:1196-1257 | reading bytes in two wakeups gives what reading them in one gives |
| ReplyReader.WakeAllIsFeed | libopm/src/libopm.c:1196-1257 | however a reply is cut into wakeups, the outcome is that of the whole reply |
| ReplyReader.FeedWithinLine | libopm/src/libopm.c:1224-1255 | bytes without a line feed only grow the line, by what is neither CR nor NUL, up to 128 characters |
| ReplyReader.ReplyIsItsLines | libopm/src/libopm.c:1196-1295 | the strings searched are the LF-terminated lines of the first `max_read` - 1 bytes without CR and NUL, cut to 128, up to the first hit; the proxy is reported exactly if one of them holds a target; the limit, if it fits 16 bits, strikes exactly if no line does and that many bytes came |
| ReplyReader.Wake | libopm/src/libopm.c:1196-1257 | `readlen` never exceeds READBUFLEN |
| Connections.Connection.DoConnect | libopm/src/libopm.c:1024-1071 | the record after a connection attempt, and the error told to the client; the scanner takes the same step on its records as a function |
| Connections.Connection.DoHup | libopm/src/libopm.c:1372-1382 | a hang-up closes the connection and is reported as failed negotiation |
| Connections.Connection.DoWriteReady | libopm/src/libopm.c:1342-1354 | the connection waits for the reply from now on |
| Connections.Connection.DoRead | libopm/src/libopm.c:1278-1295 | whether the line buffer, as a C string, holds a target string |
| Connections.Connection.TakeByte | libopm/src/libopm.c:1224-1255 | one byte changes buffer, length and count as the reader on values does |
| Connections.Connection.DoReadReady | libopm/src/libopm.c:1196-1257 | a wakeup changes the record and calls the client as the reader on values says; whatever has come before, the callback is the proxy exactly if a line within the limit holds a target, else the limit if it is reached, else the failure if the peer is gone; the scanner takes the same step on its records as a function |
| Connections.ReadReports | libopm/src/libopm.c:1196-1382 | the same for the step on records, which is closed by a report and reads on without one |
| Scanner.OpmScanner.CheckQueue | libopm/src/libopm.c:840-874 | the longest prefix of the queue that fits the descriptor budget moves to the live list |
| Scanner.OpmScanner.EstablishScan | libopm/src/libopm.c:905-918 | the connections of a scan are attempted in order until the budget is used up |
| Scanner.OpmScanner.CheckEstablish | libopm/src/libopm.c:890-920 | the same for all live scans |
| Scanner.OpmScanner.Collect | libopm/src/libopm.c:1104-1138 | the poll array holds the entries of the pollable connections, in order, as far as it reaches |
| Scanner.OpmScanner.CheckPoll | libopm/src/libopm.c:1084-1177 | every answer of poll reaches the connection with that descriptor; the array grows to the limit |
| Scanner.OpmScanner.CloseScan | libopm/src/libopm.c:960-995 | closed and timed-out connections leave, with their callbacks, and give their descriptors back |
| Scanner.OpmScanner.CheckClosed | libopm/src/libopm.c:941-1008 | the same for all live scans; a scan without connections leaves with one END |
| Scanner.OpmScanner.Cycle | libopm/src/libopm.c:817-823 | one cycle is queue, establish, poll, close |
| Scanner.OpmScanner.Scan | libopm/src/libopm.c:517-544 | a scan is queued exactly if there is a protocol and the address is a dotted quad |
| Scanner.OpmScanner.EndScan | libopm/src/libopm.c:619-644 | all connections of the live scans of this remote are closed |
| Scanner.OpmScanner.End | libopm/src/libopm.c:561-600 | the same, and the queued scans of this remote leave with an END |
| Scanner.OpmScanner.Active | libopm/src/libopm.c:660-663 | the number of queued and live scans |
| ScanAccounting.AdmitFits | libopm/src/libopm.c:840-874 | the scans that are admitted fit the limit with all their connections |
| ScanAccounting.AdmitExact | libopm/src/libopm.c:840-874 | a prefix of the queue fits the limit exactly if it is no longer than what is admitted |
| ScanAccounting.SubmitQueues | libopm/src/libopm.c:517-544 | a submitted scan waits last, with one untried connection for each protocol, on its port, in order |
| ScanAccounting.ConnEntriesIff | libopm/src/libopm.c:1104-1138 | the poll array asks for exactly the open connections, to write before the request is sent and to read after it |
| ScanAccounting.DescriptorAccounting | libopm/src/libopm.c:890-1071 | after any run, whatever descriptors `socket` answers, `fd_use` is the number of live connections that have left UNESTABLISHED, which are all of them, and at most FD_LIMIT |
| ScanAccounting.EndScanExactIff | libopm/src/libopm.c:561-644 | ending a scan keeps `fd_use` exact if and only if the scan has no live connection that was never attempted |
| ScanAccounting.EndKeeps | libopm/src/libopm.c:561-644 | between two calls of the library that condition always holds |
| ScanAccounting.NoPollEntryDropped | libopm/src/libopm.c:1097-1138 | in every reachable state the guard on the size of the poll array drops no connection |
| ScanOrder.ScanConservation | libopm/src/libopm.c:517-663 | after any run accepted scans are END callbacks plus active scans, each scan has its END once and exactly when it is no longer active, and live list followed by queue is in submission order |
| ScanOrder.RunConserves | libopm/src/libopm.c:517-663 | every call keeps that balance and order |
| ScanProgress.PeriodRemoves | libopm/src/libopm.c:817-1008 | while scans numbered `id` at most have connections, TIMEOUT + 1 cycles with an advancing clock remove at least one of them, whatever is called between the cycles |
| ScanProgress.EveryScanEnds | libopm/src/libopm.c:817-1071 | after any history, a scan ends within TIMEOUT + 1 cycles for each connection of the active scans up to it, if none of those still waiting has more connections than FD_LIMIT, whatever the sockets do and whatever is submitted or ended between the cycles; it and all before it have then had exactly one END each |
| ScanProgress.EndsIffFits | libopm/src/libopm.c:840-1008 | if no scan is taken back meanwhile, the scan has had its END after these cycles if and only if it had ended before or no waiting scan up to it has more connections than FD_LIMIT |
| ScanProgress.BigScanBlocks | libopm/src/libopm.c:840-874 | a scan with more connections than FD_LIMIT, and every scan behind it, stays in the queue as long as `opm_end` takes nothing back |
| ScanStates.StatesOnlyAdvance | libopm/src/libopm.c:941-1382 | if poll answers only what it was asked, no connection of any scan ever goes back to an earlier state, and nothing changes place |
| ScanReports.ReplyReported | libopm/src/libopm.c:1196-1382 | however a reply is cut into wakeups, the calls are the open proxy if and only if one of the lines within the limit holds a target, the limit if and only if none does and it is reached, the failed negotiation if and only if the peer is gone with neither, and otherwise none |
| ScanReports.TraceIsTold | libopm/src/libopm.c:817-1382 | in every run in which poll answers only what it was asked, the callbacks are those that what the connections met calls for, in order: answers to attempts, all bytes so far, hang-ups, looks at the clock, ends of scans |
| ScanReports.ReportsIff | libopm/src/libopm.c:817-1382 | in every such run each of OPENPROXY, NEGFAIL, TIMEOUT and the three errors is reported for a port of a scan if and only if its own event happened to a connection of the scan on that port |
| ScanReports.RecordsAreHistories | libopm/src/libopm.c:817-1382 | after every such run state, descriptor, time stamp and line buffer of a live connection are what it has met |
| ScanReports.TwoReports | libopm/src/libopm.c:1160-1176 | one poll answer makes one report at most unless it brings a hang-up together with bytes that end the connection; then it makes two |
| SnprintfBuffer.Vsnprintf | libopm/src/snprintf.c:544-1030 | the result is the length of the unbounded text; the buffer holds its first characters that fit and a NUL, and nothing behind is touched |
| SnprintfBuffer.ReadDirective | libopm/src/snprintf.c:604-682 | flags, width, precision, length and conversion are read as the reader on values does |
| SnprintfDirectives.DirectiveReads | libopm/src/snprintf.c:604-682 | a directive of any flags, width, precision, modifier and conversion is read as it is written: each flag sets its own field, digits are decimal numbers, '*' takes the next argument, negative widths mean '-' and negative precisions none, and it ends at its conversion character |
| SnprintfDirectives.FormatMeans | libopm/src/snprintf.c:560-1030 | a format of literals and directives is rendered piece after piece, each directive with the arguments that come next, literals and '%%' without any |
| SnprintfDirectives.ArgumentsInOrder | libopm/src/snprintf.c:560-1030 | `n` plain conversions print the arguments 0 to `n` - 1, in order |
| SnprintfDirectives.TextLayout | libopm/src/snprintf.c:682-721 | a text field is the text, cut to the precision, and blanks up to the width, behind it with '-' and in front otherwise |
| SnprintfDirectives.UnknownPrinted | libopm/src/snprintf.c:927-945 | an unknown conversion prints its character |
| SnprintfBuffer.WriteField | libopm/src/snprintf.c:946-1008 | a field is written with its padding and zeros, as far as the buffer reaches |
| SnprintfBuffer.CountZeros | libopm/src/snprintf.c:886-925 | how many zeros precision and '0' flag insert, and where |
| SnprintfFields.FieldLayout | libopm/src/snprintf.c:722-1008 | for every flag, width, precision and argument an integer field is laid out as section 7.19.6.1 of ISO C99 says: blanks, prefix, zeros, digits, blanks; '-' and a precision override '0'; the prefix is that of the argument, the digits and their sign are those of the number printed |
| SnprintfFields.LayoutIffReference | libopm/src/snprintf.c:722-1008 | the field is the standard's for the number printed (for `h` the short) if and only if sign and zero of the argument do not show: no sign is asked for or blanks hide it, no base prefix, no precision 0 |
| SnprintfFields.LayoutIsReference | libopm/src/snprintf.c:722-1008 | so it is whenever argument and number printed are negative or zero together |
| SnprintfFields.TwoSigns | libopm/src/snprintf.c:722-1008 | `%+hd` of 65535 gives `+-1` |
| SnprintfFields.FieldLength | libopm/src/snprintf.c:722-1008 | a field is as long as its width, or as prefix, zeros and digits if that is more |
| SnprintfFields.FieldReadsBack | libopm/src/snprintf.c:722-1008 | reading a field gives the number printed, except for value 0 with precision 0, and exactly where two signs are printed |
| SnprintfFields.DigitsReadBack | libopm/src/snprintf.c:865-885 | the digits of a number have its value, in every base |
| SnprintfFields.SignedPrinted | libopm/src/snprintf.c:765-830 | a signed argument that fits the type of its modifier is printed as it is |
| SnprintfFields.UnsignedPrinted | libopm/src/snprintf.c:765-830 | an unsigned conversion prints the argument modulo the size of its type |
| InetBuffers.InetPton4 | libopm/src/inet.c:368-403 | 1 exactly for an accepted text, whose octets are then stored; the destination is untouched otherwise |
| InetQuads.Pton4IsQuads | libopm/src/inet.c:368-403 | accepted is exactly four non-empty runs of decimal digits with dots between, each of value 255 at most, and these values are the result |
| InetQuads.Pton4Accepts | libopm/src/inet.c:368-403 | every such text is accepted with its values |
| InetQuads.Pton4Only | libopm/src/inet.c:368-403 | every accepted text is of that form |
| InetBuffers.Scan6 | libopm/src/inet.c:420-482 | the loop over the text fills the buffer as the parser on values says |
| InetBuffers.ShiftRight | libopm/src/inet.c:486-500 | shifting by hand in place moves what follows the double colon to the end and leaves zeros |
| InetBuffers.InetPton6 | libopm/src/inet.c:420-507 | 1 exactly for an accepted text, whose address is then stored; the destination is untouched otherwise |
| InetBuffers.FindRun | libopm/src/inet.c:242-262 | the run found is the longest run of zero groups, and the first of these |
| InetBuffers.CompressedUnique | libopm/src/inet.c:242-264 | the run to be compressed is determined by the address |
| InetBuffers.TextFits | libopm/src/inet.c:214-298 | the text always fits the local buffer |
| InetBuffers.InetNtop6 | libopm/src/inet.c:214-298 | text and NUL are written if they fit, and nothing otherwise |
| InetRoundTrip.PrintThenParse | libopm/src/inet.c:214-298 | for all addresses `inet_pton6` of the text of `inet_ntop6` is the address, whichever run is compressed and whether or not it carries an IPv4 address |
| InetRoundTrip.PrintedForm | libopm/src/inet.c:214-298 | the text is the eight groups with colons between, or with a double colon in place of the run, or with the dotted IPv4 address at the end |
| InetRoundTrip.DottedParses | libopm/src/inet.c:123-147 | the dotted text of four octets is parsed to these octets |
| InetPieces.Pton6IsPieces | libopm/src/inet.c:405-507 | for every text: `a` is the result if and only if the text does not begin with a single colon and its pieces between colons are groups of value 65535 at most, with at most one gap for at least two bytes, and a group, a dotted quad or nothing at the end; characters that mean nothing may stand in groups and gaps but not in the quad |
| InetGrammar.AddressIffClean | libopm/src/inet.c:405-507 | an address written as section 2.2 of RFC 1884 says is accepted with its value, and it is the only thing that is accepted among texts of digits, colons and dots without a dot at the end |
| InetGrammar.ValidIffClean | libopm/src/inet.c:405-507 | 1 means a valid address if and only if the text is of that kind or refused |
| InetGrammar.JunkIsAccepted | libopm/src/inet.c:435-482 | `::1g` is accepted and is no address |
| InetGrammar.SkippedAsIfAbsent | libopm/src/inet.c:435-482 | leaving out the characters that are stepped over does not change the result, unless they make up the first piece or the last one behind a group |
| Base64.DecodeExact | src/base64.c:268-384 | decoding into a target succeeds with `x` if and only if the text without white space is the encoding of `x` and there is room for one byte more where a group is cut short |
| Base64.DecodeWithoutTarget | src/base64.c:268-384 | without a target the left-over bits are not looked at: accepted are exactly the encodings with any such bits |
| Base64.DecodeEncoded | src/base64.c:268-384 | how far decoding an encoding with given left-over bits gets in a target of any size |
| Base64.DecodedIsEncoded | src/base64.c:268-384 | whatever is accepted is an encoding |
| Base64.StripBody | src/base64.c:276-384 | white space does not count anywhere |
| Base64.EncodeInjective | src/base64.c:201-252 | different bytes have different encodings |
| Base64.EncodeLength | src/base64.c:201-252 | four characters for every three bytes begun |
| Base64.EncodeIsReference | src/base64.c:201-252 | the encoding is that of section 5.2 of RFC 1521: the base 64 digits of every 24 bits as a number, in the alphabet, with padding |
| Base64Buffers.B64Encode | src/base64.c:201-252 | -1 if and only if the target has at most 4 * ceil(n / 3) bytes; otherwise encoding and NUL stand in the target, and nothing behind is touched |
| Base64Buffers.B64Decode | src/base64.c:268-384 | the number of bytes, which stand in the target, or -1 exactly where the decoder on values refuses |
| Base64Buffers.StoreSextet | src/base64.c:287-332 | each state stores its six bits, if there is room |
| Numerals.NickRoundTrip | src/base64.c:530-548 | `base64toint` of `inttobase64` with `count` digits is the number modulo 64^count |
| Numerals.NickExact | src/base64.c:530-548 | six digits hold every unsigned int |
| Numerals.NumeralRoundTrip | src/base64.c:530-548 | a numeral is read as its number modulo 2^32 and written again as it was if and only if the number fits; five digits always do |
| Numerals.StampRoundTrip | src/base64.c:454-504 | `base64_to_int` of `int_to_base64` is the number |
| Numerals.AlphabetIs | src/base64.c:43-148 | the digits of both kinds of numerals, in order |
| Numerals.InttoBase64 | src/base64.c:540-548 | the buffer holds the last `count` digits and a NUL |
| Numerals.IntToBase64 | src/base64.c:454-475 | the shortest numeral stands at the end of the static buffer, which is large enough |
| Numerals.Base64toInt | src/base64.c:530-538 | the value, modulo 2^32, of at most `count` characters |
| Numerals.Base64_ToInt | src/base64.c:491-504 | the value of all characters, as an int |
| SendQueue.QueueConservation | src/socketengine.c:770-911 | after any calls and any replies of the kernel, wire and queue together are what they were, followed by all accepted lines in order, each once; the wire is never taken back |
| SendQueue.TextsConserved | src/socketengine.c:770-911 | the same in terms of texts: wire and queue together are what they were, followed by every text sent, each with its terminator |
| SendQueue.LineIsText | src/send.c:206-230 | the line is the text, to a socket its first 1023 characters, and whichever of CR and LF is missing, to a socket an LF if there is room |
| SendQueue.DoFails | src/socketengine.c:770-911 | a call on an open socket fails exactly if the kernel refuses a write |
| SendQueue.DoDrains | src/socketengine.c:770-911 | a kernel that takes everything has the queue and the line after the call |
| SendQueue.DoStream | src/send.c:201-291 | one call adds its whole line to the stream or nothing, and adds it exactly if the line is admitted and the socket does not fail |
| SendQueue.FlushStream | src/socketengine.c:1141-1186 | flushing moves characters from the queue to the wire and loses none |
| SendQueue.FlushDrains | src/socketengine.c:1141-1186 | a kernel that takes everything gets the whole queue at the next flush |
| SendQueue.Socket.SendqAdd | src/socketengine.c:1123-1139 | the unsent part waits behind the others |
| SendQueue.Socket.SendqFlush | src/socketengine.c:1141-1186 | entries are written until one has to wait; 1, 0 or -1 |
| SendQueue.Socket.SendToSocket | src/send.c:201-291 | queue first, then the line, whose rest is queued; the socket is closed when it fails |
| SendQueue.Socket.SendLineToUplink | src/socketengine.c:770-911 | the same for the uplink, with CR and LF added and a limit of 512 |
| SendQueue.WithLf | src/send.c:206-230 | a line fits the buffer of 1024 with its NUL |
| LineReader.ScanSplit | src/socketengine.c:988-1064 | cutting a stream into lines does not depend on where it is broken |
| LineReader.LinesOfStream | src/socketengine.c:1006-1061 | the lines are the pieces between CR and LF that are complete and not empty, the tail is the last piece |
| LineReader.LinesDelivered | src/socketengine.c:913-1117 | for any chunks and any calls of `GetLine` between them, if no line of the stream reaches MAXLEN characters, the buffers are never overrun, the lines returned followed by those waiting are the lines of the stream, the tail is kept, and `fullLines` is the number of lines waiting |
| LineReader.ChunkingIrrelevant | src/socketengine.c:913-1117 | two ways to break a NUL-free stream without lines of MAXLEN characters into reads leave the same lines, tail and count |
| LineReader.Reader.GetByte | src/socketengine.c:913-986 | the next byte of the shared buffer, which is refilled when empty; NUL at its end |
| LineReader.Reader.SockReadline | src/socketengine.c:988-1064 | a wakeup appends the lines completed and keeps the tail; a dead socket loses its tail |
| LineReader.Reader.GetLine | src/socketengine.c:1071-1117 | the oldest line, if there is one |
| LineReader.PullsInOrder | src/socketengine.c:1071-1117 | calls of `GetLine` return the waiting lines, the oldest first, until none is left |
| LineReader.BrokenEnds | src/socketengine.c:913-1000 | a failed read loses the unfinished line and no other |
| Network.FindsItself | src/channel.c:179-196 | with unique names, searching a list by name finds the very record |
| Network.FindUserFirst | src/user.c:162-190 | the record found is the first whose nickname or identifier the text is, but for case; none is found exactly if there is none |
| CStrings.SameNameIff | src/user.c:178-186 | names are the same if and only if they are letter by letter, but for case |
| Network.RemoveTwice | src/user.c:276-314 | removing users in two steps is removing them at once |
| Network.RemoveSound | src/user.c:276-314 | removing users keeps membership symmetric, names unique and counts right; a channel goes exactly if it had users, all of them are removed and its count was right, and keeps its name and its other users otherwise |
| Membership.JoinSound | src/channel.c:273-319 | a join keeps all that, and the user is on the channel |
| Membership.JoinExact | src/channel.c:273-319 | a join puts exactly this user on exactly this channel and counts one more if the user was not on it; nothing else changes |
| Membership.PartSound | src/channel.c:352-390 | a part keeps all that, and the user is off the channel |
| Membership.PartExact | src/channel.c:352-390 | a part takes exactly this user off exactly this channel, with the count one lower; nothing else changes |
| Membership.PartCloses | src/channel.c:381-389 | the channel goes exactly when its count was 1 or less; with a right count, exactly when its last user leaves |
| Membership.KickSound | src/channel.c:321-350 | a kick keeps membership symmetric and names unique, but leaves `usercnt` as it was |
| Membership.KickExact | src/channel.c:321-350 | a kick does the same but leaves all counts |
| Membership.KickCountsIff | src/channel.c:321-350 | all counts stay right if and only if there was nobody to kick |
| Membership.NewUserSound | src/user.c:99-153 | a new user keeps everything in order and is found under the nickname; exactly if the nickname is somebody's nickname or identifier, nothing changes |
| Membership.NewUserAdds | src/user.c:99-153 | the new record has the nickname, no identifier, no server and no channels; nothing else changes |
| Membership.NewChanSound | src/channel.c:89-132 | a new channel keeps everything in order; exactly if the name is in use, nothing changes |
| Membership.NewChanAdds | src/channel.c:89-132 | the new record has the name and nobody on it; nothing else changes |
| Membership.NewNickSound | src/user.c:398-424 | a new nickname keeps everything in order and the user is found under it; if it is in use, nothing changes |
| Membership.NewNickOnly | src/user.c:398-424 | only the nickname of this user changes |
| Membership.PartialEnd | src/user.c:276-314 | leaving all channels and the list is what removing the user means |
| Netsplit.ChildrenApart | src/links.c:98-144 | servers below two different children of a server are different |
| Netsplit.BelowAll | src/links.c:110-119 | what is below the children, and the server itself, is all that is below the server |
| Netsplit.SplitSound | src/links.c:98-144 | taking servers away keeps everything in order if nothing below them stays |
| Netsplit.NetsplitExact | src/links.c:98-144 | a netsplit removes exactly the servers whose uplinks lead to `s` and the users on them, changes no other server or user, and leaves no dangling uplink or server; a channel goes exactly if it had users, all of them on these servers, and a right count, and keeps its other users otherwise |
| Netsplit.SavedSuccessor | src/links.c:110-119 | the successor that the loop saves survives splitting off a child exactly if it is not below that child, and going on with it then misses no child |
| NetworkState.NewServSound | src/links.c:35-67 | a new server keeps names unique and the uplinks free of cycles; its record has the name and the uplink given and is found by its name, and nothing else changes; a server that is known already changes nothing |
| NetworkState.NewServBelow | src/links.c:35-144 | a later netsplit takes the new server along exactly if it takes its uplink, and all others as without it |
| NetworkState.FindServFirst | src/links.c:71-95 | the record found is the first whose name or identifier the text is, but for case; none is found exactly if there is none |
| NetworkState.State.FindUserRef | src/user.c:162-190 | the first user with this nickname or identifier |
| NetworkState.State.FindChannel | src/channel.c:147-165 | the first channel with this name |
| NetworkState.State.FindChanUser | src/channel.c:413-430 | the first member with this user's nickname |
| NetworkState.State.FindServer | src/links.c:71-95 | the first server with this name or identifier |
| NetworkState.State.AddServer | src/links.c:35-67 | an unknown server is added below its uplink |
| NetworkState.State.AddUser | src/user.c:99-153 | an unknown user is added, a known one refused |
| NetworkState.State.PlaceUser | src/user.c:64-77 | the identifier is stored if the protocol has them, and the user is put on the server, or exits if there is none |
| NetworkState.State.AddChannel | src/channel.c:89-132 | the channel of this name, added if it was unknown |
| NetworkState.State.AddToChannel | src/channel.c:273-319 | both sides are changed, unless the user is on the channel |
| NetworkState.State.DelFromChannel | src/channel.c:352-390 | both sides are changed, the count goes down, and at zero the channel goes |
| NetworkState.State.KickFromChannel | src/channel.c:321-350 | both sides are changed, the count is not |
| NetworkState.State.ChangeNick | src/user.c:398-424 | the nickname changes unless somebody uses it |
| NetworkState.State.ExitOneUser | src/user.c:276-314 | leaving channel after channel removes exactly this user everywhere |
| NetworkState.State.ExitUser | src/user.c:216-274 | the same for the user found |
| NetworkState.State.ExitRemoteUsers | src/user.c:333-347 | exactly the users who are not ours are removed |
| NetworkState.State.ExitUsersOn | src/links.c:126-133 | exactly the users on this server are removed |
| NetworkState.State.ExitServ | src/links.c:98-144 | the recursion terminates and removes exactly what is below the server found |
| NetworkRuns.DoGood | src/channel.c:273-390 | every operation keeps membership, names, references and the forest in order, and all but a kick keep the counts right |
| NetworkRuns.Reachable | src/channel.c:273-390 | so does every run from the empty network |
| NetworkRuns.CountsAreKicks | src/channel.c:273-390 | after every run from the empty network `usercnt` is the number of users plus the number of users kicked from the channel since it was opened; so all counts are right if and only if nobody was kicked from a channel that is still there |
| NetworkRuns.KickedChannelStays | src/channel.c:321-350 | a channel whose only user is kicked stays with count 1; if the user parts, it goes |
| Glob.MatchWild | src/match.c:65-106 | the loop with its recursion computes the matching relation of the code |
| Glob.WildSound | src/match.c:65-106 | whatever the matcher accepts, the pattern means, in both case modes |
| Glob.WildIsGlob | src/match.c:65-106 | without a run of wildcards that has a star and ends in a question mark, the matcher accepts exactly the non-empty texts that the pattern means |
| Glob.WildExactIff | src/match.c:65-106 | matcher and meaning agree on all non-empty texts if and only if the pattern has no such run |
| Cidr.MatchCidr | src/match.c:118-131 | 1 if and only if the first `bits` bits agree, for up to 128 of them; beyond, -1 if all agree |
| Cidr.TopBits | src/match.c:123-124 | shifting the difference leaves nothing exactly if the leading bits agree |
| Parser.RoundTrip | src/parser.c:47-161 | printing prefix, command and up to 15 parameters, the last one free text, and splitting gives them back |
| Parser.SplitPrinted | src/parser.c:47-97 | the same for parameters alone, from any position in the array on |
| Parser.Params | src/parser.c:47-97 | at most 15 parameters come of any text |
| Parser.SplitSpaced | src/parser.c:47-97 | for every text: the first word is the first parameter, however many spaces follow, and the rest gives the others; the fifteenth is all that stands behind the first space |
| Parser.SplitColon | src/parser.c:47-97 | a text behind a colon is one parameter, whatever it holds |
| Parser.ParseExact | src/parser.c:102-161 | for every line: the first word is the command, or behind a colon the prefix; what follows are the parameters |
| Parser.ParseWithPrefix | src/parser.c:102-161 | the same with a prefix and parameters |
| ParserBuffers.StringToArray | src/parser.c:47-97 | the array points at exactly these parameters in the buffer, a NULL follows them, and at most 17 entries are used |
| ParserBuffers.ParseLine | src/parser.c:102-161 | prefix, command and entries point at the parts of the message of the line |
| Uid.NextCounts | src/tools.c:143-172 | the odometer counts in the mixed radix 26, 36, ..., 36, and starts again at its end |
| Uid.NumeralInjective | src/tools.c:143-172 | different numbers have different readings |
| Uid.Advance | src/tools.c:143-172 | the buffer holds the next reading, and nothing else changes |
| Uid.Counters.GenerateUid | src/tools.c:143-172 | call number `k` gives the server's identifier and the numeral of `k` modulo 26 * 36^5 |
| Uid.Counters.GenerateP10Uid | src/tools.c:174-221 | call number `k` gives the server's numeric and the numeral of `k` - 1 modulo 26 * 36^2 |
| Uid.UidsDistinct | src/tools.c:128-172 | no two of the first 26 * 36^5 uids are equal |
| Uid.P10Distinct | src/tools.c:174-221 | no two of the first 26 * 36^2 P10 numerics are equal |
| DLink.List.Add | src/dlink.c:63-76 | the node is first; links, head, tail and count stay right |
| DLink.List.AddBefore | src/dlink.c:79-95 | the node stands before the given one |
| DLink.List.AddTail | src/dlink.c:98-114 | the node is last |
| DLink.List.Delete | src/dlink.c:117-132 | exactly this node is gone |
| DLink.List.FindDelete | src/dlink.c:149-176 | the first node with these data is gone and comes back without links |
| DLink.List.DeleteWhere | src/dlink.c:117-132 | deleting the current node while the successor is saved visits every node, and exactly the chosen ones go |
| DLink.List.OpmAdd | libopm/src/list.c:55-79 | the node is last |
| DLink.List.OpmRemove | libopm/src/list.c:81-109 | exactly this node is gone |
| DLink.KeepIn | src/dlink.c:117-132 | exactly those that are gone are missing from what is kept |
| CStrings.Strlcpy | src/tools.c:100-125 | what fits is copied, with a NUL, and the length of the source comes back |
| CStrings.Strlcat | src/tools.c:72-96 | what fits is appended, with a NUL; nothing changes without a NUL within the size |

## Left out

- Scanner.OpmScanner.Cycle: the live list and the queue hold the records of scans and connections as values that are stored back, so aliasing between records is not modelled; the handlers of a single connection are proved on an object (`Connections.Connection`), and the scanner takes their steps on its records as functions.
- Scanner.OpmScanner.Scan: callbacks do not call back into the library, and the configuration does not change during a run.
- ScanAccounting.DescriptorAccounting: for a limit between 0 and 2^31 - 1 and scans with fewer than 2^31 connections.
- Scanner.OpmScanner.CloseScan: the calls of `close` on the descriptors are not recorded.
- Connections.Connection.DoWriteReady: the write function of the protocol, which sends the request, is left out.
- Connections.Connection.DoReadReady: the branch that calls a read function of the protocol is left out; no protocol of the library has one.
- ScanProgress.EveryScanEnds: is about cycles that are called; a client that stops calling is not modelled.
- SnprintfBuffer.Vsnprintf: the digits that the host's `sprintf` prints are a function of the argument, the text of `%p` is given, and the width `*` of INT_MIN, which C leaves undefined, is not excluded but follows the arithmetic of the model.
- SnprintfFields.FieldLayout: for widths and precisions below 0x7fffff00; beyond, the code's int arithmetic wraps around. For `%p` only the text as a whole is modelled, around what the host prints.
- SnprintfDirectives.DirectiveReads: for directives whose conversion character is no flag, digit, dot, star or modifier, which would be read as part of what is before it.
- ScanReports.TraceIsTold: for runs in which poll answers only what it was asked, as its standard says; a hang-up may come at any time.
- InetBuffers.InetPton4: `inet_pton` and `inetntop`, which only dispatch on the address family, and the tables of octets behind `inetntoa` are left out.
- Base64Buffers.B64Decode: characters are those of a NUL-free C string; `encode_ip` and `decode_ip` are left out.
- Numerals.IntToBase64: for numbers from 0 on, as the callers pass them; a negative number would run out of the buffer.
- Numerals.Base64_ToInt: for texts that are not empty; of an empty one the code reads on behind its end. An overflow of the int, which C leaves undefined, wraps around.
- SendQueue.Socket.SendqFlush: an entry without a valid descriptor is never queued, so the branch that drops such entries is not modelled; TLS writes are like others.
- SendQueue.Socket.SendLineToUplink: for texts that fit the buffer of 1024 with CR, LF and NUL; the clean-up of the network after a failure is modelled with the network, not here.
- LineReader.Reader.SockReadline: for lines shorter than MAXLEN, on a socket that is not marked dead.
- NetworkState.State.ExitServ: the list is walked as it was at the start, because the recursive call can free the successor that was saved (`Netsplit.SavedSuccessor` says when); the server that is split off has an uplink, whose name the code prints.
- NetworkState.State.AddUser: names fit their fixed fields; all attributes other than nickname, identifier, server and channels are left out, and so is the global counter of users.
- NetworkState.State.AddToChannel: the privileges of a member, which are set from variables without a value, and the messages and events of joining are left out.
- NetworkState.State.AddServer: the identifier of a server, which other code fills in, is empty; `NetworkState.ServersNamed` says what it must satisfy for searches by name.
- Glob.WildExactIff: asks for one character that is not in the pattern, to build a text that the matcher misses.
- ParserBuffers.ParseLine: up to the look-up of the command; dispatch is left out.
- Uid.Counters.GenerateUid: the assertion that fires when the last uid is used up is left out; the odometer starts again.
- DLink.List.DeleteWhere: the traversal is modelled with a predicate in place of the loop bodies of its many callers.
- `match_regx`, the protocol modules, commands, configuration parsing, DNS, logging, statistics and threads are left out, as is the memory that runs out.
