# nanoDLNA: a verified model

nanoDLNA is a small media server. It probes video files for their duration and
dimensions, keeps an index of a media folder, describes the index to players in
DIDL-Lite, serves subtitles and thumbnails, and notifies subscribers when the
index changes. This project models those parts in Dafny and proves what they
promise. `dafny verify dfyconfig.toml` checks all of it.

Code that updates state step by step is modelled by methods and classes, each
proved against a function that says what it computes; the properties are then
lemmas about those functions. What a user is told or served is stated once more
without those functions: by the layout of a file (`MkvReport`, `Mp4Report`,
`AviReport`), by a client that reads the answer (`DidlClient`), by the places in
a folder (`LibrarySpots`), character by character (`CharsetText`) and by the
parts of a name (`Names`). Concurrent code is modelled as a state machine
whose steps interleave freely, and its properties hold for every run.

| files | part of the server |
|---|---|
| `Bytes`, `Vint`, `MkvSearch`, `MkvSpec`, `MkvScanner`, `MkvProbe` | the Matroska header parser: integers, the buffered scanner, the windowed search, the walkers |
| `MkvTree`, `MkvRoundTrip`, `MkvIndependence`, `MkvSkipping`, `MkvNesting`, `MkvPassedOver`, `MkvUnknownSize`, `MkvReport` | what a Matroska file means, which bytes the probe depends on, where elements of unknown size end, and what a caller is told |
| `Mp4Spec`, `Mp4Probe`, `Mp4Tree`, `Mp4Walk`, `Mp4Report` | the ISO base media parser |
| `AviSpec`, `AviProbe`, `AviTree`, `AviReport` | the RIFF parser |
| `Picking` | what a list yields when each element may yield a value: first, last and in any order |
| `Utf`, `Charset`, `CharsetText` | subtitle charset conversion |
| `Xml`, `XmlRoundTrip`, `Decimal`, `Didl`, `DidlRender`, `DidlRoundTrip`, `Objects`, `DidlReading`, `DidlClient`, `DidlPrefixes`, `Vlc` | the DIDL-Lite printer, an XML reader for it, what a client reads in its output, and the tracks VLC collects from it |
| `Ordering`, `Subtitles`, `Names` | matching subtitle files to a video and ranking them, and what file names say |
| `LibraryTree`, `LibraryWalk`, `LibraryNodes`, `LibraryScan`, `LibraryProbe`, `LibraryBuild`, `Library`, `LibrarySpots`, `LibraryServes`, `LibraryIndex` | scanning a media folder: values first, then the node heap, the worker pool, the whole scan, which places on disk it serves and what can be looked up after it |
| `Thumb`, `ThumbName` | the thumbnail cache |
| `ProbeStore`, `ProbeLevels` | the validation cache, at one level and across restarts at several |
| `Gena`, `GenaTraces` | event subscriptions: what every step keeps, and what whole runs do |

## What the code does not do

Where the code differs from what its documentation or its shape suggests, the
model follows the code, an input shows the difference, and a theorem says for
all inputs when the code does what one would expect.

- A Matroska child is clamped to the file, not to its parent, so bytes inside a
  skipped payload can be read (`MkvSkipping.OverrunReadsSkippedPayload`). For
  arbitrary bytes none are as long as headers and payloads end no later than
  their parents, as they do in well-formed files and in recordings that were cut
  off (`MkvPassedOver.NestedReadsNothingSkipped`, `MkvNesting.WellFormedFilesNest`,
  `MkvPassedOver.CutOffIsNested`); the test to make of one element is
  `MkvNesting.KnownSizeFits`.
- An element of unknown size ends where the ID of a sibling is found, and one
  byte 0xEC in a streamed Cluster is the ID of a Void element: the Info behind it
  is lost (`MkvUnknownSize.VoidByteLosesInfo`). The element is read to its true
  end exactly when no sibling ID lies in it
  (`MkvUnknownSize.UnknownChildParses`).
- A 64-bit box size can make the end of a box wrap around; the box is still
  handed to the visitor, and it is the last one (`Mp4Walk.WrappedBoxIsVisited`,
  `Mp4Walk.WalkTiles`).
- The type of an AVI stream is read through the end of a stream header that is
  too short, so the chunk behind it decides (`AviTree.ShortHeaderReadsOn`). The
  header decides alone exactly when it has four bytes (`AviTree.TypeIsInHeader`).
- VLC lists tracks by URL, so an eleventh track comes third
  (`Vlc.EleventhTrackIsThird`). Every track is listed once and the first one
  first; the rest are in ranked order exactly when there are at most ten
  (`Vlc.VlcSeesEachTrackOnce`).
- One unrecognised token does not spoil a subtitle suffix, although the comment
  at internal/library/subs.go:49-52 says that it does
  (`Subtitles.UnknownTokenIsTolerated`). A suffix is recognised exactly when it
  is empty or has one known token (`Subtitles.OneKnownTokenIsEnough`).
- A complete SDH track ranks before a forced one, although README.md:105 of the
  repository says forced tracks come first (`Subtitles.SdhBeforeForced`). The
  documented order holds exactly where no language rank has both
  (`Subtitles.ForcedFirstExactly`).
- With no preference, untagged tracks come first only among those of equal flags,
  although README.md:104 of the repository does not say so
  (`Subtitles.TaggedBeforeForced`). All of them come first exactly when none is
  heavier than a tagged one (`Subtitles.UntaggedFirstExactly`).
- The library's index by number is never cleaned: a refused film can still be
  looked up (`LibraryIndex.RefusedFilmStaysIndexed`). What was walked stays in it,
  and is published exactly when it is a video that was not refused or a folder
  with such a video below it (`LibraryIndex.WalkedStaysIndexed`); only when all
  of it is does the index hold published nodes only
  (`LibraryIndex.IndexIsPublished`).
- Looking at the thumbnail cache twice does not make rendering happen once. A
  bound on the renders of a key holds in every run exactly when it is no less
  than the number of workers (`Thumb.RenderedAtMost`, `Thumb.BoundIsMet`), so
  that once is right for one worker only (`Thumb.RenderedOnceWithOneWorker`).
- A remembered verdict does not record the level it was reached at
  (`ProbeStore.RecordsForgetTheLevel`). Over runs with restarts at any levels
  the cache is invisible exactly when no file that is asked for has a record
  from a lower level and would be refused now
  (`ProbeLevels.InvisibleAcrossLevels`). The schedules of levels that are safe
  whatever the files are are exactly those that never raise the level
  (`ProbeLevels.SafeSchedules`).
- An event can be sent after its subscription was cancelled
  (`Gena.SentAfterRemoval`): what is sent then is exactly what was waiting
  (`GenaTraces.SentAfterRemovalWasWaiting`), and nothing is sent exactly when
  nothing was (`GenaTraces.SilentIffNothingWaits`).
- The initial event can follow the next one (`Gena.InitialEventCanBeLate`):
  `GenaTraces.InitialEventOrder` says exactly when it carries the smaller
  identifier.
- An expired subscription can be renewed, exactly until a notification sweeps it
  (`GenaTraces.RenewableUntilSwept`, `GenaTraces.ExpiredCanBeRenewed`).

## Model

| member | source | states |
|---|---|---|
| Vints.VintLength | internal/avmeta/mkv.go:85-94 | the mask-shifting loop finds the position of the highest set bit, and fails on a zero byte only |
| Vints.ParseVint | internal/avmeta/mkv.go:103-132 | the accumulating loop decodes the variable-length integer of section 4 of RFC 8794 that the bytes begin with |
| Vints.MarkerAlwaysSet | internal/avmeta/mkv.go:114-123 | the marker bit of a complete encoding is always set, so the code's check for it can never fail |
| Vints.ParseFailsExactly | internal/avmeta/mkv.go:103-132 | parsing fails exactly on no bytes, a zero first byte or too few bytes; a value is below 2^(7n) for its length n, which is 1 to 8 |
| Vints.ParseEncoded | internal/avmeta/mkv.go:103-132 | decoding undoes encoding at each of the eight lengths, whatever follows, and flags exactly the all-ones value as unknown |
| Vints.EncodeParsed | internal/avmeta/mkv.go:103-132 | the bytes a successful parse consumes are the encoding of what it read |
| Vints.ParseInvertsShortestSize | internal/avmeta/mkv.go:103-132 | parsing inverts the shortest size encoding of every value below 2^56-1, and no shorter field could carry the value |
| MkvSearch.EncodeEBMLID | internal/avmeta/mkv.go:314-322 | writing eight bytes and dropping the leading zero ones yields the shortest big-endian form of the ID |
| MkvSearch.IdBytes | internal/avmeta/mkv.go:314-322 | an ID encodes back to the bytes it was read from |
| MkvSearch.SiblingTablesSafe | internal/avmeta/mkv.go:56-73 | in none of the five sibling tables does one ID begin inside another, no ID is longer than four bytes, and each tells its length by its first byte |
| MkvSearch.FindPatternMeaning | internal/avmeta/mkv.go:259-311 | the search returns a position where an ID fits within the 1024 windows' reach with none fitting earlier, or the limit when none fits within reach |
| MkvSearch.HitIsResult | internal/avmeta/mkv.go:259-311 | conversely, the least position where an ID fits within reach is what the search returns |
| MkvSpec.ReadVintIsParse | internal/avmeta/mkv.go:187-204 | reading an integer at a position is parsing the bytes from there up to the limit |
| MkvSpec.ReadElement | internal/avmeta/mkv.go:217-255 | for arbitrary bytes an element satisfies off + 2 <= start <= end <= limit, so every walk makes progress and no sum leaves int64 |
| MkvSpec.KnownSizeClamps | internal/avmeta/mkv.go:239-252 | a known size ends the payload at the smaller of header end plus size and the file limit |
| MkvScanner.Scanner.constructor | internal/avmeta/mkv.go:143-149 | a new scanner stands at the start of the file |
| MkvScanner.Scanner.Seek | internal/avmeta/mkv.go:151-161 | after a seek the next byte delivered is the one at the target, whatever was buffered |
| MkvScanner.Scanner.ReadByte | internal/avmeta/mkv.go:163-173 | delivers file[pos] and advances by one, or fails at the limit and stays |
| MkvScanner.Scanner.ReadFull | internal/avmeta/mkv.go:175-184 | delivers exactly file[pos..pos+n] and advances by n, or refuses before reading past the limit and stays |
| MkvScanner.Scanner.ReadVint | internal/avmeta/mkv.go:187-204 | reads at the current position what the pure parser reads there and advances by its length |
| MkvScanner.Scanner.SearchWindow | internal/avmeta/mkv.go:283-305 | one window: the first place in the buffer where an ID fits, or none |
| MkvScanner.Scanner.FindNextElement | internal/avmeta/mkv.go:259-311 | the chunked, overlapping search equals a naive search over everything within reach |
| MkvScanner.Scanner.ReadElementAt | internal/avmeta/mkv.go:217-255 | the stateful reader finds the same element as the pure one over the bytes of the file |
| MkvScanner.Scanner.ReadUint | internal/avmeta/mkv.go:519-536 | a payload of one to eight bytes as a big-endian number, anything else refused |
| MkvScanner.Scanner.ReadFloat | internal/avmeta/mkv.go:539-563 | a payload of four or eight bytes as raw float bits, not-a-number and infinities refused |
| MkvProbe.ParseVideo | internal/avmeta/mkv.go:493-516 | the walker collects the last PixelWidth and PixelHeight |
| MkvProbe.ParseTrackEntry | internal/avmeta/mkv.go:461-491 | the walker keeps the dimensions of a video entry that has both, unless an earlier entry gave some |
| MkvProbe.ParseTracks | internal/avmeta/mkv.go:444-459 | the walker visits the entries between its bounds in order |
| MkvProbe.ParseInfo | internal/avmeta/mkv.go:420-442 | the walker keeps the last positive TimecodeScale and the last readable Duration |
| MkvProbe.ParseSegment | internal/avmeta/mkv.go:395-418 | the walker passes over all children but Info and Tracks and stops once both have been seen |
| MkvProbe.ProbeMKV | internal/avmeta/mkv.go:357-391 | the stateful probe computes the pure walk over the bytes of the file up to the reported size, and refuses a negative one |
| MkvRoundTrip.ListParses | internal/avmeta/mkv.go:217-255 | the header reader recovers the first element of any encoded list, and leaves the rest right after it |
| MkvRoundTrip.ProbeOfEncode | internal/avmeta/mkv.go:357-516 | probing the encoding of any well-formed element tree, with sizes of any length, other elements in between and a last Segment of known or unknown size, gives the last positive TimecodeScale and last Duration seen before both Info and Tracks are found, and the first usable video track |
| MkvIndependence.ElementAgrees | internal/avmeta/mkv.go:217-311 | reading an element depends only on its header and, when its size is unknown, on what is searched up to the end of the ID found |
| MkvIndependence.ProbeDependsOnSpans | internal/avmeta/mkv.go:357-516 | for arbitrary bytes, two files of one length that agree on the headers met, the numbers read and what is searched for an unknown size probe alike |
| MkvSkipping.SkippedPayloadsDoNotMatter | internal/avmeta/mkv.go:395-418 | two well-formed files that differ only inside payloads the walk passes over have equal results |
| MkvSkipping.OverrunReadsSkippedPayload | internal/avmeta/mkv.go:246-249 | independence fails for malformed bytes: a child that overruns its parent makes the result depend on a skipped payload |
| MkvNesting.KnownSizeFits | internal/avmeta/mkv.go:246-252 | an element of known size ends no later than its parent exactly when its header end plus its size does, or when the parent ends with the file |
| MkvPassedOver.NestedReadsNothingSkipped | internal/avmeta/mkv.go:395-516 | for arbitrary bytes: if every header and payload met inside Segment, Info, Tracks, TrackEntry and Video ends no later than its parent, no byte the probe can depend on lies in a payload of known size that is passed over, at any of these levels or beside Segments |
| MkvPassedOver.NestedPayloadsDoNotMatter | internal/avmeta/mkv.go:395-516 | so two files of one length that differ only inside such payloads probe alike |
| MkvNesting.WellFormedFilesNest | internal/avmeta/mkv.go:217-255 | the encoding of every well-formed element tree meets that condition |
| MkvPassedOver.CutOffIsNested | internal/avmeta/mkv.go:246-249 | so does a recording cut off inside a Cluster, whose remaining bytes are passed over |
| MkvNesting.OverrunIsNotNested | internal/avmeta/mkv.go:246-249 | the file in which a child overruns its parent does not |
| MkvUnknownSize.UnknownSizeEnds | internal/avmeta/mkv.go:230-233 | for arbitrary bytes, an element of unknown size other than a Segment ends at a given place exactly when a sibling ID fits there within reach, unless it is the limit, and none fits earlier |
| MkvUnknownSize.UnknownChildParses | internal/avmeta/mkv.go:259-311 | a child of unknown size that is followed within reach by a sibling is read to its true end exactly when no sibling ID lies in its body |
| MkvUnknownSize.ProbeOfLive | internal/avmeta/mkv.go:395-418 | probing a streamed recording, a Segment of unknown size with children of unknown size other than Info and Tracks that hold no sibling ID, gives what its children of known size mean |
| MkvUnknownSize.VoidByteLosesInfo | internal/avmeta/mkv.go:259-311 | one byte 0xEC inside an unknown-size Cluster makes the Info behind it unreadable, which is found with a zero byte there |
| MkvReport.ReportOfEncode | internal/avmeta/mkv.go:339-516 | probing any well-formed file reports, width as width and height as height, the last PixelWidth and PixelHeight of the last Video element of the first TrackEntry that is a video track with both positive, if both are at most 65536, and no dimensions otherwise; and the last readable Duration with the last positive TimecodeScale or 1000000, or no duration exactly when none is readable |
| MkvReport.UsedMeans | internal/avmeta/mkv.go:337-418 | what counts for both are the Info and Tracks elements of all Segments, in file order, up to the first point where one of each has been seen |
| MkvReport.ReportOfLive | internal/avmeta/mkv.go:339-516 | the same of a streamed recording |
| MkvReport.FullHdIsReported | internal/avmeta/mkv.go:339-516 | one file, byte by byte, is reported as 1920 by 1080 with a duration of 2500 milliseconds |
| Mp4Spec.ReadBox | internal/avmeta/mp4.go:43-81 | an accepted box has a header of at least eight bytes, a size no smaller than its header, and an end, as an int64 sum, within the limit |
| Mp4Probe.ReadMP4Box | internal/avmeta/mp4.go:43-81 | the reader accepts the three size forms of section 4.2 of ISO/IEC 14496-12 and nothing else |
| Mp4Probe.WalkMP4Boxes | internal/avmeta/mp4.go:85-104 | the loop calls its visitor on the boxes of the range in order, up to the one it stops at |
| Mp4Probe.ParseMVHD | internal/avmeta/mp4.go:217-247 | timescale and duration of both versions, the all-ones duration meaning unknown |
| Mp4Probe.ParseTrak | internal/avmeta/mp4.go:271-313 | the dimensions of a track are those of its last tkhd if its last handler is the video handler and both are in range |
| Mp4Probe.ReadFragment | internal/avmeta/mp4.go:184-195 | the last readable mehd of the mvex boxes is kept |
| Mp4Probe.ProbeMP4 | internal/avmeta/mp4.go:142-213 | the nested walks over the first moov compute the pure fold over its boxes, whatever size is reported for the file |
| Mp4Walk.BoxIsInside | internal/avmeta/mp4.go:68-81 | a box ends inside its parent, at least eight bytes on, exactly when its end does not wrap |
| Mp4Walk.WalkTiles | internal/avmeta/mp4.go:85-104 | for arbitrary bytes the boxes visited tile the range: offsets strictly increase, each starts where the last ended, and one leaves the range exactly when its end wraps, which only the last can |
| Mp4Walk.WrappedBoxIsVisited | internal/avmeta/mp4.go:77-98 | a wrapped box is visited although it ends far outside its parent |
| Mp4Tree.WalkVisitsForest | internal/avmeta/mp4.go:85-104 | walking the encoding of any forest visits exactly its boxes, in order |
| Mp4Tree.LayoutIsOver | internal/avmeta/mp4.go:43-81 | each visited box lies over the payload of its tree |
| Mp4Tree.ProbeOfEncode | internal/avmeta/mp4.go:142-313 | probing the encoding of any forest, the empty one included, with 32-bit sizes, 64-bit sizes or a last box of size zero, gives the movie header, fragment duration and first video track the forest holds |
| Mp4Tree.MovieHeaderReads | internal/avmeta/mp4.go:217-247 | an mvhd of either version, laid out as section 8.2.2 of ISO/IEC 14496-12 says, reads back to the timescale and duration written, the all-ones duration as unknown |
| Mp4Tree.FragmentHeaderReads | internal/avmeta/mp4.go:249-268 | a mehd of either version (section 8.8.2 of ISO/IEC 14496-12) reads back to the duration written |
| Mp4Report.ReportOfEncode | internal/avmeta/mp4.go:142-313 | probing any well-formed file reports of its first moov the first track whose last handler is vide and whose last tkhd ends in two positive 16.16 numbers (section 8.3.2 of ISO/IEC 14496-12), the first as the width and the second as the height, and none without such a track; and of the last readable mvhd the duration and timescale, of the last readable mehd the duration where mvhd has none |
| Mp4Report.OneTrackIsReported | internal/avmeta/mp4.go:271-313 | a movie with one track, a video track whose tkhd ends in w and h, is reported as w by h, and without dimensions when either is zero |
| Mp4Report.NothingWithoutMovie | internal/avmeta/mp4.go:142-168 | a well-formed file without a moov has nothing to report |
| AviProbe.WalkChunks | internal/avmeta/avi.go:135-162 | the loop visits the chunks of the range in order, padding skipped |
| AviProbe.WalkStrl | internal/avmeta/avi.go:85-114 | a stream list gives dimensions only when its header says video and none were found before |
| AviProbe.WalkHdrl | internal/avmeta/avi.go:71-83 | the header list is folded chunk by chunk into timing and dimensions |
| AviProbe.ProbeAVI | internal/avmeta/avi.go:30-69 | the nested walks compute the pure fold over the file's chunks, whatever size is reported for the file |
| AviSpec.Visited | internal/avmeta/avi.go:135-162 | each payload lies inside the range, and chunks are at least eight bytes apart |
| AviTree.WalkVisitsList | internal/avmeta/avi.go:135-162 | walking an encoded chunk list visits exactly its chunks, odd payloads and their padding included |
| AviTree.ProbeOfEncode | internal/avmeta/avi.go:30-162 | probing the encoding of any chunk tree gives its main header's timing and the first video stream's dimensions, a stream header shorter than four bytes taking the rest of its type from the bytes behind it; a LIST may be too short for a kind, or hold anything if its kind is neither hdrl nor strl |
| AviTree.TypeIsInHeader | internal/avmeta/avi.go:94-96 | what type a stream has depends on its header alone exactly when the header has four bytes |
| AviTree.ShortHeaderReadsOn | internal/avmeta/avi.go:94-114 | one file with a two-byte stream header has a video stream or none, as the id of the chunk behind the header begins |
| AviReport.ReportOfEncode | internal/avmeta/avi.go:30-132 | probing any chunk tree reports the width and height, at their places in BITMAPINFOHEADER, of the first video stream with both in range; without one those of the last main header when both are positive as signed numbers; and of that header frame period and frame count when both are positive |
| Utf.EncodedIsValid | internal/upnp/charset.go:98-116 | UTF-8 as section 3 of RFC 3629 defines it: encoded text is valid and decodes to itself |
| Utf.ValidIsEncoded | internal/upnp/charset.go:44-50 | valid bytes are exactly the encodings |
| Utf.UnitsRoundTrip | internal/upnp/charset.go:98-116 | decoding UTF-16 units undoes encoding for every scalar sequence, surrogate pairs included (section 2.2 of RFC 2781) |
| Charset.Cp1252ToUTF8 | internal/upnp/charset.go:82-96 | the loop appends the UTF-8 form of each byte's Windows-1252 character |
| Charset.Utf16ToUTF8 | internal/upnp/charset.go:98-116 | the loops pair bytes into units, decode them and append each character's UTF-8 form; an odd last byte is dropped |
| Charset.LowerASCII | internal/upnp/charset.go:72-80 | exactly the letters A to Z are lowered |
| Charset.NormalizeSubtitle | internal/upnp/charset.go:30-55 | the decision between byte order marks, the configured charset and validity |
| Charset.Utf16BecomesUtf8 | internal/upnp/charset.go:30-41 | UTF-16 text of any scalar sequence, with either mark, becomes its exact UTF-8 encoding whatever the configured charset |
| Charset.OutputIsValid | internal/upnp/charset.go:30-55 | the output is valid UTF-8 for every byte input, except that with charset utf-8 and no UTF-16 mark it is valid exactly when the input is |
| Charset.Cp1252IsInvertible | internal/upnp/charset.go:82-96 | the Windows-1252 conversion loses no byte string: it can be inverted |
| Charset.Utf8PassesThrough | internal/upnp/charset.go:30-55 | UTF-8 text loses at most its mark |
| CharsetText.SingleByteText | internal/upnp/charset.go:43-96 | for every input without a UTF-16 mark that is to be read as Windows-1252, because the charset is one of its names or because the text is not UTF-8 and the charset is not UTF-8: the output is valid UTF-8 with one character for each byte, which is the byte below 0x80 and from 0xA0 on and the Windows-1252 character in between, and the bytes can be had back |
| CharsetText.TextIsKept | internal/upnp/charset.go:43-54 | text without its mark is the output when the charset is UTF-8, and when the text is UTF-8 and the charset names no other |
| CharsetText.StrayIsReplaced | internal/upnp/charset.go:98-116 | a surrogate that is no half of a pair becomes U+FFFD, and the text before and after it is decoded as it is |
| CharsetText.Utf16IsRead | internal/upnp/charset.go:33-41 | the same through the whole conversion with either mark, half a unit at the end dropped |
| CharsetText.KnownOctets | internal/upnp/charset.go:82-116 | the octets and units of A, é, € and 😀 |
| CharsetText.KnownNames | internal/upnp/charset.go:57-80 | charset names are taken in any letter case |
| CharsetText.EAcuteIsRead | internal/upnp/charset.go:43-54 | the single byte 0xE9 becomes C3 A9 under every charset but UTF-8 |
| Xml.NeedsEscaping | internal/didl/didl.go:270-281 | the fast path is taken exactly on text without markup or forbidden characters |
| Xml.EscapeText | internal/didl/didl.go:214-237 | the fast path and the loop both append the escaped form of the text |
| Xml.EscapeAttr | internal/didl/didl.go:240-268 | attribute values are escaped, quotes and line breaks included |
| Xml.FastPathIsSlowPath | internal/didl/didl.go:214-218 | text the fast path returns unchanged is its own escaped form |
| Xml.EscapeFilters | internal/didl/didl.go:220-237 | escaping drops exactly the characters section 2.2 of XML 1.0 forbids |
| XmlRoundTrip.DocumentReads | internal/didl/didl.go:99-115 | an XML reader recovers every canonical element from its printed form |
| XmlRoundTrip.KnownTextEscapes | internal/didl/didl.go:214-237 | in text the characters <, &, > and carriage return are written as references, and quotes, line feeds and tabs as they are |
| XmlRoundTrip.KnownMarkupEscapes | internal/didl/didl.go:240-268 | in attributes <, & and > are written as references |
| XmlRoundTrip.KnownQuoteEscapes | internal/didl/didl.go:240-268 | so are both quotes |
| XmlRoundTrip.KnownSpaceEscapes | internal/didl/didl.go:240-268 | so are line feed, carriage return and tab |
| XmlRoundTrip.ForbiddenChars | internal/didl/didl.go:284-296 | the characters dropped are those before the space other than tab, line feed and carriage return, and U+FFFE and U+FFFF |
| Didl.FormatDuration | internal/didl/didl.go:194-205 | nothing for a non-positive duration, else hours, minutes, seconds and milliseconds |
| Didl.DurationReads | internal/didl/didl.go:194-205 | a reader of the printed duration recovers it to the millisecond |
| DidlRender.RenderResource | internal/didl/didl.go:176-191 | appends the printed form of the resource element |
| DidlRender.WriteSubtitles | internal/didl/didl.go:149-171 | appends a resource for every subtitle, then the three elements that name the first |
| DidlRender.Render | internal/didl/didl.go:117-174 | appends the printed form of the object's element tree and changes nothing before it |
| DidlRender.Document | internal/didl/didl.go:99-115 | the document is the printed form of the DIDL-Lite tree of the objects |
| DidlRoundTrip.DocumentRoundTrip | internal/didl/didl.go:99-191 | whatever titles, URLs and identifiers hold, the document is well formed and parses to exactly the element tree it means, forbidden characters dropped |
| DidlClient.AnswerShowsObjects | internal/didl/didl.go:99-191 | a client that parses the rendered document and looks elements and attributes up by name is told, in order, each object's own id, parentID, childCount, title, class, date and picture, each resource's URL, protocolInfo, size, duration in milliseconds, width, height and caption file, and the first subtitle in the caption elements; only forbidden characters are missing |
| DidlClient.KnownDuration | internal/didl/didl.go:194-205 | 5025.678 seconds are written as 1:23:45.678 |
| DidlClient.KnownDate | internal/didl/didl.go:131-133 | a date is written with year first, then month and day, then the time |
| DidlPrefixes.PrefixesDeclared | internal/didl/didl.go:15-26 | every namespace prefix of an element or attribute below the root of a rendered document is declared on the root |
| DidlPrefixes.Declarations | internal/didl/didl.go:19-26 | each of the six prefixes is declared as its namespace |
| Objects.DidlObject | internal/upnp/objects.go:31-73 | the object of a folder, or of a video with its tracks in order |
| DidlClient.AnswerShowsNodes | internal/upnp/objects.go:16-73 | the same client is told of a video its own number, its folder's number, title, media URL, MIME type, size, duration and dimensions, its thumbnail if there can be one, and each subtitle under the URL of its own number and index, the first one in the captions; and of a folder its number, its parent's, its title and how many children it has |
| Objects.SliceWindow | internal/upnp/objects.go:109-121 | the window of a Browse request, for every start and count |
| Objects.SubtitlePathRoutes | internal/upnp/media.go:81-103 | the path of a subtitle URL leads back to the same video and track, whatever the file is called |
| Objects.UrlsDiffer | internal/upnp/objects.go:26-28 | two tracks of a video never share a URL |
| Vlc.VlcSeesEachTrackOnce | internal/didl/didl.go:149-160 | for every video with any number of subtitles, VLC's collection rule run on the rendered item, a set kept in the order of its keys, yields each subtitle URL exactly once and the first track first; the tracks come in ranked order exactly when there are at most ten |
| Vlc.UrlOrder | internal/upnp/objects.go:26-28 | the URLs of two tracks are ordered as the decimal digits of their indexes are, whatever the files are called |
| Vlc.EleventhTrackIsThird | README.md:83-95 | with eleven tracks VLC lists the last one third |
| Ordering.InsertInPlace | internal/library/subs.go:169-186 | one step of the in-place stable sort: larger elements shift up, and the rest of the list stays |
| Ordering.SortStable | internal/library/library.go:541-551 | the in-place sort leaves the stable arrangement of the list |
| Ordering.SortKeeps | internal/library/library.go:541-551 | sorting loses and duplicates nothing |
| Ordering.SortSorts | internal/library/library.go:541-551 | under a strict weak order no element is left before a smaller one |
| Ordering.SortIsStable | internal/library/library.go:541-551 | under a strict weak order tied elements keep the order they were in |
| Ordering.BeforeMeans | internal/library/library.go:708-714 | a string comes before another exactly when it is a proper prefix of it or has the smaller character where they first differ |
| Ordering.LessFoldTotal | internal/library/library.go:708-714 | any two different names are ordered one way, and only one |
| Ordering.LessFoldTransitive | internal/library/library.go:708-714 | the case-insensitive name order is transitive |
| Subtitles.ParseSubSuffix | internal/library/subs.go:123-164 | the loop over tokens folds language and flags, the first language and any flag winning |
| Subtitles.OneKnownTokenIsEnough | internal/library/subs.go:137-162 | a suffix is recognised exactly when it is empty or some token is a known language or qualifier |
| Subtitles.UnknownTokenIsTolerated | internal/library/subs.go:137-162 | the suffix en.xyz is recognised although xyz means nothing |
| Subtitles.MatchSubtitles | internal/library/subs.go:66-118 | the loop with its set of seen paths collects and ranks the matching files |
| Subtitles.MatchedListsEachOnce | internal/library/subs.go:66-118 | the result lists exactly the matching paths of the pool, none twice |
| Subtitles.MatchedIgnoresPoolOrder | internal/library/subs.go:66-118 | with distinct file names the result is the same for every order of the pool |
| Subtitles.LangRankOf | internal/library/subs.go:188-201 | the rank of a language: its place among the preferred ones, then untagged, then the rest |
| Subtitles.TiesAreEqualKeys | internal/library/subs.go:169-186 | two tracks tie exactly when name, language and flags are equal |
| Subtitles.OrderIsStrictWeak | internal/library/subs.go:169-186 | the ranking comparator is a strict weak order |
| Subtitles.PreferredFirst | internal/library/subs.go:169-201 | in every result preferred languages come first in the order given, then untagged tracks, then the rest |
| Subtitles.FlagsRank | internal/library/subs.go:169-186 | in every result, within a language rank, complete tracks come before SDH ones, those before forced ones, and those before forced SDH ones |
| Subtitles.ForcedFirstExactly | internal/library/subs.go:169-186 | the order README.md:105 of the repository gives, forced before SDH, holds of a result exactly when no language rank has a forced track and an SDH track that is not forced |
| Subtitles.SdhBeforeForced | internal/library/subs.go:175-180 | the pool m.forced.srt and m.sdh.srt is listed with the SDH track first, whatever the preference |
| Subtitles.UntaggedFirst | internal/library/subs.go:169-201 | with no preference, lighter flags come first in every result and untagged tracks first among equal flags |
| Subtitles.UntaggedFirstExactly | internal/library/subs.go:169-201 | with no preference, all untagged tracks come first exactly when none of them has heavier flags than a tagged one |
| Subtitles.TaggedBeforeForced | internal/library/subs.go:175-180 | with no preference, the pool m.forced.srt and m.en.srt is listed with the tagged track first |
| Names.SuffixMeans | internal/library/subs.go:123-164 | the language is that of the first token that names one, a track is forced or for the hard of hearing exactly when another token is one of the words for it, and the suffix is recognised exactly when it is blank or has a token in the tables |
| Names.MatchMeans | internal/library/subs.go:66-118 | a pool file becomes a track exactly when it has a subtitle extension, is called like the video with a recognised suffix or none, and is not binary; language and flags are the suffix's |
| Names.MimeTypes | internal/library/subs.go:19-27 | the seven subtitle extensions and their MIME types |
| Names.RankMeans | internal/library/subs.go:188-201 | a preferred language ranks by its first place among the preferences, a file without a language after all of them, any other language last |
| Names.NamesBreakTies | internal/library/subs.go:169-186 | in every result, among tracks of one rank and equal flags languages are in order, and within a language names without regard to case |
| Names.TrimMeans | internal/library/subs.go:124-127 | trimming takes spaces from both ends and nothing else |
| Names.TokenThenMore | internal/library/subs.go:129-135 | a run of characters without separators is a token of its own |
| Names.BaseOfPath | internal/library/subs.go:67-69 | a file name is what follows the last slash of a path |
| Names.NameWithDot | internal/library/subs.go:67-69 | an extension begins at the last dot of a name |
| LibraryTree.DropSplits | internal/library/library.go:637-660 | dropping splits the videos in browse order: the tree keeps those served, the list records those refused, and no folder goes |
| LibraryTree.PruneKeeps | internal/library/library.go:525-537 | pruning loses no video and keeps exactly the folders with a video below them |
| LibraryTree.PruneEmpties | internal/library/library.go:525-537 | after pruning every folder below the root has a video below it |
| LibraryTree.SortIsInOrder | internal/library/library.go:541-555 | after sorting, siblings are in order at every level: folders first, then by title |
| LibraryTree.SortTreeContents | internal/library/library.go:541-555 | sorting a tree keeps its videos and folders, each as often as before |
| LibraryTree.CountsSurviveSorting | internal/library/library.go:329-333 | counting before sorting counts what is browsed after it |
| LibraryTree.ScanConserves | internal/library/library.go:320-341 | the walked videos are the disjoint union of the published and the refused ones; nothing refused is published, folders are the busy ones, siblings are in order |
| LibraryTree.JudgeInVideos | internal/library/library.go:601-632 | once every video has been probed, the videos are the walked ones judged one by one |
| LibraryWalk.WalkNumbers | internal/library/library.go:375-494 | identifiers are handed out in browse order, one to each node without gap, every node names its folder, and only folders list anything |
| LibraryWalk.WalkFindsEveryVideo | internal/library/library.go:398-494 | the walk makes exactly one node for each playable file and each folder that is found, with what is known of it, whatever the sorting, and counts videos, subtitles, skipped entries and errors |
| LibrarySpots.WalkShowsPlaces | internal/library/library.go:398-494 | a walk makes one node for every place below the media folder that shows something, and no other: a regular file with a video extension and no subtitle one, or a folder that is no subtitle folder, below folders that are readable and no subtitle folders, with no name on the way that is hidden or to be skipped, and fewer folders on the way than a positive depth limit; each node has its path, title, size, time and matched subtitles, and skipped places and errors are counted |
| LibrarySpots.PoolIs | internal/library/library.go:424-427 | the subtitle files a video is matched against are those beside it and those at most two levels down in a subtitle folder beside it, in directory order |
| LibrarySpots.WalkInNameOrder | internal/library/library.go:443-492 | in every folder nodes are made, and so numbered, subfolders first and then videos, each in order of their names without regard to case |
| Names.TitleGoesOn | internal/library/library.go:718-722 | in a title a word is kept as it is, and the spaces and underscores after it become one space, or nothing when no other word follows |
| Names.TitleStart | internal/library/library.go:718-722 | spaces and underscores before the first word are dropped |
| Names.TitleEnds | internal/library/library.go:718-722 | a single word is its own title |
| LibraryNodes.Node.constructor | internal/library/library.go:446-451 | a node starts without children, metadata or verdict |
| LibraryScan.Builder.AllocID | internal/library/library.go:375-381 | the node gets the next number and is filed under it |
| LibraryScan.Builder.DropWalk | internal/library/library.go:637-660 | compaction in place: the heap below the node becomes the tree without refused videos, which are recorded in browse order |
| LibraryScan.Builder.PruneTree | internal/library/library.go:525-537 | compaction in place: the heap becomes the pruned tree, and the answer says whether the node is to be kept |
| LibraryScan.Collect | internal/library/library.go:260-279 | the videos below a node, in browse order |
| LibraryScan.CountVideos | internal/library/library.go:664-673 | the number of videos below a node |
| LibraryScan.CountSubtitles | internal/library/library.go:677-686 | the number of subtitle tracks of the videos below a node |
| LibraryScan.CountContainers | internal/library/library.go:689-698 | the number of containers at and below a node |
| LibraryScan.SortTree | internal/library/library.go:541-555 | sorting each list of children in place and then each child leaves the sorted tree |
| LibraryScan.Publish | internal/library/library.go:324-333 | dropping, pruning, counting and sorting leave the published tree on the heap, with its counts |
| LibraryProbe.StepKeepsInv | internal/library/library.go:577-596 | at every step of producer and workers each job sent is in exactly one place, once |
| LibraryProbe.NeverStuck | internal/library/library.go:577-596 | until all workers have returned some step can be taken: no deadlock |
| LibraryProbe.StepsDecrease | internal/library/library.go:577-596 | every step, whichever is chosen, decreases a measure |
| LibraryProbe.RunsEnd | internal/library/library.go:577-596 | every run ends within twice the jobs plus the workers plus one steps |
| LibraryProbe.MaximalRunsProbeAll | internal/library/library.go:577-596 | a run that cannot go on has ended properly, with every video probed exactly once |
| LibraryProbe.ProbeNode | internal/library/library.go:601-632 | one video is refused with the reason, or served with the verdict's metadata or else the header probe's |
| LibraryProbe.ProbeAll | internal/library/library.go:559-597 | every schedule of the pool ends in the one tree in which each video has been judged |
| LibraryBuild.Classify | internal/library/library.go:416-441 | one pass sorts the entries of a directory into folders, videos, subtitle files and skipped ones |
| LibraryBuild.MakeVideo | internal/library/library.go:465-492 | a fresh node for a video with its ranked subtitles, numbered, indexed and counted |
| LibraryBuild.AddFolders | internal/library/library.go:446-463 | the loop adds each subfolder with everything below it, numbering a folder before its contents |
| LibraryBuild.Walk | internal/library/library.go:398-494 | the recursive walk builds on the heap exactly the tree, index and counts that the pure walk describes |
| Library.Library.Scan | internal/library/library.go:282-357 | a scan replaces root, index, statistics and refusals together and steps the update identifier modulo 2^32; when the folder cannot be read nothing changes |
| LibraryServes.EveryFileServedOrRefused | internal/library/library.go:318-341 | every video file at a place that is reached is, exactly once, served as what it is on disk with the validator's metadata, or the header probe's where the validator has none, or listed as refused with the reason; nothing else is served or listed, no folder is served without a video below it, and in every folder subfolders come first and titles are in order without regard to case |
| LibraryServes.EveryPathOnce | internal/library/library.go:318-341 | the path of every file to be served is served or listed as refused, once for each occurrence, and no other path is |
| LibraryServes.FoldersAreOnDisk | internal/library/library.go:446-463 | every published folder below the root is one that is browsed on disk, with its own name, path and time |
| LibraryServes.RootIsNamed | internal/library/library.go:299-318 | the root has the number zero, the path of the media folder, and the configured name or else the folder's |
| LibraryServes.StatsCount | internal/library/library.go:326-341 | the statistics are the numbers of published folders, files served, their subtitles, places skipped, places that could not be read or examined, and files refused |
| LibraryServes.PublishedIsLinked | internal/library/library.go:446-489 | every published node still names the container that lists it as its parent, and only containers list anything |
| LibraryIndex.IndexIsEverythingWalked | internal/library/library.go:375-381 | the index holds exactly what was walked: the numbers in use are consecutive, and every node is filed under its own |
| LibraryIndex.PublishedCanBeLookedUp | internal/library/library.go:343-345 | every published node on the heap carries a number under which the index leads back to it |
| LibraryIndex.WorthwhileFolder | internal/library/library.go:525-537 | a folder is worth publishing exactly when, at any depth below it, there is a video that is not refused |
| LibraryIndex.WalkedStaysIndexed | internal/library/library.go:318-345 | whatever was walked below the media folder can be looked up by its number, and it is published exactly when it is a video that is not refused or a folder worth publishing |
| LibraryIndex.IndexIsPublished | internal/library/library.go:318-345 | what can be looked up is what is published exactly when nothing was refused and no folder lacks a served video |
| LibraryIndex.RefusedFilmStaysIndexed | internal/library/library.go:318-345 | when the only film of a folder is refused, nothing but the root is published and the film can still be looked up |
| Thumb.AnswersAreCompleteRenders | internal/thumb/thumb.go:115-143 | in every interleaving, whatever fails or is deleted, each answer and each cached file is a complete, non-empty render of its key, and at most cap renders run at once |
| Thumb.AtMostCapRenders | internal/thumb/thumb.go:115-143 | while writes succeed and nothing is deleted, a key is rendered successfully at most cap times however many ask |
| Thumb.BoundIsMet | internal/thumb/thumb.go:125-143 | for every number of workers and every key there is a run, without failures or deletions, that renders the key once for each worker |
| Thumb.RenderedAtMost | internal/thumb/thumb.go:115-143 | a bound on the successful renders of a key holds in every such run exactly when it is at least the number of workers |
| Thumb.RenderedOnceWithOneWorker | internal/thumb/thumb.go:125-131 | the second look at the cache makes rendering happen at most once exactly when there is at most one worker |
| Thumb.StepKeepsFiles | internal/cache/cache.go:66-91 | every step of an atomic write keeps finished files whole and temporary files a part of what is being written |
| ThumbName.NamesAreDistinct | internal/cache/cache.go:55-59 | cache names differ unless path hash, thumbnail size, source size and modification second all agree |
| ProbeStore.Store.OpenStore | internal/probe/store.go:54-69 | a missing or unreadable file counts as empty, and no key has been consulted |
| ProbeStore.Store.Get | internal/probe/store.go:73-84 | the key counts as consulted, and its record is found only for the same size and second |
| ProbeStore.Store.Put | internal/probe/store.go:87-101 | the key counts as consulted and its record is replaced |
| ProbeStore.Store.Save | internal/probe/store.go:112-128 | exactly the consulted records are kept, consultation starts over, and the file is replaced whole or not at all |
| ProbeStore.Prober.Check | internal/probe/probe.go:153-173 | a stored acceptance of the unchanged file is reused, anything else inspected and remembered; at level off nothing is consulted |
| ProbeStore.CheckIsTwoSteps | internal/probe/probe.go:153-173 | an uninterrupted check is a consultation of the store and, without an answer, an inspection whose verdict is stored |
| ProbeStore.RecordsAreWitnessed | internal/probe/store.go:73-128 | every acceptance in memory or on disk was the verdict of some inspection of that file at that size and second |
| ProbeStore.CacheIsInvisible | internal/probe/probe.go:153-173 | over every run of checks, interleaved in any way with each other, with saves and with restarts at one level, if an accepted file stays accepted while its size and second do, what the store answers is what inspecting would answer |
| ProbeStore.RefusalsAreReinspected | internal/probe/probe.go:158-166 | in one uninterrupted check, a refusal is not answered from the store, and the new verdict replaces it |
| ProbeStore.AnsweredOnlyByAcceptance | internal/probe/store.go:73-101 | over every run, after a conclusion about a file and before the next one or a restart, a consultation is answered exactly when the conclusion was an acceptance, the file is unchanged and no save has dropped the record |
| ProbeStore.SaveKeepsConsulted | internal/probe/store.go:112-128 | a save keeps exactly the records of keys consulted since the save or restart before |
| ProbeStore.AcceptanceSurvivesRestart | internal/probe/store.go:54-69 | an acceptance outlives a save and a restart |
| ProbeStore.RecordsForgetTheLevel | internal/probe/store.go:14-22 | a record made at the container level answers for the content level |
| ProbeLevels.RightUnlessStale | internal/probe/probe.go:153-173 | at any point of a run with restarts at any levels, an answer is what inspecting would say exactly when no acceptance from a lower level is at hand for a file that would now be refused |
| ProbeLevels.InvisibleAcrossLevels | internal/probe/probe.go:153-173 | over every such run the cache is invisible exactly when no file is asked for in that state |
| ProbeLevels.NeverRaisedIsRight | internal/probe/store.go:54-69 | it is invisible whenever no restart raises the level |
| ProbeLevels.RaisedIsWrong | internal/probe/store.go:14-22 | over every schedule of levels that raises the level, and for every file that only the higher level refuses, some run answers wrongly |
| ProbeLevels.SafeExactly | internal/probe/probe.go:153-173 | for one way of inspecting, every run over a schedule of levels is right exactly when the schedule never raises the level or no file is refused by the higher level only |
| ProbeLevels.SafeSchedules | internal/probe/probe.go:153-173 | the schedules that are safe for every way of inspecting are exactly those that never raise the level |
| Gena.Table.Subscribe | internal/upnp/gena.go:89-103 | a new entry at number zero, and a private copy for the initial event |
| Gena.Table.Renew | internal/upnp/gena.go:58-72 | renewal succeeds exactly when the table holds the SID, expired or not |
| Gena.Table.Unsubscribe | internal/upnp/gena.go:110-122 | the entry goes and the others stay |
| Gena.Table.Notify | internal/upnp/gena.go:133-150 | one pass, in any order, removes the expired entries and gives each live one its next number and one event |
| Gena.NumbersHaveNoGap | internal/upnp/gena.go:133-150 | in every interleaving with fewer than 2^32 scans a subscription is given 0, 1, 2, ... without gap or repeat (section 4.2 of UPnP Device Architecture 1.0) |
| Gena.NothingAfterRemoval | internal/upnp/gena.go:110-150 | a subscription that is gone is given no more numbers and does not come back |
| Gena.EveryNumberIsSentOnce | internal/upnp/gena.go:152-157 | when nothing is waiting any more, each number given to a ContentDirectory subscription has been sent exactly once |
| Gena.UpdateIDsIncrease | internal/upnp/server.go:198-211 | from the first notification on, a later number carries a later SystemUpdateID, because a rescan holds its lock from the scan to the last send |
| Gena.SentAfterRemoval | internal/upnp/gena.go:152-157 | an event numbered before a cancellation can be sent after it |
| Gena.InitialEventCanBeLate | internal/upnp/gena.go:105-107 | the initial event can be sent after the next one and carry the same identifier |
| GenaTraces.SentAfterRemovalWasWaiting | internal/upnp/gena.go:110-157 | over every run, what has been sent of a number since its subscription left the table, with what still waits, is what was waiting when it left |
| GenaTraces.SilentIffNothingWaits | internal/upnp/gena.go:110-157 | a subscription that has left the table is never heard of again, in any continuation, exactly when nothing of it was waiting |
| GenaTraces.InitialEventOrder | internal/upnp/gena.go:105-150 | over every run, the initial event carries a smaller identifier than the first notification exactly when it is sent before the scan announced; sent between that scan and the notification it carries the same one |
| GenaTraces.RenewableUntilSwept | internal/upnp/gena.go:58-72 | over every run, a subscription stays in the table since it was last made or renewed exactly until it is cancelled or a notification comes at a time past its expiry |
| GenaTraces.ExpiredCanBeRenewed | internal/upnp/gena.go:58-72 | renewing a subscription past its expiry makes it live again, with its numbers going on, exactly when it has not been swept |

## Left out

- Floating point: Matroska, MP4 and AVI durations stay raw bits and pairs of numbers, the conversion of internal/avmeta/avmeta.go:129-153 is not modelled, and stored durations are exact instead of going through seconds.
- AviTree.ProbeOfEncode: a LIST of kind hdrl or strl holds chunks; other content there is read as chunks all the same, and has no meaning of its own.
- MkvRoundTrip.ProbeOfEncode: does not cover files within 64 KiB of 2^63 bytes, where the window arithmetic of the search could overflow.
- MkvProbe.ProbeMKV: takes the reported size to be no more than the file's length, and an unknown one (zero) only for an empty file; internal/avmeta/avmeta.go:40-56 passes the length the file system reports. Bit operations are stated as arithmetic.
- MkvPassedOver.NestedReadsNothingSkipped: what lies inside an element of unknown size other than a Segment is not among the payloads passed over, because it is searched for the element's end.
- Mp4Probe.WalkMP4Boxes: gives the list of boxes the visitor is called on; the visiting closures are methods over that list.
- DidlClient.AnswerShowsObjects: dates are read back where all fields but the year have at most two digits, as those of a calendar do.
- The tables from file extensions to MIME types and subtitle types, internal/upnp/objects.go:77-94: fields of the nodes instead.
- Xml.EscapeText: works on characters; in the original the fast path keeps invalid UTF-8 bytes that the loop would rewrite.
- Objects.SubtitlePathRoutes: URL path escaping is an unspecified function, and only unsigned decimal numbers are read back.
- Vlc.VlcSeesEachTrackOnce: assumes that video MIME types begin with video/ and subtitle MIME types with text/, which holds of the tables at internal/library/library.go:34-55 and internal/library/subs.go:19-27.
- DidlRender.Document: dates are taken as fields; their formatting from a time is not modelled, and years are non-negative.
- Subtitles.MatchSubtitles: lower-casing, the language table and the check for binary subtitles are parameters.
- LibraryBuild.Walk: the directory tree is a value that does not change during the scan, and MIME types and log messages are left out.
- LibraryProbe.ProbeAll: probing a node is one step, the validator and the header probe are functions of the file's path, size and time.
- Library.Library.Scan: concurrent readers are left out; the lock makes the replacement of all fields one step.
- Thumb.AnswersAreCompleteRenders: reading a cached file is one step, since an opened file keeps its content when another is renamed over it; changing permissions and creating directories are left out.
- ThumbName.NamesAreDistinct: the path hash is an arbitrary string of fixed length.
- ProbeStore.Store.Save: deleting and writing are one step, and the JSON form of the file is left out.
- Gena.NumbersHaveNoGap: with 2^32 scans or more the 32-bit numbers wrap, which is left out; delivery over the network is too.
- Gena.Table.Renew: parsing of the TIMEOUT and CALLBACK headers is left out, and new SIDs are taken to be unused.
- Choosing a parser by the first bytes of a file or its extension, internal/avmeta/avmeta.go:40-83: three comparisons.
- Running ffprobe and ffmpeg, tool detection, SSDP, HTTP, SOAP, the status page, icons and descriptions: foreign code or no hard property.
