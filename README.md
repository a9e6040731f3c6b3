# ColourStream upload core and OvenMediaEngine primitives, in Dafny

This project models the parts of the ColourStream repository that hold sequential logic that can be stated precisely, and proves properties of each.

**Upload backend (TypeScript).**
- The in-memory upload ledger (`UploadTracker`) is a class over a map kept in insertion order. It tracks progress and speed, completes uploads and evicts old completed records.
- The tusd webhook controller and the `/hooks` route (`TusdHooksController`, `TusUpload`) map each hook type to a response, a database change and a ledger call, and reject `.turbosort` files.
- The upload routes (`UploadRoutes`) cover:
  - the link token format, and the not-found / expired / used-up checks;
  - the batch upload with hash de-duplication and the usage count;
  - the S3 callback that strips UUIDs from keys.
- The finished-upload controller (`UploadController`) sanitises path parts, runs its chain of checks and builds the `client/project/file` destination.
- The S3 file-name repair script (`FixS3Filenames`) finds keys with a UUID, derives a clean key and never downgrades a key to the `default` folders.
- Shared string vocabulary (`Strings`, `Uuid`) includes JavaScript truthiness, split and join, ASCII case mapping, and the UUID patterns of section 3 of RFC 4122.

**Upload portal (TypeScript, browser).** `UploadPortal` covers:
- the chunk size;
- the object keys the portal asks for and reports back;
- the progress-message throttle;
- the `.turbosort` filter.

**Template checker (Python).**
- `TemplateNames` holds the `fnmatch` patterns and the parent-file naming rules.
- `TemplateLines` holds the value-hiding line normalisation.
- `PosixPaths` holds `os.path.abspath`, which resolves the base directory against the working directory.
- `TemplateChecker` walks a directory, pairs templates with their parents, collects missing lines and writes the Markdown report.

**OvenMediaEngine (C++).**
- `Hex` encodes and decodes hexadecimal text.
- `NalStreamConverter` converts between H.264/H.265 NAL unit carriages: the Annex B byte stream of ITU-T H.264 and the 4-byte length-prefixed form of ISO/IEC 14496-15. `Bytes` holds the big-endian helpers it uses.
- `RtpFrame` and `RtpFrameJitterBuffer` group RTP packets (section 5.1 of RFC 3550) into frames and buffer the frames.
- `Ice` models the ICE session and candidate pairs, including USE-CANDIDATE (section 7.1.2 of RFC 8445).
- `SocketAddressPair` gives the ordering of socket address pairs.
- `Ipv6Support` decides the supported IP versions.
- `MemoryUtilities` holds the flag and bit macros.

**How state is modelled.**
- Classes whose fields the source updates in place are Dafny classes, with methods proved against specification functions of their old state. These are the ledger, the ICE session and pair, the RTP frame and buffer, the template checker and the progress throttle.
- Pure rules are functions with lemmas.
- Databases, S3, the file system, hashes, clocks and UUID generation are parameters. They are either answers handed in or values threaded through.

## Model

| member | source | states |
|---|---|---|
| Strings.TakeSnoc | scripts/template_checker/template_checker.py:221-226 | a prefix one longer is the prefix with the next element appended |
| Strings.SplitLast | scripts/template_checker/template_checker.py:221-226 | a non-empty sequence is its front and its last element |
| Strings.OrElse | backend/src/routes/tusUpload.ts:70 | `o \|\| d`: o when it is a non-empty string, d otherwise |
| Strings.OrOption | backend/src/controllers/uploadController.ts:158 | `a \|\| b` on optional strings: a when truthy, b otherwise |
| Strings.ToLower | backend/src/routes/tusUpload.ts:127 | ASCII lower-casing: each of A-Z lowered, every other character kept (enough for the `.turbosort` suffix test) |
| Strings.ToUpper | ovenmediaengine/src/projects/base/ovlibrary/hex.cpp:27 | ASCII upper-casing keeps the length and upper-cases each of a-z |
| Strings.Split | backend/src/scripts/fix-s3-filenames.ts:151 | `split(c)` yields at least one piece and no piece holds c |
| Strings.JoinSplit | frontend/src/pages/UploadPortal.tsx:289 | `split(c).join(c)` gives back the string |
| Strings.SplitFree | backend/src/scripts/fix-s3-filenames.ts:117 | a string without the separator splits into itself |
| Strings.SplitAtFirst | backend/src/scripts/fix-s3-filenames.ts:151 | the piece before the first separator is the first piece; the rest splits on |
| Strings.SplitJoin | backend/src/scripts/fix-s3-filenames.ts:256-259 | pieces without the separator come back out of their join |
| Strings.NonEmpty | backend/src/scripts/fix-s3-filenames.ts:65 | `filter(Boolean)` keeps exactly the non-empty pieces; a single piece is kept exactly when it is non-empty |
| Strings.NonEmptyAppend | backend/src/scripts/fix-s3-filenames.ts:65 | the filter distributes over concatenation, so with the one-piece case it determines the result |
| Strings.UnderscoreSpaces | backend/src/scripts/fix-s3-filenames.ts:207 | `replace(/\s+/g, '_')` with the JavaScript `\s` class: no whitespace remains, no longer, a non-empty string stays non-empty |
| Strings.UnderscoreSpacesMeans | backend/src/scripts/fix-s3-filenames.ts:207 | run by run: a whitespace-free stretch is copied and the maximal whitespace run after it becomes one '_' |
| Strings.UnderscoreSpacesRun | backend/src/scripts/fix-s3-filenames.ts:207 | a whitespace run before a non-space becomes a single '_' |
| Strings.UnderscoreSpacesPrefix | backend/src/scripts/fix-s3-filenames.ts:207 | a leading stretch without whitespace is copied in front of the rewrite of what follows |
| Strings.UnderscoreSpacesStep | backend/src/scripts/fix-s3-filenames.ts:207 | one more non-space character in front is copied in front of the rewrite |
| Strings.DropJsSpaces | backend/src/scripts/fix-s3-filenames.ts:207 | the leading JavaScript whitespace removed: no longer, starts with no whitespace, no character added |
| Strings.DropJsSpacesRun | backend/src/scripts/fix-s3-filenames.ts:207 | a whitespace run followed by a non-space is dropped exactly |
| Strings.Erase | backend/src/scripts/fix-s3-filenames.ts:190 | all occurrences of one character removed: none remains, no longer, and a string without it is unchanged |
| Strings.EraseAppend | backend/src/scripts/fix-s3-filenames.ts:190 | erasing distributes over concatenation |
| Strings.UnderscoreSpacesFixed | backend/src/scripts/fix-s3-filenames.ts:207-208 | a string without whitespace is unchanged |
| Strings.UnderscoreSpacesAvoids | frontend/src/pages/UploadPortal.tsx:434-435 | no character other than '_' is introduced |
| Strings.DropSpaces | scripts/template_checker/template_checker.py:162 | `lstrip()`: everything removed is leading whitespace, what remains starts with none, and a line not starting with whitespace is unchanged |
| Strings.DropSpacesSuffix | scripts/template_checker/template_checker.py:162 | what `lstrip()` leaves is the line with its first characters removed |
| Strings.DropSpacesRun | scripts/template_checker/template_checker.py:162 | a whitespace run followed by a non-space character is removed exactly |
| Strings.Strip | scripts/template_checker/template_checker.py:162 | `strip()` leaves no whitespace at either end |
| Strings.StripMeans | scripts/template_checker/template_checker.py:162 | whitespace, then a middle with no whitespace at either end, then whitespace: `strip()` gives exactly the middle |
| Strings.StripParts | scripts/template_checker/template_checker.py:162 | every line is its `strip()` with only whitespace before it and only whitespace after it |
| Strings.RStrip | scripts/template_checker/template_checker.py:225 | `rstrip()` is a prefix of the line, ends in no whitespace, and everything it cut off is whitespace |
| Strings.RStripRun | scripts/template_checker/template_checker.py:225 | a part that does not end in whitespace, followed by whitespace, `rstrip()`s to exactly that part |
| Strings.Decimal | scripts/template_checker/template_checker.py:266-268 | `str(n)` is a non-empty run of decimal digits with no leading zero, except "0" for 0 |
| Strings.DecimalValue | scripts/template_checker/template_checker.py:266-268 | reading the decimal form of n back gives n: `int(str(n)) == n` |
| Strings.DecimalOfValue | scripts/template_checker/template_checker.py:266-268 | a digit string with no leading zero, or "0", is the decimal form of its value: `str(int(s)) == s` |
| Strings.DecimalDigit | scripts/template_checker/template_checker.py:266-268 | the value of a digit is below 10 and written back as that digit |
| Strings.DigitChar | scripts/template_checker/template_checker.py:266-268 | each decimal digit is a digit character |
| Uuid.FindUuid | backend/src/scripts/fix-s3-filenames.ts:17 | the leftmost UUID at or after `from`, none before it, and None exactly when there is none |
| Uuid.HasUuidMeans | backend/src/scripts/fix-s3-filenames.ts:86-88 | `UUID_REGEX.test` holds exactly when a UUID occurs at some position |
| Uuid.RemoveFirstUuid | backend/src/scripts/fix-s3-filenames.ts:118 | without a UUID the name is unchanged; otherwise the leftmost UUID, and the hyphen right after it when there is one, is cut out and everything else kept |
| Uuid.StripUuidDashes | backend/src/routes/upload.ts:1245 | the global removal never lengthens the name (the removal itself is pinned down by Uuid.StripUuidDashesMeans) |
| Uuid.StripUuidDashesMeans | backend/src/routes/upload.ts:1245 | match by match: the text before the leftmost UUID-with-hyphen is kept, its 37 characters removed, and the scan resumes after them |
| Uuid.UuidDashExtends | backend/src/routes/upload.ts:1245 | a UUID-with-hyphen at the front stays one whatever follows |
| Uuid.NoUuidDashShift | backend/src/routes/upload.ts:1245 | no match among the first n positions leaves none among the first n - 1 of the tail |
| Uuid.UuidDashShift | backend/src/routes/upload.ts:1245 | a match one position further in the tail is a match in the whole name |
| Uuid.StripUuidDashesChanges | frontend/src/pages/UploadPortal.tsx:513 | the global removal changes a name exactly when it holds a UUID followed by a hyphen, and then removes at least 37 characters |
| Uuid.HasUuidDashTail | backend/src/routes/upload.ts:1245 | without a match at the front, the name holds a match exactly when its tail does |
| MemoryUtilities.And | ovenmediaengine/src/projects/base/ovlibrary/memory_utilities.h:36 | unsigned `a & b` is at most each operand |
| MemoryUtilities.CheckFlagMeans | ovenmediaengine/src/projects/base/ovlibrary/memory_utilities.h:36-57 | `OV_CHECK_FLAG(x, f)`, and so every `ov::CheckFlag` overload, holds iff every bit set in f is set in x |
| MemoryUtilities.CheckFlagZero | ovenmediaengine/src/projects/base/ovlibrary/memory_utilities.h:36-57 | `CheckFlag(x, 0)` holds for every x |
| MemoryUtilities.BitsCoveredStep | ovenmediaengine/src/projects/base/ovlibrary/memory_utilities.h:36 | "every bit of f is set in x" splits into bit 0 and the same condition on the remaining bits |
| MemoryUtilities.LowMeans | ovenmediaengine/src/projects/base/ovlibrary/memory_utilities.h:93 | the cast to an unsigned type of m bits yields a value below 2^m and leaves a value already below 2^m unchanged |
| MemoryUtilities.BitOfShiftRight | ovenmediaengine/src/projects/base/ovlibrary/memory_utilities.h:73 | bit j of `v >> n` is bit n+j of v |
| MemoryUtilities.BitOfLow | ovenmediaengine/src/projects/base/ovlibrary/memory_utilities.h:93 | the cast to m bits keeps bits below m and clears the others |
| MemoryUtilities.ShiftRightLow | ovenmediaengine/src/projects/base/ovlibrary/memory_utilities.h:89-93 | shifting the low m bits right by n gives the low m-n bits of the shifted value |
| MemoryUtilities.LowShiftLeft | ovenmediaengine/src/projects/base/ovlibrary/memory_utilities.h:86-93 | a left shift by k truncated to m bits is the low m-k bits shifted left by k (the bits the cast drops) |
| MemoryUtilities.ShiftRightLeft | ovenmediaengine/src/projects/base/ovlibrary/memory_utilities.h:86-93 | a right shift by n undoes a left shift by k <= n and shifts on by n-k |
| MemoryUtilities.LowLow | ovenmediaengine/src/projects/base/ovlibrary/memory_utilities.h:93 | casting twice keeps the narrower width |
| MemoryUtilities.AndOne | ovenmediaengine/src/projects/base/ovlibrary/memory_utilities.h:73 | `x & 1` is the lowest bit of x |
| MemoryUtilities.GetBitIsBit | ovenmediaengine/src/projects/base/ovlibrary/memory_utilities.h:61-73 | `OV_GET_BIT(v, i)` is bit i of v and so always 0 or 1 |
| MemoryUtilities.GetBitExample | ovenmediaengine/src/projects/base/ovlibrary/memory_utilities.h:68 | the documented example `OV_GET_BIT(0b1010, 2) == 0` |
| MemoryUtilities.GetBitsMeans | ovenmediaengine/src/projects/base/ovlibrary/memory_utilities.h:75-93 | for an unsigned type of w bits, 1 <= count and index+count <= w, `OV_GET_BITS` is `(v >> index) mod 2^count` |
| MemoryUtilities.GetBitsBits | ovenmediaengine/src/projects/base/ovlibrary/memory_utilities.h:75-93 | bit j of `OV_GET_BITS(T, v, i, c)` is bit i+j of v below c and 0 from c on |
| MemoryUtilities.GetBitsExample | ovenmediaengine/src/projects/base/ovlibrary/memory_utilities.h:81-92 | the documented example `OV_GET_BITS(uint8_t, 0b00111100, 5, 2) == 0b01` |
| MemoryUtilities.GetBitsOneIsGetBit | ovenmediaengine/src/projects/base/ovlibrary/memory_utilities.h:73-93 | extracting one bit with `OV_GET_BITS` agrees with `OV_GET_BIT` |
| Ipv6Support.BitOfOr | ovenmediaengine/src/projects/base/ovsocket/ipv6_support.cpp:108-117 | bit i of `a \| b` on the Version ints is set iff it is set in a or in b |
| Ipv6Support.DerivedVersion | ovenmediaengine/src/projects/base/ovsocket/ipv6_support.cpp:124-133 | the IPv4 bit is set iff the IPv4 probe succeeded or both failed (fallback), the IPv6 bit iff the IPv6 probe succeeded; nothing above bit 1 |
| Ipv6Support.DerivedVersionValues | ovenmediaengine/src/projects/base/ovsocket/ipv6_support.cpp:124-133 | the version is never None; it is Both iff both probes succeed, IPv4 iff the IPv6 probe fails, IPv6 iff only the IPv6 probe succeeds |
| Ipv6Support.SupportFlags | ovenmediaengine/src/projects/base/ovsocket/ipv6_support.h:33-41 | `IsIPv4Supported` (a CheckFlag test) holds iff fallback or IPv4 success; `IsIPv6Supported` iff IPv6 success |
| Ipv6Support.BitsCoveredSingle | ovenmediaengine/src/projects/base/ovsocket/ipv6_support.h:33-41 | a single-bit flag is contained in the version iff that bit is set |
| Ipv6Support.Describe | ovenmediaengine/src/projects/base/ovsocket/ipv6_support.cpp:136-181 | `ToString` under the `OV_ASSERT2` checks of each case: text starting with 'N' iff the version is None, "IPv4 and IPv6" iff Both, "Unknown" iff outside the enum |
| Ipv6Support.Checker.constructor | ovenmediaengine/src/projects/base/ovsocket/ipv6_support.cpp:119-134 | keeps both probe results; fallback iff both probes failed; IPv4 supported iff fallback or the IPv4 probe succeeded; IPv6 supported iff the IPv6 probe succeeded |
| Ipv6Support.Checker.ToString | ovenmediaengine/src/projects/base/ovsocket/ipv6_support.cpp:136-181 | on a constructed checker the None and default branches are unreachable; the text is "IPv4 and IPv6" iff both probes succeeded |
| SocketAddressPair.SetLocal | ovenmediaengine/src/projects/base/ovsocket/socket_address_pair.h:40-43 | `SetLocalAddress` replaces the local address and keeps the remote one |
| SocketAddressPair.SetRemote | ovenmediaengine/src/projects/base/ovsocket/socket_address_pair.h:45-48 | `SetRemoteAddress` replaces the remote address and keeps the local one |
| SocketAddressPair.Trichotomy | ovenmediaengine/src/projects/base/ovsocket/socket_address_pair.h:50-86 | over a strict total order of addresses exactly one of `<`, `==`, `>` holds between two pairs |
| SocketAddressPair.LessIsConverseGreater | ovenmediaengine/src/projects/base/ovsocket/socket_address_pair.h:60-86 | `a < b` iff `b > a` |
| SocketAddressPair.LessTransitive | ovenmediaengine/src/projects/base/ovsocket/socket_address_pair.h:60-72 | `<` (remote first, local on a remote tie) is transitive, as a std::map key order needs |
| SocketAddressPair.LessIrreflexive | ovenmediaengine/src/projects/base/ovsocket/socket_address_pair.h:60-72 | no pair is `<` itself |
| SocketAddressPair.EqualIsIdentity | ovenmediaengine/src/projects/base/ovsocket/socket_address_pair.h:50-58 | with identity as address equality, `==` is equality of both addresses and `!=` its negation |
| SocketAddressPair.SetLocalEqual | ovenmediaengine/src/projects/base/ovsocket/socket_address_pair.h:40-53 | after `SetLocalAddress`, `==` depends on the kept remote address and the new local one only |
| Hex.HexDigit | ovenmediaengine/src/projects/base/ovlibrary/hex.cpp:27 | the digit `%X` prints for a value below 16 is an upper-case hex digit |
| Hex.DigitValue | ovenmediaengine/src/projects/base/ovlibrary/hex.cpp:68 | `strtol(…, 16)` of one digit is below 16 |
| Hex.DigitValueOfHexDigit | ovenmediaengine/src/projects/base/ovlibrary/hex.cpp:68 | reading the digit printed for v gives v |
| Hex.HexDigitOfDigitValue | ovenmediaengine/src/projects/base/ovlibrary/hex.cpp:27 | printing the value of a hex digit gives that digit upper-cased |
| Hex.EncodeByte | ovenmediaengine/src/projects/base/ovlibrary/hex.cpp:27 | `%02X` writes exactly two characters per byte |
| Hex.EncodedMeans | ovenmediaengine/src/projects/base/ovlibrary/hex.cpp:19-32 | Encode writes 2·n characters, all upper-case hex digits, byte i as its high digit at 2i and low digit at 2i+1 |
| Hex.EncodedAllHex | ovenmediaengine/src/projects/base/ovlibrary/hex.cpp:19-32 | an encoding has two characters per byte, all hex digits |
| Hex.Encode | ovenmediaengine/src/projects/base/ovlibrary/hex.cpp:19-32 | the append loop produces exactly the encoding of the input bytes |
| Hex.RemoveHyphens | ovenmediaengine/src/projects/base/ovlibrary/hex.cpp:39 | `Replace("-", "")` leaves no hyphen, is no longer, and adds no character (exactly the erasure of '-', Hex.RemoveHyphensErases) |
| Hex.RemoveHyphensErases | ovenmediaengine/src/projects/base/ovlibrary/hex.cpp:39 | the removal is exactly the erasure of every '-', every other character kept in order |
| Hex.RemoveHyphensIdle | ovenmediaengine/src/projects/base/ovlibrary/hex.cpp:37-41 | a string without hyphens is unchanged by the removal |
| Hex.RemoveHyphensKeeps | ovenmediaengine/src/projects/base/ovlibrary/hex.cpp:39 | every character other than '-' survives the removal |
| Hex.Pairs | ovenmediaengine/src/projects/base/ovlibrary/hex.cpp:60-71 | one byte per two digits |
| Hex.PairsAt | ovenmediaengine/src/projects/base/ovlibrary/hex.cpp:65-71 | on an even digit count byte i is the value of digits 2i and 2i+1 |
| Hex.PairsStep | ovenmediaengine/src/projects/base/ovlibrary/hex.cpp:65-71 | the last two digits make the last byte |
| Hex.PairsSnoc | ovenmediaengine/src/projects/base/ovlibrary/hex.cpp:65-71 | the digits of one more byte add exactly that byte |
| Hex.DecodeDigits | ovenmediaengine/src/projects/base/ovlibrary/hex.cpp:43-73 | on a hyphen-free string: null iff odd length or a character outside 0-9, A-F, a-f; otherwise half as many bytes as digits |
| Hex.DecodedMeans | ovenmediaengine/src/projects/base/ovlibrary/hex.cpp:34-73 | Decode fails exactly on an odd digit count or a non-hex character once hyphens are removed; otherwise byte i is the value of digits 2i and 2i+1 |
| Hex.DecodeRejectsNonHex | ovenmediaengine/src/projects/base/ovlibrary/hex.cpp:49-58 | any character that is neither '-' nor a hex digit makes Decode return null |
| Hex.ByteOfEncodeByte | ovenmediaengine/src/projects/base/ovlibrary/hex.cpp:27 | the two digits written for a byte read back as that byte |
| Hex.EncodeByteOfDigits | ovenmediaengine/src/projects/base/ovlibrary/hex.cpp:68 | the byte read from two digits is written back as those digits upper-cased |
| Hex.PairsOfEncoded | ovenmediaengine/src/projects/base/ovlibrary/hex.cpp:19-71 | pairing up the digits of an encoding gives back the bytes |
| Hex.DecodeEncode | ovenmediaengine/src/projects/base/ovlibrary/hex.cpp:14-74 | `Decode(Encode(d)) == d` for every byte sequence |
| Hex.ToUpperAppend | ovenmediaengine/src/projects/base/ovlibrary/hex.cpp:27 | upper-casing distributes over concatenation |
| Hex.ToUpperPair | ovenmediaengine/src/projects/base/ovlibrary/hex.cpp:27 | two characters upper-case one by one, as the `%02X` format writes a byte |
| Hex.EncodedOfPairs | ovenmediaengine/src/projects/base/ovlibrary/hex.cpp:19-71 | encoding the bytes of an even run of hex digits writes the digits again upper-cased |
| Hex.EncodeDecode | ovenmediaengine/src/projects/base/ovlibrary/hex.cpp:14-74 | `Encode(Decode(s))` is the upper-case form of every valid hyphen-free s |
| Hex.CheckDigits | ovenmediaengine/src/projects/base/ovlibrary/hex.cpp:49-58 | the validation loop succeeds iff every character is a hex digit |
| Hex.FillBytes | ovenmediaengine/src/projects/base/ovlibrary/hex.cpp:60-71 | the filling loop stores in a fresh buffer byte i/2 from the digits at i and i+1, i.e. the pairs of s |
| Hex.Decode | ovenmediaengine/src/projects/base/ovlibrary/hex.cpp:34-74 | the method, with its recursive call after removing hyphens, returns exactly the specified result |
| Bytes.BigEndian32 | ovenmediaengine/src/projects/modules/bitstream/nalu/nal_stream_converter.cpp:114 | `WriteBE32` writes four octets |
| Bytes.ReadBigEndian32 | ovenmediaengine/src/projects/modules/bitstream/nalu/nal_stream_converter.cpp:21 | `ReadBE32` yields a value below 2^32 |
| Bytes.DivideTwice | ovenmediaengine/src/projects/modules/bitstream/nalu/nal_stream_converter.cpp:114 | dividing by 2^8 twice is dividing by 2^16 |
| Bytes.ReadWrite32 | ovenmediaengine/src/projects/modules/bitstream/nalu/nal_stream_converter.cpp:114 | reading back the four octets written for a 32-bit value gives the value |
| NalStreamConverter.Octets | ovenmediaengine/src/projects/modules/bitstream/nalu/nal_stream_converter.cpp:114 | the low `count` octets of a value, most significant first, are `count` bytes |
| NalStreamConverter.OctetsAre | ovenmediaengine/src/projects/modules/bitstream/nalu/nal_stream_converter.cpp:114 | below 2^32 the low four octets are the 32-bit big-endian write |
| NalStreamConverter.LengthPrefixedSnoc | ovenmediaengine/src/projects/modules/bitstream/nalu/nal_stream_converter.cpp:114-115 | writing one more unit appends its length and its bytes |
| NalStreamConverter.ParseStep | ovenmediaengine/src/projects/modules/bitstream/nalu/nal_stream_converter.cpp:13-34 | a length that fits takes the unit after it, and parsing continues after the unit |
| NalStreamConverter.FirstUnitBytes | ovenmediaengine/src/projects/modules/bitstream/nalu/nal_stream_converter.cpp:21-29 | the first unit written back with its length is the buffer's first 4+n bytes |
| NalStreamConverter.ParseFirst | ovenmediaengine/src/projects/modules/bitstream/nalu/nal_stream_converter.cpp:13-34 | a non-empty buffer that parses is a length-prefixed unit followed by a buffer that parses |
| NalStreamConverter.LengthPrefixedCons | ovenmediaengine/src/projects/modules/bitstream/nalu/nal_stream_converter.cpp:114-115 | writing a unit in front writes its length-prefixed form in front |
| NalStreamConverter.ParseXvccInverse | ovenmediaengine/src/projects/modules/bitstream/nalu/nal_stream_converter.cpp:7-38 | writing back the parsed units with their lengths reproduces the input exactly |
| NalStreamConverter.SameSize | ovenmediaengine/src/projects/modules/bitstream/nalu/nal_stream_converter.cpp:5-34 | a 4-byte start code and a 4-byte length take the same room, so both forms of the same units are equally long |
| NalStreamConverter.ParseXvccSize | ovenmediaengine/src/projects/modules/bitstream/nalu/nal_stream_converter.cpp:7-38 | the parsed units take the input's bytes less four per unit, and write back to the input |
| NalStreamConverter.WriteRead32 | ovenmediaengine/src/projects/modules/bitstream/nalu/nal_stream_converter.cpp:21 | a 32-bit value read from four bytes is written back as those bytes |
| NalStreamConverter.XvccToAnnexBSize | ovenmediaengine/src/projects/modules/bitstream/nalu/nal_stream_converter.cpp:7-38 | a successful conversion to Annex B is exactly as long as its input |
| NalStreamConverter.ParseLengthPrefixed | ovenmediaengine/src/projects/modules/bitstream/nalu/nal_stream_converter.cpp:7-38 | parsing the length-prefixed form of units shorter than 2^32 bytes returns those units |
| NalStreamConverter.ParseShort | ovenmediaengine/src/projects/modules/bitstream/nalu/nal_stream_converter.cpp:15-19 | fewer than four bytes where a length is due fails the conversion |
| NalStreamConverter.ParseTooLong | ovenmediaengine/src/projects/modules/bitstream/nalu/nal_stream_converter.cpp:23-27 | a length beyond the remaining bytes fails the conversion |
| NalStreamConverter.ParseAt | ovenmediaengine/src/projects/modules/bitstream/nalu/nal_stream_converter.cpp:13-32 | one loop step at position pos takes the unit there and resumes after it |
| NalStreamConverter.ParseFailsAt | ovenmediaengine/src/projects/modules/bitstream/nalu/nal_stream_converter.cpp:15-27 | a failure of either check at any position makes the whole conversion return null |
| NalStreamConverter.ParseRestFails | ovenmediaengine/src/projects/modules/bitstream/nalu/nal_stream_converter.cpp:15-27 | fewer than 4 bytes left, or a length longer than what follows it, makes the parse of the rest fail |
| NalStreamConverter.ParseStart | ovenmediaengine/src/projects/modules/bitstream/nalu/nal_stream_converter.cpp:11-13 | before the loop, no unit has been read and the whole input remains to parse |
| NalStreamConverter.ParseDone | ovenmediaengine/src/projects/modules/bitstream/nalu/nal_stream_converter.cpp:35-37 | once no byte remains, the output is the start-code-prefixed units read |
| NalStreamConverter.ParseAdvance | ovenmediaengine/src/projects/modules/bitstream/nalu/nal_stream_converter.cpp:29-34 | a loop step moves the unit at pos to the units read so far |
| NalStreamConverter.AnnexBSnoc | ovenmediaengine/src/projects/modules/bitstream/nalu/nal_stream_converter.cpp:33-34 | one more unit appends the start code and the unit |
| NalStreamConverter.ConvertXvccToAnnexb | ovenmediaengine/src/projects/modules/bitstream/nalu/nal_stream_converter.cpp:7-38 | the loop returns null exactly when the parse fails, and otherwise each unit preceded by `00 00 00 01` |
| NalStreamConverter.PrependAppend | ovenmediaengine/src/projects/modules/bitstream/nalu/nal_stream_converter.cpp:13-34 | moving one unit from the rest to the units found keeps the overall result |
| NalStreamConverter.StartPatternMeans | ovenmediaengine/src/projects/modules/bitstream/nalu/nal_stream_converter.cpp:40-87 | probing returns 4 exactly on `00 00 00 01`, 3 exactly on `00 00 01` otherwise, -1 else; a first pattern size admits only that size or -1 |
| NalStreamConverter.ScanAtStart | ovenmediaengine/src/projects/modules/bitstream/nalu/nal_stream_converter.cpp:104-125 | a start code found at offset closes the pending run and the scan continues after the code |
| NalStreamConverter.ScanPast | ovenmediaengine/src/projects/modules/bitstream/nalu/nal_stream_converter.cpp:129-131 | a byte that starts no start code joins the pending run |
| NalStreamConverter.ScanAtEnd | ovenmediaengine/src/projects/modules/bitstream/nalu/nal_stream_converter.cpp:134-143 | at the end of the data the pending run is the last unit |
| NalStreamConverter.Regroup | ovenmediaengine/src/projects/modules/bitstream/nalu/nal_stream_converter.cpp:110-118 | the runs written so far followed by the rest make up all runs |
| NalStreamConverter.AppendUnit | ovenmediaengine/src/projects/modules/bitstream/nalu/nal_stream_converter.cpp:114-115 | `WriteBE32` then `Write` appends the unit's length-prefixed form |
| NalStreamConverter.WritePending | ovenmediaengine/src/projects/modules/bitstream/nalu/nal_stream_converter.cpp:110-118 | the pending run is written length-prefixed only when it is non-empty |
| NalStreamConverter.ConvertAnnexbToXvcc | ovenmediaengine/src/projects/modules/bitstream/nalu/nal_stream_converter.cpp:89-146 | the loop writes exactly the non-empty runs between start codes, each length-prefixed, in order |
| NalStreamConverter.NoStartInside | ovenmediaengine/src/projects/modules/bitstream/nalu/nal_stream_converter.cpp:73-82 | inside a unit without `00 00 01` that is followed by nothing or a start code, no start code is found |
| NalStreamConverter.ScanThrough | ovenmediaengine/src/projects/modules/bitstream/nalu/nal_stream_converter.cpp:102-132 | bytes at which no start code begins all join the current run |
| NalStreamConverter.UnitThrough | ovenmediaengine/src/projects/modules/bitstream/nalu/nal_stream_converter.cpp:102-132 | a unit without `00 00 01` becomes the current run |
| NalStreamConverter.ScanStartCode | ovenmediaengine/src/projects/modules/bitstream/nalu/nal_stream_converter.cpp:104-125 | a 4-byte start code closes the current run |
| NalStreamConverter.NoStartInPrefix | ovenmediaengine/src/projects/modules/bitstream/nalu/nal_stream_converter.cpp:73-82 | cutting bytes off the end cannot create a start code at the front |
| NalStreamConverter.ClosedRunFree | ovenmediaengine/src/projects/modules/bitstream/nalu/nal_stream_converter.cpp:110-118 | a run closed with no start code inside is non-empty and free of start codes |
| NalStreamConverter.ScanRunsFree | ovenmediaengine/src/projects/modules/bitstream/nalu/nal_stream_converter.cpp:102-143 | every run the scan writes is non-empty and holds no start code |
| NalStreamConverter.RunsFree | ovenmediaengine/src/projects/modules/bitstream/nalu/nal_stream_converter.cpp:89-146 | every unit ConvertAnnexbToXvcc writes is non-empty and holds no `00 00 01` |
| NalStreamConverter.ScanAnnexB | ovenmediaengine/src/projects/modules/bitstream/nalu/nal_stream_converter.cpp:102-143 | scanning the Annex B form of separable units finds exactly those units |
| NalStreamConverter.RunsOfAnnexB | ovenmediaengine/src/projects/modules/bitstream/nalu/nal_stream_converter.cpp:89-146 | the runs of the Annex B form of separable units are the units |
| NalStreamConverter.RoundTrip | ovenmediaengine/src/projects/modules/bitstream/nalu/nal_stream_converter.cpp:7-146 | for non-empty units shorter than 2^32 bytes without `00 00 01`, length-prefixed to Annex B gives the start-code form and back gives the length-prefixed form again |
| NalStreamConverter.ConversionStable | ovenmediaengine/src/projects/modules/bitstream/nalu/nal_stream_converter.cpp:7-146 | Annex B to length-prefixed to Annex B to length-prefixed gives the same bytes as the first conversion |
| NalStreamConverter.Marked | ovenmediaengine/src/projects/modules/bitstream/nalu/nal_stream_converter.cpp:160-165 | a header entry marks out exactly `length` bytes |
| NalStreamConverter.FirstFragments | ovenmediaengine/src/projects/modules/bitstream/nalu/nal_stream_converter.cpp:158-166 | the first n header entries mark out n units |
| NalStreamConverter.FirstFragmentAt | ovenmediaengine/src/projects/modules/bitstream/nalu/nal_stream_converter.cpp:158-166 | unit i is the range header entry i marks |
| NalStreamConverter.WriteFragments | ovenmediaengine/src/projects/modules/bitstream/nalu/nal_stream_converter.cpp:158-166 | the loop writes each marked unit length-prefixed, in header order |
| NalStreamConverter.ConvertAnnexbToXvccWithHeader | ovenmediaengine/src/projects/modules/bitstream/nalu/nal_stream_converter.cpp:148-169 | without a header the scan's result, with one the marked units length-prefixed in header order |
| NalStreamConverter.FragmentsRecovered | ovenmediaengine/src/projects/modules/bitstream/nalu/nal_stream_converter.cpp:148-169 | parsing the header overload's output returns exactly the marked units |
| UploadTracker.Speed | backend/src/services/uploads/uploadTracker.ts:33-44 | a speed exists exactly when there was a record, the offset moved and time passed, and then speed × elapsed ms = bytes gained × 1000 |
| UploadTracker.KeptKeys | backend/src/services/uploads/uploadTracker.ts:172-181 | pruning never lengthens the key order |
| UploadTracker.ValuesOf | backend/src/services/uploads/uploadTracker.ts:164-166 | `Array.from(values())`: one record per key, in key order |
| UploadTracker.Active | backend/src/services/uploads/uploadTracker.ts:156-159 | exactly the records that are not complete |
| UploadTracker.ElemsMembers | backend/src/services/uploads/uploadTracker.ts:21 | a key is in the key set exactly when it is listed |
| UploadTracker.DistinctAt | backend/src/services/uploads/uploadTracker.ts:21 | a key listed once does not occur before its position |
| UploadTracker.DistinctSnoc | backend/src/services/uploads/uploadTracker.ts:21 | appending a new key keeps the keys unique and adds it to the key set |
| UploadTracker.Tracker.constructor | backend/src/services/uploads/uploadTracker.ts:21 | a new tracker holds no uploads and no scheduled clean-up |
| UploadTracker.Tracker.GetUpload | backend/src/services/uploads/uploadTracker.ts:149-151 | the record exactly when the id is tracked |
| UploadTracker.Tracker.AllUploads | backend/src/services/uploads/uploadTracker.ts:164-166 | one record per tracked id, and exactly the tracked records |
| UploadTracker.Tracker.ActiveUploads | backend/src/services/uploads/uploadTracker.ts:156-159 | exactly the tracked records that are not complete |
| UploadTracker.Tracker.TrackUpload | backend/src/services/uploads/uploadTracker.ts:26-56 | the id now maps to the tracked record built from the previous one; a new id goes last in iteration order; nothing else changes |
| UploadTracker.AfterTrack | backend/src/services/uploads/uploadTracker.ts:26-56 | the ledger after trackUpload: only the id's entry changes, to the record built from the previous one; a new id goes last; the schedule is unchanged |
| UploadTracker.AfterComplete | backend/src/services/uploads/uploadTracker.ts:78-120 | the ledger after completeUpload: an unknown id changes nothing; a known one becomes complete at full size and an S3 upload is scheduled for clean-up; nothing else changes |
| UploadTracker.AfterCallKeeps | backend/src/services/uploads/uploadTracker.ts:21-120 | every ledger call keeps the keys unique and matching the entries, and leaves every entry but the one it names as it was |
| UploadTracker.Tracker.CompleteUpload | backend/src/services/uploads/uploadTracker.ts:78-120 | an unknown id changes nothing; a known one becomes complete at full size, and an upload stored on S3 schedules the filename clean-up |
| UploadTracker.Tracker.CleanupOldUploads | backend/src/services/uploads/uploadTracker.ts:172-186 | exactly the complete records older than maxAgeMs are removed, iteration order otherwise kept, and the count is the number removed |
| UploadTracker.PruneEntries | backend/src/services/uploads/uploadTracker.ts:176-181 | the walk in insertion order leaves the survivors, their keys in order, and counts the deletions |
| UploadTracker.VisitEntry | backend/src/services/uploads/uploadTracker.ts:177-180 | one visited entry is deleted and counted when complete and too old, kept otherwise |
| UploadTracker.PrunedUpToIsPruned | backend/src/services/uploads/uploadTracker.ts:176-181 | the map after i visits is the original pruned over the first i keys |
| UploadTracker.KeptUpToIsKeptKeys | backend/src/services/uploads/uploadTracker.ts:176-181 | the keys kept after i visits are the kept keys of the first i |
| UploadTracker.PrunedUpToHolds | backend/src/services/uploads/uploadTracker.ts:176-181 | the entry visited next is still present and unchanged (deleting the current entry while iterating visits every other entry once) |
| UploadTracker.PruneDone | backend/src/services/uploads/uploadTracker.ts:176-181 | after the last visit the map is the survivors, with unique keys matching the kept order |
| UploadTracker.SpliceOut | backend/src/services/uploads/uploadTracker.ts:178 | deleting the visited key from the remaining order leaves the kept keys and the rest |
| UploadTracker.SpliceKeep | backend/src/services/uploads/uploadTracker.ts:177 | keeping the visited key moves it to the kept keys |
| UploadTracker.IndexOf | backend/src/services/uploads/uploadTracker.ts:178 | a listed key has a position holding it |
| UploadTracker.KeptKeysSnoc | backend/src/services/uploads/uploadTracker.ts:177 | one more key is kept unless its record is stale |
| UploadTracker.KeptKeysMembers | backend/src/services/uploads/uploadTracker.ts:177 | a key survives exactly when listed and not stale |
| UploadTracker.KeptKeysDistinct | backend/src/services/uploads/uploadTracker.ts:21 | pruning keeps the keys unique |
| UploadTracker.TrackedKeepsHistory | backend/src/services/uploads/uploadTracker.ts:46-54 | a re-tracked upload keeps its first creation time, records the offset and time it replaces, and is incomplete unless the caller says so |
| UploadTracker.SpeedSign | backend/src/services/uploads/uploadTracker.ts:35-42 | the speed is positive exactly when the offset grew |
| UploadTracker.RealSign | backend/src/services/uploads/uploadTracker.ts:41 | a quotient by a positive time has the sign of the byte difference |
| UploadTracker.RepeatedOffsetClearsSpeed | backend/src/services/uploads/uploadTracker.ts:33-35 | tracking the same offset again records no speed |
| UploadTracker.CompletedIsFull | backend/src/services/uploads/uploadTracker.ts:83-89 | a completed record is at full size and complete at the time given, otherwise unchanged, and completing twice at one time is completing once |
| UploadTracker.SurvivorsKeepActive | backend/src/services/uploads/uploadTracker.ts:172-181 | pruning leaves the active uploads exactly as they were |
| UploadTracker.FreshCompletionSurvivesOneDay | backend/src/services/uploads/uploadTracker.ts:172-177 | with the default 24-hour age a record completed now survives a prune exactly 24 h later and goes one millisecond after |
| TusdHooksController.Dispatch | backend/src/controllers/tusdHooksController.ts:13-131 | every hook answers 200, or 500 exactly when the body is null or undefined (and then calls nothing); pre-create and post-terminate call nothing; post-finish completes the upload id; post-create tracks it at offset 0 and incomplete, post-receive at the reported offset with completion unstated, both with size `Size \|\| 0` |
| TusdHooksController.Handle | backend/src/controllers/tusdHooksController.ts:13-131 | the handler answers the decided status, and the ledger afterwards is the old one after the decided call (nothing, a track or a complete) |
| TusdHooksController.PostReceiveReopens | backend/src/controllers/tusdHooksController.ts:76-82 | a chunk report re-opens a completed record, since post-receive does not pass `isComplete` |
| TusdHooksController.PostCreateStartsActive | backend/src/controllers/tusdHooksController.ts:42-49 | a created upload enters the ledger incomplete, at offset 0, first seen now, with no speed |
| TusUpload.TurbosortIsSuffixRule | backend/src/routes/tusUpload.ts:127 | `name === '.turbosort' \|\| lower(name).endsWith('.turbosort')` is the same as the suffix test alone |
| TusUpload.FileNameOf | backend/src/routes/tusUpload.ts:70 | the file name used is never empty (`'unnamed-file'` as fallback) |
| TusUpload.CountUse | backend/src/routes/tusUpload.ts:88-115 | the token lookup changes no file row and no set of links |
| TusUpload.UpdateByTusId | backend/src/routes/tusUpload.ts:233-241 | `updateMany` by tusId: exactly the rows of that upload get the new status, path and completion time; every other row is unchanged; the count of rows is kept |
| TusUpload.Hooks | backend/src/routes/tusUpload.ts:52-364 | the route answers the decided status, stores the decided database, and the ledger afterwards is the old one after the decided call |
| TusUpload.TurbosortNeverTracked | backend/src/routes/tusUpload.ts:123-349 | a `.turbosort` upload never reaches the ledger, whatever the hook, and pre-create and post-finish refuse it (400, or 500 when the rejection write throws) |
| TusUpload.TurbosortOnFiles | backend/src/routes/tusUpload.ts:123-349 | the switch on Type makes no ledger call for a `.turbosort` file and answers pre-create and post-finish with 400 or 500 |
| TusUpload.UsageCountRule | backend/src/routes/tusUpload.ts:88-115 | a link's use count grows by one exactly on post-finish with its token, also for a rejected file; nothing else about the links changes |
| TusUpload.PreCreateAnswers | backend/src/routes/tusUpload.ts:124-165 | pre-create writes no file row and no ledger entry, answers 400 exactly for `.turbosort`, 404 exactly for an unknown non-default project, 200 otherwise |
| TusUpload.PostCreateEffect | backend/src/routes/tusUpload.ts:167-225 | an accepted post-create appends one row named after the file, in a project that exists: an "error" row at the rejection path for `.turbosort` (not tracked), otherwise an "uploading" row tracked at offset 0 |
| TusUpload.PostFinishEffect | backend/src/routes/tusUpload.ts:296-336 | post-finish of an accepted file marks every row of the upload completed now at UPLOADS_DIR/<ID>_<filename> and completes the ledger record |
| TusUpload.MissingTypeIsNoOp | backend/src/routes/tusUpload.ts:117-121 | a hook without Type answers 200 and changes nothing |
| TusUpload.NotifySpeed | backend/src/routes/tusUpload.ts:392-402 | a speed is computed exactly for upload_progress without a supplied speed, with an id whose record has a previous offset and time, when the clock moved on; then speed × elapsed ms = bytes gained × 1000 |
| UploadRoutes.GroupHasNoHyphen | backend/src/routes/upload.ts:24 | the hex groups of a UUID hold no hyphen |
| UploadRoutes.HyphensOfUuid | backend/src/routes/upload.ts:24 | a UUID has its hyphens at offsets 8, 13, 18 and 23 |
| UploadRoutes.SplitFive | backend/src/routes/upload.ts:24 | five hyphen-free groups joined by hyphens split back into those groups |
| UploadRoutes.SplitUuid | backend/src/routes/upload.ts:24 | `uuid.split('-')` yields the five hex groups |
| UploadRoutes.JoinFirstFour | backend/src/routes/upload.ts:25 | the first four groups joined by hyphens are the first 23 characters |
| UploadRoutes.UploadTokenOfUuid | backend/src/routes/upload.ts:23-26 | an upload token is the UUID's first 23 characters upper-cased: 23 characters, hyphens at 8, 13 and 18, upper-case hex digits elsewhere |
| UploadRoutes.SafeName | backend/src/routes/upload.ts:73 | same length; each of `/ \ : * ? " < > \|` becomes '_' and every other character is kept |
| UploadRoutes.SafeNameIsSafe | backend/src/routes/upload.ts:69-75 | a stored name holds no unsafe character, and sanitising it again changes nothing |
| UploadRoutes.KeepCodeChars | backend/src/routes/upload.ts:94 | only A-Z and 0-9 remain and no character is added; one character is kept exactly when it is one of them |
| UploadRoutes.KeepCodeCharsAppend | backend/src/routes/upload.ts:94 | the filter distributes over concatenation |
| UploadRoutes.UpperCodeChars | backend/src/routes/upload.ts:94 | what one character contributes after `toUpperCase` and the filter: code characters stay, a-z give their capitals, the letters whose full upper-case form holds Latin capitals give those, at most three; on ASCII, upper-casing then filtering |
| UploadRoutes.CodeLetters | backend/src/routes/upload.ts:94 | only A-Z and 0-9 |
| UploadRoutes.CodeLettersAscii | backend/src/routes/upload.ts:94 | on an ASCII name, the upper-cased name filtered |
| UploadRoutes.DerivedCode | backend/src/routes/upload.ts:92-95 | the first ten characters (or all, when fewer) of the upper-cased, filtered name |
| UploadRoutes.DerivedCodeSharpS | backend/src/routes/upload.ts:92-95 | "Straße" derives "STRASSE": the sharp s gives two letters |
| UploadRoutes.CodeLettersFixed | backend/src/routes/upload.ts:94 | a string of code characters reads back as itself |
| UploadRoutes.ClientCode | backend/src/routes/upload.ts:92-95 | a given code is used as it is; otherwise the derived code |
| UploadRoutes.DerivedCodeStable | backend/src/routes/upload.ts:92-95 | deriving a code from a derived code gives it back |
| UploadRoutes.CheckLink | backend/src/routes/upload.ts:411-444 | not found exactly without a link; expired exactly when past its expiry; used up exactly when not expired and a limit is set and reached; usable otherwise |
| UploadRoutes.VerdictStatus | backend/src/routes/upload.ts:411-444 | 200 exactly for a usable link, 404 exactly for a missing one (403 for the rest) |
| UploadRoutes.LinkUseLimit | backend/src/routes/upload.ts:434-444 | an unexpired link limited to n uses is usable exactly for use counts below n; an unlimited one always; one more use never makes a link usable |
| UploadRoutes.FindByHash | backend/src/routes/upload.ts:476-481 | a found row is in the table with that project and hash; none exactly when no row has both |
| UploadRoutes.StoreFile | backend/src/routes/upload.ts:470-554 | a file whose hash a row of the project had before the request is reused and its upload deleted; a missing hash, or S3 storage without a URL, fails and stores nothing; otherwise one completed row is appended at the S3 URL or the local path, deleting the local file for S3 |
| UploadRoutes.Batch | backend/src/routes/upload.ts:450-578 | one outcome per file, in order, every lookup against the rows stored before the request |
| UploadRoutes.BatchDedupesStored | backend/src/routes/upload.ts:450-578 | a batch only appends rows, each of the project and with a hash no row of the project had before the request |
| UploadRoutes.BatchStoresTwins | backend/src/routes/upload.ts:450-578 | two identical files sent together to a project without their hash are both stored, so one project then holds the hash twice |
| UploadRoutes.UploadOutcome | backend/src/routes/upload.ts:387-590 | no file list gives 400 and no change; an unknown token with files gives 500 with nothing stored or unlinked (multer's storage fails first); any other unusable link gives its status, deletes every upload and changes nothing; the use count grows by one exactly when the link is usable and every file succeeded |
| UploadRoutes.UnknownTokenFailsInStorage | backend/src/routes/upload.ts:29-47 | with files and an unknown token the storage's lookup fails the request: 500, no row, no use, nothing unlinked |
| UploadRoutes.PathsOf | backend/src/routes/upload.ts:413-415 | the paths deleted are those of the uploaded files, in order |
| UploadRoutes.BatchSnoc | backend/src/routes/upload.ts:450-578 | one more file extends the batch by its own outcome, rows and deletions, its lookup still against the rows before the request |
| UploadRoutes.StartAllOther | backend/src/routes/upload.ts:455-468 | the starts leave every entry of another id as it was |
| UploadRoutes.StartAllAt | backend/src/routes/upload.ts:455-468 | with distinct ids, after the starts each file's id holds its size, offset 0 and its metadata |
| UploadRoutes.StartCallRecord | backend/src/routes/upload.ts:455-468 | one start call gives its id the file's size, offset 0 and its metadata |
| UploadRoutes.StartCallFrame | backend/src/routes/upload.ts:455-468 | one start call touches no other id |
| UploadRoutes.FinishAllOther | backend/src/routes/upload.ts:483-577 | the final calls leave every entry of another id as it was |
| UploadRoutes.FinishAllAt | backend/src/routes/upload.ts:483-577 | with distinct ids, after the final calls a started file's id holds its final record |
| UploadRoutes.FinishCallFrame | backend/src/routes/upload.ts:488 | one final call touches no other id |
| UploadRoutes.FinishCallRecord | backend/src/routes/upload.ts:483-577 | a final call turns a started record into the final one: complete at its size, at full offset unless it failed, with the error in the metadata when it failed |
| UploadRoutes.BatchLedgerRecords | backend/src/routes/upload.ts:450-578 | with distinct ids, the starts and then the final calls leave each file's final record under its id and every other entry as it was |
| UploadRoutes.DistinctPrefix | backend/src/routes/upload.ts:452 | a prefix of distinct ids is distinct |
| UploadRoutes.StartFiles | backend/src/routes/upload.ts:450-468 | the ledger after the synchronous start of every callback is the old one with each file tracked at offset 0, in order, and every id present |
| UploadRoutes.StartAllHasIds | backend/src/routes/upload.ts:455-468 | every started id is in the ledger |
| UploadRoutes.StartAllSnoc | backend/src/routes/upload.ts:455-468 | one more start is one more track |
| UploadRoutes.FinishFiles | backend/src/routes/upload.ts:470-577 | the rest of every callback in file order: the batch outcome, the ledger after every final call, and every id complete |
| UploadRoutes.FinishAllComplete | backend/src/routes/upload.ts:483-577 | every final call leaves its id complete and the keys unchanged, even when ids repeat |
| UploadRoutes.FinishAllSnoc | backend/src/routes/upload.ts:483-577 | one more final call extends the ledger by that call |
| UploadRoutes.RunBatch | backend/src/routes/upload.ts:450-578 | the batch outcome, the ledger after the starts and then the final calls, every id complete, and with distinct ids the final records and every other entry unchanged |
| UploadRoutes.UploadUsable | backend/src/routes/upload.ts:445-590 | with a usable link, the route's decision and the ledger after the whole batch, with the records as in UploadRoutes.RunBatch |
| UploadRoutes.UploadOutcomeUsable | backend/src/routes/upload.ts:580-595 | with a usable link the answer is 200 with one more use when every file succeeded, 500 otherwise |
| UploadRoutes.AnswerIsOutcome | backend/src/routes/upload.ts:580-595 | the answer built from the batch the route runs is the route's outcome |
| UploadRoutes.UploadFiles | backend/src/routes/upload.ts:387-590 | the route's result is the specified decision (an unknown token with files failing in multer's storage with 500); without files or with an unusable link the ledger is unchanged; otherwise the ledger is the one after every start and then every final call, each file's id ends complete, and with distinct ids each holds its file's final record while every other entry is unchanged |
| UploadRoutes.CleanNames | backend/src/routes/upload.ts:1245-1275 | a key without UUID-and-hyphen keeps its key and filename; otherwise every such UUID leaves the filename and the key becomes client/project/filename, restored to the old key when the rename fails |
| UploadRoutes.S3Callback | backend/src/routes/upload.ts:1213-1298 | 400 exactly without key or filename, 404 exactly for an unknown token, 200 otherwise with a completed S3 row at the cleaned key and URL endpoint/bucket/key, MIME type defaulting to application/octet-stream, hash to "unknown"; a rename is requested exactly for a key with a UUID-and-hyphen that differs from client/project/cleaned filename, and names that key as the target |
| UploadRoutes.CallbackKeepsPlainKeys | backend/src/routes/upload.ts:1245-1298 | a plain key is recorded as sent, with no rename; a cleaned filename that held a UUID-and-hyphen loses at least 37 characters |
| UploadRoutes.S3CallbackRoute | backend/src/routes/upload.ts:1213-1334 | the ledger after a success is the one after tracking `s3-<id>` complete at full size on S3 and then completing it, so the clean-up is scheduled once, and the use count grows by one; otherwise nothing changes |
| FixS3Filenames.LastSegment | backend/src/scripts/fix-s3-filenames.ts:117 | the last segment holds no '/' |
| FixS3Filenames.ExtractPathInfo | backend/src/scripts/fix-s3-filenames.ts:64-79 | client and project are present together, exactly when there are at least two non-empty segments, and are then the first two: non-empty and free of '/' |
| FixS3Filenames.ExtractPathInfoOfKey | backend/src/scripts/fix-s3-filenames.ts:64-79 | a key `c/p/rest` yields exactly c and p |
| FixS3Filenames.DropLeadingHyphens | backend/src/scripts/fix-s3-filenames.ts:190 | `replace(/^-+/, '')`: no longer than the input, not starting with '-', and only hyphens are dropped from the front; a string not starting with '-' is kept |
| FixS3Filenames.DropLeadingHyphensSuffix | backend/src/scripts/fix-s3-filenames.ts:190 | the result is the suffix of the input left after the dropped hyphens |
| FixS3Filenames.DropLeadingHyphensRun | backend/src/scripts/fix-s3-filenames.ts:190 | a hyphen run followed by a non-hyphen is dropped exactly |
| FixS3Filenames.DropLeadingHyphensErase | backend/src/scripts/fix-s3-filenames.ts:190 | every non-hyphen character survives, in order |
| FixS3Filenames.CollapseHyphens | backend/src/scripts/fix-s3-filenames.ts:190 | `replace(/-+/g, '-')`: no two hyphens in a row, no longer, starts with '-' exactly when the input did (the run-by-run result is FixS3Filenames.CollapseHyphensMeans) |
| FixS3Filenames.CollapseHyphensMeans | backend/src/scripts/fix-s3-filenames.ts:190 | run by run: a hyphen-free stretch is copied and the maximal hyphen run after it becomes one '-' |
| FixS3Filenames.CollapseHyphensRun | backend/src/scripts/fix-s3-filenames.ts:190 | a maximal hyphen run at the front becomes one '-' and the rest is rewritten on its own |
| FixS3Filenames.CollapseHyphensStep | backend/src/scripts/fix-s3-filenames.ts:190 | a leading stretch without '-' is copied in front of the rewrite of what follows |
| FixS3Filenames.CollapseHyphensPrefix | backend/src/scripts/fix-s3-filenames.ts:190 | a leading stretch without '-' of any length is copied in front of the rewrite of what follows |
| FixS3Filenames.CollapseHyphensKeep | backend/src/scripts/fix-s3-filenames.ts:190 | a first character other than '-' is copied unchanged |
| FixS3Filenames.CollapseHyphensErase | backend/src/scripts/fix-s3-filenames.ts:190 | every non-hyphen character survives, in order |
| FixS3Filenames.CollapseHyphensFixed | backend/src/scripts/fix-s3-filenames.ts:190 | a string without a double hyphen is unchanged |
| FixS3Filenames.CleanFilename | backend/src/scripts/fix-s3-filenames.ts:190 | a clean filename starts with no hyphen, has no double hyphen, is no longer than the original, and keeps every non-hyphen character of the name with its first UUID removed, in order |
| FixS3Filenames.CleanFilenameFixed | backend/src/scripts/fix-s3-filenames.ts:190 | a tidy filename without a UUID is its own clean form |
| FixS3Filenames.OrganisedKeyKeepsFolders | backend/src/scripts/fix-s3-filenames.ts:186-196 | with no database information a key `c/p/…/name` (neither "default") keeps c/p and only its last segment is cleaned |
| FixS3Filenames.CleanKeyFolders | backend/src/scripts/fix-s3-filenames.ts:198-216 | otherwise the folders, chosen from the database, the path or "default", hold no JavaScript whitespace |
| FixS3Filenames.NoInformationDefault | backend/src/scripts/fix-s3-filenames.ts:198-200 | a key with fewer than two segments and no database values lands in default/default |
| FixS3Filenames.DefaultFolders | backend/src/scripts/fix-s3-filenames.ts:198-200 | without database values or path segments both folders fall back to "default" |
| FixS3Filenames.DefaultHasNoSpace | backend/src/scripts/fix-s3-filenames.ts:207-208 | "default" is unchanged by the whitespace rewrite |
| FixS3Filenames.NoSpaceAround | backend/src/scripts/fix-s3-filenames.ts:216 | joining two whitespace-free folders with '/' gives no whitespace |
| FixS3Filenames.CleanKeyEndsWithFilename | backend/src/scripts/fix-s3-filenames.ts:177-217 | the clean key always ends in '/' and the cleaned last segment |
| FixS3Filenames.EndsWithJoined | backend/src/scripts/fix-s3-filenames.ts:195 | `a/b` ends with `/b` |
| FixS3Filenames.FindFileInDatabase | backend/src/scripts/fix-s3-filenames.ts:95-170 | an exact path match gives its client and project; else, for a filename with a UUID, the most recent name match; else the first two segments of a key with at least three, when both are non-empty and not "default"; else none |
| FixS3Filenames.FirstIndex | backend/src/scripts/fix-s3-filenames.ts:274-276 | the first row holding the path |
| FixS3Filenames.ReplaceFirst | backend/src/scripts/fix-s3-filenames.ts:274-282 | no row with the old path: nothing changes; otherwise exactly the first such row gets the new path |
| FixS3Filenames.Visit | backend/src/scripts/fix-s3-filenames.ts:231-288 | one object keeps the number of rows, adds at most one to the counts, and adds a move exactly for each rename counted |
| FixS3Filenames.VisitRules | backend/src/scripts/fix-s3-filenames.ts:231-288 | a missing or empty key, a system file or a key without a UUID changes nothing; a move happens only for a successful rename to a different clean key that keeps its folders; no row changes without a move |
| FixS3Filenames.RunCounts | backend/src/scripts/fix-s3-filenames.ts:222-296 | every rename is counted, each object adds at most one to the counts, the rows keep their number, and every move goes from a key with a UUID to a different key that does not lose its folders |
| FixS3Filenames.RunSnoc | backend/src/scripts/fix-s3-filenames.ts:231 | the run over one more object is one more visit |
| FixS3Filenames.FixS3FilenamesRun | backend/src/scripts/fix-s3-filenames.ts:222-296 | the loop's counts, rows and moves are exactly the specified run |
| UploadController.ReplaceDisallowed | backend/src/controllers/uploadController.ts:51 | same length; each character outside `[a-zA-Z0-9_.-]` becomes '_', every other is kept |
| UploadController.ReplaceDotDot | backend/src/controllers/uploadController.ts:51 | `replace(/\.\./g, '_')`: empty exactly when the input is, no longer, and the first character is the rewrite of the input's first (no ".." left and no character added: UploadController.ReplaceDotDotShape; the run-by-run result: UploadController.ReplaceDotDotMeans) |
| UploadController.ReplaceDotDotShape | backend/src/controllers/uploadController.ts:51 | no two dots in a row remain, and every character of the result is '_' or a character of the input |
| UploadController.ReplaceDotDotMeans | backend/src/controllers/uploadController.ts:51 | run by run: a dot-free stretch is copied, a maximal run of n dots becomes n/2 '_' followed by one '.' when n is odd |
| UploadController.ReplaceDotDotRun | backend/src/controllers/uploadController.ts:51 | a maximal dot run is rewritten pair by pair, each pair to '_', an odd dot left at its end, and the rest is rewritten on its own |
| UploadController.DotRunIs | backend/src/controllers/uploadController.ts:51 | the pair-by-pair rewrite of n dots is n/2 '_' followed by n%2 '.' |
| UploadController.ReplaceDotDotPrefix | backend/src/controllers/uploadController.ts:51 | a leading stretch without '.' is copied in front of the rewrite of what follows |
| UploadController.ReplaceDotDotHead | backend/src/controllers/uploadController.ts:51 | a first character other than '.' is copied and the scan resumes at the next one |
| UploadController.ReplaceDotDotPairHead | backend/src/controllers/uploadController.ts:51 | a leading pair of dots becomes '_' and the scan resumes after the pair |
| UploadController.ReplaceDotDotPair | backend/src/controllers/uploadController.ts:51 | a pair of dots at the front becomes '_' and the scan resumes after it |
| UploadController.ReplaceDotDotKeep | backend/src/controllers/uploadController.ts:51 | a character that does not start a pair of dots is kept and the scan moves on by one |
| UploadController.ReplaceDotDotFixed | backend/src/controllers/uploadController.ts:51 | a string without ".." is unchanged |
| UploadController.SanitizePathString | backend/src/controllers/uploadController.ts:47-52 | never empty, only allowed characters, no "..", "unknown" for a missing or empty input, otherwise no longer than the input; an input without ".." keeps its length and each allowed character, every other becoming '_' |
| UploadController.SanitizeInPlace | backend/src/controllers/uploadController.ts:51 | without "..", the first pass creates none, so the second keeps its result |
| UploadController.SanitizeIdempotent | backend/src/controllers/uploadController.ts:47-52 | sanitising twice is sanitising once |
| UploadController.SanitizeFixedPoints | backend/src/controllers/uploadController.ts:47-52 | exactly the non-empty strings of allowed characters without ".." are unchanged by the sanitiser |
| UploadController.DropDots | backend/src/controllers/uploadController.ts:184 | `path.join` drops the "." components and keeps the others in order |
| UploadController.DestPathSafe | backend/src/controllers/uploadController.ts:159-185 | the destination below the data directory has no ".." and no empty component, and is exactly client/project/file when none of the three sanitised names is "." |
| UploadController.SanitizedComponent | backend/src/controllers/uploadController.ts:159-161 | a sanitised name is one non-empty path segment other than ".." |
| UploadController.CheckToken | backend/src/controllers/uploadController.ts:136-153 | the link is accepted exactly when it exists, has not expired, has a project with a client, and the client code and project name are set; the usage limit is not looked at |
| UploadController.FinishedStatus | backend/src/controllers/uploadController.ts:67-320 | 400 exactly without an upload id; 200 exactly when every check passes, and only then is the upload completed in the ledger; 500 otherwise; a request refused before the token check changes no row |
| UploadController.FailureMarksFailed | backend/src/controllers/uploadController.ts:285-319 | a failure after the .info file was read marks the upload's row "failed", if it has one, and changes nothing else |
| UploadController.SuccessRow | backend/src/controllers/uploadController.ts:158-276 | on success the upload's row is completed at the sanitised destination under the sanitised name in the link's project, a new row taking size, MIME type or application/octet-stream, and the hash or "error-<id>"; no other row changes |
| UploadController.InfoMoveNonFatal | backend/src/controllers/uploadController.ts:208-215 | a failed move of the .info file does not change the outcome |
| UploadController.UsageLimitIgnored | backend/src/controllers/uploadController.ts:143-153 | a used-up link is treated like an unlimited one |
| UploadController.ExpiredLinkFails | backend/src/controllers/uploadController.ts:144 | an expired link fails the upload |
| UploadController.HandleProcessFinishedUpload | backend/src/controllers/uploadController.ts:67-320 | the handler returns the decision, and the ledger afterwards is the one after completing the upload when the decision completes it, the old ledger otherwise |
| UploadPortal.ChunkSize | frontend/src/pages/UploadPortal.tsx:237-248 | 10 MiB exactly for a known non-zero size under 100 MiB, 25 MiB exactly for one from 100 MiB to under 1 GiB, 50 MiB otherwise |
| UploadPortal.ChunkSizeMonotone | frontend/src/pages/UploadPortal.tsx:237-248 | a larger file never gets a smaller chunk |
| UploadPortal.Folder | frontend/src/pages/UploadPortal.tsx:284-285 | a folder is never empty, holds no JavaScript whitespace, and is "default" when no name is given |
| UploadPortal.PortalKeyReadBack | frontend/src/pages/UploadPortal.tsx:282-286 | the clean-up script's extractPathInfo reads the portal's client and project folders back out of its key |
| UploadPortal.UrlKeyPathOfUrl | frontend/src/pages/UploadPortal.tsx:289 | for `scheme//host/path?query` the key is the path after the host, with the query dropped |
| UploadPortal.UrlPieces | frontend/src/pages/UploadPortal.tsx:289 | `scheme//host/path` splits on '/' into the scheme, an empty piece, the host and the pieces of the path |
| UploadPortal.FallbackKeyMatchesSigned | frontend/src/pages/UploadPortal.tsx:504-519 | without a returned URL the reported key equals the key that was signed exactly when the name holds no UUID followed by a hyphen, and is otherwise at least 37 characters shorter |
| UploadPortal.FallbackCallbackAccepted | frontend/src/pages/UploadPortal.tsx:523-532 | the callback the portal builds without a returned URL is recorded (200) by the backend for a known token |
| UploadPortal.PercentOf | frontend/src/pages/UploadPortal.tsx:343 | `Math.floor(uploaded / total * 100)`: the whole percentage for a known total; Infinity for x/0 with x > 0, NaN for 0/0 |
| UploadPortal.ThirdConditionIdle | frontend/src/pages/UploadPortal.tsx:354-356 | with a stored percentage in [0, 100) the decision is time plus rise-or-100, and a 0% update is never sent |
| UploadPortal.RunThrottled | frontend/src/pages/UploadPortal.tsx:337-366 | over any run the stored percentage stays in [0, 100) and never falls, messages are at least 3000 ms apart, and each message below 100% raises the stored percentage by at least 10, so at most nine are sent |
| UploadPortal.ProgressThrottle.constructor | frontend/src/pages/UploadPortal.tsx:153-154 | both refs start at 0 |
| UploadPortal.ProgressThrottle.OnProgress | frontend/src/pages/UploadPortal.tsx:337-366 | a file without a name or without byte counts is ignored; otherwise a message goes out exactly when the throttle says so, carrying the computed percentage, and the refs advance as the throttle step says |
| UploadPortal.AddFileFilters | frontend/src/pages/UploadPortal.tsx:645-651 | a `.turbosort` file is removed as soon as it is added and every other file joins the queue, so the queue never holds one |
| TemplateNames.MatchLiteral | scripts/template_checker/template_checker.py:76 | a pattern without wildcards matches exactly itself |
| TemplateNames.MatchStarLiteral | scripts/template_checker/template_checker.py:88 | `*` then a literal matches exactly the names ending with the literal |
| TemplateNames.MatchKeepsLiteral | scripts/template_checker/template_checker.py:76 | a literal character of a pattern occurs in every name it matches |
| TemplateNames.DoubleStar | scripts/template_checker/template_checker.py:40-43 | `**` matches what `*` matches (fnmatch has no recursive wildcard) |
| TemplateNames.EndsWithTail | scripts/template_checker/template_checker.py:40-42 | a name ending with a+b ends with b |
| TemplateNames.ExcludePatternsHaveSlash | scripts/template_checker/template_checker.py:39-44 | every exclude pattern holds a literal '/' |
| TemplateNames.TopLevelNeverExcluded | scripts/template_checker/template_checker.py:73-78 | a path without '/' is never excluded, so a top-level config.template.js is kept |
| TemplateNames.TopLevelGitKept | scripts/template_checker/template_checker.py:39-44 | a file directly in a top-level `.git` directory is excluded exactly when it is config.template.js: the `.git` pattern needs a '/' before `.git` |
| TemplateNames.GitPatternMissesTopLevel | scripts/template_checker/template_checker.py:43 | the `.git` pattern never matches `.git/<name>` |
| TemplateNames.GitConfigExcluded | scripts/template_checker/template_checker.py:39-44 | `.git/config.template.js` is excluded |
| TemplateNames.GitExcludedIsConfig | scripts/template_checker/template_checker.py:39-44 | an excluded file directly in `.git` is config.template.js |
| TemplateNames.GitPathSlashes | scripts/template_checker/template_checker.py:43 | `.git/<name>` holds exactly one '/' when the name holds none |
| TemplateNames.GitPatternSlashes | scripts/template_checker/template_checker.py:43 | the `.git` exclusion pattern holds two '/' |
| TemplateNames.GitConfigSuffix | scripts/template_checker/template_checker.py:40 | `.git/<name>` ends with `/config.template.js` only for that name |
| TemplateNames.MatchCountsLiteral | scripts/template_checker/template_checker.py:76 | a matched name holds each literal character at least as often as the pattern |
| TemplateNames.CountOf | scripts/template_checker/template_checker.py:76 | the count is zero exactly when the character is absent |
| TemplateNames.CountOfAppend | scripts/template_checker/template_checker.py:76 | counts add over concatenation |
| TemplateNames.StarStarLiteral | scripts/template_checker/template_checker.py:40-42 | `**` then a literal matches exactly the paths ending with the literal |
| TemplateNames.ExcludeLiterals | scripts/template_checker/template_checker.py:40-42 | the first three exclude patterns are `**` followed by literals ending in /config.template.js |
| TemplateNames.NestedConfigExcluded | scripts/template_checker/template_checker.py:40 | any path ending in /config.template.js is excluded |
| TemplateNames.MirotalkExclusionsRedundant | scripts/template_checker/template_checker.py:40-42 | the two mirotalk exclusions match nothing the first exclusion misses |
| TemplateNames.SlashPatternsNeverMatchNames | scripts/template_checker/template_checker.py:33-35 | the `*/…` template patterns never match a bare file name from os.walk |
| TemplateNames.EnvTemplateMatchesTwice | scripts/template_checker/template_checker.py:31-32 | every name matching `*.env.template` matches `*.template` too (and is listed twice) |
| TemplateNames.Rule1Split | scripts/template_checker/template_checker.py:116 | the greedy `(.+)` picks the rightmost split that works, or none when none does |
| TemplateNames.Rule1 | scripts/template_checker/template_checker.py:116-118 | rule 1's parent name is the template name less ".template" |
| TemplateNames.Rule2 | scripts/template_checker/template_checker.py:124-126 | rule 2's parent name is the non-empty template name without its ".template" suffix |
| TemplateNames.Rule3Redundant | scripts/template_checker/template_checker.py:131-136 | rule 3 offers exactly the name rule 2 already tried, so it never finds a parent |
| TemplateNames.ParentCandidate | scripts/template_checker/template_checker.py:111-136 | the first rule's name that exists, rules tried in order, none when none exists |
| TemplateNames.ParentOf | scripts/template_checker/template_checker.py:138-142 | a parent is a regular file, the first existing candidate |
| TemplateNames.DirectoryBlocksLaterRules | scripts/template_checker/template_checker.py:116-146 | when rule 1 names a directory, the later rules are not tried and there is no parent |
| TemplateNames.ParentOfTwoRules | scripts/template_checker/template_checker.py:111-146 | the parent is the first existing candidate of rules 1 and 2, if it is a file |
| TemplateNames.ParentNameExamples | scripts/template_checker/template_checker.py:116-126 | `app.template.js` names `app.js`; `.env.template` names `.env` by rule 2 |
| TemplateLines.SkipWhile | scripts/template_checker/template_checker.py:56-59 | the end of the longest run from i of characters with the property |
| TemplateLines.FirstIndex | scripts/template_checker/template_checker.py:56-59 | the first position from `from` holding c, none when there is none |
| TemplateLines.LastBefore | scripts/template_checker/template_checker.py:51-54 | the last occurrence at or before the bound, none when there is none |
| TemplateLines.LastIndexOf | scripts/template_checker/template_checker.py:168-171 | where a greedy `.*` before the marker stops: the last occurrence |
| TemplateLines.EnvMatch | scripts/template_checker/template_checker.py:49 | `^([A-Z0-9_]+)=`: the '=' after a non-empty run of upper-case letters, digits and '_' |
| TemplateLines.JsonKey | scripts/template_checker/template_checker.py:56-57 | where the prefix `^\s*"?[a-zA-Z0-9_]+"?\s*:\s*` ends: inside the line, at a non-space or at the end |
| TemplateLines.KeyColon | scripts/template_checker/template_checker.py:56-57 | after the key the match ends past the colon, at a non-space or at the end |
| TemplateLines.KeyColonAt | scripts/template_checker/template_checker.py:56-57 | an optional quote, whitespace, ':' and the longest whitespace run after it end the key prefix exactly there |
| TemplateLines.KeyColonPositions | scripts/template_checker/template_checker.py:56-57 | conversely, every end of the key prefix comes from an optional quote, whitespace, ':' and whitespace |
| TemplateLines.JsonKeyHeadAt | scripts/template_checker/template_checker.py:56-57 | leading whitespace, an optional quote and a longest word run are the head of the key prefix |
| TemplateLines.JsonKeyHead | scripts/template_checker/template_checker.py:56-57 | conversely, every key prefix match has such a head |
| TemplateLines.JsonKeyParts | scripts/template_checker/template_checker.py:56-57 | a matched line is whitespace, an optional quote, a non-empty word key, an optional quote, whitespace, ':', whitespace and the rest; the match covers exactly the parts before the rest |
| TemplateLines.JsonStringMatch | scripts/template_checker/template_checker.py:56 | the key prefix followed by `"[^"]*"`: the two quotes with no quote between them; no match only when there is no key prefix, no quote after it, or no second quote |
| TemplateLines.JsonNumberMatch | scripts/template_checker/template_checker.py:57 | the key prefix followed by `\d`: a match exactly when a digit follows the key prefix |
| TemplateLines.DockerMatch | scripts/template_checker/template_checker.py:59 | a quoted list item holding '=' and ending the line: the group ends right after an '=' |
| TemplateLines.DockerAt | scripts/template_checker/template_checker.py:59 | whitespace, '-', whitespace, a quoted text that ends the line and an '=' with no later '=' in it: the group ends right after that '=' |
| TemplateLines.DockerPositions | scripts/template_checker/template_checker.py:59 | conversely, every match has that shape, and its group ends after the last '=' of the quoted text |
| TemplateLines.DockerMeans | scripts/template_checker/template_checker.py:59 | `ws-ws"a=v"` with no quote in a or v and no '=' in v matches, and the group ends after `a=` |
| TemplateLines.DockerParts | scripts/template_checker/template_checker.py:59 | conversely, every matched line is `ws-ws"a=v"` with no quote in a or v and no '=' in v |
| TemplateLines.LastEquals | scripts/template_checker/template_checker.py:59 | the greedy `[^"]*=` stops at the last '=': in `a=v` with no '=' in v, the one after a |
| TemplateLines.Substitute | scripts/template_checker/template_checker.py:165-178 | a rule whose pattern does not match leaves the line alone |
| TemplateLines.SubJsonString | scripts/template_checker/template_checker.py:174 | the key prefix and a quoted string: the string becomes `"<VALUE>"`, the key and the rest of the line are kept |
| TemplateLines.SubJsonNumber | scripts/template_checker/template_checker.py:175 | the key prefix and a longest digit run: the digits become `<NUMBER>`, the key and the rest of the line are kept |
| TemplateLines.SubDocker | scripts/template_checker/template_checker.py:178 | `ws-ws"a=v"` becomes `ws-ws"a=<VALUE>"` |
| TemplateLines.SubstituteAllAppend | scripts/template_checker/template_checker.py:159-180 | running two lists of substitutions one after the other is running their concatenation |
| TemplateLines.CheckValueLine | scripts/template_checker/template_checker.py:152-157 | the loop over the ignore patterns answers is_value_line |
| TemplateLines.SubstituteAllIdle | scripts/template_checker/template_checker.py:165-178 | substitutions whose patterns match nothing leave the line alone |
| TemplateLines.NormalizeChangesOnlyValueLines | scripts/template_checker/template_checker.py:152-180 | normalisation changes a stripped line only when it is a value line |
| TemplateLines.OnlyEquals | scripts/template_checker/template_checker.py:165-171 | in `name=tail` with no '=' elsewhere, the only '=' follows the name |
| TemplateLines.MarkerAtEquals | scripts/template_checker/template_checker.py:168-171 | a marker `X=` occurs in `name=tail` exactly when the name ends with X, right before the '=' |
| TemplateLines.MarkerStep | scripts/template_checker/template_checker.py:168-171 | one secret substitution replaces the tail of `name=tail` exactly when the name ends with X |
| TemplateLines.EnvNameFacts | scripts/template_checker/template_checker.py:165 | an upper-case name holds no '=' and no '"' |
| TemplateLines.SuffixesExclusive | scripts/template_checker/template_checker.py:168-171 | a name ends with at most one of \_SECRET, \_KEY, \_TOKEN and \_PASSWORD |
| TemplateLines.SecretRuleStep | scripts/template_checker/template_checker.py:168-171 | a secret rule at the head of the list rewrites `name=tail` as its suffix says |
| TemplateLines.SecretSteps | scripts/template_checker/template_checker.py:168-171 | the four secret rules turn `name=tail` into `name=` and the placeholder of the name's suffix, or leave it alone when the name has none of the suffixes |
| TemplateLines.LaterSecretSteps | scripts/template_checker/template_checker.py:170-171 | the token and password rules leave `name=` and the placeholder their suffix selects |
| TemplateLines.SecretsOfEnvLine | scripts/template_checker/template_checker.py:168-178 | the secret rules and then the rest turn `NAME=<VALUE>` into `NAME=` and its placeholder |
| TemplateLines.JsonRulesIdle | scripts/template_checker/template_checker.py:174-178 | a line with no JSON key and no list item is left alone by the last three rules |
| TemplateLines.EnvLineIsNoJson | scripts/template_checker/template_checker.py:174-178 | an upper-case `NAME=value` line has no JSON key and is no list item |
| TemplateLines.StripFixed | scripts/template_checker/template_checker.py:162 | a line without surrounding whitespace is its own strip |
| TemplateLines.SubEnvOfEnvLine | scripts/template_checker/template_checker.py:165 | the first substitution turns `NAME=value` into `NAME=<VALUE>` |
| TemplateLines.EnvLineNormalized | scripts/template_checker/template_checker.py:159-180 | an upper-case `NAME=value` line normalises to `NAME=<VALUE>`, or to the secret placeholder when NAME ends in \_SECRET, \_KEY, \_TOKEN or \_PASSWORD |
| TemplateLines.NormalizeSteps | scripts/template_checker/template_checker.py:159-180 | `normalize_line` is `strip()`, then the environment rule, the four secret rules and the three value rules, in that order |
| TemplateLines.NoEqualsIdle | scripts/template_checker/template_checker.py:165-171 | a line without '=' passes the environment and secret rules unchanged |
| TemplateLines.PlaceholderBehindQuote | scripts/template_checker/template_checker.py:168-171 | the `- "` in front of a list item does not change which secret suffix its name ends with |
| TemplateLines.JsonLineNormalized | scripts/template_checker/template_checker.py:159-180 | `"key": "value"` normalises to `"key": "<VALUE>"` |
| TemplateLines.NumberLineNormalized | scripts/template_checker/template_checker.py:159-180 | `key: 123` normalises to `key: <NUMBER>` |
| TemplateLines.PlainItemNormalized | scripts/template_checker/template_checker.py:159-180 | `- "A=v"` whose name has no secret suffix normalises to `- "A=<VALUE>"` |
| TemplateLines.SecretItemNormalized | scripts/template_checker/template_checker.py:159-180 | `- "A=v"` whose name ends in a secret suffix normalises to `- "A=` and that placeholder, without the closing quote: the secret rule runs first and the list-item rule no longer matches |
| TemplateLines.DockerLineNormalized | scripts/template_checker/template_checker.py:159-180 | the two cases together: `- "A=<VALUE>"`, or `- "A=` and the secret placeholder |
| TemplateChecker.Keys | scripts/template_checker/template_checker.py:70-71 | the keys of an insertion-ordered dict, one per entry, in order |
| TemplateChecker.KeysSnoc | scripts/template_checker/template_checker.py:70-71 | one more entry adds its key last |
| TemplateChecker.Lookup | scripts/template_checker/template_checker.py:281 | `d.get(k)` finds a value exactly for a present key, and that entry is in the dict |
| TemplateChecker.Replace | scripts/template_checker/template_checker.py:142 | replacing a value keeps the keys and their order |
| TemplateChecker.Put | scripts/template_checker/template_checker.py:142 | `d[k] = v` keeps a present key in place and adds a new key last |
| TemplateChecker.ReplaceLookup | scripts/template_checker/template_checker.py:142 | after replacing k's value, k reads the new value and every other key as before |
| TemplateChecker.PutLookup | scripts/template_checker/template_checker.py:142 | after `d[k] = v`, k reads v and every other key as before |
| TemplateChecker.PutEntry | scripts/template_checker/template_checker.py:142 | every entry after `d[k] = v` is the new one or an old one |
| TemplateChecker.PutDistinct | scripts/template_checker/template_checker.py:142 | `d[k] = v` never creates a second entry for a key |
| TemplateChecker.FoundFilesMeans | scripts/template_checker/template_checker.py:88-98 | a path is listed for a pattern exactly when a name of the directory matches it and the path is not excluded |
| TemplateChecker.CountMatching | scripts/template_checker/template_checker.py:87 | a name matches at most as many patterns as there are |
| TemplateChecker.Repeat | scripts/template_checker/template_checker.py:87-98 | n copies of a path |
| TemplateChecker.FoundOneName | scripts/template_checker/template_checker.py:86-98 | a name is listed once per pattern it matches, unless its path is excluded |
| TemplateChecker.CountTwo | scripts/template_checker/template_checker.py:87 | two different matching patterns give at least two matches |
| TemplateChecker.CountOne | scripts/template_checker/template_checker.py:87 | one matching pattern gives at least one match |
| TemplateChecker.EnvTemplateListedTwice | scripts/template_checker/template_checker.py:29-36 | a top-level `X.env.template` is listed at least twice, since `*.template` and `*.env.template` both match |
| TemplateChecker.ParentsOfMeans | scripts/template_checker/template_checker.py:105-150 | the parent map holds a template exactly when it has a parent, with that parent, and no key twice |
| TemplateChecker.NormKept | scripts/template_checker/template_checker.py:211-213 | no more normalised lines than lines |
| TemplateChecker.NormSetMeans | scripts/template_checker/template_checker.py:219 | a normalised form is in the template's set exactly when some kept template line has it |
| TemplateChecker.MissingIntendedMeans | scripts/template_checker/template_checker.py:182-228 | a line is reported exactly when a kept parent line without a normalised twin in the template gives it, rstripped |
| TemplateChecker.MissingIntendedBound | scripts/template_checker/template_checker.py:221-226 | at most one report per kept parent line |
| TemplateChecker.NothingMissingFromItself | scripts/template_checker/template_checker.py:182-228 | a template holding every parent line lacks nothing |
| TemplateChecker.GuardAlwaysHolds | scripts/template_checker/template_checker.py:224 | the guard `i < len(parent_lines)` always holds |
| TemplateChecker.AsWrittenAgreesWithoutSkips | scripts/template_checker/template_checker.py:221-226 | without blank or comment lines in the parent the code as written reports the right lines |
| TemplateChecker.AllKeptLength | scripts/template_checker/template_checker.py:211-213 | when every line is kept there is one normalised line per line |
| TemplateChecker.AsWrittenAligned | scripts/template_checker/template_checker.py:221-226 | with every line kept, index i of the normalised lines is line i of the parent |
| TemplateChecker.AsWrittenAlignedStep | scripts/template_checker/template_checker.py:221-226 | one more kept line at its own index of the parent keeps the code as written in step with the intended report |
| TemplateChecker.AsWrittenScanSnoc | scripts/template_checker/template_checker.py:221-226 | the next normalised line, when missing, is reported as the parent line at its index |
| TemplateChecker.AsWrittenReportsComment | scripts/template_checker/template_checker.py:221-226 | with an empty template and the parent `# note`, `FOO=1`, the code reports `# note` where `FOO=1` is missing |
| TemplateChecker.NoteLines | scripts/template_checker/template_checker.py:208-213 | the comment is dropped, the setting kept, and both are unchanged by rstrip |
| TemplateChecker.AsWrittenOnNote | scripts/template_checker/template_checker.py:221-226 | the code as written reports the comment |
| TemplateChecker.IntendedOnNote | scripts/template_checker/template_checker.py:221-226 | reporting each line from its own parent line gives the setting |
| TemplateChecker.NormKeptSnoc | scripts/template_checker/template_checker.py:207-213 | one more line adds its normalised form when kept |
| TemplateChecker.MissingBySetSnoc | scripts/template_checker/template_checker.py:221-226 | one more parent line adds its rstripped form when kept and missing |
| TemplateChecker.DiffsMeans | scripts/template_checker/template_checker.py:233-255 | `differences` holds a template exactly when it has a parent and lacks at least one line, and then holds those lines |
| TemplateChecker.DiffsAvoids | scripts/template_checker/template_checker.py:239-244 | a template without a parent never gets a differences entry |
| TemplateChecker.DiffsWellFormed | scripts/template_checker/template_checker.py:233-255 | every differences entry names a paired template, once, and holds at least one line |
| TemplateChecker.SummaryWhenNothingMissing | scripts/template_checker/template_checker.py:257-275 | with no differences the report is the header and the summary ending in its sentence |
| TemplateChecker.SectionsListMissing | scripts/template_checker/template_checker.py:280-295 | every missing line of every template is in the report, under that template's heading |
| TemplateChecker.Checker.constructor | scripts/template_checker/template_checker.py:66-71 | a new checker holds `os.path.abspath(base_dir)`, resolved from the working directory, and empty lists and maps |
| PosixPaths.JoinPath | scripts/template_checker/template_checker.py:67 | `os.path.join`: an absolute second part replaces the first; an absolute first part gives an absolute result |
| PosixPaths.Resolve | scripts/template_checker/template_checker.py:67 | the `normpath` loop keeps only normal names: none empty, ".", ".." or holding '/' |
| PosixPaths.AbsPath | scripts/template_checker/template_checker.py:67 | `os.path.abspath` gives an absolute path |
| PosixPaths.ResolveNormal | scripts/template_checker/template_checker.py:67 | normal names pass through the `normpath` loop unchanged |
| PosixPaths.NameThenParent | scripts/template_checker/template_checker.py:67 | a name followed by ".." cancels out |
| PosixPaths.ResolveAppend | scripts/template_checker/template_checker.py:67 | the loop over two lists of components is the loop over the second from where the first stopped |
| PosixPaths.NormAbsIdempotent | scripts/template_checker/template_checker.py:67 | `normpath` of an absolute path is already normal: applying it again changes nothing |
| PosixPaths.AbsPathIdempotent | scripts/template_checker/template_checker.py:67 | `abspath` of the stored base directory, from any working directory, is the base directory itself |
| PosixPaths.AbsPathOfNames | scripts/template_checker/template_checker.py:67 | a relative base directory of names lies under the working directory, joined with one '/' |
| PosixPaths.AbsPathParent | scripts/template_checker/template_checker.py:67 | a base directory "name/.." is the working directory itself |
| TemplateChecker.Checker.IsExcludedFile | scripts/template_checker/template_checker.py:73-78 | the loop answers whether some exclude pattern matches |
| TemplateChecker.Checker.FilterNames | scripts/template_checker/template_checker.py:88-98 | the loop lists exactly the matching, non-excluded paths of one directory |
| TemplateChecker.Checker.ScanDirectory | scripts/template_checker/template_checker.py:87-98 | one directory, pattern after pattern |
| TemplateChecker.Checker.FindTemplateFiles | scripts/template_checker/template_checker.py:80-103 | the walk lists the template files and stores them; nothing else changes |
| TemplateChecker.Checker.FindParentFiles | scripts/template_checker/template_checker.py:105-150 | the parent map is built in template order and stored; nothing else changes |
| TemplateChecker.Checker.NormalizeKeptLines | scripts/template_checker/template_checker.py:207-213 | the loop yields the normalised kept lines |
| TemplateChecker.Checker.CollectMissing | scripts/template_checker/template_checker.py:216-226 | the corrected reporting loop: the kept parent lines whose normalised form the template lacks, each rstripped from its own line, in parent order |
| TemplateChecker.Checker.CollectMissingAsWritten | scripts/template_checker/template_checker.py:221-226 | the reporting loop as written: the i-th normalised kept line missing from the set is reported as the rstripped i-th line of the whole parent |
| TemplateChecker.Checker.FindMissingLines | scripts/template_checker/template_checker.py:182-231 | nothing when either path is not a file, else the corrected missing lines (TemplateChecker.MissingIntended) |
| TemplateChecker.Checker.AnalyzeAllFiles | scripts/template_checker/template_checker.py:233-255 | the differences of every paired template that lacks lines, stored; nothing else changes |
| TemplateChecker.Checker.AppendSection | scripts/template_checker/template_checker.py:280-295 | one template's section appended to the report |
| TemplateChecker.Checker.BuildSections | scripts/template_checker/template_checker.py:277-295 | the sections of all differences, in order |
| TemplateChecker.Checker.GenerateReport | scripts/template_checker/template_checker.py:257-297 | the report lines joined with newlines |
| TemplateChecker.Checker.Run | scripts/template_checker/template_checker.py:299-304 | find, pair, compare and report, each step's result stored and used by the next |
| Ice.StateNamesDistinct | ovenmediaengine/src/projects/modules/ice/ice_types.h:16-40 | `IceConnectionStateToString` names every real state differently and none of them "Unknown" |
| Ice.Bind | ovenmediaengine/src/projects/modules/ice/ice_session.cpp:196-208 | a binding request or response sets its own flag, keeps the other, and moves a pair in New (only) to Checking |
| Ice.BindMonotone | ovenmediaengine/src/projects/modules/ice/ice_candidate_pair.cpp:46-54 | the binding flags only go from false to true, so a connectable pair stays connectable |
| Ice.ConnectableAfterBoth | ovenmediaengine/src/projects/modules/ice/ice_candidate_pair.cpp:57-60 | a fresh pair is connectable once it got a request and a response, in either order |
| Ice.BindAllFlags | ovenmediaengine/src/projects/modules/ice/ice_candidate_pair.cpp:46-60 | after a series of binding messages a flag is set iff it was set before or such a message arrived; the pair left New iff it was New and got any |
| Ice.SessionAfterBind | ovenmediaengine/src/projects/modules/ice/ice_session.cpp:199-208 | the session moves to Checking iff both it and the pair were in New; otherwise it keeps its state |
| Ice.CandidatePair.constructor | ovenmediaengine/src/projects/modules/ice/ice_candidate_pair.h:39-44 | a new pair keeps its address pair and socket, starts in New with neither flag set |
| Ice.CandidatePair.SetState | ovenmediaengine/src/projects/modules/ice/ice_candidate_pair.cpp:22-25 | only the state changes |
| Ice.CandidatePair.OnReceivedBindingRequest | ovenmediaengine/src/projects/modules/ice/ice_candidate_pair.cpp:46-49 | only the request flag changes, to true |
| Ice.CandidatePair.OnReceivedBindingResponse | ovenmediaengine/src/projects/modules/ice/ice_candidate_pair.cpp:51-54 | only the response flag changes, to true |
| Ice.Session.constructor | ovenmediaengine/src/projects/modules/ice/ice_session.cpp:12-22 | a new session is New, with no pairs and no connected pair, and expires expire_after_ms from now |
| Ice.Session.Refresh | ovenmediaengine/src/projects/modules/ice/ice_session.cpp:36-39 | the expiry time becomes now plus expire_after_ms; nothing else changes |
| Ice.Session.SetState | ovenmediaengine/src/projects/modules/ice/ice_session.cpp:51-54 | only the session state changes |
| Ice.Session.FindCandidatePair | ovenmediaengine/src/projects/modules/ice/ice_session.cpp:156-167 | the pair filed under the address pair, and null exactly when there is none |
| Ice.Session.FindOrCreate | ovenmediaengine/src/projects/modules/ice/ice_session.cpp:189-194 | an existing pair is returned unchanged; otherwise a fresh pair in New is filed under the address pair; at most one pair per address pair |
| Ice.Session.OnBinding | ovenmediaengine/src/projects/modules/ice/ice_session.cpp:187-233 | the pair for the address pair exists afterwards, got the binding message, and the session state follows SessionAfterBind; other pairs keep their state |
| Ice.Session.OnReceivedStunBindingRequest | ovenmediaengine/src/projects/modules/ice/ice_session.cpp:187-209 | OnBinding with a request |
| Ice.Session.OnReceivedStunBindingResponse | ovenmediaengine/src/projects/modules/ice/ice_session.cpp:211-233 | OnBinding with a response |
| Ice.Session.OnReceivedStunBindingErrorResponse | ovenmediaengine/src/projects/modules/ice/ice_session.cpp:235-245 | a known pair becomes Failed and keeps its flags; an unknown address pair changes nothing |
| Ice.Session.UseCandidate | ovenmediaengine/src/projects/modules/ice/ice_session.cpp:270-296 | true iff the session was in Checking and the pair exists; then pair and session are Connected and the pair is the connected one, otherwise nothing changes |
| Ice.RefreshedNotExpired | ovenmediaengine/src/projects/modules/ice/ice_session.cpp:36-49 | a session just refreshed, with a non-negative timeout and no lifetime epoch passed, is not expired |
| Ice.ExpiredStaysExpired | ovenmediaengine/src/projects/modules/ice/ice_session.cpp:41-49 | without a refresh an expired session stays expired as time goes on |
| RtpFrame.OrderNumberUniform | ovenmediaengine/src/projects/modules/rtp_rtcp/rtp_frame_jitter_buffer.cpp:62-89 | all four branches of `GetOrderNumber` after the first packet give `(32767 + seq - firstSeq) mod 2^16` |
| RtpFrame.OrderNumberInjective | ovenmediaengine/src/projects/modules/rtp_rtcp/rtp_frame_jitter_buffer.cpp:51-89 | distinct sequence numbers get distinct order numbers in one frame |
| RtpFrame.CheckMeans | ovenmediaengine/src/projects/modules/rtp_rtcp/rtp_frame_jitter_buffer.cpp:148-176 | after `CheckCompleted` the frame is complete iff it was, or it is marked and `(max - min + 1) mod 2^16` equals the packet count; nothing else changes |
| RtpFrame.InitialValid | ovenmediaengine/src/projects/modules/rtp_rtcp/rtp_frame_jitter_buffer.h:31-43 | a new frame (no packets, min 65535, max 0) satisfies the frame invariant |
| RtpFrame.CheckValid | ovenmediaengine/src/projects/modules/rtp_rtcp/rtp_frame_jitter_buffer.cpp:148-176 | the completion check keeps the frame invariant |
| RtpFrame.InsertValid | ovenmediaengine/src/projects/modules/rtp_rtcp/rtp_frame_jitter_buffer.cpp:95-126 | inserting keeps the frame invariant: stored packets carry the frame's timestamp, min and max bound the order numbers, a complete frame is marked |
| RtpFrame.InsertRejects | ovenmediaengine/src/projects/modules/rtp_rtcp/rtp_frame_jitter_buffer.cpp:97-101 | a packet is accepted iff it carries the frame's timestamp; a rejected one leaves the frame as it was |
| RtpFrame.InsertFirst | ovenmediaengine/src/projects/modules/rtp_rtcp/rtp_frame_jitter_buffer.cpp:51-60 | the first packet is filed under 32767 and fixes the reference sequence number |
| RtpFrame.InsertLater | ovenmediaengine/src/projects/modules/rtp_rtcp/rtp_frame_jitter_buffer.cpp:105-107 | a later packet is filed under `(32767 + seq - firstSeq) mod 2^16`; a taken order number keeps its first packet |
| RtpFrame.CompletedStays | ovenmediaengine/src/projects/modules/rtp_rtcp/rtp_frame_jitter_buffer.cpp:133-176 | once completed, a frame stays completed through inserts and checks |
| RtpFrame.InsertCompletes | ovenmediaengine/src/projects/modules/rtp_rtcp/rtp_frame_jitter_buffer.cpp:113-123 | after an accepted insert the frame is complete iff it was, or it is marked and the count fills min..max |
| RtpFrame.CompleteIsContiguous | ovenmediaengine/src/projects/modules/rtp_rtcp/rtp_frame_jitter_buffer.cpp:161-169 | when the count fills min..max, the stored order numbers are exactly min..max |
| RtpFrame.ReadsNeedCompletion | ovenmediaengine/src/projects/modules/rtp_rtcp/rtp_frame_jitter_buffer.cpp:15-49 | neither read returns a packet from a frame that is not complete, and neither changes the packets |
| RtpFrame.FirstOfComplete | ovenmediaengine/src/projects/modules/rtp_rtcp/rtp_frame_jitter_buffer.cpp:15-31 | the first read of a complete frame returns the packet at the minimum order number |
| RtpFrame.NextOfComplete | ovenmediaengine/src/projects/modules/rtp_rtcp/rtp_frame_jitter_buffer.cpp:33-49 | each next read of a complete frame returns the packet at the next order number, and nothing after the maximum |
| RtpFrame.Frame.constructor | ovenmediaengine/src/projects/modules/rtp_rtcp/rtp_frame_jitter_buffer.cpp:9-13 | a new frame holds its timestamp and the field defaults |
| RtpFrame.Frame.GetOrderNumber | ovenmediaengine/src/projects/modules/rtp_rtcp/rtp_frame_jitter_buffer.cpp:51-93 | the new fields and the order number follow the four-branch rule |
| RtpFrame.Frame.CheckCompleted | ovenmediaengine/src/projects/modules/rtp_rtcp/rtp_frame_jitter_buffer.cpp:148-176 | the frame after the completion test, and whether it is complete |
| RtpFrame.Frame.IsCompleted | ovenmediaengine/src/projects/modules/rtp_rtcp/rtp_frame_jitter_buffer.cpp:133-146 | the same as `CheckCompleted` |
| RtpFrame.Frame.InsertPacket | ovenmediaengine/src/projects/modules/rtp_rtcp/rtp_frame_jitter_buffer.cpp:95-126 | the new frame and the accept flag follow the insert rule |
| RtpFrame.Frame.GetFirstRtpPacket | ovenmediaengine/src/projects/modules/rtp_rtcp/rtp_frame_jitter_buffer.cpp:15-31 | the first read, on the frame's fields |
| RtpFrame.Frame.GetNextRtpPacket | ovenmediaengine/src/projects/modules/rtp_rtcp/rtp_frame_jitter_buffer.cpp:33-49 | the next read, on the frame's fields |
| RtpFrameJitterBuffer.ExtendSplits | ovenmediaengine/src/projects/modules/rtp_rtcp/rtp_frame_jitter_buffer.cpp:187-198 | the extended timestamp has the RTP timestamp in its low 32 bits and the cycle above; the cycle steps iff `ts < last` and `last - ts > 0x80000000` |
| RtpFrameJitterBuffer.ExtendOrder | ovenmediaengine/src/projects/modules/rtp_rtcp/rtp_frame_jitter_buffer.cpp:187-198 | before the cycle overflows, the extended timestamp moves forward iff the RTP timestamp moved forward or wrapped |
| RtpFrameJitterBuffer.LowerBound | ovenmediaengine/src/projects/modules/rtp_rtcp/rtp_frame_jitter_buffer.cpp:204 | the position `std::map` finds a key at: every key before it is smaller, the key at it is not |
| RtpFrameJitterBuffer.LowerBoundUnique | ovenmediaengine/src/projects/modules/rtp_rtcp/rtp_frame_jitter_buffer.cpp:204 | in a sorted map that position is the only one with this property |
| RtpFrameJitterBuffer.InsertSorted | ovenmediaengine/src/projects/modules/rtp_rtcp/rtp_frame_jitter_buffer.cpp:212 | adding a new key in its place keeps keys ascending |
| RtpFrameJitterBuffer.InsertKeys | ovenmediaengine/src/projects/modules/rtp_rtcp/rtp_frame_jitter_buffer.cpp:212 | adding an entry adds just its key and its frame |
| RtpFrameJitterBuffer.ReplaceSorted | ovenmediaengine/src/projects/modules/rtp_rtcp/rtp_frame_jitter_buffer.cpp:216-219 | updating the frame at an existing key keeps keys and order |
| RtpFrameJitterBuffer.InsertViewValid | ovenmediaengine/src/projects/modules/rtp_rtcp/rtp_frame_jitter_buffer.cpp:200-222 | filing a packet keeps the buffer valid, adds exactly its extended timestamp as key, and the frame it reaches accepts the packet |
| RtpFrameJitterBuffer.FirstComplete | ovenmediaengine/src/projects/modules/rtp_rtcp/rtp_frame_jitter_buffer.cpp:228-238 | the first frame that reports itself complete, or the end when none does |
| RtpFrameJitterBuffer.FirstCompleteIs | ovenmediaengine/src/projects/modules/rtp_rtcp/rtp_frame_jitter_buffer.cpp:228-238 | the first complete frame is the one preceded only by frames that do not complete |
| RtpFrameJitterBuffer.BurnOutAt | ovenmediaengine/src/projects/modules/rtp_rtcp/rtp_frame_jitter_buffer.cpp:224-254 | burn-out checks the first complete frame in place and drops every frame before it |
| RtpFrameJitterBuffer.BurnOutMeans | ovenmediaengine/src/projects/modules/rtp_rtcp/rtp_frame_jitter_buffer.cpp:224-254 | with no complete frame nothing changes; otherwise exactly the frames before the first complete one are gone and the new front frame is complete |
| RtpFrameJitterBuffer.DropSorted | ovenmediaengine/src/projects/modules/rtp_rtcp/rtp_frame_jitter_buffer.cpp:246-253 | erasing a prefix keeps keys ascending and only removes keys |
| RtpFrameJitterBuffer.BurnOutValid | ovenmediaengine/src/projects/modules/rtp_rtcp/rtp_frame_jitter_buffer.cpp:224-254 | burn-out keeps the buffer valid and only removes keys |
| RtpFrameJitterBuffer.AvailableValid | ovenmediaengine/src/projects/modules/rtp_rtcp/rtp_frame_jitter_buffer.cpp:256-268 | asking for an available frame keeps the buffer valid |
| RtpFrameJitterBuffer.PopMeans | ovenmediaengine/src/projects/modules/rtp_rtcp/rtp_frame_jitter_buffer.cpp:256-286 | a frame is available iff some frame completes; the one popped is the first such frame and only the frames after it remain; otherwise nothing changes |
| RtpFrameJitterBuffer.AvailableNone | ovenmediaengine/src/projects/modules/rtp_rtcp/rtp_frame_jitter_buffer.cpp:256-268 | with no complete frame, nothing is available and nothing changes |
| RtpFrameJitterBuffer.AvailableSome | ovenmediaengine/src/projects/modules/rtp_rtcp/rtp_frame_jitter_buffer.cpp:256-268 | with a complete frame, it is at the front after burn-out and available |
| RtpFrameJitterBuffer.BurnOutSome | ovenmediaengine/src/projects/modules/rtp_rtcp/rtp_frame_jitter_buffer.cpp:224-254 | with a complete frame, burn-out leaves it (marked complete) at the front followed by the later frames |
| RtpFrameJitterBuffer.CheckComplete | ovenmediaengine/src/projects/modules/rtp_rtcp/rtp_frame_jitter_buffer.cpp:148-176 | checking a frame that completes marks it complete and changes nothing else |
| RtpFrameJitterBuffer.FrontSettled | ovenmediaengine/src/projects/modules/rtp_rtcp/rtp_frame_jitter_buffer.cpp:266-267 | asking an already complete front frame again changes nothing |
| RtpFrameJitterBuffer.PopInOrder | ovenmediaengine/src/projects/modules/rtp_rtcp/rtp_frame_jitter_buffer.cpp:270-286 | frames leave in key order: the popped frame's key is below every key left |
| RtpFrameJitterBuffer.JitterBuffer.constructor | ovenmediaengine/src/projects/modules/rtp_rtcp/rtp_frame_jitter_buffer.h:63-64 | a new buffer is empty with last timestamp and cycle 0 |
| RtpFrameJitterBuffer.JitterBuffer.GetExtendedTimestamp | ovenmediaengine/src/projects/modules/rtp_rtcp/rtp_frame_jitter_buffer.cpp:187-198 | the new cycle and the extended timestamp follow Extend, and the last timestamp becomes ts |
| RtpFrameJitterBuffer.JitterBuffer.Find | ovenmediaengine/src/projects/modules/rtp_rtcp/rtp_frame_jitter_buffer.cpp:204 | the search loop finds the lower-bound position |
| RtpFrameJitterBuffer.JitterBuffer.InsertPacket | ovenmediaengine/src/projects/modules/rtp_rtcp/rtp_frame_jitter_buffer.cpp:200-222 | the packet is filed under its extended timestamp, the buffer stays valid, and the result is true |
| RtpFrameJitterBuffer.JitterBuffer.FindFirstCompleted | ovenmediaengine/src/projects/modules/rtp_rtcp/rtp_frame_jitter_buffer.cpp:228-238 | the search loop stops at the first complete frame, having checked it in place |
| RtpFrameJitterBuffer.JitterBuffer.EraseFront | ovenmediaengine/src/projects/modules/rtp_rtcp/rtp_frame_jitter_buffer.cpp:246-253 | the erase loop removes exactly the first count frames |
| RtpFrameJitterBuffer.JitterBuffer.BurnOutExpiredFrames | ovenmediaengine/src/projects/modules/rtp_rtcp/rtp_frame_jitter_buffer.cpp:224-254 | the frames become BurnOut of the old ones, still valid |
| RtpFrameJitterBuffer.JitterBuffer.HasAvailableFrame | ovenmediaengine/src/projects/modules/rtp_rtcp/rtp_frame_jitter_buffer.cpp:256-268 | the frames and the answer follow Available |
| RtpFrameJitterBuffer.JitterBuffer.PopAvailableFrame | ovenmediaengine/src/projects/modules/rtp_rtcp/rtp_frame_jitter_buffer.cpp:270-286 | the frames and the popped frame follow Pop |

## Left out

- I/O is not modelled:
  - HTTP request parsing and responses beyond status codes and the fields the logic reads;
  - Prisma, S3 and xxhash calls, the tusd `.info` file reads and the `fs` copy, unlink and symlink calls;
  - the Telegram bot and logging.

  Each call that matters becomes a parameter holding its answer. Alternatively, the database becomes a value that the handler threads through.
- Timers and clocks are not modelled: `setTimeout` delays and `Date.now()`. The current time is a parameter in milliseconds, and a scheduled clean-up is recorded as a scheduled key.
- `Promise.all` in the batch upload route runs the per-file callbacks concurrently. The model fixes one schedule: every callback's synchronous start (its first `trackUpload`) runs first, in file order; every hash lookup then answers before any row is created, so it sees the rows as they were before the request; the stores and final ledger calls then follow in file order. Under this schedule, two identical files in one request are both stored (UploadRoutes.BatchStoresTwins). Other interleavings are not modelled. In those, a later lookup may already see an earlier file's row, and final calls may come in another order.
- When a callback throws, `Promise.all` rejects and the route answers 500, while the other callbacks run on unawaited; the model applies every callback's effects before the answer.
- The UUIDs that `uuidv4` generates for ledger ids are parameters; UUID generation is not modelled.
- `formatFileSize`, `formatSpeed` and the `toFixed` percentage text are floating-point text formatting. Speeds are `real`; a percentage is the floor of the exact ratio (the rounding of the floating-point division is not modelled), or infinite or not a number when the total is zero.
- The mutexes of the ICE session and its shared locks are left out: each method runs to completion on its own.
- ICE clocks are passed in as milliseconds. The `system_clock` and `ov::Clock` readings are parameters.
- The `RtpFrame` stopwatch (`GetElapsed`) is a clock and is not modelled.
- RtpFrameJitterBuffer.JitterBuffer.GetExtendedTimestamp: the extended timestamp `(cycle << 32) | ts` is written as `cycle * 2^32 + ts` on unbounded integers. They are equal because ts is below 2^32. The 64-bit result never overflows, since the cycle is a 32-bit counter.
- RtpFrameJitterBuffer.JitterBuffer: frames are values held in a sorted sequence of (key, frame) entries rather than `shared_ptr`s in a `std::map`. A frame handed out by `PopAvailableFrame` is a copy, so aliasing between the buffer and a caller is not modelled.
- NalStreamConverter: the 1024-byte spare capacity of the output allocation is not modelled, nor is a null `data` argument of `GetStartPatternSize`; the output is a sequence of bytes.
- NalStreamConverter.ConvertAnnexbToXvccWithHeader requires every fragment (offset, length) to lie inside the data. The C++ reads past the buffer otherwise, which is undefined behaviour. The two vectors of offsets and lengths are merged into one list of pairs.
- NalStreamConverter.RoundTrip holds for NAL units that are non-empty, hold no start code and are shorter than 2^32 bytes. Outside these the Annex B form is ambiguous, and the converter cannot recover the units.
- Hex.DigitValue gives 0 for a character that is not a hexadecimal digit. Decoding rejects such input before any conversion, so that value is never used.
- SocketAddressPair is a value datatype; its setters return the updated pair. How `SocketAddress` compares is not modelled: the address type and its relations are parameters.
- Ipv6Support: the socket, setsockopt and bind probes are system calls. Their outcome is a parameter.
- TemplateChecker: `os.walk`, file reads and writing the report file are I/O. The walk is a list of directories with their file names, and the files are lists of lines without terminators.
- TemplateLines: `\s` is Python's whitespace set (Strings.IsSpace, the same set `strip()` removes). `\d` is only the ASCII digits 0-9, while Python's `re` on text also matches the other Unicode decimal digits (category Nd): a line such as `port: ١٢` is a number line in the program, and the model does not treat it as one.
- TemplateLines.Substitute: its own contract states only that a rule that does not match leaves the line alone. What each rule does when it matches is stated on the line's parts by TemplateLines.SubEnvOfEnvLine, TemplateLines.MarkerStep, TemplateLines.SubJsonString, TemplateLines.SubJsonNumber and TemplateLines.SubDocker.
- TemplateChecker.Checker.constructor: `os.getcwd()` is a parameter, which must be absolute, as it always is. `abspath` is modelled for POSIX only. Symbolic links are not resolved, as `abspath` does not resolve them either.
- MemoryUtilities.GetBits: modelled for unsigned types only, with 1 <= count. For a signed type the C++ right shift and the cast sign-extend, so `OV_GET_BITS(int8_t, 0x40, 6, 1)` is -1 in the program but 1 in the model. A count of 0 is excluded. The macro then shifts by the type's full width, which C++ leaves undefined for types as wide as `int`.
- TemplateChecker.Checker.CollectMissing and TemplateChecker.Checker.FindMissingLines, and through them TemplateChecker.Checker.AnalyzeAllFiles, TemplateChecker.Checker.GenerateReport and TemplateChecker.Checker.Run, use the corrected comparison of the finding below. The code as written reports `parent_lines[i]` for the i-th kept line; its loop is TemplateChecker.Checker.CollectMissingAsWritten, and the lines the two report differ as TemplateChecker.AsWrittenReportsComment shows.
- Strings.ToLower and Strings.ToUpper map only ASCII letters. `toLowerCase` also maps other letters, and U+0130 becomes two characters. The `.turbosort` test does not depend on this: no non-ASCII character lowers to a letter of `.turbosort`, and the two characters from U+0130 end in a combining dot.
- UploadRoutes.UpperCodeChars lists the characters outside ASCII whose full upper-case form holds A-Z or 0-9: U+00DF, U+0131, U+0149, U+017F, U+01F0, U+1E96 to U+1E9A and U+FB00 to U+FB06. This follows the Unicode case tables; every other upper-case form holds no A-Z or 0-9, so those characters contribute nothing after the filter.
- TusUpload.PostFinishEffect: the destination is written as `UPLOADS_DIR + "/" + <ID>_<filename>`, while `path.join` also normalises ".", ".." and empty components. A client-sent filename such as `a/../../x` therefore lands outside UPLOADS_DIR in the program, while the model keeps the unnormalised path.
- TusUpload.Hooks: post-receive passes `Upload.Size` as it comes; the model substitutes 0 for a missing size, which the hook's declared type (`Size: number`) does not allow.
- TusdHooksController.Dispatch: a body without an `Upload` object (a primitive body included) reaches the tracker with an undefined id in the program; the model's body, when present, always carries an upload with an id.
- FixS3Filenames.CleanFilename removes only the first UUID of a filename, as the code does. A filename holding two UUIDs therefore changes again on a second pass, so the clean-up is idempotent only once no UUID remains (FixS3Filenames.CleanFilenameFixed).

## Findings

| source | as written | input that shows it | evidently intended | confidence | as-written member | corrected member |
|---|---|---|---|---|---|---|
| scripts/template_checker/template_checker.py:221-226 | `find_missing_lines` walks the normalised kept parent lines with index i but reports `parent_lines[i].rstrip()`, an index into the unfiltered lines, so skipped blank and comment lines shift every report | an empty template and the parent `# note`, `FOO=1`: `FOO=1` is missing but `# note` is reported | report the kept parent line whose normalised form is missing | not executed | TemplateChecker.AsWrittenReportsComment | TemplateChecker.MissingIntendedMeans |
