# A verified model of the common library's algorithms

A Dafny 4.11 project that models the self-contained algorithms under `src/common`
and proves what they are for.  `dafny verify dfyconfig.toml` checks all of it.

- **LZO1X** (`Lzo*.dfy`, `Bytes.dfy`).  `LzoFormat` says what a compressed stream is,
  `LzoDecoder` is the decoder's goto program as a state machine, `LzoScan` the
  compressor's greedy search over an arbitrary dictionary.  `LzoCompress` and
  `LzoDecompress` are the programs themselves, writing one output array in place.
  `LzoSearch` says which repetitions the search finds, and what that saves.
  `LzoCorrect` joins them: the round trip for every input and every content of the
  work memory.  Positions are relative to the input and the output.
- **XML text, parser and printer** (`XmlText`, `XmlInPlace`, `XmlParse`, `XmlPrint`,
  `XmlRoundTrip`, `XmlFragment`, `XmlParseInPlace`).  The pure conversion, parser and
  printed form first; then the `gap`, the conversion loops, the printing walk and
  `parse_tree` on one character array, each proved equal to its pure counterpart.  A
  place variable stands for the labels of the goto program.  `XmlFragment` has the round
  trip with `parse_fragment`, where text may stand at the top level.
- **What XML texts mean** (`XmlReferences`, `XmlMarkup`, `XmlAccepted`).  References against
  UTF-8 and the five names, line ends against section 2.11 of XML 1.0; markup as one may
  write it and the tree it means.  `XmlAccepted.AcceptedExactly` joins the two directions:
  the parser accepts a text exactly if well formed markup spells it.
- **Document trees and axes** (`XmlTree`, `XmlAxes`, `XmlAxisMembers`, `XmlWalk`, `XmlOrder`).
  Nodes are paths; the pointers `parent`, `first_child`, `next_sibling` and the cyclic
  `prev_sibling_c` are functions on them.
- **XPath** (`XPath`, `XPathOptimize`, `XPathSound`, `XPathFetch`, `XPathLaws`).  Expressions,
  their values, the rewriting, and the proof that rewriting changes no value; `XPathLaws` ties
  the values to sections 2, 3.4 and 4 of XPath 1.0.
  `XPathFetch` is the evaluator as it runs, with result lists, order tags and the modes that
  stop early; it is proved against the sets of `XPath`.
- **DOM lists** (`DomLinks`, `Dom`, `DomKinds`, `DomCopy`).  Node objects with their four link fields,
  updated in place; the ghost state of a document is the child list of every node and
  a rank that decreases towards the root.
- **Small-object allocator** (`FreeList`, `SmallObject`, `SmallObjectRuns`, `Indices`).  A
  chunk's memory is a byte matrix with one row a block, whose first byte holds the
  stealth index while the block is free and belongs to the client while it is not;
  `SmallObjectRuns` has the runs of any client that takes, writes and gives back blocks.
- **getopt** (`Rotation`, `GetoptScan`, `GetoptState`, `Getopt`, `GetoptReports`).  The
  resumable parser as an object; `GetoptScan.Scan` is a reading of the arguments from left to
  right, and `GetoptReports` says what it reports for each way to write an option.
- **Node-set sort** (`SortOrder`, `NodeSort`), **hash table** (`ProbeTable`), **integer text**
  (`IntegerText`, `IntegerLaws`), and **SHA-1 with its keyed hash** (`Sha1`, `Sha1Transform`,
  `Sha1Stream`), the latter against FIPS 180-4 and RFC 2104; `Sha1Blocks` works out seven blocks
  and `Sha1Vectors` has the values published in RFC 3174 and RFC 2202.
- **Shared** (`Wrappers`, `Sequences`, `Frames`).

Parameters stand for what the programs get from outside: whether memory can be had,
whether POSIXLY_CORRECT is set, the pointer hash, the element order of the sort, the
functions and variables of an XPath evaluation.

Findings, each with its exact condition, and for a fault a run or an input that shows it:

- `TrimEmptyChunk` leaves a cursor dangling exactly when the empty chunk is not the last
  one and a cursor names the last one (`SmallObject.FixedAllocator.TrimEmptyChunk`); a
  client gets there by filling a chunk, taking one block of a second, freeing the first
  and trimming (`SmallObjectRuns.DanglingCursor`).
- `Allocate` leaves the cursors at the old storage of the vector exactly when a full vector
  of filled chunks has grown and then no memory is to be had for the new chunk
  (`SmallObject.FixedAllocator.Allocate`, `SmallObjectRuns.GrownInVain`), and `TrimChunkList`
  exactly when it gives anything back while there are chunks
  (`SmallObject.FixedAllocator.TrimChunkList`, `SmallObjectRuns.TrimmedAway`).
- With `W;` in the option string, getopt reads `-Wname` for ever when there is no table of
  long options (`GetoptScan.ReadForEver`), and moves past the end of the arguments when an
  ambiguous name is the last one (`GetoptScan.PastTheEnd`); in all other cases every call
  makes progress within the arguments (`GetoptScan.RegularExactly`), and a run does what it
  is for exactly when none of its calls is one of these (`Getopt.Parser.Drain`).
- `CSHA1::Update` takes a test on 32-bit words for the truth exactly when position plus
  length is below 2^32 (`Sha1Stream.FitsExactly`); otherwise, as with one byte in the buffer
  and 2^32 - 1 more to come (`Sha1Stream.SeemsToFit`), it copies past the end of its buffer
  (`Sha1Stream.CSHA1.Update`).
- With `parse_fragment`, a text at the end of a buffer without a final NUL loses its last
  character, and a text at the beginning that looks like a byte order mark is skipped; any
  other fragment comes back (`XmlFragment.FragmentHeldBack`, `XmlFragment.FragmentRoundTrip`).
- A comment at `src/common/allocator.cpp:144-145` allows the two cursors to be NULL while there
  are chunks; in fact they never are (`SmallObject.Cursors`).

## Model

| member | source | states |
|---|---|---|
| LzoCorrect.RoundTrip | src/common/minilzo.cpp:2822-4107 | For every input and every content of the work memory, what the compressor writes is decoded by the safe decoder, given room for the input or more, to LZO_E_OK and exactly the input; and it is at most n + n/16 + 4 bytes long |
| LzoCorrect.CompressDecompress | src/common/minilzo.cpp:2822-4107 | The two array programs run one after the other in memory give the input back, with the safe decoder and with the fast one |
| LzoCorrect.TooLittleRoom | src/common/minilzo.cpp:3654-3663 | A stream that decodes with enough room reports an output overrun with less, instead of writing past it or reporting anything else |
| LzoCorrect.StepRoom | src/common/minilzo.cpp:3654-3663 | With less room, one block of the decoder does what it does with more, or stops with an output overrun |
| LzoCorrect.WrongLength | src/common/minilzo.cpp:4080-4107 | Whatever was compressed, the decoder accepts the stream for exactly one input length, its own: with bytes missing it refuses it and has written a beginning of the data, and with more bytes it reports that input is left |
| LzoCorrect.CutShort | src/common/minilzo.cpp:3640-3663 | A stream that is accepted is not accepted with bytes missing at its end, and what is written until the refusal is a beginning of what it stands for |
| LzoCorrect.StepShorter | src/common/minilzo.cpp:3640-3663 | With less input, one block of the decoder does what it does with more, or stops with an overrun, or has used up the input |
| LzoScan.MatchesChain | src/common/minilzo.cpp:2822-3057 | Whatever the work memory holds, the matches found are true repetitions in input order that do not overlap, none begins before position 4, and each code is shorter than its match |
| LzoScan.MatchIsIn | src/common/minilzo.cpp:2846-2888 | The range filter and the byte comparisons alone make a probed entry a true match within the input: stale entries do no harm |
| LzoScan.ScanChain | src/common/minilzo.cpp:2839-3053 | From any position and any dictionary the loop may reach, the matches found from there on are true, paying and in order |
| LzoScan.Common | src/common/minilzo.cpp:2951-3003 | The match length is maximal: all bytes before its end agree, and the next differs or the input is over |
| LzoSearch.FoundExactly | src/common/minilzo.cpp:2846-2888 | A match is found exactly where the first slot holds a position within reach whose bytes repeat here, four of them or three if near; or where the second does and the entry of the first was a far one that fails its fourth byte |
| LzoSearch.Remembered | src/common/minilzo.cpp:2839-3053 | No repetition of four bytes within reach of a position that was searched before is missed, unless a search in between has taken over the slot of that position |
| LzoSearch.Kept | src/common/minilzo.cpp:2839-3053 | A slot that holds a position keeps it until a turn takes the slot, and till then a repetition of the four bytes there is found |
| LzoSearch.MatchesSearched | src/common/minilzo.cpp:2822-3057 | Every position from 4 up to the last thirteen is searched or lies inside a match, and a match begins exactly where a search finds one |
| LzoSearch.EqualMatches | src/common/minilzo.cpp:2839-3053 | An input of more than 18 equal bytes is one match up to its end, from position 4 or 5 on, whatever the work memory holds |
| LzoSearch.EqualBytes | src/common/minilzo.cpp:3059-3107 | An input of n > 18 equal bytes is compressed to at most 13 + n/255 bytes, and a shorter one to at most n + 5, whatever the work memory holds |
| LzoSearch.SameSlot | src/common/minilzo.cpp:2541 | The same four bytes have the same first slot wherever they stand |
| LzoSearch.NeighboursApart | src/common/minilzo.cpp:2541 | Four bytes that differ from others in the second only, or in the third only, have another first slot |
| LzoSearch.OtherSlot | src/common/minilzo.cpp:2542 | The second slot tried is never the first |
| LzoSearch.CodeSize | src/common/minilzo.cpp:2964-3044 | A match of length up to 8 and up to 0x800 back costs two bytes; any other three, and one more for every 255 bytes of length beyond 33, or beyond 9 if it is more than 0x4000 back |
| LzoSearch.RunSize | src/common/minilzo.cpp:2923-2948 | A run of up to 18 literals, or of up to 238 that are all there is, is announced by one byte, and a longer one by one more for every 255 |
| LzoFormat.CopyBackAt | src/common/minilzo.cpp:4051-4053 | Each byte that a match copy appends equals the byte off places before it, also where source and destination overlap |
| LzoFormat.CopyBackUnique | src/common/minilzo.cpp:4051-4053 | An extension of the output in which each appended byte equals the one off places before it is the match copy: the four-byte copy cannot differ from it |
| LzoFormat.Extension | src/common/minilzo.cpp:2936-2945 | The length continuation has the number of bytes for which 255 times it just reaches the length |
| LzoDecoder.StepInv | src/common/minilzo.cpp:3765-4107 | On any input every block of the safe decoder keeps what is written, writes within the room given, reads within the input and six bytes, copies only from written output, and makes progress |
| LzoDecoder.Run | src/common/minilzo.cpp:3765-4107 | On any input the decoder halts, with output that extends what it had written and is no longer than the room |
| LzoDecoder.CopyMatch | src/common/minilzo.cpp:4030-4054 | A match is copied only after both bounds hold; otherwise nothing is written and the overrun is reported |
| LzoDecoder.CopyLiterals | src/common/minilzo.cpp:3770-3821 | Literals are copied only after both bounds hold; otherwise nothing is written and the overrun is reported |
| LzoRoundTrip.DecodeEncoding | src/common/minilzo.cpp:3718-4107 | For any chain of true matches, however found, the decoder turns its encoding back into the data, with LZO_E_OK or, if more bytes are said to follow, LZO_E_INPUT_NOT_CONSUMED |
| LzoRoundTrip.DecodeCode | src/common/minilzo.cpp:3853-4056 | A code of any of the families M2, M3 and M4, with the literal count or-ed into it, decodes to its match and that count |
| LzoRoundTrip.DecodeM2 | src/common/minilzo.cpp:3855-3907 | A two-byte M2 code, with the literal count or-ed into it, decodes to its match and that count |
| LzoRoundTrip.DecodeM3 | src/common/minilzo.cpp:3908-3945 | An M3 code, for offsets up to 0x4000 and any length, decodes to its match and the literal count or-ed into it |
| LzoRoundTrip.DecodeM4 | src/common/minilzo.cpp:3946-3995 | An M4 code, for offsets up to 0xbfff and any length, decodes to its match and the literal count or-ed into it |
| LzoRoundTrip.DecodeM1 | src/common/minilzo.cpp:3996-4020 | Two bytes that say so directly after some literals are a match of length 2, up to 0x400 back, and the literal count in their low bits, although the compressor never writes them |
| LzoRoundTrip.DecodeM1Far | src/common/minilzo.cpp:3824-3851 | Two bytes that say so directly after a run of literals are a match of length 3, from 0x801 to 0xc00 back, and the literal count in their low bits, although the compressor never writes them |
| LzoRoundTrip.ReadExtension | src/common/minilzo.cpp:3780-3790 | The zero-byte loop reads back a length continuation |
| LzoRoundTrip.OffsetDecodes | src/common/minilzo.cpp:3936-3944 | The two offset bytes read back as the offset, whatever is or-ed into their low bits |
| LzoRoundTrip.DecodeLiterals | src/common/minilzo.cpp:4058-4076 | None, one to three, or more literals after a match are read back, up to the next opcode |
| LzoRoundTrip.DecodeRun | src/common/minilzo.cpp:3775-3822 | A run of more than three literals is read back |
| LzoRoundTrip.DecodeShort | src/common/minilzo.cpp:3765-3773 | The 17 + t form of a first run is read back |
| LzoRoundTrip.DecodeFirstRun | src/common/minilzo.cpp:3775-3828 | A stream that begins with the announcement of a run of more than three literals decodes to its data |
| LzoRoundTrip.DecodeRest | src/common/minilzo.cpp:3775-4089 | Every stream after its first literals decodes to the rest of the data and ends at the end code |
| LzoStream.WorstCase | src/common/minilzo.cpp:3059-3107 | A chain of matches that pay for themselves is encoded in at most n + n/16 + 4 bytes |
| LzoStream.RestMatch | src/common/minilzo.cpp:2950-3045 | Appending a match at the end of the data so far appends its code to the stream |
| LzoStream.RestLiterals | src/common/minilzo.cpp:2923-2948 | Appending literals changes only the low bits of the last code or appends a run |
| LzoStream.StreamMatch | src/common/minilzo.cpp:2921-3045 | Appending a match where the data so far ends appends its code to the whole stream |
| LzoCompress.Compress | src/common/minilzo.cpp:3059-3107 | The array program writes the encoding of the matches found, touches nothing past it, and needs no more than n + n/16 + 4 bytes; which matches it finds, `LzoSearch` says |
| LzoCompress.Announce | src/common/minilzo.cpp:3080-3081 | An input of at most 238 bytes without a match is written as 17 + t and itself |
| LzoCompress.DoCompress | src/common/minilzo.cpp:2822-3057 | The loop writes what the matches up to the last one stand for; the dictionary is an array updated at each position |
| LzoCompress.Turn | src/common/minilzo.cpp:2839-3053 | One turn of the loop is one step of the greedy scan |
| LzoCompress.EmitFound | src/common/minilzo.cpp:2921-3045 | Having found a match, the program writes the pending literals and the code of the match as the format says, and goes on behind the match |
| LzoCompress.MatchLength | src/common/minilzo.cpp:2951-3003 | Six unrolled comparisons and the loop after them find the maximal length |
| LzoCompress.Probes | src/common/minilzo.cpp:2846-2888 | The two dictionary probes with their filters find exactly the match that `LzoSearch.FoundExactly` says there is |
| LzoCompress.EmitMatch | src/common/minilzo.cpp:2964-3044 | The branches on length and offset write exactly the code of the match |
| LzoCompress.EmitLiterals | src/common/minilzo.cpp:2923-2948 | Pending literals are counted in the code before them or announced, and copied, as the format says |
| LzoDecompress.Decompress | src/common/minilzo.cpp:3718-4107 | The goto program over one output array does what the state machine says, for the safe decoder and for the fast one; nothing past the output is written |
| LzoDecompress.CopyMatchInPlace | src/common/minilzo.cpp:4030-4054 | Four bytes at a time or one by one, the copy within the output array is the byte-by-byte copy of the format |
| LzoDecompress.CopyLiteralRun | src/common/minilzo.cpp:3791-3822 | Four bytes at a time and the rest, a literal run is copied exactly |
| LzoDecompress.TopBlock | src/common/minilzo.cpp:3775-3822 | The head of the outer loop, a literal run or an opcode, does one step of the state machine in place |
| LzoDecompress.MatchBlock | src/common/minilzo.cpp:3853-4056 | The four opcode families do one step of the state machine in place |
| LzoDecompress.MatchNextBlock | src/common/minilzo.cpp:4067-4076 | Literals after a match, and the next opcode, do one step of the state machine in place |
| XmlText.ConvertEscaped | src/common/pugixml.cpp:2361-2621 | What the printer writes for a value, the conversion reads back as that value and stops right behind it, for element content and for attributes |
| XmlText.ConvertThrough | src/common/pugixml.cpp:2361-2621 | What the printer writes for a value, the conversion reads back as that value whatever follows it, and goes on with what follows |
| XmlText.ReferenceConverts | src/common/pugixml.cpp:3817-3856 | Every reference printed for a special character expands to that character |
| XmlText.Reference | src/common/pugixml.cpp:2361-2499 | A reference, well formed or not, is replaced by no more characters than it has, and reading advances; what it is replaced by, `XmlReferences` says |
| XmlText.Convert | src/common/pugixml.cpp:2572-2621 | The converted text is no longer than what was read, and reading stops at the end character or the NUL |
| XmlText.TrimRight | src/common/pugixml.cpp:2588-2590 | Exactly the white space at the end goes |
| XmlReferences.Utf8Reads | src/common/pugixml.cpp:1459-1506 | Reading UTF-8 by the standard, shortest forms only, gives back every number the writer was given, exactly if it is below 0x110000 |
| XmlReferences.NumericExactly | src/common/pugixml.cpp:2374-2433 | A numeric reference, decimal or hexadecimal in either letter case and with any zeros in front, becomes the UTF-8 form of its value modulo 2^32 if it has a digit and a semicolon, and otherwise stays as it stands |
| XmlReferences.DigitExactly | src/common/pugixml.cpp:2374-2433 | A character counts as a digit exactly if it is one of the base, and with its value, in either letter case |
| XmlReferences.NameReplaced | src/common/pugixml.cpp:2435-2493 | Each of amp, apos, gt, lt and quot between ampersand and semicolon becomes its character |
| XmlReferences.OthersStand | src/common/pugixml.cpp:2435-2499 | What begins with an ampersand and is neither a numeric reference nor one of the five names stays as it stands |
| XmlReferences.ReferenceConverted | src/common/pugixml.cpp:2572-2621 | In character data a reference gives its replacement and reading goes on behind it |
| XmlReferences.ReferenceWithin | src/common/pugixml.cpp:2361-2499 | Reading a reference passes no bracket, quote, carriage return or NUL |
| XmlReferences.FirstEnd | src/common/pugixml.cpp:2572-2621 | Conversion stops at the first end character or NUL and passes none |
| XmlReferences.LinesConverted | src/common/pugixml.cpp:2598-2604 | Without references, normalising line ends keeps the lines of a text, however each ends, CR, LF or both, and leaves no carriage return, as section 2.11 of XML 1.0 has it |
| XmlReferences.ReturnsReferred | src/common/pugixml.cpp:2572-2621 | With line ends normalised, a carriage return in the value has come from a reference to it |
| XmlReferences.PlainText | src/common/pugixml.cpp:2572-2621 | Without any conversion the value is the text as it stands |
| XmlReferences.ClassesAsInXml | src/common/pugixml.cpp:1816-1850 | White space and the characters of names are those of the productions S, NameStartChar and NameChar of XML 1.0, for bytes below 128 |
| XmlInPlace.Gap.Push | src/common/pugixml.cpp:2330-2344 | The gap struct: skipping characters keeps the text converted so far, though it is moved as late as possible |
| XmlInPlace.Gap.Flush | src/common/pugixml.cpp:2347-2358 | At the end the text converted so far stands in one piece, and nothing before it or past the read position has changed |
| XmlInPlace.StrconvEscape | src/common/pugixml.cpp:2361-2499 | Rewriting a reference in place yields its expansion and leaves everything still to be read as it was |
| XmlInPlace.ConvertLoop | src/common/pugixml.cpp:2572-2621 | The conversion loop over the buffer yields the conversion of the text that was given, although it writes behind the read position |
| XmlInPlace.StrconvPcdata | src/common/pugixml.cpp:2572-2621 | Character data is converted, trimmed if asked, and terminated where it stands |
| XmlInPlace.StrconvAttribute | src/common/pugixml.cpp:2733-2790 | An attribute value up to its quote is converted and terminated where it stands, or the text ends first and that is reported |
| XmlParse.Step | src/common/pugixml.cpp:3163-3389 | A turn of parse_tree moves the read position on, or changes to a later label, or ends |
| XmlParse.Run | src/common/pugixml.cpp:3163-3389 | Hence parse_tree ends on every text, under all modelled options |
| XmlRoundTrip.RoundTrip | src/common/pugixml.cpp:3163-4185 | For every document in normal form, printing and parsing gives back an equal tree, whether the buffer ends in a NUL or loses its last character to it |
| XmlRoundTrip.RunNodes | src/common/pugixml.cpp:3163-3389 | The children of an element are read back, text and elements mixed |
| XmlRoundTrip.RunElement | src/common/pugixml.cpp:3178-3320 | An element with its tags, attributes and children is read back |
| XmlRoundTrip.RunAttrs | src/common/pugixml.cpp:3194-3268 | The printed attributes of an element are read back |
| XmlRoundTrip.RunText | src/common/pugixml.cpp:3337-3382 | Printed character data is read back, up to the bracket that follows |
| XmlRoundTrip.RunEnd | src/common/pugixml.cpp:3289-3320 | A printed end tag closes the element, also when its bracket was held back |
| XmlAccepted.AcceptedExactly | src/common/pugixml.cpp:3163-3461 | A text without NUL is accepted as a document if and only if some well formed markup with an element in it spells it, whatever the options, and then the tree is what that markup means: the parser is sound and complete for the modelled part of XML |
| XmlAccepted.TagFound | src/common/pugixml.cpp:3178-3320 | Where a run that ends well stands at a start tag, the text goes on with a whole well formed element, its end tag named alike, and behind it the run stands with the same elements open |
| XmlAccepted.InnerFound | src/common/pugixml.cpp:3163-3389 | Where a run that ends well stands inside an element, the text goes on with well formed content and the end tag of that element |
| XmlAccepted.FieldsFound | src/common/pugixml.cpp:3194-3268 | Where a run that ends well stands inside a start tag, the text goes on with well formed attributes, white space before each, and the end of the tag |
| XmlAccepted.EndFound | src/common/pugixml.cpp:3289-3320 | An end tag that is accepted has the name of the element open last |
| XmlMarkup.DocumentParsed | src/common/pugixml.cpp:3163-3461 | However a document is written, with any white space where it is allowed, either quote, references in any form, empty tags or not, and under all options for its character data, parsing finds the tree that the markup means; outside the elements anything but a bracket is passed over |
| XmlMarkup.RunContent | src/common/pugixml.cpp:3163-3389 | Well formed content of an element is read as what it means: white space alone is a text exactly if the options say so, other character data is trimmed, normalised and expanded as they say |
| XmlMarkup.RunTag | src/common/pugixml.cpp:3178-3320 | A well formed element is read as what it means |
| XmlMarkup.RunStartTag | src/common/pugixml.cpp:3178-3288 | A well formed start tag or empty tag is read, with any white space between its parts |
| XmlMarkup.RunField | src/common/pugixml.cpp:3199-3239 | A well formed attribute is read, with white space around its sign and either quote |
| XmlMarkup.RunEndTag | src/common/pugixml.cpp:3289-3320 | A well formed end tag closes its element |
| XmlMarkup.RunData | src/common/pugixml.cpp:3337-3382 | Character data in an element becomes a text, or none where it is white space that the options drop |
| XmlMarkup.WrongEndTag | src/common/pugixml.cpp:3293-3305 | An end tag of another name than that of the open element is refused as a mismatch |
| XmlMarkup.Unclosed | src/common/pugixml.cpp:3385-3386 | A text that ends while an element is open is refused as a mismatch |
| XmlMarkup.ConvertAnywhere | src/common/pugixml.cpp:2572-2621 | What character data becomes depends on nothing before or behind it |
| XmlFragment.FragmentRoundTrip | src/common/pugixml.cpp:3361-3461 | With parse_fragment, where text may stand at the top level, a printed document in normal form that ends in a NUL parses back to an equal tree if and only if its print does not begin with the three characters of a byte order mark |
| XmlFragment.FragmentHeldBack | src/common/pugixml.cpp:3416-3461 | With parse_fragment and without a final NUL, so that the last character is held back, it parses back to an equal tree if and only if it is empty, or ends in an element and does not begin with a byte order mark |
| XmlFragment.RunCut | src/common/pugixml.cpp:3337-3382 | Without its last character a fragment is read back except for a text at its end, which keeps its value up to the last character and what is left of a reference as it stands |
| XmlFragment.RunTop | src/common/pugixml.cpp:3337-3382 | The nodes at the top level of a fragment, text included, are read back up to the final NUL |
| XmlPrint.NodeOutput | src/common/pugixml.cpp:4098-4185 | The walk down, on and up over the tree writes what the recursive definition of the printed document says, and ends |
| XmlMarkup.PrintsMarkup | src/common/pugixml.cpp:4098-4185 | The printed form of a tree is well formed markup: one blank before each attribute and before the slash of an empty tag, double quotes, values escaped |
| XmlMarkup.EscapedExactly | src/common/pugixml.cpp:3817-3856 | A character is printed as it stands exactly if it is no markup character, no quote in an attribute, and no control character except tab and, in text, line ends |
| XmlMarkup.EscapedSafe | src/common/pugixml.cpp:3817-3856 | A printed value holds no bracket, in an attribute no double quote, and no control character except tab and, in text, line ends |
| XmlPrint.ToNextNode | src/common/pugixml.cpp:4153-4179 | Its inner loop closes exactly the elements that are complete |
| XmlPrint.TextOutputEscaped | src/common/pugixml.cpp:3817-3856 | Stretches of ordinary characters and references together are the escaped value |
| XmlPrint.NodeOutputAttributes | src/common/pugixml.cpp:3974-3999 | The attribute loop writes every attribute with its value escaped, as the printed form says |
| XmlPrint.NodeOutputStart | src/common/pugixml.cpp:4001-4024 | The start tag is written as the printed form says, and the result tells whether an end tag is to come |
| XmlParseInPlace.PrintAndParse | src/common/pugixml.cpp:3163-4185 | Printed by the one loop and parsed by the other, which cuts its buffer to pieces, a document comes back: every name, value and text stands NUL-terminated at the position the new tree holds |
| XmlParseInPlace.ParseTree | src/common/pugixml.cpp:3163-3389 | Parsing in place gives the place and tree of the state machine on the text that was given: strings once cut are never written again, and nothing ahead has changed |
| XmlParseInPlace.ParseBuffer | src/common/pugixml.cpp:3416-3461 | The whole parse, with the last character held back and the byte order mark skipped, gives the pure result or its error |
| XmlParseInPlace.StartTag | src/common/pugixml.cpp:3178-3288 | Cutting a start tag in place is the step of the state machine, and all strings cut before still stand |
| XmlParseInPlace.EndTag | src/common/pugixml.cpp:3289-3320 | An end tag, compared with the terminated name in the same buffer, is the step of the state machine |
| XmlParseInPlace.MatchName | src/common/pugixml.cpp:3293-3305 | The comparison loop decides whether the names are equal, and which of two errors it is if not |
| XmlParseInPlace.OneAttribute | src/common/pugixml.cpp:3199-3239 | An attribute, its name cut off and its value converted in place, is the step of the state machine |
| XmlParseInPlace.AttributesTurn | src/common/pugixml.cpp:3194-3268 | Attributes, or the end of the start tag, are the step of the state machine |
| XmlParseInPlace.TextTurn | src/common/pugixml.cpp:3337-3382 | Character data, with white space kept or dropped according to the options, is the step of the state machine |
| XmlAxes.AxesPartition | src/common/pugixml.cpp:9591-9738 | Every node of a document is on exactly one of self, ancestor, descendant, preceding and following of any node, and nothing else is |
| XmlAxisMembers.AxisMembers | src/common/pugixml.cpp:9567-9758 | Each of the eleven axes of any node holds exactly the nodes that stand to it as the axis says: siblings have the same parent and come after or before, the parent is the longest proper prefix of the path, and so on |
| XmlAxisMembers.SiblingMembers | src/common/pugixml.cpp:9623-9639 | The sibling axes hold exactly the children of the same parent after the node, or before it, never the node itself |
| XmlAxisMembers.UpwardMembers | src/common/pugixml.cpp:9720-9755 | Parent, ancestor and ancestor-or-self hold exactly the node one step above, the nodes above, and those and the node itself |
| XmlAxisMembers.DownwardMembers | src/common/pugixml.cpp:9582-9621 | Child, descendant and descendant-or-self hold exactly the nodes one step below, the nodes below, and those and the node itself |
| XmlAxes.FollowingMembers | src/common/pugixml.cpp:9641-9676 | The following axis holds exactly the nodes after a node in document order that are not below it |
| XmlAxes.PrecedingMembers | src/common/pugixml.cpp:9678-9718 | The preceding axis holds exactly the nodes before a node in document order that are not above it |
| XmlAxes.AncestorMembers | src/common/pugixml.cpp:9720-9738 | The ancestor axis holds exactly the nodes above a node |
| XmlAxes.PreorderMembers | src/common/pugixml.cpp:9591-9621 | The descendant-or-self axis holds exactly the nodes at or below a node |
| XmlAxes.FollowingAscending | src/common/pugixml.cpp:9641-9676 | The following axis is in document order, without repetition |
| XmlAxes.PrecedingDescending | src/common/pugixml.cpp:9678-9718 | The preceding axis is in reverse document order, without repetition |
| XmlAxes.PreorderAscending | src/common/pugixml.cpp:9591-9621 | The descendant-or-self axis is in document order, without repetition |
| XmlAxes.AncestorsDescending | src/common/pugixml.cpp:9720-9738 | The ancestor axis is in reverse document order, without repetition |
| XmlWalk.StepFill | src/common/pugixml.cpp:9567-9758 | For every axis, the pointer walk pushes exactly the nodes of the axis that pass the test, in the order of the axis, or only the first of them; which nodes these are, `XmlAxisMembers.AxisMembers` says |
| XmlWalk.DescendantWalk | src/common/pugixml.cpp:9591-9621 | The loop over first children, siblings and parents pushes the descendants that pass, in document order |
| XmlWalk.FollowingWalk | src/common/pugixml.cpp:9641-9676 | The loop that leaves a subtree upwards pushes the nodes of the following axis that pass, in document order |
| XmlWalk.PrecedingWalk | src/common/pugixml.cpp:9678-9718 | The loop backwards pushes the nodes of the preceding axis that pass, in reverse document order, leaving ancestors out |
| XmlWalk.PrecedingSiblingWalk | src/common/pugixml.cpp:9632-9639 | The loop over the cyclic sibling pointers stops at the first child and pushes the preceding siblings that pass |
| XmlWalk.AncestorWalk | src/common/pugixml.cpp:9720-9738 | The climb pushes the ancestors that pass, innermost first |
| XmlWalk.NodeIsAncestor | src/common/pugixml.cpp:7735-7741 | node_is_ancestor decides whether a node is at or above another |
| XmlOrder.NodeIsBefore | src/common/pugixml.cpp:7692-7733 | For two different nodes of one document, true exactly when the first comes first in document order |
| XmlOrder.NodeIsBeforeSibling | src/common/pugixml.cpp:7668-7690 | The walk over both sibling chains at once decides which child comes first |
| XmlOrder.Lockstep | src/common/pugixml.cpp:7692-7705 | Climbing from both nodes at once meets a common parent exactly if they are equally deep |
| XmlOrder.OrderIsListOrder | src/common/pugixml.cpp:7692-7733 | Document order is the order of the document's nodes in pre-order |
| XmlTree.BeforeIrreflexive | src/common/pugixml.cpp:7692-7733 | No node comes before itself |
| XmlTree.BeforeTransitive | src/common/pugixml.cpp:7692-7733 | Document order is transitive |
| XmlTree.BeforeTotal | src/common/pugixml.cpp:7692-7733 | Of two different nodes one comes first |
| XPathSound.Sound | src/common/pugixml.cpp:10633-10700 | For every expression, environment and context, the optimized expression has the same value |
| XPathSound.PosInvFixed | src/common/pugixml.cpp:10702-10731 | An expression accepted by is_posinv_expr has the same value for every position and size |
| XPathSound.NodeSetFixed | src/common/pugixml.cpp:10715-10721 | A node set has the same value for every position and size, whatever the predicates inside it say |
| XPathSound.MergeSound | src/common/pugixml.cpp:10665-10679 | descendant-or-self::node() followed by a position-independent step is the merged step |
| XPathSound.MergedAxisNodes | src/common/pugixml.cpp:10673-10676 | The merged axis reaches just the nodes that the two axes reach one after the other |
| XPathSound.MergeFrom | src/common/pugixml.cpp:9852-9895 | From one context item, which may be an attribute, the merged step selects what the two steps select |
| XPathSound.ApplySound | src/common/pugixml.cpp:9348-9440 | However a predicate is classified, it keeps the same items of every list |
| XPathSound.ConstantSound | src/common/pugixml.cpp:9400-9426 | Picking by index is the general number predicate, for every number including NaN, the infinities and fractions |
| XPathSound.KeepPosition | src/common/pugixml.cpp:10644-10650 | [position() = e] keeps what [e] keeps when e is a number |
| XPathSound.FilterOrder | src/common/pugixml.cpp:10527-10539 | A position-independent filter may leave out the sort |
| XPathSound.OnceSound | src/common/pugixml.cpp:9858-9861 | Stopping at the first node before [1] loses nothing |
| XPathSound.FillSound | src/common/pugixml.cpp:9852-9861 | What a step fills in and filters is the same with optimized predicates, with and without stopping at the first node |
| XPathSound.TableSound | src/common/pugixml.cpp:8231-8293 | Where translate_table_generate makes a table, looking characters up in it is translate |
| XPathSound.AttributeSound | src/common/pugixml.cpp:10693-10699 | @name compared with a string by direct lookup is the general comparison |
| XPathSound.PredSound | src/common/pugixml.cpp:10646-10663 | An optimized predicate keeps the same items of every list |
| XPathSound.Typed | src/common/pugixml.cpp:9184-9270 | The value of an expression has the type its node announces |
| XPathLaws.StepSelects | src/common/pugixml.cpp:9567-9758 | From a node, a step selects exactly the nodes of the document that stand on its axis and pass its test |
| XPathLaws.PathSelects | src/common/pugixml.cpp:9862-9884 | A path selects exactly the nodes that stand on its axis from some node its base selects, and pass its test |
| XPathLaws.AttributeFill | src/common/pugixml.cpp:9760-9840 | The axes of an attribute: it comes behind its element and before the children, its ancestors are those of the element and the element, and it has no siblings or descendants |
| XPathLaws.AttributesSelected | src/common/pugixml.cpp:9573-9580 | The attribute axis holds exactly the attributes of the node that pass the test and are no namespace declarations |
| XPathLaws.PredicateKeeps | src/common/pugixml.cpp:9348-9398 | A predicate keeps exactly the items for which its value is their position, if it is a number, or counts as true |
| XPathLaws.StepKeeps | src/common/pugixml.cpp:9442-9450 | A predicate of a step counts positions along the axis, so backwards on a reverse axis |
| XPathLaws.FilterKeeps | src/common/pugixml.cpp:10526-10540 | A predicate behind any other expression counts positions in document order |
| XPathLaws.NumberPicks | src/common/pugixml.cpp:9400-9440 | [k] keeps the item at position k, or nothing, however the predicate has been classified |
| XPathLaws.LastPicks | src/common/pugixml.cpp:9400-9440 | [last()] keeps the last item, however the predicate has been classified |
| XPathLaws.EqualMeans | src/common/pugixml.cpp:9184-9270 | = compares as truth values with one of these on a side, otherwise through some node of a node set, otherwise as numbers with one of these on a side, otherwise as strings, as section 3.4 of XPath 1.0 has it |
| XPathLaws.EqualSymmetric | src/common/pugixml.cpp:9184-9270 | = is symmetric for values of all types |
| XPathLaws.TranslateConcat | src/common/pugixml.cpp:8209-8229 | translate treats each character by itself |
| XPathLaws.TranslateChar | src/common/pugixml.cpp:8209-8229 | translate leaves a character that its second argument does not hold, and otherwise replaces it by the one at the place of its first occurrence there, or drops it where the third argument is shorter |
| XPathOptimize.OptimizePosInv | src/common/pugixml.cpp:10702-10731 | Optimizing keeps an expression position-independent |
| XPathOptimize.OptimizeShape | src/common/pugixml.cpp:10633-10700 | Optimizing keeps the type of an expression and the shape the evaluator relies on |
| XPathFetch.FetchServes | src/common/pugixml.cpp:10505-10631 | In every mode the evaluator's list serves for the set of the expression: all of it, some node of it, or a part with its first node; nothing is listed twice, and the order it is tagged with is the one it is in |
| XPathFetch.OptimizedFetch | src/common/pugixml.cpp:10633-10700 | Optimizing changes neither the nodes found, nor whether any is found, nor the first one |
| XPathFetch.WholeFetched | src/common/pugixml.cpp:10505-10631 | Asked for all nodes, it finds exactly the set |
| XPathFetch.AnyFetched | src/common/pugixml.cpp:10071-10076 | Asked for any node, as in a conversion to boolean, it finds one exactly if the set is not empty |
| XPathFetch.FirstOneFetched | src/common/pugixml.cpp:10487-10495 | Asked for the first node, as in a conversion to string, it finds that of the whole set |
| XPathFetch.FirstFetchedIs | src/common/pugixml.cpp:8576-8579 | Taking the first or last item of a list according to its tag, as xpath_first does, gives the first node in document order |
| XPathFetch.FilterFetched | src/common/pugixml.cpp:10527-10539 | A filter with [1] need ask its base for the first node only; another one may stop at the first node it keeps of a sorted set |
| XPathFetch.StepFetched | src/common/pugixml.cpp:9852-9896 | Stopping early, dropping the tag when a second node contributes, and deduplicating only where needed are all sound |
| XPathFetch.StepServes | src/common/pugixml.cpp:9866-9888 | The loop over the base serves for what the step selects |
| XPathFetch.StepOrder | src/common/pugixml.cpp:9866-9888 | The loop over the base keeps a truthful tag, on the self axis that of its base |
| XPathFetch.StepOnce | src/common/pugixml.cpp:9890-9893 | child, attribute and self need no deduplication |
| XPathFetch.KeptEnough | src/common/pugixml.cpp:9852-9888 | What is kept for one context node is everything or a first node that is enough |
| XPathFetch.FillOrder | src/common/pugixml.cpp:9567-9850 | step_fill leaves nodes and attributes in the order the axis is tagged with |
| XPathFetch.SameFirst | src/common/pugixml.cpp:10527-10532 | Sorting a part that has the first node of a set begins like sorting the set |
| SmallObject.FixedAllocator.constructor | src/common/allocator.cpp:512-548 | A new allocator has no outstanding block, and between 8 and 255 blocks a chunk |
| SmallObject.FixedAllocator.Allocate | src/common/allocator.cpp:797-850 | The block returned was not outstanding and now is, besides those that were; NULL exactly if no chunk has a block and none can be made; a new chunk is made only if none has a block; no outstanding block is written; and the class invariant holds afterwards if and only if it is not the case that a full vector of filled chunks has grown and then no memory was to be had, which leaves the cursors at the old storage |
| SmallObject.FixedAllocator.Deallocate | src/common/allocator.cpp:854-885 | Exactly the block given stops being outstanding; only its first byte is written; a block of no chunk is refused; a chunk goes only when a second one has become empty |
| SmallObject.FixedAllocator.WriteByte | src/common/allocator.cpp:38-47 | Whatever a client writes into a block it holds, although the free lists use the same bytes, the class invariant and the set of outstanding blocks stay |
| SmallObject.FixedAllocator.TakeFrom | src/common/allocator.cpp:834-836 | Taking a block from the chunk found makes exactly that block outstanding, and changes no other chunk |
| SmallObjectRuns.Serve | src/common/allocator.cpp:797-970 | In any run in which a client takes blocks, writes anything into those it holds and gives them back, it holds exactly the outstanding blocks, is never given one twice, and finds in each what it has written there; the run stops only at an allocation for which the vector grows and no memory is to be had |
| SmallObjectRuns.Handle | src/common/allocator.cpp:797-970 | One request of a client is granted exactly if it can be, keeps what the client holds and has written, and breaks the class invariant exactly if it is for a block, all chunks are filled, the vector is full and grows, and no memory is to be had |
| SmallObjectRuns.DanglingCursor | src/common/allocator.cpp:702-743 | From a new allocator, filling one chunk, taking a block of a second, freeing the first and trimming leaves the class invariant broken |
| SmallObjectRuns.GrownInVain | src/common/allocator.cpp:765-850 | From a new allocator, 64 allocations that succeed and one that grows the vector but has no memory for the ninth chunk leave the class invariant broken |
| SmallObjectRuns.TrimmedAway | src/common/allocator.cpp:745-761 | From a new allocator, one allocation and trimming the vector leave the class invariant broken |
| SmallObject.FixedAllocator.VicinityFind | src/common/allocator.cpp:889-928 | The search in both directions finds the chunk that owns a block, if there is one |
| SmallObject.FixedAllocator.ReleaseOne | src/common/allocator.cpp:946-970 | When a second chunk becomes empty, one of the two goes and the class invariant holds again |
| SmallObject.FixedAllocator.FindRoom | src/common/allocator.cpp:803-832 | The search makes allocChunk_ name a chunk with a block, the current one, an old one or a new one in that order, and fails exactly if no chunk has one and none can be made |
| SmallObject.FixedAllocator.MakeNewChunk | src/common/allocator.cpp:765-795 | A new chunk changes nothing that is outstanding; without one, the cursors are stale exactly if a full vector that was not empty has grown before the memory of the chunk was found wanting |
| SmallObject.FixedAllocator.TrimEmptyChunk | src/common/allocator.cpp:702-743 | It releases the empty chunk and nothing else, and the class invariant holds afterwards if and only if no cursor was left naming the last chunk, which had moved |
| SmallObject.FixedAllocator.TrimChunkList | src/common/allocator.cpp:745-761 | Giving back unused room of the vector moves the chunks, and the class invariant holds afterwards if and only if nothing was given back or there are no chunks |
| SmallObject.FixedAllocator.OutstandingCount | src/common/allocator.cpp:797-974 | The number of outstanding blocks is the sum of numBlocks_ - blocksAvailable_ over the chunks |
| SmallObject.IsCorrupt | src/common/allocator.cpp:368-464 | The corruption test reports exactly the chunks whose free list repeats an index, leaves the chunk or has another length |
| SmallObject.TakeBlock | src/common/allocator.cpp:327-337 | Chunk::Allocate returns the head of the free list and leaves the rest of it |
| SmallObject.GiveBlock | src/common/allocator.cpp:341-364 | Chunk::Deallocate puts the block in front of the free list and writes one byte, the first of the block |
| SmallObject.Reset | src/common/allocator.cpp:300-315 | Chunk::Reset links all blocks of a chunk into its free list |
| FreeList.TakeGood | src/common/allocator.cpp:327-337 | Allocating removes the head of a free list without repetition and leaves such a list |
| FreeList.GiveGood | src/common/allocator.cpp:341-364 | Deallocating a block that is not in the free list puts it in front and leaves such a list |
| FreeList.StartGood | src/common/allocator.cpp:300-315 | A new chunk has every block in its free list, in order and once |
| FreeList.TakeLive | src/common/allocator.cpp:797-850 | Taking a block from one of many chunks makes it outstanding, it was not so before, and nothing else changes |
| FreeList.GiveLive | src/common/allocator.cpp:854-885 | Giving a block back to its chunk makes it no longer outstanding, and nothing else changes |
| FreeList.WriteLive | src/common/allocator.cpp:38-47 | Overwriting the first byte of an outstanding block changes no free list and nothing that is outstanding |
| FreeList.LiveSize | src/common/allocator.cpp:797-974 | The number of outstanding blocks is the number not available, summed over the chunks |
| Indices.Pigeonhole | src/common/allocator.cpp:396-460 | Distinct indices below n are at most n, and all of them when they are n |
| Getopt.Parser.Drain | src/common/getopt.cpp:122-470 | The calls until -1 come to an end. In PERMUTE order, for every option string, the options are then in front and the operands from optind on, each in original order, and the calls have reported what one reading from left to right reports, if and only if no call of that reading goes wrong; in the two other orders nothing moves, optind is where the reading in order ends and the reports are its reports, unless one of its calls goes wrong. Where one does, the run is found to have gone wrong |
| Getopt.Parser.Next | src/common/getopt.cpp:122-470 | Any call leaves argv a permutation and keeps the state of a run, ends it, or is the one that goes wrong in the reading from left to right, which only an option string with W; allows |
| Getopt.Parser.Settle | src/common/getopt.cpp:139-154 | The options consumed since the last time move in front of the operands skipped |
| Getopt.Parser.PassDashes | src/common/getopt.cpp:155-164 | "--" moves to the options skipped and consumed so far and ends them; anything else changes nothing |
| Getopt.Parser.Advance | src/common/getopt.cpp:139-179 | Between two options a call ends the run in its finished state, reports an operand, or stands at an option with everything before it in order |
| Getopt.Parser.LongOption | src/common/getopt.cpp:180-309 | The branch for long options does what decoding a long option means, its errors and arguments included |
| Getopt.Parser.WOption | src/common/getopt.cpp:324-430 | The branch for -W name does what decoding it means |
| Getopt.Parser.ShortOption | src/common/getopt.cpp:310-469 | The branch for clusters of short options does what decoding one letter means, its argument included |
| Getopt.Parser.Initialize | src/common/getopt.cpp:100-120 | The first call starts a run at the first argument, in the ordering that option string and environment ask for |
| GetoptReports.AttachedArgument | src/common/getopt.cpp:431-468 | -cARG is reported as c with ARG, for a letter that needs an argument and for one that may have one, and reading goes on with the next argument |
| GetoptReports.SeparateArgument | src/common/getopt.cpp:431-468 | -c ARG is reported as c with ARG for a letter that needs an argument, whatever ARG looks like, a dash in front included |
| GetoptReports.MissingArgument | src/common/getopt.cpp:451-462 | A letter that needs an argument at the end of all is reported as a colon if the option string begins with one, and as a question mark if not |
| GetoptReports.LetterAlone | src/common/getopt.cpp:310-323 | A letter by itself is reported without an argument, if it takes none, may have one or is unknown, which is reported as a question mark; the next argument is read for itself |
| GetoptReports.ClusterSplits | src/common/getopt.cpp:310-323 | A cluster -cREST is read as -c and -REST would be, if c takes no argument or is unknown |
| GetoptReports.LetterDecodes | src/common/getopt.cpp:310-469 | What a letter is reported as, and how many arguments it uses, by the five things an option string can say about it |
| GetoptReports.LongAttached | src/common/getopt.cpp:240-290 | --name=ARG is reported with ARG if the option may have an argument and as a question mark if not; an empty ARG is an argument |
| GetoptReports.LongSeparate | src/common/getopt.cpp:266-290 | --name ARG is reported with ARG if the option needs an argument, whatever ARG looks like |
| GetoptReports.LongAlone | src/common/getopt.cpp:240-290 | --name otherwise is reported without an argument, or as a missing one at the end if the option needs it |
| GetoptReports.LongWrong | src/common/getopt.cpp:219-308 | A name that stands for no option or for several is reported as a question mark, and its argument is gone with it |
| GetoptReports.LongByW | src/common/getopt.cpp:324-430 | With W; both -W NAME and -WNAME are reported as --NAME is, where that is not wrong |
| GetoptReports.OperandWaits | src/common/getopt.cpp:145-154 | In PERMUTE order an operand, a dash alone included, is left to the end, and reading goes on as if it were not there |
| GetoptReports.DashesEnd | src/common/getopt.cpp:155-164 | Behind a double dash everything is an operand |
| GetoptReports.OperandReported | src/common/getopt.cpp:171-177 | An operand is reported in its place as 1 with itself as the argument where the option string asks for that, and ends the options otherwise |
| GetoptReports.InOrderReports | src/common/getopt.cpp:122-470 | With REQUIRE_ORDER the reports are a beginning of those in PERMUTE order; without operands the three orders report the same |
| Getopt.FindLong | src/common/getopt.cpp:194-218 | The lookup loop finds an exact name, or the only option meant by a prefix, or an ambiguity |
| GetoptScan.LookupExactly | src/common/getopt.cpp:194-218 | A name is found in the table as the first option called exactly so; failing that as the first whose name begins with it; it is ambiguous exactly if a later option that fits differs from that one, and unknown exactly if none fits |
| GetoptScan.RegularExactly | src/common/getopt.cpp:324-430 | A call makes progress and stays within argv if and only if the -W branch is not taken without a table, or for an ambiguous name that is the last argument |
| GetoptScan.HarmlessSmooth | src/common/getopt.cpp:122-470 | With an option string without W; no call of a reading goes wrong |
| GetoptScan.ReadForEver | src/common/getopt.cpp:324-430 | With the option string W;, no table and the argument -Wx, a call uses up nothing and leaves nothing of the option, so that it is read again |
| GetoptScan.PastTheEnd | src/common/getopt.cpp:324-430 | With W; and a table of alpha and alps, the last argument -Wal makes a call move past the end of the arguments |
| GetoptState.Rough | src/common/getopt.cpp:122-470 | If in a run a call goes wrong, then so does the reading of all arguments from left to right |
| GetoptScan.ScanKeeps | src/common/getopt.cpp:122-470 | Reading the arguments loses and invents none |
| GetoptState.Skipped | src/common/getopt.cpp:139-154 | One exchange and the skipping after it keep the state of a run |
| GetoptState.Decoded | src/common/getopt.cpp:180-469 | Reading an option keeps the state of a run |
| GetoptState.DashDash | src/common/getopt.cpp:155-164 | Moving "--" to the options and stopping there leaves the finished state |
| GetoptState.FinishedPermutes | src/common/getopt.cpp:122-470 | In the finished state argv is a permutation of the arguments, with exactly the operands from optind on, in original order |
| GetoptState.OnTrackPermutes | src/common/getopt.cpp:122-470 | In every state on the way argv is a permutation of the arguments |
| Rotation.Exchange | src/common/getopt.cpp:63-98 | exchange ends, and has rotated the two adjacent blocks, each keeping its order |
| Rotation.ShrinkTop | src/common/getopt.cpp:71-82 | When the second block is the longer one, one swap of blocks leaves a smaller rotation to do |
| Rotation.ShrinkBottom | src/common/getopt.cpp:83-94 | When the first block is at least as long, one swap of blocks leaves a smaller rotation to do |
| NodeSort.Sort | src/common/pugixml.cpp:7195-7223 | A sorted rearrangement, for every strict total order; the recursion is no deeper than the binary logarithm of the length |
| NodeSort.Partition | src/common/pugixml.cpp:7116-7167 | A range of elements equal to the pivot that is not empty, less ones before it and greater ones after it |
| NodeSort.MakeRoom | src/common/pugixml.cpp:7153-7165 | One step for a stray element keeps the zones and makes progress |
| NodeSort.Median | src/common/pugixml.cpp:7176-7193 | Choosing the pivot only rearranges |
| NodeSort.InsertionSort | src/common/pugixml.cpp:7084-7112 | A sorted rearrangement of a short part |
| NodeSort.Insert | src/common/pugixml.cpp:7089-7111 | An element goes to its place in the sorted part before it |
| NodeSort.Unique | src/common/pugixml.cpp:7056-7077 | Runs of equal elements shrink to one |
| NodeSort.RemoveDuplicates | src/common/pugixml.cpp:8627-8633 | On an unsorted set, every distinct element is left exactly once |
| SortOrder.MergedOnce | src/common/pugixml.cpp:7056-7077 | In a sorted sequence, shrinking runs leaves every element exactly once |
| SortOrder.CloseRight | src/common/pugixml.cpp:7208-7218 | Once the right side of a partition is sorted only the left one remains |
| SortOrder.CloseLeft | src/common/pugixml.cpp:7208-7218 | Once the left side of a partition is sorted only the right one remains |
| Sha1Stream.CSHA1.Update | src/common/sha1.cpp:212-235 | However a message is cut into updates, the object stands for their concatenation, if and only if the position in the buffer and the length stay below 2^32 together; otherwise the copy goes past the end of the buffer |
| Sha1Stream.FitsExactly | src/common/sha1.cpp:216-232 | Exactly under that condition the 32-bit test in Update tells whether the data fits into the buffer |
| Sha1Stream.SeemsToFit | src/common/sha1.cpp:212-235 | With one byte in the buffer, an update with 2^32 - 1 bytes seems to fit into it and overruns it |
| Sha1Stream.NoWrap | src/common/sha1.cpp:228 | Under that condition the loop over blocks does not wrap round either |
| Sha1Stream.CSHA1.Final | src/common/sha1.cpp:237-267 | The digest is the one that FIPS 180-4 gives for the message, padded once |
| Sha1Stream.CSHA1.Pad | src/common/sha1.cpp:246-249 | The padding loop, guided by the low count word alone, adds the zeros of the standard |
| Sha1Stream.CSHA1.Feed | src/common/sha1.cpp:222-228 | The blocks completed have been absorbed in order |
| Sha1Stream.CSHA1.TakeIn | src/common/sha1.cpp:222-234 | Completed blocks are absorbed and the rest stays in the buffer, unless it goes past the end of the buffer |
| Sha1Stream.CountsUpdate | src/common/sha1.cpp:216-220 | The two-word bit count with its carry counts modulo 2^64 |
| Sha1Stream.CountsField | src/common/sha1.cpp:242-244 | The eight bytes made of the two count words are the length field of the padding |
| Sha1Stream.KeyedHash | src/common/sha1.cpp:289-344 | The keyed hash is HMAC of RFC 2104 over this hash, in bytes and in hexadecimal |
| Sha1Vectors.DigestOfAbc | src/common/sha1.cpp:130-267 | The digest of abc is the one published in RFC 3174 |
| Sha1Vectors.DigestOfLong | src/common/sha1.cpp:130-267 | The digest of the two-block message of RFC 3174 is the one published there |
| Sha1Vectors.HmacOfText | src/common/sha1.cpp:289-344 | The keyed hash of the second test case of RFC 2202 is the one published there |
| Sha1Vectors.HmacAsText | src/common/sha1.cpp:269-344 | The keyed hash of the second test case of RFC 2202, in hexadecimal, is the text published there |
| Sha1Vectors.ConstantsAreRoots | src/common/sha1.cpp:137-142 | The four round constants are the integer parts of 2^30 times the square roots of 2, 3, 5 and 10 |
| Sha1Vectors.PaddedParts | src/common/sha1.cpp:237-258 | A padded message is the message, the byte 0x80, zeros and the bit length at its end, in the fewest blocks |
| Sha1Blocks.BlockIs | src/common/sha1.cpp:169-209 | A block is absorbed as its eighty schedule words and the variables after every sixteen rounds say |
| Sha1Transform.Transform | src/common/sha1.cpp:169-209 | Transform is the compression function of section 6.1.2 of FIPS 180-4 |
| Sha1Transform.NextWordIsW | src/common/sha1.cpp:127-135 | The circular schedule of 16 words yields the 80 words of the standard |
| Sha1Transform.RoundInPlaceIsRound | src/common/sha1.cpp:137-142 | A round that changes two variables and renames all five is a round of the standard |
| Sha1.SwapIsBigEndian | src/common/sha1.cpp:127-132 | The masked rotations make a big-endian word of what a little-endian machine read |
| Sha1.ChooseForm | src/common/sha1.cpp:138-139 | The form of Ch computed in the rounds is the Ch of the standard |
| Sha1.MajorityForm | src/common/sha1.cpp:141 | The form of Maj computed in the rounds is the Maj of the standard |
| Sha1.AbsorbAppend | src/common/sha1.cpp:212-235 | Absorbing whole blocks first and the rest later is absorbing everything |
| IntegerText.StringToInteger | src/common/pugixml.cpp:4346-4419 | For every text, the result is the number it begins with, decimal or hexadecimal, clamped to the target range |
| IntegerText.OverflowExact | src/common/pugixml.cpp:4404-4412 | Digit count, leading digit and top bit together tell an overflow of decimal digits exactly, for 2, 4 and 8 bytes |
| IntegerText.HexOverflow | src/common/pugixml.cpp:4382-4384 | For hexadecimal digits without leading zeros, the digit count alone tells an overflow exactly |
| IntegerLaws.NumberSpelled | src/common/pugixml.cpp:4346-4390 | White space, a sign or none, 0x or 0X or nothing, digits of the base in either letter case, and anything else behind: the number is that of the digits, with the sign |
| IntegerLaws.SaturatedIsNearest | src/common/pugixml.cpp:4392-4419 | The result is the nearest integer of the target range, as a word of its size |
| IntegerLaws.DigitOfExactly | src/common/pugixml.cpp:4366-4402 | A character is read as a digit exactly if it is one, with its value, in either letter case |
| IntegerText.SkipZeros | src/common/pugixml.cpp:4364-4390 | Skipping leading zeros changes no value |
| IntegerText.IntegerToString | src/common/pugixml.cpp:4470-4489 | The text is the sign and the decimal digits, at the end of the buffer |
| IntegerText.TextRead | src/common/pugixml.cpp:4346-4489 | Printed text begins with just the number printed |
| IntegerText.RoundTripSigned | src/common/pugixml.cpp:4346-4489 | Every signed value that is printed and parsed comes back, the least one included |
| IntegerText.RoundTripUnsigned | src/common/pugixml.cpp:4346-4489 | Every unsigned value that is printed and parsed comes back |
| ProbeTable.ProbesCover | src/common/pugixml.cpp:315-331 | For a capacity that is a power of two, a round of triangular probes visits every bucket |
| ProbeTable.ProbesDiffer | src/common/pugixml.cpp:315-331 | No two triangular probes of one round meet in the same bucket |
| ProbeTable.Table.Insert | src/common/pugixml.cpp:307-335 | The table stands for the map with the key added or its value replaced; below three quarters load a bucket is always found |
| ProbeTable.Table.Find | src/common/pugixml.cpp:280-305 | The bucket of a key, or nothing exactly if the map does not have it |
| ProbeTable.Table.Rehash | src/common/pugixml.cpp:374-398 | The capacity doubles and the map stays |
| ProbeTable.Table.Reserve | src/common/pugixml.cpp:337-343 | Afterwards sixteen more keys fit |
| ProbeTable.PlacedMore | src/common/pugixml.cpp:307-335 | Filling the bucket where a key's probes end leaves every other key findable |
| Dom.Document.AllowMove | src/common/pugixml.cpp:4223-4245 | The climb finds out whether the node to be moved is at or above its new parent; types and documents are checked |
| Dom.Document.AppendMove | src/common/pugixml.cpp:5822-5836 | A move is refused exactly when allow_move refuses it and then changes nothing; otherwise all child lists are the old ones with that node moved to the end, and the links are in order |
| Dom.Document.PrependMove | src/common/pugixml.cpp:5838-5852 | A move is refused exactly when allow_move refuses it and then changes nothing; otherwise the node moves to the front of the list and all other lists only lose it |
| Dom.Document.InsertMoveAfter | src/common/pugixml.cpp:5854-5870 | A move behind a child is refused exactly when allow_move refuses it or the child is another's or the node itself; otherwise the node moves there and all other lists only lose it |
| Dom.Document.InsertMoveBefore | src/common/pugixml.cpp:5872-5888 | A move before a child is refused exactly when allow_move refuses it or the child is another's or the node itself; otherwise the node moves there and all other lists only lose it |
| Dom.Document.AppendChild | src/common/pugixml.cpp:5646-5661 | A new last child where such a child is allowed, all other lists unchanged |
| Dom.Document.PrependChild | src/common/pugixml.cpp:5663-5678 | A new first child where such a child is allowed, all other lists unchanged |
| Dom.Document.InsertChildBefore | src/common/pugixml.cpp:5680-5696 | A new child before a child of the node, where allowed, all other lists unchanged |
| Dom.Document.InsertChildAfter | src/common/pugixml.cpp:5698-5714 | A new child behind a child of the node, where allowed, all other lists unchanged |
| Dom.Document.RemoveChild | src/common/pugixml.cpp:5914-5925 | The node and all below it leave the document, all other lists unchanged |
| Dom.MoveSound | src/common/pugixml.cpp:5822-5888 | Moving a node to a place not at or below itself keeps a forest: links terminated, cyclic backwards, and no node its own ancestor |
| Dom.MovedRanked | src/common/pugixml.cpp:4233-4242 | A node moved under one that is not at or below it does not become its own ancestor |
| Dom.PruneSound | src/common/pugixml.cpp:5914-5925 | What is left after a removal is a forest |
| DomKinds.MovedKept | src/common/pugixml.cpp:4214-4221 | In a document whose kinds are in order, with the document on top, declarations and DOCTYPE only under it, and children only under it and under elements, a move keeps them so exactly if it is allowed |
| DomKinds.GrownKept | src/common/pugixml.cpp:4214-4221 | In a document whose kinds are in order, a new child keeps them so exactly if it is allowed |
| DomKinds.PrunedKept | src/common/pugixml.cpp:5914-5925 | A removal keeps the kinds of a document in order |
| DomKinds.AllowedExactly | src/common/pugixml.cpp:4214-4221 | A child is allowed exactly where the kinds of parent and child permit it |
| Dom.AppendNode | src/common/pugixml.cpp:1219-1238 | The pointer writes of append_node are the list edit at the end |
| Dom.PrependNode | src/common/pugixml.cpp:1240-1256 | The pointer writes of prepend_node are the list edit at the front |
| Dom.InsertNodeAfter | src/common/pugixml.cpp:1258-1273 | The pointer writes of insert_node_after are the list edit behind a node |
| Dom.InsertNodeBefore | src/common/pugixml.cpp:1275-1290 | The pointer writes of insert_node_before are the list edit before a node |
| Dom.RemoveNode | src/common/pugixml.cpp:1292-1309 | The pointer writes of remove_node are the removal from the list |
| DomLinks.SplicedForest | src/common/pugixml.cpp:1219-1290 | Putting a detached node into a list keeps every child list null-terminated forwards and cyclic backwards |
| DomLinks.UnlinkedForest | src/common/pugixml.cpp:1292-1309 | Taking a child out keeps every child list null-terminated forwards and cyclic backwards |
| DomCopy.AppendCopy | src/common/pugixml.cpp:5752-5767 | The new last child is a copy, node by node and child by child, of the source as it was before, even if it lies inside the source; everything else stays |
| DomCopy.CopyTree | src/common/pugixml.cpp:4284-4327 | The traversal ends, and has copied everything below the source except the destination |
| DomCopy.Ascend | src/common/pugixml.cpp:4313-4325 | Its inner loop finds the next node to copy and the copy it belongs under |
| DomCopy.CopyStep | src/common/pugixml.cpp:4296-4311 | Copying one node as the last child of its parent's copy keeps the correspondence |
| DomCopy.SkipStep | src/common/pugixml.cpp:4296 | Passing the destination, which is not copied, keeps the correspondence |
| DomCopy.LeaveStep | src/common/pugixml.cpp:4322-4323 | Leaving a node all of whose children have been passed keeps the correspondence |
| DomCopy.Finish | src/common/pugixml.cpp:4284-4327 | At the end every node copied has all its children copied in order |

## Left out

- LzoCorrect.RoundTrip: six readable bytes after the compressed data are required, because offset bytes are read without a test; at least one byte of input is required for the decoder, because it reads the first byte without one.
- LzoDecompress.Decompress: the register `t` is unbounded; the input length keeps it below 255 times that length plus 18.
- LzoCompress.Compress: the input is a sequence, and work memory entries are integers; the branches for LZO1Y, LZO1Z and dictionaries are not compiled and not modelled.
- XmlRoundTrip.RoundTrip: text at the top level is in `XmlFragment`; comments, CDATA, processing instructions, declarations and DOCTYPE are not modelled, nor are indentation, wide characters, the white-space conversions of attributes, and the offset in an error result.
- XmlParse.Step: comments, CDATA, processing instructions, declarations and DOCTYPE end in a result of their own instead of being read; the offset of an error is not modelled.
- XmlParse.Run: as `XmlParse.Step`.
- XmlParseInPlace.ParseBuffer: as `XmlParse.Step`; the offset of an error result is not modelled.
- XmlParseInPlace.ParseTree: as `XmlParse.Step`; open nodes are a stack and children are values, not linked node objects; the link operations are proved in `Dom` instead.
- XmlAccepted.AcceptedExactly: of the modelled markup, so a text with a comment, CDATA, processing instruction, declaration or DOCTYPE counts as not accepted; a text with a NUL inside is read up to that; `parse_fragment` and a last character held back are in `XmlFragment`.
- XmlMarkup.DocumentParsed: as `XmlAccepted.AcceptedExactly`.
- XmlReferences.ClassesAsInXml: every byte from 128 on may stand in a name, as in the source, where XML 1.0 excludes some characters.
- XmlPrint.NodeOutput: the writer keeps its whole text; flushing a fixed buffer and encoding the output are not modelled.
- XPathFetch.Fetch: inside predicates and operators, operands are evaluated as sets; the three modes are proved to serve for the conversions made there.
- XPathSound.Sound: numbers keep NaN and the infinities but not rounding; functions other than those the optimizer singles out are arbitrary functions of the context node and of their arguments' values.
- XPath parsing, number formatting and the namespace functions.
- XmlOrder.NodeIsBefore: nodes of different documents and the shortcut over buffer positions in the document-order comparator.
- SmallObject.FixedAllocator.Allocate: a vector grows to the capacity asked for, though a library may give it more; what a stale cursor reads is not modelled.
- SmallObject.FixedAllocator.Deallocate: giving a block back twice, which the source calls an error of its caller.
- The selection of a size class and the singletons around the allocator.
- Getopt.Parser.Drain: the run stops at a call that goes wrong; what the program reads beyond its arguments is not modelled.
- Getopt.Parser.LongOption: `optopt`, `longind`, messages and the store through `flag`.
- Getopt.Parser.WOption: as `Getopt.Parser.LongOption`.
- Getopt.Parser.ShortOption: `optopt` and messages.
- Getopt.Parser.Next: messages, `optopt`, `longind`, stores through `flag`, calls after the end of a run, and the wrapper around global variables.
- NodeSort.Sort: elements are compared by a strict total order, so two elements neither of which is less are equal.
- Sha1Stream.CSHA1.Update: what the copy past the end of the buffer overwrites.
- LzoSearch.Remembered: nothing is promised about a repetition whose slot another position has taken over; matches are found greedily, not so that the stream is shortest.
- Sha1Transform.Transform: one loop stands for the 80 unrolled rounds, on a little-endian machine.
- ProbeTable.Table.Insert: the pointer returned is followed at once by the store through it.
- Dom.Document.RemoveChild: the memory of the removed nodes.
- DomCopy.CopyTree: as `DomCopy.AppendCopy`.
- DomCopy.AppendCopy: name, value and attributes of a node are one string; sharing of strings between nodes, failing allocations and copies from another document are not modelled.
- The other ways of inserting a copy, which differ in the link operation only.
- MD5, CRC-64, adler32 and the container headers: tables and templates with nothing hard to state.
