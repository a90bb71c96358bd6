# A verified model of the retro CPU toolchain

This project models, in Dafny, the parts of the toolchain where a small mistake spoils everything
behind it, and proves what each part is for.  `dafny verify dfyconfig.toml` checks all of it.

| part | files | main results |
|---|---|---|
| assembler passes, REL writer, REL reader, link fixup (MN1613) | `Assembly`, `AreaOrder`, `Assembler`, `AssemblerLaws`, `Passes`, `TwoPass`, `LabelAreas`, `EmittedModules`, `EmittedLines`, `Globals`, `RelWriter`, `WrittenSymbols`, `RelParser`, `ReaderLaws`, `RelRoundTrip`, `AreaSizes`, `SdldLink`, `AreaBases`, `Fixup`, `WordAddressLink`, `LinkTheorem`, `Landing`, `LinkedImage`, `FreeWords`, `Toolchain`, `SourceLines`, `Samples`, `ReferenceSamples` | doubling addresses, linking in bytes and halving the relocated fields is a word-address link, from source lines to memory |
| DENA/DACK handshake | `Handshake` | nothing lost, doubled or swapped in any interleaving; every run ends; exactly when the unit counts match it ends complete, and then every fair schedule completes it |
| macro expander | `Macros`, `MacroExpansion`, `MacroLaws`, `MacroPasses` | what calls and repeats yield, block nesting both ways, nothing left to expand, no number put for `?` twice, results are exactly the fixpoints |
| expression evaluator | `Expression`, `ExpressionLaws` | which operator binds first and what it computes; evaluating while parsing is the value of the syntax tree, for any meaning of the operators |
| word heap | `Heap` | every run keeps the tiling; first fit is lowest fit, live blocks never move, free undoes malloc |
| Intel HEX | `IntelHex`, `HexPrinters` | the DMA plan makes the loader's writes; printing and parsing are inverse exactly below 64K |
| debug stream, TMS9995 encoder | `DebugStream`, `Tms9995`, `Tms9995Decoder` | framing independent of segmentation; words decode to what was encoded, programs uniquely |

`Results` and `Bytes` hold what several parts share.  Code that works step by step is a method or a class
proved equal to a specification function; the theorems are about those functions, so they hold of the
methods.

Assumptions that are not code: `LinkTheorem.Linked` says what the external linker does.  It puts a module's part
of an area behind those of earlier modules, from where its map says the area starts; it puts the data bytes at
that base, and adds the byte base of the area, or the byte value of the symbol, into every 16-bit field.  Such an
image exists for every placement (`LinkedImage.SomeImageIsLinked`).  `Toolchain.DefsTold` says that the map gives
every name an S line defines that line's value plus the base of the area whose A line comes before it.
The peer of the handshake is taken to be the mirrored role of the same protocol.

## What the code does that its users may not expect

Each of these is proved, with the exact condition where one exists; the lemmas of `Samples` and
`ReferenceSamples` are inputs.

- A `*label` byte is wrong after the fixup exactly when bit 7 of the label's offset is set: the assembler
  doubles the offset into a byte, and the doubled bit is lost (`LinkTheorem.LowByteFields`,
  `Samples.FarZeroPageIsWrong`).
- A split `AI`/`SI` whose operand names a relocatable symbol has its last word rewritten by the relocation
  meant for address words (`EmittedModules.SplitEmittedAsEncoded`, `Samples.GlobalSplitIsCleared`).
- The written size of an area takes the maximum of a count of words and a count of bytes; it covers the
  words exactly when the recorded area size, without its bit 15, does (`AreaSizes.AreaSizeCovers`).  Setting
  the counter back with `.org` cuts an area short (`Samples.SetBackIsCutShort`).
- `.dw X` and two-word operands are relocated for labels of five areas only; for a label of any other area
  (`_BIOS`, `_VECTOR`, a user's own) memory holds the offset, which is right exactly when the area starts at 0
  in that module (`SourceLines.LineReaches`, `ReferenceSamples.BankLabelIsNotMoved`).
- A global `.equ` is taken for an offset in `_CODE`: other modules find its value exactly when the defining
  module's `_CODE` starts at 0 (`Toolchain.GlobalConstantMoves`, `ReferenceSamples.ConstantIsMoved`).
- A label in the unnamed area cannot be referred to when that area stays empty: it is not recorded, and the
  writer throws exactly when nothing else names `_CODE` (`EmittedModules.LabelAreasNamed`,
  `Toolchain.SourceIsWritten`, `ReferenceSamples.LostStartIsNotWritten`).
- The passes part exactly on a line whose size the first pass sees differently; `.ds N` before `N .equ 4` is
  one (`TwoPass.PassesAgree`, `TwoPass.ForwardReserveParts`).
- The first pass accepts token lists that are no expressions: an operator or `)` in operand place counts as 0
  (`Expression.FirstPassAcceptsStray`, `Expression.FirstPassReadsRepaired`).
- The TMS9995 sizing pass fails on an operand that divides by a name not yet defined, although the
  instruction can be assembled (`Tms9995.SizeIsLength`, `Samples.DividesByUndefined`).
- A memory write of more than 65536 bytes is cut to its header, and its data are read as further commands
  (`DebugStream.RequestIsFrame`, `DebugStream.OversizedReadAsRequests`).
- Printed HEX reads back exactly when every record starts below 64K (`HexPrinters.SparseRoundTrip`,
  `HexPrinters.WordsLoad`).

Where comments and code disagree the model follows the code: the debug commands are 80h, 81h, 83h and 84h
although comments beside them say 10h, 11h, 13h and 14h, and DMA chunks are in record order although a
comment calls them sorted.

## Model

| member | source | states |
|---|---|---|
| `Toolchain.SourcesLinkInWords` | retrocpu_asm_ts/src/main/sdldLink.ts:440-478 | from any list of good sources through both passes, the REL writer, a byte link by the linker's own placing rule and the fixup, at any bases that leave room and put no two words of different areas on one byte (areas may overlap): every 16-bit field holds its target's word address, every `*label` byte its low byte iff the offset's bit 7 is clear, every other byte is as linked |
| `Toolchain.ReferenceReachesLine` | retrocpu_asm_ts/src/main/assembler.ts:446-545 | a 16-bit relocation against a local label leaves the word base of the label's area plus the address at which the second pass stood at the label's line |
| `Toolchain.GlobalReferenceReachesLine` | retrocpu_asm_ts/src/main/relWriter.ts:230-235 | a 16-bit reference to a label another module declares global ends up as the word base of that module's area plus the address at which its second pass stood at the defining line |
| `Toolchain.GlobalTold` | retrocpu_asm_ts/src/main/relWriter.ts:230-235 | from the S lines of the written file the linker's map gives a global its area's base in that module plus twice its word value, modulo 64K |
| `Toolchain.GlobalConstantMoves` | retrocpu_asm_ts/src/main/relWriter.ts:136-145 | a 16-bit reference to a global `.equ` ends up as its value plus the word base of `_CODE` in the defining module, so it holds the value iff that base is 0 and the value is below 8000h |
| `ReferenceSamples.ConstantIsMoved` | retrocpu_asm_ts/src/main/relWriter.ts:136-145 | a concrete source, `N .equ 20` declared global and `.dw N` with `_CODE` at byte 100h: memory holds 148 in every linked and fixed image, and there are such images |
| `SourceLines.LineReaches` | retrocpu_asm_ts/src/main/assembler.ts:632-729 | where a `.dw` argument or the operand word of a two-word instruction is a lone local label, memory holds its word address if the label lies in one of the five relocatable areas; in any other area it holds the offset, so the word address iff that area starts at 0 |
| `SourceLines.LineReachesGlobal` | retrocpu_asm_ts/src/main/assembler.ts:632-729 | where such a word names a global or external symbol, memory holds the word base of the defining module's area plus the value in 15 bits |
| `ReferenceSamples.BankLabelIsNotMoved` | retrocpu_asm_ts/src/main/expression.ts:73-103 | a concrete source, `X: .dw X` in an area of the user's own at byte 200h: memory holds 0 in every linked and fixed image, and there are such images |
| `EmittedLines.OperandInModule` | retrocpu_asm_ts/src/main/assembler.ts:632-729 | in the module of a good source the word of such an operand stands where the second pass stood, with the relocation the name asks for, or with the value and no relocation on it |
| `EmittedLines.DataInModule` | retrocpu_asm_ts/src/main/assembler.ts:632-689 | a `.dw` argument that asks for no relocation stands in the module, where the second pass stood, as its value, which fits 16 bits |
| `EmittedLines.CodeInModule` | retrocpu_asm_ts/src/main/assembler.ts:704-752 | the encoded words of an instruction stand in the module from where the second pass stood, all but what a relocation rewrites: the last word, or the low byte of a single one |
| `FreeWords.FreeWord` | retrocpu_asm_ts/src/main/sdldLink.ts:440-478 | a word no relocation is on stands in the fixed image as it was emitted |
| `Toolchain.SourceIsWritten` | retrocpu_asm_ts/src/main/relWriter.ts:268-283 | the writer writes the module of a good source iff its relocations against `_CODE` find that area recorded |
| `ReferenceSamples.LostStartIsNotWritten` | retrocpu_asm_ts/src/main/assembler.ts:409-424 | a concrete source, `START:`, `.area _DATA`, `.dw START`: both passes succeed and the writer throws |
| `Samples.OverlappingSpansLink` | retrocpu_asm_ts/src/main/areaOrder.ts:50-56 | a source with `_VECTOR .org 0x100` and `_BIOS .org 0x110`, both areas based at 0, is built and placed, its targets fit, and an image of it can be linked |
| `Toolchain.OffsetIsLabel` | retrocpu_asm_ts/src/main/expression.ts:73-103 | every area-offset relocation the second pass leaves is the place of a local label |
| `Landing.LinkedInWords` | retrocpu_asm_ts/src/main/sdldLink.ts:440-478 | the link theorem for any list of well-formed modules, assuming even area bases, room below 64K, and no byte shared by two words of different areas or by vectors of two modules |
| `Landing.WriterAccepts` | retrocpu_asm_ts/src/main/relWriter.ts:243-290 | the writer never throws on a well-formed module |
| `Landing.WriterAcceptsIff` | retrocpu_asm_ts/src/main/relWriter.ts:268-283 | the writer throws iff some relocation's symbol or area has no number |
| `Landing.LandedIsPlaced` | retrocpu_asm_ts/src/main/sdldLink.ts:325-362 | under those assumptions the computed bases are even, inside 16 bits, and keep all words of all areas of all modules apart, the shares of one area by the linker's own sums |
| `LinkTheorem.FixupIsActions` | retrocpu_asm_ts/src/main/sdldLink.ts:440-478 | the fixup of the re-read files is one action per relocation of the original modules, in order |
| `LinkTheorem.AllOrderly` | retrocpu_asm_ts/src/main/sdldLink.ts:440-478 | no two fixup actions of any two modules touch the same word of the image |
| `LinkTheorem.FieldLinked` | retrocpu_asm_ts/src/main/sdldLink.ts:440-478 | what the byte link leaves in a relocation's field, read off its chunk: the placeholder plus the target's byte address |
| `LinkTheorem.WordFields` | retrocpu_asm_ts/src/main/sdldLink.ts:470-474 | after the fixup a 16-bit field holds its target's word address |
| `LinkTheorem.LowByteFields` | retrocpu_asm_ts/src/main/sdldLink.ts:453-469 | after the fixup a `*label` byte holds the low byte of the word address iff the target is a symbol or the offset's low byte is below 128; the doubled placeholder has lost that bit otherwise |
| `Samples.FarZeroPageIsWrong` | retrocpu_asm_ts/src/main/sdldLink.ts:453-469 | a concrete source: after `.ds 128` in the zero page, `L R0, *X` with X at word 192 has linked images, and in every one of them the fixed byte is not 192 |
| `LinkTheorem.OtherBytes` | retrocpu_asm_ts/src/main/sdldLink.ts:440-478 | a byte outside all relocation fields is not changed by the fixup |
| `LinkedImage.OneWord` | retrocpu_asm_ts/src/main/sdldLink.ts:325-362 | no two words of all modules, at the computed bases, lie at one address |
| `LinkedImage.ImageIsLinked` | retrocpu_asm_ts/src/main/sdldLink.ts:489-560 | for every placement the image with each word at its place and each target added is one the linker's description fits |
| `LinkedImage.SomeImageIsLinked` | retrocpu_asm_ts/src/main/sdldLink.ts:489-560 | so the assumption about the linker never rules a link out |
| `AreaBases.BasesAreSums` | retrocpu_asm_ts/src/main/sdldLink.ts:340-359 | the cursor loops start a module's area at the first base plus the sizes of that area in all earlier modules, as long as this stays in 32 bits; `_VECTOR` never moves |
| `AreaBases.BasesAgree` | retrocpu_asm_ts/src/main/sdldLink.ts:325-362 | for areas that fit 64K the fixup's bases are, area by area and module by module, where the linker puts them: its map's `s_<area>` plus that area's sizes in earlier modules |
| `AreaBases.StartsThere` | retrocpu_asm_ts/src/main/sdldLink.ts:330-342 | every area starts at the map's `s_<area>`; without that symbol the zero pages start at 10h and 80h, `_DATA` at `s__CODE`, `_WORK` at `s__DATA`, and all others, or these without such a symbol, at 0 |
| `AreaBases.LookupFinds` | retrocpu_asm_ts/src/main/sdldLink.ts:157-165 | a name is looked up exactly first, then as the first entry that differs in case only; nothing is found iff there is neither |
| `AreaBases.SharesAreDisjoint` | retrocpu_asm_ts/src/main/sdldLink.ts:340-359 | the parts two modules take of one area do not overlap, and the later one ends below 64K |
| `AreaBases.BeforeEven` | retrocpu_asm_ts/src/main/sdldLink.ts:351-356 | even sizes keep every base even |
| `Fixup.Untouched` | retrocpu_asm_ts/src/main/sdldLink.ts:380-383 | a byte no action touches keeps its value through any list of in-place writes |
| `Fixup.Effect` | retrocpu_asm_ts/src/main/sdldLink.ts:440-478 | an action separate from all others does to its field exactly what it would do to the original image |
| `Fixup.Independent` | retrocpu_asm_ts/src/main/sdldLink.ts:440-478 | actions on distinct words do not disturb one another |
| `Fixup.ItemDoes` | retrocpu_asm_ts/src/main/sdldLink.ts:446-475 | one item of any file, well formed or not: a 16-bit one halves the word at its field, missing bytes being 0; an 8-bit one puts there the low byte of the word address of its symbol, 0 if unknown, or of its area's base and the byte in the file |
| `SdldLink.ModuleAreaBases` | retrocpu_asm_ts/src/main/sdldLink.ts:325-362 | the cursor loops compute the specified base of every area of every module |
| `SdldLink.Image.Read16be` | retrocpu_asm_ts/src/main/sdldLink.ts:370-372 | reads a big-endian word, missing bytes as 0 |
| `SdldLink.Image.Write16be` | retrocpu_asm_ts/src/main/sdldLink.ts:380-383 | sets the two bytes of a word and no other |
| `SdldLink.Image.FixChunk` | retrocpu_asm_ts/src/main/sdldLink.ts:448-475 | rewrites the image in place by the actions of one chunk |
| `SdldLink.Image.FixModule` | retrocpu_asm_ts/src/main/sdldLink.ts:446-477 | rewrites the image in place by the actions of one module's chunks |
| `SdldLink.Image.ApplyMn1613WordAddrFixup` | retrocpu_asm_ts/src/main/sdldLink.ts:440-478 | rewrites the image in place to the specified fixed image |
| `WordAddressLink.WordsOfArea` | retrocpu_asm_ts/src/main/relWriter.ts:205-208 | with one word per address, sorting an area's words gives all of them in strictly rising order |
| `WordAddressLink.WrittenOnce` | retrocpu_asm_ts/src/main/relWriter.ts:258-283 | the relocations of the R records, piece after piece, are exactly those whose word is in the area, each once |
| `WordAddressLink.AreaWrittenOnce` | retrocpu_asm_ts/src/main/relWriter.ts:243-290 | every relocation of an area appears in exactly one R record of it |
| `WordAddressLink.WordInPiece` | retrocpu_asm_ts/src/main/relWriter.ts:258-283 | a relocation claimed by a chunk has its whole word, with the placeholder, inside that chunk |
| `WordAddressLink.ItemIsField` | retrocpu_asm_ts/src/main/sdldLink.ts:448-475 | an R item read back leads the fixup to the byte address of its relocation, with the intended target |
| `WordAddressLink.BodyActions` | retrocpu_asm_ts/src/main/sdldLink.ts:446-477 | the fixup actions of an area's chunks are those of its relocations |
| `WordAddressLink.FixupOfModule` | retrocpu_asm_ts/src/main/sdldLink.ts:446-477 | the fixup actions of a file read back are those of the module written |
| `WordAddressLink.ModuleOrderly` | retrocpu_asm_ts/src/main/sdldLink.ts:446-477 | no two actions of one module touch the same word, and all lie inside its areas |
| `WordAddressLink.SizeIsDoubled` | retrocpu_asm_ts/src/main/relWriter.ts:212-222 | the written size of a well-formed area is twice its word count and reaches past its last word |
| `AreaSizes.AreaSizeCovers` | retrocpu_asm_ts/src/main/relWriter.ts:216-222 | for the MN1613 the written size, a maximum of words and bytes, covers the area's words iff the recorded size modulo 32768 does, the doubling dropping bit 15 |
| `AreaSizes.ByteAreaSizeCovers` | retrocpu_asm_ts/src/main/relWriter.ts:216-222 | for the TMS9995 it always does |
| `Samples.SetBackIsCutShort` | retrocpu_asm_ts/src/main/assembler.ts:409-424 | a concrete source, `.dw 1, 2` then `.org 0`: its area is recorded with size 0 and written with 2 of its 4 bytes |
| `RelWriter.WriteRel` | retrocpu_asm_ts/src/main/relWriter.ts:123-295 | the nested loops produce exactly the specified REL text, or its error |
| `RelWriter.WriteArea` | retrocpu_asm_ts/src/main/relWriter.ts:213-292 | one area: A line, definitions, checkpoints, records |
| `RelWriter.WriteAreas` | retrocpu_asm_ts/src/main/relWriter.ts:213-292 | all areas in order, stopping at the first error |
| `RelWriter.WriteBody` | retrocpu_asm_ts/src/main/relWriter.ts:243-290 | the loop over runs writes one T and one R record per chunk of the sorted words |
| `RelWriter.WriteRun` | retrocpu_asm_ts/src/main/relWriter.ts:253-287 | the loop over a run cuts it into chunks of at most 7 words |
| `RelWriter.WriteChunk` | retrocpu_asm_ts/src/main/relWriter.ts:254-286 | one T record with the chunk's bytes and one R record with its items |
| `RelWriter.FindRunEnd` | retrocpu_asm_ts/src/main/relWriter.ts:245-251 | the run ends where the addresses stop being consecutive |
| `RelWriter.CollectItems` | retrocpu_asm_ts/src/main/relWriter.ts:268-283 | the items of all relocations inside the chunk, in order, or the error |
| `RelWriter.NumberSymbols` | retrocpu_asm_ts/src/main/relWriter.ts:174-191 | the counter loop numbers names in the order of their S lines; a repeated name keeps its last number |
| `RelWriter.NumberArea` | retrocpu_asm_ts/src/main/relWriter.ts:181-190 | an area's definitions and checkpoints get the next numbers |
| `RelWriter.IndexMap` | retrocpu_asm_ts/src/main/relWriter.ts:174-191 | every number given is a position at which that name stands |
| `WrittenSymbols.SymbolsWritten` | retrocpu_asm_ts/src/main/relWriter.ts:196-239 | the S lines of a written file, each with the area whose A line it follows, are exactly: the absolute symbol, every reference without a value, and every global and checkpoint behind its area with its byte offset modulo 64K, each as often as it is declared |
| `WrittenSymbols.HeaderCounts` | retrocpu_asm_ts/src/main/relWriter.ts:194-201 | the file begins with XH2, an H line that counts its A and S lines, and the module's name, and ends with E |
| `WrittenSymbols.NamesWritten` | retrocpu_asm_ts/src/main/relWriter.ts:44-49 | `S__` and `L__` in front of a name are written small, every other name as it is |
| `AreaOrder.LinkOrder` | retrocpu_asm_ts/src/main/areaOrder.ts:86-100 | areas are written in the fixed order of the seven known ones, then by name in code order |
| `AreaOrder.CapitalLetters` | retrocpu_asm_ts/src/main/areaOrder.ts:77-80 | names are compared with small letters as capitals and nothing else changed |
| `RelWriter.Sort` | retrocpu_asm_ts/src/main/relWriter.ts:205-208 | sorting keeps every word, as often as it occurs |
| `RelWriter.Chunks` | retrocpu_asm_ts/src/main/relWriter.ts:243-290 | no chunk is empty, and together they are the words in order |
| `RelWriter.RunLength` | retrocpu_asm_ts/src/main/relWriter.ts:245-251 | a run is not empty and does not pass the end |
| `RelParser.ParseRelChunks` | retrocpu_asm_ts/src/main/sdldLink.ts:264-317 | the line loop yields exactly the specified areas, sizes, symbols and chunks |
| `RelParser.CollectReadItems` | retrocpu_asm_ts/src/main/sdldLink.ts:300-306 | the loop over an R line's numbers yields the items read |
| `ReaderLaws.LineRead` | retrocpu_asm_ts/src/main/sdldLink.ts:276-315 | what any line, also a short one, does to the areas, sizes, symbols and chunks read |
| `ReaderLaws.ItemsRead` | retrocpu_asm_ts/src/main/sdldLink.ts:300-306 | four numbers make an item, and up to three behind the last one are ignored |
| `ReaderLaws.ItemModes` | retrocpu_asm_ts/src/main/relWriter.ts:86-114 | an item's mode is 1 for bytes plus 2 for symbols |
| `RelRoundTrip.RoundTrip` | retrocpu_asm_ts/src/main/sdldLink.ts:264-317 | reading a written file back gives the areas, their sizes modulo 64K, the symbols in numbered order and every chunk with its items |
| `RelRoundTrip.ChunksPartition` | retrocpu_asm_ts/src/main/relWriter.ts:243-290 | chunks joined are the sorted words; each is consecutive, at most 14 bytes, and ends only at its limit or at a gap |
| `RelRoundTrip.FirstChunk` | retrocpu_asm_ts/src/main/relWriter.ts:253-287 | the first chunk is a prefix of at most 7 consecutive words |
| `RelRoundTrip.ItemsEncode` | retrocpu_asm_ts/src/main/relWriter.ts:268-283 | the numbers of an R record are the items of the relocations claimed, four each |
| `RelRoundTrip.ItemsDecode` | retrocpu_asm_ts/src/main/sdldLink.ts:300-306 | reading those numbers gives the items back |
| `RelRoundTrip.SymbolNumbersAgree` | retrocpu_asm_ts/src/main/relWriter.ts:174-203 | the number an item carries is the position of that very symbol's S line, up to the `s__`/`l__` spelling |
| `TwoPass.PassesAgree` | retrocpu_asm_ts/src/main/assembler.ts:446-545 | current area and every counter agree in both passes before every line iff every `.org`, `.ds`, `.blkw` and `AI`/`SI` sees the same size in both |
| `TwoPass.SettledSourcesAgree` | retrocpu_asm_ts/src/main/assembler.ts:446-545 | they agree when no sizing expression refers forward or to a name redefined later |
| `TwoPass.LineAgrees` | retrocpu_asm_ts/src/main/assembler.ts:600-753 | one line moves the counter alike in both passes iff its size agrees |
| `TwoPass.LabelsAreEmissionAddresses` | retrocpu_asm_ts/src/main/assembler.ts:450-469 | a label's value in the symbol table is the address at which the second pass emits or reserves its line |
| `TwoPass.ForwardReserveParts` | retrocpu_asm_ts/src/main/assembler.ts:507-513 | a concrete source, `.ds N` before `N .equ 4`, whose passes part |
| `TwoPass.EvalFrame` | retrocpu_asm_ts/src/main/expression.ts:345-493 | an expression over settled names evaluates alike in both passes |
| `TwoPass.StepsAddUp` | retrocpu_asm_ts/src/main/mn1613/mn1613_encoder.ts:253-265 | the chunks of a split immediate are at most 15, add up to it, and are as many as the first pass counts |
| `TwoPass.NoShorterSplit` | retrocpu_asm_ts/src/main/mn1613/mn1613_encoder.ts:253-265 | no list of four-bit steps that adds up to the immediate is shorter than the encoder's |
| `TwoPass.SplitImmediate` | retrocpu_asm_ts/src/main/mn1613/mn1613_encoder.ts:256-265 | the loop computes those chunks |
| `AssemblerLaws.SplitWords` | retrocpu_asm_ts/src/main/mn1613/mn1613_encoder.ts:253-265 | the words of a split `AI`/`SI` all carry the operation, all but the last add 15, and together they add the immediate; negative ones are refused |
| `AssemblerLaws.LongWords` | retrocpu_asm_ts/src/main/assembler.ts:698-708 | a two-word instruction is its opcode and its operand in 16 bits, refused iff an immediate does not fit |
| `AssemblerLaws.NameAsks` | retrocpu_asm_ts/src/main/expression.ts:73-103 | a lone name asks for a 16-bit relocation by symbol iff it is not local, by offset iff it is a label of one of the five areas |
| `AssemblerLaws.StarAsks` | retrocpu_asm_ts/src/main/expression.ts:105-145 | `*name` asks for a byte relocation iff the name is not local or lies in a zero page |
| `AssemblerLaws.FirstAsks` | retrocpu_asm_ts/src/main/assembler.ts:709-751 | the first operand that asks decides an instruction's relocation |
| `AssemblerLaws.KindsAre` | retrocpu_asm_ts/src/main/assembler.ts:383-402 | a name is local, global or external by where it is defined and declared, with its value and area |
| `AssemblerLaws.MentionsTokens` | retrocpu_asm_ts/src/main/assembler.ts:664-675 | the names an expression mentions are those among its tokens |
| `AssemblerLaws.EncodingNames` | retrocpu_asm_ts/src/main/assembler.ts:698-703 | externals count as 0 while instructions are encoded, defined names as themselves |
| `AssemblerLaws.SixteenBits` | retrocpu_asm_ts/src/main/mn1613/mn1613_encoder.ts:158-163 | a value from -32768 to 65535 is cut to 16 bits, any other is refused |
| `AssemblerLaws.RecordedSizes` | retrocpu_asm_ts/src/main/assembler.ts:409-424 | the recorded size is the largest counter of the areas of that name |
| `AssemblerLaws.RecordedAreas` | retrocpu_asm_ts/src/main/assembler.ts:409-424 | the recorded areas are those opened, but for an unnamed one without words |
| `AssemblerLaws.RecordedNoload` | retrocpu_asm_ts/src/main/assembler.ts:409-424 | an area is recorded as one without initial values iff it is `_WORK` or a used area of its name was opened so |
| `EmittedModules.EmittedIsWellFormed` | retrocpu_asm_ts/src/main/assembler.ts:582-754 | a good source leaves a module that meets every assumption of the link theorem iff its relocations against `_CODE` find that area recorded |
| `EmittedModules.LabelAreasNamed` | retrocpu_asm_ts/src/main/assembler.ts:409-424 | every local label lies in a recorded area iff none lies in `_CODE` or the unnamed area, or `_CODE` was opened, or words were counted in the unnamed area, or a global or checkpoint names `_CODE` |
| `EmittedModules.CodeNamed` | retrocpu_asm_ts/src/main/relWriter.ts:153-165 | exactly these make `_CODE` one of the areas written |
| `LabelAreas.AreasAgree` | retrocpu_asm_ts/src/main/assembler.ts:446-545 | before every line both passes are in the same area and have opened the same areas, also when their counters part |
| `LabelAreas.LabelArea` | retrocpu_asm_ts/src/main/assembler.ts:450-469 | a label's recorded area is the one the second pass is in at its line |
| `Globals.CollectGlobals` | retrocpu_asm_ts/src/main/relWriter.ts:136-151 | the loop over the symbol table pushes the specified entries |
| `Globals.SortedEntriesList` | retrocpu_asm_ts/src/main/relWriter.ts:136-151 | in whatever order the table is walked and the entries sorted, each global and external name is listed once with its value and area, and no local name |
| `Globals.ListedNumbered` | retrocpu_asm_ts/src/main/relWriter.ts:174-191 | every listed name gets a symbol number |
| `EmittedModules.EmissionHolds` | retrocpu_asm_ts/src/main/assembler.ts:600-753 | after every line: one word per address, addresses below the area's size, one relocation per word, each on its placeholder |
| `EmittedModules.SplitEmittedAsEncoded` | retrocpu_asm_ts/src/main/assembler.ts:709-729 | a split `AI`/`SI` is emitted as encoded iff no operand names a relocatable symbol; otherwise the relocation test rewrites its last word |
| `Samples.GlobalSplitIsCleared` | retrocpu_asm_ts/src/main/assembler.ts:709-729 | a concrete source: `AI R0, #N` with a declared global N of 20 encodes as two steps and is emitted with the second one cleared |
| `EmittedModules.SnapshotSize` | retrocpu_asm_ts/src/main/assembler.ts:409-424 | an area with a positive counter is recorded with that size |
| `Passes.AreaContext.SetPc` | retrocpu_asm_ts/src/main/assembler.ts:68-70 | sets the current area's counter modulo 64K and nothing else |
| `Passes.AreaContext.Switch` | retrocpu_asm_ts/src/main/assembler.ts:88-98 | switches area, creating it at 0; NOLOAD sticks |
| `Passes.RunFirstPass` | retrocpu_asm_ts/src/main/assembler.ts:432-548 | the first pass over mutable tables equals the specified run |
| `Passes.Emitter.Run` | retrocpu_asm_ts/src/main/assembler.ts:582-754 | the second pass, pushing words and relocations line by line, equals the specified run |
| `Passes.Emitter.EmitData` | retrocpu_asm_ts/src/main/assembler.ts:632-689 | the loop over a `.word` line's arguments |
| `Passes.Emitter.EmitCode` | retrocpu_asm_ts/src/main/assembler.ts:698-752 | encode, push the words, relocate the last one, move the counter |
| `Passes.Emitter.RelocateLast` | retrocpu_asm_ts/src/main/assembler.ts:709-751 | the first matching operand patches the last word and leaves one relocation |
| `Expression.ParseIffSpelled` | retrocpu_asm_ts/src/main/expression.ts:368-493 | the seven-level parser accepts a token list as a tree iff the list spells that tree with parentheses where precedence and left associativity need them |
| `Expression.PrintedEvaluates` | retrocpu_asm_ts/src/main/expression.ts:368-493 | any tree printed with the fewest parentheses evaluates, all tokens consumed, to the tree's value or error, whatever the operators mean |
| `Expression.EvaluatesOnlyPrinted` | retrocpu_asm_ts/src/main/expression.ts:368-493 | if evaluation succeeds and stray tokens are errors, the tokens spell a tree with that value |
| `Expression.RunAgrees` | retrocpu_asm_ts/src/main/expression.ts:368-493 | evaluating while parsing equals parsing first and evaluating the tree, failures included |
| `Expression.FewestKeepsMeaning` | retrocpu_asm_ts/src/main/expression.ts:368-493 | dropping needless parentheses changes neither value nor shape |
| `ExpressionLaws.Grouping` | retrocpu_asm_ts/src/main/expression.ts:398-491 | of two operators between three operands `*` `/` `%` are applied before `+` `-`, then the shifts, `&`, `^` and `|`, the left one first if they bind alike, for all operands |
| `ExpressionLaws.NumbersGroup` | retrocpu_asm_ts/src/main/expression.ts:398-491 | the same for any three numbers, errors included |
| `ExpressionLaws.SignsBindFirst` | retrocpu_asm_ts/src/main/expression.ts:368-396 | a sign or `~` applies to the operand behind it alone |
| `ExpressionLaws.NamesMean` | retrocpu_asm_ts/src/main/expression.ts:386-395 | a name is its value; an undefined one is 0 in the first pass and an error in the second |
| `ExpressionLaws.Sums` | retrocpu_asm_ts/src/main/expression.ts:398-431 | addition counts up, subtraction undoes it, multiplication is repeated addition, and a number and its negative add up to 0 |
| `ExpressionLaws.Divides` | retrocpu_asm_ts/src/main/expression.ts:398-418 | division and remainder fail for 0 alone; quotient times divisor plus remainder is the dividend, and the remainder is smaller than the divisor with the dividend's sign |
| `ExpressionLaws.BitByBit` | retrocpu_asm_ts/src/main/expression.ts:450-489 | `&`, `|` and `^` work on the low 32 bits one by one and give a signed 32-bit number |
| `ExpressionLaws.ShiftsUp` | retrocpu_asm_ts/src/main/expression.ts:437-447 | bit k of `<<` is bit k less the count modulo 32, in 16 bits |
| `ExpressionLaws.ShiftsDown` | retrocpu_asm_ts/src/main/expression.ts:437-447 | bit k of `>>` is bit k plus the count modulo 32 of the low 32 bits, in 16 bits |
| `ExpressionLaws.Complement` | retrocpu_asm_ts/src/main/expression.ts:384-384 | `~` inverts the low 16 bits and clears the others |
| `Expression.FirstPassAcceptsStray` | retrocpu_asm_ts/src/main/expression.ts:386-395 | for every symbol table, only token lists that spell a tree evaluate iff undefined names are refused; `3 + )` is what else does |
| `Expression.FirstPassReadsRepaired` | retrocpu_asm_ts/src/main/expression.ts:386-395 | with undefined names allowed, a token list evaluates iff it spells a tree with a value once every operator or `)` standing where an operand is due is read as 0, and then to that value |
| `Expression.Evaluator.ParsePrimary` | retrocpu_asm_ts/src/main/expression.ts:368-396 | advances the shared index as the specified primary level |
| `Expression.Evaluator.ParseLevel` | retrocpu_asm_ts/src/main/expression.ts:398-491 | the loop of one level over the shared index equals the specified chain |
| `Expression.Evaluator.Evaluate` | retrocpu_asm_ts/src/main/expression.ts:345-493 | the whole evaluation over the shared index, trailing tokens an error |
| `Handshake.SenderKeeps` | retrocpu_test_framework_rs/src/handshake_mock/io_control_sync.rs:217-247 | every lock scope of the sender keeps the joint invariant |
| `Handshake.ReceiverKeeps` | retrocpu_test_framework_rs/src/handshake_mock/io_control_sync.rs:159-182 | every lock scope of the receiver keeps the joint invariant |
| `Handshake.RunKeeps` | retrocpu_test_framework_rs/src/handshake_mock/io_control_sync.rs:159-247 | the invariant holds in every state of every interleaving |
| `Handshake.ReceivedIsPrefix` | retrocpu_test_framework_rs/src/handshake_mock/io_control_sync.rs:68-92 | in every reachable state the bytes received are a prefix of the zero-padded bytes sent; a receiver that is done holds the shortest prefix it asks nothing more after |
| `Handshake.ExactDelivery` | retrocpu_test_framework_rs/src/handshake_mock/io_control_sync.rs:68-92 | a receiver done with the sent length holds exactly the sent bytes |
| `Handshake.RankFalls` | retrocpu_test_framework_rs/src/handshake_mock/io_control_sync.rs:159-247 | a ranking falls with every step that is not a wait |
| `Handshake.RunsEnd` | retrocpu_test_framework_rs/src/handshake_mock/io_control_sync.rs:159-247 | no run has more than 12 steps per unit and 3 |
| `Handshake.StuckIffComplete` | retrocpu_test_framework_rs/src/handshake_mock/io_control_sync.rs:159-247 | a run that can go no further has both roles done and both wires down iff the receiver asks for as many units as are sent |
| `Handshake.NoDeadlock` | retrocpu_test_framework_rs/src/handshake_mock/io_control_sync.rs:159-247 | then no state before completion has both roles waiting |
| `Handshake.FairCompletes` | retrocpu_test_framework_rs/src/handshake_mock/io_control_sync.rs:159-247 | with equal units, a schedule, waits included, in which each role gets a turn in each of 12 windows per unit and 3 leaves both roles done and both wires down |
| `Handshake.FixedUnits` | retrocpu_test_framework_rs/src/handshake_mock/io_control_sync.rs:80-90 | a fixed-length receiver asks for the sent units iff the lengths agree in units |
| `Handshake.FramedUnits` | retrocpu_test_framework_rs/src/handshake_mock/io_control_sync.rs:34-66 | a frame-driven receiver asks for the sent units iff the declared length fills as many units as are sent, whatever the payload |
| `Handshake.Exchange.SenderTick` | retrocpu_test_framework_rs/src/handshake_mock/io_control_sync.rs:217-247 | one lock scope of the sender on the shared wires |
| `Handshake.Exchange.ReceiverTick` | retrocpu_test_framework_rs/src/handshake_mock/io_control_sync.rs:159-182 | one lock scope of the receiver on the shared wires |
| `Handshake.Exchange.Play` | retrocpu_test_framework_rs/src/handshake_mock/io_control_sync.rs:159-247 | any schedule of lock scopes reaches the specified state, keeps the invariant and the prefix property; both done means both wires are down |
| `Handshake.LacksUntilDeclared` | retrocpu_test_framework_rs/src/handshake_mock/cpu_to_io.rs:7-25 | a prefix of any stream lacks bytes iff it is shorter than the declared length, although the estimate jumps at the third byte |
| `Handshake.LacksTheRest` | retrocpu_test_framework_rs/src/handshake_mock/cpu_to_io.rs:7-25 | what a frame lacks completes it to the length declared so far |
| `Handshake.DeclaredLengths` | retrocpu_test_framework_rs/src/handshake_mock/types.rs:53-70 | the length of every command's frame, on both boards |
| `Handshake.ReceiveFramedAdaptive` | retrocpu_test_framework_rs/src/handshake_mock/io_control_sync.rs:34-66 | the loop terminates, returns a prefix of the units' bytes from ceil(n/2) units, and stops only when nothing lacks or the units end |
| `Handshake.FrameRead` | retrocpu_test_framework_rs/src/handshake_mock/io_control_sync.rs:34-66 | for a stream that carries a frame the result has exactly the declared length: 1Ah with count up to 4 gives 11 + entries, above that 11 |
| `Handshake.FrameDelivery` | retrocpu_test_framework_rs/src/handshake_mock/io_control_sync.rs:34-66 | over the wires, in every interleaving, a frame-driven receiver that is done holds exactly the declared length of what is sent |
| `Heap.WordHeap.Malloc` | retrocpu_test_framework_ts/src/mn1613/heap.ts:116-140 | hands out the lowest address with n free words and fails iff there is none; no other block changes |
| `Heap.WordHeap.Free` | retrocpu_test_framework_ts/src/mn1613/heap.ts:147-154 | gives back exactly the live block at the address modulo 16 bits, or changes nothing |
| `Heap.WordHeap.Coalesce` | retrocpu_test_framework_ts/src/mn1613/heap.ts:182-193 | the loop rewrites the list to the specified merge of neighbouring free spans |
| `Heap.WordHeap.Reset` | retrocpu_test_framework_ts/src/mn1613/heap.ts:106-108 | one free span again |
| `Heap.WordHeap.SizeOf` | retrocpu_test_framework_ts/src/mn1613/heap.ts:162-169 | the size of the live block at the address, or nothing iff there is none |
| `Heap.WordHeap.IsAllocated` | retrocpu_test_framework_ts/src/mn1613/heap.ts:176-179 | true iff a live block starts at the address |
| `Heap.WordHeap.Create` | retrocpu_test_framework_ts/src/mn1613/heap.ts:74-93 | refuses exactly the ranges outside the 16-bit space |
| `Heap.ResolveMallocRange` | retrocpu_test_framework_ts/src/mn1613/heap.ts:25-46 | every range it yields is one the heap accepts |
| `Heap.RangeAsked` | retrocpu_test_framework_ts/src/mn1613/heap.ts:25-46 | the range asked for, from 1800h to F800h where nothing is said, is refused exactly if it is empty or leaves the 16-bit space |
| `Heap.RunInSpan` | retrocpu_test_framework_ts/src/mn1613/heap.ts:182-193 | free room of n words always lies inside one free span |
| `Heap.FirstFitIsLowest` | retrocpu_test_framework_ts/src/mn1613/heap.ts:120-136 | the first span that fits is the lowest free place for n words |
| `Heap.NoFit` | retrocpu_test_framework_ts/src/mn1613/heap.ts:120-139 | if no span fits there is no free run of n words anywhere |
| `Heap.LiveDisjoint` | retrocpu_test_framework_ts/src/mn1613/heap.ts:116-155 | live blocks never overlap and lie inside the heap |
| `Heap.Canonical` | retrocpu_test_framework_ts/src/mn1613/heap.ts:182-193 | two valid span lists with the same live blocks are the same list |
| `Heap.MallocMeets` | retrocpu_test_framework_ts/src/mn1613/heap.ts:116-140 | on any tiled heap the lowest room is taken, or the request refused iff there is none, and the tiling stays |
| `Heap.FreeMeets` | retrocpu_test_framework_ts/src/mn1613/heap.ts:147-154 | giving back and merging keeps the tiling and takes away exactly the live block at the address |
| `Heap.MergedKeeps` | retrocpu_test_framework_ts/src/mn1613/heap.ts:182-193 | the merge of any tiling keeps it and its live blocks and leaves no two free neighbours |
| `Heap.RunKeeps` | retrocpu_test_framework_ts/src/mn1613/heap.ts:106-155 | every state of every run of malloc, free and reset, each the function its method computes, tiles the heap with positive sizes and no neighbouring free spans |
| `Heap.BlocksStay` | retrocpu_test_framework_ts/src/mn1613/heap.ts:116-155 | over any run a block keeps its place and size until it is given back |
| `Heap.StepDetermined` | retrocpu_test_framework_ts/src/mn1613/heap.ts:106-155 | any valid list that meets an operation's promise about live blocks is the list the heap leaves |
| `Heap.FreeUndoesMalloc` | retrocpu_test_framework_ts/src/mn1613/heap.ts:116-155 | malloc followed by free of its result returns true and restores the identical list |
| `Heap.FreeAll` | retrocpu_test_framework_ts/src/mn1613/heap.ts:147-154 | freeing all live blocks, in any order, leaves the single initial span |
| `DebugStream.NeedIsStable` | retrocpu_emu_ts/src/ioboard/debug_addr_break.ts:123-135 | bytes that arrive later never change the length of a complete frame |
| `DebugStream.FramesByCommand` | retrocpu_emu_ts/src/ioboard/debug_addr_break.ts:123-149 | the length of every command's frame; a byte that is no command is a frame of its own |
| `DebugStream.Replied` | retrocpu_emu_ts/src/ioboard/debug_host.ts:155-169 | a failed dispatch is answered by 01h, any other by its own reply |
| `DebugStream.DeframeKeepsBytes` | retrocpu_emu_ts/src/ioboard/debug_host.ts:147-153 | frames and rest joined are the stream |
| `DebugStream.DeframeMore` | retrocpu_emu_ts/src/ioboard/debug_host.ts:147-174 | a stream deframes piece by piece with the rest carried over |
| `DebugStream.NextKeeps` | retrocpu_emu_ts/src/ioboard/debug_host.ts:144-174 | every data or completion event keeps the invariant: dispatched frames then buffer are the bytes received, one dispatch in flight, an idle buffer holds no complete frame |
| `DebugStream.RunKeeps` | retrocpu_emu_ts/src/ioboard/debug_host.ts:144-174 | for any segmentation and timing the invariant holds and the replies are the dispatcher's answers in order |
| `DebugStream.CutsDoNotMatter` | retrocpu_emu_ts/src/ioboard/debug_host.ts:144-174 | two idle runs over the same bytes dispatched the same frames, the greedy deframing |
| `DebugStream.Connection.Pump` | retrocpu_emu_ts/src/ioboard/debug_host.ts:147-170 | hands at most one complete frame to the dispatcher, and only when none is there |
| `DebugStream.Connection.OnData` | retrocpu_emu_ts/src/ioboard/debug_host.ts:171-174 | appends the chunk, pumps, keeps the invariant |
| `DebugStream.Connection.OnDone` | retrocpu_emu_ts/src/ioboard/debug_host.ts:155-169 | writes the reply (NG after an exception), pumps, keeps the invariant |
| `DebugStream.RequestIsFrame` | retrocpu_emu_ts/src/ioboard/debug_addr_break.ts:123-149 | an encoded request is cut off whole in front of any bytes iff it is not a write of more than 65536 bytes |
| `DebugStream.OversizedReadAsRequests` | retrocpu_emu_ts/src/ioboard/debug_addr_break.ts:123-149 | a write of more than 65536 bytes is deframed as its 9-byte header and then its data as if they were requests |
| `DebugStream.ParseEncoded` | retrocpu_emu_ts/src/ioboard/debug_mem_write.ts:26-68 | requests parse back from their encoding; an oversized write does not, whole or cut |
| `DebugStream.EncodeParsed` | retrocpu_emu_ts/src/ioboard/debug_addr_break.ts:62-107 | a frame that parses is the encoding of what it parses to |
| `DebugStream.EncodeWrite` | retrocpu_emu_ts/src/ioboard/debug_mem_write.ts:26-44 | the array filled position by position is the specified frame |
| `DebugStream.RequestsDeframe` | retrocpu_emu_ts/src/ioboard/debug_host.ts:147-153 | requests sent back to back are dispatched one frame each |
| `IntelHex.WalkIntelHexData` | retrocpu_emu_ts/src/code_test/intel_hex.ts:41-86 | the record loop with its base, checks and early end computes the specified pieces |
| `IntelHex.ChecksumCloses` | retrocpu_asm_ts/src/main/sdldLink.ts:59-63 | a record sums to zero with exactly one last byte |
| `IntelHex.LoadIntelHex` | retrocpu_emu_ts/src/code_test/intel_hex.ts:104-140 | memory holds the writes in record order; accepted iff the text is sound and all addresses fit; on an error exactly the writes before it were made; count, minimum and maximum are those of the writes |
| `IntelHex.IntelHexToDmaPlan` | retrocpu_emu_ts/src/code_test/intel_hex.ts:147-177 | the plan makes the same single-byte writes in the same order as the loader, with the same count, minimum and maximum, and no chunk starts where its predecessor ends |
| `IntelHex.MergePieces` | retrocpu_emu_ts/src/code_test/intel_hex.ts:149-157 | appending in place to the last chunk keeps the writes |
| `IntelHex.SummarizeChunks` | retrocpu_emu_ts/src/code_test/intel_hex.ts:162-175 | totals over chunks equal totals over bytes |
| `IntelHex.PlanIsDetermined` | retrocpu_emu_ts/src/code_test/intel_hex.ts:147-177 | there is only one plan with those writes and no touching chunks |
| `IntelHex.Extremes` | retrocpu_emu_ts/src/code_test/intel_hex.ts:125-139 | the recorded minimum and maximum are attained and bound every address written |
| `HexPrinters.PrintedWalks` | retrocpu_emu_ts/src/code_test/intel_hex.ts:41-98 | printed text passes the checksum and end-record checks and reads back piece for piece, addresses modulo 64K |
| `HexPrinters.WordsToIntelHex` | retrocpu_emu_ts/src/code_test/intel_hex.ts:193-212 | the loop prints the payload in slices of 16 bytes |
| `HexPrinters.WordsLoad` | retrocpu_emu_ts/src/code_test/intel_hex.ts:193-212 | the text is always accepted, and loads as the big-endian words from twice the word address iff its last record starts below 64K |
| `HexPrinters.BytesToIntelHex` | retrocpu_asm_ts/src/main/sdldLink.ts:93-113 | the nested loops print every byte of the map once, in address order, in records of at most 16 that end early only before a hole |
| `HexPrinters.ReadChunk` | retrocpu_asm_ts/src/main/sdldLink.ts:98-106 | the inner loop takes consecutive keys, at most 16 |
| `HexPrinters.ParseIntelHex` | retrocpu_asm_ts/src/main/sdldLink.ts:70-87 | the loops build the specified map: every byte the length field promises, a missing one undefined |
| `HexPrinters.SparseRoundTrip` | retrocpu_asm_ts/src/main/sdldLink.ts:70-114 | parsing the printed map gives the map back iff every record starts below 64K, so for every map with keys below 64K |
| `HexPrinters.PrintedMapReads` | retrocpu_asm_ts/src/main/sdldLink.ts:70-114 | what the printer returns for a map with keys below 64K parses back to the map and loads as exactly its bytes |
| `HexPrinters.LinkedTextLoads` | retrocpu_asm_ts/src/main/sdldLink.ts:93-114 | the emulator's loader accepts what the linker prints and, under the same condition, writes exactly the map |
| `Macros.ReadBlockBody` | retrocpu_asm_ts/src/main/macros.ts:253-282 | the depth loop returns the body up to the matching `.endm`, or fails when there is none |
| `Macros.ScanOver` | retrocpu_asm_ts/src/main/macros.ts:253-282 | the scan passes nested source as if it were not there |
| `Macros.BodyOfNest` | retrocpu_asm_ts/src/main/macros.ts:253-282 | on properly nested source the body is exactly the text up to the matching `.endm` |
| `Macros.BodyIsNest` | retrocpu_asm_ts/src/main/macros.ts:253-282 | whatever body is returned is properly nested |
| `Macros.ExtractMacros` | retrocpu_asm_ts/src/main/macros.ts:290-338 | the line loop computes the specified table and remaining source, or the error |
| `Macros.ExtractNest` | retrocpu_asm_ts/src/main/macros.ts:290-338 | on nested source it deletes exactly the top-level definitions, keeps all else in order, and fails iff one is nameless or repeated |
| `Macros.ExtractedIsNest` | retrocpu_asm_ts/src/main/macros.ts:290-338 | it succeeds on properly nested source only |
| `MacroExpansion.ExpandedDone` | retrocpu_asm_ts/src/main/macros.ts:381-528 | a successful expansion leaves no `.rept`, `.irp`, `.irpc`, `.mexit` and no name in the macro table, label merging included, whatever the text functions are |
| `MacroExpansion.LabelledDone` | retrocpu_asm_ts/src/main/macros.ts:503-522 | moving a call's label to the first expanded line leaves nothing to expand |
| `MacroLaws.ArgsBound` | retrocpu_asm_ts/src/main/macros.ts:491-494 | every dummy argument, in capitals, is bound to the actual one in its place, a missing one to nothing; of two alike the later counts; nothing else is bound |
| `MacroLaws.CallYields` | retrocpu_asm_ts/src/main/macros.ts:484-522 | a call in front of any lines yields the expansion of its body up to `.mexit`, each line substituted under that binding and the next number, with the call's label in front, then the other lines |
| `MacroLaws.PlainCallYields` | retrocpu_asm_ts/src/main/macros.ts:484-522 | a call whose substituted body holds nothing to expand yields exactly that body, with the label kept |
| `MacroLaws.TooManyArguments` | retrocpu_asm_ts/src/main/macros.ts:486-490 | more actual than dummy arguments are an error |
| `MacroLaws.NestedTooDeep` | retrocpu_asm_ts/src/main/macros.ts:381-388 | more than 64 expansions inside one another are an error |
| `MacroLaws.RepeatYields` | retrocpu_asm_ts/src/main/macros.ts:402-470 | a repeat around a nested body yields one substituted copy per round in order: n copies for `.rept n`, one per argument for `.irp`, one per character for `.irpc` |
| `MacroLaws.OtherLineStays` | retrocpu_asm_ts/src/main/macros.ts:472-482 | a line that is no repeat, `.mexit` or call stays as it is |
| `MacroExpansion.NumbersDiffer` | retrocpu_asm_ts/src/main/macros.ts:350-368 | in one pass the numbers put for `?` rise strictly from expansion to expansion, nested ones included, so no two expansions share one |
| `MacroExpansion.Expander.ExpandLines` | retrocpu_asm_ts/src/main/macros.ts:381-528 | the recursive expansion with its shared counter equals the specified one and terminates by depth left, then lines left |
| `MacroExpansion.Expander.RunRounds` | retrocpu_asm_ts/src/main/macros.ts:402-415 | the loop over a repeat's rounds |
| `MacroExpansion.Expander.Call` | retrocpu_asm_ts/src/main/macros.ts:484-503 | a call binds its arguments, counts up and expands the body, or fails on too many arguments |
| `MacroExpansion.Expander.ExpandBodyLines` | retrocpu_asm_ts/src/main/macros.ts:350-368 | substitutes up to the first `.mexit` and expands one level deeper |
| `MacroPasses.ExpandMacros` | retrocpu_asm_ts/src/main/macros.ts:540-555 | the pass loop equals the specified iteration of at most 32 passes |
| `MacroPasses.ResultIsPlain` | retrocpu_asm_ts/src/main/macros.ts:540-555 | a result holds no directive of any kind, and expanding it again returns it |
| `MacroPasses.FixpointsArePlain` | retrocpu_asm_ts/src/main/macros.ts:540-555 | the sources left unchanged are exactly the directive-free ones whose text does not mention `.macro` |
| `MacroPasses.UnchangedIsPlain` | retrocpu_asm_ts/src/main/macros.ts:545-551 | a pass that changes nothing, without `.macro` lines, means that there was nothing to do |
| `Tms9995.FirstWordFixesLength` | retrocpu_asm_rs/src/tms9995/tms9995_encoder.rs:323-589 | the first word alone gives the number of words |
| `Tms9995.SizeIsLength` | retrocpu_asm_rs/src/tms9995/tms9995_encoder.rs:314-317 | for an instruction that can be assembled, `instruction_size` is its encoded length, whatever the symbols stand for and wherever it goes, or fails, exactly if the sizing pass cannot evaluate an operand |
| `Tms9995.FillIs` | retrocpu_asm_rs/src/tms9995/tms9995_encoder.rs:323-589 | putting operand values in changes nothing else, and two evaluations give the same instruction iff they agree on the expressions listed |
| `Tms9995.MissingValue` | retrocpu_asm_rs/src/tms9995/tms9995_encoder.rs:323-589 | one operand that cannot be evaluated makes the instruction an error |
| `Samples.DividesByUndefined` | retrocpu_asm_rs/src/tms9995/tms9995_encoder.rs:314-317 | a concrete instruction, `LI R0, #10/N` with N not 0: it has two words, and the sizing pass fails to divide by the undefined name |
| `Tms9995.SameWordsSameInstruction` | retrocpu_asm_rs/src/tms9995/tms9995_encoder.rs:323-589 | two instructions at one address share their words iff they differ in spelling only |
| `Tms9995.UniquelyDecodable` | retrocpu_asm_rs/src/tms9995/tms9995_encoder.rs:323-589 | two programs encode to the same words from the same address iff they are equal up to NOP = JMP next, RT = B (R11) and a transfer of 0 = 16 bits |
| `Tms9995Decoder.DecodesEncoded` | retrocpu_asm_rs/src/tms9995/tms9995_encoder.rs:186-589 | a decoder written from the bit layout reads operation, modes, registers, counts, values and jump targets back from the words of everything the encoder accepts, up to the three spellings |
| `Tms9995Decoder.JumpReaches` | retrocpu_asm_rs/src/tms9995/tms9995_encoder.rs:424-442 | a jump's signed low byte, doubled and counted from the next instruction, is its target, and encoding succeeds iff some byte reaches it |
| `Tms9995Decoder.EncodesIff` | retrocpu_asm_rs/src/tms9995/tms9995_encoder.rs:323-589 | the encoder refuses exactly addresses indexed by R0, numbers outside their field and targets out of reach |
| `Tms9995.FormatFits` | retrocpu_asm_rs/src/tms9995/tms9995_encoder.rs:186-311 | the opcode ranges of the formats do not overlap |
| `Tms9995.SameAddr` | retrocpu_asm_rs/src/tms9995/tms9995_encoder.rs:177-184 | address field and extra words determine the addressing operand |

## Left out

- Text: regular expressions, trimming, comments, number and character literals, include expansion and the grammar; lines, tokens and operands are records already split, and hex digits are bytes already read. The text functions of the macro expander are arbitrary functions, and the theorems hold for all of them.
- The linker itself, its command file and its map: it appears as the assumption `LinkTheorem.Linked`, which says nothing of 8-bit fields, since the fixup overwrites them.
- LinkTheorem.FieldLinked: does not model the TMS9995 variant of the fixup, whose doubling depends on what the external linker leaves in `_VECTOR`, and the TMS9995 branch of the assembler passes.
- Passes.RunFirstPass: the table of line areas and the line addresses of `.ds`, which only listings use, and the opcode table; an instruction is one word, two words, or an `AI`/`SI` split by its immediate, with its first word given.
- Passes.Emitter.EmitData: string arguments of `.word` are already expanded, and an external difference `A - B`, which the source always refuses, does not occur.
- EmittedModules.EmittedIsWellFormed: sources that move `.org` backward, use both the unnamed area and `_CODE`, or pass half the word address space are outside its assumptions; such sources can place two words at one address. Modules whose areas or symbols are too many to number in 16 bits are outside it too.
- Toolchain.ReferenceReachesLine: labels overwritten by a later `.equ` have no single line to reach and are outside it.
- Toolchain.GlobalReferenceReachesLine: which names the linker takes from which module; that its map is made from the S lines of the files is an assumption (`Toolchain.DefsTold`).
- RelWriter.WriteArea: the flags and the address field of A lines; that `_VECTOR` is an overlay is part of the linker's rule.
- RelWriter.WriteRel: the order `localeCompare` gives to global names; the list handed over is in any order.
- Expression values beyond 53 bits, where the source's numbers round.
- Handshake: time-outs, polling, poisoned locks, the request lines before and after a transfer, and the mock board that clears DENA by itself; a time-out in the framed receiver is the end of the units.
- Macro expander: numbers put for `?` restart in every pass, so those of two passes may agree. A name defined only in an earlier pass is an unknown operation in later ones and is kept as such.
- DebugStream.Connection.OnDone: closed sockets and the handlers behind the dispatcher; a handler's result is whatever the completion event carries.
- HexPrinters.BytesToIntelHex: the sorted key list is an argument, as the sort is the library's.
- Tms9995.SizeIsLength: operand syntax and the errors of malformed operands; instructions are already parsed, and evaluation is any partial function of an operand.
- The CPU cores, DMA gate, comparators, disassemblers, user interfaces, command handlers, test runner, CDB and checkpoint tools, and the Rust duplicates of the assembler and writer.
