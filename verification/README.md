# Verified models of the object-file library BFD

This project models the parts of `src/bfd` whose correctness rests on several functions agreeing with each
other, and proves that they do. `dafny verify dfyconfig.toml` checks all of it.

| files | what they model |
|---|---|
| `Words.dfy` | bytes, 32-bit words, the two byte orders |
| `BoutSort.dfy`, `BoutRelax.dfy`, `Layout.dfy`, `BoutReach.dfy`, `BoutCopy.dfy`, `BoutAgree.dfy`, `BoutCalls.dfy`, `BoutSharing.dfy` | i960 b.out: the sorted relocation table, the pass that shortens calls and padding, the in-place relocating copy that must remove the same bytes, their agreement, and where every branch of the output goes |
| `AoutTypes.dfy`, `AoutReloc.dfy` | type codes; extended a.out relocations, linked in one stage or in several |
| `AoutIncludes.dfy`, `AoutSymbolValues.dfy`, `AoutSymbolRun.dfy`, `AoutStrip.dfy`, `AoutSymbols.dfy` | the symbol table of an a.out link over all inputs: indices, values, duplicate headers, what is stripped |
| `AoutZMagic.dfy` | section layout of a demand paged executable |
| `ArchiveFormat.dfy`, `ArchiveMap.dfy`, `ArchiveNames.dfy`, `ArchiveWriter.dfy`, `ArchiveReader.dfy`, `ArchiveRoundTrip.dfy` | archives: symbol map, name table, members, written and read back |
| `AlphaGpdisp.dfy`, `AlphaDecode.dfy` | the Alpha ldah/lda pair and the predicting decompressor |
| `CacheSpec.dfy`, `FileCache.dfy` | the file descriptor cache: what clients and eviction see of it, and the ring itself |

Loops and objects of the source are methods and classes with the source's fields. Each is proved against a
specification function, and the laws are proved about that function; what it computes is said there in the source's own
numbers and fields, without the function. Where a law is about a whole run (a relaxing
pass, a copy), the run is a datatype that carries the states between the steps, so that the laws quantify over every
run. `hide` statements keep definitions folded in proofs that do not need them.

## What the models say

**Relaxation.** `Run` is the state after each relocation of a relaxing pass; `RelaxSection` computes it on arrays.
`Layout` is a theory of pieces cut out of a section; `BoutReach` shows the pass to be an instance of it. From there:
symbols follow their bytes and keep their order, padding ends aligned, and a shortened call still reaches what it was
tested for at the end of the pass, because later slips only bring targets closer. `CopyAgrees` is the simulation
argument of the in-place copy: at each relocation the read cursor is ahead of the write cursor by the shrink accumulated
there. `FieldWord` says that each relocated word stands at its final place, and `AddressWord` and `LongCallWords` what
is in a word that holds an address: what was there, the addend, and the final address of its symbol, whether of the
section, elsewhere or in the hash table.

Where branches go is `LandsIff`, for every 24-bit field: decoded at its final place, it goes to the final value of the
symbol it aims at if and only if that is within 24 bits and the field holds nothing besides the distance
(`LandsOutsideIff` for symbols that are not in the section). Shortened calls meet this: their operand was 0, and they
reach what they were tested for (`ShortCallLands`). Three things fail. First, the words of PCREL24, PCREL13 and ordinary
CALLJ relocations are made relative to the section and not to their own place, although relaxation has moved them: a
branch whose old field makes up for its old address misses by the bytes removed before it, so it lands if and only if
there are none, modulo 2^24 (`MissesByShrink`, `BranchMisses`; `Lands13Iff` for 13 bits); a CALLJ to a leaf lands only
if its old field was 0, and a call the assembler has resolved only if as many bytes are removed before its destination
as before itself (`ResolvedCallLandsIff`). Second, for a leaf procedure, whose call entry (`N_CALLNAME`) is followed by
a `bal` entry, `abs32code` measures the distance to the call entry, and `callj_callback` then stores the distance to the
`bal` entry: the stored `bal` lands on it if and only if its final displacement is in [-2^23, 2^23)
(`ShortCallLandsIff`), which holds if it, too, passes the test (`ShortCallReaches`), in particular if it is in reach
before the pass begins (`InReachFromTheStart`); `FarLeafMisses` is an input where it is not and the `bal` goes 16
megabytes astray. Third, `calljx_callback` reads the word before the operand again from the buffer being overwritten:
`SharingHarmlessIff` says that copying in place gives what copying into another buffer gives, whatever the section
holds, if and only if no long call to a leaf stands behind exactly two removed bytes; `FarLeafSpoilt` is a section with
such a call. A call against a system procedure becomes `calls` and holds no distance, and a shortened one against a
section symbol runs into the source's own assertion (`NoDistance`).

**Linking in stages.** `TwoStages` compares a relocateable link followed by a final link with one final link, for every
legal record, whose value and rewritten form `FinalValueIs` and `RewriteIs` give type by type; the two differ by an
explicit `Discrepancy`, and `WhenStagesAgree` turns that into a condition for each kind of record: a symbol's PC
relative relocation converted to a section relocation survives if and only if the source section's vma is 0. Section
relocations survive any number of stages, RELOC_PC10 and RELOC_PC22 if and only if the last link finds the source
section where the first one did (`ManyStages`).

**Output symbols.** `Settled` says that slot i of the symbol table is at the initial `symoff` plus 12 i, `Owned` that
every index names the record of its entry and no entry but a warning has two; every method of `Linker` keeps both, so
they hold over a whole `FinalLink`, at whose end each wanted entry's record is in the file at its index, with the name
of the entry and the type and value that its kind, or one of the inputs' symbols for it, gives (`RecordOf`). For each
input, `TurnRight` keeps to the end of the link what its turn left, which `Outcome` spells out, and that the index given
to each of its relocations names the record of its symbol (`RightIndex`); `SeenEarlier` says that the headers an input
finds seen are exactly those of the inputs before it. What is stripped is `StripOutcome`: option by option, a symbol on
its own account, that is no target and in no replaced header, has a record if and only if it is kept; and no record of
the link is there but for an entry whose name is kept, or one that a relocation refers to, or, unless everything is
stripped, another symbol of an input. Three things the code does that its comments do not say: a stripped weak undefined
symbol that a relocation needs is not output, because the case of `aout_link_write_other_symbol` for it runs into the
next one, and the relocation gets index -2 (`RelocIndex`); the external bit turns the type codes of weak data and weak
absolute symbols into those of weak bss and weak text (`TypeSaysWhere`); a skipped header keeps the headers inside it,
each judged on its own.

**Archives.** `WriteContents` writes names, map, table and members; `MapPredictsWriter` says that each offset in the
map, computed before the members are written, is where the member goes. `Reader` is the reading side with its element
cache, and `WriteAndRead` is the round trip on both classes: all members of the caller's chain but leading ones named
like a map, and a map that has for each the symbols it exports, as often as it exports them. Exact conditions: a long
name survives if and only if it has no newline and no backslash; a name of exactly the maximal length is cut at its
first space, or taken for an index if it begins with one and there is a name table; a walk moves on if and only if the
size field is not so negative, or so large, that the next position is no later one; a first member named like a map or a
name table is mistaken for one if the archive has none.

**Descriptor cache.** `CacheSpec` is a machine over operations: one stream per file, the order of use, and which streams
may be read. What was written to a place is read back from there (`WrittenIsReadBack`). `Run` computes it on the ring,
for every sequence of operations, and ends as permanently open streams would if and only if nobody reads bytes through a
stream that was created write only and has been closed by the cache since (`InvisibleIff`); so it does if only files
opened for reading, or for both by `bfd_fdopenr`, are read (`InvisibleToReaders`, `FdOpen`). `EvictionShows` is a run of
13 operations in which the cache shows.

## Model

| member | source | states |
|---|---|---|
| BoutSort.TableIsStableSort | src/bfd/bout.c:709-727 | the relocation table is sorted by address, holds exactly the file's relocations, and keeps the file's order among equal addresses |
| BoutSort.InsertLast | src/bfd/bout.c:711-722 | shifting in place puts the latest relocation behind the last one not beyond it and leaves the rest of the array alone |
| BoutSort.SlurpTable | src/bfd/bout.c:709-728 | the table of the decoded records is the stable insertion of each in turn; comparing with the last address alone decides rightly |
| BoutRelax.PerformSlip | src/bfd/bout.c:1065-1102 | every symbol of the section beyond the slip point, and its hash entry, moves down by the slip; nothing else changes |
| BoutRelax.ShortenCall | src/bfd/bout.c:1108-1141 | one step of `abs32code` on the arrays is the specified step, slips included |
| BoutRelax.ShrinkPadding | src/bfd/bout.c:1143-1186 | one step of `aligncode` on the arrays is the specified step, slips included |
| BoutRelax.RelaxSection | src/bfd/bout.c:1188-1257 | the whole pass leaves relocations, symbols and cooked size of the specified run, and hash entries still repeat their symbols' values |
| Layout.SymbolFollows | src/bfd/bout.c:1065-1102 | if every cut slips what lies beyond its start, a value outside the cuts is at each moment where its byte is by then |
| Layout.SymbolLands | src/bfd/bout.c:1065-1102 | any value, inside a cut or not, takes part in exactly the slips of the cuts that start before it, unless they take it below the section |
| Layout.OrderKept | src/bfd/bout.c:1065-1102 | moving positions by the cuts before them keeps their order, also across cuts |
| Layout.InsideKept | src/bfd/bout.c:1188-1257 | a position of the section stays inside the shrunk section |
| Layout.StillInReach | src/bfd/bout.c:1108-1141 | a target in reach when its call was shortened is in reach at the end, because later cuts between them only bring it closer |
| BoutReach.StepFacts | src/bfd/bout.c:1108-1186 | whichever branch a step takes, it removes what the layout says, and only from its own extent |
| BoutReach.SymbolsFollowBytes | src/bfd/bout.c:1143-1186 | a symbol outside shortened instructions and padding ends at its old value less all shrink before it, inside the cooked section |
| BoutReach.SymbolsKeepOrder | src/bfd/bout.c:1065-1186 | two such symbols keep their order over the whole pass |
| BoutReach.PaddingStaysAligned | src/bfd/bout.c:1143-1186 | each aligner shrinks by more than 0 and less than 2(size+1), the first byte behind it lands on a multiple of size+1, and what is left of the padding is at most size |
| BoutReach.ShortenedIff | src/bfd/bout.c:1108-1141 | a call is shortened, by four bytes, if and only if at its turn the 32-bit distance from the end of the short instruction to the address of its symbol, there or in the hash table, is within 24 bits |
| BoutReach.ShortCallReaches | src/bfd/bout.c:1108-1141 | for a call that holds a distance, the displacement from the shortened instruction to what it holds is in [-2^23, 2^23) after the whole pass: always for the symbol the pass tested, and for a leaf's `bal` entry if that passes the test |
| BoutReach.InReachFromTheStart | src/bfd/bout.c:1108-1141 | a symbol within 2^23 of the long call before the pass passes the test when its turn comes |
| BoutReach.GapIsExact | src/bfd/bout.c:1116-1125 | within one section the 32-bit test computes the true distance |
| BoutCopy.CopySection | src/bfd/bout.c:1316-1429 | the in-place loop leaves in front exactly the specified section: every relocated field and every plain byte comes from the untouched original, only the word before a long leaf call's operand from the shared buffer |
| BoutCopy.CopyRun | src/bfd/bout.c:1333-1337 | moving a run forward in the shared buffer copies original bytes only |
| BoutCopy.ApplyReloc | src/bfd/bout.c:1339-1426 | each case stores the field specified on the original bytes, and the cursors move as specified |
| BoutCopy.Prefix | src/bfd/bout.c:1316-1429 | what the copy has written stays written through all later relocations |
| BoutAgree.CopyAgrees | src/bfd/bout.c:1316-1429 | at every relocation source minus destination equals the shrink the pass had accumulated; the assertions hold, destination never overtakes source, and the loop ends at the cooked size |
| BoutAgree.RelaxAndCopy | src/bfd/bout.c:1188-1438 | both passes in a row on the code's own arrays give the specified relocated section of the relaxed input |
| BoutAgree.BytesFollow | src/bfd/bout.c:1316-1429 | each byte outside relocations is found in the output where relaxation says it went |
| BoutAgree.FieldWord | src/bfd/bout.c:1339-1426 | every relocated word but that of a long call stands at its final place in the output and is what its case makes of the original word for that place |
| BoutCalls.AddressWord | src/bfd/bout.c:1349-1356 | every ABS32 word stands at its final place and is the original word plus addend plus the final address of its symbol, the address elsewhere or in the hash table, the size of a common symbol, or nothing for one not found, modulo 2^32 |
| BoutCalls.LandsIff | src/bfd/bout.c:389-449 | every branch with a 24-bit field, shortened, CALLJ or PCREL24, to a symbol of the section, decoded in the output at its own final offset, goes to the final value of what it aims at if and only if that is within 24 bits and the surplus, of old field, second addend and uncorrected place, is 0 modulo 2^24; calls get their opcode, others keep it |
| BoutCalls.LandsOutsideIff | src/bfd/bout.c:389-449 | the same for a symbol elsewhere or in the hash table; a `bal` entry is not looked up there |
| BoutCalls.ShortCallLandsIff | src/bfd/bout.c:389-449 | a shortened call is a `call`, or a `bal` to a leaf, and goes to the final value of what it holds if and only if that is within 24 bits and the long call's operand was 0 there |
| BoutCalls.ShortCallLands | src/bfd/bout.c:1108-1438 | hence every shortened call with operand 0 to an ordinary symbol lands on it, and one to a leaf if its `bal` entry passes the test |
| BoutCalls.MissesByShrink | src/bfd/bout.c:1383-1402 | a branch that was short before, with the field minus its old address, goes short of its symbol by the bytes removed before it: within 24 bits it lands if and only if their number is 0 modulo 2^24 |
| BoutCalls.BranchMisses | src/bfd/bout.c:1383-1402 | a branch behind a shortened call, in reach all the time, goes four bytes short |
| BoutCalls.Lands13Iff | src/bfd/bout.c:1404-1425 | a compare-and-branch keeps its other bits, and lands if and only if its symbol is within 13 bits and old field, addend and place add up to 0 modulo 2^13 |
| BoutCalls.Lands13OutsideIff | src/bfd/bout.c:1404-1425 | the same for a symbol that is not in the section |
| BoutCalls.NoDistance | src/bfd/bout.c:406-436 | a call to a system procedure becomes `calls` with its number; one against a section symbol keeps its word, which for a shortened one, asserted away by the source, is the bare operand |
| BoutCalls.ResolvedCallLandsIff | src/bfd/bout.c:429-437 | a call that the assembler resolved goes where its destination went if and only if as many bytes are removed before the one as before the other |
| BoutCalls.FarLeafMisses | src/bfd/bout.c:413-427 | the pass shortens a call to a leaf whose call entry is in reach, and the `bal` stored goes 16 megabytes astray |
| BoutSharing.LongCallWords | src/bfd/bout.c:351-384 | what a call that stays long is in the output: in its operand what was there, the final address of its goal and the addend, once for a leaf's `bal` entry and twice otherwise; before it the original instruction word, or for a leaf `balx` with the original bits, except that with two bytes removed the upper half is seen twice |
| BoutSharing.ShrinkIsEven | src/bfd/bout.c:1143-1186 | the bytes removed up to any relocation are an even number |
| BoutSharing.SharingHarmlessIff | src/bfd/bout.c:1316-1438 | copying in place gives what copying into another buffer gives, for all contents, if and only if no long call to a leaf stands behind exactly two removed bytes |
| BoutSharing.FarLeafSpoilt | src/bfd/bout.c:351-384 | a far leaf called behind two bytes of padding gets the wrong addressing mode in place and the right one otherwise |
| AoutReloc.IndexRoundTrip | src/bfd/aoutx.h:4678-4697 | a section's type code leads back to the section |
| AoutReloc.FinalValueIs | src/bfd/aoutx.h:5275-5408 | type by type, the value stored: an external relocation gets its symbol's value plus vma and offset of where that is, or 0 if undefined, a base relative one its entry's new address, any other the move of the section its index names; the eight PC relative types are made relative to their section, 17 and 18 to their place |
| AoutReloc.RewriteIs | src/bfd/aoutx.h:5122-5273 | type by type, the record written instead: address, index, extern bit, and the addend with the symbol's address, or the section's move, added, less the move of the relocated section for six of the PC relative types |
| AoutReloc.DefinedAsSection | src/bfd/aoutx.h:5275-5408 | an external relocation against a defined symbol gets the value of one against its section with the symbol's old address added in: always if not PC relative, else if and only if the relocated section's vma is 0 modulo 2^32 |
| AoutReloc.TwoStages | src/bfd/aoutx.h:5122-5368 | a relocateable link followed by a final link gives the value of the direct link if and only if the discrepancy is a multiple of 2^32 |
| AoutReloc.WhenStagesAgree | src/bfd/aoutx.h:5122-5368 | the discrepancy case by case: absolute and plain section relocations always agree, converted PC relative ones if and only if the source section vma is 0, the others under their own exact conditions |
| AoutReloc.ManyStages | src/bfd/aoutx.h:5122-5368 | a section relocation survives any number of relocateable links; RELOC_PC10 and RELOC_PC22 if and only if the source section's vma in the last link equals that in the first modulo 2^32 |
| AoutReloc.DefinedThenManyStages | src/bfd/aoutx.h:5122-5368 | a symbol's relocation, once converted, survives any number of further links: always if absolute, if PC relative exactly when the source section is at vma 0 in the first link, for RELOC_PC10 and RELOC_PC22 in the last |
| AoutReloc.SamePatch | src/bfd/aoutx.h:5122-5440 | staged and direct link patch the same place with the same type and value |
| AoutReloc.RecordLayout | src/bfd/aoutx.h:5097-5118 | the twelve bytes of a record in both byte orders, bit by bit |
| AoutReloc.IndexBytes | src/bfd/aoutx.h:5099-5112 | a 24-bit index is read back from either byte order |
| AoutReloc.RewriteRecord | src/bfd/aoutx.h:5122-5273 | the bytes of a rewritten record decode to the specified relocation, in either byte order |
| AoutReloc.FinalPatch | src/bfd/aoutx.h:5275-5408 | the branches of the final link give each record the specified value, whatever its kind |
| AoutReloc.LinkInputSectionExt | src/bfd/aoutx.h:5045-5444 | over all records: rewritten in place in a relocateable link, left alone and patched in a final one |
| AoutIncludes.HeaderTotal | src/bfd/aoutx.h:4326-4364 | the scan with a nesting counter adds up exactly the symbols whose innermost header this is |
| AoutIncludes.MarkHeader | src/bfd/aoutx.h:4399-4423 | the second scan marks exactly the symbols whose innermost header this is and the one that closes it |
| AoutIncludes.SumOfParts | src/bfd/aoutx.h:4350-4363 | strings add up piece by piece unless they are taken apart inside a file number |
| AoutIncludes.NumbersDoNotCount | src/bfd/aoutx.h:4350-4363 | on bytes: replacing the digits behind an opening parenthesis by any others leaves the sum alone |
| AoutIncludes.CharactersCount | src/bfd/aoutx.h:4350-4363 | any other character counts as the signed number it is, and one for another changes the sum by the difference |
| AoutIncludes.TotalIgnoresFileNumbers | src/bfd/aoutx.h:4350-4363 | the total is the same for symbols whose names are the same texts with other numbers behind the opening parentheses |
| AoutIncludes.BracketsStayBalanced | src/bfd/aoutx.h:4326-4424 | whatever headers are replaced, balanced brackets stay balanced |
| AoutIncludes.DroppedWhere | src/bfd/aoutx.h:4399-4423 | a symbol is dropped if and only if the innermost open header is replaced and it opens none itself |
| AoutSymbolValues.FindMeaning | src/bfd/aoutx.h:4163-4289 | type, value, and what happens to the next symbol, for every kind of symbol and hash entry |
| AoutSymbolValues.OwnMeaning | src/bfd/aoutx.h:4163-4205 | code by code, the symbols that need no hash table: those of a section, weak or not, move with it, absolute and debugging symbols and warnings keep their value, and which let the next symbol pass |
| AoutSymbolValues.HashMeaning | src/bfd/aoutx.h:4206-4287 | code by code, the others with an entry: a definition's address, weak or not, with the type for its place, a common symbol's size, N_WEAKU for a weak undefined one, and when the next symbol is skipped |
| AoutSymbolValues.SetElementMeaning | src/bfd/aoutx.h:4215-4236 | and without one: elements of a set move with their section, or keep their value if absolute |
| AoutSymbolValues.OtherMeaning | src/bfd/aoutx.h:4508-4575 | kind by kind, the record of an entry that no symbol stands for, or that there is none |
| AoutSymbolValues.SameAddress | src/bfd/aoutx.h:4163-4289 | a definition, weak or not, gets the same address directly, through an indirect symbol, and from the hash table alone |
| AoutSymbolValues.SameType | src/bfd/aoutx.h:4243-4275 | an external definition gets the same type byte through an indirect symbol and from the hash table alone |
| AoutSymbolValues.TypeSaysWhere | src/bfd/aoutx.h:4528-4550 | the type byte tells readers the place of an external definition if and only if it is not weak in data or outside the three sections |
| AoutSymbolRun.TargetNotDropped | src/bfd/aoutx.h:4052-4090 | the symbol behind an indirect one is in the same headers, so it is not dropped when the first is not |
| AoutSymbolRun.RecordSays | src/bfd/aoutx.h:4426-4450 | the fields of a right record: name, other and desc of the symbol or entry, type and value by its meaning, a header's total with its type, or for a symbol passed through its own |
| AoutStrip.StripOutcome | src/bfd/aoutx.h:4135-4318 | option by option: after an input, a symbol on its own account without an entry has a record if and only if it is no stripped debugging symbol, its name is kept, and it is neither a discarded local label nor discarded like all but set elements; one whose entry is not yet written, if and only if the entry's name is kept; with everything stripped none has |
| AoutSymbols.AtMostOnce | src/bfd/aoutx.h:4123-4134 | while records are owned, two records of one entry that is no warning are the same record |
| AoutSymbols.AllOut | src/bfd/aoutx.h:4478-4591 | once every entry is taken as written, each wanted defined, undefined or common entry has at its index a record with its name and the type and value of its kind or of an input's symbol for it |
| AoutSymbols.Outcome | src/bfd/aoutx.h:3989-4473 | after an input: at most one record a symbol, each with the right contents; the map leads to them; headers are replaced exactly if seen before; with nothing stripped, exactly what replaced headers contain is lost, the map says of a symbol with an entry what the entry says, and brackets stay balanced |
| AoutSymbols.Linker.constructor | src/bfd/aoutx.h:3702-3732 | before the first record the table is empty at the initial `symoff`, with room for one record more than the largest input has symbols |
| AoutSymbols.Linker.TreatHeader | src/bfd/aoutx.h:4366-4424 | a header is replaced exactly if its name and total were seen before, and is known afterwards |
| AoutSymbols.Linker.OneSymbol | src/bfd/aoutx.h:4039-4454 | one turn of the loop, branch by branch: which symbol gets a record of whose, and whether the next one passes through, is skipped, or is on its own account; all invariants are kept |
| AoutSymbols.Linker.WriteSymbols | src/bfd/aoutx.h:3989-4473 | one input: the records follow the earlier ones in file and count, fit the buffer, and are owned; each symbol has met its fate, to which `StripOutcome` applies, with everything stripped no record is added; hash pointers end at resolved entries |
| AoutSymbols.Linker.WriteOther | src/bfd/aoutx.h:4478-4591 | an entry not yet written gets the record of its kind in the next slot, if it is wanted or forced |
| AoutSymbols.Linker.RelocIndex | src/bfd/aoutx.h:4843-4878 | a relocation's index names the record of its entry, written now if it was stripped; it is -2 if and only if the entry has no record and is of no kind that is output |
| AoutSymbols.Linker.RelocIndices | src/bfd/aoutx.h:4803-4878 | each relocation of an input gets no index if its entry is defined, else what the map says, else its entry's slot, and that stays so while later ones are handled |
| AoutSymbols.Linker.OneInput | src/bfd/aoutx.h:3989-4473 | one input and its relocations leave only genuine and justified records, and a turn that is right: the outcome of its symbols, which of them have records, and for each relocation an index that names its symbol's record |
| AoutSymbols.SeenEarlier | src/bfd/aoutx.h:4366-4397 | what an input finds seen are exactly the headers of the inputs before it |
| AoutSymbols.Linker.FinalLink | src/bfd/aoutx.h:3743-3834 | over all inputs and their relocations: slot i stands in the file at its place, every slot holds the genuine record of its owner, an entry has one only if its name is kept or a relocation refers to it and with everything stripped nothing else has, every kept symbol of a kind that is output has its record in the file at its index, and every input's turn, with the indices given to its relocations, is still right at the end; with everything stripped and no relocations the table is empty |
| AoutZMagic.PlanIsSound | src/bfd/aoutx.h:894-1006 | in every flag combination where text, data and bss start, what the header says of the text, that file and memory do not overlap, contiguous targets have no gap, and `a_data` is the least page multiple that holds the data |
| AoutZMagic.TextEnd | src/bfd/aoutx.h:907-951 | where in a page the text ends: on its boundary if the user set the vma, else as far as the header requires; padded by less than a page, or two if the user set the vma |
| AoutZMagic.DataAfterText | src/bfd/aoutx.h:943-952 | placed automatically, data starts on the first segment boundary not before the end of text |
| AoutZMagic.BssAccountedFor | src/bfd/aoutx.h:969-1005 | where bss follows data, `a_data` plus `a_bss` is the larger of `a_data` and data plus bss |
| AoutZMagic.OneMapping | src/bfd/aoutx.h:907-968 | text and data keep the same distance between memory and file modulo a page |
| AoutZMagic.AdjustZMagic | src/bfd/aoutx.h:894-1006 | the assignments to the three sections and the header are the plan the laws are about |
| ArchiveFormat.StrtolDigits | src/bfd/archive.c:386-393 | a printed number is read back whatever non-digit follows |
| ArchiveFormat.HeaderRoundTrip | src/bfd/archive.c:1359-1389 | a header gives back its size and name field |
| ArchiveFormat.BytesAtOffset | src/bfd/archive.c:1649-1682 | each member stands at the sum of the padded sizes before it |
| ArchiveMap.CollectSymbols | src/bfd/archive.c:1744-1828 | the loops over members and symbols collect the specified entries and add up the string table's size |
| ArchiveMap.MapIsComplete | src/bfd/archive.c:1768-1790 | a name is listed for a member exactly as often as the member, if an object file, has a symbol of that name that is global, weak, indirect or common and not undefined |
| ArchiveMap.CollectedInOrder | src/bfd/archive.c:1744-1828 | entries come in chain order, and each knows where its name will stand |
| ArchiveMap.MapRoundTrip | src/bfd/archive.c:1854-1948 | reading a written map gives the same names and offsets in the same order, and the size check passes |
| ArchiveMap.SlurpMap | src/bfd/archive.c:744-783 | the reading loop computes the specified table or refuses |
| ArchiveMap.SlurpMeans | src/bfd/archive.c:744-783 | a map's contents are refused exactly if they are too short for the records they state; otherwise each record gives its position and the name at its index behind all records, up to a NUL |
| ArchiveNames.BaseIsLastComponent | src/bfd/archive.c:1173-1185 | the normalized name is what follows the last slash |
| ArchiveNames.WriteShortName | src/bfd/archive.c:1264-1276 | rewriting a name field only when needed leaves name and padding in any case |
| ArchiveNames.WriteLongName | src/bfd/archive.c:1312-1325 | the printed offset with its NULs blanked from the third byte on |
| ArchiveNames.ScanName | src/bfd/archive.c:442-459 | the two loops find the end of the name as specified |
| ArchiveNames.ShortNameReadBack | src/bfd/archive.c:436-462 | a short name is read back unless it fills the field and has a space; then it is cut at its first one |
| ArchiveNames.LongFieldReadBack | src/bfd/archive.c:399-412 | the field of a long name leads back to its place in the table |
| ArchiveNames.CleanNames | src/bfd/archive.c:1111-1120 | the clean-up in place, byte by byte |
| ArchiveNames.TableReadBack | src/bfd/archive.c:1111-1120 | a table entry reads as its name if and only if the name has no newline and no backslash |
| ArchiveWriter.Archive.ConstructNames | src/bfd/archive.c:1222-1333 | both passes agree on the table's length, no write leaves it, and table and headers are the specified ones |
| ArchiveWriter.Archive.WriteEntries | src/bfd/archive.c:1901-1926 | the advancing loop ends and stores for each entry its name's index and its member's offset |
| ArchiveWriter.Archive.WriteArmap | src/bfd/archive.c:1854-1948 | header, records and strings of the map |
| ArchiveWriter.DropMaps | src/bfd/archive.c:1735-1739 | what is dropped are the leading elements named `__.SYMDEF`, and the first element kept is not named so |
| ArchiveWriter.Archive.ComputeAndWriteArmap | src/bfd/archive.c:1708-1852 | old maps are dropped from the chain, and the map of the rest is written with room for the name table |
| ArchiveWriter.Archive.WriteContents | src/bfd/archive.c:1558-1682 | the whole file: magic, map if there are objects, name table, members with padding; the members are the caller's, in order, with settled name fields, less the leading ones named like a map if there is a new one |
| ArchiveWriter.MapPredictsWriter | src/bfd/archive.c:1876-1925 | the offset that record i stores is the position at which its member is written |
| ArchiveReader.WalkAdvances | src/bfd/archive.c:582-602 | the next start is later if and only if the size field neither leads back nor overflows |
| ArchiveReader.Reader.ReadHeader | src/bfd/archive.c:362-489 | every kind of header, name and error |
| ArchiveReader.NameFollows | src/bfd/archive.c:414-436 | a member of BSD 4.4 form is read with the name behind its header, up to a NUL, and the contents behind that, of the stated size less the name's |
| ArchiveReader.Reader.SlurpArmap | src/bfd/archive.c:915-944 | which archives have a map, and where the first byte behind it is |
| ArchiveReader.HeadDecides | src/bfd/archive.c:605-655 | the two magic strings make a file an archive; the first name field decides which kind of map it has, or none, or that it is refused |
| ArchiveReader.Reader.SlurpTable | src/bfd/archive.c:1061-1132 | the name table and the first byte behind it |
| ArchiveReader.Reader.Open | src/bfd/archive.c:605-655 | what opening a file as an archive leads to |
| ArchiveReader.Reader.GetElement | src/bfd/archive.c:495-531 | a cached element, or a new one that enters the cache; never two for one position |
| ArchiveReader.Reader.GetElements | src/bfd/archive.c:274-317 | requests in any order: the same position always gives the same element |
| ArchiveRoundTrip.WrittenRoute | src/bfd/archive.c:582-602 | the step from each member of a written archive leads to the next, with its name and contents, and from the last to the end |
| ArchiveRoundTrip.Walk | src/bfd/archive.c:567-602 | walking visits every member exactly once, in order, and stops |
| ArchiveRoundTrip.StartsGrow | src/bfd/archive.c:588-599 | starts are even, each is later than the one before, and the last step ends at the end of the file |
| ArchiveRoundTrip.MapOfWritten | src/bfd/archive.c:718-786 | the map of a written archive is found, with every symbol at its member's position, and what follows it starts at the first byte behind |
| ArchiveRoundTrip.OpenedWritten | src/bfd/archive.c:605-655 | opening a written archive finds its map, its name table and its first member |
| ArchiveRoundTrip.NoMapFound | src/bfd/archive.c:915-944 | an archive written without a map is read as one without if and only if it has a name table or its first member is not named like a map |
| ArchiveRoundTrip.NoTableFound | src/bfd/archive.c:1074-1083 | an archive without a name table is read as one if and only if its first member is not named like one |
| ArchiveRoundTrip.LongNameRoundTrip | src/bfd/archive.c:1222-1333 | a long name survives writing and reading if and only if it has no newline and no backslash |
| ArchiveRoundTrip.NameRoundTrip | src/bfd/archive.c:1222-1333 | a nonempty name is read back from the settled header and the table if and only if it survives: long without newline and backslash, short without a space where it fills the field and in no header like one of BSD 4.4; one that fills the field and begins with a space is, with a table, read back if and only if the table has it at the index that follows |
| ArchiveRoundTrip.WriteAndRead | src/bfd/archive.c:1558-1682 | writing, opening and walking gives back the caller's members, in order, with the last component of their names, cut off only in the traditional format, and their contents, less leading ones named like a map if there are objects and a map is asked for; the map has for each the symbols it exports, as often, under its position |
| AlphaGpdisp.ExtractIsExact | src/bfd/coff-alpha.c:1646-1662 | the addend read from a pair is what the pair computes |
| AlphaGpdisp.RewriteIsExact | src/bfd/coff-alpha.c:1664-1677 | the rewritten pair gives the addend modulo 2^32, and exactly if and only if it is in [-0x80008000, 0x7fff7fff]; other bits stay |
| AlphaGpdisp.BothCopiesAgree | src/bfd/coff-alpha.c:945-978 | the two copies of the computation agree |
| AlphaGpdisp.PairKeepsMeaning | src/bfd/coff-alpha.c:1646-1677 | a pair that computed input gp minus input place computes output gp minus output place |
| AlphaGpdisp.TwoRewrites | src/bfd/coff-alpha.c:1646-1677 | relocating twice leaves the same words as once by the sum |
| AlphaGpdisp.RelocateGpdisp | src/bfd/coff-alpha.c:1623-1683 | both words of the pair in the section, wherever the second is, and no other byte |
| AlphaDecode.Predictor | src/bfd/coff-alpha.c:2149-2181 | the hash is that of the last three bytes, and the dictionary predicts for each hash the byte that last followed it |
| AlphaDecode.ControlByte | src/bfd/coff-alpha.c:2149-2181 | each control byte governs the next eight bytes of the output, or as many as are missing, from its low bit on: a set bit is the next literal, a clear one the byte that last followed the same hash |
| AlphaDecode.AllLiteral | src/bfd/coff-alpha.c:2149-2181 | 0xff and eight literals decode to these eight |
| AlphaDecode.DecodeUndoesEncode | src/bfd/coff-alpha.c:2149-2181 | decoding undoes the encoder that predicts wherever the dictionary is right, for every byte string |
| AlphaDecode.RoundTrip | src/bfd/coff-alpha.c:2149-2181 | the same from every state, at every place of the input |
| AlphaDecode.Decompress | src/bfd/coff-alpha.c:2123-2182 | the loop computes the specified decoding of exactly the bytes asked for, or fails as specified |
| FileCache.Cache.Insert | src/bfd/cache.c:98-115 | a new member in front, both link directions intact |
| FileCache.Cache.Snip | src/bfd/cache.c:119-131 | one member less, the rest in order, both link directions intact |
| FileCache.Cache.FindVictim | src/bfd/cache.c:136-166 | one trip round the ring at most, to the least recently used member that may be closed |
| FileCache.Cache.CloseOne | src/bfd/cache.c:136-166 | that member is closed with its position noted, or nothing changes |
| FileCache.Cache.Delete | src/bfd/cache.c:170-190 | the member leaves and `open_files` stays the ring's length |
| FileCache.Cache.CacheInit | src/bfd/cache.c:203-216 | a new member in front after making room; nobody else sees a difference, except that what was closed may be read |
| FileCache.Cache.OpenFile | src/bfd/cache.c:260-305 | a file is created once and never truncated on reopening |
| FileCache.Cache.FdOpen | src/bfd/opncls.c:193-267 | a descriptor opened for both directions enters the cache as a stream that may be read and stays so |
| FileCache.Cache.LookupWorker | src/bfd/cache.c:322-350 | the BFD comes to the front with its stream where it was; no client sees a difference |
| FileCache.Cache.Close | src/bfd/cache.c:234-243 | closing leaves the ring without the BFD |
| FileCache.Cache.Seek | src/bfd/libbfd.c:621-715 | a seek moves the client's stream as its own permanent stream would |
| FileCache.Cache.Run | src/bfd/cache.c:322-350 | any sequence of lookups, seeks, reads and writes leaves answers, files, order of use and readable streams of the specified machine, and equals permanent streams if and only if no operation is a revealing read |
| CacheSpec.SeekMeans | src/bfd/libbfd.c:621-715 | a seek leaves the stream at the position, an archive element's counted from its origin, and asking answers that position; a relative one moves it, one to before the stream fails; no byte and no other file changes |
| CacheSpec.ReadMeans | src/bfd/libbfd.c:241-285 | a read gives the bytes from the stream's position on, as many as asked for or as there are, none if the stream may not be read, and moves behind them |
| CacheSpec.WriteMeans | src/bfd/libbfd.c:516-542 | a write puts its bytes at the stream's position and changes no other byte; a gap behind the old end is zero |
| CacheSpec.WrittenIsReadBack | src/bfd/libbfd.c:516-542 | what was written anywhere in a file or element is read back from there |
| CacheSpec.InvisibleIff | src/bfd/cache.c:260-305 | the machine gives the answers and files of permanent streams if and only if nobody reads bytes through a stream created write only and closed by the cache since |
| CacheSpec.InvisibleToReaders | src/bfd/cache.c:260-305 | in particular when only streams are read that may be read at first |
| CacheSpec.EvictionShows | src/bfd/cache.c:260-305 | a byte written to a new file is read back after ten others were used, which the stream that created the file refuses |
| CacheSpec.EvictsLeastRecentlyUsed | src/bfd/cache.c:136-166 | eviction takes the last member that may be closed and keeps the others in order, or takes none |
| CacheSpec.LookedUpComesFirst | src/bfd/cache.c:322-350 | a lookup brings a member to the front and keeps the order of the others |
| CacheSpec.NewcomerMakesRoom | src/bfd/cache.c:322-350 | another BFD enters at the front, and from ten open files the least recently used that may be closed goes |
| CacheSpec.OverLimitOnlyWhenStuck | src/bfd/cache.c:203-216 | by a lookup or by a BFD that enters already open, the number of open files grows beyond the limit only if none of them may be closed |

## Left out

- BoutReach.ShortCallReaches: is about targets in the section itself that are not slipped below its start, where a symbol in padding can end, with addend 0; the reader of b.out relocations sets that addend for external symbols, and the source's gap test measures a target of another section from 4 bytes too far.
- BoutCalls.LandsIff: with an addend, which the source counts twice except in a `bal`, the destination meant is the symbol plus the addend.
- BoutCalls.ShortCallLands: requires that the long call's operand was 0 in its low 24 bits, as the assembler leaves it for a symbol, and addend 0; without the former it does not land, by `BoutCalls.ShortCallLandsIff`.
- BoutReach.SymbolsFollowBytes: sections are at most 0x7fff0000 bytes and start on a 16-byte boundary, as alignment by masks up to 15 requires; symbols inside padding follow no byte, and where they land is said by `Layout.SymbolLands` unless they slip below the section's start.
- BoutSort.InsertLast: tests the table's bound before the address; the source tests it after, and reads one record before the table when the new one goes to its front. The outcome does not depend on what is read there.
- AoutReloc.LinkInputSectionExt: stands for the extended relocation format; the standard format and the store into section contents by `_bfd_relocate_contents`, which is not part of this model, are left out. Sections go to output sections of their own kind.
- AoutSymbols.Linker.FinalLink: hash entries keep their kind while symbols are output, hooks for dynamic linking are left out, and records hold names where the file holds offsets into a string table.
- AoutSymbols.Outcome: balance and exact loss are stated for inputs in which no bracket follows an indirect or warning symbol, since such a bracket would be a target and is passed or skipped by design.
- AoutZMagic.AdjustZMagic: addresses do not reach the top of the address space, so `BFD_ALIGN` does not wrap, and the target has backend data.
- ArchiveWriter.Archive.WriteContents: sizes and offsets stay below 2^31, as the `int` casts in the printed headers and the 32-bit `file_ptr` require; date, owner and mode are any 32 bytes, which also covers the rewriting of the map's date afterwards.
- ArchiveRoundTrip.NameRoundTrip: says nothing of empty names.
- ArchiveRoundTrip.WriteAndRead: is stated for the padding character `/`; symbol names are C strings; members of BSD 4.4 form are read but never written. A header field that begins with `#1/` and a digit left over from an earlier name would be read as that form.
- ArchiveReader.Reader.Open: does not look whether the first member is an object file of another target; a table that begins with a newline, for which the source writes before its buffer, is excluded; names at offsets beyond a table read as empty.
- ArchiveReader.Reader.SlurpArmap: recognises COFF and 64-bit maps but does not read the former.
- FileCache.Cache.Run: system calls succeed, and a stream handed to `bfd_openstreamr` does not allow writing.
- FileCache.Cache.FdOpen: the descriptor stands at the start of its file, as the BFD assumes.
- FileCache.Cache.Close: an explicit close does not note the position, so the client of an archive's own stream starts over.
- Chains of archive members and lists of relocations are sequences instead of linked nodes; the ring of the file cache is modelled with its links.
- Operating-system effects: `stat`, timestamps, `mmap`, permissions, out of memory.
- COFF, HP-UX and 64-bit armaps, `ar` name truncation in the GNU and BSD styles, core files, target vectors.
