# moldier and the PS3 runtime: a verified model

`moldier` is a post-linker. It reads a big-endian ELF64 program for the PowerPC,
and rewrites the file in place so that the PS3's LV2 loader accepts it: the
OS/ABI byte, the program header table, the import headers in `.lib.stub`, the
function descriptors in `.opd` and the bounds in `.sys_proc_prx_param`. It also
generates the assembly file that those import headers come from, and
`ps3/build.rs` holds a second copy of that generator. The `ps3` crate brings the
C memory functions, the heap and its lock.

This project models these parts and proves what they are for:

* **From configuration to loader.** `EndToEnd.ConfigurationReachesLoader`: for
  every library configuration that assembles, every placement of its sections
  below 2^32, every TOC base and every program around them, the linked and
  relocated file is parsed and patched, and a loader that starts at the PRX
  parameter header and walks the import table in 44-byte steps decodes exactly
  the configured libraries, in key order, with module ids, FNIDs and stub slot
  addresses. `Plans.EveryConfigurationLoads` shows that such a placement exists
  for every configuration of non-clashing symbol names and at most three million
  directives (some 600000 functions).
* **Running it.** `Calls.LinkedCallReaches`: once the patched file is in memory
  and the loader has filled the slots, fetching and decoding the words at the
  k-th function's symbol enters, under its own TOC, what the loader resolved for
  the k-th FNID, and returns; `Trampoline.Transparent` that the call keeps
  register arguments, results, TOC, stack and return address. Stack arguments do
  not survive it: `Trampoline.StackArgumentsExactly` says what the callee finds
  instead. `Booting.LinkedProgramBoots`: two 32-bit loads at e_entry, whichever
  descriptor it is, in the memory of the patched file give code address and TOC.
* **The five passes.** They are one simultaneous patch in any order
  (`Independence`), the header rewrite refines a filter-and-append on decoded
  headers (`ProgramHeaders`), the loaded memory image survives (`LoadImage`)
  and every descriptor is packed (`Descriptors`).
  `PatchedBytes` says what they leave in the file in the numbers of the formats.
* **Hash-map order.** However headers overlap, the order in which the symbol map
  is iterated does not matter when those at one address agree; when headers at
  different addresses lie apart, it matters exactly when two at one address
  disagree on a pointer, or on the count where none is stored (`HashOrder`).
  `HashClash` has a file for which two orders give two results.
* **Running twice.** Full idempotence is false: the first run overwrites the
  function word that the second run reads. `Rerun` states exactly what a second
  run changes and when it changes nothing. `SecondRun` shows that linked files
  meet its assumptions, that for every reasonable configuration some linked file
  is changed by the second run, and that the loader's imports never are.
* **Parsing.** `ReadBack.ParserInvertsEncoder`: `ElfPatcher::new` inverts a
  specification-level ELF64 writer (System V gABI chapters 4 and 5). `ParsedBytes`
  says exactly which files it accepts, why it refuses the others, and what it
  reads out of any file.
* **Names.** Labels are injective and a header label recovers its library; a
  generated file assembles if and only if its names make symbols, do not clash
  and the counts fit (`LabelNames`, `NameClashes`). Both generators agree.
* **Runtime.** memmove on overlapping ranges, memcpy's exact agreement with it,
  memcmp as an order, mutual exclusion over every interleaving, and the heap
  growth size.

## How it is laid out

Code that the original writes as loops over mutable state is imperative here and
proved equal to a specification function: `Patcher.ElfPatcher` (one mutable
buffer, specified by `Passes` and `Elf`), the two generator classes in
`Generators` (specified by the directive lists of `Config`), `Memory` (loops over
one shared array) and `Spinlock.Ps3RawMutex` (an atomic flag, specified by a
step relation). Lemmas about the specification functions carry the results.

| Files | Content |
|---|---|
| Bytes, Wrappers, Lists | big-endian codecs, slice writes, options and results, duplicate-free lists |
| Elf, Passes, Patcher | parser, the five passes, the class |
| ProgramHeaders, Locality, Independence, Descriptors, Binding, LoadImage, Rerun | what the passes mean |
| ParsedBytes, PatchedBytes, Parameters, Emitted | what is read and written, byte by byte and in the numbers of the formats |
| HashOrder, HashClash | when the order of the symbol map matters, and a file for which it does |
| Encoder, ReadBack | the ELF writer and the parser against it |
| Assembly, Config, Generators, LabelNames, NameClashes, ImportLayout, GeneratedFile | generator and assembler |
| Loader, Linking, RoundTrip, ImportTheorem | what linking must do, and the import round trip |
| Linker, EndToEnd, Sizes, Plans | a linker that does it, the closed theorem, and a placement for every configuration |
| Instructions, Machine, Trampoline, Pairing | instruction words and relocation, a processor that fetches them, the stub code at run time |
| Calls, Booting, SecondRun | calling into, starting and patching again a linked program |
| Memory, Spinlock, Heap | the runtime |

Assumptions are stated, not built in: `Elf.Indexable`, `Passes.HeadersFit`,
`Passes.PrxParamsFit` and the sums in `Passes.NoPanic` say where the original
would panic in a checked build;
`Independence.Disjoint` that no byte belongs to two passes; `Linking.Linked` and
`Linking.Separated` what a linker must do (place and relocate the sections, give
labels their symbols, keep apart what the passes write), and `Linker` exhibits
one that does; `Trampoline.Obeys` what the ABI asks of a callee (64-bit PowerPC
ELF ABI Supplement 1.9, sections 3.2.2 and 3.2.5).

## Model

| member | source | states |
|---|---|---|
| EndToEnd.ConfigurationReachesLoader | moldier/src/main.rs:799-825 | Closed end-to-end theorem: generate, assemble, link, relocate, parse, patch, load. For every configuration that assembles, every placement plan and TOC base and every compatible program, the file is accepted, patching succeeds, and the loader decodes exactly the configured imports. |
| Plans.EveryConfigurationLoads | moldier/src/main.rs:75-264 | The same with assumptions on the configuration alone: for every one in key order with non-clashing symbol names of bounded length, at most 59993 libraries and at most three million directives there is a placement, and the loader reads its imports out of the patched file. |
| Sizes.FileSized | moldier/src/main.rs:75-264 | Bounds on the sections, the labels and the sum of all bytes of a generated file that follow from the number of its directives and the lengths of its names. |
| EndToEnd.LinkedIsReady | moldier/src/main.rs:128-219 | The relocated file of the specification linker meets every assumption of the import theorems, so those are not vacuous. |
| Linker.OutputLinked | moldier/src/main.rs:371-447 | In the linked file as the patcher parses it, every assembled section is loaded from its seat with its TOC halves relocated, every label has its address, and no foreign `_prx_header` symbol points into `.lib.stub`. |
| Linker.OutputSeparated | moldier/src/main.rs:547-557 | In that file, the header, the program header table, `.opd` and the assembled sections do not overlap. |
| Linker.SymbolSource | moldier/src/main.rs:421-447 | A symbol the parser finds has the linker's value for its label, or the value some program symbol gave it. |
| ImportTheorem.ImportRoundTrip | moldier/src/main.rs:568-652 | For any relocated image that meets `RoundTrip.Ready`, the patched file's loader view is the configured libraries in key order: name, module id, FNIDs, and an equally long slot table at the functions' stub symbols. |
| ImportTheorem.ImportsOf | moldier/src/main.rs:568-754 | The loader view does not depend on what the descriptors hold: any bytes in `.opd` of the patched file leave the same imports. |
| ImportTheorem.ImportRead | moldier/src/main.rs:197-219 | Decoding the header at its place in the table gives back one library: the generator's offsets (count +6, name +16, FNIDs +20, slots +24) and the patcher's agree. |
| ImportTheorem.BoundsRead | moldier/src/main.rs:738-746 | The words a loader reads at +24 and +28 of the PRX parameter block are the bounds of `.lib.stub`. |
| ImportTheorem.TableFound | moldier/src/main.rs:547-562 | Reading e_phoff and e_phnum out of the patched file finds the rewritten program header table. |
| ImportTheorem.PrxParamsFound | moldier/src/main.rs:526-545 | Searching that table for the PRX parameter kind finds the injected header, which describes the PRX parameter section. |
| RoundTrip.ReadyDisjoint | moldier/src/main.rs:807-811 | On such an image no byte belongs to two passes. |
| RoundTrip.BoundAre | moldier/src/main.rs:585-603 | The headers the pass binds are exactly those of the configured libraries, at 44-byte steps. |
| RoundTrip.PatchedHeader | moldier/src/main.rs:631-645 | All 44 bytes of each header in the patched file: generated words kept, the three pointers filled in, the count right; and its five fields decoded. |
| RoundTrip.UntouchedByte | moldier/src/main.rs:568-754 | Every relocated byte of an assembled section other than the two patched ones survives all passes. |
| Linking.HeaderSymbols | moldier/src/main.rs:585-603 | Every `_prx_header` symbol inside `.lib.stub` is the header of a configured library, at its place. |
| Calls.LinkedCallReaches | moldier/src/main.rs:154-261 | For every linked and patched program and every resolver: in the memory the file is loaded into, after the loader has filled the slots it decoded, every call of a configured function enters the code, under the TOC, that the k-th FNID of the library resolved to, and returns from an obedient callee; of that memory only trampoline and slot need still be as they were. |
| Pairing.CallReachesItsFunction | moldier/src/main.rs:154-261 | The same for any relocated image that meets `RoundTrip.Ready`; code is fetched from and data loaded from one and the same memory. |
| Pairing.FileSlotsApart | moldier/src/main.rs:176-195 | No two slots of any libraries overlap, so filling one does not undo another. |
| Pairing.FillHolds | moldier/src/main.rs:185-190 | After all fills the k-th slot of the i-th import holds what its k-th FNID resolved to. |
| Pairing.FilledTrampoline | moldier/src/main.rs:176-261 | Filling the slots leaves every trampoline in memory as it was loaded. |
| Pairing.TrampolineAt | moldier/src/main.rs:230-261 | The loaded memory of the patched file holds, at each function's symbol, the words of the sixteen instructions with the TOC halves of the distance to its slot. |
| Pairing.FetchesCode | moldier/src/main.rs:230-261 | Every assembled instruction is read back, relocated, from the loaded memory of the patched file. |
| Trampoline.Transparent | moldier/src/main.rs:230-252 | For every machine state with the words of a trampoline at its program counter and every callee that obeys the ABI and leaves those words alone: the stub enters the callee with r3..r10 unchanged, the callee's TOC in r2 and a proper frame, and returns with r1, r2, LR and non-volatile registers the caller's and the results intact. |
| Trampoline.EntersCallee | moldier/src/main.rs:236-246 | Executing the first eleven instructions from any call state gives precisely the callee's entry state. |
| Trampoline.LeavesToCaller | moldier/src/main.rs:247-251 | Executing the last five after any obedient callee gives precisely the caller's continuation state. |
| Trampoline.StackArgumentsExactly | moldier/src/main.rs:236-246 | What the stub's own frame costs, for every argument from the ninth on: where the ABI puts argument 9 + j the callee finds the saved link register (j = 4), the saved TOC (j = 7) or else the doubleword 16 bytes below the caller's stack pointer plus 8j, so the argument arrives if and only if that equals it. |
| Trampoline.StackArgumentLost | moldier/src/main.rs:236-246 | Counterexamples: for every j a machine state whose call loses argument 9 + j. |
| Instructions.HaLoReach | moldier/src/main.rs:240-241 | Adding the two TOC halves gives the offset exactly when it is within the signed reach of the pair. |
| Instructions.DecodeInverts | moldier/src/main.rs:230-252 | A word decodes to an instruction if and only if the instruction's operands fit their fields and the word is its encoding. |
| Instructions.StubResolves | moldier/src/main.rs:230-252 | Relocating the assembled stub gives the stub whose two TOC instructions carry the halves of the slot's distance. |
| Machine.RunBlock | moldier/src/main.rs:230-252 | Fetching and decoding a block whose words stay in memory while it runs is executing its instructions in order. |
| Patcher.PatchElfFile | moldier/src/main.rs:799-825 | The in-place pipeline returns the bytes, or the error, of the specification `Passes.PatchFile`, on every file on which no pass it reaches would panic in a checked build. |
| Patcher.ElfPatcher.New | moldier/src/main.rs:300-457 | The parsing loops return the image, or the error of the first check that fails, of `Elf.Parse`. |
| Patcher.ElfPatcher.ReadShdrs | moldier/src/main.rs:345-369 | The section header loop reads all headers, or fails exactly when the table leaves the file. |
| Patcher.ElfPatcher.NameSections | moldier/src/main.rs:382-409 | The naming loop builds the section map, later headers replacing earlier ones. |
| Patcher.ElfPatcher.ReadSymbols | moldier/src/main.rs:411-444 | The symbol loop builds the symbol map, with its skips and its silent omission of an unreadable table. |
| Patcher.ElfPatcher.PatchOsAbi | moldier/src/main.rs:460-466 | Byte 7 becomes 102, and no other byte changes. |
| Patcher.ElfPatcher.SanitizeAndInjectPhdrs | moldier/src/main.rs:469-565 | Whenever the unchecked slot writes stay in the file, the three loops leave exactly the image of `Passes.RewriteHeaders`, return the number of new headers, and leave the kept and added headers with the kinds, flags and fields of `PatchedBytes`. |
| Patcher.ElfPatcher.WriteSlots | moldier/src/main.rs:547-551 | Writing slot by slot is one write of the flattened table. |
| Patcher.ElfPatcher.ZeroSlots | moldier/src/main.rs:553-557 | The leftover slots become one zero run. |
| Patcher.ElfPatcher.PatchLibStubs | moldier/src/main.rs:568-652 | Collect, sort, filter and bind leave the image of `Passes.LibStubs`; the result counts 44-byte entries. |
| Patcher.ElfPatcher.CollectHeaders | moldier/src/main.rs:584-597 | The filter-map over the symbol map in iteration order. |
| Patcher.ElfPatcher.PatchHeader | moldier/src/main.rs:607-645 | The conditional writes of one header: pointers where nonzero, the count where none is stored, and no other byte. |
| Patcher.ElfPatcher.PatchOpdDescriptors | moldier/src/main.rs:655-705 | The descriptor loop, with its error once a descriptor leaves the file; every descriptor in the file has the words of `PatchedBytes.DescriptorIs`. |
| Patcher.ElfPatcher.PatchDescriptor | moldier/src/main.rs:678-701 | One descriptor, word by word, at e_entry or `_start` or elsewhere. |
| Patcher.ElfPatcher.PatchPrxParams | moldier/src/main.rs:708-754 | The bounds of `.lib.ent` at +16 and of `.lib.stub` at +24 of a block of at least 40 bytes. |
| PatchedBytes.FileOsAbi | moldier/src/main.rs:18-18 | Byte 7 of every patched file is 102. |
| PatchedBytes.OsAbiByte | moldier/src/main.rs:460-466 | The pass writes that and changes no other byte. |
| PatchedBytes.FileKeptHeader | moldier/src/main.rs:477-508 | In every patched file each old header of kind 1 is at the place its number among them gives, with flags 0x00400005 when it was executable, else 0x00600006 when it was writable, else its own, and with its other bytes. |
| PatchedBytes.FileAddedHeaders | moldier/src/main.rs:512-562 | Behind them, field by field, a header of kind 0x60000001 for `.sys_proc_param` and one of kind 0x60000002 for `.sys_proc_prx_param`, for those that exist, aligned to at least 8 and 4; e_phnum counts them all; the old slots left over are zero. |
| PatchedBytes.FileHeader | moldier/src/main.rs:585-645 | In every patched file whose headers do not overlap, each bound header has the low halves of its three symbols where they are not zero, and, where no count is stored and both table symbols exist, the length of the slot table in words. |
| PatchedBytes.BoundHeader | moldier/src/main.rs:599-645 | The same of the pass alone, with every other byte of the 44 unchanged. |
| PatchedBytes.UnboundByte | moldier/src/main.rs:568-605 | No byte changes but those fields of headers that start in a `.lib.stub` of at least 44 bytes and whose 44 bytes are in the file. |
| PatchedBytes.FileDescriptors | moldier/src/main.rs:678-701 | Every descriptor of every patched file, word by word: the third word packs the low halves of code address and TOC; the first does too if and only if the descriptor is at e_entry or its code address is the nonzero value of `_start`; otherwise it is unchanged. |
| PatchedBytes.DescriptorWords | moldier/src/main.rs:671-701 | The same of the pass alone, for every descriptor in the file even when a later one makes the pass fail. |
| PatchedBytes.RefusedExactly | moldier/src/main.rs:673-675 | Patching fails exactly when parsing does, with its message, or when `.opd` says more whole descriptors than the file holds. |
| PatchedBytes.FileParamBounds | moldier/src/main.rs:718-746 | In every patched file with a PRX parameter block of 40 bytes: the low halves of address and end of `.lib.ent` at +16 and +20 and of `.lib.stub` at +24 and +28, or zeroes for a section that does not exist. |
| PatchedBytes.ParamBounds | moldier/src/main.rs:708-754 | The same of the pass alone, with every other byte unchanged. |
| PatchedBytes.NoParamBlock | moldier/src/main.rs:709-716 | Without such a block the pass changes nothing. |
| Parameters.LinkedPassesApart | moldier/src/main.rs:799-825 | Every linked file is one of those these theorems speak of. |
| ProgramHeaders.RewriteRefinesTable | moldier/src/main.rs:469-565 | The decoded new table is the order-preserving PT_LOAD filter with only flags remapped, then PROC_PARAM and PRX_PARAM if their sections exist; e_phnum is its length; leftover old slots are zero; no other byte changes. |
| ProgramHeaders.EncodeDecodes | moldier/src/main.rs:512-519 | Round trip of a 56-byte program header. |
| ProgramHeaders.KeptDecodes | moldier/src/main.rs:477-508 | Filtering and reflagging bytes is filtering and reflagging decoded headers. |
| Locality.BindAllFrame | moldier/src/main.rs:599-645 | Binding changes only the four fields of bound headers. |
| Locality.OpdUpToFrame | moldier/src/main.rs:671-701 | The descriptor pass changes only descriptors. |
| Independence.RunFrame | moldier/src/main.rs:460-754 | Each pass changes no byte outside its region. |
| Independence.RunLocal | moldier/src/main.rs:460-754 | What a pass writes depends on the bytes of its region alone. |
| Independence.RunsAsOne | moldier/src/main.rs:460-754 | Any selection of passes in any order is one simultaneous patch of the original image. |
| Independence.OrderIrrelevant | moldier/src/main.rs:807-811 | Two orders of the same passes give the same image. |
| Independence.PipelineIsOnePatch | moldier/src/main.rs:807-811 | The order `patch_elf_file` uses is that simultaneous patch. |
| LoadImage.PatchingPreservesLoadImage | moldier/src/main.rs:807-811 | The same addresses are loaded from the same file positions before and after, and every loaded byte is the original one unless its position is in a field the passes declare. |
| LoadImage.FieldFrame | moldier/src/main.rs:460-754 | No byte outside the declared fields changes; for a descriptor that is its data word, and its function word only at the entry. |
| LoadImage.PatchedTable | moldier/src/main.rs:469-565 | The header rewrite as it stands after all five passes. |
| LoadImage.SonyTableLoads | moldier/src/main.rs:477-545 | Dropped, reflagged and injected headers do not move any load address. |
| Descriptors.PassPacksEveryDescriptor | moldier/src/main.rs:655-705 | For any number of descriptors: every data word decodes to the 32-bit halves of the original code address and TOC, TOC words are untouched, function words change only at an entry. |
| Booting.EntryLoadsFindCodeAndToc | moldier/src/main.rs:682-688 | In the memory of the fully patched file, two 32-bit loads at an e_entry on a loaded descriptor give the original code address and TOC, if and only if both are below 2^32; otherwise their low halves. |
| Booting.LinkedProgramBoots | moldier/src/main.rs:655-705 | Every linked and patched program whose entry is any descriptor of its loaded `.opd` boots in that sense. |
| Descriptors.SecondPass | moldier/src/main.rs:678-690 | What running the descriptor pass twice leaves in a descriptor, case by case, and when that is what one run leaves. |
| Binding.BindingIgnoresHashOrder | moldier/src/main.rs:585-649 | Any two enumerations of one symbol map give the same bytes when the headers that get bound have distinct addresses. |
| HashOrder.HashOrderIrrelevantExactly | moldier/src/main.rs:585-649 | With bound headers at one address or 44 bytes apart: any two enumerations of the symbol map give the same bytes if and only if no two headers at one address have different nonzero name, FNID or slot pointers, or different nonzero counts where none is stored. |
| HashOrder.AgreementSuffices | moldier/src/main.rs:585-649 | Wherever the headers lie and however they overlap: two enumerations give the same bytes when bound headers at one address have no two different nonzero pointers or counts. |
| HashOrder.PatchIgnoresHashOrderExactly | moldier/src/main.rs:799-825 | The same condition decides it for the whole patch, when no byte belongs to two passes. |
| HashOrder.SortIsStable | moldier/src/main.rs:597-597 | Headers at one address stay in the order in which the map yielded them. |
| HashClash.SharedAddressDependsOnOrder | moldier/src/main.rs:587-599 | Counterexample: a file the parser accepts, with two header symbols at one address and two different names, and two iteration orders for which `patch_elf_file` writes different files. |
| Binding.SortSorts | moldier/src/main.rs:597-597 | The collected headers are rearranged in ascending address order, none lost or invented. |
| Binding.StrictOrderUnique | moldier/src/main.rs:597-597 | Two strictly ascending lists with the same headers are equal. |
| Binding.StripSuffixExact | moldier/src/main.rs:589-590 | Stripping succeeds exactly on names that are something plus the suffix, and gives that something. |
| Binding.BindHeaderFields | moldier/src/main.rs:607-645 | The four fields read back after binding: new value where it is nonzero, the old one otherwise. |
| Binding.BindHeaderIdempotent | moldier/src/main.rs:616-645 | Binding a header twice is binding it once. |
| Binding.BindAllAt | moldier/src/main.rs:599-645 | When headers do not overlap, each ends up as if it alone had been bound. |
| Rerun.RerunChangesOnlyEntryDescriptors | moldier/src/main.rs:672-701 | Patching a patched file succeeds and changes no byte outside entry descriptors; the second run is the identity if and only if in every entry descriptor the 32-bit halves of code address and TOC are equal. |
| Rerun.SecondRunDescriptor | moldier/src/main.rs:678-690 | Each descriptor after a first and second whole run, in terms of the input: an entry that matches by address, or whose packed word is the value of `_start`, ends with (TOC, TOC) in its first and third words; any other entry keeps its first word and gets (TOC, TOC) in its data word. |
| Rerun.ParseSame | moldier/src/main.rs:300-457 | Files with the same metadata bytes parse to the same image up to buffer and e_phnum. |
| Rerun.PhdrsAgain | moldier/src/main.rs:485-493 | The header pass on its own output changes nothing. |
| Rerun.StubsAgain | moldier/src/main.rs:616-645 | Neither does the binding pass, even under another iteration order. |
| SecondRun.LinkedIsWellFormed | moldier/src/main.rs:799-825 | Every linked file meets all assumptions of the re-run theorem: its regions lie apart, and no written field lies in what the parser reads. |
| SecondRun.SecondRunKeepsImports | moldier/src/main.rs:799-825 | Patching a patched linked file succeeds, and the loader reads the same configured imports out of it. |
| SecondRun.SecondRunDiffers | moldier/src/main.rs:672-701 | Counterexamples to idempotence: the second run changes every linked file whose program starts at any descriptor with different low halves of code address and TOC. |
| SecondRun.PatchingIsNotIdempotent | moldier/src/main.rs:799-825 | For every reasonable configuration there is such a file. |
| ReadBack.ParserInvertsEncoder | moldier/src/main.rs:300-457 | For every list of program headers, sections and symbols: `new` accepts the written file, keeps its bytes and recovers every field; its maps are last-occurrence-wins lookup, with empty symbol names skipped. |
| ReadBack.SectionMapLastWins | moldier/src/main.rs:378-409 | The section map holds exactly the names in the table, each with its last header. |
| ReadBack.SymbolMapLastWins | moldier/src/main.rs:424-444 | The symbol map holds exactly the nonempty names, each with its last value. |
| ParsedBytes.AcceptedExactly | moldier/src/main.rs:300-391 | A file is accepted if and only if it has 64 bytes, the ELF magic, class 2, data 2, machine 21, section headers of 64 bytes that all lie in the file, and a section of names among them that lies in it too. |
| ParsedBytes.RefusedWith | moldier/src/main.rs:301-391 | Every other file is refused with the message of the first of these checks that fails. |
| ParsedBytes.ParsedHeader | moldier/src/main.rs:325-332 | Each header field is read at its offset. |
| ParsedBytes.ParsedSections | moldier/src/main.rs:344-409 | For any accepted file: the section map holds the NUL-terminated names of its table, each with the ten fields of its last header, read at their offsets. |
| ParsedBytes.ParsedSymbols | moldier/src/main.rs:411-444 | For any accepted file: the symbols of `.symtab`, with names from `.strtab` and 24 bytes an entry when its header gives no size, or none when one of the two is missing or not in the file. |
| ParsedBytes.SymbolMapExactly | moldier/src/main.rs:424-444 | Of a symbol table with entries of any size: exactly the nonempty names whose index is in the string table, each with the value of its last entry. |
| Encoder.NameReadsBack | moldier/src/main.rs:381-386 | A name written into a string table is found again at its index. |
| Elf.CString | moldier/src/main.rs:382-386 | The bytes before the first NUL, or all of them. |
| Generators.Moldier.Generate | moldier/src/main.rs:75-264 | moldier's nested loops emit the directive list `Config.MoldierDirectives`. |
| Generators.BuildScript.Generate | ps3/build.rs:57-196 | The build script's loops, with its early return, emit `Config.BuildDirectives`. |
| Generators.Moldier.EmitFstubs | moldier/src/main.rs:176-195 | The nested slot loops, library by library. |
| Generators.BuildScript.EmitImports | ps3/build.rs:143-193 | Import headers, then trampolines. |
| Generators.GeneratorsAgree | ps3/build.rs:57-196 | For every configuration both outputs assemble or both are refused, and the assembled objects have the same labels, code and nonempty section contents. |
| GeneratedFile.NamesInFile | moldier/src/main.rs:128-142 | In the assembled file each library's name label marks its NUL-terminated name. |
| GeneratedFile.FnidsInFile | moldier/src/main.rs:145-166 | Each library's table label marks its FNIDs, big-endian, in order. |
| GeneratedFile.SlotsInFile | moldier/src/main.rs:168-195 | Each library's slot table has one zero word per function, the k-th labelled with the k-th function's stub label, and an end label. |
| GeneratedFile.HeadersInFile | moldier/src/main.rs:197-219 | `.lib.stub` holds the 44-byte headers in key order and nothing else, each at its label. |
| GeneratedFile.TrampolinesInFile | moldier/src/main.rs:221-261 | Each function's label marks its sixteen instructions, and the section holds their big-endian words there. |
| GeneratedFile.CodeInFile | moldier/src/main.rs:221-261 | Every instruction the assembler recorded is written as its word at its place, and all of them lie in `.sceStub.text`. |
| GeneratedFile.PrxParamsInFile | moldier/src/main.rs:115-126 | The PRX parameter section is 40 bytes, what the patcher requires. |
| GeneratedFile.ParamsInFile | moldier/src/main.rs:88-126 | `.sys_proc_param` holds eight words: 0x20, the magic, version 0x9000, SDK 0x192001, priority, stack size, 0x100000, 0; `.sys_proc_prx_param` holds 0x28, its magic, 2, five zeroes, the halves 0x0101 and 0, and 0; each starts at its label. |
| Parameters.PatchedBlocks | moldier/src/main.rs:88-126 | Both blocks in every patched image: the first as generated, the second with only its four bounds filled in. |
| Parameters.LinkedBlocks | moldier/src/main.rs:511-545 | Both blocks in every linked and patched file, where their section headers, and so the injected program headers, say. |
| Emitted.FileMarked | moldier/src/main.rs:88-261 | In the output of both generators every section is entered with its flags and the alignment that follows, and a label is declared global right before it is defined, and nothing else is. |
| Emitted.WithoutLibraries | ps3/build.rs:91-93 | Without libraries the build script emits no section but the two parameter blocks, and moldier the four library sections as well. |
| Emitted.LibraryInFile | moldier/src/main.rs:128-219 | Every piece of every library in the assembled file, byte by byte: name with NUL, FNIDs between their two labels, empty slots each at its label, the 44-byte header with 0x2c000001, module id, count and zeroes. |
| Emitted.TrampolineWords | moldier/src/main.rs:230-261 | Each function's symbol marks sixteen given words in `.sceStub.text`. |
| Emitted.LinkedStubWord | moldier/src/main.rs:240-241 | After relocation the fifth and sixth of them carry the halves of the distance to the slot, and the others are the same. |
| Assembly.LayoutExtends | moldier/src/main.rs:75-264 | Assembling fresh directives keeps all bytes, labels and code there already were. |
| Assembly.StubExtends | moldier/src/main.rs:230-252 | Expanding the stub macro defines its label at an aligned place followed by its instructions. |
| LabelNames.LabelsInjective | moldier/src/main.rs:97-257 | Exactly which generated labels are equal, over all library and function names: those of the same owner and kind, and a function name that spells another label. |
| LabelNames.SuffixFree | moldier/src/main.rs:138-208 | None of the seven suffixes is a suffix of another. |
| LabelNames.HeaderLabelRecoversLibrary | moldier/src/main.rs:585-628 | Stripping `_prx_header` from a library label works only on its header label, and gives the library name back. |
| NameClashes.AssemblesExactly | moldier/src/main.rs:75-264 | For every configuration in key order, the generated file assembles if and only if function names are distinct, none is a generated label, all names make symbols, and no library has more than 65535 functions. |
| NameClashes.LabelsSymbols | moldier/src/main.rs:97-257 | All labels of a generated file are assembler symbols if and only if function names are symbols and library names can start one. |
| NameClashes.CountOwner | moldier/src/main.rs:97-257 | How often each owner defines a label in the file, for every configuration. |
| Memory.Memmove | ps3/src/mem.rs:45-62 | The destination gets the source as it was before the call, for every overlap; every other byte is unchanged. |
| Memory.Memcpy | ps3/src/mem.rs:6-15 | The loop leaves the memory of an ascending byte-by-byte copy. |
| Memory.AscendingTiles | ps3/src/mem.rs:6-15 | Every byte of that memory in closed form: when the destination starts inside the source, it repeats the first bytes of the source. |
| Memory.RepeatIsRest | ps3/src/mem.rs:6-15 | The position in that repetition is the remainder by its length. |
| Memory.MemcpyIsMemmoveExactly | ps3/src/mem.rs:6-15 | memcpy agrees with memmove on every memory if and only if the destination starts at or before the source or behind it. |
| Memory.Memset | ps3/src/mem.rs:18-26 | Fills the range with the argument modulo 256, also for negative ones, and changes no other byte. |
| Memory.Strlen | ps3/src/mem.rs:65-71 | The distance to the first NUL. |
| Memory.Memcmp | ps3/src/mem.rs:29-42 | The difference at the first position where the operands differ, or zero. |
| Memory.CompareIsLexicographic | ps3/src/mem.rs:29-42 | Zero exactly on equal contents, negative exactly below in unsigned lexicographic order. |
| Memory.CompareOrders | ps3/src/mem.rs:29-42 | A total preorder for each length: sign-antisymmetric and transitive. |
| Memory.CompareFirst | ps3/src/mem.rs:29-42 | The result is the difference of the two bytes at the first position where the operands differ. |
| Memory.CompareAfterMemcpy | ps3/src/mem.rs:6-42 | Copying either operand first does not change the result. |
| Spinlock.MutualExclusion | ps3/src/allocator.rs:37-54 | Over every interleaving of any number of threads: the flag is set exactly when there is a holder, never two hold it, and acquisitions and releases alternate. |
| Spinlock.StepSafe | ps3/src/allocator.rs:41-53 | Every single step keeps that invariant. |
| Spinlock.AcquiresExactlyWhenFree | ps3/src/allocator.rs:41-49 | A swap gets the lock if and only if nobody holds it. |
| Spinlock.UnlockSafeExactly | ps3/src/allocator.rs:51-53 | From every safe state, an unlock keeps the lock safe if and only if its thread holds it. |
| Spinlock.ForeignUnlockBreaks | ps3/src/allocator.rs:51-53 | A run on which an unlock by a thread that does not hold the lock lets two in. |
| Spinlock.Ps3RawMutex.TryLock | ps3/src/allocator.rs:47-49 | The swap on the flag is the protocol's step, and its result says whether the caller holds the lock. |
| Spinlock.Ps3RawMutex.LockOnce | ps3/src/allocator.rs:41-45 | One iteration of the spin loop is the protocol's step. |
| Spinlock.Ps3RawMutex.Unlock | ps3/src/allocator.rs:51-53 | The store is the protocol's release step. |
| Heap.AcquireIsLeastMultiple | ps3/src/allocator.rs:18-20 | The size is the least multiple of 64 KiB that is at least 4 MiB and holds size, alignment and 4096 bytes. |
| Heap.MaskClearsLowBits | ps3/src/allocator.rs:20-20 | The arithmetic form of the mask clears bits 0 to 15 and keeps all others. |
| Heap.ChunkHoldsBlock | ps3/src/allocator.rs:17-24 | From any base address the chunk holds an aligned block of the requested size behind up to 4096 bytes of metadata. |

## Left out

- Patcher.ElfPatcher.New: error texts that contain formatted numbers are cut to their fixed part, and names are one character per byte, so UTF-8 decoding and its lossy replacement are not modelled.
- Patcher.ElfPatcher.PatchLibStubs: the iteration order of the hash map is a parameter, and files on which a sum the pass forms wraps around 64 bits are excluded (a checked build panics there, a release build goes on with the wrapped sum); the same holds of `Patcher.ElfPatcher.PatchOpdDescriptors`, `Patcher.ElfPatcher.PatchPrxParams` and `Patcher.PatchElfFile`.
- EndToEnd.ConfigurationReachesLoader: the linker is a specification that gives every allocated section its own segment and applies only the two TOC relocations of the stubs; a linker that merges sections is covered by `ImportTheorem.ImportRoundTrip`, which assumes only `Linking.Linked` and `Linking.Separated`.
- Plans.EveryConfigurationLoads: larger configurations are not claimed to have a placement, because section numbers have 16 bits in the header fields the patcher reads and the writer keeps file offsets below 2^32.
- HashOrder.HashOrderIrrelevantExactly: for overlapping headers at different addresses only `HashOrder.AgreementSuffices` is claimed, because a later header can overwrite the field on which two earlier ones disagree.
- Rerun.RerunChangesOnlyEntryDescriptors: assumes a file in which the pass regions do not overlap, no written field lies in the tables the parser reads, bound headers are 44 bytes apart and all descriptors are in the file; other files may re-run differently.
- LoadImage.PatchingPreservesLoadImage: assumes that pass regions do not overlap and that the rewritten table stays clear of e_phnum; without that one pass can overwrite what another wrote.
- Trampoline.Transparent: the claim is about register arguments, because stack arguments are lost (`Trampoline.StackArgumentsExactly`).
- NameClashes.AssemblesExactly: label clashes, names that are no plain symbol (letters, digits, `_`, `.` and `$`, not starting with a digit) and too large values are the only assembler errors modelled; an assembler that accepts quoted symbols accepts more.
- Spinlock.MutualExclusion: steps are sequentially consistent, so the acquire and release orderings are not modelled; that `lock` eventually returns is not claimed.
- Heap.AcquireIsLeastMultiple: sizes whose rounding overflows 64 bits are excluded (`Heap.Fits`).
- Memory.Memcpy: pointers are indices into one memory, so address arithmetic that wraps is excluded.
- File reading and writing, the command line, console reports and `validate`: input and output only.
- TOML parsing and the text of the assembly: directives are values, comments are erased, and the stub macro is expanded by the assembler step.
- The real `mold`, assembler and LV2 loader: reduced to the stated layout, relocation and loading assumptions.
- Section alignment: neither the passes nor the loader's reads depend on it, so placements are not required to be aligned; only a call asks that its symbol is (`Trampoline.CanCall`).
- `sys_memory_allocate`, Talc and `get_heap_stats`: external code.
- `ps3/src/net.rs`, `ps3/src/io.rs`, `ps3/src/sys` and `ps3-macros`: foreign calls, inline assembly and single-branch conversions that would add easy members.
