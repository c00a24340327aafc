# patchtool, modelled in Dafny

`patchtool` is a build-time tool. It reads one catalogue of named memory patches
(a JSON metadata document) and a set of profiles (a YAML document). From them it
writes one text file of patch directives per profile. This project models the
engine of `src/patchtool.cc` and proves what its output looks like.

The engine has five parts:

- the catalogue built by `parse_metadata`;
- the number encoder `number_patch::encode`;
- the render loop of `main`: the once-flag, the `unmatched` list, the skipped empty
  buffer and the erased leading `"\n"`;
- the payload line format;
- the file-name template substitution of `parse_profiles`.

The modules follow the program's structure:

| module | file | models |
|---|---|---|
| `Wrappers` | `wrappers.dfy` | `Option` and `Result` |
| `Patches` | `patches.dfy` | the structs `byte_patch`, `union_option`, the three patch variants, `container_t`, `profile_t` and the two switches `--no-verify` and `--union-all-opts` |
| `NumberEncoding` | `encoding.dfy` | `number_patch::encode` as a loop method, its specification `LittleEndianHex`, and a decoder that reads the digits back |
| `Catalogue` | `catalogue.dfy` | `parse_address` and the type dispatch of `parse_metadata`, as the functions `CatalogueOf`, `UnionOptions` and `UnionRva` and as loop methods over structured entries |
| `Directives` | `directives.dfy` | the payload line `["# "]file rva bytes[ off]` and a parser for it, its partner in a round trip |
| `Render` | `render.dfy` | what one profile's buffer holds, as a list of lines: the specification of the render loop |
| `Driver` | `driver.dfy` | the render loop as methods: one per variant, one per selection, one per profile, and `Run` over all profiles, each proved against `Render` and `RunAll` |
| `FilenameTemplate` | `template.dfy` | the `${INPUT_FILENAME}` / `${PROFILE_FILENAME}` substitution, as a literal replace-all |
| `Scenarios` | `scenarios.dfy` | whole runs on small catalogues, worked out to the exact bytes of each file |
| `Seqs` | `seqs.dfy` | generic slice facts that the loop proofs use |

### How the model represents the run

- **Shifts.** `value >> 8 * i & 0xFF` is an arithmetic shift of a two's-complement
  integer. The model writes it as repeated floor division by 2 (`Shr`), followed by
  `% 256`.
- **Buffers.** A buffer is a sequence of `Line`s, each written followed by `"\n"`
  (`Render.Text`). This gives the proofs the structure of the buffer: which lines
  there are, and of what kind.
- **Sections.** Each found selection contributes the lines `Blank` and
  `Section(name)` and then its patch's lines. Its text is therefore
  `"\n## name\n"` and then the patch's text.
- **Ending a run.** A run ends in one of two ways:
  - `Completed(files, unmatched)`: every profile rendered;
  - `Aborted(files, failure)`: `std::stoll` failed or a number was out of range.
    `files` holds the files written before the failure, since the profiles before
    it were already written.
- **The once-flag.** The run's specification is `Driver.RunFrom`. Its `pending`
  flag is the once-flag not yet consumed. `Driver.Run` carries `firstDone` and the
  `unmatched` set through its loop, as the source does.

## Model

| member | source | states |
|---|---|---|
| NumberEncoding.Encode | src/patchtool.cc:47-62 | the loop builds exactly `LittleEndianHex(value, size)`, byte 0 first |
| NumberEncoding.ByteAt | src/patchtool.cc:56 | the cast to `uint8_t` of `value >> 8 * i & 0xFF` lies in 0..255 |
| NumberEncoding.ByteHex | src/patchtool.cc:57-58 | one byte is pushed as exactly two characters |
| NumberEncoding.ByteHexValue | src/patchtool.cc:57-58 | the high nibble's digit, then the low nibble's, read back as the byte |
| NumberEncoding.ByteHexDigits | src/patchtool.cc:49 | both digits of a byte come from `"0123456789ABCDEF"` |
| NumberEncoding.LittleEndianHex | src/patchtool.cc:51-59 | the encoding of `size` bytes has exactly `2 * size` characters |
| NumberEncoding.EncodeDigits | src/patchtool.cc:49-59 | every character of the encoding is an upper-case hexadecimal digit |
| NumberEncoding.LittleEndianAt | src/patchtool.cc:54-59 | characters `2i` and `2i+1` are the two digits of byte `(value >> 8i) & 0xFF` |
| NumberEncoding.DecodeIsLowBytes | src/patchtool.cc:54-59 | the digits read back give the low `size` bytes, each at weight `2^(8i)` |
| NumberEncoding.DecodeEncode | src/patchtool.cc:54-59 | the value equals the decoded digits plus the dropped high bits shifted back; the decoded value lies in `[0, 2^(8 size))`, so it is the value modulo `2^(8 size)` |
| NumberEncoding.SignedRoundTrip | src/patchtool.cc:54-59 | a value that fits in `size` signed bytes reads back unchanged as a two's-complement number |
| NumberEncoding.EncodeZero | src/patchtool.cc:54-59 | 0 encodes as `2 size` characters `'0'` |
| NumberEncoding.EncodeMinusOne | src/patchtool.cc:54-59 | -1 encodes as `2 size` characters `'F'`, because the shift keeps the sign |
| NumberEncoding.EncodeExample | src/patchtool.cc:54-59 | `0x1234` in two bytes is `"3412"` |
| Catalogue.ParseAddress | src/patchtool.cc:162-170 | a leading `"0x"` is removed and nothing else; without it the address is unchanged |
| Catalogue.ParseAddressStripsPrefix | src/patchtool.cc:166-167 | `"0x" + t` becomes `t` |
| Catalogue.ParseAddressOnce | src/patchtool.cc:166-167 | only one prefix is removed: `"0x0x1"` becomes `"0x1"`, so the function is not idempotent |
| Catalogue.DefaultEdits | src/patchtool.cc:179-188 | one `byte_patch` per item, in order, with the address parsed and `on`/`off` copied |
| Catalogue.UnionOptions | src/patchtool.cc:196-205 | no option is named `rva` or `offset` |
| Catalogue.UnionRva | src/patchtool.cc:194-199 | a union without an `rva` member has an empty address |
| Catalogue.ParseDefault | src/patchtool.cc:179-190 | the loop over `patches` gives `Default(DefaultEdits(items))` |
| Catalogue.ParseUnion | src/patchtool.cc:194-207 | the loop over the members gives the union with `UnionRva` as its address, `default` as its `off` and `UnionOptions` as its options |
| Catalogue.EntryPatch | src/patchtool.cc:177-221 | defines the type dispatch: a `default`, `union` or `number` entry gives its patch with the address parsed, any other type gives nothing; its properties are in `UnknownTypeSkipped`, `CatalogueKeys` and `CatalogueLastWins` |
| Catalogue.CatalogueOf | src/patchtool.cc:172-222 | defines `container.patches` after `container.patches[name] = …` for every recognised entry in document order; its properties are in `CatalogueKeys`, `CatalogueLastWins` and `UnknownTypeSkipped`, and `BuildCatalogue` computes it |
| Catalogue.BuildCatalogue | src/patchtool.cc:172-222 | the loop over `data` gives the container with `CatalogueOf(entries)` as its patches and the file and validation lines given |
| Catalogue.CatalogueKeys | src/patchtool.cc:172-222 | a name is in the catalogue iff some entry of type `default`, `union` or `number` carries it |
| Catalogue.CatalogueLastWins | src/patchtool.cc:172-222 | the patch stored under a name is that of the last recognised entry with the name |
| Catalogue.UnknownTypeSkipped | src/patchtool.cc:177-221 | an entry of any other type leaves the catalogue unchanged |
| Catalogue.UnionOptionsAppend | src/patchtool.cc:196-205 | options keep document order: the options of `a + b` are those of `a`, then those of `b` |
| Catalogue.UnionOptionsMembers | src/patchtool.cc:196-205 | every member not named `rva` or `offset` is an option, with its own name and bytes, and every option is such a member |
| Catalogue.UnionRvaLast | src/patchtool.cc:198-199 | the address comes from the last `rva` member, parsed |
| Directives.Format | src/patchtool.cc:318-320 | defines the payload line: `"# "` when disabled, then `file rva bytes`, then ` off` when present; its properties are in `FormatParse`, `SplitFields` and `MarkerOpening` |
| Directives.FormatParse | src/patchtool.cc:318-320 | a payload line with plain fields parses back to its directive, so no two such directives share a text |
| Directives.SplitFields | src/patchtool.cc:319-320 | the fields of a line are file, rva and bytes, then `off` when present |
| Render.Enabled | src/patchtool.cc:316 | defines the test that turns a default patch on: the value is exactly `"1"`, `"on"` or `"true"`; used by `DefaultLines` and `DefaultToggle` |
| Render.DefaultLines | src/patchtool.cc:316-320 | one payload line per `byte_patch`, in order: `file rva on`, then `off` unless `--no-verify`, enabled by the value |
| Render.ValidationLines | src/patchtool.cc:290-292 | one raw line per validation string, in order |
| Render.DefaultToggle | src/patchtool.cc:316-320 | line i of a default patch opens with `"# "` iff the value is not `"1"`, `"on"` or `"true"`, for any file name other than `"#"` or one opening with `"# "` (spaces in it allowed) |
| Directives.MarkerOpening | src/patchtool.cc:318-319 | any payload line opens with `"# "` iff it is disabled, provided the file name is not `"#"` and does not open with `"# "` |
| Render.OptionLines | src/patchtool.cc:326-332 | defines one option's lines: nothing when the value differs and `--union-all-opts` is off, else `### name` and a payload enabled iff the value names it; its properties are in `UnionSelectedOnly`, `UnionSingleChoice` and `UnionAllOptions` |
| Render.UnionLines | src/patchtool.cc:324-333 | defines a union's lines: those of each option, in order; its properties are in `UnionSelectedOnly`, `UnionSingleChoice`, `UnionAllOptions` and `UnionVerifyField` |
| Render.UnionSelectedOnly | src/patchtool.cc:324-333 | without `--union-all-opts`, every payload line is enabled, at the union's address, with the shared `off`; a value naming no option renders nothing |
| Render.UnionSingleChoice | src/patchtool.cc:324-333 | without `--union-all-opts`, when exactly one option has the value's name, the output is `### name` and its enabled payload, and nothing else |
| Render.UnionAllOptions | src/patchtool.cc:324-333 | with `--union-all-opts`, every option renders `### name` and its payload, in order; the payload is enabled iff the value names the option |
| Render.NumberLines | src/patchtool.cc:337-341 | defines a number patch's rendering: `BadNumber` when `std::stoll` fails, `OutOfRange` outside the inclusive `[min, max]`, else one enabled payload line with the encoded value; its properties are in `NumberRendered` and `NumberBounds` |
| Render.NumberRendered | src/patchtool.cc:337-341 | a number renders iff the parse succeeds and the value is in `[min, max]`; a parsed value outside is `OutOfRange`; the rendered line is enabled and its digits are `2 size` hex digits that read back as the number modulo `2^(8 size)` |
| Render.NumberBounds | src/patchtool.cc:338-339 | the bounds are inclusive: `min` and `max` render, `min - 1` and `max + 1` fail |
| Render.UnionVerifyField | src/patchtool.cc:330-332 | every union payload line has the `off` field iff `--no-verify` is off |
| Render.PatchVerifyField | src/patchtool.cc:310-343 | for every variant, a payload line has the `off` field iff `--no-verify` is off |
| Render.ProfileVerifyField | src/patchtool.cc:295-344 | the same for every payload line of a rendered profile |
| Render.PatchLines | src/patchtool.cc:310-343 | defines the `std::visit` over the three variants; its properties are in `PatchVerifyField` and the variant lemmas |
| Render.SelectionLines | src/patchtool.cc:297-343 | defines one selection's lines: nothing for a name the catalogue lacks, else `Blank`, `Section(name)` and the patch's lines, or the patch's failure; its property is in `SelectionSections` |
| Render.ProfileLines | src/patchtool.cc:295-344 | defines a profile's selections in order, the first failure ending it; its properties are in `ProfileSections`, `ProfileOpens` and `ProfileVerifyField` |
| Render.Header | src/patchtool.cc:289-293 | defines what the `call_once` adds: the validation lines while the flag is unset, else nothing; its properties are in `ValidationOnlyInFirst` and `ProfileIgnoresValidation` |
| Render.BufferLines | src/patchtool.cc:286-344 | defines a profile's whole buffer: the header, then the profile's lines, or the failure; `RenderProfile` computes it |
| Render.FoundMembers | src/patchtool.cc:297-306 | a name is found in a profile iff the catalogue holds it and some selection names it |
| Render.SelectionSections | src/patchtool.cc:297-308 | a selection adds exactly one `## name` line when found, and none when the catalogue lacks it |
| Render.ProfileSections | src/patchtool.cc:295-344 | the `Section` (`## name`) lines of a profile are the found selections, one each, in profile order |
| Render.ProfileOpens | src/patchtool.cc:308 | a profile's non-empty lines open with the empty line and then a `## name` line |
| Render.TextEmpty | src/patchtool.cc:346 | a buffer is empty iff it holds no line |
| Render.TextAppend | src/patchtool.cc:286-344 | appending to the buffer: the text of two runs of lines is the two texts, one after the other |
| Render.TextFirst | src/patchtool.cc:352 | a buffer is its first line, `"\n"`, then the rest |
| Driver.DefaultText | src/patchtool.cc:316-320 | the loop appends exactly the text of `DefaultLines` |
| Driver.UnionText | src/patchtool.cc:324-333 | the loop appends exactly the text of `UnionLines`, skipping unselected options unless `--union-all-opts` |
| Driver.NumberText | src/patchtool.cc:337-341 | parse, range check and encode: the failure of `NumberLines`, or its text; a patch of any width may fail, only an encoded one must be at most 8 bytes wide |
| Driver.HeaderText | src/patchtool.cc:289-293 | the `call_once` body appends each validation line followed by `"\n"` |
| Driver.SelectionText | src/patchtool.cc:297-343 | a name not in the catalogue adds nothing; a found one adds `"\n## name\n"` and its variant's text, or fails as the variant does; it requires only that a number patch it actually encodes is at most 8 bytes wide |
| Driver.RenderProfile | src/patchtool.cc:286-344 | the loop over one profile gives the text of `BufferLines` or its failure; on success `remaining` is `unmatched` minus the names found; wide number patches it never encodes are allowed |
| Driver.Run | src/patchtool.cc:280-356 | the loop over the profiles, with `firstDone` and `unmatched`, computes exactly `RunAll`, for every catalogue whose only wide number patches are ones the run never encodes |
| Driver.Stripped | src/patchtool.cc:352-353 | defines the erase of one leading `'\n'`; its property is in `BufferWritten` |
| Driver.Written | src/patchtool.cc:346-355 | defines what one buffer writes: nothing when empty, else one file holding the stripped buffer; its properties are in `BufferWritten` and `WrittenWithoutHeader` |
| Driver.RunFrom | src/patchtool.cc:284-356 | defines the run over the remaining profiles with the once-flag pending or not and the names still unmatched, ending at the first failure; its properties are in `RunUnmatched`, `RunCompletes`, `RunAborted` and `ValidationOnlyInFirst` |
| Driver.RunAll | src/patchtool.cc:280-356 | defines the whole run: the flag pending and every catalogue name unmatched at the start; its property is in `UnusedReported`, and `Run` computes it |
| Driver.BufferWritten | src/patchtool.cc:346-355 | no file is written iff the buffer has no line; a buffer whose first line is empty is written without it; one whose first line opens with another character is written unchanged |
| Driver.WrittenWithoutHeader | src/patchtool.cc:346-355 | after the first profile, a profile that finds a selection writes a file opening with `## ` and the first found name: the `"\n"` removed is that of the section's empty line |
| Driver.RunUnmatched | src/patchtool.cc:280-306 | when the run completes, `unmatched` is the initial names minus every name found by any profile |
| Driver.FoundAllMembers | src/patchtool.cc:297-306 | a name is found by the run iff the catalogue holds it and some profile selects it |
| Driver.UnusedReported | src/patchtool.cc:280-359 | after a completed run, a name is reported unused iff it is in the catalogue and no profile selects it |
| Driver.RunCompletes | src/patchtool.cc:284-356 | a run completes iff every profile renders without a failure |
| Driver.RunAborted | src/patchtool.cc:284-356 | the first failing profile ends the run with its failure; the files written are those of the earlier profiles |
| Driver.ProfileIgnoresValidation | src/patchtool.cc:295-344 | a profile's lines and found names do not depend on the validation lines |
| Driver.ValidationOnlyInFirst | src/patchtool.cc:287-293 | once the flag has fired, the rest of the run is the same whatever the validation lines are: they reach only the first buffer |
| FilenameTemplate.ReplaceAll | src/patchtool.cc:246-249 | defines `std::regex_replace` with a literal token: each occurrence, leftmost first, replaced; its properties are in `ReplaceAbsent`, `ReplaceFirst` and `ReplacePrefix` |
| FilenameTemplate.Substituted | src/patchtool.cc:246-249 | defines the two replacements in the order of the loop, input stem first; its properties are in `InputExample` and `PassesInOrder`, and `OutputName` computes it |
| FilenameTemplate.OutputName | src/patchtool.cc:246-249 | the loop over the two (token, replacement) pairs gives `Substituted(key, inputStem, profileStem)` |
| FilenameTemplate.ReplaceAbsent | src/patchtool.cc:249 | a name without the token is left as it is |
| FilenameTemplate.ReplaceFirst | src/patchtool.cc:249 | the leftmost occurrence is replaced, and the scan resumes after it |
| FilenameTemplate.ReplacePrefix | src/patchtool.cc:249 | a name opening with the token gets the replacement, then the rest with its occurrences replaced |
| FilenameTemplate.InputExample | src/patchtool.cc:247 | `"${INPUT_FILENAME}.txt"` for input `game` names `game.txt` |
| FilenameTemplate.PassesInOrder | src/patchtool.cc:246-249 | the passes are sequential: a profile token that the input stem brings in is replaced by the second pass |
| Scenarios.GameCatalogue | src/patchtool.cc:172-222 | three entries give the expected catalogue: `0x` stripped, `rva` not an option, the unknown type skipped |
| Scenarios.HpPatch | src/patchtool.cc:337-341 | 4660 in a two-byte field is written `3412`; 70000 is out of range |
| Scenarios.OneProfileRun | src/patchtool.cc:284-359 | one profile with one found and one unknown name writes `"## p1\ngame.exe 100 90 55\n"`, or `"## p1\ngame.exe 100 90\n"` under `--no-verify`, and reports p2 unused |
| Scenarios.NumberRun | src/patchtool.cc:284-356 | the first profile gets the validation line, then the encoded number; the second is out of range and aborts the run, leaving the first file |
| Scenarios.WideNumberAllowed | src/patchtool.cc:337-340 | a 16-byte number patch whose out-of-range value ends the run before any value is encoded meets `Run`'s requirement, and the run aborts with `OutOfRange(5)` and no file |

## Left out

- `parse_argv` (src/patchtool.cc:81-130) is not part of this model. It relies on an
  argument library, checks the filesystem and creates directories.
- Reading the metadata and profile documents (rapidjson, yaml-cpp) is not modelled.
  The catalogue is built from `Catalogue.Entry` values that are already typed, in
  document order. The profiles are given as `Patches.Profile` values.
- The profile document's shape checks are not modelled. These are the "unexpected
  profile format" error, and the warning and skip for a list that is not a sequence.
  Nor is the use of only the first key of each profile item.
- Catalogue.BuildCatalogue: requires `AllWellShaped`, which says each recognised
  entry has the fields its type reads. rapidjson assumes those fields, so a document
  without them is outside what the source handles.
- File writing, and every message printed to stdout and stderr, is not modelled. A
  written file is returned as an `OutputFile`. The unused names are returned in
  `Completed`, and the warnings for missing names are left out.
- Driver.Run: `unmatched` is a set. In the source it is a vector built from the keys
  of an `unordered_map` and printed in that order, and that order is not specified.
- Driver.Run, Driver.RenderProfile, Driver.SelectionText and Driver.NumberText
  require that every number patch the run actually encodes is at most 8 bytes wide
  (`RunDefined`, `ProfileDefined`, `SelectionDefined`, `EncodeDefined`). A patch is
  encoded when a selection the run reaches names it and `std::stoll` reads its value
  within `[min, max]`. Encoding a wider one makes `encode` shift a 64-bit value by
  64 or more, which is undefined behaviour. Wide patches that are unused, whose
  value does not parse or is out of range, or that come after the failure that
  ends the run, are allowed and rendered as the source renders them.
- NumberEncoding.Encode: requires `size <= 8`, for the same reason.
  `LittleEndianHex` itself is defined for every size.
- `std::stoll` is the parameter `parse: string -> Option<Int64>`; its results lie in
  the range of `long long`. `None` stands for any exception it throws, including
  `out_of_range` for a number beyond that range, and the run then aborts with
  `BadNumber`. Its handling of
  leading whitespace and trailing text is not modelled.
- FilenameTemplate.ReplaceAll: `std::regex` is modelled as a literal replace-all of
  the token. `$` sequences in the replacement, which `std::regex_replace` would
  interpret, are not modelled.
- The stems, `filename().replace_extension("")` of the input and profile paths, are
  parameters. Joining the output directory and the name (`options.output / fname`)
  is not modelled, so `Profile.path` is the final path.
- The `static` once-flag is shared by every call of `main` in one process. The model
  covers a single run.

### Where the documented behaviour and the code differ

The model follows the code in each case.

- `parse_address` removes one leading `"0x"` only (src/patchtool.cc:166-167), so a
  stored address can still start with `0x` (`Catalogue.ParseAddressOnce`).
- The once-flag fires in the first profile whether or not its buffer is written
  (src/patchtool.cc:287-293). A first profile that finds nothing still consumes it:
  it writes a file holding only the validation lines (or no file when there are
  none), and no later profile gets them.
- The line removed at src/patchtool.cc:352-353 is the empty line that opens every
  section. A profile with validation lines keeps that empty line between them and
  its first section (`Scenarios.NumberRun`).
- A buffer of a single `"\n"` (one empty validation line) is not empty. It is
  written as an empty file (`Driver.BufferWritten`).
- The output path of a profile is the YAML key with both tokens substituted, in
  order (src/patchtool.cc:246-249). A token brought in by the input stem is
  substituted again (`FilenameTemplate.PassesInOrder`).
