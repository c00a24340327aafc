/**
 * The patch data model of src/patchtool.cc: the three patch variants held by the
 * catalogue, the catalogue itself (container_t), the profiles (profile_t) and the
 * two command-line switches the renderer consumes.
 */
module Patches {

  /** std::int32_t */
  type Int32 = x: int | -0x8000_0000 <= x < 0x8000_0000

  /** long long, the type std::stoll returns */
  type Int64 = x: int | -0x8000_0000_0000_0000 <= x < 0x8000_0000_0000_0000

  /** std::uint32_t */
  type UInt32 = x: int | 0 <= x < 0x1_0000_0000

  /** One toggled location of a default patch (byte_patch). */
  datatype ByteEdit = ByteEdit(rva: string, on: string, off: string)

  /** One named payload of a union patch (union_option). */
  datatype UnionOption = UnionOption(name: string, bytes: string)

  /** The variant held for one catalogue name (container_t::patch_t). */
  datatype Patch =
    | Default(edits: seq<ByteEdit>)
    | Union(rva: string, off: string, options: seq<UnionOption>)
    | Number(rva: string, off: string, min: Int32, max: Int32, size: UInt32)

  /**
   * The catalogue (container_t): the target file name, the patches by name and the
   * validation lines.
   */
  datatype Container = Container(file: string, patches: map<string, Patch>, validate: seq<string>)

  /** One (patch name, value) pair of a profile, in profile order. */
  datatype Selection = Selection(name: string, value: string)

  /** One output target (profile_t): the output path, taken as already final, and its selections. */
  datatype Profile = Profile(path: string, selections: seq<Selection>)

  /** The switches --no-verify and --union-all-opts (opts_t::no_verify, opts_t::union_all_opts). */
  datatype Config = Config(noVerify: bool, unionAllOpts: bool)
}
