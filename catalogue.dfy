/**
 * Catalogue construction in parse_metadata (src/patchtool.cc): every member of the
 * metadata document's `data` object becomes one patch of container_t::patches,
 * according to its `type`.
 *
 * The JSON document itself is not modelled: an Entry is one member of `data`
 * already read into a typed body, in document order.
 */
module Catalogue {
  import opened Wrappers
  import opened Patches
  import Seqs

  /** Does s begin with the characters of prefix? */
  predicate StartsWith(s: string, prefix: string)
  {
    |prefix| <= |s| && s[..|prefix|] == prefix
  }

  /**
   * `parse_address`: an address is copied and one leading "0x" erased. Only one is
   * erased, so "0x0x1" becomes "0x1".
   */
  function ParseAddress(value: string): (r: string)
    ensures StartsWith(value, "0x") ==> "0x" + r == value
    ensures !StartsWith(value, "0x") ==> r == value
  {
    if StartsWith(value, "0x") then value[2..] else value
  }

  /** A `default` entry's `patches` item as written: `rva` still carries its prefix. */
  datatype RawEdit = RawEdit(rva: string, on: string, off: string)

  /** The fields of a `data` member that its `type` selects. */
  datatype Body =
    | DefaultBody(items: seq<RawEdit>)
      /** `default` string and the members of the `patches` object, in document order. */
    | UnionBody(default: string, members: seq<(string, string)>)
    | NumberBody(rva: string, off: string, min: Int32, max: Int32, size: UInt32)
      /** The body of an entry whose type is none of the three. */
    | OtherBody

  /** One member of `data`: its key, its `type` and its body. */
  datatype Entry = Entry(name: string, kind: string, body: Body)

  /** The three type names parse_metadata dispatches on. */
  predicate Recognised(kind: string)
  {
    kind == "default" || kind == "union" || kind == "number"
  }

  /**
   * The document has the fields its type reads. rapidjson's accessors assume them,
   * so a document without them is outside what the source handles.
   */
  predicate WellShaped(e: Entry)
  {
    && (e.kind == "default" ==> e.body.DefaultBody?)
    && (e.kind == "union" ==> e.body.UnionBody?)
    && (e.kind == "number" ==> e.body.NumberBody?)
  }

  predicate AllWellShaped(entries: seq<Entry>)
  {
    forall i :: 0 <= i < |entries| ==> WellShaped(entries[i])
  }

  /** The byte_patch list of a `default` entry: one per item, in order, address parsed. */
  function DefaultEdits(items: seq<RawEdit>): (r: seq<ByteEdit>)
    ensures |r| == |items|
    ensures forall i :: 0 <= i < |items| ==>
      r[i] == ByteEdit(ParseAddress(items[i].rva), items[i].on, items[i].off)
  {
    if items == [] then []
    else
      var last := items[|items| - 1];
      DefaultEdits(items[..|items| - 1]) + [ByteEdit(ParseAddress(last.rva), last.on, last.off)]
  }

  /** A member name that is not an option of a union. */
  predicate IsUnionKey(name: string)
  {
    name == "rva" || name == "offset"
  }

  /** The options of a `union` entry: the `patches` members other than `rva` and `offset`. */
  function UnionOptions(members: seq<(string, string)>): (r: seq<UnionOption>)
    ensures forall k :: 0 <= k < |r| ==> !IsUnionKey(r[k].name)
  {
    if members == [] then []
    else
      var last := members[|members| - 1];
      UnionOptions(members[..|members| - 1]) + (if IsUnionKey(last.0) then [] else [UnionOption(last.0, last.1)])
  }

  /** The address of a `union` entry: the last `rva` member, parsed; empty when there is none. */
  function UnionRva(members: seq<(string, string)>): (r: string)
    ensures (forall k :: 0 <= k < |members| ==> members[k].0 != "rva") ==> r == ""
  {
    if members == [] then ""
    else
      var last := members[|members| - 1];
      if last.0 == "rva" then ParseAddress(last.1) else UnionRva(members[..|members| - 1])
  }

  /** The patch an entry stores, or None when its type is not recognised. */
  function EntryPatch(e: Entry): (r: Option<Patch>)
    requires WellShaped(e)
  {
    if e.kind == "default" then Some(Default(DefaultEdits(e.body.items)))
    else if e.kind == "union" then Some(Union(UnionRva(e.body.members), e.body.default, UnionOptions(e.body.members)))
    else if e.kind == "number" then
      Some(Number(ParseAddress(e.body.rva), e.body.off, e.body.min, e.body.max, e.body.size))
    else None
  }

  /** container_t::patches after every entry has been read, in order. */
  function CatalogueOf(entries: seq<Entry>): map<string, Patch>
    requires AllWellShaped(entries)
  {
    if entries == [] then map[]
    else
      var last := entries[|entries| - 1];
      var earlier := CatalogueOf(entries[..|entries| - 1]);
      match EntryPatch(last)
      case None => earlier
      case Some(p) => earlier[last.name := p]
  }

  // ---------------------------------------------------------------------------
  // The loops of parse_metadata
  // ---------------------------------------------------------------------------

  /** The `default` branch: the loop over the `patches` array. */
  method ParseDefault(items: seq<RawEdit>) returns (result: Patch)
    ensures result == Default(DefaultEdits(items))
  {
    var edits: seq<ByteEdit> := [];
    var i := 0;
    while i < |items|
      invariant 0 <= i <= |items|
      invariant edits == DefaultEdits(items[..i])
    {
      var rva := ParseAddress(items[i].rva);
      edits := edits + [ByteEdit(rva, items[i].on, items[i].off)];
      Seqs.PrefixSnoc(items, i);
      i := i + 1;
    }
    Seqs.Whole(items);
    result := Default(edits);
  }

  /** The `union` branch: the loop over the members of the `patches` object. */
  method ParseUnion(default: string, members: seq<(string, string)>) returns (result: Patch)
    ensures result == Union(UnionRva(members), default, UnionOptions(members))
  {
    var rva := "";
    var options: seq<UnionOption> := [];
    var i := 0;
    while i < |members|
      invariant 0 <= i <= |members|
      invariant rva == UnionRva(members[..i])
      invariant options == UnionOptions(members[..i])
    {
      var (option, bytes) := members[i];
      Seqs.PrefixSnoc(members, i);
      if option == "rva" {
        rva := ParseAddress(bytes);
      }
      if !(option == "offset" || option == "rva") {
        options := options + [UnionOption(option, bytes)];
      }
      i := i + 1;
    }
    Seqs.Whole(members);
    result := Union(rva, default, options);
  }

  /**
   * parse_metadata from the document's `file`, its validation lines and the members
   * of `data`: each recognised entry is stored under its name, replacing any
   * earlier one.
   */
  method BuildCatalogue(file: string, validate: seq<string>, entries: seq<Entry>) returns (c: Container)
    requires AllWellShaped(entries)
    ensures c == Container(file, CatalogueOf(entries), validate)
  {
    var patches: map<string, Patch> := map[];
    var i := 0;
    while i < |entries|
      invariant 0 <= i <= |entries|
      invariant patches == CatalogueOf(entries[..i])
    {
      var e := entries[i];
      Seqs.PrefixSnoc(entries, i);
      if e.kind == "default" {
        var p := ParseDefault(e.body.items);
        patches := patches[e.name := p];
      } else if e.kind == "union" {
        var p := ParseUnion(e.body.default, e.body.members);
        patches := patches[e.name := p];
      } else if e.kind == "number" {
        var p := Number(ParseAddress(e.body.rva), e.body.off, e.body.min, e.body.max, e.body.size);
        patches := patches[e.name := p];
      }
      i := i + 1;
    }
    Seqs.Whole(entries);
    c := Container(file, patches, validate);
  }

  // ---------------------------------------------------------------------------
  // Properties
  // ---------------------------------------------------------------------------

  /** The address "0x" + t is stored as t. */
  lemma ParseAddressStripsPrefix(t: string)
    ensures ParseAddress("0x" + t) == t
  {
    assert StartsWith("0x" + t, "0x");
  }

  /** Only one prefix is erased: parse_address is not idempotent. */
  lemma ParseAddressOnce()
    ensures ParseAddress("0x0x1") == "0x1"
    ensures ParseAddress(ParseAddress("0x0x1")) == "1"
  {
    ParseAddressStripsPrefix("0x1");
    ParseAddressStripsPrefix("1");
  }

  /** A name is in the catalogue exactly when some entry of a recognised type carries it. */
  lemma {:induction false} CatalogueKeys(entries: seq<Entry>, name: string)
    requires AllWellShaped(entries)
    ensures name in CatalogueOf(entries) <==>
      exists i :: 0 <= i < |entries| && entries[i].name == name && Recognised(entries[i].kind)
  {
    if entries != [] {
      var init := entries[..|entries| - 1];
      CatalogueKeys(init, name);
      if exists i :: 0 <= i < |init| && init[i].name == name && Recognised(init[i].kind) {
        var i :| 0 <= i < |init| && init[i].name == name && Recognised(init[i].kind);
        assert entries[i] == init[i];
      }
      if exists i :: 0 <= i < |entries| && entries[i].name == name && Recognised(entries[i].kind) {
        var i :| 0 <= i < |entries| && entries[i].name == name && Recognised(entries[i].kind);
        if i < |init| {
          assert init[i] == entries[i];
        }
      }
    }
  }

  /**
   * Later entries overwrite earlier ones: the patch stored under a name is the one
   * of the last recognised entry with that name.
   */
  lemma {:induction false} CatalogueLastWins(entries: seq<Entry>, i: nat)
    requires AllWellShaped(entries)
    requires i < |entries| && Recognised(entries[i].kind)
    requires forall j :: i < j < |entries| && entries[j].name == entries[i].name ==> !Recognised(entries[j].kind)
    ensures entries[i].name in CatalogueOf(entries)
    ensures CatalogueOf(entries)[entries[i].name] == EntryPatch(entries[i]).value
  {
    var init := entries[..|entries| - 1];
    if i < |init| {
      assert forall j :: i < j < |init| ==> init[j] == entries[j];
      CatalogueLastWins(init, i);
      assert init[i] == entries[i];
    }
  }

  /** An entry of an unrecognised type leaves the catalogue as it was. */
  lemma UnknownTypeSkipped(entries: seq<Entry>, e: Entry)
    requires AllWellShaped(entries) && !Recognised(e.kind)
    ensures AllWellShaped(entries + [e])
    ensures CatalogueOf(entries + [e]) == CatalogueOf(entries)
  {
    assert (entries + [e])[..|entries|] == entries;
  }

  /** Option lists keep document order: the options of a concatenation concatenate. */
  lemma {:induction false} UnionOptionsAppend(a: seq<(string, string)>, b: seq<(string, string)>)
    ensures UnionOptions(a + b) == UnionOptions(a) + UnionOptions(b)
  {
    if b != [] {
      var b' := b[..|b| - 1];
      assert (a + b)[..|a + b| - 1] == a + b';
      UnionOptionsAppend(a, b');
    } else {
      assert a + b == a;
    }
  }

  /**
   * Exactly the members other than `rva` and `offset` become options, each with its
   * own name and bytes.
   */
  lemma {:induction false} UnionOptionsMembers(members: seq<(string, string)>)
    ensures forall k :: 0 <= k < |members| && !IsUnionKey(members[k].0) ==>
      UnionOption(members[k].0, members[k].1) in UnionOptions(members)
    ensures forall o :: o in UnionOptions(members) ==> (o.name, o.bytes) in members
  {
    if members != [] {
      var init := members[..|members| - 1];
      UnionOptionsMembers(init);
      assert forall k :: 0 <= k < |init| ==> members[k] == init[k];
    }
  }

  /** The address of a union comes from its last `rva` member. */
  lemma {:induction false} UnionRvaLast(members: seq<(string, string)>, k: nat)
    requires k < |members| && members[k].0 == "rva"
    requires forall j :: k < j < |members| ==> members[j].0 != "rva"
    ensures UnionRva(members) == ParseAddress(members[k].1)
  {
    var init := members[..|members| - 1];
    if k < |init| {
      assert forall j :: k < j < |init| ==> init[j] == members[j];
      UnionRvaLast(init, k);
      assert init[k] == members[k];
    }
  }
}
