/**
 * What the render loop of main (src/patchtool.cc) writes into a profile's buffer,
 * as lines: the validation lines when the run-wide once-flag is still unset, and
 * for every selection found in the catalogue a blank line, "## name" and the lines
 * of its patch variant. The buffer is the lines, each followed by "\n".
 */
module Render {
  import opened Wrappers
  import opened Patches
  import opened Directives
  import NumberEncoding
  import Seqs

  /** One line of a buffer, without its "\n". */
  datatype Line =
      /** a validation line, written as it is */
    | Raw(text: string)
      /** the empty line that opens every section */
    | Blank
      /** "## name" */
    | Section(name: string)
      /** "### option", before each rendered union option */
    | Choice(name: string)
    | Payload(d: Directive)

  function LineText(l: Line): string
  {
    match l
    case Raw(t) => t
    case Blank => ""
    case Section(n) => "## " + n
    case Choice(n) => "### " + n
    case Payload(d) => Format(d)
  }

  /** The buffer that holds these lines: each line and then "\n". */
  function Text(lines: seq<Line>): (s: string)
    ensures |s| >= |lines|
  {
    if lines == [] then ""
    else Text(lines[..|lines| - 1]) + LineText(lines[|lines| - 1]) + "\n"
  }

  /**
   * Why a run stops: std::stoll cannot read the value (it throws), or the number
   * lies outside [min, max] ("number patch value out of range").
   */
  datatype Failure = BadNumber(value: string) | OutOfRange(number: int)

  /**
   * The value that turns a default patch on. The comparison is exact: "On", "yes"
   * and "0" leave it off.
   */
  predicate Enabled(value: string)
  {
    value == "1" || value == "on" || value == "true"
  }

  /** The trailing original-bytes field of a payload line, absent under --no-verify. */
  function Verify(cfg: Config, off: string): Option<string>
  {
    if cfg.noVerify then None else Some(off)
  }

  /** A default patch: one payload line per byte edit, all on or all off. */
  function DefaultLines(file: string, edits: seq<ByteEdit>, value: string, cfg: Config): (r: seq<Line>)
    ensures |r| == |edits|
    ensures forall i :: 0 <= i < |edits| ==>
      r[i] == Payload(Directive(Enabled(value), file, edits[i].rva, edits[i].on, Verify(cfg, edits[i].off)))
  {
    if edits == [] then []
    else
      var e := edits[|edits| - 1];
      DefaultLines(file, edits[..|edits| - 1], value, cfg)
        + [Payload(Directive(Enabled(value), file, e.rva, e.on, Verify(cfg, e.off)))]
  }

  /**
   * One union option: "### name" and its payload, on when the value names it; an
   * option the value does not name is left out unless --union-all-opts.
   */
  function OptionLines(file: string, rva: string, off: string, o: UnionOption, value: string, cfg: Config): seq<Line>
  {
    if o.name != value && !cfg.unionAllOpts then []
    else [Choice(o.name), Payload(Directive(o.name == value, file, rva, o.bytes, Verify(cfg, off)))]
  }

  /** A union patch: its options in order. */
  function UnionLines(file: string, rva: string, off: string, options: seq<UnionOption>, value: string, cfg: Config): seq<Line>
  {
    if options == [] then []
    else
      UnionLines(file, rva, off, options[..|options| - 1], value, cfg)
        + OptionLines(file, rva, off, options[|options| - 1], value, cfg)
  }

  /**
   * A number patch: the value read by `parse` (std::stoll), checked against
   * [min, max] and encoded in `size` little-endian bytes.
   */
  function NumberLines(file: string, p: Patch, value: string, cfg: Config, parse: string -> Option<Int64>): Result<seq<Line>, Failure>
    requires p.Number?
  {
    match parse(value)
    case None => Err(BadNumber(value))
    case Some(n) =>
      if n < p.min || n > p.max then Err(OutOfRange(n))
      else Ok([Payload(Directive(true, file, p.rva, NumberEncoding.LittleEndianHex(n, p.size), Verify(cfg, p.off)))])
  }

  /** The std::visit over the three variants. */
  function PatchLines(file: string, p: Patch, value: string, cfg: Config, parse: string -> Option<Int64>): Result<seq<Line>, Failure>
  {
    match p
    case Default(edits) => Ok(DefaultLines(file, edits, value, cfg))
    case Union(rva, off, options) => Ok(UnionLines(file, rva, off, options, value, cfg))
    case Number(_, _, _, _, _) => NumberLines(file, p, value, cfg, parse)
  }

  /** One selection: nothing when the catalogue has no such name, else its section. */
  function SelectionLines(c: Container, cfg: Config, parse: string -> Option<Int64>, s: Selection): Result<seq<Line>, Failure>
  {
    if s.name !in c.patches then Ok([])
    else
      match PatchLines(c.file, c.patches[s.name], s.value, cfg, parse)
      case Err(f) => Err(f)
      case Ok(body) => Ok([Blank, Section(s.name)] + body)
  }

  /** The selections of a profile in order; the first failure stops the profile. */
  function ProfileLines(c: Container, cfg: Config, parse: string -> Option<Int64>, sels: seq<Selection>): Result<seq<Line>, Failure>
  {
    if sels == [] then Ok([])
    else
      match ProfileLines(c, cfg, parse, sels[..|sels| - 1])
      case Err(f) => Err(f)
      case Ok(earlier) =>
        match SelectionLines(c, cfg, parse, sels[|sels| - 1])
        case Err(f) => Err(f)
        case Ok(more) => Ok(earlier + more)
  }

  /** The validation lines, one per string. */
  function ValidationLines(validate: seq<string>): (r: seq<Line>)
    ensures |r| == |validate|
    ensures forall i :: 0 <= i < |validate| ==> r[i] == Raw(validate[i])
  {
    if validate == [] then []
    else ValidationLines(validate[..|validate| - 1]) + [Raw(validate[|validate| - 1])]
  }

  /** What the call_once adds: the validation lines while the flag is unset, else nothing. */
  function Header(c: Container, pending: bool): seq<Line>
  {
    if pending then ValidationLines(c.validate) else []
  }

  /** A whole profile buffer, as lines. */
  function BufferLines(c: Container, cfg: Config, parse: string -> Option<Int64>, sels: seq<Selection>, pending: bool): Result<seq<Line>, Failure>
  {
    match ProfileLines(c, cfg, parse, sels)
    case Err(f) => Err(f)
    case Ok(body) => Ok(Header(c, pending) + body)
  }

  /** The names of a profile's selections that the catalogue holds. */
  function Found(c: Container, sels: seq<Selection>): set<string>
  {
    if sels == [] then {}
    else
      var s := sels[|sels| - 1];
      Found(c, sels[..|sels| - 1]) + (if s.name in c.patches then {s.name} else {})
  }

  /** The same names as a list in profile order, a repeated selection repeated. */
  function FoundNames(c: Container, sels: seq<Selection>): seq<string>
  {
    if sels == [] then []
    else
      var s := sels[|sels| - 1];
      FoundNames(c, sels[..|sels| - 1]) + (if s.name in c.patches then [s.name] else [])
  }

  /** The names of the "## " lines of a buffer, in order. */
  function SectionNames(lines: seq<Line>): seq<string>
  {
    if lines == [] then []
    else
      var l := lines[|lines| - 1];
      SectionNames(lines[..|lines| - 1]) + (if l.Section? then [l.name] else [])
  }

  // ---------------------------------------------------------------------------
  // Text
  // ---------------------------------------------------------------------------

  /** Appending one line appends its text and "\n". */
  lemma TextSnoc(lines: seq<Line>, l: Line)
    ensures Text(lines + [l]) == Text(lines) + LineText(l) + "\n"
  {
    assert (lines + [l])[..|lines|] == lines;
  }

  /** The buffer of two runs of lines is the two buffers one after the other. */
  lemma {:induction false} TextAppend(a: seq<Line>, b: seq<Line>)
    ensures Text(a + b) == Text(a) + Text(b)
  {
    if b == [] {
      assert a + b == a;
    } else {
      var b', l := b[..|b| - 1], b[|b| - 1];
      assert a + b == (a + b') + [l];
      TextSnoc(a + b', l);
      TextSnoc(b', l);
      assert b' + [l] == b;
      TextAppend(a, b');
      Seqs.Assoc(Text(a), Text(b'), LineText(l) + "\n");
      Seqs.Assoc(Text(a + b'), LineText(l), "\n");
      Seqs.Assoc(Text(b'), LineText(l), "\n");
    }
  }

  /** A buffer is empty exactly when it holds no line. */
  lemma TextEmpty(lines: seq<Line>)
    ensures Text(lines) == "" <==> lines == []
  {
  }

  /** The buffer opens with the first line's text and its "\n" and then the rest. */
  lemma TextFirst(lines: seq<Line>)
    requires lines != []
    ensures Text(lines) == LineText(lines[0]) + "\n" + Text(lines[1..])
  {
    assert lines == [lines[0]] + lines[1..];
    TextAppend([lines[0]], lines[1..]);
    assert [lines[0]][..0] == [];
  }

  // ---------------------------------------------------------------------------
  // Properties of the variants
  // ---------------------------------------------------------------------------

  /**
   * The default patch's lines are commented out exactly when the value is not "1",
   * "on" or "true". The line opens with the file name when it is on, so the file name
   * must not itself look like the marker: "#" alone, or a name opening with "# ".
   */
  lemma DefaultToggle(file: string, edits: seq<ByteEdit>, value: string, cfg: Config, i: nat)
    requires i < |edits|
    requires file != "#" && !(|file| >= 2 && file[..2] == "# ")
    ensures var t := LineText(DefaultLines(file, edits, value, cfg)[i]);
      (|t| >= 2 && t[..2] == "# ") <==> !(value == "1" || value == "on" || value == "true")
  {
    MarkerOpening(Directive(Enabled(value), file, edits[i].rva, edits[i].on, Verify(cfg, edits[i].off)));
  }

  lemma UnionSnoc(file: string, rva: string, off: string, options: seq<UnionOption>, o: UnionOption, value: string, cfg: Config)
    ensures UnionLines(file, rva, off, options + [o], value, cfg)
      == UnionLines(file, rva, off, options, value, cfg) + OptionLines(file, rva, off, o, value, cfg)
  {
    assert (options + [o])[..|options|] == options;
  }

  /**
   * Without --union-all-opts only the option the value names is rendered: every
   * payload line is on, and a value naming no option renders nothing.
   */
  lemma {:induction false} UnionSelectedOnly(file: string, rva: string, off: string, options: seq<UnionOption>, value: string, cfg: Config)
    requires !cfg.unionAllOpts
    ensures forall i :: 0 <= i < |UnionLines(file, rva, off, options, value, cfg)| ==>
      var l := UnionLines(file, rva, off, options, value, cfg)[i];
      l.Payload? ==> l.d.enabled && l.d.rva == rva && l.d.verify == Verify(cfg, off)
    ensures (forall k :: 0 <= k < |options| ==> options[k].name != value) ==>
      UnionLines(file, rva, off, options, value, cfg) == []
  {
    if options != [] {
      var init := options[..|options| - 1];
      UnionSelectedOnly(file, rva, off, init, value, cfg);
      if forall k :: 0 <= k < |options| ==> options[k].name != value {
        assert forall k :: 0 <= k < |init| ==> init[k] == options[k];
      }
    }
  }

  /**
   * Without --union-all-opts, when exactly one option carries the value's name, the
   * union renders its "### name" line and its payload, on, and nothing else.
   */
  lemma {:induction false} UnionSingleChoice(file: string, rva: string, off: string, options: seq<UnionOption>, value: string, cfg: Config, k: nat)
    requires !cfg.unionAllOpts
    requires k < |options| && options[k].name == value
    requires forall j :: 0 <= j < |options| && j != k ==> options[j].name != value
    ensures UnionLines(file, rva, off, options, value, cfg)
      == [Choice(value), Payload(Directive(true, file, rva, options[k].bytes, Verify(cfg, off)))]
  {
    var init := options[..|options| - 1];
    assert forall j :: 0 <= j < |init| ==> init[j] == options[j];
    if k == |options| - 1 {
      UnionSelectedOnly(file, rva, off, init, value, cfg);
    } else {
      UnionSingleChoice(file, rva, off, init, value, cfg, k);
    }
  }

  /**
   * With --union-all-opts every option is rendered, in order: its "### name" line and
   * its payload, which is on exactly when the value names the option.
   */
  lemma {:induction false} UnionAllOptions(file: string, rva: string, off: string, options: seq<UnionOption>, value: string, cfg: Config)
    requires cfg.unionAllOpts
    ensures |UnionLines(file, rva, off, options, value, cfg)| == 2 * |options|
    ensures forall k :: 0 <= k < |options| ==>
      && UnionLines(file, rva, off, options, value, cfg)[2 * k] == Choice(options[k].name)
      && UnionLines(file, rva, off, options, value, cfg)[2 * k + 1]
         == Payload(Directive(options[k].name == value, file, rva, options[k].bytes, Verify(cfg, off)))
  {
    if options != [] {
      var init := options[..|options| - 1];
      UnionAllOptions(file, rva, off, init, value, cfg);
      var r := UnionLines(file, rva, off, options, value, cfg);
      var a := UnionLines(file, rva, off, init, value, cfg);
      assert r == a + OptionLines(file, rva, off, options[|options| - 1], value, cfg);
      forall k | 0 <= k < |options|
        ensures r[2 * k] == Choice(options[k].name)
        ensures r[2 * k + 1] == Payload(Directive(options[k].name == value, file, rva, options[k].bytes, Verify(cfg, off)))
      {
        if k < |init| {
          assert init[k] == options[k];
          assert r[2 * k] == a[2 * k] && r[2 * k + 1] == a[2 * k + 1];
        }
      }
    }
  }

  /**
   * A number patch renders exactly when std::stoll reads a number in [min, max]; the
   * line is on and carries 2 size hexadecimal digits that read back as the number
   * modulo 2^(8 size): the number minus the bits above the field.
   */
  lemma NumberRendered(file: string, p: Patch, value: string, cfg: Config, parse: string -> Option<Int64>)
    requires p.Number?
    ensures NumberLines(file, p, value, cfg, parse).Ok?
      <==> parse(value).Some? && p.min <= parse(value).value <= p.max
    ensures parse(value).Some? && (parse(value).value < p.min || parse(value).value > p.max) ==>
      NumberLines(file, p, value, cfg, parse) == Err(OutOfRange(parse(value).value))
    ensures NumberLines(file, p, value, cfg, parse).Ok? ==>
      var n := parse(value).value;
      var bytes := NumberEncoding.LittleEndianHex(n, p.size);
      && NumberLines(file, p, value, cfg, parse).value == [Payload(Directive(true, file, p.rva, bytes, Verify(cfg, p.off)))]
      && |bytes| == 2 * p.size
      && (forall k :: 0 <= k < |bytes| ==> NumberEncoding.IsHexDigit(bytes[k]))
      && n == NumberEncoding.Shl(NumberEncoding.Shr(n, 8 * p.size), 8 * p.size) + NumberEncoding.DecodeLittleEndian(bytes)
  {
    if parse(value).Some? {
      NumberEncoding.EncodeDigits(parse(value).value, p.size);
      NumberEncoding.DecodeEncode(parse(value).value, p.size);
    }
  }

  /** The bounds are inclusive: min and max render, min - 1 and max + 1 stop the run. */
  lemma NumberBounds(file: string, p: Patch, cfg: Config, parse: string -> Option<Int64>, atMin: string, atMax: string, below: string, above: string)
    requires p.Number? && p.min <= p.max
    requires parse(atMin) == Some(p.min as int) && parse(atMax) == Some(p.max as int)
    requires parse(below) == Some(p.min - 1) && parse(above) == Some(p.max + 1)
    ensures NumberLines(file, p, atMin, cfg, parse).Ok? && NumberLines(file, p, atMax, cfg, parse).Ok?
    ensures NumberLines(file, p, below, cfg, parse) == Err(OutOfRange(p.min - 1))
    ensures NumberLines(file, p, above, cfg, parse) == Err(OutOfRange(p.max + 1))
  {
  }

  /** Every payload line of a patch carries the original bytes exactly when --no-verify is off. */
  lemma {:induction false} UnionVerifyField(file: string, rva: string, off: string, options: seq<UnionOption>, value: string, cfg: Config)
    ensures forall i :: 0 <= i < |UnionLines(file, rva, off, options, value, cfg)| ==>
      var l := UnionLines(file, rva, off, options, value, cfg)[i];
      l.Payload? ==> (l.d.verify.None? <==> cfg.noVerify)
  {
    if options != [] {
      UnionVerifyField(file, rva, off, options[..|options| - 1], value, cfg);
    }
  }

  /** Whatever the variant, a payload line has its verification field exactly when --no-verify is off. */
  lemma PatchVerifyField(file: string, p: Patch, value: string, cfg: Config, parse: string -> Option<Int64>)
    ensures PatchLines(file, p, value, cfg, parse).Ok? ==>
      forall i :: 0 <= i < |PatchLines(file, p, value, cfg, parse).value| ==>
        var l := PatchLines(file, p, value, cfg, parse).value[i];
        l.Payload? ==> (l.d.verify.None? <==> cfg.noVerify)
  {
    if p.Union? {
      UnionVerifyField(file, p.rva, p.off, p.options, value, cfg);
    }
  }

  // ---------------------------------------------------------------------------
  // Properties of a profile buffer
  // ---------------------------------------------------------------------------

  lemma ProfileSnoc(c: Container, cfg: Config, parse: string -> Option<Int64>, sels: seq<Selection>, s: Selection)
    ensures ProfileLines(c, cfg, parse, sels + [s]) ==
      match ProfileLines(c, cfg, parse, sels)
      case Err(f) => Err(f)
      case Ok(earlier) =>
        match SelectionLines(c, cfg, parse, s)
        case Err(f) => Err(f)
        case Ok(more) => Ok(earlier + more)
  {
    assert (sels + [s])[..|sels|] == sels;
  }

  lemma FoundSnoc(c: Container, sels: seq<Selection>, s: Selection)
    ensures Found(c, sels + [s]) == Found(c, sels) + (if s.name in c.patches then {s.name} else {})
  {
    assert (sels + [s])[..|sels|] == sels;
  }

  /** A name is found exactly when some selection names it and the catalogue holds it. */
  lemma {:induction false} FoundMembers(c: Container, sels: seq<Selection>, name: string)
    ensures name in Found(c, sels) <==> name in c.patches && exists i :: 0 <= i < |sels| && sels[i].name == name
  {
    if sels != [] {
      var init := sels[..|sels| - 1];
      FoundMembers(c, init, name);
      if exists i :: 0 <= i < |init| && init[i].name == name {
        var i :| 0 <= i < |init| && init[i].name == name;
        assert sels[i] == init[i];
      }
      if exists i :: 0 <= i < |sels| && sels[i].name == name {
        var i :| 0 <= i < |sels| && sels[i].name == name;
        if i < |init| {
          assert init[i] == sels[i];
        }
      }
    }
  }

  /** The "## " lines of a concatenation are those of the parts. */
  lemma {:induction false} SectionNamesAppend(a: seq<Line>, b: seq<Line>)
    ensures SectionNames(a + b) == SectionNames(a) + SectionNames(b)
  {
    if b == [] {
      assert a + b == a;
    } else {
      var b' := b[..|b| - 1];
      assert (a + b)[..|a + b| - 1] == a + b';
      SectionNamesAppend(a, b');
    }
  }

  /** The lines of a patch variant hold no "## " line. */
  lemma {:induction false} UnionHasNoSection(file: string, rva: string, off: string, options: seq<UnionOption>, value: string, cfg: Config)
    ensures SectionNames(UnionLines(file, rva, off, options, value, cfg)) == []
  {
    if options != [] {
      var init := options[..|options| - 1];
      UnionHasNoSection(file, rva, off, init, value, cfg);
      var o := OptionLines(file, rva, off, options[|options| - 1], value, cfg);
      SectionNamesAppend(UnionLines(file, rva, off, init, value, cfg), o);
      if o != [] {
        assert o[..1] == [o[0]];
        assert SectionNames(o[..1]) == [];
      }
    }
  }

  lemma {:induction false} DefaultHasNoSection(file: string, edits: seq<ByteEdit>, value: string, cfg: Config)
    ensures SectionNames(DefaultLines(file, edits, value, cfg)) == []
  {
    if edits != [] {
      var r := DefaultLines(file, edits, value, cfg);
      DefaultHasNoSection(file, edits[..|edits| - 1], value, cfg);
      assert r[..|r| - 1] == DefaultLines(file, edits[..|edits| - 1], value, cfg);
    }
  }

  lemma PatchHasNoSection(file: string, p: Patch, value: string, cfg: Config, parse: string -> Option<Int64>)
    ensures PatchLines(file, p, value, cfg, parse).Ok? ==> SectionNames(PatchLines(file, p, value, cfg, parse).value) == []
  {
    match p
    case Default(edits) => DefaultHasNoSection(file, edits, value, cfg);
    case Union(rva, off, options) => UnionHasNoSection(file, rva, off, options, value, cfg);
    case Number(_, _, _, _, _) =>
      if PatchLines(file, p, value, cfg, parse).Ok? {
        var body := PatchLines(file, p, value, cfg, parse).value;
        assert body[..0] == [];
      }
  }

  lemma SelectionSections(c: Container, cfg: Config, parse: string -> Option<Int64>, s: Selection)
    ensures SelectionLines(c, cfg, parse, s).Ok? ==>
      SectionNames(SelectionLines(c, cfg, parse, s).value) == (if s.name in c.patches then [s.name] else [])
  {
    if s.name in c.patches && SelectionLines(c, cfg, parse, s).Ok? {
      var body := PatchLines(c.file, c.patches[s.name], s.value, cfg, parse).value;
      PatchHasNoSection(c.file, c.patches[s.name], s.value, cfg, parse);
      SectionNamesAppend([Blank, Section(s.name)], body);
      assert [Blank, Section(s.name)][..1] == [Blank];
      assert [Blank][..0] == [];
    }
  }

  /**
   * A rendered profile has one "## name" line per selection found in the catalogue,
   * in profile order, and none for the names the catalogue lacks.
   */
  lemma {:induction false} ProfileSections(c: Container, cfg: Config, parse: string -> Option<Int64>, sels: seq<Selection>)
    ensures ProfileLines(c, cfg, parse, sels).Ok? ==>
      SectionNames(ProfileLines(c, cfg, parse, sels).value) == FoundNames(c, sels)
  {
    if sels != [] {
      var init := sels[..|sels| - 1];
      var s := sels[|sels| - 1];
      ProfileSections(c, cfg, parse, init);
      SelectionSections(c, cfg, parse, s);
      if ProfileLines(c, cfg, parse, sels).Ok? {
        SectionNamesAppend(ProfileLines(c, cfg, parse, init).value, SelectionLines(c, cfg, parse, s).value);
      }
    }
  }

  /** Every payload line of a rendered profile carries the original bytes exactly when --no-verify is off. */
  lemma {:induction false} ProfileVerifyField(c: Container, cfg: Config, parse: string -> Option<Int64>, sels: seq<Selection>)
    ensures ProfileLines(c, cfg, parse, sels).Ok? ==>
      forall i :: 0 <= i < |ProfileLines(c, cfg, parse, sels).value| ==>
        var l := ProfileLines(c, cfg, parse, sels).value[i];
        l.Payload? ==> (l.d.verify.None? <==> cfg.noVerify)
  {
    if sels != [] {
      var init := sels[..|sels| - 1];
      var s := sels[|sels| - 1];
      ProfileVerifyField(c, cfg, parse, init);
      if s.name in c.patches {
        PatchVerifyField(c.file, c.patches[s.name], s.value, cfg, parse);
      }
    }
  }

  /**
   * A profile's own lines, when there are any, open with the empty line and the
   * "## name" of its first found selection.
   */
  lemma {:induction false} ProfileOpens(c: Container, cfg: Config, parse: string -> Option<Int64>, sels: seq<Selection>)
    requires ProfileLines(c, cfg, parse, sels).Ok? && ProfileLines(c, cfg, parse, sels).value != []
    ensures |ProfileLines(c, cfg, parse, sels).value| >= 2
    ensures ProfileLines(c, cfg, parse, sels).value[0] == Blank
    ensures ProfileLines(c, cfg, parse, sels).value[1].Section?
  {
    var init := sels[..|sels| - 1];
    var s := sels[|sels| - 1];
    var earlier := ProfileLines(c, cfg, parse, init).value;
    var more := SelectionLines(c, cfg, parse, s).value;
    if earlier != [] {
      ProfileOpens(c, cfg, parse, init);
    } else {
      assert ProfileLines(c, cfg, parse, sels).value == [] + more;
    }
  }
}
