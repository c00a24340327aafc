/**
 * The render loop of main (src/patchtool.cc:280-359): the profiles in order, one
 * buffer each, the run-wide once-flag that puts the validation lines into the first
 * buffer only, the names still unmatched, the skip of an empty buffer and the erase
 * of one leading "\n" before the buffer is written.
 *
 * Writing a file is modelled by returning it; the warnings on stderr are not
 * modelled. An exception (std::stoll failing, a number out of range) ends the run:
 * the files written before it stay written.
 */
module Driver {
  import opened Wrappers
  import opened Patches
  import opened Directives
  import opened Render
  import NumberEncoding
  import Seqs

  /** A file the run writes: the profile's path and the buffer as written. */
  datatype OutputFile = OutputFile(path: string, content: string)

  /**
   * How a run ends: every profile rendered, with the names no profile used; or
   * aborted by a failure, with the files written before it.
   */
  datatype Outcome =
    | Completed(files: seq<OutputFile>, unmatched: set<string>)
    | Aborted(files: seq<OutputFile>, failure: Failure)

  /** The buffer as written: one leading "\n" erased. */
  function Stripped(buffer: string): string
  {
    if |buffer| > 0 && buffer[0] == '\n' then buffer[1..] else buffer
  }

  /** What a profile with this buffer writes: nothing for an empty buffer. */
  function Written(path: string, buffer: string): seq<OutputFile>
  {
    if buffer == "" then [] else [OutputFile(path, Stripped(buffer))]
  }

  /** Files written before the rest of a run. */
  function Prepend(files: seq<OutputFile>, o: Outcome): Outcome
  {
    match o
    case Completed(fs, u) => Completed(files + fs, u)
    case Aborted(fs, f) => Aborted(files + fs, f)
  }

  /**
   * The run from these profiles on: `pending` while the once-flag has not fired,
   * `unmatched` the names not yet used.
   */
  function RunFrom(c: Container, cfg: Config, parse: string -> Option<Int64>, profiles: seq<Profile>,
                   pending: bool, unmatched: set<string>): Outcome
    decreases |profiles|
  {
    if profiles == [] then Completed([], unmatched)
    else
      var p := profiles[0];
      match BufferLines(c, cfg, parse, p.selections, pending)
      case Err(f) => Aborted([], f)
      case Ok(lines) =>
        Prepend(Written(p.path, Text(lines)),
                RunFrom(c, cfg, parse, profiles[1..], false, unmatched - Found(c, p.selections)))
  }

  /** The whole run: every catalogue name is unmatched at the start. */
  function RunAll(c: Container, cfg: Config, parse: string -> Option<Int64>, profiles: seq<Profile>): Outcome
  {
    RunFrom(c, cfg, parse, profiles, true, c.patches.Keys)
  }

  /** The names that some profile finds in the catalogue. */
  function FoundAll(c: Container, profiles: seq<Profile>): set<string>
  {
    if profiles == [] then {} else Found(c, profiles[0].selections) + FoundAll(c, profiles[1..])
  }

  /** `encode` runs on this value: std::stoll reads it and it lies in [min, max]. */
  predicate Encodes(p: Patch, value: string, parse: string -> Option<Int64>)
    requires p.Number?
  {
    parse(value).Some? && p.min <= parse(value).value <= p.max
  }

  /**
   * `encode` shifts a 64-bit value by 8 i, and a shift by 64 or more is undefined
   * behaviour: a number patch that is encoded is at most 8 bytes wide. A wider one
   * that is never encoded (unused, unreadable or out of range) is harmless.
   */
  predicate EncodeDefined(p: Patch, value: string, parse: string -> Option<Int64>)
  {
    p.Number? && Encodes(p, value, parse) ==> p.size <= 8
  }

  /** The selection's patch, if the catalogue has it, is encoded only when it is at most 8 bytes wide. */
  predicate SelectionDefined(c: Container, parse: string -> Option<Int64>, s: Selection)
  {
    s.name in c.patches ==> EncodeDefined(c.patches[s.name], s.value, parse)
  }

  /**
   * Every selection the profile reaches is defined: those before the first failure
   * and the failing one. The selections after a failure are never visited.
   */
  predicate ProfileDefined(c: Container, cfg: Config, parse: string -> Option<Int64>, sels: seq<Selection>)
  {
    forall j :: 0 <= j < |sels| && ProfileLines(c, cfg, parse, sels[..j]).Ok? ==> SelectionDefined(c, parse, sels[j])
  }

  /** The profiles before the i-th all render without a failure. */
  predicate RendersBefore(c: Container, cfg: Config, parse: string -> Option<Int64>, profiles: seq<Profile>, i: nat)
    requires i <= |profiles|
  {
    forall k :: 0 <= k < i ==> ProfileLines(c, cfg, parse, profiles[k].selections).Ok?
  }

  /** Every profile the run reaches, up to and including the one that fails, is defined. */
  predicate RunDefined(c: Container, cfg: Config, parse: string -> Option<Int64>, profiles: seq<Profile>)
  {
    forall i :: 0 <= i < |profiles| && RendersBefore(c, cfg, parse, profiles, i) ==>
      ProfileDefined(c, cfg, parse, profiles[i].selections)
  }

  // ---------------------------------------------------------------------------
  // The loops of main
  // ---------------------------------------------------------------------------

  /** The default_patch branch of the visit: one line per byte edit. */
  method DefaultText(file: string, edits: seq<ByteEdit>, value: string, cfg: Config) returns (text: string)
    ensures text == Text(DefaultLines(file, edits, value, cfg))
  {
    text := "";
    var i := 0;
    while i < |edits|
      invariant 0 <= i <= |edits|
      invariant text == Text(DefaultLines(file, edits[..i], value, cfg))
    {
      var item := edits[i];
      var d := Directive(Enabled(value), file, item.rva, item.on, Verify(cfg, item.off));
      DefaultStep(file, edits, i, value, cfg);
      text := text + Format(d) + "\n";
      i := i + 1;
    }
    Seqs.Whole(edits);
  }

  /** The union_patch branch of the visit: the options the value or --union-all-opts selects. */
  method UnionText(file: string, rva: string, off: string, options: seq<UnionOption>, value: string, cfg: Config)
    returns (text: string)
    ensures text == Text(UnionLines(file, rva, off, options, value, cfg))
  {
    text := "";
    var i := 0;
    while i < |options|
      invariant 0 <= i <= |options|
      invariant text == Text(UnionLines(file, rva, off, options[..i], value, cfg))
    {
      var item := options[i];
      var enabled := value == item.name;
      UnionStep(file, rva, off, options, i, value, cfg);
      if enabled || cfg.unionAllOpts {
        var d := Directive(enabled, file, rva, item.bytes, Verify(cfg, off));
        text := text + ("### " + item.name) + "\n" + Format(d) + "\n";
      }
      i := i + 1;
    }
    Seqs.Whole(options);
  }

  /** The number_patch branch of the visit: parse, range check, encode. */
  method NumberText(file: string, p: Patch, value: string, cfg: Config, parse: string -> Option<Int64>)
    returns (result: Result<string, Failure>)
    requires p.Number? && EncodeDefined(p, value, parse)
    ensures result == match NumberLines(file, p, value, cfg, parse)
                      case Err(f) => Err(f)
                      case Ok(lines) => Ok(Text(lines))
  {
    var parsed := parse(value);
    if parsed.None? {
      return Err(BadNumber(value));
    }
    var number := parsed.value;
    if number < p.min || number > p.max {
      return Err(OutOfRange(number));
    }
    var bytes := NumberEncoding.Encode(number, p.size);
    var d := Directive(true, file, p.rva, bytes, if cfg.noVerify then None else Some(p.off));
    TextSnoc([], Payload(d));
    assert "" + Format(d) == Format(d);
    result := Ok(Format(d) + "\n");
  }

  /** The once-flag's body: one line per validation string. */
  method HeaderText(validate: seq<string>) returns (text: string)
    ensures text == Text(ValidationLines(validate))
  {
    text := "";
    var i := 0;
    while i < |validate|
      invariant 0 <= i <= |validate|
      invariant text == Text(ValidationLines(validate[..i]))
    {
      Seqs.PrefixSnoc(validate, i);
      TextSnoc(ValidationLines(validate[..i]), Raw(validate[i]));
      text := text + validate[i] + "\n";
      i := i + 1;
    }
    Seqs.Whole(validate);
  }

  /**
   * One selection of a profile: nothing for a name the catalogue lacks, else
   * "\n## name\n" and the visit of its patch.
   */
  method SelectionText(c: Container, cfg: Config, parse: string -> Option<Int64>, s: Selection)
    returns (result: Result<string, Failure>)
    requires SelectionDefined(c, parse, s)
    ensures match SelectionLines(c, cfg, parse, s)
            case Err(f) => result == Err(f)
            case Ok(lines) => result == Ok(Text(lines))
  {
    if s.name !in c.patches {
      return Ok("");
    }
    var patch := c.patches[s.name];
    var text;
    ghost var rendered;
    match patch {
      case Default(edits) =>
        text := DefaultText(c.file, edits, s.value, cfg);
        rendered := DefaultLines(c.file, edits, s.value, cfg);
      case Union(rva, off, options) =>
        text := UnionText(c.file, rva, off, options, s.value, cfg);
        rendered := UnionLines(c.file, rva, off, options, s.value, cfg);
      case Number(_, _, _, _, _) =>
        var r := NumberText(c.file, patch, s.value, cfg, parse);
        if r.Err? {
          return Err(r.error);
        }
        text := r.value;
        rendered := NumberLines(c.file, patch, s.value, cfg, parse).value;
    }
    SectionOpen(s.name, rendered);
    result := Ok("\n## " + s.name + "\n" + text);
  }

  /**
   * One profile's buffer: the validation lines when `withHeader`, then every
   * selection; `remaining` is `unmatched` without the names found.
   */
  method RenderProfile(c: Container, cfg: Config, parse: string -> Option<Int64>, sels: seq<Selection>,
                       withHeader: bool, unmatched: set<string>) returns (result: Result<string, Failure>, remaining: set<string>)
    requires ProfileDefined(c, cfg, parse, sels)
    ensures result == match BufferLines(c, cfg, parse, sels, withHeader)
                      case Err(f) => Err(f)
                      case Ok(lines) => Ok(Text(lines))
    ensures result.Ok? ==> remaining == unmatched - Found(c, sels)
  {
    var buffer := "";
    if withHeader {
      buffer := HeaderText(c.validate);
    }
    ghost var lines := Header(c, withHeader);
    Seqs.AppendEmpty(lines);
    remaining := unmatched;
    var j := 0;
    while j < |sels|
      invariant 0 <= j <= |sels|
      invariant BufferLines(c, cfg, parse, sels[..j], withHeader) == Ok(lines)
      invariant buffer == Text(lines)
      invariant remaining == unmatched - Found(c, sels[..j])
    {
      var s := sels[j];
      Reached(c, cfg, parse, sels, j, withHeader, lines);
      ProfileStep(c, cfg, parse, sels, j, withHeader, lines);
      var r := SelectionText(c, cfg, parse, s);
      if r.Err? {
        return Err(r.error), remaining;
      }
      UnmatchedStep(c, sels, j, unmatched);
      if s.name in c.patches {
        remaining := remaining - {s.name};
      }
      TextAppend(lines, SelectionLines(c, cfg, parse, s).value);
      buffer := buffer + r.value;
      lines := lines + SelectionLines(c, cfg, parse, s).value;
      j := j + 1;
    }
    Seqs.Whole(sels);
    result := Ok(buffer);
  }

  /**
   * The run: profiles in order, the once-flag fired by the first, every name found
   * erased from `unmatched`, a non-empty buffer written without its leading "\n".
   */
  method Run(c: Container, cfg: Config, parse: string -> Option<Int64>, profiles: seq<Profile>) returns (outcome: Outcome)
    requires RunDefined(c, cfg, parse, profiles)
    ensures outcome == RunAll(c, cfg, parse, profiles)
  {
    var unmatched := c.patches.Keys;
    var files: seq<OutputFile> := [];
    var firstDone := false;
    var i := 0;
    while i < |profiles|
      invariant 0 <= i <= |profiles|
      invariant firstDone == (i > 0)
      invariant RendersBefore(c, cfg, parse, profiles, i)
      invariant RunAll(c, cfg, parse, profiles) == Prepend(files, RunFrom(c, cfg, parse, profiles[i..], !firstDone, unmatched))
    {
      var profile := profiles[i];
      assert profiles[i..][1..] == profiles[i + 1..];
      var withHeader := !firstDone;
      firstDone := true;
      var buffer, remaining := RenderProfile(c, cfg, parse, profile.selections, withHeader, unmatched);
      if buffer.Err? {
        PrependNothing(files, buffer.error);
        return Aborted(files, buffer.error);
      }
      assert ProfileLines(c, cfg, parse, profile.selections).Ok?;
      var text := buffer.value;
      var written: seq<OutputFile> := [];
      if text != "" {
        if text[0] == '\n' {
          text := text[1..];
        }
        written := [OutputFile(profile.path, text)];
      }
      PrependTwice(files, written, RunFrom(c, cfg, parse, profiles[i + 1..], false, remaining));
      files := files + written;
      unmatched := remaining;
      i := i + 1;
    }
    PrependNothingCompleted(files, unmatched);
    outcome := Completed(files, unmatched);
  }

  // ---------------------------------------------------------------------------
  // Helpers for the loops
  // ---------------------------------------------------------------------------

  /** A selection the loop reaches, every one before it rendered, is defined. */
  lemma Reached(c: Container, cfg: Config, parse: string -> Option<Int64>, sels: seq<Selection>, j: nat,
                pending: bool, lines: seq<Line>)
    requires ProfileDefined(c, cfg, parse, sels)
    requires j < |sels| && BufferLines(c, cfg, parse, sels[..j], pending) == Ok(lines)
    ensures SelectionDefined(c, parse, sels[j])
  {
    assert ProfileLines(c, cfg, parse, sels[..j]).Ok?;
  }

  /** One more byte edit adds its payload line and a "\n". */
  lemma DefaultStep(file: string, edits: seq<ByteEdit>, i: nat, value: string, cfg: Config)
    requires i < |edits|
    ensures Text(DefaultLines(file, edits[..i + 1], value, cfg)) == Text(DefaultLines(file, edits[..i], value, cfg))
      + Format(Directive(Enabled(value), file, edits[i].rva, edits[i].on, Verify(cfg, edits[i].off))) + "\n"
  {
    Seqs.PrefixSnoc(edits, i);
    TextSnoc(DefaultLines(file, edits[..i], value, cfg), Payload(Directive(Enabled(value), file, edits[i].rva, edits[i].on, Verify(cfg, edits[i].off))));
  }

  /** One more union option adds "### name" and its payload when selected, and nothing otherwise. */
  lemma UnionStep(file: string, rva: string, off: string, options: seq<UnionOption>, i: nat, value: string, cfg: Config)
    requires i < |options|
    ensures options[i].name == value || cfg.unionAllOpts ==>
      Text(UnionLines(file, rva, off, options[..i + 1], value, cfg)) == Text(UnionLines(file, rva, off, options[..i], value, cfg))
        + ("### " + options[i].name) + "\n" + Format(Directive(value == options[i].name, file, rva, options[i].bytes, Verify(cfg, off))) + "\n"
    ensures !(options[i].name == value || cfg.unionAllOpts) ==>
      Text(UnionLines(file, rva, off, options[..i + 1], value, cfg)) == Text(UnionLines(file, rva, off, options[..i], value, cfg))
  {
    Seqs.PrefixSnoc(options, i);
    UnionSnoc(file, rva, off, options[..i], options[i], value, cfg);
    if options[i].name == value || cfg.unionAllOpts {
      OptionText(UnionLines(file, rva, off, options[..i], value, cfg), options[i].name,
                 Directive(value == options[i].name, file, rva, options[i].bytes, Verify(cfg, off)));
    } else {
      assert OptionLines(file, rva, off, options[i], value, cfg) == [];
      Seqs.AppendEmpty(UnionLines(file, rva, off, options[..i], value, cfg));
    }
  }

  /** Rendering one union option adds "### name", its payload and a "\n" after each. */
  lemma OptionText(before: seq<Line>, name: string, d: Directive)
    ensures Text(before + [Choice(name), Payload(d)]) == Text(before) + ("### " + name) + "\n" + Format(d) + "\n"
  {
    assert before + [Choice(name), Payload(d)] == (before + [Choice(name)]) + [Payload(d)];
    TextSnoc(before + [Choice(name)], Payload(d));
    TextSnoc(before, Choice(name));
  }

  /** A found selection's lines read "\n## name\n" and then the text of the patch's lines. */
  lemma SectionOpen(name: string, rendered: seq<Line>)
    ensures Text([Blank, Section(name)] + rendered) == "\n## " + name + "\n" + Text(rendered)
  {
    var open := [Blank, Section(name)];
    assert Text(open) == "\n## " + name + "\n" by {
      TextSnoc([], Blank);
      assert [] + [Blank] == [Blank];
      TextSnoc([Blank], Section(name));
      assert [Blank] + [Section(name)] == open;
      Seqs.Assoc("\n", "## ", name);
      assert "\n" + "## " == "\n## ";
    }
    TextAppend(open, rendered);
  }

  /**
   * One more selection of a profile: its failure is the profile's, and otherwise its
   * lines are added to the buffer's.
   */
  lemma ProfileStep(c: Container, cfg: Config, parse: string -> Option<Int64>, sels: seq<Selection>, j: nat,
                    pending: bool, lines: seq<Line>)
    requires j < |sels| && BufferLines(c, cfg, parse, sels[..j], pending) == Ok(lines)
    ensures SelectionLines(c, cfg, parse, sels[j]).Err? ==>
      BufferLines(c, cfg, parse, sels, pending) == Err(SelectionLines(c, cfg, parse, sels[j]).error)
    ensures SelectionLines(c, cfg, parse, sels[j]).Ok? ==>
      BufferLines(c, cfg, parse, sels[..j + 1], pending) == Ok(lines + SelectionLines(c, cfg, parse, sels[j]).value)
  {
    Seqs.PrefixSnoc(sels, j);
    ProfileSnoc(c, cfg, parse, sels[..j], sels[j]);
    if SelectionLines(c, cfg, parse, sels[j]).Err? {
      ProfileFailureStays(c, cfg, parse, sels, j + 1);
    } else {
      Seqs.Assoc(Header(c, pending), ProfileLines(c, cfg, parse, sels[..j]).value, SelectionLines(c, cfg, parse, sels[j]).value);
    }
  }

  /** Once a selection fails, the profile fails with it. */
  lemma {:induction false} ProfileFailureStays(c: Container, cfg: Config, parse: string -> Option<Int64>, sels: seq<Selection>, j: nat)
    requires j <= |sels| && ProfileLines(c, cfg, parse, sels[..j]).Err?
    ensures ProfileLines(c, cfg, parse, sels) == ProfileLines(c, cfg, parse, sels[..j])
    decreases |sels| - j
  {
    if j < |sels| {
      Seqs.PrefixSnoc(sels, j);
      ProfileFailureStays(c, cfg, parse, sels, j + 1);
    } else {
      Seqs.Whole(sels);
    }
  }

  /** A found selection's name leaves the unmatched names; any other selection leaves them as they are. */
  lemma UnmatchedStep(c: Container, sels: seq<Selection>, j: nat, unmatched: set<string>)
    requires j < |sels|
    ensures sels[j].name in c.patches ==>
      (unmatched - Found(c, sels[..j])) - {sels[j].name} == unmatched - Found(c, sels[..j + 1])
    ensures sels[j].name !in c.patches ==>
      unmatched - Found(c, sels[..j]) == unmatched - Found(c, sels[..j + 1])
  {
    Seqs.PrefixSnoc(sels, j);
    FoundSnoc(c, sels[..j], sels[j]);
  }

  lemma PrependNothing(files: seq<OutputFile>, f: Failure)
    ensures Prepend(files, Aborted([], f)) == Aborted(files, f)
  {
    assert files + [] == files;
  }

  lemma PrependNothingCompleted(files: seq<OutputFile>, u: set<string>)
    ensures Prepend(files, Completed([], u)) == Completed(files, u)
  {
    assert files + [] == files;
  }

  lemma PrependTwice(a: seq<OutputFile>, b: seq<OutputFile>, o: Outcome)
    ensures Prepend(a, Prepend(b, o)) == Prepend(a + b, o)
  {
    match o
    case Completed(fs, u) => assert a + (b + fs) == (a + b) + fs;
    case Aborted(fs, f) => assert a + (b + fs) == (a + b) + fs;
  }

  // ---------------------------------------------------------------------------
  // Properties
  // ---------------------------------------------------------------------------

  /**
   * A buffer with no line writes no file; one that opens with an empty line is
   * written without it; one whose first line opens with another character is
   * written as it is.
   */
  lemma BufferWritten(path: string, lines: seq<Line>)
    ensures Written(path, Text(lines)) == [] <==> lines == []
    ensures lines != [] && LineText(lines[0]) == "" ==>
      Written(path, Text(lines)) == [OutputFile(path, Text(lines[1..]))]
    ensures lines != [] && LineText(lines[0]) != "" && LineText(lines[0])[0] != '\n' ==>
      Written(path, Text(lines)) == [OutputFile(path, Text(lines))]
  {
    TextEmpty(lines);
    if lines != [] {
      TextFirst(lines);
    }
  }

  /**
   * Past the first profile, a profile that finds any selection writes a file that
   * opens with "## " and the name of its first one: the erased "\n" is that of the
   * section's empty line.
   */
  lemma WrittenWithoutHeader(c: Container, cfg: Config, parse: string -> Option<Int64>, p: Profile)
    requires BufferLines(c, cfg, parse, p.selections, false).Ok?
    ensures var lines := BufferLines(c, cfg, parse, p.selections, false).value;
      lines != [] ==>
        |lines| >= 2 && lines[1].Section? &&
        Written(p.path, Text(lines)) == [OutputFile(p.path, "## " + lines[1].name + "\n" + Text(lines[2..]))]
  {
    var lines := BufferLines(c, cfg, parse, p.selections, false).value;
    assert lines == [] + ProfileLines(c, cfg, parse, p.selections).value;
    if lines != [] {
      ProfileOpens(c, cfg, parse, p.selections);
      BufferWritten(p.path, lines);
      TextFirst(lines[1..]);
      assert lines[1..][1..] == lines[2..];
    }
  }

  /** The names that a completed run reports unmatched: those no profile found. */
  lemma {:induction false} RunUnmatched(c: Container, cfg: Config, parse: string -> Option<Int64>, profiles: seq<Profile>,
                                        pending: bool, u: set<string>)
    ensures RunFrom(c, cfg, parse, profiles, pending, u).Completed? ==>
      RunFrom(c, cfg, parse, profiles, pending, u).unmatched == u - FoundAll(c, profiles)
    decreases |profiles|
  {
    if profiles != [] {
      var found := Found(c, profiles[0].selections);
      RunUnmatched(c, cfg, parse, profiles[1..], false, u - found);
      assert (u - found) - FoundAll(c, profiles[1..]) == u - (found + FoundAll(c, profiles[1..]));
    }
  }

  /** A name is found by some profile exactly when it is in the catalogue and some profile selects it. */
  lemma {:induction false} FoundAllMembers(c: Container, profiles: seq<Profile>, name: string)
    ensures name in FoundAll(c, profiles) <==>
      name in c.patches &&
      exists i, k :: 0 <= i < |profiles| && 0 <= k < |profiles[i].selections| && profiles[i].selections[k].name == name
    decreases |profiles|
  {
    if profiles != [] {
      var rest := profiles[1..];
      FoundAllMembers(c, rest, name);
      FoundMembers(c, profiles[0].selections, name);
      if exists i, k :: 0 <= i < |rest| && 0 <= k < |rest[i].selections| && rest[i].selections[k].name == name {
        var i, k :| 0 <= i < |rest| && 0 <= k < |rest[i].selections| && rest[i].selections[k].name == name;
        assert profiles[i + 1] == rest[i];
      }
      if exists i, k :: 0 <= i < |profiles| && 0 <= k < |profiles[i].selections| && profiles[i].selections[k].name == name {
        var i, k :| 0 <= i < |profiles| && 0 <= k < |profiles[i].selections| && profiles[i].selections[k].name == name;
        if i > 0 {
          assert rest[i - 1] == profiles[i];
        }
      }
    }
  }

  /**
   * After a completed run, a catalogue name is reported unused exactly when no
   * profile selects it.
   */
  lemma UnusedReported(c: Container, cfg: Config, parse: string -> Option<Int64>, profiles: seq<Profile>, name: string)
    requires RunAll(c, cfg, parse, profiles).Completed?
    ensures name in RunAll(c, cfg, parse, profiles).unmatched <==>
      name in c.patches &&
      !exists i, k :: 0 <= i < |profiles| && 0 <= k < |profiles[i].selections| && profiles[i].selections[k].name == name
  {
    RunUnmatched(c, cfg, parse, profiles, true, c.patches.Keys);
    FoundAllMembers(c, profiles, name);
  }

  /** A run completes exactly when every profile renders without a failure. */
  lemma {:induction false} RunCompletes(c: Container, cfg: Config, parse: string -> Option<Int64>, profiles: seq<Profile>,
                                        pending: bool, u: set<string>)
    ensures RunFrom(c, cfg, parse, profiles, pending, u).Completed? <==>
      forall i :: 0 <= i < |profiles| ==> ProfileLines(c, cfg, parse, profiles[i].selections).Ok?
    decreases |profiles|
  {
    if profiles != [] {
      var rest := profiles[1..];
      var u' := u - Found(c, profiles[0].selections);
      RunCompletes(c, cfg, parse, rest, false, u');
      if ProfileLines(c, cfg, parse, profiles[0].selections).Ok? {
        var lines := BufferLines(c, cfg, parse, profiles[0].selections, pending).value;
        assert RunFrom(c, cfg, parse, profiles, pending, u)
          == Prepend(Written(profiles[0].path, Text(lines)), RunFrom(c, cfg, parse, rest, false, u'));
        assert forall i :: 0 <= i < |rest| ==> rest[i] == profiles[i + 1];
        if forall i :: 0 <= i < |rest| ==> ProfileLines(c, cfg, parse, rest[i].selections).Ok? {
          assert forall i :: 1 <= i < |profiles| ==> profiles[i] == rest[i - 1];
        }
      }
    }
  }

  /**
   * The first profile that fails ends the run with its failure, and the files
   * written are those of the profiles before it.
   */
  lemma {:induction false} RunAborted(c: Container, cfg: Config, parse: string -> Option<Int64>, profiles: seq<Profile>,
                                      pending: bool, u: set<string>, k: nat)
    requires k < |profiles| && ProfileLines(c, cfg, parse, profiles[k].selections).Err?
    requires forall i :: 0 <= i < k ==> ProfileLines(c, cfg, parse, profiles[i].selections).Ok?
    ensures RunFrom(c, cfg, parse, profiles, pending, u) ==
      Aborted(RunFrom(c, cfg, parse, profiles[..k], pending, u).files, ProfileLines(c, cfg, parse, profiles[k].selections).error)
    decreases k
  {
    if k == 0 {
      assert profiles[..k] == [];
    } else {
      var rest := profiles[1..];
      assert forall i :: 0 <= i < |rest| ==> rest[i] == profiles[i + 1];
      var u' := u - Found(c, profiles[0].selections);
      RunAborted(c, cfg, parse, rest, false, u', k - 1);
      assert profiles[..k][0] == profiles[0];
      assert profiles[..k][1..] == rest[..k - 1];
    }
  }

  /** A profile's lines and found names do not depend on the validation lines. */
  lemma {:induction false} ProfileIgnoresValidation(c: Container, cfg: Config, parse: string -> Option<Int64>,
                                                    sels: seq<Selection>, v: seq<string>)
    ensures ProfileLines(c.(validate := v), cfg, parse, sels) == ProfileLines(c, cfg, parse, sels)
    ensures Found(c.(validate := v), sels) == Found(c, sels)
  {
    if sels != [] {
      ProfileIgnoresValidation(c, cfg, parse, sels[..|sels| - 1], v);
    }
  }

  /**
   * The once-flag fires once: after the first profile the run is what it would be
   * with any other validation lines, none included.
   */
  lemma {:induction false} ValidationOnlyInFirst(c: Container, cfg: Config, parse: string -> Option<Int64>,
                                                 profiles: seq<Profile>, u: set<string>, v: seq<string>)
    ensures RunFrom(c.(validate := v), cfg, parse, profiles, false, u) == RunFrom(c, cfg, parse, profiles, false, u)
    decreases |profiles|
  {
    if profiles != [] {
      ProfileIgnoresValidation(c, cfg, parse, profiles[0].selections, v);
      ValidationOnlyInFirst(c, cfg, parse, profiles[1..], u - Found(c, profiles[0].selections), v);
    }
  }
}
