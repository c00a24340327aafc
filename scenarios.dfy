/**
 * Whole runs on small catalogues: the metadata entries read into a catalogue, one or
 * two profiles rendered, the files written and the names left unmatched.
 */
module Scenarios {
  import opened Wrappers
  import opened Patches
  import Catalogue
  import opened Render
  import opened Driver
  import NumberEncoding
  import Seqs

  /** The metadata of a game: a default patch and a union patch, one entry of an unknown type. */
  function Entries(): seq<Catalogue.Entry>
  {
    [ Catalogue.Entry("p1", "default", Catalogue.DefaultBody([Catalogue.RawEdit("0x100", "90", "55")])),
      Catalogue.Entry("p2", "union", Catalogue.UnionBody("a", [("rva", "0x200"), ("a", "01"), ("b", "02")])),
      Catalogue.Entry("p3", "bitmask", Catalogue.OtherBody) ]
  }

  function Game(): Container
  {
    Container("game.exe",
              map["p1" := Default([ByteEdit("100", "90", "55")]),
                  "p2" := Union("200", "a", [UnionOption("a", "01"), UnionOption("b", "02")])],
              [])
  }

  /** The union entry's members: the last `rva` is its address, the other two its options. */
  lemma GameUnion()
    ensures Catalogue.UnionOptions([("rva", "0x200"), ("a", "01"), ("b", "02")])
      == [UnionOption("a", "01"), UnionOption("b", "02")]
    ensures Catalogue.UnionRva([("rva", "0x200"), ("a", "01"), ("b", "02")]) == "200"
  {
    var m := [("rva", "0x200"), ("a", "01"), ("b", "02")];
    Catalogue.ParseAddressStripsPrefix("200");
    assert m[..1] == [("rva", "0x200")] && m[..1][..0] == [];
    assert m[..2] == [("rva", "0x200"), ("a", "01")] && m[..2][..1] == m[..1];
    assert Catalogue.UnionOptions(m[..1]) == [];
    assert Catalogue.UnionOptions(m[..2]) == [UnionOption("a", "01")];
    assert Catalogue.UnionRva(m[..1]) == "200";
  }

  /** The default entry's one item, its address without "0x". */
  lemma GameDefault()
    ensures Catalogue.EntryPatch(Entries()[0]) == Some(Default([ByteEdit("100", "90", "55")]))
  {
    Catalogue.ParseAddressStripsPrefix("100");
    var items := [Catalogue.RawEdit("0x100", "90", "55")];
    assert items[..0] == [];
    assert Catalogue.DefaultEdits(items) == [ByteEdit("100", "90", "55")];
  }

  /** The entries give that catalogue: addresses without "0x", `rva` not an option, `p3` skipped. */
  lemma GameCatalogue()
    ensures Catalogue.AllWellShaped(Entries())
    ensures Catalogue.CatalogueOf(Entries()) == Game().patches
  {
    var e := Entries();
    GameUnion();
    GameDefault();
    assert Catalogue.EntryPatch(e[1]) == Some(Game().patches["p2"]);
    assert Catalogue.EntryPatch(e[2]) == None;
    assert e[..1] == [e[0]] && e[..1][..0] == [];
    assert e[..2] == [e[0], e[1]] && e[..2][..1] == e[..1];
    assert Catalogue.CatalogueOf(e[..1]) == map["p1" := Default([ByteEdit("100", "90", "55")])];
    assert Catalogue.CatalogueOf(e[..2]) == Game().patches;
  }

  /** A parser that reads no number: the run below has no number patch. */
  function NoNumber(s: string): Option<Int64>
  {
    None
  }

  /** The one payload line of p1 turned on. */
  function P1Payload(cfg: Config): Directives.Directive
  {
    Directives.Directive(true, "game.exe", "100", "90", Verify(cfg, "55"))
  }

  /** p1 turned on: its one edit as an active payload line. */
  lemma P1Patch(cfg: Config)
    ensures "p1" in Game().patches
    ensures PatchLines(Game().file, Game().patches["p1"], "1", cfg, NoNumber) == Ok([Payload(P1Payload(cfg))])
  {
    var edits := [ByteEdit("100", "90", "55")];
    assert edits[..0] == [];
    assert Game().patches["p1"] == Default(edits);
    assert DefaultLines("game.exe", edits, "1", cfg) == [Payload(P1Payload(cfg))];
  }

  /** A found selection whose patch renders: the empty line, "## name" and its lines. */
  lemma SelectionFound(c: Container, cfg: Config, parse: string -> Option<Int64>, s: Selection, body: seq<Line>)
    requires s.name in c.patches && PatchLines(c.file, c.patches[s.name], s.value, cfg, parse) == Ok(body)
    ensures SelectionLines(c, cfg, parse, s) == Ok([Blank, Section(s.name)] + body)
  {
  }

  /** Selecting p1 gives its section; the unknown name adds nothing. */
  lemma OneProfileLines(cfg: Config)
    ensures ProfileLines(Game(), cfg, NoNumber, [Selection("p1", "1"), Selection("zz", "1")])
      == Ok([Blank, Section("p1"), Payload(P1Payload(cfg))])
    ensures Found(Game(), [Selection("p1", "1"), Selection("zz", "1")]) == {"p1"}
  {
    var c := Game();
    var lines := [Blank, Section("p1"), Payload(P1Payload(cfg))];
    P1Patch(cfg);
    SelectionFound(c, cfg, NoNumber, Selection("p1", "1"), [Payload(P1Payload(cfg))]);
    assert [Blank, Section("p1")] + [Payload(P1Payload(cfg))] == lines;
    assert "zz" !in c.patches;
    assert SelectionLines(c, cfg, NoNumber, Selection("zz", "1")) == Ok([]);
    assert ProfileLines(c, cfg, NoNumber, []) == Ok([]);
    Seqs.AppendEmpty(lines);
    assert [] + lines == lines;
    ProfileSnoc(c, cfg, NoNumber, [], Selection("p1", "1"));
    FoundSnoc(c, [], Selection("p1", "1"));
    assert [] + [Selection("p1", "1")] == [Selection("p1", "1")];
    ProfileSnoc(c, cfg, NoNumber, [Selection("p1", "1")], Selection("zz", "1"));
    FoundSnoc(c, [Selection("p1", "1")], Selection("zz", "1"));
    assert [Selection("p1", "1")] + [Selection("zz", "1")] == [Selection("p1", "1"), Selection("zz", "1")];
  }

  /** The payload line with and without the original bytes. */
  lemma P1Format()
    ensures Directives.Format(P1Payload(Config(false, false))) == "game.exe 100 90 55"
    ensures Directives.Format(P1Payload(Config(true, false))) == "game.exe 100 90"
  {
  }

  /** A section holding one payload line. */
  lemma OnePayloadSection(name: string, d: Directives.Directive)
    ensures Text([Blank, Section(name), Payload(d)]) == "\n## " + name + "\n" + (Directives.Format(d) + "\n")
  {
    TextSnoc([], Payload(d));
    assert [] + [Payload(d)] == [Payload(d)];
    assert Text([Payload(d)]) == Directives.Format(d) + "\n" by {
      Seqs.Assoc("", Directives.Format(d), "\n");
      assert "" + (Directives.Format(d) + "\n") == Directives.Format(d) + "\n";
    }
    SectionOpen(name, [Payload(d)]);
    assert [Blank, Section(name)] + [Payload(d)] == [Blank, Section(name), Payload(d)];
  }

  lemma OneProfileLiteral()
    ensures "\n## " + "p1" + "\n" + ("game.exe 100 90 55" + "\n") == "\n## p1\ngame.exe 100 90 55\n"
    ensures "\n## " + "p1" + "\n" + ("game.exe 100 90" + "\n") == "\n## p1\ngame.exe 100 90\n"
  {
  }

  /** Those lines as text: the section's empty line first. */
  lemma OneProfileText()
    ensures Text([Blank, Section("p1"), Payload(P1Payload(Config(false, false)))]) == "\n## p1\ngame.exe 100 90 55\n"
    ensures Text([Blank, Section("p1"), Payload(P1Payload(Config(true, false)))]) == "\n## p1\ngame.exe 100 90\n"
  {
    OnePayloadSection("p1", P1Payload(Config(false, false)));
    OnePayloadSection("p1", P1Payload(Config(true, false)));
    P1Format();
    OneProfileLiteral();
  }

  /** The end of a one-profile run: its file, and the names it did not find. */
  lemma OneProfileEnd(cfg: Config, text: string)
    requires Text([Blank, Section("p1"), Payload(P1Payload(cfg))]) == text
    ensures RunAll(Game(), cfg, NoNumber, [Profile("out.txt", [Selection("p1", "1"), Selection("zz", "1")])])
      == Completed(Written("out.txt", text), {"p2"})
  {
    var profiles := [Profile("out.txt", [Selection("p1", "1"), Selection("zz", "1")])];
    OneProfileLines(cfg);
    var lines := [Blank, Section("p1"), Payload(P1Payload(cfg))];
    assert Header(Game(), true) == [];
    assert BufferLines(Game(), cfg, NoNumber, profiles[0].selections, true) == Ok([] + lines);
    assert [] + lines == lines;
    assert Game().patches.Keys - {"p1"} == {"p2"};
    assert profiles[1..] == [];
    Seqs.AppendEmpty(Written("out.txt", text));
  }

  /**
   * One profile selecting p1 on and a name the catalogue lacks: one file, whose
   * leading "\n" is erased, and p2 reported unused; under --no-verify the payload
   * line has no original bytes.
   */
  lemma OneProfileRun()
    ensures RunAll(Game(), Config(false, false), NoNumber, [Profile("out.txt", [Selection("p1", "1"), Selection("zz", "1")])])
      == Completed([OutputFile("out.txt", "## p1\ngame.exe 100 90 55\n")], {"p2"})
    ensures RunAll(Game(), Config(true, false), NoNumber, [Profile("out.txt", [Selection("p1", "1"), Selection("zz", "1")])])
      == Completed([OutputFile("out.txt", "## p1\ngame.exe 100 90\n")], {"p2"})
  {
    OneProfileText();
    OneProfileEnd(Config(false, false), "\n## p1\ngame.exe 100 90 55\n");
    OneProfileEnd(Config(true, false), "\n## p1\ngame.exe 100 90\n");
    assert "\n## p1\ngame.exe 100 90 55\n"[1..] == "## p1\ngame.exe 100 90 55\n";
    assert "\n## p1\ngame.exe 100 90\n"[1..] == "## p1\ngame.exe 100 90\n";
  }

  /** The catalogue with a two-byte number patch: `hp` in [0, 0xFFFF] at 0x300. */
  function Numbers(): Container
  {
    Container("game.exe", map["hp" := Number("300", "0000", 0, 0xFFFF, 2)], ["[validate]"])
  }

  /** A parser that reads "4660" and "70000" and nothing else. */
  function Decimal(s: string): Option<Int64>
  {
    if s == "4660" then Some(4660) else if s == "70000" then Some(70000) else None
  }

  /** The payload line of hp = 4660 under --no-verify. */
  function HpPayload(): Directives.Directive
  {
    Directives.Directive(true, "game.exe", "300", "3412", None)
  }

  /** 4660 is 0x1234: in range, and written as the bytes 34 12; 70000 is out of range. */
  lemma HpPatch()
    ensures "hp" in Numbers().patches
    ensures PatchLines(Numbers().file, Numbers().patches["hp"], "4660", Config(true, false), Decimal) == Ok([Payload(HpPayload())])
    ensures PatchLines(Numbers().file, Numbers().patches["hp"], "70000", Config(true, false), Decimal) == Err(OutOfRange(70000))
  {
    NumberEncoding.EncodeExample();
    assert Numbers().patches["hp"] == Number("300", "0000", 0, 0xFFFF, 2);
    assert Decimal("4660") == Some(4660);
    assert Decimal("70000") == Some(70000);
  }

  /** The two single-selection profiles of the run below. */
  lemma NumberLinesExample()
    ensures ProfileLines(Numbers(), Config(true, false), Decimal, [Selection("hp", "4660")])
      == Ok([Blank, Section("hp"), Payload(HpPayload())])
    ensures ProfileLines(Numbers(), Config(true, false), Decimal, [Selection("hp", "70000")]) == Err(OutOfRange(70000))
  {
    var c := Numbers();
    var cfg := Config(true, false);
    HpPatch();
    SelectionFound(c, cfg, Decimal, Selection("hp", "4660"), [Payload(HpPayload())]);
    assert [Blank, Section("hp")] + [Payload(HpPayload())] == [Blank, Section("hp"), Payload(HpPayload())];
    assert ProfileLines(c, cfg, Decimal, []) == Ok([]);
    assert [] + [Blank, Section("hp"), Payload(HpPayload())] == [Blank, Section("hp"), Payload(HpPayload())];
    assert SelectionLines(c, cfg, Decimal, Selection("hp", "70000")) == Err(OutOfRange(70000));
    ProfileSnoc(c, cfg, Decimal, [], Selection("hp", "4660"));
    ProfileSnoc(c, cfg, Decimal, [], Selection("hp", "70000"));
    assert [] + [Selection("hp", "4660")] == [Selection("hp", "4660")];
    assert [] + [Selection("hp", "70000")] == [Selection("hp", "70000")];
  }

  lemma HpFormat()
    ensures Directives.Format(HpPayload()) == "game.exe 300 3412"
  {
  }

  lemma NumberLiteral()
    ensures "[validate]" + "\n" + ("\n## " + "hp" + "\n" + ("game.exe 300 3412" + "\n"))
      == "[validate]\n\n## hp\ngame.exe 300 3412\n"
  {
  }

  /** The first buffer: the validation line, then the section. */
  lemma NumberRunText()
    ensures Text([Raw("[validate]")] + [Blank, Section("hp"), Payload(HpPayload())])
      == "[validate]\n\n## hp\ngame.exe 300 3412\n"
  {
    TextSnoc([], Raw("[validate]"));
    assert [] + [Raw("[validate]")] == [Raw("[validate]")];
    TextAppend([Raw("[validate]")], [Blank, Section("hp"), Payload(HpPayload())]);
    OnePayloadSection("hp", HpPayload());
    HpFormat();
    NumberLiteral();
  }

  /**
   * Two profiles: the first gets the validation line and the number 4660 written as
   * the little-endian bytes "3412"; the second has a value out of range, so the run
   * ends with the first file written.
   */
  lemma NumberRun()
    ensures RunAll(Numbers(), Config(true, false), Decimal,
                   [Profile("a.txt", [Selection("hp", "4660")]), Profile("b.txt", [Selection("hp", "70000")])])
      == Aborted([OutputFile("a.txt", "[validate]\n\n## hp\ngame.exe 300 3412\n")], OutOfRange(70000))
  {
    var profiles := [Profile("a.txt", [Selection("hp", "4660")]), Profile("b.txt", [Selection("hp", "70000")])];
    NumberLinesExample();
    NumberRunText();
    var v := ["[validate]"];
    assert v[..0] == [];
    assert ValidationLines(Numbers().validate) == [Raw("[validate]")];
    assert profiles[1..] == [Profile("b.txt", [Selection("hp", "70000")])];
    assert "[validate]\n\n## hp\ngame.exe 300 3412\n"[0] == '[';
    assert [OutputFile("a.txt", "[validate]\n\n## hp\ngame.exe 300 3412\n")] + []
      == [OutputFile("a.txt", "[validate]\n\n## hp\ngame.exe 300 3412\n")];
  }

  /** A catalogue with a 16-byte number patch `wide` in [0, 1], wider than `encode` can shift. */
  function Wide(): Container
  {
    Container("game.exe", map["wide" := Number("400", "00", 0, 1, 16)], [])
  }

  /** A parser that reads "1" and "5" and nothing else. */
  function SmallNumbers(s: string): Option<Int64>
  {
    if s == "1" then Some(1) else if s == "5" then Some(5) else None
  }

  /**
   * A wide number patch that is never encoded is allowed: the first profile's value 5
   * is out of range and ends the run, so the second profile, whose value 1 would
   * encode 16 bytes, is never reached.
   */
  lemma WideNumberAllowed()
    ensures RunDefined(Wide(), Config(true, false), SmallNumbers,
                       [Profile("a.txt", [Selection("wide", "5")]), Profile("b.txt", [Selection("wide", "1")])])
    ensures RunAll(Wide(), Config(true, false), SmallNumbers,
                   [Profile("a.txt", [Selection("wide", "5")]), Profile("b.txt", [Selection("wide", "1")])])
      == Aborted([], OutOfRange(5))
  {
    var c, cfg := Wide(), Config(true, false);
    var sels := [Selection("wide", "5")];
    assert c.patches["wide"] == Number("400", "00", 0, 1, 16);
    assert SmallNumbers("5") == Some(5);
    assert SelectionLines(c, cfg, SmallNumbers, sels[0]) == Err(OutOfRange(5));
    ProfileSnoc(c, cfg, SmallNumbers, [], sels[0]);
    assert [] + [sels[0]] == sels && sels[..0] == [];
    assert ProfileLines(c, cfg, SmallNumbers, sels) == Err(OutOfRange(5));
    var profiles := [Profile("a.txt", sels), Profile("b.txt", [Selection("wide", "1")])];
    assert !Encodes(c.patches["wide"], "5", SmallNumbers);
    assert ProfileDefined(c, cfg, SmallNumbers, sels) by {
      forall j | 0 <= j < |sels| && ProfileLines(c, cfg, SmallNumbers, sels[..j]).Ok?
        ensures SelectionDefined(c, SmallNumbers, sels[j])
      {
        assert sels[j] == Selection("wide", "5");
      }
    }
    assert !RendersBefore(c, cfg, SmallNumbers, profiles, 1) by {
      assert profiles[0].selections == sels;
    }
    assert !RendersBefore(c, cfg, SmallNumbers, profiles, 2) by {
      assert profiles[0].selections == sels;
    }
    assert RunDefined(c, cfg, SmallNumbers, profiles) by {
      forall i | 0 <= i < |profiles| && RendersBefore(c, cfg, SmallNumbers, profiles, i)
        ensures ProfileDefined(c, cfg, SmallNumbers, profiles[i].selections)
      {
        assert i == 0;
      }
    }
  }
}
