/**
 * The payload line the renderer writes for every byte edit, union option and number
 * field (src/patchtool.cc:318-320, 330-332, 340-341):
 *
 *     ["# "] file " " rva " " bytes [" " off]
 *
 * Format builds it; Parse reads one back, as a consumer of the generated file would,
 * and the round trip shows that no two directives share a text.
 */
module Directives {
  import opened Wrappers

  /**
   * One payload line: whether it is active (not commented out with "# "), the target
   * file, the address, the bytes to write and, unless --no-verify, the original
   * bytes to check first.
   */
  datatype Directive = Directive(enabled: bool, file: string, rva: string, bytes: string, verify: Option<string>)

  /** The line without its comment marker: the fields separated by single spaces. */
  function Fields(d: Directive): string
  {
    d.file + " " + d.rva + " " + d.bytes + (match d.verify case Some(off) => " " + off case None => "")
  }

  /** The line the renderer writes: "# " first when the directive is not enabled. */
  function Format(d: Directive): string
  {
    (if d.enabled then "" else "# ") + Fields(d)
  }

  /** The fields of s between single spaces, the empty ones included. */
  function Split(s: string): (r: seq<string>)
    ensures |r| >= 1
  {
    if s == [] then [""]
    else
      var rest := Split(s[1..]);
      if s[0] == ' ' then [""] + rest else [[s[0]] + rest[0]] + rest[1..]
  }

  /** Reads a payload line: an optional "# ", then three or four fields. */
  function Parse(line: string): Option<Directive>
  {
    var enabled := !(|line| >= 2 && line[..2] == "# ");
    var fields := Split(if enabled then line else line[2..]);
    if |fields| == 3 then Some(Directive(enabled, fields[0], fields[1], fields[2], None))
    else if |fields| == 4 then Some(Directive(enabled, fields[0], fields[1], fields[2], Some(fields[3])))
    else None
  }

  /** A field the line format can carry: no space separator and no line break. */
  predicate PlainField(s: string)
  {
    ' ' !in s && '\n' !in s
  }

  /**
   * A directive that reads back: every field plain, and an active line that does not
   * open with the "# " of a commented one (a file named "#").
   */
  predicate Readable(d: Directive)
  {
    && PlainField(d.file) && PlainField(d.rva) && PlainField(d.bytes)
    && (d.verify.Some? ==> PlainField(d.verify.value))
    && (d.enabled ==> d.file != "#")
  }

  // ---------------------------------------------------------------------------
  // Properties
  // ---------------------------------------------------------------------------

  /**
   * A line opens with "# " exactly when it is commented out, unless an active line's
   * file name looks like the marker: "#" alone, or a name that opens with "# ".
   */
  lemma MarkerOpening(d: Directive)
    requires d.file != "#" && !(|d.file| >= 2 && d.file[..2] == "# ")
    ensures var t := Format(d); (|t| >= 2 && t[..2] == "# ") <==> !d.enabled
  {
    if d.enabled {
      var t := Format(d);
      var rest := d.rva + " " + d.bytes + (match d.verify case Some(off) => " " + off case None => "");
      assert t == d.file + " " + rest;
      assert t[|d.file|] == ' ';
      if |d.file| >= 2 {
        assert t[..2] == d.file[..2];
      } else if |d.file| == 1 {
        assert t[..2] == [d.file[0], ' '];
        assert d.file == [d.file[0]];
      }
    }
  }

  /** A field without a space is one field. */
  lemma {:induction false} SplitPlain(a: string)
    requires ' ' !in a
    ensures Split(a) == [a]
  {
    if a != [] {
      SplitPlain(a[1..]);
      assert [a[0]] + a[1..] == a;
    }
  }

  /** A field without a space, a space and the rest: the field comes off first. */
  lemma {:induction false} SplitField(a: string, s: string)
    requires ' ' !in a
    ensures Split(a + " " + s) == [a] + Split(s)
  {
    if a == [] {
      assert a + " " + s == [' '] + s;
      assert (a + " " + s)[1..] == s;
    } else {
      assert (a + " " + s)[1..] == a[1..] + " " + s;
      SplitField(a[1..], s);
      assert [a[0]] + a[1..] == a;
    }
  }

  /** The fields of a readable directive are its own, with the verification field last when present. */
  lemma SplitFields(d: Directive)
    requires Readable(d)
    ensures Split(Fields(d)) == [d.file, d.rva, d.bytes] + (match d.verify case Some(off) => [off] case None => [])
  {
    match d.verify
    case None =>
      SplitPlain(d.bytes);
      SplitField(d.rva, d.bytes);
      assert Fields(d) == d.file + " " + (d.rva + " " + d.bytes);
      SplitField(d.file, d.rva + " " + d.bytes);
    case Some(off) =>
      SplitPlain(off);
      SplitField(d.bytes, off);
      SplitField(d.rva, d.bytes + " " + off);
      assert Fields(d) == d.file + " " + (d.rva + " " + (d.bytes + " " + off));
      SplitField(d.file, d.rva + " " + (d.bytes + " " + off));
  }

  /** An active readable line does not open with "# ". */
  lemma NotCommented(d: Directive)
    requires Readable(d) && d.enabled
    ensures !(|Fields(d)| >= 2 && Fields(d)[..2] == "# ")
  {
    var line := Fields(d);
    if |d.file| >= 2 {
      assert line[1] == d.file[1];
    } else if |d.file| == 1 {
      assert d.file == [d.file[0]];
      assert line[0] == d.file[0] != '#';
    } else {
      assert line[0] == ' ';
    }
  }

  /** Every readable directive reads back from its line. */
  lemma FormatParse(d: Directive)
    requires Readable(d)
    ensures Parse(Format(d)) == Some(d)
  {
    SplitFields(d);
    if d.enabled {
      NotCommented(d);
      assert Format(d) == Fields(d);
    } else {
      assert Format(d) == "# " + Fields(d);
      assert Format(d)[2..] == Fields(d);
    }
  }
}
