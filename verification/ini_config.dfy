/** The Sandboxie.ini operations of the account manager, over the file as a
    sequence of lines: whether a box section exists, appending the fixed box
    template, and the two-state scanner that removes a box section.

    A structured view (`Layout`: a preamble followed by sections, each a
    header line and its body) serves as the independent reference the line
    scanner is proved against.
 */
module IniConfig {
  import opened Strings

  /** The header line of box `name`. */
  function Header(name: string): string {
    "[" + name + "]"
  }

  /** The test of lines 766, 925 and 1113: the trimmed line equals `[name]`,
      ignoring case. */
  predicate IsHeaderFor(line: string, name: string) {
    EqualsIgnoreCase(Trim(line), Header(name))
  }

  /** The test of line 1110: the trimmed line starts with `[` and ends with `]`. */
  predicate IsSectionLine(line: string) {
    var t := Trim(line);
    |t| > 0 && t[0] == '[' && t[|t| - 1] == ']'
  }

  predicate NoSectionLines(lines: seq<string>) {
    forall k :: 0 <= k < |lines| ==> !IsSectionLine(lines[k])
  }

  /** The header of box `name` passes the header test for `name`. */
  lemma HeaderMatchesItself(name: string)
    ensures IsHeaderFor(Header(name), name)
  {
  }

  /** Every header of a box is a section line, so the scanner always notices it. */
  lemma HeaderIsSectionLine(line: string, name: string)
    ensures IsHeaderFor(line, name) ==> IsSectionLine(line)
  {
    if IsHeaderFor(line, name) {
      var t := Trim(line);
      var h := Header(name);
      assert |t| == |ToLower(t)| == |ToLower(h)| == |h|;
      assert LowerChar(t[0]) == ToLower(t)[0] == ToLower(h)[0] == LowerChar('[');
      LowerCharFixesNonLetters(t[0], '[');
      assert LowerChar(t[|t| - 1]) == ToLower(t)[|t| - 1] == ToLower(h)[|h| - 1] == LowerChar(']');
      LowerCharFixesNonLetters(t[|t| - 1], ']');
    }
  }

  /** A line that starts with an upper-case letter is neither a section line
      nor any box's header. */
  lemma PlainLine(line: string)
    requires |line| > 0 && 'A' <= line[0] <= 'Z'
    ensures !IsSectionLine(line)
    ensures forall name :: !IsHeaderFor(line, name)
  {
    assert TrimStart(line) == line;
    TrimEndSpec(line);
    forall name
      ensures !IsHeaderFor(line, name)
    {
      HeaderIsSectionLine(line, name);
    }
  }

  /** Whether any line is a header of box `name` (lines 764-771, 919-931). */
  predicate SectionExists(lines: seq<string>, name: string) {
    exists i :: 0 <= i < |lines| && IsHeaderFor(lines[i], name)
  }

  /** The search loop of lines 764-771, stopping at the first header found. */
  method ScanForSection(lines: seq<string>, name: string) returns (found: bool)
    ensures found <==> SectionExists(lines, name)
  {
    found := false;
    var i := 0;
    while i < |lines|
      invariant 0 <= i <= |lines|
      invariant forall j :: 0 <= j < i ==> !IsHeaderFor(lines[j], name)
    {
      if IsHeaderFor(lines[i], name) {
        found := true;
        break;
      }
      i := i + 1;
    }
  }

  /** How many header lines box `name` has in the file. */
  function HeaderCount(lines: seq<string>, name: string): (n: nat)
    ensures n <= |lines|
  {
    if |lines| == 0 then 0
    else (if IsHeaderFor(lines[0], name) then 1 else 0) + HeaderCount(lines[1..], name)
  }

  /** The box has a header somewhere exactly when its header count is positive. */
  lemma {:induction false} HeaderCountPositive(lines: seq<string>, name: string)
    ensures HeaderCount(lines, name) > 0 <==> SectionExists(lines, name)
  {
    if |lines| > 0 {
      HeaderCountPositive(lines[1..], name);
      if SectionExists(lines[1..], name) {
        var i :| 0 <= i < |lines[1..]| && IsHeaderFor(lines[1..][i], name);
        assert lines[i + 1] == lines[1..][i];
      }
      if SectionExists(lines, name) && !IsHeaderFor(lines[0], name) {
        var i :| 0 <= i < |lines| && IsHeaderFor(lines[i], name);
        assert lines[1..][i - 1] == lines[i];
      }
    }
  }

  /** Header counts add up over concatenation. */
  lemma {:induction false} HeaderCountConcat(a: seq<string>, b: seq<string>, name: string)
    ensures HeaderCount(a + b, name) == HeaderCount(a, name) + HeaderCount(b, name)
  {
    if |a| == 0 {
      assert a + b == b;
    } else {
      HeaderCountConcat(a[1..], b, name);
      HeaderCountCons(a[0], a[1..] + b, name);
      HeaderCountCons(a[0], a[1..], name);
      assert a + b == [a[0]] + (a[1..] + b);
      assert a == [a[0]] + a[1..];
    }
  }

  lemma HeaderCountCons(line: string, rest: seq<string>, name: string)
    ensures HeaderCount([line] + rest, name) == (if IsHeaderFor(line, name) then 1 else 0) + HeaderCount(rest, name)
  {
  }

  /** A `key=value` line of the template. */
  function Setting(key: string, value: string): string {
    key + "=" + value
  }

  /** The settings written under a new box header (lines 778-789, 947-957). */
  const TemplateSettings: seq<string> := [
    Setting("Enabled", "y"),
    Setting("AutoDelete", "y"),
    Setting("ConfigLevel", "9"),
    Setting("RecoverFolder", "%Desktop%"),
    Setting("BorderColor", "#00ffff"),
    Setting("OpenClsid", "{2C941FCE-975B-59BE-A960-9A2A262853A5}"),
    Setting("OpenClsid", "{D3DCB472-7261-43CE-924B-0704BD730D5A}"),
    Setting("OpenClsid", "{A81BA6FE-A5AB-4B2B-82DE-BA558AFDF786}"),
    Setting("ClosedIpcPath", "\\RPC Control\\AudioClientRpc"),
    Setting("OpenIpcPath", "\\BaseNamedObjects\\"),
    Setting("OpenIpcPath", "\\Sessions\\*\\BaseNamedObjects\\")
  ]

  /** The block appended for a new box: a blank line, the header, the settings. */
  function SectionBlock(name: string): seq<string> {
    ["", Header(name)] + TemplateSettings
  }

  /** No template setting opens a section, so the body of a new box is exactly
      its settings. */
  lemma SettingsArePlain()
    ensures NoSectionLines(TemplateSettings)
    ensures forall name :: !SectionExists(TemplateSettings, name)
  {
    forall k | 0 <= k < |TemplateSettings|
      ensures !IsSectionLine(TemplateSettings[k])
      ensures forall name :: !IsHeaderFor(TemplateSettings[k], name)
    {
      var line := TemplateSettings[k];
      assert |line| > 0 && 'A' <= line[0] <= 'Z' by {
        if k == 0 { assert line[0] == 'E'; }
        else if k == 1 { assert line[0] == 'A'; }
        else if k == 2 || k == 8 { assert line[0] == 'C'; }
        else if k == 3 { assert line[0] == 'R'; }
        else if k == 4 { assert line[0] == 'B'; }
        else { assert line[0] == 'O'; }
      }
      PlainLine(line);
    }
  }

  /** The block holds exactly one header of its box. */
  lemma SectionBlockHeaders(name: string)
    ensures HeaderCount(SectionBlock(name), name) == 1
  {
    SettingsArePlain();
    HeaderMatchesItself(name);
    HeaderCountPositive(TemplateSettings, name);
    var block := SectionBlock(name);
    assert Trim("") == "";
    assert block[1..] == [Header(name)] + TemplateSettings;
    assert block[1..][1..] == TemplateSettings;
  }

  /** Append the template for box `name` unless it already has a header
      (lines 774-790; the self-heal of lines 933-960 appends only after the
      same check failed). The original lines stay an exact prefix, the box
      exists afterwards, and its header is never duplicated. */
  function AppendSection(lines: seq<string>, name: string): (r: seq<string>)
    ensures lines <= r
    ensures SectionExists(r, name)
    ensures SectionExists(lines, name) ==> r == lines
    ensures !SectionExists(lines, name) ==>
              && |r| == |lines| + 13
              && r[|lines|] == ""
              && r[|lines| + 1] == Header(name)
              && r[|lines| + 2..] == TemplateSettings
    ensures HeaderCount(r, name) == if SectionExists(lines, name) then HeaderCount(lines, name) else 1
  {
    if SectionExists(lines, name) then lines
    else
      var r := lines + SectionBlock(name);
      HeaderCountPositive(lines, name);
      HeaderCountConcat(lines, SectionBlock(name), name);
      SectionBlockHeaders(name);
      assert r[|lines|..] == SectionBlock(name);
      r
  }

  /** `a` is `b` with some elements left out, order kept. */
  predicate IsSubsequence<T(==)>(a: seq<T>, b: seq<T>)
    decreases |b|
  {
    if |b| == 0 then |a| == 0
    else
      || (|a| > 0 && a[0] == b[0] && IsSubsequence(a[1..], b[1..]))
      || IsSubsequence(a, b[1..])
  }

  /** The scanner of lines 1105-1126. `inTarget` is whether the last header
      seen was the target box's: section lines update it and are dropped when
      they are the target's header; other lines are dropped while it holds.
      The output is a subsequence of the input. */
  function KeepOutside(lines: seq<string>, name: string, inTarget: bool): (r: seq<string>)
    ensures IsSubsequence(r, lines)
  {
    if |lines| == 0 then []
    else
      var line := lines[0];
      var rest := lines[1..];
      if IsSectionLine(line) then
        var entering := IsHeaderFor(line, name);
        var tail := KeepOutside(rest, name, entering);
        if entering then tail
        else
          assert ([line] + tail)[1..] == tail;
          [line] + tail
      else
        var tail := KeepOutside(rest, name, inTarget);
        if inTarget then tail
        else
          assert ([line] + tail)[1..] == tail;
          [line] + tail
  }

  /** Remove every section of box `name` (lines 1105-1126): afterwards the box
      no longer exists, and nothing is added or reordered. */
  function RemoveSection(lines: seq<string>, name: string): (r: seq<string>)
    ensures IsSubsequence(r, lines)
    ensures !SectionExists(r, name)
  {
    KeepOutsideDropsHeaders(lines, name, false);
    KeepOutside(lines, name, false)
  }

  /** No header of the target box survives the scanner. */
  lemma {:induction false} KeepOutsideDropsHeaders(lines: seq<string>, name: string, inTarget: bool)
    ensures !SectionExists(KeepOutside(lines, name, inTarget), name)
  {
    if |lines| > 0 {
      var line := lines[0];
      HeaderIsSectionLine(line, name);
      var next := if IsSectionLine(line) then IsHeaderFor(line, name) else inTarget;
      KeepOutsideDropsHeaders(lines[1..], name, next);
      var tail := KeepOutside(lines[1..], name, next);
      if !next {
        var r := [line] + tail;
        forall k | 0 <= k < |r|
          ensures !IsHeaderFor(r[k], name)
        {
          if k > 0 {
            assert r[k] == tail[k - 1];
          }
        }
      }
    }
  }

  /** The flag after the scanner has seen `line`. */
  function NextInTarget(line: string, name: string, inTarget: bool): bool {
    if IsSectionLine(line) then IsHeaderFor(line, name) else inTarget
  }

  /** One step of the scanner, with the output so far in front. */
  lemma KeepOutsideStep(kept: seq<string>, lines: seq<string>, i: nat, name: string, inTarget: bool)
    requires i < |lines|
    ensures var next := NextInTarget(lines[i], name, inTarget);
      kept + KeepOutside(lines[i..], name, inTarget)
        == (kept + if next then [] else [lines[i]]) + KeepOutside(lines[i + 1..], name, next)
  {
  }

  /** The loop of lines 1105-1126 as written, with its mutable flag. */
  method RemoveSectionLines(lines: seq<string>, name: string) returns (kept: seq<string>)
    ensures kept == RemoveSection(lines, name)
  {
    kept := [];
    var inTarget := false;
    var i := 0;
    while i < |lines|
      invariant 0 <= i <= |lines|
      invariant kept + KeepOutside(lines[i..], name, inTarget) == RemoveSection(lines, name)
    {
      var line := lines[i];
      KeepOutsideStep(kept, lines, i, name, inTarget);
      if IsSectionLine(line) {
        inTarget := IsHeaderFor(line, name);
        if !inTarget {
          kept := kept + [line];
        }
      } else if !inTarget {
        kept := kept + [line];
      }
      i := i + 1;
    }
  }

  /** Lines of a box with no target header pass the scanner untouched. */
  lemma {:induction false} KeepOutsideAbsentPrefix(a: seq<string>, b: seq<string>, name: string)
    requires !SectionExists(a, name)
    ensures KeepOutside(a + b, name, false) == a + KeepOutside(b, name, false)
  {
    if |a| == 0 {
      assert a + b == b;
    } else {
      var kept := KeepOutside(b, name, false);
      assert !IsHeaderFor(a[0], name);
      assert !SectionExists(a[1..], name) by {
        forall k | 0 <= k < |a[1..]|
          ensures !IsHeaderFor(a[1..][k], name)
        {
          assert a[1..][k] == a[k + 1];
        }
      }
      KeepOutsideAbsentPrefix(a[1..], b, name);
      assert a + b == [a[0]] + (a[1..] + b);
      KeepOutsideOther(a[0], a[1..] + b, name);
      assert KeepOutside(a + b, name, false) == [a[0]] + (a[1..] + kept);
      ConsAppend(a, kept);
    }
  }

  lemma ConsAppend(a: seq<string>, b: seq<string>)
    requires |a| > 0
    ensures [a[0]] + (a[1..] + b) == a + b
  {
  }

  /** Outside the target, a line that is not the target header is kept and
      the scanner stays outside. */
  lemma KeepOutsideOther(line: string, rest: seq<string>, name: string)
    requires !IsHeaderFor(line, name)
    ensures KeepOutside([line] + rest, name, false) == [line] + KeepOutside(rest, name, false)
  {
  }

  /** Removing a box that has no section leaves the file as it was. */
  lemma RemoveAbsentSection(lines: seq<string>, name: string)
    requires !SectionExists(lines, name)
    ensures RemoveSection(lines, name) == lines
  {
    KeepOutsideAbsentPrefix(lines, [], name);
    assert lines + [] == lines;
  }

  /** Removal is idempotent. */
  lemma RemoveSectionTwice(lines: seq<string>, name: string)
    ensures RemoveSection(RemoveSection(lines, name), name) == RemoveSection(lines, name)
  {
    RemoveAbsentSection(RemoveSection(lines, name), name);
  }

  /** While inside the target box, lines without a header are all dropped;
      outside it they are all kept. */
  lemma {:induction false} KeepOutsidePlain(lines: seq<string>, name: string, inTarget: bool)
    requires NoSectionLines(lines)
    ensures KeepOutside(lines, name, inTarget) == if inTarget then [] else lines
  {
    if |lines| > 0 {
      KeepOutsidePlain(lines[1..], name, inTarget);
      assert lines == [lines[0]] + lines[1..];
    }
  }

  /** Removing a box that was just appended gives back the original file plus
      the blank separator line, which the scanner keeps because it precedes
      the header. */
  lemma RemoveAfterAppend(lines: seq<string>, name: string)
    requires !SectionExists(lines, name)
    ensures RemoveSection(AppendSection(lines, name), name) == lines + [""]
  {
    var block := SectionBlock(name);
    KeepOutsideAbsentPrefix(lines, block, name);
    SettingsArePlain();
    HeaderMatchesItself(name);
    HeaderIsSectionLine(Header(name), name);
    assert Trim("") == "";
    assert block[1..] == [Header(name)] + TemplateSettings;
    assert block[1..][1..] == TemplateSettings;
    KeepOutsidePlain(TemplateSettings, name, true);
    assert KeepOutside(block[1..], name, false) == [];
    assert KeepOutside(block, name, false) == [""];
  }

  // ---------------------------------------------------------------------
  // The structured view: a preamble, then sections each made of a header
  // line and the lines up to the next header.

  datatype Section = Section(header: string, body: seq<string>)
  datatype Layout = Layout(preamble: seq<string>, sections: seq<Section>)

  predicate WellFormed(layout: Layout) {
    && NoSectionLines(layout.preamble)
    && forall k :: 0 <= k < |layout.sections| ==>
         IsSectionLine(layout.sections[k].header) && NoSectionLines(layout.sections[k].body)
  }

  function FlattenSections(sections: seq<Section>): seq<string> {
    if |sections| == 0 then []
    else [sections[0].header] + sections[0].body + FlattenSections(sections[1..])
  }

  function Flatten(layout: Layout): seq<string> {
    layout.preamble + FlattenSections(layout.sections)
  }

  /** Cut the lines at every section line. */
  function Parse(lines: seq<string>): (layout: Layout)
    ensures WellFormed(layout)
  {
    if |lines| == 0 then Layout([], [])
    else
      var rest := Parse(lines[1..]);
      if IsSectionLine(lines[0]) then
        Layout([], [Section(lines[0], rest.preamble)] + rest.sections)
      else
        Layout([lines[0]] + rest.preamble, rest.sections)
  }

  /** Parsing loses nothing. */
  lemma {:induction false} FlattenParse(lines: seq<string>)
    ensures Flatten(Parse(lines)) == lines
  {
    if |lines| > 0 {
      var line := lines[0];
      var tail := lines[1..];
      FlattenParse(tail);
      var rest := Parse(tail);
      assert lines == [line] + tail;
      ParseCons(line, tail);
      if IsSectionLine(line) {
        FlattenSectionsCons(Section(line, rest.preamble), rest.sections);
      }
      Associative([line], rest.preamble, FlattenSections(rest.sections));
    }
  }

  lemma Associative(a: seq<string>, b: seq<string>, c: seq<string>)
    ensures (a + b) + c == a + (b + c)
  {
  }

  lemma FlattenSectionsCons(section: Section, rest: seq<Section>)
    ensures FlattenSections([section] + rest) == [section.header] + section.body + FlattenSections(rest)
  {
  }

  /** Parsing recovers any well-formed layout from its lines. */
  lemma {:induction false} ParseFlatten(layout: Layout)
    requires WellFormed(layout)
    ensures Parse(Flatten(layout)) == layout
    decreases |layout.sections|, |layout.preamble|
  {
    var p := layout.preamble;
    var ss := layout.sections;
    if |p| > 0 {
      var smaller := Layout(p[1..], ss);
      ParseFlatten(smaller);
      FlattenPreambleCons(layout);
      ParseCons(p[0], Flatten(smaller));
      assert p == [p[0]] + p[1..];
    } else if |ss| > 0 {
      var smaller := Layout(ss[0].body, ss[1..]);
      assert WellFormed(smaller);
      ParseFlatten(smaller);
      FlattenSectionCons(layout);
      ParseCons(ss[0].header, Flatten(smaller));
      assert ss == [Section(ss[0].header, ss[0].body)] + ss[1..];
    }
  }

  /** The first preamble line comes first in the file. */
  lemma FlattenPreambleCons(layout: Layout)
    requires |layout.preamble| > 0
    ensures Flatten(layout) ==
      [layout.preamble[0]] + Flatten(Layout(layout.preamble[1..], layout.sections))
  {
    var p := layout.preamble;
    Associative([p[0]], p[1..], FlattenSections(layout.sections));
    assert p == [p[0]] + p[1..];
  }

  /** With no preamble, the first section's header comes first, then its body
      and the rest. */
  lemma FlattenSectionCons(layout: Layout)
    requires |layout.preamble| == 0 && |layout.sections| > 0
    ensures var ss := layout.sections;
      Flatten(layout) == [ss[0].header] + Flatten(Layout(ss[0].body, ss[1..]))
  {
    var ss := layout.sections;
    assert Flatten(layout) == FlattenSections(ss);
    Associative([ss[0].header], ss[0].body, FlattenSections(ss[1..]));
  }

  /** One step of the parser. */
  lemma ParseCons(line: string, rest: seq<string>)
    ensures var tail := Parse(rest);
      Parse([line] + rest) ==
        if IsSectionLine(line) then Layout([], [Section(line, tail.preamble)] + tail.sections)
        else Layout([line] + tail.preamble, tail.sections)
  {
  }

  /** The sections that are not box `name`'s, in order. */
  function OtherSections(sections: seq<Section>, name: string): (r: seq<Section>)
    ensures forall s :: s in r <==> s in sections && !IsHeaderFor(s.header, name)
    ensures IsSubsequence(r, sections)
  {
    if |sections| == 0 then []
    else
      var tail := OtherSections(sections[1..], name);
      if IsHeaderFor(sections[0].header, name) then tail
      else
        assert ([sections[0]] + tail)[1..] == tail;
        [sections[0]] + tail
  }

  /** Each section that is not box `name`'s is kept as many times as it
      occurs; the box's sections are all dropped. */
  lemma {:induction false} OtherSectionsCount(sections: seq<Section>, name: string)
    ensures forall s :: multiset(OtherSections(sections, name))[s] ==
                          (if IsHeaderFor(s.header, name) then 0 else multiset(sections)[s])
  {
    if |sections| > 0 {
      OtherSectionsCount(sections[1..], name);
      assert sections == [sections[0]] + sections[1..];
    }
  }

  /** Drop the sections of box `name`, keeping the preamble. */
  function DropSection(layout: Layout, name: string): (r: Layout)
    requires WellFormed(layout)
    ensures WellFormed(r)
    ensures r.preamble == layout.preamble
  {
    var kept := OtherSections(layout.sections, name);
    assert forall k :: 0 <= k < |kept| ==> kept[k] in layout.sections;
    Layout(layout.preamble, kept)
  }

  /** The scanner agrees with the structured view at every step. */
  lemma {:induction false} KeepOutsideByLayout(lines: seq<string>, name: string, inTarget: bool)
    ensures KeepOutside(lines, name, inTarget)
         == (if inTarget then [] else Parse(lines).preamble)
            + FlattenSections(OtherSections(Parse(lines).sections, name))
  {
    if |lines| > 0 {
      var line := lines[0];
      var rest := Parse(lines[1..]);
      if IsSectionLine(line) {
        var entering := IsHeaderFor(line, name);
        KeepOutsideByLayout(lines[1..], name, entering);
        var ss := [Section(line, rest.preamble)] + rest.sections;
        assert ss[1..] == rest.sections;
        if !entering {
          var kept := OtherSections(ss, name);
          assert kept == [Section(line, rest.preamble)] + OtherSections(rest.sections, name);
          assert kept[1..] == OtherSections(rest.sections, name);
        }
      } else {
        KeepOutsideByLayout(lines[1..], name, inTarget);
      }
    }
  }

  /** Removal drops exactly the sections of box `name`: the preamble and every
      other section, header and body, come through unchanged and in order. */
  lemma RemoveSectionByLayout(lines: seq<string>, name: string)
    ensures RemoveSection(lines, name) == Flatten(DropSection(Parse(lines), name))
    ensures Parse(RemoveSection(lines, name)) == DropSection(Parse(lines), name)
  {
    KeepOutsideByLayout(lines, name, false);
    ParseFlatten(DropSection(Parse(lines), name));
  }
}
