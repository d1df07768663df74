/**
 * Table cells across two scripts: the printer of build_prd_registers.py and the row parser of
 * build_docs_site.py. Pipes, backslashes and newlines survive the trip; one control character does not.
 */
module TableCells {
  import opened Options

  const SOH := '\U{0001}'
  const DASH := "\U{2014}"

  /** What Python's strip removes. */
  predicate IsSpace(c: char) {
    '\U{0009}' <= c <= '\U{000D}' || '\U{001C}' <= c <= ' ' || c == '\U{0085}' || c == '\U{00A0}' || c == '\U{1680}' ||
    '\U{2000}' <= c <= '\U{200A}' || c == '\U{2028}' || c == '\U{2029}' || c == '\U{202F}' || c == '\U{205F}' ||
    c == '\U{3000}'
  }

  function LStrip(s: string): string {
    if s != "" && IsSpace(s[0]) then LStrip(s[1..]) else s
  }

  function RStrip(s: string): string {
    if s != "" && IsSpace(s[|s| - 1]) then RStrip(s[..|s| - 1]) else s
  }

  function Strip(s: string): string {
    RStrip(LStrip(s))
  }

  /** Every character replaced by a string. */
  function Replace(s: string, c: char, with: string): string {
    if s == "" then "" else (if s[0] == c then with else [s[0]]) + Replace(s[1..], c, with)
  }

  // ----- the printer -----------------------------------------------------------------------------

  function MdCell(text: Option<string>): string {
    var cell := Strip(Replace(Replace(text.GetOr(""), '|', "\\|"), '\n', " "));
    if cell == "" then DASH else cell
  }

  function Inner(cells: seq<string>): string
    requires cells != []
  {
    if |cells| == 1 then " " + cells[0] + " " else " " + cells[0] + " |" + Inner(cells[1..])
  }

  /** "| c1 | c2 | ... |" */
  function Row(cells: seq<string>): string
    requires cells != []
  {
    "|" + Inner(cells) + "|"
  }

  // ----- the parser ------------------------------------------------------------------------------

  /** A backslash and a pipe, left to right, become one stand-in character. */
  function Protect(s: string): string {
    if s == "" then ""
    else if |s| >= 2 && s[0] == '\\' && s[1] == '|' then [SOH] + Protect(s[2..])
    else [s[0]] + Protect(s[1..])
  }

  function Split(s: string): (parts: seq<string>)
    ensures parts != []
  {
    if s == "" then [""]
    else
      var rest := Split(s[1..]);
      if s[0] == '|' then [""] + rest else [[s[0]] + rest[0]] + rest[1..]
  }

  function ReadCell(part: string): string {
    Strip(Replace(part, SOH, "|"))
  }

  function ReadCells(parts: seq<string>): seq<string> {
    if parts == [] then [] else [ReadCell(parts[0])] + ReadCells(parts[1..])
  }

  function SplitRow(line: string): seq<string> {
    var s := Strip(line);
    var t := if s != "" && s[0] == '|' then s[1..] else s;
    var u := if t != "" && t[|t| - 1] == '|' then t[..|t| - 1] else t;
    ReadCells(Split(Protect(u)))
  }

  // ----- what a cell shows -----------------------------------------------------------------------

  /** The text on one line and stripped, or a dash when nothing is left. */
  function Shown(text: Option<string>): string {
    var s := Strip(Replace(text.GetOr(""), '\n', " "));
    if s == "" then DASH else s
  }

  predicate Stripped(s: string) {
    s != "" && !IsSpace(s[0]) && !IsSpace(s[|s| - 1])
  }

  lemma {:induction false} ReplaceAppend(x: string, y: string, c: char, with: string)
    ensures Replace(x + y, c, with) == Replace(x, c, with) + Replace(y, c, with)
  {
    if x == "" {
      assert x + y == y;
    } else {
      ReplaceAppend(x[1..], y, c, with);
      assert (x + y)[1..] == x[1..] + y;
      var head := if x[0] == c then with else [x[0]];
      assert head + (Replace(x[1..], c, with) + Replace(y, c, with)) ==
             head + Replace(x[1..], c, with) + Replace(y, c, with);
    }
  }

  lemma ReplaceOne(c: char, d: char, with: string)
    ensures Replace([d], c, with) == if d == c then with else [d]
  {
    assert [d][1..] == "";
  }

  /** Escaping pipes and flattening newlines do not meet. */
  lemma {:induction false} EscapeThenFlatten(s: string)
    ensures Replace(Replace(s, '|', "\\|"), '\n', " ") == Replace(Replace(s, '\n', " "), '|', "\\|")
  {
    if s != "" {
      EscapeThenFlatten(s[1..]);
      var h := [s[0]];
      assert s == h + s[1..];
      ReplaceAppend(Replace(h, '|', "\\|"), Replace(s[1..], '|', "\\|"), '\n', " ");
      ReplaceAppend(Replace(h, '\n', " "), Replace(s[1..], '\n', " "), '|', "\\|");
      OneCharacter(s[0]);
    }
  }

  lemma OneCharacter(c: char)
    ensures Replace(Replace([c], '|', "\\|"), '\n', " ") == Replace(Replace([c], '\n', " "), '|', "\\|")
    ensures Replace([c], '|', "\\|") == if c == '|' then "\\|" else [c]
    ensures Replace([c], '\n', " ") == if c == '\n' then " " else [c]
  {
    ReplaceOne('|', c, "\\|");
    ReplaceOne('\n', c, " ");
    ReplaceOne('|', ' ', "\\|");
    if c == '|' {
      assert "\\|"[1..] == "|" && "|"[1..] == "";
      assert Replace("|", '\n', " ") == "|";
    }
  }

  /** Escaping changes neither what strip removes nor what it stops at. */
  lemma {:induction false} EscapeThenLStrip(s: string)
    ensures LStrip(Replace(s, '|', "\\|")) == Replace(LStrip(s), '|', "\\|")
  {
    if s != "" && IsSpace(s[0]) {
      EscapeThenLStrip(s[1..]);
      assert Replace(s, '|', "\\|")[1..] == Replace(s[1..], '|', "\\|");
    }
  }

  lemma {:induction false} EscapeThenRStrip(s: string)
    ensures RStrip(Replace(s, '|', "\\|")) == Replace(RStrip(s), '|', "\\|")
  {
    if s != "" {
      var n := |s| - 1;
      assert s == s[..n] + [s[n]];
      ReplaceAppend(s[..n], [s[n]], '|', "\\|");
      ReplaceOne('|', s[n], "\\|");
      if IsSpace(s[n]) {
        EscapeThenRStrip(s[..n]);
        assert Replace(s, '|', "\\|")[..|Replace(s, '|', "\\|")| - 1] == Replace(s[..n], '|', "\\|");
      }
    }
  }

  /** A printed cell is the shown text with its pipes escaped. */
  lemma CellIsEscapedText(text: Option<string>)
    ensures MdCell(text) == Replace(Shown(text), '|', "\\|") && Stripped(Shown(text))
  {
    var t := Replace(text.GetOr(""), '\n', " ");
    EscapeThenFlatten(text.GetOr(""));
    EscapeThenLStrip(t);
    EscapeThenRStrip(LStrip(t));
    StripStrips(t);
    assert DASH[1..] == "";
    assert Replace(DASH, '|', "\\|") == DASH;
  }

  lemma {:induction false} RStripEnds(s: string)
    ensures var r := RStrip(s);
            && r <= s && (r != "" ==> !IsSpace(r[|r| - 1]))
  {
    if s != "" && IsSpace(s[|s| - 1]) {
      RStripEnds(s[..|s| - 1]);
    }
  }

  lemma {:induction false} LStripStarts(s: string)
    ensures LStrip(s) != "" ==> !IsSpace(LStrip(s)[0])
  {
    if s != "" && IsSpace(s[0]) {
      LStripStarts(s[1..]);
    }
  }

  lemma StripStrips(s: string)
    ensures Strip(s) != "" ==> Stripped(Strip(s))
  {
    LStripStarts(s);
    RStripEnds(LStrip(s));
  }

  lemma StrippedStays(s: string)
    requires Stripped(s)
    ensures Strip(s) == s && Strip(" " + s + " ") == s
  {
    assert LStrip(s) == s && RStrip(s) == s;
    var padded := " " + s + " ";
    assert padded[1..] == s + " ";
    assert LStrip(padded) == LStrip(s + " ") == s + " ";
    assert (s + " ")[..|s|] == s;
  }

  /** The 29 characters that Python strips, by their code points. */
  lemma SpacesAre(c: char)
    ensures IsSpace(c) <==>
            c as int in {0x09, 0x0A, 0x0B, 0x0C, 0x0D, 0x1C, 0x1D, 0x1E, 0x1F, 0x20, 0x85, 0xA0, 0x1680, 0x2000,
                         0x2001, 0x2002, 0x2003, 0x2004, 0x2005, 0x2006, 0x2007, 0x2008, 0x2009, 0x200A, 0x2028,
                         0x2029, 0x202F, 0x205F, 0x3000}
  {
  }

  predicate AllSpace(s: string) {
    forall c <- s :: IsSpace(c)
  }

  lemma {:induction false} LStripTakes(s: string) returns (before: string)
    ensures s == before + LStrip(s) && AllSpace(before)
  {
    before := "";
    if s != "" && IsSpace(s[0]) {
      var more := LStripTakes(s[1..]);
      before := [s[0]] + more;
    }
  }

  lemma {:induction false} RStripTakes(s: string) returns (after: string)
    ensures s == RStrip(s) + after && AllSpace(after)
  {
    after := "";
    if s != "" && IsSpace(s[|s| - 1]) {
      var more := RStripTakes(s[..|s| - 1]);
      after := more + [s[|s| - 1]];
    }
  }

  lemma StripTakes(s: string) returns (before: string, after: string)
    ensures s == before + Strip(s) + after && AllSpace(before) && AllSpace(after)
  {
    before := LStripTakes(s);
    after := RStripTakes(LStrip(s));
    assert before + (Strip(s) + after) == before + Strip(s) + after;
  }

  /** Nothing is left exactly of what is all spaces. */
  lemma NothingLeft(s: string)
    ensures Strip(s) == "" <==> AllSpace(s)
  {
    var before, after := StripTakes(s);
    if AllSpace(s) {
      SpacesGo(s);
    }
  }

  lemma {:induction false} SpacesGo(s: string)
    requires AllSpace(s)
    ensures LStrip(s) == ""
  {
    if s != "" {
      SpacesGo(s[1..]);
    }
  }

  /** Every character flattened: a newline to a space, any other to itself. */
  lemma {:induction false} Flattened(s: string)
    ensures var f := Replace(s, '\n', " ");
            |f| == |s| && forall i :: 0 <= i < |s| ==> f[i] == if s[i] == '\n' then ' ' else s[i]
  {
    if s != "" {
      Flattened(s[1..]);
    }
  }

  /**
   * What a cell shows: the text on one line between the spaces around it, which begins and ends with something
   * else; or an em dash, where there is no text but spaces.
   */
  lemma ShownIs(text: Option<string>) returns (line: string, before: string, after: string)
    ensures var t := if text.Some? then text.value else "";
            |line| == |t| && forall i :: 0 <= i < |t| ==> line[i] == if t[i] == '\n' then ' ' else t[i]
    ensures AllSpace(before) && AllSpace(after)
    ensures if AllSpace(line) then Shown(text) == "\U{2014}" else line == before + Shown(text) + after
    ensures Shown(text) != "" && !IsSpace(Shown(text)[0]) && !IsSpace(Shown(text)[|Shown(text)| - 1])
  {
    hide LStrip, RStrip, Strip, Replace, AllSpace;
    line := Replace(text.GetOr(""), '\n', " ");
    Flattened(text.GetOr(""));
    before, after := StripTakes(line);
    NothingLeft(line);
    StripStrips(line);
    CellIsEscapedText(text);
  }

  // ----- one cell through the parser -------------------------------------------------------------

  /** The text with its pipes replaced by the stand-in. */
  function Hidden(s: string): string {
    Replace(s, '|', [SOH])
  }

  lemma ProtectEscape(tail: string)
    ensures Protect("\\|" + tail) == [SOH] + Protect(tail)
  {
    assert ("\\|" + tail)[2..] == tail;
  }

  lemma ProtectPlain(c: char, tail: string)
    requires c == '|' || tail == "" || tail[0] != '|'
    ensures Protect([c] + tail) == [c] + Protect(tail)
  {
    assert ([c] + tail)[1..] == tail;
  }

  /** Escaped text, then a space: nothing the parser could take for an escaped pipe but the escapes. */
  lemma {:induction false} ProtectEscaped(w: string, rest: string)
    ensures Protect(Replace(w, '|', "\\|") + " " + rest) == Hidden(w) + Protect(" " + rest)
  {
    hide Protect;
    if w == "" {
      assert Replace(w, '|', "\\|") + " " + rest == " " + rest;
    } else {
      var tail := Replace(w[1..], '|', "\\|") + " " + rest;
      ProtectEscaped(w[1..], rest);
      if w[0] == '|' {
        assert Replace(w, '|', "\\|") + " " + rest == "\\|" + tail;
        ProtectEscape(tail);
      } else {
        assert Replace(w, '|', "\\|") + " " + rest == [w[0]] + tail;
        ProtectPlain(w[0], tail);
      }
    }
  }

  /** A whole printed cell with the spaces around it. */
  lemma ProtectCell(w: string, rest: string)
    ensures Protect(" " + Replace(w, '|', "\\|") + " " + rest) == " " + Hidden(w) + Protect(" " + rest)
  {
    hide Protect, Replace;
    var e := Replace(w, '|', "\\|");
    assert " " + e + " " + rest == " " + (e + " " + rest);
    ProtectSpace(e + " " + rest);
    ProtectEscaped(w, rest);
  }

  lemma ProtectSpace(rest: string)
    ensures Protect(" " + rest) == " " + Protect(rest)
  {
    assert (" " + rest)[1..] == rest;
  }

  lemma ProtectSeparator(rest: string)
    ensures Protect(" |" + rest) == " |" + Protect(rest)
  {
    assert (" |" + rest)[1..] == "|" + rest && ("|" + rest)[1..] == rest;
  }

  lemma {:induction false} SplitSkips(x: string, rest: string)
    requires '|' !in x
    ensures Split(x + "|" + rest) == [x] + Split(rest) && Split(x) == [x]
  {
    if x == "" {
      assert x + "|" + rest == "|" + rest && ("|" + rest)[1..] == rest;
    } else {
      SplitSkips(x[1..], rest);
      assert (x + "|" + rest)[1..] == x[1..] + "|" + rest;
      assert [x[0]] + x[1..] == x;
      var more := Split(x[1..] + "|" + rest);
      assert more[0] == x[1..] && more[1..] == Split(rest);
    }
  }

  lemma {:induction false} HiddenHasNoPipe(w: string)
    ensures '|' !in Hidden(w)
  {
    if w != "" {
      HiddenHasNoPipe(w[1..]);
    }
  }

  /** Restoring the stand-ins gives the text back, with stand-ins it held itself turned into pipes. */
  lemma {:induction false} RestoreHidden(w: string)
    ensures Replace(Hidden(w), SOH, "|") == Replace(w, SOH, "|")
  {
    if w != "" {
      RestoreHidden(w[1..]);
      assert Hidden(w)[1..] == Hidden(w[1..]);
    }
  }

  lemma {:induction false} RestoreKeepsLength(w: string)
    ensures var r := Replace(w, SOH, "|");
            |r| == |w| && forall i :: 0 <= i < |w| ==> r[i] == if w[i] == SOH then '|' else w[i]
  {
    if w != "" {
      RestoreKeepsLength(w[1..]);
    }
  }

  lemma ReadHidden(w: string)
    requires Stripped(w)
    ensures ReadCell(" " + Hidden(w) + " ") == Replace(w, SOH, "|")
  {
    ReplaceAppend(" " + Hidden(w), " ", SOH, "|");
    ReplaceAppend(" ", Hidden(w), SOH, "|");
    ReplaceOne(SOH, ' ', "|");
    RestoreHidden(w);
    RestoreKeepsLength(w);
    StrippedStays(Replace(w, SOH, "|"));
  }

  // ----- the round trip --------------------------------------------------------------------------

  function Printed(texts: seq<Option<string>>): (cells: seq<string>)
    ensures |cells| == |texts|
  {
    if texts == [] then [] else [MdCell(texts[0])] + Printed(texts[1..])
  }

  lemma OneCellParses(w: string)
    requires Stripped(w)
    ensures ReadCells(Split(Protect(" " + Replace(w, '|', "\\|") + " "))) == [Replace(w, SOH, "|")]
  {
    hide Protect, Split, Replace, ReadCell;
    var x := " " + Hidden(w) + " ";
    ProtectCell(w, "");
    assert " " + Replace(w, '|', "\\|") + " " + "" == " " + Replace(w, '|', "\\|") + " ";
    assert Protect(" " + "") == " " by { LoneSpace(); }
    HiddenHasNoPipe(w);
    SplitSkips(x, "");
    ReadHidden(w);
    assert [x][1..] == [];
  }

  lemma LoneSpace()
    ensures Protect(" " + "") == " "
  {
    assert (" " + "")[1..] == "";
  }

  lemma FirstCellParses(w: string, rest: string)
    requires Stripped(w)
    ensures ReadCells(Split(Protect(" " + Replace(w, '|', "\\|") + " |" + rest))) ==
            [Replace(w, SOH, "|")] + ReadCells(Split(Protect(rest)))
  {
    hide Protect, Split, Replace, ReadCell;
    var e, x := Replace(w, '|', "\\|"), " " + Hidden(w) + " ";
    assert " " + e + " |" + rest == " " + e + " " + ("|" + rest);
    ProtectCell(w, "|" + rest);
    assert " " + ("|" + rest) == " |" + rest;
    ProtectSeparator(rest);
    assert " " + Hidden(w) + (" |" + Protect(rest)) == x + "|" + Protect(rest);
    HiddenHasNoPipe(w);
    SplitSkips(x, Protect(rest));
    ReadHidden(w);
    assert ([x] + Split(Protect(rest)))[1..] == Split(Protect(rest));
  }

  lemma {:induction false} InnerParses(texts: seq<Option<string>>)
    requires texts != []
    ensures var cells := ReadCells(Split(Protect(Inner(Printed(texts)))));
            |cells| == |texts| && forall i :: 0 <= i < |texts| ==> cells[i] == Replace(Shown(texts[i]), SOH, "|")
  {
    hide Protect, Split, Replace, ReadCells, Shown, MdCell, Stripped;
    var w := Shown(texts[0]);
    CellIsEscapedText(texts[0]);
    if |texts| == 1 {
      OneCellParses(w);
    } else {
      InnerParses(texts[1..]);
      FirstCellParses(w, Inner(Printed(texts[1..])));
    }
  }

  lemma RowOpens(texts: seq<Option<string>>)
    requires texts != []
    ensures SplitRow(Row(Printed(texts))) == ReadCells(Split(Protect(Inner(Printed(texts)))))
  {
    hide Inner, Printed, Protect, Split, ReadCells, LStrip, RStrip, Strip;
    var inner := Inner(Printed(texts));
    var row := "|" + inner + "|";
    StrippedStays(row);
    assert row[1..] == inner + "|" && (inner + "|")[..|inner|] == inner;
  }

  /**
   * Any non-empty row of cells comes back as what its cells show, pipes and backslashes included; a text's
   * own U+0001 characters come back as pipes.
   */
  lemma RowRoundTrip(texts: seq<Option<string>>)
    requires texts != []
    ensures var cells := SplitRow(Row(Printed(texts)));
            |cells| == |texts| && forall i :: 0 <= i < |texts| ==> cells[i] == Replace(Shown(texts[i]), SOH, "|")
  {
    RowOpens(texts);
    InnerParses(texts);
  }

  lemma {:induction false} PrintedOnOneLine(texts: seq<Option<string>>)
    requires texts != []
    ensures '\n' !in Inner(Printed(texts))
  {
    CellOnOneLine(texts[0]);
    if |texts| > 1 {
      PrintedOnOneLine(texts[1..]);
    }
  }

  lemma CellOnOneLine(text: Option<string>)
    ensures '\n' !in MdCell(text)
  {
    var line, before, after := ShownIs(text);
    CellIsEscapedText(text);
    forall i | 0 <= i < |Shown(text)| ensures Shown(text)[i] != '\n' {
      if !AllSpace(line) {
        assert line[|before| + i] == Shown(text)[i];
      }
    }
    EscapeAddsNoNewline(Shown(text));
  }

  lemma {:induction false} EscapeAddsNoNewline(s: string)
    requires '\n' !in s
    ensures '\n' !in Replace(s, '|', "\\|")
  {
    if s != "" {
      EscapeAddsNoNewline(s[1..]);
    }
  }

  /** A printed row is one line, whatever the texts. */
  lemma RowIsOneLine(texts: seq<Option<string>>)
    requires texts != []
    ensures '\n' !in Row(Printed(texts))
  {
    PrintedOnOneLine(texts);
  }

  /** The trip is faithful exactly when no shown text holds the stand-in character. */
  lemma RowRoundTripIff(texts: seq<Option<string>>)
    requires texts != []
    ensures var cells := SplitRow(Row(Printed(texts)));
            |cells| == |texts| &&
            ((forall i :: 0 <= i < |texts| ==> cells[i] == Shown(texts[i])) <==>
             (forall i :: 0 <= i < |texts| ==> '\U{0001}' !in Shown(texts[i])))
  {
    RowRoundTrip(texts);
    forall i | 0 <= i < |texts|
      ensures Replace(Shown(texts[i]), SOH, "|") == Shown(texts[i]) <==> SOH !in Shown(texts[i])
    {
      var w := Shown(texts[i]);
      RestoreKeepsLength(w);
      if SOH in w {
        var k :| 0 <= k < |w| && w[k] == SOH;
        assert Replace(w, SOH, "|")[k] != w[k];
      }
    }
  }

  // ----- rows as others write them --------------------------------------------------------------------

  lemma Unbordered(line: string, x: string)
    requires Stripped(x) && x[0] != '|' && x[|x| - 1] != '|' && Stripped(line)
    requires line == x || line == "|" + x || line == x + "|" || line == "|" + x + "|"
    ensures SplitRow(line) == ReadCells(Split(Protect(x)))
  {
    hide LStrip, RStrip, Strip, Protect, Split, ReadCells;
    StrippedStays(line);
    assert ("|" + x)[1..] == x && (x + "|")[..|x|] == x && ("|" + x + "|")[1..] == x + "|";
  }

  lemma SplitOfStripped(line: string, other: string)
    requires Strip(line) == Strip(other)
    ensures SplitRow(line) == SplitRow(other)
  {
    hide Strip, Protect, Split, ReadCells;
  }

  /** The pipes around a row may be left off, each on its own, and spaces around it do not matter. */
  lemma BordersAreOptional(x: string, before: string, after: string)
    requires Stripped(x) && x[0] != '|' && x[|x| - 1] != '|' && AllSpace(before) && AllSpace(after)
    ensures SplitRow(x) == SplitRow("|" + x) == SplitRow(x + "|") == SplitRow("|" + x + "|")
    ensures SplitRow(before + x + after) == SplitRow(x) == ReadCells(Split(Protect(x)))
  {
    hide SplitRow, Strip, Protect, Split, ReadCells, AllSpace;
    Unbordered(x, x);
    Unbordered("|" + x, x);
    Unbordered(x + "|", x);
    Unbordered("|" + x + "|", x);
    StripsAround(before, x, after);
    StrippedStays(x);
    SplitOfStripped(before + x + after, x);
  }

  lemma {:induction false} StripsAround(before: string, x: string, after: string)
    requires Stripped(x) && AllSpace(before) && AllSpace(after)
    ensures Strip(before + x + after) == x
  {
    LeadGoes(before, x + after);
    assert before + x + after == before + (x + after);
    assert (x + after)[0] == x[0];
    TrailGoes(x, after);
  }

  lemma {:induction false} LeadGoes(before: string, s: string)
    requires AllSpace(before)
    ensures LStrip(before + s) == LStrip(s)
  {
    if before == "" {
      assert before + s == s;
    } else {
      LeadGoes(before[1..], s);
      assert (before + s)[1..] == before[1..] + s;
    }
  }

  lemma {:induction false} TrailGoes(x: string, after: string)
    requires Stripped(x) && AllSpace(after)
    ensures RStrip(x + after) == x
    decreases |after|
  {
    if after == "" {
      assert x + after == x;
    } else {
      var n := |after| - 1;
      assert (x + after)[..|x| + n] == x + after[..n];
      TrailGoes(x, after[..n]);
    }
  }
}
