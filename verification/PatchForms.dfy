/** The other ways in which the same patch may be written: line ends, end markers, short ranges, quoted paths, stamps. */
module PatchForms {
  import opened Seqs
  import opened Patches
  import opened PatchPrinting
  import Decimal

  // ---- Line ends --------------------------------------------------------------------------

  function End(cr: bool): string { if cr then "\r\n" else "\n" }

  /** Lines, each with either end, and a last one without. */
  function Laid(lines: seq<string>, crs: seq<bool>, last: string): string
    requires |crs| == |lines|
  {
    if lines == [] then last else lines[0] + End(crs[0]) + Laid(lines[1..], crs[1..], last)
  }

  function WithLast(lines: seq<string>, last: string): seq<string> { if last == "" then lines else lines + [last] }

  lemma LineWithCr(line: string, rest: string)
    requires '\n' !in line
    ensures Lines(line + ['\r'] + ['\n'] + rest) == [line] + Lines(rest)
  {
    var front := line + ['\r'];
    var s := front + ['\n'] + rest;
    SplitOnceAt(front, '\n', rest);
    assert s[..|front|] == front && s[|front| + 1..] == rest;
    assert StripCr(front) == line;
  }

  lemma FirstLine(line: string, cr: bool, rest: string)
    requires PlainLine(line)
    ensures Lines(line + End(cr) + rest) == [line] + Lines(rest)
  {
    if cr {
      LineWithCr(line, rest);
      assert line + End(cr) + rest == line + ['\r'] + ['\n'] + rest;
    } else {
      LinesFrom(line, rest);
    }
  }

  lemma FirstOfMore(line: string, lines: seq<string>, last: string)
    ensures WithLast([line] + lines, last) == [line] + WithLast(lines, last)
  {
    ConcatAssociates([line], lines, [last]);
  }

  lemma {:induction false} LinesOfLaid(lines: seq<string>, crs: seq<bool>, last: string)
    requires |crs| == |lines| && PlainLines(lines) && '\n' !in last
    ensures Lines(Laid(lines, crs, last)) == WithLast(lines, last)
  {
    if lines == [] {
      assert IndexOf(last, '\n') == |last|;
    } else {
      assert PlainLine(lines[0]) && PlainLines(lines[1..]);
      FirstLine(lines[0], crs[0], Laid(lines[1..], crs[1..], last));
      LinesOfLaid(lines[1..], crs[1..], last);
      FirstOfMore(lines[0], lines[1..], last);
      assert lines == [lines[0]] + lines[1..];
    }
  }

  lemma BlankBoth(a: string, b: string)
    ensures Blank(a + b) <==> Blank(a) && Blank(b)
  {
    assert forall c <- a :: c in a + b;
    assert forall c <- b :: c in a + b;
  }

  lemma {:induction false} BlankLaid(lines: seq<string>, crs: seq<bool>, last: string)
    requires |crs| == |lines|
    ensures Blank(Laid(lines, crs, last)) <==> Blank(Unlines(WithLast(lines, last)))
  {
    var rest := WithLast(lines[if lines == [] then 0 else 1..], last);
    assert IsWhitespace('\n') && IsWhitespace('\r');
    if lines == [] {
      if last != "" {
        assert [last][1..] == [];
        BlankBoth(last + "\n", "");
        BlankBoth(last, "\n");
      }
    } else {
      BlankLaid(lines[1..], crs[1..], last);
      assert WithLast(lines, last)[0] == lines[0] && WithLast(lines, last)[1..] == rest;
      BlankBoth(lines[0] + End(crs[0]), Laid(lines[1..], crs[1..], last));
      BlankBoth(lines[0], End(crs[0]));
      BlankBoth(lines[0] + "\n", Unlines(rest));
      BlankBoth(lines[0], "\n");
    }
  }

  /** However its lines end, and whether the last one does, the same patch is read or the same error given. */
  lemma LineEndsDoNotMatter(lines: seq<string>, crs: seq<bool>, last: string)
    requires |crs| == |lines| && PlainLines(lines) && PlainLine(last)
    ensures Parsed(Laid(lines, crs, last)) == Parsed(Unlines(WithLast(lines, last)))
  {
    LinesOfLaid(lines, crs, last);
    LinesOfUnlines(WithLast(lines, last));
    BlankLaid(lines, crs, last);
  }

  // ---- The marker of a missing line end ---------------------------------------------------

  lemma {:induction false} RunBoth(s: State, a: seq<string>, b: seq<string>)
    ensures Run(s, a + b) == if Run(s, a).Err? then Run(s, a) else Run(Run(s, a).value, b)
    decreases |a|
  {
    if a == [] {
      assert a + b == b;
    } else {
      assert (a + b)[0] == a[0] && (a + b)[1..] == a[1..] + b;
      if Step(s, a[0]).Ok? { RunBoth(Step(s, a[0]).value, a[1..], b); }
    }
  }

  /** The marker changes nothing wherever it stands, within a hunk or not. */
  lemma MarkerIsIgnored(s: State, a: seq<string>, b: seq<string>)
    ensures Run(s, a + ["\\ No newline at end of file"] + b) == Run(s, a + b)
  {
    var marker := "\\ No newline at end of file";
    assert a + [marker] + b == a + ([marker] + b);
    RunBoth(s, a, [marker] + b);
    RunBoth(s, a, b);
    if Run(s, a).Ok? {
      var middle := Run(s, a).value;
      assert marker[0] == '\\';
      assert Step(middle, marker) == Ok(middle);
      assert ([marker] + b)[1..] == b;
    }
  }

  // ---- Ranges without a count -------------------------------------------------------------

  lemma RangeWithoutCount(start: nat)
    requires start < USIZE_LIMIT
    ensures ParseRange(Decimal.Print(start)) == Ok((start, 1)) && Spaceless(Decimal.Print(start))
  {
    PrintedNumber(start);
    SplitOnceNone(Decimal.Print(start), ',');
  }

  /** A side that names only its start has one line; a heading may follow. */
  lemma ShortHeaderReadsBack(oldStart: nat, newStart: nat, heading: string)
    requires oldStart < USIZE_LIMIT && newStart < USIZE_LIMIT
    ensures ParseHunkHeader("@@ -" + (Decimal.Print(oldStart) + " +" + Decimal.Print(newStart) + " @@" + heading))
            == Ok(HunkBuilder(oldStart, 1, newStart, 1, 0, 0, []))
  {
    RangeWithoutCount(oldStart);
    RangeWithoutCount(newStart);
    ParseHeaderParts(Decimal.Print(oldStart), Decimal.Print(newStart), heading, (oldStart, 1), (newStart, 1));
  }

  // ---- Paths ------------------------------------------------------------------------------

  /** A time stamp or anything else after a tab is no part of the path. */
  lemma StampIsIgnored(path: string, stamp: string)
    requires '\t' !in path
    ensures ParseHeaderPath(path + ['\t'] + stamp) == ParseHeaderPath(path) == ParseGitPath(path)
  {
    SplitOnceAt(path, '\t', stamp);
    SplitOnceNone(path, '\t');
  }

  function Marked(s: string, c: char): string {
    if s == "" then "" else (if s[0] == c then ['\\', c] else [s[0]]) + Marked(s[1..], c)
  }

  /** As git quotes backslashes and quotes. */
  function Quoted(path: string): string { "\"" + Marked(Marked(path, '\\'), '\"') + "\"" }

  /** Marking a character with backslashes is undone. */
  lemma {:induction false} UnescapeMarked(s: string, c: char)
    requires c == '\\' || c == '\"'
    ensures Unescape(Marked(s, c), c) == s
    decreases |s|
  {
    if s != "" {
      UnescapeMarked(s[1..], c);
      var rest := Marked(s[1..], c);
      var all := Marked(s, c);
      if s[0] == c {
        assert all[2..] == rest;
      } else {
        assert all[1..] == rest;
        assert rest != "" && rest[0] == c ==> c == '\\';
      }
      assert s == [s[0]] + s[1..];
    }
  }

  /** Quoting a path is undone, but a quoted path keeps the side it begins with. */
  lemma QuotedPathReadsBack(path: string)
    ensures UnquotePath(Quoted(path)) == path && ParseGitPath(Quoted(path)) == Some(path)
  {
    var inner := Marked(Marked(path, '\\'), '\"');
    var text := Quoted(path);
    assert text[0] == '\"';
    StripPrefixOf("\"", inner + "\"");
    assert text == "\"" + (inner + "\"");
    var body := inner + "\"";
    assert body[..|inner|] == inner && body[|inner|..] == "\"";
    UnescapeMarked(Marked(path, '\\'), '\"');
    UnescapeMarked(path, '\\');
  }
}
