/**
  Worked examples of the three insertion strategies on small documents.
 */
module Scenarios {
  import opened Text
  import opened Timestamp
  import opened Separators
  import opened Buffer
  import opened Scans
  import opened Planner

  /** A document ending in an empty line gets the timestamp on that line. */
  lemma EndOnBlankLineExample()
    ensures Apply(["a", "b", ""], EndEdit(["a", "b", ""], "# 09:05"))
         == Outcome(["a", "b", "# 09:05", ""], Pos(3, 0))
  {
    var lines := ["a", "b", ""];
    assert IsBlank(lines[2]);
    EndEffect(lines, "# 09:05");
    assert lines[..2] + ["# 09:05", ""] == ["a", "b", "# 09:05", ""];
  }

  /** A document ending in text gets an empty line, the timestamp and an empty line. */
  lemma EndAfterTextExample()
    ensures Apply(["a"], EndEdit(["a"], "# 14:30"))
         == Outcome(["a", "", "# 14:30", ""], Pos(3, 0))
  {
    var lines := ["a"];
    var a := "a";
    assert lines[0] == a && a[0] == 'a';
    assert !IsSpace(a[0]);
    assert TrimStart(a) == a;
    assert !IsBlank(lines[0]);
    EndEffect(lines, "# 14:30");
  }

  /** With no blank line at or below the cursor, the timestamp is appended after the last line. */
  lemma CursorWithoutBlankLineExample()
    ensures CursorEdit(["x", "y"], Pos(0, 0), "# 10:00")
         == Edit("\n# 10:00\n", Pos(2, 0), Pos(2, 0), Pos(4, 0))
  {
    var lines := ["x", "y"];
    var x, y := "x", "y";
    assert lines[0] == x && lines[1] == y;
    assert TrimStart(x) == x && TrimStart(y) == y;
    assert NextBlank(lines, 0) == 2;
  }

  /** On an empty line under the cursor, the empty line is kept and an empty line and the timestamp go in front of it. */
  lemma CursorOnEmptyLineExample(lines: seq<string>)
    requires lines == ["x", "", "y"]
    ensures Apply(lines, CursorEdit(lines, Pos(1, 0), "# 10:00"))
         == Outcome(["x", "", "# 10:00", "", "y"], Pos(3, 0))
  {
    var ts := "# 10:00";
    assert NextBlank(lines, 1) == 1 by {
      assert lines[1] == [];
    }
    assert WellFormed(lines) by {
      assert forall i :: 0 <= i < 3 ==> NL !in lines[i];
    }
    CursorEffect(lines, Pos(1, 0), ts);
    var after := lines[..1] + ["", ts, ""] + lines[2..];
    assert Apply(lines, CursorEdit(lines, Pos(1, 0), ts)) == Outcome(after, Pos(3, 0));
    assert after == ["x", "", "# 10:00", "", "y"] by {
      assert lines[..1] == ["x"] && lines[2..] == ["y"];
    }
  }

  /** The setting `"---"` parses to the one separator `---`. */
  lemma SingleSeparator()
    ensures ParseSeparators("---") == ["---"]
  {
    var raw := "---";
    assert Join(["---"], ',') == raw;
    SplitJoin(["---"], ',');
    ParseIsFiltered(raw);
    TrimmedAlready(raw);
    var t := TrimEach(["---"]);
    assert t == ["---"];
    assert DropEmpty(t) == ["---"];
  }

  /** In the chain example, line 0 is the last timestamp line. */
  lemma ChainLastTimestampExample(lines: seq<string>)
    requires lines == ["# 09:05", "note1", "---", "tail"]
    ensures LastTimestamp(lines, "# HH:MM") == 0
  {
    var f := "# HH:MM";
    var p := TimestampPattern(f);
    var l0, l1, l2, l3 := "# 09:05", "note1", "---", "tail";
    assert lines[0] == l0 && lines[1] == l1 && lines[2] == l2 && lines[3] == l3;
    assert IsTimestampLine(p, l0) by {
      TrimmedAlready(f);
      DefaultTemplateExample();
      RenderedLineIsTimestamp(f, 9, 5, []);
      assert l0 + [] == l0;
    }
    assert !IsTimestampLine(p, l1) by {
      TrimmedAlready(l1);
      RecognisedLinesStartLikeTemplate(f, l1);
    }
    assert !IsTimestampLine(p, l2) by {
      TrimmedAlready(l2);
      RecognisedLinesStartLikeTemplate(f, l2);
    }
    assert !IsTimestampLine(p, l3) by {
      TrimmedAlready(l3);
      RecognisedLinesStartLikeTemplate(f, l3);
    }
    forall i | 0 < i < |lines| ensures !IsTimestampLine(p, lines[i]) {
      assert i == 1 || i == 2 || i == 3;
    }
    LastTimestampAt(lines, f, 0);
  }

  /** In the chain example, the content after line 0 ends at line 1, because line 2 is a separator. */
  lemma ChainContentEndExample(lines: seq<string>)
    requires lines == ["# 09:05", "note1", "---", "tail"]
    ensures ContentEnd(lines, "---", 0) == 1
  {
    var l1, l2 := "note1", "---";
    assert lines[1] == l1 && lines[2] == l2;
    TrimmedAlready(l1);
    TrimmedAlready(l2);
    SingleSeparator();
    assert IsSeparatorLine(l2, l2) by {
      assert IsPrefix(l2, Trim(l2));
    }
    assert !IsSeparatorLine(l2, l1) by {
      assert !IsPrefix(l2, Trim(l1));
    }
    assert !IsBlank(l1);
    assert ContentEndFrom(lines, l2, 2, 1) == 1;
    assert ContentEndFrom(lines, l2, 1, 0) == 1;
  }

  /** Chain mode stops the content block at a separator: the timestamp goes after `note1`, before `---`. */
  lemma ChainWithSeparatorExample(lines: seq<string>)
    requires lines == ["# 09:05", "note1", "---", "tail"]
    ensures ChainEdit(lines, "# HH:MM", "---", "# 10:00")
         == Edit([NL, NL] + "# 10:00" + [NL], Pos(1, 5), Pos(1, 5), Pos(4, 0))
  {
    var f, raw, ts := "# HH:MM", "---", "# 10:00";
    ChainLastTimestampExample(lines);
    ChainContentEndExample(lines);
    assert LineAt(lines, 1) == "note1";
    assert |LineAt(lines, 1)| == 5;
    assert ChainEdit(lines, f, raw, ts) == Edit([NL, NL] + ts + [NL], Pos(1, 5), Pos(1, 5), Pos(4, 0));
  }

  /** The padded template `"# HH:MM "` renders 12:00 as `"# 12:00 "`, trailing space kept. */
  lemma PaddedRenderExample(f: string)
    requires f == "# HH:MM "
    ensures Render(f, 12, 0) == "# 12:00 "
  {
    assert Pad2(12) == "12" && Pad2(0) == "00";
    var h := ReplaceFirst(f, "HH", "12");
    assert h == "# 12:MM " by {
      assert f[0..2][0] == '#' && f[1..3][0] == ' ';
      assert !OccursAt(f, "HH", 0) && !OccursAt(f, "HH", 1);
      ReplaceFirstLeftmost(f, "HH", "12", 2);
    }
    assert forall j :: 0 <= j < 5 ==> h[j] != 'M';
    NoPairBefore(h, 'M', 5);
    ReplaceFirstLeftmost(h, "MM", "00", 5);
  }

  /**
    A template with white space at its end still recognises a line that carries more text after
    the rendered timestamp, so chain mode anchors there.
   */
  lemma PaddedTemplateAnchorsExample(lines: seq<string>, f: string)
    requires lines == ["# 12:00 x"] && f == "# HH:MM "
    ensures LastTimestamp(lines, f) == 0
  {
    var l0 := "# 12:00 x";
    assert lines[0] == l0;
    TrimmedAlready(l0);
    assert IsPrefix(Render(f, 12, 0), l0) by {
      PaddedRenderExample(f);
    }
    assert DigitPair(Pad2(12)) && DigitPair(Pad2(0));
    TimestampPatternMatches(f, Trim(l0));
  }
}
