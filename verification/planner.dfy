/**
  The three insertion strategies as edits: each strategy makes one
  `replaceRange(text, from, to)` call and then one `setCursor(cursor)` call,
  and the values it passes are functions of the document, the cursor, the
  settings and the rendered timestamp. The lemmas here say what each edit does
  to the document's lines and where it leaves the cursor.
 */
module Planner {
  import opened Text
  import opened Buffer
  import opened Scans
  import opened Timestamp

  /** The arguments of one `replaceRange(text, from, to)` followed by `setCursor(cursor)`. */
  datatype Edit = Edit(text: string, from: Pos, to: Pos, cursor: Pos)

  /** The document's lines and cursor after an edit. */
  datatype Outcome = Outcome(lines: seq<string>, cursor: Pos)

  /** `insertTimestampAtDocumentEnd`: a blank last line is replaced by the timestamp and a line break; otherwise two line breaks, the timestamp and a line break go after the last line. */
  function EndEdit(lines: seq<string>, ts: string): Edit
    requires |lines| > 0
  {
    var last := |lines| - 1;
    var content := lines[last];
    if IsBlank(content) then
      Edit(ts + [NL], Pos(last, 0), Pos(last, |content|), Pos(last + 1, 0))
    else
      Edit([NL, NL] + ts + [NL], Pos(last, |content|), Pos(last, |content|), Pos(last + 3, 0))
  }

  /** `insertTimestampChain`: two line breaks, the timestamp and a line break go after the content of the last timestamp; without a timestamp line this is the end-of-document edit. */
  function ChainEdit(lines: seq<string>, format: string, raw: string, ts: string): Edit
    requires |lines| > 0
  {
    var t := LastTimestamp(lines, format);
    if t == -1 then EndEdit(lines, ts)
    else
      var c := ContentEnd(lines, raw, t);
      var col := |LineAt(lines, c)|;
      Edit([NL, NL] + ts + [NL], Pos(c, col), Pos(c, col), Pos(c + 3, 0))
  }

  /**
    `insertTimestampAtCursorPosition`: at the first blank line from the cursor's
    line on, a non-empty white-space line is replaced by the timestamp and a line
    break; otherwise a line break, the timestamp and a line break go in at the start
    of that line. An empty line counts as "no content" (`""` is falsy), so it gets
    the second treatment.
   */
  function CursorEdit(lines: seq<string>, cursor: Pos, ts: string): Edit
  {
    var e := NextBlank(lines, cursor.line);
    var content := LineAt(lines, e);
    if content != [] && IsBlank(content) then
      Edit(ts + [NL], Pos(e, 0), Pos(e, |content|), Pos(e + 1, 0))
    else
      Edit([NL] + ts + [NL], Pos(e, 0), Pos(e, 0), Pos(e + 2, 0))
  }

  predicate Applicable(lines: seq<string>, edit: Edit) {
    WellFormed(lines) && PosLe(Clip(lines, edit.from), Clip(lines, edit.to))
  }

  /** The editor after `replaceRange(edit.text, edit.from, edit.to)` and `setCursor(edit.cursor)`. */
  function Apply(lines: seq<string>, edit: Edit): (o: Outcome)
    requires Applicable(lines, edit)
    ensures WellFormed(o.lines) && ValidPos(o.lines, o.cursor)
  {
    var after := Replaced(lines, edit.text, edit.from, edit.to);
    Outcome(after, Clip(after, edit.cursor))
  }

  /** Every strategy's range runs forward, so each edit can be applied to any document. */
  lemma EditsApplicable(lines: seq<string>, format: string, raw: string, cursor: Pos, ts: string)
    requires WellFormed(lines)
    ensures Applicable(lines, EndEdit(lines, ts))
    ensures Applicable(lines, ChainEdit(lines, format, raw, ts))
    ensures Applicable(lines, CursorEdit(lines, cursor, ts))
  {
    var e := NextBlank(lines, cursor.line);
    var content := LineAt(lines, e);
    if content != [] && IsBlank(content) {
      assert ValidPos(lines, Pos(e, |content|));
    }
  }

  /** Replacing the whole of line `e` by `ts` and a line break: `ts` takes its place, an empty line follows, the cursor goes there. */
  lemma ReplaceLineEffect(lines: seq<string>, e: nat, ts: string)
    requires WellFormed(lines) && NL !in ts && e < |lines|
    ensures Applicable(lines, Edit(ts + [NL], Pos(e, 0), Pos(e, |lines[e]|), Pos(e + 1, 0)))
    ensures Apply(lines, Edit(ts + [NL], Pos(e, 0), Pos(e, |lines[e]|), Pos(e + 1, 0)))
         == Outcome(lines[..e] + [ts, ""] + lines[e + 1..], Pos(e + 1, 0))
  {
    var content := lines[e];
    var mid := content[..0] + (ts + [NL]) + content[|content|..];
    assert mid == ts + [NL] + [];
    SplitTwo(ts, []);
  }

  /** Two line breaks, `ts` and a line break at the end of line `c`: an empty line, `ts` and an empty line follow line `c`, the cursor goes to the second empty line. */
  lemma AppendAfterLineEffect(lines: seq<string>, c: nat, ts: string)
    requires WellFormed(lines) && NL !in ts && c < |lines|
    ensures Applicable(lines, Edit([NL, NL] + ts + [NL], Pos(c, |lines[c]|), Pos(c, |lines[c]|), Pos(c + 3, 0)))
    ensures Apply(lines, Edit([NL, NL] + ts + [NL], Pos(c, |lines[c]|), Pos(c, |lines[c]|), Pos(c + 3, 0)))
         == Outcome(lines[..c + 1] + ["", ts, ""] + lines[c + 1..], Pos(c + 3, 0))
  {
    var content := lines[c];
    assert NL !in content;
    var mid := content[..|content|] + ([NL, NL] + ts + [NL]) + content[|content|..];
    assert mid == content + [NL] + [] + [NL] + ts + [NL] + [];
    SplitFour(content, [], ts, []);
    var after := lines[..c] + [content, "", ts, ""] + lines[c + 1..];
    assert Replaced(lines, [NL, NL] + ts + [NL], Pos(c, |content|), Pos(c, |content|)) == after;
    assert after == lines[..c + 1] + ["", ts, ""] + lines[c + 1..];
  }

  /** A line break, `ts` and a line break at the start of line `e`: an empty line and `ts` come before the old line `e`, the cursor goes to the start of that old line. */
  lemma InsertBeforeLineEffect(lines: seq<string>, e: nat, ts: string)
    requires WellFormed(lines) && NL !in ts && e < |lines|
    ensures Applicable(lines, Edit([NL] + ts + [NL], Pos(e, 0), Pos(e, 0), Pos(e + 2, 0)))
    ensures Apply(lines, Edit([NL] + ts + [NL], Pos(e, 0), Pos(e, 0), Pos(e + 2, 0)))
         == Outcome(lines[..e] + ["", ts, lines[e]] + lines[e + 1..], Pos(e + 2, 0))
  {
    var content := lines[e];
    assert NL !in content;
    var mid := content[..0] + ([NL] + ts + [NL]) + content[0..];
    assert mid == [] + [NL] + ts + [NL] + content;
    SplitThree([], ts, content);
  }

  /** A line break, `ts` and a line break at line `lineCount`: the editor clips the position to the end of the document, so `ts` and an empty line are appended, and the cursor, asked for two lines further, is clipped to that empty line. */
  lemma InsertPastEndEffect(lines: seq<string>, ts: string)
    requires WellFormed(lines) && NL !in ts
    ensures Applicable(lines, Edit([NL] + ts + [NL], Pos(|lines|, 0), Pos(|lines|, 0), Pos(|lines| + 2, 0)))
    ensures Apply(lines, Edit([NL] + ts + [NL], Pos(|lines|, 0), Pos(|lines|, 0), Pos(|lines| + 2, 0)))
         == Outcome(lines + [ts, ""], Pos(|lines| + 1, 0))
  {
    var last := |lines| - 1;
    var content := lines[last];
    assert NL !in content;
    var mid := content[..|content|] + ([NL] + ts + [NL]) + content[|content|..];
    assert mid == content + [NL] + ts + [NL] + [];
    SplitThree(content, ts, []);
    var after := lines[..last] + [content, ts, ""] + [];
    assert Replaced(lines, [NL] + ts + [NL], Pos(|lines|, 0), Pos(|lines|, 0)) == after;
    assert after == lines + [ts, ""];
  }

  /**
    End of document, with `last` the last line: a blank last line becomes the
    timestamp, an empty line follows and the cursor goes to that empty line;
    otherwise an empty line, the timestamp and an empty line are appended and
    the cursor goes to the final empty line. Lines before `last` never change.
   */
  lemma EndEffect(lines: seq<string>, ts: string)
    requires WellFormed(lines) && NL !in ts
    ensures var last := |lines| - 1;
      IsBlank(lines[last]) ==>
        Apply(lines, EndEdit(lines, ts)) == Outcome(lines[..last] + [ts, ""], Pos(last + 1, 0))
    ensures var last := |lines| - 1;
      !IsBlank(lines[last]) ==>
        Apply(lines, EndEdit(lines, ts)) == Outcome(lines + ["", ts, ""], Pos(last + 3, 0))
  {
    var last := |lines| - 1;
    if IsBlank(lines[last]) {
      ReplaceLineEffect(lines, last, ts);
      assert lines[last + 1..] == [];
    } else {
      AppendAfterLineEffect(lines, last, ts);
      assert lines[..last + 1] == lines && lines[last + 1..] == [];
    }
  }

  /**
    Chain mode: with no timestamp line the edit is the end-of-document edit.
    Otherwise, with `c` the end of the last timestamp's content, lines up to `c`
    stay, then come an empty line, the timestamp and an empty line, then the old
    lines after `c`; the cursor goes to that second empty line.
   */
  lemma ChainEffect(lines: seq<string>, format: string, raw: string, ts: string)
    requires WellFormed(lines) && NL !in ts
    ensures LastTimestamp(lines, format) == -1 ==> ChainEdit(lines, format, raw, ts) == EndEdit(lines, ts)
    ensures LastTimestamp(lines, format) >= 0 ==>
      var c := ContentEnd(lines, raw, LastTimestamp(lines, format));
      c < |lines| &&
      Apply(lines, ChainEdit(lines, format, raw, ts))
        == Outcome(lines[..c + 1] + ["", ts, ""] + lines[c + 1..], Pos(c + 3, 0))
  {
    var t := LastTimestamp(lines, format);
    if t >= 0 {
      var c := ContentEnd(lines, raw, t);
      assert ChainEdit(lines, format, raw, ts) == Edit([NL, NL] + ts + [NL], Pos(c, |lines[c]|), Pos(c, |lines[c]|), Pos(c + 3, 0));
      AppendAfterLineEffect(lines, c, ts);
    }
  }

  /**
    Cursor mode when a blank line `e` lies at or below the cursor's line: a
    non-empty white-space line `e` becomes the timestamp, an empty line follows
    and the cursor goes there; an empty line `e` gets an empty line and the
    timestamp put in front of it, and the cursor goes to the old line `e`, now
    two lines down.
   */
  lemma CursorEffect(lines: seq<string>, cursor: Pos, ts: string)
    requires WellFormed(lines) && NL !in ts
    requires NextBlank(lines, cursor.line) < |lines|
    ensures var e := NextBlank(lines, cursor.line);
      lines[e] != "" ==>
        Apply(lines, CursorEdit(lines, cursor, ts)) == Outcome(lines[..e] + [ts, ""] + lines[e + 1..], Pos(e + 1, 0))
    ensures var e := NextBlank(lines, cursor.line);
      lines[e] == "" ==>
        Apply(lines, CursorEdit(lines, cursor, ts)) == Outcome(lines[..e] + ["", ts, ""] + lines[e + 1..], Pos(e + 2, 0))
  {
    var e := NextBlank(lines, cursor.line);
    if lines[e] != "" {
      assert CursorEdit(lines, cursor, ts) == Edit(ts + [NL], Pos(e, 0), Pos(e, |lines[e]|), Pos(e + 1, 0));
      ReplaceLineEffect(lines, e, ts);
    } else {
      assert CursorEdit(lines, cursor, ts) == Edit([NL] + ts + [NL], Pos(e, 0), Pos(e, 0), Pos(e + 2, 0));
      InsertBeforeLineEffect(lines, e, ts);
    }
  }

  /**
    Cursor mode when no blank line lies at or below the cursor's line: the edit
    inserts a line break, the timestamp and a line break at line `lineCount`,
    column 0, and asks for the cursor at line `lineCount + 2`. The editor clips
    both to the end of the document, so the timestamp follows the last line
    directly and the cursor lands on the new empty last line.
   */
  lemma CursorEffectNoBlank(lines: seq<string>, cursor: Pos, ts: string)
    requires WellFormed(lines) && NL !in ts
    requires NextBlank(lines, cursor.line) == |lines|
    ensures CursorEdit(lines, cursor, ts)
      == Edit([NL] + ts + [NL], Pos(|lines|, 0), Pos(|lines|, 0), Pos(|lines| + 2, 0))
    ensures Apply(lines, CursorEdit(lines, cursor, ts)) == Outcome(lines + [ts, ""], Pos(|lines| + 1, 0))
  {
    InsertPastEndEffect(lines, ts);
  }

  /** A recognised line with no recognised line after it is the last timestamp line. */
  lemma LastTimestampAt(lines: seq<string>, format: string, k: nat)
    requires k < |lines|
    requires IsTimestampLine(TimestampPattern(format), lines[k])
    requires forall i :: k < i < |lines| ==> !IsTimestampLine(TimestampPattern(format), lines[i])
    ensures LastTimestamp(lines, format) == k
  {
  }

  /**
    Appending in chain or end-of-document mode keeps the chain going: with a
    non-empty template without surrounding white space, the line just above the
    new cursor holds the inserted timestamp and is now the document's last
    timestamp line, so the next chain insertion goes after it.
   */
  lemma InsertedTimestampIsLast(lines: seq<string>, format: string, raw: string, hour: nat, minute: nat)
    requires WellFormed(lines) && hour < 24 && minute < 60
    requires format != [] && Trim(format) == format && NL !in format
    ensures var ts := Render(format, hour, minute);
      var o := Apply(lines, EndEdit(lines, ts));
      o.cursor.line > 0 && o.lines[o.cursor.line - 1] == ts && LastTimestamp(o.lines, format) == o.cursor.line - 1
    ensures var ts := Render(format, hour, minute);
      var o := Apply(lines, ChainEdit(lines, format, raw, ts));
      o.cursor.line > 0 && o.lines[o.cursor.line - 1] == ts && LastTimestamp(o.lines, format) == o.cursor.line - 1
  {
    var ts := Render(format, hour, minute);
    var pattern := TimestampPattern(format);
    RenderAddsOnlyDigits(format, hour, minute, NL);
    PatternNonEmpty(format);
    assert IsTimestampLine(pattern, ts) by {
      RenderedLineIsTimestamp(format, hour, minute, []);
      assert ts + [] == ts;
    }
    EndIsLast(lines, format, ts);
    ChainIsLast(lines, format, raw, ts);
  }

  lemma ChainIsLast(lines: seq<string>, format: string, raw: string, ts: string)
    requires WellFormed(lines) && NL !in ts
    requires IsTimestampLine(TimestampPattern(format), ts)
    requires !IsTimestampLine(TimestampPattern(format), "")
    ensures var o := Apply(lines, ChainEdit(lines, format, raw, ts));
      o.cursor.line > 0 && o.lines[o.cursor.line - 1] == ts && LastTimestamp(o.lines, format) == o.cursor.line - 1
  {
    var t := LastTimestamp(lines, format);
    if t == -1 {
      assert ChainEdit(lines, format, raw, ts) == EndEdit(lines, ts);
      EndIsLast(lines, format, ts);
    } else {
      var c := ContentEnd(lines, raw, t);
      var after := lines[..c + 1] + ["", ts, ""] + lines[c + 1..];
      assert Apply(lines, ChainEdit(lines, format, raw, ts)) == Outcome(after, Pos(c + 3, 0)) by {
        ChainEffect(lines, format, raw, ts);
      }
      assert after[c + 2] == ts;
      AppendedIsLast(lines, format, t, c, ts);
    }
  }

  lemma AppendedIsLast(lines: seq<string>, format: string, t: nat, c: nat, ts: string)
    requires t <= c < |lines|
    requires forall i :: t < i < |lines| ==> !IsTimestampLine(TimestampPattern(format), lines[i])
    requires IsTimestampLine(TimestampPattern(format), ts)
    requires !IsTimestampLine(TimestampPattern(format), "")
    ensures LastTimestamp(lines[..c + 1] + ["", ts, ""] + lines[c + 1..], format) == c + 2
  {
    var after := lines[..c + 1] + ["", ts, ""] + lines[c + 1..];
    forall i | c + 2 < i < |after| ensures !IsTimestampLine(TimestampPattern(format), after[i]) {
      if i > c + 3 {
        assert after[i] == lines[i - 3];
      }
    }
    LastTimestampAt(after, format, c + 2);
  }

  lemma EndIsLast(lines: seq<string>, format: string, ts: string)
    requires WellFormed(lines) && NL !in ts
    requires IsTimestampLine(TimestampPattern(format), ts)
    requires !IsTimestampLine(TimestampPattern(format), "")
    ensures var o := Apply(lines, EndEdit(lines, ts));
      o.cursor.line > 0 && o.lines[o.cursor.line - 1] == ts && LastTimestamp(o.lines, format) == o.cursor.line - 1
  {
    var last := |lines| - 1;
    EndEffect(lines, ts);
    if IsBlank(lines[last]) {
      LastTimestampAt(lines[..last] + [ts, ""], format, last);
    } else {
      LastTimestampAt(lines + ["", ts, ""], format, last + 2);
    }
  }

  /**
    A template ending in white space never anchors the chain: the lines are trimmed before
    the test but the pattern keeps the trailing white space. In a document with no timestamp
    line, a chain insertion is an end-of-document insertion, and afterwards the document still
    has no timestamp line, so every later chain insertion falls back the same way.
   */
  lemma PaddedTemplateNeverChains(lines: seq<string>, format: string, raw: string, hour: nat, minute: nat)
    requires WellFormed(lines) && hour < 24 && minute < 60
    requires format != [] && IsSpace(format[|format| - 1]) && NL !in format
    requires LastTimestamp(lines, format) == -1
    ensures var ts := Render(format, hour, minute);
      ChainEdit(lines, format, raw, ts) == EndEdit(lines, ts)
      && LastTimestamp(Apply(lines, ChainEdit(lines, format, raw, ts)).lines, format) == -1
  {
    var ts := Render(format, hour, minute);
    var pattern := TimestampPattern(format);
    RenderAddsOnlyDigits(format, hour, minute, NL);
    PatternNonEmpty(format);
    assert !IsTimestampLine(pattern, ts) by {
      PaddedTemplateNotRecognised(format, hour, minute, ts);
    }
    assert ChainEdit(lines, format, raw, ts) == EndEdit(lines, ts);
    var last := |lines| - 1;
    EndEffect(lines, ts);
    var after := Apply(lines, EndEdit(lines, ts)).lines;
    forall i | 0 <= i < |after| ensures !IsTimestampLine(pattern, after[i]) {
      if IsBlank(lines[last]) {
        assert after == lines[..last] + [ts, ""];
        if i < last {
          assert after[i] == lines[i];
        }
      } else {
        assert after == lines + ["", ts, ""];
        if i <= last {
          assert after[i] == lines[i];
        }
      }
    }
  }
}
