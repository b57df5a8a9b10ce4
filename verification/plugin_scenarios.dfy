/** Verified end-to-end scenarios of the plugin on a fresh editor. */
module PluginScenarios {
  import opened Text
  import opened Timestamp
  import opened Buffer
  import opened Planner
  import opened Plugin

  /** The outcome the default settings give at 09:05 in the document `["a", "b"]`. */
  lemma DefaultInsertOutcome(before: seq<string>)
    requires before == ["a", "b"]
    ensures Apply(before, EditFor(Defaults, before, Pos(0, 0), Render(DefaultFormat, 9, 5)))
         == Outcome(["a", "b", "", "# 09:05", ""], Pos(4, 0))
  {
    DefaultTemplateExample();
    var b := "b";
    assert before[1] == b;
    assert !IsBlank(b) by {
      assert !IsSpace(b[0]);
      assert TrimStart(b) == b;
    }
    EndEffect(before, "# 09:05");
  }

  /**
    Verified scenario: a fresh plugin, with the default settings, inserts at the end of a two-line document opened
    from `"a\nb"`: an empty line, the rendered default template and an empty line are appended, and
    the cursor lands on that last empty line.
   */
  method DefaultInsertScenario(text: string) returns (lines: seq<string>, cursor: Pos)
    requires text == "a\nb"
    ensures lines == ["a", "b", "", "# 09:05", ""] && cursor == Pos(4, 0)
  {
    ghost var before := ["a", "b"];
    assert Split(text, NL) == before by {
      SplitTwo("a", "b");
      assert "a" + [NL] + "b" == text;
    }
    var editor := new Editor(text);
    var plugin := new Timestamper();
    plugin.InsertTimestamp(editor, 9, 5);
    DefaultInsertOutcome(before);
    lines, cursor := editor.lines, editor.cursor;
  }
}
