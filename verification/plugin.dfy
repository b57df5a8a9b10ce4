/**
  The plugin object: its settings, the three scans as loops over the editor's
  lines, the three insertion strategies and their dispatch, the cursor move of
  `scrollToBottom`, the settings tab's change handlers and the daily-note path.
 */
module Plugin {
  import opened Text
  import opened Timestamp
  import opened Separators
  import opened Buffer
  import opened Scans
  import opened Planner

  datatype Option<T> = None | Some(value: T)

  datatype Settings = Settings(
    autoOpenDailyNote: bool,
    scrollToBottom: bool,
    insertAtEnd: bool,
    chainMode: bool,
    timestampFormat: string,
    separators: string)

  const DefaultFormat: string := "# HH:MM"

  /** `DEFAULT_SETTINGS` */
  const Defaults: Settings := Settings(true, true, true, false, DefaultFormat, "")

  /** Chain mode and insert-at-end are never both on. */
  predicate ModesExclusive(s: Settings) {
    !(s.chainMode && s.insertAtEnd)
  }

  /** The edit `insertTimestamp` makes: chain mode first, then insert-at-end, then the cursor strategy. */
  function EditFor(s: Settings, lines: seq<string>, cursor: Pos, ts: string): Edit
    requires |lines| > 0
  {
    if s.chainMode then ChainEdit(lines, s.timestampFormat, s.separators, ts)
    else if s.insertAtEnd then EndEdit(lines, ts)
    else CursorEdit(lines, cursor, ts)
  }

  /** The folder is used when it is set, non-empty and not the vault root `/`. */
  predicate UsesFolder(folder: Option<string>) {
    folder.Some? && folder.value != "" && folder.value != "/"
  }

  /** `getTodayDailyNotePath`, with the date already formatted as `filename`. */
  function DailyNotePath(folder: Option<string>, filename: string): (path: string)
    ensures |path| >= |filename| + 3 && path[|path| - |filename| - 3..] == filename + ".md"
    ensures UsesFolder(folder) ==>
      |path| == |folder.value| + 1 + |filename| + 3 && path[..|folder.value| + 1] == folder.value + "/"
    ensures !UsesFolder(folder) ==> |path| == |filename| + 3
  {
    if UsesFolder(folder) then folder.value + "/" + filename + ".md"
    else filename + ".md"
  }

  /** A missing folder, an empty folder and the root folder all put the note at the top of the vault. */
  lemma RootFolderIgnored(filename: string)
    ensures DailyNotePath(None, filename) == filename + ".md"
    ensures DailyNotePath(Some(""), filename) == DailyNotePath(None, filename)
    ensures DailyNotePath(Some("/"), filename) == DailyNotePath(None, filename)
  {
    var root: string := "/";
    assert root != "" && root == "/";
  }

  /** The plugin; only its settings are state. */
  class Timestamper {
    var settings: Settings

    /** A plugin with the default settings. */
    constructor ()
      ensures settings == Defaults
    {
      settings := Defaults;
    }

    /** `findNextEmptyLine(editor, startLine)` */
    method FindNextEmptyLine(editor: Editor, startLine: nat) returns (r: nat)
      requires editor.Valid()
      ensures r == NextBlank(editor.lines, startLine)
    {
      var totalLines: int := editor.LineCount();
      var lineIndex: nat := startLine;
      while lineIndex < totalLines
        invariant NextBlank(editor.lines, lineIndex) == NextBlank(editor.lines, startLine)
        decreases totalLines - lineIndex
      {
        var lineContent := editor.GetLine(lineIndex);
        if Trim(lineContent) == "" {
          return lineIndex;
        }
        lineIndex := lineIndex + 1;
      }
      return totalLines;
    }

    /** `findLastTimestamp(editor)` */
    method FindLastTimestamp(editor: Editor) returns (r: int)
      requires editor.Valid()
      ensures r == LastTimestamp(editor.lines, settings.timestampFormat)
    {
      var totalLines := editor.LineCount();
      var pattern := TimestampPattern(settings.timestampFormat);
      var lastTimestampLine: int := -1;
      var i: nat := 0;
      while i < totalLines
        invariant i <= totalLines
        invariant lastTimestampLine == LastMatchBefore(editor.lines, pattern, i)
      {
        var line := editor.GetLine(i);
        if MatchesPrefix(pattern, Trim(line)) {
          lastTimestampLine := i;
        }
        i := i + 1;
      }
      return lastTimestampLine;
    }

    /** `findContentEndAfterTimestamp(editor, timestampLine)` */
    method FindContentEndAfterTimestamp(editor: Editor, timestampLine: nat) returns (r: nat)
      requires editor.Valid()
      ensures r == ContentEnd(editor.lines, settings.separators, timestampLine)
    {
      var totalLines := editor.LineCount();
      var lastContentLine: nat := timestampLine;
      var i: nat := timestampLine + 1;
      while i < totalLines
        invariant lastContentLine < i
        invariant ContentEndFrom(editor.lines, settings.separators, i, lastContentLine)
               == ContentEnd(editor.lines, settings.separators, timestampLine)
        decreases totalLines - i
      {
        var line := editor.GetLine(i);
        if IsSeparatorLine(settings.separators, line) {
          break;
        }
        if Trim(line) != "" {
          lastContentLine := i;
        }
        i := i + 1;
      }
      return lastContentLine;
    }

    /** `insertTimestampAtDocumentEnd(editor, timestamp)` */
    method InsertTimestampAtDocumentEnd(editor: Editor, timestamp: string)
      modifies editor
      requires editor.Valid()
      ensures editor.Valid()
      ensures Outcome(editor.lines, editor.cursor) == Apply(old(editor.lines), EndEdit(old(editor.lines), timestamp))
    {
      EditsApplicable(editor.lines, "", "", editor.cursor, timestamp);
      var lastLineIndex := editor.LineCount() - 1;
      var lastLineContent := editor.GetLine(lastLineIndex);
      var documentEndPosition := Pos(lastLineIndex, |lastLineContent|);
      if Trim(lastLineContent) == "" {
        editor.ReplaceRange(timestamp + [NL], Pos(lastLineIndex, 0), documentEndPosition);
        editor.SetCursor(Pos(lastLineIndex + 1, 0));
      } else {
        editor.ReplaceRange([NL, NL] + timestamp + [NL], documentEndPosition, documentEndPosition);
        editor.SetCursor(Pos(lastLineIndex + 3, 0));
      }
    }

    /** `insertTimestampChain(editor, timestamp)` */
    method InsertTimestampChain(editor: Editor, timestamp: string)
      modifies editor
      requires editor.Valid()
      ensures editor.Valid()
      ensures Outcome(editor.lines, editor.cursor)
           == Apply(old(editor.lines), ChainEdit(old(editor.lines), settings.timestampFormat, settings.separators, timestamp))
    {
      EditsApplicable(editor.lines, settings.timestampFormat, settings.separators, editor.cursor, timestamp);
      var lastTimestampLine := FindLastTimestamp(editor);
      if lastTimestampLine == -1 {
        InsertTimestampAtDocumentEnd(editor, timestamp);
        return;
      }
      var contentEndLine := FindContentEndAfterTimestamp(editor, lastTimestampLine);
      var contentEndCol := |editor.GetLine(contentEndLine)|;
      editor.ReplaceRange([NL, NL] + timestamp + [NL], Pos(contentEndLine, contentEndCol), Pos(contentEndLine, contentEndCol));
      editor.SetCursor(Pos(contentEndLine + 3, 0));
    }

    /** `insertTimestampAtCursorPosition(editor, timestamp)` */
    method InsertTimestampAtCursorPosition(editor: Editor, timestamp: string)
      modifies editor
      requires editor.Valid()
      ensures editor.Valid()
      ensures Outcome(editor.lines, editor.cursor)
           == Apply(old(editor.lines), CursorEdit(old(editor.lines), old(editor.cursor), timestamp))
    {
      EditsApplicable(editor.lines, "", "", editor.cursor, timestamp);
      var cursorPosition := editor.GetCursor();
      var emptyLineIndex := FindNextEmptyLine(editor, cursorPosition.line);
      var emptyLineContent := editor.GetLine(emptyLineIndex);
      if emptyLineContent != "" && Trim(emptyLineContent) == "" {
        editor.ReplaceRange(timestamp + [NL], Pos(emptyLineIndex, 0), Pos(emptyLineIndex, |emptyLineContent|));
        editor.SetCursor(Pos(emptyLineIndex + 1, 0));
      } else {
        editor.ReplaceRange([NL] + timestamp + [NL], Pos(emptyLineIndex, 0), Pos(emptyLineIndex, 0));
        editor.SetCursor(Pos(emptyLineIndex + 2, 0));
      }
    }

    /** `insertTimestamp(editor)` at the given time: nothing without an editor, otherwise the rendered timestamp goes in by the strategy the settings select. */
    method InsertTimestamp(editor: Editor?, hour: nat, minute: nat)
      modifies editor
      requires hour < 24 && minute < 60
      requires editor != null ==> editor.Valid()
      ensures editor != null ==> editor.Valid()
      ensures editor != null ==>
        Outcome(editor.lines, editor.cursor)
          == Apply(old(editor.lines), EditFor(settings, old(editor.lines), old(editor.cursor), Render(settings.timestampFormat, hour, minute)))
    {
      if editor == null {
        return;
      }
      var hours := Pad2(hour);
      var minutes := Pad2(minute);
      var formattedTimestamp := ReplaceFirst(ReplaceFirst(settings.timestampFormat, "HH", hours), "MM", minutes);
      if settings.chainMode {
        InsertTimestampChain(editor, formattedTimestamp);
      } else if settings.insertAtEnd {
        InsertTimestampAtDocumentEnd(editor, formattedTimestamp);
      } else {
        InsertTimestampAtCursorPosition(editor, formattedTimestamp);
      }
    }

    /** The cursor move of `scrollToBottom(editor)`: to the end of the last line when the setting is on. */
    method ScrollToBottom(editor: Editor?)
      modifies editor
      requires editor != null ==> editor.Valid()
      ensures editor != null ==> editor.Valid() && editor.lines == old(editor.lines)
      ensures editor != null && settings.scrollToBottom ==> editor.cursor == DocEnd(editor.lines)
      ensures editor != null && !settings.scrollToBottom ==> editor.cursor == old(editor.cursor)
    {
      if editor == null || !settings.scrollToBottom {
        return;
      }
      var lastLine := editor.LineCount() - 1;
      var lastChar := |editor.GetLine(lastLine)|;
      editor.SetCursor(Pos(lastLine, lastChar));
    }

    /** The last steps of `handleTimestampInsertion`: insert, then scroll. */
    method InsertAndScroll(editor: Editor, hour: nat, minute: nat)
      modifies editor
      requires hour < 24 && minute < 60
      requires editor.Valid()
      ensures editor.Valid()
      ensures editor.lines
           == Apply(old(editor.lines), EditFor(settings, old(editor.lines), old(editor.cursor), Render(settings.timestampFormat, hour, minute))).lines
      ensures settings.scrollToBottom ==> editor.cursor == DocEnd(editor.lines)
      ensures !settings.scrollToBottom ==>
        editor.cursor == Apply(old(editor.lines), EditFor(settings, old(editor.lines), old(editor.cursor), Render(settings.timestampFormat, hour, minute))).cursor
    {
      InsertTimestamp(editor, hour, minute);
      ScrollToBottom(editor);
    }

    /** The auto-open toggle. */
    method SetAutoOpenDailyNote(value: bool)
      modifies this
      ensures settings == old(settings).(autoOpenDailyNote := value)
    {
      settings := settings.(autoOpenDailyNote := value);
    }

    /** The scroll-to-bottom toggle. */
    method SetScrollToBottom(value: bool)
      modifies this
      ensures settings == old(settings).(scrollToBottom := value)
    {
      settings := settings.(scrollToBottom := value);
    }

    /** The insert-at-end toggle: turning it on turns chain mode off. */
    method SetInsertAtEnd(value: bool)
      modifies this
      ensures settings.insertAtEnd == value
      ensures settings.chainMode == (old(settings).chainMode && !value)
      ensures settings == old(settings).(insertAtEnd := value, chainMode := settings.chainMode)
      ensures ModesExclusive(settings)
    {
      if value {
        settings := settings.(chainMode := false);
      }
      settings := settings.(insertAtEnd := value);
    }

    /** The chain-mode toggle: turning it on turns insert-at-end and scroll-to-bottom off. */
    method SetChainMode(value: bool)
      modifies this
      ensures settings.chainMode == value
      ensures settings.insertAtEnd == (old(settings).insertAtEnd && !value)
      ensures settings.scrollToBottom == (old(settings).scrollToBottom && !value)
      ensures settings == old(settings).(chainMode := value, insertAtEnd := settings.insertAtEnd, scrollToBottom := settings.scrollToBottom)
      ensures ModesExclusive(settings)
    {
      if value {
        settings := settings.(insertAtEnd := false, scrollToBottom := false);
      }
      settings := settings.(chainMode := value);
    }

    /** The format field: an empty value falls back to the default format. */
    method SetTimestampFormat(value: string)
      modifies this
      ensures settings == old(settings).(timestampFormat := if value == "" then DefaultFormat else value)
      ensures settings.timestampFormat != ""
    {
      settings := settings.(timestampFormat := if value == "" then DefaultFormat else value);
    }

    /** The separators field. */
    method SetSeparators(value: string)
      modifies this
      ensures settings == old(settings).(separators := value)
    {
      settings := settings.(separators := value);
    }
  }
}
