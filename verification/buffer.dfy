/**
  The editor the plugin edits: a document held as a sequence of lines (joined by
  `'\n'`) and a cursor. Only the part of the host editor's interface the plugin
  uses is modelled: `lineCount`, `getLine`, `getCursor`, `setCursor` and
  `replaceRange`.

  Positions outside the document are clipped the way CodeMirror clips them: a
  line past the last one means the end of the document, and a column past the
  end of its line means the end of that line.
 */
module Buffer {
  import opened Text

  const NL: char := '\n'

  /** `{ line, ch }` */
  datatype Pos = Pos(line: nat, ch: nat)

  predicate NoNewlines(lines: seq<string>) {
    forall i :: 0 <= i < |lines| ==> NL !in lines[i]
  }

  /** A document always has at least one line, and no line holds a line break. */
  predicate WellFormed(lines: seq<string>) {
    |lines| > 0 && NoNewlines(lines)
  }

  predicate ValidPos(lines: seq<string>, p: Pos) {
    p.line < |lines| && p.ch <= |lines[p.line]|
  }

  predicate PosLe(a: Pos, b: Pos) {
    a.line < b.line || (a.line == b.line && a.ch <= b.ch)
  }

  /** `getLine(i)`, with nothing for a line index outside the document. */
  function LineAt(lines: seq<string>, i: int): (s: string)
    ensures 0 <= i < |lines| ==> s == lines[i]
    ensures !(0 <= i < |lines|) ==> s == []
  {
    if 0 <= i < |lines| then lines[i] else []
  }

  /** The end of the last line. */
  function DocEnd(lines: seq<string>): (p: Pos)
    requires |lines| > 0
    ensures ValidPos(lines, p) && p.line == |lines| - 1
  {
    Pos(|lines| - 1, |lines[|lines| - 1]|)
  }

  /** The position the editor uses for `p`: valid positions are kept, others are pulled back into the document. */
  function Clip(lines: seq<string>, p: Pos): (q: Pos)
    requires |lines| > 0
    ensures ValidPos(lines, q)
    ensures ValidPos(lines, p) ==> q == p
    ensures p.line < |lines| ==> q.line == p.line && q.ch == if p.ch <= |lines[p.line]| then p.ch else |lines[p.line]|
    ensures p.line >= |lines| ==> q == DocEnd(lines)
  {
    if p.line >= |lines| then DocEnd(lines)
    else if p.ch <= |lines[p.line]| then p
    else Pos(p.line, |lines[p.line]|)
  }

  /** The lines after `text` replaces the range from `from` to `to` (both clipped): the text before `from`, then `text`, then the text after `to`, split again into lines. */
  function Replaced(lines: seq<string>, text: string, from: Pos, to: Pos): (r: seq<string>)
    requires WellFormed(lines)
    requires PosLe(Clip(lines, from), Clip(lines, to))
    ensures WellFormed(r)
  {
    var f := Clip(lines, from);
    var t := Clip(lines, to);
    var mid := Split(lines[f.line][..f.ch] + text + lines[t.line][t.ch..], NL);
    var r := lines[..f.line] + mid + lines[t.line + 1..];
    assert forall i :: 0 <= i < |r| ==> NL !in r[i] by {
      forall i | 0 <= i < |r| ensures NL !in r[i] {
        if i < f.line {
          assert r[i] == lines[i];
        } else if i < f.line + |mid| {
          assert r[i] == mid[i - f.line];
        } else {
          assert r[i] == lines[i - f.line - |mid| + t.line + 1];
        }
      }
    }
    r
  }

  /** What `Join(lines)` puts before the lines following `lines`: nothing, or the joined lines and a line break. */
  function Lead(lines: seq<string>): string {
    if lines == [] then [] else Join(lines, NL) + [NL]
  }

  /** What `Join(lines)` puts after the lines preceding `lines`: nothing, or a line break and the joined lines. */
  function Trail(lines: seq<string>): string {
    if lines == [] then [] else [NL] + Join(lines, NL)
  }

  /** The document text before position `p`. */
  function TextBefore(lines: seq<string>, p: Pos): string
    requires ValidPos(lines, p)
  {
    Join(lines[..p.line] + [lines[p.line][..p.ch]], NL)
  }

  /** The document text from position `p` on. */
  function TextAfter(lines: seq<string>, p: Pos): string
    requires ValidPos(lines, p)
  {
    Join([lines[p.line][p.ch..]] + lines[p.line + 1..], NL)
  }

  lemma {:induction false} JoinAppend(a: seq<string>, b: seq<string>, sep: char)
    requires |a| > 0 && |b| > 0
    ensures Join(a + b, sep) == Join(a, sep) + [sep] + Join(b, sep)
    decreases |a|
  {
    assert (a + b)[0] == a[0];
    assert (a + b)[1..] == a[1..] + b;
    if |a| > 1 {
      JoinAppend(a[1..], b, sep);
    }
  }

  /** Joining a middle block between two blocks. */
  lemma JoinAround(a: seq<string>, m: seq<string>, b: seq<string>)
    requires |m| > 0
    ensures Join(a + m + b, NL) == Lead(a) + Join(m, NL) + Trail(b)
  {
    if b != [] {
      JoinAppend(a + m, b, NL);
    } else {
      assert a + m + b == a + m;
    }
    if a != [] {
      JoinAppend(a, m, NL);
    } else {
      assert a + m == m;
    }
  }

  /** The text before a position in a line block: the lines before it, then the start of its line. */
  lemma BeforeShape(a: seq<string>, pre: string)
    ensures Join(a + [pre], NL) == Lead(a) + pre
  {
    JoinAround(a, [pre], []);
    assert a + [pre] + [] == a + [pre];
  }

  /** The text after a position in a line block: the rest of its line, then the lines after it. */
  lemma AfterShape(post: string, b: seq<string>)
    ensures Join([post] + b, NL) == post + Trail(b)
  {
    JoinAround([], [post], b);
    assert [] + [post] + b == [post] + b;
    assert Lead([]) == [];
  }

  lemma Regroup(w: string, x: string, y: string, z: string)
    ensures (w + x) + (y + z) == w + (x + y) + z
  {
  }

  lemma Regroup3(v: string, w: string, x: string, y: string, z: string)
    ensures (v + w) + x + (y + z) == v + (w + x + y) + z
  {
  }

  /** Any valid position cuts the document text in two. */
  lemma TextAround(lines: seq<string>, p: Pos)
    requires ValidPos(lines, p)
    ensures TextBefore(lines, p) + TextAfter(lines, p) == Join(lines, NL)
  {
    var a, b := lines[..p.line], lines[p.line + 1..];
    var line := lines[p.line];
    var pre, post := line[..p.ch], line[p.ch..];
    assert TextBefore(lines, p) == Lead(a) + pre by {
      BeforeShape(a, pre);
    }
    assert TextAfter(lines, p) == post + Trail(b) by {
      AfterShape(post, b);
    }
    assert Join(lines, NL) == Lead(a) + line + Trail(b) by {
      assert lines == a + [line] + b;
      JoinAround(a, [line], b);
    }
    assert line == pre + post;
    Regroup(Lead(a), pre, post, Trail(b));
  }

  /**
    `replaceRange(text, from, to)`: the new document text is the old text before
    `from`, then `text`, then the old text from `to` on.
   */
  lemma ReplacedSplices(lines: seq<string>, text: string, from: Pos, to: Pos)
    requires WellFormed(lines)
    requires PosLe(Clip(lines, from), Clip(lines, to))
    ensures Join(Replaced(lines, text, from, to), NL)
         == TextBefore(lines, Clip(lines, from)) + text + TextAfter(lines, Clip(lines, to))
  {
    var f := Clip(lines, from);
    var t := Clip(lines, to);
    var a, b := lines[..f.line], lines[t.line + 1..];
    var pre, post := lines[f.line][..f.ch], lines[t.line][t.ch..];
    var joined := pre + text + post;
    var mid := Split(joined, NL);
    assert Join(Replaced(lines, text, from, to), NL) == Lead(a) + joined + Trail(b) by {
      assert Replaced(lines, text, from, to) == a + mid + b;
      JoinSplit(joined, NL);
      JoinAround(a, mid, b);
    }
    assert TextBefore(lines, f) == Lead(a) + pre by {
      BeforeShape(a, pre);
    }
    assert TextAfter(lines, t) == post + Trail(b) by {
      AfterShape(post, b);
    }
    Regroup3(Lead(a), pre, text, post, Trail(b));
  }

  /** A text without line breaks is one line. */
  lemma SplitOne(a: string)
    requires NL !in a
    ensures Split(a, NL) == [a]
  {
    SplitAppend(a, [], NL);
    assert a + [] == a;
  }

  lemma SplitTwo(a: string, b: string)
    requires NL !in a && NL !in b
    ensures Split(a + [NL] + b, NL) == [a, b]
  {
    SplitAfterSep(a, b, NL);
    SplitOne(b);
  }

  lemma SplitThree(a: string, b: string, c: string)
    requires NL !in a && NL !in b && NL !in c
    ensures Split(a + [NL] + b + [NL] + c, NL) == [a, b, c]
  {
    assert a + [NL] + b + [NL] + c == a + [NL] + (b + [NL] + c);
    SplitAfterSep(a, b + [NL] + c, NL);
    SplitTwo(b, c);
  }

  lemma SplitFour(a: string, b: string, c: string, d: string)
    requires NL !in a && NL !in b && NL !in c && NL !in d
    ensures Split(a + [NL] + b + [NL] + c + [NL] + d, NL) == [a, b, c, d]
  {
    assert a + [NL] + b + [NL] + c + [NL] + d == a + [NL] + (b + [NL] + c + [NL] + d);
    SplitAfterSep(a, b + [NL] + c + [NL] + d, NL);
    SplitThree(b, c, d);
  }

  /** The host editor: the document's lines and the cursor. */
  class Editor {
    var lines: seq<string>
    var cursor: Pos

    ghost predicate Valid()
      reads this
    {
      WellFormed(lines) && ValidPos(lines, cursor)
    }

    /** An editor opened on `text`, cursor at the start. */
    constructor (text: string)
      ensures Valid()
      ensures lines == Split(text, NL) && cursor == Pos(0, 0)
    {
      lines := Split(text, NL);
      cursor := Pos(0, 0);
    }

    /** `lineCount()` */
    function LineCount(): (n: nat)
      reads this
      requires Valid()
      ensures n == |lines| && n > 0
    {
      |lines|
    }

    /** `getLine(i)` */
    function GetLine(i: int): (s: string)
      reads this
      ensures 0 <= i < |lines| ==> s == lines[i]
      ensures !(0 <= i < |lines|) ==> s == []
    {
      LineAt(lines, i)
    }

    /** `getCursor()` */
    function GetCursor(): (p: Pos)
      reads this
      requires Valid()
      ensures ValidPos(lines, p)
    {
      cursor
    }

    /** `replaceRange(text, from, to)`; the cursor is clipped to the new document. */
    method ReplaceRange(text: string, from: Pos, to: Pos)
      modifies this
      requires Valid()
      requires PosLe(Clip(lines, from), Clip(lines, to))
      ensures Valid()
      ensures lines == Replaced(old(lines), text, from, to)
      ensures cursor == Clip(lines, old(cursor))
    {
      lines := Replaced(lines, text, from, to);
      cursor := Clip(lines, cursor);
    }

    /** `setCursor(p)` */
    method SetCursor(p: Pos)
      modifies this
      requires Valid()
      ensures Valid()
      ensures lines == old(lines) && cursor == Clip(lines, p)
    {
      cursor := Clip(lines, p);
    }
  }
}
