/**
  The separator setting: a comma-separated list of line prefixes that end the
  content block following a timestamp.
 */
module Separators {
  import opened Text

  /** `.map(s => s.trim())` */
  function TrimEach(xs: seq<string>): (r: seq<string>)
    ensures |r| == |xs| && forall i :: 0 <= i < |xs| ==> r[i] == Trim(xs[i])
  {
    seq(|xs|, i requires 0 <= i < |xs| => Trim(xs[i]))
  }

  /** `.filter(s => s.length > 0)` */
  function DropEmpty(xs: seq<string>): (r: seq<string>)
    ensures forall e :: e in r <==> e in xs && e != []
    decreases |xs|
  {
    if xs == [] then []
    else if xs[0] == [] then DropEmpty(xs[1..])
    else [xs[0]] + DropEmpty(xs[1..])
  }

  /** Filtering keeps order: it distributes over concatenation. */
  lemma {:induction false} DropEmptyConcat(xs: seq<string>, ys: seq<string>)
    ensures DropEmpty(xs + ys) == DropEmpty(xs) + DropEmpty(ys)
    decreases |xs|
  {
    if xs == [] {
      assert xs + ys == ys;
    } else {
      DropEmptyConcat(xs[1..], ys);
      assert (xs + ys)[0] == xs[0];
      assert (xs + ys)[1..] == xs[1..] + ys;
    }
  }

  /** `getSeparatorList`: nothing for a blank setting, otherwise the comma-separated pieces, trimmed, without the empty ones. */
  function ParseSeparators(raw: string): seq<string> {
    if raw == [] || IsBlank(raw) then []
    else DropEmpty(TrimEach(Split(raw, ',')))
  }

  lemma {:induction false} DropEmptyOfEmpties(xs: seq<string>)
    requires forall i :: 0 <= i < |xs| ==> xs[i] == []
    ensures DropEmpty(xs) == []
    decreases |xs|
  {
    if xs != [] {
      DropEmptyOfEmpties(xs[1..]);
    }
  }

  lemma AllSpaceWithin(piece: string, raw: string)
    requires AllSpace(raw)
    requires forall c :: c in piece ==> c in raw
    ensures AllSpace(piece)
  {
    forall j | 0 <= j < |piece| ensures IsSpace(piece[j]) {
      assert piece[j] in piece;
      var k :| 0 <= k < |raw| && raw[k] == piece[j];
    }
  }

  lemma PiecesOfBlankAreSpace(raw: string)
    requires AllSpace(raw)
    ensures forall i :: 0 <= i < |Split(raw, ',')| ==> AllSpace(Split(raw, ',')[i])
  {
    var pieces := Split(raw, ',');
    forall i | 0 <= i < |pieces| ensures AllSpace(pieces[i]) {
      var piece := pieces[i];
      assert forall c :: c in piece ==> c in raw;
      AllSpaceWithin(piece, raw);
    }
  }

  lemma SpacePiecesTrimAway(pieces: seq<string>)
    requires forall i :: 0 <= i < |pieces| ==> AllSpace(pieces[i])
    ensures DropEmpty(TrimEach(pieces)) == []
  {
    forall i | 0 <= i < |pieces| ensures Trim(pieces[i]) == [] {
      BlankIffAllSpace(pieces[i]);
    }
    DropEmptyOfEmpties(TrimEach(pieces));
  }

  /** Every piece of a blank setting trims to nothing, so the blank shortcut agrees with splitting, trimming and filtering. */
  lemma BlankShortcutAgrees(raw: string)
    requires IsBlank(raw)
    ensures DropEmpty(TrimEach(Split(raw, ','))) == []
  {
    BlankIffAllSpace(raw);
    PiecesOfBlankAreSpace(raw);
    SpacePiecesTrimAway(Split(raw, ','));
  }

  /** The blank shortcut changes nothing: parsing is always split, trim, filter. */
  lemma ParseIsFiltered(raw: string)
    ensures ParseSeparators(raw) == DropEmpty(TrimEach(Split(raw, ',')))
  {
    if raw == [] {
      assert IsBlank(raw);
    }
    if IsBlank(raw) {
      BlankShortcutAgrees(raw);
    }
  }

  lemma FilteredMembers(pieces: seq<string>)
    ensures forall e :: e in DropEmpty(TrimEach(pieces)) <==>
              e != [] && exists piece :: piece in pieces && e == Trim(piece)
  {
    var trimmed := TrimEach(pieces);
    forall e ensures e in trimmed <==> exists piece :: piece in pieces && e == Trim(piece) {
      if e in trimmed {
        var i :| 0 <= i < |trimmed| && trimmed[i] == e;
        assert pieces[i] in pieces;
      }
      if exists piece :: piece in pieces && e == Trim(piece) {
        var piece :| piece in pieces && e == Trim(piece);
        var i :| 0 <= i < |pieces| && pieces[i] == piece;
        assert trimmed[i] == e;
      }
    }
  }

  lemma FilteredShape(pieces: seq<string>)
    requires forall i :: 0 <= i < |pieces| ==> ',' !in pieces[i]
    ensures forall k :: 0 <= k < |DropEmpty(TrimEach(pieces))| ==>
              var e := DropEmpty(TrimEach(pieces))[k]; e != [] && Trim(e) == e && ',' !in e
  {
    var trimmed := TrimEach(pieces);
    var full := DropEmpty(trimmed);
    forall k | 0 <= k < |full| ensures full[k] != [] && Trim(full[k]) == full[k] && ',' !in full[k] {
      var e := full[k];
      assert e in full;
      var i :| 0 <= i < |trimmed| && trimmed[i] == e;
      TrimIdempotent(pieces[i]);
      TrimChars(pieces[i]);
    }
  }

  /** The parsed separators are exactly the non-empty trimmed comma-separated pieces; each is non-empty, has no surrounding white space and no comma. */
  lemma ParseSeparatorsSpec(raw: string)
    ensures IsBlank(raw) ==> ParseSeparators(raw) == []
    ensures forall k :: 0 <= k < |ParseSeparators(raw)| ==>
              var e := ParseSeparators(raw)[k]; e != [] && Trim(e) == e && ',' !in e
    ensures forall e :: e in ParseSeparators(raw) <==>
              e != [] && exists piece :: piece in Split(raw, ',') && e == Trim(piece)
  {
    ParseIsFiltered(raw);
    FilteredMembers(Split(raw, ','));
    FilteredShape(Split(raw, ','));
  }

  /** `separators.some(sep => s.startsWith(sep))` */
  function StartsWithAny(seps: seq<string>, s: string): (r: bool)
    ensures r <==> exists k :: 0 <= k < |seps| && IsPrefix(seps[k], s)
    decreases |seps|
  {
    if seps == [] then false
    else IsPrefix(seps[0], s) || StartsWithAny(seps[1..], s)
  }

  /** `isSeparatorLine`: the trimmed line starts with one of the configured separators. */
  function IsSeparatorLine(raw: string, line: string): (r: bool)
    ensures r <==> exists k :: 0 <= k < |ParseSeparators(raw)| && IsPrefix(ParseSeparators(raw)[k], Trim(line))
  {
    var seps := ParseSeparators(raw);
    if |seps| == 0 then false
    else StartsWithAny(seps, Trim(line))
  }

  /** With a blank setting no line is a separator, and a blank line is never a separator. */
  lemma NoSeparatorWhenBlank(raw: string, line: string)
    ensures IsBlank(raw) ==> !IsSeparatorLine(raw, line)
    ensures IsBlank(line) ==> !IsSeparatorLine(raw, line)
  {
    ParseSeparatorsSpec(raw);
  }

  lemma TrimmedAlready(s: string)
    requires s != [] && !IsSpace(s[0]) && !IsSpace(s[|s| - 1])
    ensures Trim(s) == s
  {
    assert TrimStart(s) == s;
  }

  lemma TrimPaddedExample()
    ensures Trim(" %% ") == "%%"
  {
    var p := " %% ";
    assert p[0] == ' ' && p[1..] == "%% ";
    assert TrimStart("%% ") == "%% ";
    assert TrimStart(p) == "%% ";
    var q := "%% ";
    assert q[..|q| - 1] == "%%";
    TrimmedAlready("%%");
    assert TrimEnd(q) == TrimEnd("%%");
  }

  lemma TrimIndentedExample()
    ensures Trim("  foo") == "foo"
  {
    var p := "  foo";
    assert p[0] == ' ' && p[1..] == " foo";
    assert p[1..][0] == ' ' && p[1..][1..] == "foo";
    TrimmedAlready("foo");
    assert TrimStart("foo") == "foo";
    assert TrimStart(p) == "foo";
  }

  lemma SplitExample()
    ensures Split("---, %% ,,  foo", ',') == ["---", " %% ", "", "  foo"]
  {
    var pieces := ["---", " %% ", "", "  foo"];
    assert Join(pieces, ',') == "---, %% ,,  foo" by {
      assert pieces[1..] == [" %% ", "", "  foo"];
      assert pieces[1..][1..] == ["", "  foo"];
      assert pieces[1..][1..][1..] == ["  foo"];
    }
    SplitJoin(pieces, ',');
  }

  lemma TrimPiecesExample()
    ensures TrimEach(["---", " %% ", "", "  foo"]) == ["---", "%%", "", "foo"]
  {
    var p0, p1, p2, p3 := "---", " %% ", "", "  foo";
    TrimmedAlready(p0);
    TrimPaddedExample();
    TrimIndentedExample();
    assert Trim(p2) == [];
  }

  lemma DropEmptyExample()
    ensures DropEmpty(["---", "%%", "", "foo"]) == ["---", "%%", "foo"]
  {
    var t := ["---", "%%", "", "foo"];
    assert t[1..] == ["%%", "", "foo"];
    assert t[1..][1..] == ["", "foo"];
    assert t[1..][1..][1..] == ["foo"];
  }

  /** A setting made only of commas is not blank, yet it yields no separators. */
  lemma CommasOnlyExample(raw: string)
    requires raw == ","
    ensures !IsBlank(raw) && ParseSeparators(raw) == []
  {
    assert !IsSpace(raw[0]);
    assert TrimStart(raw) == raw;
    assert Join(["", ""], ',') == raw;
    SplitJoin(["", ""], ',');
    assert Trim("") == "";
    assert TrimEach(["", ""]) == ["", ""];
    DropEmptyOfEmpties(["", ""]);
  }

  /** The setting `"---, %% ,,  foo"` yields `["---", "%%", "foo"]`, in that order. */
  lemma ParseExample()
    ensures ParseSeparators("---, %% ,,  foo") == ["---", "%%", "foo"]
  {
    var raw := "---, %% ,,  foo";
    ParseIsFiltered(raw);
    SplitExample();
    TrimPiecesExample();
    DropEmptyExample();
  }
}
