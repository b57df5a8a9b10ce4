/**
  Rendering a timestamp template and recognising rendered timestamps.

  The template is plain text in which the first `HH` stands for the hour and the
  first `MM` for the minute. The recogniser is the regular expression the plugin
  builds from the same template: every metacharacter escaped, the first `HH` and
  the first `MM` turned into `\d{2}`, anchored at the start. With every other
  character escaped that expression is a sequence of tokens, each a literal
  character or a pair of ASCII digits, and testing it against a trimmed line asks
  whether the token sequence matches a prefix of the line.
 */
module Timestamp {
  import opened Text

  datatype Token = Lit(c: char) | TwoDigits

  function DigitChar(d: nat): char
    requires d < 10
  {
    ('0' as int + d) as char
  }

  function DigitValue(c: char): int {
    c as int - '0' as int
  }

  /** `String(n).padStart(2, '0')`: two ASCII digits that read back as `n`. */
  function Pad2(n: nat): (r: string)
    requires n < 100
    ensures |r| == 2 && IsDigit(r[0]) && IsDigit(r[1])
    ensures DigitValue(r[0]) * 10 + DigitValue(r[1]) == n
  {
    if n < 10 then ['0', DigitChar(n)] else [DigitChar(n / 10), DigitChar(n % 10)]
  }

  /** The template with its first `HH` replaced by the hour, then the first `MM` of that result by the minute. */
  function Render(format: string, hour: nat, minute: nat): string
    requires hour < 24 && minute < 60
  {
    ReplaceFirst(ReplaceFirst(format, "HH", Pad2(hour)), "MM", Pad2(minute))
  }

  /** Escaping every metacharacter leaves each template character a literal of the pattern. */
  function Escape(format: string): (p: seq<Token>)
    ensures |p| == |format|
    ensures forall i :: 0 <= i < |p| ==> p[i] == Lit(format[i])
  {
    seq(|format|, i requires 0 <= i < |format| => Lit(format[i]))
  }

  /** The pattern built from the template: escaped, then the first `HH` and the first `MM` replaced by two-digit tokens. */
  function TimestampPattern(format: string): seq<Token> {
    ReplaceFirst(ReplaceFirst(Escape(format), [Lit('H'), Lit('H')], [TwoDigits]), [Lit('M'), Lit('M')], [TwoDigits])
  }

  /** The pattern, anchored at `^`, matches a prefix of `s`. */
  function MatchesPrefix(p: seq<Token>, s: string): bool
    decreases |p|
  {
    if p == [] then true
    else match p[0]
      case Lit(c) => s != [] && s[0] == c && MatchesPrefix(p[1..], s[1..])
      case TwoDigits => |s| >= 2 && IsDigit(s[0]) && IsDigit(s[1]) && MatchesPrefix(p[1..], s[2..])
  }

  /** The pattern matches the whole of `s`. */
  function Accepts(p: seq<Token>, s: string): bool
    decreases |p|
  {
    if p == [] then s == []
    else match p[0]
      case Lit(c) => s != [] && s[0] == c && Accepts(p[1..], s[1..])
      case TwoDigits => |s| >= 2 && IsDigit(s[0]) && IsDigit(s[1]) && Accepts(p[1..], s[2..])
  }

  /** `regex.test(line.trim())` */
  predicate IsTimestampLine(pattern: seq<Token>, line: string) {
    MatchesPrefix(pattern, Trim(line))
  }

  /** Two ASCII digits: what `\d{2}` matches. */
  predicate DigitPair(d: string) {
    |d| == 2 && IsDigit(d[0]) && IsDigit(d[1])
  }

  /** The escaped template matches the template itself. */
  lemma {:induction false} AcceptsEscape(t: string)
    ensures Accepts(Escape(t), t)
    decreases |t|
  {
    if t != [] {
      AcceptsEscape(t[1..]);
      assert Escape(t)[1..] == Escape(t[1..]);
    }
  }

  /** What a pattern matches in full, it matches as a prefix of anything that extends it. */
  lemma {:induction false} AcceptsExtends(p: seq<Token>, s: string, x: string)
    requires Accepts(p, s)
    ensures MatchesPrefix(p, s + x)
    decreases |p|
  {
    if p != [] {
      match p[0]
      case Lit(c) =>
        AcceptsExtends(p[1..], s[1..], x);
        assert (s + x)[1..] == s[1..] + x;
      case TwoDigits =>
        AcceptsExtends(p[1..], s[2..], x);
        assert (s + x)[2..] == s[2..] + x;
    }
  }

  /** Replacing the first `aa` by a two-digit token in the pattern and by two digits in a matched text keeps them matched, when `a` is not a digit. */
  lemma {:induction false} AcceptsReplace(p: seq<Token>, s: string, a: char, dd: string)
    requires Accepts(p, s)
    requires !IsDigit(a)
    requires |dd| == 2 && IsDigit(dd[0]) && IsDigit(dd[1])
    ensures Accepts(ReplaceFirst(p, [Lit(a), Lit(a)], [TwoDigits]), ReplaceFirst(s, [a, a], dd))
    decreases |p|
  {
    var pp, ss := [Lit(a), Lit(a)], [a, a];
    if p == [] {
    } else if p[0].TwoDigits? {
      assert !IsPrefix(pp, p);
      assert !IsPrefix(ss, s);
      assert !IsPrefix(ss, s[1..]);
      assert ReplaceFirst(s[1..], ss, dd) == [s[1]] + ReplaceFirst(s[2..], ss, dd) by {
        assert s[1..][1..] == s[2..];
      }
      assert ReplaceFirst(s, ss, dd) == s[..2] + ReplaceFirst(s[2..], ss, dd);
      assert ReplaceFirst(p, pp, [TwoDigits]) == [TwoDigits] + ReplaceFirst(p[1..], pp, [TwoDigits]);
      AcceptsReplace(p[1..], s[2..], a, dd);
      assert (s[..2] + ReplaceFirst(s[2..], ss, dd))[2..] == ReplaceFirst(s[2..], ss, dd);
    } else if IsPrefix(pp, p) {
      // The pattern starts with `aa`, so the text does too.
      assert p[1..][0] == Lit(a);
      assert s[1..][0] == a;
      assert s[1..][1..] == s[2..];
      assert p[1..][1..] == p[2..];
      assert Accepts(p[2..], s[2..]);
      assert IsPrefix(ss, s);
      var rs := dd + s[2..];
      assert rs[2..] == s[2..];
      assert Accepts([TwoDigits] + p[2..], rs) by {
        assert ([TwoDigits] + p[2..])[1..] == p[2..];
      }
    } else {
      // The text cannot start with `aa` either: its second character is matched by a literal, not by digits.
      AcceptsPairAt(p, s, a);
      assert ReplaceFirst(s, ss, dd) == [s[0]] + ReplaceFirst(s[1..], ss, dd);
      assert ReplaceFirst(p, pp, [TwoDigits]) == [p[0]] + ReplaceFirst(p[1..], pp, [TwoDigits]);
      AcceptsReplace(p[1..], s[1..], a, dd);
      assert ([p[0]] + ReplaceFirst(p[1..], pp, [TwoDigits]))[1..] == ReplaceFirst(p[1..], pp, [TwoDigits]);
      assert ([s[0]] + ReplaceFirst(s[1..], ss, dd))[1..] == ReplaceFirst(s[1..], ss, dd);
    }
  }

  /** A text matched by a pattern starts with a non-digit pair `aa` only if the pattern starts with the literals `aa`. */
  lemma AcceptsPairAt(p: seq<Token>, s: string, a: char)
    requires Accepts(p, s)
    requires !IsDigit(a)
    ensures IsPrefix([a, a], s) ==> IsPrefix([Lit(a), Lit(a)], p)
  {
    if |s| >= 2 && s[0] == a && s[1] == a {
      assert p[0] == Lit(a);
      assert Accepts(p[1..], s[1..]);
      assert p[1..][0] == Lit(a);
    }
  }

  /** The pattern built from a template matches, in full, every rendering of that template. */
  lemma RenderAccepted(format: string, hour: nat, minute: nat)
    requires hour < 24 && minute < 60
    ensures Accepts(TimestampPattern(format), Render(format, hour, minute))
  {
    AcceptsEscape(format);
    AcceptsReplace(Escape(format), format, 'H', Pad2(hour));
    AcceptsReplace(ReplaceFirst(Escape(format), [Lit('H'), Lit('H')], [TwoDigits]),
                   ReplaceFirst(format, "HH", Pad2(hour)), 'M', Pad2(minute));
  }

  /** Rendering only puts digits where `HH` and `MM` stood, so a template without surrounding white space renders without it. */
  lemma RenderKeepsTrimmed(format: string, hour: nat, minute: nat)
    requires hour < 24 && minute < 60
    requires Trim(format) == format
    ensures Trim(Render(format, hour, minute)) == Render(format, hour, minute)
  {
    var hh, mm := Pad2(hour), Pad2(minute);
    var s1 := ReplaceFirst(format, "HH", hh);
    var r := Render(format, hour, minute);
    ReplaceFirstSameLength(format, "HH", hh);
    ReplaceFirstSameLength(s1, "MM", mm);
    TrimEnds(format);
    if r != [] {
      assert !IsSpace(r[0]) by {
        assert r[0] == s1[0] || r[0] in mm;
        assert s1[0] == format[0] || s1[0] in hh;
      }
      var k := |r| - 1;
      assert !IsSpace(r[k]) by {
        assert r[k] == s1[k] || r[k] in mm;
        assert s1[k] == format[k] || s1[k] in hh;
      }
      assert TrimStart(r) == r;
      assert TrimEnd(r) == r;
    }
  }

  /** A trimmed text matched in full by a pattern is still matched, as a prefix, after anything is appended and the whole is trimmed. */
  lemma AcceptedSurvivesTrim(p: seq<Token>, r: string, extra: string)
    requires Accepts(p, r)
    requires Trim(r) == r
    ensures MatchesPrefix(p, Trim(r + extra))
  {
    TrimKeepsPrefix(r, extra);
    var t := Trim(r + extra);
    assert t == r + t[|r|..] by {
      assert t[..|r|] == r;
      assert t == t[..|r|] + t[|r|..];
    }
    AcceptsExtends(p, r, t[|r|..]);
  }

  /** Round trip: with a template that has no leading or trailing white space, a line holding a rendered timestamp, followed by anything, is recognised as a timestamp line. */
  lemma RenderedLineIsTimestamp(format: string, hour: nat, minute: nat, extra: string)
    requires hour < 24 && minute < 60
    requires Trim(format) == format
    ensures IsTimestampLine(TimestampPattern(format), Render(format, hour, minute) + extra)
  {
    RenderKeepsTrimmed(format, hour, minute);
    RenderAccepted(format, hour, minute);
    AcceptedSurvivesTrim(TimestampPattern(format), Render(format, hour, minute), extra);
  }

  /** An escaped literal matches exactly the texts that start with that literal. */
  lemma {:induction false} EscapeMatchesPrefix(f: string, s: string)
    ensures MatchesPrefix(Escape(f), s) <==> IsPrefix(f, s)
    decreases |f|
  {
    if f != [] && s != [] {
      EscapeMatchesPrefix(f[1..], s[1..]);
      assert Escape(f)[1..] == Escape(f[1..]);
      if |f| <= |s| {
        assert s[..|f|] == [s[0]] + s[1..][..|f| - 1];
      }
      assert f == [f[0]] + f[1..];
    }
  }

  /** An occurrence of a doubled character in the escaped template is an occurrence in the template. */
  lemma EscapeOccurs(format: string, c: char, i: int)
    ensures OccursAt(Escape(format), [Lit(c), Lit(c)], i) ==> OccursAt(format, [c, c], i)
  {
    if OccursAt(Escape(format), [Lit(c), Lit(c)], i) {
      assert Escape(format)[i] == Lit(c) && Escape(format)[i + 1] == Lit(c);
      assert format[i..i + 2] == [c, c];
    }
  }

  /** A template with neither `HH` nor `MM` renders as itself, whatever the time, and recognises exactly the lines whose trimmed text starts with it. */
  lemma LiteralTemplate(format: string, hour: nat, minute: nat, line: string)
    requires hour < 24 && minute < 60
    requires forall i :: !OccursAt(format, "HH", i)
    requires forall i :: !OccursAt(format, "MM", i)
    ensures Render(format, hour, minute) == format
    ensures IsTimestampLine(TimestampPattern(format), line) <==> IsPrefix(format, Trim(line))
  {
    ReplaceFirstAbsent(format, "HH", Pad2(hour));
    ReplaceFirstAbsent(format, "MM", Pad2(minute));
    var e := Escape(format);
    forall i ensures !OccursAt(e, [Lit('H'), Lit('H')], i) && !OccursAt(e, [Lit('M'), Lit('M')], i) {
      EscapeOccurs(format, 'H', i);
      EscapeOccurs(format, 'M', i);
    }
    ReplaceFirstAbsent(e, [Lit('H'), Lit('H')], [TwoDigits]);
    ReplaceFirstAbsent(e, [Lit('M'), Lit('M')], [TwoDigits]);
    EscapeMatchesPrefix(format, Trim(line));
  }

  lemma NoPairBefore<T>(s: seq<T>, c: T, k: nat)
    requires k <= |s|
    requires forall j :: 0 <= j < k ==> s[j] != c
    ensures forall j :: 0 <= j < k ==> !OccursAt(s, [c, c], j)
  {
    forall j | 0 <= j < k ensures !OccursAt(s, [c, c], j) {
      if j + 2 <= |s| {
        assert s[j..j + 2][0] == s[j];
      }
    }
  }

  /** The default template at 09:05. */
  lemma DefaultTemplateExample()
    ensures Render("# HH:MM", 9, 5) == "# 09:05"
  {
    var h := ReplaceFirst("# HH:MM", "HH", "09");
    assert h == "# 09:MM" by {
      assert !OccursAt("# HH:MM", "HH", 0) && !OccursAt("# HH:MM", "HH", 1);
      ReplaceFirstLeftmost("# HH:MM", "HH", "09", 2);
    }
    assert forall j :: 0 <= j < 5 ==> h[j] != 'M';
    NoPairBefore(h, 'M', 5);
    ReplaceFirstLeftmost(h, "MM", "05", 5);
  }

  /** Only the first `HH` and the first `MM` are substituted. */
  lemma RepeatedTokenExample(t: string)
    requires t == "HH:MM HH:MM"
    ensures Render(t, 14, 30) == "14:30 HH:MM"
  {
    assert Pad2(14) == "14" && Pad2(30) == "30";
    assert IsPrefix("HH", t);
    var h := ReplaceFirst(t, "HH", "14");
    assert h == "14" + t[2..];
    assert h == "14:MM HH:MM";
    assert forall j :: 0 <= j < 3 ==> h[j] != 'M';
    NoPairBefore(h, 'M', 3);
    assert OccursAt(h, "MM", 3);
    ReplaceFirstLeftmost(h, "MM", "30", 3);
    assert h[..3] + "30" + h[5..] == "14:30 HH:MM";
  }

  /** Rendering keeps the template's length and changes a character only to a digit, and only where the template has `H` or `M`. */
  lemma RenderChars(format: string, hour: nat, minute: nat)
    requires hour < 24 && minute < 60
    ensures |Render(format, hour, minute)| == |format|
    ensures forall i :: 0 <= i < |format| ==>
              Render(format, hour, minute)[i] == format[i]
              || (IsDigit(Render(format, hour, minute)[i]) && (format[i] == 'H' || format[i] == 'M'))
  {
    var h := ReplaceFirst(format, "HH", Pad2(hour));
    ReplaceFirstSameLength(format, "HH", Pad2(hour));
    ReplaceFirstSameLength(h, "MM", Pad2(minute));
    var r := Render(format, hour, minute);
    forall i | 0 <= i < |format| ensures r[i] == format[i] || (IsDigit(r[i]) && (format[i] == 'H' || format[i] == 'M')) {
      if r[i] != h[i] {
        assert r[i] in Pad2(minute) && h[i] in "MM";
        assert h[i] == 'M';
        assert h[i] == format[i] || (h[i] in Pad2(hour) && format[i] in "HH");
      } else if h[i] != format[i] {
        assert h[i] in Pad2(hour) && format[i] in "HH";
      }
    }
  }

  /** A character of the rendered timestamp that is not a digit comes from the template. */
  lemma RenderAddsOnlyDigits(format: string, hour: nat, minute: nat, c: char)
    requires hour < 24 && minute < 60
    requires !IsDigit(c) && c !in format
    ensures c !in Render(format, hour, minute)
  {
    RenderChars(format, hour, minute);
  }

  /** A non-empty template gives a non-empty pattern, which the empty line never matches. */
  lemma PatternNonEmpty(format: string)
    requires format != []
    ensures TimestampPattern(format) != []
    ensures !IsTimestampLine(TimestampPattern(format), "")
  {
    var e := Escape(format);
    ReplaceFirstNonEmpty(e, [Lit('H'), Lit('H')], [TwoDigits]);
    ReplaceFirstNonEmpty(ReplaceFirst(e, [Lit('H'), Lit('H')], [TwoDigits]), [Lit('M'), Lit('M')], [TwoDigits]);
    assert Trim("") == "";
  }

  /** A template that does not start with `H` or `M` keeps its first character as the pattern's first literal, so every recognised line's trimmed text starts with that character. */
  lemma RecognisedLinesStartLikeTemplate(format: string, line: string)
    requires format != [] && format[0] != 'H' && format[0] != 'M'
    ensures IsTimestampLine(TimestampPattern(format), line) ==> Trim(line) != [] && Trim(line)[0] == format[0]
  {
    var e := Escape(format);
    ReplaceFirstKeepsHead(e, [Lit('H'), Lit('H')], [TwoDigits]);
    var h := ReplaceFirst(e, [Lit('H'), Lit('H')], [TwoDigits]);
    ReplaceFirstKeepsHead(h, [Lit('M'), Lit('M')], [TwoDigits]);
    assert TimestampPattern(format)[0] == Lit(format[0]);
  }

  /** The escaped template matches, in full, only the template itself. */
  lemma {:induction false} EscapeAcceptsOnly(f: string, t: string)
    requires Accepts(Escape(f), t)
    ensures t == f
    decreases |f|
  {
    if f != [] {
      assert Escape(f)[1..] == Escape(f[1..]);
      EscapeAcceptsOnly(f[1..], t[1..]);
      assert t == [t[0]] + t[1..];
      assert f == [f[0]] + f[1..];
    }
  }

  /** A pattern that matches a prefix of `s` matches, in full, the prefix of `s` it covers. */
  lemma {:induction false} MatchedPrefix(p: seq<Token>, s: string) returns (n: nat)
    requires MatchesPrefix(p, s)
    ensures n <= |s| && Accepts(p, s[..n])
    decreases |p|
  {
    if p == [] {
      n := 0;
    } else {
      match p[0]
      case Lit(c) =>
        var k := MatchedPrefix(p[1..], s[1..]);
        n := k + 1;
        assert s[..n][1..] == s[1..][..k];
      case TwoDigits =>
        var k := MatchedPrefix(p[1..], s[2..]);
        n := k + 2;
        assert s[..n][2..] == s[2..][..k];
    }
  }

  /**
    The converse of AcceptsReplace: a text matched in full by the pattern with its first `aa`
    turned into a digit-pair token is some text matched by the original pattern, with its
    first `aa` replaced by a pair of digits.
   */
  lemma {:induction false} AcceptsReplaceBack(p: seq<Token>, t: string, a: char) returns (s: string, dd: string)
    requires !IsDigit(a)
    requires Accepts(ReplaceFirst(p, [Lit(a), Lit(a)], [TwoDigits]), t)
    ensures DigitPair(dd) && Accepts(p, s) && t == ReplaceFirst(s, [a, a], dd)
    decreases |p|
  {
    var pp := [Lit(a), Lit(a)];
    if IsPrefix(pp, p) {
      s, dd := BackAtPair(p, t, a);
    } else if p == [] {
      s, dd := [], ['0', '0'];
    } else {
      var r := ReplaceFirst(p[1..], pp, [TwoDigits]);
      assert ReplaceFirst(p, pp, [TwoDigits]) == [p[0]] + r;
      assert ([p[0]] + r)[1..] == r;
      match p[0]
      case Lit(c) =>
        var s1, d := AcceptsReplaceBack(p[1..], t[1..], a);
        s, dd := [c] + s1, d;
        BackPastLit(p, t, a, c, s1, dd);
      case TwoDigits =>
        var s1, d := AcceptsReplaceBack(p[1..], t[2..], a);
        s, dd := t[..2] + s1, d;
        BackPastDigits(p, t, a, s1, dd);
    }
  }

  /** AcceptsReplaceBack where the pattern starts with `aa`: the text starts with the digits that replaced it. */
  lemma BackAtPair(p: seq<Token>, t: string, a: char) returns (s: string, dd: string)
    requires !IsDigit(a)
    requires IsPrefix([Lit(a), Lit(a)], p)
    requires Accepts(ReplaceFirst(p, [Lit(a), Lit(a)], [TwoDigits]), t)
    ensures DigitPair(dd) && Accepts(p, s) && t == ReplaceFirst(s, [a, a], dd)
  {
    var ss := [a, a];
    var q := [TwoDigits] + p[2..];
    assert ReplaceFirst(p, [Lit(a), Lit(a)], [TwoDigits]) == q;
    assert q[1..] == p[2..];
    dd := t[..2];
    s := ss + t[2..];
    assert p[1..][1..] == p[2..];
    assert s[1..][1..] == t[2..];
    assert Accepts(p[1..], s[1..]);
    assert IsPrefix(ss, s);
    assert t == dd + s[2..];
  }

  /** AcceptsReplaceBack past a leading literal `c` that does not start the first `aa`. */
  lemma BackPastLit(p: seq<Token>, t: string, a: char, c: char, s1: string, dd: string)
    requires !IsDigit(a)
    requires p != [] && p[0] == Lit(c) && !IsPrefix([Lit(a), Lit(a)], p)
    requires t != [] && t[0] == c
    requires Accepts(p[1..], s1) && t[1..] == ReplaceFirst(s1, [a, a], dd)
    ensures Accepts(p, [c] + s1) && t == ReplaceFirst([c] + s1, [a, a], dd)
  {
    var s := [c] + s1;
    assert s[1..] == s1;
    if c == a && s1 != [] {
      var q := p[1..];
      assert q != [];
      assert p[..2] == [p[0], p[1]];
      assert q[0] == p[1] && p[1] != Lit(a);
      assert s1[0] != a by {
        match q[0]
        case Lit(c2) =>
        case TwoDigits =>
      }
    }
    assert !IsPrefix([a, a], s) by {
      if |s| >= 2 {
        assert s[..2][0] == s[0] == c && s[..2][1] == s[1] == s1[0];
      }
    }
    assert t == [t[0]] + t[1..];
  }

  /** AcceptsReplaceBack past a leading digit-pair token, which the text matches with two digits. */
  lemma BackPastDigits(p: seq<Token>, t: string, a: char, s1: string, dd: string)
    requires !IsDigit(a)
    requires p != [] && p[0] == TwoDigits
    requires |t| >= 2 && IsDigit(t[0]) && IsDigit(t[1])
    requires Accepts(p[1..], s1) && t[2..] == ReplaceFirst(s1, [a, a], dd)
    ensures Accepts(p, t[..2] + s1) && t == ReplaceFirst(t[..2] + s1, [a, a], dd)
  {
    var ss := [a, a];
    var s := t[..2] + s1;
    assert s[2..] == s1;
    assert s[1..] == [t[1]] + s1;
    assert !IsPrefix(ss, s[1..]);
    assert ReplaceFirst(s[1..], ss, dd) == [t[1]] + ReplaceFirst(s1, ss, dd);
    assert ReplaceFirst(s, ss, dd) == [t[0]] + ReplaceFirst(s[1..], ss, dd);
    assert t == [t[0]] + [t[1]] + t[2..];
  }

  /**
    The lines the recogniser accepts: the pattern built from a template matches a prefix of `s`
    exactly when `s` starts with the template with its first `HH` replaced by some pair of
    digits and then its first `MM` by some pair of digits. The digits need not form a valid
    time: `\d{2}` accepts `99`.
   */
  lemma TimestampPatternMatches(f: string, s: string)
    ensures MatchesPrefix(TimestampPattern(f), s) <==>
      exists d1, d2 :: DigitPair(d1) && DigitPair(d2)
        && IsPrefix(ReplaceFirst(ReplaceFirst(f, "HH", d1), "MM", d2), s)
  {
    var e := Escape(f);
    var eh := ReplaceFirst(e, [Lit('H'), Lit('H')], [TwoDigits]);
    if MatchesPrefix(TimestampPattern(f), s) {
      var n := MatchedPrefix(TimestampPattern(f), s);
      var s1, d2 := AcceptsReplaceBack(eh, s[..n], 'M');
      var s0, d1 := AcceptsReplaceBack(e, s1, 'H');
      EscapeAcceptsOnly(f, s0);
      assert IsPrefix(ReplaceFirst(ReplaceFirst(f, "HH", d1), "MM", d2), s);
    }
    forall d1, d2 | DigitPair(d1) && DigitPair(d2)
        && IsPrefix(ReplaceFirst(ReplaceFirst(f, "HH", d1), "MM", d2), s)
      ensures MatchesPrefix(TimestampPattern(f), s)
    {
      var r := ReplaceFirst(ReplaceFirst(f, "HH", d1), "MM", d2);
      AcceptsEscape(f);
      AcceptsReplace(e, f, 'H', d1);
      AcceptsReplace(eh, ReplaceFirst(f, "HH", d1), 'M', d2);
      assert s == r + s[|r|..];
      AcceptsExtends(TimestampPattern(f), r, s[|r|..]);
    }
  }

  /** The default template builds the expression `^# \d{2}:\d{2}`. */
  lemma DefaultPatternExample(f: string)
    requires f == "# HH:MM"
    ensures TimestampPattern(f) == [Lit('#'), Lit(' '), TwoDigits, Lit(':'), TwoDigits]
  {
    var e := Escape(f);
    assert e == [Lit('#'), Lit(' '), Lit('H'), Lit('H'), Lit(':'), Lit('M'), Lit('M')];
    var h := [Lit('#'), Lit(' '), TwoDigits, Lit(':'), Lit('M'), Lit('M')];
    assert ReplaceFirst(e, [Lit('H'), Lit('H')], [TwoDigits]) == h by {
      assert e[0] != Lit('H') && e[1] != Lit('H');
      NoPairBefore(e, Lit('H'), 2);
      assert e[2..4] == [Lit('H'), Lit('H')];
      ReplaceFirstLeftmost(e, [Lit('H'), Lit('H')], [TwoDigits], 2);
      assert e[..2] + [TwoDigits] + e[4..] == h;
    }
    assert h[0] != Lit('M') && h[1] != Lit('M') && h[2] != Lit('M') && h[3] != Lit('M');
    NoPairBefore(h, Lit('M'), 4);
    assert h[4..6] == [Lit('M'), Lit('M')];
    ReplaceFirstLeftmost(h, [Lit('M'), Lit('M')], [TwoDigits], 4);
    assert h[..4] + [TwoDigits] + h[6..] == [Lit('#'), Lit(' '), TwoDigits, Lit(':'), TwoDigits];
  }

  /** The default template's pattern matches a prefix of `t` exactly when `t` starts with `#`, a space, two digits, `:` and two digits. */
  lemma DefaultPatternShape(p: seq<Token>, t: string)
    requires p == [Lit('#'), Lit(' '), TwoDigits, Lit(':'), TwoDigits]
    ensures MatchesPrefix(p, t) <==>
      |t| >= 7 && t[0] == '#' && t[1] == ' ' && IsDigit(t[2]) && IsDigit(t[3])
      && t[4] == ':' && IsDigit(t[5]) && IsDigit(t[6])
  {
    assert p[1..] == [Lit(' '), TwoDigits, Lit(':'), TwoDigits];
    assert p[2..] == [TwoDigits, Lit(':'), TwoDigits];
    assert p[3..] == [Lit(':'), TwoDigits];
    assert p[4..] == [TwoDigits];
    assert p[5..] == [];
    if |t| >= 2 {
      assert MatchesPrefix(p[2..], t[2..]) <==>
        |t| >= 4 && IsDigit(t[2]) && IsDigit(t[3]) && MatchesPrefix(p[3..], t[4..]);
    }
    if |t| >= 5 {
      assert MatchesPrefix(p[4..], t[5..]) <==> |t| >= 7 && IsDigit(t[5]) && IsDigit(t[6]);
    }
  }

  /** With the default template a line is a timestamp line exactly when its trimmed text starts with `#`, a space, two digits, `:` and two digits. */
  lemma DefaultTemplateRecognises(line: string)
    ensures IsTimestampLine(TimestampPattern("# HH:MM"), line) <==>
      var t := Trim(line);
      |t| >= 7 && t[0] == '#' && t[1] == ' ' && IsDigit(t[2]) && IsDigit(t[3])
      && t[4] == ':' && IsDigit(t[5]) && IsDigit(t[6])
  {
    DefaultPatternExample("# HH:MM");
    DefaultPatternShape(TimestampPattern("# HH:MM"), Trim(line));
  }

  /**
    A template with trailing white space is never matched by the lines it renders: the line is
    trimmed before the test, the pattern keeps the trailing space, and rendering does not add
    characters. With such a template chain mode finds no timestamp of its own making.
   */
  lemma PaddedTemplateNotRecognised(f: string, hour: nat, minute: nat, line: string)
    requires hour < 24 && minute < 60
    requires f != [] && IsSpace(f[|f| - 1])
    requires Trim(line) == Trim(Render(f, hour, minute))
    ensures !IsTimestampLine(TimestampPattern(f), line)
  {
    var r := Render(f, hour, minute);
    RenderChars(f, hour, minute);
    assert IsSpace(r[|r| - 1]) by {
      var c := f[|f| - 1];
      assert c != 'H' && c != 'M';
      assert r[|f| - 1] == c;
    }
    var t := Trim(r);
    TrimSlice(r);
    TrimEnds(r);
    assert |t| < |r| by {
      var a, b :| 0 <= a <= b <= |r| && t == r[a..b] && AllSpace(r[..a]) && AllSpace(r[b..]);
      if b == |r| && t != [] {
        assert t[|t| - 1] == r[|r| - 1];
      }
    }
    if IsTimestampLine(TimestampPattern(f), line) {
      TimestampPatternMatches(f, t);
      var d1, d2 :| DigitPair(d1) && DigitPair(d2)
        && IsPrefix(ReplaceFirst(ReplaceFirst(f, "HH", d1), "MM", d2), t);
      ReplaceFirstSameLength(f, "HH", d1);
      ReplaceFirstSameLength(ReplaceFirst(f, "HH", d1), "MM", d2);
      RenderChars(f, hour, minute);
      assert false;
    }
  }

  /**
    A template that starts with white space recognises no line at all: a recognised line starts,
    once trimmed, with the template's first character, and a trimmed line never starts with white
    space.
   */
  lemma LeadingSpaceTemplateRecognisesNothing(f: string, line: string)
    requires f != [] && IsSpace(f[0])
    ensures !IsTimestampLine(TimestampPattern(f), line)
  {
    assert f[0] != 'H' && f[0] != 'M';
    RecognisedLinesStartLikeTemplate(f, line);
    TrimEnds(line);
  }
}
