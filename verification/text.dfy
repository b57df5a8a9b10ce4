/**
  String helpers that mirror the JavaScript string operations the plugin relies on:
  `trim`, `startsWith`, `split` on one character, and `replace` with a string
  pattern (which replaces only the first occurrence).
 */
module Text {

  /** JavaScript's WhiteSpace and LineTerminator code points, the set `String.prototype.trim` strips. */
  predicate IsSpace(c: char) {
    var n := c as int;
    (9 <= n <= 13) || n == 32 || n == 0xA0 || n == 0x1680 || (0x2000 <= n <= 0x200A)
    || n == 0x2028 || n == 0x2029 || n == 0x202F || n == 0x205F || n == 0x3000 || n == 0xFEFF
  }

  predicate IsDigit(c: char) {
    '0' <= c <= '9'
  }

  predicate AllSpace(s: string) {
    forall i :: 0 <= i < |s| ==> IsSpace(s[i])
  }

  /** `s.startsWith(p)` */
  predicate IsPrefix<T(==)>(p: seq<T>, s: seq<T>) {
    |p| <= |s| && s[..|p|] == p
  }

  /** Strips leading white space. */
  function TrimStart(s: string): string
  {
    if s != [] && IsSpace(s[0]) then TrimStart(s[1..]) else s
  }

  /** TrimStart keeps a suffix of `s`; everything it cuts off is white space, and what remains does not start with white space. */
  lemma {:induction false} TrimStartSpaces(s: string)
    ensures |TrimStart(s)| <= |s| && TrimStart(s) == s[|s| - |TrimStart(s)|..]
    ensures forall i :: 0 <= i < |s| - |TrimStart(s)| ==> IsSpace(s[i])
    ensures TrimStart(s) == [] || !IsSpace(TrimStart(s)[0])
    decreases |s|
  {
    if s != [] && IsSpace(s[0]) {
      TrimStartSpaces(s[1..]);
      forall i | 1 <= i < |s| - |TrimStart(s)| ensures IsSpace(s[i]) {
        assert s[i] == s[1..][i - 1];
      }
    }
  }

  /** Strips trailing white space. */
  function TrimEnd(s: string): string
  {
    if s != [] && IsSpace(s[|s| - 1]) then TrimEnd(s[..|s| - 1]) else s
  }

  /** TrimEnd keeps a prefix of `s`; everything it cuts off is white space, and what remains does not end with white space. */
  lemma {:induction false} TrimEndSpaces(s: string)
    ensures |TrimEnd(s)| <= |s| && TrimEnd(s) == s[..|TrimEnd(s)|]
    ensures forall i :: |TrimEnd(s)| <= i < |s| ==> IsSpace(s[i])
    ensures TrimEnd(s) == [] || !IsSpace(TrimEnd(s)[|TrimEnd(s)| - 1])
    decreases |s|
  {
    if s != [] && IsSpace(s[|s| - 1]) {
      TrimEndSpaces(s[..|s| - 1]);
      forall i | |TrimEnd(s)| <= i < |s| - 1 ensures IsSpace(s[i]) {
        assert s[i] == s[..|s| - 1][i];
      }
    }
  }

  /** `s.trim()` */
  function Trim(s: string): string {
    TrimEnd(TrimStart(s))
  }

  /** `s.trim() === ''` */
  predicate IsBlank(s: string) {
    Trim(s) == []
  }

  /** The trimmed text neither starts nor ends with white space. */
  lemma TrimEnds(s: string)
    ensures Trim(s) == [] || (!IsSpace(Trim(s)[0]) && !IsSpace(Trim(s)[|Trim(s)| - 1]))
  {
    var t := TrimStart(s);
    TrimStartSpaces(s);
    TrimEndSpaces(t);
    if Trim(s) != [] {
      assert Trim(s)[0] == t[0];
    }
  }

  /** The trimmed text is a slice of the input with only white space around it. */
  lemma TrimSlice(s: string)
    ensures exists a, b :: 0 <= a <= b <= |s| && Trim(s) == s[a..b]
                           && AllSpace(s[..a]) && AllSpace(s[b..])
  {
    var t := TrimStart(s);
    TrimStartSpaces(s);
    TrimEndSpaces(t);
    var a := |s| - |t|;
    var b := a + |TrimEnd(t)|;
    assert Trim(s) == s[a..b];
    assert AllSpace(s[..a]);
    assert forall i :: b <= i < |s| ==> s[i] == t[i - a];
    assert AllSpace(s[b..]);
  }

  /** A line is blank exactly when every character of it is white space. */
  lemma BlankIffAllSpace(s: string)
    ensures IsBlank(s) <==> AllSpace(s)
  {
    var t := TrimStart(s);
    if IsBlank(s) {
      // TrimEnd(t) is empty, so t is all white space; t cannot start with white space, so it is empty.
      TrimStartSpaces(s);
      TrimEndSpaces(t);
      assert TrimEnd(t) == [];
      assert t == [];
    } else {
      var r := Trim(s);
      TrimSlice(s);
      TrimEnds(s);
      var a, b :| 0 <= a <= b <= |s| && r == s[a..b] && AllSpace(s[..a]) && AllSpace(s[b..]);
      assert s[a] == r[0] && !IsSpace(r[0]);
    }
  }

  /** Trimming adds no characters. */
  lemma TrimChars(s: string)
    ensures forall c :: c in Trim(s) ==> c in s
  {
    TrimSlice(s);
    var a, b :| 0 <= a <= b <= |s| && Trim(s) == s[a..b] && AllSpace(s[..a]) && AllSpace(s[b..]);
    forall c | c in Trim(s) ensures c in s {
      var i :| 0 <= i < b - a && s[a..b][i] == c;
      assert s[a + i] == c;
    }
  }

  /** Trimming is idempotent. */
  lemma TrimIdempotent(s: string)
    ensures Trim(Trim(s)) == Trim(s)
  {
    var r := Trim(s);
    TrimEnds(s);
    if r != [] {
      assert TrimStart(r) == r;
      assert TrimEnd(r) == r;
    }
  }

  /** A text that starts and ends with non-white-space survives trimming of anything appended to it. */
  lemma TrimKeepsPrefix(r: string, x: string)
    requires Trim(r) == r
    ensures IsPrefix(r, Trim(r + x))
  {
    if r != [] {
      TrimEnds(r);
      var s := r + x;
      assert s[0] == r[0];
      assert TrimStart(s) == s;
      var e := TrimEnd(s);
      TrimEndSpaces(s);
      assert Trim(s) == e;
      assert !IsSpace(s[|r| - 1]) by {
        assert s[|r| - 1] == r[|r| - 1];
      }
      assert |r| <= |e|;
      assert e[..|r|] == s[..|r|] by {
        assert e == s[..|e|];
      }
      assert s[..|r|] == r;
    }
  }

  /** `s.split(sep)` for a one-character separator: always at least one piece, pieces never contain `sep`. */
  function Split(s: string, sep: char): (r: seq<string>)
    ensures |r| > 0
    ensures forall i :: 0 <= i < |r| ==> sep !in r[i]
    ensures forall i, c :: 0 <= i < |r| && c in r[i] ==> c in s
    decreases |s|
  {
    if s == [] then [[]]
    else
      var rest := Split(s[1..], sep);
      assert forall c :: c in s[1..] ==> c in s;
      if s[0] == sep then [[]] + rest
      else [[s[0]] + rest[0]] + rest[1..]
  }

  /** `parts.join(sep)` */
  function Join(parts: seq<string>, sep: char): string
  {
    if parts == [] then []
    else if |parts| == 1 then parts[0]
    else parts[0] + [sep] + Join(parts[1..], sep)
  }

  /** Text without the separator only extends the first piece of whatever follows it. */
  lemma {:induction false} SplitAppend(a: string, b: string, sep: char)
    requires sep !in a
    ensures Split(a + b, sep) == [a + Split(b, sep)[0]] + Split(b, sep)[1..]
    decreases |a|
  {
    if a == [] {
      assert a + b == b;
      var sb := Split(b, sep);
      assert a + sb[0] == sb[0];
      assert sb == [sb[0]] + sb[1..];
    } else {
      SplitAppend(a[1..], b, sep);
      assert (a + b)[1..] == a[1..] + b;
      assert (a + b)[0] == a[0];
      assert [a[0]] + (a[1..] + Split(b, sep)[0]) == a + Split(b, sep)[0];
    }
  }

  /** Joining the pieces of a split gives back the text. */
  lemma {:induction false} JoinSplit(s: string, sep: char)
    ensures Join(Split(s, sep), sep) == s
    decreases |s|
  {
    if s != [] {
      JoinSplit(s[1..], sep);
      var rest := Split(s[1..], sep);
      if s[0] == sep {
        assert ([[]] + rest)[1..] == rest;
      } else {
        assert ([[s[0]] + rest[0]] + rest[1..])[1..] == rest[1..];
        if |rest| > 1 {
          assert Join(rest, sep) == rest[0] + [sep] + Join(rest[1..], sep);
        }
      }
      assert s == [s[0]] + s[1..];
    }
  }

  /** Splitting the join of pieces that do not contain the separator gives back the pieces. */
  lemma {:induction false} SplitJoin(parts: seq<string>, sep: char)
    requires |parts| > 0
    requires forall i :: 0 <= i < |parts| ==> sep !in parts[i]
    ensures Split(Join(parts, sep), sep) == parts
    decreases |parts|
  {
    if |parts| == 1 {
      SplitAppend(parts[0], [], sep);
      assert Split([], sep) == [[]];
      assert parts[0] + [] == parts[0];
      assert parts == [parts[0]];
    } else {
      var tail := Join(parts[1..], sep);
      SplitJoin(parts[1..], sep);
      SplitAfterSep(parts[0], tail, sep);
      assert Join(parts, sep) == parts[0] + [sep] + tail;
      assert parts == [parts[0]] + parts[1..];
    }
  }

  /** A separator-free piece, the separator and a tail split into the piece followed by the tail's pieces. */
  lemma SplitAfterSep(a: string, tail: string, sep: char)
    requires sep !in a
    ensures Split(a + [sep] + tail, sep) == [a] + Split(tail, sep)
  {
    var b := [sep] + tail;
    SplitAppend(a, b, sep);
    assert b[1..] == tail;
    assert Split(b, sep) == [[]] + Split(tail, sep);
    assert a + [] == a;
    assert a + [sep] + tail == a + b;
  }

  /** `pat` occurs in `s` at index `i`. */
  predicate OccursAt<T(==)>(s: seq<T>, pat: seq<T>, i: int) {
    0 <= i && i + |pat| <= |s| && s[i..i + |pat|] == pat
  }

  /** `s.replace(pat, rep)` with a string pattern: only the leftmost occurrence is replaced. */
  function ReplaceFirst<T(==)>(s: seq<T>, pat: seq<T>, rep: seq<T>): seq<T>
    decreases |s|
  {
    if IsPrefix(pat, s) then rep + s[|pat|..]
    else if s == [] then s
    else [s[0]] + ReplaceFirst(s[1..], pat, rep)
  }

  lemma OccursShift<T>(s: seq<T>, pat: seq<T>, i: nat)
    requires s != []
    ensures OccursAt(s, pat, i + 1) <==> OccursAt(s[1..], pat, i)
  {
    if i + 1 + |pat| <= |s| {
      assert s[i + 1..i + 1 + |pat|] == s[1..][i..i + |pat|];
    }
  }

  /** ReplaceFirst leaves a sequence without any occurrence of the pattern unchanged. */
  lemma {:induction false} ReplaceFirstAbsent<T>(s: seq<T>, pat: seq<T>, rep: seq<T>)
    requires forall i :: !OccursAt(s, pat, i)
    ensures ReplaceFirst(s, pat, rep) == s
    decreases |s|
  {
    assert !OccursAt(s, pat, 0);
    if s != [] {
      forall i: nat ensures !OccursAt(s[1..], pat, i) {
        OccursShift(s, pat, i);
      }
      ReplaceFirstAbsent(s[1..], pat, rep);
      assert [s[0]] + s[1..] == s;
    }
  }

  /** ReplaceFirst swaps the leftmost occurrence of the pattern for the replacement and keeps the rest. */
  lemma {:induction false} ReplaceFirstLeftmost<T>(s: seq<T>, pat: seq<T>, rep: seq<T>, i: nat)
    requires OccursAt(s, pat, i)
    requires forall j :: 0 <= j < i ==> !OccursAt(s, pat, j)
    ensures ReplaceFirst(s, pat, rep) == s[..i] + rep + s[i + |pat|..]
    decreases i
  {
    if i == 0 {
      assert IsPrefix(pat, s);
    } else {
      assert !OccursAt(s, pat, 0);
      var t := s[1..];
      OccursShift(s, pat, i - 1);
      forall j: nat | j < i - 1 ensures !OccursAt(t, pat, j) {
        OccursShift(s, pat, j);
      }
      ReplaceFirstLeftmost(t, pat, rep, i - 1);
      assert [s[0]] + t[..i - 1] == s[..i];
      assert t[i - 1 + |pat|..] == s[i + |pat|..];
    }
  }

  /** When the replacement is as long as the pattern, ReplaceFirst keeps the length, and every element it changes comes from the replacement and stood where an element of the pattern stood. */
  lemma {:induction false} ReplaceFirstSameLength<T>(s: seq<T>, pat: seq<T>, rep: seq<T>)
    requires |rep| == |pat|
    ensures |ReplaceFirst(s, pat, rep)| == |s|
    ensures forall i :: 0 <= i < |s| ==>
              ReplaceFirst(s, pat, rep)[i] == s[i] || (ReplaceFirst(s, pat, rep)[i] in rep && s[i] in pat)
    decreases |s|
  {
    if IsPrefix(pat, s) {
      var r := ReplaceFirst(s, pat, rep);
      forall i | 0 <= i < |pat| ensures r[i] in rep && s[i] in pat {
        assert r[i] == rep[i] && s[i] == pat[i];
      }
    } else if s == [] {
    } else {
      ReplaceFirstSameLength(s[1..], pat, rep);
      var r := ReplaceFirst(s, pat, rep);
      forall i | 0 <= i < |s| ensures r[i] == s[i] || (r[i] in rep && s[i] in pat) {
        if i > 0 {
          assert r[i] == ReplaceFirst(s[1..], pat, rep)[i - 1];
          assert s[1..][i - 1] == s[i];
        }
      }
    }
  }

  /** Replacing into a non-empty sequence with a non-empty replacement never yields the empty sequence. */
  lemma ReplaceFirstNonEmpty<T>(s: seq<T>, pat: seq<T>, rep: seq<T>)
    requires s != [] && rep != []
    ensures ReplaceFirst(s, pat, rep) != []
  {
  }

  /** Replacing a pattern that does not start where the sequence does keeps the first element. */
  lemma ReplaceFirstKeepsHead<T>(s: seq<T>, pat: seq<T>, rep: seq<T>)
    requires s != [] && pat != [] && s[0] != pat[0]
    ensures ReplaceFirst(s, pat, rep) != [] && ReplaceFirst(s, pat, rep)[0] == s[0]
  {
    assert !IsPrefix(pat, s);
  }
}
