/**
 * The handful of Python string operations the peer-management code relies on:
 * `str.strip`, `startswith`, `endswith`, the `in` substring test, `split` on one
 * character, `join`, iteration over the lines of a text file, and `str(int)`.
 */
module Text {

  /** Python's `str.isspace`, i.e. the characters that `str.strip()` removes. */
  predicate IsSpace(c: char) {
    var n := c as int;
    n == 0x20 || 0x09 <= n <= 0x0D || 0x1C <= n <= 0x1F || n == 0x85 || n == 0xA0
    || n == 0x1680 || 0x2000 <= n <= 0x200A || n == 0x2028 || n == 0x2029
    || n == 0x202F || n == 0x205F || n == 0x3000
  }

  /** `s.rstrip()`: drops trailing whitespace. */
  function RStrip(s: string): (r: string)
    ensures |r| <= |s| && r == s[..|r|]
    ensures r == [] || !IsSpace(r[|r| - 1])
  {
    if |s| > 0 && IsSpace(s[|s| - 1]) then RStrip(s[..|s| - 1]) else s
  }

  /** What `rstrip` drops is whitespace. */
  lemma {:induction false} RStripDrops(s: string)
    ensures forall i :: |RStrip(s)| <= i < |s| ==> IsSpace(s[i])
  {
    if |s| > 0 && IsSpace(s[|s| - 1]) {
      RStripDrops(s[..|s| - 1]);
    }
  }

  /** `s.lstrip()`: drops leading whitespace. */
  function LStrip(s: string): (r: string)
    ensures |r| <= |s| && r == s[|s| - |r|..]
    ensures r == [] || !IsSpace(r[0])
  {
    if |s| > 0 && IsSpace(s[0]) then LStrip(s[1..]) else s
  }

  /** What `lstrip` drops is whitespace. */
  lemma {:induction false} LStripDrops(s: string)
    ensures forall i :: 0 <= i < |s| - |LStrip(s)| ==> IsSpace(s[i])
  {
    if |s| > 0 && IsSpace(s[0]) {
      LStripDrops(s[1..]);
      assert forall i :: 1 <= i < |s| ==> s[i] == s[1..][i - 1];
    }
  }

  /** `s.strip()`: drops whitespace at both ends. */
  function Strip(s: string): (r: string)
    ensures |r| <= |s|
    ensures r == [] || (!IsSpace(r[0]) && !IsSpace(r[|r| - 1]))
  {
    LStrip(RStrip(s))
  }

  /** `s.startswith(p)`. */
  predicate StartsWith(s: string, p: string) {
    |p| <= |s| && s[..|p|] == p
  }

  /** `s.endswith(c)` for a one-character suffix. */
  predicate EndsWith(s: string, c: char) {
    |s| > 0 && s[|s| - 1] == c
  }

  /** `t` occurs in `s` starting at index `i`. */
  predicate OccursAt(s: string, t: string, i: int) {
    0 <= i && i + |t| <= |s| && s[i..i + |t|] == t
  }

  /** Python's `t in s` on strings: `t` occurs somewhere in `s`. */
  predicate Contains(s: string, t: string) {
    exists i :: 0 <= i <= |s| - |t| && OccursAt(s, t, i)
  }

  /** `s.split(sep)` for a one-character separator: never empty, no piece holds `sep`. */
  function Split(s: string, sep: char): (r: seq<string>)
    ensures |r| >= 1
    ensures forall i :: 0 <= i < |r| ==> sep !in r[i]
  {
    if s == [] then [[]]
    else
      var rest := Split(s[1..], sep);
      if s[0] == sep then [[]] + rest else [[s[0]] + rest[0]] + rest[1..]
  }

  /** `sep.join(lines)`. */
  function Join(lines: seq<string>, sep: char): string {
    if |lines| == 0 then []
    else if |lines| == 1 then lines[0]
    else lines[0] + [sep] + Join(lines[1..], sep)
  }

  /** The concatenation of a sequence of strings (`"".join(lines)`). */
  function Concat(lines: seq<string>): string {
    if lines == [] then [] else lines[0] + Concat(lines[1..])
  }

  /** Each piece followed by a newline. */
  function WithNewlines(pieces: seq<string>): (r: seq<string>)
    ensures |r| == |pieces|
    ensures forall i :: 0 <= i < |r| ==> r[i] == pieces[i] + "\n"
  {
    if pieces == [] then [] else [pieces[0] + "\n"] + WithNewlines(pieces[1..])
  }

  /**
   * The lines a Python text file yields when iterated (`for line in f`,
   * `f.readlines()`): each line keeps its terminating newline, and a final
   * line without one is yielded only if it is not empty.
   */
  function ReadLines(s: string): seq<string> {
    var parts := Split(s, '\n');
    var last := parts[|parts| - 1];
    WithNewlines(parts[..|parts| - 1]) + (if last == [] then [] else [last])
  }

  function DigitChar(d: nat): (c: char)
    requires d < 10
    ensures '0' <= c <= '9'
  {
    (d + 48) as char
  }

  predicate IsDigit(c: char) {
    '0' <= c <= '9'
  }

  function DigitValue(c: char): (d: nat)
    requires IsDigit(c)
    ensures d < 10
  {
    c as int - 48
  }

  /** `str(n)` for a non-negative integer: its decimal digits, no leading zero. */
  function NatToString(n: nat): (r: string)
    ensures |r| >= 1
    ensures forall i :: 0 <= i < |r| ==> IsDigit(r[i])
    ensures |r| > 1 ==> r[0] != '0'
  {
    if n < 10 then [DigitChar(n)] else NatToString(n / 10) + [DigitChar(n % 10)]
  }

  /** `str(i)` for any integer. */
  function IntToString(i: int): (r: string)
    ensures |r| >= 1
    ensures i < 0 <==> r[0] == '-'
  {
    if i < 0 then "-" + NatToString(-i) else NatToString(i)
  }

  /** The value of a string of decimal digits (`int(s)` on such a string). */
  function ParseNat(s: string): nat
    requires forall i :: 0 <= i < |s| ==> IsDigit(s[i])
  {
    if s == [] then 0 else ParseNat(s[..|s| - 1]) * 10 + DigitValue(s[|s| - 1])
  }

  // ---------------------------------------------------------------------------
  // Lemmas
  // ---------------------------------------------------------------------------

  /** Reading back the decimal text of `n` gives `n`. */
  lemma {:induction false} ParseNatToString(n: nat)
    ensures ParseNat(NatToString(n)) == n
  {
    if n >= 10 {
      var s := NatToString(n);
      assert s[..|s| - 1] == NatToString(n / 10);
      ParseNatToString(n / 10);
    }
  }

  /** Distinct numbers have distinct decimal texts. */
  lemma NatToStringInjective(a: nat, b: nat)
    ensures NatToString(a) == NatToString(b) ==> a == b
  {
    ParseNatToString(a);
    ParseNatToString(b);
  }

  lemma JoinCons(x: string, rest: seq<string>, sep: char)
    requires |rest| >= 1
    ensures Join([x] + rest, sep) == x + [sep] + Join(rest, sep)
  {
    assert ([x] + rest)[1..] == rest;
  }

  /** `sep.join(s.split(sep)) == s`. */
  lemma {:induction false} JoinSplit(s: string, sep: char)
    ensures Join(Split(s, sep), sep) == s
  {
    if s != [] {
      var rest := Split(s[1..], sep);
      JoinSplit(s[1..], sep);
      if s[0] == sep {
        JoinCons([], rest, sep);
        assert s == [sep] + s[1..];
      } else if |rest| == 1 {
        assert Split(s, sep) == [[s[0]] + rest[0]];
        assert s == [s[0]] + s[1..];
      } else {
        assert rest == [rest[0]] + rest[1..];
        JoinCons(rest[0], rest[1..], sep);
        JoinCons([s[0]] + rest[0], rest[1..], sep);
        assert s == [s[0]] + s[1..];
      }
    }
  }

  /** A text without the separator splits into itself alone. */
  lemma {:induction false} SplitNoSep(s: string, sep: char)
    requires sep !in s
    ensures Split(s, sep) == [s]
  {
    if s != [] {
      SplitNoSep(s[1..], sep);
      assert s == [s[0]] + s[1..];
    }
  }

  /** Splitting distributes over a separator: the pieces of `a`, then those of `b`. */
  lemma {:induction false} SplitAppend(a: string, b: string, sep: char)
    ensures Split(a + [sep] + b, sep) == Split(a, sep) + Split(b, sep)
  {
    if a == [] {
      assert a + [sep] + b == [sep] + b;
      assert ([sep] + b)[1..] == b;
    } else {
      var s := a + [sep] + b;
      assert s[0] == a[0] && s[1..] == a[1..] + [sep] + b;
      SplitAppend(a[1..], b, sep);
    }
  }

  /** `s.split(sep)` undoes `sep.join(lines)` when no line holds the separator. */
  lemma {:induction false} SplitJoin(lines: seq<string>, sep: char)
    requires |lines| >= 1
    requires forall i :: 0 <= i < |lines| ==> sep !in lines[i]
    ensures Split(Join(lines, sep), sep) == lines
  {
    SplitNoSep(lines[0], sep);
    if |lines| > 1 {
      SplitJoin(lines[1..], sep);
      SplitAppend(lines[0], Join(lines[1..], sep), sep);
      assert lines == [lines[0]] + lines[1..];
    }
  }

  /** Concatenating the lines of a file gives back the file. */
  lemma {:induction false} ConcatReadLines(s: string)
    ensures Concat(ReadLines(s)) == s
  {
    var parts := Split(s, '\n');
    var last := parts[|parts| - 1];
    JoinSplit(s, '\n');
    ConcatWithNewlines(parts[..|parts| - 1], last);
    assert parts[..|parts| - 1] + [last] == parts;
    ConcatAppend(WithNewlines(parts[..|parts| - 1]), if last == [] then [] else [last]);
  }

  lemma {:induction false} ConcatAppend(a: seq<string>, b: seq<string>)
    ensures Concat(a + b) == Concat(a) + Concat(b)
  {
    if a != [] {
      assert (a + b)[0] == a[0] && (a + b)[1..] == a[1..] + b;
      ConcatAppend(a[1..], b);
      calc {
        Concat(a + b);
        a[0] + Concat(a[1..] + b);
        a[0] + (Concat(a[1..]) + Concat(b));
        (a[0] + Concat(a[1..])) + Concat(b);
      }
    } else {
      assert a + b == b;
    }
  }

  lemma {:induction false} ConcatWithNewlines(pieces: seq<string>, last: string)
    ensures Concat(WithNewlines(pieces)) + last == Join(pieces + [last], '\n')
  {
    if pieces != [] {
      ConcatWithNewlines(pieces[1..], last);
      assert pieces + [last] == [pieces[0]] + (pieces[1..] + [last]);
      JoinCons(pieces[0], pieces[1..] + [last], '\n');
    }
  }

  /** A substring of either part is a substring of the whole. */
  lemma ContainsConcat(a: string, b: string, t: string)
    ensures Contains(a, t) || Contains(b, t) ==> Contains(a + b, t)
  {
    if Contains(a, t) {
      var i: int :| OccursAt(a, t, i);
      assert OccursAt(a, t, i);
      assert (a + b)[i..i + |t|] == a[i..i + |t|];
      assert OccursAt(a + b, t, i);
    } else if Contains(b, t) {
      var i: int :| OccursAt(b, t, i);
      assert OccursAt(b, t, i);
      assert 0 <= i && i + |t| <= |b| && b[i..i + |t|] == t;
      assert (a + b)[|a| + i..|a| + i + |t|] == b[i..i + |t|];
      assert OccursAt(a + b, t, |a| + i);
    }
  }

  /** A character that is not in `s` cannot be part of a substring of `s`. */
  lemma ContainsChar(s: string, t: string, c: char)
    requires c in t && c !in s
    ensures !Contains(s, t)
  {
    var k :| 0 <= k < |t| && t[k] == c;
    forall i | 0 <= i && i + |t| <= |s|
      ensures !OccursAt(s, t, i)
    {
      assert s[i..i + |t|][k] == s[i + k] != c;
    }
  }

  /** Stripping ignores a leading whitespace character. */
  lemma StripLeadingSpace(c: char, s: string)
    requires IsSpace(c)
    ensures Strip([c] + s) == Strip(s)
  {
    if RStrip([c] + s) == [] {
      RStripDrops([c] + s);
      forall i | 0 <= i < |s|
        ensures IsSpace(s[i])
      {
        assert s[i] == ([c] + s)[i + 1];
      }
      RStripSpaces(s);
    } else {
      RStripCons(c, s);
      assert ([c] + RStrip(s))[1..] == RStrip(s);
    }
  }

  lemma {:induction false} RStripCons(c: char, s: string)
    requires RStrip([c] + s) != []
    ensures RStrip([c] + s) == [c] + RStrip(s)
  {
    if |s| > 0 && IsSpace(s[|s| - 1]) {
      assert ([c] + s)[..|s|] == [c] + s[..|s| - 1];
      RStripCons(c, s[..|s| - 1]);
    }
  }

  lemma {:induction false} RStripSpaces(s: string)
    requires forall i :: 0 <= i < |s| ==> IsSpace(s[i])
    ensures RStrip(s) == []
  {
    if |s| > 0 {
      RStripSpaces(s[..|s| - 1]);
    }
  }

  /** Stripping ignores a trailing whitespace character. */
  lemma StripTrailingSpace(s: string, c: char)
    requires IsSpace(c)
    ensures Strip(s + [c]) == Strip(s)
  {
    assert (s + [c])[..|s|] == s;
  }

  /** A text whose ends are not whitespace is its own strip. */
  lemma StripNoSpaceEnds(s: string)
    requires s == [] || (!IsSpace(s[0]) && !IsSpace(s[|s| - 1]))
    ensures Strip(s) == s
  {
  }

  /**
   * Stripping keeps a prefix `p` that starts and ends with non-whitespace
   * characters: `(p + rest).strip().startswith(p)`.
   */
  lemma StripKeepsPrefix(p: string, rest: string)
    requires |p| >= 1 && !IsSpace(p[0]) && !IsSpace(p[|p| - 1])
    ensures StartsWith(Strip(p + rest), p)
  {
    var s := p + rest;
    var r := RStrip(s);
    RStripDrops(s);
    assert s[|p| - 1] == p[|p| - 1];
    assert |r| >= |p|;
    assert r[..|p|] == p;
    assert LStrip(r) == r;
  }

  /** Every line of `sep.join(lines)` is a substring of it. */
  lemma {:induction false} JoinContains(lines: seq<string>, j: int, sep: char)
    requires 0 <= j < |lines|
    ensures Contains(Join(lines, sep), lines[j])
  {
    if |lines| == 1 {
      assert OccursAt(lines[0], lines[0], 0);
    } else {
      var rest := Join(lines[1..], sep);
      assert Join(lines, sep) == lines[0] + ([sep] + rest);
      if j == 0 {
        assert OccursAt(lines[0], lines[0], 0);
        ContainsConcat(lines[0], [sep] + rest, lines[0]);
      } else {
        JoinContains(lines[1..], j - 1, sep);
        ContainsConcat([sep], rest, lines[j]);
        ContainsConcat(lines[0], [sep] + rest, lines[j]);
      }
    }
  }

  /** A text contains itself. */
  lemma ContainsSelf(s: string)
    ensures Contains(s, s)
  {
    assert OccursAt(s, s, 0);
  }

  /** `rstrip` removes exactly a whitespace suffix. */
  lemma {:induction false} RStripSuffix(s: string, after: string)
    requires s == [] || !IsSpace(s[|s| - 1])
    requires forall i :: 0 <= i < |after| ==> IsSpace(after[i])
    ensures RStrip(s + after) == s
  {
    if after == [] {
      assert s + after == s;
    } else {
      var init := after[..|after| - 1];
      assert (s + after)[..|s + after| - 1] == s + init;
      RStripSuffix(s, init);
    }
  }

  /** `lstrip` removes exactly a whitespace prefix. */
  lemma {:induction false} LStripPrefix(before: string, s: string)
    requires s == [] || !IsSpace(s[0])
    requires forall i :: 0 <= i < |before| ==> IsSpace(before[i])
    ensures LStrip(before + s) == s
  {
    if before == [] {
      assert before + s == s;
    } else {
      assert (before + s)[1..] == before[1..] + s;
      LStripPrefix(before[1..], s);
    }
  }

  /** `strip` gives back a text surrounded only by whitespace. */
  lemma StripAround(before: string, key: string, after: string)
    requires key == [] || (!IsSpace(key[0]) && !IsSpace(key[|key| - 1]))
    requires forall i :: 0 <= i < |before| ==> IsSpace(before[i])
    requires forall i :: 0 <= i < |after| ==> IsSpace(after[i])
    ensures Strip(before + key + after) == key
  {
    if key == [] {
      assert before + key + after == before + after;
      RStripSpaces(before + after);
    } else {
      RStripSuffix(before + key, after);
      LStripPrefix(before, key);
    }
  }

  /** A text holding the separator splits into at least two pieces. */
  lemma {:induction false} SplitHasSep(s: string, sep: char)
    requires sep in s
    ensures |Split(s, sep)| >= 2
  {
    if s[0] != sep {
      assert sep in s[1..] by {
        var k :| 0 <= k < |s| && s[k] == sep;
        assert s[1..][k - 1] == sep;
      }
      SplitHasSep(s[1..], sep);
    }
  }

  /** The first piece of `a + [sep] + b` is `a` when `a` holds no separator. */
  lemma SplitFirstPieces(a: string, b: string, sep: char)
    requires sep !in a
    ensures Split(a + [sep] + b, sep) == [a] + Split(b, sep)
  {
    SplitAppend(a, b, sep);
    SplitNoSep(a, sep);
  }

  /** `s.split(sep)` has a second piece exactly when `sep` occurs in `s`. */
  lemma SplitSecondPiece(s: string, sep: char)
    ensures |Split(s, sep)| >= 2 <==> sep in s
  {
    if sep in s {
      SplitHasSep(s, sep);
    } else {
      SplitNoSep(s, sep);
    }
  }

  /** Concatenation is associative (stated on its own to keep callers' contexts small). */
  lemma ConcatAssoc<T>(x: seq<T>, y: seq<T>, z: seq<T>)
    ensures x + (y + z) == (x + y) + z
  {
  }
}
